/** Worked scenarios: a two-row table, one row downloaded with chains "A;B",
    run through task construction and the per-entry worker. */
module Scenarios {
  import opened Paths
  import opened TerFilter
  import opened Store
  import opened Text
  import opened Catalog
  import opened Worker

  const Table: seq<Row> := [Row("1ABC", "A;B", true), Row("2XYZ", "A", false)]
  const OutDir: Path := "out"
  const Written: seq<Line> := ["ATOM      1\n", "TER       2\n", "ATOM      3\n", "TER       4\n", "END\n"]

  /** Only the downloaded row becomes a task, with its chain list split on ';'. */
  lemma TableTasks()
    ensures BuildTasks(Table, OutDir) == [Task("1ABC", ["A", "B"], OutDir)]
  {
    var pieces := ["A", "B"];
    assert JoinWith(pieces, ';') == "A;B";
    JoinSplit(pieces, ';');
    assert ChainList("A;B") == pieces;
    var rest := Table[1..];
    assert rest == [Row("2XYZ", "A", false)] && rest[1..] == [];
    assert BuildTasks(rest, OutDir) == [];
  }

  /** A line whose first character is not 'T' is not a TER record. */
  lemma NotTer(line: Line)
    requires |line| > 0 && line[0] != 'T'
    ensures !IsTer(line)
  {  }

  /** The writer's two TER records: the early one is dropped, the one among
      the last two lines is kept. */
  lemma WrittenPostProcessed()
    ensures NoTer(Written) == ["ATOM      1\n", "ATOM      3\n", "TER       4\n", "END\n"]
  {
    var finals := ["TER       4\n", "END\n"];
    assert FinalLines(Written) == finals;
    assert IsTer("TER       2\n") && IsTer("TER       4\n");
    NotTer("ATOM      1\n");
    NotTer("ATOM      3\n");
    NotTer("END\n");
    assert "TER       2\n" !in finals;
    var front := [Written[0], Written[1], Written[2]];
    assert Written == front + finals;
    KeepLinesAppend(front, finals, finals);
    KeepLinesLength(finals, finals);
    assert front[1..][1..][1..] == [];
  }

  /** A writer that emits bare, identical `TER` records: the file ends with a
      TER record and an END record, so no TER record is removed and the file
      keeps both chain terminators. */
  lemma BareTerRecordsKept()
    ensures var lines := ["ATOM      1\n", "TER\n", "ATOM      2\n", "TER\n", "END\n"];
            NoTer(lines) == lines
  {
    var lines := ["ATOM      1\n", "TER\n", "ATOM      2\n", "TER\n", "END\n"];
    assert lines[|lines| - 2..] == ["TER\n", "END\n"];
    NotTer("ATOM      1\n");
    NotTer("ATOM      2\n");
    NotTer("END\n");
    IdenticalTerRecordsKept(lines, "TER\n");
  }

  /** The paths of the scenario. */
  lemma ScenarioPaths()
    ensures GetPdb("1ABC") == "./PDBs/1ABC.pdb"
    ensures OutputPath(OutDir, "1ABC", "A") == "out/1ABC_A.pdb"
  {  }

  /** Of chains A and B, only A has a selection to write. */
  lemma OnlyChainASelected(d: Disk, u: Universe, chains: seq<string>)
    requires chains == ["A", "B"]
    requires Selects(u, "A") && !Selects(u, "B")
    requires OutputPath(OutDir, "1ABC", "A") !in d.files
    ensures NewOutputs(d.files, "1ABC", OutDir, u, chains) == {OutputPath(OutDir, "1ABC", "A")}
  {  }

  /** A structure in which chain A has protein atoms and chain B has none:
      only `out/1ABC_A.pdb` is created, holding the writer's lines minus the
      early TER record, and the task still succeeds. */
  lemma ChainWithoutAtoms(d: Disk, u: Universe, task: Task)
    requires task == Task("1ABC", ["A", "B"], OutDir)
    requires d.files.Keys == {"./PDBs/1ABC.pdb"}
    requires u.select("A") == Selected(2, Written) && u.select("B") == Selected(0, [])
    ensures var o := EntryOutcome(d, task, Loaded(u));
            && o.processed
            && o.disk.files.Keys == {"./PDBs/1ABC.pdb", "out/1ABC_A.pdb"}
            && o.disk.files["out/1ABC_A.pdb"] == ["ATOM      1\n", "ATOM      3\n", "TER       4\n", "END\n"]

  {
    ScenarioPaths();
    var outA := OutputPath(OutDir, "1ABC", "A");
    var chains := task.chainList;
    var r := ProcessChains(d, task.accession, task.targetDir, u, chains);
    assert EntryOutcome(d, task, Loaded(u)) == Outcome(true, r);
    OnlyChainASelected(d, u, chains);
    ProcessChainsFiles(d, "1ABC", OutDir, u, chains);
    assert "A" in chains && Selects(u, "A");
    ProcessChainsContent(d, "1ABC", OutDir, u, chains, "A");
    assert r.files[outA] == NoTer(Written);
    WrittenPostProcessed();
  }
}
