/** The per-entry worker `process_pdb_entry`: load one structure file, then for
    each requested chain, in list order, write the chain's protein atoms to
    `<target_dir>/<accession>_<chain>.pdb` and post-process that file, never
    touching an output that already exists. The structure library is an
    oracle: whether the file loads, and per chain what the selection gives. */
module Worker {
  import opened Paths
  import opened TerFilter
  import opened Store
  import opened Catalog

  /** What `u.select_atoms(f"protein and chainID {chain_ID}")` gives: an
      exception, or a selection with its atom count and the lines the PDB
      writer produces for it. */
  datatype Selection = SelectRaised | Selected(nAtoms: nat, pdbLines: seq<Line>)

  /** A loaded structure, seen only through its per-chain protein selection. */
  datatype Universe = Universe(select: string -> Selection)

  /** What `mda.Universe(file_path)` gives: an exception or a structure. */
  datatype Load = LoadRaised | Loaded(universe: Universe)

  /** What `process_pdb_entry` reports, with the store it leaves behind. */
  datatype Outcome = Outcome(processed: bool, disk: Disk)

  /** The chain's protein selection is non-empty, so an output gets written. */
  predicate Selects(u: Universe, chain: string) {
    u.select(chain).Selected? && u.select(chain).nAtoms > 0
  }

  /** One iteration of the chain loop. */
  function ChainStep(d: Disk, accession: string, targetDir: Path, u: Universe, chain: string): Disk {
    var outputPdb := OutputPath(targetDir, accession, chain);
    if outputPdb in d.files then d
    else match u.select(chain)
      case SelectRaised => d
      case Selected(n, lines) => if n > 0 then PostProcessed(WriteFile(d, outputPdb, lines), outputPdb) else d
  }

  /** The chain loop run over `chains`, in order. */
  function ProcessChains(d: Disk, accession: string, targetDir: Path, u: Universe, chains: seq<string>): Disk
    decreases |chains|
  {
    if chains == [] then d
    else ChainStep(ProcessChains(d, accession, targetDir, u, chains[..|chains| - 1]),
                   accession, targetDir, u, chains[|chains| - 1])
  }

  /** The whole of `process_pdb_entry` on a store snapshot. */
  function EntryOutcome(d: Disk, task: Task, load: Load): Outcome {
    if GetPdb(task.accession) !in d.files then Outcome(false, d)
    else match load
      case LoadRaised => Outcome(false, d)
      case Loaded(u) => Outcome(true, ProcessChains(d, task.accession, task.targetDir, u, task.chainList))
  }

  /** The output paths the loop is expected to create: one per listed chain
      with a non-empty selection whose output did not exist beforehand. */
  function NewOutputs(files: map<Path, seq<Line>>, accession: string, targetDir: Path,
                      u: Universe, chains: seq<string>): set<Path>
  {
    set c | c in chains && Selects(u, c) && OutputPath(targetDir, accession, c) !in files
      :: OutputPath(targetDir, accession, c)
  }

  // ---------------------------------------------------------------------------
  // One chain

  /** One iteration changes at most the chain's own output: an existing output
      is skipped untouched, and a missing one is created with the
      post-processed selection when the selection is non-empty. */
  lemma ChainStepFiles(d: Disk, accession: string, targetDir: Path, u: Universe, chain: string)
    ensures var out := OutputPath(targetDir, accession, chain);
            ChainStep(d, accession, targetDir, u, chain).files
            == if out !in d.files && Selects(u, chain)
               then d.files[out := NoTer(u.select(chain).pdbLines)] else d.files
  {
    var out := OutputPath(targetDir, accession, chain);
    if out !in d.files && Selects(u, chain) {
      var lines := u.select(chain).pdbLines;
      var w := WriteFile(d, out, lines);
      PostProcessedEffect(w, out);
      assert w.files[out := NoTer(lines)] == d.files[out := NoTer(lines)];
    }
  }

  /** One iteration logs writes only to the chain's own output, and only when
      it creates that output. */
  lemma ChainStepLog(d: Disk, accession: string, targetDir: Path, u: Universe, chain: string)
    ensures var r := ChainStep(d, accession, targetDir, u, chain);
            var out := OutputPath(targetDir, accession, chain);
            && |d.log| <= |r.log| && r.log[..|d.log|] == d.log
            && (forall j :: |d.log| <= j < |r.log| ==> r.log[j] == out)
            && (|r.log| > |d.log| <==> out !in d.files && Selects(u, chain))
  {
    var out := OutputPath(targetDir, accession, chain);
    var r := ChainStep(d, accession, targetDir, u, chain);
    if out !in d.files && Selects(u, chain) {
      var w := WriteFile(d, out, u.select(chain).pdbLines);
      assert r == PostProcessed(w, out);
      PostProcessedEffect(w, out);
      var extra := if !NoRemovableTer(w.files[out]) then [out] else [];
      assert r.log == d.log + [out] + extra;
    } else {
      assert r == d;
    }
  }

  /** The outputs expected after one more chain. */
  lemma NewOutputsSnoc(files: map<Path, seq<Line>>, accession: string, targetDir: Path,
                       u: Universe, chains: seq<string>, chain: string)
    ensures NewOutputs(files, accession, targetDir, u, chains + [chain])
         == NewOutputs(files, accession, targetDir, u, chains)
            + (if Selects(u, chain) && OutputPath(targetDir, accession, chain) !in files
               then {OutputPath(targetDir, accession, chain)} else {})
  {  }

  // ---------------------------------------------------------------------------
  // The chain loop

  /** Over the whole loop: files that existed are unchanged, and the files
      that exist afterwards are exactly the old ones plus NewOutputs. */
  lemma {:induction false} ProcessChainsFiles(d: Disk, accession: string, targetDir: Path,
                                              u: Universe, chains: seq<string>)
    ensures var r := ProcessChains(d, accession, targetDir, u, chains);
            && (forall p :: p in d.files ==> p in r.files && r.files[p] == d.files[p])
            && r.files.Keys == d.files.Keys + NewOutputs(d.files, accession, targetDir, u, chains)
    decreases |chains|
  {
    if chains != [] {
      var front, chain := chains[..|chains| - 1], chains[|chains| - 1];
      assert chains == front + [chain];
      var mid := ProcessChains(d, accession, targetDir, u, front);
      var r := ProcessChains(d, accession, targetDir, u, chains);
      assert r == ChainStep(mid, accession, targetDir, u, chain);
      ProcessChainsFiles(d, accession, targetDir, u, front);
      ChainStepFiles(mid, accession, targetDir, u, chain);
      NewOutputsSnoc(d.files, accession, targetDir, u, front, chain);
    }
  }

  /** Over the whole loop the log only grows, and only by writes to new
      outputs: nothing that existed is ever written. */
  lemma {:induction false} ProcessChainsLog(d: Disk, accession: string, targetDir: Path,
                                            u: Universe, chains: seq<string>)
    ensures var r := ProcessChains(d, accession, targetDir, u, chains);
            var created := NewOutputs(d.files, accession, targetDir, u, chains);
            && |d.log| <= |r.log| && r.log[..|d.log|] == d.log
            && (forall j :: |d.log| <= j < |r.log| ==> r.log[j] in created)
    decreases |chains|
  {
    if chains != [] {
      var front, chain := chains[..|chains| - 1], chains[|chains| - 1];
      assert chains == front + [chain];
      var mid := ProcessChains(d, accession, targetDir, u, front);
      var r := ProcessChains(d, accession, targetDir, u, chains);
      assert r == ChainStep(mid, accession, targetDir, u, chain);
      ProcessChainsLog(d, accession, targetDir, u, front);
      ProcessChainsFiles(d, accession, targetDir, u, front);
      ChainStepLog(mid, accession, targetDir, u, chain);
      NewOutputsSnoc(d.files, accession, targetDir, u, front, chain);
      var out := OutputPath(targetDir, accession, chain);
      var created := NewOutputs(d.files, accession, targetDir, u, chains);
      forall j | |d.log| <= j < |r.log| ensures r.log[j] in created {
        if j < |mid.log| {
          assert r.log[j] == r.log[..|mid.log|][j] == mid.log[j];
        } else {
          assert |r.log| > |mid.log|;
          assert out !in d.files && Selects(u, chain);
          assert r.log[j] == out;
        }
      }
    }
  }

  /** A listed chain with a non-empty selection whose output did not exist
      ends up with an output holding its post-processed selection. */
  lemma {:induction false} ProcessChainsContent(d: Disk, accession: string, targetDir: Path,
                                                u: Universe, chains: seq<string>, c: string)
    requires c in chains && Selects(u, c) && OutputPath(targetDir, accession, c) !in d.files
    ensures var r := ProcessChains(d, accession, targetDir, u, chains);
            && OutputPath(targetDir, accession, c) in r.files
            && r.files[OutputPath(targetDir, accession, c)] == NoTer(u.select(c).pdbLines)
    decreases |chains|
  {
    var front, chain := chains[..|chains| - 1], chains[|chains| - 1];
    assert chains == front + [chain];
    var mid := ProcessChains(d, accession, targetDir, u, front);
    var r := ProcessChains(d, accession, targetDir, u, chains);
    assert r == ChainStep(mid, accession, targetDir, u, chain);
    ChainStepFiles(mid, accession, targetDir, u, chain);
    var p, out := OutputPath(targetDir, accession, c), OutputPath(targetDir, accession, chain);
    if p == out {
      OutputPathInjective(targetDir, accession, c, chain);
      if out in mid.files {
        // created earlier in the loop, necessarily by the same chain
        ProcessChainsFiles(d, accession, targetDir, u, front);
        assert out in NewOutputs(d.files, accession, targetDir, u, front);
        var c1 :| c1 in front && Selects(u, c1) && OutputPath(targetDir, accession, c1) !in d.files
                  && OutputPath(targetDir, accession, c1) == out;
        OutputPathInjective(targetDir, accession, c1, chain);
        ProcessChainsContent(d, accession, targetDir, u, front, c);
      }
    } else {
      assert c in front;
      ProcessChainsContent(d, accession, targetDir, u, front, c);
    }
  }

  /** Running the loop a chain at a time over chains that are all fixed points
      of the step changes nothing. */
  lemma {:induction false} ProcessChainsStable(d: Disk, accession: string, targetDir: Path,
                                               u: Universe, chains: seq<string>)
    requires forall c :: c in chains ==> ChainStep(d, accession, targetDir, u, c) == d
    ensures ProcessChains(d, accession, targetDir, u, chains) == d
    decreases |chains|
  {
    if chains != [] {
      var front := chains[..|chains| - 1];
      assert forall c :: c in front ==> c in chains;
      ProcessChainsStable(d, accession, targetDir, u, front);
    }
  }

  /** After the loop, processing any listed chain again does nothing: its
      output either exists, or its selection is empty or raised. */
  lemma ProcessChainsSettled(d: Disk, accession: string, targetDir: Path,
                             u: Universe, chains: seq<string>, chain: string)
    requires chain in chains
    ensures var r := ProcessChains(d, accession, targetDir, u, chains);
            ChainStep(r, accession, targetDir, u, chain) == r
  {
    var r := ProcessChains(d, accession, targetDir, u, chains);
    ProcessChainsFiles(d, accession, targetDir, u, chains);
    var out := OutputPath(targetDir, accession, chain);
    if Selects(u, chain) && out !in d.files {
      assert out in NewOutputs(d.files, accession, targetDir, u, chains);
    }
  }

  /** Skip-if-exists makes the loop idempotent: a second run over the same
      chains writes nothing and changes nothing. */
  lemma ProcessChainsIdempotent(d: Disk, accession: string, targetDir: Path,
                                u: Universe, chains: seq<string>)
    ensures var r := ProcessChains(d, accession, targetDir, u, chains);
            ProcessChains(r, accession, targetDir, u, chains) == r
  {
    var r := ProcessChains(d, accession, targetDir, u, chains);
    forall c | c in chains ensures ChainStep(r, accession, targetDir, u, c) == r {
      ProcessChainsSettled(d, accession, targetDir, u, chains, c);
    }
    ProcessChainsStable(r, accession, targetDir, u, chains);
  }

  /** A chain repeated later in the list is written at most once: its second
      occurrence finds the output present (or the selection empty again). */
  lemma RepeatedChainIgnored(d: Disk, accession: string, targetDir: Path,
                             u: Universe, chains: seq<string>, chain: string)
    requires chain in chains
    ensures ProcessChains(d, accession, targetDir, u, chains + [chain])
         == ProcessChains(d, accession, targetDir, u, chains)
  {
    var all := chains + [chain];
    assert all[..|all| - 1] == chains;
    ProcessChainsSettled(d, accession, targetDir, u, chains, chain);
  }

  // ---------------------------------------------------------------------------
  // The whole entry

  /** The entry reports success exactly when its input file exists and loads;
      otherwise the store is untouched. Either way, files that existed keep
      their contents, the files created are exactly NewOutputs, each holding
      its post-processed selection, and every logged write is to a new output. */
  lemma EntryOutcomeSpec(d: Disk, task: Task, load: Load)
    ensures var o := EntryOutcome(d, task, load);
            && (o.processed <==> GetPdb(task.accession) in d.files && load.Loaded?)
            && (!o.processed ==> o.disk == d)
            && (forall p :: p in d.files ==> p in o.disk.files && o.disk.files[p] == d.files[p])
            && (o.processed ==>
                  var created := NewOutputs(d.files, task.accession, task.targetDir, load.universe, task.chainList);
                  && o.disk.files.Keys == d.files.Keys + created
                  && (forall c :: c in task.chainList && Selects(load.universe, c)
                                  && OutputPath(task.targetDir, task.accession, c) !in d.files ==>
                        o.disk.files[OutputPath(task.targetDir, task.accession, c)]
                        == NoTer(load.universe.select(c).pdbLines))
                  && |d.log| <= |o.disk.log| && o.disk.log[..|d.log|] == d.log
                  && (forall j :: |d.log| <= j < |o.disk.log| ==> o.disk.log[j] in created))
  {
    if GetPdb(task.accession) in d.files && load.Loaded? {
      ProcessChainsFiles(d, task.accession, task.targetDir, load.universe, task.chainList);
      ProcessChainsLog(d, task.accession, task.targetDir, load.universe, task.chainList);
      forall c | c in task.chainList && Selects(load.universe, c)
                 && OutputPath(task.targetDir, task.accession, c) !in d.files
        ensures var r := ProcessChains(d, task.accession, task.targetDir, load.universe, task.chainList);
                r.files[OutputPath(task.targetDir, task.accession, c)] == NoTer(load.universe.select(c).pdbLines)
      {
        ProcessChainsContent(d, task.accession, task.targetDir, load.universe, task.chainList, c);
      }
    }
  }

  /** Running the same task again, with the same structure, reports the same
      result and leaves the store as the first run left it. */
  lemma EntryIdempotent(d: Disk, task: Task, load: Load)
    ensures var o := EntryOutcome(d, task, load);
            EntryOutcome(o.disk, task, load) == o
  {
    var o := EntryOutcome(d, task, load);
    if o.processed {
      ProcessChainsFiles(d, task.accession, task.targetDir, load.universe, task.chainList);
      ProcessChainsIdempotent(d, task.accession, task.targetDir, load.universe, task.chainList);
    }
  }

  /** `process_pdb_entry((accession, chain_list, target_dir))` on the store `fs`,
      with `load` standing for what loading the structure file gives. */
  method ProcessPdbEntry(fs: FileSystem, task: Task, load: Load) returns (processed: bool)
    modifies fs
    ensures processed <==> GetPdb(task.accession) in old(fs.files) && load.Loaded?
    ensures Outcome(processed, fs.Snapshot()) == EntryOutcome(old(fs.Snapshot()), task, load)
  {
    var filePath := GetPdb(task.accession);
    if !fs.Exists(filePath) {
      return false;
    }
    if load.LoadRaised? {
      return false;
    }
    var u := load.universe;
    var chains := task.chainList;
    ghost var d0 := fs.Snapshot();
    for i := 0 to |chains|
      invariant fs.Snapshot() == ProcessChains(d0, task.accession, task.targetDir, u, chains[..i])
    {
      var chainId := chains[i];
      assert chains[..i + 1][..i] == chains[..i];
      var outputPdb := OutputPath(task.targetDir, task.accession, chainId);
      if fs.Exists(outputPdb) {
        continue;
      }
      match u.select(chainId) {
        case SelectRaised =>
        case Selected(n, lines) =>
          if n > 0 {
            fs.Write(outputPdb, lines);
            PostProcess(fs, outputPdb);
          }
      }
    }
    assert chains[..|chains|] == chains;
    processed := true;
  }
}
