/** The dispatcher's task list: one task per catalog row whose structure file
    has been downloaded, carrying the row's chain list split on ';'. */
module Catalog {
  import opened Paths
  import opened Text

  /** Separator of the `Chains` column. */
  const ChainSep: char := ';'

  /** One row of the accession table, after the `Downloaded` column was added. */
  datatype Row = Row(accession: string, chains: string, downloaded: bool)

  /** The tuple `(accession, chain_list, target_dir)` handed to one worker. */
  datatype Task = Task(accession: string, chainList: seq<string>, targetDir: Path)

  /** `row['Chains'].split(';')`: the chain list of a row, as many pieces as
      there are separators plus one, empty pieces kept, joining back to the column. */
  function ChainList(chains: string): (list: seq<string>)
    ensures |list| == Occurrences(chains, ChainSep) + 1
    ensures forall i :: 0 <= i < |list| ==> ChainSep !in list[i]
    ensures JoinWith(list, ChainSep) == chains
  {
    SplitCount(chains, ChainSep);
    SplitJoin(chains, ChainSep);
    Split(chains, ChainSep)
  }

  /** The task built from one downloaded row. */
  function MakeTask(row: Row, targetDir: Path): Task {
    Task(row.accession, ChainList(row.chains), targetDir)
  }

  /** The `Downloaded` column, row by row. */
  function DownloadedColumn(rows: seq<Row>): seq<bool> {
    seq(|rows|, i requires 0 <= i < |rows| => rows[i].downloaded)
  }

  /** The rows kept by `pdb_data[pdb_data['Downloaded'] == True]`, each turned
      into a task, in table order: never more tasks than rows, all sharing the
      target directory. */
  function BuildTasks(rows: seq<Row>, targetDir: Path): (tasks: seq<Task>)
    ensures |tasks| <= |rows|
    ensures forall j :: 0 <= j < |tasks| ==> tasks[j].targetDir == targetDir
  {
    if rows == [] then []
    else (if rows[0].downloaded then [MakeTask(rows[0], targetDir)] else [])
         + BuildTasks(rows[1..], targetDir)
  }

  /** One task per `True` in the `Downloaded` column. */
  lemma {:induction false} BuildTasksCount(rows: seq<Row>, targetDir: Path)
    ensures |BuildTasks(rows, targetDir)| == multiset(DownloadedColumn(rows))[true]
  {
    if rows != [] {
      assert DownloadedColumn(rows) == [rows[0].downloaded] + DownloadedColumn(rows[1..]);
      BuildTasksCount(rows[1..], targetDir);
    }
  }

  /** A task is built exactly when some downloaded row gives it; a row that is
      not downloaded gives none. */
  lemma {:induction false} BuildTasksMembership(rows: seq<Row>, targetDir: Path, t: Task)
    ensures t in BuildTasks(rows, targetDir)
        <==> exists i :: 0 <= i < |rows| && rows[i].downloaded && t == MakeTask(rows[i], targetDir)
  {
    if rows != [] {
      BuildTasksMembership(rows[1..], targetDir, t);
      if t in BuildTasks(rows[1..], targetDir) {
        var i :| 0 <= i < |rows[1..]| && rows[1..][i].downloaded && t == MakeTask(rows[1..][i], targetDir);
        assert rows[i + 1] == rows[1..][i];
      }
      if exists i :: 0 <= i < |rows| && rows[i].downloaded && t == MakeTask(rows[i], targetDir) {
        var i :| 0 <= i < |rows| && rows[i].downloaded && t == MakeTask(rows[i], targetDir);
        if i > 0 {
          assert rows[1..][i - 1] == rows[i];
        }
      }
    }
  }

  /** Building tasks row by row: the tasks of a table are those of its first
      part followed by those of the rest, so table order is kept. */
  lemma {:induction false} BuildTasksAppend(a: seq<Row>, b: seq<Row>, targetDir: Path)
    ensures BuildTasks(a + b, targetDir) == BuildTasks(a, targetDir) + BuildTasks(b, targetDir)
  {
    if a != [] {
      var head := if a[0].downloaded then [MakeTask(a[0], targetDir)] else [];
      assert (a + b)[0] == a[0] && (a + b)[1..] == a[1..] + b;
      assert BuildTasks(a + b, targetDir) == head + BuildTasks(a[1..] + b, targetDir);
      assert BuildTasks(a, targetDir) == head + BuildTasks(a[1..], targetDir);
      BuildTasksAppend(a[1..], b, targetDir);
    } else {
      assert a + b == b;
    }
  }

  /** One row yields one task if downloaded and none otherwise; with
      BuildTasksAppend this determines the whole task list. */
  lemma BuildTasksSingle(row: Row, targetDir: Path)
    ensures BuildTasks([row], targetDir) == if row.downloaded then [MakeTask(row, targetDir)] else []
  {  }

  /** Every row downloaded: one task per row, in the same order. */
  lemma {:induction false} BuildTasksAllDownloaded(rows: seq<Row>, targetDir: Path)
    requires forall i :: 0 <= i < |rows| ==> rows[i].downloaded
    ensures |BuildTasks(rows, targetDir)| == |rows|
    ensures forall i :: 0 <= i < |rows| ==> BuildTasks(rows, targetDir)[i] == MakeTask(rows[i], targetDir)
  {
    if rows != [] {
      var tail := rows[1..];
      assert forall i :: 0 <= i < |tail| ==> tail[i] == rows[i + 1];
      BuildTasksAllDownloaded(tail, targetDir);
      assert BuildTasks(rows, targetDir) == [MakeTask(rows[0], targetDir)] + BuildTasks(tail, targetDir);
    }
  }

  /** No row downloaded: no task at all. */
  lemma {:induction false} BuildTasksNoneDownloaded(rows: seq<Row>, targetDir: Path)
    requires forall i :: 0 <= i < |rows| ==> !rows[i].downloaded
    ensures BuildTasks(rows, targetDir) == []
  {
    if rows != [] {
      var tail := rows[1..];
      assert forall i :: 0 <= i < |tail| ==> tail[i] == rows[i + 1];
      BuildTasksNoneDownloaded(tail, targetDir);
    }
  }
}
