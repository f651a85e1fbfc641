# Chain extraction from PDB files — a verified model

`strip_pdb.py` splits protein structure files (PDB format) into one file per
chain. It reads a table of accessions, each with a `;`-separated list of chain
identifiers. It keeps the rows whose structure file has been downloaded and
builds one task per row. For each task, `process_pdb_entry` loads the
structure once. Then, for each listed chain in order, it does the following:

- It skips the chain when `<target_dir>/<accession>_<chain>.pdb` already exists.
- Otherwise it selects the chain's protein atoms.
- If that selection is non-empty, it writes the selection to that file and calls `post_process`.

`post_process` removes the surplus `TER` (chain terminator) records from the
file it was given. It rewrites the file only if a line was removed.

This Dafny project models that core:

- `paths.dfy` (module `Paths`): POSIX `os.path.join` of two components, `get_pdb`, and the name of each chain's output file.
- `text.dfy` (module `Text`): `str.split` on one separator character and its inverse `sep.join`.
- `catalog.dfy` (module `Catalog`): table rows, tasks, and the task list built by `parallel_pdb_processing`.
- `ter_filter.dfy` (module `TerFilter`): the line filter of `post_process`.
- `store.dfy` (module `Store`):
  - an abstract file store: a map from path to lines, plus a log of every write;
  - the `FileSystem` class the program changes in place;
  - the `PostProcess` method, which rewrites one file in place.
- `worker.dfy` (module `Worker`):
  - `ProcessPdbEntry`, a method whose `for` loop over the chains updates the `FileSystem`;
  - `ChainStep`, `ProcessChains` and `EntryOutcome`, the value-level functions that specify it;
  - the lemmas about those functions.
- `scenarios.dfy` (module `Scenarios`): a worked table of two rows, one of them downloaded, in which chain B has no protein atoms.

The structure library (MDAnalysis) appears only as oracles:

- `Load`: loading either raises or gives a `Universe`.
- `Universe.select(chain)`: the protein selection of a chain. It either raises, or gives an atom count and the lines the PDB writer would produce.

The TER filter follows the code, not the comment at strip_pdb.py:65, which
speaks of keeping "the last two lines". The code keeps a `TER` line when its
text is equal to one of the last two lines (`line in final_lines`). So an
earlier `TER` line that repeats one of them is kept as well.
`NoTerPositional` shows that the two readings agree whenever no early TER
record has the same text as one of the last two lines.
`ContentTestKeepsRepeatedTer` gives an input on which they differ. When the
TER records are identical, for example bare `TER` lines, and the file ends
with a TER record and an END record, every TER record is protected. Nothing
is removed and the file is not rewritten (`IdenticalTerRecordsKept`,
`BareTerRecordsKept`).

## Model

| member | source | states |
|---|---|---|
| Paths.PathJoin | strip_pdb.py:24 | POSIX `os.path.join(dir, name)`; its contract is stated by `PathJoinShape` and `PathJoinInjective` |
| Paths.PathJoinShape | strip_pdb.py:77 | `os.path.join`: the path ends with the name; an absolute name replaces the directory; otherwise the directory is a prefix |
| Paths.PathJoinInjective | strip_pdb.py:24 | two names of the same kind joined to one directory give the same path only if they are equal |
| Paths.GetPdb | strip_pdb.py:75-77 | `get_pdb(id, path="./PDBs/")`; its contract is stated by `GetPdbDefault` and `GetPdbInjective` |
| Paths.GetPdbDefault | strip_pdb.py:75-77 | the default input path of a relative accession is `./PDBs/<accession>.pdb` |
| Paths.GetPdbInjective | strip_pdb.py:75-77 | distinct accessions never share an input path under the default directory |
| Paths.OutputPath | strip_pdb.py:24 | `os.path.join(target_dir, f"{pdb_id}_{chain_ID}.pdb")`; its contract is stated by `OutputPathShape` and `OutputPathInjective` |
| Paths.OutputPathShape | strip_pdb.py:24 | with a target directory that has no trailing '/', the output is `<target_dir>/<accession>_<chain>.pdb` |
| Paths.OutputPathInjective | strip_pdb.py:24 | for one accession and one directory, distinct chains never share an output path |
| Text.Split | strip_pdb.py:87 | `split(';')` gives at least one piece, and no piece contains the separator |
| Text.SplitCount | strip_pdb.py:87 | the number of pieces is the number of separators plus one, so empty pieces are kept |
| Text.SplitJoin | strip_pdb.py:87 | joining the pieces with the separator gives back the original string |
| Text.JoinSplit | strip_pdb.py:87 | splitting a join of separator-free pieces gives back those pieces |
| Catalog.ChainList | strip_pdb.py:87 | a row's chain list has one more piece than the `Chains` column has `;` characters, its pieces contain no `;`, and the pieces join back to the column |
| Catalog.MakeTask | strip_pdb.py:90 | the tuple `(row['Accession'], chain_list, target_dir)`; its contract is stated by `ChainList` and `BuildTasksSingle` |
| Catalog.BuildTasks | strip_pdb.py:84-90 | there are never more tasks than rows, and every task carries the one target directory |
| Catalog.BuildTasksCount | strip_pdb.py:84-90 | there is exactly one task per row whose `Downloaded` value is True |
| Catalog.BuildTasksMembership | strip_pdb.py:84-90 | a task is in the list exactly when some downloaded row produces it |
| Catalog.BuildTasksAppend | strip_pdb.py:90 | the tasks of `a + b` are the tasks of `a` followed by the tasks of `b`, so table order is kept |
| Catalog.BuildTasksSingle | strip_pdb.py:84-90 | one row gives the task `(Accession, pieces, target_dir)` when it is downloaded and gives nothing otherwise |
| Catalog.BuildTasksAllDownloaded | strip_pdb.py:84-90 | when every row is downloaded, task i is the task of row i |
| Catalog.BuildTasksNoneDownloaded | strip_pdb.py:84 | when no row is downloaded, there are no tasks |
| TerFilter.FinalLines | strip_pdb.py:66 | `lines[-2:]` is the suffix of length min(2, number of lines) |
| TerFilter.KeepLines | strip_pdb.py:67 | the list comprehension over the lines; its contract is stated by `KeepLinesSpec`, `KeepLinesAppend`, `KeepLinesLength` and `KeepLinesAbsorb` |
| TerFilter.KeepLinesSpec | strip_pdb.py:67 | the comprehension's output is a subsequence of the input, and each text occurs in it as often as in the input if kept, and otherwise never |
| TerFilter.KeepLinesAppend | strip_pdb.py:67 | the comprehension distributes over concatenation |
| TerFilter.KeepLinesLength | strip_pdb.py:67-69 | the output is never longer than the input; it has the same length exactly when every line is kept, and then it equals the input |
| TerFilter.KeepLinesAbsorb | strip_pdb.py:67 | filtering again with a subset of the protected lines is the same as filtering once with that subset |
| TerFilter.NoTer | strip_pdb.py:65-67 | `no_ter`; its contract is stated by `NoTerSpec`, `NoTerKeepsOtherLines`, `NoTerKeepsFinalLines`, `NoTerUnchanged` and `NoTerIdempotent` |
| TerFilter.NoTerSpec | strip_pdb.py:65-67 | every non-TER line is kept with all its copies, and the output is a subsequence of the input; a TER line is kept, all its copies, exactly when it equals one of the last two lines |
| TerFilter.NoTerKeepsOtherLines | strip_pdb.py:67 | the non-TER lines of the output are those of the input, in the same order |
| TerFilter.NoTerKeepsFinalLines | strip_pdb.py:66-67 | the last two lines of the input remain the last two lines of the output |
| TerFilter.NoTerUnchanged | strip_pdb.py:66-69 | the length test `len(no_ter) != len(lines)` holds exactly when something was removed, that is, when there is a removable TER line |
| TerFilter.ShortFileUnchanged | strip_pdb.py:66-69 | a file of at most two lines is left unchanged |
| TerFilter.NoTerIdempotent | strip_pdb.py:66-69 | the filter is idempotent, and its output has no removable TER line |
| TerFilter.NoTerPositional | strip_pdb.py:65-67 | when no early TER line repeats a final line, the content test equals "drop every TER line before the last two" |
| TerFilter.ContentTestKeepsRepeatedTer | strip_pdb.py:65-67 | an earlier TER line equal to the last line is kept by the code and would be dropped by the positional reading |
| TerFilter.IdenticalTerRecordsKept | strip_pdb.py:65-71 | if all TER records have the same text and one of them is among the last two lines, no line is removed, so the file is not rewritten |
| Store.PostProcessed | strip_pdb.py:59-73 | the effect of `post_process(fname)` on the store; its contract is stated by `PostProcessedEffect`, `PostProcessTwice` and `PostProcessNoRewrite` |
| Store.PostProcessedEffect | strip_pdb.py:59-73 | after `post_process` the file holds the filtered lines and no other file changes; one write is logged exactly when a line was removed; a missing file is left alone |
| Store.PostProcessTwice | strip_pdb.py:66-71 | a second `post_process` on the same file writes nothing |
| Store.PostProcessNoRewrite | strip_pdb.py:66-71 | a file of at most two lines, or one with no removable TER line, is neither changed nor rewritten |
| Store.FileSystem.Write | strip_pdb.py:70-71 | writing replaces or creates that one file, and logs the write |
| Store.PostProcess | strip_pdb.py:59-73 | the in-place rewrite leaves the store as `PostProcessed` describes |
| Worker.ChainStep | strip_pdb.py:23-37 | one iteration of the chain loop; its contract is stated by `ChainStepFiles` and `ChainStepLog` |
| Worker.ProcessChains | strip_pdb.py:22-39 | the chain loop in list order; its contract is stated by `ProcessChainsFiles`, `ProcessChainsLog`, `ProcessChainsContent`, `ProcessChainsSettled`, `ProcessChainsIdempotent` and `RepeatedChainIgnored` |
| Worker.ChainStepFiles | strip_pdb.py:23-37 | one iteration leaves an existing output untouched; a missing output with a non-empty selection is created holding the post-processed selection; nothing else changes |
| Worker.ChainStepLog | strip_pdb.py:23-37 | one iteration writes only the chain's own output, and only when it creates that output |
| Worker.ProcessChainsFiles | strip_pdb.py:22-39 | after the loop, existing files keep their contents, and the files present are exactly the old ones plus `NewOutputs` (listed chains whose output was absent and whose selection is non-empty) |
| Worker.ProcessChainsLog | strip_pdb.py:22-39 | the loop only writes to new outputs, so nothing that existed is overwritten |
| Worker.ProcessChainsContent | strip_pdb.py:29-34 | each new output holds its chain's selection after post-processing |
| Worker.ProcessChainsSettled | strip_pdb.py:23-37 | after the loop, processing any listed chain again changes nothing |
| Worker.ProcessChainsIdempotent | strip_pdb.py:23-37 | a second pass over the same chains changes nothing and writes nothing |
| Worker.RepeatedChainIgnored | strip_pdb.py:23-27 | a chain repeated in the list has no further effect, so it is written at most once |
| Worker.EntryOutcome | strip_pdb.py:7-45 | the whole of `process_pdb_entry`; its contract is stated by `EntryOutcomeSpec` and `EntryIdempotent` |
| Worker.EntryOutcomeSpec | strip_pdb.py:7-45 | the entry reports True exactly when the input file exists and loads, and otherwise leaves the store untouched; existing files never change; new files are exactly `NewOutputs`, each with its post-processed selection; every write goes to a new output |
| Worker.EntryIdempotent | strip_pdb.py:7-45 | processing the same task again gives the same result and leaves the store as it was |
| Worker.ProcessPdbEntry | strip_pdb.py:7-45 | the imperative loop returns True exactly when the input exists and loads, and leaves the store as `EntryOutcome` describes |
| Scenarios.TableTasks | strip_pdb.py:84-90 | the table (`1ABC`, `A;B`, downloaded) and (`2XYZ`, `A`, not downloaded) gives exactly one task, `("1ABC", ["A","B"], out)` |
| Scenarios.WrittenPostProcessed | strip_pdb.py:65-71 | of two TER records, the early one is dropped and the one among the last two lines is kept |
| Scenarios.BareTerRecordsKept | strip_pdb.py:65-71 | a file with two bare `TER` records that ends with `TER`, `END` keeps both records |
| Scenarios.ChainWithoutAtoms | strip_pdb.py:29-37 | if chain B has no protein atoms, only `out/1ABC_A.pdb` is created, with its filtered contents, and the task still reports True |

## Left out

- `strip_to_chain` (strip_pdb.py:47-57) is not modelled. It is deprecated, and it is a thin wrapper around the same library calls.
- The process pool is not modelled: `multiprocessing.Pool`, the worker count `min(cpu_count(), 8)`, `maxtasksperchild=10` and `pool.map` (strip_pdb.py:92-95). This is concurrency and process management, and the per-task results are discarded. Each task is modelled on its own.
- `os.makedirs(target_dir, exist_ok=True)` (strip_pdb.py:81) is not modelled, because directories are not part of the store.
- The catalog builder in the `__main__` block (strip_pdb.py:99-121) is not modelled. It covers TSV loading with pandas, uppercasing accessions, listing the download directory, and computing `Downloaded`. Each row carries `Downloaded` as a given boolean.
- MDAnalysis is an oracle. The PDB record format, the meaning of the selection string `protein and chainID <c>`, and the writer's output are not modelled. A chain ID that makes the selection raise is `SelectRaised`.
- Store.PostProcess: models only one I/O failure, a missing file. That case is caught and nothing happens. Other read or write errors are not modelled.
- Worker.ProcessPdbEntry: does not model an exception from the PDB writer after a partial write, which the per-chain `except` would catch. In the model a non-empty selection is always written.
- Logging through `print` is not modelled, and neither is `del u` / `gc.collect()` (strip_pdb.py:41-43). They have no logical effect.
- `os.path.exists` is also true for directories; in the model only files exist.
- `os.path.join` follows POSIX; Windows path semantics are not modelled.
- The model assumes a file reads back as the same lines it was written with, which holds when every line keeps its own terminator.
- A `Chains` value that is not a string (pandas NaN) would make `split` raise; the model assumes every value is a string.
- Cross-task races are not modelled: the model runs tasks one at a time. In the program `pool.map` runs tasks concurrently, so two rows with the same accession could race on the same output paths.
