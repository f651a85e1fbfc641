/** An abstract file store: each existing path holds a sequence of lines, and
    every write is recorded in a log so that "the file was (not) rewritten"
    can be stated. `post_process` rewrites one stored file in place. */
module Store {
  import opened Paths
  import opened TerFilter

  /** A snapshot of the store: file contents and the paths written so far, in order. */
  datatype Disk = Disk(files: map<Path, seq<Line>>, log: seq<Path>)

  /** Opening `path` for writing and writing `lines`: replaces or creates the file. */
  function WriteFile(d: Disk, path: Path, lines: seq<Line>): Disk {
    Disk(d.files[path := lines], d.log + [path])
  }

  /** Effect of `post_process(fname)`: a missing file is an I/O error that is
      caught, so nothing happens; otherwise the filtered lines are written
      back only if the filter removed something. */
  function PostProcessed(d: Disk, fname: Path): Disk {
    if fname !in d.files then d
    else
      var lines := d.files[fname];
      var noTer := NoTer(lines);
      if |noTer| != |lines| then WriteFile(d, fname, noTer) else d
  }

  /** After post-processing, the file holds the filtered lines whether or not
      it was rewritten; no other file changes; and exactly one write, to
      `fname`, is logged when and only when a line was removed. */
  lemma PostProcessedEffect(d: Disk, fname: Path)
    ensures PostProcessed(d, fname).files
         == if fname in d.files then d.files[fname := NoTer(d.files[fname])] else d.files
    ensures PostProcessed(d, fname).log
         == d.log + if fname in d.files && !NoRemovableTer(d.files[fname]) then [fname] else []
  {
    if fname in d.files {
      NoTerUnchanged(d.files[fname]);
    }
  }

  /** Post-processing a file twice performs no second write. */
  lemma PostProcessTwice(d: Disk, fname: Path)
    ensures PostProcessed(PostProcessed(d, fname), fname) == PostProcessed(d, fname)
  {
    var d1 := PostProcessed(d, fname);
    PostProcessedEffect(d, fname);
    if fname in d.files {
      NoTerIdempotent(d.files[fname]);
      NoTerUnchanged(d1.files[fname]);
    }
  }

  /** A file of at most two lines, or one without a removable TER line, is
      neither changed nor rewritten. */
  lemma PostProcessNoRewrite(d: Disk, fname: Path)
    requires fname in d.files
    requires |d.files[fname]| <= 2 || NoRemovableTer(d.files[fname])
    ensures PostProcessed(d, fname) == d
  {
    var lines := d.files[fname];
    if |lines| <= 2 {
      ShortFileUnchanged(lines);
    }
    NoTerUnchanged(lines);
  }

  /** The mutable store the program works on. */
  class FileSystem {
    var files: map<Path, seq<Line>>
    var log: seq<Path>

    constructor (initial: map<Path, seq<Line>>)
      ensures files == initial && log == []
    {
      files := initial;
      log := [];
    }

    function Snapshot(): Disk
      reads this
    {
      Disk(files, log)
    }

    predicate Exists(path: Path)
      reads this
    {
      path in files
    }

    /** Writes `lines` to `path`, creating or replacing the file. */
    method Write(path: Path, lines: seq<Line>)
      modifies this
      ensures files == old(files)[path := lines]
      ensures log == old(log) + [path]
      ensures Snapshot() == WriteFile(old(Snapshot()), path, lines)
    {
      files := files[path := lines];
      log := log + [path];
    }
  }

  /** `post_process(fname)`: read the file, drop the removable TER lines, and
      write the result back only when the line count went down. */
  method PostProcess(fs: FileSystem, fname: Path)
    modifies fs
    ensures fs.Snapshot() == PostProcessed(old(fs.Snapshot()), fname)
  {
    if !fs.Exists(fname) {
      return;
    }
    var lines := fs.files[fname];
    var noTer := NoTer(lines);
    if |noTer| != |lines| {
      fs.Write(fname, noTer);
    }
  }
}
