/** File paths used by the chain extractor: the input structure file of an
    accession and the output file of one (accession, chain) pair. Paths are
    strings joined the way POSIX `os.path.join` joins two components. */
module Paths {

  type Path = string

  /** Directory that `get_pdb` looks in when no other directory is given. */
  const DefaultPdbDir: Path := "./PDBs/"

  /** Extension of every structure file, input or output. */
  const PdbExt: string := ".pdb"

  predicate IsAbsolute(name: string) {
    |name| > 0 && name[0] == '/'
  }

  /** `os.path.join(dir, name)` on POSIX: an absolute `name` replaces `dir`;
      otherwise a '/' separates the two unless `dir` is empty or already ends in one. */
  function PathJoin(dir: Path, name: string): Path {
    if IsAbsolute(name) then name
    else if dir == [] || dir[|dir| - 1] == '/' then dir + name
    else dir + "/" + name
  }

  /** A joined path ends with the name; an absolute name replaces the
      directory, and otherwise the directory is a prefix of the path. */
  lemma PathJoinShape(dir: Path, name: string)
    ensures var p := PathJoin(dir, name);
            && |name| <= |p| && p[|p| - |name|..] == name
            && (IsAbsolute(name) ==> p == name)
            && (!IsAbsolute(name) ==> |dir| <= |p| && p[..|dir|] == dir)
  {
  }

  /** `get_pdb(id, path='./PDBs/')`: where the structure file of accession `id` is read from. */
  function GetPdb(id: string, path: Path := DefaultPdbDir): Path {
    PathJoin(path, id + PdbExt)
  }

  /** The file name `<accession>_<chain>.pdb` of one extracted chain. */
  function OutputName(accession: string, chain: string): string {
    accession + "_" + chain + PdbExt
  }

  /** `os.path.join(target_dir, f"{accession}_{chain_ID}.pdb")`. */
  function OutputPath(targetDir: Path, accession: string, chain: string): Path {
    PathJoin(targetDir, OutputName(accession, chain))
  }

  /** Equal strings with a common prefix and a common suffix have equal middles. */
  lemma CancelAffixes(pre: string, a: string, b: string, post: string)
    requires pre + a + post == pre + b + post
    ensures a == b
  {
    var s := pre + a + post;
    assert |a| == |b|;
    assert a == s[|pre|..|pre| + |a|];
    assert b == (pre + b + post)[|pre|..|pre| + |b|];
  }

  /** Two relative (or two absolute) names joined to the same directory give
      the same path only if they are the same name. */
  lemma PathJoinInjective(dir: Path, n1: string, n2: string)
    requires IsAbsolute(n1) == IsAbsolute(n2)
    requires PathJoin(dir, n1) == PathJoin(dir, n2)
    ensures n1 == n2
  {
    PathJoinShape(dir, n1);
    PathJoinShape(dir, n2);
  }

  /** With the default directory, the input path of a relative accession is
      `./PDBs/<accession>.pdb`. */
  lemma GetPdbDefault(id: string)
    requires !IsAbsolute(id)
    ensures GetPdb(id) == "./PDBs/" + id + ".pdb"
  {
  }

  /** A path joined onto a non-empty directory that does not start with '/'
      starts with '/' exactly when the name is absolute. */
  lemma JoinedFirst(dir: Path, name: string)
    requires |dir| > 0 && dir[0] != '/' && |name| > 0
    ensures |PathJoin(dir, name)| > 0
    ensures PathJoin(dir, name)[0] == if IsAbsolute(name) then '/' else dir[0]
  {
    PathJoinShape(dir, name);
    if !IsAbsolute(name) {
      assert PathJoin(dir, name)[..|dir|] == dir;
    }
  }

  /** Distinct accessions never share an input file under the default directory. */
  lemma GetPdbInjective(a: string, b: string)
    requires GetPdb(a) == GetPdb(b)
    ensures a == b
  {
    var na, nb := a + PdbExt, b + PdbExt;
    // an absolute name starts the path with '/', a joined one with '.'
    JoinedFirst(DefaultPdbDir, na);
    JoinedFirst(DefaultPdbDir, nb);
    if IsAbsolute(na) == IsAbsolute(nb) {
      PathJoinInjective(DefaultPdbDir, na, nb);
      assert "" + a + PdbExt == na && "" + b + PdbExt == nb;
      CancelAffixes("", a, b, PdbExt);
    }
  }

  /** For one accession and one target directory, distinct chains have distinct
      output paths: the chain is recoverable from the path. */
  lemma OutputPathInjective(targetDir: Path, accession: string, c1: string, c2: string)
    requires OutputPath(targetDir, accession, c1) == OutputPath(targetDir, accession, c2)
    ensures c1 == c2
  {
    var n1, n2 := OutputName(accession, c1), OutputName(accession, c2);
    assert IsAbsolute(n1) == IsAbsolute(n2) by {
      if accession == [] {
        assert n1[0] == '_' == n2[0];
      } else {
        assert n1[0] == accession[0] == n2[0];
      }
    }
    PathJoinInjective(targetDir, n1, n2);
    CancelAffixes(accession + "_", c1, c2, PdbExt);
  }

  /** A target directory such as `Results/x/unaligned` (non-empty, no trailing
      '/') and a relative accession give `<target_dir>/<accession>_<chain>.pdb`. */
  lemma OutputPathShape(targetDir: Path, accession: string, chain: string)
    requires targetDir != [] && targetDir[|targetDir| - 1] != '/'
    requires !IsAbsolute(accession)
    ensures OutputPath(targetDir, accession, chain) == targetDir + "/" + accession + "_" + chain + ".pdb"
  {  }
}
