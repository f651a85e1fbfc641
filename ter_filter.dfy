/** The line filter of `post_process`: drop every "TER" record line except
    those whose text equals one of the last two lines of the file. Membership
    is by content, not by position: an earlier TER line identical to one of
    the last two is kept too. */
module TerFilter {

  /** One line as `readlines` returns it, line terminator included. */
  type Line = string

  /** `line.startswith("TER")`. */
  predicate IsTer(line: Line) {
    |line| >= 3 && line[..3] == "TER"
  }

  /** `lines[-2:]`: the last two lines, or all of them when there are fewer. */
  function FinalLines(lines: seq<Line>): (finals: seq<Line>)
    ensures |finals| == if |lines| < 2 then |lines| else 2
    ensures finals == lines[|lines| - |finals|..]
  {
    if |lines| <= 2 then lines else lines[|lines| - 2..]
  }

  /** The comprehension's condition: `not line.startswith("TER") or line in final_lines`. */
  predicate Kept(line: Line, finals: seq<Line>) {
    !IsTer(line) || line in finals
  }

  /** The lines satisfying Kept, in their original order. */
  function KeepLines(lines: seq<Line>, finals: seq<Line>): seq<Line> {
    if lines == [] then []
    else (if Kept(lines[0], finals) then [lines[0]] else []) + KeepLines(lines[1..], finals)
  }

  /** `no_ter`: what `post_process` would write back. */
  function NoTer(lines: seq<Line>): seq<Line> {
    KeepLines(lines, FinalLines(lines))
  }

  /** `s` can be obtained from `t` by deleting elements (order kept). */
  ghost predicate IsSubsequence(s: seq<Line>, t: seq<Line>)
    decreases |t|
  {
    if t == [] then s == []
    else (s != [] && s[0] == t[0] && IsSubsequence(s[1..], t[1..])) || IsSubsequence(s, t[1..])
  }

  /** No TER line other than one equal to a final line: nothing for the filter to drop. */
  predicate NoRemovableTer(lines: seq<Line>) {
    forall i :: 0 <= i < |lines| ==> Kept(lines[i], FinalLines(lines))
  }

  // ---------------------------------------------------------------------------
  // Properties of KeepLines

  /** The kept lines are a subsequence of the input, and each line text occurs
      in the output exactly as often as in the input when it is kept, and never
      when it is not. Together these determine the output. */
  lemma {:induction false} KeepLinesSpec(lines: seq<Line>, finals: seq<Line>)
    ensures IsSubsequence(KeepLines(lines, finals), lines)
    ensures forall l :: multiset(KeepLines(lines, finals))[l]
                        == if Kept(l, finals) then multiset(lines)[l] else 0
  {
    if lines != [] {
      KeepLinesSpec(lines[1..], finals);
      var rest := KeepLines(lines[1..], finals);
      assert lines == [lines[0]] + lines[1..];
      assert multiset(lines) == multiset([lines[0]]) + multiset(lines[1..]);
      if Kept(lines[0], finals) {
        assert KeepLines(lines, finals) == [lines[0]] + rest;
        assert ([lines[0]] + rest)[1..] == rest;
        assert multiset([lines[0]] + rest) == multiset([lines[0]]) + multiset(rest);
      } else {
        assert KeepLines(lines, finals) == rest;
      }
    }
  }

  /** The filter distributes over concatenation. */
  lemma {:induction false} KeepLinesAppend(a: seq<Line>, b: seq<Line>, finals: seq<Line>)
    ensures KeepLines(a + b, finals) == KeepLines(a, finals) + KeepLines(b, finals)
  {
    if a != [] {
      KeepLinesAppend(a[1..], b, finals);
      assert (a + b)[1..] == a[1..] + b;
      assert (a + b)[0] == a[0];
    } else {
      assert a + b == b;
    }
  }

  /** The output is as long as the input exactly when every line is kept, and
      then it is the input itself: the length test of `post_process` detects
      precisely whether anything was removed. */
  lemma {:induction false} KeepLinesLength(lines: seq<Line>, finals: seq<Line>)
    ensures |KeepLines(lines, finals)| <= |lines|
    ensures |KeepLines(lines, finals)| == |lines|
        <==> forall i :: 0 <= i < |lines| ==> Kept(lines[i], finals)
    ensures (forall i :: 0 <= i < |lines| ==> Kept(lines[i], finals)) ==> KeepLines(lines, finals) == lines
  {
    if lines != [] {
      KeepLinesLength(lines[1..], finals);
      var tail := lines[1..];
      assert forall i :: 0 <= i < |tail| ==> tail[i] == lines[i + 1];
      if forall i :: 0 <= i < |tail| ==> Kept(tail[i], finals) {
        if Kept(lines[0], finals) {
          assert forall i :: 0 <= i < |lines| ==> Kept(lines[i], finals) by {
            forall i | 0 <= i < |lines| ensures Kept(lines[i], finals) {
              if i > 0 { assert lines[i] == tail[i - 1]; }
            }
          }
          assert lines == [lines[0]] + tail;
        }
      } else {
        var j :| 0 <= j < |tail| && !Kept(tail[j], finals);
        assert !Kept(lines[j + 1], finals);
      }
    }
  }

  /** Filtering again with a smaller set of protected lines is the same as
      filtering once with it; in particular filtering twice with the same
      protected lines changes nothing more. */
  lemma {:induction false} KeepLinesAbsorb(lines: seq<Line>, finals: seq<Line>, protected: seq<Line>)
    requires forall l :: l in protected ==> l in finals
    ensures KeepLines(KeepLines(lines, finals), protected) == KeepLines(lines, protected)
  {
    if lines != [] {
      KeepLinesAbsorb(lines[1..], finals, protected);
      var rest := KeepLines(lines[1..], finals);
      if Kept(lines[0], finals) {
        assert KeepLines(lines, finals) == [lines[0]] + rest;
        KeepLinesAppend([lines[0]], rest, protected);
        assert KeepLines([lines[0]], protected) == (if Kept(lines[0], protected) then [lines[0]] else []) + KeepLines([], protected);
      } else {
        assert !Kept(lines[0], protected);
        assert KeepLines(lines, finals) == rest;
      }
    }
  }

  // ---------------------------------------------------------------------------
  // Properties of NoTer (the post-processing of one file)

  /** Every line that does not start with "TER" survives, and the output is a
      subsequence of the input; a TER line survives, with all its copies,
      exactly when its text equals one of the last two input lines. */
  lemma NoTerSpec(lines: seq<Line>)
    ensures IsSubsequence(NoTer(lines), lines)
    ensures forall l :: !IsTer(l) ==> multiset(NoTer(lines))[l] == multiset(lines)[l]
    ensures forall l :: IsTer(l) ==>
              multiset(NoTer(lines))[l] == if l in FinalLines(lines) then multiset(lines)[l] else 0
  {
    KeepLinesSpec(lines, FinalLines(lines));
  }

  /** The non-TER lines of the output are the non-TER lines of the input, in
      the same order. */
  lemma NoTerKeepsOtherLines(lines: seq<Line>)
    ensures KeepLines(NoTer(lines), []) == KeepLines(lines, [])
  {
    KeepLinesAbsorb(lines, FinalLines(lines), []);
  }

  /** The last two lines of the input are the last two lines of the output. */
  lemma NoTerKeepsFinalLines(lines: seq<Line>)
    ensures FinalLines(NoTer(lines)) == FinalLines(lines)
  {
    var finals := FinalLines(lines);
    if |lines| <= 2 {
      KeepLinesLength(lines, finals);
    } else {
      var front := lines[..|lines| - 2];
      assert lines == front + finals;
      KeepLinesAppend(front, finals, finals);
      KeepLinesLength(finals, finals);
      KeepLinesLength(front, finals);
      var out := NoTer(lines);
      assert out == KeepLines(front, finals) + finals;
      assert out[|out| - 2..] == finals;
    }
  }

  /** The file is left as it is (no line removed, so no rewrite) exactly when it
      has no removable TER line; the length comparison `len(no_ter) != len(lines)`
      is an exact test for that. */
  lemma NoTerUnchanged(lines: seq<Line>)
    ensures |NoTer(lines)| == |lines| <==> NoTer(lines) == lines
    ensures NoTer(lines) == lines <==> NoRemovableTer(lines)
  {
    KeepLinesLength(lines, FinalLines(lines));
  }

  /** A file of at most two lines is never changed. */
  lemma ShortFileUnchanged(lines: seq<Line>)
    requires |lines| <= 2
    ensures NoTer(lines) == lines
  {
    assert NoRemovableTer(lines) by {
      forall i | 0 <= i < |lines| ensures Kept(lines[i], FinalLines(lines)) {
        assert lines[i] in FinalLines(lines);
      }
    }
    NoTerUnchanged(lines);
  }

  /** Post-processing is idempotent: its output has no removable TER line, so a
      second pass removes nothing. */
  lemma NoTerIdempotent(lines: seq<Line>)
    ensures NoTer(NoTer(lines)) == NoTer(lines)
    ensures NoRemovableTer(NoTer(lines))
  {
    var finals := FinalLines(lines);
    NoTerKeepsFinalLines(lines);
    KeepLinesAbsorb(lines, finals, finals);
    NoTerUnchanged(NoTer(lines));
  }

  // ---------------------------------------------------------------------------
  // Content membership versus "the last two lines" by position

  /** Drops every TER line that is not one of the last two lines by position. */
  function DropEarlyTer(lines: seq<Line>): seq<Line> {
    if |lines| <= 2 then lines
    else KeepLines(lines[..|lines| - 2], []) + lines[|lines| - 2..]
  }

  /** When no earlier TER line has the same text as one of the last two lines,
      the content test and the positional reading agree. */
  lemma NoTerPositional(lines: seq<Line>)
    requires forall i :: 0 <= i < |lines| - 2 && IsTer(lines[i]) ==> lines[i] !in FinalLines(lines)
    ensures NoTer(lines) == DropEarlyTer(lines)
  {
    var finals := FinalLines(lines);
    if |lines| <= 2 {
      ShortFileUnchanged(lines);
    } else {
      var front := lines[..|lines| - 2];
      assert lines == front + finals;
      KeepLinesAppend(front, finals, finals);
      KeepLinesLength(finals, finals);
      SameFilter(front, finals);
    }
  }

  /** On lines whose TER lines all lie outside `finals`, filtering against
      `finals` is filtering against nothing. */
  lemma {:induction false} SameFilter(front: seq<Line>, finals: seq<Line>)
    requires forall i :: 0 <= i < |front| && IsTer(front[i]) ==> front[i] !in finals
    ensures KeepLines(front, finals) == KeepLines(front, [])
  {
    if front != [] {
      assert forall i :: 0 <= i < |front[1..]| ==> front[1..][i] == front[i + 1];
      SameFilter(front[1..], finals);
    }
  }

  /** The two readings differ: an earlier TER line identical to the last line
      is kept by the content test and dropped by the positional reading. */
  lemma ContentTestKeepsRepeatedTer()
    ensures NoTer(["TER\n", "ATOM\n", "TER\n"]) == ["TER\n", "ATOM\n", "TER\n"]
    ensures DropEarlyTer(["TER\n", "ATOM\n", "TER\n"]) == ["ATOM\n", "TER\n"]
  {  }

  /** When every TER record of a file has the same text and one of them is among
      the last two lines (a file ending in a TER record and an END record, say),
      every TER record is protected: the filter removes nothing, so the file is
      not rewritten. */
  lemma IdenticalTerRecordsKept(lines: seq<Line>, ter: Line)
    requires |lines| >= 2 && ter in lines[|lines| - 2..]
    requires forall i :: 0 <= i < |lines| && IsTer(lines[i]) ==> lines[i] == ter
    ensures NoTer(lines) == lines
  {
    forall i | 0 <= i < |lines| ensures Kept(lines[i], FinalLines(lines)) {
      if IsTer(lines[i]) {
        assert lines[i] == ter;
      }
    }
    NoTerUnchanged(lines);
  }
}
