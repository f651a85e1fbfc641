/** Python's `str.split(sep)` with a one-character separator, and its inverse
    `sep.join(pieces)`. Used to turn the `Chains` column (`A;B;C`) into a chain list. */
module Text {

  /** Number of occurrences of `c` in `s`. */
  function Occurrences(s: string, c: char): nat {
    multiset(s)[c]
  }

  /** `s.split(sep)`: the maximal runs between separators, empty runs included;
      the empty string gives one empty piece. */
  function Split(s: string, sep: char): (pieces: seq<string>)
    ensures |pieces| >= 1
    ensures forall i :: 0 <= i < |pieces| ==> sep !in pieces[i]
  {
    if s == [] then [""]
    else
      var rest := Split(s[1..], sep);
      if s[0] == sep then [""] + rest
      else [[s[0]] + rest[0]] + rest[1..]
  }

  /** `sep.join(pieces)`. */
  function JoinWith(pieces: seq<string>, sep: char): string {
    if |pieces| == 0 then ""
    else if |pieces| == 1 then pieces[0]
    else pieces[0] + [sep] + JoinWith(pieces[1..], sep)
  }

  /** Splitting yields one more piece than there are separators. */
  lemma {:induction false} SplitCount(s: string, sep: char)
    ensures |Split(s, sep)| == Occurrences(s, sep) + 1
  {
    if s != [] {
      SplitCount(s[1..], sep);
      assert s == [s[0]] + s[1..];
      assert multiset(s) == multiset([s[0]]) + multiset(s[1..]);
    }
  }

  /** Joining the pieces with the separator gives back the original string. */
  lemma {:induction false} SplitJoin(s: string, sep: char)
    ensures JoinWith(Split(s, sep), sep) == s
  {
    if s != [] {
      var rest := Split(s[1..], sep);
      SplitJoin(s[1..], sep);
      if s[0] == sep {
        assert Split(s, sep)[1..] == rest;
      } else {
        var pieces := Split(s, sep);
        assert pieces[1..] == rest[1..];
        if |rest| > 1 {
          assert JoinWith(rest, sep) == rest[0] + [sep] + JoinWith(rest[1..], sep);
        }
      }
    }
  }

  /** A separator-free prefix is glued onto the first piece of what follows it. */
  lemma {:induction false} SplitFreePrefix(p: string, t: string, sep: char)
    requires sep !in p
    ensures Split(p + t, sep) == [p + Split(t, sep)[0]] + Split(t, sep)[1..]
  {
    if p != [] {
      SplitFreePrefix(p[1..], t, sep);
      assert (p + t)[1..] == p[1..] + t;
      assert [p[0]] + (p[1..] + Split(t, sep)[0]) == p + Split(t, sep)[0];
    } else {
      var pieces := Split(t, sep);
      assert p + t == t && p + pieces[0] == pieces[0];
      assert pieces == [pieces[0]] + pieces[1..];
    }
  }

  /** Splitting a join of separator-free pieces gives back the pieces, so the
      pieces of a split are exactly determined by the string. */
  lemma {:induction false} JoinSplit(pieces: seq<string>, sep: char)
    requires |pieces| >= 1
    requires forall i :: 0 <= i < |pieces| ==> sep !in pieces[i]
    ensures Split(JoinWith(pieces, sep), sep) == pieces
  {
    if |pieces| == 1 {
      SplitFreePrefix(pieces[0], "", sep);
      assert pieces[0] + "" == pieces[0];
    } else {
      var tail := JoinWith(pieces[1..], sep);
      JoinSplit(pieces[1..], sep);
      SplitFreePrefix(pieces[0], [sep] + tail, sep);
      assert pieces[0] + [sep] + tail == pieces[0] + ([sep] + tail);
      assert ([sep] + tail)[1..] == tail;
      assert pieces[0] + "" == pieces[0];
    }
  }
}
