/**
 Prefix tests and single-character splitting of strings, with the meaning
 of Go's `strings.HasPrefix` and `strings.Split` for a one-character,
 non-empty separator.
 */
module Strings {

  /** True iff `p` is a prefix of `s`. */
  predicate HasPrefix(s: string, p: string)
  {
    |p| <= |s| && s[..|p|] == p
  }

  /** Index of the first occurrence of `c` in `s`, or `|s|` when there is none. */
  function IndexOf(s: string, c: char): (i: nat)
    ensures i <= |s|
    ensures i < |s| ==> s[i] == c
    ensures forall j :: 0 <= j < i ==> s[j] != c
  {
    if |s| == 0 then 0
    else if s[0] == c then 0
    else 1 + IndexOf(s[1..], c)
  }

  /** The pieces of `s` between occurrences of `sep`, in order. As in Go,
      the result is never empty: a string without `sep` splits into itself,
      and the empty string splits into one empty piece. */
  function Split(s: string, sep: char): (parts: seq<string>)
    ensures |parts| >= 1
  {
    if |s| == 0 then [""]
    else
      var rest := Split(s[1..], sep);
      if s[0] == sep then [""] + rest
      else [[s[0]] + rest[0]] + rest[1..]
  }

  /** Glues `parts` back together with `sep` between neighbours. */
  function Join(parts: seq<string>, sep: char): (s: string)
  {
    if |parts| == 0 then ""
    else if |parts| == 1 then parts[0]
    else parts[0] + [sep] + Join(parts[1..], sep)
  }

  /** No piece of a split contains the separator. */
  lemma {:induction false} SplitPiecesLackSeparator(s: string, sep: char)
    ensures forall i :: 0 <= i < |Split(s, sep)| ==> sep !in Split(s, sep)[i]
  {
    if |s| > 0 {
      var rest := Split(s[1..], sep);
      SplitPiecesLackSeparator(s[1..], sep);
      if s[0] != sep {
        var parts := Split(s, sep);
        assert parts[0] == [s[0]] + rest[0];
        assert forall i :: 1 <= i < |parts| ==> parts[i] == rest[i];
      }
    }
  }

  /** Splitting loses nothing: joining the pieces gives the string back. */
  lemma {:induction false} SplitThenJoin(s: string, sep: char)
    ensures Join(Split(s, sep), sep) == s
  {
    if |s| > 0 {
      var rest := Split(s[1..], sep);
      SplitThenJoin(s[1..], sep);
      if s[0] == sep {
        assert ([""] + rest)[1..] == rest;
      } else if |rest| > 1 {
        var parts := [[s[0]] + rest[0]] + rest[1..];
        assert parts[1..] == rest[1..];
        assert Join(rest, sep) == rest[0] + [sep] + Join(rest[1..], sep);
      }
    }
  }

  /** A string without the separator is a single piece. */
  lemma {:induction false} SplitWithoutSeparator(p: string, sep: char)
    requires sep !in p
    ensures Split(p, sep) == [p]
  {
    if |p| > 0 {
      SplitWithoutSeparator(p[1..], sep);
      assert [p[0]] + p[1..] == p;
    }
  }

  /** A separator-free piece followed by the separator splits off as the
      first piece. */
  lemma {:induction false} SplitAfterPiece(p: string, u: string, sep: char)
    requires sep !in p
    ensures Split(p + [sep] + u, sep) == [p] + Split(u, sep)
  {
    var s := p + [sep] + u;
    if |p| == 0 {
      assert s[1..] == u;
    } else {
      assert s[1..] == p[1..] + [sep] + u;
      SplitAfterPiece(p[1..], u, sep);
      assert [p[0]] + p[1..] == p;
    }
  }

  /** Splitting undoes joining, provided no piece contains the separator. */
  lemma {:induction false} JoinThenSplit(parts: seq<string>, sep: char)
    requires |parts| >= 1
    requires forall i :: 0 <= i < |parts| ==> sep !in parts[i]
    ensures Split(Join(parts, sep), sep) == parts
  {
    if |parts| == 1 {
      SplitWithoutSeparator(parts[0], sep);
    } else {
      SplitAfterPiece(parts[0], Join(parts[1..], sep), sep);
      JoinThenSplit(parts[1..], sep);
      assert parts == [parts[0]] + parts[1..];
    }
  }

  /** The last segment of `s`: the suffix after the final `sep`, or all of
      `s` when there is none (Go's `parts[len(parts)-1]`). */
  function LastSegment(s: string, sep: char): (r: string)
    ensures sep !in r
    ensures |r| <= |s| && s[|s| - |r|..] == r
    ensures |r| == |s| || s[|s| - |r| - 1] == sep
  {
    SplitPiecesLackSeparator(s, sep);
    LastPieceIsFinalSuffix(s, sep);
    var parts := Split(s, sep);
    parts[|parts| - 1]
  }

  /** The last piece of a split is a suffix of `s`, preceded by `sep` unless
      it is all of `s`. */
  lemma {:induction false} LastPieceIsFinalSuffix(s: string, sep: char)
    ensures var parts := Split(s, sep);
            var r := parts[|parts| - 1];
            |r| <= |s| && s[|s| - |r|..] == r && (|r| == |s| || s[|s| - |r| - 1] == sep)
  {
    if |s| > 0 {
      var t := s[1..];
      var rest := Split(t, sep);
      LastPieceIsFinalSuffix(t, sep);
      var r := rest[|rest| - 1];
      var parts := Split(s, sep);
      if s[0] != sep && |rest| == 1 {
        SplitThenJoin(t, sep);
        assert parts == [[s[0]] + t];
        assert [s[0]] + t == s;
      } else {
        assert parts[|parts| - 1] == r;
        assert s[|s| - |r|..] == t[|t| - |r|..];
        if s[0] != sep && |r| == |t| {
          // then the last piece is all of `t`, yet `t` splits into several
          SplitPiecesLackSeparator(t, sep);
          SplitWithoutSeparator(t, sep);
          assert false;
        }
      }
    }
  }

  /** The last segment of a string that ends with `sep` followed by a
      separator-free `tail` is that tail. */
  lemma LastSegmentAfterSeparator(p: string, tail: string, sep: char)
    requires |p| > 0 && p[|p| - 1] == sep
    requires sep !in tail
    ensures LastSegment(p + tail, sep) == tail
  {
    var s := p + tail;
    assert s[|p| - 1] == sep;
    assert s[|s| - |tail|..] == tail;
  }
}
