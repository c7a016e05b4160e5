/**
 Facts about sequences and their multisets that hold whatever the element
 type: used to reason about visiting orders.
 */
module Sequences {

  /** A sequence is what comes before position `j`, the element there, and
      what comes after; leaving the element out removes one occurrence. */
  lemma SplitAround<T>(b: seq<T>, j: int)
    requires 0 <= j < |b|
    ensures b == b[..j] + [b[j]] + b[j + 1..]
    ensures multiset(b[..j] + b[j + 1..]) == multiset(b) - multiset{b[j]}
  {
    assert b == b[..j] + [b[j]] + b[j + 1..];
  }

  /** A permutation of `a` holds the first element of `a` somewhere. */
  lemma FirstElsewhere<T>(a: seq<T>, b: seq<T>) returns (j: int)
    requires |a| > 0 && multiset(a) == multiset(b)
    ensures 0 <= j < |b| && b[j] == a[0]
  {
    assert a[0] in multiset(a);
    j :| 0 <= j < |b| && b[j] == a[0];
  }
}
