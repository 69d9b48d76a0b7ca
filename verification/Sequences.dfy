/** What many proofs about sequences share. */
module Sequences {
  lemma ConcatAssociative<T>(a: seq<T>, b: seq<T>, c: seq<T>)
    ensures a + b + c == a + (b + c)
  {}

  ghost predicate Distinct<T>(s: seq<T>) {
    forall i, j :: 0 <= i < j < |s| ==> s[i] != s[j]
  }

  /** A sequence without its element `k`. */
  function Without<T>(s: seq<T>, k: nat): (w: seq<T>)
    requires k < |s|
    ensures |w| == |s| - 1
  {
    s[..k] + s[k + 1..]
  }

  lemma WithoutAt<T>(s: seq<T>, k: nat, i: nat)
    requires k < |s| && i < |s| - 1
    ensures Without(s, k)[i] == s[if i < k then i else i + 1]
  {}

  lemma DistinctWithout<T>(s: seq<T>, k: nat)
    requires Distinct(s) && k < |s|
    ensures Distinct(Without(s, k)) && s[k] !in Without(s, k)
  {
    forall i | 0 <= i < |s| - 1
      ensures Without(s, k)[i] == s[if i < k then i else i + 1]
    {}
  }
}
