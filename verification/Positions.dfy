/** Byte strings standing at positions of longer ones, without slicing them out. */
module Positions {
  import opened Basics

  /** `b` stands in `s` at `pos`. */
  predicate Stands(b: Bytes, s: Bytes, pos: nat) {
    pos + |b| <= |s| && forall k :: 0 <= k < |b| ==> b[k] == s[pos + k]
  }

  lemma StandsConcat(a: Bytes, b: Bytes, s: Bytes, pos: nat)
    ensures Stands(a + b, s, pos) <==> Stands(a, s, pos) && Stands(b, s, pos + |a|)
  {
    if Stands(a + b, s, pos) {
      forall k | 0 <= k < |a| ensures a[k] == s[pos + k] { assert (a + b)[k] == a[k]; }
      forall k | 0 <= k < |b| ensures b[k] == s[pos + |a| + k] { assert (a + b)[|a| + k] == b[k]; }
    }
  }
}
