/**
 * Facts about sequence slicing, stated once for every element type so that
 * proofs about sequences of large datatypes need not rediscover them.
 */
module Seqs {

  lemma TakeSnoc<T>(s: seq<T>, i: nat)
    requires i < |s|
    ensures s[..i + 1] == s[..i] + [s[i]]
    ensures (s[..i] + [s[i]])[..i] == s[..i]
  {
  }

  lemma TakeAll<T>(s: seq<T>)
    ensures s[..|s|] == s
  {
  }

  lemma SnocInit<T>(s: seq<T>, x: T)
    ensures (s + [x])[..|s|] == s
    ensures (s + [x])[|s|] == x
  {
  }
}
