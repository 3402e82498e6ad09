/**
 * Facts about sequences that the diff engine's proofs share: the
 * associativity of concatenation and how prefixes behave under it.
 */
module Seqs {

  lemma Assoc<T>(a: seq<T>, b: seq<T>, c: seq<T>)
    ensures (a + b) + c == a + (b + c)
  {
  }

  /** A prefix stays a prefix when something is appended to the longer sequence. */
  lemma PrefixGrow<T>(x: seq<T>, y: seq<T>, z: seq<T>)
    requires x <= y
    ensures x <= y + z
  {
    assert (y + z)[..|y|] == y;
  }

  /** A prefix stays a prefix when both sides get the same front. */
  lemma PrefixAppend<T>(a: seq<T>, b: seq<T>, c: seq<T>)
    requires b <= c
    ensures a + b <= a + c
  {
    assert (a + c)[..|a + b|] == a + b;
  }
}
