/** Small facts about sequence concatenation that the trace proofs lean on. */
module Sequences {

  lemma SeqAssoc<T>(a: seq<T>, b: seq<T>, c: seq<T>)
    ensures (a + b) + c == a + (b + c)
  {
  }

  lemma PrefixShift<T>(head: seq<T>, rest: seq<T>, k: nat)
    requires k <= |rest|
    ensures (head + rest)[..|head| + k] == head + rest[..k]
    ensures (head + rest)[|head| + k..] == rest[k..]
  {
  }
}
