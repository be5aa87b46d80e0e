/** Facts about sequences in general that the other modules lean on. */
module Sequences {
  /** Concatenation associates; stated once so that proofs over long sequences need not rediscover it. */
  lemma {:induction false} AppendAssociates<T>(a: seq<T>, b: seq<T>, c: seq<T>)
    ensures a + (b + c) == a + b + c
  {
  }
}
