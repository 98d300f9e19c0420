/** Facts about sequences that several proofs share. */
module Seqs {
  ghost predicate Increasing(xs: seq<nat>) {
    forall i, j | 0 <= i < j < |xs| :: xs[i] < xs[j]
  }

  /** Moving the head of what is left to the end of what is done. */
  lemma Shift<T>(done: seq<T>, x: T, left: seq<T>)
    ensures done + ([x] + left) == (done + [x]) + left
  {
  }

  lemma Regroup<T>(a: seq<T>, b: seq<T>, c: seq<T>)
    ensures (a + b) + c == a + (b + c)
  {
  }
}
