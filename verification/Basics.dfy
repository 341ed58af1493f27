module Options {
  datatype Option<+T> = None | Some(value: T)
}

/** Two facts the proofs keep coming back to. */
module Basics {

  lemma Regroup<T>(a: seq<T>, b: seq<T>, c: seq<T>)
    ensures a + (b + c) == (a + b) + c
  {
  }

  lemma MulMonotone(a: nat, b: nat, k: nat)
    requires a <= b
    ensures a * k <= b * k
  {
  }
}
