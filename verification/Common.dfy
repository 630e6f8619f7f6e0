/** Definitions that several parts of the model share. */
module Wrappers {
  datatype Option<T> = None | Some(value: T)
}

module Collections {
  /** The elements of a list of identifiers. */
  function SeqSet(s: seq<nat>): set<nat> {
    set f | f in s
  }
}

module Arithmetic {
  function Sum(s: seq<nat>): nat {
    if s == [] then 0 else Sum(s[..|s| - 1]) + s[|s| - 1]
  }

  lemma {:induction false} SumBound(a: seq<nat>, m: nat)
    requires forall e :: 0 <= e < |a| ==> a[e] <= m
    ensures Sum(a) <= m * |a|
  {
    if |a| > 0 {
      SumBound(a[..|a| - 1], m);
    }
  }

  function Pow2(n: nat): (p: nat)
    ensures p > 0
  {
    if n == 0 then 1 else 2 * Pow2(n - 1)
  }
}
