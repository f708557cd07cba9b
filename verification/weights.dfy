/** Weight vectors: one real weight per mixer input slot. */
module Weights {

  /** A weight vector of `n` slots, every one of them 0. */
  function Zeros(n: nat): (w: seq<real>)
    ensures |w| == n
    ensures forall i :: 0 <= i < n ==> w[i] == 0.0
  {
    seq(n, _ => 0.0)
  }

  /** Total weight of a vector. */
  function Sum(w: seq<real>): real
  {
    if |w| == 0 then 0.0 else w[0] + Sum(w[1..])
  }

  /** The slots carrying a non-zero weight. */
  function NonZeroSlots(w: seq<real>): set<nat>
  {
    set i: nat | i < |w| && w[i] != 0.0
  }

  /** A vector of zeros weighs nothing. */
  lemma {:induction false} SumZeros(n: nat)
    ensures Sum(Zeros(n)) == 0.0
  {
    if n > 0 {
      assert Zeros(n)[1..] == Zeros(n - 1);
      SumZeros(n - 1);
    }
  }

  /** Overwriting one slot changes the total by exactly the difference. */
  lemma {:induction false} SumUpdate(w: seq<real>, i: nat, v: real)
    requires i < |w|
    ensures Sum(w[i := v]) == Sum(w) - w[i] + v
  {
    if i == 0 {
      assert w[i := v][1..] == w[1..];
    } else {
      assert w[i := v][1..] == w[1..][i - 1 := v];
      SumUpdate(w[1..], i - 1, v);
    }
  }

  /** A subset of slots has no more elements than the set containing it. */
  lemma {:induction false} SubsetCardinality(a: set<nat>, b: set<nat>)
    requires a <= b
    ensures |a| <= |b|
  {
    if a != {} {
      var x :| x in a;
      SubsetCardinality(a - {x}, b - {x});
    }
  }
}
