/**
  Experience values: the pair of friendship (FXP) and relationship (RXP)
  experience a gift grants, and sums of per-modifier deltas.
 */
module Xp {

  datatype Effect = Effect(fxp: int, rxp: int) {

    function Plus(d: Effect): Effect {
      Effect(fxp + d.fxp, rxp + d.rxp)
    }
  }

  const Zero := Effect(0, 0)

  lemma PlusZero(a: Effect, z: Effect)
    requires z == Zero
    ensures a.Plus(z) == a
  {
  }

  /** The sum of `f` over `s`, added up from the front. */
  function Sum<T>(s: seq<T>, f: T -> Effect): Effect {
    if |s| == 0 then Zero else Sum(s[..|s| - 1], f).Plus(f(s[|s| - 1]))
  }

  lemma {:induction false} SumAppend<T>(a: seq<T>, b: seq<T>, f: T -> Effect)
    ensures Sum(a + b, f) == Sum(a, f).Plus(Sum(b, f))
    decreases |b|
  {
    if |b| == 0 {
      assert a + b == a;
    } else {
      assert (a + b)[..|a + b| - 1] == a + b[..|b| - 1];
      SumAppend(a, b[..|b| - 1], f);
    }
  }

  /** Taking one term out of a sum. */
  lemma {:induction false} SumRemove<T>(b: seq<T>, k: nat, f: T -> Effect)
    requires k < |b|
    ensures Sum(b, f) == Sum(b[..k] + b[k + 1..], f).Plus(f(b[k]))
  {
    var x, left, right := b[k], b[..k], b[k + 1..];
    assert b == left + ([x] + right);
    SumAppend(left, [x] + right, f);
    SumAppend([x], right, f);
    assert [x][..0] == [];
    assert Sum([x], f) == f(x);
    SumAppend(left, right, f);
  }

  lemma MultisetRemove<T>(b: seq<T>, k: nat)
    requires k < |b|
    ensures multiset(b[..k] + b[k + 1..]) == multiset(b) - multiset{b[k]}
  {
    assert b == b[..k] + [b[k]] + b[k + 1..];
  }

  /** A sum does not depend on the order of its terms. */
  lemma {:induction false} SumPermutation<T>(a: seq<T>, b: seq<T>, f: T -> Effect)
    requires multiset(a) == multiset(b)
    ensures Sum(a, f) == Sum(b, f)
    decreases |a|
  {
    if |a| == 0 {
      assert |b| == |multiset(b)| == 0;
    } else {
      var x := a[|a| - 1];
      var a' := a[..|a| - 1];
      assert a == a' + [x];
      assert multiset(a') == multiset(a) - multiset{x};
      assert x in multiset(b);
      var k :| 0 <= k < |b| && b[k] == x;
      MultisetRemove(b, k);
      SumPermutation(a', b[..k] + b[k + 1..], f);
      SumRemove(b, k, f);
    }
  }
}
