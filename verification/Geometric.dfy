/** Geometric schedules: powers, their sum, and its closed form. */
module Geometric {
  import opened Basics

  function Pow(base: nat, k: nat): nat
  {
    if k == 0 then 1 else Pow(base, k - 1) * base
  }

  /** first + first * factor + ... over n terms. */
  function GeomSum(first: nat, factor: nat, n: nat): nat
  {
    if n == 0 then 0 else GeomSum(first, factor, n - 1) + first * Pow(factor, n - 1)
  }

  lemma TermStep(first: nat, factor: nat, k: nat)
    ensures first * Pow(factor, k + 1) == first * Pow(factor, k) * factor
  {
    var p := Pow(factor, k);
    assert Pow(factor, k + 1) == p * factor;
    assert first * (p * factor) == first * p * factor;
  }

  /** The closed form of the sum. */
  lemma {:induction false} GeomClosed(first: nat, factor: nat, n: nat)
    ensures (factor - 1) * GeomSum(first, factor, n) == first * Pow(factor, n) - first
  {
    if n == 0 {
      assert Pow(factor, 0) == 1;
    } else {
      GeomClosed(first, factor, n - 1);
      TermStep(first, factor, n - 1);
      var s, t := GeomSum(first, factor, n - 1), first * Pow(factor, n - 1);
      assert (factor - 1) * (s + t) == (factor - 1) * s + (factor - 1) * t;
      assert (factor - 1) * t == t * factor - t;
    }
  }

  /** With a factor of at least 1 the terms never shrink. */
  lemma {:induction false} TermsGrow(first: nat, factor: nat, j: nat, k: nat)
    requires factor >= 1 && j <= k
    ensures first * Pow(factor, j) <= first * Pow(factor, k)
  {
    if j < k {
      TermsGrow(first, factor, j, k - 1);
      TermStep(first, factor, k - 1);
      NoSmaller(first * Pow(factor, k - 1), factor);
    }
  }

  lemma NoSmaller(t: nat, factor: nat)
    requires factor >= 1
    ensures t <= t * factor
  {
    assert t * factor == t + t * (factor - 1);
  }

  /** No earlier product exceeds both the first and the last. */
  lemma TermsBounded(initial: nat, factor: nat, j: nat, k: nat)
    requires j <= k
    ensures initial * Pow(factor, j) <= Max(initial, initial * Pow(factor, k))
  {
    if factor >= 1 {
      TermsGrow(initial, factor, j, k);
    } else if j > 0 {
      assert Pow(factor, j) == 0;
    } else {
      assert Pow(factor, j) == 1;
    }
  }
}
