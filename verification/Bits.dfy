/** Go's `&` on non-negative integers, bit by bit, and what masking with `max_frames - 1` means. */
module Bits {
  import Modular

  function And(x: nat, y: nat): nat {
    if x == 0 || y == 0 then 0 else (x % 2) * (y % 2) + 2 * And(x / 2, y / 2)
  }

  function Pow2(k: nat): (r: nat)
    ensures r > 0
  {
    if k == 0 then 1 else 2 * Pow2(k - 1)
  }

  /** Masking with one less than a power of two is the remainder. */
  lemma {:induction false} MaskIsModulo(x: nat, k: nat)
    ensures And(x, Pow2(k) - 1) == x % Pow2(k)
  {
    if k > 0 {
      var m := Pow2(k - 1);
      MaskIsModulo(x / 2, k - 1);
      HalveModulo(x, m);
      Odd(m);
    }
  }

  lemma Odd(m: nat)
    requires m > 0
    ensures (2 * m - 1) / 2 == m - 1 && (2 * m - 1) % 2 == 1
  {
  }

  lemma HalveModulo(x: nat, m: nat)
    requires m > 0
    ensures x % (2 * m) == x % 2 + 2 * (x / 2 % m)
  {
    var q, r := x / 2 / m, x / 2 % m;
    assert x / 2 == q * m + r;
    assert x == q * (2 * m) + (x % 2 + 2 * r);
    Modular.DivModUnique(x, 2 * m, q, x % 2 + 2 * r);
  }

  /** The test `m & (m - 1) == 0` of a non-zero `m` accepts exactly the powers of two. */
  lemma {:induction false} PowerTest(m: nat)
    requires m > 0
    ensures And(m, m - 1) == 0 <==> exists k: nat :: m == Pow2(k)
  {
    if m == 1 {
      assert m == Pow2(0);
    } else if m % 2 == 0 {
      PowerTest(m / 2);
      assert (m - 1) / 2 == m / 2 - 1;
      if k: nat :| m / 2 == Pow2(k) { assert m == Pow2(k + 1); }
      if k: nat :| m == Pow2(k) { assert m / 2 == Pow2(k - 1); }
    } else {
      AndSelf(m / 2);
      assert (m - 1) / 2 == m / 2 && (m - 1) % 2 == 0;
      forall k: nat
        ensures m != Pow2(k)
      {
      }
    }
  }

  lemma {:induction false} AndSelf(x: nat)
    ensures And(x, x) == x
  {
    if x > 0 { AndSelf(x / 2); }
  }
}
