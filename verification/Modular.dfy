/** Slots of rings, and facts about division and remainder by a variable, which the solver does not find alone. */
module Modular {

  /** Go's division, which truncates toward zero. */
  function Quotient(a: int, b: int): int
    requires b > 0
  {
    if a >= 0 then a / b else -((-a) / b)
  }

  /** The slot of an anchor, `(anchor / cadence) & (slots - 1)` for a power of two. */
  function SlotIn(anchor: int, cadence: int, slots: int): (k: nat)
    requires cadence > 0 && slots > 0
    ensures k < slots
  {
    Quotient(anchor, cadence) % slots
  }

  lemma MulMonotone(a: int, b: int, m: nat)
    requires a <= b
    ensures a * m <= b * m
  {
  }

  /** Quotient and remainder are unique. */
  lemma DivModUnique(x: int, m: nat, q: int, r: int)
    requires m > 0 && x == q * m + r && 0 <= r < m
    ensures x / m == q && x % m == r
  {
    var q', r' := x / m, x % m;
    assert x == q' * m + r';
    if q' > q {
      MulMonotone(q + 1, q', m);
    } else if q' < q {
      MulMonotone(q' + 1, q, m);
    }
  }

  lemma MultipleModulo(k: int, m: nat)
    requires m > 0
    ensures (k * m) % m == 0 && (k * m) / m == k
  {
    DivModUnique(k * m, m, k, 0);
  }

  lemma AddMultiple(x: int, k: int, m: nat)
    requires m > 0
    ensures (x + k * m) % m == x % m && (x + k * m) / m == x / m + k
  {
    assert (x / m + k) * m == x / m * m + k * m;
    DivModUnique(x + k * m, m, x / m + k, x % m);
  }

  /** Moving by less than `n` changes the remainder. */
  lemma ShiftChangesRemainder(x: int, d: nat, n: nat)
    requires 0 < d < n
    ensures (x + d) % n != x % n
  {
    var r := x % n;
    if r + d < n {
      DivModUnique(x + d, n, x / n, r + d);
    } else {
      assert (x / n + 1) * n == x / n * n + n;
      DivModUnique(x + d, n, x / n + 1, r + d - n);
    }
  }
}
