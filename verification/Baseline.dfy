/** Sums over the last 3600 buckets, kept as prefix sums in a ring of 3601 slots. */
module Baseline {

  const BASELINE := 3600
  const SLOTS := 3601

  function Sum(xs: seq<real>): real {
    if xs == [] then 0.0 else Sum(xs[..|xs| - 1]) + xs[|xs| - 1]
  }

  /** Index of the oldest value inside the window. */
  function Oldest(n: nat): (i: nat)
    ensures i <= n
  {
    if n > BASELINE then n - BASELINE else 0
  }

  lemma {:induction false} SumConcat(xs: seq<real>, ys: seq<real>)
    ensures Sum(xs + ys) == Sum(xs) + Sum(ys)
  {
    if ys == [] {
      assert xs + ys == xs;
    } else {
      assert (xs + ys)[..|xs + ys| - 1] == xs + ys[..|ys| - 1];
      SumConcat(xs, ys[..|ys| - 1]);
    }
  }

  lemma SumSplit(xs: seq<real>, k: nat)
    requires k <= |xs|
    ensures Sum(xs[k..]) == Sum(xs) - Sum(xs[..k])
  {
    assert xs == xs[..k] + xs[k..];
    SumConcat(xs[..k], xs[k..]);
  }

  function Zeros(n: nat): (r: seq<real>)
    ensures |r| == n && forall i :: 0 <= i < n ==> r[i] == 0.0
  {
    seq(n, _ => 0.0)
  }

  lemma {:induction false} SumZeros(xs: seq<real>)
    requires forall i :: 0 <= i < |xs| ==> xs[i] == 0.0
    ensures Sum(xs) == 0.0
  {
    if xs != [] { SumZeros(xs[..|xs| - 1]); }
  }

  // ---------- The ring on values ----------

  /** The running total and the ring of totals before recent columns. */
  datatype Prefixes = Prefixes(total: real, slots: seq<real>)

  const NO_PREFIXES := Prefixes(0.0, Zeros(SLOTS))

  /** Column `b` with value `x` is closed. */
  function Push(p: Prefixes, b: nat, x: real): Prefixes {
    Prefixes(p.total + x, if (b + 1) % SLOTS < |p.slots| then p.slots[(b + 1) % SLOTS := p.total + x] else p.slots)
  }

  /** The slot that the window ending with column `b` is taken from. */
  function WindowSlot(b: nat): (j: nat)
    ensures j < SLOTS
  {
    Oldest(b + 1) % SLOTS
  }

  /** What is taken for the sum over the window that ends with column `b`, just closed. */
  function Window(p: Prefixes, b: nat): real {
    if WindowSlot(b) < |p.slots| then p.total - p.slots[WindowSlot(b)] else p.total
  }

  /** For each slot, before which column its total was stored; 0 for a slot never stored to. */
  type Written = seq<nat>

  function Mark(w: Written, b: nat): (r: Written)
    ensures |r| == |w|
  {
    if (b + 1) % SLOTS < |w| then w[(b + 1) % SLOTS := b + 1] else w
  }

  /** The running total is the sum of all columns, and every slot is the total before its column. */
  ghost predicate Tracks(p: Prefixes, xs: seq<real>, w: Written) {
    && p.total == Sum(xs) && |p.slots| == |w| == SLOTS
    && forall j :: 0 <= j < SLOTS ==> SlotTracks(p, xs, w, j)
  }

  ghost predicate SlotTracks(p: Prefixes, xs: seq<real>, w: Written, j: nat)
    requires j < |p.slots| && j < |w|
  {
    w[j] <= |xs| && p.slots[j] == Sum(xs[..w[j]])
  }

  lemma NoPrefixesTrack()
    ensures Tracks(NO_PREFIXES, [], Nothing())
  {
  }

  function Nothing(): (w: Written)
    ensures |w| == SLOTS && forall j :: 0 <= j < SLOTS ==> w[j] == 0
  {
    seq(SLOTS, _ => 0)
  }

  lemma PushTracks(p: Prefixes, xs: seq<real>, w: Written, x: real)
    requires Tracks(p, xs, w)
    ensures Tracks(Push(p, |xs|, x), xs + [x], Mark(w, |xs|))
  {
    var all := xs + [x];
    var q, v := Push(p, |xs|, x), Mark(w, |xs|);
    assert all[..|xs|] == xs && all[..|all|] == all;
    forall j | 0 <= j < SLOTS
      ensures SlotTracks(q, all, v, j)
    {
      assert SlotTracks(p, xs, w, j);
      if j != (|xs| + 1) % SLOTS { assert all[..w[j]] == xs[..w[j]]; }
    }
  }

  /** Columns skipped with no weight leave everything as it is. */
  lemma SkipTracks(p: Prefixes, xs: seq<real>, w: Written, n: nat)
    requires Tracks(p, xs, w)
    ensures Tracks(p, xs + Zeros(n), w)
  {
    SumConcat(xs, Zeros(n));
    SumZeros(Zeros(n));
    forall j | 0 <= j < SLOTS
      ensures SlotTracks(p, xs + Zeros(n), w, j)
    {
      assert SlotTracks(p, xs, w, j);
      assert (xs + Zeros(n))[..w[j]] == xs[..w[j]];
    }
  }

  /** What is taken for the window is exactly the sum from the column the slot was stored before. */
  lemma WindowIsSum(p: Prefixes, xs: seq<real>, w: Written)
    requires Tracks(p, xs, w) && xs != []
    ensures var h := w[WindowSlot(|xs| - 1)]; h <= |xs| && Window(p, |xs| - 1) == Sum(xs[h..])
  {
    var j := WindowSlot(|xs| - 1);
    assert SlotTracks(p, xs, w, j);
    SumSplit(xs, w[j]);
  }

  /** The ring in place. */
  class PrefixRing {
    var total: real
    const slots: array<real>

    ghost function View(): Prefixes
      reads this, slots
    {
      Prefixes(total, slots[..])
    }

    constructor ()
      ensures slots.Length == SLOTS && View() == NO_PREFIXES && fresh(slots)
    {
      total := 0.0;
      slots := new real[SLOTS](_ => 0.0);
      new;
      assert slots[..] == Zeros(SLOTS);
    }

    /** Closes column `b` with value `x` and returns what is taken for its window. */
    method Close(b: nat, x: real) returns (window: real)
      requires slots.Length == SLOTS
      modifies this`total, slots
      ensures View() == Push(old(View()), b, x) && window == Window(View(), b)
    {
      total := total + x;
      slots[(b + 1) % SLOTS] := total;
      var start := b - BASELINE + 1;
      if start < 0 {
        start := 0;
      }
      window := total - slots[start % SLOTS];
    }
  }
}
