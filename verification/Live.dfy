/** The live path: ticks arrive in any order, wait in a reorder queue, and leave it when a flush
    has passed their timestamp. On time, this is sorted replay. */
module Live {
  import opened Feed
  import opened Schedule
  import opened Replay
  import opened Heap

  /** A tick with its arrival number. */
  datatype Item = Item(tick: Tick, seqNo: nat)

  /** The order of the reorder heap: timestamp, quote first, symbol, arrival. */
  predicate ItemLess(a: Item, b: Item) {
    if a.tick.ts != b.tick.ts then a.tick.ts < b.tick.ts
    else if a.tick.kind != b.tick.kind then a.tick.kind == TickQuote
    else if a.tick.symbol != b.tick.symbol then StringLess(a.tick.symbol, b.tick.symbol)
    else a.seqNo < b.seqNo
  }

  lemma ItemLessTransitive(a: Item, b: Item, c: Item)
    requires ItemLess(a, b) && ItemLess(b, c)
    ensures ItemLess(a, c)
  {
    if a.tick.symbol != b.tick.symbol && b.tick.symbol != c.tick.symbol {
      if StringLess(a.tick.symbol, b.tick.symbol) && StringLess(b.tick.symbol, c.tick.symbol) {
        StringLessTransitive(a.tick.symbol, b.tick.symbol, c.tick.symbol);
        if a.tick.symbol == c.tick.symbol { StringLessIrreflexive(a.tick.symbol); }
      }
    }
  }

  lemma ItemLessIrreflexive(a: Item)
    ensures !ItemLess(a, a)
  {
  }

  /** Two items with different arrival numbers are always ordered. */
  lemma ItemLessTotal(a: Item, b: Item)
    requires a.seqNo != b.seqNo
    ensures ItemLess(a, b) || ItemLess(b, a)
  {
    StringLessTotal(a.tick.symbol, b.tick.symbol);
  }

  lemma ItemLessIsOrder()
    ensures StrictWeakOrder(ItemLess)
  {
    forall a, b | ItemLess(a, b)
      ensures !ItemLess(b, a)
    {
      if ItemLess(b, a) { ItemLessTransitive(a, b, a); ItemLessIrreflexive(a); }
    }
    forall a, b, c | ItemLess(a, b) && ItemLess(b, c)
      ensures ItemLess(a, c)
    {
      ItemLessTransitive(a, b, c);
    }
    forall a, b, c | !ItemLess(b, a) && !ItemLess(c, b)
      ensures !ItemLess(c, a)
    {
      NotLessTransitive(a, b, c);
    }
  }

  lemma NotLessTransitive(a: Item, b: Item, c: Item)
    requires !ItemLess(b, a) && !ItemLess(c, b)
    ensures !ItemLess(c, a)
  {
    if ItemLess(c, a) {
      StringLessTotal(a.tick.symbol, b.tick.symbol);
      StringLessTotal(b.tick.symbol, c.tick.symbol);
      if ItemLess(a, b) { ItemLessTransitive(c, a, b); }
      else if ItemLess(b, c) { ItemLessTransitive(b, c, a); }
    }
  }

  // ---------- The queue as a sorted sequence ----------

  ghost predicate Sorted(q: seq<Item>) {
    forall i, j :: 0 <= i < j < |q| ==> InOrder(q, i, j)
  }

  ghost predicate InOrder(q: seq<Item>, i: nat, j: nat)
    requires i < j < |q|
  {
    ItemLess(q[i], q[j])
  }

  function Insert(q: seq<Item>, x: Item): (r: seq<Item>)
    ensures multiset(r) == multiset(q) + multiset{x}
  {
    if q == [] || ItemLess(x, q[0]) then [x] + q
    else
      assert q == [q[0]] + q[1..];
      [q[0]] + Insert(q[1..], x)
  }

  function SortItems(items: seq<Item>): (r: seq<Item>)
    ensures multiset(r) == multiset(items)
  {
    if items == [] then []
    else
      assert items == items[..|items| - 1] + [items[|items| - 1]];
      Insert(SortItems(items[..|items| - 1]), items[|items| - 1])
  }

  lemma TailSorted(q: seq<Item>)
    requires q != [] && Sorted(q)
    ensures Sorted(q[1..])
    ensures forall i :: 1 <= i < |q| ==> ItemLess(q[0], q[i])
  {
    forall i, j | 0 <= i < j < |q| - 1
      ensures InOrder(q[1..], i, j)
    {
      assert InOrder(q, i + 1, j + 1);
    }
    forall i | 1 <= i < |q|
      ensures ItemLess(q[0], q[i])
    {
      assert InOrder(q, 0, i);
    }
  }

  lemma ConsSorted(x: Item, q: seq<Item>)
    requires Sorted(q) && forall y :: y in q ==> ItemLess(x, y)
    ensures Sorted([x] + q)
  {
    forall i, j | 0 <= i < j < |q| + 1
      ensures InOrder([x] + q, i, j)
    {
      if i == 0 { assert q[j - 1] in q; } else { assert InOrder(q, i - 1, j - 1); }
    }
  }

  /** Inserting an item with a new arrival number keeps the queue sorted. */
  lemma {:induction false} InsertSorted(q: seq<Item>, x: Item)
    requires Sorted(q) && forall y :: y in q ==> y.seqNo != x.seqNo
    ensures Sorted(Insert(q, x))
  {
    if q != [] {
      TailSorted(q);
      if ItemLess(x, q[0]) {
        forall y | y in q
          ensures ItemLess(x, y)
        {
          if y != q[0] { ItemLessTransitive(x, q[0], y); }
        }
        ConsSorted(x, q);
      } else {
        ItemLessTotal(x, q[0]);
        InsertSorted(q[1..], x);
        var tail := Insert(q[1..], x);
        forall y | y in tail
          ensures ItemLess(q[0], y)
        {
          assert y in multiset(tail);
          assert y in q[1..] || y == x;
        }
        ConsSorted(q[0], tail);
      }
    }
  }

  /** A least item of a heap with the same contents is the head of the sorted queue. */
  lemma HeadIsLeast(q: seq<Item>, h: seq<Item>, x: Item)
    requires Sorted(q) && multiset(q) == multiset(h) && x in h && Least(ItemLess, x, multiset(h))
    ensures q != [] && q[0] == x
    ensures multiset(q[1..]) == multiset(h) - multiset{x}
  {
    assert x in multiset(q);
    assert x in q;
    assert q[0] in multiset(q);
    assert q == [q[0]] + q[1..];
    TailSorted(q);
  }

  // ---------- What is due ----------

  function Due(q: seq<Item>, limit: int): (r: seq<Item>)
    ensures |r| <= |q|
  {
    if q != [] && q[0].tick.ts <= limit then [q[0]] + Due(q[1..], limit) else []
  }

  function Rest(q: seq<Item>, limit: int): seq<Item> {
    if q != [] && q[0].tick.ts <= limit then Rest(q[1..], limit) else q
  }

  function Ticks(q: seq<Item>): seq<Tick> {
    if q == [] then [] else [q[0].tick] + Ticks(q[1..])
  }

  lemma {:induction false} TicksAt(q: seq<Item>)
    ensures |Ticks(q)| == |q| && forall i :: 0 <= i < |q| ==> Ticks(q)[i] == q[i].tick
  {
    if q != [] { TicksAt(q[1..]); }
  }

  lemma {:induction false} TicksConcat(p: seq<Item>, q: seq<Item>)
    ensures Ticks(p + q) == Ticks(p) + Ticks(q)
  {
    if p == [] {
      assert p + q == q;
    } else {
      assert (p + q)[1..] == p[1..] + q;
      TicksConcat(p[1..], q);
    }
  }

  lemma {:induction false} DueThenRest(q: seq<Item>, limit: int)
    ensures q == Due(q, limit) + Rest(q, limit)
    ensures Rest(q, limit) != [] ==> Rest(q, limit)[0].tick.ts > limit
    ensures forall i :: 0 <= i < |Due(q, limit)| ==> Due(q, limit)[i].tick.ts <= limit
  {
    if q != [] && q[0].tick.ts <= limit {
      DueThenRest(q[1..], limit);
      assert q == [q[0]] + q[1..];
    }
  }

  /** Taking what is due in two steps. */
  lemma {:induction false} DueTwice(q: seq<Item>, a: int, b: int)
    requires a <= b
    ensures Due(q, b) == Due(q, a) + Due(Rest(q, a), b)
    ensures Rest(Rest(q, a), b) == Rest(q, b)
  {
    if q != [] && q[0].tick.ts <= a {
      DueTwice(q[1..], a, b);
    }
  }

  /** An item that is not due is inserted behind everything that is. */
  lemma {:induction false} InsertNotDue(q: seq<Item>, x: Item, limit: int)
    requires x.tick.ts > limit
    ensures Due(Insert(q, x), limit) == Due(q, limit)
    ensures Rest(Insert(q, x), limit) == Insert(Rest(q, limit), x)
  {
    if q != [] && q[0].tick.ts <= limit {
      assert !ItemLess(x, q[0]);
      var r := Insert(q, x);
      assert r == [q[0]] + Insert(q[1..], x);
      assert r[1..] == Insert(q[1..], x);
      InsertNotDue(q[1..], x, limit);
    } else {
      assert Rest(q, limit) == q && Due(q, limit) == [];
      assert Insert(q, x)[0].tick.ts > limit;
    }
  }

  // ---------- Flush on values ----------

  datatype Pending = Pending(core: Core, queue: seq<Item>)

  function Drain(cfg: Config, s: Pending, limit: int): (r: Pending)
    ensures r.queue == Rest(s.queue, limit) && |r.core.phaseNext| == |s.core.phaseNext|
    decreases |s.queue|
  {
    if s.queue != [] && s.queue[0].tick.ts <= limit then
      Drain(cfg, Pending(LiveIngest(cfg, s.core, s.queue[0].tick), s.queue[1..]), limit)
    else s
  }

  lemma {:induction false} OutstandingMonotone(x: seq<nat>, y: seq<nat>, limit: int)
    requires |x| == |y| && forall i :: 0 <= i < |x| ==> x[i] <= y[i]
    ensures Outstanding(y, limit) <= Outstanding(x, limit)
  {
    if x != [] { OutstandingMonotone(x[..|x| - 1], y[..|y| - 1], limit); }
  }

  /** Taking ticks sets unset anchors at most, so it never adds work, and it leaves set anchors alone. */
  lemma {:induction false} DrainKeepsAnchors(cfg: Config, s: Pending, limit: int, end: int)
    ensures var r := Drain(cfg, s, limit);
            && (s.core.nextSecond > 0 ==> r.core.nextSecond == s.core.nextSecond)
            && r.core.nextSecond >= s.core.nextSecond
            && (forall p :: 0 <= p < |s.core.phaseNext| ==>
                  (s.core.phaseNext[p] > 0 ==> r.core.phaseNext[p] == s.core.phaseNext[p])
                  && s.core.phaseNext[p] <= r.core.phaseNext[p])
            && Work(r.core, end, end) <= Work(s.core, end, end)
    decreases |s.queue|
  {
    if s.queue != [] && s.queue[0].tick.ts <= limit {
      var c1 := LiveIngest(cfg, s.core, s.queue[0].tick);
      OutstandingMonotone(s.core.phaseNext, c1.phaseNext, end);
      DrainKeepsAnchors(cfg, Pending(c1, s.queue[1..]), limit, end);
    }
  }

  /** The last timestamp that is taken before a boundary is crossed. */
  function TakenBefore(c: Core, e: Boundary, end: int): int
    requires e.PhaseAt? ==> e.p < |c.phaseNext|
  {
    match e
    case Second => c.nextSecond - 1
    case PhaseAt(p) => c.phaseNext[p]
    case Nothing => end
  }

  lemma FlushDecreases(cfg: Config, s: Pending, end: int)
    requires NextBoundary(s.core, end, end) != Nothing
    ensures var e := NextBoundary(s.core, end, end);
            Work(Cross(cfg, Drain(cfg, s, TakenBefore(s.core, e, end)).core, e), end, end) < Work(s.core, end, end)
  {
    hide Drain, Earliest, WalkSyms, WalkRows;
    var e := NextBoundary(s.core, end, end);
    var r := Drain(cfg, s, TakenBefore(s.core, e, end));
    DrainKeepsAnchors(cfg, s, TakenBefore(s.core, e, end), end);
    if e.PhaseAt? {
      OutstandingDecreases(r.core.phaseNext, end, e.p, r.core.phaseNext[e.p] + cfg.cadence);
    }
  }

  /** `Flush` in live mode: take the ticks before each boundary, cross it, and finally take all that is due. */
  function Flush(cfg: Config, s: Pending, end: int): Pending
    decreases Work(s.core, end, end)
  {
    var e := NextBoundary(s.core, end, end);
    var r := Drain(cfg, s, TakenBefore(s.core, e, end));
    if e == Nothing then r
    else FlushDecreases(cfg, s, end); Flush(cfg, Pending(Cross(cfg, r.core, e), r.queue), end)
  }

  /** One step of a flush. */
  lemma FlushUnfolds(cfg: Config, s: Pending, end: int)
    ensures var e := NextBoundary(s.core, end, end);
            var r := Drain(cfg, s, TakenBefore(s.core, e, end));
            && (e == Nothing ==> Flush(cfg, s, end) == r)
            && (e != Nothing ==>
                  && Flush(cfg, s, end) == Flush(cfg, Pending(Cross(cfg, r.core, e), r.queue), end)
                  && Work(Cross(cfg, r.core, e), end, end) < Work(s.core, end, end))
  {
    hide Drain, NextBoundary, Cross;
    if NextBoundary(s.core, end, end) != Nothing { FlushDecreases(cfg, s, end); }
  }

  // ---------- Flush is the normal form ----------

  /** Taking a tick before which no boundary is left is the normal form's step. */
  lemma LiveIngestIsCrossAndTake(cfg: Config, c: Core, t: Tick, limit: int)
    requires Aligned(cfg, c) && t.ts <= limit && NextBoundary(c, limit, limit - 1) == Nothing
    ensures LiveIngest(cfg, c, t) == CrossAndTake(cfg, c, t)
    ensures Aligned(cfg, LiveIngest(cfg, c, t))
  {
    hide Aligned, Take, NextBoundary;
    InitAnchorsIdle(cfg, c, t.ts);
    if NextBoundary(c, t.ts, t.ts - 1) != Nothing {
      NextIsStable(c, t.ts, t.ts - 1, limit, limit - 1);
    }
    NothingLeft(cfg, c, t.ts, t.ts - 1);
    TakeKeepsAligned(cfg, c, t, IsLate(cfg, c, t));
  }

  lemma SameAnchorsSameNext(c: Core, d: Core, a: int, b: int)
    requires c.nextSecond == d.nextSecond && c.phaseNext == d.phaseNext
    ensures NextBoundary(c, a, b) == NextBoundary(d, a, b)
  {
  }

  /** Draining up to a point before which no boundary is left follows the normal form. */
  lemma {:induction false} DrainIsCanon(cfg: Config, s: Pending, limit: int, end: int)
    requires Aligned(cfg, s.core) && limit <= end && NextBoundary(s.core, limit, limit - 1) == Nothing
    ensures var r := Drain(cfg, s, limit);
            && Aligned(cfg, r.core) && r.core.nextSecond == s.core.nextSecond && r.core.phaseNext == s.core.phaseNext
            && Canon(cfg, r.core, Ticks(Due(r.queue, end)), end) == Canon(cfg, s.core, Ticks(Due(s.queue, end)), end)
    decreases |s.queue|
  {
    hide Aligned, LiveIngest, CrossAndTake, NextBoundary;
    if s.queue != [] && s.queue[0].tick.ts <= limit {
      var t, tail := s.queue[0].tick, s.queue[1..];
      LiveIngestIsCrossAndTake(cfg, s.core, t, limit);
      var c1 := LiveIngest(cfg, s.core, t);
      LiveIngestKeepsAnchors(cfg, s.core, t);
      SameAnchorsSameNext(s.core, c1, limit, limit - 1);
      DrainIsCanon(cfg, Pending(c1, tail), limit, end);
      var ticks := Ticks(Due(s.queue, end));
      assert ticks == [t] + Ticks(Due(tail, end));
      assert ticks[0] == t && ticks[1..] == Ticks(Due(tail, end));
    }
  }

  lemma LiveIngestKeepsAnchors(cfg: Config, c: Core, t: Tick)
    requires Aligned(cfg, c)
    ensures LiveIngest(cfg, c, t).nextSecond == c.nextSecond && LiveIngest(cfg, c, t).phaseNext == c.phaseNext
  {
    hide Aligned, Take;
    InitAnchorsIdle(cfg, c, t.ts);
  }

  /** Before the next boundary up to `end`, nothing is left to cross. */
  lemma NothingBeforeNext(c: Core, end: int)
    ensures var limit := TakenBefore(c, NextBoundary(c, end, end), end);
            limit <= end && NextBoundary(c, limit, limit - 1) == Nothing
  {
    var e := NextBoundary(c, end, end);
    var limit := TakenBefore(c, e, end);
    if NextBoundary(c, limit, limit - 1) != Nothing {
      NextIsStable(c, limit, limit - 1, end, end);
    }
  }

  /** Once every tick before it is taken, the next boundary may be crossed first. */
  lemma CrossFirst(cfg: Config, c: Core, ticks: seq<Tick>, end: int)
    requires NextBoundary(c, end, end) != Nothing
    requires ticks != [] ==> TakenBefore(c, NextBoundary(c, end, end), end) < ticks[0].ts <= end
    ensures Canon(cfg, c, ticks, end) == Canon(cfg, Cross(cfg, c, NextBoundary(c, end, end)), ticks, end)
  {
    hide Cross, Take, CloseTo, NextBoundary;
    var e := NextBoundary(c, end, end);
    if ticks == [] {
      CloseToCrosses(cfg, c, end, end);
    } else {
      var ts: int := ticks[0].ts;
      NextBeforeTick(c, ts, end);
      CloseToCrosses(cfg, c, ts, ts - 1);
    }
  }

  lemma CloseToCrosses(cfg: Config, c: Core, a: int, b: int)
    requires NextBoundary(c, a, b) != Nothing
    ensures CloseTo(cfg, c, a, b) == CloseTo(cfg, Cross(cfg, c, NextBoundary(c, a, b)), a, b)
  {
  }

  /** The next boundary up to `end` is also the next one before a later tick. */
  lemma NextBeforeTick(c: Core, ts: nat, end: int)
    requires NextBoundary(c, end, end) != Nothing && TakenBefore(c, NextBoundary(c, end, end), end) < ts <= end
    ensures NextBoundary(c, ts, ts - 1) == NextBoundary(c, end, end)
  {
    assert NextBoundary(c, ts, ts - 1) != Nothing;
    NextIsStable(c, ts, ts - 1, end, end);
  }

  lemma DueHead(q: seq<Item>, end: int)
    ensures Ticks(Due(q, end)) != [] ==> q != [] && Ticks(Due(q, end))[0] == q[0].tick && q[0].tick.ts <= end
  {
  }

  /** A flush of a live projector leaves the state of a sorted replay of the ticks that were due. */
  lemma {:induction false} FlushIsCanon(cfg: Config, s: Pending, end: int)
    requires Aligned(cfg, s.core)
    ensures Flush(cfg, s, end) == Pending(Canon(cfg, s.core, Ticks(Due(s.queue, end)), end), Rest(s.queue, end))
    decreases Work(s.core, end, end)
  {
    hide Aligned, Canon, Due, Ticks, NextBoundary, Cross, Drain, Rest;
    var e := NextBoundary(s.core, end, end);
    var limit := TakenBefore(s.core, e, end);
    NothingBeforeNext(s.core, end);
    DrainIsCanon(cfg, s, limit, end);
    var r := Drain(cfg, s, limit);
    SameAnchorsSameNext(s.core, r.core, end, end);
    DueThenRest(s.queue, limit);
    DueTwice(s.queue, limit, end);
    if e == Nothing {
      NothingDueLeft(cfg, r, end);
    } else {
      FlushDecreases(cfg, s, end);
      CrossKeepsAligned(cfg, r.core, end, end);
      DueHead(r.queue, end);
      CrossFirst(cfg, r.core, Ticks(Due(r.queue, end)), end);
      FlushIsCanon(cfg, Pending(Cross(cfg, r.core, e), r.queue), end);
    }
  }

  lemma NothingDueLeft(cfg: Config, r: Pending, end: int)
    requires NextBoundary(r.core, end, end) == Nothing && (r.queue != [] ==> r.queue[0].tick.ts > end)
    ensures Canon(cfg, r.core, Ticks(Due(r.queue, end)), end) == r.core
  {
  }

  // ---------- Whole live runs ----------

  datatype Op = Arrive(t: Tick) | FlushTo(end: int)

  datatype LiveState = LiveState(pending: Pending, arrived: nat)

  function LiveStep(cfg: Config, s: LiveState, op: Op): LiveState {
    match op
    case Arrive(t) =>
      if Tracks(cfg, s.pending.core.syms, t.symbol) then
        LiveState(s.pending.(queue := Insert(s.pending.queue, Item(t, s.arrived + 1))), s.arrived + 1)
      else s
    case FlushTo(end) => s.(pending := Flush(cfg, s.pending, end))
  }

  function LiveRun(cfg: Config, c: Core, ops: seq<Op>): LiveState {
    if ops == [] then LiveState(Pending(c, []), 0)
    else LiveStep(cfg, LiveRun(cfg, c, ops[..|ops| - 1]), ops[|ops| - 1])
  }

  /** The tracked ticks of the run, numbered as they arrived. */
  function Arrivals(cfg: Config, c: Core, ops: seq<Op>): seq<Item> {
    if ops == [] then []
    else
      var before := Arrivals(cfg, c, ops[..|ops| - 1]);
      match ops[|ops| - 1]
      case Arrive(t) => if Tracks(cfg, c.syms, t.symbol) then before + [Item(t, |before| + 1)] else before
      case FlushTo(_) => before
  }

  /** The latest point the run has been flushed to; -1 before the first flush. */
  function Flushed(ops: seq<Op>): int {
    if ops == [] then -1
    else
      var before := Flushed(ops[..|ops| - 1]);
      match ops[|ops| - 1]
      case Arrive(_) => before
      case FlushTo(end) => if end > before then end else before
  }

  /** Every tick arrives with a timestamp after all flushes before it. */
  ghost predicate OnTime(ops: seq<Op>) {
    ops != [] ==>
      && OnTime(ops[..|ops| - 1])
      && (ops[|ops| - 1].Arrive? ==> ops[|ops| - 1].t.ts > Flushed(ops[..|ops| - 1]))
  }

  lemma {:induction false} ArrivalNumbers(cfg: Config, c: Core, ops: seq<Op>)
    ensures forall x :: x in Arrivals(cfg, c, ops) ==> x.seqNo <= |Arrivals(cfg, c, ops)|
  {
    if ops != [] { ArrivalNumbers(cfg, c, ops[..|ops| - 1]); }
  }

  /** All arrivals so far, stably sorted. */
  function SortedArrivals(cfg: Config, c: Core, ops: seq<Op>): seq<Item> {
    SortItems(Arrivals(cfg, c, ops))
  }

  lemma {:induction false} SortedArrivalsSorted(cfg: Config, c: Core, ops: seq<Op>)
    ensures Sorted(SortedArrivals(cfg, c, ops))
  {
    if ops != [] {
      var before := Arrivals(cfg, c, ops[..|ops| - 1]);
      SortedArrivalsSorted(cfg, c, ops[..|ops| - 1]);
      ArrivalNumbers(cfg, c, ops[..|ops| - 1]);
      match ops[|ops| - 1]
      case Arrive(t) =>
        if Tracks(cfg, c.syms, t.symbol) {
          var x := Item(t, |before| + 1);
          assert (before + [x])[..|before|] == before;
          forall y | y in SortItems(before)
            ensures y.seqNo != x.seqNo
          {
            assert y in multiset(SortItems(before));
            assert y in before;
          }
          InsertSorted(SortItems(before), x);
        }
      case FlushTo(_) =>
    }
  }

  /** The state of a run that is on time, whatever the arrival order and the flush schedule:
      what has been flushed is the sorted replay of the arrivals, and the rest waits in order. */
  ghost predicate RunIsReplay(cfg: Config, c: Core, ops: seq<Op>) {
    var s := LiveRun(cfg, c, ops);
    var all := SortedArrivals(cfg, c, ops);
    var end := Flushed(ops);
    && s.pending == Pending(Canon(cfg, c, Ticks(Due(all, end)), end), Rest(all, end))
    && s.arrived == |Arrivals(cfg, c, ops)|
  }

  lemma ArriveUnfolds(cfg: Config, c: Core, ops: seq<Op>, t: Tick)
    ensures var before, x := Arrivals(cfg, c, ops), Item(t, |Arrivals(cfg, c, ops)| + 1);
            && LiveRun(cfg, c, ops + [Arrive(t)]) == LiveStep(cfg, LiveRun(cfg, c, ops), Arrive(t))
            && Flushed(ops + [Arrive(t)]) == Flushed(ops)
            && Arrivals(cfg, c, ops + [Arrive(t)]) == (if Tracks(cfg, c.syms, t.symbol) then before + [x] else before)
  {
    hide LiveStep, Tracks;
    assert (ops + [Arrive(t)])[..|ops|] == ops;
  }

  lemma SortAppend(items: seq<Item>, x: Item)
    ensures SortItems(items + [x]) == Insert(SortItems(items), x)
  {
    hide Insert;
    assert (items + [x])[..|items|] == items;
  }

  lemma ArriveStep(cfg: Config, c: Core, ops: seq<Op>, t: Tick)
    requires Aligned(cfg, c) && RunIsReplay(cfg, c, ops) && t.ts > Flushed(ops)
    ensures RunIsReplay(cfg, c, ops + [Arrive(t)])
  {
    hide Aligned, Canon, Insert, Due, Rest, LiveRun, Arrivals, Flushed, SortItems;
    var all := SortedArrivals(cfg, c, ops);
    var end := Flushed(ops);
    ArriveUnfolds(cfg, c, ops, t);
    SortAppend(Arrivals(cfg, c, ops), Item(t, |Arrivals(cfg, c, ops)| + 1));
    CanonKeepsCount(cfg, c, Ticks(Due(all, end)), end);
    InsertNotDue(all, Item(t, |Arrivals(cfg, c, ops)| + 1), end);
  }

  lemma FlushStep(cfg: Config, c: Core, ops: seq<Op>, end': int)
    requires Aligned(cfg, c) && RunIsReplay(cfg, c, ops)
    ensures RunIsReplay(cfg, c, ops + [FlushTo(end')])
  {
    hide Aligned, Canon, Due, Rest, Flush, SortItems;
    var ops' := ops + [FlushTo(end')];
    assert ops'[..|ops|] == ops;
    var s := LiveRun(cfg, c, ops).pending;
    var all := SortedArrivals(cfg, c, ops);
    var end := Flushed(ops);
    CanonStaysAligned(cfg, c, Ticks(Due(all, end)), end);
    FlushIsCanon(cfg, s, end');
    DueThenRest(all, end);
    if end' <= end {
      FlushBehind(cfg, s, end', end);
    } else {
      DueTwice(all, end, end');
      TicksConcat(Due(all, end), Due(s.queue, end'));
      DueHead(s.queue, end');
      CanonConcat(cfg, c, Ticks(Due(all, end)), end, Ticks(Due(s.queue, end')), end');
    }
  }

  /** A flush to a point already passed does nothing. */
  lemma FlushBehind(cfg: Config, s: Pending, end': int, end: int)
    requires end' <= end && NextBoundary(s.core, end, end) == Nothing && (s.queue != [] ==> s.queue[0].tick.ts > end)
    ensures Canon(cfg, s.core, Ticks(Due(s.queue, end')), end') == s.core && Rest(s.queue, end') == s.queue
  {
    if NextBoundary(s.core, end', end') != Nothing {
      NextIsStable(s.core, end', end', end, end);
    }
  }

  lemma {:induction false} LiveRunIsReplay(cfg: Config, c: Core, ops: seq<Op>)
    requires Aligned(cfg, c) && OnTime(ops)
    ensures RunIsReplay(cfg, c, ops)
  {
    if ops != [] {
      var init := ops[..|ops| - 1];
      assert ops == init + [ops[|ops| - 1]];
      LiveRunIsReplay(cfg, c, init);
      match ops[|ops| - 1]
      case Arrive(t) => ArriveStep(cfg, c, init, t);
      case FlushTo(end) => FlushStep(cfg, c, init, end);
    }
  }

  lemma TicksInOrder(q: seq<Item>)
    requires Sorted(q)
    ensures InTimeOrder(Ticks(q))
  {
    TicksAt(q);
    forall i, j | 0 <= i < j < |Ticks(q)|
      ensures Before(Ticks(q), i, j)
    {
      assert InOrder(q, i, j);
    }
  }

  lemma {:induction false} DueSorted(q: seq<Item>, limit: int)
    requires Sorted(q)
    ensures Sorted(Due(q, limit)) && NoneAfter(Ticks(Due(q, limit)), limit)
  {
    DueThenRest(q, limit);
    TicksAt(Due(q, limit));
    var d := Due(q, limit);
    forall i, j | 0 <= i < j < |d|
      ensures InOrder(d, i, j)
    {
      assert InOrder(q, i, j);
      assert q[i] == d[i] && q[j] == d[j];
    }
  }

  /** Live equals replay. After any run in which every tick arrives after the flushes before it, for any
      arrival order and any flush schedule, the whole scheduler state, with all committed frames,
      is the one that replay mode reaches on the stably sorted ticks that were due. */
  lemma LiveEqualsReplay(cfg: Config, c: Core, ops: seq<Op>)
    requires Aligned(cfg, c) && OnTime(ops)
    ensures var end := Flushed(ops);
            var due := Ticks(Due(SortedArrivals(cfg, c, ops), end));
            LiveRun(cfg, c, ops).pending.core == CloseTo(cfg, ReplayAll(cfg, c, due), end, end)
  {
    var end := Flushed(ops);
    var all := SortedArrivals(cfg, c, ops);
    LiveRunIsReplay(cfg, c, ops);
    SortedArrivalsSorted(cfg, c, ops);
    DueSorted(all, end);
    TicksInOrder(Due(all, end));
    ReplayIsCanon(cfg, c, Ticks(Due(all, end)), end);
  }

  /** At every moment the frames committed live are an initial part of the frames that replay mode commits
      for all the ticks that have arrived, sorted. */
  lemma LiveFramesArePrefix(cfg: Config, c: Core, ops: seq<Op>, end': int)
    requires Aligned(cfg, c) && OnTime(ops)
    requires end' >= Flushed(ops) && NoneAfter(Ticks(SortedArrivals(cfg, c, ops)), end')
    ensures var all := Ticks(SortedArrivals(cfg, c, ops));
            LiveRun(cfg, c, ops).pending.core.frames <= CloseTo(cfg, ReplayAll(cfg, c, all), end', end').frames
  {
    var end := Flushed(ops);
    var all := SortedArrivals(cfg, c, ops);
    var due, rest := Due(all, end), Rest(all, end);
    LiveRunIsReplay(cfg, c, ops);
    SortedArrivalsSorted(cfg, c, ops);
    TicksInOrder(all);
    ReplayIsCanon(cfg, c, Ticks(all), end');
    DueThenRest(all, end);
    TicksConcat(due, rest);
    TicksAt(rest);
    CanonConcat(cfg, c, Ticks(due), end, Ticks(rest), end');
    CanonExtendsFrames(cfg, Canon(cfg, c, Ticks(due), end), Ticks(rest), end');
  }
}
