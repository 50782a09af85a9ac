/** What is in a committed frame: slots 0..35 are made of exactly the ticks of the anchor's whole second,
    slots 36..43 of the ticks up to the anchor. Said by folds over the tick stream, with no scheduler. */
module FrameContent {
  import opened Floats
  import opened Feed
  import opened SymbolHistory
  import opened Schedule
  import opened Replay
  import opened Frames
  import opened Modular

  // ---------- The reference ----------

  predicate Of(cfg: Config, u: nat, t: Tick) {
    t.symbol in cfg.index && cfg.index[t.symbol] == u
  }

  /** Ticks from before the first bar count as late. */
  predicate TooEarly(cfg: Config, first: nat, t: Tick) {
    t.ts < first - cfg.cadence
  }

  /** Symbol `u`'s state after its ticks with timestamps before `x`. */
  function StateBefore(cfg: Config, first: nat, u: nat, ticks: seq<Tick>, x: int): State {
    if ticks == [] then InitialState()
    else
      var st := StateBefore(cfg, first, u, ticks[..|ticks| - 1], x);
      var t := ticks[|ticks| - 1];
      if Of(cfg, u, t) && t.ts < x then StepState(st, t, TooEarly(cfg, first, t)) else st
  }

  /** The bar made of symbol `u`'s ticks in `[second - cadence, second)`. */
  function BarIn(cfg: Config, first: nat, u: nat, ticks: seq<Tick>, second: nat): Bar {
    if ticks == [] then EMPTY_BAR
    else
      var before := ticks[..|ticks| - 1];
      var t := ticks[|ticks| - 1];
      if Of(cfg, u, t) && second - cfg.cadence <= t.ts < second then
        StepBar(BarIn(cfg, first, u, before, second), StateBefore(cfg, first, u, before, second), t)
      else BarIn(cfg, first, u, before, second)
  }

  /** Slots 0..35 for a second: its closed bar, or the initial values before the first bar
      (zeros when the second is 0, which an empty ring slot answers to). */
  function BarSlotsFor(cfg: Config, first: nat, u: nat, ticks: seq<Tick>, second: nat): seq<Float> {
    if second >= first then
      BarSlots(StateBefore(cfg, first, u, ticks, second), BarIn(cfg, first, u, ticks, second), second, cfg.sqrt)
    else if second == 0 then ZERO_ROW.bar
    else INITIAL_ROW.bar
  }

  function RowFor(cfg: Config, first: nat, u: nat, ticks: seq<Tick>, anchor: nat): Row {
    Row(BarSlotsFor(cfg, first, u, ticks, Floor(anchor, cfg.cadence)),
        TerminalSlots(StateBefore(cfg, first, u, ticks, anchor + 1)))
  }

  /** The rows of a frame, one per symbol of the phase. */
  ghost predicate FrameIs(cfg: Config, first: nat, count: nat, ticks: seq<Tick>, f: Frame) {
    var names := PhaseSymbols(cfg, f.phase);
    |f.rows| == |names| && forall i :: 0 <= i < |names| ==> RowIs(cfg, first, count, ticks, f, i)
  }

  ghost predicate RowIs(cfg: Config, first: nat, count: nat, ticks: seq<Tick>, f: Frame, i: nat)
    requires |f.rows| == |PhaseSymbols(cfg, f.phase)| && i < |f.rows|
  {
    var name := PhaseSymbols(cfg, f.phase)[i];
    f.rows[i] == if name in cfg.index && cfg.index[name] < count then
      RowFor(cfg, first, cfg.index[name], ticks, f.anchor)
                 else ZERO_ROW
  }

  // ---------- Folds look only at their window ----------

  ghost predicate AllBefore(ticks: seq<Tick>, x: int) {
    forall i :: 0 <= i < |ticks| ==> ticks[i].ts < x
  }

  lemma InitBefore(ticks: seq<Tick>, x: int)
    requires ticks != [] && AllBefore(ticks, x)
    ensures AllBefore(ticks[..|ticks| - 1], x) && ticks[|ticks| - 1].ts < x
  {
  }

  lemma {:induction false} StateBound(cfg: Config, first: nat, u: nat, ticks: seq<Tick>, x: int, y: int)
    requires AllBefore(ticks, x) && AllBefore(ticks, y)
    ensures StateBefore(cfg, first, u, ticks, x) == StateBefore(cfg, first, u, ticks, y)
  {
    hide AllBefore, StepState, InitialState;
    if ticks != [] {
      InitBefore(ticks, x);
      InitBefore(ticks, y);
      StateBound(cfg, first, u, ticks[..|ticks| - 1], x, y);
    }
  }

  lemma {:induction false} BarOfNothing(cfg: Config, first: nat, u: nat, ticks: seq<Tick>, second: nat)
    requires AllBefore(ticks, second - cfg.cadence)
    ensures BarIn(cfg, first, u, ticks, second) == EMPTY_BAR
  {
    hide AllBefore, StepBar;
    if ticks != [] {
      InitBefore(ticks, second - cfg.cadence);
      BarOfNothing(cfg, first, u, ticks[..|ticks| - 1], second);
    }
  }

  lemma AppendInit(ticks: seq<Tick>, t: Tick)
    ensures (ticks + [t])[..|ticks + [t]| - 1] == ticks && (ticks + [t])[|ticks + [t]| - 1] == t
  {
  }

  /** A tick after the anchor changes nothing in its row. */
  lemma RowUnmoved(cfg: Config, first: nat, u: nat, ticks: seq<Tick>, t: Tick, anchor: nat)
    requires t.ts > anchor
    ensures RowFor(cfg, first, u, ticks + [t], anchor) == RowFor(cfg, first, u, ticks, anchor)
  {
    AppendInit(ticks, t);
    FloorAtMost(anchor, cfg.cadence);
    var s := Floor(anchor, cfg.cadence);
    assert StateBefore(cfg, first, u, ticks + [t], s) == StateBefore(cfg, first, u, ticks, s);
    assert StateBefore(cfg, first, u, ticks + [t], anchor + 1) == StateBefore(cfg, first, u, ticks, anchor + 1);
    assert BarIn(cfg, first, u, ticks + [t], s) == BarIn(cfg, first, u, ticks, s);
  }

  // ---------- The invariant of a run ----------

  /** Symbol `u` after the ticks `done`: history, latest bar and ring. */
  ghost predicate SymIs(cfg: Config, first: nat, second: nat, done: seq<Tick>, u: nat, s: Sym) {
    && s.nextSecond == second
    && s.hist.st == StateBefore(cfg, first, u, done, second)
    && s.hist.bar == BarIn(cfg, first, u, done, second)
    && RingIs(cfg, first, second, done, u, s)
  }

  /** Before the first bar the ring is empty; after it, the ring holds the last closed second. */
  ghost predicate RingIs(cfg: Config, first: nat, second: nat, done: seq<Tick>, u: nat, s: Sym) {
    && |s.ring| == |s.anchors| == RING
    && (second == first ==> s.anchors == [0, 0, 0, 0] && s.ring == INITIAL_SYM.ring && s.last.bar == INITIAL_ROW.bar)
    && (second > first ==>
          var closed := second - cfg.cadence;
          && closed >= first
          && var k := RingSlot(closed, cfg.cadence);
             s.anchors[k] == closed && s.ring[k].bar == BarSlotsFor(cfg, first, u, done, closed))
  }

  ghost predicate FramesAre(cfg: Config, first: nat, count: nat, done: seq<Tick>, frames: seq<Frame>, b: int) {
    forall i :: 0 <= i < |frames| ==> frames[i].anchor <= b && FrameIs(cfg, first, count, done, frames[i])
  }

  ghost predicate SymsAre(cfg: Config, first: nat, done: seq<Tick>, c: Core) {
    forall u :: 0 <= u < |c.syms| ==> SymIs(cfg, first, c.nextSecond, done, u, c.syms[u])
  }

  /** After `done` and every boundary crossed so far: seconds up to `a`, phases up to `b`. */
  ghost predicate Content(cfg: Config, first: nat, c: Core, done: seq<Tick>, a: int, b: int) {
    && Aligned(cfg, c) && c.nextSecond >= first && first >= cfg.cadence
    && (c.nextSecond == first || c.nextSecond - cfg.cadence <= a)
    && AllBefore(done, c.nextSecond)
    && (forall p :: 0 <= p < |c.phaseNext| ==> AllBefore(done, c.phaseNext[p] + 1))
    && SymsAre(cfg, first, done, c)
    && FramesAre(cfg, first, |c.syms|, done, c.frames, b)
  }

  // ---------- Closing a second ----------

  lemma CloseSymContent(cfg: Config, first: nat, second: nat, done: seq<Tick>, u: nat, s: Sym)
    requires SymIs(cfg, first, second, done, u, s) && AllBefore(done, second) && second >= first
    ensures SymIs(cfg, first, second + cfg.cadence, done, u, CloseSym(cfg, s, second))
  {
    hide BarSlots, AllBefore;
    BarOfNothing(cfg, first, u, done, second + cfg.cadence);
    AllBeforeLater(done, second, second + cfg.cadence);
    StateBound(cfg, first, u, done, second, second + cfg.cadence);
  }

  lemma AllBeforeLater(ticks: seq<Tick>, x: int, y: int)
    requires AllBefore(ticks, x) && x <= y
    ensures AllBefore(ticks, y)
  {
  }

  lemma CloseAllContent(cfg: Config, first: nat, c: Core, done: seq<Tick>)
    requires SymsAre(cfg, first, done, c) && AllBefore(done, c.nextSecond) && c.nextSecond >= first
    ensures SymsAre(cfg, first, done, CloseSecond(cfg, c))
  {
    hide CloseSym, AllBefore, CloseSymThrough, RingIs, StateBefore, BarIn;
    var r := CloseSecond(cfg, c);
    forall u | 0 <= u < |r.syms|
      ensures SymIs(cfg, first, r.nextSecond, done, u, r.syms[u])
    {
      assert SymIs(cfg, first, c.nextSecond, done, u, c.syms[u]);
      CloseOnce(cfg, c.syms[u]);
      hide SymIs;
      CloseSymContent(cfg, first, c.nextSecond, done, u, c.syms[u]);
    }
  }

  lemma CloseSecondContent(cfg: Config, first: nat, c: Core, done: seq<Tick>, a: int, b: int)
    requires Content(cfg, first, c, done, a, b) && Cut(a, b) && NextBoundary(c, a, b) == Second
    ensures Content(cfg, first, CloseSecond(cfg, c), done, a, b)
  {
    var r := CloseSecond(cfg, c);
    assert r == Cross(cfg, c, Second);
    CrossKeepsAligned(cfg, c, a, b);
    CloseAllContent(cfg, first, c, done);
    assert c.nextSecond <= a;
    hide Aligned, NextBoundary, FramesAre, AllBefore, SymsAre, CloseAll;
    AllBeforeLater(done, c.nextSecond, r.nextSecond);
  }

  // ---------- Committing a frame ----------

  lemma CloseThroughIdle(cfg: Config, s: Sym, second: nat)
    requires s.nextSecond > second
    ensures CloseSymThrough(cfg, s, second) == s
  {
  }

  /** The row of a symbol whose bars are up to date. */
  lemma RowContent(cfg: Config, first: nat, second: nat, done: seq<Tick>, u: nat, s: Sym, anchor: nat)
    requires SymIs(cfg, first, second, done, u, s) && first >= cfg.cadence && second >= first
    requires second % cfg.cadence == 0 && second - cfg.cadence <= anchor < second
    requires AllBefore(done, second) && AllBefore(done, anchor + 1)
    ensures RowAtPhase(cfg, s, anchor) == RowFor(cfg, first, u, done, anchor)
  {
    var floor := Floor(anchor, cfg.cadence);
    FloorIs(anchor, second, cfg.cadence);
    CloseThroughIdle(cfg, s, floor);
    StateBound(cfg, first, u, done, second, anchor + 1);
    hide BarSlots, TerminalSlots, StateBefore, BarIn, Floor, AllBefore;
    if second == first {
      EmptyRingBar(cfg, s, floor);
    } else {
      assert s.anchors[RingSlot(floor, cfg.cadence)] == floor;
    }
  }

  lemma EmptyRingBar(cfg: Config, s: Sym, floor: nat)
    requires s.anchors == [0, 0, 0, 0] && s.ring == INITIAL_SYM.ring && s.last.bar == INITIAL_ROW.bar
    ensures RingBar(s, floor, cfg.cadence) == if floor == 0 then ZERO_ROW.bar else INITIAL_ROW.bar
  {
    var k := RingSlot(floor, cfg.cadence);
    assert s.anchors[k] == 0 && s.ring[k] == ZERO_ROW;
  }

  lemma FloorIs(anchor: nat, second: nat, cadence: Cadence)
    requires second % cadence == 0 && second - cadence <= anchor < second
    ensures Floor(anchor, cadence) == second - cadence
  {
    AddMultiple(second, -1, cadence);
    var q := second / cadence - 1;
    assert second == second / cadence * cadence;
    assert q * cadence == second - cadence;
    DivModUnique(anchor, cadence, q, anchor - q * cadence);
  }

  /** A symbol that differs only in slots 36..43 of its latest row has the same row for every anchor. */
  lemma SameRow(cfg: Config, a: Sym, b: Sym, anchor: nat)
    requires SameButTerminal(a, b) && b.nextSecond > anchor
    ensures RowAtPhase(cfg, a, anchor) == RowAtPhase(cfg, b, anchor)
  {
    FloorAtMost(anchor, cfg.cadence);
    hide TerminalSlots;
  }

  lemma {:induction false} WalkRowsContent(cfg: Config, syms: seq<Sym>, names: seq<string>, anchor: nat, i: nat)
    requires i < |names| && forall u :: 0 <= u < |syms| ==> syms[u].nextSecond > anchor
    ensures WalkRows(cfg, syms, names, anchor)[i] ==
            if Tracks(cfg, syms, names[i]) then RowAtPhase(cfg, syms[cfg.index[names[i]]], anchor) else ZERO_ROW
  {
    hide RowAtPhase;
    var init := names[..|names| - 1];
    if i < |init| {
      WalkRowsContent(cfg, syms, init, anchor, i);
    } else if Tracks(cfg, syms, names[i]) {
      var u := cfg.index[names[i]];
      WalkKeepsSeconds(cfg, syms, init, anchor);
      SameRow(cfg, WalkSyms(cfg, syms, init, anchor)[u], syms[u], anchor);
    }
  }

  /** The committed frame has the content the reference gives it. */
  lemma CommitContent(cfg: Config, first: nat, c: Core, done: seq<Tick>, p: nat, a: int, b: int)
    requires Content(cfg, first, c, done, a, b) && Cut(a, b) && NextBoundary(c, a, b) == PhaseAt(p)
    ensures var r := CommitPhase(cfg, c, p); FrameIs(cfg, first, |c.syms|, done, r.frames[|c.frames|])
  {
    var anchor := c.phaseNext[p];
    var names := PhaseSymbols(cfg, p);
    var f := CommitPhase(cfg, c, p).frames[|c.frames|];
    assert f == Frame(p, anchor, WalkRows(cfg, c.syms, names, anchor), c.cold > 0);
    assert PhaseAhead(cfg, c, p);
    assert c.nextSecond > anchor;
    assert c.nextSecond % cfg.cadence == 0;
    assert AllBefore(done, anchor + 1);
    assert SymsAt(c.syms, c.nextSecond);
    forall i | 0 <= i < |names|
      ensures RowIs(cfg, first, |c.syms|, done, f, i)
    {
      WalkRowsContent(cfg, c.syms, names, anchor, i);
      if Tracks(cfg, c.syms, names[i]) {
        var u := cfg.index[names[i]];
        assert SymIs(cfg, first, c.nextSecond, done, u, c.syms[u]);
        RowContent(cfg, first, c.nextSecond, done, u, c.syms[u], anchor);
      }
    }
  }

  lemma PhaseContent(cfg: Config, first: nat, c: Core, done: seq<Tick>, p: nat, a: int, b: int)
    requires Content(cfg, first, c, done, a, b) && Cut(a, b) && NextBoundary(c, a, b) == PhaseAt(p)
    ensures Content(cfg, first, CommitPhase(cfg, c, p), done, a, b)
  {
    var r := CommitPhase(cfg, c, p);
    assert r == Cross(cfg, c, PhaseAt(p));
    CrossKeepsAligned(cfg, c, a, b);
    CommitContent(cfg, first, c, done, p, a, b);
    assert c.nextSecond > c.phaseNext[p] && c.phaseNext[p] <= b;
    assert SymsAt(c.syms, c.nextSecond);
    WalkKeepsSeconds(cfg, c.syms, PhaseSymbols(cfg, p), c.phaseNext[p]);
    hide Aligned, NextBoundary, WalkSyms, WalkRows, FrameIs, AllBefore;
    forall u | 0 <= u < |r.syms|
      ensures SymIs(cfg, first, r.nextSecond, done, u, r.syms[u])
    {
      assert SymIs(cfg, first, c.nextSecond, done, u, c.syms[u]);
      assert SameButTerminal(r.syms[u], c.syms[u]);
    }
    forall q | 0 <= q < |r.phaseNext|
      ensures AllBefore(done, r.phaseNext[q] + 1)
    {
      AllBeforeLater(done, c.phaseNext[q] + 1, r.phaseNext[q] + 1);
    }
  }

  lemma {:induction false} CloseToContent(cfg: Config, first: nat, c: Core, done: seq<Tick>, a: int, b: int)
    requires Content(cfg, first, c, done, a, b) && Cut(a, b)
    ensures Content(cfg, first, CloseTo(cfg, c, a, b), done, a, b)
    decreases Work(c, a, b)
  {
    hide Content, CloseSecond, CommitPhase;
    match NextBoundary(c, a, b) {
      case Nothing =>
      case Second =>
        CrossDecreases(cfg, c, a, b);
        CloseSecondContent(cfg, first, c, done, a, b);
        CloseToContent(cfg, first, CloseSecond(cfg, c), done, a, b);
      case PhaseAt(p) =>
        CrossDecreases(cfg, c, a, b);
        PhaseContent(cfg, first, c, done, p, a, b);
        CloseToContent(cfg, first, CommitPhase(cfg, c, p), done, a, b);
    }
  }

  // ---------- Taking a tick ----------

  lemma TakeSymContent(cfg: Config, first: nat, second: nat, done: seq<Tick>, u: nat, s: Sym, t: Tick)
    requires SymIs(cfg, first, second, done, u, s) && t.ts < second && second >= first >= cfg.cadence
    requires second == first || second - cfg.cadence <= t.ts
    ensures var late := t.ts < second - cfg.cadence;
            SymIs(cfg, first, second, done + [t], u, if Of(cfg, u, t) then s.(hist := Absorb(s.hist, t, late)) else s)
  {
    AppendInit(done, t);
    var late := t.ts < second - cfg.cadence;
    assert late == TooEarly(cfg, first, t) || !Of(cfg, u, t) by {
      if second != first { assert t.ts >= second - cfg.cadence >= first - cfg.cadence; }
    }
    hide StepState, StepBar, BarSlots, InitialState;
    if second > first {
      var closed := second - cfg.cadence;
      assert StateBefore(cfg, first, u, done + [t], closed) == StateBefore(cfg, first, u, done, closed);
      assert BarIn(cfg, first, u, done + [t], closed) == BarIn(cfg, first, u, done, closed);
    }
  }

  lemma FramesUnmoved(cfg: Config, first: nat, count: nat, done: seq<Tick>, frames: seq<Frame>, b: int, t: Tick)
    requires FramesAre(cfg, first, count, done, frames, b) && b < t.ts
    ensures FramesAre(cfg, first, count, done + [t], frames, b)
  {
    forall i | 0 <= i < |frames|
      ensures FrameIs(cfg, first, count, done + [t], frames[i])
    {
      var f := frames[i];
      assert FrameIs(cfg, first, count, done, f);
      hide RowFor;
      forall k | 0 <= k < |f.rows|
        ensures RowIs(cfg, first, count, done + [t], f, k)
      {
        assert RowIs(cfg, first, count, done, f, k);
        var name := PhaseSymbols(cfg, f.phase)[k];
        if name in cfg.index { RowUnmoved(cfg, first, cfg.index[name], done, t, f.anchor); }
      }
    }
  }

  lemma AppendBefore(done: seq<Tick>, t: Tick, x: int)
    requires AllBefore(done, x) && t.ts < x
    ensures AllBefore(done + [t], x)
  {
  }

  lemma TakeContent(cfg: Config, first: nat, c: Core, done: seq<Tick>, t: Tick)
    requires Content(cfg, first, c, done, t.ts, t.ts - 1) && NextBoundary(c, t.ts, t.ts - 1) == Nothing
    ensures Content(cfg, first, Take(cfg, c, t, IsLate(cfg, c, t)), done + [t], t.ts, t.ts - 1)
  {
    var r := Take(cfg, c, t, IsLate(cfg, c, t));
    TakeKeepsAligned(cfg, c, t, IsLate(cfg, c, t));
    assert c.nextSecond > t.ts;
    assert SymsAt(c.syms, c.nextSecond);
    AppendBefore(done, t, c.nextSecond);
    forall p | 0 <= p < |r.phaseNext|
      ensures AllBefore(done + [t], r.phaseNext[p] + 1)
    {
      assert PhaseAhead(cfg, c, p);
      AppendBefore(done, t, c.phaseNext[p] + 1);
    }
    FramesUnmoved(cfg, first, |c.syms|, done, c.frames, t.ts - 1, t);
    hide Aligned, NextBoundary, Absorb, SymIs, FramesAre, AllBefore;
    forall u | 0 <= u < |r.syms|
      ensures SymIs(cfg, first, r.nextSecond, done + [t], u, r.syms[u])
    {
      assert SymIs(cfg, first, c.nextSecond, done, u, c.syms[u]);
      TakeSymContent(cfg, first, c.nextSecond, done, u, c.syms[u], t);
    }
  }

  // ---------- Whole runs ----------

  lemma ContentLater(cfg: Config, first: nat, c: Core, done: seq<Tick>, a: int, b: int, a': int, b': int)
    requires Content(cfg, first, c, done, a, b) && a <= a' && b <= b'
    ensures Content(cfg, first, c, done, a', b')
  {
    hide Aligned, FrameIs, SymsAre, AllBefore;
  }

  lemma {:induction false} CanonContent(cfg: Config, first: nat, c: Core, done: seq<Tick>, ticks: seq<Tick>, a: int,
                                        b: int, end: int)
    requires Content(cfg, first, c, done, a, b) && InTimeOrder(ticks) && NoneAfter(ticks, end)
    requires if ticks == [] then a <= end && b <= end else a <= ticks[0].ts && b <= ticks[0].ts - 1
    ensures Content(cfg, first, Canon(cfg, c, ticks, end), done + ticks, end, end)
    decreases ticks
  {
    hide Content, InTimeOrder, NoneAfter, Take, CloseTo;
    if ticks == [] {
      ContentLater(cfg, first, c, done, a, b, end, end);
      CloseToContent(cfg, first, c, done, end, end);
      assert done + ticks == done;
    } else {
      var t := ticks[0];
      TailInOrder(ticks, end);
      ContentLater(cfg, first, c, done, a, b, t.ts, t.ts - 1);
      CloseToContent(cfg, first, c, done, t.ts, t.ts - 1);
      TakeContent(cfg, first, CloseTo(cfg, c, t.ts, t.ts - 1), done, t);
      CanonContent(cfg, first, CrossAndTake(cfg, c, t), done + [t], ticks[1..], t.ts, t.ts - 1, end);
      assert done + [t] + ticks[1..] == done + ticks;
    }
  }

  lemma StartedContent(cfg: Config, count: nat, cold: nat, startNS: nat)
    requires OffsetsInRange(cfg)
    ensures var c := Started(cfg, count, cold, startNS); Content(cfg, c.nextSecond, c, [], -1, -1)
  {
    StartedAligned(cfg, count, cold, startNS);
  }

  /** Frame content. In any run over ticks in time order, flushed to `end`, every committed frame carries in
      slots 0..35 the bar of exactly the ticks in the whole second before its anchor, and in slots 36..43
      the state after exactly the ticks up to its anchor. */
  lemma FramesCarryTheirTicks(cfg: Config, count: nat, cold: nat, startNS: nat, ticks: seq<Tick>, end: nat)
    requires OffsetsInRange(cfg) && InTimeOrder(ticks) && NoneAfter(ticks, end)
    ensures var c := Started(cfg, count, cold, startNS);
            var r := Canon(cfg, c, ticks, end);
            forall i :: 0 <= i < |r.frames| ==> FrameIs(cfg, c.nextSecond, count, ticks, r.frames[i])
  {
    var c := Started(cfg, count, cold, startNS);
    StartedContent(cfg, count, cold, startNS);
    CanonKeepsCount(cfg, c, ticks, end);
    ContentLater(cfg, c.nextSecond, c, [], -1, -1, if ticks == [] then end else ticks[0].ts,
                 if ticks == [] then end else ticks[0].ts - 1);
    CanonContent(cfg, c.nextSecond, c, [], ticks,
                 if ticks == [] then end else ticks[0].ts, if ticks == [] then end else ticks[0].ts - 1, end);
    assert [] + ticks == ticks;
  }

  // ---------- Slots 30..33 ----------

  predicate Within(e: Extreme, lo: int, hi: int) {
    e.at == 0 || lo <= e.at < hi
  }

  predicate ExtremesWithin(b: Bar, lo: int, hi: int) {
    Within(b.high, lo, hi) && Within(b.low, lo, hi) && Within(b.highAsk, lo, hi) && Within(b.lowAsk, lo, hi)
  }

  lemma {:induction false} BarExtremes(cfg: Config, first: nat, u: nat, ticks: seq<Tick>, second: nat)
    ensures ExtremesWithin(BarIn(cfg, first, u, ticks, second), second - cfg.cadence, second)
  {
    if ticks != [] {
      BarExtremes(cfg, first, u, ticks[..|ticks| - 1], second);
    }
  }

  predicate UnsetOrInSecond(x: Float) {
    x == Num(-1.0) || (x.Num? && 0.0 <= x.r < 1000000000.0)
  }

  /** At a cadence of one second, slots 30..33 of a closed bar are unset or lie in `[0, 1 s)`. */
  lemma ExtremeOffsetsInSecond(cfg: Config, first: nat, u: nat, ticks: seq<Tick>, second: nat)
    requires cfg.cadence == ONE_SECOND && second >= first
    ensures forall k :: 30 <= k < 34 ==> UnsetOrInSecond(BarSlotsFor(cfg, first, u, ticks, second)[k])
  {
    BarExtremes(cfg, first, u, ticks, second);
    var bar := BarIn(cfg, first, u, ticks, second);
    hide BarIn, StateBefore, PriceSpread, AtBest;
    OffsetInSecond(bar.high, second);
    OffsetInSecond(bar.low, second);
    OffsetInSecond(bar.highAsk, second);
    OffsetInSecond(bar.lowAsk, second);
  }

  lemma OffsetInSecond(e: Extreme, second: nat)
    requires Within(e, second - ONE_SECOND, second)
    ensures UnsetOrInSecond(Offset(e, second - ONE_SECOND))
  {
  }
}
