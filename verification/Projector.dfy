/** The projector of 44-slot mode, field by field: bar rings, anchors, reorder heap and commit log.
    Its ghost `core` and `queue` follow the scheduler on values. */
module Projector {
  import opened Floats
  import opened Feed
  import opened SymbolHistory
  import opened Schedule
  import opened Replay
  import opened Heap
  import L = Live
  import QuoteBook

  const DEFAULT_WATERMARK := 100_000_000

  class Projector {
    const cfg: Config
    const uniqueHistories: seq<History>
    const liveHeap: MinHeap<L.Item>

    var isLiveMode: bool
    var watermarkBufferNS: nat
    var nextSecondAnchorNS: nat
    var phaseNextAnchor: seq<nat>
    var symNextSecondNS: seq<nat>
    var uniqueLastCCMBar: seq<Row>
    var symBarRing: seq<seq<Row>>
    var symBarAnchor: seq<seq<int>>
    /** Frames handed to the shared-memory producer, in order. */
    var committed: seq<Frame>
    var coldStartBarsRemaining: nat
    var lateDroppedTicks: nat
    var maxSIPTimestampNS: nat
    var liveSeq: nat

    ghost var core: Core
    ghost var queue: seq<L.Item>

    ghost predicate Sized()
      reads this
    {
      && |symNextSecondNS| == |uniqueLastCCMBar| == |symBarRing| == |symBarAnchor| == |uniqueHistories| == |core.syms|
      && |phaseNextAnchor| == |cfg.phases|
      && (forall s :: s in cfg.index ==> cfg.index[s] < |uniqueHistories|)
    }

    ghost predicate Distinct() {
      forall u, v :: 0 <= u < v < |uniqueHistories| ==> uniqueHistories[u] != uniqueHistories[v]
    }

    function SymView(u: nat): Sym
      requires u < |symNextSecondNS| && u < |uniqueLastCCMBar| && u < |symBarRing| && u < |symBarAnchor|
               && u < |uniqueHistories|
      reads this, uniqueHistories[u]
    {
      Sym(uniqueHistories[u].View(), symNextSecondNS[u], uniqueLastCCMBar[u], symBarRing[u], symBarAnchor[u])
    }

    ghost predicate SymOk(u: nat)
      requires Sized() && u < |uniqueHistories|
      reads this, uniqueHistories[u]
    {
      uniqueHistories[u].Valid() && core.syms[u] == SymView(u) && |symBarRing[u]| == |symBarAnchor[u]| == RING
    }

    /** The fields are what the ghost scheduler says. */
    ghost predicate CoreOk()
      reads this, uniqueHistories
    {
      && Sized() && Distinct()
      && (forall u :: 0 <= u < |uniqueHistories| ==> SymOk(u))
      && core.nextSecond == nextSecondAnchorNS && core.phaseNext == phaseNextAnchor
      && core.frames == committed && core.cold == coldStartBarsRemaining && core.late == lateDroppedTicks
    }

    /** The heap holds the queue. */
    ghost predicate HeapOk()
      reads this, liveHeap
    {
      && liveHeap.less == L.ItemLess && liveHeap.Valid()
      && L.Sorted(queue) && multiset(queue) == multiset(liveHeap.items)
      && (forall y :: y in queue ==> y.seqNo <= liveSeq)
    }

    ghost predicate Valid()
      reads this, uniqueHistories, liveHeap
    {
      CoreOk() && HeapOk()
    }

    constructor (phases: seq<Phase>, symbols: seq<string>, cadence: Cadence, sqrt: Float -> Float, live: bool)
      ensures Valid() && cfg == Config(cadence, phases, IndexSymbols(symbols), sqrt)
      ensures core == Initial(cfg, |symbols|, 0) && queue == [] && isLiveMode == live && liveSeq == 0
      ensures watermarkBufferNS == if live then DEFAULT_WATERMARK else 0
    {
      cfg := Config(cadence, phases, IndexSymbols(symbols), sqrt);
      var hs: seq<History> := [];
      for i := 0 to |symbols|
        invariant |hs| == i && forall u :: 0 <= u < i ==>
                  fresh(hs[u]) && hs[u].Valid() && hs[u].View() == INITIAL_SYM.hist
        invariant forall u, v :: 0 <= u < v < i ==> hs[u] != hs[v]
      {
        var h := new History();
        hs := hs + [h];
      }
      L.ItemLessIsOrder();
      var heap := new MinHeap<L.Item>(L.ItemLess);
      uniqueHistories, liveHeap := hs, heap;
      isLiveMode, watermarkBufferNS := live, if live then DEFAULT_WATERMARK else 0;
      nextSecondAnchorNS, phaseNextAnchor := 0, Repeat(|phases|, 0);
      symNextSecondNS, uniqueLastCCMBar := Repeat(|symbols|, 0), Repeat(|symbols|, INITIAL_ROW);
      symBarRing, symBarAnchor := Repeat(|symbols|, INITIAL_SYM.ring), Repeat(|symbols|, INITIAL_SYM.anchors);
      committed, coldStartBarsRemaining, lateDroppedTicks, maxSIPTimestampNS, liveSeq := [], 0, 0, 0, 0;
      core := Initial(Config(cadence, phases, IndexSymbols(symbols), sqrt), |symbols|, 0);
      queue := [];
      new;
      hide InitialState;
      forall u | 0 <= u < |uniqueHistories|
        ensures SymOk(u)
      {
      }
    }

    // ---------- Bars ----------

    method CloseSymbolSecondBar(u: nat, second: nat)
      requires CoreOk() && u < |uniqueHistories|
      modifies this`core, this`symNextSecondNS, this`uniqueLastCCMBar, this`symBarRing, this`symBarAnchor,
               uniqueHistories[u]
      ensures CoreOk()
      ensures core == old(core).(syms := old(core).syms[u := CloseSym(cfg, old(core).syms[u], second)])
    {
      hide BarSlots;
      assert SymOk(u);
      var bar := uniqueHistories[u].CloseBar(second, cfg.sqrt);
      uniqueLastCCMBar := uniqueLastCCMBar[u := uniqueLastCCMBar[u].(bar := bar)];
      var slot := second / cfg.cadence % RING;
      symBarRing := symBarRing[u := symBarRing[u][slot := uniqueLastCCMBar[u]]];
      symBarAnchor := symBarAnchor[u := symBarAnchor[u][slot := second]];
      symNextSecondNS := symNextSecondNS[u := second + cfg.cadence];
      core := core.(syms := core.syms[u := CloseSym(cfg, core.syms[u], second)]);
      forall v | 0 <= v < |uniqueHistories|
        ensures SymOk(v)
      {
        assert old(SymOk(v));
      }
    }

    /** Closes every bar of one symbol up to and including a second. */
    method CloseSymbolThrough(u: nat, second: nat)
      requires CoreOk() && u < |uniqueHistories|
      modifies this`core, this`symNextSecondNS, this`uniqueLastCCMBar, this`symBarRing, this`symBarAnchor,
               uniqueHistories[u]
      ensures CoreOk()
      ensures core == old(core).(syms := old(core).syms[u := CloseSymThrough(cfg, old(core).syms[u], second)])
    {
      hide CloseSym;
      assert SymOk(u);
      while symNextSecondNS[u] <= second
        invariant CoreOk()
        invariant core == old(core).(syms := old(core).syms[u := core.syms[u]])
        invariant CloseSymThrough(cfg, core.syms[u], second) == CloseSymThrough(cfg, old(core).syms[u], second)
        decreases second - symNextSecondNS[u]
      {
        assert SymOk(u);
        ghost var s := core.syms[u];
        CloseSymbolSecondBar(u, symNextSecondNS[u]);
        assert core.syms[u] == CloseSym(cfg, s, s.nextSecond);
        assert SymOk(u);
        CloseSymAdvances(cfg, s);
      }
      assert SymOk(u);
    }

    /** Closes the whole-second bars of every symbol and moves on to the next second. */
    method CloseSecondBar()
      requires CoreOk()
      modifies this`core, this`nextSecondAnchorNS, this`symNextSecondNS, this`uniqueLastCCMBar, this`symBarRing,
               this`symBarAnchor, uniqueHistories
      ensures CoreOk() && core == CloseSecond(cfg, old(core))
    {
      hide CloseSymThrough;
      ghost var closed := CloseAll(cfg, core.syms, nextSecondAnchorNS);
      for u := 0 to |uniqueHistories|
        invariant CoreOk() && nextSecondAnchorNS == old(nextSecondAnchorNS)
        invariant core == old(core).(syms := core.syms)
        invariant forall v :: 0 <= v < |core.syms| ==> core.syms[v] == if v < u then closed[v] else old(core).syms[v]
      {
        CloseSymbolThrough(u, nextSecondAnchorNS);
      }
      assert core.syms == closed;
      label Closed:
      nextSecondAnchorNS := nextSecondAnchorNS + cfg.cadence;
      core := core.(nextSecond := core.nextSecond + cfg.cadence);
      forall v | 0 <= v < |uniqueHistories|
        ensures SymOk(v)
      {
        assert old@Closed(SymOk(v));
      }
    }

    /** The row of one symbol for an anchor, bringing its bars up to the anchor's second first. */
    method PhaseRow(u: nat, anchor: nat) returns (row: Row)
      requires CoreOk() && u < |uniqueHistories|
      modifies this`core, this`symNextSecondNS, this`uniqueLastCCMBar, this`symBarRing, this`symBarAnchor,
               uniqueHistories[u]
      ensures CoreOk() && row == RowAtPhase(cfg, old(core).syms[u], anchor)
      ensures core == old(core).(syms := old(core).syms[u := SymAtPhase(cfg, old(core).syms[u], anchor)])
    {
      hide CloseSymThrough, TerminalSlots;
      var floor := anchor / cfg.cadence * cfg.cadence;
      var slot := floor / cfg.cadence % RING;
      CloseSymbolThrough(u, floor);
      label Through:
      assert SymOk(u);
      var bar := if symBarAnchor[u][slot] == floor then symBarRing[u][slot].bar else uniqueLastCCMBar[u].bar;
      var terminal := uniqueHistories[u].TerminalState();
      uniqueLastCCMBar := uniqueLastCCMBar[u := uniqueLastCCMBar[u].(terminal := terminal)];
      core := core.(syms := core.syms[u := core.syms[u].(last := core.syms[u].last.(terminal := terminal))]);
      row := Row(bar, terminal);
      forall v | 0 <= v < |uniqueHistories|
        ensures SymOk(v)
      {
        assert old@Through(SymOk(v));
      }
    }

    /** Commits one phase frame at its next anchor. */
    method ClosePhase(p: nat)
      requires CoreOk() && p < |phaseNextAnchor|
      modifies this`core, this`symNextSecondNS, this`uniqueLastCCMBar, this`symBarRing, this`symBarAnchor,
               this`committed,
               this`coldStartBarsRemaining, this`phaseNextAnchor, uniqueHistories
      ensures CoreOk() && core == CommitPhase(cfg, old(core), p)
    {
      hide RowAtPhase, SymAtPhase;
      var anchor := phaseNextAnchor[p];
      var names := cfg.phases[p].symbols;
      ghost var syms := core.syms;
      var rows: seq<Row> := [];
      for i := 0 to |names|
        invariant CoreOk() && core == old(core).(syms := WalkSyms(cfg, syms, names[..i], anchor))
        invariant rows == WalkRows(cfg, syms, names[..i], anchor)
        invariant committed == old(committed) && coldStartBarsRemaining == old(coldStartBarsRemaining)
        invariant phaseNextAnchor == old(phaseNextAnchor)
      {
        assert names[..i + 1][..i] == names[..i];
        if names[i] in cfg.index {
          var row := PhaseRow(cfg.index[names[i]], anchor);
          rows := rows + [row];
        } else {
          rows := rows + [ZERO_ROW];
        }
      }
      assert names[..|names|] == names;
      PublishFrame(p, anchor, rows);
      label Published:
      phaseNextAnchor := phaseNextAnchor[p := anchor + cfg.cadence];
      core := core.(phaseNext := core.phaseNext[p := anchor + cfg.cadence]);
      forall v | 0 <= v < |uniqueHistories|
        ensures SymOk(v)
      {
        assert old@Published(SymOk(v));
      }
    }

    /** Hands the frame to the producer, flags it while the start is cold, and counts the cold bars down. */
    method PublishFrame(p: nat, anchor: nat, rows: seq<Row>)
      requires CoreOk()
      modifies this`core, this`committed, this`coldStartBarsRemaining
      ensures CoreOk()
      ensures core == old(core).(frames := old(core).frames + [Frame(p, anchor, rows, old(core).cold > 0)],
                                 cold := if p == |cfg.phases| - 1 && old(core).cold > 0 then old(core).cold - 1
                                   else old(core).cold)
    {
      var frame := Frame(p, anchor, rows, false);
      if coldStartBarsRemaining > 0 {
        frame := frame.(cold := true);
      }
      committed := committed + [frame];
      core := core.(frames := core.frames + [frame]);
      if p == |cfg.phases| - 1 && coldStartBarsRemaining > 0 {
        coldStartBarsRemaining := coldStartBarsRemaining - 1;
        core := core.(cold := core.cold - 1);
      }
      forall v | 0 <= v < |uniqueHistories|
        ensures SymOk(v)
      {
        assert old(SymOk(v));
      }
    }

    // ---------- Boundaries ----------

    method EarliestPhase(limit: int) returns (p: int)
      ensures p == Earliest(phaseNextAnchor, limit)
    {
      p := -1;
      var anchor := 0;
      for i := 0 to |phaseNextAnchor|
        invariant p == Earliest(phaseNextAnchor[..i], limit)
        invariant anchor == if p < 0 then 0 else phaseNextAnchor[p]
      {
        assert phaseNextAnchor[..i + 1][..i] == phaseNextAnchor[..i];
        var target := phaseNextAnchor[i];
        if 0 < target <= limit && (anchor == 0 || target < anchor) {
          anchor, p := target, i;
        }
      }
      assert phaseNextAnchor[..|phaseNextAnchor|] == phaseNextAnchor;
    }

    /** Replay mode: crosses every second up to `a` and every phase anchor up to `b`, in order. */
    method CrossBoundaries(a: int, b: int)
      requires CoreOk()
      modifies this`core, this`nextSecondAnchorNS, this`symNextSecondNS, this`uniqueLastCCMBar, this`symBarRing,
               this`symBarAnchor,
               this`committed, this`coldStartBarsRemaining, this`phaseNextAnchor, uniqueHistories
      ensures CoreOk() && core == CloseTo(cfg, old(core), a, b)
    {
      hide CloseSecond, CommitPhase;
      while true
        invariant CoreOk() && CloseTo(cfg, core, a, b) == CloseTo(cfg, old(core), a, b)
        decreases Work(core, a, b)
      {
        var p := EarliestPhase(b);
        ghost var c := core;
        if 0 < nextSecondAnchorNS <= a && (p < 0 || nextSecondAnchorNS <= phaseNextAnchor[p]) {
          CrossDecreases(cfg, c, a, b);
          CloseSecondBar();
          continue;
        }
        if p < 0 {
          break;
        }
        CrossDecreases(cfg, c, a, b);
        ClosePhase(p);
      }
    }

    // ---------- Ticks ----------

    method InitUnsetAnchors(ts: nat)
      requires CoreOk()
      modifies this`core, this`nextSecondAnchorNS, this`phaseNextAnchor, this`symNextSecondNS
      ensures CoreOk() && core == InitAnchors(cfg, old(core), ts)
    {
      ghost var filled := FillUnset(cfg, phaseNextAnchor, ts);
      for p := 0 to |cfg.phases|
        invariant |phaseNextAnchor| == |cfg.phases|
        invariant forall q :: 0 <= q < |phaseNextAnchor| ==>
                    phaseNextAnchor[q] == if q < p then filled[q] else old(phaseNextAnchor)[q]
        invariant core == old(core) && nextSecondAnchorNS == old(nextSecondAnchorNS)
                  && symNextSecondNS == old(symNextSecondNS)
      {
        if phaseNextAnchor[p] == 0 {
          phaseNextAnchor := phaseNextAnchor[p := FirstAnchor(ts, cfg.phases[p].offset, cfg.cadence)];
        }
      }
      assert phaseNextAnchor == filled;
      core := core.(phaseNext := filled);
      forall v | 0 <= v < |uniqueHistories|
        ensures SymOk(v)
      {
        assert old(SymOk(v));
      }
      if nextSecondAnchorNS == 0 {
        SetSecond(FirstAnchor(ts, 0, cfg.cadence));
      }
    }

    /** Sets the next second for the projector and every symbol. */
    method SetSecond(second: nat)
      requires Sized() && Distinct()
      requires forall v :: 0 <= v < |uniqueHistories| ==> SymOk(v)
      modifies this`core, this`nextSecondAnchorNS, this`symNextSecondNS
      ensures Sized() && nextSecondAnchorNS == second
      ensures forall v :: 0 <= v < |uniqueHistories| ==> SymOk(v)
      ensures core == old(core).(nextSecond := second, syms := WithSecond(old(core).syms, second))
    {
      nextSecondAnchorNS := second;
      for u := 0 to |symNextSecondNS|
        invariant |symNextSecondNS| == |uniqueHistories| && core == old(core) && nextSecondAnchorNS == second
        invariant forall v :: 0 <= v < |symNextSecondNS| ==> symNextSecondNS[v] == if v < u then second
                  else old(symNextSecondNS)[v]
      {
        symNextSecondNS := symNextSecondNS[u := second];
      }
      core := core.(nextSecond := second, syms := WithSecond(core.syms, second));
      forall v | 0 <= v < |uniqueHistories|
        ensures SymOk(v)
      {
        assert old(SymOk(v));
      }
    }

    method SetStartAnchor(startNS: nat)
      requires CoreOk()
      modifies this`core, this`nextSecondAnchorNS, this`phaseNextAnchor, this`symNextSecondNS
      ensures CoreOk() && core == Start(cfg, old(core), startNS)
    {
      ghost var filled := FillUnset(cfg, Repeat(|core.phaseNext|, 0), startNS);
      for p := 0 to |cfg.phases|
        invariant |phaseNextAnchor| == |cfg.phases|
        invariant forall q :: 0 <= q < p ==> phaseNextAnchor[q] == filled[q]
        invariant core == old(core) && nextSecondAnchorNS == old(nextSecondAnchorNS)
                  && symNextSecondNS == old(symNextSecondNS)
      {
        phaseNextAnchor := phaseNextAnchor[p := FirstAnchor(startNS, cfg.phases[p].offset, cfg.cadence)];
      }
      assert phaseNextAnchor == filled;
      core := core.(phaseNext := filled);
      forall v | 0 <= v < |uniqueHistories|
        ensures SymOk(v)
      {
        assert old(SymOk(v));
      }
      SetSecond(FirstAnchor(startNS, 0, cfg.cadence));
    }

    method SetColdStart(cold: bool)
      requires CoreOk()
      modifies this`core, this`coldStartBarsRemaining
      ensures CoreOk() && core == old(core).(cold := if cold then COLD_START_BARS else 0)
    {
      coldStartBarsRemaining := if cold then COLD_START_BARS else 0;
      core := core.(cold := coldStartBarsRemaining);
      forall v | 0 <= v < |uniqueHistories|
        ensures SymOk(v)
      {
        assert old(SymOk(v));
      }
    }

    /** The duplicate filter; a swallowed quote is thereby taken. */
    method FilterQuote(t: Tick) returns (ok: bool)
      requires CoreOk() && t.kind == TickQuote && t.symbol in cfg.index
      modifies this`core, uniqueHistories
      ensures CoreOk() && ok == !IsSwallowed(cfg, old(core), t) && (ok ==> ValidPrices(t))
      ensures core == Filtered(cfg, old(core), t)
    {
      var u := cfg.index[t.symbol];
      assert SymOk(u);
      ghost var b := NextBaseline(core.syms[u].hist.st.baseline, t);
      hide NextBaseline;
      ok := uniqueHistories[u].AcceptQuote(t);
      core := Swallow(core, u, b);
      forall v | 0 <= v < |uniqueHistories|
        ensures SymOk(v)
      {
        assert old(SymOk(v));
      }
    }

    /** Takes an accepted tick into its symbol's history. */
    method AbsorbTick(u: nat, t: Tick, late: bool)
      requires CoreOk() && u < |uniqueHistories|
      requires t.kind == TickQuote ==> ValidPrices(t)
      modifies this`core, uniqueHistories[u]
      ensures CoreOk()
      ensures var was := old(core);
              core == was.(syms := was.syms[u := was.syms[u].(hist := AbsorbAccepted(was.syms[u].hist, t, late))])
    {
      assert SymOk(u);
      ghost var h := core.syms[u].hist;
      AbsorbInto(uniqueHistories[u], t, late);
      core := core.(syms := core.syms[u := core.syms[u].(hist := AbsorbAccepted(h, t, late))]);
      hide AbsorbAccepted;
      forall v | 0 <= v < |uniqueHistories|
        ensures SymOk(v)
      {
        assert old(SymOk(v));
      }
    }

    /** The rest of an accepted tick's effect, counting it if it is late. */
    method FinishTick(t: Tick, late: bool)
      requires CoreOk() && t.symbol in cfg.index
      requires t.kind == TickQuote ==> ValidPrices(t)
      modifies this`core, this`lateDroppedTicks, uniqueHistories
      ensures CoreOk() && core == Finished(cfg, old(core), t, late)
    {
      hide AbsorbAccepted;
      if late {
        lateDroppedTicks := lateDroppedTicks + 1;
        core := core.(late := core.late + 1);
      }
      forall v | 0 <= v < |uniqueHistories|
        ensures SymOk(v)
      {
        assert old(SymOk(v));
      }
      AbsorbTick(cfg.index[t.symbol], t, late);
    }

    /** One tick in stream order. In live mode boundaries are left to `Flush`. */
    method IngestSorted(t: Tick)
      requires CoreOk() && t.symbol in cfg.index
      modifies this`core, this`nextSecondAnchorNS, this`symNextSecondNS, this`uniqueLastCCMBar, this`symBarRing,
               this`symBarAnchor,
               this`committed, this`coldStartBarsRemaining, this`phaseNextAnchor, this`lateDroppedTicks, uniqueHistories
      ensures CoreOk()
      ensures core == if isLiveMode then LiveIngest(cfg, old(core), t) else ReplayIngest(cfg, old(core), t)
    {
      hide IsLate, Take, ReplayTake, InitAnchors, CloseTo;
      InitUnsetAnchors(t.ts);
      FilterAndTake(t);
    }

    method FilterAndTake(t: Tick)
      requires CoreOk() && t.symbol in cfg.index
      modifies this`core, this`nextSecondAnchorNS, this`symNextSecondNS, this`uniqueLastCCMBar, this`symBarRing,
               this`symBarAnchor,
               this`committed, this`coldStartBarsRemaining, this`phaseNextAnchor, this`lateDroppedTicks, uniqueHistories
      ensures CoreOk()
      ensures core == if isLiveMode then Take(cfg, old(core), t, IsLate(cfg, old(core), t))
              else ReplayTake(cfg, old(core), t)
    {
      hide Filtered, Finished, Take, CloseTo, IsLate;
      ghost var c := core;
      NotSwallowedTrade(cfg, c, t);
      if t.kind == TickQuote {
        var ok := FilterQuote(t);
        if !ok {
          SwallowedTick(cfg, c, t);
          return;
        }
      }
      hide IsSwallowed;
      var late := TestLate(t);
      FilterKeepsLate(cfg, c, core, t);
      if !late && !isLiveMode {
        CrossBoundaries(t.ts, t.ts - 1);
        FinishTick(t, false);
        AcceptedAfterCrossing(cfg, c, t);
      } else {
        FinishTick(t, late);
        AcceptedTick(cfg, c, t, late);
      }
    }

    method TestLate(t: Tick) returns (late: bool)
      requires CoreOk() && t.symbol in cfg.index
      ensures late == IsLate(cfg, core, t)
    {
      var u := cfg.index[t.symbol];
      assert SymOk(u);
      late := symNextSecondNS[u] > 0 && t.ts < symNextSecondNS[u] - cfg.cadence;
    }

    // ---------- The reorder heap and the public operations ----------

    ghost function Now(): L.Pending
      reads this
    {
      L.Pending(core, queue)
    }

    /** Every queued tick is of a tracked symbol. */
    ghost predicate QueueTracked()
      reads this
    {
      forall y :: y in queue ==> y.tick.symbol in cfg.index
    }

    method SetWatermarkBuffer(d: nat)
      requires Valid()
      modifies this`watermarkBufferNS, this`isLiveMode
      ensures Valid() && watermarkBufferNS == d && isLiveMode == (old(isLiveMode) || d > 0)
    {
      watermarkBufferNS := d;
      if d > 0 {
        isLiveMode := true;
      }
      forall v | 0 <= v < |uniqueHistories|
        ensures SymOk(v)
      {
        assert old(SymOk(v));
      }
    }

    /** Pops and takes every queued tick up to the limit. */
    method DrainHeap(limit: int)
      requires Valid() && QueueTracked() && isLiveMode
      modifies this, uniqueHistories, liveHeap
      ensures Valid() && QueueTracked() && isLiveMode && liveSeq == old(liveSeq)
              && watermarkBufferNS == old(watermarkBufferNS)
      ensures Now() == L.Drain(cfg, old(Now()), limit)
    {
      hide LiveIngest;
      while |liveHeap.items| > 0
        invariant Valid() && QueueTracked() && isLiveMode && liveSeq == old(liveSeq)
                  && watermarkBufferNS == old(watermarkBufferNS)
        invariant L.Drain(cfg, Now(), limit) == L.Drain(cfg, old(Now()), limit)
        decreases |queue|
      {
        var top := liveHeap.PeekItem();
        L.HeadIsLeast(queue, liveHeap.items, top);
        if top.tick.ts > limit {
          break;
        }
        PopAndTake();
      }
      assert |liveHeap.items| == 0 ==> queue == [] by {
        if queue != [] { assert queue[0] in multiset(queue); }
      }
    }

    /** Takes the least queued tick. */
    method PopAndTake()
      requires Valid() && QueueTracked() && isLiveMode && liveHeap.items != []
      modifies this, uniqueHistories, liveHeap
      ensures Valid() && QueueTracked() && isLiveMode && liveSeq == old(liveSeq)
              && watermarkBufferNS == old(watermarkBufferNS)
      ensures old(queue) != [] && queue == old(queue)[1..] && core == LiveIngest(cfg, old(core), old(queue)[0].tick)
    {
      hide LiveIngest, ReplayIngest;
      var item := PopLeast();
      IngestSorted(item.tick);
    }

    /** Pops the least queued item; nothing else changes. */
    method PopLeast() returns (item: L.Item)
      requires Valid() && QueueTracked() && liveHeap.items != []
      modifies this`queue, liveHeap
      ensures Valid() && QueueTracked()
      ensures old(queue) != [] && item == old(queue)[0] && queue == old(queue)[1..]
    {
      ghost var q, h := queue, liveHeap.items;
      item := liveHeap.PopItem();
      L.HeadIsLeast(q, h, item);
      L.TailSorted(q);
      queue := q[1..];
      forall y | y in queue
        ensures y in q
      {
      }
      forall v | 0 <= v < |uniqueHistories|
        ensures SymOk(v)
      {
        assert old(SymOk(v));
      }
    }

    /** Crosses every boundary up to `end`; in live mode each is preceded by the queued ticks before it. */
    method Flush(end: int)
      requires Valid() && QueueTracked()
      modifies this, uniqueHistories, liveHeap
      ensures Valid() && QueueTracked() && isLiveMode == old(isLiveMode)
      ensures liveSeq == old(liveSeq) && watermarkBufferNS == old(watermarkBufferNS)
      ensures isLiveMode ==> Now() == L.Flush(cfg, old(Now()), end)
      ensures !isLiveMode ==> core == CloseTo(cfg, old(core), end, end) && queue == old(queue)
    {
      if !isLiveMode {
        CrossBoundaries(end, end);
        return;
      }
      hide L.Flush, NextBoundary;
      while true
        invariant Valid() && QueueTracked() && isLiveMode
        invariant liveSeq == old(liveSeq) && watermarkBufferNS == old(watermarkBufferNS)
        invariant L.Flush(cfg, Now(), end) == L.Flush(cfg, old(Now()), end)
        decreases Work(core, end, end)
      {
        var more := FlushNext(end);
        if !more {
          break;
        }
      }
      DrainHeap(end);
    }

    /** Takes the ticks before the next boundary and crosses it, if there is one up to `end`. */
    method FlushNext(end: int) returns (more: bool)
      requires Valid() && QueueTracked() && isLiveMode
      modifies this, uniqueHistories, liveHeap
      ensures Valid() && QueueTracked() && isLiveMode
      ensures liveSeq == old(liveSeq) && watermarkBufferNS == old(watermarkBufferNS)
      ensures more ==>
              L.Flush(cfg, Now(), end) == L.Flush(cfg, old(Now()), end)
              && Work(core, end, end) < Work(old(core), end, end)
      ensures !more ==> Now() == old(Now()) && L.Drain(cfg, Now(), end) == L.Flush(cfg, Now(), end)
    {
      ghost var s := Now();
      var p := EarliestPhase(end);
      ghost var e := NextBoundary(core, end, end);
      L.FlushUnfolds(cfg, s, end);
      if 0 < nextSecondAnchorNS <= end && (p < 0 || nextSecondAnchorNS <= phaseNextAnchor[p]) {
        assert e == Second;
        TakeSecond(end);
        return true;
      }
      if p < 0 {
        assert e == Nothing;
        return false;
      }
      assert e == PhaseAt(p);
      TakePhase(p, end);
      return true;
    }

    /** Takes the ticks before the next second and closes it. */
    method TakeSecond(end: int)
      requires Valid() && QueueTracked() && isLiveMode && NextBoundary(core, end, end) == Second
      modifies this, uniqueHistories, liveHeap
      ensures Valid() && QueueTracked() && isLiveMode
      ensures liveSeq == old(liveSeq) && watermarkBufferNS == old(watermarkBufferNS)
      ensures L.Flush(cfg, Now(), end) == L.Flush(cfg, old(Now()), end)
              && Work(core, end, end) < Work(old(core), end, end)
    {
      L.FlushUnfolds(cfg, Now(), end);
      hide Cross, L.Drain, NextBoundary, L.Flush;
      DrainHeap(nextSecondAnchorNS - 1);
      CrossSecond();
    }

    /** Takes the ticks up to the next anchor of a phase and commits its frame. */
    method TakePhase(p: nat, end: int)
      requires Valid() && QueueTracked() && isLiveMode && NextBoundary(core, end, end) == PhaseAt(p)
               && p < |phaseNextAnchor|
      modifies this, uniqueHistories, liveHeap
      ensures Valid() && QueueTracked() && isLiveMode
      ensures liveSeq == old(liveSeq) && watermarkBufferNS == old(watermarkBufferNS)
      ensures L.Flush(cfg, Now(), end) == L.Flush(cfg, old(Now()), end)
              && Work(core, end, end) < Work(old(core), end, end)
    {
      L.FlushUnfolds(cfg, Now(), end);
      hide Cross, L.Drain, NextBoundary, L.Flush;
      DrainHeap(phaseNextAnchor[p]);
      CrossPhase(p);
    }

    method CrossSecond()
      requires Valid() && QueueTracked()
      modifies this, uniqueHistories
      ensures Valid() && QueueTracked() && isLiveMode == old(isLiveMode)
      ensures liveSeq == old(liveSeq) && watermarkBufferNS == old(watermarkBufferNS)
      ensures queue == old(queue) && core == Cross(cfg, old(core), Second)
    {
      CloseSecondBar();
    }

    method CrossPhase(p: nat)
      requires Valid() && QueueTracked() && p < |phaseNextAnchor|
      modifies this, uniqueHistories
      ensures Valid() && QueueTracked() && isLiveMode == old(isLiveMode)
      ensures liveSeq == old(liveSeq) && watermarkBufferNS == old(watermarkBufferNS)
      ensures queue == old(queue) && core == Cross(cfg, old(core), PhaseAt(p))
    {
      ClosePhase(p);
    }

    /** A tick from the feed: queued in live mode, taken at once in replay mode. Unknown symbols are ignored. */
    method IngestTick(t: Tick)
      requires Valid() && QueueTracked()
      modifies this, uniqueHistories, liveHeap
      ensures Valid() && QueueTracked() && isLiveMode == old(isLiveMode) && watermarkBufferNS == old(watermarkBufferNS)
      ensures t.symbol !in cfg.index ==> Now() == old(Now()) && liveSeq == old(liveSeq)
      ensures t.symbol in cfg.index && !isLiveMode ==>
                core == ReplayIngest(cfg, old(core), t) && queue == old(queue) && liveSeq == old(liveSeq)
      ensures t.symbol in cfg.index && isLiveMode ==> liveSeq == old(liveSeq) + 1
      ensures t.symbol in cfg.index && isLiveMode ==>
                var arrived := L.Pending(old(core), L.Insert(old(queue), L.Item(t, liveSeq)));
                Now() == if watermarkBufferNS == 0 then L.Flush(cfg, arrived, t.ts) else arrived
    {
      hide ReplayIngest, LiveIngest, L.Flush, L.Insert;
      if t.symbol !in cfg.index {
        return;
      }
      if !isLiveMode {
        NoteTimestamp(t.ts);
        IngestSorted(t);
        return;
      }
      NoteTimestamp(t.ts);
      Enqueue(t);
      if watermarkBufferNS == 0 {
        Flush(t.ts);
      }
    }

    method NoteTimestamp(ts: nat)
      requires Valid()
      modifies this`maxSIPTimestampNS
      ensures Valid() && maxSIPTimestampNS >= ts && maxSIPTimestampNS >= old(maxSIPTimestampNS)
      ensures maxSIPTimestampNS == ts || maxSIPTimestampNS == old(maxSIPTimestampNS)
    {
      if ts > maxSIPTimestampNS {
        maxSIPTimestampNS := ts;
      }
      forall v | 0 <= v < |uniqueHistories|
        ensures SymOk(v)
      {
        assert old(SymOk(v));
      }
    }

    method Enqueue(t: Tick)
      requires Valid() && QueueTracked() && t.symbol in cfg.index
      modifies this`liveSeq, this`queue, liveHeap
      ensures Valid() && QueueTracked() && liveSeq == old(liveSeq) + 1
      ensures queue == L.Insert(old(queue), L.Item(t, liveSeq))
    {
      liveSeq := liveSeq + 1;
      var item := L.Item(t, liveSeq);
      L.InsertSorted(queue, item);
      hide L.Insert;
      ghost var q := queue;
      liveHeap.PushItem(item);
      queue := L.Insert(q, item);
      forall y | y in queue
        ensures y == item || y in q
      {
        assert y in multiset(queue);
      }
      assert CoreOk() by {
        forall v | 0 <= v < |uniqueHistories|
          ensures SymOk(v)
        {
          assert old(SymOk(v));
        }
      }
    }
  }

  /** What an accepted tick does once the duplicate filter has already moved. */
  function AbsorbAccepted(h: Hist, t: Tick, late: bool): Hist {
    match t.kind
    case TickQuote =>
      Hist(h.st.(session := if late then NoteQuote(h.st.session, t) else NoteVenues(NoteQuote(h.st.session, t), t),
                 book := QuoteBook.Record(h.st.book, EntryOf(t))),
           if late then h.bar else BarQuote(h.bar, t))
    case TickTrade => Absorb(h, t, late)
  }

  method AbsorbInto(h: History, t: Tick, late: bool)
    requires h.Valid() && (t.kind == TickQuote ==> ValidPrices(t))
    modifies h
    ensures h.Valid() && h.View() == AbsorbAccepted(old(h.View()), t, late)
  {
    if t.kind == TickTrade {
      if late {
        h.IngestPreWindowTrade(t);
      } else {
        h.IngestTrade(t);
      }
    } else {
      if late {
        h.IngestPreWindowQuote(t);
      } else {
        h.IngestQuote(t);
      }
    }
  }

  /** The core after the duplicate filter and, for an accepted tick, the rest of its effect. */
  function Filtered(cfg: Config, c: Core, t: Tick): Core {
    if t.kind == TickQuote && Tracks(cfg, c.syms, t.symbol) then
      Swallow(c, cfg.index[t.symbol], NextBaseline(c.syms[cfg.index[t.symbol]].hist.st.baseline, t))
    else c
  }

  function Finished(cfg: Config, c: Core, t: Tick, late: bool): Core
    requires Tracks(cfg, c.syms, t.symbol)
  {
    var u := cfg.index[t.symbol];
    var c1 := if late then c.(late := c.late + 1) else c;
    c1.(syms := c1.syms[u := c1.syms[u].(hist := AbsorbAccepted(c1.syms[u].hist, t, late))])
  }

  lemma NotSwallowedTrade(cfg: Config, c: Core, t: Tick)
    ensures t.kind == TickTrade ==> !IsSwallowed(cfg, c, t) && Filtered(cfg, c, t) == c
  {
  }

  lemma SwallowedTick(cfg: Config, c: Core, t: Tick)
    requires IsSwallowed(cfg, c, t)
    ensures forall late :: Take(cfg, c, t, late) == Filtered(cfg, c, t)
  {
  }

  lemma FilterKeepsLate(cfg: Config, c: Core, d: Core, t: Tick)
    requires Tracks(cfg, c.syms, t.symbol) && d == Filtered(cfg, c, t)
    ensures IsLate(cfg, d, t) == IsLate(cfg, c, t)
  {
    hide NextBaseline;
  }

  /** The filter and then the accepted effect make up one tick. */
  lemma AcceptedTick(cfg: Config, c: Core, t: Tick, late: bool)
    requires Tracks(cfg, c.syms, t.symbol) && !IsSwallowed(cfg, c, t)
    ensures Finished(cfg, Filtered(cfg, c, t), t, late) == Take(cfg, c, t, late)
  {
    var u := cfg.index[t.symbol];
    AcceptedHist(c.syms[u].hist, t, late);
    hide Absorb, AbsorbAccepted, NextBaseline;
    var x, y := Finished(cfg, Filtered(cfg, c, t), t, late), Take(cfg, c, t, late);
    assert x.syms[u] == y.syms[u];
    assert x.syms == y.syms;
  }

  lemma AcceptedHist(h: Hist, t: Tick, late: bool)
    requires !Swallowed(h.st, t)
    ensures var b := if t.kind == TickQuote then NextBaseline(h.st.baseline, t) else h.st.baseline;
            AbsorbAccepted(h.(st := h.st.(baseline := b)), t, late) == Absorb(h, t, late)
  {
    hide NoteQuote, NoteVenues, BarQuote, QuoteBook.Record, NextBaseline;
  }

  /** Crossing boundaries between the filter and the rest of the tick makes no difference. */
  lemma AcceptedAfterCrossing(cfg: Config, c: Core, t: Tick)
    requires Tracks(cfg, c.syms, t.symbol) && !IsSwallowed(cfg, c, t)
    ensures Finished(cfg, CloseTo(cfg, Filtered(cfg, c, t), t.ts, t.ts - 1), t, false)
            == Take(cfg, CloseTo(cfg, c, t.ts, t.ts - 1), t, false)
  {
    var u := cfg.index[t.symbol];
    CloseToCommutes(cfg, c, u, NextBaseline(c.syms[u].hist.st.baseline, t), t.ts, t.ts - 1);
    var c1 := CloseTo(cfg, c, t.ts, t.ts - 1);
    AcceptedTick(cfg, c1, t, false);
  }

  lemma CloseSymAdvances(cfg: Config, s: Sym)
    ensures CloseSym(cfg, s, s.nextSecond).nextSecond == s.nextSecond + cfg.cadence
  {
  }
}
