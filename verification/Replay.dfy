/** Sorted replay in normal form, and the proof that the replay mode of the projector reaches it. */
module Replay {
  import opened Floats
  import opened Feed
  import opened SymbolHistory
  import opened Schedule
  import opened Modular

  // ---------- The normal form ----------

  /** One tick: cross every boundary before it, then take it in. */
  function CrossAndTake(cfg: Config, c: Core, t: Tick): (r: Core)
  {
    var c1 := CloseTo(cfg, c, t.ts, t.ts - 1);
    Take(cfg, c1, t, IsLate(cfg, c1, t))
  }

  /** All ticks in the order given, then every boundary up to `end`. */
  function Canon(cfg: Config, c: Core, ticks: seq<Tick>, end: int): (r: Core)
    decreases ticks
  {
    if ticks == [] then CloseTo(cfg, c, end, end)
    else Canon(cfg, CrossAndTake(cfg, c, ticks[0]), ticks[1..], end)
  }

  /** Ticks in the order of their timestamps. */
  ghost predicate InTimeOrder(ticks: seq<Tick>) {
    forall i, j :: 0 <= i < j < |ticks| ==> Before(ticks, i, j)
  }

  ghost predicate NoneAfter(ticks: seq<Tick>, end: int) {
    forall i :: 0 <= i < |ticks| ==> ticks[i].ts <= end
  }

  ghost predicate Before(ticks: seq<Tick>, i: nat, j: nat)
    requires i < j < |ticks|
  {
    ticks[i].ts <= ticks[j].ts
  }

  // ---------- Cuts ----------

  /** Seconds up to `a` and phases up to `b` form an initial part of the boundary order. */
  ghost predicate Cut(a: int, b: int) {
    b == a || b == a - 1
  }

  /** A boundary that is next before a cut is next before every later cut. */
  lemma NextIsStable(c: Core, a: int, b: int, a': int, b': int)
    requires Cut(a, b) && a <= a' && b <= b' && NextBoundary(c, a, b) != Nothing
    ensures NextBoundary(c, a', b') == NextBoundary(c, a, b)
  {
    var p := Earliest(c.phaseNext, b);
    var p' := Earliest(c.phaseNext, b');
    if p >= 0 {
      assert 0 < c.phaseNext[p] <= b';
      assert c.phaseNext[p'] <= c.phaseNext[p];
      assert 0 < c.phaseNext[p'] <= b;
      assert !(p < p') && !(p' < p);
    }
  }

  /** Crossing up to one cut and then up to a later one is crossing up to the later one. */
  lemma {:induction false} CloseToTwice(cfg: Config, c: Core, a: int, b: int, a': int, b': int)
    requires Cut(a, b) && a <= a' && b <= b'
    ensures CloseTo(cfg, CloseTo(cfg, c, a, b), a', b') == CloseTo(cfg, c, a', b')
    decreases Work(c, a, b)
  {
    var e := NextBoundary(c, a, b);
    if e != Nothing {
      NextIsStable(c, a, b, a', b');
      CrossDecreases(cfg, c, a, b);
      CloseToTwice(cfg, Cross(cfg, c, e), a, b, a', b');
    }
  }

  // ---------- Alignment ----------

  /** Anchors are set, all symbols are at the same second, and no phase is behind the last closed second. */
  ghost predicate Aligned(cfg: Config, c: Core) {
    && c.nextSecond > 0 && c.nextSecond % cfg.cadence == 0 && c.nextSecond >= cfg.cadence
    && (forall p :: 0 <= p < |c.phaseNext| ==> PhaseAhead(cfg, c, p))
    && SymsAt(c.syms, c.nextSecond)
  }

  ghost predicate PhaseAhead(cfg: Config, c: Core, p: nat)
    requires p < |c.phaseNext|
  {
    c.phaseNext[p] > 0 && c.phaseNext[p] >= c.nextSecond - cfg.cadence
  }

  ghost predicate SymsAt(syms: seq<Sym>, second: nat) {
    forall u :: 0 <= u < |syms| ==> syms[u].nextSecond == second
  }

  lemma FloorAtMost(t: nat, cadence: Cadence)
    ensures Floor(t, cadence) <= t < Floor(t, cadence) + cadence
    ensures Floor(t, cadence) % cadence == 0
  {
    assert t == t / cadence * cadence + t % cadence;
    MultipleModulo(t / cadence, cadence);
  }

  /** While the seconds are ahead of the anchor, a commit changes no second and no history. */
  lemma {:induction false} WalkKeepsSeconds(cfg: Config, syms: seq<Sym>, names: seq<string>, anchor: nat)
    requires forall u :: 0 <= u < |syms| ==> syms[u].nextSecond > anchor
    ensures forall u :: 0 <= u < |syms| ==> SameButTerminal(WalkSyms(cfg, syms, names, anchor)[u], syms[u])
  {
    if names != [] {
      WalkKeepsSeconds(cfg, syms, names[..|names| - 1], anchor);
      FloorAtMost(anchor, cfg.cadence);
    }
  }

  /** Equal except for slots 36..43 of the latest row. */
  ghost predicate SameButTerminal(a: Sym, b: Sym) {
    a == b.(last := b.last.(terminal := a.last.terminal))
  }

  lemma CloseOnce(cfg: Config, s: Sym)
    ensures CloseSymThrough(cfg, s, s.nextSecond) == CloseSym(cfg, s, s.nextSecond)
  {
    assert CloseSym(cfg, s, s.nextSecond).nextSecond > s.nextSecond;
  }

  lemma CrossKeepsAligned(cfg: Config, c: Core, a: int, b: int)
    requires Aligned(cfg, c) && Cut(a, b) && NextBoundary(c, a, b) != Nothing
    ensures Aligned(cfg, Cross(cfg, c, NextBoundary(c, a, b)))
  {
    var e := NextBoundary(c, a, b);
    var r := Cross(cfg, c, e);
    match e
    case Second =>
      assert (c.nextSecond + cfg.cadence) % cfg.cadence == 0 by { AddMultiple(c.nextSecond, 1, cfg.cadence); }
      forall u | 0 <= u < |r.syms|
        ensures r.syms[u].nextSecond == r.nextSecond
      {
        CloseOnce(cfg, c.syms[u]);
      }
      forall p | 0 <= p < |r.phaseNext|
        ensures PhaseAhead(cfg, r, p)
      {
        assert PhaseAhead(cfg, c, p);
      }
    case PhaseAt(p) =>
      forall u | 0 <= u < |c.syms|
        ensures c.syms[u].nextSecond > c.phaseNext[p]
      {
      }
      WalkKeepsSeconds(cfg, c.syms, PhaseSymbols(cfg, p), c.phaseNext[p]);
      forall u | 0 <= u < |r.syms|
        ensures r.syms[u].nextSecond == r.nextSecond
      {
        assert SameButTerminal(r.syms[u], c.syms[u]);
      }
      forall q | 0 <= q < |r.phaseNext|
        ensures PhaseAhead(cfg, r, q)
      {
        assert PhaseAhead(cfg, c, q);
      }
  }

  lemma {:induction false} CloseToKeepsAligned(cfg: Config, c: Core, a: int, b: int)
    requires Aligned(cfg, c) && Cut(a, b)
    ensures Aligned(cfg, CloseTo(cfg, c, a, b))
    decreases Work(c, a, b)
  {
    if NextBoundary(c, a, b) != Nothing {
      CrossDecreases(cfg, c, a, b);
      CrossKeepsAligned(cfg, c, a, b);
      CloseToKeepsAligned(cfg, Cross(cfg, c, NextBoundary(c, a, b)), a, b);
    }
  }

  lemma TakeKeepsAligned(cfg: Config, c: Core, t: Tick, late: bool)
    requires Aligned(cfg, c)
    ensures Aligned(cfg, Take(cfg, c, t, late))
  {
    var r := Take(cfg, c, t, late);
    assert r.phaseNext == c.phaseNext;
    forall p | 0 <= p < |r.phaseNext|
      ensures PhaseAhead(cfg, r, p)
    {
      assert PhaseAhead(cfg, c, p);
    }
  }

  /** Set anchors are left alone by the first-tick initialisation. */
  lemma InitAnchorsIdle(cfg: Config, c: Core, ts: nat)
    requires Aligned(cfg, c)
    ensures InitAnchors(cfg, c, ts) == c
  {
    var filled := FillUnset(cfg, c.phaseNext, ts);
    forall p | 0 <= p < |c.phaseNext|
      ensures filled[p] == c.phaseNext[p]
    {
      assert PhaseAhead(cfg, c, p);
    }
    assert filled == c.phaseNext;
  }

  /** A late tick has no boundary before it. */
  lemma LateCrossesNothing(cfg: Config, c: Core, t: Tick)
    requires Aligned(cfg, c) && IsLate(cfg, c, t)
    ensures NextBoundary(c, t.ts, t.ts - 1) == Nothing
  {
    assert c.syms[cfg.index[t.symbol]].nextSecond == c.nextSecond;
    forall p | 0 <= p < |c.phaseNext|
      ensures c.phaseNext[p] > t.ts
    {
      assert PhaseAhead(cfg, c, p);
    }
  }

  /** A tick before which every boundary has been crossed is late only if it was late before. */
  lemma NotLateAfterCrossing(cfg: Config, c: Core, t: Tick)
    requires Aligned(cfg, c) && Tracks(cfg, c.syms, t.symbol) && !IsLate(cfg, c, t)
    ensures !IsLate(cfg, CloseTo(cfg, c, t.ts, t.ts - 1), t)
  {
    NotLateThroughout(cfg, c, t);
  }

  lemma {:induction false} NotLateThroughout(cfg: Config, c: Core, t: Tick)
    requires Aligned(cfg, c) && t.ts >= c.nextSecond - cfg.cadence
    ensures var r := CloseTo(cfg, c, t.ts, t.ts - 1);
            Aligned(cfg, r) && t.ts >= r.nextSecond - cfg.cadence && !IsLate(cfg, r, t)
    decreases Work(c, t.ts, t.ts - 1)
  {
    var e := NextBoundary(c, t.ts, t.ts - 1);
    if e != Nothing {
      CrossDecreases(cfg, c, t.ts, t.ts - 1);
      CrossKeepsAligned(cfg, c, t.ts, t.ts - 1);
      NotLateThroughout(cfg, Cross(cfg, c, e), t);
    }
  }

  // ---------- A swallowed quote commutes with every boundary ----------

  function WithBaseline(s: Sym, b: Baseline): Sym {
    s.(hist := s.hist.(st := s.hist.st.(baseline := b)))
  }

  function PutBaseline(syms: seq<Sym>, u: nat, b: Baseline): (r: seq<Sym>)
    requires u < |syms|
    ensures |r| == |syms|
  {
    syms[u := WithBaseline(syms[u], b)]
  }

  lemma {:induction false} CloseSymKeepsBaseline(cfg: Config, s: Sym, b: Baseline, second: nat)
    ensures CloseSymThrough(cfg, WithBaseline(s, b), second) == WithBaseline(CloseSymThrough(cfg, s, second), b)
    ensures CloseSymThrough(cfg, s, second).hist.st == s.hist.st
    decreases second - s.nextSecond
  {
    if s.nextSecond <= second {
      CloseSymKeepsBaseline(cfg, CloseSym(cfg, s, s.nextSecond), b, second);
    }
  }

  lemma {:induction false} WalkKeepsBaseline(cfg: Config, syms: seq<Sym>, u: nat, b: Baseline, names: seq<string>,
                                             anchor: nat)
    requires u < |syms|
    ensures WalkSyms(cfg, PutBaseline(syms, u, b), names, anchor)
            == PutBaseline(WalkSyms(cfg, syms, names, anchor), u, b)
    ensures WalkRows(cfg, PutBaseline(syms, u, b), names, anchor) == WalkRows(cfg, syms, names, anchor)
    ensures WalkSyms(cfg, syms, names, anchor)[u].hist.st == syms[u].hist.st
  {
    if names != [] {
      var init := names[..|names| - 1];
      WalkKeepsBaseline(cfg, syms, u, b, init, anchor);
      var name := names[|names| - 1];
      if Tracks(cfg, syms, name) {
        var v := cfg.index[name];
        var before := WalkSyms(cfg, syms, init, anchor);
        CloseSymKeepsBaseline(cfg, before[v], b, Floor(anchor, cfg.cadence));
        if v == u {
          assert SymAtPhase(cfg, WithBaseline(before[u], b), anchor) ==
                 WithBaseline(SymAtPhase(cfg, before[u], anchor), b);
          assert RowAtPhase(cfg, WithBaseline(before[u], b), anchor) == RowAtPhase(cfg, before[u], anchor);
        }
      }
    }
  }

  function Swallow(c: Core, u: nat, b: Baseline): (r: Core)
    requires u < |c.syms|
  {
    c.(syms := PutBaseline(c.syms, u, b))
  }

  lemma CrossCommutes(cfg: Config, c: Core, u: nat, b: Baseline, e: Boundary)
    requires u < |c.syms| && (e.PhaseAt? ==> e.p < |c.phaseNext|)
    ensures Cross(cfg, Swallow(c, u, b), e) == Swallow(Cross(cfg, c, e), u, b)
    ensures Cross(cfg, c, e).syms[u].hist.st == c.syms[u].hist.st
  {
    match e
    case Second =>
      CloseSymKeepsBaseline(cfg, c.syms[u], b, c.nextSecond);
      var x := CloseAll(cfg, PutBaseline(c.syms, u, b), c.nextSecond);
      var y := PutBaseline(CloseAll(cfg, c.syms, c.nextSecond), u, b);
      forall v | 0 <= v < |c.syms|
        ensures x[v] == y[v]
      {
      }
      assert x == y;
    case PhaseAt(p) => WalkKeepsBaseline(cfg, c.syms, u, b, PhaseSymbols(cfg, p), c.phaseNext[p]);
    case Nothing =>
  }

  lemma {:induction false} CloseToCommutes(cfg: Config, c: Core, u: nat, b: Baseline, x: int, y: int)
    requires u < |c.syms|
    ensures CloseTo(cfg, Swallow(c, u, b), x, y) == Swallow(CloseTo(cfg, c, x, y), u, b)
    ensures CloseTo(cfg, c, x, y).syms[u].hist.st == c.syms[u].hist.st
    decreases Work(c, x, y)
  {
    var e := NextBoundary(c, x, y);
    if e != Nothing {
      CrossDecreases(cfg, c, x, y);
      CrossCommutes(cfg, c, u, b, e);
      CloseToCommutes(cfg, Cross(cfg, c, e), u, b, x, y);
    }
  }

  lemma TakeSwallowed(cfg: Config, c: Core, t: Tick, late: bool)
    requires IsSwallowed(cfg, c, t)
    ensures var u := cfg.index[t.symbol];
            Take(cfg, c, t, late) == Swallow(c, u, NextBaseline(c.syms[u].hist.st.baseline, t))
  {
  }

  // ---------- Replay mode reaches the normal form ----------

  lemma SwallowedLags(cfg: Config, c: Core, t: Tick)
    requires Aligned(cfg, c) && IsSwallowed(cfg, c, t)
    ensures CloseTo(cfg, Take(cfg, c, t, IsLate(cfg, c, t)), t.ts, t.ts - 1) == CrossAndTake(cfg, c, t)
  {
    hide NextBaseline, CloseTo;
    var u := cfg.index[t.symbol];
    var b := NextBaseline(c.syms[u].hist.st.baseline, t);
    var c1 := CloseTo(cfg, c, t.ts, t.ts - 1);
    CloseToCommutes(cfg, c, u, b, t.ts, t.ts - 1);
    TakeSwallowed(cfg, c, t, IsLate(cfg, c, t));
    TakeSwallowed(cfg, c1, t, IsLate(cfg, c1, t));
  }

  lemma NothingLeft(cfg: Config, c: Core, a: int, b: int)
    requires NextBoundary(c, a, b) == Nothing
    ensures CloseTo(cfg, c, a, b) == c
  {
  }

  lemma LateLags(cfg: Config, c: Core, t: Tick)
    requires Aligned(cfg, c) && IsLate(cfg, c, t)
    ensures CloseTo(cfg, Take(cfg, c, t, true), t.ts, t.ts - 1) == CrossAndTake(cfg, c, t)
  {
    LateCrossesNothing(cfg, c, t);
    NothingLeft(cfg, c, t.ts, t.ts - 1);
    NothingLeft(cfg, Take(cfg, c, t, true), t.ts, t.ts - 1);
  }

  lemma PlainLags(cfg: Config, c: Core, t: Tick)
    requires Aligned(cfg, c) && Tracks(cfg, c.syms, t.symbol) && !IsLate(cfg, c, t)
    ensures CloseTo(cfg, Take(cfg, CloseTo(cfg, c, t.ts, t.ts - 1), t, false), t.ts, t.ts - 1) ==
            CrossAndTake(cfg, c, t)
  {
    hide Absorb, Take, CloseTo, IsLate, Aligned, Tracks;
    var c1 := CloseTo(cfg, c, t.ts, t.ts - 1);
    NotLateAfterCrossing(cfg, c, t);
    NothingLeft(cfg, Take(cfg, c1, t, false), t.ts, t.ts - 1);
  }

  lemma TakeLags(cfg: Config, c: Core, t: Tick)
    requires Aligned(cfg, c) && Tracks(cfg, c.syms, t.symbol)
    ensures CloseTo(cfg, ReplayTake(cfg, c, t), t.ts, t.ts - 1) == CrossAndTake(cfg, c, t)
  {
    hide Aligned, CloseTo, Take, CrossAndTake, IsLate, IsSwallowed, Tracks;
    if IsSwallowed(cfg, c, t) {
      SwallowedLags(cfg, c, t);
    } else if IsLate(cfg, c, t) {
      LateLags(cfg, c, t);
    } else {
      PlainLags(cfg, c, t);
    }
  }

  /** Replay mode lags behind the normal form only by boundaries that a swallowed quote did not cross. */
  lemma ReplayLags(cfg: Config, c: Core, t: Tick)
    requires Aligned(cfg, c)
    ensures CloseTo(cfg, ReplayIngest(cfg, c, t), t.ts, t.ts - 1) == CrossAndTake(cfg, c, t)
  {
    hide Aligned, CloseTo, ReplayTake, IsLate;
    if Tracks(cfg, c.syms, t.symbol) {
      InitAnchorsIdle(cfg, c, t.ts);
      TakeLags(cfg, c, t);
    }
  }

  lemma ReplayKeepsAligned(cfg: Config, c: Core, t: Tick)
    requires Aligned(cfg, c)
    ensures Aligned(cfg, ReplayIngest(cfg, c, t))
  {
    hide Aligned, IsSwallowed, IsLate, CloseTo, Take;
    if Tracks(cfg, c.syms, t.symbol) {
      InitAnchorsIdle(cfg, c, t.ts);
      TakeKeepsAligned(cfg, c, t, IsLate(cfg, c, t));
      var c1 := CloseTo(cfg, c, t.ts, t.ts - 1);
      CloseToKeepsAligned(cfg, c, t.ts, t.ts - 1);
      TakeKeepsAligned(cfg, c1, t, false);
    }
  }

  lemma CanonKeepsAligned(cfg: Config, c: Core, t: Tick)
    requires Aligned(cfg, c)
    ensures Aligned(cfg, CrossAndTake(cfg, c, t))
  {
    var c1 := CloseTo(cfg, c, t.ts, t.ts - 1);
    CloseToKeepsAligned(cfg, c, t.ts, t.ts - 1);
    TakeKeepsAligned(cfg, c1, t, IsLate(cfg, c1, t));
  }

  lemma {:induction false} CanonStaysAligned(cfg: Config, c: Core, ticks: seq<Tick>, end: int)
    requires Aligned(cfg, c)
    ensures Aligned(cfg, Canon(cfg, c, ticks, end))
    ensures NextBoundary(Canon(cfg, c, ticks, end), end, end) == Nothing
    decreases ticks
  {
    hide Aligned, CrossAndTake, CloseTo, NextBoundary;
    if ticks == [] {
      CloseToKeepsAligned(cfg, c, end, end);
    } else {
      CanonKeepsAligned(cfg, c, ticks[0]);
      CanonStaysAligned(cfg, CrossAndTake(cfg, c, ticks[0]), ticks[1..], end);
    }
  }

  lemma {:induction false} CanonKeepsCount(cfg: Config, c: Core, ticks: seq<Tick>, end: int)
    ensures |Canon(cfg, c, ticks, end).syms| == |c.syms|
    decreases ticks
  {
    if ticks != [] { CanonKeepsCount(cfg, CrossAndTake(cfg, c, ticks[0]), ticks[1..], end); }
  }

  /** Crossing early what the next tick or the end would cross anyway changes nothing. */
  lemma CanonAbsorbsCrossing(cfg: Config, c: Core, a: int, b: int, ticks: seq<Tick>, end: int)
    requires Cut(a, b)
    requires if ticks == [] then a <= end && b <= end else a <= ticks[0].ts && b <= ticks[0].ts - 1
    ensures Canon(cfg, CloseTo(cfg, c, a, b), ticks, end) == Canon(cfg, c, ticks, end)
  {
    hide CloseTo, Take;
    if ticks == [] {
      CloseToTwice(cfg, c, a, b, end, end);
    } else {
      CloseToTwice(cfg, c, a, b, ticks[0].ts, ticks[0].ts - 1);
    }
  }

  lemma TailInOrder(ticks: seq<Tick>, end: int)
    requires ticks != [] && InTimeOrder(ticks) && NoneAfter(ticks, end)
    ensures InTimeOrder(ticks[1..]) && NoneAfter(ticks[1..], end)
    ensures ticks[0].ts <= end
    ensures |ticks| > 1 ==> ticks[0].ts <= ticks[1..][0].ts
  {
    forall i, j | 0 <= i < j < |ticks| - 1
      ensures Before(ticks[1..], i, j)
    {
      assert Before(ticks, i + 1, j + 1);
    }
    if |ticks| > 1 { assert Before(ticks, 0, 1); }
  }

  /** Replay of ticks in time order, followed by a flush, is the normal form. */
  lemma {:induction false} ReplayIsCanon(cfg: Config, c: Core, ticks: seq<Tick>, end: int)
    requires Aligned(cfg, c) && InTimeOrder(ticks)
    requires NoneAfter(ticks, end)
    ensures CloseTo(cfg, ReplayAll(cfg, c, ticks), end, end) == Canon(cfg, c, ticks, end)
    decreases ticks
  {
    if ticks != [] {
      hide CrossAndTake, ReplayIngest, Aligned, CloseTo, InTimeOrder, NoneAfter, NextBoundary;
      var t, rest := ticks[0], ticks[1..];
      var c1 := ReplayIngest(cfg, c, t);
      TailInOrder(ticks, end);
      ReplayLags(cfg, c, t);
      ReplayKeepsAligned(cfg, c, t);
      ReplayIsCanon(cfg, c1, rest, end);
      CanonAbsorbsCrossing(cfg, c1, t.ts, t.ts - 1, rest, end);
    }
  }

  /** Two consecutive runs with an end between them are one run. */
  lemma {:induction false} CanonConcat(cfg: Config, c: Core, xs: seq<Tick>, mid: int, ys: seq<Tick>, end: int)
    requires mid <= end
    requires ys != [] ==> mid < ys[0].ts
    ensures Canon(cfg, Canon(cfg, c, xs, mid), ys, end) == Canon(cfg, c, xs + ys, end)
    decreases xs
  {
    hide CrossAndTake, CloseTo;
    if xs == [] {
      assert Canon(cfg, c, xs, mid) == CloseTo(cfg, c, mid, mid);
      CanonAbsorbsCrossing(cfg, c, mid, mid, ys, end);
      assert xs + ys == ys;
    } else {
      var c1 := CrossAndTake(cfg, c, xs[0]);
      CanonConcat(cfg, c1, xs[1..], mid, ys, end);
      assert (xs + ys)[0] == xs[0] && (xs + ys)[1..] == xs[1..] + ys;
      assert Canon(cfg, c, xs + ys, end) == Canon(cfg, c1, xs[1..] + ys, end);
      assert Canon(cfg, c, xs, mid) == Canon(cfg, c1, xs[1..], mid);
    }
  }

  // ---------- Frames only grow ----------

  lemma {:induction false} CloseToExtendsFrames(cfg: Config, c: Core, a: int, b: int)
    ensures c.frames <= CloseTo(cfg, c, a, b).frames
    decreases Work(c, a, b)
  {
    var e := NextBoundary(c, a, b);
    if e != Nothing {
      CrossDecreases(cfg, c, a, b);
      CloseToExtendsFrames(cfg, Cross(cfg, c, e), a, b);
    }
  }

  lemma {:induction false} CanonExtendsFrames(cfg: Config, c: Core, ticks: seq<Tick>, end: int)
    ensures c.frames <= Canon(cfg, c, ticks, end).frames
    decreases ticks
  {
    if ticks == [] {
      CloseToExtendsFrames(cfg, c, end, end);
    } else {
      CloseToExtendsFrames(cfg, c, ticks[0].ts, ticks[0].ts - 1);
      CanonExtendsFrames(cfg, CrossAndTake(cfg, c, ticks[0]), ticks[1..], end);
    }
  }
}
