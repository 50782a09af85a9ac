/** What the committed frames are, said without any scheduler: which anchors each phase gets, in which
    order, and which ticks each slot of each row is made of. */
module Frames {
  import opened Floats
  import opened Feed
  import opened SymbolHistory
  import opened Schedule
  import opened Replay
  import opened Modular

  // ---------- The start ----------

  ghost predicate OffsetsInRange(cfg: Config) {
    forall p :: 0 <= p < |cfg.phases| ==> cfg.phases[p].offset < cfg.cadence
  }

  /** The state after `SetStartAnchor` on a new projector. */
  function Started(cfg: Config, count: nat, cold: nat, startNS: nat): Core {
    Start(cfg, Initial(cfg, count, cold), startNS)
  }

  /** `FirstAnchor` is the least point of the lattice after the start time. */
  lemma FirstAnchorIsLeast(t: nat, offset: nat, cadence: Cadence)
    requires offset < cadence
    ensures var a := FirstAnchor(t, offset, cadence);
            && a % cadence == offset && t < a <= t + cadence
            && forall x: nat :: x % cadence == offset && x > t ==> a <= x
  {
    var a := FirstAnchor(t, offset, cadence);
    var q := if t >= offset then (t - offset) / cadence else 0;
    if t < offset {
      assert (offset - t) / cadence == 0;
      assert a == offset;
      DivModUnique(offset, cadence, 0, offset);
    } else {
      assert q * cadence <= t - offset < q * cadence + cadence;
      DivModUnique(q * cadence + offset, cadence, q, offset);
      assert (q + 1) * cadence == q * cadence + cadence;
      DivModUnique((q + 1) * cadence + offset, cadence, q + 1, offset);
    }
    forall x: nat | x % cadence == offset && x > t
      ensures a <= x
    {
      if x < a { NoneBetween(x, a, cadence); }
    }
  }

  /** Two points of one lattice are a whole cadence apart. */
  lemma NoneBetween(x: nat, a: nat, cadence: Cadence)
    requires x % cadence == a % cadence && x < a
    ensures x + cadence <= a
  {
    var i, j := x / cadence, a / cadence;
    assert x == i * cadence + x % cadence && a == j * cadence + a % cadence;
    if j <= i { MulMonotone(j, i, cadence); }
    MulMonotone(i + 1, j, cadence);
    assert (i + 1) * cadence == i * cadence + cadence;
  }

  lemma StartedIsPoised(cfg: Config, count: nat, cold: nat, startNS: nat)
    ensures Poised(cfg, Started(cfg, count, cold, startNS), startNS)
  {
  }

  lemma StartedAligned(cfg: Config, count: nat, cold: nat, startNS: nat)
    requires OffsetsInRange(cfg)
    ensures Aligned(cfg, Started(cfg, count, cold, startNS))
  {
    StartedIsPoised(cfg, count, cold, startNS);
    PoisedAligned(cfg, Started(cfg, count, cold, startNS), startNS);
  }

  // ---------- Completeness and order ----------

  /** The anchors of one phase, in commit order. */
  function PhaseAnchors(frames: seq<Frame>, p: nat): seq<nat> {
    if frames == [] then []
    else
      PhaseAnchors(frames[..|frames| - 1], p)
      + (if frames[|frames| - 1].phase == p then [frames[|frames| - 1].anchor] else [])
  }

  /** `from`, `from + cadence`, ... as far as `end`. */
  function Lattice(from: nat, cadence: Cadence, end: int): seq<nat>
    decreases end - from
  {
    if from > end then [] else [from] + Lattice(from + cadence, cadence, end)
  }

  /** Extending the lattice up to before `next` by `next` itself. */
  lemma {:induction false} LatticeGrows(from: nat, next: nat, cadence: Cadence)
    requires from <= next && (next - from) % cadence == 0
    ensures Lattice(from, cadence, next) == Lattice(from, cadence, next - 1) + [next]
    ensures Lattice(from, cadence, next + cadence - 1) == Lattice(from, cadence, next)
    decreases next - from
  {
    if from < next {
      AddMultiple(next - from, -1, cadence);
      if next - from < cadence { DivModUnique(next - from, cadence, 0, next - from); }
      LatticeGrows(from + cadence, next, cadence);
    } else {
      assert Lattice(from, cadence, next) == [from] + Lattice(from + cadence, cadence, next);
      assert Lattice(from, cadence, next + cadence - 1) ==
             [from] + Lattice(from + cadence, cadence, next + cadence - 1);
    }
  }

  /** A lattice that has passed `end` but whose last point has not holds exactly the points up to `end`. */
  lemma {:induction false} LatticeReaches(from: nat, next: nat, cadence: Cadence, end: int)
    requires from <= next && (next - from) % cadence == 0 && next > end && (next == from || next - cadence <= end)
    ensures Lattice(from, cadence, next - 1) == Lattice(from, cadence, end)
    decreases next - from
  {
    if from < next {
      AddMultiple(next - from, -1, cadence);
      if next - from < cadence { DivModUnique(next - from, cadence, 0, next - from); }
      if from + cadence < next || from <= end {
        LatticeReaches(from + cadence, next, cadence, end);
      }
    }
  }

  /** How many anchors a phase gets. */
  lemma {:induction false} LatticeCount(from: nat, cadence: Cadence, end: int)
    ensures |Lattice(from, cadence, end)| == if from > end then 0 else (end - from) / cadence + 1
    decreases end - from
  {
    if from <= end {
      LatticeCount(from + cadence, cadence, end);
      AddMultiple(end - from - cadence, 1, cadence);
      if from + cadence > end { DivModUnique(end - from, cadence, 0, end - from); }
    }
  }

  /** Commit order: by anchor, then by phase. */
  predicate Earlier(f: Frame, g: Frame) {
    f.anchor < g.anchor || (f.anchor == g.anchor && f.phase < g.phase)
  }

  ghost predicate InCommitOrder(frames: seq<Frame>) {
    forall i :: 0 <= i < |frames| - 1 ==> Follows(frames, i)
  }

  ghost predicate Follows(frames: seq<Frame>, i: nat)
    requires i + 1 < |frames|
  {
    Earlier(frames[i], frames[i + 1])
  }

  /** Phase `p` has committed its lattice from `firsts[p]` up to before its next anchor, all no later than `b`. */
  ghost predicate PhaseComplete(cfg: Config, firsts: seq<nat>, c: Core, p: nat, b: int)
    requires p < |c.phaseNext| && p < |firsts|
  {
    && firsts[p] <= c.phaseNext[p] && (c.phaseNext[p] - firsts[p]) % cfg.cadence == 0
    && PhaseAnchors(c.frames, p) == Lattice(firsts[p], cfg.cadence, c.phaseNext[p] as int - 1)
    && (c.phaseNext[p] == firsts[p] || c.phaseNext[p] - cfg.cadence <= b)
  }

  /** The last frame is before whatever phase `p` commits next. */
  ghost predicate LastEarlier(c: Core, p: nat)
    requires p < |c.phaseNext|
  {
    c.frames != [] ==>
      var f := c.frames[|c.frames| - 1];
      f.anchor < c.phaseNext[p] || (f.anchor == c.phaseNext[p] && f.phase < p)
  }

  ghost predicate Complete(cfg: Config, firsts: seq<nat>, c: Core, b: int) {
    && |firsts| == |c.phaseNext|
    && InCommitOrder(c.frames)
    && (forall p :: 0 <= p < |c.phaseNext| ==>
        c.phaseNext[p] > 0 && PhaseComplete(cfg, firsts, c, p, b) && LastEarlier(c, p))
  }

  lemma PhaseAnchorsAppend(frames: seq<Frame>, f: Frame, p: nat)
    ensures PhaseAnchors(frames + [f], p) == PhaseAnchors(frames, p) + (if f.phase == p then [f.anchor] else [])
  {
    assert (frames + [f])[..|frames|] == frames;
  }

  lemma CrossKeepsComplete(cfg: Config, firsts: seq<nat>, c: Core, a: int, b: int)
    requires Complete(cfg, firsts, c, b) && NextBoundary(c, a, b) != Nothing
    ensures Complete(cfg, firsts, Cross(cfg, c, NextBoundary(c, a, b)), b)
  {
    var e := NextBoundary(c, a, b);
    var r := Cross(cfg, c, e);
    match e
    case Second =>
      forall p | 0 <= p < |r.phaseNext|
        ensures r.phaseNext[p] > 0 && PhaseComplete(cfg, firsts, r, p, b) && LastEarlier(r, p)
      {
        assert PhaseComplete(cfg, firsts, c, p, b) && LastEarlier(c, p);
      }
    case PhaseAt(q) =>
      hide WalkSyms, WalkRows, Lattice;
      var f := r.frames[|c.frames|];
      assert r.frames == c.frames + [f] && f.phase == q && f.anchor == c.phaseNext[q];
      forall i | 0 <= i < |r.frames| - 1
        ensures Follows(r.frames, i)
      {
        if i < |c.frames| - 1 { assert Follows(c.frames, i); } else { assert LastEarlier(c, q); }
      }
      forall p | 0 <= p < |r.phaseNext|
        ensures r.phaseNext[p] > 0 && PhaseComplete(cfg, firsts, r, p, b) && LastEarlier(r, p)
      {
        assert PhaseComplete(cfg, firsts, c, p, b);
        PhaseAnchorsAppend(c.frames, f, p);
        if p == q {
          LatticeGrows(firsts[p], c.phaseNext[p], cfg.cadence);
          AddMultiple(c.phaseNext[p] - firsts[p], 1, cfg.cadence);
        }
      }
  }

  lemma {:induction false} CloseToKeepsComplete(cfg: Config, firsts: seq<nat>, c: Core, a: int, b: int)
    requires Complete(cfg, firsts, c, b)
    ensures Complete(cfg, firsts, CloseTo(cfg, c, a, b), b)
    decreases Work(c, a, b)
  {
    hide Complete;
    if NextBoundary(c, a, b) != Nothing {
      CrossDecreases(cfg, c, a, b);
      CrossKeepsComplete(cfg, firsts, c, a, b);
      CloseToKeepsComplete(cfg, firsts, Cross(cfg, c, NextBoundary(c, a, b)), a, b);
    }
  }

  lemma CompleteLater(cfg: Config, firsts: seq<nat>, c: Core, d: Core, b: int, b': int)
    requires Complete(cfg, firsts, c, b) && b <= b' && d.phaseNext == c.phaseNext && d.frames == c.frames
    ensures Complete(cfg, firsts, d, b')
  {
    forall p | 0 <= p < |d.phaseNext|
      ensures PhaseComplete(cfg, firsts, d, p, b') && LastEarlier(d, p)
    {
      assert PhaseComplete(cfg, firsts, c, p, b) && LastEarlier(c, p);
    }
  }

  lemma {:induction false} CanonKeepsComplete(cfg: Config, firsts: seq<nat>, c: Core, ticks: seq<Tick>, end: int)
    requires Complete(cfg, firsts, c, end) && NoneAfter(ticks, end)
    ensures Complete(cfg, firsts, Canon(cfg, c, ticks, end), end)
    decreases ticks
  {
    hide Complete, NoneAfter;
    if ticks == [] {
      CloseToKeepsComplete(cfg, firsts, c, end, end);
    } else {
      var t := ticks[0];
      TailNotAfter(ticks, end);
      CloseWithin(cfg, firsts, c, t.ts, end);
      var c1 := CloseTo(cfg, c, t.ts, t.ts - 1);
      CompleteLater(cfg, firsts, c1, CrossAndTake(cfg, c, t), end, end);
      CanonKeepsComplete(cfg, firsts, CrossAndTake(cfg, c, t), ticks[1..], end);
    }
  }

  lemma TailNotAfter(ticks: seq<Tick>, end: int)
    requires ticks != [] && NoneAfter(ticks, end)
    ensures NoneAfter(ticks[1..], end) && ticks[0].ts <= end
  {
  }

  lemma {:induction false} CloseWithin(cfg: Config, firsts: seq<nat>, c: Core, ts: nat, end: int)
    requires Complete(cfg, firsts, c, end) && ts <= end
    ensures Complete(cfg, firsts, CloseTo(cfg, c, ts, ts - 1), end)
    decreases Work(c, ts, ts - 1)
  {
    hide Complete;
    var e := NextBoundary(c, ts, ts - 1);
    if e != Nothing {
      CrossDecreases(cfg, c, ts, ts - 1);
      NextIsStable(c, ts, ts - 1, end, end);
      CrossKeepsComplete(cfg, firsts, c, end, end);
      CloseWithin(cfg, firsts, Cross(cfg, c, e), ts, end);
    }
  }

  /** The anchors a phase must commit: every lattice point in (start, end]. */
  function Expected(cfg: Config, startNS: nat, end: int, p: nat): seq<nat>
    requires p < |cfg.phases|
  {
    Lattice(FirstAnchor(startNS, cfg.phases[p].offset, cfg.cadence), cfg.cadence, end)
  }

  /** A projector with a start anchor set that has committed nothing yet; ticks from before the window may
      already have changed the symbols' histories. */
  ghost predicate Poised(cfg: Config, c: Core, startNS: nat) {
    && c.frames == [] && |c.phaseNext| == |cfg.phases|
    && c.nextSecond == FirstAnchor(startNS, 0, cfg.cadence) && SymsAt(c.syms, c.nextSecond)
    && forall p :: 0 <= p < |cfg.phases| ==> c.phaseNext[p] == FirstAnchor(startNS, cfg.phases[p].offset, cfg.cadence)
  }

  lemma PoisedAligned(cfg: Config, c: Core, startNS: nat)
    requires OffsetsInRange(cfg) && Poised(cfg, c, startNS)
    ensures Aligned(cfg, c)
  {
    FirstAnchorIsLeast(startNS, 0, cfg.cadence);
    assert c.nextSecond % cfg.cadence == 0 && c.nextSecond > 0;
    if c.nextSecond < cfg.cadence { DivModUnique(c.nextSecond, cfg.cadence, 0, c.nextSecond); }
    forall p | 0 <= p < |c.phaseNext|
      ensures PhaseAhead(cfg, c, p)
    {
      FirstAnchorIsLeast(startNS, cfg.phases[p].offset, cfg.cadence);
    }
  }

  /** Scheduler completeness: after any run flushed to `end`, each phase has committed every lattice anchor
      in (start, end] exactly once and no other, and all commits are in (anchor, phase) order. */
  lemma EveryAnchorOnce(cfg: Config, c: Core, startNS: nat, ticks: seq<Tick>, end: int)
    requires OffsetsInRange(cfg) && Poised(cfg, c, startNS) && NoneAfter(ticks, end)
    ensures var r := Canon(cfg, c, ticks, end);
            && InCommitOrder(r.frames)
            && forall p :: 0 <= p < |cfg.phases| ==> PhaseAnchors(r.frames, p) == Expected(cfg, startNS, end, p)
  {
    var firsts := c.phaseNext;
    PoisedAligned(cfg, c, startNS);
    forall p | 0 <= p < |c.phaseNext|
      ensures c.phaseNext[p] > 0 && PhaseComplete(cfg, firsts, c, p, end) && LastEarlier(c, p)
    {
    }
    CanonKeepsComplete(cfg, firsts, c, ticks, end);
    CanonStaysAligned(cfg, c, ticks, end);
    var r := Canon(cfg, c, ticks, end);
    forall p | 0 <= p < |cfg.phases|
      ensures PhaseAnchors(r.frames, p) == Expected(cfg, startNS, end, p)
    {
      assert PhaseComplete(cfg, firsts, r, p, end);
      assert r.phaseNext[p] > end;
      LatticeReaches(firsts[p], r.phaseNext[p], cfg.cadence, end);
    }
  }

  // ---------- How many frames a window gets ----------

  ghost predicate PhasesInRange(frames: seq<Frame>, n: nat) {
    forall i :: 0 <= i < |frames| ==> frames[i].phase < n
  }

  lemma {:induction false} CloseToPhases(cfg: Config, c: Core, a: int, b: int)
    requires PhasesInRange(c.frames, |c.phaseNext|)
    ensures var r := CloseTo(cfg, c, a, b); |r.phaseNext| == |c.phaseNext| && PhasesInRange(r.frames, |r.phaseNext|)
    decreases Work(c, a, b)
  {
    if NextBoundary(c, a, b) != Nothing {
      hide WalkSyms, WalkRows, CloseAll;
      CrossDecreases(cfg, c, a, b);
      CloseToPhases(cfg, Cross(cfg, c, NextBoundary(c, a, b)), a, b);
    }
  }

  lemma {:induction false} CanonPhases(cfg: Config, c: Core, ticks: seq<Tick>, end: int)
    requires PhasesInRange(c.frames, |c.phaseNext|)
    ensures var r := Canon(cfg, c, ticks, end); |r.phaseNext| == |c.phaseNext| && PhasesInRange(r.frames, |r.phaseNext|)
    decreases ticks
  {
    hide CloseTo;
    if ticks == [] {
      CloseToPhases(cfg, c, end, end);
    } else {
      var t := ticks[0];
      CloseToPhases(cfg, c, t.ts, t.ts - 1);
      CanonPhases(cfg, CrossAndTake(cfg, c, t), ticks[1..], end);
    }
  }

  /** Frames of the first `n` phases. */
  function Tally(frames: seq<Frame>, n: nat): nat {
    if n == 0 then 0 else Tally(frames, n - 1) + |PhaseAnchors(frames, n - 1)|
  }

  lemma {:induction false} TallyAppend(frames: seq<Frame>, f: Frame, n: nat)
    ensures Tally(frames + [f], n) == Tally(frames, n) + (if f.phase < n then 1 else 0)
  {
    if n > 0 {
      TallyAppend(frames, f, n - 1);
      PhaseAnchorsAppend(frames, f, n - 1);
    }
  }

  lemma {:induction false} TallyIsAll(frames: seq<Frame>, n: nat)
    requires PhasesInRange(frames, n)
    ensures Tally(frames, n) == |frames|
  {
    if frames == [] {
      TallyOfNone(n);
    } else {
      var front, f := frames[..|frames| - 1], frames[|frames| - 1];
      TallyIsAll(front, n);
      TallyAppend(front, f, n);
      assert front + [f] == frames;
    }
  }

  lemma {:induction false} TallyOfNone(n: nat)
    ensures Tally([], n) == 0
  {
    if n > 0 { TallyOfNone(n - 1); }
  }

  /** Number of anchors of phase `p` in (start, end]. */
  function AnchorCount(cfg: Config, startNS: nat, end: int, p: nat): nat
    requires p < |cfg.phases|
  {
    var first := FirstAnchor(startNS, cfg.phases[p].offset, cfg.cadence);
    if first > end then 0 else (end - first) / cfg.cadence + 1
  }

  /** Number of anchors of the first `n` phases in (start, end]. */
  function AnchorTotal(cfg: Config, startNS: nat, end: int, n: nat): nat
    requires n <= |cfg.phases|
  {
    if n == 0 then 0 else AnchorTotal(cfg, startNS, end, n - 1) + AnchorCount(cfg, startNS, end, n - 1)
  }

  lemma {:induction false} TallyExpected(cfg: Config, startNS: nat, end: int, frames: seq<Frame>, n: nat)
    requires n <= |cfg.phases| && forall p :: 0 <= p < |cfg.phases| ==>
             PhaseAnchors(frames, p) == Expected(cfg, startNS, end, p)
    ensures Tally(frames, n) == AnchorTotal(cfg, startNS, end, n)
  {
    if n > 0 {
      TallyExpected(cfg, startNS, end, frames, n - 1);
      LatticeCount(FirstAnchor(startNS, cfg.phases[n - 1].offset, cfg.cadence), cfg.cadence, end);
    }
  }

  /** A window flushed to its end has committed exactly as many frames as there are phase anchors in
      (start, end], whatever the ticks. */
  lemma FrameCount(cfg: Config, c: Core, startNS: nat, ticks: seq<Tick>, end: int)
    requires OffsetsInRange(cfg) && Poised(cfg, c, startNS) && NoneAfter(ticks, end)
    ensures |Canon(cfg, c, ticks, end).frames| == AnchorTotal(cfg, startNS, end, |cfg.phases|)
  {
    EveryAnchorOnce(cfg, c, startNS, ticks, end);
    CanonPhases(cfg, c, ticks, end);
    var r := Canon(cfg, c, ticks, end);
    hide Canon, Expected;
    TallyIsAll(r.frames, |cfg.phases|);
    TallyExpected(cfg, startNS, end, r.frames, |cfg.phases|);
  }

  // ---------- Cold start ----------

  /** Frame `i` is flagged exactly if fewer than `k` frames of the last phase come before it. */
  ghost predicate FlaggedRight(cfg: Config, frames: seq<Frame>, k: nat, i: nat)
    requires i < |frames| && |cfg.phases| > 0
  {
    frames[i].cold == (|PhaseAnchors(frames[..i], |cfg.phases| - 1)| < k)
  }

  ghost predicate ColdRight(cfg: Config, c: Core, k: nat) {
    && |cfg.phases| > 0
    && c.cold ==
       (if |PhaseAnchors(c.frames, |cfg.phases| - 1)| < k then k - |PhaseAnchors(c.frames, |cfg.phases| - 1)| else 0)
    && forall i :: 0 <= i < |c.frames| ==> FlaggedRight(cfg, c.frames, k, i)
  }

  lemma CrossKeepsCold(cfg: Config, c: Core, k: nat, e: Boundary)
    requires ColdRight(cfg, c, k) && (e.PhaseAt? ==> e.p < |c.phaseNext|)
    ensures ColdRight(cfg, Cross(cfg, c, e), k)
  {
    if e.PhaseAt? {
      hide WalkSyms, WalkRows;
      var r := Cross(cfg, c, e);
      var f := r.frames[|c.frames|];
      assert r.frames == c.frames + [f];
      PhaseAnchorsAppend(c.frames, f, |cfg.phases| - 1);
      forall i | 0 <= i < |r.frames|
        ensures FlaggedRight(cfg, r.frames, k, i)
      {
        assert r.frames[..i] == c.frames[..i];
        if i < |c.frames| { assert FlaggedRight(cfg, c.frames, k, i); } else { assert c.frames[..i] == c.frames; }
      }
    }
  }

  lemma {:induction false} CloseToKeepsCold(cfg: Config, c: Core, k: nat, a: int, b: int)
    requires ColdRight(cfg, c, k)
    ensures ColdRight(cfg, CloseTo(cfg, c, a, b), k)
    decreases Work(c, a, b)
  {
    hide ColdRight;
    var e := NextBoundary(c, a, b);
    if e != Nothing {
      CrossDecreases(cfg, c, a, b);
      CrossKeepsCold(cfg, c, k, e);
      CloseToKeepsCold(cfg, Cross(cfg, c, e), k, a, b);
    }
  }

  /** The cold-start countdown: in any run that starts with `k` cold bars, exactly the frames committed
      before the last phase has committed `k` bars carry the cold-start flag. */
  lemma {:induction false} ColdStartFlags(cfg: Config, c: Core, k: nat, ticks: seq<Tick>, end: int)
    requires ColdRight(cfg, c, k)
    ensures ColdRight(cfg, Canon(cfg, c, ticks, end), k)
    decreases ticks
  {
    if ticks == [] {
      CloseToKeepsCold(cfg, c, k, end, end);
    } else {
      CloseToKeepsCold(cfg, c, k, ticks[0].ts, ticks[0].ts - 1);
      ColdStartFlags(cfg, CrossAndTake(cfg, c, ticks[0]), k, ticks[1..], end);
    }
  }
}
