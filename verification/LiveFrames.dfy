/** Which frames a live run has committed, however late its ticks arrive: the flushes alone decide it. */
module LiveFrames {
  import opened Feed
  import opened Schedule
  import opened Replay
  import opened Frames
  import opened Live

  /** The scheduler after everything up to `b` has been flushed. */
  ghost predicate FlushedTo(cfg: Config, firsts: seq<nat>, c: Core, b: int) {
    Aligned(cfg, c) && Complete(cfg, firsts, c, b) && NextBoundary(c, b, b) == Nothing
  }

  lemma {:induction false} DueNotAfter(q: seq<Item>, limit: int)
    ensures NoneAfter(Ticks(Due(q, limit)), limit)
  {
    if q != [] && q[0].tick.ts <= limit { DueNotAfter(q[1..], limit); }
  }

  /** A tick behind the point already flushed to crosses nothing; it is taken late. */
  lemma TakeBehind(cfg: Config, c: Core, t: Tick, b: int)
    requires NextBoundary(c, b, b) == Nothing && t.ts <= b
    ensures var r := CrossAndTake(cfg, c, t);
            r.phaseNext == c.phaseNext && r.frames == c.frames && NextBoundary(r, b, b) == Nothing
  {
    if NextBoundary(c, t.ts, t.ts - 1) != Nothing { NextIsStable(c, t.ts, t.ts - 1, b, b); }
  }

  /** Flushing again to a point already passed, with whatever has arrived behind it, commits nothing. */
  lemma {:induction false} CanonBehind(cfg: Config, c: Core, ticks: seq<Tick>, end: int, b: int)
    requires NextBoundary(c, b, b) == Nothing && end <= b && NoneAfter(ticks, end)
    ensures var r := Canon(cfg, c, ticks, end);
            r.phaseNext == c.phaseNext && r.frames == c.frames && NextBoundary(r, b, b) == Nothing
    decreases ticks
  {
    hide NextBoundary, CrossAndTake;
    if ticks == [] {
      if NextBoundary(c, end, end) != Nothing { NextIsStable(c, end, end, b, b); }
    } else {
      TailNotAfter(ticks, end);
      TakeBehind(cfg, c, ticks[0], b);
      CanonBehind(cfg, CrossAndTake(cfg, c, ticks[0]), ticks[1..], end, b);
    }
  }

  lemma FlushStepComplete(cfg: Config, firsts: seq<nat>, s: Pending, b: int, end: int)
    requires FlushedTo(cfg, firsts, s.core, b)
    ensures FlushedTo(cfg, firsts, Flush(cfg, s, end).core, if end > b then end else b)
  {
    hide Flush, Canon, Due, Rest, Complete, Aligned, NextBoundary, Ticks;
    var ticks := Ticks(Due(s.queue, end));
    FlushIsCanon(cfg, s, end);
    DueNotAfter(s.queue, end);
    CanonStaysAligned(cfg, s.core, ticks, end);
    if end > b {
      CompleteLater(cfg, firsts, s.core, s.core, b, end);
      CanonKeepsComplete(cfg, firsts, s.core, ticks, end);
    } else {
      CanonBehind(cfg, s.core, ticks, end, b);
      CompleteLater(cfg, firsts, s.core, Canon(cfg, s.core, ticks, end), b, b);
    }
  }

  lemma {:induction false} RunComplete(cfg: Config, c: Core, ops: seq<Op>)
    requires FlushedTo(cfg, c.phaseNext, c, -1)
    ensures FlushedTo(cfg, c.phaseNext, LiveRun(cfg, c, ops).pending.core, Flushed(ops))
  {
    if ops != [] {
      hide FlushedTo, Flush, Insert, Tracks;
      var before := ops[..|ops| - 1];
      RunComplete(cfg, c, before);
      match ops[|ops| - 1]
      case Arrive(_) =>
      case FlushTo(end) => FlushStepComplete(cfg, c.phaseNext, LiveRun(cfg, c, before).pending, Flushed(before), end);
    }
  }

  lemma PoisedIsFlushed(cfg: Config, c: Core, startNS: nat)
    requires OffsetsInRange(cfg) && Poised(cfg, c, startNS)
    ensures FlushedTo(cfg, c.phaseNext, c, -1)
  {
    PoisedAligned(cfg, c, startNS);
    forall p | 0 <= p < |c.phaseNext|
      ensures c.phaseNext[p] > 0 && PhaseComplete(cfg, c.phaseNext, c, p, -1) && LastEarlier(c, p)
    {
    }
  }

  /** Live completeness. After any live run whatever, with any arrivals, late ones too, and any flushes, repeated and
      backward ones too, each phase has committed every lattice anchor in (start, T] exactly once and no other,
      where T is the latest point flushed to, and all commits are in (anchor, phase) order. */
  lemma EveryAnchorOnceLive(cfg: Config, c: Core, startNS: nat, ops: seq<Op>)
    requires OffsetsInRange(cfg) && Poised(cfg, c, startNS)
    ensures var frames := LiveRun(cfg, c, ops).pending.core.frames;
            && InCommitOrder(frames)
            && forall p :: 0 <= p < |cfg.phases| ==> PhaseAnchors(frames, p) == Expected(cfg, startNS, Flushed(ops), p)
  {
    hide LiveRun, Flushed, PhaseAnchors, Lattice;
    var firsts, r, end := c.phaseNext, LiveRun(cfg, c, ops).pending.core, Flushed(ops);
    PoisedIsFlushed(cfg, c, startNS);
    RunComplete(cfg, c, ops);
    forall p | 0 <= p < |cfg.phases|
      ensures PhaseAnchors(r.frames, p) == Expected(cfg, startNS, end, p)
    {
      assert PhaseComplete(cfg, firsts, r, p, end);
      assert r.phaseNext[p] > end;
      LatticeReaches(firsts[p], r.phaseNext[p], cfg.cadence, end);
    }
  }

  /** No event takes a committed frame back or changes it. */
  lemma FramesOnlyGrow(cfg: Config, c: Core, startNS: nat, ops: seq<Op>, op: Op)
    requires OffsetsInRange(cfg) && Poised(cfg, c, startNS)
    ensures LiveRun(cfg, c, ops).pending.core.frames <= LiveRun(cfg, c, ops + [op]).pending.core.frames
  {
    PoisedIsFlushed(cfg, c, startNS);
    RunComplete(cfg, c, ops);
    assert (ops + [op])[..|ops|] == ops;
    hide Poised, Complete, Flush, Canon, Insert, Aligned;
    if op.FlushTo? {
      var s := LiveRun(cfg, c, ops).pending;
      FlushIsCanon(cfg, s, op.end);
      CanonExtendsFrames(cfg, s.core, Ticks(Due(s.queue, op.end)), op.end);
    }
  }
}
