/** Servicing one chunk request: which ticks of the merged stream are replayed, and what count comes back. */
module ChunkWindow {
  import opened Feed
  import opened SymbolHistory
  import opened Schedule
  import opened Replay
  import opened Frames

  // ---------- The window of the stream ----------

  /** The first place from `i` on with a tick at or after the start. */
  function FirstFrom(ticks: seq<Tick>, i: nat, start: nat): (r: nat)
    requires i <= |ticks|
    ensures i <= r <= |ticks| && (forall k :: i <= k < r ==> ticks[k].ts < start)
            && (r < |ticks| ==> ticks[r].ts >= start)
    decreases |ticks| - i
  {
    if i < |ticks| && ticks[i].ts < start then FirstFrom(ticks, i + 1, start) else i
  }

  /** The first place from `i` on with a tick after the end. */
  function FirstAfter(ticks: seq<Tick>, i: nat, end: int): (r: nat)
    requires i <= |ticks|
    ensures i <= r <= |ticks| && (forall k :: i <= k < r ==> ticks[k].ts <= end) && (r < |ticks| ==> ticks[r].ts > end)
    decreases |ticks| - i
  {
    if i < |ticks| && ticks[i].ts <= end then FirstAfter(ticks, i + 1, end) else i
  }

  /** What is ingested: the first tick at or after the start if it is not past the end, then the following ones
      until one is. */
  function Window(ticks: seq<Tick>, start: nat, end: int): seq<Tick> {
    var i := FirstFrom(ticks, 0, start);
    if i == |ticks| then []
    else (if ticks[i].ts <= end then [ticks[i]] else []) + ticks[i + 1..FirstAfter(ticks, i + 1, end)]
  }

  function Between(ticks: seq<Tick>, start: int, end: int): seq<Tick> {
    if ticks == [] then []
    else (if start <= ticks[0].ts <= end then [ticks[0]] else []) + Between(ticks[1..], start, end)
  }

  lemma TailInTimeOrder(ticks: seq<Tick>)
    requires InTimeOrder(ticks) && ticks != []
    ensures InTimeOrder(ticks[1..]) && forall i :: 1 <= i < |ticks| ==> ticks[0].ts <= ticks[i].ts
  {
    var r := ticks[1..];
    forall i, j | 0 <= i < j < |r|
      ensures Before(r, i, j)
    {
      assert Before(ticks, i + 1, j + 1);
    }
    forall i | 1 <= i < |ticks|
      ensures ticks[0].ts <= ticks[i].ts
    {
      assert Before(ticks, 0, i);
    }
  }

  /** If exactly the places from `lo` to before `hi` are in range, they are what a filter keeps. */
  lemma {:induction false} BetweenIsSlice(ticks: seq<Tick>, start: int, end: int, lo: nat, hi: nat)
    requires lo <= hi <= |ticks|
    requires forall k :: 0 <= k < |ticks| ==> (start <= ticks[k].ts <= end <==> lo <= k < hi)
    ensures Between(ticks, start, end) == ticks[lo..hi]
  {
    if ticks != [] {
      var rest := ticks[1..];
      if lo > 0 {
        BetweenIsSlice(rest, start, end, lo - 1, hi - 1);
        assert rest[lo - 1..hi - 1] == ticks[lo..hi];
      } else if hi > 0 {
        BetweenIsSlice(rest, start, end, 0, hi - 1);
        assert ticks[0..hi] == [ticks[0]] + rest[0..hi - 1];
      } else {
        BetweenIsSlice(rest, start, end, 0, 0);
      }
    }
  }

  /** Where the ingested ticks end. */
  function WindowEnd(ticks: seq<Tick>, lo: nat, end: int): (hi: nat)
    requires lo <= |ticks|
    ensures lo <= hi <= |ticks| && (hi < |ticks| ==> ticks[hi].ts > end) && (lo < hi ==> ticks[hi - 1].ts <= end)
  {
    if lo == |ticks| || ticks[lo].ts > end then lo else FirstAfter(ticks, lo + 1, end)
  }

  lemma WindowIsSlice(ticks: seq<Tick>, start: nat, end: int)
    requires InTimeOrder(ticks)
    ensures var lo := FirstFrom(ticks, 0, start); Window(ticks, start, end) == ticks[lo..WindowEnd(ticks, lo, end)]
  {
    var lo := FirstFrom(ticks, 0, start);
    if lo < |ticks| && ticks[lo].ts > end && lo + 1 < |ticks| { assert Before(ticks, lo, lo + 1); }
  }

  /** On a stream in time order the window is exactly the ticks in [start, end]. */
  lemma WindowIsBetween(ticks: seq<Tick>, start: nat, end: int)
    requires InTimeOrder(ticks)
    ensures Window(ticks, start, end) == Between(ticks, start, end)
  {
    var lo := FirstFrom(ticks, 0, start);
    var hi := WindowEnd(ticks, lo, end);
    WindowIsSlice(ticks, start, end);
    hide Window, Between, FirstFrom, WindowEnd;
    forall k | 0 <= k < |ticks|
      ensures start <= ticks[k].ts <= end <==> lo <= k < hi
    {
      if lo < k { assert Before(ticks, lo, k); }
      if hi < k { assert Before(ticks, hi, k); }
      if lo <= k < hi - 1 { assert Before(ticks, k, hi - 1); }
    }
    BetweenIsSlice(ticks, start, end, lo, hi);
  }

  method SkipBefore(merged: seq<Tick>, start: nat) returns (i: nat)
    ensures i == FirstFrom(merged, 0, start)
  {
    i := 0;
    while i < |merged| && merged[i].ts < start
      invariant i <= |merged| && FirstFrom(merged, i, start) == FirstFrom(merged, 0, start)
    {
      i := i + 1;
    }
  }

  method SkipWithin(merged: seq<Tick>, from: nat, end: int) returns (j: nat)
    requires from <= |merged|
    ensures j == FirstAfter(merged, from, end)
  {
    j := from;
    while j < |merged| && merged[j].ts <= end
      invariant from <= j <= |merged| && FirstAfter(merged, j, end) == FirstAfter(merged, from, end)
    {
      j := j + 1;
    }
  }

  /** The warm-up sweep and the window loop over the merged stream. */
  method SplitStream(merged: seq<Tick>, start: nat, end: int) returns (pre: seq<Tick>, window: seq<Tick>)
    ensures pre == merged[..FirstFrom(merged, 0, start)] && window == Window(merged, start, end)
  {
    var i := SkipBefore(merged, start);
    pre, window := merged[..i], [];
    if i < |merged| {
      var j := SkipWithin(merged, i + 1, end);
      window := (if merged[i].ts <= end then [merged[i]] else []) + merged[i + 1..j];
    }
  }

  // ---------- The count ----------

  /** The projector after the window has been replayed and flushed to its end. */
  function Serviced(cfg: Config, c: Core, window: seq<Tick>, end: int): Core {
    CloseTo(cfg, ReplayAll(cfg, c, window), end, end)
  }

  lemma {:induction false} BetweenInOrder(ticks: seq<Tick>, start: int, end: int)
    requires InTimeOrder(ticks)
    ensures NoneAfter(Between(ticks, start, end), end) && InTimeOrder(Between(ticks, start, end))
    ensures forall i :: 0 <= i < |Between(ticks, start, end)| ==> Between(ticks, start, end)[i] in ticks
  {
    if ticks != [] {
      TailInTimeOrder(ticks);
      BetweenInOrder(ticks[1..], start, end);
      var rest, all := Between(ticks[1..], start, end), Between(ticks, start, end);
      forall i, j | 0 <= i < j < |all|
        ensures Before(all, i, j)
      {
        if all != rest {
          if i == 0 {
            assert all[j] == rest[j - 1] && rest[j - 1] in ticks[1..];
          } else {
            assert Before(rest, i - 1, j - 1);
          }
        } else {
          assert Before(rest, i, j);
        }
      }
    }
  }

  /** A chunk request without errors and with zero watermark reports exactly the number of phase anchors in
      (start, end], whatever ticks the day holds. */
  lemma ChunkCount(cfg: Config, c: Core, merged: seq<Tick>, start: nat, end: int)
    requires OffsetsInRange(cfg) && Poised(cfg, c, start) && InTimeOrder(merged)
    ensures |Serviced(cfg, c, Window(merged, start, end), end).frames| == AnchorTotal(cfg, start, end, |cfg.phases|)
  {
    WindowIsBetween(merged, start, end);
    BetweenInOrder(merged, start, end);
    var window := Between(merged, start, end);
    PoisedAligned(cfg, c, start);
    ReplayIsCanon(cfg, c, window, end);
    FrameCount(cfg, c, start, window, end);
  }
}
