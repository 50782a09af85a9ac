/** The 250 ms tracker field by field, with its four prefix rings and the bar ring in shared memory.
    Its `View` follows the functions of module Tracker exactly. */
module Tracker250 {
  import opened Baseline
  import opened Tracker

  lemma JumpWithin(s: State, target: int)
    requires target >= |s.cols|
    ensures |s.cols| <= JumpTo(s, target) <= target && |Jump(s, target).cols| == JumpTo(s, target)
    ensures Jump(s, target).last == s.last
  {
  }

  class Tracker250ms {
    const env: Env
    var openNS: int
    var openSet: bool
    var nextCol: nat
    var lastClosedCol: int
    var quote: Quote
    var first: FirstValid
    var mid: Mid
    var curLitBuyVol: real
    var curLitSellVol: real
    const nb: PrefixRing
    const ns: PrefixRing
    const qb: PrefixRing
    const qs: PrefixRing
    var lastCnt15m: real
    var lastQ15m: real
    /** `Bars` of the shared ring. */
    const bars: array<Bar>
    /** SeqLock counter of the shared ring and the header it guards. */
    var ringSeq: nat
    var ringHeader: Header

    ghost var cols: seq<Col>
    ghost var trail: Trail

    ghost function SumsView(): Sums
      reads nb, ns, qb, qs, nb.slots, ns.slots, qb.slots, qs.slots
    {
      Sums(nb.View(), ns.View(), qb.View(), qs.View())
    }

    ghost function View(): State
      reads this, bars, nb, ns, qb, qs, nb.slots, ns.slots, qb.slots, qs.slots
    {
      State(openSet, openNS, cols, lastClosedCol, Col(curLitBuyVol, curLitSellVol), quote, first, mid,
            SumsView(), lastCnt15m, lastQ15m, bars[..], trail)
    }

    ghost predicate Separate()
      reads this
    {
      && nb != ns && nb != qb && nb != qs && ns != qb && ns != qs && qb != qs
      && nb.slots != ns.slots && nb.slots != qb.slots && nb.slots != qs.slots
      && ns.slots != qb.slots && ns.slots != qs.slots && qb.slots != qs.slots
      && nb.slots.Length == SLOTS && ns.slots.Length == SLOTS && qb.slots.Length == SLOTS && qs.slots.Length == SLOTS
    }

    ghost predicate Consistent()
      reads this
    {
      Separate() && nextCol == |cols| && lastClosedCol < nextCol && bars.Length == RING_BARS
    }

    /** The invariant between calls. */
    ghost predicate Valid()
      reads this
    {
      Consistent() && (lastClosedCol < 0 ==> nextCol == 0)
    }

    constructor (env: Env)
      ensures Valid() && this.env == env && View() == INITIAL && ringHeader == HeaderOf(INITIAL)
    {
      this.env := env;
      openNS, openSet, nextCol, lastClosedCol := 0, false, 0, -1;
      quote, first, mid := Quote(false, 0.0, 0.0, 0, 0), FirstValid(-1, 0, 0), Mid(false, 10000.0);
      curLitBuyVol, curLitSellVol, lastCnt15m, lastQ15m := 0.0, 0.0, 1.0, 1.0;
      nb := new PrefixRing();
      ns := new PrefixRing();
      qb := new PrefixRing();
      qs := new PrefixRing();
      bars := new Bar[RING_BARS](_ => NO_BAR);
      ringSeq, ringHeader := 2, HeaderOf(INITIAL);
      cols, trail := [], INITIAL.trail;
      new;
      assert bars[..] == EmptyBars();
    }

    /** One round of the closing loop. */
    method CloseBucket()
      requires Consistent()
      modifies this`nextCol, this`lastClosedCol, this`first, this`mid, this`curLitBuyVol, this`curLitSellVol,
               this`lastCnt15m, this`lastQ15m, this`cols, this`trail, bars,
               nb, ns, qb, qs, nb.slots, ns.slots, qb.slots, qs.slots
      ensures Consistent() && View() == CloseColumn(env, old(View()))
      ensures nextCol == old(nextCol) + 1 && lastClosedCol == old(nextCol)
    {
      hide PutBar, BackfillAll, CloseTrail, SumsView, CountOf, RootOf;
      var b := nextCol;
      var vb, vs := curLitBuyVol, curLitSellVol;
      var cnt15m, q15m := CloseSums(b, vb, vs);
      StoreBar(b, vb, vs, cnt15m, q15m);
    }

    /** Adds the column's weights to the four prefix rings and takes the baselines from them. */
    method CloseSums(b: nat, vb: real, vs: real) returns (cnt15m: real, q15m: real)
      requires Separate()
      modifies nb, ns, qb, qs, nb.slots, ns.slots, qb.slots, qs.slots
      ensures SumsView() == Tracker.CloseSums(env, old(SumsView()), b, Col(vb, vs))
      ensures cnt15m == CountOf(SumsView(), b) && q15m == RootOf(SumsView(), b)
    {
      hide Steps, Baseline.Push, Baseline.Window;
      var n1 := CountSteps(vb);
      var n2 := CountSteps(vs);
      cnt15m := ClosePair(nb, ns, b, n1, n2);
      q15m := ClosePair(qb, qs, b, if vb > 0.0 then env.sqrt(vb) else 0.0, if vs > 0.0 then env.sqrt(vs) else 0.0);
    }

    /** Closes one column of a buy and a sell ring; their window sums together are at least 1. */
    method ClosePair(r: PrefixRing, q: PrefixRing, b: nat, x: real, y: real) returns (w: real)
      requires r != q && r.slots != q.slots && r.slots.Length == SLOTS && q.slots.Length == SLOTS
      modifies r, r.slots, q, q.slots
      ensures r.View() == Push(old(r.View()), b, x) && q.View() == Push(old(q.View()), b, y)
      ensures w == AtLeastOne(Window(r.View(), b) + Window(q.View(), b))
    {
      hide Baseline.Push, Baseline.Window;
      var w1 := r.Close(b, x);
      var w2 := q.Close(b, y);
      w := w1 + w2;
      if w < 1.0 {
        w := 1.0;
      }
    }

    method CountSteps(v: real) returns (n: real)
      ensures n == Steps(v)
    {
      n := 0.0;
      if v > 0.0 {
        n := n + 1.0;
        if v >= 200.0 {
          n := n + 1.0;
        }
        if v >= 800.0 {
          n := n + 1.0;
        }
      }
    }

    /** The rest of the round: first valid quote, midpoint, and the bar with its backfill. */
    method StoreBar(b: nat, vb: real, vs: real, cnt15m: real, q15m: real)
      requires Consistent() && nextCol == b
      modifies this`nextCol, this`lastClosedCol, this`first, this`mid, this`curLitBuyVol, this`curLitSellVol,
               this`lastCnt15m, this`lastQ15m, this`cols, this`trail, bars
      ensures Consistent() && View() == CloseWith(old(View()).(cur := Col(vb, vs)), SumsView(), cnt15m, q15m)
      ensures nextCol == b + 1 && lastClosedCol == b && SumsView() == old(SumsView())
    {
      hide BackfillAll, PutBar, CloseTrail, SumsView;
      StoreFields(b, vb, vs, cnt15m, q15m);
      var bar := Bar(b, quote.bidTicks, quote.askTicks, Col(vb, vs), cnt15m, q15m, mid.ticks);
      PutAndBackfill(bar, first.col == b && b > 0);
    }

    /** All fields of the tracker as of the close of column `b`. */
    method StoreFields(b: nat, vb: real, vs: real, cnt15m: real, q15m: real)
      requires Consistent() && nextCol == b
      modifies this`nextCol, this`lastClosedCol, this`first, this`mid, this`curLitBuyVol, this`curLitSellVol,
               this`lastCnt15m, this`lastQ15m, this`cols, this`trail
      ensures Consistent() && nextCol == b + 1 && lastClosedCol == b
      ensures first == old(NextFirst(View())) && mid == old(NextMid(View()))
      ensures curLitBuyVol == 0.0 && curLitSellVol == 0.0 && lastCnt15m == cnt15m && lastQ15m == q15m
      ensures cols == old(cols) + [Col(vb, vs)] && trail == CloseTrail(old(trail), b)
    {
      hide CloseTrail, SumsView, NextFirst, NextMid;
      UpdateMarks(b, View());
      curLitBuyVol, curLitSellVol := 0.0, 0.0;
      lastCnt15m, lastQ15m, lastClosedCol, nextCol := cnt15m, q15m, b, b + 1;
      cols, trail := cols + [Col(vb, vs)], CloseTrail(trail, b);
    }

    /** First valid quote and midpoint as of the close of column `b`. */
    method UpdateMarks(b: nat, ghost s: State)
      requires |s.cols| == b && s.quote == quote && s.first == first && s.mid == mid
      modifies this`first, this`mid
      ensures first == NextFirst(s) && mid == NextMid(s)
    {
      if quote.has && first.col < 0 {
        first := FirstValid(b, quote.bidTicks, quote.askTicks);
      }
      if quote.bidTicks > 0 && quote.askTicks > quote.bidTicks {
        mid := Mid(true, 0.5 * ((quote.bidTicks + quote.askTicks) as real));
      } else if !mid.has {
        mid := Mid(false, 10000.0);
      }
    }

    method PutAndBackfill(bar: Bar, backfill: bool)
      requires bars.Length == RING_BARS && bar.col >= 0 && bar.bid == quote.bidTicks && bar.ask == quote.askTicks
      modifies bars
      ensures var put := PutBar(old(bars[..]), bar.col % RING_BARS, bar);
              bars[..] == if backfill then BackfillAll(put, bar.col, bar.bid, bar.ask) else put
    {
      ghost var put := PutBar(bars[..], bar.col % RING_BARS, bar);
      bars[bar.col % RING_BARS] := bar;
      assert bars[..] == put;
      if backfill {
        BackfillBars(bar.col);
      }
    }

    /** Jumps if the way to `target` calls for it; of the tracker's own fields only `nextCol` moves. */
    method JumpAhead(target: int)
      requires Valid() && target >= nextCol
      modifies this`nextCol, this`cols, this`trail
      ensures Consistent() && View() == Jump(old(View()), target) && nextCol == JumpTo(old(View()), target)
    {
      hide SumsView;
      ghost var s := View();
      if lastClosedCol < 0 && target > RING_BARS {
        nextCol := target - RING_BARS;
      } else if target - nextCol > LONG_GAP {
        nextCol := target - BASELINE;
      }
      cols, trail := Jump(s, target).cols, Jump(s, target).trail;
    }

    /** Closes every column up to `target`. */
    method CloseColumns(target: int)
      requires Consistent() && target >= nextCol
      modifies this`nextCol, this`lastClosedCol, this`first, this`mid, this`curLitBuyVol, this`curLitSellVol,
               this`lastCnt15m, this`lastQ15m, this`cols, this`trail, bars,
               nb, ns, qb, qs, nb.slots, ns.slots, qb.slots, qs.slots
      ensures Valid() && View() == CloseThrough(env, old(View()), target) && lastClosedCol == target
    {
      ghost var s0 := View();
      assert |s0.cols| == nextCol;
      hide CloseColumn, View, SumsView;
      ghost var start := nextCol;
      while nextCol <= target
        invariant Consistent() && |View().cols| == nextCol && start <= nextCol <= target + 1
        invariant CloseThrough(env, View(), target) == CloseThrough(env, s0, target)
        invariant nextCol > start ==> lastClosedCol == nextCol - 1
      {
        CloseColumnLength(env, View());
        CloseBucket();
      }
    }

    /** Closes all buckets that end at or before `ts` and publishes the ring header under the SeqLock. */
    method AdvanceTo(ts: int)
      requires Valid()
      modifies this, bars, nb, ns, qb, qs, nb.slots, ns.slots, qb.slots, qs.slots
      ensures Valid() && View() == Advance(env, old(View()), ts)
      ensures if lastClosedCol != old(lastClosedCol) then ringSeq == old(ringSeq) + 2 && ringHeader == HeaderOf(View())
              else ringSeq == old(ringSeq) && ringHeader == old(ringHeader)
    {
      hide AdvanceOpen, PrefixRing.View;
      if ts <= 0 {
        return;
      }
      SetOpen(ts);
      AdvanceToOpen(ts);
    }

    /** The same, once the session open is known. */
    method AdvanceToOpen(ts: int)
      requires Valid()
      modifies this, bars, nb, ns, qb, qs, nb.slots, ns.slots, qb.slots, qs.slots
      ensures Valid() && View() == AdvanceOpen(env, old(View()), ts)
      ensures if lastClosedCol != old(lastClosedCol) then ringSeq == old(ringSeq) + 2 && ringHeader == HeaderOf(View())
              else ringSeq == old(ringSeq) && ringHeader == old(ringHeader)
    {
      var target, due := ClosingTarget(ts);
      hide View, Valid, CloseThrough, Jump, Target;
      if !due {
        return;
      }
      CloseAndPublish(target);
    }

    /** The last column that ends at or before `ts`, and whether it is still open. */
    method ClosingTarget(ts: int) returns (target: int, due: bool)
      requires Valid()
      ensures due == (Target(View(), ts) >= |View().cols|) && (due ==> target == Target(View(), ts))
              && |View().cols| == nextCol
    {
      if ts < openNS + (nextCol + 1) * BUCKET_NS {
        return -1, false;
      }
      target := (ts - openNS) / BUCKET_NS - 1;
      due := target >= nextCol;
    }

    method CloseAndPublish(target: int)
      requires Valid() && target >= nextCol
      modifies this, bars, nb, ns, qb, qs, nb.slots, ns.slots, qb.slots, qs.slots
      ensures Valid() && View() == CloseThrough(env, Jump(old(View()), target), target)
      ensures lastClosedCol == target && old(lastClosedCol) < target
      ensures ringSeq == old(ringSeq) + 2 && ringHeader == HeaderOf(View())
    {
      assert lastClosedCol < target;
      ghost var s := View();
      JumpWithin(s, target);
      assert |s.cols| == nextCol;
      hide CloseThrough, Jump, JumpTo, View, Valid, Consistent, HeaderOf;
      BeginWrite();
      JumpAhead(target);
      CloseColumns(target);
      Publish();
    }

    /** Makes the SeqLock counter odd. */
    method BeginWrite()
      requires Valid()
      modifies this`ringSeq
      ensures Valid() && ringSeq == old(ringSeq) + 1 && View() == old(View())
    {
      ringSeq := ringSeq + 1;
    }

    /** Stores the header and makes the SeqLock counter even again. */
    method Publish()
      requires Valid()
      modifies this`ringSeq, this`ringHeader
      ensures Valid() && ringSeq == old(ringSeq) + 1 && ringHeader == HeaderOf(View()) && View() == old(View())
    {
      ringHeader := Header(openNS, lastClosedCol, first, lastCnt15m, lastQ15m, quote.bidTicks, quote.askTicks);
      ringSeq := ringSeq + 1;
    }

    method SetOpen(ts: int)
      requires Valid()
      modifies this`openSet, this`openNS
      ensures Valid() && View() == EnsureOpen(env, old(View()), ts)
    {
      if !openSet && ts > 0 {
        openNS := if ts < MIN_EPOCH then 0 else env.sessionOpen(ts);
        openSet := true;
      }
    }

    /** A quote with valid prices closes the buckets before it and becomes the prevailing one. */
    method OnQuote(ts: int, bidPx: real, askPx: real)
      requires Valid()
      modifies this, bars, nb, ns, qb, qs, nb.slots, ns.slots, qb.slots, qs.slots
      ensures Valid() && View() == Tracker.OnQuote(env, old(View()), ts, bidPx, askPx)
    {
      hide Advance, PrefixRing.View;
      if !(bidPx > 0.0 && askPx >= bidPx) {
        return;
      }
      AdvanceTo(ts);
      quote := Quote(true, bidPx, askPx, env.ticksOf(bidPx), env.ticksOf(askPx));
    }

    /** A trade with a price and a size closes the buckets before it; if it is lit, it adds to the open one. */
    method OnTrade(ts: int, price: real, size: real, isDark: bool)
      requires Valid()
      modifies this, bars, nb, ns, qb, qs, nb.slots, ns.slots, qb.slots, qs.slots
      ensures Valid() && View() == Tracker.OnTrade(env, old(View()), ts, price, size, isDark)
    {
      hide Advance, PrefixRing.View;
      if !(price > 0.0 && size > 0.0) {
        return;
      }
      AdvanceTo(ts);
      if !openSet || ts < openNS || !quote.has || isDark {
        return;
      }
      var midU := 0.5 * (quote.bid + quote.ask);
      if price < midU - EPS {
        curLitSellVol := curLitSellVol + size;
      } else if price > midU + EPS {
        curLitBuyVol := curLitBuyVol + size;
      }
    }

    method BackfillBars(b: nat)
      modifies bars
      ensures bars[..] == BackfillAll(old(bars[..]), b, quote.bidTicks, quote.askTicks)
    {
      for k := 0 to bars.Length
        invariant forall i :: 0 <= i < bars.Length ==>
                    bars[i] == if i < k then Backfill(old(bars[i]), b, quote.bidTicks, quote.askTicks) else old(bars[i])
      {
        if bars[k].col >= 0 && bars[k].col < b && bars[k].bid == 0 {
          bars[k] := bars[k].(bid := quote.bidTicks, ask := quote.askTicks);
        }
      }
    }
  }

  /** The header fields published after the bars. */
  datatype Header = Header(open: int, last: int, first: FirstValid, cnt: real, q: real, bid: int, ask: int)

  function HeaderOf(s: State): Header {
    Header(s.open, s.last, s.first, s.cnt, s.q, s.quote.bidTicks, s.quote.askTicks)
  }
}
