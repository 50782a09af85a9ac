/** The micro tracker in the form it runs: two rings, the venue table and scalar state, updated in place. */
module MicroTracker {
  import opened Floats
  import opened MicroWindow
  import R = Ring

  /** The trade part of a snapshot. */
  datatype TradeStats = TradeStats(volume: Float, vwap: Float, imbalance: Float, recent: nat)

  /** The look-backs of a snapshot. */
  datatype LookBacks = LookBacks(mid1: Float, mid2: Float, mid3: Float, at5: Lookup, mid10: Float, mid30: Float)

  /** The record of one symbol that `ComputeSnapshot` writes. */
  datatype Published = Published(now: int, back: LookBacks, quoteVol: Float, stats: TradeStats)

  const SECOND := 1_000_000_000

  function StatsOf(s: Sums): TradeStats {
    if Positive(s.volume) then
      var denom := Add(s.buys, s.sells);
      TradeStats(s.volume, Div(s.notional, s.volume),
                 if Positive(denom) then Div(Sub(s.buys, s.sells), denom) else Num(0.0), s.recent)
    else TradeStats(s.volume, Num(0.0), Num(0.0), s.recent)
  }

  function LookBacksAt(m: Micro, now: int): LookBacks {
    LookBacks(QuoteAt(m, now - SECOND).mid, QuoteAt(m, now - 2 * SECOND).mid, QuoteAt(m, now - 3 * SECOND).mid,
              QuoteAt(m, now - 5 * SECOND), QuoteAt(m, now - 10 * SECOND).mid, QuoteAt(m, now - 30 * SECOND).mid)
  }

  const STEP := 250_000_000
  const STEPS := 20

  /** The change of the mid between two look-ups in basis points, 0 unless both are positive. */
  function Return(m0: Float, m1: Float): Float {
    if Positive(m0) && Positive(m1) then Mul(Div(Sub(m1, m0), m0), Num(10000.0)) else Num(0.0)
  }

  /** The return over the quarter second that ended `k` steps ago. */
  function ReturnAt(m: Micro, now: int, k: nat): Float {
    Return(QuoteAt(m, now - (k + 1) * STEP).mid, QuoteAt(m, now - k * STEP).mid)
  }

  /** Sum and sum of squares of the quarter-second returns, the oldest first, from 5 s ago to `k` steps ago. */
  function ReturnSums(m: Micro, now: int, k: nat): (Float, Float)
    decreases STEPS - k
  {
    if k >= STEPS then (Num(0.0), Num(0.0))
    else
      var sums := ReturnSums(m, now, k + 1);
      var r := ReturnAt(m, now, k);
      (Add(sums.0, r), Add(sums.1, Mul(r, r)))
  }

  /** The standard deviation of the twenty returns, 0 if their variance is not positive. */
  function QuoteVolOf(sums: (Float, Float), sqrt: Float -> Float): Float {
    var mean := Div(sums.0, OfInt(STEPS));
    var variance := Sub(Div(sums.1, OfInt(STEPS)), Mul(mean, mean));
    if Positive(variance) then sqrt(variance) else Num(0.0)
  }

  /** The side of a trade does not depend on the clock. */
  lemma ClassifyIgnoresTime(m: Micro, maxTS: int, sip: int, part: int, price: Float, exch: int)
    ensures IsBuy(m.(maxTS := maxTS), sip, part, price, exch) == IsBuy(m, sip, part, price, exch)
  {
  }

  class MicroTracker {
    const quotes: R.Ring<MicroQuote>
    const trades: R.Ring<MicroTrade>
    const venues: array<Venue>
    var seed: Lookup
    var maxTS: int
    var prevTradePx: Float
    var hasPrevTrade: bool
    var lastIsBuy: bool
    var initialized: bool

    ghost predicate Valid()
      reads this, quotes, trades
    {
      && quotes.slots != venues as object && trades.slots != venues as object && quotes.slots as object != trades.slots
      && quotes.Valid() && trades.Valid()
      && quotes.slots.Length == MAX_QUOTES && trades.slots.Length == MAX_TRADES && venues.Length == VENUES
    }

    ghost function Footprint(): set<object>
      reads this
    {
      {this, quotes, quotes.slots, trades, trades.slots, venues}
    }

    ghost function View(): Micro
      requires Valid()
      reads this, quotes, quotes.slots, trades, trades.slots, venues
    {
      Micro(quotes.Contents(), trades.Contents(), venues[..], seed, maxTS, prevTradePx, hasPrevTrade, lastIsBuy,
            initialized)
    }

    constructor ()
      ensures Valid() && fresh(Footprint())
      ensures Blank(View()) && View().venues == NoVenues() && !initialized && maxTS == 0 && !hasPrevTrade
      ensures seed == Lookup(Num(0.0), Num(0.0), Num(0.0))
    {
      var zero := Num(0.0);
      quotes := new R.Ring(MAX_QUOTES, MicroQuote(0, 0, zero, zero, zero, 0));
      trades := new R.Ring(MAX_TRADES, MicroTrade(0, zero, zero, false));
      venues := new Venue[VENUES](_ => NO_VENUE);
      seed := Lookup(zero, zero, zero);
      maxTS, prevTradePx, hasPrevTrade, lastIsBuy, initialized := 0, zero, false, false, false;
      new;
      assert venues[..] == NoVenues();
    }

    /** Forgets all ticks and starts from a given bid and ask. */
    method SeedQuote(bid: Float, ask: Float)
      requires Valid()
      modifies Footprint()
      ensures Valid() && Blank(View()) && View().venues == NoVenues()
      ensures Positive(bid) && Positive(ask) ==> seed == Lookup(bid, ask, Mid(bid, ask))
      ensures seed.bid == (if Positive(bid) then bid else old(seed.bid))
      ensures seed.ask == (if Positive(ask) then ask else old(seed.ask))
      ensures maxTS == old(maxTS) && !hasPrevTrade && lastIsBuy && initialized
    {
      if Positive(bid) {
        seed := seed.(bid := bid);
      }
      if Positive(ask) {
        seed := seed.(ask := ask);
      }
      if Positive(seed.bid) && Positive(seed.ask) {
        seed := seed.(mid := Mid(seed.bid, seed.ask));
      }
      quotes.Clear();
      trades.Clear();
      ClearVenues();
      hasPrevTrade, prevTradePx, lastIsBuy, initialized := false, Num(0.0), true, true;
    }

    method ClearVenues()
      requires venues.Length == VENUES
      modifies venues
      ensures venues[..] == NoVenues()
    {
      for i := 0 to venues.Length
        invariant forall k :: 0 <= k < i ==> venues[k] == NO_VENUE
      {
        venues[i] := NO_VENUE;
      }
    }

    method OnQuoteWithExch(sip: int, part: int, bid: Float, ask: Float, exch: int)
      requires Valid()
      modifies Footprint()
      ensures Valid() && View() == OnQuote(old(View()), sip, part, bid, ask, exch)
    {
      hide Valid, View, KeepQuote;
      if NotPositive(bid) || NotPositive(ask) {
        return;
      }
      var q := QuoteOf(sip, part, bid, ask, exch);
      NoteQuote(q);
      StoreQuote(q);
    }

    /** Records a quote as the latest one, in general and of its venue. */
    method NoteQuote(q: MicroQuote)
      requires Valid()
      modifies this`seed, this`maxTS, this`lastIsBuy, this`initialized, venues
      ensures Valid()
      ensures var m := old(View());
              View() == Started(m).(
                seed := Values(q), maxTS := Max(q.ts, m.maxTS),
                venues := if 0 <= q.exch < |m.venues| then m.venues[q.exch := Venue(q.ts, q.part, q.bid, q.ask, true)]
                  else m.venues)
    {
      hide R.Ring.Contents, R.Ring.Valid;
      ghost var before := View();
      seed := Values(q);
      if q.ts > maxTS {
        maxTS := q.ts;
      }
      if !initialized {
        lastIsBuy, initialized := true, true;
      }
      if 0 <= q.exch < venues.Length {
        venues[q.exch] := Venue(q.ts, q.part, q.bid, q.ask, true);
      }
      assert venues[..] == if 0 <= q.exch < VENUES then before.venues[q.exch := Venue(q.ts, q.part, q.bid, q.ask, true)]
             else before.venues;
    }

    /** Stores a quote unless it repeats the newest kept one, and prunes. */
    method StoreQuote(q: MicroQuote)
      requires Valid()
      modifies quotes, quotes.slots
      ensures Valid() && View() == old(View()).(quotes := KeepQuote(old(View()).quotes, q, old(View()).maxTS))
    {
      hide R.Ring.Contents, PruneQuotes;
      if quotes.count > 0 {
        var last := quotes.Get(quotes.count - 1);
        if Equal(last.bid, q.bid) && Equal(last.ask, q.ask) && last.exch == q.exch && q.ts >= last.ts {
          return;
        }
      }
      quotes.Push(q);
      Prune();
    }

    /** Drops quotes more than 35 s behind the newest tick from the head, but never the last one. */
    method Prune()
      requires Valid()
      modifies quotes
      ensures Valid() && quotes.Contents() == PruneQuotes(old(quotes.Contents()), maxTS - QUOTE_KEEP_NS)
    {
      var cutoff := maxTS - QUOTE_KEEP_NS;
      while quotes.count > 1
        invariant Valid()
        invariant PruneQuotes(quotes.Contents(), cutoff) == PruneQuotes(old(quotes.Contents()), cutoff)
        decreases quotes.count
      {
        var first := quotes.Get(0);
        if first.ts >= cutoff {
          break;
        }
        quotes.DropFirst();
      }
    }

    /** The place of the quote in force at `t`: the newest or oldest kept one, or by binary search. */
    method Find(t: int) returns (i: nat)
      requires Valid() && quotes.count > 0
      ensures i < quotes.count && i == IndexAt(quotes.Contents(), t)
    {
      hide R.Ring.Contents;
      var first := quotes.Get(0);
      if t < first.ts {
        return 0;
      }
      var last := quotes.Get(quotes.count - 1);
      if t >= last.ts {
        return quotes.count - 1;
      }
      var next := FirstAfter(t);
      i := if next > 0 then next - 1 else 0;
    }

    method FirstAfter(t: int) returns (r: nat)
      requires Valid()
      ensures r == Search(quotes.Contents(), 0, quotes.count, t)
    {
      hide R.Ring.Contents;
      var lo: nat, hi: nat := 0, quotes.count;
      ghost var all := quotes.Contents();
      while lo < hi
        invariant lo <= hi <= quotes.count
        invariant Search(all, lo, hi, t) == Search(all, 0, |all|, t)
      {
        var mid := (lo + hi) / 2;
        var q := quotes.Get(mid);
        if q.ts <= t {
          lo := mid + 1;
        } else {
          hi := mid;
        }
      }
      r := lo;
    }

    method LookUp(t: int) returns (r: Lookup)
      requires Valid()
      ensures r == QuoteAt(View(), t)
    {
      if quotes.count == 0 {
        return seed;
      }
      var first := quotes.Get(0);
      var i := Find(t);
      var q := quotes.Get(i);
      if t < first.ts && !Positive(q.bid) {
        return seed;
      }
      r := Values(q);
    }

    method Candidate(sip: int) returns (a: Venue)
      requires Valid()
      ensures a == CandidateA(View(), sip)
    {
      if quotes.count == 0 {
        return Venue(0, 0, seed.bid, seed.ask, Positive(seed.bid) && Positive(seed.ask));
      }
      var i := Find(sip - LEAD_NS);
      var q := quotes.Get(i);
      a := Venue(q.ts, q.part, q.bid, q.ask, true);
    }

    method Choose(sip: int, part: int, exch: int) returns (choice: Venue)
      requires Valid()
      ensures choice == ChooseQuote(View(), sip, part, exch)
    {
      var a := Candidate(sip);
      choice := a;
      if 0 <= exch < venues.Length {
        var b := venues[exch];
        if b.valid && b.sip <= sip && b.part <= Part(sip, part) && b.sip > a.sip {
          choice := b;
        }
      }
      if choice.sip > sip {
        choice := a;
      }
    }

    method ClassifyTrade(sip: int, part: int, price: Float, exch: int) returns (isBuy: bool)
      requires Valid()
      modifies this`prevTradePx, this`hasPrevTrade, this`lastIsBuy
      ensures Valid() && isBuy == IsBuy(old(View()), sip, part, price, exch)
      ensures View() == old(View()).(prevTradePx := price, hasPrevTrade := true, lastIsBuy := isBuy)
    {
      hide R.Ring.Contents, ChooseQuote;
      var choice := Choose(sip, part, exch);
      var mid := MidOf(choice);
      isBuy := lastIsBuy;
      if mid.Num? && Less(mid, price) {
        isBuy := true;
      } else if mid.Num? && Less(price, mid) {
        isBuy := false;
      } else if hasPrevTrade {
        if Less(prevTradePx, price) {
          isBuy := true;
        } else if Less(price, prevTradePx) {
          isBuy := false;
        }
      }
      prevTradePx, hasPrevTrade, lastIsBuy := price, true, isBuy;
    }

    method OnTradeWithExch(sip: int, part: int, price: Float, size: Float, exch: int)
      requires Valid()
      modifies Footprint()
      ensures Valid() && View() == OnTrade(old(View()), sip, part, price, size, exch)
    {
      hide Valid, View, KeepTrade, IsBuy;
      if NotPositive(price) || NotPositive(size) {
        return;
      }
      NoteTime(sip);
      var isBuy := ClassifyTrade(sip, part, price, exch);
      ClassifyIgnoresTime(Started(old(View())), View().maxTS, sip, part, price, exch);
      StoreTrade(MicroTrade(sip, price, size, isBuy));
    }

    method NoteTime(ts: int)
      requires Valid()
      modifies this`maxTS, this`lastIsBuy, this`initialized
      ensures Valid() && View() == Started(old(View())).(maxTS := Max(ts, old(View()).maxTS))
    {
      hide R.Ring.Contents, R.Ring.Valid;
      if ts > maxTS {
        maxTS := ts;
      }
      if !initialized {
        lastIsBuy, initialized := true, true;
      }
    }

    /** Stores a trade, over the oldest one if the ring is full, and drops trades more than 10 s old from the head. */
    method StoreTrade(t: MicroTrade)
      requires Valid()
      modifies trades, trades.slots
      ensures Valid() && View() == old(View()).(trades := KeepTrade(old(View()).trades, t, old(View()).maxTS))
    {
      hide R.Ring.Contents, R.PushBounded;
      trades.Push(t);
      PruneOldTrades();
    }

    method PruneOldTrades()
      requires Valid()
      modifies trades
      ensures Valid() && trades.Contents() == PruneTrades(old(trades.Contents()), maxTS - TRADE_KEEP_NS)
    {
      var cutoff := maxTS - TRADE_KEEP_NS;
      while trades.count > 0
        invariant Valid()
        invariant PruneTrades(trades.Contents(), cutoff) == PruneTrades(old(trades.Contents()), cutoff)
        decreases trades.count
      {
        var first := trades.Get(0);
        if first.ts >= cutoff {
          break;
        }
        trades.DropFirst();
      }
    }

    method ReadLookBacks(now: int) returns (back: LookBacks)
      requires Valid()
      ensures back == LookBacksAt(View(), now)
    {
      hide R.Ring.Contents, QuoteAt;
      var q1 := LookUp(now - SECOND);
      var q2 := LookUp(now - 2 * SECOND);
      var q3 := LookUp(now - 3 * SECOND);
      var q5 := LookUp(now - 5 * SECOND);
      var q10 := LookUp(now - 10 * SECOND);
      var q30 := LookUp(now - 30 * SECOND);
      back := LookBacks(q1.mid, q2.mid, q3.mid, q5, q10.mid, q30.mid);
    }

    /** Advances the clock and brings a published record up to date with look-backs, volatility and window sums.
        Before the first timestamp it stays as it is; before the first tick only clock and look-backs change. */
    method ComputeSnapshot(ts: int, prior: Published, sqrt: Float -> Float) returns (r: Published)
      requires Valid()
      modifies this`maxTS
      ensures Valid() && View() == Step(old(View()), Snapshot(ts))
      ensures var now := maxTS;
              r == if now <= 0 then prior
                   else if !initialized && quotes.count == 0 then
                     prior.(now := now, back := LookBacks(seed.mid, seed.mid, seed.mid, seed, seed.mid, seed.mid))
                   else
                     Published(now, LookBacksAt(View(), now), QuoteVolOf(ReturnSums(View(), now, 0), sqrt),
                               StatsOf(BackwardSums(View().trades, NOTHING, now - 5 * SECOND, now - 3 * SECOND, now)))
    {
      hide R.Ring.Contents, LookBacksAt, BackwardSums, StatsOf, ReturnSums, QuoteVolOf;
      if ts > maxTS {
        maxTS := ts;
      }
      var now := maxTS;
      if now <= 0 {
        return prior;
      }
      r := prior.(now := now);
      if !initialized && quotes.count == 0 {
        return r.(back := LookBacks(seed.mid, seed.mid, seed.mid, seed, seed.mid, seed.mid));
      }
      var back := ReadLookBacks(now);
      var quoteVol := QuoteVol(now, sqrt);
      var sums := SumWindow(now);
      r := r.(back := back, quoteVol := quoteVol, stats := StatsOf(sums));
    }

    /** The change of the mid over the quarter second that ended `k` steps ago. */
    method ReturnAgo(now: int, k: nat) returns (r: Float)
      requires Valid()
      ensures r == ReturnAt(View(), now, k)
    {
      hide QuoteAt, View, Return;
      var q0 := LookUp(now - (k + 1) * STEP);
      var q1 := LookUp(now - k * STEP);
      r := Return(q0.mid, q1.mid);
    }

    /** The volatility of the quotes over the last 5 s, from twenty pairs of look-ups. */
    method QuoteVol(now: int, sqrt: Float -> Float) returns (vol: Float)
      requires Valid()
      ensures vol == QuoteVolOf(ReturnSums(View(), now, 0), sqrt)
    {
      hide View, Valid, ReturnAt, QuoteVolOf, Add, Mul;
      ghost var m := View();
      var sumR, sumR2 := Num(0.0), Num(0.0);
      var k := STEPS;
      while k >= 1
        invariant 0 <= k <= STEPS && (sumR, sumR2) == ReturnSums(m, now, k)
      {
        var r := ReturnAgo(now, k - 1);
        sumR, sumR2 := Add(sumR, r), Add(sumR2, Mul(r, r));
        k := k - 1;
      }
      vol := QuoteVolOf((sumR, sumR2), sqrt);
    }

    /** Adds up the window from the newest trade backwards. */
    method SumWindow(now: int) returns (sums: Sums)
      requires Valid()
      ensures sums == BackwardSums(trades.Contents(), NOTHING, now - 5 * SECOND, now - 3 * SECOND, now)
    {
      sums := NOTHING;
      var k := trades.count;
      ghost var all := trades.Contents();
      assert all[..k] == all;
      while k > 0
        invariant k <= trades.count == |all|
        invariant BackwardSums(all[..k], sums, now - 5 * SECOND, now - 3 * SECOND, now) ==
                  BackwardSums(all, NOTHING, now - 5 * SECOND, now - 3 * SECOND, now)
      {
        var t := trades.Get(k - 1);
        assert all[..k][..k - 1] == all[..k - 1];
        if t.ts <= now - 5 * SECOND {
          break;
        }
        if t.ts <= now {
          sums := AddTrade(sums, t, now - 3 * SECOND);
        }
        k := k - 1;
      }
    }
  }
}
