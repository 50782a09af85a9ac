/** The micro tracker on values: which quotes and trades it keeps, what it looks up, and why that is what
    the whole tick history says. */
module MicroWindow {
  import opened Floats
  import opened Ring

  const MAX_QUOTES := 4096
  const MAX_TRADES := 1024
  const VENUES := 256
  const QUOTE_KEEP_NS := 35_000_000_000
  const TRADE_KEEP_NS := 10_000_000_000
  const LEAD_NS := 1_000_000

  datatype MicroQuote = MicroQuote(ts: int, part: int, bid: Float, ask: Float, mid: Float, exch: int)
  datatype MicroTrade = MicroTrade(ts: int, price: Float, size: Float, isBuy: bool)
  datatype Venue = Venue(sip: int, part: int, bid: Float, ask: Float, valid: bool)

  /** Bid, ask and mid of a look-up. */
  datatype Lookup = Lookup(bid: Float, ask: Float, mid: Float)

  datatype Micro = Micro(
    quotes: seq<MicroQuote>, trades: seq<MicroTrade>, venues: seq<Venue>, seed: Lookup,
    maxTS: int, prevTradePx: Float, hasPrevTrade: bool, lastIsBuy: bool, initialized: bool)

  const NO_VENUE := Venue(0, 0, Num(0.0), Num(0.0), false)

  predicate NotPositive(x: Float) {
    x.Num? && x.r <= 0.0
  }

  function Mid(bid: Float, ask: Float): Float {
    Mul(Num(0.5), Add(bid, ask))
  }

  function NoVenues(): (r: seq<Venue>)
    ensures |r| == VENUES && forall i :: 0 <= i < |r| ==> r[i] == NO_VENUE
  {
    seq(VENUES, _ => NO_VENUE)
  }

  // ---------- Quotes ----------

  function PruneQuotes(quotes: seq<MicroQuote>, cutoff: int): seq<MicroQuote> {
    if |quotes| > 1 && quotes[0].ts < cutoff then PruneQuotes(quotes[1..], cutoff) else quotes
  }

  /** A quote that repeats the latest one, and is not before it, is not stored again. */
  predicate Repeats(quotes: seq<MicroQuote>, q: MicroQuote) {
    quotes != [] &&
    var last := quotes[|quotes| - 1];
    Equal(last.bid, q.bid) && Equal(last.ask, q.ask) && last.exch == q.exch && q.ts >= last.ts
  }

  function KeepQuote(quotes: seq<MicroQuote>, q: MicroQuote, maxTS: int): seq<MicroQuote> {
    if Repeats(quotes, q) || |quotes| > MAX_QUOTES then quotes
    else PruneQuotes(PushBounded(quotes, q, MAX_QUOTES), maxTS - QUOTE_KEEP_NS)
  }

  function Part(sip: int, part: int): int {
    if part <= 0 then sip else part
  }

  function Max(a: int, b: int): int {
    if a > b then a else b
  }

  function QuoteOf(sip: int, part: int, bid: Float, ask: Float, exch: int): MicroQuote {
    MicroQuote(sip, Part(sip, part), bid, ask, Mid(bid, ask), exch)
  }

  function Started(m: Micro): Micro {
    if m.initialized then m else m.(lastIsBuy := true, initialized := true)
  }

  predicate QuoteRefused(bid: Float, ask: Float) {
    NotPositive(bid) || NotPositive(ask)
  }

  function OnQuote(m: Micro, sip: int, part: int, bid: Float, ask: Float, exch: int): Micro {
    if QuoteRefused(bid, ask) then m
    else
      var q := QuoteOf(sip, part, bid, ask, exch);
      var maxTS := Max(sip, m.maxTS);
      Started(m).(
        seed := Lookup(bid, ask, Mid(bid, ask)), maxTS := maxTS,
        venues := if 0 <= exch < |m.venues| then m.venues[exch := Venue(sip, q.part, bid, ask, true)] else m.venues,
        quotes := KeepQuote(m.quotes, q, maxTS))
  }

  // ---------- Looking a quote up ----------

  /** Binary search for the first quote after `t`. */
  function Search(quotes: seq<MicroQuote>, lo: nat, hi: nat, t: int): (r: nat)
    ensures lo <= hi ==> lo <= r <= hi
    decreases hi - lo
  {
    if lo >= hi || hi > |quotes| then lo
    else
      var mid := (lo + hi) / 2;
      if quotes[mid].ts <= t then Search(quotes, mid + 1, hi, t) else Search(quotes, lo, mid, t)
  }

  /** Index of the quote that `quoteAt` and the trade classification settle on. */
  function IndexAt(quotes: seq<MicroQuote>, t: int): (r: nat)
    requires quotes != []
    ensures r < |quotes|
  {
    if t < quotes[0].ts then 0
    else if t >= quotes[|quotes| - 1].ts then |quotes| - 1
    else
      var i := Search(quotes, 0, |quotes|, t);
      if i > 0 then i - 1 else 0
  }

  function Values(q: MicroQuote): Lookup {
    Lookup(q.bid, q.ask, q.mid)
  }

  function QuoteAt(m: Micro, t: int): Lookup {
    if m.quotes == [] then m.seed
    else
      var q := m.quotes[IndexAt(m.quotes, t)];
      if t < m.quotes[0].ts && !Positive(q.bid) then m.seed else Values(q)
  }

  // ---------- Trades ----------

  /** The newest quote at least 1 ms older than the trade, or the seed if nothing is kept. */
  function CandidateA(m: Micro, sip: int): Venue {
    if m.quotes == [] then Venue(0, 0, m.seed.bid, m.seed.ask, Positive(m.seed.bid) && Positive(m.seed.ask))
    else
      var q := m.quotes[IndexAt(m.quotes, sip - LEAD_NS)];
      Venue(q.ts, q.part, q.bid, q.ask, true)
  }

  /** The trade venue's own latest quote wins if it is valid, not after the trade on either clock, and newer. */
  function ChooseQuote(m: Micro, sip: int, part: int, exch: int): Venue {
    var a := CandidateA(m, sip);
    var b := if 0 <= exch < |m.venues| then m.venues[exch] else NO_VENUE;
    if b.valid && b.sip <= sip && b.part <= Part(sip, part) && b.sip > a.sip then b else a
  }

  function MidOf(v: Venue): Float {
    if v.valid && Positive(v.bid) && Positive(v.ask) then Mid(v.bid, v.ask) else NaN
  }

  /** Lee-Ready: against the mid, then the tick rule, then the side of the trade before. */
  function IsBuy(m: Micro, sip: int, part: int, price: Float, exch: int): bool {
    var mid := MidOf(ChooseQuote(m, sip, part, exch));
    if Less(mid, price) then true
    else if Less(price, mid) then false
    else if m.hasPrevTrade && Less(m.prevTradePx, price) then true
    else if m.hasPrevTrade && Less(price, m.prevTradePx) then false
    else m.lastIsBuy
  }

  function PruneTrades(trades: seq<MicroTrade>, cutoff: int): seq<MicroTrade> {
    if trades != [] && trades[0].ts < cutoff then PruneTrades(trades[1..], cutoff) else trades
  }

  function KeepTrade(trades: seq<MicroTrade>, t: MicroTrade, maxTS: int): seq<MicroTrade> {
    if |trades| > MAX_TRADES then trades else PruneTrades(PushBounded(trades, t, MAX_TRADES), maxTS - TRADE_KEEP_NS)
  }

  predicate TradeRefused(price: Float, size: Float) {
    NotPositive(price) || NotPositive(size)
  }

  function TradeOf(m: Micro, sip: int, part: int, price: Float, size: Float, exch: int): MicroTrade {
    MicroTrade(sip, price, size, IsBuy(Started(m), sip, part, price, exch))
  }

  function OnTrade(m: Micro, sip: int, part: int, price: Float, size: Float, exch: int): Micro {
    if TradeRefused(price, size) then m
    else
      var t := TradeOf(m, sip, part, price, size, exch);
      var maxTS := Max(sip, m.maxTS);
      Started(m).(
        maxTS := maxTS, prevTradePx := price, hasPrevTrade := true, lastIsBuy := t.isBuy,
        trades := KeepTrade(m.trades, t, maxTS))
  }

  // ---------- Window sums ----------

  /** What a window of trades adds up to. */
  datatype Sums = Sums(volume: Float, notional: Float, buys: Float, sells: Float, recent: nat)

  const NOTHING := Sums(Num(0.0), Num(0.0), Num(0.0), Num(0.0), 0)

  function AddTrade(s: Sums, t: MicroTrade, recentAfter: int): Sums {
    Sums(Add(s.volume, t.size), Add(s.notional, Mul(t.price, t.size)),
         if t.isBuy then Add(s.buys, t.size) else s.buys,
         if t.isBuy then s.sells else Add(s.sells, t.size),
         if t.ts > recentAfter then s.recent + 1 else s.recent)
  }

  /** The loop of `ComputeSnapshot`: newest trade first, until one at or before the window. */
  function BackwardSums(trades: seq<MicroTrade>, acc: Sums, after: int, recentAfter: int, now: int): Sums
    decreases |trades|
  {
    if trades == [] then acc
    else
      var t := trades[|trades| - 1];
      if t.ts <= after then acc
      else BackwardSums(trades[..|trades| - 1], if t.ts > now then acc else AddTrade(acc, t, recentAfter), after,
                        recentAfter, now)
  }

  /** The direct sums over every trade of a history with a timestamp in (after, now]. */
  function DirectSums(trades: seq<MicroTrade>, after: int, recentAfter: int, now: int): Sums {
    if trades == [] then NOTHING
    else
      var rest := DirectSums(trades[..|trades| - 1], after, recentAfter, now);
      var t := trades[|trades| - 1];
      if after < t.ts <= now then AddTrade(rest, t, recentAfter) else rest
  }

  /** Number of trades of a history in (after, now]. */
  function CountIn(trades: seq<MicroTrade>, after: int): nat {
    if trades == [] then 0
    else CountIn(trades[..|trades| - 1], after) + (if trades[|trades| - 1].ts > after then 1 else 0)
  }

  // ---------- The whole history ----------

  datatype Event =
    | Quote(sip: int, part: int, bid: Float, ask: Float, exch: int)
    | Trade(sip: int, part: int, price: Float, size: Float, tradeExch: int)
    | Snapshot(now: int)

  function Step(m: Micro, e: Event): Micro {
    match e
    case Quote(sip, part, bid, ask, exch) => OnQuote(m, sip, part, bid, ask, exch)
    case Trade(sip, part, price, size, exch) => OnTrade(m, sip, part, price, size, exch)
    case Snapshot(now) => m.(maxTS := Max(now, m.maxTS))
  }

  function Run(m: Micro, es: seq<Event>): Micro {
    if es == [] then m else Step(Run(m, es[..|es| - 1]), es[|es| - 1])
  }

  predicate Accepted(e: Event) {
    e.Quote? && !QuoteRefused(e.bid, e.ask)
  }

  function QuoteIn(e: Event): MicroQuote
    requires e.Quote?
  {
    QuoteOf(e.sip, e.part, e.bid, e.ask, e.exch)
  }

  /** Every accepted quote, repeated or not, none dropped. */
  function AllQuotes(es: seq<Event>): seq<MicroQuote> {
    if es == [] then []
    else
      var e := es[|es| - 1];
      AllQuotes(es[..|es| - 1]) + (if Accepted(e) then [QuoteIn(e)] else [])
  }

  predicate TradeAccepted(e: Event) {
    e.Trade? && !TradeRefused(e.price, e.size)
  }

  function TradeIn(m: Micro, e: Event): MicroTrade
    requires e.Trade?
  {
    TradeOf(m, e.sip, e.part, e.price, e.size, e.tradeExch)
  }

  /** Every accepted trade with the side it was given on arrival, none dropped. */
  function AllTrades(m: Micro, es: seq<Event>): seq<MicroTrade> {
    if es == [] then []
    else
      var e := es[|es| - 1];
      var before := es[..|es| - 1];
      AllTrades(m, before) + (if TradeAccepted(e) then [TradeIn(Run(m, before), e)] else [])
  }

  /** A tracker that has seen no tick since it was created or seeded. */
  predicate Blank(m: Micro) {
    m.quotes == [] && m.trades == []
  }

  ghost predicate QuotesNotAfter(s: seq<MicroQuote>, i: nat, j: nat)
    requires i <= j < |s|
  {
    s[i].ts <= s[j].ts
  }

  ghost predicate QuotesInOrder(s: seq<MicroQuote>) {
    forall i, j :: 0 <= i <= j < |s| ==> QuotesNotAfter(s, i, j)
  }

  /** The last quote at or before `t`; the first one if there is none. */
  function LastAt(s: seq<MicroQuote>, t: int): MicroQuote
    requires s != []
  {
    if |s| == 1 || s[|s| - 1].ts <= t then s[|s| - 1] else LastAt(s[..|s| - 1], t)
  }

  // ---------- Quote look-ups are exact ----------

  lemma OrderedPrefix(s: seq<MicroQuote>)
    requires QuotesInOrder(s) && s != []
    ensures QuotesInOrder(s[..|s| - 1])
  {
    var r := s[..|s| - 1];
    forall i, j | 0 <= i <= j < |r|
      ensures QuotesNotAfter(r, i, j)
    {
      assert QuotesNotAfter(s, i, j);
    }
  }

  lemma {:induction false} SearchSplits(s: seq<MicroQuote>, lo: nat, hi: nat, t: int)
    requires QuotesInOrder(s) && lo <= hi <= |s|
    requires forall i :: 0 <= i < lo ==> s[i].ts <= t
    requires forall i :: hi <= i < |s| ==> s[i].ts > t
    ensures forall i :: 0 <= i < Search(s, lo, hi, t) ==> s[i].ts <= t
    ensures forall i :: Search(s, lo, hi, t) <= i < |s| ==> s[i].ts > t
    decreases hi - lo
  {
    if lo < hi {
      var mid := (lo + hi) / 2;
      forall i | 0 <= i < |s|
        ensures i <= mid ==> s[i].ts <= s[mid].ts
        ensures i >= mid ==> s[mid].ts <= s[i].ts
      {
        assert i <= mid ==> QuotesNotAfter(s, i, mid);
        assert i >= mid ==> QuotesNotAfter(s, mid, i);
      }
      if s[mid].ts <= t { SearchSplits(s, mid + 1, hi, t); } else { SearchSplits(s, lo, mid, t); }
    }
  }

  lemma {:induction false} LastAtSplit(s: seq<MicroQuote>, k: nat, t: int)
    requires s != [] && 0 < k <= |s| && s[k - 1].ts <= t
    requires forall i :: k <= i < |s| ==> s[i].ts > t
    ensures LastAt(s, t) == s[k - 1]
  {
    if k < |s| { LastAtSplit(s[..|s| - 1], k, t); }
  }

  /** On quotes in order, the binary search lands on the last quote at or before `t`. */
  lemma IndexAtIsLast(s: seq<MicroQuote>, t: int)
    requires QuotesInOrder(s) && s != [] && s[0].ts <= t
    ensures s[IndexAt(s, t)] == LastAt(s, t)
  {
    if t < s[|s| - 1].ts {
      SearchSplits(s, 0, |s|, t);
      LastAtSplit(s, Search(s, 0, |s|, t), t);
    }
  }

  // ---------- Repeats make no difference ----------

  /** The quotes of a history that are stored: repeats of the latest one are not. */
  function Stored(full: seq<MicroQuote>): (s: seq<MicroQuote>)
    ensures |s| <= |full| && (s == [] <==> full == [])
    ensures s != [] ==> s[0] == full[0]
  {
    if full == [] then []
    else
      var s := Stored(full[..|full| - 1]);
      if Repeats(s, full[|full| - 1]) then s else s + [full[|full| - 1]]
  }

  /** Every quote carries the mid of its bid and ask. */
  ghost predicate MidsOk(s: seq<MicroQuote>) {
    forall i :: 0 <= i < |s| ==> s[i].mid == Mid(s[i].bid, s[i].ask)
  }

  /** The newest quote is the last one at every time from then on, and changes nothing before. */
  lemma LastAtAppend(s: seq<MicroQuote>, q: MicroQuote, t: int)
    requires s != []
    ensures LastAt(s + [q], t) == if q.ts <= t then q else LastAt(s, t)
  {
    assert (s + [q])[..|s|] == s;
  }

  lemma {:induction false} StoredInOrder(full: seq<MicroQuote>)
    requires QuotesInOrder(full) && MidsOk(full)
    ensures QuotesInOrder(Stored(full)) && MidsOk(Stored(full))
    ensures full != [] ==> Stored(full)[|Stored(full)| - 1].ts <= full[|full| - 1].ts
    ensures full != [] ==> Values(Stored(full)[|Stored(full)| - 1]) == Values(full[|full| - 1])
  {
    if full != [] {
      var before, q := full[..|full| - 1], full[|full| - 1];
      OrderedPrefix(full);
      StoredInOrder(before);
      if before != [] { assert QuotesNotAfter(full, |full| - 2, |full| - 1); }
      if !Repeats(Stored(before), q) { AppendInOrder(Stored(before), q); }
    }
  }

  lemma AppendInOrder(s: seq<MicroQuote>, q: MicroQuote)
    requires QuotesInOrder(s) && (s != [] ==> s[|s| - 1].ts <= q.ts)
    ensures QuotesInOrder(s + [q])
  {
    forall i, j | 0 <= i <= j < |s| + 1
      ensures QuotesNotAfter(s + [q], i, j)
    {
      if i < |s| { assert QuotesNotAfter(s, i, if j < |s| then j else |s| - 1); }
    }
  }

  /** Leaving out repeats changes no bid, ask or mid at any time. */
  lemma {:induction false} StoredAgrees(full: seq<MicroQuote>, t: int)
    requires QuotesInOrder(full) && MidsOk(full) && full != []
    ensures Values(LastAt(Stored(full), t)) == Values(LastAt(full, t))
  {
    var before, q := full[..|full| - 1], full[|full| - 1];
    assert before + [q] == full;
    if before != [] {
      OrderedPrefix(full);
      StoredAgrees(before, t);
      StoredInOrder(before);
      LastAtAppend(before, q, t);
      if Repeats(Stored(before), q) {
        if q.ts <= t { LastAtEnd(Stored(before), t); }
      } else {
        LastAtAppend(Stored(before), q, t);
      }
    }
  }

  lemma LastAtEnd(s: seq<MicroQuote>, t: int)
    requires s != [] && s[|s| - 1].ts <= t
    ensures LastAt(s, t) == s[|s| - 1]
  {
  }

  // ---------- Which quotes are gone ----------

  /** Quote `i` of those stored is gone if a later one is there, and it is one of 4096 or more before the last,
      or was more than 35 s behind `asOf`, the greatest timestamp seen when the last one was stored. */
  predicate Gone(s: seq<MicroQuote>, i: nat, asOf: int) {
    i + 1 < |s| && (|s| - 1 - i >= MAX_QUOTES || s[i].ts < asOf - QUOTE_KEEP_NS)
  }

  /** The kept quotes are exactly those not gone, and they are the end of those stored. */
  ghost predicate KeptFrom(kept: seq<MicroQuote>, s: seq<MicroQuote>, asOf: int) {
    && |kept| <= |s| && |kept| <= MAX_QUOTES && (s != [] ==> kept != [])
    && kept == s[|s| - |kept|..]
    && forall i :: 0 <= i < |s| ==> (Gone(s, i, asOf) <==> i < |s| - |kept|)
  }

  /** The greatest timestamp of any event, or `m.maxTS`, when the last quote was stored. */
  function AsOf(m: Micro, es: seq<Event>): int {
    if es == [] then m.maxTS
    else
      var before, e := es[..|es| - 1], es[|es| - 1];
      if Accepted(e) && !Repeats(Stored(AllQuotes(before)), QuoteIn(e)) then Max(e.sip, Run(m, before).maxTS)
      else AsOf(m, before)
  }

  /** While the oldest kept quote is too old it is gone; the rest of an ordered history is not. */
  lemma {:induction false} PruneLeaves(kept: seq<MicroQuote>, s: seq<MicroQuote>, asOf: int)
    requires QuotesInOrder(s) && 0 < |kept| <= |s| && |kept| <= MAX_QUOTES && kept == s[|s| - |kept|..]
    requires forall i :: 0 <= i < |s| - |kept| ==> Gone(s, i, asOf)
    ensures KeptFrom(PruneQuotes(kept, asOf - QUOTE_KEEP_NS), s, asOf)
    decreases |kept|
  {
    var d := |s| - |kept|;
    if |kept| > 1 && kept[0].ts < asOf - QUOTE_KEEP_NS {
      assert s[d + 1..] == kept[1..];
      PruneLeaves(kept[1..], s, asOf);
    } else {
      forall i | d <= i < |s|
        ensures !Gone(s, i, asOf)
      {
        assert QuotesNotAfter(s, d, i);
      }
    }
  }

  lemma StoreLeaves(kept: seq<MicroQuote>, s: seq<MicroQuote>, asOf: int, q: MicroQuote, later: int)
    requires KeptFrom(kept, s, asOf) && asOf <= later && QuotesInOrder(s + [q])
    ensures KeptFrom(PruneQuotes(PushBounded(kept, q, MAX_QUOTES), later - QUOTE_KEEP_NS), s + [q], later)
  {
    var pushed, all := PushBounded(kept, q, MAX_QUOTES), s + [q];
    var d := |s| - |kept|;
    assert pushed == if |kept| < MAX_QUOTES then all[d..] else all[d + 1..];
    forall i | 0 <= i < |all| - |pushed|
      ensures Gone(all, i, later)
    {
      if i < d { assert Gone(s, i, asOf); }
    }
    PruneLeaves(pushed, all, later);
  }

  lemma AsOfNotLater(m: Micro, es: seq<Event>)
    ensures AsOf(m, es) <= Run(m, es).maxTS
  {
    hide KeepQuote, KeepTrade, IsBuy, Repeats;
  }

  lemma AllQuotesAppend(es: seq<Event>)
    requires es != [] && QuotesInOrder(AllQuotes(es))
    ensures QuotesInOrder(AllQuotes(es[..|es| - 1]))
    ensures var e, before := es[|es| - 1], AllQuotes(es[..|es| - 1]);
            AllQuotes(es) == if Accepted(e) then before + [QuoteIn(e)] else before
  {
    var before := AllQuotes(es[..|es| - 1]);
    if Accepted(es[|es| - 1]) {
      assert AllQuotes(es)[..|AllQuotes(es)| - 1] == before;
      OrderedPrefix(AllQuotes(es));
    } else {
      assert AllQuotes(es) == before;
    }
  }

  lemma {:induction false} AllMidsOk(es: seq<Event>)
    ensures MidsOk(AllQuotes(es))
  {
    if es != [] { AllMidsOk(es[..|es| - 1]); }
  }

  /** Over any run of quotes in time order, with any trades and snapshots, the kept quotes are exactly the
      stored ones that are not gone, and the seed is the last accepted quote. */
  lemma {:induction false} RunKeepsQuotes(m: Micro, es: seq<Event>)
    requires Blank(m) && QuotesInOrder(AllQuotes(es))
    ensures KeptFrom(Run(m, es).quotes, Stored(AllQuotes(es)), AsOf(m, es))
    ensures AllQuotes(es) != [] ==> Run(m, es).seed == Values(AllQuotes(es)[|AllQuotes(es)| - 1])
  {
    hide KeptFrom, Gone, PruneQuotes, KeepTrade, IsBuy, QuotesInOrder;
    if es == [] {
      NothingGone(m.maxTS);
    } else {
      var before, e := es[..|es| - 1], es[|es| - 1];
      AllQuotesAppend(es);
      RunKeepsQuotes(m, before);
      if Accepted(e) {
        KeepLeaves(m, before, e);
        assert AllQuotes(es)[..|AllQuotes(es)| - 1] == AllQuotes(before);
      }
    }
  }

  lemma NothingGone(asOf: int)
    ensures KeptFrom([], [], asOf)
  {
  }

  lemma LatestKept(kept: seq<MicroQuote>, s: seq<MicroQuote>, asOf: int, q: MicroQuote)
    requires KeptFrom(kept, s, asOf)
    ensures Repeats(kept, q) == Repeats(s, q) && |kept| <= MAX_QUOTES
  {
  }

  lemma KeepLeaves(m: Micro, before: seq<Event>, e: Event)
    requires Accepted(e) && QuotesInOrder(AllQuotes(before) + [QuoteIn(e)])
    requires KeptFrom(Run(m, before).quotes, Stored(AllQuotes(before)), AsOf(m, before))
    ensures var kept := KeepQuote(Run(m, before).quotes, QuoteIn(e), Max(e.sip, Run(m, before).maxTS));
            var s := Stored(AllQuotes(before));
            if Repeats(s, QuoteIn(e)) then KeptFrom(kept, s, AsOf(m, before))
            else KeptFrom(kept, s + [QuoteIn(e)], Max(e.sip, Run(m, before).maxTS))
  {
    var r, full, q := Run(m, before), AllQuotes(before), QuoteIn(e);
    var s, later := Stored(full), Max(e.sip, r.maxTS);
    hide KeptFrom, PruneQuotes, Run, AllQuotes, AsOf, Stored, Repeats, QuotesInOrder, Max;
    LatestKept(r.quotes, s, AsOf(m, before), q);
    if !Repeats(s, q) {
      assert QuotesInOrder(s + [q]) by { StoredAppendInOrder(before, e); }
      assert AsOf(m, before) <= later by { AsOfNotLater(m, before); MaxIsGreatest(e.sip, r.maxTS); }
      StoreLeaves(r.quotes, s, AsOf(m, before), q, later);
    }
  }

  lemma MaxIsGreatest(a: int, b: int)
    ensures Max(a, b) >= a && Max(a, b) >= b
  {
  }

  lemma StoredAppendInOrder(before: seq<Event>, e: Event)
    requires Accepted(e) && QuotesInOrder(AllQuotes(before) + [QuoteIn(e)])
    ensures QuotesInOrder(Stored(AllQuotes(before)) + [QuoteIn(e)])
  {
    var full, q := AllQuotes(before), QuoteIn(e);
    assert (full + [q])[..|full|] == full;
    OrderedPrefix(full + [q]);
    AllMidsOk(before);
    StoredInOrder(full);
    if full != [] { assert QuotesNotAfter(full + [q], |full| - 1, |full|); }
    AppendInOrder(Stored(full), q);
  }

  // ---------- What a look-up answers ----------

  /** At any time from the oldest kept quote on, the kept end of the quotes answers like all of them. */
  lemma {:induction false} LastAtOfEnd(s: seq<MicroQuote>, d: nat, t: int)
    requires QuotesInOrder(s) && d < |s| && s[d].ts <= t
    ensures LastAt(s[d..], t) == LastAt(s, t)
    decreases |s|
  {
    if d < |s| - 1 && s[|s| - 1].ts > t {
      assert s[d..][..|s| - d - 1] == s[..|s| - 1][d..];
      OrderedPrefix(s);
      LastAtOfEnd(s[..|s| - 1], d, t);
    }
  }

  lemma EndInOrder(s: seq<MicroQuote>, d: nat)
    requires QuotesInOrder(s) && d <= |s|
    ensures QuotesInOrder(s[d..])
  {
    forall i, j | 0 <= i <= j < |s| - d
      ensures QuotesNotAfter(s[d..], i, j)
    {
      assert QuotesNotAfter(s, d + i, d + j);
    }
  }

  /** On quotes in order, the index settled on is that of the last quote at or before `t`. */
  lemma IndexAtSplits(s: seq<MicroQuote>, t: int)
    requires QuotesInOrder(s) && s != [] && s[0].ts <= t
    ensures var p := IndexAt(s, t); s[p].ts <= t && forall i :: p < i < |s| ==> s[i].ts > t
  {
    if t < s[|s| - 1].ts { SearchSplits(s, 0, |s|, t); }
  }

  /** Where the last quote at or before `t` is among those stored; the first one if there is none. */
  function Prevailing(full: seq<MicroQuote>, t: int): (p: nat)
    requires full != []
    ensures p < |Stored(full)|
  {
    IndexAt(Stored(full), t)
  }

  lemma PrevailingIsLast(full: seq<MicroQuote>, t: int)
    requires QuotesInOrder(full) && MidsOk(full) && full != []
    ensures Values(Stored(full)[Prevailing(full, t)]) == Values(LastAt(full, t))
  {
    var s := Stored(full);
    StoredInOrder(full);
    StoredAgrees(full, t);
    if s[0].ts <= t { IndexAtIsLast(s, t); } else { LastAtBefore(s, t); }
  }

  lemma {:induction false} LastAtBefore(s: seq<MicroQuote>, t: int)
    requires QuotesInOrder(s) && s != [] && s[0].ts > t
    ensures LastAt(s, t) == s[0]
  {
    assert QuotesNotAfter(s, 0, |s| - 1);
    if |s| > 1 {
      OrderedPrefix(s);
      LastAtBefore(s[..|s| - 1], t);
    }
  }

  /** The quote found among those kept. It is the prevailing one of the full history unless that one is gone,
      and then the oldest kept one, which is later than `t`. */
  lemma KeptAt(kept: seq<MicroQuote>, s: seq<MicroQuote>, asOf: int, t: int)
    requires KeptFrom(kept, s, asOf) && QuotesInOrder(s) && s != []
    ensures var p := IndexAt(s, t);
            && kept[IndexAt(kept, t)] == (if Gone(s, p, asOf) then kept[0] else s[p])
            && (Gone(s, p, asOf) ==> t < kept[0].ts)
            && (t < kept[0].ts ==> IndexAt(kept, t) == 0)
            && (kept[0].ts <= t ==> s[0].ts <= t)
  {
    var p, d := IndexAt(s, t), |s| - |kept|;
    hide Gone;
    assert Gone(s, p, asOf) <==> p < d;
    EndInOrder(s, d);
    assert QuotesNotAfter(s, 0, d);
    if s[0].ts <= t {
      IndexAtSplits(s, t);
      if d <= p { assert QuotesNotAfter(s, d, p); }
    }
    if kept[0].ts <= t {
      IndexAtIsLast(kept, t);
      IndexAtIsLast(s, t);
      LastAtOfEnd(s, d, t);
    }
  }

  /** What stands in for a prevailing quote that is gone: the oldest kept one, or the seed, which is the last
      quote, if that has no proper bid. */
  function StandIn(oldest: MicroQuote, last: MicroQuote): Lookup {
    if Positive(oldest.bid) then Values(oldest) else Values(last)
  }

  /** Whether a look-up at `t` is answered by the prevailing quote: it is not gone, and if `t` is before all
      quotes, the first one has a proper bid. */
  predicate Answered(full: seq<MicroQuote>, asOf: int, t: int)
    requires full != []
  {
    !Gone(Stored(full), Prevailing(full, t), asOf) && (full[0].ts <= t || Positive(full[0].bid))
  }

  /** Every look-up after any run. It gives bid, ask and mid of the last quote at or before `t` in the full history,
      whatever was repeated, overwritten or pruned, if and only if that quote is not gone (or the one standing
      in for it has the same prices). Before the first quote ever, the first one counts as prevailing. */
  lemma QuoteAtExactWhen(m: Micro, es: seq<Event>, t: int)
    requires Blank(m) && QuotesInOrder(AllQuotes(es)) && AllQuotes(es) != []
    ensures var full, kept := AllQuotes(es), Run(m, es).quotes;
            kept != [] &&
            var other := StandIn(kept[0], full[|full| - 1]);
            && QuoteAt(Run(m, es), t) == (if Answered(full, AsOf(m, es), t) then Values(LastAt(full, t)) else other)
            && (QuoteAt(Run(m, es), t) == Values(LastAt(full, t)) <==>
                Answered(full, AsOf(m, es), t) || other == Values(LastAt(full, t)))
  {
    hide Run, AllQuotes, AsOf, Stored, Gone, LastAt, IndexAt;
    var full, kept := AllQuotes(es), Run(m, es).quotes;
    RunKeepsQuotes(m, es);
    AllMidsOk(es);
    StoredInOrder(full);
    PrevailingIsLast(full, t);
    KeptAt(kept, Stored(full), AsOf(m, es), t);
    FirstKept(kept, Stored(full), AsOf(m, es), t);
  }

  /** Before all quotes, the first one answers as long as it is not gone. */
  lemma FirstKept(kept: seq<MicroQuote>, s: seq<MicroQuote>, asOf: int, t: int)
    requires KeptFrom(kept, s, asOf) && QuotesInOrder(s) && s != []
    ensures t < s[0].ts ==> IndexAt(s, t) == 0 && (!Gone(s, 0, asOf) ==> kept[0] == s[0])
    ensures !Gone(s, IndexAt(s, t), asOf) && s[0].ts <= t ==> kept[0].ts <= t
  {
    hide Gone;
    var p, d := IndexAt(s, t), |s| - |kept|;
    assert Gone(s, p, asOf) <==> p < d;
    if s[0].ts <= t {
      IndexAtSplits(s, t);
      if d <= p { assert QuotesNotAfter(s, d, p); }
    }
  }

  /** A trade is first compared with the quote that prevailed 1 ms before it in the full history, or with the
      oldest kept one if that is gone. */
  lemma CandidateIsPrevailing(m: Micro, es: seq<Event>, sip: int)
    requires Blank(m) && QuotesInOrder(AllQuotes(es)) && AllQuotes(es) != []
    ensures var full, a := AllQuotes(es), CandidateA(Run(m, es), sip);
            var gone := Gone(Stored(full), Prevailing(full, sip - LEAD_NS), AsOf(m, es));
            && Run(m, es).quotes != [] && a.valid
            && var q := if gone then Run(m, es).quotes[0] else LastAt(full, sip - LEAD_NS);
               a.bid == q.bid && a.ask == q.ask
  {
    hide Run, AllQuotes, AsOf, Stored, Gone, LastAt, IndexAt;
    var full, kept := AllQuotes(es), Run(m, es).quotes;
    RunKeepsQuotes(m, es);
    AllMidsOk(es);
    StoredInOrder(full);
    PrevailingIsLast(full, sip - LEAD_NS);
    KeptAt(kept, Stored(full), AsOf(m, es), sip - LEAD_NS);
  }

  /** The bound on the look-back is real: two quotes more than 35 s apart, and every look-up into the lull
      between them answers with the second instead of the first. */
  lemma LullLosesQuote(m: Micro, a: Event, b: Event, t: int)
    requires Blank(m) && Accepted(a) && Accepted(b) && m.maxTS <= b.sip && a.sip < b.sip - QUOTE_KEEP_NS
    requires Positive(b.bid) && a.bid != b.bid && a.sip <= t < b.sip
    ensures QuoteAt(Run(m, [a, b]), t) == Values(QuoteIn(b))
    ensures LastAt(AllQuotes([a, b]), t) == QuoteIn(a) && Values(QuoteIn(a)) != Values(QuoteIn(b))
  {
    assert [a, b][..1] == [a] && [a][..0] == [];
    assert AllQuotes([a]) == AllQuotes([a][..0]) + [QuoteIn(a)] == [QuoteIn(a)];
    assert AllQuotes([a, b]) == AllQuotes([a, b][..1]) + [QuoteIn(b)] == [QuoteIn(a), QuoteIn(b)];
    assert [QuoteIn(a), QuoteIn(b)][..1] == [QuoteIn(a)];
    var r := Run(m, [a]);
    assert Run(m, [a][..0]) == m;
    assert r == Step(m, [a][0]);
    assert r == OnQuote(m, a.sip, a.part, a.bid, a.ask, a.exch);
    assert PruneQuotes([QuoteIn(a)], r.maxTS - QUOTE_KEEP_NS) == [QuoteIn(a)];
    assert PushBounded(r.quotes, QuoteIn(b), MAX_QUOTES) == [QuoteIn(a), QuoteIn(b)];
    assert [QuoteIn(a), QuoteIn(b)][1..] == [QuoteIn(b)];
    assert PruneQuotes([QuoteIn(a), QuoteIn(b)], b.sip - QUOTE_KEEP_NS) ==
           PruneQuotes([QuoteIn(b)], b.sip - QUOTE_KEEP_NS);
    assert Run(m, [a, b]) == Step(r, [a, b][1]);
    assert Run(m, [a, b]).quotes == [QuoteIn(b)];
  }

  // ---------- Window sums are exact ----------

  ghost predicate TradesNotAfter(s: seq<MicroTrade>, i: nat, j: nat)
    requires i <= j < |s|
  {
    s[i].ts <= s[j].ts
  }

  ghost predicate TradesInOrder(s: seq<MicroTrade>) {
    forall i, j :: 0 <= i <= j < |s| ==> TradesNotAfter(s, i, j)
  }

  /** The kept trades are the end of the history; the newest dropped one was pruned as too old or had at
      least 1024 trades after it. */
  ghost predicate KeepsEnd(kept: seq<MicroTrade>, full: seq<MicroTrade>, maxTS: int) {
    && |kept| <= |full| && |kept| <= MAX_TRADES
    && kept == full[|full| - |kept|..]
    && (|kept| < |full| ==> DroppedOk(full, |full| - |kept| - 1, maxTS))
  }

  ghost predicate DroppedOk(full: seq<MicroTrade>, i: nat, maxTS: int)
    requires i < |full|
  {
    full[i].ts < maxTS - TRADE_KEEP_NS || |full| - i > MAX_TRADES
  }

  lemma {:induction false} PruneKeepsEnd(kept: seq<MicroTrade>, full: seq<MicroTrade>, maxTS: int)
    requires KeepsEnd(kept, full, maxTS)
    ensures KeepsEnd(PruneTrades(kept, maxTS - TRADE_KEEP_NS), full, maxTS)
    decreases |kept|
  {
    if kept != [] && kept[0].ts < maxTS - TRADE_KEEP_NS {
      assert kept[1..] == full[|full| - |kept| + 1..];
      PruneKeepsEnd(kept[1..], full, maxTS);
    }
  }

  lemma PushKeepsEnd(kept: seq<MicroTrade>, full: seq<MicroTrade>, t: MicroTrade, maxTS: int, later: int)
    requires KeepsEnd(kept, full, maxTS) && maxTS <= later
    ensures KeepsEnd(KeepTrade(kept, t, later), full + [t], later)
  {
    var pushed := PushBounded(kept, t, MAX_TRADES);
    var d := |full| - |kept|;
    if |kept| < MAX_TRADES {
      assert pushed == (full + [t])[d..];
    } else {
      assert pushed == (full + [t])[d + 1..];
    }
    PruneKeepsEnd(pushed, full + [t], later);
  }

  lemma LaterKeepsEnd(kept: seq<MicroTrade>, full: seq<MicroTrade>, maxTS: int, later: int)
    requires KeepsEnd(kept, full, maxTS) && maxTS <= later
    ensures KeepsEnd(kept, full, later)
  {
  }

  /** What one event does to the kept trades and the clock. */
  lemma StepTrades(m: Micro, e: Event)
    ensures var r := Step(m, e);
            if TradeAccepted(e)
            then r.maxTS == Max(e.sip, m.maxTS) && r.trades == KeepTrade(m.trades, TradeIn(m, e), r.maxTS)
            else r.maxTS >= m.maxTS && r.trades == m.trades
  {
    hide KeepTrade, KeepQuote, IsBuy;
  }

  lemma {:induction false} RunKeepsEnd(m: Micro, es: seq<Event>)
    requires Blank(m)
    ensures KeepsEnd(Run(m, es).trades, AllTrades(m, es), Run(m, es).maxTS)
  {
    if es != [] {
      hide KeepsEnd, KeepTrade, TradeIn, TradeAccepted, Step;
      var before, e := es[..|es| - 1], es[|es| - 1];
      RunKeepsEnd(m, before);
      var r := Run(m, before);
      StepTrades(r, e);
      if TradeAccepted(e) {
        MaxIsGreatest(e.sip, r.maxTS);
        PushKeepsEnd(r.trades, AllTrades(m, before), TradeIn(r, e), r.maxTS, Max(e.sip, r.maxTS));
      } else {
        assert AllTrades(m, es) == AllTrades(m, before);
        LaterKeepsEnd(r.trades, AllTrades(m, before), r.maxTS, Run(m, es).maxTS);
      }
    }
  }

  function Both(a: Sums, b: Sums): Sums {
    Sums(Add(a.volume, b.volume), Add(a.notional, b.notional), Add(a.buys, b.buys), Add(a.sells, b.sells),
         a.recent + b.recent)
  }

  lemma {:induction false} EarlierAddNothing(trades: seq<MicroTrade>, after: int, recentAfter: int, now: int)
    requires forall i :: 0 <= i < |trades| ==> trades[i].ts <= after
    ensures DirectSums(trades, after, recentAfter, now) == NOTHING
  {
    if trades != [] { EarlierAddNothing(trades[..|trades| - 1], after, recentAfter, now); }
  }

  /** Walking backwards and stopping early adds up the whole window, when trades are in order. */
  lemma {:induction false} BackwardIsDirect(trades: seq<MicroTrade>, acc: Sums, after: int, recentAfter: int, now: int)
    requires TradesInOrder(trades)
    ensures BackwardSums(trades, acc, after, recentAfter, now) == Both(acc, DirectSums(trades, after, recentAfter, now))
    decreases |trades|
  {
    if trades != [] {
      var rest, t := trades[..|trades| - 1], trades[|trades| - 1];
      forall i, j | 0 <= i <= j < |rest|
        ensures TradesNotAfter(rest, i, j)
      {
        assert TradesNotAfter(trades, i, j);
      }
      forall i | 0 <= i < |trades|
        ensures trades[i].ts <= t.ts
      {
        assert TradesNotAfter(trades, i, |trades| - 1);
      }
      if t.ts <= after {
        EarlierAddNothing(trades, after, recentAfter, now);
      } else {
        BackwardIsDirect(rest, if t.ts > now then acc else AddTrade(acc, t, recentAfter), after, recentAfter, now);
      }
    }
  }

  /** Sums over the end of a history, when nothing before it is in the window. */
  lemma {:induction false} DirectOfEnd(full: seq<MicroTrade>, d: nat, after: int, recentAfter: int, now: int)
    requires d <= |full| && forall i :: 0 <= i < d ==> full[i].ts <= after
    ensures DirectSums(full[d..], after, recentAfter, now) == DirectSums(full, after, recentAfter, now)
  {
    if d == |full| {
      EarlierAddNothing(full, after, recentAfter, now);
    } else {
      assert full[d..][..|full| - d - 1] == full[..|full| - 1][d..];
      DirectOfEnd(full[..|full| - 1], d, after, recentAfter, now);
    }
  }

  lemma {:induction false} CountSuffix(full: seq<MicroTrade>, d: nat, after: int)
    requires d <= |full| && forall i :: d <= i < |full| ==> full[i].ts > after
    ensures CountIn(full, after) >= |full| - d
  {
    if d < |full| { CountSuffix(full[..|full| - 1], d, after); }
  }

  lemma AddNothing(s: Sums)
    ensures Both(NOTHING, s) == s
  {
  }

  /** With at most 1024 trades after the window's start, everything dropped lies outside the window. */
  lemma DroppedAreOutside(kept: seq<MicroTrade>, full: seq<MicroTrade>, maxTS: int, after: int)
    requires KeepsEnd(kept, full, maxTS) && TradesInOrder(full)
    requires CountIn(full, after) <= MAX_TRADES && after >= maxTS - TRADE_KEEP_NS
    ensures forall i :: 0 <= i < |full| - |kept| ==> full[i].ts <= after
  {
    var d := |full| - |kept|;
    if d > 0 && full[d - 1].ts > after {
      forall i | d - 1 <= i < |full|
        ensures full[i].ts > after
      {
        assert TradesNotAfter(full, d - 1, i);
      }
      CountSuffix(full, d - 1, after);
    }
    forall i | 0 <= i < d
      ensures full[i].ts <= after
    {
      assert TradesNotAfter(full, i, d - 1);
    }
  }

  /** The 5 s volume, notional and buy and sell volume and the 3 s count of a snapshot are the direct sums
      over every trade ever accepted, as long as at most 1024 of them fall in the window. */
  lemma WindowSumsAreExact(m: Micro, es: seq<Event>, after: int, recentAfter: int)
    requires Blank(m) && TradesInOrder(AllTrades(m, es))
    requires CountIn(AllTrades(m, es), after) <= MAX_TRADES && after >= Run(m, es).maxTS - TRADE_KEEP_NS
    ensures BackwardSums(Run(m, es).trades, NOTHING, after, recentAfter, Run(m, es).maxTS) ==
            DirectSums(AllTrades(m, es), after, recentAfter, Run(m, es).maxTS)
  {
    hide Run, AllTrades, CountIn, DirectSums, BackwardSums;
    var r, full := Run(m, es), AllTrades(m, es);
    var d := |full| - |r.trades|;
    RunKeepsEnd(m, es);
    DroppedAreOutside(r.trades, full, r.maxTS, after);
    forall i, j | 0 <= i <= j < |r.trades|
      ensures TradesNotAfter(r.trades, i, j)
    {
      assert TradesNotAfter(full, d + i, d + j);
    }
    BackwardIsDirect(r.trades, NOTHING, after, recentAfter, r.maxTS);
    DirectOfEnd(full, d, after, recentAfter, r.maxTS);
    AddNothing(DirectSums(full, after, recentAfter, r.maxTS));
  }
}
