/** The running state of one symbol in 44-slot mode: cumulative session state, the bar being
    built, and the duplicate-quote filter. The functions say what one tick or one bar close does;
    the class does it field by field, and its `View` follows the functions. */
module SymbolHistory {
  import opened Floats
  import opened Feed
  import opened QuoteBook

  const VENUES := 256
  const ONE_SECOND := 1_000_000_000
  const ONE_MS := 1_000_000

  const NO_ENTRY := QuoteEntry(0, 0, Num(0.0), Num(0.0), false)

  /** State that no bar close resets. */
  datatype Session = Session(cumQuotes: nat, cumTrades: nat, lastQuoteSIP: int,
                             lastBid: Float, lastAsk: Float, lastBidSz: Float, lastAskSz: Float, lastTrade: Float,
                             hasPrevTrade: bool, prevTrade: Float, lastIsBuy: bool,
                             venueLatest: seq<QuoteEntry>,
                             venueBid: seq<Best>, venueAsk: seq<Best>)

  /** Whether a venue has quoted this side, and its last price. */
  datatype Best = Best(has: bool, px: Float)

  /** The last quote let through by the duplicate filter. */
  datatype Baseline = Baseline(has: bool, bid: Float, ask: Float, bidSz: Float, askSz: Float, dropped: nat)

  datatype State = State(session: Session, book: Book, baseline: Baseline)

  datatype Flow = Flow(vol: Float, notional: Float, trades: nat, midDelta: Float)

  /** An extreme price and when it was set; 0 is "not set". */
  datatype Extreme = Extreme(px: Float, at: int)

  datatype Bar = Bar(buy: Flow, sell: Flow, quotes: nat, darkBid: Float, darkAsk: Float,
                     high: Extreme, low: Extreme, highBid: Extreme, lowBid: Extreme, highAsk: Extreme, lowAsk: Extreme,
                     prints: seq<Print>)

  datatype Print = Print(px: Float, sz: Float)

  datatype Hist = Hist(st: State, bar: Bar)

  const NO_FLOW := Flow(Num(0.0), Num(0.0), 0, Num(0.0))
  const NO_EXTREME := Extreme(NaN, 0)
  const EMPTY_BAR := Bar(NO_FLOW, NO_FLOW, 0, Num(0.0), Num(0.0),
                         NO_EXTREME, NO_EXTREME, NO_EXTREME, NO_EXTREME, NO_EXTREME, NO_EXTREME, [])

  const NO_BEST := Best(false, Num(0.0))

  function Repeat<T>(n: nat, x: T): (r: seq<T>)
    ensures |r| == n && forall i :: 0 <= i < n ==> r[i] == x
  {
    seq(n, _ => x)
  }

  function InitialState(): State {
    State(Session(0, 0, 0, NaN, NaN, NaN, NaN, NaN, false, Num(0.0), true,
                  Repeat(VENUES, NO_ENTRY), Repeat(VENUES, NO_BEST), Repeat(VENUES, NO_BEST)),
          QuoteBook.EMPTY,
          Baseline(false, Num(0.0), Num(0.0), Num(0.0), Num(0.0), 0))
  }

  // ---------- Quotes ----------

  predicate ValidPrices(t: Tick) {
    Positive(t.bidPx) && Positive(t.askPx)
  }

  predicate Restates(b: Baseline, t: Tick) {
    b.has && Equal(b.bid, t.bidPx) && Equal(b.ask, t.askPx) && Equal(b.bidSz, t.bidSz) && Equal(b.askSz, t.askSz)
  }

  predicate Accepts(b: Baseline, t: Tick) {
    ValidPrices(t) && !Restates(b, t)
  }

  function NextBaseline(b: Baseline, t: Tick): Baseline {
    if !ValidPrices(t) then b
    else if Restates(b, t) then b.(dropped := b.dropped + 1)
    else Baseline(true, t.bidPx, t.askPx, t.bidSz, t.askSz, b.dropped)
  }

  function PartOf(t: Tick): int {
    if t.part <= 0 then t.ts else t.part
  }

  function EntryOf(t: Tick): QuoteEntry {
    QuoteEntry(t.ts, PartOf(t), t.bidPx, t.askPx, true)
  }

  function Put<T>(s: seq<T>, i: int, x: T): seq<T> {
    if 0 <= i < |s| then s[i := x] else s
  }

  /** What every accepted quote does, late or not. */
  function NoteQuote(s: Session, t: Tick): Session {
    s.(cumQuotes := s.cumQuotes + 1, lastQuoteSIP := t.ts,
       lastBid := t.bidPx, lastAsk := t.askPx, lastBidSz := t.bidSz, lastAskSz := t.askSz,
       venueLatest := Put(s.venueLatest, t.bidExch, EntryOf(t)))
  }

  /** The per-venue best prices, which only quotes inside the window touch. */
  function NoteVenues(s: Session, t: Tick): Session {
    s.(venueBid := Put(s.venueBid, t.bidExch, Best(true, t.bidPx)),
       venueAsk := Put(s.venueAsk, t.askExch, Best(true, t.askPx)))
  }

  function Raise(e: Extreme, x: Float, at: int): Extreme {
    if e.px.NaN? || Less(e.px, x) then Extreme(x, at) else e
  }

  function Lower(e: Extreme, x: Float, at: int): Extreme {
    if e.px.NaN? || Less(x, e.px) then Extreme(x, at) else e
  }

  function BarQuote(bar: Bar, t: Tick): Bar {
    bar.(quotes := bar.quotes + 1,
         highBid := Raise(bar.highBid, t.bidPx, t.ts), lowBid := Lower(bar.lowBid, t.bidPx, t.ts),
         highAsk := Raise(bar.highAsk, t.askPx, t.ts), lowAsk := Lower(bar.lowAsk, t.askPx, t.ts))
  }

  // ---------- Trades ----------

  /** The quote a trade is compared with: the prevailing one, or a newer one of the trade's own venue. */
  function Choose(s: Session, ref: QuoteEntry, t: Tick): QuoteEntry {
    var q := if 0 <= t.tradeExch < |s.venueLatest| && s.venueLatest[t.tradeExch].valid
                && s.venueLatest[t.tradeExch].part <= PartOf(t) && s.venueLatest[t.tradeExch].sip > ref.sip
             then s.venueLatest[t.tradeExch] else ref;
    if q.sip > t.ts then ref else q
  }

  function MidOf(q: QuoteEntry): Float {
    if q.valid then Mul(Num(0.5), Add(q.bid, q.ask)) else NaN
  }

  predicate HasReference(b: Book) {
    b.hasAny && b.buf != []
  }

  function BookAfterTrade(b: Book, t: Tick): Book {
    if HasReference(b) then Locate(b, t.ts - ONE_MS) else b
  }

  /** The midpoint a trade is measured against, NaN when there is no quote yet. */
  function TradeMid(st: State, t: Tick): Float {
    if HasReference(st.book) then MidOf(Choose(st.session, AtPtr(BookAfterTrade(st.book, t)), t)) else NaN
  }

  /** Lee-Ready: above the mid is a buy, below a sell; at the mid the tick test, then the last side. */
  function SideOf(s: Session, px: Float, mid: Float): bool {
    if Less(mid, px) then true
    else if Less(px, mid) then false
    else if s.hasPrevTrade && Less(s.prevTrade, px) then true
    else if s.hasPrevTrade && Less(px, s.prevTrade) then false
    else s.lastIsBuy
  }

  function NoteTrade(s: Session, px: Float, isBuy: bool): Session {
    s.(cumTrades := s.cumTrades + 1, lastTrade := px, prevTrade := px, hasPrevTrade := true, lastIsBuy := isBuy)
  }

  function AddFlow(f: Flow, sz: Float, px: Float, mid: Float, delta: Float): Flow {
    Flow(Add(f.vol, sz), Add(f.notional, Mul(sz, px)), f.trades + 1,
         if Positive(mid) then Add(f.midDelta, Mul(sz, delta)) else f.midDelta)
  }

  function BarTrade(bar: Bar, t: Tick, isBuy: bool, mid: Float): Bar {
    bar.(buy := if isBuy then AddFlow(bar.buy, t.size, t.price, mid, Sub(t.price, mid)) else bar.buy,
         sell := if isBuy then bar.sell else AddFlow(bar.sell, t.size, t.price, mid, Sub(mid, t.price)),
         darkAsk := if t.isDark && isBuy then Add(bar.darkAsk, Mul(t.size, t.price)) else bar.darkAsk,
         darkBid := if t.isDark && !isBuy then Add(bar.darkBid, Mul(t.size, t.price)) else bar.darkBid,
         high := Raise(bar.high, t.price, t.ts), low := Lower(bar.low, t.price, t.ts),
         prints := bar.prints + [Print(t.price, t.size)])
  }

  // ---------- One tick ----------

  /** The part of the state that outlives the bar, after one tick; `late` ticks stay out of bars and venue tables. */
  function StepState(st: State, t: Tick, late: bool): State {
    match t.kind
    case TickQuote =>
      if Accepts(st.baseline, t) then
        State(if late then NoteQuote(st.session, t) else NoteVenues(NoteQuote(st.session, t), t),
              Record(st.book, EntryOf(t)), NextBaseline(st.baseline, t))
      else
        st.(baseline := NextBaseline(st.baseline, t))
    case TickTrade =>
      if Positive(t.price) then
        st.(session := NoteTrade(st.session, t.price, SideOf(st.session, t.price, TradeMid(st, t))),
            book := BookAfterTrade(st.book, t))
      else st
  }

  /** The bar after one tick that is not late, given the state before it. */
  function StepBar(bar: Bar, st: State, t: Tick): Bar {
    match t.kind
    case TickQuote => if Accepts(st.baseline, t) then BarQuote(bar, t) else bar
    case TickTrade =>
      if Positive(t.price) then
        BarTrade(bar, t, SideOf(st.session, t.price, TradeMid(st, t)), TradeMid(st, t))
      else bar
  }

  function Absorb(h: Hist, t: Tick, late: bool): Hist {
    Hist(StepState(h.st, t, late), if late then h.bar else StepBar(h.bar, h.st, t))
  }

  /** A quote that the filter swallows; it changes nothing but the filter. */
  predicate Swallowed(st: State, t: Tick) {
    t.kind == TickQuote && !Accepts(st.baseline, t)
  }

  // ---------- Closing a bar ----------

  function CountAt(venues: seq<Best>, best: Float): nat {
    if venues == [] then 0
    else CountAt(venues[..|venues| - 1], best)
         + (if venues[|venues| - 1].has && Equal(venues[|venues| - 1].px, best) then 1 else 0)
  }

  /** Weight of one trade in the volume-weighted moments: size times the k-th power of the deviation. */
  function Weight(k: nat, p: Print, mean: Float): Float {
    match k
    case 0 => p.sz
    case 1 => Mul(p.sz, p.px)
    case 2 => Mul(Mul(p.sz, Sub(p.px, mean)), Sub(p.px, mean))
    case _ => Mul(Mul(Mul(p.sz, Sub(p.px, mean)), Sub(p.px, mean)), Sub(p.px, mean))
  }

  function Moment(k: nat, prints: seq<Print>, mean: Float): Float {
    if prints == [] then Num(0.0)
    else Add(Moment(k, prints[..|prints| - 1], mean), Weight(k, prints[|prints| - 1], mean))
  }

  /** Volume-weighted standard deviation and skew of the trade prices (slots 28 and 29). */
  function PriceSpread(prints: seq<Print>, sqrt: Float -> Float): (Float, Float) {
    if prints == [] then (NaN, NaN)
    else
      var w := Moment(0, prints, NaN);
      if Positive(w) then
        var mean := Div(Moment(1, prints, NaN), w);
        var std := sqrt(Div(Moment(2, prints, mean), w));
        (std, if Less(Num(0.000000001), std)
              then Div(Moment(3, prints, mean), Mul(Mul(Mul(w, std), std), std)) else Num(0.0))
      else (Num(0.0), Num(0.0))
  }

  function Offset(e: Extreme, startNS: int): Float {
    if e.at > 0 then OfInt(e.at - startNS) else Num(-1.0)
  }

  /** How many venues quote the current best price; NaN when there is no such price. */
  function AtBest(quoted: bool, venues: seq<Best>, best: Float): Float {
    if quoted && best.Num? then OfInt(CountAt(venues, best)) else NaN
  }

  /** Slot `k` of a closed bar, given the venue counts and the price moments. */
  function BarSlot(k: nat, s: Session, quoted: bool, bar: Bar, closeNS: int, atBid: Float, atAsk: Float,
                   spread: (Float, Float)): Float
  {
    var startNS := closeNS - ONE_SECOND;
    match k
    case 0 => bar.buy.vol
    case 1 => bar.sell.vol
    case 2 => bar.buy.notional
    case 3 => bar.sell.notional
    case 4 => OfInt(bar.buy.trades)
    case 5 => OfInt(bar.sell.trades)
    case 6 => bar.buy.midDelta
    case 7 => bar.sell.midDelta
    case 8 => OfInt(bar.quotes)
    case 9 => OfInt(bar.quotes)
    case 10 => bar.darkBid
    case 11 => bar.darkAsk
    case 12 => OfInt(bar.quotes)
    case 13 => if quoted then Div(OfInt(closeNS - s.lastQuoteSIP), Num(1000000.0)) else Num(0.0)
    case 14 => atBid
    case 15 => atAsk
    case 16 => bar.high.px
    case 17 => bar.low.px
    case 18 => bar.highBid.px
    case 19 => bar.lowBid.px
    case 20 => bar.highAsk.px
    case 21 => bar.lowAsk.px
    case 22 => s.lastBid
    case 23 => s.lastAsk
    case 24 => s.lastBidSz
    case 25 => s.lastAskSz
    case 26 => s.lastTrade
    case 27 => if quoted then OfInt(s.lastQuoteSIP) else NaN
    case 28 => spread.0
    case 29 => spread.1
    case 30 => Offset(bar.high, startNS)
    case 31 => Offset(bar.low, startNS)
    case 32 => Offset(bar.highAsk, startNS)
    case 33 => Offset(bar.lowAsk, startNS)
    case 34 => OfInt(s.cumQuotes)
    case _ => OfInt(s.cumTrades)
  }

  /** Slots 0..35, given the venue counts and the price moments. */
  function Layout(s: Session, quoted: bool, bar: Bar, closeNS: int, atBid: Float, atAsk: Float,
                  spread: (Float, Float)): (r: seq<Float>)
    ensures |r| == 36
    ensures forall k :: 0 <= k < 36 ==> r[k] == BarSlot(k, s, quoted, bar, closeNS, atBid, atAsk, spread)
  {
    seq(36, k requires 0 <= k < 36 => BarSlot(k, s, quoted, bar, closeNS, atBid, atAsk, spread))
  }

  /** Slots 0..35 of the bar that closes at `closeNS`. */
  function BarSlots(st: State, bar: Bar, closeNS: int, sqrt: Float -> Float): seq<Float> {
    Layout(st.session, st.book.hasAny, bar, closeNS,
           AtBest(st.book.hasAny, st.session.venueBid, st.session.lastBid),
           AtBest(st.book.hasAny, st.session.venueAsk, st.session.lastAsk),
           PriceSpread(bar.prints, sqrt))
  }

  /** Slots 36..43: the point-in-time state. */
  function TerminalSlots(st: State): seq<Float> {
    var s := st.session;
    [s.lastBid, s.lastAsk, s.lastBidSz, s.lastAskSz, s.lastTrade,
     if st.book.hasAny then OfInt(s.lastQuoteSIP) else NaN,
     OfInt(s.cumQuotes), OfInt(s.cumTrades)]
  }

  // ---------- The class ----------

  class History {
    var session: Session
    var hasAnyQuote: bool
    var firstQuote: QuoteEntry
    var quoteBuf: seq<QuoteEntry>
    var quoteGPtr: nat
    var baseline: Baseline
    var bar: Bar

    function BookView(): Book
      reads this
    {
      Book(hasAnyQuote, firstQuote, quoteBuf, quoteGPtr)
    }

    function View(): Hist
      reads this
    {
      Hist(State(session, BookView(), baseline), bar)
    }

    ghost predicate Valid()
      reads this
    {
      quoteGPtr <= |quoteBuf|
    }

    constructor ()
      ensures Valid() && View() == Hist(InitialState(), EMPTY_BAR)
    {
      session := InitialState().session;
      baseline := InitialState().baseline;
      hasAnyQuote, firstQuote, quoteBuf, quoteGPtr := false, NO_ENTRY, [], 0;
      bar := EMPTY_BAR;
    }

    method AcceptQuote(t: Tick) returns (ok: bool)
      requires Valid()
      modifies this`baseline
      ensures Valid() && ok == Accepts(old(baseline), t) && baseline == NextBaseline(old(baseline), t)
    {
      if !ValidPrices(t) {
        return false;
      }
      if baseline.has && Equal(baseline.bid, t.bidPx) && Equal(baseline.ask, t.askPx)
         && Equal(baseline.bidSz, t.bidSz) && Equal(baseline.askSz, t.askSz) {
        baseline := baseline.(dropped := baseline.dropped + 1);
        return false;
      }
      baseline := baseline.(has := true, bid := t.bidPx, ask := t.askPx);
      baseline := baseline.(bidSz := t.bidSz, askSz := t.askSz);
      return true;
    }

    /** Cumulative effect of an accepted quote. */
    method RecordQuoteState(t: Tick)
      requires Valid()
      modifies this`session, this`hasAnyQuote, this`firstQuote, this`quoteBuf, this`quoteGPtr
      ensures Valid() && session == NoteQuote(old(session), t) && BookView() == Record(old(BookView()), EntryOf(t))
    {
      var q := EntryOf(t);
      session := session.(cumQuotes := session.cumQuotes + 1, lastQuoteSIP := t.ts,
                          lastBid := t.bidPx, lastAsk := t.askPx, lastBidSz := t.bidSz, lastAskSz := t.askSz);
      if 0 <= t.bidExch < |session.venueLatest| {
        session := session.(venueLatest := session.venueLatest[t.bidExch := q]);
      }
      AppendQuote(q);
    }

    /** Appends to the buffer and compacts it once it is long and the cursor is far in. */
    method AppendQuote(q: QuoteEntry)
      requires quoteGPtr <= |quoteBuf|
      modifies this`hasAnyQuote, this`firstQuote, this`quoteBuf, this`quoteGPtr
      ensures quoteGPtr <= |quoteBuf| && BookView() == Record(old(BookView()), q)
    {
      ghost var b := BookView();
      if !hasAnyQuote {
        hasAnyQuote, firstQuote := true, q;
      }
      quoteBuf := quoteBuf + [q];
      assert BookView() == Append(b, q);
      CompactBuffer(q.sip);
    }

    method CompactBuffer(newest: int)
      requires quoteGPtr <= |quoteBuf| && hasAnyQuote
      modifies this`quoteBuf, this`quoteGPtr
      ensures quoteGPtr <= |quoteBuf| && BookView() == Compact(old(BookView()), newest)
    {
      if |quoteBuf| > COMPACT_LEN && quoteGPtr > COMPACT_PTR {
        var keep := OldestToKeep(quoteGPtr - 1, newest - COMPACT_NS);
        if keep > COMPACT_MIN {
          quoteBuf := quoteBuf[keep..];
          quoteGPtr := quoteGPtr - keep;
        }
      }
    }

    method OldestToKeep(from: nat, cutoff: int) returns (keep: nat)
      requires from < |quoteBuf|
      ensures keep == KeepFrom(quoteBuf, from, cutoff)
    {
      keep := from;
      while keep > 0 && quoteBuf[keep].sip >= cutoff
        invariant keep <= from
        invariant KeepFrom(quoteBuf, keep, cutoff) == KeepFrom(quoteBuf, from, cutoff)
      {
        keep := keep - 1;
      }
    }

    method IngestPreWindowQuote(t: Tick)
      requires Valid()
      modifies this`session, this`hasAnyQuote, this`firstQuote, this`quoteBuf, this`quoteGPtr
      ensures Valid()
      ensures session == if ValidPrices(t) then NoteQuote(old(session), t) else old(session)
      ensures BookView() == if ValidPrices(t) then Record(old(BookView()), EntryOf(t)) else old(BookView())
    {
      if !ValidPrices(t) {
        return;
      }
      RecordQuoteState(t);
    }

    method IngestQuote(t: Tick)
      requires Valid()
      modifies this`session, this`hasAnyQuote, this`firstQuote, this`quoteBuf, this`quoteGPtr, this`bar
      ensures Valid()
      ensures session == if ValidPrices(t) then NoteVenues(NoteQuote(old(session), t), t) else old(session)
      ensures BookView() == if ValidPrices(t) then Record(old(BookView()), EntryOf(t)) else old(BookView())
      ensures bar == if ValidPrices(t) then BarQuote(old(bar), t) else old(bar)
    {
      if !ValidPrices(t) {
        return;
      }
      RecordQuoteState(t);
      if 0 <= t.bidExch < |session.venueBid| {
        session := session.(venueBid := session.venueBid[t.bidExch := Best(true, t.bidPx)]);
      }
      if 0 <= t.askExch < |session.venueAsk| {
        session := session.(venueAsk := session.venueAsk[t.askExch := Best(true, t.askPx)]);
      }
      AccumulateQuote(t);
    }

    method AccumulateQuote(t: Tick)
      requires Valid()
      modifies this`bar
      ensures Valid() && bar == BarQuote(old(bar), t)
    {
      bar := bar.(quotes := bar.quotes + 1);
      if bar.highBid.px.NaN? || Less(bar.highBid.px, t.bidPx) {
        bar := bar.(highBid := Extreme(t.bidPx, t.ts));
      }
      if bar.lowBid.px.NaN? || Less(t.bidPx, bar.lowBid.px) {
        bar := bar.(lowBid := Extreme(t.bidPx, t.ts));
      }
      if bar.highAsk.px.NaN? || Less(bar.highAsk.px, t.askPx) {
        bar := bar.(highAsk := Extreme(t.askPx, t.ts));
      }
      if bar.lowAsk.px.NaN? || Less(t.askPx, bar.lowAsk.px) {
        bar := bar.(lowAsk := Extreme(t.askPx, t.ts));
      }
    }

    /** Moves the cursor to the target: forward step by step, or by binary search when it is already past it. */
    method MoveQuotePtr(target: int)
      requires Valid()
      modifies this`quoteGPtr
      ensures Valid() && quoteGPtr == MovePtr(old(BookView()), target)
    {
      if quoteGPtr > 0 && quoteGPtr <= |quoteBuf| && quoteBuf[quoteGPtr - 1].sip > target {
        var lo, hi := 0, |quoteBuf|;
        while lo < hi
          invariant 0 <= lo <= hi <= |quoteBuf|
          invariant Search(quoteBuf, lo, hi, target) == Search(quoteBuf, 0, |quoteBuf|, target)
        {
          var mid := (lo + hi) / 2;
          if quoteBuf[mid].sip <= target {
            lo := mid + 1;
          } else {
            hi := mid;
          }
        }
        quoteGPtr := lo;
      } else {
        ghost var p := quoteGPtr;
        while quoteGPtr < |quoteBuf| && quoteBuf[quoteGPtr].sip <= target
          invariant quoteGPtr <= |quoteBuf|
          invariant ScanForward(quoteBuf, quoteGPtr, target) == ScanForward(quoteBuf, p, target)
          decreases |quoteBuf| - quoteGPtr
        {
          quoteGPtr := quoteGPtr + 1;
        }
      }
    }

    /** The midpoint of the chosen reference quote. */
    method ReferenceMid(t: Tick) returns (mid: Float)
      requires Valid()
      modifies this`quoteGPtr
      ensures Valid() && mid == TradeMid(old(View().st), t) && BookView() == BookAfterTrade(old(BookView()), t)
    {
      if !hasAnyQuote || |quoteBuf| == 0 {
        return NaN;
      }
      var part := if t.part <= 0 then t.ts else t.part;
      MoveQuotePtr(t.ts - ONE_MS);
      var candA := firstQuote;
      if quoteGPtr > 0 {
        var idx := quoteGPtr - 1;
        if idx >= |quoteBuf| {
          idx := |quoteBuf| - 1;
        }
        candA := quoteBuf[idx];
      }
      var choice := candA;
      if 0 <= t.tradeExch < |session.venueLatest| {
        var candB := session.venueLatest[t.tradeExch];
        if candB.valid && candB.part <= part && candB.sip > candA.sip {
          choice := candB;
        }
      }
      if choice.sip > t.ts {
        choice := candA;
      }
      mid := if choice.valid then Mul(Num(0.5), Add(choice.bid, choice.ask)) else NaN;
    }

    method ClassifyTrade(t: Tick) returns (isBuy: bool, mid: Float)
      requires Valid()
      modifies this`session, this`quoteGPtr
      ensures Valid() && mid == TradeMid(old(View().st), t) && isBuy == SideOf(old(session), t.price, mid)
      ensures session == NoteTrade(old(session), t.price, isBuy)
      ensures BookView() == BookAfterTrade(old(BookView()), t)
    {
      mid := ReferenceMid(t);
      isBuy := session.lastIsBuy;
      if Less(mid, t.price) {
        isBuy := true;
      } else if Less(t.price, mid) {
        isBuy := false;
      } else if session.hasPrevTrade {
        if Less(session.prevTrade, t.price) {
          isBuy := true;
        } else if Less(t.price, session.prevTrade) {
          isBuy := false;
        }
      }
      session := session.(cumTrades := session.cumTrades + 1, lastTrade := t.price);
      session := session.(prevTrade := t.price, hasPrevTrade := true, lastIsBuy := isBuy);
    }

    method IngestPreWindowTrade(t: Tick)
      requires Valid() && t.kind == TickTrade
      modifies this`session, this`quoteGPtr
      ensures Valid()
      ensures View() == Absorb(old(View()), t, true)
    {
      if !Positive(t.price) {
        return;
      }
      var _, _ := ClassifyTrade(t);
    }

    method IngestTrade(t: Tick)
      requires Valid() && t.kind == TickTrade
      modifies this`session, this`quoteGPtr, this`bar
      ensures Valid()
      ensures View() == Absorb(old(View()), t, false)
    {
      if !Positive(t.price) {
        return;
      }
      var isBuy, mid := ClassifyTrade(t);
      AccumulateTrade(t, isBuy, mid);
    }

    method AccumulateTrade(t: Tick, isBuy: bool, mid: Float)
      requires Valid()
      modifies this`bar
      ensures Valid() && bar == BarTrade(old(bar), t, isBuy, mid)
    {
      var notional := Mul(t.size, t.price);
      if isBuy {
        var f := bar.buy;
        f := f.(vol := Add(f.vol, t.size), notional := Add(f.notional, notional), trades := f.trades + 1);
        if Positive(mid) {
          f := f.(midDelta := Add(f.midDelta, Mul(t.size, Sub(t.price, mid))));
        }
        bar := bar.(buy := f);
      } else {
        var f := bar.sell;
        f := f.(vol := Add(f.vol, t.size), notional := Add(f.notional, notional), trades := f.trades + 1);
        if Positive(mid) {
          f := f.(midDelta := Add(f.midDelta, Mul(t.size, Sub(mid, t.price))));
        }
        bar := bar.(sell := f);
      }
      if t.isDark {
        if isBuy {
          bar := bar.(darkAsk := Add(bar.darkAsk, notional));
        } else {
          bar := bar.(darkBid := Add(bar.darkBid, notional));
        }
      }
      if bar.high.px.NaN? || Less(bar.high.px, t.price) {
        bar := bar.(high := Extreme(t.price, t.ts));
      }
      if bar.low.px.NaN? || Less(t.price, bar.low.px) {
        bar := bar.(low := Extreme(t.price, t.ts));
      }
      bar := bar.(prints := bar.prints + [Print(t.price, t.size)]);
    }

    method WeightedSum(k: nat, mean: Float) returns (sum: Float)
      ensures sum == Moment(k, bar.prints, mean)
    {
      sum := Num(0.0);
      for i := 0 to |bar.prints|
        invariant sum == Moment(k, bar.prints[..i], mean)
      {
        assert bar.prints[..i + 1][..i] == bar.prints[..i];
        sum := Add(sum, Weight(k, bar.prints[i], mean));
      }
      assert bar.prints[..|bar.prints|] == bar.prints;
    }

    method CountVenues(venues: seq<Best>, best: Float) returns (n: nat)
      ensures n == CountAt(venues, best)
    {
      n := 0;
      for v := 0 to |venues|
        invariant n == CountAt(venues[..v], best)
      {
        assert venues[..v + 1][..v] == venues[..v];
        if venues[v].has && Equal(venues[v].px, best) {
          n := n + 1;
        }
      }
      assert venues[..|venues|] == venues;
    }

    method PriceMoments(sqrt: Float -> Float) returns (std: Float, skew: Float)
      ensures (std, skew) == PriceSpread(bar.prints, sqrt)
    {
      if |bar.prints| == 0 {
        return NaN, NaN;
      }
      std, skew := Num(0.0), Num(0.0);
      var w := WeightedSum(0, NaN);
      var wx := WeightedSum(1, NaN);
      if Positive(w) {
        var mean := Div(wx, w);
        var w2 := WeightedSum(2, mean);
        std := sqrt(Div(w2, w));
        if Less(Num(0.000000001), std) {
          var w3 := WeightedSum(3, mean);
          skew := Div(w3, Mul(Mul(Mul(w, std), std), std));
        }
      }
    }

    /** Finalises slots 0..35 and empties the bar. */
    method CloseBar(closeNS: int, sqrt: Float -> Float) returns (slots: seq<Float>)
      requires Valid()
      modifies this`bar
      ensures Valid() && slots == BarSlots(old(View().st), old(bar), closeNS, sqrt) && bar == EMPTY_BAR
    {
      var atBid, atAsk := NaN, NaN;
      if hasAnyQuote && session.lastBid.Num? {
        var n := CountVenues(session.venueBid, session.lastBid);
        atBid := OfInt(n);
      }
      if hasAnyQuote && session.lastAsk.Num? {
        var n := CountVenues(session.venueAsk, session.lastAsk);
        atAsk := OfInt(n);
      }
      var std, skew := PriceMoments(sqrt);
      slots := Layout(session, hasAnyQuote, bar, closeNS, atBid, atAsk, (std, skew));
      bar := EMPTY_BAR;
    }

    method TerminalState() returns (slots: seq<Float>)
      requires Valid()
      ensures slots == TerminalSlots(View().st)
    {
      slots := [session.lastBid, session.lastAsk, session.lastBidSz, session.lastAskSz, session.lastTrade,
                if hasAnyQuote then OfInt(session.lastQuoteSIP) else NaN,
                OfInt(session.cumQuotes), OfInt(session.cumTrades)];
    }
  }
}
