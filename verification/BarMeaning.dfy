/** What the slots of a closed bar say about its ticks, without accumulators: counts, sums over one side,
    extremes with the first time they were reached, and the last quote and trade before the close. */
module BarMeaning {
  import opened Floats
  import opened Feed
  import opened SymbolHistory
  import opened Schedule
  import opened Replay
  import opened FrameContent
  import opened StateMeaning

  /** A tick that entered a bar; trades with the side and the mid they were given on arrival. */
  datatype Entered = EnteredQuote(t: Tick) | EnteredTrade(t: Tick, isBuy: bool, mid: Float)

  /** What of one tick enters a bar. */
  function Entering(st: State, t: Tick): seq<Entered> {
    match t.kind
    case TickQuote => if Accepts(st.baseline, t) then [EnteredQuote(t)] else []
    case TickTrade =>
      if Positive(t.price) then [EnteredTrade(t, SideOf(st.session, t.price, TradeMid(st, t)), TradeMid(st, t))] else []
  }

  /** Everything of symbol `u` that entered the bar of a second, in order. */
  function EnteredIn(cfg: Config, first: nat, u: nat, ticks: seq<Tick>, second: nat): seq<Entered> {
    if ticks == [] then []
    else
      var before := ticks[..|ticks| - 1];
      var t := ticks[|ticks| - 1];
      if Of(cfg, u, t) && second - cfg.cadence <= t.ts < second then
        EnteredIn(cfg, first, u, before, second) + Entering(StateBefore(cfg, first, u, before, second), t)
      else EnteredIn(cfg, first, u, before, second)
  }

  /** The same said of the symbol's own ticks alone: of those from `lo` on, the accepted quotes, and the priced trades
      with the side and the reference mid that the ticks before them give. */
  function Joined(own: seq<Tick>, lo: int): seq<Entered> {
    if own == [] then []
    else
      var before, t := own[..|own| - 1], Last(own);
      Joined(before, lo) + (if t.ts < lo then [] else JoinedTick(before, t))
  }

  function JoinedTick(before: seq<Tick>, t: Tick): seq<Entered> {
    if Fresh(Accepted(before), t) then [EnteredQuote(t)]
    else if IsPriced(t) then [EnteredTrade(t, SideGiven(before, t), ReferenceMid(before, t))]
    else []
  }

  lemma EnteringIsJoined(own: seq<Tick>, from: int, t: Tick)
    requires InTimeOrder(own) && NotAfterTick(own, t.ts)
    ensures Entering(Fold(own, from), t) == JoinedTick(own, t)
  {
    hide Fold, Accepted, TradeMid, SideOf, ReferenceMid, SideGiven, Accepts, Fresh, QuotesMean, TradesMean, VenuesMean;
    FoldMeans(own, from);
    AcceptsIsFresh(Fold(own, from), Accepted(own), t);
    NotFresh(Accepted(own), t);
    TradeMidIsReference(own, from, t);
    SideIsGiven(own, from, t);
  }

  /** What entered a bar. For ticks in time order it is exactly the accepted quotes and priced trades of the symbol in
      the second; every trade with the mid of the quote that prevailed in the full history of accepted quotes,
      and the side that mid and the trades before it decide. */
  lemma {:induction false} EnteredIsJoined(cfg: Config, first: nat, u: nat, ticks: seq<Tick>, second: nat)
    requires InTimeOrder(ticks)
    ensures EnteredIn(cfg, first, u, ticks, second) == Joined(Own(cfg, u, ticks, second), second - cfg.cadence)
  {
    if ticks != [] {
      hide Entering, JoinedTick, InTimeOrder, StateBefore;
      var before, t := ticks[..|ticks| - 1], Last(ticks);
      var own := Own(cfg, u, before, second);
      InitInOrder(ticks);
      EnteredIsJoined(cfg, first, u, before, second);
      assert (own + [t])[..|own|] == own && own + [] == own;
      if Of(cfg, u, t) && t.ts < second {
        OwnBefore(cfg, u, ticks, second);
        StateIsFold(cfg, first, u, before, second);
        EnteringIsJoined(own, first - cfg.cadence, t);
        var joined := Joined(own, second - cfg.cadence);
        assert joined + [] == joined;
      }
    }
  }

  lemma OwnBefore(cfg: Config, u: nat, ticks: seq<Tick>, x: int)
    requires InTimeOrder(ticks) && ticks != []
    ensures var own := Own(cfg, u, ticks[..|ticks| - 1], x); InTimeOrder(own) && NotAfterTick(own, Last(ticks).ts)
  {
    var before := ticks[..|ticks| - 1];
    InitInOrder(ticks);
    LastIsLatest(ticks);
    OwnInOrder(cfg, u, before, x);
    if before != [] { assert before[|before| - 1].ts <= Last(ticks).ts; }
  }

  // ---------- Counts and sums ----------

  function QuoteCount(es: seq<Entered>): nat {
    if es == [] then 0 else QuoteCount(es[..|es| - 1]) + (if es[|es| - 1].EnteredQuote? then 1 else 0)
  }

  /** The trades of one side. */
  function Side(es: seq<Entered>, isBuy: bool): seq<Entered> {
    if es == [] then []
    else
      var e := es[|es| - 1];
      Side(es[..|es| - 1], isBuy) + (if e.EnteredTrade? && e.isBuy == isBuy then [e] else [])
  }

  function Total(xs: seq<Float>): Float {
    if xs == [] then Num(0.0) else Add(Total(xs[..|xs| - 1]), xs[|xs| - 1])
  }

  function Sizes(es: seq<Entered>): (r: seq<Float>)
    ensures |r| == |es|
  {
    seq(|es|, i requires 0 <= i < |es| => es[i].t.size)
  }

  function Notionals(es: seq<Entered>): (r: seq<Float>)
    ensures |r| == |es|
  {
    seq(|es|, i requires 0 <= i < |es| => Mul(es[i].t.size, es[i].t.price))
  }

  /** The same, counting only trades off the lit market. */
  function DarkNotionals(es: seq<Entered>): seq<Float> {
    if es == [] then []
    else
      DarkNotionals(es[..|es| - 1])
      + (if es[|es| - 1].t.isDark then [Mul(es[|es| - 1].t.size, es[|es| - 1].t.price)] else [])
  }

  /** How much better than the mid a trade was done: above it for buys, below it for sells. */
  function Edge(e: Entered): Float
    requires e.EnteredTrade?
  {
    if e.isBuy then Sub(e.t.price, e.mid) else Sub(e.mid, e.t.price)
  }

  /** Size times edge of the trades that had a mid. */
  function Edges(es: seq<Entered>): seq<Float> {
    if es == [] then []
    else
      var e := es[|es| - 1];
      Edges(es[..|es| - 1]) + (if e.EnteredTrade? && Positive(e.mid) then [Mul(e.t.size, Edge(e))] else [])
  }

  function Prints(es: seq<Entered>): seq<Print> {
    if es == [] then []
    else
      var e := es[|es| - 1];
      Prints(es[..|es| - 1]) + (if e.EnteredTrade? then [Print(e.t.price, e.t.size)] else [])
  }

  // ---------- Extremes ----------

  datatype Point = Point(px: Float, at: int)

  function TradePoints(es: seq<Entered>): seq<Point> {
    if es == [] then []
    else
      TradePoints(es[..|es| - 1])
      + (if es[|es| - 1].EnteredTrade? then [Point(es[|es| - 1].t.price, es[|es| - 1].t.ts)] else [])
  }

  function BidPoints(es: seq<Entered>): seq<Point> {
    if es == [] then []
    else
      BidPoints(es[..|es| - 1])
      + (if es[|es| - 1].EnteredQuote? then [Point(es[|es| - 1].t.bidPx, es[|es| - 1].t.ts)] else [])
  }

  function AskPoints(es: seq<Entered>): seq<Point> {
    if es == [] then []
    else
      AskPoints(es[..|es| - 1])
      + (if es[|es| - 1].EnteredQuote? then [Point(es[|es| - 1].t.askPx, es[|es| - 1].t.ts)] else [])
  }

  ghost predicate AllNumbers(ps: seq<Point>) {
    forall i :: 0 <= i < |ps| ==> ps[i].px.Num?
  }

  predicate FirstMaxAt(ps: seq<Point>, i: nat) {
    && i < |ps|
    && (forall j :: 0 <= j < |ps| ==> !Less(ps[i].px, ps[j].px))
    && (forall j :: 0 <= j < i ==> Less(ps[j].px, ps[i].px))
  }

  predicate FirstMinAt(ps: seq<Point>, i: nat) {
    && i < |ps|
    && (forall j :: 0 <= j < |ps| ==> !Less(ps[j].px, ps[i].px))
    && (forall j :: 0 <= j < i ==> Less(ps[i].px, ps[j].px))
  }

  /** `e` is the greatest of the points with the first time it was reached; unset if there is none. */
  ghost predicate IsHigh(e: Extreme, ps: seq<Point>) {
    if ps == [] then e == NO_EXTREME else exists i: nat :: FirstMaxAt(ps, i) && e == Extreme(ps[i].px, ps[i].at)
  }

  ghost predicate IsLow(e: Extreme, ps: seq<Point>) {
    if ps == [] then e == NO_EXTREME else exists i: nat :: FirstMinAt(ps, i) && e == Extreme(ps[i].px, ps[i].at)
  }

  lemma RaiseIsHigh(e: Extreme, ps: seq<Point>, p: Point)
    requires IsHigh(e, ps) && AllNumbers(ps) && p.px.Num?
    ensures IsHigh(Raise(e, p.px, p.at), ps + [p])
  {
    var all := ps + [p];
    if ps == [] {
      assert FirstMaxAt(all, 0);
    } else {
      var i: nat :| FirstMaxAt(ps, i) && e == Extreme(ps[i].px, ps[i].at);
      if Less(e.px, p.px) { assert FirstMaxAt(all, |ps|); } else { assert FirstMaxAt(all, i); }
    }
  }

  lemma LowerIsLow(e: Extreme, ps: seq<Point>, p: Point)
    requires IsLow(e, ps) && AllNumbers(ps) && p.px.Num?
    ensures IsLow(Lower(e, p.px, p.at), ps + [p])
  {
    var all := ps + [p];
    if ps == [] {
      assert FirstMinAt(all, 0);
    } else {
      var i: nat :| FirstMinAt(ps, i) && e == Extreme(ps[i].px, ps[i].at);
      if Less(p.px, e.px) { assert FirstMinAt(all, |ps|); } else { assert FirstMinAt(all, i); }
    }
  }

  // ---------- The accumulators mean this ----------

  ghost predicate FlowIs(f: Flow, es: seq<Entered>) {
    && f.trades == |es| && f.vol == Total(Sizes(es)) && f.notional == Total(Notionals(es))
    && f.midDelta == Total(Edges(es))
  }

  ghost predicate SumsAre(b: Bar, es: seq<Entered>) {
    && b.quotes == QuoteCount(es) && b.prints == Prints(es)
    && FlowIs(b.buy, Side(es, true)) && FlowIs(b.sell, Side(es, false))
    && b.darkAsk == Total(DarkNotionals(Side(es, true))) && b.darkBid == Total(DarkNotionals(Side(es, false)))
  }

  ghost predicate ExtremesAre(b: Bar, es: seq<Entered>) {
    && IsHigh(b.high, TradePoints(es)) && IsLow(b.low, TradePoints(es))
    && IsHigh(b.highBid, BidPoints(es)) && IsLow(b.lowBid, BidPoints(es))
    && IsHigh(b.highAsk, AskPoints(es)) && IsLow(b.lowAsk, AskPoints(es))
    && AllNumbers(TradePoints(es)) && AllNumbers(BidPoints(es)) && AllNumbers(AskPoints(es))
  }

  function AddEntered(b: Bar, e: Entered): Bar {
    match e
    case EnteredQuote(t) => BarQuote(b, t)
    case EnteredTrade(t, isBuy, mid) => BarTrade(b, t, isBuy, mid)
  }

  /** A tick that may enter a bar: quotes with valid prices, trades with a positive price. */
  predicate Enterable(e: Entered) {
    match e
    case EnteredQuote(t) => ValidPrices(t)
    case EnteredTrade(t, _, _) => Positive(t.price)
  }

  lemma FlowAppend(f: Flow, es: seq<Entered>, e: Entered)
    requires FlowIs(f, es) && e.EnteredTrade?
    ensures FlowIs(AddFlow(f, e.t.size, e.t.price, e.mid, Edge(e)), es + [e])
  {
    var all := es + [e];
    assert all[..|es|] == es;
    var edges, edge := Edges(es), Mul(e.t.size, Edge(e));
    assert (edges + [edge])[..|edges|] == edges && edges + [] == edges;
    assert Sizes(all)[..|es|] == Sizes(es);
    assert Notionals(all)[..|es|] == Notionals(es);
  }

  lemma DarkAppend(es: seq<Entered>, e: Entered)
    ensures DarkNotionals(es + [e]) == DarkNotionals(es) + (if e.t.isDark then [Mul(e.t.size, e.t.price)] else [])
    ensures Total(DarkNotionals(es + [e])) ==
            if e.t.isDark then Add(Total(DarkNotionals(es)), Mul(e.t.size, e.t.price)) else Total(DarkNotionals(es))
  {
    assert (es + [e])[..|es|] == es;
    var ds := DarkNotionals(es);
    assert (ds + [Mul(e.t.size, e.t.price)])[..|ds|] == ds;
    assert ds + [] == ds;
  }

  lemma SideAppend(es: seq<Entered>, e: Entered, isBuy: bool)
    ensures Side(es + [e], isBuy) == if e.EnteredTrade? && e.isBuy == isBuy then Side(es, isBuy) + [e]
            else Side(es, isBuy)
  {
    assert (es + [e])[..|es|] == es;
    assert Side(es, isBuy) + [] == Side(es, isBuy);
  }

  lemma CountsAppend(es: seq<Entered>, e: Entered)
    ensures QuoteCount(es + [e]) == QuoteCount(es) + (if e.EnteredQuote? then 1 else 0)
    ensures Prints(es + [e]) == if e.EnteredTrade? then Prints(es) + [Print(e.t.price, e.t.size)] else Prints(es)
  {
    assert (es + [e])[..|es|] == es;
    assert Prints(es) + [] == Prints(es);
  }

  lemma SumsAppend(b: Bar, es: seq<Entered>, e: Entered)
    requires SumsAre(b, es)
    ensures SumsAre(AddEntered(b, e), es + [e])
  {
    hide FlowIs, Side, QuoteCount, Prints, DarkNotionals, Total, AddFlow, Raise, Lower;
    SideAppend(es, e, true);
    SideAppend(es, e, false);
    CountsAppend(es, e);
    if e.EnteredTrade? {
      var side := Side(es, e.isBuy);
      FlowAppend(if e.isBuy then b.buy else b.sell, side, e);
      DarkAppend(side, e);
    }
  }

  lemma PointsAppend(es: seq<Entered>, e: Entered)
    ensures TradePoints(es + [e]) ==
              if e.EnteredTrade? then TradePoints(es) + [Point(e.t.price, e.t.ts)] else TradePoints(es)
    ensures BidPoints(es + [e]) ==
              if e.EnteredQuote? then BidPoints(es) + [Point(e.t.bidPx, e.t.ts)] else BidPoints(es)
    ensures AskPoints(es + [e]) ==
              if e.EnteredQuote? then AskPoints(es) + [Point(e.t.askPx, e.t.ts)] else AskPoints(es)
  {
    assert (es + [e])[..|es|] == es;
    var ts, bs, az := TradePoints(es), BidPoints(es), AskPoints(es);
    assert ts + [] == ts && bs + [] == bs && az + [] == az;
  }

  lemma NumbersAppend(ps: seq<Point>, p: Point)
    requires AllNumbers(ps) && p.px.Num?
    ensures AllNumbers(ps + [p])
  {
  }

  lemma ExtremesAppend(b: Bar, es: seq<Entered>, e: Entered)
    requires ExtremesAre(b, es) && Enterable(e)
    ensures ExtremesAre(AddEntered(b, e), es + [e])
  {
    hide IsHigh, IsLow, Raise, Lower, AllNumbers, TradePoints, BidPoints, AskPoints, AddFlow;
    PointsAppend(es, e);
    if e.EnteredTrade? {
      var p := Point(e.t.price, e.t.ts);
      RaiseIsHigh(b.high, TradePoints(es), p);
      LowerIsLow(b.low, TradePoints(es), p);
      NumbersAppend(TradePoints(es), p);
    } else {
      var bid, ask := Point(e.t.bidPx, e.t.ts), Point(e.t.askPx, e.t.ts);
      RaiseIsHigh(b.highBid, BidPoints(es), bid);
      LowerIsLow(b.lowBid, BidPoints(es), bid);
      NumbersAppend(BidPoints(es), bid);
      RaiseIsHigh(b.highAsk, AskPoints(es), ask);
      LowerIsLow(b.lowAsk, AskPoints(es), ask);
      NumbersAppend(AskPoints(es), ask);
    }
  }

  /** The accumulators of a bar are the counts, sums and extremes of exactly what entered it. */
  lemma {:induction false} BarMeans(cfg: Config, first: nat, u: nat, ticks: seq<Tick>, second: nat)
    ensures var b, es := BarIn(cfg, first, u, ticks, second), EnteredIn(cfg, first, u, ticks, second);
            SumsAre(b, es) && ExtremesAre(b, es)
  {
    if ticks != [] {
      var before := ticks[..|ticks| - 1];
      var t := ticks[|ticks| - 1];
      BarMeans(cfg, first, u, before, second);
      if Of(cfg, u, t) && second - cfg.cadence <= t.ts < second {
        EnterOne(BarIn(cfg, first, u, before, second), EnteredIn(cfg, first, u, before, second),
                 StateBefore(cfg, first, u, before, second), t);
      }
    }
  }

  lemma EnterOne(b: Bar, es: seq<Entered>, st: State, t: Tick)
    requires SumsAre(b, es) && ExtremesAre(b, es)
    ensures SumsAre(StepBar(b, st, t), es + Entering(st, t)) && ExtremesAre(StepBar(b, st, t), es + Entering(st, t))
  {
    hide SumsAre, ExtremesAre, BarQuote, BarTrade, TradeMid, SideOf, Restates;
    var added := Entering(st, t);
    if added == [] {
      assert es + added == es;
    } else {
      assert StepBar(b, st, t) == AddEntered(b, added[0]);
      assert es + added == es + [added[0]];
      SumsAppend(b, es, added[0]);
      ExtremesAppend(b, es, added[0]);
    }
  }

  /** Every slot of a closed bar, read back. */
  lemma SlotsRead(s: Session, quoted: bool, b: Bar, closeNS: int, atBid: Float, atAsk: Float, spread: (Float, Float))
    ensures var l := Layout(s, quoted, b, closeNS, atBid, atAsk, spread);
            var start := closeNS - ONE_SECOND;
            && |l| == 36
            && l[0] == b.buy.vol && l[1] == b.sell.vol && l[2] == b.buy.notional && l[3] == b.sell.notional
            && l[4] == OfInt(b.buy.trades) && l[5] == OfInt(b.sell.trades)
            && l[6] == b.buy.midDelta && l[7] == b.sell.midDelta
            && l[8] == l[9] == l[12] == OfInt(b.quotes) && l[10] == b.darkBid && l[11] == b.darkAsk
            && l[13] == (if quoted then Div(OfInt(closeNS - s.lastQuoteSIP), Num(1000000.0)) else Num(0.0))
            && l[14] == atBid && l[15] == atAsk
            && l[16] == b.high.px && l[17] == b.low.px && l[18] == b.highBid.px && l[19] == b.lowBid.px
            && l[20] == b.highAsk.px && l[21] == b.lowAsk.px
            && l[22] == s.lastBid && l[23] == s.lastAsk && l[24] == s.lastBidSz && l[25] == s.lastAskSz
            && l[26] == s.lastTrade && l[27] == (if quoted then OfInt(s.lastQuoteSIP) else NaN)
            && l[28] == spread.0 && l[29] == spread.1
            && l[30] == Offset(b.high, start) && l[31] == Offset(b.low, start)
            && l[32] == Offset(b.highAsk, start) && l[33] == Offset(b.lowAsk, start)
            && l[34] == OfInt(s.cumQuotes) && l[35] == OfInt(s.cumTrades)
  {
    hide Offset, OfInt, Div, Layout;
  }

  /** Counts and sums: slots 0..12 of the bar of a second, and 28 and 29, the spread of its trade prices. */
  lemma SumSlotsMean(cfg: Config, first: nat, u: nat, ticks: seq<Tick>, second: nat)
    requires second >= first
    ensures var s, es := BarSlotsFor(cfg, first, u, ticks, second), EnteredIn(cfg, first, u, ticks, second);
            && |s| == 36
            && s[0] == Total(Sizes(Side(es, true))) && s[1] == Total(Sizes(Side(es, false)))
            && s[2] == Total(Notionals(Side(es, true))) && s[3] == Total(Notionals(Side(es, false)))
            && s[4] == OfInt(|Side(es, true)|) && s[5] == OfInt(|Side(es, false)|)
            && s[6] == Total(Edges(Side(es, true))) && s[7] == Total(Edges(Side(es, false)))
            && (s[28], s[29]) == PriceSpread(Prints(es), cfg.sqrt)
            && s[8] == s[9] == s[12] == OfInt(QuoteCount(es))
            && s[10] == Total(DarkNotionals(Side(es, false))) && s[11] == Total(DarkNotionals(Side(es, true)))
  {
    BarMeans(cfg, first, u, ticks, second);
    var st, b := StateBefore(cfg, first, u, ticks, second), BarIn(cfg, first, u, ticks, second);
    var atBid := AtBest(st.book.hasAny, st.session.venueBid, st.session.lastBid);
    var atAsk := AtBest(st.book.hasAny, st.session.venueAsk, st.session.lastAsk);
    hide BarIn, EnteredIn, StateBefore, ExtremesAre, Total, Side, QuoteCount, DarkNotionals, Prints, Edges, Layout,
         BarSlot, AtBest, PriceSpread;
    SlotsRead(st.session, st.book.hasAny, b, second, atBid, atAsk, PriceSpread(b.prints, cfg.sqrt));
  }

  /** A price slot and its time slot: the greatest point and the nanoseconds from `start` to when it was first
      reached; NaN and -1 if there is no point. */
  ghost predicate ShowsHigh(px: Float, offset: Float, ps: seq<Point>, start: int) {
    if ps == [] then px == NaN && offset == Num(-1.0)
    else exists i: nat :: FirstMaxAt(ps, i) && px == ps[i].px && offset == Offset(Extreme(ps[i].px, ps[i].at), start)
  }

  ghost predicate ShowsLow(px: Float, offset: Float, ps: seq<Point>, start: int) {
    if ps == [] then px == NaN && offset == Num(-1.0)
    else exists i: nat :: FirstMinAt(ps, i) && px == ps[i].px && offset == Offset(Extreme(ps[i].px, ps[i].at), start)
  }

  ghost predicate IsGreatest(px: Float, ps: seq<Point>) {
    if ps == [] then px == NaN else exists i: nat :: FirstMaxAt(ps, i) && px == ps[i].px
  }

  ghost predicate IsLeast(px: Float, ps: seq<Point>) {
    if ps == [] then px == NaN else exists i: nat :: FirstMinAt(ps, i) && px == ps[i].px
  }

  lemma HighShown(e: Extreme, ps: seq<Point>, start: int)
    requires IsHigh(e, ps)
    ensures ShowsHigh(e.px, Offset(e, start), ps, start) && IsGreatest(e.px, ps)
  {
    if ps != [] { var i: nat :| FirstMaxAt(ps, i) && e == Extreme(ps[i].px, ps[i].at); }
  }

  lemma LowShown(e: Extreme, ps: seq<Point>, start: int)
    requires IsLow(e, ps)
    ensures ShowsLow(e.px, Offset(e, start), ps, start) && IsLeast(e.px, ps)
  {
    if ps != [] { var i: nat :| FirstMinAt(ps, i) && e == Extreme(ps[i].px, ps[i].at); }
  }

  /** Extremes: slots 16, 17, 20 and 21 of the bar of a second with their times in slots 30..33, and the bid
      extremes in slots 18 and 19. */
  lemma ExtremeSlotsMean(cfg: Config, first: nat, u: nat, ticks: seq<Tick>, second: nat)
    requires second >= first
    ensures var s, es := BarSlotsFor(cfg, first, u, ticks, second), EnteredIn(cfg, first, u, ticks, second);
            var start := second - ONE_SECOND;
            && |s| == 36
            && ShowsHigh(s[16], s[30], TradePoints(es), start) && ShowsLow(s[17], s[31], TradePoints(es), start)
            && ShowsHigh(s[20], s[32], AskPoints(es), start) && ShowsLow(s[21], s[33], AskPoints(es), start)
            && IsGreatest(s[18], BidPoints(es)) && IsLeast(s[19], BidPoints(es))
  {
    BarMeans(cfg, first, u, ticks, second);
    var st, b := StateBefore(cfg, first, u, ticks, second), BarIn(cfg, first, u, ticks, second);
    var atBid := AtBest(st.book.hasAny, st.session.venueBid, st.session.lastBid);
    var atAsk := AtBest(st.book.hasAny, st.session.venueAsk, st.session.lastAsk);
    var es := EnteredIn(cfg, first, u, ticks, second);
    var start := second - ONE_SECOND;
    assert ExtremesAre(b, es);
    hide BarIn, EnteredIn, StateBefore, PriceSpread, AtBest, IsHigh, IsLow, SumsAre, ShowsHigh, ShowsLow, IsGreatest,
         IsLeast, Offset, Layout, BarSlot;
    SlotsRead(st.session, st.book.hasAny, b, second, atBid, atAsk, PriceSpread(b.prints, cfg.sqrt));
    HighShown(b.high, TradePoints(es), start);
    LowShown(b.low, TradePoints(es), start);
    HighShown(b.highAsk, AskPoints(es), start);
    LowShown(b.lowAsk, AskPoints(es), start);
    HighShown(b.highBid, BidPoints(es), start);
    LowShown(b.lowBid, BidPoints(es), start);
  }

  // ---------- The state before the close ----------

  /** The venues whose last bid in time is `px`. */
  ghost function VenuesBidding(a: seq<Tick>, from: int, px: Float): set<nat> {
    set v: nat | v < VENUES && LastBid(a, v, from).has && Equal(LastBid(a, v, from).px, px)
  }

  ghost function VenuesAsking(a: seq<Tick>, from: int, px: Float): set<nat> {
    set v: nat | v < VENUES && LastAsk(a, v, from).has && Equal(LastAsk(a, v, from).px, px)
  }

  predicate Shows(venues: seq<Best>, px: Float, v: nat) {
    v < |venues| && venues[v].has && Equal(venues[v].px, px)
  }

  ghost function Showing(venues: seq<Best>, px: Float, n: nat): set<nat> {
    set v: nat | v < n && Shows(venues, px, v)
  }

  lemma ShowingGrows(venues: seq<Best>, px: Float, n: nat)
    ensures |Showing(venues, px, n + 1)| == |Showing(venues, px, n)| + (if Shows(venues, px, n) then 1 else 0)
  {
    hide Shows;
    assert Showing(venues, px, n + 1) == Showing(venues, px, n) + (if Shows(venues, px, n) then {n} else {});
  }

  lemma ShowingOfPrefix(venues: seq<Best>, px: Float, n: nat)
    requires n <= |venues|
    ensures Showing(venues[..n], px, n) == Showing(venues, px, n)
  {
    forall v: nat | v < n
      ensures Shows(venues[..n], px, v) == Shows(venues, px, v)
    {
    }
  }

  /** Counting venue by venue gives the number of venues at the price. */
  lemma {:induction false} CountIsShowing(venues: seq<Best>, px: Float)
    ensures CountAt(venues, px) == |Showing(venues, px, |venues|)|
  {
    if venues == [] {
      assert Showing(venues, px, 0) == {};
    } else {
      hide Showing;
      CountIsShowing(venues[..|venues| - 1], px);
      ShowingOfPrefix(venues, px, |venues| - 1);
      ShowingGrows(venues, px, |venues| - 1);
    }
  }

  lemma VenuesCounted(s: Session, a: seq<Tick>, from: int, bid: Float, ask: Float)
    requires VenuesMean(s, a, from)
    ensures CountAt(s.venueBid, bid) == |VenuesBidding(a, from, bid)|
    ensures CountAt(s.venueAsk, ask) == |VenuesAsking(a, from, ask)|
  {
    CountIsShowing(s.venueBid, bid);
    CountIsShowing(s.venueAsk, ask);
    forall v: nat | v < VENUES
      ensures s.venueBid[v] == LastBid(a, v, from) && s.venueAsk[v] == LastAsk(a, v, from)
    {
      assert VenueMeans(s, a, from, v);
    }
    assert VenuesBidding(a, from, bid) == Showing(s.venueBid, bid, VENUES);
    assert VenuesAsking(a, from, ask) == Showing(s.venueAsk, ask, VENUES);
  }

  lemma {:induction false} AcceptedAreNumbers(own: seq<Tick>)
    ensures Accepted(own) != [] ==> Last(Accepted(own)).bidPx.Num? && Last(Accepted(own)).askPx.Num?
  {
    if own != [] { AcceptedAreNumbers(own[..|own| - 1]); }
  }

  /** The state before the close: of the last quote accepted before the second, slot 13 has the age in milliseconds,
      14 and 15 on how many venues its bid and ask stood last, 22..25 prices and sizes and 27 the time; slot 26 is
      the last trade price, and 34 and 35 count the accepted quotes and the priced trades so far. */
  lemma StateSlotsMean(cfg: Config, first: nat, u: nat, ticks: seq<Tick>, second: nat)
    requires second >= first
    ensures var s, own := BarSlotsFor(cfg, first, u, ticks, second), Own(cfg, u, ticks, second);
            var a, tr, from := Accepted(own), Priced(own), first - cfg.cadence;
            && |s| == 36 && s[34] == OfInt(|a|) && s[35] == OfInt(|tr|)
            && s[26] == (if tr == [] then NaN else Last(tr).price)
            && (a == [] ==> s[13] == Num(0.0) && s[14] == s[15] == s[22] == s[23] == s[24] == s[25] == s[27] == NaN)
            && (a != [] ==>
                  var q := Last(a);
                  && s[13] == Div(OfInt(second - q.ts), Num(1000000.0)) && s[27] == OfInt(q.ts)
                  && s[14] == OfInt(|VenuesBidding(a, from, q.bidPx)|)
                  && s[15] == OfInt(|VenuesAsking(a, from, q.askPx)|)
                  && s[22] == q.bidPx && s[23] == q.askPx && s[24] == q.bidSz && s[25] == q.askSz)
  {
    var st, b := StateBefore(cfg, first, u, ticks, second), BarIn(cfg, first, u, ticks, second);
    var own, from := Own(cfg, u, ticks, second), first - cfg.cadence;
    hide StateBefore, BarIn, Own, Fold, BarSlot, Layout, PriceSpread, AtBest, SessionMeans, VenuesBidding, VenuesAsking;
    StateIsFold(cfg, first, u, ticks, second);
    FoldMeans(own, from);
    StateSlots(st, b, second, own, from, PriceSpread(b.prints, cfg.sqrt));
  }

  /** The same of a state that means what the symbol's own ticks say. */
  lemma StateSlots(st: State, b: Bar, second: nat, own: seq<Tick>, from: int, spread: (Float, Float))
    requires SessionMeans(st, own, from)
    ensures var s := Layout(st.session, st.book.hasAny, b, second,
                            AtBest(st.book.hasAny, st.session.venueBid, st.session.lastBid),
                            AtBest(st.book.hasAny, st.session.venueAsk, st.session.lastAsk), spread);
            var a, tr := Accepted(own), Priced(own);
            && s[34] == OfInt(|a|) && s[35] == OfInt(|tr|) && s[26] == (if tr == [] then NaN else Last(tr).price)
            && (a == [] ==> s[13] == Num(0.0) && s[14] == s[15] == s[22] == s[23] == s[24] == s[25] == s[27] == NaN)
            && (a != [] ==>
                  var q := Last(a);
                  && s[13] == Div(OfInt(second - q.ts), Num(1000000.0)) && s[27] == OfInt(q.ts)
                  && s[14] == OfInt(|VenuesBidding(a, from, q.bidPx)|)
                  && s[15] == OfInt(|VenuesAsking(a, from, q.askPx)|)
                  && s[22] == q.bidPx && s[23] == q.askPx && s[24] == q.bidSz && s[25] == q.askSz)
  {
    hide Accepted, Priced, Layout, BarSlot, VenuesMean, VenuesBidding, VenuesAsking, CountAt;
    SlotsRead(st.session, st.book.hasAny, b, second, AtBest(st.book.hasAny, st.session.venueBid, st.session.lastBid),
              AtBest(st.book.hasAny, st.session.venueAsk, st.session.lastAsk), spread);
    AcceptedAreNumbers(own);
    if Accepted(own) != [] {
      VenuesCounted(st.session, Accepted(own), from, Last(Accepted(own)).bidPx, Last(Accepted(own)).askPx);
    }
  }
}
