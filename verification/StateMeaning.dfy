/** What a symbol's state says about the ticks so far, without accumulators: the accepted quotes, the priced
    trades, what each venue showed last, and the quote and side each trade was given. */
module StateMeaning {
  import opened Floats
  import opened Feed
  import opened QuoteBook
  import opened SymbolHistory
  import opened Schedule
  import opened Replay
  import opened FrameContent

  // ---------- The ticks of one symbol ----------

  /** The ticks of symbol `u` with timestamps before `x`. */
  function Own(cfg: Config, u: nat, ticks: seq<Tick>, x: int): seq<Tick> {
    if ticks == [] then []
    else
      var t := ticks[|ticks| - 1];
      Own(cfg, u, ticks[..|ticks| - 1], x) + (if Of(cfg, u, t) && t.ts < x then [t] else [])
  }

  predicate SameQuote(q: Tick, t: Tick) {
    Equal(q.bidPx, t.bidPx) && Equal(q.askPx, t.askPx) && Equal(q.bidSz, t.bidSz) && Equal(q.askSz, t.askSz)
  }

  function Last(ts: seq<Tick>): Tick
    requires ts != []
  {
    ts[|ts| - 1]
  }

  /** A quote is accepted if its prices are valid and it does not repeat the one accepted before it. */
  predicate Fresh(a: seq<Tick>, t: Tick) {
    t.kind == TickQuote && ValidPrices(t) && !(a != [] && SameQuote(Last(a), t))
  }

  function Accepted(own: seq<Tick>): seq<Tick> {
    if own == [] then []
    else
      var a := Accepted(own[..|own| - 1]);
      if Fresh(a, Last(own)) then a + [Last(own)] else a
  }

  predicate IsPriced(t: Tick) {
    t.kind == TickTrade && Positive(t.price)
  }

  function Priced(own: seq<Tick>): seq<Tick> {
    if own == [] then []
    else Priced(own[..|own| - 1]) + (if IsPriced(Last(own)) then [Last(own)] else [])
  }

  /** The state after a symbol's own ticks; those before `from` are late. */
  function Fold(own: seq<Tick>, from: int): State {
    if own == [] then InitialState() else StepState(Fold(own[..|own| - 1], from), Last(own), Last(own).ts < from)
  }

  lemma {:induction false} StateIsFold(cfg: Config, first: nat, u: nat, ticks: seq<Tick>, x: int)
    ensures StateBefore(cfg, first, u, ticks, x) == Fold(Own(cfg, u, ticks, x), first - cfg.cadence)
  {
    hide StepState, InitialState;
    if ticks != [] {
      var before, t := ticks[..|ticks| - 1], ticks[|ticks| - 1];
      StateIsFold(cfg, first, u, before, x);
      var own := Own(cfg, u, before, x);
      assert (own + [t])[..|own|] == own;
      assert own + [] == own;
    }
  }

  // ---------- Quotes, trades and venues ----------

  ghost predicate QuotesMean(st: State, a: seq<Tick>) {
    var s, b := st.session, st.baseline;
    && s.cumQuotes == |a| && st.book.hasAny == b.has == (a != [])
    && if a == [] then s.lastBid == s.lastAsk == s.lastBidSz == s.lastAskSz == NaN && s.lastQuoteSIP == 0
       else
         var q := Last(a);
         && s.lastBid == b.bid == q.bidPx && s.lastAsk == b.ask == q.askPx
         && s.lastBidSz == b.bidSz == q.bidSz && s.lastAskSz == b.askSz == q.askSz && s.lastQuoteSIP == q.ts
  }

  ghost predicate TradesMean(st: State, tr: seq<Tick>) {
    var s := st.session;
    && s.cumTrades == |tr| && s.hasPrevTrade == (tr != [])
    && if tr == [] then s.lastTrade == NaN else s.lastTrade == s.prevTrade == Last(tr).price
  }

  /** The last bid a venue showed in time, if any. */
  function LastBid(a: seq<Tick>, v: nat, from: int): Best {
    if a == [] then NO_BEST
    else if Last(a).bidExch == v && Last(a).ts >= from then Best(true, Last(a).bidPx)
    else LastBid(a[..|a| - 1], v, from)
  }

  function LastAsk(a: seq<Tick>, v: nat, from: int): Best {
    if a == [] then NO_BEST
    else if Last(a).askExch == v && Last(a).ts >= from then Best(true, Last(a).askPx)
    else LastAsk(a[..|a| - 1], v, from)
  }

  /** The last quote of a venue, late or not. */
  function LastEntry(a: seq<Tick>, v: nat): QuoteEntry {
    if a == [] then NO_ENTRY
    else if Last(a).bidExch == v then EntryOf(Last(a))
    else LastEntry(a[..|a| - 1], v)
  }

  ghost predicate VenuesMean(s: Session, a: seq<Tick>, from: int) {
    && |s.venueBid| == |s.venueAsk| == |s.venueLatest| == VENUES
    && forall v :: 0 <= v < VENUES ==> VenueMeans(s, a, from, v)
  }

  ghost predicate VenueMeans(s: Session, a: seq<Tick>, from: int, v: nat)
    requires v < |s.venueBid| && v < |s.venueAsk| && v < |s.venueLatest|
  {
    s.venueBid[v] == LastBid(a, v, from) && s.venueAsk[v] == LastAsk(a, v, from) && s.venueLatest[v] == LastEntry(a, v)
  }

  lemma VenuesAppend(s: Session, a: seq<Tick>, from: int, t: Tick)
    requires VenuesMean(s, a, from)
    ensures var late := t.ts < from;
            VenuesMean(if late then NoteQuote(s, t) else NoteVenues(NoteQuote(s, t), t), a + [t], from)
  {
    var r := if t.ts < from then NoteQuote(s, t) else NoteVenues(NoteQuote(s, t), t);
    assert (a + [t])[..|a|] == a;
    hide EntryOf;
    forall v | 0 <= v < VENUES
      ensures VenueMeans(r, a + [t], from, v)
    {
      assert VenueMeans(s, a, from, v);
    }
  }

  ghost predicate SessionMeans(st: State, own: seq<Tick>, from: int) {
    QuotesMean(st, Accepted(own)) && TradesMean(st, Priced(own)) && VenuesMean(st.session, Accepted(own), from)
  }

  lemma SameVenues(s: Session, r: Session, a: seq<Tick>, from: int)
    requires VenuesMean(s, a, from)
    requires r.venueBid == s.venueBid && r.venueAsk == s.venueAsk && r.venueLatest == s.venueLatest
    ensures VenuesMean(r, a, from)
  {
    forall v | 0 <= v < VENUES
      ensures VenueMeans(r, a, from, v)
    {
      assert VenueMeans(s, a, from, v);
    }
  }

  lemma NoVenuesMean(from: int)
    ensures VenuesMean(InitialState().session, [], from)
  {
  }

  lemma AcceptsIsFresh(st: State, a: seq<Tick>, t: Tick)
    requires QuotesMean(st, a)
    ensures t.kind == TickQuote ==> Accepts(st.baseline, t) == Fresh(a, t)
  {
  }

  lemma QuoteStep(st: State, a: seq<Tick>, t: Tick, late: bool)
    requires QuotesMean(st, a)
    ensures QuotesMean(StepState(st, t, late), if Fresh(a, t) then a + [t] else a)
  {
    hide TradeMid, SideOf, MovePtr, Compact;
    AcceptsIsFresh(st, a, t);
    if t.kind == TickQuote && Fresh(a, t) { RecordHasAny(st.book, EntryOf(t)); }
  }

  lemma RecordHasAny(b: Book, q: QuoteEntry)
    ensures Record(b, q).hasAny
  {
  }

  lemma TradeStep(st: State, tr: seq<Tick>, t: Tick, late: bool)
    requires TradesMean(st, tr)
    ensures TradesMean(StepState(st, t, late), if IsPriced(t) then tr + [t] else tr)
  {
    hide TradeMid, SideOf, BookAfterTrade, Record, Accepts, NextBaseline;
  }

  lemma VenueStep(st: State, a: seq<Tick>, t: Tick, from: int)
    requires QuotesMean(st, a) && VenuesMean(st.session, a, from)
    ensures VenuesMean(StepState(st, t, t.ts < from).session, if Fresh(a, t) then a + [t] else a, from)
  {
    AcceptsIsFresh(st, a, t);
    hide TradeMid, SideOf, BookAfterTrade, Record, Accepts, NextBaseline, VenuesMean, QuotesMean, Fresh;
    var r := StepState(st, t, t.ts < from).session;
    if t.kind == TickQuote && Accepts(st.baseline, t) {
      VenuesAppend(st.session, a, from, t);
    } else {
      assert !Fresh(a, t) by { NotFresh(a, t); }
      SameVenues(st.session, r, a, from);
    }
  }

  lemma NotFresh(a: seq<Tick>, t: Tick)
    ensures Fresh(a, t) ==> t.kind == TickQuote
  {
  }

  /** The session state is what the accepted quotes and priced trades say, in any order of arrival. */
  lemma {:induction false} FoldMeans(own: seq<Tick>, from: int)
    ensures SessionMeans(Fold(own, from), own, from)
  {
    if own == [] {
      NoVenuesMean(from);
    } else {
      var before, t := own[..|own| - 1], Last(own);
      FoldMeans(before, from);
      hide QuotesMean, TradesMean, VenuesMean, StepState, InitialState, Fresh, IsPriced;
      var st := Fold(before, from);
      QuoteStep(st, Accepted(before), t, t.ts < from);
      TradeStep(st, Priced(before), t, t.ts < from);
      VenueStep(st, Accepted(before), t, from);
      assert Priced(before) + [] == Priced(before);
    }
  }

  // ---------- Slots 36..43 ----------

  /** Slots 36..43 of a frame: bid, ask, sizes and time of the last quote accepted up to the anchor, the price of
      the last trade, and how many quotes were accepted and trades priced; NaN where there is none. */
  lemma TerminalSlotsMean(cfg: Config, first: nat, u: nat, ticks: seq<Tick>, anchor: nat)
    ensures var s, own := RowFor(cfg, first, u, ticks, anchor).terminal, Own(cfg, u, ticks, anchor + 1);
            var a, tr := Accepted(own), Priced(own);
            && |s| == 8 && s[6] == OfInt(|a|) && s[7] == OfInt(|tr|)
            && s[4] == (if tr == [] then NaN else Last(tr).price)
            && s[0] == (if a == [] then NaN else Last(a).bidPx) && s[1] == (if a == [] then NaN else Last(a).askPx)
            && s[2] == (if a == [] then NaN else Last(a).bidSz) && s[3] == (if a == [] then NaN else Last(a).askSz)
            && s[5] == (if a == [] then NaN else OfInt(Last(a).ts))
  {
    hide BarSlotsFor, Floor, Own, StateBefore, Fold, Accepted, Priced, VenuesMean;
    StateIsFold(cfg, first, u, ticks, anchor + 1);
    FoldMeans(Own(cfg, u, ticks, anchor + 1), first - cfg.cadence);
  }

  // ---------- The quote and the side of a trade ----------

  function Entries(a: seq<Tick>): (r: seq<QuoteEntry>)
    ensures |r| == |a| && forall i :: 0 <= i < |a| ==> r[i] == EntryOf(a[i])
  {
    seq(|a|, i requires 0 <= i < |a| => EntryOf(a[i]))
  }

  /** The quote a trade is measured against: the last one accepted at least 1 ms before it, or the latest of the
      trade's own venue if that is newer than it and not after the trade on either clock. */
  function ReferenceOf(a: seq<Tick>, t: Tick): QuoteEntry
    requires a != []
  {
    var ref := Prevailing(Entries(a), t.ts - ONE_MS);
    var own := if 0 <= t.tradeExch < VENUES then LastEntry(a, t.tradeExch) else NO_ENTRY;
    if own.valid && own.part <= PartOf(t) && own.sip > ref.sip && own.sip <= t.ts then own else ref
  }

  /** Its midpoint; NaN if no quote was accepted yet. */
  function ReferenceMid(own: seq<Tick>, t: Tick): Float {
    if Accepted(own) == [] then NaN else MidOf(ReferenceOf(Accepted(own), t))
  }

  /** Above the mid a trade is a buy and below it a sell; at the mid, or without one, the price of the trade before
      decides, and at the same price its side. The first trade counts as a buy if nothing else decides. */
  function SideGiven(own: seq<Tick>, t: Tick): bool
    decreases |own|, 1
  {
    var mid, tr := ReferenceMid(own, t), Priced(own);
    if Less(mid, t.price) then true
    else if Less(t.price, mid) then false
    else if tr != [] && Less(Last(tr).price, t.price) then true
    else if tr != [] && Less(t.price, Last(tr).price) then false
    else LastSide(own)
  }

  function LastSide(own: seq<Tick>): bool
    decreases |own|, 0
  {
    if own == [] then true
    else if IsPriced(Last(own)) then SideGiven(own[..|own| - 1], Last(own))
    else LastSide(own[..|own| - 1])
  }

  // ---------- Ticks in time order ----------

  lemma InitInOrder(ts: seq<Tick>)
    requires ts != [] && InTimeOrder(ts)
    ensures InTimeOrder(ts[..|ts| - 1])
  {
    var r := ts[..|ts| - 1];
    forall i, j | 0 <= i < j < |r|
      ensures Before(r, i, j)
    {
      assert Before(ts, i, j);
    }
  }

  ghost predicate NotAfterTick(ts: seq<Tick>, x: int) {
    forall i :: 0 <= i < |ts| ==> ts[i].ts <= x
  }

  lemma LastIsLatest(ts: seq<Tick>)
    requires ts != [] && InTimeOrder(ts)
    ensures NotAfterTick(ts, Last(ts).ts)
  {
    forall i | 0 <= i < |ts|
      ensures ts[i].ts <= Last(ts).ts
    {
      if i < |ts| - 1 { assert Before(ts, i, |ts| - 1); }
    }
  }

  lemma AppendInOrder(ts: seq<Tick>, t: Tick)
    requires InTimeOrder(ts) && NotAfterTick(ts, t.ts)
    ensures InTimeOrder(ts + [t])
  {
    forall i, j | 0 <= i < j < |ts| + 1
      ensures Before(ts + [t], i, j)
    {
      if j < |ts| { assert Before(ts, i, j); }
    }
  }

  lemma {:induction false} OwnInOrder(cfg: Config, u: nat, ticks: seq<Tick>, x: int)
    requires InTimeOrder(ticks)
    ensures InTimeOrder(Own(cfg, u, ticks, x))
    ensures ticks != [] ==> NotAfterTick(Own(cfg, u, ticks, x), Last(ticks).ts)
  {
    if ticks != [] {
      var before, t := ticks[..|ticks| - 1], Last(ticks);
      InitInOrder(ticks);
      LastIsLatest(ticks);
      OwnInOrder(cfg, u, before, x);
      if before != [] { assert before[|before| - 1].ts <= t.ts; }
      var own := Own(cfg, u, before, x);
      assert NotAfterTick(own, t.ts) && own + [] == own;
      AppendInOrder(own, t);
    }
  }

  lemma {:induction false} AcceptedInOrder(own: seq<Tick>)
    requires InTimeOrder(own)
    ensures Nondecreasing(Entries(Accepted(own)))
    ensures own != [] && Accepted(own) != [] ==> Last(Accepted(own)).ts <= Last(own).ts
  {
    if own != [] {
      var before, t := own[..|own| - 1], Last(own);
      InitInOrder(own);
      LastIsLatest(own);
      AcceptedInOrder(before);
      if before != [] { assert before[|before| - 1].ts <= t.ts; }
      if Fresh(Accepted(before), t) { EntriesAppend(Accepted(before), t); }
    }
  }

  lemma EntriesAppend(a: seq<Tick>, t: Tick)
    requires Nondecreasing(Entries(a)) && (a != [] ==> Last(a).ts <= t.ts)
    ensures Entries(a + [t]) == Entries(a) + [EntryOf(t)] && Nondecreasing(Entries(a + [t]))
  {
    var r := Entries(a + [t]);
    assert r == Entries(a) + [EntryOf(t)];
    forall i, j | 0 <= i <= j < |r|
      ensures NotAfter(r, i, j)
    {
      if i < |a| { assert NotAfter(Entries(a), i, if j < |a| then j else |a| - 1); }
    }
  }

  // ---------- The reference of a trade ----------

  lemma {:induction false} FoldBook(own: seq<Tick>, from: int)
    requires InTimeOrder(own)
    ensures Holds(Fold(own, from).book, Entries(Accepted(own)))
  {
    if own != [] {
      var before, t := own[..|own| - 1], Last(own);
      InitInOrder(own);
      FoldBook(before, from);
      FoldMeans(before, from);
      AcceptedInOrder(before);
      AcceptedInOrder(own);
      LastIsLatest(own);
      BookStep(Fold(before, from), before, t, t.ts < from);
    }
  }

  lemma BookStep(st: State, before: seq<Tick>, t: Tick, late: bool)
    requires Holds(st.book, Entries(Accepted(before))) && QuotesMean(st, Accepted(before))
    requires Nondecreasing(Entries(Accepted(before))) && Nondecreasing(Entries(Accepted(before + [t])))
    ensures Holds(StepState(st, t, late).book, Entries(Accepted(before + [t])))
  {
    var a := Accepted(before);
    assert (before + [t])[..|before|] == before;
    AcceptsIsFresh(st, a, t);
    hide Holds, Nondecreasing, QuotesMean, Record, TradeMid, SideOf, Accepts, Fresh, Accepted, MovePtr;
    if t.kind == TickQuote && Fresh(a, t) {
      assert Entries(a + [t]) == Entries(a) + [EntryOf(t)];
      RecordHolds(st.book, Entries(a), EntryOf(t));
    } else if IsPriced(t) && HasReference(st.book) {
      assert !Fresh(a, t) by { NotFresh(a, t); }
      assert a != [] by { ReferenceNeedsQuotes(st.book, a); }
      LocateIsPrevailing(st.book, Entries(a), t.ts - ONE_MS);
    } else {
      assert !Fresh(a, t) by { NotFresh(a, t); }
    }
  }

  lemma ReferenceNeedsQuotes(b: Book, a: seq<Tick>)
    requires Holds(b, Entries(a))
    ensures HasReference(b) <==> a != []
  {
  }

  /** The buffer reaches back far enough for a trade that is not behind the newest quote. */
  lemma FoundIsPrevailing(b: Book, a: seq<Tick>, t: Tick)
    requires Holds(b, Entries(a)) && Nondecreasing(Entries(a)) && a != [] && Last(a).ts <= t.ts
    ensures AtPtr(Locate(b, t.ts - ONE_MS)) == Prevailing(Entries(a), t.ts - ONE_MS)
  {
    hide MovePtr, AtPtr, Prevailing;
    LocateIsPrevailing(b, Entries(a), t.ts - ONE_MS);
    assert Entries(a)[|a| - 1].sip == Last(a).ts;
  }

  lemma ChosenIsReference(st: State, a: seq<Tick>, t: Tick, from: int)
    requires Holds(st.book, Entries(a)) && Nondecreasing(Entries(a)) && a != [] && Last(a).ts <= t.ts
    requires VenuesMean(st.session, a, from)
    ensures TradeMid(st, t) == MidOf(ReferenceOf(a, t))
  {
    ReferenceNeedsQuotes(st.book, a);
    FoundIsPrevailing(st.book, a, t);
    if 0 <= t.tradeExch < VENUES { assert VenueMeans(st.session, a, from, t.tradeExch); }
    hide Holds, Nondecreasing, VenuesMean, Locate, AtPtr, Prevailing, LastEntry, MidOf, HasReference, PartOf;
  }

  /** In time order, a trade is measured against the quote of the full history that `ReferenceOf` names, whatever
      the buffer has dropped. */
  lemma TradeMidIsReference(own: seq<Tick>, from: int, t: Tick)
    requires InTimeOrder(own) && NotAfterTick(own, t.ts)
    ensures TradeMid(Fold(own, from), t) == ReferenceMid(own, t)
  {
    hide Fold, Accepted, Holds, Nondecreasing, VenuesMean, QuotesMean, TradesMean, Choose, MidOf, ReferenceOf,
         InTimeOrder;
    var st, a := Fold(own, from), Accepted(own);
    FoldMeans(own, from);
    FoldBook(own, from);
    AcceptedInOrder(own);
    ReferenceNeedsQuotes(st.book, a);
    if a != [] {
      assert own != [] by { NothingAccepted(own); }
      assert Last(a).ts <= t.ts;
      ChosenIsReference(st, a, t, from);
    }
  }

  lemma NothingAccepted(own: seq<Tick>)
    ensures own == [] ==> Accepted(own) == []
  {
  }

  /** In time order, a trade is given the side that `SideGiven` names. */
  lemma {:induction false} SideIsGiven(own: seq<Tick>, from: int, t: Tick)
    requires InTimeOrder(own) && NotAfterTick(own, t.ts)
    ensures SideOf(Fold(own, from).session, t.price, ReferenceMid(own, t)) == SideGiven(own, t)
    decreases |own|, 1
  {
    FoldMeans(own, from);
    LastSideIs(own, from);
    hide Fold, QuotesMean, VenuesMean, ReferenceMid, LastSide;
  }

  lemma {:induction false} LastSideIs(own: seq<Tick>, from: int)
    requires InTimeOrder(own)
    ensures Fold(own, from).session.lastIsBuy == LastSide(own)
    decreases |own|, 0
  {
    if own != [] {
      var before, t := own[..|own| - 1], Last(own);
      InitInOrder(own);
      LastIsLatest(own);
      hide TradeMid, SideOf, ReferenceMid, SideGiven, Record, BookAfterTrade, Accepts, InTimeOrder;
      if IsPriced(t) {
        assert NotAfterTick(before, t.ts);
        TradeMidIsReference(before, from, t);
        SideIsGiven(before, from, t);
      } else {
        LastSideIs(before, from);
      }
    }
  }
}
