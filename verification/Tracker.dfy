/** The 250 ms tracker of one symbol: lit volume per bucket, forward-filled quotes, the 64-bar ring and the
    15-minute baselines with their four prefix rings. Beside what the tracker holds, a state keeps the list
    of all columns and a trail of what each prefix slot was stored before, which the results speak of. */
module Tracker {
  import opened Baseline

  const BUCKET_NS := 250_000_000
  const RING_BARS := 64
  const LONG_GAP := 100000
  const EPS := 0.000001
  const MIN_EPOCH := 1_000_000_000_000_000_000

  /** What the tracker needs from outside: square root, rounding of prices, and the session open for a timestamp. */
  datatype Env = Env(sqrt: real -> real, ticksOf: real -> int, sessionOpen: int -> int)

  /** Lit buy and sell volume of one column. */
  datatype Col = Col(buy: real, sell: real)

  const NO_VOLUME := Col(0.0, 0.0)

  datatype Quote = Quote(has: bool, bid: real, ask: real, bidTicks: int, askTicks: int)

  datatype FirstValid = FirstValid(col: int, bid: int, ask: int)

  datatype Mid = Mid(has: bool, ticks: real)

  datatype Bar = Bar(col: int, bid: int, ask: int, vol: Col, cnt: real, q: real, mid: real)

  const NO_BAR := Bar(-1, 0, 0, NO_VOLUME, 0.0, 0.0, 0.0)

  /** The prefix rings: counts and roots, of buys and of sells. */
  datatype Sums = Sums(nb: Prefixes, ns: Prefixes, qb: Prefixes, qs: Prefixes)

  /** The latest jump went from column `gapFrom` to `since`, and columns from there on were closed one after
      the other; both are 0 before any jump. `written` says what the prefix slots hold, and `starts` from
      which column on each column's baselines were in fact summed. */
  datatype Trail = Trail(gapFrom: nat, since: nat, written: Written, starts: seq<nat>)

  /** `cols` are all columns so far, skipped ones with no volume; the next column is `|cols|`. */
  datatype State = State(openSet: bool, open: int, cols: seq<Col>, last: int, cur: Col, quote: Quote,
                         first: FirstValid, mid: Mid, sums: Sums, cnt: real, q: real, bars: seq<Bar>, trail: Trail)

  // ---------- Closing one column ----------

  function Steps(v: real): real {
    (if v > 0.0 then 1.0 else 0.0) + (if v >= 200.0 then 1.0 else 0.0) + (if v >= 800.0 then 1.0 else 0.0)
  }

  function Root(env: Env, v: real): real {
    if v > 0.0 then env.sqrt(v) else 0.0
  }

  datatype Kind = BuyCount | SellCount | BuyRoot | SellRoot

  function Weight(env: Env, k: Kind, c: Col): real {
    match k
    case BuyCount => Steps(c.buy)
    case SellCount => Steps(c.sell)
    case BuyRoot => Root(env, c.buy)
    case SellRoot => Root(env, c.sell)
  }

  function Weights(env: Env, k: Kind, cols: seq<Col>): (r: seq<real>)
    ensures |r| == |cols|
  {
    if cols == [] then [] else Weights(env, k, cols[..|cols| - 1]) + [Weight(env, k, cols[|cols| - 1])]
  }

  function AtLeastOne(x: real): real {
    if x < 1.0 then 1.0 else x
  }

  /** The weights of the columns from `h` on, summed directly. */
  function SumFrom(env: Env, k: Kind, cols: seq<Col>, h: nat): real {
    if h <= |cols| then Sum(Weights(env, k, cols)[h..]) else 0.0
  }

  function CountFrom(env: Env, cols: seq<Col>, h: nat): real {
    AtLeastOne(SumFrom(env, BuyCount, cols, h) + SumFrom(env, SellCount, cols, h))
  }

  function RootFrom(env: Env, cols: seq<Col>, h: nat): real {
    AtLeastOne(SumFrom(env, BuyRoot, cols, h) + SumFrom(env, SellRoot, cols, h))
  }

  /** The 15-minute count baseline, summed directly over the last 3600 columns. */
  function CountBaseline(env: Env, cols: seq<Col>): real {
    CountFrom(env, cols, Oldest(|cols|))
  }

  /** The 15-minute square-root-volume baseline. */
  function RootBaseline(env: Env, cols: seq<Col>): real {
    RootFrom(env, cols, Oldest(|cols|))
  }

  function NextFirst(s: State): FirstValid {
    if s.quote.has && s.first.col < 0 then FirstValid(|s.cols|, s.quote.bidTicks, s.quote.askTicks) else s.first
  }

  function NextMid(s: State): Mid {
    if s.quote.bidTicks > 0 && s.quote.askTicks > s.quote.bidTicks then
      Mid(true, 0.5 * ((s.quote.bidTicks + s.quote.askTicks) as real))
    else if !s.mid.has then Mid(false, 10000.0)
    else s.mid
  }

  /** Earlier bars without a quote take the first valid one. */
  function Backfill(bar: Bar, col: int, bid: int, ask: int): Bar {
    if 0 <= bar.col < col && bar.bid == 0 then bar.(bid := bid, ask := ask) else bar
  }

  function BackfillAll(bars: seq<Bar>, col: int, bid: int, ask: int): (r: seq<Bar>)
    ensures |r| == |bars|
    ensures forall k :: 0 <= k < |bars| ==> r[k] == Backfill(bars[k], col, bid, ask)
  {
    if bars == [] then []
    else BackfillAll(bars[..|bars| - 1], col, bid, ask) + [Backfill(bars[|bars| - 1], col, bid, ask)]
  }

  function PutBar(bars: seq<Bar>, k: nat, bar: Bar): seq<Bar> {
    if k < |bars| then bars[k := bar] else bars
  }

  /** The prefix rings after closing column `b` with volume `c`. */
  function CloseSums(env: Env, m: Sums, b: nat, c: Col): Sums {
    Sums(Push(m.nb, b, Weight(env, BuyCount, c)), Push(m.ns, b, Weight(env, SellCount, c)),
         Push(m.qb, b, Weight(env, BuyRoot, c)), Push(m.qs, b, Weight(env, SellRoot, c)))
  }

  /** The count baseline as taken from the prefix rings. */
  function CountOf(m: Sums, b: nat): real {
    AtLeastOne(Window(m.nb, b) + Window(m.ns, b))
  }

  function RootOf(m: Sums, b: nat): real {
    AtLeastOne(Window(m.qb, b) + Window(m.qs, b))
  }

  function StartOf(w: Written, b: nat): nat {
    if WindowSlot(b) < |w| then w[WindowSlot(b)] else 0
  }

  function CloseTrail(t: Trail, b: nat): Trail {
    var w := Mark(t.written, b);
    Trail(t.gapFrom, t.since, w, t.starts + [StartOf(w, b)])
  }

  /** Closes the next column, given the prefix rings and baselines that go with it. */
  function CloseWith(s: State, m: Sums, cnt: real, q: real): State {
    var b := |s.cols|;
    var first := NextFirst(s);
    var mid := NextMid(s);
    var bars := PutBar(s.bars, b % RING_BARS, Bar(b, s.quote.bidTicks, s.quote.askTicks, s.cur, cnt, q, mid.ticks));
    State(s.openSet, s.open, s.cols + [s.cur], b, NO_VOLUME, s.quote, first, mid, m, cnt, q,
          if first.col == b && b > 0 then BackfillAll(bars, b, s.quote.bidTicks, s.quote.askTicks) else bars,
          CloseTrail(s.trail, b))
  }

  function CloseColumn(env: Env, s: State): State {
    var m := CloseSums(env, s.sums, |s.cols|, s.cur);
    CloseWith(s, m, CountOf(m, |s.cols|), RootOf(m, |s.cols|))
  }

  // ---------- Advancing ----------

  function EnsureOpen(env: Env, s: State, ts: int): State {
    if s.openSet || ts <= 0 then s
    else s.(openSet := true, open := if ts < MIN_EPOCH then 0 else env.sessionOpen(ts))
  }

  function NoVolumes(n: nat): (r: seq<Col>)
    ensures |r| == n && forall i :: 0 <= i < n ==> r[i] == NO_VOLUME
  {
    seq(n, _ => NO_VOLUME)
  }

  function SkipTrail(t: Trail, b: nat, n: nat): Trail
    requires n >= b
  {
    Trail(b, n, t.written, t.starts + seq(n - b, _ => 0))
  }

  function SkipTo(s: State, n: nat): State
    requires n >= |s.cols|
  {
    s.(cols := s.cols + NoVolumes(n - |s.cols|), trail := SkipTrail(s.trail, |s.cols|, n))
  }

  function Target(s: State, ts: int): int {
    if ts < s.open then -1 else (ts - s.open) / BUCKET_NS - 1
  }

  /** The column to jump to before closing, or the next column. */
  function JumpTo(s: State, target: int): (n: nat)
    ensures n >= |s.cols|
  {
    if s.last < 0 && target > RING_BARS then
      if target - RING_BARS > |s.cols| then target - RING_BARS else |s.cols|
    else if target - |s.cols| > LONG_GAP then target - BASELINE
    else |s.cols|
  }

  function CloseThrough(env: Env, s: State, target: int): State
    decreases target - |s.cols|
  {
    if |s.cols| <= target then CloseThrough(env, CloseColumn(env, s), target) else s
  }

  function Jump(s: State, target: int): State {
    if JumpTo(s, target) > |s.cols| then SkipTo(s, JumpTo(s, target)) else s
  }

  /** `AdvanceTo`: closes every column that ends at or before `ts`, jumping over most of a long gap. */
  function Advance(env: Env, s: State, ts: int): State {
    if ts <= 0 then s else AdvanceOpen(env, EnsureOpen(env, s, ts), ts)
  }

  function AdvanceOpen(env: Env, s: State, ts: int): State {
    var target := Target(s, ts);
    if target < |s.cols| then s else CloseThrough(env, Jump(s, target), target)
  }

  // ---------- Ticks ----------

  predicate ValidQuote(bid: real, ask: real) {
    bid > 0.0 && ask >= bid
  }

  function OnQuote(env: Env, s: State, ts: int, bid: real, ask: real): State {
    if !ValidQuote(bid, ask) then s
    else Advance(env, s, ts).(quote := Quote(true, bid, ask, env.ticksOf(bid), env.ticksOf(ask)))
  }

  datatype Side = Buy | Sell | Neither

  /** The side of a lit trade against the midpoint of a quote. */
  function SideAgainst(q: Quote, price: real): Side {
    var mid := 0.5 * (q.bid + q.ask);
    if !q.has then Neither
    else if price < mid - EPS then Sell
    else if price > mid + EPS then Buy
    else Neither
  }

  function AddVolume(c: Col, side: Side, size: real): Col {
    match side
    case Buy => c.(buy := c.buy + size)
    case Sell => c.(sell := c.sell + size)
    case Neither => c
  }

  function OnTrade(env: Env, s: State, ts: int, price: real, size: real, isDark: bool): State {
    if !(price > 0.0 && size > 0.0) then s
    else
      var s1 := Advance(env, s, ts);
      if !s1.openSet || ts < s1.open || isDark then s1
      else s1.(cur := AddVolume(s1.cur, SideAgainst(s1.quote, price), size))
  }

  // ---------- Advancing in steps ----------

  lemma {:induction false} CloseThroughLength(env: Env, s: State, target: int)
    ensures var r := CloseThrough(env, s, target);
            && |r.cols| == (if target >= |s.cols| then target + 1 else |s.cols|)
            && r.openSet == s.openSet && r.open == s.open && r.quote == s.quote
            && r.trail.since == s.trail.since && r.trail.gapFrom == s.trail.gapFrom
            && r.last == (if target >= |s.cols| then target else s.last)
    decreases target - |s.cols|
  {
    hide CloseSums, CountOf, RootOf;
    if |s.cols| <= target { CloseThroughLength(env, CloseColumn(env, s), target); }
  }

  lemma {:induction false} CloseThroughTwice(env: Env, s: State, a: int, b: int)
    requires a <= b
    ensures CloseThrough(env, CloseThrough(env, s, a), b) == CloseThrough(env, s, b)
    decreases a - |s.cols|
  {
    hide CloseColumn;
    if |s.cols| <= a {
      CloseColumnLength(env, s);
      CloseThroughTwice(env, CloseColumn(env, s), a, b);
    }
  }

  /** Which columns are closed: the open bucket's volume goes into the next one, and the rest have none. */
  lemma {:induction false} CloseThroughColumns(env: Env, s: State, target: int)
    ensures var r := CloseThrough(env, s, target);
            if |s.cols| <= target
            then r.cols == s.cols + [s.cur] + NoVolumes(target - |s.cols|) && r.cur == NO_VOLUME
            else r.cols == s.cols && r.cur == s.cur
    decreases target - |s.cols|
  {
    hide CloseSums, CountOf, RootOf, CloseTrail;
    if |s.cols| <= target {
      CloseThroughColumns(env, CloseColumn(env, s), target);
    }
  }

  /** When the tracker jumps to column `n`, the volume of the open bucket lands in column `n`, the first one
      after the gap, whenever it was traded; the gap and the columns after `n` hold none. */
  lemma AdvanceColumns(env: Env, s: State, ts: int)
    requires ts > 0
    ensures var target := Target(EnsureOpen(env, s, ts), ts);
            var n := JumpTo(s, target);
            var r := Advance(env, s, ts);
            if target < |s.cols| then r.cols == s.cols && r.cur == s.cur && r.trail == s.trail
            else
              && n <= target && r.cur == NO_VOLUME
              && r.cols == s.cols + NoVolumes(n - |s.cols|) + [s.cur] + NoVolumes(target - n)
              && (n > |s.cols| ==> r.trail.gapFrom == |s.cols| && r.trail.since == n)
              && (n == |s.cols| ==> r.trail.gapFrom == s.trail.gapFrom && r.trail.since == s.trail.since)
  {
    var s1 := EnsureOpen(env, s, ts);
    var target := Target(s1, ts);
    var s2 := Jump(s1, target);
    hide CloseThrough, CloseColumn;
    CloseThroughColumns(env, s2, target);
    CloseThroughLength(env, s2, target);
    if target >= |s.cols| && JumpTo(s, target) == |s.cols| { assert s.cols + NoVolumes(0) == s.cols; }
  }

  lemma CloseColumnLength(env: Env, s: State)
    ensures |CloseColumn(env, s).cols| == |s.cols| + 1
  {
  }

  /** No part of the way to `ts` is jumped over. */
  predicate NoJump(env: Env, s: State, ts: int) {
    NoJumpOpen(EnsureOpen(env, s, ts), Target(EnsureOpen(env, s, ts), ts))
  }

  predicate NoJumpOpen(s: State, target: int) {
    target < |s.cols| || JumpTo(s, target) == |s.cols|
  }

  lemma AdvancePlain(env: Env, s: State, ts: int)
    requires NoJumpOpen(s, Target(s, ts))
    ensures AdvanceOpen(env, s, ts) == CloseThrough(env, s, Target(s, ts))
  {
    hide CloseColumn;
  }

  lemma NoJumpEarlier(env: Env, s: State, a: int, b: int)
    requires a <= b && NoJumpOpen(s, b)
    ensures NoJumpOpen(s, a) && NoJumpOpen(CloseThrough(env, s, a), b)
  {
    CloseThroughLength(env, s, a);
  }

  /** Batching does not matter: with no jump on the way and one session open for both times, advancing in
      two steps reaches the same tracker and the same bar ring as advancing at once. */
  lemma AdvanceTwice(env: Env, s: State, t1: int, t2: int)
    requires t1 <= t2 && NoJump(env, s, t2)
    requires t1 > 0 ==> EnsureOpen(env, s, t1) == EnsureOpen(env, s, t2)
    ensures Advance(env, Advance(env, s, t1), t2) == Advance(env, s, t2)
  {
    if t1 > 0 {
      var s0 := EnsureOpen(env, s, t1);
      var a, b := Target(s0, t1), Target(s0, t2);
      var s1 := CloseThrough(env, s0, a);
      NoJumpEarlier(env, s0, a, b);
      AdvancePlain(env, s0, t1);
      AdvancePlain(env, s0, t2);
      CloseThroughLength(env, s0, a);
      assert EnsureOpen(env, s1, t2) == s1 && Target(s1, t2) == b;
      AdvancePlain(env, s1, t2);
      CloseThroughTwice(env, s0, a, b);
    }
  }

  // ---------- Conservation ----------

  function Total(cols: seq<Col>): Col {
    if cols == [] then NO_VOLUME
    else
      var t := Total(cols[..|cols| - 1]);
      Col(t.buy + cols[|cols| - 1].buy, t.sell + cols[|cols| - 1].sell)
  }

  /** All lit volume the tracker has: closed columns and the open one. */
  function Held(s: State): Col {
    var t := Total(s.cols);
    Col(t.buy + s.cur.buy, t.sell + s.cur.sell)
  }

  lemma {:induction false} TotalNothing(cols: seq<Col>, more: seq<Col>)
    requires forall i :: 0 <= i < |more| ==> more[i] == NO_VOLUME
    ensures Total(cols + more) == Total(cols)
  {
    if more == [] {
      assert cols + more == cols;
    } else {
      assert (cols + more)[..|cols + more| - 1] == cols + more[..|more| - 1];
      TotalNothing(cols, more[..|more| - 1]);
    }
  }

  lemma {:induction false} CloseThroughHolds(env: Env, s: State, target: int)
    ensures Held(CloseThrough(env, s, target)) == Held(s)
    decreases target - |s.cols|
  {
    hide CloseSums, CountOf, RootOf;
    if |s.cols| <= target {
      assert (s.cols + [s.cur])[..|s.cols|] == s.cols;
      CloseThroughHolds(env, CloseColumn(env, s), target);
    }
  }

  lemma JumpHolds(s: State, target: int)
    ensures Held(Jump(s, target)) == Held(s)
  {
    TotalNothing(s.cols, NoVolumes(JumpTo(s, target) - |s.cols|));
  }

  /** Advancing neither makes nor loses volume, jump or no jump. */
  lemma AdvanceHolds(env: Env, s: State, ts: int)
    ensures Held(Advance(env, s, ts)) == Held(s)
  {
    if ts > 0 {
      var s1 := EnsureOpen(env, s, ts);
      JumpHolds(s1, Target(s1, ts));
      CloseThroughHolds(env, Jump(s1, Target(s1, ts)), Target(s1, ts));
      hide CloseThrough, Total, Jump;
    }
  }

  // ---------- Runs ----------

  datatype Event =
    | QuoteAt(ts: int, bid: real, ask: real)
    | TradeAt(ts: int, price: real, size: real, isDark: bool)
    | Clock(ts: int)

  function Step(env: Env, s: State, e: Event): State {
    match e
    case QuoteAt(ts, bid, ask) => OnQuote(env, s, ts, bid, ask)
    case TradeAt(ts, price, size, isDark) => OnTrade(env, s, ts, price, size, isDark)
    case Clock(ts) => Advance(env, s, ts)
  }

  const INITIAL := State(false, 0, [], -1, NO_VOLUME, Quote(false, 0.0, 0.0, 0, 0), FirstValid(-1, 0, 0),
                         Mid(false, 10000.0),
                         Sums(NO_PREFIXES, NO_PREFIXES, NO_PREFIXES, NO_PREFIXES), 1.0, 1.0, EmptyBars(),
                         Trail(0, 0, Nothing(), []))

  function EmptyBars(): (r: seq<Bar>)
    ensures |r| == RING_BARS && forall k :: 0 <= k < RING_BARS ==> r[k] == NO_BAR
  {
    seq(RING_BARS, _ => NO_BAR)
  }

  function Run(env: Env, es: seq<Event>): State {
    if es == [] then INITIAL else Step(env, Run(env, es[..|es| - 1]), es[|es| - 1])
  }

  /** The last valid quote of the stream. */
  function LastQuote(env: Env, es: seq<Event>): Quote {
    if es == [] then INITIAL.quote
    else
      match es[|es| - 1]
      case QuoteAt(_, bid, ask) =>
        if ValidQuote(bid, ask) then Quote(true, bid, ask, env.ticksOf(bid), env.ticksOf(ask))
        else LastQuote(env, es[..|es| - 1])
      case _ => LastQuote(env, es[..|es| - 1])
  }

  /** The side a trade counts for after the stream `before`; dark and empty trades and trades before the open
      count for none. */
  function LitSide(env: Env, open: int, before: seq<Event>, e: Event): Side {
    match e
    case TradeAt(ts, price, size, isDark) =>
      if price > 0.0 && size > 0.0 && !isDark && ts >= open then SideAgainst(LastQuote(env, before), price) else Neither
    case _ => Neither
  }

  function SizeOf(e: Event): real {
    match e
    case TradeAt(_, _, size, _) => size
    case _ => 0.0
  }

  /** The lit volume of the trades of the stream with `lo <= ts < hi`, each against the last quote before it. */
  function VolumeIn(env: Env, open: int, es: seq<Event>, lo: int, hi: int): Col {
    if es == [] then NO_VOLUME
    else
      var before := es[..|es| - 1];
      var e := es[|es| - 1];
      var v := VolumeIn(env, open, before, lo, hi);
      if lo <= e.ts < hi then AddVolume(v, LitSide(env, open, before, e), SizeOf(e)) else v
  }

  /** The lit volume of all trades. */
  function VolumeOf(env: Env, open: int, es: seq<Event>): Col {
    if es == [] then NO_VOLUME
    else
      var before := es[..|es| - 1];
      AddVolume(VolumeOf(env, open, before), LitSide(env, open, before, es[|es| - 1]), SizeOf(es[|es| - 1]))
  }

  /** Every event is at a positive time of one session. */
  ghost predicate OneSession(env: Env, open: int, es: seq<Event>) {
    forall i :: 0 <= i < |es| ==> InSession(env, open, es[i])
  }

  predicate InSession(env: Env, open: int, e: Event) {
    e.ts > 0 && open == if e.ts < MIN_EPOCH then 0 else env.sessionOpen(e.ts)
  }

  lemma InitSession(env: Env, open: int, es: seq<Event>)
    requires es != [] && OneSession(env, open, es)
    ensures OneSession(env, open, es[..|es| - 1]) && InSession(env, open, es[|es| - 1])
  {
  }

  lemma AdvanceKeeps(env: Env, s: State, ts: int)
    ensures var r := Advance(env, s, ts);
            r.quote == s.quote && r.openSet == EnsureOpen(env, s, ts).openSet && r.open == EnsureOpen(env, s, ts).open
  {
    if ts > 0 {
      var s1 := EnsureOpen(env, s, ts);
      CloseThroughLength(env, Jump(s1, Target(s1, ts)), Target(s1, ts));
      hide CloseThrough;
    }
  }

  /** What the tracker remembers of the session and of the quotes. */
  lemma {:induction false} RunRemembers(env: Env, open: int, es: seq<Event>)
    requires OneSession(env, open, es)
    ensures var s := Run(env, es); s.quote == LastQuote(env, es) && (s.openSet ==> s.open == open)
  {
    hide Advance, OneSession;
    if es != [] {
      InitSession(env, open, es);
      RunRemembers(env, open, es[..|es| - 1]);
      AdvanceKeeps(env, Run(env, es[..|es| - 1]), es[|es| - 1].ts);
    }
  }

  lemma TradeVolume(env: Env, open: int, es: seq<Event>, e: Event)
    requires OneSession(env, open, es) && InSession(env, open, e)
    ensures var s := Run(env, es);
            Step(env, s, e).cur ==
              AddVolume(if Moves(e) then Advance(env, s, e.ts).cur else s.cur, LitSide(env, open, es, e), SizeOf(e))
    ensures Step(env, Run(env, es), e).cols == if Moves(e) then Advance(env, Run(env, es), e.ts).cols
            else Run(env, es).cols
  {
    RunRemembers(env, open, es);
    AdvanceKeeps(env, Run(env, es), e.ts);
    hide Advance, OneSession;
  }

  /** Events that make the tracker advance; quotes and trades that are not valid do not. */
  predicate Moves(e: Event) {
    match e
    case QuoteAt(_, bid, ask) => ValidQuote(bid, ask)
    case TradeAt(_, price, size, _) => price > 0.0 && size > 0.0
    case Clock(_) => true
  }

  lemma AddedVolume(s: Col, t: Col, side: Side, size: real)
    ensures var a := AddVolume(t, side, size);
            Col(s.buy + a.buy, s.sell + a.sell) == AddVolume(Col(s.buy + t.buy, s.sell + t.sell), side, size)
  {
  }

  /** Total lit volume is conserved between the trades and the closed columns and open bucket, in any
      stream of one session, in any order of timestamps and with any jumps. */
  lemma {:induction false} VolumeIsConserved(env: Env, open: int, es: seq<Event>)
    requires OneSession(env, open, es)
    ensures Held(Run(env, es)) == VolumeOf(env, open, es)
  {
    hide Advance, OneSession, LitSide, Step;
    if es != [] {
      var before, e := es[..|es| - 1], es[|es| - 1];
      InitSession(env, open, es);
      VolumeIsConserved(env, open, before);
      AdvanceHolds(env, Run(env, before), e.ts);
      TradeVolume(env, open, before, e);
      var s := if Moves(e) then Advance(env, Run(env, before), e.ts) else Run(env, before);
      AddedVolume(Total(s.cols), s.cur, LitSide(env, open, before, e), SizeOf(e));
    }
  }

  // ---------- Volume per bucket ----------

  /** Volume of bucket `b` of the stream. */
  function BucketVolume(env: Env, open: int, es: seq<Event>, b: int): Col {
    VolumeIn(env, open, es, open + b * BUCKET_NS, open + (b + 1) * BUCKET_NS)
  }

  ghost predicate MovedBefore(es: seq<Event>, open: int, x: int) {
    forall i :: 0 <= i < |es| ==> EventBefore(es[i], open, x)
  }

  predicate EventBefore(e: Event, open: int, x: int) {
    Moves(e) && e.ts >= open ==> e.ts < x
  }

  lemma {:induction false} NoVolumeLater(env: Env, open: int, es: seq<Event>, lo: int, hi: int)
    requires MovedBefore(es, open, lo)
    ensures VolumeIn(env, open, es, lo, hi) == NO_VOLUME
  {
    if es != [] {
      var before, e := es[..|es| - 1], es[|es| - 1];
      assert EventBefore(e, open, lo);
      forall i | 0 <= i < |before|
        ensures EventBefore(before[i], open, lo)
      {
        assert before[i] == es[i];
      }
      NoVolumeLater(env, open, before, lo, hi);
    }
  }

  ghost predicate ColumnRight(env: Env, open: int, es: seq<Event>, s: State, b: nat)
    requires b < |s.cols|
  {
    s.cols[b] == BucketVolume(env, open, es, b)
  }

  /** Every closed column and the open bucket hold the volume of their interval of the stream. */
  ghost predicate BucketsRight(env: Env, open: int, es: seq<Event>, s: State) {
    && (forall b :: 0 <= b < |s.cols| ==> ColumnRight(env, open, es, s, b))
    && s.cur == BucketVolume(env, open, es, |s.cols|)
    && MovedBefore(es, open, open + (|s.cols| + 1) * BUCKET_NS)
  }

  lemma CloseColumnBuckets(env: Env, open: int, es: seq<Event>, s: State)
    requires BucketsRight(env, open, es, s)
    ensures BucketsRight(env, open, es, CloseColumn(env, s))
  {
    hide CloseSums, CountOf, RootOf, CloseTrail, VolumeIn;
    var r := CloseColumn(env, s);
    var n := |s.cols|;
    NoVolumeLater(env, open, es, open + (n + 1) * BUCKET_NS, open + (n + 2) * BUCKET_NS);
    forall i | 0 <= i < |es|
      ensures EventBefore(es[i], open, open + (n + 2) * BUCKET_NS)
    {
      assert EventBefore(es[i], open, open + (n + 1) * BUCKET_NS);
    }
    forall b | 0 <= b < |r.cols|
      ensures ColumnRight(env, open, es, r, b)
    {
      if b < n { assert ColumnRight(env, open, es, s, b); }
    }
  }

  lemma {:induction false} CloseThroughBuckets(env: Env, open: int, es: seq<Event>, s: State, target: int)
    requires BucketsRight(env, open, es, s)
    ensures BucketsRight(env, open, es, CloseThrough(env, s, target))
    decreases target - |s.cols|
  {
    hide CloseColumn, BucketsRight;
    if |s.cols| <= target {
      CloseColumnLength(env, s);
      CloseColumnBuckets(env, open, es, s);
      CloseThroughBuckets(env, open, es, CloseColumn(env, s), target);
    }
  }

  /** Advancing keeps the buckets right and makes the bucket of `ts` the open one, unless `ts` is behind it. */
  lemma AdvanceBuckets(env: Env, open: int, es: seq<Event>, s: State, ts: int)
    requires BucketsRight(env, open, es, s) && NoJump(env, s, ts) && ts > 0
    requires EnsureOpen(env, s, ts).open == open
    ensures var r := Advance(env, s, ts);
            && BucketsRight(env, open, es, r) && |r.cols| >= |s.cols|
            && ts < open + (|r.cols| + 1) * BUCKET_NS
            && (|r.cols| > |s.cols| ==> open + |r.cols| * BUCKET_NS <= ts)
  {
    hide BucketsRight;
    var s1 := EnsureOpen(env, s, ts);
    assert BucketsRight(env, open, es, s1) by { SameBuckets(env, open, es, s, s1); }
    AdvancePlain(env, s1, ts);
    CloseThroughBuckets(env, open, es, s1, Target(s1, ts));
    CloseThroughLength(env, s1, Target(s1, ts));
  }

  lemma SameBuckets(env: Env, open: int, es: seq<Event>, s: State, r: State)
    requires BucketsRight(env, open, es, s) && r.cols == s.cols && r.cur == s.cur
    ensures BucketsRight(env, open, es, r)
  {
    forall b | 0 <= b < |r.cols|
      ensures ColumnRight(env, open, es, r, b)
    {
      assert ColumnRight(env, open, es, s, b);
    }
  }

  ghost predicate InTimeOrder(es: seq<Event>) {
    forall i :: 0 <= i < |es| - 1 ==> NotAfterNext(es, i)
  }

  ghost predicate NotAfterNext(es: seq<Event>, i: nat)
    requires i + 1 < |es|
  {
    es[i].ts <= es[i + 1].ts
  }

  /** No event of the stream makes the tracker jump over columns. */
  ghost predicate NeverJumps(env: Env, es: seq<Event>) {
    es != [] ==> NeverJumps(env, es[..|es| - 1]) && NoJump(env, Run(env, es[..|es| - 1]), es[|es| - 1].ts)
  }

  lemma VolumeAppend(env: Env, open: int, es: seq<Event>, e: Event, lo: int, hi: int)
    ensures VolumeIn(env, open, es + [e], lo, hi) ==
            if lo <= e.ts < hi then AddVolume(VolumeIn(env, open, es, lo, hi), LitSide(env, open, es, e), SizeOf(e))
            else VolumeIn(env, open, es, lo, hi)
  {
    assert (es + [e])[..|es + [e]| - 1] == es;
  }

  lemma MovedAppend(es: seq<Event>, e: Event, open: int, x: int)
    requires MovedBefore(es, open, x) && EventBefore(e, open, x)
    ensures MovedBefore(es + [e], open, x)
  {
  }

  /** One event after advancing to its time. */
  lemma EventBuckets(env: Env, open: int, es: seq<Event>, e: Event, s: State, r: State)
    requires BucketsRight(env, open, es, s) && r.cols == s.cols
    requires r.cur == AddVolume(s.cur, LitSide(env, open, es, e), SizeOf(e))
    requires EventBefore(e, open, open + (|s.cols| + 1) * BUCKET_NS)
    requires e.ts >= open ==> open + |s.cols| * BUCKET_NS <= e.ts
    ensures BucketsRight(env, open, es + [e], r)
  {
    hide VolumeIn;
    var n := |s.cols|;
    MovedAppend(es, e, open, open + (n + 1) * BUCKET_NS);
    VolumeAppend(env, open, es, e, open + n * BUCKET_NS, open + (n + 1) * BUCKET_NS);
    forall b | 0 <= b < |r.cols|
      ensures ColumnRight(env, open, es + [e], r, b)
    {
      assert ColumnRight(env, open, es, s, b);
      VolumeAppend(env, open, es, e, open + b * BUCKET_NS, open + (b + 1) * BUCKET_NS);
    }
  }

  /** Closed columns never reach past the last event. */
  ghost predicate NotAhead(open: int, es: seq<Event>, s: State) {
    |s.cols| > 0 ==> es != [] && open + |s.cols| * BUCKET_NS <= es[|es| - 1].ts
  }

  lemma BucketStep(env: Env, open: int, es: seq<Event>, e: Event)
    requires OneSession(env, open, es) && InSession(env, open, e) && NoJump(env, Run(env, es), e.ts)
    requires BucketsRight(env, open, es, Run(env, es)) && NotAhead(open, es, Run(env, es))
    requires es != [] ==> es[|es| - 1].ts <= e.ts
    ensures var r := Step(env, Run(env, es), e); BucketsRight(env, open, es + [e], r) && NotAhead(open, es + [e], r)
  {
    var s := Run(env, es);
    var r := Step(env, s, e);
    TradeVolume(env, open, es, e);
    RunRemembers(env, open, es);
    hide BucketsRight, Step, LitSide, Advance, OneSession, NoJump;
    if Moves(e) {
      assert EnsureOpen(env, s, e.ts).open == open;
      AdvanceBuckets(env, open, es, s, e.ts);
      EventBuckets(env, open, es, e, Advance(env, s, e.ts), r);
    } else {
      EventBuckets(env, open, es, e, s, r);
    }
  }

  /** Bucket volumes. For a stream in time order that never jumps, every closed column holds exactly the
      lit buy and sell volume of the trades in its 250 ms interval, each classified against the last
      valid quote before it. */
  lemma {:induction false} BucketVolumes(env: Env, open: int, es: seq<Event>)
    requires OneSession(env, open, es) && InTimeOrder(es) && NeverJumps(env, es)
    ensures BucketsRight(env, open, es, Run(env, es)) && NotAhead(open, es, Run(env, es))
  {
    hide Step, OneSession, NoJump;
    if es != [] {
      var before, e := es[..|es| - 1], es[|es| - 1];
      InitSession(env, open, es);
      forall i | 0 <= i < |before| - 1
        ensures NotAfterNext(before, i)
      {
        assert NotAfterNext(es, i);
      }
      if before != [] { assert NotAfterNext(es, |es| - 2); }
      BucketVolumes(env, open, before);
      BucketStep(env, open, before, e);
      assert before + [e] == es;
    }
  }

  // ---------- What is in the prefix slots ----------

  lemma WeightsAppend(env: Env, k: Kind, cols: seq<Col>, c: Col)
    ensures Weights(env, k, cols + [c]) == Weights(env, k, cols) + [Weight(env, k, c)]
  {
    assert (cols + [c])[..|cols + [c]| - 1] == cols;
  }

  lemma {:induction false} WeightsNothing(env: Env, k: Kind, cols: seq<Col>, n: nat)
    ensures Weights(env, k, cols + NoVolumes(n)) == Weights(env, k, cols) + Zeros(n)
  {
    if n == 0 {
      assert cols + NoVolumes(0) == cols;
    } else {
      assert cols + NoVolumes(n) == (cols + NoVolumes(n - 1)) + [NO_VOLUME];
      WeightsAppend(env, k, cols + NoVolumes(n - 1), NO_VOLUME);
      WeightsNothing(env, k, cols, n - 1);
      assert Zeros(n) == Zeros(n - 1) + [0.0];
    }
  }

  ghost predicate RingTracks(env: Env, k: Kind, p: Prefixes, s: State) {
    Tracks(p, Weights(env, k, s.cols), s.trail.written)
  }

  /** Every prefix slot is a direct sum: that of the columns before the one it was stored before. */
  ghost predicate SumsTrack(env: Env, s: State) {
    && RingTracks(env, BuyCount, s.sums.nb, s) && RingTracks(env, SellCount, s.sums.ns, s)
    && RingTracks(env, BuyRoot, s.sums.qb, s) && RingTracks(env, SellRoot, s.sums.qs, s)
  }

  /** A slot was stored before the column it belongs to, and not for a column jumped over. */
  predicate SlotRight(t: Trail, n: nat, j: nat)
    requires j < |t.written|
  {
    var h := t.written[j];
    && h <= n && (h <= t.gapFrom || t.since < h) && (h == 0 || h % SLOTS == j)
  }

  /** Columns closed since the latest jump are in their slots, as long as a ring lasts. */
  predicate SlotHolds(t: Trail, n: nat, c: nat)
    requires |t.written| == SLOTS
  {
    t.since < c <= n && n - SLOTS < c ==> t.written[c % SLOTS] == c
  }

  /** The baselines of column `c` start at the oldest column of the window, or, if that was jumped over, at an
      earlier one before the gap with the same slot. */
  predicate StartRight(t: Trail, c: nat)
    requires c < |t.starts|
  {
    var h, o := t.starts[c], Oldest(c + 1);
    && h <= o && (h == 0 || h % SLOTS == o % SLOTS)
    && (o > t.since ==> h == o) && (t.gapFrom < o <= t.since ==> h <= t.gapFrom)
  }

  ghost predicate SlotsRight(t: Trail, n: nat)
    requires |t.written| == SLOTS
  {
    forall j :: 0 <= j < SLOTS ==> SlotRight(t, n, j)
  }

  ghost predicate SlotsHold(t: Trail, n: nat)
    requires |t.written| == SLOTS
  {
    forall c :: 0 <= c <= n ==> SlotHolds(t, n, c)
  }

  ghost predicate TrailRight(t: Trail, n: nat) {
    && |t.written| == SLOTS && |t.starts| == n && t.gapFrom <= t.since <= n
    && SlotsRight(t, n) && SlotsHold(t, n)
    && (forall c :: t.since <= c < n ==> StartRight(t, c))
  }

  lemma MarkRight(t: Trail, n: nat)
    requires TrailRight(t, n)
    ensures SlotsRight(CloseTrail(t, n), n + 1) && SlotsHold(CloseTrail(t, n), n + 1)
  {
    var r, m := CloseTrail(t, n), n + 1;
    forall j | 0 <= j < SLOTS
      ensures SlotRight(r, m, j)
    {
      assert SlotRight(t, n, j);
    }
    forall c | 0 <= c <= m
      ensures SlotHolds(r, m, c)
    {
      if c <= n { assert SlotHolds(t, n, c); }
    }
  }

  lemma CloseTrailRight(t: Trail, n: nat)
    requires TrailRight(t, n)
    ensures TrailRight(CloseTrail(t, n), n + 1)
  {
    var r := CloseTrail(t, n);
    MarkRight(t, n);
    forall c | r.since <= c < n + 1
      ensures StartRight(r, c)
    {
      if c < n {
        assert StartRight(t, c);
      } else {
        var o := Oldest(n + 1);
        assert SlotHolds(r, n + 1, o);
        assert SlotRight(r, n + 1, o % SLOTS);
      }
    }
  }

  lemma SkipTrailRight(t: Trail, b: nat, n: nat)
    requires TrailRight(t, b) && b <= n
    ensures TrailRight(SkipTrail(t, b, n), n)
  {
    forall j | 0 <= j < SLOTS
      ensures SlotRight(SkipTrail(t, b, n), n, j)
    {
      assert SlotRight(t, b, j);
    }
  }

  // ---------- The bar ring ----------

  /** Column `c` is in its ring slot with its volume, and with baselines summed from where its start says. */
  ghost predicate BarThere(env: Env, s: State, c: nat) {
    && c < |s.cols| && c < |s.trail.starts| && |s.bars| == RING_BARS
    && var bar, h := s.bars[c % RING_BARS], s.trail.starts[c];
       && bar.col == c && bar.vol == s.cols[c]
       && bar.cnt == CountFrom(env, s.cols[..c + 1], h) && bar.q == RootFrom(env, s.cols[..c + 1], h)
  }

  /** The latest baselines are those of the last column, unless columns have just been skipped. */
  ghost predicate LatestThere(env: Env, s: State) {
    0 <= s.last == |s.cols| - 1 && s.last < |s.trail.starts| ==>
      var h := s.trail.starts[s.last];
      s.cnt == CountFrom(env, s.cols, h) && s.q == RootFrom(env, s.cols, h)
  }

  /** Nothing was traded in the columns of the latest gap. */
  ghost predicate GapEmpty(s: State) {
    forall c :: s.trail.gapFrom <= c < s.trail.since && c < |s.cols| ==> s.cols[c] == NO_VOLUME
  }

  /** The last 64 columns closed one after the other are all in the ring, and the prefix slots are right. */
  ghost predicate Resident(env: Env, s: State) {
    && SumsTrack(env, s) && TrailRight(s.trail, |s.cols|) && GapEmpty(s) && LatestThere(env, s)
    && |s.bars| == RING_BARS
    && forall c :: s.trail.since <= c < |s.cols| && |s.cols| - RING_BARS <= c ==> BarThere(env, s, c)
  }

  lemma ColumnTracks(env: Env, k: Kind, p: Prefixes, cols: seq<Col>, w: Written, c: Col)
    requires Tracks(p, Weights(env, k, cols), w)
    ensures var q, v := Push(p, |cols|, Weight(env, k, c)), Mark(w, |cols|);
            && Tracks(q, Weights(env, k, cols + [c]), v)
            && Window(q, |cols|) == SumFrom(env, k, cols + [c], StartOf(v, |cols|))
  {
    hide Push, Mark, Window;
    WeightsAppend(env, k, cols, c);
    PushTracks(p, Weights(env, k, cols), w, Weight(env, k, c));
    WindowIsSum(Push(p, |cols|, Weight(env, k, c)), Weights(env, k, cols + [c]), Mark(w, |cols|));
  }

  /** The baselines taken from the rings are direct sums from the start of the column. */
  lemma CloseColumnSums(env: Env, s: State)
    requires SumsTrack(env, s)
    ensures var r := CloseColumn(env, s);
            var h := StartOf(r.trail.written, |s.cols|);
            && SumsTrack(env, r) && r.cnt == CountFrom(env, r.cols, h) && r.q == RootFrom(env, r.cols, h)
  {
    hide Push, Mark, Window, SumFrom, Tracks, StartOf;
    ColumnTracks(env, BuyCount, s.sums.nb, s.cols, s.trail.written, s.cur);
    ColumnTracks(env, SellCount, s.sums.ns, s.cols, s.trail.written, s.cur);
    ColumnTracks(env, BuyRoot, s.sums.qb, s.cols, s.trail.written, s.cur);
    ColumnTracks(env, SellRoot, s.sums.qs, s.cols, s.trail.written, s.cur);
  }

  /** Two bars with the same column, volume and baselines. */
  predicate SameButQuote(a: Bar, b: Bar) {
    a == b.(bid := a.bid, ask := a.ask, mid := a.mid)
  }

  /** Closing a column stores its bar and changes nothing but quotes in the others of the last 64. */
  lemma CloseWithBars(s: State, m: Sums, cnt: real, q: real, c: nat)
    requires |s.bars| == RING_BARS && c <= |s.cols| && |s.cols| - RING_BARS < c
    ensures var r := CloseWith(s, m, cnt, q);
            && |r.bars| == RING_BARS
            && SameButQuote(r.bars[c % RING_BARS],
                            if c == |s.cols| then Bar(c, 0, 0, s.cur, cnt, q, 0.0) else s.bars[c % RING_BARS])
  {
    hide CloseTrail, NextFirst, NextMid;
  }

  /** What a bar says does not depend on its quote. */
  lemma SameBar(env: Env, s: State, r: State, c: nat, bar: Bar)
    requires c < |r.cols| && c < |r.trail.starts| && |r.bars| == RING_BARS && SameButQuote(r.bars[c % RING_BARS], bar)
    requires bar.col == c && bar.vol == r.cols[c]
    requires bar.cnt == CountFrom(env, r.cols[..c + 1], r.trail.starts[c])
    requires bar.q == RootFrom(env, r.cols[..c + 1], r.trail.starts[c])
    ensures BarThere(env, r, c)
  {
    hide CountFrom, RootFrom;
  }

  lemma CloseColumnBars(env: Env, s: State, c: nat)
    requires c <= |s.cols| && |s.cols| - RING_BARS < c
    requires |s.bars| == RING_BARS && |s.trail.starts| == |s.cols| && SumsTrack(env, s)
    requires c < |s.cols| ==> BarThere(env, s, c)
    ensures BarThere(env, CloseColumn(env, s), c)
  {
    var r := CloseColumn(env, s);
    assert r.cols == s.cols + [s.cur];
    assert r.trail.starts == s.trail.starts + [StartOf(r.trail.written, |s.cols|)];
    hide CountFrom, RootFrom, StartOf, SumsTrack, CloseWith, CloseSums, CountOf, RootOf, SameButQuote;
    CloseColumnSums(env, s);
    CloseWithBars(s, r.sums, r.cnt, r.q, c);
    if c < |s.cols| {
      assert r.cols[..c + 1] == s.cols[..c + 1];
      SameBar(env, s, r, c, s.bars[c % RING_BARS]);
    } else {
      assert r.cols[..c + 1] == r.cols;
      SameBar(env, s, r, c, Bar(c, 0, 0, s.cur, r.cnt, r.q, 0.0));
    }
  }

  lemma CloseColumnResident(env: Env, s: State)
    requires Resident(env, s)
    ensures Resident(env, CloseColumn(env, s))
  {
    var r := CloseColumn(env, s);
    CloseColumnSums(env, s);
    CloseTrailRight(s.trail, |s.cols|);
    forall c | s.trail.since <= c < |r.cols| && |r.cols| - RING_BARS <= c
      ensures BarThere(env, r, c)
    {
      CloseColumnBars(env, s, c);
    }
    hide CloseSums, CountOf, RootOf, CountFrom, RootFrom, StartOf, Mark, SumsTrack, TrailRight, BarThere;
  }

  lemma {:induction false} CloseThroughResident(env: Env, s: State, target: int)
    requires Resident(env, s)
    ensures Resident(env, CloseThrough(env, s, target))
    decreases target - |s.cols|
  {
    hide CloseColumn, Resident;
    if |s.cols| <= target {
      CloseColumnLength(env, s);
      CloseColumnResident(env, s);
      CloseThroughResident(env, CloseColumn(env, s), target);
    }
  }

  lemma SkipResident(env: Env, s: State, n: nat)
    requires Resident(env, s) && n > |s.cols|
    requires s.last >= 0 ==> s.last < |s.cols|
    ensures Resident(env, SkipTo(s, n))
  {
    var r := SkipTo(s, n);
    SkipTrailRight(s.trail, |s.cols|, n);
    assert SumsTrack(env, r) by {
      hide Tracks;
      SkipRing(env, BuyCount, s.sums.nb, s, n);
      SkipRing(env, SellCount, s.sums.ns, s, n);
      SkipRing(env, BuyRoot, s.sums.qb, s, n);
      SkipRing(env, SellRoot, s.sums.qs, s, n);
    }
    hide SumsTrack, TrailRight;
  }

  lemma SkipRing(env: Env, k: Kind, p: Prefixes, s: State, n: nat)
    requires RingTracks(env, k, p, s) && n >= |s.cols|
    ensures RingTracks(env, k, p, SkipTo(s, n))
  {
    hide Tracks;
    WeightsNothing(env, k, s.cols, n - |s.cols|);
    SkipTracks(p, Weights(env, k, s.cols), s.trail.written, n - |s.cols|);
  }

  /** A state that differs in nothing the ring and the rings of prefixes depend on. */
  lemma ResidentOf(env: Env, s: State, r: State)
    requires Resident(env, s)
    requires r == s.(openSet := r.openSet, open := r.open, cur := r.cur, quote := r.quote)
    ensures Resident(env, r)
  {
    hide CountFrom, RootFrom, TrailRight, Tracks;
    forall c | r.trail.since <= c < |r.cols| && |r.cols| - RING_BARS <= c
      ensures BarThere(env, r, c)
    {
      assert BarThere(env, s, c);
    }
  }

  /** Between calls the last column is the one before the next, and a long gap is 3600 columns back. */
  predicate AtRest(s: State) {
    && (s.last < 0 ==> s.cols == []) && (s.last >= 0 ==> s.last == |s.cols| - 1)
    && (s.cols == [] || s.trail.since < |s.cols|)
    && (s.trail.gapFrom == 0 || s.trail.since + BASELINE < |s.cols|)
  }

  lemma JumpResident(env: Env, s: State, target: int)
    requires Resident(env, s) && AtRest(s) && target >= |s.cols|
    ensures var r := Jump(s, target);
            && Resident(env, r) && r.trail.since <= |r.cols| <= target
            && (r.trail.gapFrom == 0 || r.trail.since + BASELINE <= target)
  {
    if JumpTo(s, target) > |s.cols| { SkipResident(env, s, JumpTo(s, target)); }
    hide SumsTrack, BarThere;
  }

  lemma AdvanceOpenResident(env: Env, s: State, ts: int)
    requires Resident(env, s) && AtRest(s)
    ensures Resident(env, AdvanceOpen(env, s, ts)) && AtRest(AdvanceOpen(env, s, ts))
  {
    hide CloseThrough, Resident, Jump, Target;
    var target := Target(s, ts);
    if target >= |s.cols| {
      JumpResident(env, s, target);
      CloseThroughResident(env, Jump(s, target), target);
      CloseThroughLength(env, Jump(s, target), target);
    }
  }

  lemma AdvanceResident(env: Env, s: State, ts: int)
    requires Resident(env, s) && AtRest(s)
    ensures Resident(env, Advance(env, s, ts)) && AtRest(Advance(env, s, ts))
  {
    hide AdvanceOpen, Resident;
    if ts > 0 {
      ResidentOf(env, s, EnsureOpen(env, s, ts));
      AdvanceOpenResident(env, EnsureOpen(env, s, ts), ts);
    }
  }

  /** In any stream whatever, with or without jumps, the ring holds the last 64 contiguously closed columns with
      their volumes, and their baselines are direct sums from the columns that `starts` names. */
  lemma {:induction false} RingHoldsLastColumns(env: Env, es: seq<Event>)
    ensures Resident(env, Run(env, es)) && AtRest(Run(env, es))
  {
    hide Resident, Advance;
    if es == [] {
      InitialResident(env);
    } else {
      var s, e := Run(env, es[..|es| - 1]), es[|es| - 1];
      RingHoldsLastColumns(env, es[..|es| - 1]);
      AdvanceResident(env, s, e.ts);
      ResidentOf(env, if Moves(e) then Advance(env, s, e.ts) else s, Run(env, es));
    }
  }

  lemma InitialResident(env: Env)
    ensures Resident(env, INITIAL) && AtRest(INITIAL)
  {
    NoPrefixesTrack();
    hide Tracks;
  }

  // ---------- When the stored baselines are the 15-minute ones ----------

  /** Nothing was traded in columns `lo..hi`. */
  ghost predicate Quiet(cols: seq<Col>, lo: nat, hi: nat) {
    forall i :: lo <= i < hi && i < |cols| ==> QuietColumn(cols[i])
  }

  predicate QuietColumn(c: Col) {
    c.buy <= 0.0 && c.sell <= 0.0
  }

  ghost predicate RootsPositive(env: Env) {
    forall v: real :: v > 0.0 ==> env.sqrt(v) > 0.0
  }

  /** A buy and a sell kind whose weights are 0 exactly without volume. */
  ghost predicate Pair(env: Env, kb: Kind, ks: Kind) {
    (kb == BuyCount && ks == SellCount) || (kb == BuyRoot && ks == SellRoot && RootsPositive(env))
  }

  lemma WeightOfQuiet(env: Env, kb: Kind, ks: Kind, c: Col)
    requires Pair(env, kb, ks)
    ensures Weight(env, kb, c) >= 0.0 && Weight(env, ks, c) >= 0.0
    ensures Weight(env, kb, c) + Weight(env, ks, c) == 0.0 <==> QuietColumn(c)
  {
  }

  lemma {:induction false} WeightsTake(env: Env, k: Kind, cols: seq<Col>, n: nat)
    requires n <= |cols|
    ensures Weights(env, k, cols)[..n] == Weights(env, k, cols[..n])
  {
    if n == |cols| {
      assert cols[..n] == cols;
    } else {
      WeightsTake(env, k, cols[..|cols| - 1], n);
      assert cols[..|cols| - 1][..n] == cols[..n];
    }
  }

  /** The last of the columns `h..o` adds its weight. */
  lemma SumUpTo(env: Env, k: Kind, cols: seq<Col>, h: nat, o: nat)
    requires h < o <= |cols|
    ensures Sum(Weights(env, k, cols)[h..o]) == Sum(Weights(env, k, cols)[h..o - 1]) + Weight(env, k, cols[o - 1])
  {
    var xs := Weights(env, k, cols);
    WeightsTake(env, k, cols, o);
    assert xs[h..o][..o - h - 1] == xs[h..o - 1];
    assert xs[o - 1] == xs[..o][o - 1];
  }

  /** What is summed over columns `h..o` is not negative, and is 0 exactly if nothing was traded in them. */
  lemma {:induction false} ExcessIsTrading(env: Env, kb: Kind, ks: Kind, cols: seq<Col>, h: nat, o: nat)
    requires Pair(env, kb, ks) && h <= o <= |cols|
    ensures var b, s := Sum(Weights(env, kb, cols)[h..o]), Sum(Weights(env, ks, cols)[h..o]);
            b >= 0.0 && s >= 0.0 && (b + s == 0.0 <==> Quiet(cols, h, o))
    decreases o
  {
    hide Weight, Weights, QuietColumn, Pair;
    if h < o {
      ExcessIsTrading(env, kb, ks, cols, h, o - 1);
      SumUpTo(env, kb, cols, h, o);
      SumUpTo(env, ks, cols, h, o);
      WeightOfQuiet(env, kb, ks, cols[o - 1]);
      assert Quiet(cols, h, o) <==> Quiet(cols, h, o - 1) && QuietColumn(cols[o - 1]);
    }
  }

  /** Starting earlier adds the weights in between. */
  lemma SumFromEarlier(env: Env, k: Kind, cols: seq<Col>, h: nat, o: nat)
    requires h <= o <= |cols|
    ensures SumFrom(env, k, cols, h) == Sum(Weights(env, k, cols)[h..o]) + SumFrom(env, k, cols, o)
  {
    var xs := Weights(env, k, cols);
    assert xs[h..] == xs[h..o] + xs[o..];
    SumConcat(xs[h..o], xs[o..]);
  }

  /** Summing from an earlier column makes no difference exactly if nothing was traded in between, or all of
      it together does not exceed the least value 1. */
  lemma EarlierStart(env: Env, kb: Kind, ks: Kind, cols: seq<Col>, h: nat, o: nat)
    requires Pair(env, kb, ks) && h <= o <= |cols|
    ensures AtLeastOne(SumFrom(env, kb, cols, h) + SumFrom(env, ks, cols, h))
              == AtLeastOne(SumFrom(env, kb, cols, o) + SumFrom(env, ks, cols, o))
            <==> Quiet(cols, h, o) || SumFrom(env, kb, cols, h) + SumFrom(env, ks, cols, h) <= 1.0
  {
    hide SumFrom, Weights, Quiet, Pair, Sum;
    SumFromEarlier(env, kb, cols, h, o);
    SumFromEarlier(env, ks, cols, h, o);
    ExcessIsTrading(env, kb, ks, cols, h, o);
  }

  /** When the baselines of column `c`, summed from column `h` on, are those of the last 15 minutes. */
  ghost predicate BaselinesRightWhen(env: Env, bar: Bar, cols: seq<Col>, h: nat) {
    && (bar.cnt == CountBaseline(env, cols) <==>
        Quiet(cols, h, Oldest(|cols|)) || SumFrom(env, BuyCount, cols, h) + SumFrom(env, SellCount, cols, h) <= 1.0)
    && (RootsPositive(env) ==>
        (bar.q == RootBaseline(env, cols) <==>
         Quiet(cols, h, Oldest(|cols|)) || SumFrom(env, BuyRoot, cols, h) + SumFrom(env, SellRoot, cols, h) <= 1.0))
  }

  /** Exactly when a stored baseline is the direct one. Column `c` is in the ring; `h` is where its baselines start.
      They are the direct sums of the last 3600 columns exactly if nothing was traded from `h` up to the window,
      or the whole sum from `h` does not exceed 1. And `h` is the start of the window, or a column with the same
      slot before the latest gap, and then the window starts inside the gap. */
  lemma StoredBaselines(env: Env, es: seq<Event>, c: nat)
    requires var s := Run(env, es); s.trail.since <= c < |s.cols| && |s.cols| - RING_BARS <= c
    ensures var s := Run(env, es);
            && BarThere(env, s, c) && StartRight(s.trail, c)
            && BaselinesRightWhen(env, s.bars[c % RING_BARS], s.cols[..c + 1], s.trail.starts[c])
  {
    hide Run, SumFrom, Quiet, SumsTrack, LatestThere, GapEmpty;
    var s := Run(env, es);
    RingHoldsLastColumns(env, es);
    assert BarThere(env, s, c) && StartRight(s.trail, c);
    hide Resident;
    var h, o, cols := s.trail.starts[c], Oldest(c + 1), s.cols[..c + 1];
    EarlierStart(env, BuyCount, SellCount, cols, h, o);
    if RootsPositive(env) { EarlierStart(env, BuyRoot, SellRoot, cols, h, o); }
  }

  lemma SameStart(env: Env, kb: Kind, ks: Kind, cols: seq<Col>, h: nat, o: nat)
    requires h <= o <= |cols| && forall i :: h <= i < o ==> cols[i] == NO_VOLUME
    ensures SumFrom(env, kb, cols, h) + SumFrom(env, ks, cols, h) ==
            SumFrom(env, kb, cols, o) + SumFrom(env, ks, cols, o)
  {
    hide SumFrom, Weights, Sum;
    SumFromEarlier(env, kb, cols, h, o);
    SumFromEarlier(env, ks, cols, h, o);
    NoExcess(env, kb, cols, h, o);
    NoExcess(env, ks, cols, h, o);
  }

  lemma {:induction false} NoExcess(env: Env, k: Kind, cols: seq<Col>, h: nat, o: nat)
    requires h <= o <= |cols| && forall i :: h <= i < o ==> cols[i] == NO_VOLUME
    ensures Sum(Weights(env, k, cols)[h..o]) == 0.0
    decreases o
  {
    hide Weights;
    if h < o {
      NoExcess(env, k, cols, h, o - 1);
      SumUpTo(env, k, cols, h, o);
      assert cols[o - 1] == NO_VOLUME;
    }
  }

  /** From 3600 columns after the latest long gap on, and always if there was none, the start makes no difference. */
  lemma StartAfterGap(env: Env, s: State, c: nat)
    requires TrailRight(s.trail, |s.cols|) && GapEmpty(s) && s.trail.since <= c < |s.cols|
    requires s.trail.gapFrom == 0 || s.trail.since + BASELINE <= c
    ensures var cols, h := s.cols[..c + 1], s.trail.starts[c];
            CountFrom(env, cols, h) == CountBaseline(env, cols) && RootFrom(env, cols, h) == RootBaseline(env, cols)
  {
    hide SumFrom;
    var cols, h, o := s.cols[..c + 1], s.trail.starts[c], Oldest(c + 1);
    assert StartRight(s.trail, c);
    assert forall i :: h <= i < o ==> cols[i] == s.cols[i];
    SameStart(env, BuyCount, SellCount, cols, h, o);
    SameStart(env, BuyRoot, SellRoot, cols, h, o);
  }

  /** The bar of column `c` is in the ring with the baselines of the last 15 minutes. */
  ghost predicate HasBaselines(env: Env, s: State, c: nat) {
    && c < |s.cols| && |s.bars| == RING_BARS
    && var bar := s.bars[c % RING_BARS];
       bar.col == c && bar.cnt == CountBaseline(env, s.cols[..c + 1]) && bar.q == RootBaseline(env, s.cols[..c + 1])
  }

  /** So every bar of the ring has its 15-minute baselines, unless it is of the 3600 columns after a long gap. */
  lemma BaselinesAfterGap(env: Env, es: seq<Event>, c: nat)
    requires var s := Run(env, es); s.trail.since <= c < |s.cols| && |s.cols| - RING_BARS <= c
    requires var t := Run(env, es).trail; t.gapFrom == 0 || t.since + BASELINE <= c
    ensures HasBaselines(env, Run(env, es), c)
  {
    hide Run, CountFrom, RootFrom, CountBaseline, RootBaseline, SumsTrack, TrailRight, LatestThere, GapEmpty;
    var s := Run(env, es);
    RingHoldsLastColumns(env, es);
    assert BarThere(env, s, c);
    StartAfterGap(env, s, c);
  }

  /** The latest baselines are the direct sums after any stream whatever, right after a long gap too. */
  lemma LatestBaselines(env: Env, es: seq<Event>)
    ensures var s := Run(env, es);
            s.cols != [] ==> s.cnt == CountBaseline(env, s.cols) && s.q == RootBaseline(env, s.cols)
  {
    hide Run, CountFrom, RootFrom, CountBaseline, RootBaseline, SumsTrack, GapEmpty;
    var s := Run(env, es);
    RingHoldsLastColumns(env, es);
    if s.cols != [] {
      assert s.last == |s.cols| - 1;
      assert s.cols[..s.last + 1] == s.cols;
      StartAfterGap(env, s, s.last);
    }
  }

  // ---------- A long gap leaves wrong baselines behind ----------

  /** One trade of 1000 shares in the first bucket, ten more buckets, and then a gap of almost 14 hours. */
  function LongGapStream(): seq<Event> {
    [QuoteAt(1, 1.0, 1.0), TradeAt(1, 2.0, 1000.0, false), Clock(11 * BUCKET_NS), Clock(200001 * BUCKET_NS)]
  }

  lemma LongGapStart(env: Env)
    ensures var s := Run(env, LongGapStream()[..2]);
            s.cols == [] && s.cur == Col(1000.0, 0.0) && s.openSet && s.open == 0 && s.last == -1
            && s.trail.gapFrom == 0
  {
    var es := LongGapStream();
    assert es[..2][..1] == es[..1] && es[..1][..0] == [];
    assert Run(env, es[..1]) == Step(env, INITIAL, es[0]);
    assert Run(env, es[..2]) == Step(env, Run(env, es[..1]), es[1]);
  }

  lemma LongGapColumns(env: Env)
    ensures var s := Run(env, LongGapStream());
            && s.cols == [Col(1000.0, 0.0)] + NoVolumes(200000)
            && s.trail.gapFrom == 11 && s.trail.since == 196400
  {
    hide Advance, Run;
    var es := LongGapStream();
    assert es[..3][..2] == es[..2] && es[..4] == es;
    LongGapStart(env);
    var s2, s3 := Run(env, es[..2]), Run(env, es[..3]);
    assert s3 == Advance(env, s2, 11 * BUCKET_NS) by { RunAppend(env, es[..3]); }
    assert Run(env, es) == Advance(env, s3, 200001 * BUCKET_NS) by { RunAppend(env, es); }
    AdvanceColumns(env, s2, 11 * BUCKET_NS);
    AdvanceKeeps(env, s2, 11 * BUCKET_NS);
    RingHoldsLastColumns(env, es[..3]);
    AdvanceColumns(env, s3, 200001 * BUCKET_NS);
  }

  lemma RunAppend(env: Env, es: seq<Event>)
    requires es != []
    ensures Run(env, es) == Step(env, Run(env, es[..|es| - 1]), es[|es| - 1])
  {
  }

  /** Of the 64 bars after that gap all but the newest say 3 trade steps in 15 minutes, where there are none. */
  lemma LongGapMisleads(env: Env, c: nat)
    requires 199937 <= c < 200000
    ensures var s := Run(env, LongGapStream());
            && c < |s.cols| && |s.bars| == RING_BARS && s.bars[c % RING_BARS].col == c
            && s.bars[c % RING_BARS].cnt == 3.0 && CountBaseline(env, s.cols[..c + 1]) == 1.0
  {
    hide Run, SumsTrack, LatestThere, SumFrom;
    var s := Run(env, LongGapStream());
    RingHoldsLastColumns(env, LongGapStream());
    LongGapColumns(env);
    assert BarThere(env, s, c) && StartRight(s.trail, c);
    var cols, o := s.cols[..c + 1], Oldest(c + 1);
    assert s.trail.starts[c] == 0;
    assert forall i :: 1 <= i < |cols| ==> cols[i] == NO_VOLUME;
    SameStart(env, BuyCount, SellCount, cols, 1, |cols|);
    SameStart(env, BuyCount, SellCount, cols, o, |cols|);
    FirstColumn(env, BuyCount, cols);
    FirstColumn(env, SellCount, cols);
    NothingFrom(env, BuyCount, cols);
    NothingFrom(env, SellCount, cols);
  }

  lemma NothingFrom(env: Env, k: Kind, cols: seq<Col>)
    ensures SumFrom(env, k, cols, |cols|) == 0.0
  {
  }

  lemma FirstColumn(env: Env, k: Kind, cols: seq<Col>)
    requires cols != []
    ensures SumFrom(env, k, cols, 0) == Weight(env, k, cols[0]) + SumFrom(env, k, cols, 1)
  {
    SumFromEarlier(env, k, cols, 0, 1);
    SumUpTo(env, k, cols, 0, 1);
  }
}
