/** The projection scheduler on values: when second bars close, when phase frames are committed,
    and what a tick changes. */
module Schedule {
  import opened Floats
  import opened Feed
  import opened SymbolHistory

  /** The 44 slots of one symbol: 0..35 are the whole-second bar, 36..43 the state at the anchor. */
  datatype Row = Row(bar: seq<Float>, terminal: seq<Float>)

  const ZERO := Num(0.0)
  const UNSET := Num(-1.0)
  const INITIAL_ROW := Row([ZERO, ZERO, ZERO, ZERO, ZERO, ZERO, ZERO, ZERO, ZERO, ZERO, ZERO, ZERO, ZERO, ZERO,
                            NaN, NaN, NaN, NaN, NaN, NaN, NaN, NaN, NaN, NaN, NaN, NaN, NaN, NaN, NaN, NaN,
                            UNSET, UNSET, UNSET, UNSET, ZERO, ZERO],
                           [NaN, NaN, NaN, NaN, NaN, NaN, ZERO, ZERO])
  const ZERO_ROW := Row([ZERO, ZERO, ZERO, ZERO, ZERO, ZERO, ZERO, ZERO, ZERO, ZERO, ZERO, ZERO,
                         ZERO, ZERO, ZERO, ZERO, ZERO, ZERO, ZERO, ZERO, ZERO, ZERO, ZERO, ZERO,
                         ZERO, ZERO, ZERO, ZERO, ZERO, ZERO, ZERO, ZERO, ZERO, ZERO, ZERO, ZERO],
                        [ZERO, ZERO, ZERO, ZERO, ZERO, ZERO, ZERO, ZERO])

  const RING := 4
  const COLD_START_BARS := 15

  type Cadence = x: int | x > 0 witness 1

  datatype Phase = Phase(offset: nat, symbols: seq<string>)

  /** `index` maps a symbol to its place among the unique symbols. */
  datatype Config = Config(cadence: Cadence, phases: seq<Phase>, index: map<string, nat>, sqrt: Float -> Float)

  /** One unique symbol: its history, the next second bar to close, the latest row and the 4-slot ring of rows. */
  datatype Sym = Sym(hist: Hist, nextSecond: nat, last: Row, ring: seq<Row>, anchors: seq<int>)

  datatype Frame = Frame(phase: nat, anchor: nat, rows: seq<Row>, cold: bool)

  /** The whole scheduler; an anchor of 0 is not set yet. */
  datatype Core = Core(nextSecond: nat, phaseNext: seq<nat>, syms: seq<Sym>, frames: seq<Frame>, cold: nat, late: nat)

  /** Place of each symbol among the unique symbols; a repeated name keeps its last place. */
  function IndexSymbols(names: seq<string>): (r: map<string, nat>)
    ensures forall s :: s in r ==> r[s] < |names| && names[r[s]] == s
    ensures forall i :: 0 <= i < |names| ==> names[i] in r
  {
    if names == [] then map[]
    else
      var before := IndexSymbols(names[..|names| - 1]);
      before[names[|names| - 1] := |names| - 1]
  }

  predicate Tracks(cfg: Config, syms: seq<Sym>, name: string) {
    name in cfg.index && cfg.index[name] < |syms|
  }

  function Floor(t: nat, cadence: Cadence): nat {
    t / cadence * cadence
  }

  function RingSlot(t: nat, cadence: Cadence): (k: nat)
    ensures k < RING
  {
    t / cadence % RING
  }

  // ---------- Closing second bars ----------

  function CloseSym(cfg: Config, s: Sym, second: nat): Sym {
    var row := Row(BarSlots(s.hist.st, s.hist.bar, second, cfg.sqrt), s.last.terminal);
    var k := RingSlot(second, cfg.cadence);
    Sym(Hist(s.hist.st, EMPTY_BAR), second + cfg.cadence, row, Put(s.ring, k, row), Put(s.anchors, k, second))
  }

  function CloseSymThrough(cfg: Config, s: Sym, second: nat): Sym
    decreases second - s.nextSecond
  {
    if s.nextSecond <= second then CloseSymThrough(cfg, CloseSym(cfg, s, s.nextSecond), second) else s
  }

  function CloseAll(cfg: Config, syms: seq<Sym>, second: nat): (r: seq<Sym>)
    ensures |r| == |syms|
    ensures forall u :: 0 <= u < |syms| ==> r[u] == CloseSymThrough(cfg, syms[u], second)
  {
    seq(|syms|, u requires 0 <= u < |syms| => CloseSymThrough(cfg, syms[u], second))
  }

  function CloseSecond(cfg: Config, c: Core): Core {
    c.(syms := CloseAll(cfg, c.syms, c.nextSecond), nextSecond := c.nextSecond + cfg.cadence)
  }

  // ---------- Committing a phase frame ----------

  function SymAtPhase(cfg: Config, s: Sym, anchor: nat): Sym {
    var s1 := CloseSymThrough(cfg, s, Floor(anchor, cfg.cadence));
    s1.(last := s1.last.(terminal := TerminalSlots(s1.hist.st)))
  }

  /** The bar in the ring slot of a second, or the latest bar if the slot does not hold that second. */
  function RingBar(s: Sym, second: nat, cadence: Cadence): seq<Float> {
    var k := RingSlot(second, cadence);
    if k < |s.anchors| && k < |s.ring| && s.anchors[k] == second then s.ring[k].bar else s.last.bar
  }

  /** The row committed for an anchor: the bar of its whole second and the state at the anchor. */
  function RowAtPhase(cfg: Config, s: Sym, anchor: nat): Row {
    var s1 := CloseSymThrough(cfg, s, Floor(anchor, cfg.cadence));
    Row(RingBar(s1, Floor(anchor, cfg.cadence), cfg.cadence), TerminalSlots(s1.hist.st))
  }

  function WalkSyms(cfg: Config, syms: seq<Sym>, names: seq<string>, anchor: nat): (r: seq<Sym>)
    ensures |r| == |syms|
  {
    if names == [] then syms
    else
      var before := WalkSyms(cfg, syms, names[..|names| - 1], anchor);
      var name := names[|names| - 1];
      if Tracks(cfg, syms, name) then before[cfg.index[name] := SymAtPhase(cfg, before[cfg.index[name]], anchor)]
      else before
  }

  function WalkRows(cfg: Config, syms: seq<Sym>, names: seq<string>, anchor: nat): (r: seq<Row>)
    ensures |r| == |names|
  {
    if names == [] then []
    else
      var before := WalkSyms(cfg, syms, names[..|names| - 1], anchor);
      var name := names[|names| - 1];
      WalkRows(cfg, syms, names[..|names| - 1], anchor)
      + [if Tracks(cfg, syms, name) then RowAtPhase(cfg, before[cfg.index[name]], anchor) else ZERO_ROW]
  }

  function PhaseSymbols(cfg: Config, p: nat): seq<string> {
    if p < |cfg.phases| then cfg.phases[p].symbols else []
  }

  function CommitPhase(cfg: Config, c: Core, p: nat): Core
    requires p < |c.phaseNext|
  {
    var anchor := c.phaseNext[p];
    var names := PhaseSymbols(cfg, p);
    Core(c.nextSecond, c.phaseNext[p := anchor + cfg.cadence], WalkSyms(cfg, c.syms, names, anchor),
         c.frames + [Frame(p, anchor, WalkRows(cfg, c.syms, names, anchor), c.cold > 0)],
         if p == |cfg.phases| - 1 && c.cold > 0 then c.cold - 1 else c.cold, c.late)
  }

  // ---------- Which boundary comes next ----------

  /** The phase with the least anchor in (0, limit], the first such phase on a tie; -1 if there is none. */
  function Earliest(anchors: seq<nat>, limit: int): (p: int)
    ensures -1 <= p < |anchors|
    ensures p >= 0 ==> 0 < anchors[p] <= limit
    ensures forall i :: 0 <= i < |anchors| && 0 < anchors[i] <= limit ==> p >= 0 && anchors[p] <= anchors[i]
    ensures forall i :: 0 <= i < p && 0 < anchors[i] <= limit ==> anchors[p] < anchors[i]
  {
    if anchors == [] then -1
    else
      var q := Earliest(anchors[..|anchors| - 1], limit);
      var x := anchors[|anchors| - 1];
      if 0 < x <= limit && (q < 0 || x < anchors[q]) then |anchors| - 1 else q
  }

  datatype Boundary = Second | PhaseAt(p: nat) | Nothing

  /** The next boundary among seconds up to `a` and phase anchors up to `b`; a second goes before a phase at the
      same time. */
  function NextBoundary(c: Core, a: int, b: int): (e: Boundary)
    ensures e.PhaseAt? ==> e.p < |c.phaseNext|
  {
    var p := Earliest(c.phaseNext, b);
    if 0 < c.nextSecond <= a && (p < 0 || c.nextSecond <= c.phaseNext[p]) then Second
    else if p < 0 then Nothing
    else PhaseAt(p)
  }

  function Cross(cfg: Config, c: Core, e: Boundary): (r: Core)
    requires e.PhaseAt? ==> e.p < |c.phaseNext|
    ensures |r.syms| == |c.syms| && |r.phaseNext| == |c.phaseNext|
  {
    match e
    case Second => CloseSecond(cfg, c)
    case PhaseAt(p) => CommitPhase(cfg, c, p)
    case Nothing => c
  }

  /** How far the anchors still are from passing `limit`, added up. */
  function Outstanding(anchors: seq<nat>, limit: int): nat {
    if anchors == [] then 0
    else Outstanding(anchors[..|anchors| - 1], limit)
         + (if anchors[|anchors| - 1] <= limit then limit + 1 - anchors[|anchors| - 1] else 0)
  }

  /** The loop measure: outstanding second and phase boundaries. */
  function Work(c: Core, a: int, b: int): nat {
    Outstanding(c.phaseNext, b) + if c.nextSecond <= a then a + 1 - c.nextSecond else 0
  }

  lemma {:induction false} OutstandingDecreases(anchors: seq<nat>, limit: int, p: nat, x: nat)
    requires p < |anchors| && anchors[p] <= limit && x > anchors[p]
    ensures Outstanding(anchors[p := x], limit) < Outstanding(anchors, limit)
  {
    var n := |anchors| - 1;
    if p < n {
      OutstandingDecreases(anchors[..n], limit, p, x);
      assert anchors[p := x][..n] == anchors[..n][p := x];
    } else {
      assert anchors[p := x][..n] == anchors[..n];
    }
  }

  lemma CrossDecreases(cfg: Config, c: Core, a: int, b: int)
    requires NextBoundary(c, a, b) != Nothing
    ensures Work(Cross(cfg, c, NextBoundary(c, a, b)), a, b) < Work(c, a, b)
  {
    var e := NextBoundary(c, a, b);
    if e.PhaseAt? {
      OutstandingDecreases(c.phaseNext, b, e.p, c.phaseNext[e.p] + cfg.cadence);
    }
  }

  /** Crosses every boundary up to the cut, in order. */
  function CloseTo(cfg: Config, c: Core, a: int, b: int): (r: Core)
    ensures |r.syms| == |c.syms| && |r.phaseNext| == |c.phaseNext| && NextBoundary(r, a, b) == Nothing
    decreases Work(c, a, b)
  {
    var e := NextBoundary(c, a, b);
    if e == Nothing then c else CrossDecreases(cfg, c, a, b); CloseTo(cfg, Cross(cfg, c, e), a, b)
  }

  // ---------- Ticks ----------

  predicate IsLate(cfg: Config, c: Core, t: Tick) {
    Tracks(cfg, c.syms, t.symbol) &&
    var s := c.syms[cfg.index[t.symbol]];
    s.nextSecond > 0 && t.ts < s.nextSecond - cfg.cadence
  }

  predicate IsSwallowed(cfg: Config, c: Core, t: Tick) {
    Tracks(cfg, c.syms, t.symbol) && Swallowed(c.syms[cfg.index[t.symbol]].hist.st, t)
  }

  /** A tick taken into its symbol's history. */
  function Take(cfg: Config, c: Core, t: Tick, late: bool): (r: Core)
    ensures |r.syms| == |c.syms| && r.phaseNext == c.phaseNext && r.nextSecond == c.nextSecond
  {
    if !Tracks(cfg, c.syms, t.symbol) then c
    else
      var u := cfg.index[t.symbol];
      c.(syms := c.syms[u := c.syms[u].(hist := Absorb(c.syms[u].hist, t, late))],
         late := if late && !IsSwallowed(cfg, c, t) then c.late + 1 else c.late)
  }

  /** The least lattice point `offset + k * cadence` after `t`, as computed with truncating division. */
  function FirstAnchor(t: nat, offset: nat, cadence: Cadence): (r: nat)
    ensures r > t
  {
    var q := if t >= offset then (t - offset) / cadence else -((offset - t) / cadence);
    var first := q * cadence + offset;
    if first <= t then
      assert t >= offset ==> t - offset < (q + 1) * cadence;
      first + cadence
    else first
  }

  /** `current`, with the unset anchors starting from `ts`. */
  function FillUnset(cfg: Config, current: seq<nat>, ts: nat): (r: seq<nat>)
    ensures |r| == |current|
    ensures forall p :: 0 <= p < |r| ==>
              r[p] == if current[p] == 0 && p < |cfg.phases| then FirstAnchor(ts, cfg.phases[p].offset, cfg.cadence)
                else current[p]
  {
    seq(|current|, p requires 0 <= p < |current| =>
          if current[p] == 0 && p < |cfg.phases| then FirstAnchor(ts, cfg.phases[p].offset, cfg.cadence)
          else current[p])
  }

  function WithSecond(syms: seq<Sym>, second: nat): (r: seq<Sym>)
    ensures |r| == |syms|
    ensures forall u :: 0 <= u < |syms| ==> r[u] == syms[u].(nextSecond := second)
  {
    seq(|syms|, u requires 0 <= u < |syms| => syms[u].(nextSecond := second))
  }

  /** Anchors that are still unset start from the first tick. */
  function InitAnchors(cfg: Config, c: Core, ts: nat): (r: Core)
    ensures |r.syms| == |c.syms| && |r.phaseNext| == |c.phaseNext|
  {
    var first := FirstAnchor(ts, 0, cfg.cadence);
    var c1 := c.(phaseNext := FillUnset(cfg, c.phaseNext, ts));
    if c.nextSecond > 0 then c1 else c1.(nextSecond := first, syms := WithSecond(c1.syms, first))
  }

  /** Live mode: a tick taken from the reorder heap; boundaries are crossed by `Flush`, not here. */
  function LiveIngest(cfg: Config, c: Core, t: Tick): Core {
    var c0 := InitAnchors(cfg, c, t.ts);
    Take(cfg, c0, t, IsLate(cfg, c0, t))
  }

  /** Replay mode: an accepted tick that is not late first crosses every boundary before it. */
  function ReplayIngest(cfg: Config, c: Core, t: Tick): (r: Core)
    ensures |r.syms| == |c.syms|
  {
    if !Tracks(cfg, c.syms, t.symbol) then c else ReplayTake(cfg, InitAnchors(cfg, c, t.ts), t)
  }

  function ReplayTake(cfg: Config, c: Core, t: Tick): (r: Core)
    ensures |r.syms| == |c.syms|
  {
    if IsSwallowed(cfg, c, t) || IsLate(cfg, c, t) then Take(cfg, c, t, IsLate(cfg, c, t))
    else Take(cfg, CloseTo(cfg, c, t.ts, t.ts - 1), t, false)
  }

  function ReplayAll(cfg: Config, c: Core, ticks: seq<Tick>): Core
    decreases ticks
  {
    if ticks == [] then c else ReplayAll(cfg, ReplayIngest(cfg, c, ticks[0]), ticks[1..])
  }

  const INITIAL_SYM := Sym(Hist(InitialState(), EMPTY_BAR), 0, INITIAL_ROW,
                           [ZERO_ROW, ZERO_ROW, ZERO_ROW, ZERO_ROW], [0, 0, 0, 0])

  /** A projector for `count` unique symbols before `SetStartAnchor`. */
  function Initial(cfg: Config, count: nat, cold: nat): Core {
    Core(0, Repeat(|cfg.phases|, 0), Repeat(count, INITIAL_SYM), [], cold, 0)
  }

  /** `SetStartAnchor`. */
  function Start(cfg: Config, c: Core, startNS: nat): Core {
    var first := FirstAnchor(startNS, 0, cfg.cadence);
    c.(phaseNext := FillUnset(cfg, Repeat(|c.phaseNext|, 0), startNS), nextSecond := first,
       syms := WithSecond(c.syms, first))
  }
}
