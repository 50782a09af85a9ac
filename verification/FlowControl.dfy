/** Replay flow control of the frame rings: a producer that only waits in phase 0, a consumer that polls
    per-symbol anchors, and every load and store of shared memory as a step of its own. */
module FlowControl {
  import opened Modular
  import opened Schedule
  import Frames

  /** A replay: `slots` is max_frames, `row(p, a, s, k)` the feature `k` of symbol `s` that the projector
      commits in phase `p` for anchor `a`, and `zero` what unwritten memory holds. */
  datatype Params<V> = Params(
    cadence: Cadence, slots: nat, startNS: nat, offsets: seq<nat>, symbols: seq<nat>, features: nat,
    zero: V, row: (nat, int, nat, nat) -> V)

  ghost predicate WellFormed<V>(par: Params<V>) {
    && par.slots > 0
    && |par.offsets| == |par.symbols| > 0
    && (forall p :: 0 <= p < |par.offsets| ==> par.offsets[p] < par.cadence)
    && (forall p :: 0 <= p < |par.symbols| ==> par.symbols[p] > 0)
  }

  // ---------- Anchors and slots ----------

  function FirstOf<V>(par: Params<V>, p: nat): nat {
    if p < |par.offsets| then FirstAnchor(par.startNS, par.offsets[p], par.cadence) else 0
  }

  /** Anchor number `b` of a phase. */
  function Anchor<V>(par: Params<V>, p: nat, b: nat): nat {
    FirstOf(par, p) + b * par.cadence
  }

  function Slot<V>(par: Params<V>, anchor: int): int {
    if par.slots == 0 then 0 else SlotIn(anchor, par.cadence, par.slots)
  }

  function Least(s: seq<int>): (r: int)
    requires s != []
    ensures r in s && forall x :: x in s ==> r <= x
  {
    if |s| == 1 then s[0]
    else
      var m := Least(s[1..]);
      assert forall x :: x in s ==> x == s[0] || x in s[1..];
      if s[0] < m then s[0] else m
  }

  function Anchors<V>(par: Params<V>, count: nat, b: nat): (r: seq<int>)
    ensures |r| == count
    ensures forall p :: 0 <= p < count ==> r[p] == Anchor(par, p, b)
  {
    seq(count, p requires 0 <= p < count => Anchor(par, p, b))
  }

  /** The first anchor of all: what `FirstAnchorNS` becomes. */
  function FirstOfAll<V>(par: Params<V>): int
    requires |par.offsets| > 0
  {
    Least(Anchors(par, |par.offsets|, 0))
  }

  // ---------- The two processes ----------

  datatype FeatureCell = FeatureCell(phase: nat, slot: int, symbol: nat, feature: nat)
  datatype AnchorCell = AnchorCell(phase: nat, slot: int, symbol: nat)

  /** Where the producer is: between frames, in `WaitConsumerAdvance`, copying the features of a frame
      (`done` lists the cells stored so far), or storing the per-symbol anchors. */
  datatype Producer = Choosing | Waiting | Filling(p: nat, done: set<(nat, nat)>) | Stamping(p: nat, s: nat)

  /** Where the consumer is: before `begin_all`, waiting for the anchor of symbol `i` in phase `j`
      (`j` past the last phase: about to call `commit_read`), or copying that symbol's row. */
  datatype Consumer<V> = Starting | Polling(j: nat, i: nat) | Copying(j: nat, i: nat, got: map<nat, V>)

  datatype Entry<V> = Entry(phase: nat, symbol: nat, anchor: int, values: map<nat, V>)

  /** `first`, `lastRead`, `feats` and `anchors` are the shared memory; `made`, `stamps`, `rounds` and `log` are
      history: frames committed per phase, the number of each stored anchor, completed rounds, rows copied. */
  datatype State<V> = State(
    producer: Producer, next: seq<int>, first: int, lastRead: int,
    feats: map<FeatureCell, V>, anchors: map<AnchorCell, int>,
    consumer: Consumer<V>, targets: seq<int>,
    made: seq<nat>, stamps: map<AnchorCell, nat>, rounds: nat, log: seq<Entry<V>>)

  datatype Step =
    | Choose(p: nat) | Admit | StoreFeature(s: nat, k: nat) | FeaturesDone | StampSymbol | Finish
    | Begin | Observe | CopyFeature(f: nat) | EndRow | CommitRead

  ghost predicate Init<V>(par: Params<V>, st: State<V>) {
    && WellFormed(par)
    && st.producer == Choosing && st.consumer == Starting
    && st.next == Anchors(par, |par.offsets|, 0)
    && st.first == 0 && st.lastRead == 0 && st.feats == map[] && st.anchors == map[]
    && st.targets == [] && st.rounds == 0 && st.stamps == map[] && st.log == []
    && |st.made| == |par.offsets| && forall p :: 0 <= p < |st.made| ==> st.made[p] == 0
  }

  /** Frames are committed in (anchor, phase) order. */
  ghost predicate IsEarliest<V>(st: State<V>, p: nat) {
    && p < |st.next|
    && (forall q :: 0 <= q < |st.next| ==> st.next[p] <= st.next[q])
    && (forall q :: 0 <= q < p ==> st.next[p] < st.next[q])
  }

  /** The condition under which `WaitConsumerAdvance` lets phase 0 go on. */
  predicate MayAdvance<V>(par: Params<V>, st: State<V>) {
    || par.slots <= 1
    || (|st.next| > 0
        && st.next[0] - (if st.lastRead == 0 then st.first else st.lastRead) < (par.slots - 2) * par.cadence)
  }

  function Symbols<V>(par: Params<V>, p: nat): nat {
    if p < |par.symbols| then par.symbols[p] else 0
  }

  function Next<V>(st: State<V>, p: nat): int {
    if p < |st.next| then st.next[p] else 0
  }

  function Target<V>(st: State<V>, j: nat): int {
    if j < |st.targets| then st.targets[j] else 0
  }

  function LoadAnchor<V>(st: State<V>, c: AnchorCell): int {
    if c in st.anchors then st.anchors[c] else 0
  }

  function LoadFeature<V>(par: Params<V>, st: State<V>, c: FeatureCell): V {
    if c in st.feats then st.feats[c] else par.zero
  }

  ghost predicate Enabled<V>(par: Params<V>, st: State<V>, step: Step) {
    match step
    case Choose(p) => st.producer.Choosing? && IsEarliest(st, p)
    case Admit => st.producer.Waiting? && MayAdvance(par, st)
    case StoreFeature(s, k) => st.producer.Filling? && s < Symbols(par, st.producer.p) && k < par.features
    case FeaturesDone =>
      st.producer.Filling? && forall s, k :: 0 <= s < Symbols(par, st.producer.p) && 0 <= k < par.features ==>
        (s, k) in st.producer.done
    case StampSymbol => st.producer.Stamping? && st.producer.s < Symbols(par, st.producer.p)
    case Finish =>
      st.producer.Stamping? && st.producer.s == Symbols(par, st.producer.p) && st.producer.p < |st.next| == |st.made|
    case Begin => st.consumer.Starting? && st.first != 0
    case Observe =>
      st.consumer.Polling? && st.consumer.j < |par.symbols|
      && LoadAnchor(st, Polled(par, st)) == Target(st, st.consumer.j)
    case CopyFeature(f) => st.consumer.Copying? && f < par.features
    case EndRow =>
      st.consumer.Copying? && st.consumer.j < |st.targets| && forall k :: 0 <= k < par.features ==> k in st.consumer.got
    case CommitRead => st.consumer.Polling? && st.consumer.j == |st.targets| > 0
  }

  /** The anchor cell the consumer is waiting on. */
  function Polled<V>(par: Params<V>, st: State<V>): AnchorCell
    requires !st.consumer.Starting?
  {
    var j := st.consumer.j;
    AnchorCell(j, Slot(par, Target(st, j)), st.consumer.i)
  }

  /** `begin_all`: the target a phase starts from, by floor division. */
  function BeginTarget<V>(par: Params<V>, first: int, p: nat): int {
    var offset := if p < |par.offsets| then par.offsets[p] else 0;
    var t := (first - offset) / par.cadence * par.cadence + offset;
    if t < first then t + par.cadence else t
  }

  function BeginTargets<V>(par: Params<V>, first: int): (r: seq<int>)
    ensures |r| == |par.offsets|
    ensures forall p :: 0 <= p < |r| ==> r[p] == BeginTarget(par, first, p)
  {
    seq(|par.offsets|, p requires 0 <= p < |par.offsets| => BeginTarget(par, first, p))
  }

  function Do<V>(par: Params<V>, st: State<V>, step: Step): State<V>
    requires Enabled(par, st, step)
  {
    match step
    case Choose(p) =>
      if p == 0 then st.(producer := Waiting, first := if st.first == 0 then st.next[0] else st.first)
      else st.(producer := Filling(p, {}))
    case Admit => st.(producer := Filling(0, {}))
    case StoreFeature(s, k) =>
      var p := st.producer.p;
      var a := Next(st, p);
      st.(producer := Filling(p, st.producer.done + {(s, k)}),
          feats := st.feats[FeatureCell(p, Slot(par, a), s, k) := par.row(p, a, s, k)])
    case FeaturesDone => st.(producer := Stamping(st.producer.p, 0))
    case StampSymbol =>
      var p, s := st.producer.p, st.producer.s;
      var c := AnchorCell(p, Slot(par, Next(st, p)), s);
      st.(producer := Stamping(p, s + 1), anchors := st.anchors[c := Next(st, p)],
          stamps := if p < |st.made| then st.stamps[c := st.made[p]] else st.stamps)
    case Finish =>
      var p := st.producer.p;
      st.(producer := Choosing, first := if st.first == 0 then st.next[p] else st.first,
          next := st.next[p := st.next[p] + par.cadence], made := st.made[p := st.made[p] + 1])
    case Begin => st.(consumer := Polling(0, 0), targets := BeginTargets(par, st.first))
    case Observe => st.(consumer := Copying(st.consumer.j, st.consumer.i, map[]))
    case CopyFeature(f) =>
      var c := Polled(par, st);
      var v := LoadFeature(par, st, FeatureCell(c.phase, c.slot, c.symbol, f));
      st.(consumer := st.consumer.(got := st.consumer.got[f := v]))
    case EndRow =>
      var j, i := st.consumer.j, st.consumer.i;
      var t := st.(log := st.log + [Entry(j, i, st.targets[j], st.consumer.got)]);
      if i + 1 < Symbols(par, j) then t.(consumer := Polling(j, i + 1))
      else t.(consumer := Polling(j + 1, 0), targets := st.targets[j := st.targets[j] + par.cadence])
    case CommitRead => st.(consumer := Polling(0, 0), lastRead := Least(st.targets), rounds := st.rounds + 1)
  }

  // ---------- Arithmetic of anchors ----------

  ghost predicate IsPhase<V>(par: Params<V>, p: nat) {
    p < |par.offsets|
  }

  /** All first anchors lie within one cadence of each other. */
  lemma FirstsClose<V>(par: Params<V>, p: nat, q: nat)
    requires WellFormed(par) && IsPhase(par, p) && IsPhase(par, q)
    ensures 0 < FirstOf(par, p) < FirstOf(par, q) + par.cadence
    ensures FirstOf(par, p) % par.cadence == par.offsets[p]
  {
    Frames.FirstAnchorIsLeast(par.startNS, par.offsets[p], par.cadence);
    Frames.FirstAnchorIsLeast(par.startNS, par.offsets[q], par.cadence);
  }

  /** Anchors are ordered by their numbers first, whatever the phases. */
  lemma CompareAnchors<V>(par: Params<V>, p: nat, a: nat, q: nat, b: nat)
    requires WellFormed(par) && IsPhase(par, p) && IsPhase(par, q)
    ensures Anchor(par, p, a) <= Anchor(par, q, b) ==> a <= b
  {
    FirstsClose(par, q, p);
    if a > b {
      MulMonotone(b + 1, a, par.cadence);
      assert (b + 1) * par.cadence == b * par.cadence + par.cadence;
    }
  }

  lemma FirstOfAllIsFirst<V>(par: Params<V>, p: nat)
    requires WellFormed(par) && IsPhase(par, p)
    ensures 0 < FirstOfAll(par) <= FirstOf(par, p) < FirstOfAll(par) + par.cadence
    ensures exists q: nat :: IsPhase(par, q) && FirstOf(par, q) == FirstOfAll(par)
  {
    var s := Anchors(par, |par.offsets|, 0);
    assert s[p] in s;
    var q: nat :| q < |s| && s[q] == FirstOfAll(par);
    assert IsPhase(par, q) && FirstOf(par, q) == FirstOfAll(par);
    FirstsClose(par, p, q);
    FirstsClose(par, q, q);
  }

  /** The least of the anchors with number `b` is `b` cadences after the first of all. */
  lemma LeastAnchor<V>(par: Params<V>, b: nat, s: seq<int>)
    requires WellFormed(par) && |s| == |par.offsets|
    requires forall p :: 0 <= p < |s| ==> s[p] == Anchor(par, p, b)
    ensures Least(s) == FirstOfAll(par) + b * par.cadence
  {
    FirstOfAllIsFirst(par, 0);
    var q: nat :| IsPhase(par, q) && FirstOf(par, q) == FirstOfAll(par);
    assert s[q] in s;
    var p: nat :| p < |s| && s[p] == Least(s);
    FirstOfAllIsFirst(par, p);
  }

  /** The anchors of a phase fill its slots in turn. */
  lemma SlotOfAnchor<V>(par: Params<V>, p: nat, b: nat)
    requires par.slots > 0
    ensures Slot(par, Anchor(par, p, b)) == (FirstOf(par, p) / par.cadence + b) % par.slots
  {
    AddMultiple(FirstOf(par, p), b, par.cadence);
  }

  /** Two anchors of a phase that share a slot are at least a whole ring apart. */
  lemma SlotClash<V>(par: Params<V>, p: nat, a: nat, b: nat)
    requires par.slots > 0 && a < b && Slot(par, Anchor(par, p, a)) == Slot(par, Anchor(par, p, b))
    ensures b >= a + par.slots
  {
    hide *;
    SlotOfAnchor(par, p, a);
    SlotOfAnchor(par, p, b);
    if b < a + par.slots {
      ShiftChangesRemainder(FirstOf(par, p) / par.cadence + a, b - a, par.slots);
    }
  }

  /** Floor division finds the point of a lattice in the cadence that starts at `first`. */
  lemma FloorFinds(first: int, a: int, c: Cadence, off: nat)
    requires a % c == off && first <= a < first + c
    ensures var t := (first - off) / c * c + off; a == if t < first then t + c else t
  {
    var k := a / c;
    assert (k - 1) * c == k * c - c;
    if a == first {
      DivModUnique(first - off, c, k, 0);
    } else {
      DivModUnique(first - off, c, k - 1, first - off - (k - 1) * c);
    }
  }

  /** `begin_all` finds the first anchor of every phase from the first anchor of all. */
  lemma BeginAllFindsFirsts<V>(par: Params<V>, p: nat)
    requires WellFormed(par) && IsPhase(par, p)
    ensures BeginTarget(par, FirstOfAll(par), p) == FirstOf(par, p)
  {
    FirstOfAllIsFirst(par, p);
    FirstsClose(par, p, p);
    FloorFinds(FirstOfAll(par), FirstOf(par, p), par.cadence, par.offsets[p]);
  }

  // ---------- The counters ----------

  function Made<V>(st: State<V>, p: nat): nat {
    if p < |st.made| then st.made[p] else 0
  }

  /** Number of the frame the consumer reads next in a phase. */
  function TargetNumber<V>(st: State<V>, p: nat): nat {
    st.rounds + (if !st.consumer.Starting? && st.consumer.j > p then 1 else 0)
  }

  ghost predicate CountOk<V>(par: Params<V>, st: State<V>, p: nat) {
    Next(st, p) == Anchor(par, p, Made(st, p))
  }

  /** No phase is more than one frame ahead of another. */
  ghost predicate InStep<V>(st: State<V>, p: nat, q: nat) {
    Made(st, q) <= Made(st, p) + 1
  }

  /** The phase being committed is not ahead of any other. */
  ghost predicate NotAhead<V>(st: State<V>, p: nat, q: nat) {
    Made(st, p) <= Made(st, q)
  }

  ghost predicate TargetOk<V>(par: Params<V>, st: State<V>, p: nat) {
    Target(st, p) == Anchor(par, p, TargetNumber(st, p))
  }

  ghost predicate ProducerOk<V>(par: Params<V>, st: State<V>) {
    match st.producer
    case Choosing => true
    case Waiting => st.first != 0 && forall q: nat :: IsPhase(par, q) ==> NotAhead(st, 0, q)
    case Filling(p, done) => BusyOk(par, st, p)
    case Stamping(p, s) => BusyOk(par, st, p) && s <= Symbols(par, p)
  }

  ghost predicate BusyOk<V>(par: Params<V>, st: State<V>, p: nat) {
    && IsPhase(par, p)
    && (forall q: nat :: IsPhase(par, q) ==> NotAhead(st, p, q))
    && (st.first == 0 ==> |par.offsets| > 0 && Next(st, p) == FirstOfAll(par))
    && (p == 0 ==> st.first != 0 && Made(st, 0) + 3 <= st.rounds + par.slots)
  }

  ghost predicate FirstOk<V>(par: Params<V>, st: State<V>) {
    && |par.offsets| > 0
    && (st.first == 0 || st.first == FirstOfAll(par))
    && (st.first == 0 ==> st.consumer.Starting? && forall p: nat :: IsPhase(par, p) ==> Made(st, p) == 0)
  }

  ghost predicate ConsumerOk<V>(par: Params<V>, st: State<V>) {
    && |par.offsets| > 0
    && st.lastRead == (if st.rounds == 0 then 0 else FirstOfAll(par) + st.rounds * par.cadence)
    && if st.consumer.Starting? then st.rounds == 0
       else
         && st.consumer.j <= |par.offsets| == |st.targets|
         && (forall p: nat :: IsPhase(par, p) ==> TargetOk(par, st, p))
         && (if st.consumer.j == |par.offsets| then st.consumer.i == 0 && st.consumer.Polling?
             else st.consumer.i < Symbols(par, st.consumer.j))
  }

  /** The producer is never more than a ring less two frames ahead of the rounds the consumer has committed. */
  ghost predicate Control<V>(par: Params<V>, st: State<V>) {
    && WellFormed(par) && par.slots >= 2
    && |st.next| == |st.made| == |par.offsets|
    && (forall p: nat :: IsPhase(par, p) ==> CountOk(par, st, p))
    && (forall p: nat, q: nat :: IsPhase(par, p) && IsPhase(par, q) ==> InStep(st, p, q))
    && Made(st, 0) + 2 <= st.rounds + par.slots
    && FirstOk(par, st) && ProducerOk(par, st) && ConsumerOk(par, st)
  }

  lemma InitControl<V>(par: Params<V>, st: State<V>)
    requires Init(par, st) && par.slots >= 2
    ensures Control(par, st)
  {
    FirstOfAllIsFirst(par, 0);
  }

  /** `d` cadences and a bit stay below `n - 2` cadences exactly if `d` is at most `n - 3`. */
  lemma BelowBound(d: int, bit: int, n: nat, c: Cadence)
    requires 0 <= bit < c
    ensures d * c + bit < (n - 2) * c <==> d <= n - 3
  {
    if d <= n as int - 3 {
      MulMonotone(d + 1, n - 2, c);
      assert (d + 1) * c == d * c + c;
    } else {
      MulMonotone(n - 2, d, c);
    }
  }

  /** `WaitConsumerAdvance` lets phase 0 go on exactly if its frame stays a ring less three ahead of the rounds read. */
  lemma AdmitBounds<V>(par: Params<V>, st: State<V>)
    requires Control(par, st) && st.producer.Waiting?
    ensures MayAdvance(par, st) <==> Made(st, 0) + 3 <= st.rounds + par.slots
  {
    hide FirstOf, FirstOfAll;
    var c, first := par.cadence, FirstOfAll(par);
    FirstOfAllIsFirst(par, 0);
    assert IsPhase(par, 0) && CountOk(par, st, 0);
    var d: int := Made(st, 0) - st.rounds;
    assert Made(st, 0) * c == st.rounds * c + d * c;
    assert (if st.lastRead == 0 then st.first else st.lastRead) == first + st.rounds * c by {
      MulMonotone(0, st.rounds, c);
    }
    BelowBound(d, FirstOf(par, 0) - first, par.slots, c);
  }

  lemma EarliestNotAhead<V>(par: Params<V>, st: State<V>, p: nat)
    requires Control(par, st) && IsEarliest(st, p)
    ensures forall q: nat :: IsPhase(par, q) ==> NotAhead(st, p, q)
  {
    forall q: nat | IsPhase(par, q)
      ensures NotAhead(st, p, q)
    {
      assert CountOk(par, st, p) && CountOk(par, st, q);
      assert st.next[p] <= st.next[q];
      CompareAnchors(par, p, Made(st, p), q, Made(st, q));
    }
  }

  /** If nothing has been committed yet, the earliest anchor is the first of all. */
  lemma EarliestIsFirst<V>(par: Params<V>, st: State<V>, p: nat)
    requires Control(par, st) && IsPhase(par, p) && Made(st, p) == 0
    requires forall q: nat :: IsPhase(par, q) ==> Next(st, p) <= Next(st, q)
    requires forall q: nat :: IsPhase(par, q) ==> Made(st, q) == 0
    ensures Next(st, p) == FirstOfAll(par)
  {
    FirstOfAllIsFirst(par, p);
    var q: nat :| IsPhase(par, q) && FirstOf(par, q) == FirstOfAll(par);
    assert CountOk(par, st, q) && CountOk(par, st, p);
  }

  // ---------- Every step keeps the counters ----------

  ghost predicate Moves(step: Step) {
    step.Choose? || step.Finish? || step.Begin? || step.EndRow? || step.CommitRead?
  }

  lemma QuietStepKeepsControl<V>(par: Params<V>, st: State<V>, step: Step)
    requires Control(par, st) && Enabled(par, st, step) && !Moves(step)
    ensures Control(par, Do(par, st, step))
  {
    hide Anchor, FirstOfAll, FirstOf, Slot, BeginTargets;
    var t := Do(par, st, step);
    if step.Admit? { AdmitBounds(par, st); }
    assert forall p: nat ::
             Made(t, p) == Made(st, p) && Next(t, p) == Next(st, p) && Target(t, p) == Target(st, p)
             && TargetNumber(t, p) == TargetNumber(st, p);
    forall p: nat | IsPhase(par, p)
      ensures CountOk(par, t, p)
    {
      assert CountOk(par, st, p);
    }
    forall p: nat, q: nat | IsPhase(par, p) && IsPhase(par, q)
      ensures InStep(t, p, q)
    {
      assert InStep(st, p, q);
    }
    forall p: nat, q: nat | NotAhead(st, p, q)
      ensures NotAhead(t, p, q)
    {
    }
    forall p: nat | IsPhase(par, p) && !st.consumer.Starting?
      ensures TargetOk(par, t, p)
    {
      assert TargetOk(par, st, p);
    }
  }

  lemma ChooseKeepsControl<V>(par: Params<V>, st: State<V>, p: nat)
    requires Control(par, st) && Enabled(par, st, Choose(p))
    ensures Control(par, Do(par, st, Choose(p)))
  {
    hide Anchor, FirstOf, FirstOfAll, Slot;
    var t := Do(par, st, Choose(p));
    EarliestNotAhead(par, st, p);
    if st.first == 0 { EarliestIsFirst(par, st, p); }
    FirstOfAllIsFirst(par, p);
    if p != 0 && Made(st, p) == Made(st, 0) {
      assert CountOk(par, st, p) && CountOk(par, st, 0);
    }
    forall q: nat | IsPhase(par, q)
      ensures CountOk(par, t, q) && NotAhead(t, p, q)
    {
      assert CountOk(par, st, q) && NotAhead(st, p, q);
    }
    forall q: nat, r: nat | IsPhase(par, q) && IsPhase(par, r)
      ensures InStep(t, q, r)
    {
      assert InStep(st, q, r);
    }
    forall q: nat | IsPhase(par, q) && !st.consumer.Starting?
      ensures TargetOk(par, t, q)
    {
      assert TargetOk(par, st, q);
    }
  }

  lemma NextAnchor<V>(par: Params<V>, p: nat, b: nat)
    ensures Anchor(par, p, b + 1) == Anchor(par, p, b) + par.cadence
  {
    assert (b + 1) * par.cadence == b * par.cadence + par.cadence;
  }

  lemma FinishKeepsControl<V>(par: Params<V>, st: State<V>)
    requires Control(par, st) && Enabled(par, st, Finish)
    ensures Control(par, Do(par, st, Finish))
  {
    hide Anchor, FirstOf, FirstOfAll, Slot;
    var t := Do(par, st, Finish);
    var p := st.producer.p;
    FirstOfAllIsFirst(par, p);
    NextAnchor(par, p, Made(st, p));
    forall q: nat | IsPhase(par, q)
      ensures CountOk(par, t, q)
    {
      assert CountOk(par, st, q);
    }
    forall q: nat, r: nat | IsPhase(par, q) && IsPhase(par, r)
      ensures InStep(t, q, r)
    {
      assert InStep(st, q, r) && NotAhead(st, p, q);
    }
    forall q: nat | IsPhase(par, q) && !st.consumer.Starting?
      ensures TargetOk(par, t, q)
    {
      assert TargetOk(par, st, q);
    }
  }

  lemma BeginKeepsControl<V>(par: Params<V>, st: State<V>)
    requires Control(par, st) && Enabled(par, st, Begin)
    ensures Control(par, Do(par, st, Begin))
  {
    hide FirstOf, FirstOfAll, Slot, BeginTarget;
    var t := Do(par, st, Begin);
    forall q: nat | IsPhase(par, q)
      ensures TargetOk(par, t, q) && CountOk(par, t, q)
    {
      BeginAllFindsFirsts(par, q);
      assert CountOk(par, st, q);
    }
    forall q: nat, r: nat | IsPhase(par, q) && IsPhase(par, r)
      ensures InStep(t, q, r)
    {
      assert InStep(st, q, r);
    }
    forall p: nat, q: nat | NotAhead(st, p, q)
      ensures NotAhead(t, p, q)
    {
    }
  }

  lemma EndRowKeepsControl<V>(par: Params<V>, st: State<V>)
    requires Control(par, st) && Enabled(par, st, EndRow)
    ensures Control(par, Do(par, st, EndRow))
  {
    hide Anchor, FirstOf, FirstOfAll, Slot;
    var t := Do(par, st, EndRow);
    var j := st.consumer.j;
    NextAnchor(par, j, TargetNumber(st, j));
    forall q: nat | IsPhase(par, q)
      ensures TargetOk(par, t, q) && CountOk(par, t, q)
    {
      assert CountOk(par, st, q) && TargetOk(par, st, q);
    }
    forall q: nat, r: nat | IsPhase(par, q) && IsPhase(par, r)
      ensures InStep(t, q, r)
    {
      assert InStep(st, q, r);
    }
    forall p: nat, q: nat | NotAhead(st, p, q)
      ensures NotAhead(t, p, q)
    {
    }
  }

  lemma CommitReadKeepsControl<V>(par: Params<V>, st: State<V>)
    requires Control(par, st) && Enabled(par, st, CommitRead)
    ensures Control(par, Do(par, st, CommitRead))
  {
    hide FirstOf, FirstOfAll, Slot, Anchor;
    var t := Do(par, st, CommitRead);
    forall q: nat | IsPhase(par, q)
      ensures TargetOk(par, t, q) && CountOk(par, t, q) && st.targets[q] == Anchor(par, q, st.rounds + 1)
    {
      assert CountOk(par, st, q) && TargetOk(par, st, q);
    }
    LeastAnchor(par, st.rounds + 1, st.targets);
    forall q: nat, r: nat | IsPhase(par, q) && IsPhase(par, r)
      ensures InStep(t, q, r)
    {
      assert InStep(st, q, r);
    }
    forall p: nat, q: nat | NotAhead(st, p, q)
      ensures NotAhead(t, p, q)
    {
    }
  }

  lemma StepKeepsControl<V>(par: Params<V>, st: State<V>, step: Step)
    requires Control(par, st) && Enabled(par, st, step)
    ensures Control(par, Do(par, st, step))
  {
    hide Do, Control;
    match step
    case Choose(p) => ChooseKeepsControl(par, st, p);
    case Finish => FinishKeepsControl(par, st);
    case Begin => BeginKeepsControl(par, st);
    case EndRow => EndRowKeepsControl(par, st);
    case CommitRead => CommitReadKeepsControl(par, st);
    case _ => QuietStepKeepsControl(par, st, step);
  }

  // ---------- The memory ----------

  ghost predicate FeatureReady<V>(par: Params<V>, st: State<V>, p: nat, b: nat, s: nat, k: nat) {
    var a := Anchor(par, p, b);
    LoadFeature(par, st, FeatureCell(p, Slot(par, a), s, k)) == par.row(p, a, s, k)
  }

  /** The row of one symbol in frame number `b` is in its slot. */
  ghost predicate RowReady<V>(par: Params<V>, st: State<V>, p: nat, b: nat, s: nat) {
    forall k: nat :: k < par.features ==> FeatureReady(par, st, p, b, s, k)
  }

  ghost predicate Stamped<V>(par: Params<V>, st: State<V>, p: nat, b: nat, s: nat) {
    var a := Anchor(par, p, b);
    LoadAnchor(st, AnchorCell(p, Slot(par, a), s)) == a
  }

  /** Frame number `b` of a phase is in its slot, whole: every feature and every symbol anchor. */
  ghost predicate Resident<V>(par: Params<V>, st: State<V>, p: nat, b: nat) {
    forall s: nat :: s < Symbols(par, p) ==> RowReady(par, st, p, b, s) && Stamped(par, st, p, b, s)
  }

  /** Every committed frame that the consumer has not released is resident. */
  ghost predicate Kept<V>(par: Params<V>, st: State<V>, p: nat, b: nat) {
    st.rounds <= b < Made(st, p) ==> Resident(par, st, p, b)
  }

  ghost predicate InFlightOk<V>(par: Params<V>, st: State<V>) {
    match st.producer
    case Filling(p, done) => forall s: nat, k: nat :: (s, k) in done ==> FeatureReady(par, st, p, Made(st, p), s, k)
    case Stamping(p, s0) =>
      && (forall s: nat :: s < Symbols(par, p) ==> RowReady(par, st, p, Made(st, p), s))
      && (forall s: nat :: s < s0 ==> Stamped(par, st, p, Made(st, p), s))
    case _ => true
  }

  /** Anchor `b` of a symbol has been stored: its frame is committed, or its stamp is. */
  ghost predicate Published<V>(st: State<V>, p: nat, s: nat, b: nat) {
    b < Made(st, p) || (st.producer.Stamping? && st.producer.p == p && s < st.producer.s && b == Made(st, p))
  }

  /** Every stored anchor is a published anchor of its phase, in its own slot. */
  ghost predicate StampOk<V>(par: Params<V>, st: State<V>, c: AnchorCell) {
    c in st.anchors ==>
      && c in st.stamps
      && st.anchors[c] == Anchor(par, c.phase, st.stamps[c])
      && c.slot == Slot(par, st.anchors[c])
      && Published(st, c.phase, c.symbol, st.stamps[c])
  }

  ghost predicate Memory<V>(par: Params<V>, st: State<V>) {
    && (forall p: nat, b: nat :: IsPhase(par, p) ==> Kept(par, st, p, b))
    && InFlightOk(par, st)
    && (forall c: AnchorCell :: StampOk(par, st, c))
  }

  /** The frame being written is less than a ring ahead of every frame the consumer has not released. */
  lemma NoClash<V>(par: Params<V>, st: State<V>, b: nat)
    requires Control(par, st) && (st.producer.Filling? || st.producer.Stamping?)
    requires st.rounds <= b < Made(st, st.producer.p)
    ensures Slot(par, Anchor(par, st.producer.p, b)) != Slot(par, Anchor(par, st.producer.p, Made(st, st.producer.p)))
  {
    var p := st.producer.p;
    assert NotAhead(st, p, 0) by { assert IsPhase(par, 0); }
    if Slot(par, Anchor(par, p, b)) == Slot(par, Anchor(par, p, Made(st, p))) { SlotClash(par, p, b, Made(st, p)); }
  }

  lemma StoreFeatureKeepsMemory<V>(par: Params<V>, st: State<V>, s: nat, k: nat)
    requires Control(par, st) && Memory(par, st) && Enabled(par, st, StoreFeature(s, k))
    ensures Memory(par, Do(par, st, StoreFeature(s, k)))
  {
    hide Anchor, Slot;
    var t := Do(par, st, StoreFeature(s, k));
    var p := st.producer.p;
    assert CountOk(par, st, p);
    forall q: nat, b: nat | IsPhase(par, q)
      ensures Kept(par, t, q, b)
    {
      assert Kept(par, st, q, b);
      if st.rounds <= b < Made(st, q) {
        if q == p { NoClash(par, st, b); }
        forall s': nat | s' < Symbols(par, q)
          ensures RowReady(par, t, q, b, s') && Stamped(par, t, q, b, s')
        {
          assert RowReady(par, st, q, b, s') && Stamped(par, st, q, b, s');
          forall k': nat | k' < par.features
            ensures FeatureReady(par, t, q, b, s', k')
          {
            assert FeatureReady(par, st, q, b, s', k');
          }
        }
      }
    }
    forall s': nat, k': nat | (s', k') in t.producer.done
      ensures FeatureReady(par, t, p, Made(t, p), s', k')
    {
      if (s', k') != (s, k) { assert FeatureReady(par, st, p, Made(st, p), s', k'); }
    }
    forall c: AnchorCell
      ensures StampOk(par, t, c)
    {
      assert StampOk(par, st, c);
    }
  }

  lemma StampKeepsResident<V>(par: Params<V>, st: State<V>, q: nat, b: nat)
    requires Control(par, st) && Memory(par, st) && Enabled(par, st, StampSymbol)
    requires IsPhase(par, q) && st.rounds <= b < Made(st, q)
    ensures Resident(par, Do(par, st, StampSymbol), q, b)
  {
    hide Anchor, Slot;
    var t := Do(par, st, StampSymbol);
    assert CountOk(par, st, st.producer.p);
    assert Kept(par, st, q, b);
    if q == st.producer.p { NoClash(par, st, b); }
    forall s: nat | s < Symbols(par, q)
      ensures RowReady(par, t, q, b, s) && Stamped(par, t, q, b, s)
    {
      assert RowReady(par, st, q, b, s) && Stamped(par, st, q, b, s);
      forall k: nat | k < par.features
        ensures FeatureReady(par, t, q, b, s, k)
      {
        assert FeatureReady(par, st, q, b, s, k);
      }
    }
  }

  lemma StampSymbolKeepsMemory<V>(par: Params<V>, st: State<V>)
    requires Control(par, st) && Memory(par, st) && Enabled(par, st, StampSymbol)
    ensures Memory(par, Do(par, st, StampSymbol))
  {
    hide Anchor, Slot;
    var t := Do(par, st, StampSymbol);
    var p, m := st.producer.p, Made(st, st.producer.p);
    assert CountOk(par, st, p);
    forall q: nat, b: nat | IsPhase(par, q)
      ensures Kept(par, t, q, b)
    {
      if st.rounds <= b < Made(st, q) { StampKeepsResident(par, st, q, b); }
    }
    forall s: nat | s < Symbols(par, p)
      ensures RowReady(par, t, p, m, s)
    {
      assert RowReady(par, st, p, m, s);
      forall k: nat | k < par.features
        ensures FeatureReady(par, t, p, m, s, k)
      {
        assert FeatureReady(par, st, p, m, s, k);
      }
    }
    forall s: nat | s < t.producer.s
      ensures Stamped(par, t, p, m, s)
    {
      if s < st.producer.s { assert Stamped(par, st, p, m, s); }
    }
    forall c: AnchorCell
      ensures StampOk(par, t, c)
    {
      assert StampOk(par, st, c);
    }
  }

  /** Steps that store nothing and do not change what is published. */
  lemma OtherStepKeepsMemory<V>(par: Params<V>, st: State<V>, step: Step)
    requires Memory(par, st) && Enabled(par, st, step)
    requires !step.StoreFeature? && !step.StampSymbol? && !step.FeaturesDone? && !step.Finish?
    ensures Memory(par, Do(par, st, step))
  {
    hide Anchor, Slot, BeginTargets, FirstOfAll, Memory, IsEarliest, MayAdvance, Polled, LoadFeature, Least;
    UnpublishedKeepsMemory(par, st, Do(par, st, step));
  }

  lemma UnpublishedKeepsMemory<V>(par: Params<V>, st: State<V>, t: State<V>)
    requires Memory(par, st) && t.rounds >= st.rounds
    requires t.feats == st.feats && t.anchors == st.anchors && t.stamps == st.stamps && t.made == st.made
    requires t.producer == st.producer || ((st.producer.Choosing? || st.producer.Waiting?) &&
                                            (t.producer.Waiting? || (t.producer.Filling? && t.producer.done == {})))
    ensures Memory(par, t)
  {
    hide Anchor, Slot;
    SameMemory(par, st, t);
    forall q: nat, b: nat | IsPhase(par, q)
      ensures Kept(par, t, q, b)
    {
      assert Kept(par, st, q, b);
    }
    if t.producer == st.producer && st.producer.Stamping? {
      var p := st.producer.p;
      assert Made(t, p) == Made(st, p);
      forall s: nat | s < Symbols(par, p)
        ensures RowReady(par, t, p, Made(t, p), s)
      {
        assert RowReady(par, st, p, Made(st, p), s);
      }
    }
    forall c: AnchorCell
      ensures StampOk(par, t, c)
    {
      assert StampOk(par, st, c);
    }
  }

  /** Committing turns the frame in flight, whose last symbol anchor is stored, into a resident one. */
  lemma FinishKeepsMemory<V>(par: Params<V>, st: State<V>)
    requires Control(par, st) && Memory(par, st) && Enabled(par, st, Finish)
    ensures Memory(par, Do(par, st, Finish))
  {
    hide Anchor, Slot, FirstOfAll;
    var t := Do(par, st, Finish);
    SameMemory(par, st, t);
    var p := st.producer.p;
    forall q: nat, b: nat | IsPhase(par, q)
      ensures Kept(par, t, q, b)
    {
      assert Kept(par, st, q, b);
    }
    forall c: AnchorCell
      ensures StampOk(par, t, c)
    {
      assert StampOk(par, st, c);
    }
  }

  lemma FeaturesDoneKeepsMemory<V>(par: Params<V>, st: State<V>)
    requires Control(par, st) && Memory(par, st) && Enabled(par, st, FeaturesDone)
    ensures Memory(par, Do(par, st, FeaturesDone))
  {
    hide Anchor, Slot;
    var t := Do(par, st, FeaturesDone);
    SameMemory(par, st, t);
    var p, m := st.producer.p, Made(st, st.producer.p);
    forall s: nat | s < Symbols(par, p)
      ensures RowReady(par, t, p, m, s)
    {
      forall k: nat | k < par.features
        ensures FeatureReady(par, t, p, m, s, k)
      {
        assert (s, k) in st.producer.done;
        assert FeatureReady(par, st, p, m, s, k);
      }
    }
    forall q: nat, b: nat | IsPhase(par, q)
      ensures Kept(par, t, q, b)
    {
      assert Kept(par, st, q, b);
    }
    forall c: AnchorCell
      ensures StampOk(par, t, c)
    {
      assert StampOk(par, st, c);
    }
  }

  lemma SameMemory<V>(par: Params<V>, st: State<V>, t: State<V>)
    requires st.feats == t.feats && st.anchors == t.anchors
    ensures forall p: nat, b: nat, s: nat, k: nat ::
              FeatureReady(par, t, p, b, s, k) == FeatureReady(par, st, p, b, s, k)
    ensures forall p: nat, b: nat, s: nat :: RowReady(par, t, p, b, s) == RowReady(par, st, p, b, s)
    ensures forall p: nat, b: nat, s: nat :: Stamped(par, t, p, b, s) == Stamped(par, st, p, b, s)
    ensures forall p: nat, b: nat :: Resident(par, t, p, b) == Resident(par, st, p, b)
  {
    hide Anchor, Slot;
    assert forall p: nat, b: nat, s: nat, k: nat ::
             FeatureReady(par, t, p, b, s, k) == FeatureReady(par, st, p, b, s, k);
    assert forall p: nat, b: nat, s: nat :: RowReady(par, t, p, b, s) == RowReady(par, st, p, b, s);
    assert forall p: nat, b: nat, s: nat :: Stamped(par, t, p, b, s) == Stamped(par, st, p, b, s);
  }

  lemma StepKeepsMemory<V>(par: Params<V>, st: State<V>, step: Step)
    requires Control(par, st) && Memory(par, st) && Enabled(par, st, step)
    ensures Memory(par, Do(par, st, step))
  {
    hide Do, Control, Memory;
    match step
    case StoreFeature(s, k) => StoreFeatureKeepsMemory(par, st, s, k);
    case StampSymbol => StampSymbolKeepsMemory(par, st);
    case FeaturesDone => FeaturesDoneKeepsMemory(par, st);
    case Finish => FinishKeepsMemory(par, st);
    case _ => OtherStepKeepsMemory(par, st, step);
  }

  // ---------- What the consumer copies ----------

  /** Everything published and not released reads back as committed. */
  lemma PublishedIsReady<V>(par: Params<V>, st: State<V>, p: nat, b: nat, s: nat)
    requires Memory(par, st) && IsPhase(par, p) && s < Symbols(par, p) && st.rounds <= b && Published(st, p, s, b)
    ensures RowReady(par, st, p, b, s) && Stamped(par, st, p, b, s)
  {
    assert Kept(par, st, p, b);
  }

  /** The row of a symbol as it was committed. */
  function Committed<V>(par: Params<V>, p: nat, b: nat, s: nat): (r: map<nat, V>)
    ensures forall k: nat :: k in r <==> k < par.features
    ensures forall k: nat :: k in r ==> r[k] == par.row(p, Anchor(par, p, b), s, k)
  {
    map k: nat | k < par.features :: par.row(p, Anchor(par, p, b), s, k)
  }

  /** All rows up to symbol `i` of phase `j` in round `c`: round by round, phase by phase, symbol by symbol. */
  function Upto<V>(par: Params<V>, c: nat, j: nat, i: nat): seq<Entry<V>>
    decreases c, j, i
  {
    if i > 0 then Upto(par, c, j, i - 1) + [Entry(j, i - 1, Anchor(par, j, c), Committed(par, j, c, i - 1))]
    else if j > 0 then Upto(par, c, j - 1, Symbols(par, j - 1))
    else if c > 0 then Upto(par, c - 1, |par.offsets|, 0)
    else []
  }

  ghost predicate Copied<V>(par: Params<V>, st: State<V>) {
    && (st.consumer.Starting? ==> st.log == [])
    && (!st.consumer.Starting? ==> st.log == Upto(par, st.rounds, st.consumer.j, st.consumer.i))
    && (st.consumer.Copying? ==>
          && Published(st, st.consumer.j, st.consumer.i, st.rounds)
          && CopyOk(par, st, st.consumer.j, st.consumer.i, st.consumer.got))
  }

  ghost predicate CopyOk<V>(par: Params<V>, st: State<V>, j: nat, i: nat, got: map<nat, V>) {
    forall k: nat :: k in got ==> k < par.features && got[k] == par.row(j, Anchor(par, j, st.rounds), i, k)
  }

  ghost predicate Inv<V>(par: Params<V>, st: State<V>) {
    Control(par, st) && Memory(par, st) && Copied(par, st)
  }

  /** A symbol anchor that equals the target has been published; one that is above it never occurs. */
  lemma ObservedIsPublished<V>(par: Params<V>, st: State<V>)
    requires Control(par, st) && Memory(par, st) && st.consumer.Polling? && IsPhase(par, st.consumer.j)
    ensures LoadAnchor(st, Polled(par, st)) <= Target(st, st.consumer.j)
    ensures LoadAnchor(st, Polled(par, st)) == Target(st, st.consumer.j) ==>
            Published(st, st.consumer.j, st.consumer.i, st.rounds)
  {
    hide Slot, FirstOf, FirstOfAll;
    var j := st.consumer.j;
    var c := Polled(par, st);
    assert TargetOk(par, st, j);
    FirstOfAllIsFirst(par, j);
    assert FirstOf(par, j) <= Target(st, j) by { MulMonotone(0, st.rounds, par.cadence); }
    if c in st.anchors {
      assert StampOk(par, st, c);
      var b := st.stamps[c];
      CompareAnchors(par, j, b, j, st.rounds);
      CompareAnchors(par, j, st.rounds, j, b);
      if b > st.rounds {
        SlotClash(par, j, st.rounds, b);
        PublishedBound(par, st, j, c.symbol, b);
      }
      if b < st.rounds { MulMonotone(b, st.rounds, par.cadence); }
    }
  }

  /** Nothing is published a ring ahead of the rounds read. */
  lemma PublishedBound<V>(par: Params<V>, st: State<V>, p: nat, s: nat, b: nat)
    requires Control(par, st) && IsPhase(par, p) && Published(st, p, s, b)
    ensures b + 2 <= st.rounds + par.slots
  {
    assert IsPhase(par, 0) && InStep(st, 0, p);
    if st.producer.Stamping? { assert NotAhead(st, st.producer.p, 0); }
  }

  lemma ProducerStepKeepsCopied<V>(par: Params<V>, st: State<V>, step: Step)
    requires Inv(par, st) && Enabled(par, st, step)
    requires step.Choose? || step.Admit? || step.StoreFeature? || step.FeaturesDone? || step.StampSymbol?
             || step.Finish?
    ensures Copied(par, Do(par, st, step))
  {
    hide Anchor, Slot, Upto, Memory, FirstOf, FirstOfAll, BusyOk, CountOk, InStep, TargetOk, FirstOk;
    var t := Do(par, st, step);
    assert t.consumer == st.consumer && t.log == st.log && t.rounds == st.rounds;
    if st.consumer.Copying? {
      assert CopyOk(par, t, t.consumer.j, t.consumer.i, t.consumer.got);
    }
  }

  lemma CopyFeatureKeepsCopied<V>(par: Params<V>, st: State<V>, f: nat)
    requires Inv(par, st) && Enabled(par, st, CopyFeature(f))
    ensures Copied(par, Do(par, st, CopyFeature(f)))
  {
    hide Anchor, Slot, Upto, Memory;
    var j, i := st.consumer.j, st.consumer.i;
    assert IsPhase(par, j) && TargetOk(par, st, j);
    PublishedIsReady(par, st, j, st.rounds, i);
    assert FeatureReady(par, st, j, st.rounds, i, f);
  }

  lemma EndRowKeepsCopied<V>(par: Params<V>, st: State<V>)
    requires Inv(par, st) && Enabled(par, st, EndRow)
    ensures Copied(par, Do(par, st, EndRow))
  {
    hide Anchor, Slot, Memory;
    var j, i, c := st.consumer.j, st.consumer.i, st.rounds;
    assert IsPhase(par, j) && TargetOk(par, st, j);
    assert st.consumer.got == Committed(par, j, c, i);
    assert Do(par, st, EndRow).log == Upto(par, c, j, i + 1);
    if i + 1 == Symbols(par, j) { assert Upto(par, c, j + 1, 0) == Upto(par, c, j, i + 1); }
  }

  lemma ConsumerStepKeepsCopied<V>(par: Params<V>, st: State<V>, step: Step)
    requires Inv(par, st) && Enabled(par, st, step)
    requires step.Begin? || step.Observe? || step.CommitRead?
    ensures Copied(par, Do(par, st, step))
  {
    hide Anchor, Slot, Memory, BeginTargets, FirstOfAll;
    if step.Observe? { ObservedIsPublished(par, st); }
  }

  lemma StepKeepsInv<V>(par: Params<V>, st: State<V>, step: Step)
    requires Inv(par, st) && Enabled(par, st, step)
    ensures Inv(par, Do(par, st, step))
  {
    hide Do, Control, Memory, Copied, Enabled;
    StepKeepsControl(par, st, step);
    StepKeepsMemory(par, st, step);
    match step
    case CopyFeature(f) => CopyFeatureKeepsCopied(par, st, f);
    case EndRow => EndRowKeepsCopied(par, st);
    case Begin => ConsumerStepKeepsCopied(par, st, step);
    case Observe => ConsumerStepKeepsCopied(par, st, step);
    case CommitRead => ConsumerStepKeepsCopied(par, st, step);
    case _ => ProducerStepKeepsCopied(par, st, step);
  }

  // ---------- Whole runs ----------

  ghost predicate IsRun<V>(par: Params<V>, st: State<V>, steps: seq<Step>)
    decreases |steps|
  {
    steps != [] ==> Enabled(par, st, steps[0]) && IsRun(par, Do(par, st, steps[0]), steps[1..])
  }

  function Run<V>(par: Params<V>, st: State<V>, steps: seq<Step>): State<V>
    requires IsRun(par, st, steps)
    decreases |steps|
  {
    if steps == [] then st else Run(par, Do(par, st, steps[0]), steps[1..])
  }

  lemma {:induction false} RunKeepsInv<V>(par: Params<V>, st: State<V>, steps: seq<Step>)
    requires Inv(par, st) && IsRun(par, st, steps)
    ensures Inv(par, Run(par, st, steps))
    decreases |steps|
  {
    hide Inv, Do, Enabled;
    if steps != [] {
      StepKeepsInv(par, st, steps[0]);
      RunKeepsInv(par, Do(par, st, steps[0]), steps[1..]);
    }
  }

  lemma InitInv<V>(par: Params<V>, st: State<V>)
    requires Init(par, st) && par.slots >= 2
    ensures Inv(par, st)
  {
    InitControl(par, st);
  }

  /** The first anchor the consumer may still need: `LastReadAnchorNS`, or the first anchor before the first read. */
  function Released<V>(par: Params<V>, st: State<V>): int
    requires |par.offsets| > 0
  {
    if st.lastRead == 0 then FirstOfAll(par) else st.lastRead
  }

  lemma ReleasedIsPast<V>(par: Params<V>, p: nat, b: nat, rounds: nat)
    requires WellFormed(par) && IsPhase(par, p)
    ensures FirstOfAll(par) + rounds * par.cadence >= FirstOfAll(par) > 0
    ensures Anchor(par, p, b) >= FirstOfAll(par) + rounds * par.cadence ==> b >= rounds
  {
    FirstOfAllIsFirst(par, p);
    MulMonotone(0, rounds, par.cadence);
    assert (b + 1) * par.cadence == b * par.cadence + par.cadence;
    if b < rounds { MulMonotone(b + 1, rounds, par.cadence); }
  }

  /** Flow control of a replay. In every interleaving: each row the consumer has copied is exactly the row
      committed for its phase, symbol and anchor, with none skipped or repeated; and every committed frame of
      every phase with an anchor at or after the last one read is still whole in its slot, although only phase
      0 ever waits. */
  lemma RowsAreExact<V>(par: Params<V>, init: State<V>, steps: seq<Step>)
    requires Init(par, init) && par.slots >= 2 && IsRun(par, init, steps)
    ensures var st := Run(par, init, steps);
            && (if st.consumer.Starting? then st.log == []
                else st.log == Upto(par, st.rounds, st.consumer.j, st.consumer.i))
            && forall p: nat, b: nat :: IsPhase(par, p) && b < Made(st, p) && Anchor(par, p, b) >= Released(par, st) ==>
                 Resident(par, st, p, b)
  {
    hide Do, Enabled, Init, Run, IsRun, FirstOf, Slot, Upto, Resident;
    InitInv(par, init);
    RunKeepsInv(par, init, steps);
    var st := Run(par, init, steps);
    forall p: nat, b: nat | IsPhase(par, p) && b < Made(st, p) && Anchor(par, p, b) >= Released(par, st)
      ensures Resident(par, st, p, b)
    {
      ReleasedIsPast(par, p, b, st.rounds);
      assert Kept(par, st, p, b);
    }
  }

  /** The producer has nothing to do but wait for the consumer. */
  ghost predicate ProducerBlocked<V>(par: Params<V>, st: State<V>) {
    st.producer.Waiting? && !MayAdvance(par, st)
  }

  /** The consumer has nothing to do but wait for the producer. */
  ghost predicate ConsumerBlocked<V>(par: Params<V>, st: State<V>) {
    || (st.consumer.Starting? && st.first == 0)
    || (st.consumer.Polling? && IsPhase(par, st.consumer.j)
        && LoadAnchor(st, Polled(par, st)) != Target(st, st.consumer.j))
  }

  /** With at least three slots, a waiting producer always leaves the consumer something to read. */
  lemma NotBothBlocked<V>(par: Params<V>, st: State<V>)
    requires Inv(par, st) && par.slots >= 3
    ensures !(ProducerBlocked(par, st) && ConsumerBlocked(par, st))
  {
    hide FirstOf, FirstOfAll, Slot, Anchor;
    if ProducerBlocked(par, st) && st.consumer.Polling? && IsPhase(par, st.consumer.j) {
      var j, i := st.consumer.j, st.consumer.i;
      AdmitBounds(par, st);
      assert NotAhead(st, 0, j) && TargetOk(par, st, j);
      PublishedIsReady(par, st, j, st.rounds, i);
      assert Stamped(par, st, j, st.rounds, i);
    }
  }

  /** Replay never stalls: producer and consumer are never both blocked, whatever the interleaving. */
  lemma NeverStalls<V>(par: Params<V>, init: State<V>, steps: seq<Step>)
    requires Init(par, init) && par.slots >= 3 && IsRun(par, init, steps)
    ensures var st := Run(par, init, steps); !(ProducerBlocked(par, st) && ConsumerBlocked(par, st))
  {
    hide Do, Enabled, Init, Run, IsRun;
    InitInv(par, init);
    RunKeepsInv(par, init, steps);
    NotBothBlocked(par, Run(par, init, steps));
  }

  /** Phase 0 has committed nothing and nothing has been read. */
  ghost predicate Stuck<V>(st: State<V>) {
    && Made(st, 0) == 0 && st.rounds == 0
    && !(st.producer.Filling? && st.producer.p == 0) && !(st.producer.Stamping? && st.producer.p == 0)
    && (st.consumer.Starting? || st.consumer == Polling(0, 0))
  }

  lemma StepKeepsStuck<V>(par: Params<V>, st: State<V>, step: Step)
    requires Inv(par, st) && par.slots == 2 && Stuck(st) && Enabled(par, st, step)
    ensures Stuck(Do(par, st, step))
  {
    hide FirstOf, FirstOfAll, Slot, Anchor, Memory, Copied, BeginTargets;
    if step.Admit? { AdmitBounds(par, st); }
    if step.Observe? { ObservedIsPublished(par, st); }
  }

  /** Two slots are not enough: phase 0 never commits a frame and the consumer never reads a row. */
  lemma {:induction false} TwoSlotsStall<V>(par: Params<V>, st: State<V>, steps: seq<Step>)
    requires Inv(par, st) && par.slots == 2 && Stuck(st) && IsRun(par, st, steps)
    ensures Stuck(Run(par, st, steps))
    decreases |steps|
  {
    hide Inv, Do, Enabled, Stuck;
    if steps != [] {
      StepKeepsStuck(par, st, steps[0]);
      StepKeepsInv(par, st, steps[0]);
      TwoSlotsStall(par, Do(par, st, steps[0]), steps[1..]);
    }
  }

  /** Replay moves on from the start exactly if the ring does not have two slots, given that phase 0 is due. */
  lemma AdmittedFromStart<V>(par: Params<V>, st: State<V>)
    requires Inv(par, st) && st.producer.Waiting? && Made(st, 0) == 0 && st.rounds == 0
    ensures MayAdvance(par, st) <==> par.slots != 2
  {
    hide FirstOf, FirstOfAll, Slot, Anchor;
    AdmitBounds(par, st);
  }

  // ---------- One slot ----------

  lemma OneSlotOnly<V>(par: Params<V>, anchor: int)
    requires par.slots == 1
    ensures Slot(par, anchor) == 0
  {
  }

  /** Some run leads from `st` to `t`. */
  ghost predicate Reaches<V>(par: Params<V>, st: State<V>, t: State<V>) {
    exists steps: seq<Step> :: IsRun(par, st, steps) && Run(par, st, steps) == t
  }

  lemma {:induction false} RunConcat<V>(par: Params<V>, st: State<V>, xs: seq<Step>, ys: seq<Step>)
    requires IsRun(par, st, xs) && IsRun(par, Run(par, st, xs), ys)
    ensures IsRun(par, st, xs + ys) && Run(par, st, xs + ys) == Run(par, Run(par, st, xs), ys)
    decreases |xs|
  {
    hide Enabled, Do;
    if xs == [] {
      assert xs + ys == ys;
    } else {
      assert (xs + ys)[1..] == xs[1..] + ys;
      RunConcat(par, Do(par, st, xs[0]), xs[1..], ys);
    }
  }

  lemma ReachesSelf<V>(par: Params<V>, st: State<V>)
    ensures Reaches(par, st, st)
  {
    assert IsRun(par, st, []) && Run(par, st, []) == st;
  }

  lemma ReachesOn<V>(par: Params<V>, st: State<V>, mid: State<V>, t: State<V>)
    requires Reaches(par, st, mid) && Reaches(par, mid, t)
    ensures Reaches(par, st, t)
  {
    hide IsRun, Run;
    var xs: seq<Step> :| IsRun(par, st, xs) && Run(par, st, xs) == mid;
    var ys: seq<Step> :| IsRun(par, mid, ys) && Run(par, mid, ys) == t;
    RunConcat(par, st, xs, ys);
  }

  /** One more step. */
  lemma Onward<V>(par: Params<V>, st: State<V>, mid: State<V>, step: Step)
    requires Reaches(par, st, mid) && Enabled(par, mid, step)
    ensures Reaches(par, st, Do(par, mid, step))
  {
    hide Enabled, Do;
    var t := Do(par, mid, step);
    assert [step][1..] == [];
    assert IsRun(par, t, []) && Run(par, t, []) == t;
    assert IsRun(par, mid, [step]) && Run(par, mid, [step]) == t;
    ReachesOn(par, st, mid, t);
  }

  /** The producer stores features `0..k` of symbol `s`. */
  lemma {:induction false} FillRow<V>(par: Params<V>, st: State<V>, p: nat, s: nat, k: nat) returns (t: State<V>)
    requires st.producer.Filling? && st.producer.p == p && s < Symbols(par, p) && k <= par.features
    ensures Reaches(par, st, t) && t == st.(producer := t.producer, feats := t.feats)
    ensures t.producer.Filling? && t.producer.p == p && st.producer.done <= t.producer.done
    ensures forall f :: 0 <= f < k ==> (s, f) in t.producer.done
    ensures forall f :: 0 <= f < k ==>
              LoadFeature(par, t, FeatureCell(p, Slot(par, Next(st, p)), s, f)) == par.row(p, Next(st, p), s, f)
  {
    hide Reaches, Slot, Symbols;
    ReachesSelf(par, st);
    t := st;
    if k > 0 {
      var m := FillRow(par, st, p, s, k - 1);
      assert Next(m, p) == Next(st, p);
      Onward(par, st, m, StoreFeature(s, k - 1));
      t := Do(par, m, StoreFeature(s, k - 1));
    }
  }

  /** The producer stores the rows of symbols `0..n`. */
  lemma {:induction false} FillRows<V>(par: Params<V>, st: State<V>, p: nat, n: nat) returns (t: State<V>)
    requires st.producer.Filling? && st.producer.p == p && n <= Symbols(par, p)
    ensures Reaches(par, st, t) && t == st.(producer := t.producer, feats := t.feats)
    ensures t.producer.Filling? && t.producer.p == p
    ensures forall s, f :: 0 <= s < n && 0 <= f < par.features ==> (s, f) in t.producer.done
  {
    hide Reaches, Slot, Symbols, LoadFeature;
    ReachesSelf(par, st);
    t := st;
    if n > 0 {
      var m := FillRows(par, st, p, n - 1);
      t := FillRow(par, m, p, n - 1, par.features);
      ReachesOn(par, st, m, t);
    }
  }

  /** The producer stores the anchors of symbols `0..n`. */
  lemma {:induction false} StampRows<V>(par: Params<V>, st: State<V>, p: nat, n: nat) returns (t: State<V>)
    requires st.producer == Stamping(p, 0) && n <= Symbols(par, p)
    ensures Reaches(par, st, t) && t == st.(producer := Stamping(p, n), anchors := t.anchors, stamps := t.stamps)
    ensures forall c: AnchorCell :: LoadAnchor(t, c) ==
              if c.phase == p && c.slot == Slot(par, Next(st, p)) && c.symbol < n then Next(st, p)
              else LoadAnchor(st, c)
  {
    hide Reaches, Slot, Symbols;
    ReachesSelf(par, st);
    t := st;
    if n > 0 {
      var m := StampRows(par, st, p, n - 1);
      assert Next(m, p) == Next(st, p);
      Onward(par, st, m, StampSymbol);
      t := Do(par, m, StampSymbol);
    }
  }

  /** Everything but the producer's own work is as it was. */
  ghost predicate Aside<V>(st: State<V>, t: State<V>) {
    && t.consumer == st.consumer && t.targets == st.targets && t.log == st.log
    && t.lastRead == st.lastRead && t.rounds == st.rounds
  }

  ghost predicate Between<V>(par: Params<V>, st: State<V>) {
    WellFormed(par) && par.slots == 1 && st.producer.Choosing? && |st.next| == |st.made| == |par.offsets|
  }

  /** The producer begins the frame that is due; with one slot phase 0 never waits. */
  lemma OpenFrame<V>(par: Params<V>, st: State<V>, p: nat) returns (t: State<V>)
    requires Between(par, st) && IsEarliest(st, p)
    ensures Reaches(par, st, t)
    ensures t == st.(producer := Filling(p, {}), first := if p == 0 && st.first == 0 then st.next[0] else st.first)
  {
    hide Reaches;
    ReachesSelf(par, st);
    Onward(par, st, st, Choose(p));
    t := Do(par, st, Choose(p));
    if p == 0 {
      Onward(par, st, t, Admit);
      t := Do(par, t, Admit);
    }
  }

  /** The producer commits the frame that is due. */
  lemma CommitFrame<V>(par: Params<V>, st: State<V>, p: nat) returns (t: State<V>)
    requires Between(par, st) && IsEarliest(st, p)
    ensures Reaches(par, st, t) && Between(par, t) && Aside(st, t)
    ensures t.next == st.next[p := st.next[p] + par.cadence]
    ensures t.first == if st.first == 0 then st.next[p] else st.first
    ensures forall c: AnchorCell :: LoadAnchor(t, c) ==
              if c.phase == p && c.slot == 0 && c.symbol < Symbols(par, p) then st.next[p] else LoadAnchor(st, c)
  {
    hide Reaches, Slot, Symbols, LoadAnchor;
    var a := OpenFrame(par, st, p);
    var b := FillRows(par, a, p, Symbols(par, p));
    ReachesOn(par, st, a, b);
    Onward(par, st, b, FeaturesDone);
    var c := Do(par, b, FeaturesDone);
    var d := StampRows(par, c, p, Symbols(par, p));
    ReachesOn(par, st, c, d);
    Onward(par, st, d, Finish);
    t := Do(par, d, Finish);
    OneSlotOnly(par, st.next[p]);
    SameAnchors(st, c);
    SameAnchors(d, t);
  }

  lemma SameAnchors<V>(st: State<V>, t: State<V>)
    requires t.anchors == st.anchors
    ensures forall c: AnchorCell :: LoadAnchor(t, c) == LoadAnchor(st, c)
  {
  }

  /** How far the anchors are behind `limit`, added up. */
  function Behind(next: seq<int>, limit: int): nat {
    if next == [] then 0
    else Behind(next[..|next| - 1], limit) + (if next[|next| - 1] < limit then limit - next[|next| - 1] else 0)
  }

  lemma {:induction false} BehindFalls(next: seq<int>, limit: int, q: nat, x: int)
    requires q < |next| && next[q] < limit && next[q] < x
    ensures Behind(next[q := x], limit) < Behind(next, limit)
  {
    var front := next[..|next| - 1];
    if q < |front| {
      BehindFalls(front, limit, q, x);
      assert next[q := x][..|next| - 1] == front[q := x];
    } else {
      assert next[q := x][..|next| - 1] == front;
    }
  }

  lemma {:induction false} SomeEarliest(next: seq<int>, n: nat) returns (p: nat)
    requires 0 < n <= |next|
    ensures p < n && (forall q :: 0 <= q < n ==> next[p] <= next[q]) && (forall q :: 0 <= q < p ==> next[p] < next[q])
  {
    p := 0;
    if n > 1 {
      p := SomeEarliest(next, n - 1);
      if next[n - 1] < next[p] { p := n - 1; }
    }
  }

  /** Until something is committed, all phases are at their first anchors; then the first anchor is the first of all. */
  ghost predicate FirstKnown<V>(par: Params<V>, st: State<V>) {
    && |par.offsets| > 0
    && (st.first == 0 ==> st.next == Anchors(par, |par.offsets|, 0))
    && (st.first != 0 ==> st.first == FirstOfAll(par))
  }

  lemma CommitKeepsFirst<V>(par: Params<V>, st: State<V>, p: nat)
    requires WellFormed(par) && FirstKnown(par, st) && IsEarliest(st, p) && st.first == 0
    ensures st.next[p] == FirstOfAll(par) > 0
  {
    FirstOfAllIsFirst(par, p);
    hide FirstOf;
    var least := FirstOfAll(par);
    assert least in st.next;
  }

  /** The producer commits the frames of other phases that go before the next one of phase 0. */
  lemma {:induction false} ReachPhase0<V>(par: Params<V>, st: State<V>) returns (t: State<V>)
    requires Between(par, st) && FirstKnown(par, st)
    ensures Reaches(par, st, t) && Between(par, t) && Aside(st, t) && FirstKnown(par, t)
    ensures IsEarliest(t, 0) && t.next[0] == st.next[0] && (st.first != 0 ==> t.first != 0)
    ensures forall c: AnchorCell :: c.phase == 0 ==> LoadAnchor(t, c) == LoadAnchor(st, c)
    decreases Behind(st.next, if |st.next| > 0 then st.next[0] else 0)
  {
    hide Reaches, LoadAnchor, Anchors, FirstOfAll, Symbols;
    var p := SomeEarliest(st.next, |st.next|);
    if p == 0 {
      ReachesSelf(par, st);
      t := st;
    } else {
      if st.first == 0 { CommitKeepsFirst(par, st, p); }
      var m := CommitFrame(par, st, p);
      FirstPositive(par);
      BehindFalls(st.next, st.next[0], p, st.next[p] + par.cadence);
      t := ReachPhase0(par, m);
      ReachesOn(par, st, m, t);
    }
  }

  lemma FirstPositive<V>(par: Params<V>)
    requires WellFormed(par)
    ensures FirstOfAll(par) > 0
  {
    FirstOfAllIsFirst(par, 0);
  }

  /** The first frame of phase 0 is committed and its second is due. */
  lemma FirstFrame<V>(par: Params<V>, init: State<V>) returns (t: State<V>)
    requires par.slots == 1 && Init(par, init)
    ensures Reaches(par, init, t) && Between(par, t) && Aside(init, t) && IsEarliest(t, 0)
    ensures t.first == FirstOfAll(par) > 0 && t.next[0] == Anchor(par, 0, 1)
    ensures LoadAnchor(t, AnchorCell(0, 0, 0)) == Anchor(par, 0, 0)
  {
    hide Reaches, LoadAnchor, FirstOfAll;
    var a := ReachPhase0(par, init);
    if a.first == 0 { CommitKeepsFirst(par, a, 0); }
    var b := CommitFrame(par, a, 0);
    FirstPositive(par);
    ReachesOn(par, init, a, b);
    t := ReachPhase0(par, b);
    ReachesOn(par, init, b, t);
    assert par.symbols[0] > 0;
  }

  /** The consumer observes the first anchor of phase 0. */
  lemma ObserveFirst<V>(par: Params<V>, st: State<V>) returns (t: State<V>)
    requires Between(par, st) && st.consumer.Starting? && st.first == FirstOfAll(par) > 0
    requires LoadAnchor(st, AnchorCell(0, 0, 0)) == Anchor(par, 0, 0)
    ensures Reaches(par, st, t)
    ensures t == st.(consumer := Copying(0, 0, map[]), targets := t.targets)
    ensures |t.targets| == |par.offsets| && t.targets[0] == Anchor(par, 0, 0)
  {
    hide Reaches, FirstOf, FirstOfAll, Slot;
    ReachesSelf(par, st);
    Onward(par, st, st, Begin);
    var b := Do(par, st, Begin);
    BeginAllFindsFirsts(par, 0);
    OneSlotOnly(par, b.targets[0]);
    SameAnchors(st, b);
    Onward(par, st, b, Observe);
    t := Do(par, b, Observe);
  }

  /** The consumer copies features `0..k` as they now are. */
  lemma {:induction false} CopyRow<V>(par: Params<V>, st: State<V>, k: nat) returns (t: State<V>)
    requires st.consumer == Copying(0, 0, map[]) && k <= par.features && par.slots == 1
    ensures Reaches(par, st, t) && t == st.(consumer := t.consumer)
    ensures t.consumer.Copying? && t.consumer.j == t.consumer.i == 0
    ensures t.consumer.got == map f: nat | f < k :: LoadFeature(par, st, FeatureCell(0, 0, 0, f))
  {
    hide Reaches, Slot;
    ReachesSelf(par, st);
    t := st;
    if k > 0 {
      var m := CopyRow(par, st, k - 1);
      OneSlotOnly(par, Target(m, 0));
      Onward(par, st, m, CopyFeature(k - 1));
      t := Do(par, m, CopyFeature(k - 1));
    }
  }

  /** After observing its anchor the consumer is overtaken by the next frame, and logs that. */
  lemma Overtake<V>(par: Params<V>, st: State<V>) returns (t: State<V>)
    requires Between(par, st) && IsEarliest(st, 0) && st.next[0] == Anchor(par, 0, 1)
    requires st.consumer == Copying(0, 0, map[]) && st.log == []
    requires st.targets != [] && st.targets[0] == Anchor(par, 0, 0)
    ensures Reaches(par, st, t) && t.log == [Entry(0, 0, Anchor(par, 0, 0), Committed(par, 0, 1, 0))]
  {
    hide Reaches, Slot, Anchor, LoadFeature;
    assert par.symbols[0] > 0;
    var a := OpenFrame(par, st, 0);
    var b := FillRow(par, a, 0, 0, par.features);
    ReachesOn(par, st, a, b);
    var c := CopyRow(par, b, par.features);
    ReachesOn(par, st, b, c);
    assert Next(a, 0) == Anchor(par, 0, 1);
    OneSlotOnly(par, Next(a, 0));
    forall f: nat | f < par.features
      ensures c.consumer.got[f] == par.row(0, Anchor(par, 0, 1), 0, f)
    {
      assert LoadFeature(par, b, FeatureCell(0, Slot(par, Next(a, 0)), 0, f)) == par.row(0, Next(a, 0), 0, f);
    }
    assert c.consumer.got == Committed(par, 0, 1, 0);
    Onward(par, st, c, EndRow);
    t := Do(par, c, EndRow);
  }

  /** A log that can be reached from the start. */
  ghost predicate Logs<V>(par: Params<V>, init: State<V>, log: seq<Entry<V>>) {
    exists steps: seq<Step> :: IsRun(par, init, steps) && Run(par, init, steps).log == log
  }

  lemma ReachedLog<V>(par: Params<V>, init: State<V>, t: State<V>)
    requires Reaches(par, init, t)
    ensures Logs(par, init, t.log)
  {
  }

  /** One slot is not enough either. Whatever the phases, symbols and features, there is a run from the start in which
      the consumer logs, for the first anchor of phase 0, the row committed for the second. */
  lemma OneSlotOvertaken<V>(par: Params<V>, init: State<V>)
    requires Init(par, init) && par.slots == 1
    ensures Logs(par, init, [Entry(0, 0, Anchor(par, 0, 0), Committed(par, 0, 1, 0))])
  {
    hide Reaches, Logs, Committed, Anchor, FirstOfAll, LoadAnchor, IsEarliest;
    var a := FirstFrame(par, init);
    var b := ObserveFirst(par, a);
    ReachesOn(par, init, a, b);
    SameEarliest(a, b);
    var c := Overtake(par, b);
    ReachesOn(par, init, b, c);
    ReachedLog(par, init, c);
  }

  lemma SameEarliest<V>(st: State<V>, t: State<V>)
    requires t.next == st.next && IsEarliest(st, 0)
    ensures IsEarliest(t, 0)
  {
  }

  /** That row is not the one committed for the first anchor whenever any feature differs. */
  lemma OvertakenRowDiffers<V>(par: Params<V>, f: nat)
    requires f < par.features && par.row(0, Anchor(par, 0, 0), 0, f) != par.row(0, Anchor(par, 0, 1), 0, f)
    ensures Committed(par, 0, 1, 0) != Committed(par, 0, 0, 0)
  {
    hide Anchor;
    assert Committed(par, 0, 0, 0)[f] != Committed(par, 0, 1, 0)[f];
  }
}
