/** Frames on values: what a commit leaves in a slot, and what the ring gives back as history. */
module FrameHistory {
  import opened Floats
  import opened Modular

  datatype Header = Header(anchor: int, start: int, end: int, symbols: int, features: int, flags: int)

  /** One slot of a phase: header, symbol anchors, and one row of features per symbol. */
  datatype Frame = Frame(header: Header, anchors: seq<int>, rows: seq<seq<Float>>)

  /** A phase: its ring has `slots` frames of `symbols` rows with `features` values. */
  datatype Shape = Shape(slots: nat, cadence: nat, symbols: nat, features: nat)

  predicate Sane(sh: Shape) {
    sh.slots > 0 && sh.cadence > 0
  }

  predicate Shaped(sh: Shape, f: Frame) {
    |f.anchors| == sh.symbols && |f.rows| == sh.symbols && forall s :: 0 <= s < |f.rows| ==> |f.rows[s]| == sh.features
  }

  function FreshHeader(sh: Shape, anchor: int): Header {
    Header(anchor, anchor - sh.cadence, anchor, sh.symbols, sh.features, 0)
  }

  // ---------- Commits ----------

  /** The part of a commit's feature list that belongs to symbol `s`. */
  function RowOf(sh: Shape, feats: seq<Float>, s: nat): (r: seq<Float>)
    requires s < sh.symbols && |feats| >= sh.symbols * sh.features
    ensures |r| == sh.features
  {
    MulMonotone(s + 1, sh.symbols, sh.features);
    assert (s + 1) * sh.features == s * sh.features + sh.features;
    feats[s * sh.features..s * sh.features + sh.features]
  }

  function RowsOf(sh: Shape, feats: seq<Float>): (r: seq<seq<Float>>)
    requires |feats| >= sh.symbols * sh.features
    ensures |r| == sh.symbols && forall s :: 0 <= s < |r| ==> r[s] == RowOf(sh, feats, s)
  {
    seq(sh.symbols, s requires 0 <= s < sh.symbols => RowOf(sh, feats, s))
  }

  function Stamps(n: nat, anchor: int): (r: seq<int>)
    ensures |r| == n && forall s :: 0 <= s < n ==> r[s] == anchor
  {
    seq(n, _ => anchor)
  }

  /** `CommitPhaseFrame`: the whole frame at once; too short a feature list leaves the old rows. */
  function Bulk(sh: Shape, f: Frame, anchor: int, feats: seq<Float>): Frame {
    Frame(FreshHeader(sh, anchor), Stamps(sh.symbols, anchor),
          if |feats| >= sh.symbols * sh.features then RowsOf(sh, feats) else f.rows)
  }

  /** Go's `copy`: as many values as both sides have. */
  function Overwrite(prior: seq<Float>, row: seq<Float>): (r: seq<Float>)
    ensures |r| == |prior|
  {
    if |row| >= |prior| then row[..|prior|] else row + prior[|row|..]
  }

  /** `CommitSymbolMetrics`: one row; the header is written anew only if it does not hold this anchor yet. */
  function CommitSymbol(sh: Shape, f: Frame, s: nat, anchor: int, row: seq<Float>): Frame
    requires Shaped(sh, f) && s < sh.symbols
  {
    Frame(if f.header.anchor != anchor then FreshHeader(sh, anchor) else f.header,
          f.anchors[s := anchor], f.rows[s := Overwrite(f.rows[s], row)])
  }

  /** The rows of the first `k` symbols committed one by one. */
  function Serial(sh: Shape, f: Frame, anchor: int, feats: seq<Float>, k: nat): (r: Frame)
    requires Shaped(sh, f) && k <= sh.symbols && |feats| >= sh.symbols * sh.features
    ensures Shaped(sh, r)
  {
    if k == 0 then f else CommitSymbol(sh, Serial(sh, f, anchor, feats, k - 1), k - 1, anchor, RowOf(sh, feats, k - 1))
  }

  lemma {:induction false} SerialPrefix(sh: Shape, f: Frame, anchor: int, feats: seq<Float>, k: nat)
    requires Shaped(sh, f) && k <= sh.symbols && |feats| >= sh.symbols * sh.features
    ensures var r := Serial(sh, f, anchor, feats, k);
            && r.header == (if k > 0 && f.header.anchor != anchor then FreshHeader(sh, anchor) else f.header)
            && (forall s :: 0 <= s < k ==> r.anchors[s] == anchor && r.rows[s] == RowOf(sh, feats, s))
            && (forall s :: k <= s < sh.symbols ==> r.anchors[s] == f.anchors[s] && r.rows[s] == f.rows[s])
  {
    if k > 0 {
      SerialPrefix(sh, f, anchor, feats, k - 1);
      var row := RowOf(sh, feats, k - 1);
      assert row[..|row|] == row;
    }
  }

  /** Committing a frame symbol by symbol leaves exactly the frame of one bulk commit, unless the slot already
      held this anchor under another header. */
  lemma SerialIsBulk(sh: Shape, f: Frame, anchor: int, feats: seq<Float>)
    requires Shaped(sh, f) && sh.symbols > 0 && |feats| >= sh.symbols * sh.features
    ensures Serial(sh, f, anchor, feats, sh.symbols) == Bulk(sh, f, anchor, feats) <==>
            f.header.anchor != anchor || f.header == FreshHeader(sh, anchor)
  {
    SerialPrefix(sh, f, anchor, feats, sh.symbols);
    var r := Serial(sh, f, anchor, feats, sh.symbols);
    assert r.anchors == Stamps(sh.symbols, anchor);
    assert r.rows == RowsOf(sh, feats);
  }

  // ---------- The ring ----------

  function SlotOf(sh: Shape, anchor: int): (k: nat)
    requires Sane(sh)
    ensures k < sh.slots
  {
    SlotIn(anchor, sh.cadence, sh.slots)
  }

  /** The newest anchor of the phase at or before the last one written in any phase. */
  function LatestAnchor(sh: Shape, offset: nat, last: int): int
    requires Sane(sh)
  {
    Quotient(last - offset, sh.cadence) * sh.cadence + offset
  }

  datatype Bar = Bar(anchor: int, values: seq<Float>)

  /** What `ReadHistoryBars` takes from the slot of one anchor. */
  function BarAt(sh: Shape, ring: seq<Frame>, s: nat, anchor: int): seq<Bar>
    requires Sane(sh) && |ring| == sh.slots
  {
    var f := ring[SlotOf(sh, anchor)];
    if f.header.anchor == anchor && s < |f.anchors| && f.anchors[s] == anchor && s < |f.rows| then
      [Bar(anchor, f.rows[s])] else []
  }

  /** The loop of `ReadHistoryBars` from `n - 1` steps back to the latest anchor. */
  function Bars(sh: Shape, ring: seq<Frame>, s: nat, latest: int, n: nat): seq<Bar>
    requires Sane(sh) && |ring| == sh.slots
  {
    if n == 0 then [] else BarAt(sh, ring, s, latest - (n - 1) * sh.cadence) + Bars(sh, ring, s, latest, n - 1)
  }

  function Blank(sh: Shape): (f: Frame)
    ensures Shaped(sh, f)
  {
    Frame(Header(0, 0, 0, 0, 0, 0), Stamps(sh.symbols, 0), seq(sh.symbols, _ => seq(sh.features, _ => Num(0.0))))
  }

  function BlankRing(sh: Shape): (r: seq<Frame>)
    ensures |r| == sh.slots && forall k :: 0 <= k < |r| ==> r[k] == Blank(sh)
  {
    seq(sh.slots, _ => Blank(sh))
  }

  function Anchor(sh: Shape, first: nat, b: int): int {
    first + b * sh.cadence
  }

  /** The ring after consecutive bulk commits from anchor `first` on. */
  function Committed(sh: Shape, first: nat, commits: seq<seq<Float>>): (ring: seq<Frame>)
    requires Sane(sh)
    ensures |ring| == sh.slots
  {
    if commits == [] then BlankRing(sh)
    else
      var b := |commits| - 1;
      var before := Committed(sh, first, commits[..b]);
      var k := SlotOf(sh, Anchor(sh, first, b));
      before[k := Bulk(sh, before[k], Anchor(sh, first, b), commits[b])]
  }

  ghost predicate AllComplete(sh: Shape, commits: seq<seq<Float>>) {
    forall b :: 0 <= b < |commits| ==> |commits[b]| >= sh.symbols * sh.features
  }

  /** The frame that commit number `b` leaves. */
  function FrameOf(sh: Shape, anchor: int, feats: seq<Float>): Frame
    requires |feats| >= sh.symbols * sh.features
  {
    Frame(FreshHeader(sh, anchor), Stamps(sh.symbols, anchor), RowsOf(sh, feats))
  }

  lemma AnchorSlot(sh: Shape, first: nat, b: nat)
    requires Sane(sh)
    ensures Anchor(sh, first, b) >= first
    ensures SlotOf(sh, Anchor(sh, first, b)) == (first / sh.cadence + b) % sh.slots
  {
    MulMonotone(0, b, sh.cadence);
    AddMultiple(first, b, sh.cadence);
  }

  lemma SlotsRepeat(sh: Shape, first: nat, b: nat, c: nat)
    requires Sane(sh) && b < c
    ensures c < b + sh.slots ==> SlotOf(sh, Anchor(sh, first, b)) != SlotOf(sh, Anchor(sh, first, c))
    ensures c == b + sh.slots ==> SlotOf(sh, Anchor(sh, first, b)) == SlotOf(sh, Anchor(sh, first, c))
  {
    assert sh.cadence > 0 && sh.slots > 0;
    hide *;
    AnchorSlot(sh, first, b);
    AnchorSlot(sh, first, c);
    Around(first / sh.cadence, b, c, sh.slots);
  }

  /** Slots repeat after a whole ring and not before. */
  lemma Around(x: int, b: nat, c: nat, n: nat)
    requires n > 0 && b < c
    ensures c < b + n ==> (x + b) % n != (x + c) % n
    ensures c == b + n ==> (x + b) % n == (x + c) % n
  {
    if c < b + n { ShiftChangesRemainder(x + b, c - b, n); }
    if c == b + n { AddMultiple(x + b, 1, n); }
  }

  /** The last `slots` commits are all in the ring, whole. */
  lemma {:induction false} RecentAreResident(sh: Shape, first: nat, commits: seq<seq<Float>>, b: nat)
    requires Sane(sh) && AllComplete(sh, commits) && b < |commits| <= b + sh.slots
    ensures Committed(sh, first, commits)[SlotOf(sh, Anchor(sh, first, b))] ==
            FrameOf(sh, Anchor(sh, first, b), commits[b])
    decreases |commits|
  {
    hide SlotOf, Anchor, RowsOf;
    var m := |commits|;
    if b < m - 1 {
      RecentAreResident(sh, first, commits[..m - 1], b);
      SlotsRepeat(sh, first, b, m - 1);
    }
  }

  /** The anchor in a slot is that of the newest commit to it, or 0 if there is none. */
  ghost predicate HeldBy(sh: Shape, first: nat, commits: seq<seq<Float>>, k: nat, b: int)
    requires Sane(sh) && k < sh.slots
  {
    var f := Committed(sh, first, commits)[k];
    && -1 <= b < |commits|
    && (b == -1 ==> f == Blank(sh))
    && (b >= 0 ==>
        SlotOf(sh, Anchor(sh, first, b)) == k && f.header.anchor == Anchor(sh, first, b) && |commits| <= b + sh.slots)
  }

  lemma {:induction false} SlotHolder(sh: Shape, first: nat, commits: seq<seq<Float>>, k: nat) returns (b: int)
    requires Sane(sh) && k < sh.slots
    ensures HeldBy(sh, first, commits, k, b)
    ensures b == -1 <==> NeverUsed(sh, first, commits, k)
  {
    hide SlotOf, Anchor, RowsOf;
    var m := |commits|;
    if m == 0 {
      b := -1;
    } else if SlotOf(sh, Anchor(sh, first, m - 1)) == k {
      b := m - 1;
    } else {
      b := SlotHolder(sh, first, commits[..m - 1], k);
      if b >= 0 && m > b + sh.slots {
        SlotsRepeat(sh, first, b, m - 1);
      }
    }
  }

  /** The rows of the last `n` commits, oldest first. */
  function LastRows(sh: Shape, first: nat, commits: seq<seq<Float>>, s: nat, n: nat): seq<Bar>
    requires n <= |commits| && s < sh.symbols && AllComplete(sh, commits)
  {
    if n == 0 then []
    else
      var b := |commits| - n;
      [Bar(Anchor(sh, first, b), RowOf(sh, commits[b], s))] + LastRows(sh, first, commits, s, n - 1)
  }

  /** Walking back `n` steps from the newest anchor passes anchor 0. */
  predicate AsksForZero(sh: Shape, latest: nat, n: nat)
    requires Sane(sh)
  {
    latest % sh.cadence == 0 && latest / sh.cadence < n
  }

  ghost predicate NeverUsed(sh: Shape, first: nat, commits: seq<seq<Float>>, k: nat)
    requires Sane(sh)
  {
    forall c :: 0 <= c < |commits| ==> SlotOf(sh, Anchor(sh, first, c)) != k
  }

  /** Anchor 0 is asked for and its slot was never written: its zero header passes for a frame. */
  ghost predicate Phantom(sh: Shape, first: nat, commits: seq<seq<Float>>, n: nat)
    requires Sane(sh) && commits != []
  {
    AsksForZero(sh, Newest(sh, first, commits), n) && NeverUsed(sh, first, commits, 0)
  }

  function Newest(sh: Shape, first: nat, commits: seq<seq<Float>>): (a: int)
    requires commits != []
    ensures a >= first
  {
    MulMonotone(0, |commits| - 1, sh.cadence);
    Anchor(sh, first, |commits| - 1)
  }

  function Least(a: nat, b: nat): nat {
    if a < b then a else b
  }

  /** What one step back from the newest frame finds. */
  lemma StepBack(sh: Shape, first: nat, commits: seq<seq<Float>>, s: nat, t: nat)
    requires Sane(sh) && first > 0 && AllComplete(sh, commits) && s < sh.symbols && commits != []
    ensures var b := |commits| - 1 - t;
            var ring := Committed(sh, first, commits);
            var bars := BarAt(sh, ring, s, Anchor(sh, first, b));
            && (b >= 0 && t < sh.slots ==> bars == [Bar(Anchor(sh, first, b), RowOf(sh, commits[b], s))])
            && (b >= 0 && t >= sh.slots ==> bars == [])
            && (b < 0 ==> bars == if Anchor(sh, first, b) == 0 && NeverUsed(sh, first, commits, 0)
                                  then [Bar(0, Blank(sh).rows[s])] else [])
  {
    var m := |commits|;
    var b := m - 1 - t;
    var a := Anchor(sh, first, b);
    if b >= 0 && t < sh.slots {
      RecentAreResident(sh, first, commits, b);
    } else {
      var k := SlotOf(sh, a);
      var c := SlotHolder(sh, first, commits, k);
      if c >= 0 {
        AnchorsDiffer(sh, first, b, c);
        MulMonotone(0, c, sh.cadence);
      }
      if a == 0 { ZeroSlot(sh); }
    }
  }

  lemma ZeroSlot(sh: Shape)
    requires Sane(sh)
    ensures SlotOf(sh, 0) == 0
  {
    DivModUnique(0, sh.cadence, 0, 0);
    DivModUnique(0, sh.slots, 0, 0);
  }

  lemma AnchorsDiffer(sh: Shape, first: nat, b: int, c: int)
    requires Sane(sh) && b < c
    ensures Anchor(sh, first, b) < Anchor(sh, first, c)
  {
    MulMonotone(b + 1, c, sh.cadence);
    assert (b + 1) * sh.cadence == b * sh.cadence + sh.cadence;
  }

  lemma ZeroStep(c: nat, latest: nat, t: nat)
    requires c > 0
    ensures latest - t * c == 0 <==> latest % c == 0 && latest / c == t
  {
    if latest == t * c { DivModUnique(latest, c, t, 0); }
  }

  /** Anchor 0 lies before the first commit. */
  lemma ZeroBeforeFirst(sh: Shape, first: nat, commits: seq<seq<Float>>)
    requires Sane(sh) && first > 0 && commits != [] && Newest(sh, first, commits) % sh.cadence == 0
    ensures Newest(sh, first, commits) / sh.cadence >= |commits|
  {
    var c, a := sh.cadence, Newest(sh, first, commits);
    if a / c < |commits| { MulMonotone(a / c, |commits| - 1, c); }
  }

  /** Going one step further back meets anchor 0 at most once, and only before the first commit. */
  lemma PhantomStep(sh: Shape, first: nat, commits: seq<seq<Float>>, t: nat)
    requires Sane(sh) && first > 0 && commits != []
    ensures Phantom(sh, first, commits, t + 1) <==>
            Phantom(sh, first, commits, t)
            || (Anchor(sh, first, |commits| - 1 - t) == 0 && NeverUsed(sh, first, commits, 0))
    ensures Anchor(sh, first, |commits| - 1 - t) == 0 ==> !Phantom(sh, first, commits, t) && t >= |commits|
    ensures Phantom(sh, first, commits, t) ==> t > |commits|
  {
    StepAnchor(sh, first, |commits| - 1, t);
    ZeroStep(sh.cadence, Newest(sh, first, commits), t);
    hide NeverUsed, Anchor;
    if Newest(sh, first, commits) % sh.cadence == 0 { ZeroBeforeFirst(sh, first, commits); }
  }

  /** The blank row returned for anchor 0, if any. */
  ghost function PhantomRows(sh: Shape, first: nat, commits: seq<seq<Float>>, s: nat, n: nat): seq<Bar>
    requires Sane(sh) && commits != [] && s < sh.symbols
  {
    if Phantom(sh, first, commits, n) then [Bar(0, Blank(sh).rows[s])] else []
  }

  lemma PhantomRowsStep(sh: Shape, first: nat, commits: seq<seq<Float>>, s: nat, t: nat)
    requires Sane(sh) && first > 0 && AllComplete(sh, commits) && s < sh.symbols && commits != []
    ensures var bars := BarAt(sh, Committed(sh, first, commits), s, Anchor(sh, first, |commits| - 1 - t));
            && (t < |commits| ==>
                PhantomRows(sh, first, commits, s, t) == PhantomRows(sh, first, commits, s, t + 1) == [])
            && (t < |commits| && t < sh.slots ==>
                  bars == [Bar(Anchor(sh, first, |commits| - 1 - t), RowOf(sh, commits[|commits| - 1 - t], s))])
            && (t < |commits| && t >= sh.slots ==> bars == [])
            && (t >= |commits| ==>
                PhantomRows(sh, first, commits, s, t + 1) == bars + PhantomRows(sh, first, commits, s, t))
  {
    StepBack(sh, first, commits, s, t);
    PhantomStep(sh, first, commits, t);
  }

  /** Putting one more step in front of a blank row and the rows after it. */
  lemma Join<T>(bars: seq<T>, step: seq<T>, blank: seq<T>, blank': seq<T>, rest: seq<T>, rest': seq<T>, t: nat, m: nat,
                slots: nat)
    requires bars == step + (blank + rest)
    requires t < m ==> blank == blank' == []
    requires t < m && t < slots ==> rest' == step + rest
    requires t < m && t >= slots ==> step == [] && rest' == rest
    requires t >= m ==> blank' == step + blank && rest' == rest
    ensures bars == blank' + rest'
  {
    assert step + (blank + rest) == (step + blank) + rest;
  }

  lemma LeastSteps(slots: nat, t: nat, m: nat)
    ensures Least(t, Least(slots, m)) == if t < m && t < slots then t else Least(t + 1, Least(slots, m))
    ensures t < m && t < slots ==> Least(t + 1, Least(slots, m)) == t + 1
  {
  }

  lemma LastRowsStep(sh: Shape, first: nat, commits: seq<seq<Float>>, s: nat, t: nat)
    requires t < |commits| && s < sh.symbols && AllComplete(sh, commits)
    ensures LastRows(sh, first, commits, s, t + 1) ==
            [Bar(Anchor(sh, first, |commits| - 1 - t), RowOf(sh, commits[|commits| - 1 - t], s))]
              + LastRows(sh, first, commits, s, t)
  {
  }

  lemma HistoryStep(sh: Shape, first: nat, commits: seq<seq<Float>>, s: nat, t: nat)
    requires Sane(sh) && commits != []
    ensures var ring := Committed(sh, first, commits);
            Bars(sh, ring, s, Newest(sh, first, commits), t + 1) ==
            BarAt(sh, ring, s, Anchor(sh, first, |commits| - 1 - t)) + Bars(sh, ring, s, Newest(sh, first, commits), t)
  {
    StepAnchor(sh, first, |commits| - 1, t);
  }

  lemma StepAnchor(sh: Shape, first: nat, b: int, t: nat)
    ensures Anchor(sh, first, b) - t * sh.cadence == Anchor(sh, first, b - t)
  {
    assert (b - t) * sh.cadence == b * sh.cadence - t * sh.cadence;
  }

  /** The ring as a bounded history. After any run of consecutive commits, asking for `n` rows gives exactly the
      last min(n, slots, committed) of them in order; only a request that reaches back to anchor 0 also returns
      a blank row for it, if no frame was ever committed to that slot. */
  lemma {:induction false} HistoryIsExact(sh: Shape, first: nat, commits: seq<seq<Float>>, s: nat, n: nat)
    requires Sane(sh) && first > 0 && AllComplete(sh, commits) && s < sh.symbols && commits != []
    ensures Bars(sh, Committed(sh, first, commits), s, Newest(sh, first, commits), n) ==
            PhantomRows(sh, first, commits, s, n)
            + LastRows(sh, first, commits, s, Least(n, Least(sh.slots, |commits|)))
  {
    hide *;
    if n == 0 {
      EmptyHistory(sh, first, commits, s);
    } else {
      HistoryIsExact(sh, first, commits, s, n - 1);
      LongerHistory(sh, first, commits, s, n - 1);
    }
  }

  lemma EmptyHistory(sh: Shape, first: nat, commits: seq<seq<Float>>, s: nat)
    requires Sane(sh) && AllComplete(sh, commits) && s < sh.symbols && commits != []
    ensures Bars(sh, Committed(sh, first, commits), s, Newest(sh, first, commits), 0) == []
    ensures PhantomRows(sh, first, commits, s, 0) == []
    ensures LastRows(sh, first, commits, s, Least(0, Least(sh.slots, |commits|))) == []
  {
    hide Anchor, SlotOf, Committed;
  }

  lemma LongerHistory(sh: Shape, first: nat, commits: seq<seq<Float>>, s: nat, t: nat)
    requires Sane(sh) && first > 0 && AllComplete(sh, commits) && s < sh.symbols && commits != []
    requires Bars(sh, Committed(sh, first, commits), s, Newest(sh, first, commits), t) ==
             PhantomRows(sh, first, commits, s, t)
             + LastRows(sh, first, commits, s, Least(t, Least(sh.slots, |commits|)))
    ensures Bars(sh, Committed(sh, first, commits), s, Newest(sh, first, commits), t + 1) ==
            PhantomRows(sh, first, commits, s, t + 1)
            + LastRows(sh, first, commits, s, Least(t + 1, Least(sh.slots, |commits|)))
  {
    hide SlotOf, Committed, Phantom, PhantomRows, BarAt, Bars, Anchor, LastRows;
    var m := |commits|;
    HistoryStep(sh, first, commits, s, t);
    PhantomRowsStep(sh, first, commits, s, t);
    LeastSteps(sh.slots, t, m);
    if t < m && t < sh.slots { LastRowsStep(sh, first, commits, s, t); }
    Join(Bars(sh, Committed(sh, first, commits), s, Newest(sh, first, commits), t + 1),
         BarAt(sh, Committed(sh, first, commits), s, Anchor(sh, first, m - 1 - t)),
         PhantomRows(sh, first, commits, s, t), PhantomRows(sh, first, commits, s, t + 1),
         LastRows(sh, first, commits, s, Least(t, Least(sh.slots, m))),
         LastRows(sh, first, commits, s, Least(t + 1, Least(sh.slots, m))), t, m, sh.slots);
  }

  lemma SecondSlot(sh: Shape)
    requires Sane(sh) && sh.slots >= 2
    ensures SlotOf(sh, sh.cadence) == 1 && AsksForZero(sh, sh.cadence, 2)
  {
    DivModUnique(sh.cadence, sh.cadence, 1, 0);
    DivModUnique(1, sh.slots, 0, 1);
  }

  lemma OneCommit(sh: Shape, feats: seq<Float>)
    requires Sane(sh) && sh.slots >= 2
    ensures Newest(sh, sh.cadence, [feats]) == Anchor(sh, sh.cadence, 0) == sh.cadence
    ensures Phantom(sh, sh.cadence, [feats], 2)
  {
    SecondSlot(sh);
    hide SlotOf, AsksForZero;
  }

  /** A blank row does come back: one frame at anchor `cadence` in a ring of at least two slots, and two rows
      asked for. */
  lemma BlankRowReturned(sh: Shape, feats: seq<Float>, s: nat)
    requires Sane(sh) && sh.slots >= 2 && |feats| >= sh.symbols * sh.features && s < sh.symbols
    ensures Phantom(sh, sh.cadence, [feats], 2)
    ensures Bars(sh, Committed(sh, sh.cadence, [feats]), s, sh.cadence, 2)
            == [Bar(0, Blank(sh).rows[s]), Bar(sh.cadence, RowOf(sh, feats, s))]
  {
    hide SlotOf, Committed, Bars, Phantom, Anchor, Newest, RowOf;
    OneCommit(sh, feats);
    HistoryIsExact(sh, sh.cadence, [feats], s, 2);
    LastRowsStep(sh, sh.cadence, [feats], s, 0);
  }

  /** With the last written anchor anywhere before the phase's next one, the phase's newest frame is found. */
  lemma LatestIsNewest(sh: Shape, offset: nat, a: nat, last: int)
    requires Sane(sh) && offset < sh.cadence && a % sh.cadence == offset && a <= last < a + sh.cadence
    ensures LatestAnchor(sh, offset, last) == a
  {
    assert a == a / sh.cadence * sh.cadence + offset;
    DivModUnique(last - offset, sh.cadence, a / sh.cadence, last - a);
    MulMonotone(0, a / sh.cadence, sh.cadence);
  }
}
