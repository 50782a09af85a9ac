/** The frame rings in the mapped segment: one array of 8-byte words, written at the addresses of the layout. */
module FrameStore {
  import opened Floats
  import opened Layout
  import opened FrameHistory
  import Modular
  import Schedule

  /** A word of the segment; the two 32-bit counts of a frame header share one. */
  datatype Word = IntWord(i: int) | FloatWord(x: Float) | Counts(symbols: int, features: int)

  type Memory = seq<Word>

  function AsInt(w: Word): int {
    if w.IntWord? then w.i else 0
  }

  function AsFloat(w: Word): Float {
    if w.FloatWord? then w.x else Num(0.0)
  }

  function AsCounts(w: Word): (int, int) {
    if w.Counts? then (w.symbols, w.features) else (0, 0)
  }

  // ---------- Reading frames out of the words ----------

  ghost predicate Sized(cfg: Config, mem: Memory) {
    Accepted(cfg) && InRange(cfg) && |mem| == Offset(cfg, |cfg.symbols|) / WORD
  }

  /** A word of some frame. */
  predicate FrameCell(cfg: Config, c: Cell) {
    Exists(cfg, c) && !Fixed(c)
  }

  predicate HasSlot(cfg: Config, p: nat, slot: nat) {
    p < |cfg.symbols| && slot < cfg.frames
  }

  function Index(cfg: Config, c: Cell): nat {
    Start(cfg, c) / WORD
  }

  lemma WordInside(frame: nat, inner: nat, total: nat)
    requires frame % 64 == 0 && inner % WORD == 0 && frame + inner + WORD <= total
    ensures (frame + inner) / WORD * WORD == frame + inner && (frame + inner) / WORD < total / WORD
  {
  }

  lemma IndexInside(cfg: Config, c: Cell)
    requires Accepted(cfg) && InRange(cfg) && FrameCell(cfg, c)
    ensures Index(cfg, c) < Offset(cfg, |cfg.symbols|) / WORD && Start(cfg, c) == Index(cfg, c) * WORD
  {
    CellsInSegment(cfg, c);
    FramesAligned(cfg, c.p, c.slot);
    InnerBounds(cfg, c);
    WordInside(FrameStart(cfg, c.p, c.slot), Inner(cfg, c), Offset(cfg, |cfg.symbols|));
  }

  /** Distinct cells are distinct words. */
  lemma IndexDistinct(cfg: Config, c: Cell, d: Cell)
    requires Accepted(cfg) && InRange(cfg) && FrameCell(cfg, c) && FrameCell(cfg, d) && c != d
    ensures Index(cfg, c) != Index(cfg, d)
  {
    IndexInside(cfg, c);
    IndexInside(cfg, d);
    CellsAreDisjoint(cfg, c, d);
    hide Start, Exists;
  }

  function Load(cfg: Config, mem: Memory, c: Cell): Word {
    if Index(cfg, c) < |mem| then mem[Index(cfg, c)] else IntWord(0)
  }

  function HeaderAt(cfg: Config, mem: Memory, p: nat, slot: nat): Header {
    Header(AsInt(Load(cfg, mem, HeaderWord(p, slot, 0))), AsInt(Load(cfg, mem, HeaderWord(p, slot, 1))),
           AsInt(Load(cfg, mem, HeaderWord(p, slot, 2))), AsCounts(Load(cfg, mem, HeaderWord(p, slot, 3))).0,
           AsCounts(Load(cfg, mem, HeaderWord(p, slot, 3))).1, AsInt(Load(cfg, mem, HeaderWord(p, slot, 4))))
  }

  function AnchorsAt(cfg: Config, mem: Memory, p: nat, slot: nat): (r: seq<int>)
    ensures |r| == Symbols(cfg, p) && forall s :: 0 <= s < |r| ==>
            r[s] == AsInt(Load(cfg, mem, SymbolAnchor(p, slot, s)))
  {
    seq(Symbols(cfg, p), s requires 0 <= s => AsInt(Load(cfg, mem, SymbolAnchor(p, slot, s))))
  }

  function RowAt(cfg: Config, mem: Memory, p: nat, slot: nat, s: nat): (r: seq<Float>)
    ensures |r| == cfg.features && forall k :: 0 <= k < |r| ==> r[k] == AsFloat(Load(cfg, mem, Feature(p, slot, s, k)))
  {
    seq(cfg.features, k requires 0 <= k => AsFloat(Load(cfg, mem, Feature(p, slot, s, k))))
  }

  function RowsAt(cfg: Config, mem: Memory, p: nat, slot: nat): (r: seq<seq<Float>>)
    ensures |r| == Symbols(cfg, p) && forall s :: 0 <= s < |r| ==> r[s] == RowAt(cfg, mem, p, slot, s)
  {
    seq(Symbols(cfg, p), s requires 0 <= s => RowAt(cfg, mem, p, slot, s))
  }

  /** The frame in a slot, read cell by cell. */
  function View(cfg: Config, mem: Memory, p: nat, slot: nat): Frame {
    Frame(HeaderAt(cfg, mem, p, slot), AnchorsAt(cfg, mem, p, slot), RowsAt(cfg, mem, p, slot))
  }

  /** All slots of a phase. */
  function Ring(cfg: Config, mem: Memory, p: nat): (r: seq<Frame>)
    ensures |r| == cfg.frames && forall k :: 0 <= k < |r| ==> r[k] == View(cfg, mem, p, k)
  {
    seq(cfg.frames, k requires 0 <= k => View(cfg, mem, p, k))
  }

  function ShapeOf(cfg: Config, cadence: Schedule.Cadence, p: nat): Shape {
    Shape(cfg.frames, cadence, Symbols(cfg, p), cfg.features)
  }

  // ---------- What a change to some cells leaves alone ----------

  ghost predicate SameCell(cfg: Config, a: Memory, b: Memory, c: Cell) {
    FrameCell(cfg, c) ==> Load(cfg, b, c) == Load(cfg, a, c)
  }

  ghost predicate SameRow(cfg: Config, a: Memory, b: Memory, p: nat, slot: nat, s: nat) {
    forall k: nat :: SameCell(cfg, a, b, Feature(p, slot, s, k))
  }

  /** Only cells of one frame differ. */
  ghost predicate OnlyFrame(cfg: Config, a: Memory, b: Memory, p: nat, slot: nat) {
    forall c: Cell :: FrameCell(cfg, c) && (c.p != p || c.slot != slot) ==> SameCell(cfg, a, b, c)
  }

  lemma RowKept(cfg: Config, a: Memory, b: Memory, p: nat, slot: nat, s: nat)
    requires HasSlot(cfg, p, slot) && s < cfg.symbols[p] && SameRow(cfg, a, b, p, slot, s)
    ensures RowAt(cfg, b, p, slot, s) == RowAt(cfg, a, p, slot, s)
  {
    hide Load;
    forall k | 0 <= k < cfg.features
      ensures RowAt(cfg, b, p, slot, s)[k] == RowAt(cfg, a, p, slot, s)[k]
    {
      assert SameCell(cfg, a, b, Feature(p, slot, s, k));
    }
  }

  lemma RowsKept(cfg: Config, a: Memory, b: Memory, p: nat, slot: nat)
    requires HasSlot(cfg, p, slot) && forall s: nat :: SameRow(cfg, a, b, p, slot, s)
    ensures RowsAt(cfg, b, p, slot) == RowsAt(cfg, a, p, slot)
  {
    forall s | 0 <= s < cfg.symbols[p]
      ensures RowsAt(cfg, b, p, slot)[s] == RowsAt(cfg, a, p, slot)[s]
    {
      RowKept(cfg, a, b, p, slot, s);
    }
  }

  lemma AnchorsKept(cfg: Config, a: Memory, b: Memory, p: nat, slot: nat)
    requires HasSlot(cfg, p, slot) && forall s: nat :: SameCell(cfg, a, b, SymbolAnchor(p, slot, s))
    ensures AnchorsAt(cfg, b, p, slot) == AnchorsAt(cfg, a, p, slot)
  {
    hide Load;
    forall s | 0 <= s < cfg.symbols[p]
      ensures AnchorsAt(cfg, b, p, slot)[s] == AnchorsAt(cfg, a, p, slot)[s]
    {
      assert SameCell(cfg, a, b, SymbolAnchor(p, slot, s));
    }
  }

  lemma HeaderKept(cfg: Config, a: Memory, b: Memory, p: nat, slot: nat)
    requires HasSlot(cfg, p, slot) && forall w: nat :: SameCell(cfg, a, b, HeaderWord(p, slot, w))
    ensures HeaderAt(cfg, b, p, slot) == HeaderAt(cfg, a, p, slot)
  {
    hide Load;
    assert forall w: nat :: w < 8 ==> FrameCell(cfg, HeaderWord(p, slot, w));
    assert SameCell(cfg, a, b, HeaderWord(p, slot, 0)) && SameCell(cfg, a, b, HeaderWord(p, slot, 1));
    assert SameCell(cfg, a, b, HeaderWord(p, slot, 2)) && SameCell(cfg, a, b, HeaderWord(p, slot, 3))
           && SameCell(cfg, a, b, HeaderWord(p, slot, 4));
  }

  lemma FrameKept(cfg: Config, a: Memory, b: Memory, p: nat, slot: nat)
    requires HasSlot(cfg, p, slot) && forall c: Cell :: FrameCell(cfg, c) && c.p == p && c.slot == slot ==>
             SameCell(cfg, a, b, c)
    ensures View(cfg, b, p, slot) == View(cfg, a, p, slot)
  {
    hide Load;
    forall s: nat
      ensures SameRow(cfg, a, b, p, slot, s)
    {
      forall k: nat
        ensures SameCell(cfg, a, b, Feature(p, slot, s, k))
      {
      }
    }
    RowsKept(cfg, a, b, p, slot);
    AnchorsKept(cfg, a, b, p, slot);
    HeaderKept(cfg, a, b, p, slot);
  }

  /** A change inside one frame changes one slot of one ring. */
  lemma OneSlotChanged(cfg: Config, a: Memory, b: Memory, p: nat, slot: nat)
    requires HasSlot(cfg, p, slot) && OnlyFrame(cfg, a, b, p, slot)
    ensures Ring(cfg, b, p) == Ring(cfg, a, p)[slot := View(cfg, b, p, slot)]
    ensures forall q :: 0 <= q < |cfg.symbols| && q != p ==> Ring(cfg, b, q) == Ring(cfg, a, q)
  {
    hide Load, View;
    forall q, k | 0 <= q < |cfg.symbols| && 0 <= k < cfg.frames && (q != p || k != slot)
      ensures View(cfg, b, q, k) == View(cfg, a, q, k)
    {
      FrameKept(cfg, a, b, q, k);
    }
  }

  /** A new segment holds blank frames only. */
  lemma ZeroIsBlank(cfg: Config, cadence: Schedule.Cadence, mem: Memory, p: nat)
    requires p < |cfg.symbols| && forall i :: 0 <= i < |mem| ==> mem[i] == IntWord(0)
    ensures Ring(cfg, mem, p) == BlankRing(ShapeOf(cfg, cadence, p))
  {
    assert forall c: Cell :: Load(cfg, mem, c) == IntWord(0);
    hide Load;
    var blank := Blank(ShapeOf(cfg, cadence, p));
    forall k | 0 <= k < cfg.frames
      ensures View(cfg, mem, p, k) == blank
    {
      assert AnchorsAt(cfg, mem, p, k) == blank.anchors;
      forall s | 0 <= s < cfg.symbols[p]
        ensures RowAt(cfg, mem, p, k, s) == blank.rows[s]
      {
        assert RowAt(cfg, mem, p, k, s) == blank.rows[s];
      }
      assert RowsAt(cfg, mem, p, k) == blank.rows;
    }
  }

  lemma OverwriteIs(prior: seq<Float>, row: seq<Float>, r: seq<Float>)
    requires |r| == |prior| && forall k :: 0 <= k < |r| ==> r[k] == if k < |row| then row[k] else prior[k]
    ensures r == Overwrite(prior, row)
  {
  }

  lemma OverwriteAll(prior: seq<Float>, row: seq<Float>)
    requires |row| == |prior|
    ensures Overwrite(prior, row) == row
  {
  }

  // ---------- The segment ----------

  class FrameStore {
    const cfg: Config
    const cadence: Schedule.Cadence
    const offsets: seq<nat>
    const words: array<Word>
    var lastWritten: int

    ghost predicate Valid()
      reads words
    {
      Sized(cfg, words[..]) && |offsets| == |cfg.symbols|
    }

    constructor (cfg: Config, cadence: Schedule.Cadence, offsets: seq<nat>)
      requires Accepted(cfg) && InRange(cfg) && |offsets| == |cfg.symbols|
      ensures Valid() && this.cfg == cfg && this.cadence == cadence && this.offsets == offsets && fresh(words)
              && lastWritten == 0
      ensures forall p :: 0 <= p < |cfg.symbols| ==> Ring(cfg, words[..], p) == BlankRing(ShapeOf(cfg, cadence, p))
    {
      this.cfg, this.cadence, this.offsets := cfg, cadence, offsets;
      words := new Word[Offset(cfg, |cfg.symbols|) / WORD](_ => IntWord(0));
      lastWritten := 0;
      new;
      forall p | 0 <= p < |cfg.symbols|
        ensures Ring(cfg, words[..], p) == BlankRing(ShapeOf(cfg, cadence, p))
      {
        ZeroIsBlank(cfg, cadence, words[..], p);
      }
    }

    method StoreWord(c: Cell, w: Word)
      requires Valid() && FrameCell(cfg, c)
      modifies words
      ensures Valid() && Load(cfg, words[..], c) == w
      ensures forall d: Cell :: d != c ==> SameCell(cfg, old(words[..]), words[..], d)
    {
      IndexInside(cfg, c);
      words[Start(cfg, c) / WORD] := w;
      forall d: Cell | d != c
        ensures SameCell(cfg, old(words[..]), words[..], d)
      {
        if FrameCell(cfg, d) {
          IndexInside(cfg, d);
          IndexDistinct(cfg, c, d);
        }
      }
    }

    method ReadWord(c: Cell) returns (w: Word)
      requires Valid() && FrameCell(cfg, c)
      ensures w == Load(cfg, words[..], c)
    {
      IndexInside(cfg, c);
      w := words[Start(cfg, c) / WORD];
    }

    /** All of the header but its anchor. */
    method StoreHeaderBody(p: nat, slot: nat, anchor: int)
      requires Valid() && HasSlot(cfg, p, slot)
      modifies words
      ensures Valid()
      ensures HeaderAt(cfg, words[..], p, slot) ==
              FreshHeader(ShapeOf(cfg, cadence, p), anchor).(anchor := HeaderAt(cfg, old(words[..]), p, slot).anchor)
      ensures forall c: Cell :: !(c.HeaderWord? && c.p == p && c.slot == slot) ==>
              SameCell(cfg, old(words[..]), words[..], c)
    {
      hide Load, Sized;
      ghost var a := words[..];
      StoreWord(HeaderWord(p, slot, 1), IntWord(anchor - cadence));
      ghost var b := words[..];
      StoreWord(HeaderWord(p, slot, 2), IntWord(anchor));
      ghost var c := words[..];
      StoreWord(HeaderWord(p, slot, 3), Counts(cfg.symbols[p], cfg.features));
      ghost var d := words[..];
      StoreWord(HeaderWord(p, slot, 4), IntWord(0));
      ghost var e := words[..];
      forall x: Cell | !(x.HeaderWord? && x.p == p && x.slot == slot && 1 <= x.w <= 4)
        ensures SameCell(cfg, a, e, x)
      {
        assert SameCell(cfg, a, b, x) && SameCell(cfg, b, c, x) && SameCell(cfg, c, d, x) && SameCell(cfg, d, e, x);
      }
      assert SameCell(cfg, a, e, HeaderWord(p, slot, 0));
      assert SameCell(cfg, b, c, HeaderWord(p, slot, 1)) && SameCell(cfg, c, d, HeaderWord(p, slot, 1))
             && SameCell(cfg, d, e, HeaderWord(p, slot, 1));
      assert SameCell(cfg, c, d, HeaderWord(p, slot, 2)) && SameCell(cfg, d, e, HeaderWord(p, slot, 2));
      assert SameCell(cfg, d, e, HeaderWord(p, slot, 3));
    }

    /** Copies a row over the features of one symbol, as far as both reach. */
    method StoreRow(p: nat, slot: nat, s: nat, row: seq<Float>)
      requires Valid() && HasSlot(cfg, p, slot) && s < cfg.symbols[p]
      modifies words
      ensures Valid() && RowAt(cfg, words[..], p, slot, s) == Overwrite(RowAt(cfg, old(words[..]), p, slot, s), row)
      ensures forall c: Cell :: !(c.Feature? && c.p == p && c.slot == slot && c.s == s) ==>
              SameCell(cfg, old(words[..]), words[..], c)
    {
      hide Load, Sized;
      ghost var a := words[..];
      var n := if |row| < cfg.features then |row| else cfg.features;
      for k := 0 to n
        invariant Valid()
        invariant forall j :: 0 <= j < k ==> Load(cfg, words[..], Feature(p, slot, s, j)) == FloatWord(row[j])
        invariant forall c: Cell :: !(c.Feature? && c.p == p && c.slot == slot && c.s == s && c.k < k) ==>
                  SameCell(cfg, a, words[..], c)
      {
        ghost var b := words[..];
        StoreWord(Feature(p, slot, s, k), FloatWord(row[k]));
        assert forall j :: 0 <= j < k ==> SameCell(cfg, b, words[..], Feature(p, slot, s, j));
        forall c: Cell | !(c.Feature? && c.p == p && c.slot == slot && c.s == s && c.k <= k)
          ensures SameCell(cfg, a, words[..], c)
        {
          assert SameCell(cfg, a, b, c) && SameCell(cfg, b, words[..], c);
        }
      }
      forall k | 0 <= k < cfg.features
        ensures RowAt(cfg, words[..], p, slot, s)[k] == if k < |row| then row[k] else RowAt(cfg, a, p, slot, s)[k]
      {
        if k >= n { assert SameCell(cfg, a, words[..], Feature(p, slot, s, k)); }
      }
      OverwriteIs(RowAt(cfg, a, p, slot, s), row, RowAt(cfg, words[..], p, slot, s));
    }

    /** Writes all features of a frame. */
    method StoreRows(p: nat, slot: nat, feats: seq<Float>)
      requires Valid() && HasSlot(cfg, p, slot) && |feats| >= cfg.symbols[p] * cfg.features
      modifies words
      ensures Valid() && RowsAt(cfg, words[..], p, slot) == RowsOf(ShapeOf(cfg, cadence, p), feats)
      ensures forall c: Cell :: !(c.Feature? && c.p == p && c.slot == slot) ==>
              SameCell(cfg, old(words[..]), words[..], c)
    {
      hide Load, RowOf, Overwrite, Sized;
      ghost var a := words[..];
      var sh := ShapeOf(cfg, cadence, p);
      for s := 0 to cfg.symbols[p]
        invariant Valid()
        invariant forall t :: 0 <= t < s ==> RowAt(cfg, words[..], p, slot, t) == RowOf(sh, feats, t)
        invariant forall c: Cell :: !(c.Feature? && c.p == p && c.slot == slot) ==> SameCell(cfg, a, words[..], c)
      {
        ghost var b := words[..];
        var row := RowOf(sh, feats, s);
        OverwriteAll(RowAt(cfg, b, p, slot, s), row);
        StoreRow(p, slot, s, row);
        forall t | 0 <= t < s
          ensures RowAt(cfg, words[..], p, slot, t) == RowOf(sh, feats, t)
        {
          assert SameRow(cfg, b, words[..], p, slot, t);
          RowKept(cfg, b, words[..], p, slot, t);
        }
      }
    }

    method StampAll(p: nat, slot: nat, anchor: int)
      requires Valid() && HasSlot(cfg, p, slot)
      modifies words
      ensures Valid() && AnchorsAt(cfg, words[..], p, slot) == Stamps(cfg.symbols[p], anchor)
      ensures forall c: Cell :: !(c.SymbolAnchor? && c.p == p && c.slot == slot) ==>
              SameCell(cfg, old(words[..]), words[..], c)
    {
      hide Load, Sized;
      ghost var a := words[..];
      for s := 0 to cfg.symbols[p]
        invariant Valid()
        invariant forall t :: 0 <= t < s ==> Load(cfg, words[..], SymbolAnchor(p, slot, t)) == IntWord(anchor)
        invariant forall c: Cell :: !(c.SymbolAnchor? && c.p == p && c.slot == slot) ==> SameCell(cfg, a, words[..], c)
      {
        ghost var b := words[..];
        StoreWord(SymbolAnchor(p, slot, s), IntWord(anchor));
        assert forall t :: 0 <= t < s ==> SameCell(cfg, b, words[..], SymbolAnchor(p, slot, t));
        forall c: Cell | !(c.SymbolAnchor? && c.p == p && c.slot == slot)
          ensures SameCell(cfg, a, words[..], c)
        {
          assert SameCell(cfg, a, b, c) && SameCell(cfg, b, words[..], c);
        }
      }
    }

    /** Copies the features of a whole frame, if the list is long enough. */
    method StoreFeatures(p: nat, slot: nat, feats: seq<Float>)
      requires Valid() && HasSlot(cfg, p, slot)
      modifies words
      ensures Valid()
      ensures RowsAt(cfg, words[..], p, slot) ==
              if |feats| >= cfg.symbols[p] * cfg.features then RowsOf(ShapeOf(cfg, cadence, p), feats)
              else RowsAt(cfg, old(words[..]), p, slot)
      ensures forall c: Cell :: !(c.Feature? && c.p == p && c.slot == slot) ==>
              SameCell(cfg, old(words[..]), words[..], c)
    {
      if |feats| >= cfg.symbols[p] * cfg.features {
        StoreRows(p, slot, feats);
      }
    }

    method StoreHeaderAnchor(p: nat, slot: nat, anchor: int)
      requires Valid() && HasSlot(cfg, p, slot)
      modifies words
      ensures Valid() && HeaderAt(cfg, words[..], p, slot) == HeaderAt(cfg, old(words[..]), p, slot).(anchor := anchor)
      ensures forall c: Cell :: !(c.HeaderWord? && c.p == p && c.slot == slot) ==>
              SameCell(cfg, old(words[..]), words[..], c)
    {
      hide Load, Sized;
      ghost var a := words[..];
      StoreWord(HeaderWord(p, slot, 0), IntWord(anchor));
      assert forall w: nat :: 1 <= w < 8 ==> SameCell(cfg, a, words[..], HeaderWord(p, slot, w));
    }

    method StoreFrame(p: nat, slot: nat, anchor: int, feats: seq<Float>)
      requires Valid() && HasSlot(cfg, p, slot)
      modifies words
      ensures Valid()
              && View(cfg, words[..], p, slot) ==
                 Bulk(ShapeOf(cfg, cadence, p), View(cfg, old(words[..]), p, slot), anchor, feats)
      ensures OnlyFrame(cfg, old(words[..]), words[..], p, slot)
    {
      hide Load, RowsOf, RowsAt, AnchorsAt, HeaderAt, Sized;
      ghost var a := words[..];
      StoreHeaderBody(p, slot, anchor);
      ghost var b := words[..];
      StoreFeatures(p, slot, feats);
      ghost var c := words[..];
      StampAll(p, slot, anchor);
      ghost var d := words[..];
      StoreHeaderAnchor(p, slot, anchor);
      ghost var e := words[..];
      assert forall s: nat :: SameRow(cfg, a, b, p, slot, s);
      assert forall s: nat :: SameRow(cfg, c, d, p, slot, s) && SameRow(cfg, d, e, p, slot, s);
      RowsKept(cfg, a, b, p, slot);
      RowsKept(cfg, c, d, p, slot);
      RowsKept(cfg, d, e, p, slot);
      AnchorsKept(cfg, d, e, p, slot);
      HeaderKept(cfg, b, c, p, slot);
      HeaderKept(cfg, c, d, p, slot);
      forall x: Cell | FrameCell(cfg, x) && (x.p != p || x.slot != slot)
        ensures SameCell(cfg, a, e, x)
      {
        assert SameCell(cfg, a, b, x) && SameCell(cfg, b, c, x) && SameCell(cfg, c, d, x) && SameCell(cfg, d, e, x);
      }
    }

    /** Writes a whole frame: header fields, features, symbol anchors, and the header anchor last. Too short a
        feature list is not copied, yet all anchors are stored. */
    method CommitPhaseFrame(p: nat, anchor: int, feats: seq<Float>) returns (ok: bool)
      requires Valid()
      modifies words
      ensures Valid() && (ok <==> p < |cfg.symbols|)
      ensures ok ==>
                var sh := ShapeOf(cfg, cadence, p);
                var k := SlotOf(sh, anchor);
                Ring(cfg, words[..], p) ==
                  Ring(cfg, old(words[..]), p)[k := Bulk(sh, View(cfg, old(words[..]), p, k), anchor, feats)]
      ensures forall q :: 0 <= q < |cfg.symbols| && q != p ==> Ring(cfg, words[..], q) == Ring(cfg, old(words[..]), q)
    {
      hide Load, SlotOf, View, Bulk, OnlyFrame;
      if p >= |cfg.symbols| {
        return false;
      }
      var slot := SlotOf(ShapeOf(cfg, cadence, p), anchor);
      ghost var a := words[..];
      StoreFrame(p, slot, anchor, feats);
      OneSlotChanged(cfg, a, words[..], p, slot);
      ok := true;
    }

    method StoreSymbol(p: nat, slot: nat, s: nat, anchor: int, row: seq<Float>)
      requires Valid() && HasSlot(cfg, p, slot) && s < cfg.symbols[p]
      modifies words
      ensures Valid()
              && View(cfg, words[..], p, slot) ==
                 CommitSymbol(ShapeOf(cfg, cadence, p), View(cfg, old(words[..]), p, slot), s, anchor, row)
      ensures OnlyFrame(cfg, old(words[..]), words[..], p, slot)
    {
      hide Load, Overwrite, HeaderAt, Sized;
      ghost var a := words[..];
      CheckHeader(p, slot, anchor);
      ghost var b := words[..];
      StoreRow(p, slot, s, row);
      ghost var c := words[..];
      StoreWord(SymbolAnchor(p, slot, s), IntWord(anchor));
      ghost var d := words[..];
      SymbolStored(cfg, a, b, c, d, p, slot, s);
      forall x: Cell | FrameCell(cfg, x) && (x.p != p || x.slot != slot)
        ensures SameCell(cfg, a, d, x)
      {
        assert SameCell(cfg, a, b, x) && SameCell(cfg, b, c, x) && SameCell(cfg, c, d, x);
      }
      assert RowsAt(cfg, d, p, slot) == RowsAt(cfg, a, p, slot)[s := Overwrite(RowAt(cfg, a, p, slot, s), row)];
      assert AnchorsAt(cfg, d, p, slot) == AnchorsAt(cfg, a, p, slot)[s := anchor];
    }

    /** Writes the header anew if it holds another anchor. */
    method CheckHeader(p: nat, slot: nat, anchor: int)
      requires Valid() && HasSlot(cfg, p, slot)
      modifies words
      ensures Valid()
      ensures var h := HeaderAt(cfg, old(words[..]), p, slot);
              HeaderAt(cfg, words[..], p, slot) == if h.anchor != anchor then
                FreshHeader(ShapeOf(cfg, cadence, p), anchor) else h
      ensures forall c: Cell :: !(c.HeaderWord? && c.p == p && c.slot == slot) ==>
              SameCell(cfg, old(words[..]), words[..], c)
    {
      var held := ReadWord(HeaderWord(p, slot, 0));
      hide Load, Sized;
      if AsInt(held) != anchor {
        StoreHeaderAnchor(p, slot, anchor);
        StoreHeaderBody(p, slot, anchor);
      }
    }

    /** Writes one row and stamps it; the header is written first if the slot holds another anchor. */
    method CommitSymbolMetrics(p: nat, s: nat, anchor: int, row: seq<Float>) returns (ok: bool)
      requires Valid() && (p < |cfg.symbols| ==> s < cfg.symbols[p])
      modifies words
      ensures Valid() && (ok <==> p < |cfg.symbols|)
      ensures ok ==>
                var sh := ShapeOf(cfg, cadence, p);
                var k := SlotOf(sh, anchor);
                Ring(cfg, words[..], p) ==
                  Ring(cfg, old(words[..]), p)[k := CommitSymbol(sh, View(cfg, old(words[..]), p, k), s, anchor, row)]
      ensures forall q :: 0 <= q < |cfg.symbols| && q != p ==> Ring(cfg, words[..], q) == Ring(cfg, old(words[..]), q)
    {
      hide Load, SlotOf, CommitSymbol, OnlyFrame;
      if p >= |cfg.symbols| {
        return false;
      }
      var slot := SlotOf(ShapeOf(cfg, cadence, p), anchor);
      ghost var a := words[..];
      StoreSymbol(p, slot, s, anchor, row);
      OneSlotChanged(cfg, a, words[..], p, slot);
      ok := true;
    }

    /** Marks an anchor as the last one written. */
    method CommitFrameFinalize(anchor: int)
      modifies this`lastWritten
      ensures lastWritten == anchor
    {
      lastWritten := anchor;
    }

    // ---------- History ----------

    method ReadRow(p: nat, slot: nat, s: nat) returns (row: seq<Float>)
      requires Valid() && HasSlot(cfg, p, slot) && s < cfg.symbols[p]
      ensures row == RowAt(cfg, words[..], p, slot, s)
    {
      hide Load, Sized;
      row := [];
      for k := 0 to cfg.features
        invariant |row| == k && forall j :: 0 <= j < k ==> row[j] == RowAt(cfg, words[..], p, slot, s)[j]
      {
        var w := ReadWord(Feature(p, slot, s, k));
        row := row + [AsFloat(w)];
      }
    }

    method ReadBar(p: nat, slot: nat, s: nat, anchor: int) returns (found: seq<Bar>)
      requires Valid() && HasSlot(cfg, p, slot) && s < cfg.symbols[p]
               && slot == SlotOf(ShapeOf(cfg, cadence, p), anchor)
      ensures found == BarAt(ShapeOf(cfg, cadence, p), Ring(cfg, words[..], p), s, anchor)
    {
      hide Load, SlotOf, Sized;
      var h := ReadWord(HeaderWord(p, slot, 0));
      if AsInt(h) != anchor {
        return [];
      }
      var a := ReadWord(SymbolAnchor(p, slot, s));
      if AsInt(a) != anchor {
        return [];
      }
      var row := ReadRow(p, slot, s);
      found := [Bar(anchor, row)];
    }

    /** Up to `n` rows of one symbol, oldest first, found by walking back from the newest anchor of the phase. */
    method ReadHistoryBars(p: nat, s: nat, n: int) returns (bars: seq<Bar>)
      requires Valid() && (p < |cfg.symbols| ==> s < cfg.symbols[p])
      ensures bars == if p >= |cfg.symbols| || n <= 0 || lastWritten == 0 then []
                      else Bars(ShapeOf(cfg, cadence, p), Ring(cfg, words[..], p), s,
                                LatestAnchor(ShapeOf(cfg, cadence, p), offsets[p], lastWritten), n)
    {
      hide Load, SlotOf, View, BarAt;
      bars := [];
      if p >= |cfg.symbols| || n <= 0 || lastWritten == 0 {
        return;
      }
      var sh := ShapeOf(cfg, cadence, p);
      var latest := LatestAnchor(sh, offsets[p], lastWritten);
      ghost var ring := Ring(cfg, words[..], p);
      var left := n;
      while left > 0
        invariant 0 <= left <= n
        invariant bars + Bars(sh, ring, s, latest, left) == Bars(sh, ring, s, latest, n)
      {
        ghost var before := bars;
        ghost var rest := Bars(sh, ring, s, latest, left - 1);
        var anchor := latest - (left - 1) * cadence;
        var found := ReadBar(p, SlotOf(sh, anchor), s, anchor);
        bars := bars + found;
        assert before + (found + rest) == bars + rest;
        left := left - 1;
      }
      assert bars + [] == bars;
    }

    // ---------- Runs of commits ----------

    /** The ring of phase `p` is what consecutive complete commits from anchor `first` on leave. */
    ghost predicate HasCommitted(p: nat, first: nat, commits: seq<seq<Float>>)
      reads words
    {
      && Valid() && p < |cfg.symbols|
      && AllComplete(ShapeOf(cfg, cadence, p), commits)
      && Ring(cfg, words[..], p) == Committed(ShapeOf(cfg, cadence, p), first, commits)
    }

    /** Commits the next frame of a phase and marks it as the last one written; other phases keep their runs. */
    method CommitNext(p: nat, anchor: int, feats: seq<Float>, ghost first: nat, ghost commits: seq<seq<Float>>)
      requires HasCommitted(p, first, commits) && anchor == Anchor(ShapeOf(cfg, cadence, p), first, |commits|)
      requires |feats| >= cfg.symbols[p] * cfg.features
      modifies words, this`lastWritten
      ensures HasCommitted(p, first, commits + [feats]) && lastWritten == anchor
      ensures forall q :: 0 <= q < |cfg.symbols| && q != p ==> Ring(cfg, words[..], q) == Ring(cfg, old(words[..]), q)
    {
      hide Load, SlotOf, View, Bulk, Sized;
      ghost var sh := ShapeOf(cfg, cadence, p);
      assert (commits + [feats])[..|commits|] == commits;
      var ok := CommitPhaseFrame(p, anchor, feats);
      CommitFrameFinalize(anchor);
    }

    /** After a run of commits, whatever other phases have committed in between, as long as the last anchor written
        is less than a cadence past the newest of this phase, the history of a symbol is exactly its last rows. */
    method ReadCommitted(p: nat, s: nat, n: int, ghost first: nat, ghost commits: seq<seq<Float>>)
      returns (bars: seq<Bar>)
      requires HasCommitted(p, first, commits) && commits != [] && s < cfg.symbols[p] && n > 0
      requires first > 0 && offsets[p] < cadence && first % cadence == offsets[p]
      requires var newest := Newest(ShapeOf(cfg, cadence, p), first, commits);
               newest <= lastWritten < newest + cadence
      ensures var sh := ShapeOf(cfg, cadence, p);
              bars == PhantomRows(sh, first, commits, s, n)
                      + LastRows(sh, first, commits, s, Least(n, Least(sh.slots, |commits|)))
    {
      hide Load, SlotOf, View, BarAt, Bars, Committed, PhantomRows, LastRows;
      ghost var sh := ShapeOf(cfg, cadence, p);
      bars := ReadHistoryBars(p, s, n);
      NewestOnLattice(sh, first, commits, offsets[p]);
      LatestIsNewest(sh, offsets[p], Newest(sh, first, commits), lastWritten);
      HistoryIsExact(sh, first, commits, s, n);
    }

    /** From a new segment: a whole run of commits of one phase, and then its history. */
    method CommitAllThenRead(p: nat, first: nat, commits: seq<seq<Float>>, s: nat, n: int) returns (bars: seq<Bar>)
      requires HasCommitted(p, first, []) && commits != [] && s < cfg.symbols[p] && n > 0
      requires first > 0 && offsets[p] < cadence && first % cadence == offsets[p]
      requires AllComplete(ShapeOf(cfg, cadence, p), commits)
      modifies words, this`lastWritten
      ensures HasCommitted(p, first, commits)
      ensures var sh := ShapeOf(cfg, cadence, p);
              bars == PhantomRows(sh, first, commits, s, n)
                      + LastRows(sh, first, commits, s, Least(n, Least(sh.slots, |commits|)))
    {
      hide Committed, PhantomRows, LastRows, Sized;
      ghost var sh := ShapeOf(cfg, cadence, p);
      assert p < |cfg.symbols| && Valid();
      hide HasCommitted;
      var b := 0;
      assert commits[..0] == [];
      while b < |commits|
        invariant 0 <= b <= |commits| && HasCommitted(p, first, commits[..b])
        invariant b > 0 ==> lastWritten == Anchor(sh, first, b - 1)
      {
        assert sh.symbols == cfg.symbols[p] && |commits[b]| >= sh.symbols * sh.features;
        CommitNext(p, first + b * cadence, commits[b], first, commits[..b]);
        assert commits[..b] + [commits[b]] == commits[..b + 1];
        b := b + 1;
      }
      assert commits[..b] == commits;
      bars := ReadCommitted(p, s, n, first, commits);
    }
  }

  lemma NewestOnLattice(sh: Shape, first: nat, commits: seq<seq<Float>>, offset: nat)
    requires Sane(sh) && commits != [] && first % sh.cadence == offset
    ensures Newest(sh, first, commits) % sh.cadence == offset
  {
    Modular.AddMultiple(first, |commits| - 1, sh.cadence);
  }

  /** One row and one stamp stored, after the header. */
  lemma SymbolStored(cfg: Config, a: Memory, b: Memory, c: Memory, d: Memory, p: nat, slot: nat, s: nat)
    requires HasSlot(cfg, p, slot) && s < cfg.symbols[p]
    requires forall x: Cell :: !(x.HeaderWord? && x.p == p && x.slot == slot) ==> SameCell(cfg, a, b, x)
    requires forall x: Cell :: !(x.Feature? && x.p == p && x.slot == slot && x.s == s) ==> SameCell(cfg, b, c, x)
    requires forall x: Cell :: x != SymbolAnchor(p, slot, s) ==> SameCell(cfg, c, d, x)
    ensures HeaderAt(cfg, d, p, slot) == HeaderAt(cfg, b, p, slot)
    ensures RowAt(cfg, b, p, slot, s) == RowAt(cfg, a, p, slot, s)
    ensures RowAt(cfg, d, p, slot, s) == RowAt(cfg, c, p, slot, s)
    ensures forall t :: 0 <= t < cfg.symbols[p] && t != s ==> RowAt(cfg, d, p, slot, t) == RowAt(cfg, a, p, slot, t)
    ensures forall t :: 0 <= t < cfg.symbols[p] && t != s ==>
            AnchorsAt(cfg, d, p, slot)[t] == AnchorsAt(cfg, a, p, slot)[t]
  {
    hide Load;
    HeaderKept(cfg, b, c, p, slot);
    HeaderKept(cfg, c, d, p, slot);
    forall t: nat
      ensures SameRow(cfg, a, b, p, slot, t) && SameRow(cfg, c, d, p, slot, t)
              && (t != s ==> SameRow(cfg, b, c, p, slot, t))
    {
    }
    RowKept(cfg, a, b, p, slot, s);
    RowKept(cfg, c, d, p, slot, s);
    forall t | 0 <= t < cfg.symbols[p] && t != s
      ensures RowAt(cfg, d, p, slot, t) == RowAt(cfg, a, p, slot, t)
      ensures AnchorsAt(cfg, d, p, slot)[t] == AnchorsAt(cfg, a, p, slot)[t]
    {
      RowKept(cfg, a, b, p, slot, t);
      RowKept(cfg, b, c, p, slot, t);
      RowKept(cfg, c, d, p, slot, t);
      var x := SymbolAnchor(p, slot, t);
      assert SameCell(cfg, a, b, x) && SameCell(cfg, b, c, x) && SameCell(cfg, c, d, x);
    }
  }
}
