/** Where everything lies in a shared-memory segment: the fixed regions and, per phase, a ring of frames. */
module Layout {
  import opened Modular
  import opened Results
  import Bits

  const DIRECTORY := 0x400
  const SNAPSHOTS := 0x1000
  const CONFIG_AREA := 0x5000
  const MICRO_SNAPSHOTS := 0xC000
  const RING_250MS := 0x10000
  const DATA_AREA := 0xA0000

  const HEADER_SIZE := 1024
  const DIRECTORY_ENTRY := 16
  const SNAPSHOT_SIZE := 128
  const MAX_CONFIG := 0x7000
  const RING_250MS_SIZE := 4160
  const FRAME_HEADER := 64
  const WORD := 8

  const MAX_PHASES := 8
  const MAX_SNAPSHOTS := 128
  const UINT32 := 0x1_0000_0000

  /** `symbols[p]` is the number of symbols of phase `p`, `unique` the number of distinct ones. */
  datatype Config = Config(frames: nat, features: nat, symbols: seq<nat>, unique: nat)

  /** The tests of `CreateProducer`; the first says that `frames` is a power of two (`Bits.PowerTest`). */
  predicate Accepted(cfg: Config) {
    && cfg.frames > 0 && Bits.And(cfg.frames, cfg.frames - 1) == 0
    && 1 <= |cfg.symbols| <= MAX_PHASES
    && cfg.unique <= MAX_SNAPSHOTS
  }

  // ---------- Frames ----------

  /** Bytes of one frame: header, symbol anchors, features. */
  function FrameBytes(n: nat, f: nat): nat {
    FRAME_HEADER + n * WORD + n * f * WORD
  }

  /** The same in the code's 32-bit arithmetic. */
  function FrameSize(n: nat, f: nat): nat {
    FrameBytes(n, f) % UINT32
  }

  /** The frame size rounded up to a cache line. */
  function Align(size: nat): nat {
    (size + 63) / 64 * 64
  }

  function Stride(cfg: Config, p: nat): nat {
    if p < |cfg.symbols| then Align(FrameSize(cfg.symbols[p], cfg.features)) else 0
  }

  /** Where the ring of phase `p` starts; for `p` one past the last phase, where the segment ends. */
  function Offset(cfg: Config, p: nat): nat {
    if p == 0 then DATA_AREA else Offset(cfg, p - 1) + cfg.frames * Stride(cfg, p - 1)
  }

  /** No frame size wraps around in 32 bits. */
  predicate InRange(cfg: Config) {
    forall p :: 0 <= p < |cfg.symbols| ==> Fits(cfg, p)
  }

  predicate Fits(cfg: Config, p: nat)
    requires p < |cfg.symbols|
  {
    FrameBytes(cfg.symbols[p], cfg.features) < UINT32
  }

  /** A frame fits into its stride exactly if its size does not wrap around. */
  lemma FrameFitsStride(cfg: Config, p: nat)
    requires p < |cfg.symbols|
    ensures FrameBytes(cfg.symbols[p], cfg.features) <= Stride(cfg, p) <==> Fits(cfg, p)
  {
    var b := FrameBytes(cfg.symbols[p], cfg.features);
    hide FrameBytes;
    if b < UINT32 { DivModUnique(b, UINT32, 0, b); }
  }

  datatype Geometry = Geometry(offsets: seq<nat>, strides: seq<nat>, total: nat)
  datatype ConfigError = FrameCount | PhaseCount | SymbolCount

  /** The geometry loop of `CreateProducer`; the first test that fails names the error. */
  method CreateGeometry(cfg: Config) returns (r: Result<Geometry, ConfigError>)
    ensures r.Ok? <==> Accepted(cfg)
    ensures r.Failed? ==>
              var frames := cfg.frames > 0 && Bits.And(cfg.frames, cfg.frames - 1) == 0;
              var phases := 1 <= |cfg.symbols| <= MAX_PHASES;
              r.error == if !frames then FrameCount else if !phases then PhaseCount else SymbolCount
    ensures r.Ok? ==>
              && |r.value.offsets| == |r.value.strides| == |cfg.symbols|
              && r.value.total == Offset(cfg, |cfg.symbols|)
              && forall p :: 0 <= p < |cfg.symbols| ==>
                   r.value.offsets[p] == Offset(cfg, p) && r.value.strides[p] == Stride(cfg, p)
  {
    if cfg.frames == 0 || Bits.And(cfg.frames, cfg.frames - 1) != 0 {
      return Failed(FrameCount);
    }
    if |cfg.symbols| == 0 || |cfg.symbols| > MAX_PHASES {
      return Failed(PhaseCount);
    }
    if cfg.unique > MAX_SNAPSHOTS {
      return Failed(SymbolCount);
    }
    var offsets: seq<nat>, strides: seq<nat> := [], [];
    var current := DATA_AREA;
    var p := 0;
    while p < |cfg.symbols|
      invariant p <= |cfg.symbols| && |offsets| == |strides| == p && current == Offset(cfg, p)
      invariant forall q :: 0 <= q < p ==> offsets[q] == Offset(cfg, q) && strides[q] == Stride(cfg, q)
    {
      var stride := Align(FrameSize(cfg.symbols[p], cfg.features));
      offsets, strides := offsets + [current], strides + [stride];
      current := current + cfg.frames * stride;
      p := p + 1;
    }
    r := Ok(Geometry(offsets, strides, current));
  }

  // ---------- Cells ----------

  /** Everything that is addressed on its own. `HeaderWord` is one of the eight words of a frame header. */
  datatype Cell =
    | GlobalHeader
    | DirectoryEntry(i: nat)
    | Snapshot(i: nat)
    | ConfigArea
    | MicroSnapshot(i: nat)
    | Ring250(i: nat)
    | HeaderWord(p: nat, slot: nat, w: nat)
    | SymbolAnchor(p: nat, slot: nat, s: nat)
    | Feature(p: nat, slot: nat, s: nat, k: nat)

  predicate Fixed(c: Cell) {
    !c.HeaderWord? && !c.SymbolAnchor? && !c.Feature?
  }

  predicate Exists(cfg: Config, c: Cell) {
    match c
    case GlobalHeader => true
    case ConfigArea => true
    case DirectoryEntry(i) => i < cfg.unique
    case Snapshot(i) => i < cfg.unique
    case MicroSnapshot(i) => i < cfg.unique
    case Ring250(i) => i < cfg.unique
    case HeaderWord(p, slot, w) => p < |cfg.symbols| && slot < cfg.frames && w < 8
    case SymbolAnchor(p, slot, s) => p < |cfg.symbols| && slot < cfg.frames && s < cfg.symbols[p]
    case Feature(p, slot, s, k) => p < |cfg.symbols| && slot < cfg.frames && s < cfg.symbols[p] && k < cfg.features
  }

  function Symbols(cfg: Config, p: nat): nat {
    if p < |cfg.symbols| then cfg.symbols[p] else 0
  }

  /** Offset of a cell inside its frame. */
  function Inner(cfg: Config, c: Cell): nat {
    match c
    case HeaderWord(p, slot, w) => w * WORD
    case SymbolAnchor(p, slot, s) => FRAME_HEADER + s * WORD
    case Feature(p, slot, s, k) => FRAME_HEADER + Symbols(cfg, p) * WORD + (s * cfg.features + k) * WORD
    case _ => 0
  }

  function FrameStart(cfg: Config, p: nat, slot: nat): nat {
    Offset(cfg, p) + slot * Stride(cfg, p)
  }

  function Start(cfg: Config, c: Cell): nat {
    match c
    case GlobalHeader => 0
    case DirectoryEntry(i) => DIRECTORY + i * DIRECTORY_ENTRY
    case Snapshot(i) => SNAPSHOTS + i * SNAPSHOT_SIZE
    case ConfigArea => CONFIG_AREA
    case MicroSnapshot(i) => MICRO_SNAPSHOTS + i * SNAPSHOT_SIZE
    case Ring250(i) => RING_250MS + i * RING_250MS_SIZE
    case _ => FrameStart(cfg, c.p, c.slot) + Inner(cfg, c)
  }

  function Size(c: Cell): nat {
    match c
    case GlobalHeader => HEADER_SIZE
    case DirectoryEntry(_) => DIRECTORY_ENTRY
    case Snapshot(_) => SNAPSHOT_SIZE
    case ConfigArea => MAX_CONFIG
    case MicroSnapshot(_) => SNAPSHOT_SIZE
    case Ring250(_) => RING_250MS_SIZE
    case _ => WORD
  }

  function End(cfg: Config, c: Cell): nat {
    Start(cfg, c) + Size(c)
  }

  // ---------- Nothing overlaps ----------

  lemma {:induction false} OffsetsGrow(cfg: Config, p: nat, q: nat)
    requires p < q
    ensures Offset(cfg, p) + cfg.frames * Stride(cfg, p) <= Offset(cfg, q)
    decreases q - p
  {
    hide Stride;
    if p + 1 < q {
      OffsetsGrow(cfg, p, q - 1);
      MulMonotone(0, cfg.frames, Stride(cfg, q - 1));
    }
  }

  /** All rings lie in the data area. */
  lemma {:induction false} OffsetsInData(cfg: Config, p: nat)
    ensures Offset(cfg, p) >= DATA_AREA
  {
    hide Stride;
    if p > 0 {
      OffsetsInData(cfg, p - 1);
      MulMonotone(0, cfg.frames, Stride(cfg, p - 1));
    }
  }

  lemma FramesGrow(cfg: Config, p: nat, i: nat, j: nat)
    requires i < j
    ensures FrameStart(cfg, p, i) + Stride(cfg, p) <= FrameStart(cfg, p, j)
  {
    hide Stride, Offset;
    MulMonotone(i + 1, j, Stride(cfg, p));
    assert (i + 1) * Stride(cfg, p) == i * Stride(cfg, p) + Stride(cfg, p);
  }

  lemma StrideAligned(cfg: Config, p: nat)
    ensures Stride(cfg, p) % 64 == 0
  {
    hide FrameSize;
  }

  lemma SumAligned(a: nat, b: nat)
    requires a % 64 == 0 && b % 64 == 0
    ensures (a + b) % 64 == 0
  {
  }

  lemma {:induction false} OffsetAligned(cfg: Config, p: nat)
    ensures Offset(cfg, p) % 64 == 0
  {
    if p > 0 {
      OffsetAligned(cfg, p - 1);
      StrideAligned(cfg, p - 1);
      AlignedMultiple(cfg.frames, Stride(cfg, p - 1));
      hide Stride;
      SumAligned(Offset(cfg, p - 1), cfg.frames * Stride(cfg, p - 1));
    }
  }

  lemma AlignedMultiple(k: nat, stride: nat)
    requires stride % 64 == 0
    ensures k * stride % 64 == 0
  {
    assert k * stride == k * (stride / 64) * 64;
    MultipleModulo(k * (stride / 64), 64);
  }

  /** Every frame starts on a cache line. */
  lemma FramesAligned(cfg: Config, p: nat, slot: nat)
    ensures FrameStart(cfg, p, slot) % 64 == 0
  {
    OffsetAligned(cfg, p);
    StrideAligned(cfg, p);
    hide Stride, Offset;
    AlignedMultiple(slot, Stride(cfg, p));
    SumAligned(Offset(cfg, p), slot * Stride(cfg, p));
  }

  /** The number of a feature in its frame. */
  lemma FeatureNumber(s: nat, k: nat, t: nat, j: nat, f: nat)
    requires s < t && k < f
    ensures s * f + k + 1 <= t * f + j
  {
    MulMonotone(s + 1, t, f);
    assert (s + 1) * f == s * f + f;
  }

  /** A cell lies inside its frame, behind nothing it could overlap. */
  lemma InnerBounds(cfg: Config, c: Cell)
    requires Exists(cfg, c) && !Fixed(c)
    ensures Inner(cfg, c) + WORD <= FrameBytes(cfg.symbols[c.p], cfg.features)
    ensures Inner(cfg, c) % WORD == 0
    ensures c.HeaderWord? ==> Inner(cfg, c) + WORD <= FRAME_HEADER
    ensures c.SymbolAnchor? ==>
            FRAME_HEADER <= Inner(cfg, c) && Inner(cfg, c) + WORD <= FRAME_HEADER + cfg.symbols[c.p] * WORD
    ensures c.Feature? ==> FRAME_HEADER + cfg.symbols[c.p] * WORD <= Inner(cfg, c)
  {
    var n := cfg.symbols[c.p];
    MulMonotone(0, n, cfg.features);
    match c
    case HeaderWord(p, slot, w) =>
    case SymbolAnchor(p, slot, s) =>
    case Feature(p, slot, s, k) =>
      FeatureNumber(s, k, n, 0, cfg.features);
    case _ =>
  }

  /** Different cells of one frame lie apart. */
  lemma InnerApart(cfg: Config, a: Cell, b: Cell)
    requires Exists(cfg, a) && Exists(cfg, b) && !Fixed(a) && !Fixed(b) && a != b && a.p == b.p && a.slot == b.slot
    ensures Inner(cfg, a) + WORD <= Inner(cfg, b) || Inner(cfg, b) + WORD <= Inner(cfg, a)
  {
    InnerBounds(cfg, a);
    InnerBounds(cfg, b);
    if a.Feature? && b.Feature? {
      if a.s < b.s { FeatureNumber(a.s, a.k, b.s, b.k, cfg.features); }
      if b.s < a.s { FeatureNumber(b.s, b.k, a.s, a.k, cfg.features); }
    }
  }

  predicate Apart(cfg: Config, a: Cell, b: Cell) {
    End(cfg, a) <= Start(cfg, b) || End(cfg, b) <= Start(cfg, a)
  }

  /** Frame cells lie in the data area, inside the segment. */
  lemma FrameCellBounds(cfg: Config, c: Cell)
    requires InRange(cfg) && Exists(cfg, c) && !Fixed(c)
    ensures FrameStart(cfg, c.p, c.slot) <= Start(cfg, c)
    ensures End(cfg, c) <= FrameStart(cfg, c.p, c.slot) + Stride(cfg, c.p) <= Offset(cfg, c.p)
            + cfg.frames * Stride(cfg, c.p)
    ensures DATA_AREA <= Start(cfg, c) && End(cfg, c) <= Offset(cfg, |cfg.symbols|)
  {
    InnerBounds(cfg, c);
    assert Fits(cfg, c.p);
    FrameFitsStride(cfg, c.p);
    hide Stride, FrameBytes, Inner;
    FramesGrow(cfg, c.p, c.slot, cfg.frames);
    OffsetsInData(cfg, c.p);
    MulMonotone(0, c.slot, Stride(cfg, c.p));
    OffsetsGrow(cfg, c.p, |cfg.symbols|);
  }

  lemma FixedBounds(cfg: Config, c: Cell)
    requires Accepted(cfg) && Exists(cfg, c) && Fixed(c)
    ensures End(cfg, c) <= DATA_AREA
    ensures c.DirectoryEntry? ==> End(cfg, c) <= SNAPSHOTS
    ensures c.Snapshot? ==> End(cfg, c) <= CONFIG_AREA
    ensures c.MicroSnapshot? ==> End(cfg, c) <= RING_250MS
  {
  }

  /** Addressing. In every segment that `CreateProducer` accepts, with frame sizes in range, distinct cells
      occupy disjoint bytes: global header, directory, snapshots, configuration, 250 ms rings, and the header
      words, symbol anchors and features of every frame of every phase. */
  lemma CellsAreDisjoint(cfg: Config, a: Cell, b: Cell)
    requires Accepted(cfg) && InRange(cfg) && Exists(cfg, a) && Exists(cfg, b) && a != b
    ensures Apart(cfg, a, b)
  {
    if Fixed(a) && Fixed(b) {
      FixedBounds(cfg, a);
      FixedBounds(cfg, b);
    } else if Fixed(a) {
      FixedBounds(cfg, a);
      FrameCellBounds(cfg, b);
    } else if Fixed(b) {
      FixedBounds(cfg, b);
      FrameCellBounds(cfg, a);
    } else {
      FrameCellsApart(cfg, a, b);
    }
  }

  lemma PhasesApart(cfg: Config, a: Cell, b: Cell)
    requires InRange(cfg) && Exists(cfg, a) && Exists(cfg, b) && !Fixed(a) && !Fixed(b) && a.p < b.p
    ensures End(cfg, a) <= Start(cfg, b)
  {
    FrameCellBounds(cfg, a);
    FrameCellBounds(cfg, b);
    hide Stride, Offset, FrameStart, Exists, Start, End;
    OffsetsGrow(cfg, a.p, b.p);
    PhaseStartsFrames(cfg, b.p, b.slot);
  }

  lemma SlotsApart(cfg: Config, a: Cell, b: Cell)
    requires InRange(cfg) && Exists(cfg, a) && Exists(cfg, b) && !Fixed(a) && !Fixed(b) && a.p == b.p && a.slot < b.slot
    ensures End(cfg, a) <= Start(cfg, b)
  {
    FrameCellBounds(cfg, a);
    FrameCellBounds(cfg, b);
    hide Stride, Offset, FrameStart, Exists, Start, End;
    FramesGrow(cfg, a.p, a.slot, b.slot);
  }

  lemma FrameCellsApart(cfg: Config, a: Cell, b: Cell)
    requires InRange(cfg) && Exists(cfg, a) && Exists(cfg, b) && !Fixed(a) && !Fixed(b) && a != b
    ensures Apart(cfg, a, b)
  {
    hide InRange, Exists, Offset, Stride;
    if a.p < b.p {
      PhasesApart(cfg, a, b);
    } else if b.p < a.p {
      PhasesApart(cfg, b, a);
    } else if a.slot < b.slot {
      SlotsApart(cfg, a, b);
    } else if b.slot < a.slot {
      SlotsApart(cfg, b, a);
    } else {
      InnerApart(cfg, a, b);
    }
  }

  lemma PhaseStartsFrames(cfg: Config, p: nat, slot: nat)
    ensures Offset(cfg, p) <= FrameStart(cfg, p, slot)
  {
    MulMonotone(0, slot, Stride(cfg, p));
  }

  /** Every cell lies inside the segment. */
  lemma CellsInSegment(cfg: Config, c: Cell)
    requires Accepted(cfg) && InRange(cfg) && Exists(cfg, c)
    ensures End(cfg, c) <= Offset(cfg, |cfg.symbols|)
  {
    OffsetsInData(cfg, |cfg.symbols|);
    if Fixed(c) { FixedBounds(cfg, c); } else { FrameCellBounds(cfg, c); }
  }

  /** The cell that starts `inner` bytes into a frame. */
  function CellAt(cfg: Config, p: nat, slot: nat, inner: nat): Cell {
    if inner < FRAME_HEADER then HeaderWord(p, slot, inner / WORD)
    else
      var w := (inner - FRAME_HEADER) / WORD;
      if w < Symbols(cfg, p) || cfg.features == 0 then SymbolAnchor(p, slot, w)
      else Feature(p, slot, (w - Symbols(cfg, p)) / cfg.features, (w - Symbols(cfg, p)) % cfg.features)
  }

  lemma NumberInRange(w: nat, n: nat, f: nat)
    requires f > 0 && w < n * f
    ensures w / f < n && w == w / f * f + w % f
  {
    if w / f >= n { MulMonotone(n, w / f, f); }
  }

  lemma CellAtIsThere(cfg: Config, p: nat, slot: nat, inner: nat)
    requires p < |cfg.symbols| && slot < cfg.frames && inner % WORD == 0
    requires inner + WORD <= FrameBytes(cfg.symbols[p], cfg.features)
    ensures var c := CellAt(cfg, p, slot, inner);
            Exists(cfg, c) && !Fixed(c) && c.p == p && c.slot == slot && Inner(cfg, c) == inner
  {
    var n, f := cfg.symbols[p], cfg.features;
    if inner >= FRAME_HEADER {
      var w := (inner - FRAME_HEADER) / WORD;
      assert w < n + n * f;
      if f > 0 && w >= n { NumberInRange(w - n, n, f); }
    }
  }

  /** If the size of a frame wraps around, one of its words starts a stride into it. */
  lemma StrideShort(cfg: Config, p: nat)
    requires p < |cfg.symbols| && !Fits(cfg, p)
    ensures Stride(cfg, p) % WORD == 0 && Stride(cfg, p) + WORD <= FrameBytes(cfg.symbols[p], cfg.features)
  {
    hide Stride, FrameBytes, Fits;
    FrameFitsStride(cfg, p);
    StrideAligned(cfg, p);
    BytesAreWords(cfg.symbols[p], cfg.features);
    WordsBelow(Stride(cfg, p), FrameBytes(cfg.symbols[p], cfg.features));
  }

  lemma BytesAreWords(n: nat, f: nat)
    ensures FrameBytes(n, f) % WORD == 0
  {
    assert FrameBytes(n, f) == (8 + n + n * f) * WORD;
    MultipleModulo(8 + n + n * f, WORD);
  }

  lemma WordsBelow(a: nat, b: nat)
    requires a % 64 == 0 && b % WORD == 0 && a < b
    ensures a % WORD == 0 && a + WORD <= b
  {
  }

  lemma FirstWord(cfg: Config, p: nat, slot: nat)
    requires p < |cfg.symbols| && slot < cfg.frames
    ensures Exists(cfg, HeaderWord(p, slot, 0)) && Inner(cfg, HeaderWord(p, slot, 0)) == 0
  {
  }

  /** A frame size that wraps around makes the first header word of the second frame overlap a cell of the first. */
  lemma WrappedFramesOverlap(cfg: Config, p: nat)
    requires p < |cfg.symbols| && !Fits(cfg, p) && cfg.frames >= 2
    ensures var a, b := CellAt(cfg, p, 0, Stride(cfg, p)), HeaderWord(p, 1, 0);
            Exists(cfg, a) && Exists(cfg, b) && a != b && !Apart(cfg, a, b)
  {
    hide Stride, FrameBytes, Offset, CellAt, Inner, Fits, Exists;
    StrideShort(cfg, p);
    CellAtIsThere(cfg, p, 0, Stride(cfg, p));
    FirstWord(cfg, p, 1);
    assert FrameStart(cfg, p, 1) == FrameStart(cfg, p, 0) + Stride(cfg, p);
  }

  ghost predicate AllApart(cfg: Config) {
    forall a, b :: Exists(cfg, a) && Exists(cfg, b) && a != b ==> Apart(cfg, a, b)
  }

  /** With at least two frames, all cells of an accepted segment lie apart if and only if no frame size wraps around. */
  lemma ApartExactlyInRange(cfg: Config)
    requires Accepted(cfg) && cfg.frames >= 2
    ensures AllApart(cfg) <==> InRange(cfg)
  {
    hide Exists, Apart, Accepted, Fits;
    if InRange(cfg) {
      forall a, b | Exists(cfg, a) && Exists(cfg, b) && a != b
        ensures Apart(cfg, a, b)
      {
        CellsAreDisjoint(cfg, a, b);
      }
    } else {
      var p :| 0 <= p < |cfg.symbols| && !Fits(cfg, p);
      WrappedFramesOverlap(cfg, p);
    }
  }

  ghost predicate AllInside(cfg: Config) {
    forall c :: Exists(cfg, c) ==> Inside(cfg, c)
  }

  predicate Inside(cfg: Config, c: Cell) {
    End(cfg, c) <= Offset(cfg, |cfg.symbols|)
  }

  /** With a single frame per phase, a size that wraps around makes a cell overlap the next phase, or leave the
      segment if there is none. */
  lemma WrappedFrameLeaves(cfg: Config, p: nat)
    requires p < |cfg.symbols| && !Fits(cfg, p) && cfg.frames == 1
    ensures var a := CellAt(cfg, p, 0, Stride(cfg, p));
            && Exists(cfg, a)
            && if p + 1 < |cfg.symbols| then
                 var b := HeaderWord(p + 1, 0, 0); Exists(cfg, b) && a != b && !Apart(cfg, a, b)
               else !Inside(cfg, a)
  {
    hide Stride, FrameBytes, CellAt, Inner, Fits, Exists;
    StrideShort(cfg, p);
    CellAtIsThere(cfg, p, 0, Stride(cfg, p));
    if p + 1 < |cfg.symbols| { FirstWord(cfg, p + 1, 0); }
    assert Offset(cfg, p + 1) == Offset(cfg, p) + Stride(cfg, p);
  }

  /** However many frames: every cell of an accepted segment lies inside it and apart from all others if and only if no
      frame size wraps around. */
  lemma SoundExactlyInRange(cfg: Config)
    requires Accepted(cfg)
    ensures AllApart(cfg) && AllInside(cfg) <==> InRange(cfg)
  {
    assert cfg.frames > 0;
    hide Exists, Apart, Accepted, Fits, Inside;
    if InRange(cfg) {
      forall a, b | Exists(cfg, a) && Exists(cfg, b) && a != b
        ensures Apart(cfg, a, b)
      {
        CellsAreDisjoint(cfg, a, b);
      }
      forall c | Exists(cfg, c)
        ensures Inside(cfg, c)
      {
        InsideInRange(cfg, c);
      }
    } else {
      var p :| 0 <= p < |cfg.symbols| && !Fits(cfg, p);
      if cfg.frames >= 2 { WrappedFramesOverlap(cfg, p); } else { WrappedFrameLeaves(cfg, p); }
    }
  }

  lemma InsideInRange(cfg: Config, c: Cell)
    requires Accepted(cfg) && InRange(cfg) && Exists(cfg, c)
    ensures Inside(cfg, c)
  {
    CellsInSegment(cfg, c);
  }

  /** Two frames of 128 symbols and 2^22 features. */
  const WRAPPED := Config(2, 0x40_0000, [128], 128)

  /** Such a segment is created, and its frames overlap. */
  lemma WrappedConfig()
    ensures Accepted(WRAPPED) && !InRange(WRAPPED) && !AllApart(WRAPPED)
  {
    assert Bits.And(2, 1) == 0;
    assert !Fits(WRAPPED, 0);
    ApartExactlyInRange(WRAPPED);
  }
}
