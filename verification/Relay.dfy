/** Relay replication over one connection: the server's delta-compressed stream and the client's replica. */
module Relay {
  import opened Wire
  import opened Modular
  import SeqLock

  /** What one read of a snapshot cell returned: the SeqLock number and the fields. For reads that left by the
      successful path the number determines the fields (`ReadsAreLater`). */
  datatype Reading = Reading(seqNo: nat, content: Bytes)

  /** What the server found when it streamed an anchor: the two tables, the frame rings of the phases, and the
      last anchor written. */
  datatype Scan = Scan(snaps: seq<Reading>, micros: seq<Reading>, rings: seq<seq<Bytes>>, last: int)

  /** `strides[p]` is the size of a slot of phase `p`. */
  datatype Config = Config(symbols: nat, phases: nat, slots: nat, cadence: nat, strides: seq<nat>)

  datatype Msg =
    | Snapshot(seqNo: nat, i: nat, content: Bytes)
    | Micro(seqNo: nat, i: nat, content: Bytes)
    | Slot(seqNo: nat, p: nat, slot: nat, anchor: int, raw: Bytes)
    | Anchor(seqNo: nat, anchor: int, count: nat)

  /** `seqNo` is the number of the next packet; the handshake took number 1. */
  datatype Server = Server(next: int, seqNo: nat, sent: seq<nat>, sentMicro: seq<nat>, first: bool)

  datatype Emission = Emission(sv: Server, msgs: seq<Msg>, count: nat)

  ghost predicate Sane(cfg: Config) {
    cfg.slots >= 2 && cfg.cadence > 0
  }

  ghost predicate RingsFit(cfg: Config, rings: seq<seq<Bytes>>) {
    && |rings| == cfg.phases == |cfg.strides|
    && forall p :: 0 <= p < cfg.phases ==> |rings[p]| == cfg.slots && SlotsFit(rings[p], cfg.strides[p])
  }

  ghost predicate SlotsFit(ring: seq<Bytes>, stride: nat) {
    forall k :: 0 <= k < |ring| ==> |ring[k]| == stride
  }

  ghost predicate Fits(cfg: Config, sc: Scan) {
    |sc.snaps| == |sc.micros| == cfg.symbols && RingsFit(cfg, sc.rings)
  }

  ghost predicate ServerFits(cfg: Config, sv: Server) {
    |sv.sent| == |sv.sentMicro| == cfg.symbols && sv.seqNo >= 2
  }

  // ---------- The server ----------

  /** Everything on the first anchor; afterwards only cells written since they were last sent. */
  predicate Needed(first: bool, r: Reading, sent: nat) {
    first || (r.seqNo > 0 && r.seqNo != sent)
  }

  function EmitSnapshot(e: Emission, i: nat, r: Reading): Emission {
    if i < |e.sv.sent| && Needed(e.sv.first, r, e.sv.sent[i]) then
      Emission(e.sv.(seqNo := e.sv.seqNo + 1, sent := e.sv.sent[i := r.seqNo]),
               e.msgs + [Snapshot(e.sv.seqNo, i, r.content)], e.count + 1)
    else e
  }

  function EmitMicro(e: Emission, i: nat, r: Reading): Emission {
    if i < |e.sv.sentMicro| && Needed(e.sv.first, r, e.sv.sentMicro[i]) then
      Emission(e.sv.(seqNo := e.sv.seqNo + 1, sentMicro := e.sv.sentMicro[i := r.seqNo]),
               e.msgs + [Micro(e.sv.seqNo, i, r.content)], e.count)
    else e
  }

  /** The messages for symbols below `i`. */
  function EmitSymbols(sv: Server, sc: Scan, i: nat): (e: Emission)
    requires i <= |sc.snaps| == |sc.micros|
    ensures |e.sv.sent| == |sv.sent| && |e.sv.sentMicro| == |sv.sentMicro| && e.sv.next == sv.next
            && e.sv.first == sv.first
  {
    if i == 0 then Emission(sv, [], 0)
    else EmitMicro(EmitSnapshot(EmitSymbols(sv, sc, i - 1), i - 1, sc.snaps[i - 1]), i - 1, sc.micros[i - 1])
  }

  function EmitSlots(cfg: Config, e: Emission, sc: Scan, slot: nat, p: nat): Emission
    requires p <= |sc.rings|
  {
    if p == 0 then e
    else
      var b := EmitSlots(cfg, e, sc, slot, p - 1);
      var raw := if slot < |sc.rings[p - 1]| then sc.rings[p - 1][slot] else [];
      Emission(b.sv.(seqNo := b.sv.seqNo + 1), b.msgs + [Slot(b.sv.seqNo, p - 1, slot, b.sv.next, raw)], b.count)
  }

  /** The anchor to stream next: one that may already be overwritten is skipped. */
  function Caught(cfg: Config, next: int, last: int): int {
    var earliest := last - (cfg.slots - 2) * cfg.cadence;
    if next < earliest && earliest > 0 then earliest else next
  }

  function SlotOf(cfg: Config, anchor: int): (k: nat)
    requires Sane(cfg)
    ensures k < cfg.slots
  {
    SlotIn(anchor, cfg.cadence, cfg.slots)
  }

  /** Catching up never goes back nor past the last anchor, and ends at most `slots - 2` cadences behind it; so the
      slot it then sends is not written again before two more anchors have come. */
  lemma CaughtIsSafe(cfg: Config, next: int, last: int, k: nat)
    requires Sane(cfg) && 0 < next <= last
    ensures var r := Caught(cfg, next, last);
            && next <= r && last - (cfg.slots - 2) * cfg.cadence <= r
            && r <= last
            && (last - (cfg.slots - 2) * cfg.cadence <= next ==> r == next)
            && (k > 0 && SlotOf(cfg, r + k * cfg.cadence) == SlotOf(cfg, r) ==>
                  r + k * cfg.cadence >= last + 2 * cfg.cadence)
  {
    var r := Caught(cfg, next, last);
    MulMonotone(0, cfg.slots - 2, cfg.cadence);
    if k > 0 {
      MulMonotone(0, k, cfg.cadence);
      AddMultiple(r, k, cfg.cadence);
      if k < cfg.slots {
        ShiftChangesRemainder(r / cfg.cadence, k, cfg.slots);
      } else {
        MulMonotone(cfg.slots, k, cfg.cadence);
        assert cfg.slots * cfg.cadence == (cfg.slots - 2) * cfg.cadence + 2 * cfg.cadence;
      }
    }
  }

  /** One anchor: snapshots and micro snapshots symbol by symbol, the slot of every phase, the anchor commit. */
  function StreamAnchor(cfg: Config, sv: Server, sc: Scan): Emission
    requires Sane(cfg) && Fits(cfg, sc)
  {
    var e := EmitSymbols(sv.(next := Caught(cfg, sv.next, sc.last)), sc, cfg.symbols);
    var s := EmitSlots(cfg, e.(sv := e.sv.(first := false)), sc, SlotOf(cfg, e.sv.next), cfg.phases);
    Emission(s.sv.(seqNo := s.sv.seqNo + 1, next := s.sv.next + cfg.cadence),
             s.msgs + [Anchor(s.sv.seqNo, s.sv.next, s.count)], s.count)
  }

  /** The snapshots sent after the last anchor when the source closes. */
  function FinalFlush(cfg: Config, sv: Server, sc: Scan): Emission
    requires Fits(cfg, sc)
  {
    EmitSymbols(sv.(first := false), sc, cfg.symbols)
  }

  /** The server's state and loop body. */
  class StreamServer {
    const cfg: Config
    var next: int
    var seqNo: nat
    var sent: seq<nat>
    var sentMicro: seq<nat>
    var isFirst: bool

    function View(): Server
      reads this
    {
      Server(next, seqNo, sent, sentMicro, isFirst)
    }

    /** After the handshake. */
    constructor (cfg: Config, next: int)
      ensures this.cfg == cfg && View() == Server(next, 2, Nats(cfg.symbols), Nats(cfg.symbols), true)
    {
      this.cfg := cfg;
      this.next := next;
      seqNo, isFirst := 2, true;
      sent, sentMicro := Nats(cfg.symbols), Nats(cfg.symbols);
    }

    method SendSymbols(sc: Scan) returns (msgs: seq<Msg>, count: nat)
      requires Fits(cfg, sc) && |sent| == |sentMicro| == cfg.symbols
      modifies this
      ensures Emission(View(), msgs, count) == EmitSymbols(old(View()), sc, cfg.symbols)
    {
      msgs, count := [], 0;
      var i := 0;
      while i < cfg.symbols
        invariant i <= cfg.symbols == |sent| == |sentMicro|
        invariant Emission(View(), msgs, count) == EmitSymbols(old(View()), sc, i)
      {
        msgs, count := SendSnapshot(i, sc.snaps[i], msgs, count);
        msgs := SendMicro(i, sc.micros[i], msgs, count);
        i := i + 1;
      }
    }

    method SendSnapshot(i: nat, snap: Reading, before: seq<Msg>, sofar: nat) returns (msgs: seq<Msg>, count: nat)
      requires i < |sent|
      modifies this`seqNo, this`sent
      ensures Emission(View(), msgs, count) == EmitSnapshot(Emission(old(View()), before, sofar), i, snap)
    {
      msgs, count := before, sofar;
      if isFirst || (snap.seqNo > 0 && snap.seqNo != sent[i]) {
        msgs := msgs + [Snapshot(seqNo, i, snap.content)];
        seqNo := seqNo + 1;
        sent := sent[i := snap.seqNo];
        count := count + 1;
      }
    }

    method SendMicro(i: nat, micro: Reading, before: seq<Msg>, ghost count: nat) returns (msgs: seq<Msg>)
      requires i < |sentMicro|
      modifies this`seqNo, this`sentMicro
      ensures Emission(View(), msgs, count) == EmitMicro(Emission(old(View()), before, count), i, micro)
    {
      msgs := before;
      if isFirst || (micro.seqNo > 0 && micro.seqNo != sentMicro[i]) {
        msgs := msgs + [Micro(seqNo, i, micro.content)];
        seqNo := seqNo + 1;
        sentMicro := sentMicro[i := micro.seqNo];
      }
    }

    method SendSlots(sc: Scan, slot: nat, before: seq<Msg>, ghost count: nat) returns (msgs: seq<Msg>)
      requires Fits(cfg, sc) && slot < cfg.slots
      modifies this`seqNo
      ensures Emission(View(), msgs, count) ==
              EmitSlots(cfg, Emission(old(View()), before, count), sc, slot, cfg.phases)
    {
      msgs := before;
      var p := 0;
      while p < cfg.phases
        invariant p <= cfg.phases
        invariant Emission(View(), msgs, count) == EmitSlots(cfg, Emission(old(View()), before, count), sc, slot, p)
      {
        msgs := msgs + [Slot(seqNo, p, slot, next, sc.rings[p][slot])];
        seqNo := seqNo + 1;
        p := p + 1;
      }
    }

    /** Skips anchors that the ring may already have overwritten. */
    method CatchUp(last: int)
      modifies this`next
      ensures next == Caught(cfg, old(next), last)
    {
      var earliest := last - (cfg.slots - 2) * cfg.cadence;
      if next < earliest && earliest > 0 {
        next := earliest;
      }
    }

    method Stream(sc: Scan) returns (msgs: seq<Msg>, count: nat)
      requires Sane(cfg) && Fits(cfg, sc) && |sent| == |sentMicro| == cfg.symbols
      modifies this
      ensures Emission(View(), msgs, count) == StreamAnchor(cfg, old(View()), sc)
    {
      hide EmitSymbols, EmitSlots, Caught, SlotOf;
      CatchUp(sc.last);
      msgs, count := SendSymbols(sc);
      isFirst := false;
      msgs := SendSlots(sc, SlotOf(cfg, next), msgs, count);
      msgs := msgs + [Anchor(seqNo, next, count)];
      seqNo := seqNo + 1;
      next := next + cfg.cadence;
    }
  }

  function Nats(n: nat): (r: seq<nat>)
    ensures |r| == n && forall k :: 0 <= k < n ==> r[k] == 0
  {
    seq(n, _ => 0)
  }

  // ---------- The client ----------

  /** `gaps` counts missing packets, `mismatches` the anchors whose snapshot count was wrong, `failed` tells
      that the stream was given up; the tables and rings are those of the replica segment. */
  datatype Client = Client(snaps: seq<Bytes>, micros: seq<Bytes>, rings: seq<seq<Bytes>>, pending: nat, last: nat,
                           gaps: nat, mismatches: nat, remote: bool, lastAnchor: int, anchors: nat, failed: bool)

  /** `WriteSnapshot` and `WriteMicroSnapshot` ignore an index outside the table. */
  function SetAt(s: seq<Bytes>, i: nat, x: Bytes): (r: seq<Bytes>)
    ensures |r| == |s|
  {
    if i < |s| then s[i := x] else s
  }

  function Count(c: Client, m: Msg): Client {
    c.(gaps := if c.last > 0 && m.seqNo > c.last + 1 then c.gaps + (m.seqNo - c.last - 1) else c.gaps, last := m.seqNo)
  }

  /** One message. Until the first micro snapshot arrives, every snapshot also writes a locally computed one;
      `local` is what the local tracker computes for the packet of that number. */
  function Handle(c: Client, m: Msg, local: nat -> Bytes): Client {
    if c.failed then c
    else
      var d := Count(c, m);
      match m
      case Snapshot(n, i, x) =>
        d.(snaps := SetAt(d.snaps, i, x), pending := d.pending + 1,
           micros := if d.remote then d.micros else SetAt(d.micros, i, local(n)))
      case Micro(_, i, x) => d.(remote := true, micros := SetAt(d.micros, i, x))
      case Slot(_, p, slot, _, raw) =>
        if p < |d.rings| && slot < |d.rings[p]| && |raw| == |d.rings[p][slot]|
        then d.(rings := d.rings[p := d.rings[p][slot := raw]])
        else d.(failed := true)
      case Anchor(_, a, count) =>
        d.(mismatches := if d.pending != count then d.mismatches + 1 else d.mismatches, pending := 0,
           lastAnchor := a, anchors := d.anchors + 1)
  }

  function HandleAll(c: Client, msgs: seq<Msg>, local: nat -> Bytes): Client {
    if msgs == [] then c else Handle(HandleAll(c, msgs[..|msgs| - 1], local), msgs[|msgs| - 1], local)
  }

  /** The client at the start of a stream; the segment may be left over from an earlier connection. */
  predicate Fresh(c: Client) {
    c.pending == 0 && c.last == 0 && !c.remote && !c.failed
  }

  class Replica {
    var snaps: seq<Bytes>
    var micros: seq<Bytes>
    var rings: seq<seq<Bytes>>
    var pending: nat
    var last: nat
    var gaps: nat
    var mismatches: nat
    var remote: bool
    var lastAnchor: int
    var anchors: nat
    var failed: bool

    function View(): Client
      reads this
    {
      Client(snaps, micros, rings, pending, last, gaps, mismatches, remote, lastAnchor, anchors, failed)
    }

    constructor (c: Client)
      ensures View() == c
    {
      snaps, micros, rings, pending, last, gaps := c.snaps, c.micros, c.rings, c.pending, c.last, c.gaps;
      mismatches, remote, lastAnchor, anchors, failed := c.mismatches, c.remote, c.lastAnchor, c.anchors, c.failed;
    }

    method NoteNumber(m: Msg)
      modifies this`gaps, this`last
      ensures View() == Count(old(View()), m)
    {
      if last > 0 && m.seqNo > last + 1 {
        gaps := gaps + (m.seqNo - last - 1);
      }
      last := m.seqNo;
    }

    method HandleMessage(m: Msg, local: nat -> Bytes)
      requires !failed
      modifies this
      ensures View() == Handle(old(View()), m, local)
    {
      hide SetAt;
      NoteNumber(m);
      match m
      case Snapshot(n, i, x) =>
        snaps := SetAt(snaps, i, x);
        if !remote {
          micros := SetAt(micros, i, local(n));
        }
        pending := pending + 1;
      case Micro(_, i, x) =>
        remote := true;
        micros := SetAt(micros, i, x);
      case Slot(_, p, slot, _, raw) =>
        WriteRawSlot(p, slot, raw);
      case Anchor(_, a, count) =>
        if pending != count {
          mismatches := mismatches + 1;
        }
        pending := 0;
        lastAnchor := a;
        anchors := anchors + 1;
    }

    /** A slot that does not exist or has another size ends the stream with an error. */
    method WriteRawSlot(p: nat, slot: nat, raw: Bytes)
      modifies this`rings, this`failed
      ensures var ok := p < |old(rings)| && slot < |old(rings)[p]| && |raw| == |old(rings)[p][slot]|;
              && rings == (if ok then old(rings)[p := old(rings)[p][slot := raw]] else old(rings))
              && failed == (old(failed) || !ok)
    {
      if p < |rings| && slot < |rings[p]| && |raw| == |rings[p][slot]| {
        rings := rings[p := rings[p][slot := raw]];
      } else {
        failed := true;
      }
    }
  }

  // ---------- The replica follows the source ----------

  ghost predicate ReplicaFits(cfg: Config, c: Client) {
    |c.snaps| == |c.micros| == cfg.symbols && RingsFit(cfg, c.rings)
  }

  /** A later reading of a cell: numbers never go back, and an equal number means equal fields. */
  ghost predicate Later(a: Reading, b: Reading) {
    a.seqNo <= b.seqNo && (a.seqNo == b.seqNo ==> a.content == b.content)
  }

  /** Reading `a` is what successful read number `k` of a cell returned, its fields taken byte by byte. */
  ghost predicate IsRead(s: SeqLock.State<byte>, k: nat, a: Reading)
    requires k < |s.results|
  {
    a.seqNo == s.results[k].seqNo && |a.content| == |s.fields| && SeqLock.IsValue(s.results[k].value, a.content)
  }

  /** In every interleaving of the writer and the readers of a cell, of two successful reads the second is later in
      the sense above. */
  lemma ReadsAreLater(s: SeqLock.State<byte>, steps: seq<SeqLock.Step<byte>>, j: nat, k: nat, a: Reading, b: Reading)
    requires SeqLock.Init(s) && SeqLock.IsRun(s, steps) && j < k < |SeqLock.Run(s, steps).results|
    requires IsRead(SeqLock.Run(s, steps), j, a) && IsRead(SeqLock.Run(s, steps), k, b)
    ensures Later(a, b)
  {
    SeqLock.ReadsAreCompleteWrites(s, steps);
    assert SeqLock.ReadsInOrder(SeqLock.Run(s, steps), j, k);
    if a.seqNo == b.seqNo {
      SeqLock.EqualNumbersEqualFields(s, steps, j, k);
      assert a.content == b.content;
    }
  }

  ghost predicate LaterScan(cfg: Config, a: Scan, b: Scan) {
    Fits(cfg, a) && Fits(cfg, b) && forall k :: 0 <= k < cfg.symbols ==>
      Later(a.snaps[k], b.snaps[k]) && Later(a.micros[k], b.micros[k])
  }

  /** Cell `k` of both tables is as last read, and the server knows it. */
  ghost predicate CellSynced(sv: Server, c: Client, sc: Scan, k: nat)
    requires k < |sv.sent| == |sv.sentMicro| == |c.snaps| == |c.micros| == |sc.snaps| == |sc.micros|
  {
    && c.snaps[k] == sc.snaps[k].content && sv.sent[k] == sc.snaps[k].seqNo
    && c.micros[k] == sc.micros[k].content && sv.sentMicro[k] == sc.micros[k].seqNo
  }

  ghost predicate SameCellState(sv: Server, c: Client, sv': Server, c': Client, k: nat)
    requires k < |sv.sent| == |sv.sentMicro| == |c.snaps| == |c.micros|
    requires k < |sv'.sent| == |sv'.sentMicro| == |c'.snaps| == |c'.micros|
  {
    c'.snaps[k] == c.snaps[k] && sv'.sent[k] == sv.sent[k] && c'.micros[k] == c.micros[k]
    && sv'.sentMicro[k] == sv.sentMicro[k]
  }

  ghost predicate NoGap(sv: Server, c: Client) {
    c.last == 0 || c.last + 1 == sv.seqNo
  }

  /** Server and client between two anchors, after the readings of `prev`. */
  ghost predicate Synced(cfg: Config, sv: Server, c: Client, prev: Scan) {
    && ServerFits(cfg, sv) && ReplicaFits(cfg, c) && !c.failed && NoGap(sv, c) && c.pending == 0
    && (!sv.first ==>
          && Fits(cfg, prev)
          && (cfg.symbols > 0 ==> c.remote)
          && forall k :: 0 <= k < cfg.symbols ==> CellSynced(sv, c, prev, k))
  }

  /** After the messages of the symbols below `i`. */
  ghost predicate Partly(cfg: Config, sv: Server, c: Client, sc: Scan, e: Emission, d: Client, i: nat)
    requires ServerFits(cfg, sv) && ReplicaFits(cfg, c) && Fits(cfg, sc) && i <= cfg.symbols
  {
    && ServerFits(cfg, e.sv) && ReplicaFits(cfg, d) && !d.failed && NoGap(e.sv, d)
    && d.pending == c.pending + e.count && d.gaps == c.gaps && d.mismatches == c.mismatches && d.rings == c.rings
    && d.lastAnchor == c.lastAnchor && d.anchors == c.anchors
    && (c.remote || (sv.first && i > 0) ==> d.remote)
    && (forall k :: 0 <= k < i ==> CellSynced(e.sv, d, sc, k))
    && (forall k :: i <= k < cfg.symbols ==> SameCellState(sv, c, e.sv, d, k))
  }

  /** The server and the client agree that a cell not sent is already up to date. */
  predicate Known(first: bool, r: Reading, sent: nat, content: Bytes) {
    Needed(first, r, sent) || (sent == r.seqNo && content == r.content)
  }

  ghost predicate Healthy(cfg: Config, sv: Server, c: Client) {
    ServerFits(cfg, sv) && ReplicaFits(cfg, c) && !c.failed && NoGap(sv, c)
  }

  lemma OneSnapshot(cfg: Config, e: Emission, d: Client, i: nat, r: Reading, local: nat -> Bytes)
    requires Healthy(cfg, e.sv, d) && i < cfg.symbols && Known(e.sv.first, r, e.sv.sent[i], d.snaps[i])
    ensures var m := EmitSnapshot(e, i, r);
            var d1 := HandleNew(d, e, m, local);
            && Healthy(cfg, m.sv, d1)
            && m.sv == e.sv.(sent := e.sv.sent[i := r.seqNo], seqNo := m.sv.seqNo)
            && d1 ==
               d.(snaps := d.snaps[i := r.content], pending := d.pending + m.count - e.count, last := d1.last,
                  micros := d1.micros)
            && (d.remote ==> d1.micros == d.micros)
            && (forall k :: 0 <= k < cfg.symbols && k != i ==> d1.micros[k] == d.micros[k])
  {
  }

  lemma OneMicro(cfg: Config, e: Emission, d: Client, i: nat, r: Reading, local: nat -> Bytes)
    requires Healthy(cfg, e.sv, d) && i < cfg.symbols && Known(e.sv.first, r, e.sv.sentMicro[i], d.micros[i])
    ensures var f := EmitMicro(e, i, r);
            var d2 := HandleNew(d, e, f, local);
            && Healthy(cfg, f.sv, d2)
            && f.sv == e.sv.(sentMicro := e.sv.sentMicro[i := r.seqNo], seqNo := f.sv.seqNo) && f.count == e.count
            && d2 == d.(micros := d.micros[i := r.content], last := d2.last, remote := d2.remote)
            && (d.remote || e.sv.first ==> d2.remote)
  {
  }

  /** Sending what is needed of one symbol brings its cells up to date and touches no other cell. */
  lemma OneSymbol(cfg: Config, sv: Server, c: Client, prev: Scan, sc: Scan, e: Emission, d: Client, i: nat,
                  local: nat -> Bytes)
    requires Synced(cfg, sv, c, prev) && Fits(cfg, sc) && i < cfg.symbols
    requires !sv.first ==> LaterScan(cfg, prev, sc)
    requires e.sv.first == sv.first && Partly(cfg, sv, c, sc, e, d, i)
    ensures var m := EmitSnapshot(e, i, sc.snaps[i]);
            var f := EmitMicro(m, i, sc.micros[i]);
            Partly(cfg, sv, c, sc, f, HandleNew(HandleNew(d, e, m, local), m, f, local), i + 1)
  {
    hide EmitSnapshot, EmitMicro, HandleNew, RingsFit, SlotsFit;
    assert SameCellState(sv, c, e.sv, d, i);
    var m := EmitSnapshot(e, i, sc.snaps[i]);
    var f := EmitMicro(m, i, sc.micros[i]);
    if !sv.first {
      assert CellSynced(sv, c, prev, i);
      assert Later(prev.snaps[i], sc.snaps[i]) && Later(prev.micros[i], sc.micros[i]);
    }
    OneSnapshot(cfg, e, d, i, sc.snaps[i], local);
    var d1 := HandleNew(d, e, m, local);
    OneMicro(cfg, m, d1, i, sc.micros[i], local);
    var d2 := HandleNew(d1, m, f, local);
    forall k | 0 <= k < i
      ensures CellSynced(f.sv, d2, sc, k)
    {
      assert CellSynced(e.sv, d, sc, k);
    }
    forall k | i + 1 <= k < cfg.symbols
      ensures SameCellState(sv, c, f.sv, d2, k)
    {
      assert SameCellState(sv, c, e.sv, d, k);
    }
  }

  lemma HandleOne(c: Client, msgs: seq<Msg>, m: Msg, local: nat -> Bytes)
    ensures HandleAll(c, msgs + [m], local) == Handle(HandleAll(c, msgs, local), m, local)
  {
    assert (msgs + [m])[..|msgs|] == msgs;
  }

  /** The client after one more emission, if anything was emitted. */
  function HandleNew(d: Client, e: Emission, f: Emission, local: nat -> Bytes): Client {
    if |f.msgs| > |e.msgs| then Handle(d, f.msgs[|f.msgs| - 1], local) else d
  }

  lemma HandleEmitted(c: Client, e: Emission, i: nat, snap: Reading, micro: Reading, local: nat -> Bytes)
    ensures var m := EmitSnapshot(e, i, snap);
            var f := EmitMicro(m, i, micro);
            HandleAll(c, f.msgs, local) == HandleNew(HandleNew(HandleAll(c, e.msgs, local), e, m, local), m, f, local)
  {
    var m := EmitSnapshot(e, i, snap);
    var f := EmitMicro(m, i, micro);
    hide Handle, HandleAll;
    if |m.msgs| > |e.msgs| { HandleOne(c, e.msgs, m.msgs[|m.msgs| - 1], local); }
    if |f.msgs| > |m.msgs| { HandleOne(c, m.msgs, f.msgs[|f.msgs| - 1], local); }
  }

  lemma NothingYet(cfg: Config, sv: Server, c: Client, prev: Scan, sc: Scan)
    requires Synced(cfg, sv, c, prev) && Fits(cfg, sc)
    ensures Partly(cfg, sv, c, sc, Emission(sv, [], 0), c, 0)
  {
    forall k | 0 <= k < cfg.symbols
      ensures SameCellState(sv, c, sv, c, k)
    {
    }
  }

  lemma {:induction false} SymbolsReplicate(cfg: Config, sv: Server, c: Client, prev: Scan, sc: Scan, i: nat,
                                            local: nat -> Bytes)
    requires Synced(cfg, sv, c, prev) && Fits(cfg, sc) && i <= cfg.symbols
    requires !sv.first ==> LaterScan(cfg, prev, sc)
    ensures var e := EmitSymbols(sv, sc, i);
            Partly(cfg, sv, c, sc, e, HandleAll(c, e.msgs, local), i)
  {
    hide Handle, Partly, LaterScan, EmitSnapshot, EmitMicro, HandleNew;
    if i == 0 {
      NothingYet(cfg, sv, c, prev, sc);
    } else {
      SymbolsReplicate(cfg, sv, c, prev, sc, i - 1, local);
      var e := EmitSymbols(sv, sc, i - 1);
      HandleEmitted(c, e, i - 1, sc.snaps[i - 1], sc.micros[i - 1], local);
      OneSymbol(cfg, sv, c, prev, sc, e, HandleAll(c, e.msgs, local), i - 1, local);
    }
  }

  /** Slots of phases below `p` are in the replica as sent; everything else is as before. */
  ghost predicate SlotsCopied(cfg: Config, c: Client, d: Client, sc: Scan, slot: nat, p: nat)
    requires ReplicaFits(cfg, c) && ReplicaFits(cfg, d) && Fits(cfg, sc) && slot < cfg.slots && p <= cfg.phases
  {
    && (forall q :: 0 <= q < p ==> d.rings[q] == c.rings[q][slot := sc.rings[q][slot]])
    && (forall q :: p <= q < cfg.phases ==> d.rings[q] == c.rings[q])
  }

  /** What handling the slots of phases below `p` leaves of a client and a server. */
  ghost predicate SlotsHandled(cfg: Config, c: Client, e: Emission, d: Client, sc: Scan, slot: nat, p: nat, f: Emission,
                               d': Client)
    requires ReplicaFits(cfg, c) && Fits(cfg, sc) && slot < cfg.slots && p <= cfg.phases
  {
    && ReplicaFits(cfg, d') && !d'.failed && NoGap(f.sv, d') && SlotsCopied(cfg, c, d', sc, slot, p)
    && d' == d.(rings := d'.rings, last := d'.last)
    && f.sv == e.sv.(seqNo := f.sv.seqNo) && f.sv.seqNo >= e.sv.seqNo && f.count == e.count
  }

  lemma OneSlot(cfg: Config, c: Client, e: Emission, d: Client, sc: Scan, slot: nat, p: nat, f: Emission, d': Client,
                local: nat -> Bytes)
    requires Fits(cfg, sc) && ReplicaFits(cfg, c) && slot < cfg.slots && p < cfg.phases && e.sv.seqNo >= 2
    requires SlotsHandled(cfg, c, e, d, sc, slot, p, f, d')
    ensures var g := Emission(f.sv.(seqNo := f.sv.seqNo + 1),
                              f.msgs + [Slot(f.sv.seqNo, p, slot, f.sv.next, sc.rings[p][slot])], f.count);
            SlotsHandled(cfg, c, e, d, sc, slot, p + 1, g, Handle(d', g.msgs[|f.msgs|], local))
  {
  }

  lemma NoSlotsYet(cfg: Config, c: Client, e: Emission, d: Client, sc: Scan, slot: nat)
    requires Fits(cfg, sc) && ReplicaFits(cfg, c) && ReplicaFits(cfg, d) && slot < cfg.slots
    requires d.rings == c.rings && !d.failed && NoGap(e.sv, d)
    ensures SlotsHandled(cfg, c, e, d, sc, slot, 0, e, d)
  {
  }

  lemma {:induction false} SlotsReplicate(cfg: Config, c: Client, e: Emission, sc: Scan, slot: nat, p: nat,
                                          local: nat -> Bytes)
    requires Fits(cfg, sc) && ReplicaFits(cfg, c) && slot < cfg.slots && p <= cfg.phases && e.sv.seqNo >= 2
    requires ReplicaFits(cfg, HandleAll(c, e.msgs, local)) && HandleAll(c, e.msgs, local).rings == c.rings
    requires !HandleAll(c, e.msgs, local).failed && NoGap(e.sv, HandleAll(c, e.msgs, local))
    ensures var f := EmitSlots(cfg, e, sc, slot, p);
            SlotsHandled(cfg, c, e, HandleAll(c, e.msgs, local), sc, slot, p, f, HandleAll(c, f.msgs, local))
  {
    hide Handle, HandleAll, SlotsHandled, NoGap;
    if p == 0 {
      NoSlotsYet(cfg, c, e, HandleAll(c, e.msgs, local), sc, slot);
    } else {
      SlotsReplicate(cfg, c, e, sc, slot, p - 1, local);
      var b := EmitSlots(cfg, e, sc, slot, p - 1);
      var m := Slot(b.sv.seqNo, p - 1, slot, b.sv.next, sc.rings[p - 1][slot]);
      OneSlot(cfg, c, e, HandleAll(c, e.msgs, local), sc, slot, p - 1, b, HandleAll(c, b.msgs, local), local);
      HandleOne(c, b.msgs, m, local);
    }
  }

  /** What one anchor leaves: both tables as the server read them, the anchor's slot as the server read it, and
      no new gap, mismatch or failure. */
  ghost predicate Replicated(cfg: Config, sv: Server, c: Client, sc: Scan, d: Client)
    requires Sane(cfg) && ReplicaFits(cfg, c) && Fits(cfg, sc)
  {
    var a := Caught(cfg, sv.next, sc.last);
    && ReplicaFits(cfg, d)
    && (forall k :: 0 <= k < cfg.symbols ==> d.snaps[k] == sc.snaps[k].content && d.micros[k] == sc.micros[k].content)
    && (forall p :: 0 <= p < cfg.phases ==> d.rings[p] == c.rings[p][SlotOf(cfg, a) := sc.rings[p][SlotOf(cfg, a)]])
    && d.lastAnchor == a && d.anchors == c.anchors + 1
    && d.gaps == c.gaps && d.mismatches == c.mismatches && !d.failed
  }

  lemma AnchorReplicates(cfg: Config, sv: Server, c: Client, prev: Scan, sc: Scan, local: nat -> Bytes)
    requires Sane(cfg) && Synced(cfg, sv, c, prev) && Fits(cfg, sc)
    requires !sv.first ==> LaterScan(cfg, prev, sc)
    ensures var e := StreamAnchor(cfg, sv, sc);
            var d := HandleAll(c, e.msgs, local);
            Synced(cfg, e.sv, d, sc) && !e.sv.first && Replicated(cfg, sv, c, sc, d)
  {
    hide HandleAll, EmitSymbols, EmitSlots, SlotOf, Caught, Handle, LaterScan;
    var sv1 := sv.(next := Caught(cfg, sv.next, sc.last));
    SyncedAt(cfg, sv, sv1, c, prev);
    SymbolsReplicate(cfg, sv1, c, prev, sc, cfg.symbols, local);
    var e := EmitSymbols(sv1, sc, cfg.symbols);
    var d := HandleAll(c, e.msgs, local);
    var e1 := e.(sv := e.sv.(first := false));
    SlotsReplicate(cfg, c, e1, sc, SlotOf(cfg, e.sv.next), cfg.phases, local);
    var s := EmitSlots(cfg, e1, sc, SlotOf(cfg, e.sv.next), cfg.phases);
    HandleOne(c, s.msgs, Anchor(s.sv.seqNo, s.sv.next, s.count), local);
    CommitReplicates(cfg, sv1, c, prev, sc, e, d, s, HandleAll(c, s.msgs, local), local);
  }

  lemma CommitReplicates(cfg: Config, sv: Server, c: Client, prev: Scan, sc: Scan, e: Emission, d: Client, s: Emission,
                         d': Client, local: nat -> Bytes)
    requires Sane(cfg) && Synced(cfg, sv, c, prev) && Fits(cfg, sc)
    requires Partly(cfg, sv, c, sc, e, d, cfg.symbols) && e.sv.next == sv.next
    requires SlotsHandled(cfg, c, e.(sv := e.sv.(first := false)), d, sc, SlotOf(cfg, e.sv.next), cfg.phases, s, d')
    ensures var r := Handle(d', Anchor(s.sv.seqNo, s.sv.next, s.count), local);
            var t := s.sv.(seqNo := s.sv.seqNo + 1, next := s.sv.next + cfg.cadence);
            && Synced(cfg, t, r, sc) && !t.first
            && ReplicaFits(cfg, r)
            && (forall k :: 0 <= k < cfg.symbols ==>
                r.snaps[k] == sc.snaps[k].content && r.micros[k] == sc.micros[k].content)
            && (forall p :: 0 <= p < cfg.phases ==>
                r.rings[p] == c.rings[p][SlotOf(cfg, sv.next) := sc.rings[p][SlotOf(cfg, sv.next)]])
            && r.lastAnchor == sv.next && r.anchors == c.anchors + 1
            && r.gaps == c.gaps && r.mismatches == c.mismatches && !r.failed
  {
    hide SlotOf;
    var r := Handle(d', Anchor(s.sv.seqNo, s.sv.next, s.count), local);
    var t := s.sv.(seqNo := s.sv.seqNo + 1, next := s.sv.next + cfg.cadence);
    forall k | 0 <= k < cfg.symbols
      ensures CellSynced(t, r, sc, k)
    {
      assert CellSynced(e.sv, d, sc, k);
    }
    forall k | 0 <= k < cfg.symbols
      ensures r.snaps[k] == sc.snaps[k].content && r.micros[k] == sc.micros[k].content
    {
      assert CellSynced(t, r, sc, k);
    }
  }

  lemma SyncedAt(cfg: Config, sv: Server, sv1: Server, c: Client, prev: Scan)
    requires Synced(cfg, sv, c, prev) && sv1 == sv.(next := sv1.next)
    ensures Synced(cfg, sv1, c, prev)
  {
    forall k | 0 <= k < cfg.symbols && !sv.first
      ensures CellSynced(sv1, c, prev, k)
    {
      assert CellSynced(sv, c, prev, k);
    }
  }

  // ---------- Whole connections ----------

  datatype Sent = Sent(sv: Server, msgs: seq<Msg>)

  function StreamAll(cfg: Config, sv: Server, scans: seq<Scan>): Sent
    requires Sane(cfg) && forall n :: 0 <= n < |scans| ==> Fits(cfg, scans[n])
  {
    if scans == [] then Sent(sv, [])
    else
      var b := StreamAll(cfg, sv, scans[..|scans| - 1]);
      var e := StreamAnchor(cfg, b.sv, scans[|scans| - 1]);
      Sent(e.sv, b.msgs + e.msgs)
  }

  lemma {:induction false} HandleConcat(c: Client, a: seq<Msg>, b: seq<Msg>, local: nat -> Bytes)
    ensures HandleAll(c, a + b, local) == HandleAll(HandleAll(c, a, local), b, local)
    decreases |b|
  {
    if b == [] {
      assert a + b == a;
    } else {
      assert (a + b)[..|a + b| - 1] == a + b[..|b| - 1];
      HandleConcat(c, a, b[..|b| - 1], local);
    }
  }

  ghost predicate Consecutive(cfg: Config, scans: seq<Scan>, n: nat)
    requires n + 1 < |scans|
  {
    LaterScan(cfg, scans[n], scans[n + 1])
  }

  /** What the server reads over one connection: every cell only moves forward. */
  ghost predicate History(cfg: Config, scans: seq<Scan>) {
    && (forall n :: 0 <= n < |scans| ==> Fits(cfg, scans[n]))
    && (forall n :: 0 <= n < |scans| - 1 ==> Consecutive(cfg, scans, n))
  }

  lemma HistoryPrefix(cfg: Config, scans: seq<Scan>)
    requires History(cfg, scans) && scans != []
    ensures History(cfg, scans[..|scans| - 1])
    ensures |scans| > 1 ==> LaterScan(cfg, scans[|scans| - 2], scans[|scans| - 1])
  {
    var front := scans[..|scans| - 1];
    forall n | 0 <= n < |front| - 1
      ensures Consecutive(cfg, front, n)
    {
      assert Consecutive(cfg, scans, n);
    }
    if |scans| > 1 { assert Consecutive(cfg, scans, |scans| - 2); }
  }

  /** The client after all messages of the first anchors. */
  function ClientAfter(cfg: Config, sv: Server, c: Client, scans: seq<Scan>, local: nat -> Bytes): Client
    requires Sane(cfg) && forall n :: 0 <= n < |scans| ==> Fits(cfg, scans[n])
  {
    HandleAll(c, StreamAll(cfg, sv, scans).msgs, local)
  }

  lemma {:induction false} RunSynced(cfg: Config, sv: Server, c: Client, scans: seq<Scan>, local: nat -> Bytes)
    requires Sane(cfg) && History(cfg, scans) && scans != []
    requires ServerFits(cfg, sv) && sv.first && ReplicaFits(cfg, c) && Fresh(c)
    ensures var b := StreamAll(cfg, sv, scans[..|scans| - 1]);
            var before := HandleAll(c, b.msgs, local);
            var d := ClientAfter(cfg, sv, c, scans, local);
            && ReplicaFits(cfg, before)
            && Synced(cfg, StreamAll(cfg, sv, scans).sv, d, scans[|scans| - 1]) && !StreamAll(cfg, sv, scans).sv.first
            && Replicated(cfg, b.sv, before, scans[|scans| - 1], d)
            && d.gaps == c.gaps && d.mismatches == c.mismatches && d.anchors == c.anchors + |scans|
    decreases |scans|
  {
    var front, sc := scans[..|scans| - 1], scans[|scans| - 1];
    HistoryPrefix(cfg, scans);
    var b := StreamAll(cfg, sv, front);
    var before := HandleAll(c, b.msgs, local);
    hide Handle, HandleAll, StreamAnchor, LaterScan;
    HandleConcat(c, b.msgs, StreamAnchor(cfg, b.sv, sc).msgs, local);
    if |scans| > 1 {
      RunSynced(cfg, sv, c, front, local);
      assert front[|front| - 1] == scans[|scans| - 2];
      AnchorReplicates(cfg, b.sv, before, scans[|scans| - 2], sc, local);
    } else {
      assert HandleAll(c, [], local) == c by { HandleNone(c, local); }
      AnchorReplicates(cfg, sv, c, sc, sc, local);
    }
  }

  lemma HandleNone(c: Client, local: nat -> Bytes)
    ensures HandleAll(c, [], local) == c
  {
  }

  /** Replication. Over a lossless connection, after the client handles any anchor commit, its snapshot and
      micro tables are what the server last read, although only changed cells are sent; every slot sent for the
      anchor is in the replica as it was sent; no sequence number is missing and every snapshot count matches. */
  lemma ReplicaFollowsSource(cfg: Config, next: int, c: Client, scans: seq<Scan>, local: nat -> Bytes)
    requires Sane(cfg) && History(cfg, scans) && scans != [] && ReplicaFits(cfg, c) && Fresh(c)
    ensures var sv := Server(next, 2, Nats(cfg.symbols), Nats(cfg.symbols), true);
            var b := StreamAll(cfg, sv, scans[..|scans| - 1]);
            var d := ClientAfter(cfg, sv, c, scans, local);
            var sc := scans[|scans| - 1];
            var a := Caught(cfg, b.sv.next, sc.last);
            && ReplicaFits(cfg, d)
            && (forall k :: 0 <= k < cfg.symbols ==>
                d.snaps[k] == sc.snaps[k].content && d.micros[k] == sc.micros[k].content)
            && (forall p :: 0 <= p < cfg.phases ==> d.rings[p][SlotOf(cfg, a)] == sc.rings[p][SlotOf(cfg, a)])
            && d.lastAnchor == a && d.anchors == c.anchors + |scans|
            && d.gaps == c.gaps && d.mismatches == c.mismatches && !d.failed
  {
    RunSynced(cfg, Server(next, 2, Nats(cfg.symbols), Nats(cfg.symbols), true), c, scans, local);
    hide Synced, StreamAll, HandleAll, SlotOf, Caught;
  }

  /** After the final flush at close, too, the tables are what the server last read. */
  lemma FinalFlushReplicates(cfg: Config, sv: Server, c: Client, prev: Scan, sc: Scan, local: nat -> Bytes)
    requires Synced(cfg, sv, c, prev) && !sv.first && LaterScan(cfg, prev, sc)
    ensures var d := HandleAll(c, FinalFlush(cfg, sv, sc).msgs, local);
            ReplicaFits(cfg, d) && d.gaps == c.gaps &&
            forall k :: 0 <= k < cfg.symbols ==>
              d.snaps[k] == sc.snaps[k].content && d.micros[k] == sc.micros[k].content
  {
    SymbolsReplicate(cfg, sv, c, prev, sc, cfg.symbols, local);
    var e := EmitSymbols(sv, sc, cfg.symbols);
    var d := HandleAll(c, e.msgs, local);
    assert sv.(first := false) == sv;
    hide HandleAll, EmitSymbols;
    forall k | 0 <= k < cfg.symbols
      ensures d.snaps[k] == sc.snaps[k].content && d.micros[k] == sc.micros[k].content
    {
      assert CellSynced(e.sv, d, sc, k);
    }
  }
}
