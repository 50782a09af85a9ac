/** The relay's wire format: big-endian numbers, length-prefixed packets and their payloads. */
module Wire {
  import opened Modular
  import opened Results

  type byte = x: int | 0 <= x < 256
  type Bytes = seq<byte>

  const MAGIC := 0x5448524C
  const VERSION := 1
  const MAX_PACKET := 0x100_0000
  const PREFIX := 9

  datatype Error = EndOfStream | ShortRead | CorruptMessage | InvalidMagic | VersionMismatch

  // ---------- Numbers ----------

  function Power(n: nat): (r: nat)
    ensures r > 0
  {
    if n == 0 then 1 else 256 * Power(n - 1)
  }

  /** The lowest `n` bytes of `v`, most significant first. */
  function Put(v: nat, n: nat): (b: Bytes)
    ensures |b| == n
  {
    if n == 0 then [] else Put(v / 256, n - 1) + [v % 256]
  }

  function Get(b: Bytes): nat {
    if b == [] then 0 else 256 * Get(b[..|b| - 1]) + b[|b| - 1]
  }

  lemma LastByteApart(v: nat, m: nat)
    requires m > 0
    ensures v % (256 * m) == 256 * (v / 256 % m) + v % 256
  {
    var h := v / 256;
    var q, r := h / m, h % m;
    assert h == q * m + r;
    assert 256 * (q * m) == q * (256 * m);
    DivModUnique(v, 256 * m, q, 256 * r + v % 256);
  }

  /** Reading back gives the number modulo what fits. */
  lemma {:induction false} GetPut(v: nat, n: nat)
    ensures Get(Put(v, n)) == v % Power(n)
  {
    if n > 0 {
      var rest := Put(v / 256, n - 1);
      assert Put(v, n)[..n - 1] == rest;
      GetPut(v / 256, n - 1);
      LastByteApart(v, Power(n - 1));
    }
  }

  lemma {:induction false} GetBounded(b: Bytes)
    ensures Get(b) < Power(|b|)
  {
    if b != [] { GetBounded(b[..|b| - 1]); }
  }

  /** And the bytes are the only ones that read as that number. */
  lemma {:induction false} PutGet(b: Bytes)
    ensures Put(Get(b), |b|) == b
  {
    if b != [] {
      var rest, last := b[..|b| - 1], b[|b| - 1];
      PutGet(rest);
      assert Get(b) / 256 == Get(rest) && Get(b) % 256 == last;
      assert b == rest + [last];
    }
  }

  lemma Powers()
    ensures Power(1) == 0x100 && Power(2) == 0x1_0000 && Power(4) == 0x1_0000_0000
            && Power(8) == 0x1_0000_0000_0000_0000
  {
    assert Power(1) == 256 * Power(0);
    assert Power(2) == 256 * Power(1);
    assert Power(3) == 256 * Power(2);
    assert Power(4) == 256 * Power(3);
    assert Power(5) == 256 * Power(4);
    assert Power(6) == 256 * Power(5);
    assert Power(7) == 256 * Power(6);
    assert Power(8) == 256 * Power(7);
  }

  type uint8 = x: int | 0 <= x < 0x100
  type uint32 = x: int | 0 <= x < 0x1_0000_0000
  type uint64 = x: int | 0 <= x < 0x1_0000_0000_0000_0000
  type int64 = x: int | -0x8000_0000_0000_0000 <= x < 0x8000_0000_0000_0000

  lemma RoundTrip32(v: uint32)
    ensures Get(Put(v, 4)) == v
  {
    GetPut(v, 4);
    Powers();
  }

  lemma RoundTrip64(v: uint64)
    ensures Get(Put(v, 8)) == v
  {
    GetPut(v, 8);
    Powers();
  }

  /** Go's conversions between signed and unsigned 64-bit integers keep the bits. */
  function ToUnsigned(i: int64): uint64 {
    if i < 0 then i + 0x1_0000_0000_0000_0000 else i
  }

  function ToSigned(u: uint64): int64 {
    if u < 0x8000_0000_0000_0000 then u else u - 0x1_0000_0000_0000_0000
  }

  function Get32(b: Bytes): uint32
    requires |b| == 4
  {
    GetBounded(b);
    Powers();
    Get(b)
  }

  function Get64(b: Bytes): uint64
    requires |b| == 8
  {
    GetBounded(b);
    Powers();
    Get(b)
  }

  // ---------- Packets ----------

  datatype Packet = Packet(kind: uint8, seqNo: uint64, payload: Bytes)

  /** `WritePacket`: the length is computed in 32 bits. */
  function PacketBytes(p: Packet): Bytes {
    Put((PREFIX + |p.payload|) % 0x1_0000_0000, 4) + [p.kind] + Put(p.seqNo, 8) + p.payload
  }

  datatype Received = Received(packet: Packet, rest: Bytes)

  /** `ReadPacket` on the bytes still to come. */
  function ReadOne(stream: Bytes): Result<Received, Error> {
    if stream == [] then Failed(EndOfStream)
    else if |stream| < 4 then Failed(ShortRead)
    else
      var total := Get32(stream[..4]);
      var body := stream[4..];
      if total < PREFIX || total > MAX_PACKET then Failed(CorruptMessage)
      else if body == [] then Failed(EndOfStream)
      else if |body| < total then Failed(ShortRead)
      else Ok(Received(Packet(body[0], Get64(body[1..9]), body[9..total]), body[total..]))
  }

  /** A packet comes back as it was written exactly if it is within the limit of 16 MiB. */
  lemma PacketRoundTrip(p: Packet, rest: Bytes)
    ensures ReadOne(PacketBytes(p) + rest) == Ok(Received(p, rest)) <==> PREFIX + |p.payload| <= MAX_PACKET
  {
    hide Put, Get;
    var n := PREFIX + |p.payload|;
    var total := n % 0x1_0000_0000;
    var stream := PacketBytes(p) + rest;
    RoundTrip32(total);
    RoundTrip64(p.seqNo);
    assert stream[..4] == Put(total, 4);
    var body := stream[4..];
    assert body == [p.kind] + Put(p.seqNo, 8) + p.payload + rest;
    assert body[1..9] == Put(p.seqNo, 8);
    if n <= MAX_PACKET {
      assert total == n;
      assert body[9..n] == p.payload && body[n..] == rest;
    } else if PREFIX <= total <= MAX_PACKET {
      assert |body[9..total]| == total - 9 < |p.payload|;
    }
  }

  function Concat(ps: seq<Packet>): Bytes {
    if ps == [] then [] else PacketBytes(ps[0]) + Concat(ps[1..])
  }

  /** Reading until the first failure. */
  function ReadAll(stream: Bytes): seq<Packet>
    decreases |stream|
  {
    match ReadOne(stream)
    case Failed(_) => []
    case Ok(r) => [r.packet] + ReadAll(r.rest)
  }

  ghost predicate WithinLimit(ps: seq<Packet>) {
    forall i :: 0 <= i < |ps| ==> PREFIX + |ps[i].payload| <= MAX_PACKET
  }

  /** Any list of packets within the limit is read back from the concatenation of what was written, and the
      end of the list is a clean end of stream. */
  lemma {:induction false} StreamRoundTrip(ps: seq<Packet>)
    requires WithinLimit(ps)
    ensures ReadAll(Concat(ps)) == ps
  {
    if ps != [] {
      StreamRoundTrip(ps[1..]);
      PacketRoundTrip(ps[0], Concat(ps[1..]));
    }
  }

  /** A connection in one direction. */
  class Pipe {
    var bytes: Bytes

    constructor ()
      ensures bytes == []
    {
      bytes := [];
    }

    /** Writes the 13-byte header, then the payload if there is one. */
    method WritePacket(p: Packet)
      modifies this
      ensures bytes == old(bytes) + PacketBytes(p)
    {
      var total := (PREFIX + |p.payload|) % 0x1_0000_0000;
      var header := Put(total, 4) + [p.kind] + Put(p.seqNo, 8);
      bytes := bytes + header;
      assert header + p.payload == PacketBytes(p);
      if |p.payload| > 0 {
        assert old(bytes) + header + p.payload == old(bytes) + (header + p.payload);
        bytes := bytes + p.payload;
      }
    }

    /** Reads the length, then the message in one piece. */
    method ReadPacket() returns (r: Result<Packet, Error>)
      modifies this
      ensures match ReadOne(old(bytes))
              case Ok(x) => r == Ok(x.packet) && bytes == x.rest
              case Failed(e) => r == Failed(e)
    {
      if bytes == [] {
        return Failed(EndOfStream);
      }
      if |bytes| < 4 {
        return Failed(ShortRead);
      }
      var total := Get32(bytes[..4]);
      bytes := bytes[4..];
      if total < PREFIX || total > MAX_PACKET {
        return Failed(CorruptMessage);
      }
      if bytes == [] {
        return Failed(EndOfStream);
      }
      if |bytes| < total {
        return Failed(ShortRead);
      }
      var msg := bytes[..total];
      bytes := bytes[total..];
      assert old(bytes)[4..][1..9] == msg[1..9] && old(bytes)[4..][9..total] == msg[9..total];
      r := Ok(Packet(msg[0], Get64(msg[1..9]), msg[9..total]));
    }
  }

  // ---------- Frame slots and anchor commits ----------

  datatype FrameSlot = FrameSlot(phase: uint8, slot: uint32, anchor: int64, raw: Bytes)
  datatype AnchorCommit = AnchorCommit(anchor: int64, snapshots: uint32)

  function EncodeFrameSlot(f: FrameSlot): Bytes {
    [f.phase] + Put(f.slot, 4) + Put(ToUnsigned(f.anchor), 8) + f.raw
  }

  function DecodeFrameSlot(data: Bytes): Result<FrameSlot, Error> {
    if |data| < 13 then Failed(ShortRead)
    else Ok(FrameSlot(data[0], Get32(data[1..5]), ToSigned(Get64(data[5..13])), data[13..]))
  }

  lemma FrameSlotRoundTrip(f: FrameSlot)
    ensures DecodeFrameSlot(EncodeFrameSlot(f)) == Ok(f)
  {
    var data := EncodeFrameSlot(f);
    RoundTrip32(f.slot);
    RoundTrip64(ToUnsigned(f.anchor));
    assert data[1..5] == Put(f.slot, 4) && data[5..13] == Put(ToUnsigned(f.anchor), 8) && data[13..] == f.raw;
  }

  /** Different bytes are different frame slots: decoding loses nothing. */
  lemma FrameSlotIsInjective(data: Bytes)
    requires DecodeFrameSlot(data).Ok?
    ensures EncodeFrameSlot(DecodeFrameSlot(data).value) == data
  {
    PutGet(data[1..5]);
    PutGet(data[5..13]);
    assert data == [data[0]] + data[1..5] + data[5..13] + data[13..];
  }

  function EncodeAnchorCommit(a: AnchorCommit): Bytes {
    Put(ToUnsigned(a.anchor), 8) + Put(a.snapshots, 4)
  }

  function DecodeAnchorCommit(data: Bytes): Result<AnchorCommit, Error> {
    if |data| < 12 then Failed(ShortRead) else Ok(AnchorCommit(ToSigned(Get64(data[..8])), Get32(data[8..12])))
  }

  lemma AnchorCommitRoundTrip(a: AnchorCommit)
    ensures DecodeAnchorCommit(EncodeAnchorCommit(a)) == Ok(a)
  {
    var data := EncodeAnchorCommit(a);
    RoundTrip32(a.snapshots);
    RoundTrip64(ToUnsigned(a.anchor));
    assert data[..8] == Put(ToUnsigned(a.anchor), 8) && data[8..12] == Put(a.snapshots, 4);
  }

  // ---------- Snapshots ----------

  type uint16 = x: int | 0 <= x < 0x1_0000

  const SNAPSHOT_SIZE := 128

  /** A snapshot or micro snapshot travels as the 128 bytes of its struct, after the symbol index. */
  function EncodeSnapshot(symbol: uint16, raw: Bytes): Bytes {
    Put(symbol, 2) + raw
  }

  function DecodeSnapshot(data: Bytes): Result<(uint16, Bytes), Error> {
    if |data| < 2 + SNAPSHOT_SIZE then Failed(ShortRead)
    else Ok((Get16(data[..2]), data[2..2 + SNAPSHOT_SIZE]))
  }

  function Get16(b: Bytes): uint16
    requires |b| == 2
  {
    GetBounded(b);
    Powers();
    Get(b)
  }

  lemma SnapshotRoundTrip(symbol: uint16, raw: Bytes)
    requires |raw| == SNAPSHOT_SIZE
    ensures DecodeSnapshot(EncodeSnapshot(symbol, raw)) == Ok((symbol, raw))
  {
    GetPut(symbol, 2);
    Powers();
    var data := EncodeSnapshot(symbol, raw);
    assert data[..2] == Put(symbol, 2) && data[2..2 + SNAPSHOT_SIZE] == raw;
  }

  // ---------- Handshakes ----------

  datatype PhaseInfo = PhaseInfo(id: uint32, offsetMS: uint32, symbols: uint32, features: uint32, stride: uint64,
                                 ring: uint64)

  datatype Header = Header(magic: uint32, version: uint32, abi: uint32, mode: uint32, cadence: int64,
                           maxFrames: uint32, totalSymbols: uint32, numPhases: uint32)

  datatype Handshake = Handshake(header: Header, phases: seq<PhaseInfo>, symbols: seq<Bytes>, config: Bytes)

  const HEADER_SIZE := 36
  const PHASE_SIZE := 32
  const NAME_SIZE := 16

  function PutHeader(h: Header): (b: Bytes)
    ensures |b| == HEADER_SIZE
  {
    Put(h.magic, 4) + Put(h.version, 4) + Put(h.abi, 4) + Put(h.mode, 4) + Put(ToUnsigned(h.cadence), 8) +
    Put(h.maxFrames, 4) + Put(h.totalSymbols, 4) + Put(h.numPhases, 4)
  }

  function GetHeader(b: Bytes): Header
    requires |b| >= HEADER_SIZE
  {
    Header(Get32(b[0..4]), Get32(b[4..8]), Get32(b[8..12]), Get32(b[12..16]), ToSigned(Get64(b[16..24])),
           Get32(b[24..28]), Get32(b[28..32]), Get32(b[32..36]))
  }

  function PutPhase(p: PhaseInfo): (b: Bytes)
    ensures |b| == PHASE_SIZE
  {
    Put(p.id, 4) + Put(p.offsetMS, 4) + Put(p.symbols, 4) + Put(p.features, 4) + Put(p.stride, 8) + Put(p.ring, 8)
  }

  function GetPhase(b: Bytes): PhaseInfo
    requires |b| == PHASE_SIZE
  {
    PhaseInfo(Get32(b[0..4]), Get32(b[4..8]), Get32(b[8..12]), Get32(b[12..16]), Get64(b[16..24]), Get64(b[24..32]))
  }

  function Zeros(n: nat): (b: Bytes)
    ensures |b| == n && forall i :: 0 <= i < n ==> b[i] == 0
  {
    seq(n, _ => 0)
  }

  /** A symbol name in its 16-byte field: cut off or filled up with zeros. */
  function PutName(s: Bytes): (b: Bytes)
    ensures |b| == NAME_SIZE
  {
    if |s| >= NAME_SIZE then s[..NAME_SIZE] else s + Zeros(NAME_SIZE - |s|)
  }

  /** The bytes before the first zero. */
  function Trim(b: Bytes): Bytes {
    if b == [] || b[0] == 0 then [] else [b[0]] + Trim(b[1..])
  }

  lemma {:induction false} TrimStops(s: Bytes, t: Bytes)
    ensures (t == [] || t[0] == 0) && (forall i :: 0 <= i < |s| ==> s[i] != 0) ==> Trim(s + t) == s
  {
    if s == [] {
      assert s + t == t;
    } else {
      assert (s + t)[1..] == s[1..] + t;
      TrimStops(s[1..], t);
    }
  }

  lemma {:induction false} TrimHasNoZero(b: Bytes)
    ensures |Trim(b)| <= |b| && forall i :: 0 <= i < |Trim(b)| ==> Trim(b)[i] != 0
  {
    if b != [] { TrimHasNoZero(b[1..]); }
  }

  predicate GoodName(s: Bytes) {
    |s| <= NAME_SIZE && forall i :: 0 <= i < |s| ==> s[i] != 0
  }

  /** Exactly the names of at most 16 bytes without a zero byte survive. */
  lemma NameRoundTrip(s: Bytes)
    ensures Trim(PutName(s)) == s <==> GoodName(s)
  {
    TrimHasNoZero(PutName(s));
    if |s| < NAME_SIZE {
      TrimStops(s, Zeros(NAME_SIZE - |s|));
    } else {
      assert s[..NAME_SIZE] + [] == s[..NAME_SIZE];
      TrimStops(s[..NAME_SIZE], []);
    }
  }

  function PutPhases(ps: seq<PhaseInfo>): (b: Bytes)
    ensures |b| == PHASE_SIZE * |ps|
  {
    if ps == [] then [] else PutPhases(ps[..|ps| - 1]) + PutPhase(ps[|ps| - 1])
  }

  function PutNames(ss: seq<Bytes>): (b: Bytes)
    ensures |b| == NAME_SIZE * |ss|
  {
    if ss == [] then [] else PutNames(ss[..|ss| - 1]) + PutName(ss[|ss| - 1])
  }

  function GetPhases(b: Bytes, n: nat): (ps: seq<PhaseInfo>)
    requires |b| >= PHASE_SIZE * n
    ensures |ps| == n
  {
    if n == 0 then [] else GetPhases(b, n - 1) + [GetPhase(b[PHASE_SIZE * (n - 1)..PHASE_SIZE * n])]
  }

  function GetNames(b: Bytes, n: nat): (ss: seq<Bytes>)
    requires |b| >= NAME_SIZE * n
    ensures |ss| == n
  {
    if n == 0 then [] else GetNames(b, n - 1) + [Trim(b[NAME_SIZE * (n - 1)..NAME_SIZE * n])]
  }

  function HandshakeBytes(h: Handshake): Bytes {
    PutHeader(h.header) + PutPhases(h.phases) + PutNames(h.symbols) + h.config
  }

  function ParseHandshake(data: Bytes): Result<Handshake, Error> {
    if |data| < HEADER_SIZE then Failed(ShortRead)
    else
      var h := GetHeader(data);
      if h.magic != MAGIC then Failed(InvalidMagic)
      else if h.version != VERSION then Failed(VersionMismatch)
      else
        var names := HEADER_SIZE + PHASE_SIZE * h.numPhases;
        var config := names + NAME_SIZE * h.totalSymbols;
        if |data| < config then Failed(ShortRead)
        else Ok(Handshake(h, GetPhases(data[HEADER_SIZE..], h.numPhases), GetNames(data[names..], h.totalSymbols),
                          data[config..]))
  }

  lemma HeaderRoundTrip(h: Header, rest: Bytes)
    ensures GetHeader(PutHeader(h) + rest) == h
  {
    hide Put, Get;
    var b := PutHeader(h) + rest;
    RoundTrip32(h.magic);
    RoundTrip32(h.version);
    RoundTrip32(h.abi);
    RoundTrip32(h.mode);
    RoundTrip64(ToUnsigned(h.cadence));
    RoundTrip32(h.maxFrames);
    RoundTrip32(h.totalSymbols);
    RoundTrip32(h.numPhases);
    assert b[0..4] == Put(h.magic, 4) && b[4..8] == Put(h.version, 4) && b[8..12] == Put(h.abi, 4)
           && b[12..16] == Put(h.mode, 4);
    assert b[16..24] == Put(ToUnsigned(h.cadence), 8);
    assert b[24..28] == Put(h.maxFrames, 4) && b[28..32] == Put(h.totalSymbols, 4) && b[32..36] == Put(h.numPhases, 4);
  }

  lemma PhaseRoundTrip(p: PhaseInfo)
    ensures GetPhase(PutPhase(p)) == p
  {
    hide Put, Get;
    var b := PutPhase(p);
    RoundTrip32(p.id);
    RoundTrip32(p.offsetMS);
    RoundTrip32(p.symbols);
    RoundTrip32(p.features);
    RoundTrip64(p.stride);
    RoundTrip64(p.ring);
    assert b[0..4] == Put(p.id, 4) && b[4..8] == Put(p.offsetMS, 4) && b[8..12] == Put(p.symbols, 4)
           && b[12..16] == Put(p.features, 4);
    assert b[16..24] == Put(p.stride, 8) && b[24..32] == Put(p.ring, 8);
  }

  lemma PhasesStep(ps: seq<PhaseInfo>, rest: Bytes)
    requires ps != []
    ensures var n, last := |ps|, PutPhase(ps[|ps| - 1]);
            var b := PutPhases(ps) + rest;
            && b == PutPhases(ps[..n - 1]) + (last + rest)
            && GetPhases(b, n) == GetPhases(b, n - 1) + [GetPhase(last)]
  {
    hide PutPhase, GetPhase;
    LastField(PutPhases(ps[..|ps| - 1]), PutPhase(ps[|ps| - 1]), rest);
  }

  lemma {:induction false} PhasesRoundTrip(ps: seq<PhaseInfo>, rest: Bytes)
    ensures GetPhases(PutPhases(ps) + rest, |ps|) == ps
  {
    hide PutPhase, GetPhase;
    if ps != [] {
      var n := |ps|;
      PhasesRoundTrip(ps[..n - 1], PutPhase(ps[n - 1]) + rest);
      PhaseRoundTrip(ps[n - 1]);
      PhasesStep(ps, rest);
      hide *;
      assert ps == ps[..n - 1] + [ps[n - 1]];
    }
  }

  lemma NamesStep(ss: seq<Bytes>, rest: Bytes)
    requires ss != []
    ensures var n, last := |ss|, PutName(ss[|ss| - 1]);
            var b := PutNames(ss) + rest;
            && b == PutNames(ss[..n - 1]) + (last + rest)
            && GetNames(b, n) == GetNames(b, n - 1) + [Trim(last)]
  {
    hide PutName, Trim;
    LastField(PutNames(ss[..|ss| - 1]), PutName(ss[|ss| - 1]), rest);
  }

  lemma {:induction false} NamesRoundTrip(ss: seq<Bytes>, rest: Bytes)
    requires forall i :: 0 <= i < |ss| ==> GoodName(ss[i])
    ensures GetNames(PutNames(ss) + rest, |ss|) == ss
  {
    hide PutName, Trim;
    if ss != [] {
      var n := |ss|;
      NamesRoundTrip(ss[..n - 1], PutName(ss[n - 1]) + rest);
      NameRoundTrip(ss[n - 1]);
      NamesStep(ss, rest);
      hide *;
      assert ss == ss[..n - 1] + [ss[n - 1]];
    }
  }

  /** A handshake with matching magic, version and counts, and good names, is decoded to itself. */
  lemma HandshakeRoundTrip(h: Handshake)
    requires h.header.magic == MAGIC && h.header.version == VERSION
    requires h.header.numPhases == |h.phases| && h.header.totalSymbols == |h.symbols|
    requires forall i :: 0 <= i < |h.symbols| ==> GoodName(h.symbols[i])
    ensures ParseHandshake(HandshakeBytes(h)) == Ok(h)
  {
    var phases, names := PutPhases(h.phases), PutNames(h.symbols);
    HeaderRoundTrip(h.header, phases + names + h.config);
    assert PutHeader(h.header) + phases + names + h.config == PutHeader(h.header) + (phases + names + h.config);
    PhasesRoundTrip(h.phases, names + h.config);
    NamesRoundTrip(h.symbols, h.config);
    hide *;
    ParseSections(h.header, PutHeader(h.header), phases, names, h.config);
    assert HandshakeBytes(h) == PutHeader(h.header) + phases + names + h.config by { WhatBytes(h); }
  }

  lemma WhatBytes(h: Handshake)
    ensures HandshakeBytes(h) == PutHeader(h.header) + PutPhases(h.phases) + PutNames(h.symbols) + h.config
  {
  }

  /** A payload made of four sections of the right lengths is cut where they meet. */
  lemma ParseSections(h: Header, a: Bytes, b: Bytes, c: Bytes, d: Bytes)
    requires |a| == HEADER_SIZE && |b| == PHASE_SIZE * h.numPhases && |c| == NAME_SIZE * h.totalSymbols
    requires GetHeader(a + b + c + d) == h && h.magic == MAGIC && h.version == VERSION
    ensures ParseHandshake(a + b + c + d) ==
            Ok(Handshake(h, GetPhases(b + (c + d), h.numPhases), GetNames(c + d, h.totalSymbols), d))
  {
    hide GetHeader, GetPhases, GetNames;
    Slices(a, b, c, d);
  }

  lemma Slices(a: Bytes, b: Bytes, c: Bytes, d: Bytes)
    ensures var s := a + b + c + d;
            && s == a + (b + c + d) && |s| == |a| + |b| + |c| + |d|
            && s[|a|..] == b + (c + d)
            && s[|a| + |b|..] == c + d
            && s[|a| + |b| + |c|..] == d
  {
  }

  lemma LastField(a: Bytes, b: Bytes, rest: Bytes)
    ensures a + b + rest == a + (b + rest) && (a + b + rest)[|a|..|a| + |b|] == b
  {
  }

  // ---------- The codec loops ----------

  /** `EncodeHandshake` fills a buffer section by section. */
  method EncodeHandshake(h: Handshake) returns (buf: Bytes)
    ensures buf == HandshakeBytes(h)
  {
    hide PutHeader, PutPhase, PutName;
    buf := PutHeader(h.header);
    for i := 0 to |h.phases|
      invariant buf == PutHeader(h.header) + PutPhases(h.phases[..i])
    {
      assert h.phases[..i + 1][..i] == h.phases[..i];
      buf := buf + PutPhase(h.phases[i]);
    }
    assert h.phases[..|h.phases|] == h.phases;
    for i := 0 to |h.symbols|
      invariant buf == PutHeader(h.header) + PutPhases(h.phases) + PutNames(h.symbols[..i])
    {
      assert h.symbols[..i + 1][..i] == h.symbols[..i];
      buf := buf + PutName(h.symbols[i]);
    }
    assert h.symbols[..|h.symbols|] == h.symbols;
    buf := buf + h.config;
  }

  /** A name up to its first zero byte. */
  method ReadName(raw: Bytes) returns (name: Bytes)
    ensures name == Trim(raw)
  {
    name := raw;
    assert raw[0..] == raw;
    for j := 0 to |raw|
      invariant name == raw && Trim(raw) == raw[..j] + Trim(raw[j..])
    {
      if raw[j] == 0 {
        name := raw[..j];
        return;
      }
      assert raw[j..][1..] == raw[j + 1..];
      assert raw[..j + 1] == raw[..j] + [raw[j]];
    }
  }

  /** `DecodeHandshake` walks over the payload with an advancing offset. */
  method DecodeHandshake(data: Bytes) returns (r: Result<Handshake, Error>)
    ensures r == ParseHandshake(data)
  {
    hide GetHeader, GetPhase, Trim;
    if |data| < HEADER_SIZE {
      return Failed(ShortRead);
    }
    var h := GetHeader(data);
    if h.magic != MAGIC {
      return Failed(InvalidMagic);
    }
    if h.version != VERSION {
      return Failed(VersionMismatch);
    }
    if |data| < HEADER_SIZE + h.numPhases * PHASE_SIZE + h.totalSymbols * NAME_SIZE {
      return Failed(ShortRead);
    }
    var phases: seq<PhaseInfo>, symbols: seq<Bytes> := [], [];
    var offset := HEADER_SIZE;
    for i := 0 to h.numPhases
      invariant offset == HEADER_SIZE + PHASE_SIZE * i && phases == GetPhases(data[HEADER_SIZE..], i)
    {
      assert data[HEADER_SIZE..][PHASE_SIZE * i..PHASE_SIZE * (i + 1)] == data[offset..offset + PHASE_SIZE];
      phases := phases + [GetPhase(data[offset..offset + PHASE_SIZE])];
      offset := offset + PHASE_SIZE;
    }
    var names := offset;
    for i := 0 to h.totalSymbols
      invariant offset == names + NAME_SIZE * i && symbols == GetNames(data[names..], i)
    {
      assert data[names..][NAME_SIZE * i..NAME_SIZE * (i + 1)] == data[offset..offset + NAME_SIZE];
      var name := ReadName(data[offset..offset + NAME_SIZE]);
      symbols := symbols + [name];
      offset := offset + NAME_SIZE;
    }
    r := Ok(Handshake(h, phases, symbols, data[offset..]));
  }
}
