/**
 Cast RTP packetization (src/rtp.rs): an encrypted frame is cut into packets
 carrying the RTP header of section 5.1 of RFC 3550 followed by the Cast header.
 `Decode` and `Reassemble` are the receiving side, written from the wire format.
 */
module Rtp {
  import opened Bytes
  import opened FrameIds

  type Packet = seq<byte>

  const BASE_HEADER_SIZE: nat := 19
  const MAX_HEADER_SIZE: nat := 23
  const REQUIRED_FIRST_BYTE: byte := 0x80
  const PACKET_ID_SPACE: nat := 0x1_0000

  /** What a frame contributes to every one of its packet headers. */
  datatype FrameHeader = FrameHeader(
    frameId: int,
    keyFrame: bool,
    referencedFrameId: int,
    rtpTimestamp: u32,
    newPlayoutDelay: Option<nat>)   // milliseconds

  datatype Source = Source(syncSource: u32, payloadType: byte)

  /** How many packets a payload needs; an empty payload still takes one. */
  function PacketCount(length: nat, maxPayload: nat): (n: nat)
    requires length == 0 || 0 < maxPayload
    ensures n >= 1
    ensures length > 0 ==> (n - 1) * maxPayload < length <= n * maxPayload
  {
    if length == 0 then 1
    else
      DivisionBounds(length + maxPayload - 1, maxPayload);
      (length + maxPayload - 1) / maxPayload
  }

  lemma DivisionBounds(a: nat, b: nat)
    requires b > 0
    ensures a / b * b <= a < (a / b + 1) * b
  {
  }

  /** The slice of the payload that packet `i` carries. */
  function Chunk(payload: seq<byte>, maxPayload: nat, i: nat): (chunk: seq<byte>)
    requires payload == [] || 0 < maxPayload
    requires i < PacketCount(|payload|, maxPayload)
    ensures |chunk| <= maxPayload
  {
    ChunkStart(payload, maxPayload, i);
    payload[i * maxPayload..Min(i * maxPayload + maxPayload, |payload|)]
  }

  lemma ChunkStart(payload: seq<byte>, maxPayload: nat, i: nat)
    requires payload == [] || 0 < maxPayload
    requires i < PacketCount(|payload|, maxPayload)
    ensures 0 <= i * maxPayload <= |payload|
  {
    Times(i, PacketCount(|payload|, maxPayload) - 1, maxPayload);
  }

  lemma Times(i: nat, j: nat, m: nat)
    requires i <= j
    ensures 0 <= i * m <= j * m
  {
  }

  /** The 19 header bytes every packet starts with. */
  function BaseHeader(source: Source, h: FrameHeader, sequence: u16, n: nat, i: nat): (s: seq<byte>)
    requires i < n
    ensures |s| == BASE_HEADER_SIZE
  {
    var marker: int := if i == n - 1 then 0x80 else 0;
    var key: int := if h.keyFrame then 0x80 else 0;
    var extensions: int := if HasExtension(h, i) then 1 else 0;
    [REQUIRED_FIRST_BYTE, marker + source.payloadType % 0x80] + Be16(sequence)
    + Be32(h.rtpTimestamp) + Be32(source.syncSource)
    + [key + 0x40 + extensions, Truncate(h.frameId)]
    + Be16(i % PACKET_ID_SPACE) + Be16((n - 1) % PACKET_ID_SPACE)
    + [Truncate(h.referencedFrameId)]
  }

  /** Only a frame's first packet announces a new playout delay. */
  predicate HasExtension(h: FrameHeader, i: nat) { i == 0 && h.newPlayoutDelay.Some? }

  /** The adaptive-latency extension: type 1, two data bytes. */
  function Extension(h: FrameHeader, i: nat): (s: seq<byte>)
    ensures |s| == if HasExtension(h, i) then 4 else 0
  {
    if HasExtension(h, i) then Be16(0x402) + Be16(h.newPlayoutDelay.value % 0x1_0000) else []
  }

  /** Packet `i` of a frame whose first packet has sequence number `firstSequence`. */
  function PacketAt(
    source: Source, maxPayload: nat, h: FrameHeader, firstSequence: u16, payload: seq<byte>, i: nat): (p: Packet)
    requires payload == [] || 0 < maxPayload
    requires i < PacketCount(|payload|, maxPayload)
    ensures |p| <= MAX_HEADER_SIZE + maxPayload
  {
    BaseHeader(source, h, (firstSequence + i) % 0x1_0000, PacketCount(|payload|, maxPayload), i)
    + Extension(h, i) + Chunk(payload, maxPayload, i)
  }

  /** All packets of a frame, in packetization order. */
  function Packets(
    source: Source, maxPayload: nat, h: FrameHeader, firstSequence: u16, payload: seq<byte>): (ps: seq<Packet>)
    requires payload == [] || 0 < maxPayload
    ensures |ps| == PacketCount(|payload|, maxPayload)
  {
    seq(PacketCount(|payload|, maxPayload),
        i requires 0 <= i < PacketCount(|payload|, maxPayload) =>
          PacketAt(source, maxPayload, h, firstSequence, payload, i))
  }

  lemma NextSequence(first: u16, i: nat)
    ensures ((first + i) % 0x1_0000 + 1) % 0x1_0000 == (first + i + 1) % 0x1_0000
  {
  }

  /** Mutable packetization state of one stream. */
  class RtpPacketizer {
    const source: Source
    const maxPayloadSize: nat
    var sequenceNumber: u16

    /** The first sequence number is random; here it is given. */
    constructor (source: Source, maxPacketSize: nat, initialSequence: u16)
      ensures this.source == source && sequenceNumber == initialSequence
      ensures maxPayloadSize == Max(maxPacketSize - MAX_HEADER_SIZE, 0)
    {
      this.source := source;
      this.maxPayloadSize := Max(maxPacketSize - MAX_HEADER_SIZE, 0);
      this.sequenceNumber := initialSequence;
    }

    /** Split an encrypted frame; sequence numbers run on across frames modulo 2^16. */
    method Packetize(h: FrameHeader, payload: seq<byte>) returns (packets: seq<Packet>)
      requires payload == [] || 0 < maxPayloadSize
      modifies this
      ensures packets == Packets(source, maxPayloadSize, h, old(sequenceNumber), payload)
      ensures sequenceNumber == (old(sequenceNumber) + |packets|) % 0x1_0000
    {
      var numPackets := PacketCount(|payload|, maxPayloadSize);
      packets := [];
      for packetId := 0 to numPackets
        invariant |packets| == packetId
        invariant sequenceNumber == (old(sequenceNumber) + packetId) % 0x1_0000
        invariant forall i :: 0 <= i < packetId ==>
          packets[i] == PacketAt(source, maxPayloadSize, h, old(sequenceNumber), payload, i)
      {
        var buffer := BaseHeader(source, h, sequenceNumber, numPackets, packetId) + Extension(h, packetId)
                      + Chunk(payload, maxPayloadSize, packetId);
        NextSequence(old(sequenceNumber), packetId);
        sequenceNumber := (sequenceNumber + 1) % 0x1_0000;
        packets := packets + [buffer];
      }
    }
  }

  // ----- The receiving side ------------------------------------------------

  /** The fields of a Cast RTP packet. */
  datatype View = View(
    marker: bool,
    payloadType: int,
    sequence: u16,
    rtpTimestamp: u32,
    syncSource: u32,
    keyFrame: bool,
    frameId: byte,
    packetId: u16,
    maxPacketId: u16,
    referencedFrameId: byte,
    playoutDelay: Option<u16>,
    payload: seq<byte>)

  /** Read one packet; any number of extensions is skipped over. */
  function Decode(p: Packet): Option<View> {
    if |p| < BASE_HEADER_SIZE || p[0] != REQUIRED_FIRST_BYTE || p[12] / 0x40 % 2 == 0 then None
    else
      match SkipExtensions(p, BASE_HEADER_SIZE, p[12] % 0x40, None)
      case None => None
      case Some((offset, delay)) =>
        Some(View(p[1] >= 0x80, p[1] % 0x80, ReadU16(p, 2), ReadU32(p, 4), ReadU32(p, 8),
                  p[12] >= 0x80, p[13], ReadU16(p, 14), ReadU16(p, 16), p[18], delay, p[offset..]))
  }

  /** Walk `count` type-length-value extensions, keeping the last adaptive latency. */
  function SkipExtensions(p: Packet, offset: nat, count: nat, delay: Option<u16>): (r: Option<(nat, Option<u16>)>)
    ensures r.Some? ==> offset <= r.value.0
    ensures r.Some? && offset <= |p| ==> r.value.0 <= |p|
    decreases count
  {
    if count == 0 then Some((offset, delay))
    else if offset + 2 > |p| then None
    else
      var size := ReadU16(p, offset) % 0x400;
      if offset + 2 + size > |p| then None
      else
        SkipExtensions(p, offset + 2 + size, count - 1,
                       if ReadU16(p, offset) / 0x400 == 1 && size == 2
                       then Some(ReadU16(p, offset + 2)) else delay)
  }

  /** What the receiver reads out of packet `i`. */
  ghost function ExpectedView(
    source: Source, maxPayload: nat, h: FrameHeader, firstSequence: u16, payload: seq<byte>, i: nat): View
    requires payload == [] || 0 < maxPayload
    requires i < PacketCount(|payload|, maxPayload)
  {
    var n := PacketCount(|payload|, maxPayload);
    View(i == n - 1, source.payloadType % 0x80, (firstSequence + i) % 0x1_0000, h.rtpTimestamp, source.syncSource,
         h.keyFrame, Truncate(h.frameId), i % PACKET_ID_SPACE, (n - 1) % PACKET_ID_SPACE,
         Truncate(h.referencedFrameId),
         if HasExtension(h, i) then Some(h.newPlayoutDelay.value % 0x1_0000) else None,
         Chunk(payload, maxPayload, i))
  }

  lemma BaseHeaderFields(source: Source, h: FrameHeader, sequence: u16, n: nat, i: nat)
    requires i < n
    ensures
      var s := BaseHeader(source, h, sequence, n, i);
      && s[0] == REQUIRED_FIRST_BYTE
      && (s[1] >= 0x80 <==> i == n - 1) && s[1] % 0x80 == source.payloadType % 0x80
      && ReadU16(s, 2) == sequence && ReadU32(s, 4) == h.rtpTimestamp && ReadU32(s, 8) == source.syncSource
      && (s[12] >= 0x80 <==> h.keyFrame) && s[12] / 0x40 % 2 == 1
      && s[12] % 0x40 == (if HasExtension(h, i) then 1 else 0)
      && s[13] == Truncate(h.frameId) && ReadU16(s, 14) == i % PACKET_ID_SPACE
      && ReadU16(s, 16) == (n - 1) % PACKET_ID_SPACE && s[18] == Truncate(h.referencedFrameId)
  {
    var s := BaseHeader(source, h, sequence, n, i);
    assert s[2..4] == Be16(sequence) && s[4..8] == Be32(h.rtpTimestamp) && s[8..12] == Be32(source.syncSource);
    assert s[14..16] == Be16(i % PACKET_ID_SPACE) && s[16..18] == Be16((n - 1) % PACKET_ID_SPACE);
    ReadBack16(s, 2, sequence);
    ReadBack32(s, 4, h.rtpTimestamp);
    ReadBack32(s, 8, source.syncSource);
    ReadBack16(s, 14, i % PACKET_ID_SPACE);
    ReadBack16(s, 16, (n - 1) % PACKET_ID_SPACE);
  }

  /** The receiver recovers from each packet exactly what the sender put in it. */
  lemma DecodePacket(
    source: Source, maxPayload: nat, h: FrameHeader, firstSequence: u16, payload: seq<byte>, i: nat)
    requires payload == [] || 0 < maxPayload
    requires i < PacketCount(|payload|, maxPayload)
    ensures Decode(PacketAt(source, maxPayload, h, firstSequence, payload, i))
         == Some(ExpectedView(source, maxPayload, h, firstSequence, payload, i))
  {
    var n := PacketCount(|payload|, maxPayload);
    var sequence := (firstSequence + i) % 0x1_0000;
    var base := BaseHeader(source, h, sequence, n, i);
    BaseHeaderFields(source, h, sequence, n, i);
    DecodeParts(base, h, i, Chunk(payload, maxPayload, i));
  }

  /** Decoding reads the base header, skips the extension and keeps the rest. */
  lemma DecodeParts(base: seq<byte>, h: FrameHeader, i: nat, chunk: seq<byte>)
    requires |base| == BASE_HEADER_SIZE && base[0] == REQUIRED_FIRST_BYTE && base[12] / 0x40 % 2 == 1
    requires base[12] % 0x40 == if HasExtension(h, i) then 1 else 0
    ensures Decode(base + Extension(h, i) + chunk)
         == Some(View(base[1] >= 0x80, base[1] % 0x80, ReadU16(base, 2), ReadU32(base, 4), ReadU32(base, 8),
                      base[12] >= 0x80, base[13], ReadU16(base, 14), ReadU16(base, 16), base[18],
                      if HasExtension(h, i) then Some(h.newPlayoutDelay.value % 0x1_0000) else None, chunk))
  {
    var p := base + Extension(h, i) + chunk;
    assert forall k :: 0 <= k < BASE_HEADER_SIZE ==> p[k] == base[k];
    ExtensionSkipped(base, h, i, chunk);
    assert p[BASE_HEADER_SIZE + |Extension(h, i)|..] == chunk;
  }

  lemma ExtensionSkipped(base: seq<byte>, h: FrameHeader, i: nat, chunk: seq<byte>)
    requires |base| == BASE_HEADER_SIZE
    ensures SkipExtensions(base + Extension(h, i) + chunk, |base|, if HasExtension(h, i) then 1 else 0, None)
         == Some((|base| + |Extension(h, i)|,
                  if HasExtension(h, i) then Some(h.newPlayoutDelay.value % 0x1_0000) else None))
  {
    if HasExtension(h, i) {
      var delay := h.newPlayoutDelay.value % 0x1_0000;
      var p := base + Extension(h, i) + chunk;
      assert p[19..21] == Be16(0x402) && p[21..23] == Be16(delay);
      ReadBack16(p, 19, 0x402);
      ReadBack16(p, 21, delay);
    }
  }

  /** The packets that decode, decoded. */
  function Views(got: seq<Packet>): (views: seq<View>)
    ensures forall v :: v in views <==> exists p :: p in got && Decode(p) == Some(v)
  {
    if got == [] then []
    else
      var rest := Views(got[1..]);
      match Decode(got[0])
      case None => rest
      case Some(view) => [view] + rest
  }

  /** The payload carried under a packet ID, from the first packet that has it. */
  function Find(views: seq<View>, id: u16): Option<seq<byte>> {
    if views == [] then None
    else if views[0].packetId == id then Some(views[0].payload)
    else Find(views[1..], id)
  }

  /** The payloads of packets `id` to `last`, joined in packet-ID order. */
  function Join(views: seq<View>, id: nat, last: u16): Option<seq<byte>>
    requires id <= last + 1
    decreases last + 1 - id
  {
    if id == last + 1 then Some([])
    else
      var chunk, rest := Find(views, id), Join(views, id + 1, last);
      if chunk.None? || rest.None? then None else Some(chunk.value + rest.value)
  }

  /** Rebuild a frame from whatever packets of it have arrived. */
  function Reassemble(got: seq<Packet>): Option<seq<byte>> {
    var views := Views(got);
    if views == [] then None else Join(views, 0, views[0].maxPacketId)
  }

  /** The views of one frame's packets: numbered in order while IDs last, each naming the final one. */
  ghost predicate Numbered(frame: seq<View>, last: u16) {
    forall i :: 0 <= i < |frame| ==>
      frame[i].maxPacketId == last && (|frame| <= PACKET_ID_SPACE ==> frame[i].packetId == i)
  }

  /** The payloads of a frame's packets in packetization order. */
  ghost function Payload(frame: seq<View>): seq<byte> {
    if frame == [] then [] else frame[0].payload + Payload(frame[1..])
  }

  lemma {:induction false} FindChunk(frame: seq<View>, views: seq<View>, i: nat)
    requires i < |frame| <= PACKET_ID_SPACE && Numbered(frame, |frame| - 1)
    requires forall v :: v in views ==> v in frame
    requires frame[i] in views
    ensures Find(views, i) == Some(frame[i].payload)
  {
    assert views[0] in frame;
    if views[0].packetId != i {
      FindChunk(frame, views[1..], i);
    }
  }

  lemma {:induction false} JoinChunks(frame: seq<View>, views: seq<View>, i: nat)
    requires 0 < |frame| <= PACKET_ID_SPACE && Numbered(frame, |frame| - 1) && i <= |frame|
    requires forall v :: v in views <==> v in frame
    ensures Join(views, i, |frame| - 1) == Some(Payload(frame[i..]))
    decreases |frame| - i
  {
    if i < |frame| {
      assert frame[i] in frame;
      FindChunk(frame, views, i);
      JoinChunks(frame, views, i + 1);
      assert frame[i..][1..] == frame[i + 1..];
    }
  }

  lemma {:induction false} FoundLength(views: seq<View>, id: u16, bound: nat)
    requires forall v :: v in views ==> |v.payload| <= bound
    ensures Find(views, id).Some? ==> |Find(views, id).value| <= bound
  {
    if views != [] {
      assert views[0] in views;
      FoundLength(views[1..], id, bound);
    }
  }

  lemma {:induction false} JoinLength(views: seq<View>, i: nat, last: u16, bound: nat)
    requires i <= last + 1
    requires forall v :: v in views ==> |v.payload| <= bound
    ensures Join(views, i, last).Some? ==> |Join(views, i, last).value| <= (last + 1 - i) * bound
    decreases last + 1 - i
  {
    if i <= last {
      FoundLength(views, i, bound);
      JoinLength(views, i + 1, last, bound);
      assert (last + 1 - i) * bound == (last - i) * bound + bound;
    }
  }

  /** The views of a whole frame, and the fact that they hold its payload. */
  lemma FrameViews(
    source: Source, maxPayload: nat, h: FrameHeader, firstSequence: u16, payload: seq<byte>) returns (frame: seq<View>)
    requires payload == [] || 0 < maxPayload
    ensures |frame| == PacketCount(|payload|, maxPayload) && Numbered(frame, (|frame| - 1) % PACKET_ID_SPACE)
    ensures forall i :: 0 <= i < |frame| ==>
      && Decode(Packets(source, maxPayload, h, firstSequence, payload)[i]) == Some(frame[i])
      && frame[i].payload == Chunk(payload, maxPayload, i)
  {
    hide Decode, PacketAt, ExpectedView, Chunk;
    var n := PacketCount(|payload|, maxPayload);
    frame := seq(n, i requires 0 <= i < n => ExpectedView(source, maxPayload, h, firstSequence, payload, i));
    forall i | 0 <= i < n
      ensures Decode(PacketAt(source, maxPayload, h, firstSequence, payload, i)) == Some(frame[i])
      ensures frame[i].maxPacketId == (n - 1) % PACKET_ID_SPACE
      ensures n <= PACKET_ID_SPACE ==> frame[i].packetId == i
      ensures frame[i].payload == Chunk(payload, maxPayload, i)
    {
      DecodePacket(source, maxPayload, h, firstSequence, payload, i);
      ExpectedNumbering(source, maxPayload, h, firstSequence, payload, i);
    }
  }

  lemma ExpectedNumbering(
    source: Source, maxPayload: nat, h: FrameHeader, firstSequence: u16, payload: seq<byte>, i: nat)
    requires payload == [] || 0 < maxPayload
    requires i < PacketCount(|payload|, maxPayload)
    ensures
      var v := ExpectedView(source, maxPayload, h, firstSequence, payload, i);
      var n := PacketCount(|payload|, maxPayload);
      && v.maxPacketId == (n - 1) % PACKET_ID_SPACE
      && v.payload == Chunk(payload, maxPayload, i)
      && (n <= PACKET_ID_SPACE ==> v.packetId == i)
  {
  }

  lemma {:induction false} ChunksMakePayload(frame: seq<View>, payload: seq<byte>, maxPayload: nat, i: nat)
    requires payload == [] || 0 < maxPayload
    requires i <= |frame| == PacketCount(|payload|, maxPayload)
    requires forall k :: 0 <= k < |frame| ==> frame[k].payload == Chunk(payload, maxPayload, k)
    ensures Payload(frame[i..]) == payload[Min(i * maxPayload, |payload|)..]
    decreases |frame| - i
  {
    if i == |frame| {
      assert |payload| <= i * maxPayload;
    } else {
      ChunksMakePayload(frame, payload, maxPayload, i + 1);
      CutChunk(payload, maxPayload, i);
      assert frame[i..][1..] == frame[i + 1..];
    }
  }

  lemma CutChunk(payload: seq<byte>, maxPayload: nat, i: nat)
    requires payload == [] || 0 < maxPayload
    requires i < PacketCount(|payload|, maxPayload)
    ensures payload[Min(i * maxPayload, |payload|)..]
         == Chunk(payload, maxPayload, i) + payload[Min((i + 1) * maxPayload, |payload|)..]
  {
    hide PacketCount;
    ChunkStart(payload, maxPayload, i);
    NextMultiple(i, maxPayload);
    CutAt(payload, i * maxPayload, Min(i * maxPayload + maxPayload, |payload|));
  }

  lemma NextMultiple(i: nat, m: nat)
    ensures (i + 1) * m == i * m + m
  {
  }

  lemma CutAt(s: seq<byte>, start: nat, end: nat)
    requires start <= end <= |s|
    ensures s[start..] == s[start..end] + s[end..]
  {
  }

  lemma WrappedIdsFallShort(n: nat, maxPayload: nat, length: nat)
    requires n > PACKET_ID_SPACE && (n - 1) * maxPayload < length
    ensures ((n - 1) % PACKET_ID_SPACE + 1) * maxPayload < length
  {
    var k := (n - 1) % PACKET_ID_SPACE + 1;
    Times(k, n - 1, maxPayload);
  }

  lemma ArrivedViews(got: seq<Packet>, ps: seq<Packet>, frame: seq<View>)
    requires forall p :: p in got <==> p in ps
    requires |ps| == |frame| && forall i :: 0 <= i < |ps| ==> Decode(ps[i]) == Some(frame[i])
    ensures forall v :: v in Views(got) <==> v in frame
  {
    forall v | v in frame
      ensures v in Views(got)
    {
      var i :| 0 <= i < |frame| && frame[i] == v;
      assert ps[i] in got;
    }
  }

  /**
   A frame's packets, taken in any order and with any duplicates, reassemble
   into its payload exactly when the 16-bit packet IDs did not wrap.
   */
  lemma ReassembleAnyArrival(
    source: Source, maxPayload: nat, h: FrameHeader, firstSequence: u16, payload: seq<byte>, got: seq<Packet>)
    requires payload == [] || 0 < maxPayload
    requires forall p :: p in got <==> p in Packets(source, maxPayload, h, firstSequence, payload)
    ensures Reassemble(got) == Some(payload) <==> PacketCount(|payload|, maxPayload) <= PACKET_ID_SPACE
  {
    hide Packets, PacketCount, Decode, Views, Join, Chunk, Payload;
    var ps := Packets(source, maxPayload, h, firstSequence, payload);
    var frame := FrameViews(source, maxPayload, h, firstSequence, payload);
    ArrivedViews(got, ps, frame);
    ChunksMakePayload(frame, payload, maxPayload, 0);
    assert frame[0..] == frame && payload[0..] == payload;
    SeveralFill(|payload|, maxPayload);
    ReassembleFrame(frame, (|frame| - 1) % PACKET_ID_SPACE, Views(got), payload, maxPayload);
  }

  /** All packets but the last are full. */
  lemma SeveralFill(length: nat, maxPayload: nat)
    requires length == 0 || 0 < maxPayload
    ensures PacketCount(length, maxPayload) > 1 ==> (PacketCount(length, maxPayload) - 1) * maxPayload < length
  {
  }

  lemma ReassembleFrame(frame: seq<View>, last: u16, views: seq<View>, payload: seq<byte>, maxPayload: nat)
    requires frame != [] && last == (|frame| - 1) % PACKET_ID_SPACE && Numbered(frame, last)
    requires Payload(frame) == payload
    requires forall v :: v in frame ==> |v.payload| <= maxPayload
    requires |frame| > 1 ==> (|frame| - 1) * maxPayload < |payload|
    requires forall v :: v in views <==> v in frame
    ensures views != [] && views[0].maxPacketId == last
    ensures Join(views, 0, last) == Some(payload) <==> |frame| <= PACKET_ID_SPACE
  {
    assert frame[0] in views;
    assert views[0] in frame;
    if |frame| <= PACKET_ID_SPACE {
      JoinChunks(frame, views, 0);
      assert frame[0..] == frame;
    } else {
      WrappedFrameFallsShort(|frame|, views, payload, maxPayload);
    }
  }

  lemma WrappedFrameFallsShort(n: nat, views: seq<View>, payload: seq<byte>, maxPayload: nat)
    requires n > PACKET_ID_SPACE && (n - 1) * maxPayload < |payload|
    requires forall v :: v in views ==> |v.payload| <= maxPayload
    ensures Join(views, 0, (n - 1) % PACKET_ID_SPACE) != Some(payload)
  {
    JoinLength(views, 0, (n - 1) % PACKET_ID_SPACE, maxPayload);
    WrappedIdsFallShort(n, maxPayload, |payload|);
  }

  // ----- Telling media from feedback ---------------------------------------

  datatype PacketType = MediaPacket(syncSource: u32) | ControlPacket(syncSource: u32) | UnknownPacket

  function Classify(data: seq<byte>): PacketType {
    if |data| < 8 then UnknownPacket
    else if data[0] == REQUIRED_FIRST_BYTE && 96 <= data[1] % 0x80 <= 127 && |data| >= 12
    then MediaPacket(ReadU32(data, 8))
    else if data[0] / 0x40 == 2 && 200 <= data[1] <= 207 then ControlPacket(ReadU32(data, 4))
    else UnknownPacket
  }

  /**
   A media packet is recognised as one, with its source, exactly when the
   stream uses a dynamic payload type.
   */
  lemma MediaIsRecognised(
    source: Source, maxPayload: nat, h: FrameHeader, firstSequence: u16, payload: seq<byte>, i: nat)
    requires payload == [] || 0 < maxPayload
    requires i < PacketCount(|payload|, maxPayload)
    ensures Classify(PacketAt(source, maxPayload, h, firstSequence, payload, i)) == MediaPacket(source.syncSource)
       <==> 96 <= source.payloadType % 0x80
  {
    var base := BaseHeader(source, h, (firstSequence + i) % 0x1_0000, PacketCount(|payload|, maxPayload), i);
    BaseHeaderFields(source, h, (firstSequence + i) % 0x1_0000, PacketCount(|payload|, maxPayload), i);
    var p := PacketAt(source, maxPayload, h, firstSequence, payload, i);
    assert forall k :: 0 <= k < BASE_HEADER_SIZE ==> p[k] == base[k];
  }
}
