/**
 Compound RTCP feedback (src/rtcp.rs): receiver reports (section 6.4.2 of RFC
 3550), payload-specific feedback (section 6.3.1 of RFC 4585) with Cast's own
 application layer format (section 6.4 there), and receiver reference times
 (section 4.4 of RFC 3611).

 Functions give each parser's meaning; the methods are the source's loops,
 proved to compute it.
 */
module Rtcp {
  import opened Bytes
  import opened FrameIds

  const RECEIVER_REPORT: byte := 201
  const PAYLOAD_SPECIFIC: byte := 206
  const EXTENDED_REPORTS: byte := 207
  const SUBTYPE_PICTURE_LOSS: byte := 1
  const SUBTYPE_FEEDBACK: byte := 15
  const CAST_FEEDBACK_MAGIC: u32 := 0x4341_5354
  const CAST_ACK_MAGIC: u32 := 0x4353_5432
  const ALL_PACKETS_LOST: u16 := 0xFFFF

  datatype ParseError = Truncated | BadVersion | BadMagic | InvalidValue

  datatype ReceiverReport = ReceiverReport(
    receiverSyncSource: u32,
    syncSource: u32,
    fractionLost: byte,
    cumulativeLost: int,
    highestSequence: u32,
    jitter: u32,
    lastSrTimestamp: u32,
    delaySinceLastSr: u32)

  datatype PacketNack = PacketNack(frameId: int, packetId: u16)

  datatype AckBitvector = AckBitvector(feedbackCount: byte, data: seq<byte>)

  datatype CastFeedback = CastFeedback(
    receiverSyncSource: u32,
    senderSyncSource: u32,
    checkpointFrameId: byte,
    playoutDelayMs: u16,
    nacks: seq<PacketNack>,
    ackBitvector: Option<AckBitvector>)

  datatype PictureLoss = PictureLoss(receiverSyncSource: u32, senderSyncSource: u32)

  datatype ReferenceTime = ReferenceTime(receiverSyncSource: u32, ntpSeconds: u32, ntpFraction: u32)

  /** All feedback of one compound packet. */
  datatype Compound = Compound(
    receiverReports: seq<ReceiverReport>,
    castFeedbacks: seq<CastFeedback>,
    pictureLoss: seq<PictureLoss>,
    referenceTimes: seq<ReferenceTime>)

  const EMPTY: Compound := Compound([], [], [], [])

  function Append(a: Compound, b: Compound): Compound {
    Compound(a.receiverReports + b.receiverReports, a.castFeedbacks + b.castFeedbacks,
             a.pictureLoss + b.pictureLoss, a.referenceTimes + b.referenceTimes)
  }

  type Parsed<T> = Result<T, ParseError>

  // ----- Receiver reports --------------------------------------------------

  /** A 24-bit two's-complement number. */
  function ReadI24(data: seq<byte>, offset: nat): (v: int)
    requires offset + 3 <= |data|
    ensures -0x80_0000 <= v < 0x80_0000
  {
    var value := data[offset] as int * 0x1_0000 + data[offset + 1] as int * 0x100 + data[offset + 2];
    if value >= 0x80_0000 then value - 0x100_0000 else value
  }

  function ReportBlock(payload: seq<byte>, offset: nat): ReceiverReport
    requires 4 <= |payload| && offset + 24 <= |payload|
  {
    ReceiverReport(ReadU32(payload, 0), ReadU32(payload, offset), payload[offset + 4], ReadI24(payload, offset + 5),
                   ReadU32(payload, offset + 8), ReadU32(payload, offset + 12), ReadU32(payload, offset + 16),
                   ReadU32(payload, offset + 20))
  }

  /** The blocks are the 24-byte slices after the sender's source, as many as announced. */
  function ReceiverReports(payload: seq<byte>, count: nat): Parsed<seq<ReceiverReport>> {
    if |payload| < 4 || 4 + 24 * count > |payload| then Err(Truncated)
    else Ok(seq(count, i requires 0 <= i < count => ReportBlock(payload, 4 + 24 * i)))
  }

  method ParseReceiverReport(payload: seq<byte>, reportCount: byte) returns (r: Parsed<seq<ReceiverReport>>)
    ensures r == ReceiverReports(payload, reportCount)
  {
    if |payload| < 4 {
      return Err(Truncated);
    }
    var offset, out := 4, [];
    for i := 0 to reportCount
      invariant offset == 4 + 24 * i && offset <= |payload|
      invariant |out| == i && forall k :: 0 <= k < i ==> out[k] == ReportBlock(payload, 4 + 24 * k)
    {
      if offset + 24 > |payload| {
        return Err(Truncated);
      }
      out := out + [ReportBlock(payload, offset)];
      offset := offset + 24;
    }
    assert out == ReceiverReports(payload, reportCount).value;
    r := Ok(out);
  }

  // ----- Cast feedback -----------------------------------------------------

  /** The packets named by bits `bit` to 7 of a loss field. */
  function FollowingPackets(frameId: int, lost: u16, bits: byte, bit: nat): Parsed<seq<PacketNack>>
    requires bit <= 8
    decreases 8 - bit
  {
    if bit == 8 then Ok([])
    else if !Bit(bits, bit) then FollowingPackets(frameId, lost, bits, bit + 1)
    else if lost + 1 + bit > 0xFFFF then Err(InvalidValue)
    else
      After([PacketNack(frameId, lost + 1 + bit)], FollowingPackets(frameId, lost, bits, bit + 1))
  }

  function LossField(within: byte, lost: u16, bits: byte, checkpoint: byte): Parsed<seq<PacketNack>> {
    var frameId := Expand(within, checkpoint);
    if lost == ALL_PACKETS_LOST then Ok([PacketNack(frameId, ALL_PACKETS_LOST)])
    else After([PacketNack(frameId, lost)], FollowingPackets(frameId, lost, bits, 0))
  }

  /** `count` four-byte loss fields from `offset` on. */
  function LossFields(payload: seq<byte>, offset: nat, count: nat, checkpoint: byte): Parsed<seq<PacketNack>>
    decreases count
  {
    if count == 0 then Ok([])
    else if offset + 4 > |payload| then Err(Truncated)
    else
      match LossField(payload[offset], ReadU16(payload, offset + 1), payload[offset + 3], checkpoint)
      case Err(e) => Err(e)
      case Ok(first) => After(first, LossFields(payload, offset + 4, count - 1, checkpoint))
  }

  /** The optional CST2 acknowledgement vector behind the loss fields. */
  function AckAt(payload: seq<byte>, offset: nat): Parsed<Option<AckBitvector>> {
    if offset + 6 > |payload| || ReadU32(payload, offset) != CAST_ACK_MAGIC then Ok(None)
    else if offset + 6 + payload[offset + 5] > |payload| then Err(Truncated)
    else Ok(Some(AckBitvector(payload[offset + 4], payload[offset + 6..offset + 6 + payload[offset + 5]])))
  }

  function Feedback(payload: seq<byte>): Parsed<CastFeedback> {
    if |payload| < 16 then Err(Truncated)
    else if ReadU32(payload, 8) != CAST_FEEDBACK_MAGIC then Err(BadMagic)
    else
      match LossFields(payload, 16, payload[13], payload[12])
      case Err(e) => Err(e)
      case Ok(nacks) =>
        match AckAt(payload, 16 + 4 * payload[13] as int)
        case Err(e) => Err(e)
        case Ok(ack) =>
          Ok(CastFeedback(ReadU32(payload, 0), ReadU32(payload, 4), payload[12], ReadU16(payload, 14), nacks, ack))
  }

  /** `r` with `done` in front of its value. */
  function After<T>(done: seq<T>, r: Parsed<seq<T>>): Parsed<seq<T>> {
    match r
    case Err(e) => Err(e)
    case Ok(rest) => Ok(done + rest)
  }

  lemma AfterNothing<T>(r: Parsed<seq<T>>)
    ensures After([], r) == r
  {
    if r.Ok? { assert [] + r.value == r.value; }
  }

  lemma AfterNone<T>(done: seq<T>)
    ensures After(done, Ok([])) == Ok(done)
  {
    assert done + [] == done;
  }

  lemma AfterBoth<T>(a: seq<T>, b: seq<T>, r: Parsed<seq<T>>)
    ensures After(a, After(b, r)) == After(a + b, r)
  {
    if r.Ok? { assert a + (b + r.value) == a + b + r.value; }
  }

  method ParseLossField(within: byte, lost: u16, bits: byte, checkpoint: byte) returns (r: Parsed<seq<PacketNack>>)
    ensures r == LossField(within, lost, bits, checkpoint)
  {
    var frameId := Expand(within, checkpoint);
    if lost == ALL_PACKETS_LOST {
      return Ok([PacketNack(frameId, ALL_PACKETS_LOST)]);
    }
    var nacks := [PacketNack(frameId, lost)];
    for bit := 0 to 8
      invariant LossField(within, lost, bits, checkpoint) == After(nacks, FollowingPackets(frameId, lost, bits, bit))
    {
      if Bit(bits, bit) {
        if lost + 1 + bit > 0xFFFF {
          return Err(InvalidValue);
        }
        AfterBoth(nacks, [PacketNack(frameId, lost + 1 + bit)], FollowingPackets(frameId, lost, bits, bit + 1));
        nacks := nacks + [PacketNack(frameId, lost + 1 + bit)];
      }
    }
    AfterNone(nacks);
    r := Ok(nacks);
  }

  method ParseCastFeedback(payload: seq<byte>) returns (r: Parsed<CastFeedback>)
    ensures r == Feedback(payload)
  {
    if |payload| < 16 {
      return Err(Truncated);
    }
    if ReadU32(payload, 8) != CAST_FEEDBACK_MAGIC {
      return Err(BadMagic);
    }
    var checkpoint, lossFieldCount := payload[12], payload[13];
    var nacks: seq<PacketNack> := [];
    var offset := 16;
    AfterNothing(LossFields(payload, 16, lossFieldCount, checkpoint));
    for i := 0 to lossFieldCount
      invariant offset == 16 + 4 * i
      invariant LossFields(payload, 16, lossFieldCount, checkpoint)
             == After(nacks, LossFields(payload, offset, lossFieldCount - i, checkpoint))
    {
      if offset + 4 > |payload| {
        return Err(Truncated);
      }
      var field := ParseLossField(payload[offset], ReadU16(payload, offset + 1), payload[offset + 3], checkpoint);
      if field.Err? {
        return Err(field.error);
      }
      AfterBoth(nacks, field.value, LossFields(payload, offset + 4, lossFieldCount - i - 1, checkpoint));
      nacks := nacks + field.value;
      offset := offset + 4;
    }
    AfterNone(nacks);
    var ack := None;
    if offset + 4 <= |payload| {
      var ackMagic := ReadU32(payload, offset);
      if ackMagic == CAST_ACK_MAGIC && offset + 6 <= |payload| {
        var feedbackCount, numOctets := payload[offset + 4], payload[offset + 5];
        offset := offset + 6;
        if offset + numOctets > |payload| {
          return Err(Truncated);
        }
        ack := Some(AckBitvector(feedbackCount, payload[offset..offset + numOctets]));
      }
    }
    r := Ok(CastFeedback(ReadU32(payload, 0), ReadU32(payload, 4), checkpoint, ReadU16(payload, 14), nacks, ack));
  }

  // ----- Receiver reference times ------------------------------------------

  /** The timestamp in the block at `offset`; only type 4 with room for one counts. */
  function ReferenceTimeAt(payload: seq<byte>, offset: nat): seq<ReferenceTime>
    requires offset + 4 <= |payload| && offset + 4 + 4 * ReadU16(payload, offset + 2) as int <= |payload|
  {
    if payload[offset] == 4 && 4 * ReadU16(payload, offset + 2) as int >= 8
    then [ReferenceTime(ReadU32(payload, 0), ReadU32(payload, offset + 4), ReadU32(payload, offset + 8))]
    else []
  }

  /** The report blocks from `offset` on, as their lengths chain them. */
  function ReferenceTimes(payload: seq<byte>, offset: nat): Parsed<seq<ReferenceTime>>
    requires 4 <= |payload|
    decreases |payload| - offset
  {
    if offset + 4 > |payload| then Ok([])
    else
      var length := 4 * ReadU16(payload, offset + 2) as int;
      if offset + 4 + length > |payload| then Err(Truncated)
      else After(ReferenceTimeAt(payload, offset), ReferenceTimes(payload, offset + 4 + length))
  }

  method ParseExtendedReports(payload: seq<byte>) returns (r: Parsed<seq<ReferenceTime>>)
    ensures r == if |payload| < 4 then Err(Truncated) else ReferenceTimes(payload, 4)
  {
    if |payload| < 4 {
      return Err(Truncated);
    }
    var receiverSyncSource := ReadU32(payload, 0);
    var offset, out := 4, [];
    AfterNothing(ReferenceTimes(payload, 4));
    while offset + 4 <= |payload|
      invariant 4 <= offset <= |payload|
      invariant ReferenceTimes(payload, 4) == After(out, ReferenceTimes(payload, offset))
    {
      var blockType := payload[offset];
      var blockDataLength := 4 * ReadU16(payload, offset + 2) as int;
      offset := offset + 4;
      if offset + blockDataLength > |payload| {
        return Err(Truncated);
      }
      AfterBoth(out, ReferenceTimeAt(payload, offset - 4), ReferenceTimes(payload, offset + blockDataLength));
      assert out + [] == out;
      if blockType == 4 && blockDataLength >= 8 && offset + 8 <= |payload| {
        out := out + [ReferenceTime(receiverSyncSource, ReadU32(payload, offset), ReadU32(payload, offset + 4))];
      }
      offset := offset + blockDataLength;
    }
    AfterNone(out);
    r := Ok(out);
  }

  // ----- Compound packets --------------------------------------------------

  /** What one RTCP packet contributes; unknown types and subtypes contribute nothing. */
  function Packet(count: byte, packetType: byte, payload: seq<byte>): Parsed<Compound> {
    if packetType == RECEIVER_REPORT then
      match ReceiverReports(payload, count)
      case Err(e) => Err(e)
      case Ok(reports) => Ok(EMPTY.(receiverReports := reports))
    else if packetType == PAYLOAD_SPECIFIC && count == SUBTYPE_PICTURE_LOSS then
      if |payload| < 8 then Err(Truncated)
      else Ok(EMPTY.(pictureLoss := [PictureLoss(ReadU32(payload, 0), ReadU32(payload, 4))]))
    else if packetType == PAYLOAD_SPECIFIC && count == SUBTYPE_FEEDBACK then
      match Feedback(payload)
      case Err(e) => Err(e)
      case Ok(feedback) => Ok(EMPTY.(castFeedbacks := [feedback]))
    else if packetType == EXTENDED_REPORTS then
      if |payload| < 4 then Err(Truncated)
      else
        match ReferenceTimes(payload, 4)
        case Err(e) => Err(e)
        case Ok(times) => Ok(EMPTY.(referenceTimes := times))
    else Ok(EMPTY)
  }

  /** Bytes taken by the packet at the front, header included. */
  function PacketLength(data: seq<byte>): nat
    requires 4 <= |data|
  {
    4 + 4 * ReadU16(data, 2) as int
  }

  /** The packet at the front of a non-empty datagram: its contribution and its length. */
  function Front(data: seq<byte>): (r: Parsed<(Compound, nat)>)
    ensures |data| < 4 ==> r == Err(Truncated)
    ensures r.Ok? ==> 4 <= r.value.1 <= |data|
  {
    if |data| < 4 then Err(Truncated)
    else if data[0] / 0x40 != 2 then Err(BadVersion)
    else if PacketLength(data) > |data| then Err(Truncated)
    else
      match Packet(data[0] % 0x20, data[1], data[4..PacketLength(data)])
      case Err(e) => Err(e)
      case Ok(c) => Ok((c, PacketLength(data)))
  }

  /** The feedback in a datagram: its packets' contributions in order, or the first error. */
  function Parse(data: seq<byte>): Parsed<Compound> {
    if data == [] then Ok(EMPTY)
    else
      match Front(data)
      case Err(e) => Err(e)
      case Ok((first, length)) => Join(first, Parse(data[length..]))
  }

  function Join(done: Compound, rest: Parsed<Compound>): Parsed<Compound> {
    match rest
    case Err(e) => Err(e)
    case Ok(c) => Ok(Append(done, c))
  }

  method ParsePacket(count: byte, packetType: byte, payload: seq<byte>) returns (r: Parsed<Compound>)
    ensures r == Packet(count, packetType, payload)
  {
    if packetType == RECEIVER_REPORT {
      var reports := ParseReceiverReport(payload, count);
      return if reports.Err? then Err(reports.error) else Ok(EMPTY.(receiverReports := reports.value));
    } else if packetType == PAYLOAD_SPECIFIC && count == SUBTYPE_PICTURE_LOSS {
      return if |payload| < 8 then Err(Truncated)
             else Ok(EMPTY.(pictureLoss := [PictureLoss(ReadU32(payload, 0), ReadU32(payload, 4))]));
    } else if packetType == PAYLOAD_SPECIFIC && count == SUBTYPE_FEEDBACK {
      var feedback := ParseCastFeedback(payload);
      return if feedback.Err? then Err(feedback.error) else Ok(EMPTY.(castFeedbacks := [feedback.value]));
    } else if packetType == EXTENDED_REPORTS {
      var times := ParseExtendedReports(payload);
      return if times.Err? then Err(times.error) else Ok(EMPTY.(referenceTimes := times.value));
    }
    r := Ok(EMPTY);
  }

  method ParseFront(data: seq<byte>, offset: nat) returns (r: Parsed<(Compound, nat)>)
    requires offset <= |data|
    ensures r == Front(data[offset..])
  {
    if offset + 4 > |data| {
      return Err(Truncated);
    }
    if data[offset] / 0x40 != 2 {
      return Err(BadVersion);
    }
    var packetLength := 4 + 4 * ReadU16(data, offset + 2) as int;
    if offset + packetLength > |data| {
      return Err(Truncated);
    }
    var payload := data[offset + 4..offset + packetLength];
    assert payload == data[offset..][4..packetLength];
    var packet := ParsePacket(data[offset] % 0x20, data[offset + 1], payload);
    r := if packet.Err? then Err(packet.error) else Ok((packet.value, packetLength));
  }

  method ParseCompound(data: seq<byte>) returns (r: Parsed<Compound>)
    ensures r == Parse(data)
  {
    hide Front;
    var result := EMPTY;
    var offset := 0;
    assert data[0..] == data;
    JoinEmpty(Parse(data));
    while offset + 4 <= |data|
      invariant 0 <= offset <= |data|
      invariant Parse(data) == Join(result, Parse(data[offset..]))
    {
      var front := ParseFront(data, offset);
      if front.Err? {
        return Err(front.error);
      }
      var (packet, packetLength) := front.value;
      assert data[offset..][packetLength..] == data[offset + packetLength..];
      JoinAppend(result, packet, Parse(data[offset + packetLength..]));
      result := Append(result, packet);
      offset := offset + packetLength;
    }
    if offset != |data| {
      return Err(Truncated);
    }
    JoinRight(result);
    r := Ok(result);
  }

  lemma JoinEmpty(r: Parsed<Compound>)
    ensures Join(EMPTY, r) == r
  {
    if r.Ok? { assert Append(EMPTY, r.value) == r.value; }
  }

  lemma JoinRight(c: Compound)
    ensures Join(c, Ok(EMPTY)) == Ok(c)
  {
    assert Append(c, EMPTY) == c;
  }

  lemma JoinAppend(a: Compound, b: Compound, r: Parsed<Compound>)
    ensures Join(a, Join(b, r)) == Join(Append(a, b), r)
  {
    if r.Ok? { assert Append(a, Append(b, r.value)) == Append(Append(a, b), r.value); }
  }

  // ----- What the parser guarantees ----------------------------------------

  /** Packets are delimited by their length fields alone, with nothing left over. */
  ghost predicate Partitioned(data: seq<byte>) {
    || data == []
    || (&& 4 <= |data|
        && data[0] / 0x40 == 2
        && PacketLength(data) <= |data|
        && Partitioned(data[PacketLength(data)..]))
  }

  /** Only datagrams that their length fields partition exactly are accepted. */
  lemma {:induction false} AcceptedIsPartitioned(data: seq<byte>)
    requires Parse(data).Ok?
    ensures Partitioned(data)
  {
    if data != [] {
      AcceptedIsPartitioned(data[PacketLength(data)..]);
    }
  }

  /** Every accepted datagram is a whole number of 32-bit words. */
  lemma {:induction false} PartitionedIsWords(data: seq<byte>)
    requires Partitioned(data)
    ensures |data| % 4 == 0
  {
    if data != [] {
      PartitionedIsWords(data[PacketLength(data)..]);
    }
  }

  /** Parsing is compositional: an accepted datagram in front only adds its own feedback. */
  lemma {:induction false} ParseConcat(a: seq<byte>, b: seq<byte>)
    requires Parse(a).Ok?
    ensures Parse(a + b) == Join(Parse(a).value, Parse(b))
  {
    if a == [] {
      assert a + b == b;
      JoinEmpty(Parse(b));
    } else {
      FrontConcat(a, b);
      var (first, n) := Front(a).value;
      assert (a + b)[n..] == a[n..] + b;
      ParseConcat(a[n..], b);
      JoinAppend(first, Parse(a[n..]).value, Parse(b));
    }
  }

  lemma FrontConcat(a: seq<byte>, b: seq<byte>)
    requires Front(a).Ok?
    ensures Front(a + b) == Front(a)
  {
    assert PacketLength(a + b) == PacketLength(a);
    assert (a + b)[4..PacketLength(a)] == a[4..PacketLength(a)];
  }

  /** The packets a loss field denotes: the named one and those its set bits point at. */
  ghost predicate Denotes(lost: u16, bits: byte, packetId: int) {
    packetId == lost || (lost < packetId <= lost + 8 && Bit(bits, packetId - lost - 1))
  }

  lemma {:induction false} FollowingRefused(frameId: int, lost: u16, bits: byte, bit: nat)
    requires bit <= 8
    ensures FollowingPackets(frameId, lost, bits, bit).Err?
       <==> exists b :: bit <= b < 8 && Bit(bits, b) && lost + 1 + b > 0xFFFF
    decreases 8 - bit
  {
    if bit < 8 {
      FollowingRefused(frameId, lost, bits, bit + 1);
    }
  }

  lemma {:induction false} FollowingMembers(frameId: int, lost: u16, bits: byte, bit: nat, n: PacketNack)
    requires bit <= 8 && FollowingPackets(frameId, lost, bits, bit).Ok?
    ensures n in FollowingPackets(frameId, lost, bits, bit).value
       <==> n.frameId == frameId && lost + bit < n.packetId <= lost + 8 && Bit(bits, n.packetId - lost - 1)
    decreases 8 - bit
  {
    if bit < 8 {
      FollowingMembers(frameId, lost, bits, bit + 1, n);
    }
  }

  lemma {:induction false} FollowingAscends(frameId: int, lost: u16, bits: byte, bit: nat)
    requires bit <= 8 && FollowingPackets(frameId, lost, bits, bit).Ok?
    ensures Ascends(FollowingPackets(frameId, lost, bits, bit).value)
    decreases 8 - bit
  {
    if bit < 8 {
      FollowingAscends(frameId, lost, bits, bit + 1);
      var rest := FollowingPackets(frameId, lost, bits, bit + 1).value;
      forall n | n in rest
        ensures lost + bit + 1 < n.packetId
      {
        FollowingMembers(frameId, lost, bits, bit + 1, n);
      }
    }
  }

  ghost predicate Ascends(nacks: seq<PacketNack>) {
    forall i, j :: 0 <= i < j < |nacks| ==> nacks[i].packetId < nacks[j].packetId
  }

  /**
   A loss field expands, in ascending order and so without repetition, to
   exactly the packets it denotes; it is refused exactly when one of them lies
   past 0xFFFF. The field that says all packets are lost is passed on as it is,
   whatever its bits.
   */
  lemma LossFieldMeaning(within: byte, lost: u16, bits: byte, checkpoint: byte)
    ensures
      var r, f := LossField(within, lost, bits, checkpoint), Expand(within, checkpoint);
      if lost == ALL_PACKETS_LOST then r == Ok([PacketNack(f, ALL_PACKETS_LOST)])
      else
        && (r.Err? <==> exists p :: 0xFFFF < p && Denotes(lost, bits, p))
        && (r.Ok? ==>
          && (forall n :: n in r.value <==> n.frameId == f && Denotes(lost, bits, n.packetId))
          && Ascends(r.value))
  {
    if lost == ALL_PACKETS_LOST {
      return;
    }
    var f := Expand(within, checkpoint);
    var rest := FollowingPackets(f, lost, bits, 0);
    FollowingRefused(f, lost, bits, 0);
    if rest.Err? {
      var b :| 0 <= b < 8 && Bit(bits, b) && lost + 1 + b > 0xFFFF;
      assert Denotes(lost, bits, lost + 1 + b);
    } else {
      FollowingAscends(f, lost, bits, 0);
      forall n: PacketNack
        ensures n in rest.value <==> n.frameId == f && n.packetId != lost && Denotes(lost, bits, n.packetId)
      {
        FollowingMembers(f, lost, bits, 0, n);
      }
      var all := [PacketNack(f, lost)] + rest.value;
      assert forall n :: n in all <==> n == all[0] || n in rest.value;
    }
  }
}
