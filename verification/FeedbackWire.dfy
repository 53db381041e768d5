/**
 The receiver's side of Cast feedback: the wire form that src/rtcp.rs reads,
 written out, and the proof that the parser returns what was written.
 */
module FeedbackWire {
  import opened Bytes
  import opened Rtcp

  datatype Loss = Loss(frameId: byte, packetId: u16, bits: byte)

  /** What a receiver has to say in one feedback packet. */
  datatype Message = Message(
    receiverSyncSource: u32,
    senderSyncSource: u32,
    checkpoint: byte,
    playoutDelayMs: u16,
    losses: seq<Loss>,
    ack: Option<AckBitvector>)
  {
    /** The counts fit their one-byte fields. */
    predicate Fits() {
      |losses| < 0x100 && (ack.Some? ==> |ack.value.data| < 0x100)
    }
  }

  function EncodeLosses(losses: seq<Loss>): (s: seq<byte>)
    ensures |s| == 4 * |losses|
  {
    if losses == [] then []
    else EncodeLoss(losses[0]) + EncodeLosses(losses[1..])
  }

  /** The acknowledgement vector, padded to whole words. */
  function EncodeAck(ack: Option<AckBitvector>): (s: seq<byte>)
    requires ack.Some? ==> |ack.value.data| < 0x100
    ensures |s| % 4 == 0 && |s| <= 264
  {
    match ack
    case None => []
    case Some(a) =>
      Be32(CAST_ACK_MAGIC) + [a.feedbackCount, |a.data|] + a.data + seq((2 - |a.data|) % 4, _ => 0)
  }

  function Head(m: Message): (s: seq<byte>)
    requires m.Fits()
    ensures |s| == 16
  {
    Be32(m.receiverSyncSource) + Be32(m.senderSyncSource) + Be32(CAST_FEEDBACK_MAGIC)
    + [m.checkpoint, |m.losses|] + Be16(m.playoutDelayMs)
  }

  function EncodePayload(m: Message): (s: seq<byte>)
    requires m.Fits()
    ensures |s| % 4 == 0 && |s| / 4 < 0x1_0000
  {
    Head(m) + EncodeLosses(m.losses) + EncodeAck(m.ack)
  }

  function Encode(m: Message): seq<byte>
    requires m.Fits()
  {
    [0x80 + SUBTYPE_FEEDBACK, PAYLOAD_SPECIFIC] + Be16(|EncodePayload(m)| / 4) + EncodePayload(m)
  }

  /** The retransmissions that the loss fields ask for. */
  function Nacks(losses: seq<Loss>, checkpoint: byte): Parsed<seq<PacketNack>> {
    if losses == [] then Ok([])
    else
      match LossField(losses[0].frameId, losses[0].packetId, losses[0].bits, checkpoint)
      case Err(e) => Err(e)
      case Ok(first) => After(first, Nacks(losses[1..], checkpoint))
  }

  function EncodeLoss(l: Loss): (s: seq<byte>)
    ensures |s| == 4
  {
    [l.frameId] + Be16(l.packetId) + [l.bits]
  }

  lemma LossReadBack(s: seq<byte>, offset: nat, l: Loss)
    requires offset + 4 <= |s| && s[offset..offset + 4] == EncodeLoss(l)
    ensures s[offset] == l.frameId && ReadU16(s, offset + 1) == l.packetId && s[offset + 3] == l.bits
  {
    var w := s[offset..offset + 4];
    assert s[offset] == w[0] && s[offset + 3] == w[3];
    assert w[1] == Be16(l.packetId)[0] && w[2] == Be16(l.packetId)[1];
    assert s[offset + 1..offset + 3] == Be16(l.packetId);
    ReadBack16(s, offset + 1, l.packetId);
  }

  lemma {:induction false} LossesReadBack(s: seq<byte>, offset: nat, losses: seq<Loss>, checkpoint: byte)
    requires offset + 4 * |losses| <= |s| && s[offset..offset + 4 * |losses|] == EncodeLosses(losses)
    ensures LossFields(s, offset, |losses|, checkpoint) == Nacks(losses, checkpoint)
    decreases losses
  {
    if losses != [] {
      var end := offset + 4 * |losses|;
      var w := s[offset..end];
      assert s[offset..offset + 4] == w[..4] == EncodeLoss(losses[0]);
      assert s[offset + 4..end] == w[4..] == EncodeLosses(losses[1..]);
      LossReadBack(s, offset, losses[0]);
      LossesReadBack(s, offset + 4, losses[1..], checkpoint);
    }
  }

  lemma AckReadBack(s: seq<byte>, offset: nat, ack: Option<AckBitvector>)
    requires ack.Some? ==> |ack.value.data| < 0x100
    requires offset <= |s| && s[offset..] == EncodeAck(ack)
    ensures AckAt(s, offset) == Ok(ack)
  {
    if ack.Some? {
      var a, w := ack.value, s[offset..];
      assert s[offset..offset + 4] == w[..4] == Be32(CAST_ACK_MAGIC);
      ReadBack32(s, offset, CAST_ACK_MAGIC);
      assert s[offset + 4] == w[4] && s[offset + 5] == w[5];
      assert s[offset + 6..offset + 6 + |a.data|] == w[6..6 + |a.data|] == a.data;
    }
  }

  lemma HeadReadBack(m: Message, s: seq<byte>)
    requires m.Fits() && 16 <= |s| && s[..16] == Head(m)
    ensures ReadU32(s, 0) == m.receiverSyncSource && ReadU32(s, 4) == m.senderSyncSource
    ensures ReadU32(s, 8) == CAST_FEEDBACK_MAGIC && s[12] == m.checkpoint && s[13] == |m.losses|
    ensures ReadU16(s, 14) == m.playoutDelayMs
  {
    var w := s[..16];
    assert s[0..4] == w[0..4] == Be32(m.receiverSyncSource);
    assert s[4..8] == w[4..8] == Be32(m.senderSyncSource);
    assert s[8..12] == w[8..12] == Be32(CAST_FEEDBACK_MAGIC);
    assert s[14..16] == w[14..16] == Be16(m.playoutDelayMs);
    ReadBack32(s, 0, m.receiverSyncSource);
    ReadBack32(s, 4, m.senderSyncSource);
    ReadBack32(s, 8, CAST_FEEDBACK_MAGIC);
    ReadBack16(s, 14, m.playoutDelayMs);
    assert s[12] == w[12] && s[13] == w[13];
  }

  /** What the parser must make of a message. */
  function Meaning(m: Message): Parsed<Compound> {
    match Nacks(m.losses, m.checkpoint)
    case Err(e) => Err(e)
    case Ok(nacks) =>
      Ok(EMPTY.(castFeedbacks := [CastFeedback(m.receiverSyncSource, m.senderSyncSource, m.checkpoint,
                                               m.playoutDelayMs, nacks, m.ack)]))
  }

  lemma PayloadReadBack(m: Message)
    requires m.Fits()
    ensures Feedback(EncodePayload(m))
         == match Nacks(m.losses, m.checkpoint)
            case Err(e) => Err(e)
            case Ok(nacks) => Ok(CastFeedback(m.receiverSyncSource, m.senderSyncSource, m.checkpoint,
                                              m.playoutDelayMs, nacks, m.ack))
  {
    var s, n := EncodePayload(m), 16 + 4 * |m.losses|;
    assert s[..16] == Head(m) && s[16..n] == EncodeLosses(m.losses) && s[n..] == EncodeAck(m.ack);
    HeadReadBack(m, s);
    LossesReadBack(s, 16, m.losses, m.checkpoint);
    AckReadBack(s, n, m.ack);
    FeedbackFromParts(m, s);
  }

  lemma FeedbackFromParts(m: Message, s: seq<byte>)
    requires m.Fits() && |s| >= 16
    requires ReadU32(s, 0) == m.receiverSyncSource && ReadU32(s, 4) == m.senderSyncSource
    requires ReadU32(s, 8) == CAST_FEEDBACK_MAGIC && s[12] == m.checkpoint && s[13] == |m.losses|
    requires ReadU16(s, 14) == m.playoutDelayMs
    requires LossFields(s, 16, |m.losses|, m.checkpoint) == Nacks(m.losses, m.checkpoint)
    requires AckAt(s, 16 + 4 * |m.losses|) == Ok(m.ack)
    ensures Feedback(s)
         == match Nacks(m.losses, m.checkpoint)
            case Err(e) => Err(e)
            case Ok(nacks) => Ok(CastFeedback(m.receiverSyncSource, m.senderSyncSource, m.checkpoint,
                                              m.playoutDelayMs, nacks, m.ack))
  {
    hide ReadU32, ReadU16, LossFields, AckAt, Nacks;
  }

  lemma FrontReadBack(m: Message)
    requires m.Fits()
    ensures Meaning(m).Err? ==> Front(Encode(m)) == Err(Meaning(m).error)
    ensures Meaning(m).Ok? ==> Front(Encode(m)) == Ok((Meaning(m).value, |Encode(m)|))
  {
    var payload := EncodePayload(m);
    PayloadReadBack(m);
    FrameReadBack(payload);
  }

  /** The four header bytes frame a payload of whole words. */
  lemma FrameReadBack(payload: seq<byte>)
    requires |payload| % 4 == 0 && |payload| / 4 < 0x1_0000
    ensures
      var s := [0x80 + SUBTYPE_FEEDBACK, PAYLOAD_SPECIFIC] + Be16(|payload| / 4) + payload;
      Front(s) == match Packet(SUBTYPE_FEEDBACK, PAYLOAD_SPECIFIC, payload)
                  case Err(e) => Err(e)
                  case Ok(c) => Ok((c, |s|))
  {
    var head := [0x80 + SUBTYPE_FEEDBACK, PAYLOAD_SPECIFIC];
    var s := head + Be16(|payload| / 4) + payload;
    assert s[2..4] == Be16(|payload| / 4);
    ReadBack16(s, 2, |payload| / 4);
    assert PacketLength(s) == |s|;
    assert s[4..|s|] == payload;
  }

  /** Every feedback message a receiver can write is parsed back, loss fields expanded. */
  lemma FeedbackRoundTrip(m: Message)
    requires m.Fits()
    ensures Parse(Encode(m)) == Meaning(m)
  {
    FrontReadBack(m);
    var s := Encode(m);
    assert s[|s|..] == [];
    if Meaning(m).Ok? {
      JoinRight(Meaning(m).value);
    }
  }
}
