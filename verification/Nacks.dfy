/**
 What a NACK on the wire brings back (src/sender/event_loop.rs,
 src/sender/stream.rs, src/rtcp.rs): from a loss field, through both expansions
 of the frame identifier, to the packets queued again and the identifiers in
 their headers.
 */
module Nacks {
  import opened Bytes
  import opened FrameIds
  import opened Rtcp
  import opened StreamModel
  import Rtp
  import SlidingWindow
  import StaleFeedback

  // ----- Which packet a NACK brings back -----------------------------------

  /** The frame in flight was cut by the packetizer from `cut`. */
  datatype Cut = Cut(source: Rtp.Source, maxPayload: nat, header: Rtp.FrameHeader, sequence: u16, payload: seq<byte>)

  ghost predicate CutFrom(packets: seq<Rtp.Packet>, cut: Cut) {
    && (cut.payload == [] || 0 < cut.maxPayload)
    && packets == Rtp.Packets(cut.source, cut.maxPayload, cut.header, cut.sequence, cut.payload)
  }

  /** The packet's header carries this identifier. */
  ghost predicate Carries(p: Rtp.Packet, packetId: int) {
    Rtp.Decode(p).Some? && Rtp.Decode(p).value.packetId == packetId
  }

  lemma CarriesIndex(packets: seq<Rtp.Packet>, cut: Cut, i: nat)
    requires CutFrom(packets, cut) && i < |packets|
    ensures forall id: u16 :: Carries(packets[i], id) <==> id == i % Rtp.PACKET_ID_SPACE
  {
    hide Rtp.Decode, Rtp.PacketAt, Rtp.PacketCount;
    Rtp.DecodePacket(cut.source, cut.maxPayload, cut.header, cut.sequence, cut.payload, i);
  }

  /**
   The identifier 0xFFFF is taken for "all packets": every packet of a frame can
   be asked for by its position if and only if the frame has at most 65535.
   */
  lemma NackByPosition(s: Stream, f: int)
    requires Valid(s) && f in s.pending
    ensures
      var packets := s.pending[f].packets;
      (forall p: u16 :: p < |packets| ==> Requested(s, f, p) == [packets[p]]) <==> |packets| <= 0xFFFF
  {
    var packets := s.pending[f].packets;
    if |packets| > 0xFFFF {
      assert |Requested(s, f, ALL_PACKETS_LOST)| != 1;
    }
  }

  /**
   A NACK brings back exactly the packets whose header carries the identifier it
   names if and only if that is not 0xFFFF and the packets that share it, in a
   frame of more than 65536, are all alike.
   */
  lemma NackByHeader(s: Stream, f: int, packetId: u16, cut: Cut)
    requires Valid(s) && f in s.pending && CutFrom(s.pending[f].packets, cut)
    ensures
      (forall p :: p in s.pending[f].packets ==> (p in Requested(s, f, packetId) <==> Carries(p, packetId)))
      <==> packetId != ALL_PACKETS_LOST && Alike(s.pending[f].packets, packetId)
  {
    hide Carries, CutFrom;
    var packets := s.pending[f].packets;
    if packetId == ALL_PACKETS_LOST {
      CarriesIndex(packets, cut, 0);
      assert packets[0] in Requested(s, f, packetId) && !Carries(packets[0], packetId);
    } else if Alike(packets, packetId) {
      forall p | p in packets
        ensures p in Requested(s, f, packetId) <==> Carries(p, packetId)
      {
        var i :| 0 <= i < |packets| && packets[i] == p;
        CarriesIndex(packets, cut, i);
        if packetId < |packets| {
          CarriesIndex(packets, cut, packetId);
        }
      }
    } else {
      var i :| packetId < i < |packets| && i % Rtp.PACKET_ID_SPACE == packetId && packets[i] != packets[packetId];
      CarriesIndex(packets, cut, i);
      assert packets[i] in packets && packets[i] !in Requested(s, f, packetId);
    }
  }

  /** All packets with this identifier are the same as the first one. */
  ghost predicate Alike(packets: seq<Rtp.Packet>, packetId: u16) {
    forall i :: packetId < i < |packets| && i % Rtp.PACKET_ID_SPACE == packetId ==> packets[i] == packets[packetId]
  }

  // ----- What a loss field brings back -------------------------------------

  /** What a list of NACKs about one frame brings back, in order. */
  function Resent(s: Stream, f: int, nacks: seq<PacketNack>): seq<Rtp.Packet> {
    if nacks == [] then [] else Requested(s, f, nacks[0].packetId) + Resent(s, f, nacks[1..])
  }

  lemma {:induction false} ResentIgnores(s: Stream, t: Stream, f: int, nacks: seq<PacketNack>)
    requires t.pending == s.pending
    ensures Resent(t, f, nacks) == Resent(s, f, nacks)
  {
    if nacks != [] {
      ResentIgnores(s, t, f, nacks[1..]);
    }
  }

  lemma {:induction false} ResentMembers(s: Stream, f: int, nacks: seq<PacketNack>, p: Rtp.Packet)
    ensures p in Resent(s, f, nacks) <==> exists n :: n in nacks && p in Requested(s, f, n.packetId)
  {
    if nacks != [] {
      ResentMembers(s, f, nacks[1..], p);
      assert forall n :: n in nacks <==> n == nacks[0] || n in nacks[1..];
    }
  }

  /** NACKs that all come down to one frame queue its packets behind what is queued. */
  lemma {:induction false} NacksQueue(s: Stream, c: int, f: int, nacks: seq<PacketNack>)
    requires forall n :: n in nacks ==> Expand(Truncate(n.frameId), c) == f
    ensures HandleNacks(s, c, nacks).retransmitQueue == s.retransmitQueue + Entries(f, Resent(s, f, nacks))
    decreases nacks
  {
    hide Expand, Requested;
    if nacks != [] {
      var t := HandleNack(s, f, nacks[0].packetId);
      assert nacks[0] in nacks;
      NacksQueue(t, c, f, nacks[1..]);
      ResentIgnores(s, t, f, nacks[1..]);
      EntriesAppend(f, Requested(s, f, nacks[0].packetId), Resent(s, f, nacks[1..]));
    }
  }

  lemma EntriesAppend(f: int, a: seq<Rtp.Packet>, b: seq<Rtp.Packet>)
    ensures Entries(f, a + b) == Entries(f, a) + Entries(f, b)
  {
  }

  /** The packets that one loss field about frame `f` queues again, at the sender's checkpoint `c`. */
  function QueuedBy(s: Stream, c: int, f: int, lost: u16, bits: byte, parserCheckpoint: byte): seq<QueuedPacket> {
    var nacks := LossField(Truncate(f), lost, bits, parserCheckpoint);
    var after := if nacks.Ok? then HandleNacks(s, c, nacks.value) else s;
    if |s.retransmitQueue| <= |after.retransmitQueue| then after.retransmitQueue[|s.retransmitQueue|..] else []
  }

  /** Exactly the packets whose headers carry an identifier the loss field denotes are queued again. */
  ghost predicate QueuesDenoted(s: Stream, c: int, f: int, lost: u16, bits: byte, parserCheckpoint: byte)
    requires f in s.pending
  {
    forall p :: p in s.pending[f].packets ==>
      (QueuedPacket(f, p) in QueuedBy(s, c, f, lost, bits, parserCheckpoint) <==>
       exists id: u16 :: Denotes(lost, bits, id) && Carries(p, id))
  }

  /** The signed byte reaches from the report's checkpoint to the frame. */
  predicate Reaches(c: int, f: int) { c - 128 <= f <= c + 127 }

  /** A loss field about a frame in flight, read by the parser and expanded again by the sender. */
  lemma FieldQueues(s: Stream, c: int, f: int, lost: u16, bits: byte, parserCheckpoint: byte)
    requires Valid(s) && f in s.pending && Reaches(c, f)
    requires LossField(Truncate(f), lost, bits, parserCheckpoint).Ok?
    ensures QueuedBy(s, c, f, lost, bits, parserCheckpoint) ==
            Entries(f, Resent(s, f, LossField(Truncate(f), lost, bits, parserCheckpoint).value))
  {
    hide Resent, HandleNacks, Requested;
    var nacks := LossField(Truncate(f), lost, bits, parserCheckpoint).value;
    assert forall n :: n in nacks ==> n.frameId == Expand(Truncate(f), parserCheckpoint) by {
      OneFrame(Truncate(f), lost, bits, parserCheckpoint);
    }
    ExpandExactness(f, c);
    NacksQueue(s, c, f, nacks);
  }

  lemma OneFrame(within: byte, lost: u16, bits: byte, checkpoint: byte)
    requires LossField(within, lost, bits, checkpoint).Ok?
    ensures forall n :: n in LossField(within, lost, bits, checkpoint).value ==> n.frameId == Expand(within, checkpoint)
  {
    if lost != ALL_PACKETS_LOST {
      LossFieldMeaning(within, lost, bits, checkpoint);
    }
  }

  lemma {:induction false} FieldMembers(s: Stream, c: int, f: int, lost: u16, bits: byte, parserCheckpoint: byte,
                                        p: Rtp.Packet)
    requires Valid(s) && f in s.pending && Reaches(c, f)
    requires lost != ALL_PACKETS_LOST && LossField(Truncate(f), lost, bits, parserCheckpoint).Ok?
    ensures QueuedPacket(f, p) in QueuedBy(s, c, f, lost, bits, parserCheckpoint) <==>
            exists id: u16 :: Denotes(lost, bits, id) && p in Requested(s, f, id)
  {
    hide Requested, LossField, Denotes, QueuedBy;
    var nacks := LossField(Truncate(f), lost, bits, parserCheckpoint).value;
    FieldQueues(s, c, f, lost, bits, parserCheckpoint);
    LossFieldMeaning(Truncate(f), lost, bits, parserCheckpoint);
    ResentMembers(s, f, nacks, p);
    var g := Expand(Truncate(f), parserCheckpoint);
    assert forall id: u16 :: Denotes(lost, bits, id) ==> PacketNack(g, id) in nacks;
    EntriesMember(f, Resent(s, f, nacks), p);
  }

  lemma EntriesMember(f: int, packets: seq<Rtp.Packet>, p: Rtp.Packet)
    ensures QueuedPacket(f, p) in Entries(f, packets) <==> p in packets
  {
    if p in packets {
      var i :| 0 <= i < |packets| && packets[i] == p;
      assert Entries(f, packets)[i] == QueuedPacket(f, p);
    }
  }

  /**
   One loss field, in a report with any checkpoint, queues exactly the packets
   whose headers carry the identifiers it denotes if and only if the checkpoint
   reaches the frame and 0xFFFF is not among these: through the field's bits
   that identifier asks for the whole frame. Out of reach nothing of the frame is
   queued, which is right only for a field that denotes none of its packets.
   */
  lemma FieldQueuesDenoted(s: Stream, c: int, f: int, lost: u16, bits: byte, parserCheckpoint: byte, cut: Cut)
    requires Valid(s) && f in s.pending
    requires CutFrom(s.pending[f].packets, cut) && |s.pending[f].packets| <= Rtp.PACKET_ID_SPACE
    requires lost != ALL_PACKETS_LOST && LossField(Truncate(f), lost, bits, parserCheckpoint).Ok?
    ensures QueuesDenoted(s, c, f, lost, bits, parserCheckpoint) <==>
            if Reaches(c, f) then !Denotes(lost, bits, ALL_PACKETS_LOST)
            else forall id: u16 :: Denotes(lost, bits, id) ==> |s.pending[f].packets| <= id
  {
    hide QueuesDenoted, Denotes, CutFrom, LossField;
    if !Reaches(c, f) {
      OutOfReachDenotes(s, c, f, lost, bits, parserCheckpoint, cut);
    } else if Denotes(lost, bits, ALL_PACKETS_LOST) {
      AllIsTooMuch(s, c, f, lost, bits, parserCheckpoint, cut);
    } else {
      InReachDenotes(s, c, f, lost, bits, parserCheckpoint, cut);
    }
  }

  lemma InReachDenotes(s: Stream, c: int, f: int, lost: u16, bits: byte, parserCheckpoint: byte, cut: Cut)
    requires Valid(s) && f in s.pending && Reaches(c, f)
    requires CutFrom(s.pending[f].packets, cut) && |s.pending[f].packets| <= Rtp.PACKET_ID_SPACE
    requires lost != ALL_PACKETS_LOST && LossField(Truncate(f), lost, bits, parserCheckpoint).Ok?
    requires !Denotes(lost, bits, ALL_PACKETS_LOST)
    ensures QueuesDenoted(s, c, f, lost, bits, parserCheckpoint)
  {
    hide Requested, LossField, Denotes, QueuedBy, Carries, CutFrom, Valid, Reaches;
    forall p | p in s.pending[f].packets
      ensures QueuedPacket(f, p) in QueuedBy(s, c, f, lost, bits, parserCheckpoint) <==>
              exists id: u16 :: Denotes(lost, bits, id) && Carries(p, id)
    {
      FieldMembers(s, c, f, lost, bits, parserCheckpoint, p);
      forall id: u16 | Denotes(lost, bits, id)
        ensures p in Requested(s, f, id) <==> Carries(p, id)
      {
        NackByHeader(s, f, id, cut);
        assert Alike(s.pending[f].packets, id);
      }
    }
  }

  /** Out of reach, every NACK of the field names one other frame. */
  lemma OutOfReachQueues(s: Stream, c: int, f: int, lost: u16, bits: byte, parserCheckpoint: byte, p: Rtp.Packet)
    requires !Reaches(c, f) && LossField(Truncate(f), lost, bits, parserCheckpoint).Ok?
    ensures QueuedPacket(f, p) !in QueuedBy(s, c, f, lost, bits, parserCheckpoint)
  {
    hide Resent, HandleNacks, Requested, LossField;
    var nacks := LossField(Truncate(f), lost, bits, parserCheckpoint).value;
    var g := Expand(Truncate(f), c);
    ExpandExactness(f, c);
    OneFrame(Truncate(f), lost, bits, parserCheckpoint);
    TwoStageExpansion(Truncate(f), parserCheckpoint, c);
    NacksQueue(s, c, g, nacks);
  }

  lemma OutOfReachDenotes(s: Stream, c: int, f: int, lost: u16, bits: byte, parserCheckpoint: byte, cut: Cut)
    requires f in s.pending && !Reaches(c, f) && CutFrom(s.pending[f].packets, cut)
    requires LossField(Truncate(f), lost, bits, parserCheckpoint).Ok?
    requires |s.pending[f].packets| <= Rtp.PACKET_ID_SPACE
    ensures QueuesDenoted(s, c, f, lost, bits, parserCheckpoint) <==>
            forall id: u16 :: Denotes(lost, bits, id) ==> |s.pending[f].packets| <= id
  {
    hide QueuedBy, Denotes, Carries, CutFrom, LossField;
    var packets := s.pending[f].packets;
    forall p | p in packets
      ensures QueuedPacket(f, p) !in QueuedBy(s, c, f, lost, bits, parserCheckpoint)
    {
      OutOfReachQueues(s, c, f, lost, bits, parserCheckpoint, p);
    }
    forall i: nat, id: u16 | i < |packets|
      ensures Carries(packets[i], id) <==> id == i
    {
      CarriesIndex(packets, cut, i);
    }
    if id: u16 :| Denotes(lost, bits, id) && id < |packets| {
      assert packets[id] in packets && Carries(packets[id], id);
    }
  }

  /** A field whose bits reach 0xFFFF queues the first packet too, which it does not denote. */
  lemma AllIsTooMuch(s: Stream, c: int, f: int, lost: u16, bits: byte, parserCheckpoint: byte, cut: Cut)
    requires Valid(s) && f in s.pending && Reaches(c, f)
    requires CutFrom(s.pending[f].packets, cut)
    requires lost != ALL_PACKETS_LOST && LossField(Truncate(f), lost, bits, parserCheckpoint).Ok?
    requires Denotes(lost, bits, ALL_PACKETS_LOST)
    ensures !QueuesDenoted(s, c, f, lost, bits, parserCheckpoint)
  {
    hide LossField, QueuedBy, Carries, CutFrom;
    var first := s.pending[f].packets[0];
    FieldMembers(s, c, f, lost, bits, parserCheckpoint, first);
    assert first in Requested(s, f, ALL_PACKETS_LOST);
    CarriesIndex(s.pending[f].packets, cut, 0);
    assert !Denotes(lost, bits, 0);
  }

  /** Every packet the loss field denotes is one of the frame's. */
  ghost predicate NamesPackets(packets: seq<Rtp.Packet>, lost: u16, bits: byte) {
    lost != ALL_PACKETS_LOST && forall p :: Denotes(lost, bits, p) ==> p < |packets|
  }

  /**
   For a frame of any size and a report with any checkpoint: every loss field
   that names packets of the frame queues exactly those packets if and only if
   the frame has at most 65535 and the checkpoint reaches it.
   */
  lemma FieldsAreExact(s: Stream, c: int, f: int, cut: Cut)
    requires Valid(s) && f in s.pending && CutFrom(s.pending[f].packets, cut)
    ensures
      (forall lost: u16, bits: byte, parserCheckpoint: byte :: NamesPackets(s.pending[f].packets, lost, bits) ==>
         QueuesDenoted(s, c, f, lost, bits, parserCheckpoint))
      <==> |s.pending[f].packets| <= 0xFFFF && Reaches(c, f)
  {
    var packets := s.pending[f].packets;
    if |packets| <= 0xFFFF && Reaches(c, f) {
      forall lost: u16, bits: byte, parserCheckpoint: byte | NamesPackets(packets, lost, bits)
        ensures QueuesDenoted(s, c, f, lost, bits, parserCheckpoint)
      {
        LossFieldMeaning(Truncate(f), lost, bits, parserCheckpoint);
        FieldQueuesDenoted(s, c, f, lost, bits, parserCheckpoint, cut);
      }
    } else if Reaches(c, f) {
      hide QueuesDenoted, CutFrom;
      LastTwo(Truncate(f));
      AllIsTooMuch(s, c, f, 0xFFFE, 1, 0, cut);
      assert NamesPackets(packets, 0xFFFE, 1);
    } else {
      hide CutFrom, Carries, QueuedBy;
      FirstOnly(Truncate(f));
      OutOfReachQueues(s, c, f, 0, 0, 0, packets[0]);
      CarriesIndex(packets, cut, 0);
      assert packets[0] in packets && Denotes(0, 0, 0) && Carries(packets[0], 0);
      assert NamesPackets(packets, 0, 0) && !QueuesDenoted(s, c, f, 0, 0, 0);
    }
  }

  /** In particular a report whose checkpoint lies in the window reaches every frame in flight: 120 <= 127. */
  lemma CurrentReportReaches(s: Stream, c: int, f: int)
    requires Valid(s) && f in s.pending && s.checkpoint <= c < s.nextFrameId
    ensures Reaches(c, f)
  {
  }

  /** The loss field that names packet 0 only. */
  lemma FirstOnly(within: byte)
    ensures LossField(within, 0, 0, 0).Ok?
    ensures forall p :: Denotes(0, 0, p) <==> p == 0
  {
    hide LossField;
    LossFieldMeaning(within, 0, 0, 0);
  }

  /** The loss field that names packets 65534 and 65535. */
  lemma LastTwo(within: byte)
    ensures LossField(within, 0xFFFE, 1, 0).Ok?
    ensures forall p :: Denotes(0xFFFE, 1, p) <==> 0xFFFE <= p <= 0xFFFF
  {
    hide Bit, LossField;
    forall i: nat | i < 8
      ensures Bit(1, i) <==> i == 0
    {
      OneBit(i);
    }
    LossFieldMeaning(within, 0xFFFE, 1, 0);
  }

  lemma OneBit(i: nat)
    requires i < 8
    ensures Bit(1, i) <==> i == 0
  {
    var powers := [1, 2, 4, 8, 16, 32, 64, 128];
    assert powers[i] == 1 || powers[i] > 1;
  }

  // ----- Stale NACKs -------------------------------------------------------

  /**
   A NACK for a frame in flight, however it is expanded, names that frame or
   none in flight.
   */
  lemma NackOfFrameInFlight(s: Stream, c: int, f: int)
    requires Valid(s) && f in s.pending
    ensures Expand(Truncate(f), c) == f || Expand(Truncate(f), c) !in s.pending
  {
    if Expand(Truncate(f), c) in s.pending {
      SameByte(f, Expand(Truncate(f), c));
    }
  }

  /**
   A NACK for a frame above the checkpoint of its own report, in flight or not,
   names that frame or none that is in flight once the checkpoint is applied.
   */
  lemma StaleNackIsHarmless(s: Stream, c: int, f: int)
    requires Valid(s) && s.nextFrameId - 256 <= c < f < s.nextFrameId
    ensures
      var g := Expand(Truncate(f), c);
      g == f || g !in AcknowledgeUpTo(s, c).pending
  {
    NackGoesAstray(s, c, f);
  }

  /**
   In general a NACK for an earlier frame lands on another frame in flight if
   and only if that one is a multiple of 256 later and within reach of the
   signed byte. Nothing above the checkpoint has such a frame.
   */
  lemma NackGoesAstray(s: Stream, c: int, f: int)
    requires Valid(s) && s.nextFrameId - 256 <= c < s.nextFrameId && f < s.nextFrameId
    ensures
      var g, after := Expand(Truncate(f), c), AcknowledgeUpTo(s, c);
      && (g != f && g in after.pending <==>
            exists k :: 1 <= k && f + 256 * k in after.pending && f + 256 * k <= c + 127)
      && (c < f ==> g == f || g !in after.pending)
  {
    hide Expand, Truncate, AcknowledgeUpTo;
    var g, after := Expand(Truncate(f), c), AcknowledgeUpTo(s, c);
    PendingAbove(s, c);
    if k :| 1 <= k && f + 256 * k in after.pending && f + 256 * k <= c + 127 {
      ReachedByByte(f, c, f + 256 * k);
    }
    if g in after.pending {
      ReachedByByte(f, c, g);
      if g != f {
        assert g == f + 256 * ((g - f) / 256);
      }
    }
  }

  lemma PendingAbove(s: Stream, c: int)
    requires Valid(s) && c < s.nextFrameId
    ensures forall h :: h in AcknowledgeUpTo(s, c).pending ==> c < h < s.nextFrameId
  {
    AcknowledgeKeepsValid(s, c, None);
  }

  /** An identifier above the checkpoint is reached from the byte of `f` if it is a multiple of 256 away and near. */
  lemma ReachedByByte(f: int, c: int, h: int)
    requires c < h < c + 256
    ensures h == Expand(Truncate(f), c) <==> h <= c + 127 && (h - f) % 256 == 0
    ensures h == Expand(Truncate(f), c) && f < c + 256 ==> h == f || (f < h && f <= c)
  {
    SameByteSteps(f, h);
    if h <= c + 127 && Truncate(h) == Truncate(f) {
      ExpandExactness(h, c);
    }
  }

  lemma SameByte(f: int, g: int)
    requires Truncate(f) == Truncate(g) && -256 < f - g < 256
    ensures f == g
  {
  }

  /** Two identifiers share their low byte exactly if they are a multiple of 256 apart. */
  lemma SameByteSteps(f: int, g: int)
    ensures Truncate(f) == Truncate(g) <==> (g - f) % 256 == 0
  {
  }

  /**
   A NACK for a frame retired long ago can land on one in flight: in a reachable
   world, frame 0 at checkpoint 255 becomes frame 256.
   */
  lemma RetiredNackLandsElsewhere(senderSource: u32, receiverSource: u32) returns (w: SlidingWindow.World)
    ensures StaleFeedback.Reachable(w) && w.senderSource == senderSource && w.receiverSource == receiverSource
    ensures w.sender.nextFrameId == 257 && 0 !in w.sender.pending && 256 in w.sender.pending
    ensures Expand(Truncate(0), 255) == 256 && 256 in AcknowledgeUpTo(w.sender, 255).pending
  {
    hide SlidingWindow.Run, SlidingWindow.CanRun, SlidingWindow.Invariant;
    var w0 := SlidingWindow.Initial(senderSource, receiverSource);
    var steps := StaleFeedback.SpreadRun(w0, 256, 1, StaleFeedback.PlainReport(senderSource, receiverSource, -1));
    w := SlidingWindow.Run(w0, steps);
    StaleFeedback.SourcesStay(w0, steps);
  }
}
