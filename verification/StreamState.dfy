/**
 The stream in the source's own form (src/sender/stream.rs): 120 slots indexed
 by identifier modulo 120, two queues and counters, changed in place. Every
 method is proved to take the stream's value, `Model()`, where the corresponding
 function of StreamModel takes it.
 */
module StreamState {
  import opened Bytes
  import opened FrameIds
  import opened Rtcp
  import opened StreamModel
  import Clocks
  import Crypto
  import Cutting
  import Rtp

  type Slot = Option<PendingFrame>

  const SLOTS: nat := MAX_UNACKED_FRAMES

  /** `raw as usize % MAX_UNACKED_FRAMES`; a negative identifier wraps at 2^64. */
  function SlotOf(frameId: int): (slot: nat)
    requires -0x8000_0000_0000_0000 <= frameId
    ensures slot < SLOTS
    ensures frameId >= 0 ==> slot == frameId % SLOTS
  {
    (if frameId < 0 then frameId + 0x1_0000_0000_0000_0000 else frameId) % SLOTS
  }

  /** Each occupied slot holds a frame of the window that belongs there. */
  ghost predicate RingValid(ring: seq<Slot>, lo: int, hi: int) {
    && |ring| == SLOTS
    && -1 <= lo
    && forall i :: 0 <= i < SLOTS && ring[i].Some? ==>
         lo < ring[i].value.frameId < hi && ring[i].value.frameId % SLOTS == i
  }

  ghost predicate Holds(ring: seq<Slot>, f: int)
    requires |ring| == SLOTS
  {
    ring[f % SLOTS].Some? && ring[f % SLOTS].value.frameId == f
  }

  /** The map from identifier to frame that a ring stands for. */
  ghost function RingMap(ring: seq<Slot>, lo: int, hi: int): (m: map<int, PendingFrame>)
    requires |ring| == SLOTS
  {
    map f | lo < f < hi && Holds(ring, f) :: ring[f % SLOTS].value
  }

  /** The slot test of the source decides membership, for every identifier. */
  lemma Lookup(ring: seq<Slot>, lo: int, hi: int, f: int)
    requires RingValid(ring, lo, hi) && -0x8000_0000_0000_0000 <= f
    ensures ring[SlotOf(f)].Some? && ring[SlotOf(f)].value.frameId == f <==> f in RingMap(ring, lo, hi)
    ensures f in RingMap(ring, lo, hi) ==> f >= 0 && RingMap(ring, lo, hi)[f] == ring[SlotOf(f)].value
  {
  }

  lemma Emptied(ring: seq<Slot>, lo: int, hi: int, f: int)
    requires RingValid(ring, lo, hi) && f in RingMap(ring, lo, hi)
    ensures RingValid(ring[f % SLOTS := None], lo, hi)
    ensures RingMap(ring[f % SLOTS := None], lo, hi) == RingMap(ring, lo, hi) - {f}
  {
    var after := ring[f % SLOTS := None];
    forall g
      ensures g in RingMap(after, lo, hi) <==> g in RingMap(ring, lo, hi) && g != f
    {
      if g in RingMap(ring, lo, hi) && g % SLOTS == f % SLOTS {
        assert g == f;
      }
    }
  }

  lemma Filled(ring: seq<Slot>, lo: int, hi: int, frame: PendingFrame)
    requires RingValid(ring, lo, hi) && frame.frameId == hi && lo < hi
    requires ring[hi % SLOTS].None?
    ensures RingValid(ring[hi % SLOTS := Some(frame)], lo, hi + 1)
    ensures RingMap(ring[hi % SLOTS := Some(frame)], lo, hi + 1) == RingMap(ring, lo, hi)[hi := frame]
  {
    var after := ring[hi % SLOTS := Some(frame)];
    forall g
      ensures g in RingMap(after, lo, hi + 1) <==> g in RingMap(ring, lo, hi) || g == hi
    {
    }
  }

  /** Raising the lower bound below every held frame changes nothing. */
  lemma Raised(ring: seq<Slot>, lo: int, to: int, hi: int)
    requires RingValid(ring, lo, hi) && lo <= to
    requires forall f :: f in RingMap(ring, lo, hi) ==> to < f
    ensures RingValid(ring, to, hi) && RingMap(ring, to, hi) == RingMap(ring, lo, hi)
  {
    forall i | 0 <= i < SLOTS && ring[i].Some?
      ensures to < ring[i].value.frameId
    {
      assert ring[i].value.frameId in RingMap(ring, lo, hi);
    }
  }

  /** While the span is below the limit the next frame's slot is empty. */
  lemma NextSlotEmpty(ring: seq<Slot>, lo: int, hi: int)
    requires RingValid(ring, lo, hi) && lo < hi < lo + 1 + SLOTS
    ensures ring[hi % SLOTS].None?
  {
  }

  class StreamState {
    const crypto: Crypto.FrameCrypto
    const packetizer: Rtp.RtpPacketizer
    const receiverSyncSource: u32
    const rtpTimebase: u32
    var pendingPlayoutDelay: Option<nat>

    var nextFrameId: int
    var checkpoint: int
    const pending: array<Slot>

    var lastMediaTimestamp: Option<nat>
    var lastReferenceTime: Option<int>
    var lastRtpTimestamp: u32

    var framesAcked: nat
    var framesDroppedOrSkipped: nat
    var nackCount: nat

    var sendQueue: seq<QueuedPacket>
    var retransmitQueue: seq<QueuedPacket>

    /** The ring is well formed; between the steps of an acknowledgement only this holds. */
    ghost predicate RingOk()
      reads this, pending
    {
      pending.Length == SLOTS && RingValid(pending[..], checkpoint, nextFrameId)
    }

    /** The stream as a value. */
    ghost function Model(): Stream
      requires pending.Length == SLOTS
      reads this, pending
    {
      Stream(nextFrameId, checkpoint, RingMap(pending[..], checkpoint, nextFrameId), lastMediaTimestamp,
             sendQueue, retransmitQueue, framesAcked, framesDroppedOrSkipped, nackCount)
    }

    ghost predicate Valid()
      reads this, pending
    {
      RingOk() && StreamModel.Valid(Model()) && packetizer.maxPayloadSize > 0
    }

    /** A packet must have room for at least one payload byte behind the largest header. */
    constructor (
      crypto: Crypto.FrameCrypto, source: Rtp.Source, receiverSyncSource: u32, rtpTimebase: u32,
      maxPacketSize: nat, sequence: u16)
      requires maxPacketSize > Rtp.MAX_HEADER_SIZE
      ensures Valid() && fresh(pending) && fresh(packetizer)
      ensures Model() == NEW && Sender() == Cutting.Initial(sequence).sender
      ensures this.crypto == crypto && this.rtpTimebase == rtpTimebase
      ensures packetizer.source == source && this.receiverSyncSource == receiverSyncSource
      ensures packetizer.maxPayloadSize == maxPacketSize - Rtp.MAX_HEADER_SIZE
    {
      this.crypto := crypto;
      this.receiverSyncSource := receiverSyncSource;
      this.rtpTimebase := rtpTimebase;
      packetizer := new Rtp.RtpPacketizer(source, maxPacketSize, sequence);
      pendingPlayoutDelay := None;
      nextFrameId, checkpoint := 0, -1;
      pending := new Slot[SLOTS](_ => None);
      lastMediaTimestamp, lastReferenceTime, lastRtpTimestamp := None, None, 0;
      framesAcked, framesDroppedOrSkipped, nackCount := 0, 0, 0;
      sendQueue, retransmitQueue := [], [];
      new;
      assert RingMap(pending[..], -1, 0) == map[];
    }

    /** What the stream was set up with. */
    ghost function Settings(): Cutting.Settings
      reads this, packetizer
    {
      Cutting.Settings(packetizer.source, packetizer.maxPayloadSize, rtpTimebase, crypto.cipher, crypto.ivMask)
    }

    /** The stream with its next sequence number and the delay not yet sent. */
    ghost function Sender(): Cutting.Sender
      requires pending.Length == SLOTS
      reads this, pending, packetizer
    {
      Cutting.Sender(Model(), packetizer.sequenceNumber, pendingPlayoutDelay)
    }

    /** The packets of a frame accepted now: its data encrypted under its identifier, then cut. */
    ghost function PacketsFor(frame: Frame): seq<Rtp.Packet>
      requires pending.Length == SLOTS && packetizer.maxPayloadSize > 0
      reads this, pending, packetizer
    {
      Cutting.PacketsFor(Settings(), Sender(), frame)
    }

    /** The next accepted frame announces this delay. */
    method SetTargetPlayoutDelay(delay: nat)
      requires Valid()
      modifies this`pendingPlayoutDelay
      ensures Valid() && Sender() == old(Sender()).(delay := Some(delay))
    {
      pendingPlayoutDelay := Some(delay);
    }

    method RejectFrame(error: EnqueueError) returns (r: Result<int, EnqueueError>)
      requires Valid()
      modifies this`framesDroppedOrSkipped
      ensures Valid() && r == Err(error) && Model() == Reject(old(Model()))
      ensures Sender() == old(Sender()).(stream := Reject(old(Model())))
    {
      framesDroppedOrSkipped := SaturatingAdd(framesDroppedOrSkipped, 1);
      r := Err(error);
    }

    method EnqueueFrame(frame: Frame) returns (r: Result<int, EnqueueError>)
      requires Valid()
      modifies this, pending, packetizer
      ensures Valid()
      ensures Sender() == Cutting.Submitted(Settings(), old(Sender()), frame)
      ensures Refusal(old(Model()), frame).Some? ==>
        && r == Err(Refusal(old(Model()), frame).value)
        && unchanged(`lastReferenceTime) && unchanged(`lastRtpTimestamp)
      ensures Refusal(old(Model()), frame).None? ==>
        && r == Ok(old(nextFrameId))
        && lastReferenceTime == Some(frame.referenceTime)
        && lastRtpTimestamp == Clocks.MediaToRtp(frame.mediaTimestamp, rtpTimebase)
      ensures Settings() == old(Settings())
    {
      hide Cutting.PacketsFor, RingMap, RingValid, StreamModel.Valid, Clocks.MediaToRtp;
      if frame.data == [] {
        r := RejectFrame(EmptyFrame);
        return;
      }
      if nextFrameId == 0 && !frame.keyFrame {
        r := RejectFrame(FirstFrameMustBeKeyFrame);
        return;
      }
      if lastMediaTimestamp.Some? && frame.mediaTimestamp <= lastMediaTimestamp.value {
        r := RejectFrame(NonMonotonicMediaTimestamp);
        return;
      }
      if nextFrameId - (checkpoint + 1) >= MAX_UNACKED_FRAMES {
        r := RejectFrame(ReachedIdSpanLimit);
        return;
      }
      r := AcceptFrame(frame);
    }

    /** The frame has passed every check: give it an identifier, its packets and a slot. */
    method AcceptFrame(frame: Frame) returns (r: Result<int, EnqueueError>)
      requires Valid() && Refusal(Model(), frame).None?
      modifies this, pending, packetizer
      ensures Valid()
      ensures r == Ok(old(nextFrameId))
      ensures Sender() == Cutting.Submitted(Settings(), old(Sender()), frame) && Settings() == old(Settings())
      ensures lastReferenceTime == Some(frame.referenceTime)
      ensures lastRtpTimestamp == Clocks.MediaToRtp(frame.mediaTimestamp, rtpTimebase)
    {
      hide Cutting.PacketsFor, RingMap, RingValid, StreamModel.Valid, Clocks.MediaToRtp, Refusal, Entries;
      HasRoom(Model(), frame);
      var frameId := nextFrameId;
      var packets := PacketizeFrame(frame);
      AcceptKeepsValid(Model(), frame, packets);
      sendQueue := sendQueue + Entries(frameId, packets);
      StoreFrame(PendingFrame(frameId, frame.mediaTimestamp, frame.duration, packets));
      lastMediaTimestamp := Some(frame.mediaTimestamp);
      lastReferenceTime := Some(frame.referenceTime);
      lastRtpTimestamp := Clocks.MediaToRtp(frame.mediaTimestamp, rtpTimebase);
      r := Ok(frameId);
    }

    /** Put the newest frame into its slot, which is empty, and advance the identifier. */
    method StoreFrame(frame: PendingFrame)
      requires RingOk() && frame.frameId == nextFrameId
      requires checkpoint < nextFrameId < checkpoint + 1 + SLOTS
      modifies this`nextFrameId, pending
      ensures RingOk()
      ensures Model() == old(Model()).(nextFrameId := frame.frameId + 1,
                                       pending := old(Model()).pending[frame.frameId := frame])
    {
      ghost var ring := pending[..];
      NextSlotEmpty(ring, checkpoint, nextFrameId);
      Filled(ring, checkpoint, nextFrameId, frame);
      pending[SlotOf(nextFrameId)] := Some(frame);
      assert pending[..] == ring[nextFrameId % SLOTS := Some(frame)];
      nextFrameId := nextFrameId + 1;
    }

    /** Encrypt a copy of the frame and cut it up; a pending playout delay goes out once. */
    method PacketizeFrame(frame: Frame) returns (packets: seq<Rtp.Packet>)
      requires Valid()
      modifies this`pendingPlayoutDelay, packetizer
      ensures packets == old(PacketsFor(frame)) && packets != []
      ensures pendingPlayoutDelay == None && Settings() == old(Settings())
      ensures packetizer.sequenceNumber == (old(packetizer.sequenceNumber) + |packets|) % 0x1_0000
    {
      hide Rtp.Packets, Crypto.Encrypted, StreamModel.Valid, RingValid;
      var data := new byte[|frame.data|](i requires 0 <= i < |frame.data| => frame.data[i]);
      assert data[..] == frame.data;
      crypto.Encrypt(nextFrameId, data);
      var referenced := if frame.keyFrame then nextFrameId else nextFrameId - 1;
      var header := Rtp.FrameHeader(nextFrameId, frame.keyFrame, referenced,
                                    Clocks.MediaToRtp(frame.mediaTimestamp, rtpTimebase), pendingPlayoutDelay);
      pendingPlayoutDelay := None;
      packets := packetizer.Packetize(header, data[..]);
    }

    method InFlightCount() returns (count: nat)
      requires Valid()
      ensures count == |Model().pending|
    {
      count := 0;
      ghost var seen: set<int> := {};
      for i := 0 to SLOTS
        invariant |seen| == count
        invariant forall f :: f in seen <==> f in Model().pending && f % SLOTS < i
      {
        Occupant(pending[..], checkpoint, nextFrameId, i);
        if pending[i].Some? {
          seen := seen + {pending[i].value.frameId};
          count := count + 1;
        }
      }
      assert seen == Model().pending.Keys;
    }

    /** Empty the slot of a frame in flight and cancel its packets; nothing happens for other frames. */
    method ReleaseFrame(frameId: int) returns (released: bool)
      requires RingOk() && -0x8000_0000_0000_0000 <= frameId
      modifies this`sendQueue, this`retransmitQueue, pending
      ensures RingOk()
      ensures released <==> frameId in old(Model()).pending
      ensures Model() == if released then Drop(old(Model()), {frameId}) else old(Model())
    {
      ghost var ring := pending[..];
      Lookup(ring, checkpoint, nextFrameId, frameId);
      var slot := SlotOf(frameId);
      if pending[slot].Some? && pending[slot].value.frameId == frameId {
        Emptied(ring, checkpoint, nextFrameId, frameId);
        pending[slot] := None;
        assert pending[..] == ring[frameId % SLOTS := None];
        CancelQueuedFrame(frameId);
        return true;
      }
      return false;
    }

    /** No packet of the frame stays queued, every other one does, and in its place. */
    method CancelQueuedFrame(frameId: int)
      modifies this`sendQueue, this`retransmitQueue
      ensures forall q :: q in sendQueue <==> q in old(sendQueue) && q.frameId != frameId
      ensures forall q :: q in retransmitQueue <==> q in old(retransmitQueue) && q.frameId != frameId
      ensures sendQueue == Without(old(sendQueue), {frameId})
      ensures retransmitQueue == Without(old(retransmitQueue), {frameId})
    {
      sendQueue := Retain(sendQueue, frameId);
      retransmitQueue := Retain(retransmitQueue, frameId);
    }

    /** Release every frame in flight between two identifiers; the result lists them, ascending. */
    method ReleaseRange(start: int, frameId: int) returns (acknowledged: seq<int>)
      requires RingOk() && -1 <= checkpoint < start <= frameId + 1
      requires forall f :: f in Model().pending ==> start <= f
      modifies this`sendQueue, this`retransmitQueue, pending
      ensures RingOk()
      ensures Lists(acknowledged, UpTo(old(Model()), frameId))
      ensures Model() == Drop(old(Model()), UpTo(old(Model()), frameId))
    {
      hide Without, RingMap, RingValid, Lists;
      acknowledged := [];
      ghost var before := Model();
      ghost var gone: set<int> := {};
      DropInTwo(before, {}, {});
      ListsNone();
      for rawId := start to frameId + 1
        invariant RingOk()
        invariant Model() == Drop(before, gone)
        invariant forall f :: f in gone <==> f in before.pending && f < rawId
        invariant Lists(acknowledged, gone)
      {
        var released := ReleaseFrame(rawId);
        if released {
          DropInTwo(before, gone, {rawId});
          ListsMore(acknowledged, gone, rawId);
          gone := gone + {rawId};
          acknowledged := acknowledged + [rawId];
        }
      }
      UpToIs(before, frameId, gone);
    }

    /** Advance the cumulative checkpoint; the result lists the frames released, ascending. */
    method AcknowledgeUpTo(frameId: int) returns (acknowledged: seq<int>)
      requires Valid() && frameId < nextFrameId
      modifies this`sendQueue, this`retransmitQueue, this`checkpoint, this`framesAcked, pending
      ensures Valid()
      ensures Model() == StreamModel.AcknowledgeUpTo(old(Model()), frameId)
      ensures Ascending(acknowledged)
      ensures forall f :: f in acknowledged <==>
        f in old(Model()).pending && old(checkpoint) < frameId && f <= frameId
    {
      hide Drop, RingMap, RingValid, StreamModel.Valid;
      Window(Model());
      acknowledged := [];
      var start := checkpoint + 1;
      if frameId < start {
        return;
      }
      AcknowledgeKeepsValid(Model(), frameId, None);
      acknowledged := ReleaseRange(start, frameId);
      DropLeaves(old(Model()), UpTo(old(Model()), frameId));
      Raised(pending[..], checkpoint, frameId, nextFrameId);
      checkpoint := frameId;
      framesAcked := SaturatingAdd(framesAcked, |acknowledged|);
    }

    /** Release the frames that one byte of an acknowledgement vector reports. */
    method ReleaseByte(
      checkpoint: int, data: seq<byte>, byteIndex: nat, acknowledged: seq<int>, ghost before: Stream,
      ghost gone: set<int>)
      returns (more: seq<int>, ghost gone': set<int>)
      requires RingOk() && byteIndex < |data| && -0x8000_0000_0000_0000 <= checkpoint
      requires forall f :: f in before.pending ==> f < nextFrameId
      requires Model() == Drop(before, gone) && Lists(acknowledged, gone)
      requires forall f :: f in gone <==> f in before.pending && ReportedBelow(checkpoint, data, 8 * byteIndex, f)
      modifies this`sendQueue, this`retransmitQueue, pending
      ensures RingOk()
      ensures Model() == Drop(before, gone') && Lists(more, gone')
      ensures forall f :: f in gone' <==> f in before.pending && ReportedBelow(checkpoint, data, 8 * byteIndex + 8, f)
    {
      hide Without, RingMap, RingValid, Bit, Lists, ReportedBelow;
      more, gone' := acknowledged, gone;
      for bitIndex := 0 to 8
        invariant RingOk()
        invariant Model() == Drop(before, gone')
        invariant forall f :: f in gone' <==>
          f in before.pending && ReportedBelow(checkpoint, data, 8 * byteIndex + bitIndex, f)
        invariant Lists(more, gone')
      {
        var offset := 2 + byteIndex * 8 + bitIndex;
        var frameId := checkpoint + offset;
        OneMoreBit(checkpoint, data, byteIndex, bitIndex, 8 * byteIndex + bitIndex);
        if !Bit(data[byteIndex], bitIndex) || frameId >= nextFrameId {
          continue;
        }
        var released := ReleaseFrame(frameId);
        if released {
          DropInTwo(before, gone', {frameId});
          ListsMore(more, gone', frameId);
          gone' := gone' + {frameId};
          more := more + [frameId];
        }
      }
    }

    /** Release every frame that an acknowledgement vector reports, in vector order. */
    method ReleaseReported(checkpoint: int, data: seq<byte>) returns (acknowledged: seq<int>)
      requires RingOk() && -0x8000_0000_0000_0000 <= checkpoint
      requires forall f :: f in Model().pending ==> f < nextFrameId
      modifies this`sendQueue, this`retransmitQueue, pending
      ensures RingOk()
      ensures Lists(acknowledged, Selected(old(Model()), checkpoint, data))
      ensures Model() == Drop(old(Model()), Selected(old(Model()), checkpoint, data))
    {
      hide Without, RingMap, RingValid, Bit, Lists;
      acknowledged := [];
      ghost var before := Model();
      ghost var gone: set<int> := {};
      DropInTwo(before, {}, {});
      ListsNone();
      for byteIndex := 0 to |data|
        invariant RingOk()
        invariant Model() == Drop(before, gone)
        invariant forall f :: f in gone <==> f in before.pending && ReportedBelow(checkpoint, data, 8 * byteIndex, f)
        invariant Lists(acknowledged, gone)
      {
        acknowledged, gone := ReleaseByte(checkpoint, data, byteIndex, acknowledged, before, gone);
      }
      SelectedIs(before, checkpoint, data, gone);
    }

    /** Acknowledge the frames of an optional vector, relative to the feedback's checkpoint. */
    method AcknowledgeBitvector(checkpoint: int, ack: Option<AckBitvector>) returns (acknowledged: seq<int>)
      requires Valid() && -0x8000_0000_0000_0000 <= checkpoint < nextFrameId
      modifies this`sendQueue, this`retransmitQueue, this`framesAcked, pending
      ensures Valid()
      ensures Model() == StreamModel.AcknowledgeBitvector(old(Model()), checkpoint, ack)
      ensures Ascending(acknowledged)
      ensures forall f :: f in acknowledged <==>
        f in old(Model()).pending && ack.Some? && Reported(checkpoint, ack.value.data, f)
    {
      hide Drop, RingMap, RingValid, StreamModel.Valid, Bit, Reported;
      Window(Model());
      acknowledged := [];
      if ack.None? {
        return;
      }
      AcknowledgeKeepsValid(Model(), checkpoint, ack);
      acknowledged := ReleaseReported(checkpoint, ack.value.data);
      framesAcked := SaturatingAdd(framesAcked, |acknowledged|);
    }

    /** Queue retransmissions for one NACK; the result is how many packets were queued. */
    method HandleNack(frameId: int, packetId: u16) returns (count: nat)
      requires Valid() && -0x8000_0000_0000_0000 <= frameId
      modifies this`nackCount, this`retransmitQueue
      ensures Valid()
      ensures Model() == StreamModel.HandleNack(old(Model()), frameId, packetId)
      ensures count == |Requested(old(Model()), frameId, packetId)|
    {
      hide RingMap, RingValid, StreamModel.Valid;
      NackKeepsValid(Model(), frameId, packetId);
      Lookup(pending[..], checkpoint, nextFrameId, frameId);
      nackCount := SaturatingAdd(nackCount, 1);
      var slot := SlotOf(frameId);
      if pending[slot].None? || pending[slot].value.frameId != frameId {
        assert retransmitQueue + [] == retransmitQueue;
        return 0;
      }
      var packets := pending[slot].value.packets;
      if packetId == ALL_PACKETS_LOST {
        retransmitQueue := retransmitQueue + Entries(frameId, packets);
        return |packets|;
      } else if packetId < |packets| {
        assert Entries(frameId, [packets[packetId]]) == [QueuedPacket(frameId, packets[packetId])];
        retransmitQueue := retransmitQueue + [QueuedPacket(frameId, packets[packetId])];
        return 1;
      } else {
        assert retransmitQueue + [] == retransmitQueue;
        return 0;
      }
    }

    /** Take a retransmission first, then a newly queued packet. */
    method NextPacket() returns (r: Option<OutboundPacket>)
      requires Valid()
      modifies this`sendQueue, this`retransmitQueue
      ensures Valid()
      ensures Sendable(old(Model())) ==> r == Some(Head(old(Model()))) && Model() == AfterSend(old(Model()))
      ensures !Sendable(old(Model())) ==> r == None && Model() == old(Model())
    {
      if Sendable(Model()) { SendKeepsValid(Model()); }
      if retransmitQueue != [] {
        r := Some(OutboundPacket(retransmitQueue[0], true));
        retransmitQueue := retransmitQueue[1..];
      } else if sendQueue != [] {
        r := Some(OutboundPacket(sendQueue[0], false));
        sendQueue := sendQueue[1..];
      } else {
        r := None;
      }
    }

    /**
     One feedback packet: cumulative and selective acknowledgement, then its NACKs in order. The results are what
     the events report: each frame acknowledged, once, and what each NACK brought back.
     */
    method ApplyFeedback(feedback: CastFeedback)
      returns (acknowledged: seq<int>, retransmissions: seq<Retransmission>)
      requires Valid()
      modifies this`sendQueue, this`retransmitQueue, this`checkpoint, this`framesAcked, this`nackCount, pending
      ensures Valid()
      ensures Sender() == old(Sender()).(stream := Apply(old(Model()), feedback))
      ensures ListsOnce(acknowledged, Acknowledged(old(Model()), FeedbackCheckpoint(old(Model()), feedback),
                                                   feedback.ackBitvector))
      ensures Retransmitted(Model(), FeedbackCheckpoint(old(Model()), feedback), feedback.nacks, retransmissions)
    {
      hide StreamModel.AcknowledgeUpTo, StreamModel.AcknowledgeBitvector, StreamModel.HandleNack, RingMap, RingValid;
      hide StreamModel.Valid, Acknowledged, Reported, NoRepeats, Ascending, Requested, Expand, ExpandLte;
      ghost var before := Model();
      var checkpoint := ExpandLte(feedback.checkpointFrameId, nextFrameId - 1);
      Window(before);
      var first := AcknowledgeUpTo(checkpoint);
      var second := AcknowledgeBitvector(checkpoint, feedback.ackBitvector);
      AcknowledgedLists(before, checkpoint, feedback.ackBitvector, first, second);
      acknowledged := first + second;
      retransmissions := [];
      assert feedback.nacks[0..] == feedback.nacks;
      for i := 0 to |feedback.nacks|
        invariant Valid()
        invariant HandleNacks(Model(), checkpoint, feedback.nacks[i..]) == Apply(before, feedback)
        invariant Retransmitted(Apply(before, feedback), checkpoint, feedback.nacks[..i], retransmissions)
      {
        var nack := feedback.nacks[i];
        var frameId := Expand(Truncate(nack.frameId), checkpoint);
        assert feedback.nacks[i..][1..] == feedback.nacks[i + 1..];
        NacksLeaveFrames(Model(), checkpoint, feedback.nacks[i..], nack);
        var queued := HandleNack(frameId, nack.packetId);
        retransmissions := retransmissions + [Retransmission(frameId, nack.packetId, queued)];
      }
      assert feedback.nacks[..|feedback.nacks|] == feedback.nacks;
    }
  }

  /** Each member of the set, once. */
  ghost predicate ListsOnce(ids: seq<int>, members: set<int>) {
    NoRepeats(ids) && forall f :: f in ids <==> f in members
  }

  /** One entry for each NACK, in order. */
  ghost predicate Retransmitted(s: Stream, checkpoint: int, nacks: seq<PacketNack>, entries: seq<Retransmission>) {
    |entries| == |nacks| && forall i :: 0 <= i < |nacks| ==> entries[i] == RetransmissionFor(s, checkpoint, nacks[i])
  }

  /** NACKs change no frame in flight, so what one of them brings back does not depend on the others. */
  lemma NacksLeaveFrames(s: Stream, checkpoint: int, nacks: seq<PacketNack>, nack: PacketNack)
    requires StreamModel.Valid(s)
    ensures RetransmissionFor(HandleNacks(s, checkpoint, nacks), checkpoint, nack)
         == RetransmissionFor(s, checkpoint, nack)
  {
    hide StreamModel.Valid, HandleNacks;
    NacksKeepValid(s, checkpoint, nacks);
  }

  /** A frame is only accepted while the window has room. */
  lemma HasRoom(s: Stream, frame: Frame)
    requires StreamModel.Valid(s) && Refusal(s, frame).None?
    ensures s.checkpoint < s.nextFrameId < s.checkpoint + 1 + SLOTS
  {
  }

  lemma AcceptKeepsValid(s: Stream, frame: Frame, packets: seq<Rtp.Packet>)
    requires StreamModel.Valid(s) && Refusal(s, frame).None? && packets != []
    ensures StreamModel.Valid(Accept(s, frame, packets))
  {
    hide StreamModel.Valid, Refusal;
    EnqueueKeepsValid(s, frame, packets);
  }

  /** Keep the packets of other frames, in order. */
  method Retain(queue: seq<QueuedPacket>, frameId: int) returns (kept: seq<QueuedPacket>)
    ensures kept == Without(queue, {frameId})
    ensures forall q :: q in kept <==> q in queue && q.frameId != frameId
  {
    kept := [];
    for i := 0 to |queue|
      invariant kept == Without(queue[..i], {frameId})
    {
      assert queue[..i + 1] == queue[..i] + [queue[i]];
      WithoutAppend(queue[..i], queue[i], {frameId});
      if queue[i].frameId != frameId {
        kept := kept + [queue[i]];
      }
    }
    assert queue[..|queue|] == queue;
    WithoutMembers(queue, {frameId});
  }

  lemma {:induction false} WithoutAppend(queue: seq<QueuedPacket>, q: QueuedPacket, gone: set<int>)
    ensures Without(queue + [q], gone) == Without(queue, gone) + if q.frameId in gone then [] else [q]
  {
    if queue == [] {
      assert queue + [q] == [q] && [q][1..] == [];
    } else {
      assert (queue + [q])[1..] == queue[1..] + [q];
      WithoutAppend(queue[1..], q, gone);
    }
  }

  lemma Window(s: Stream)
    requires StreamModel.Valid(s)
    ensures -1 <= s.checkpoint < s.nextFrameId
    ensures forall f :: f in s.pending ==> s.checkpoint < f < s.nextFrameId
  {
  }

  lemma DropLeaves(s: Stream, gone: set<int>)
    ensures forall f :: f in Drop(s, gone).pending <==> f in s.pending && f !in gone
  {
  }

  // ----- Acknowledgement lists ---------------------------------------------

  ghost predicate Ascending(ids: seq<int>) { forall i, j :: 0 <= i < j < |ids| ==> ids[i] < ids[j] }

  ghost predicate NoRepeats(ids: seq<int>) { forall i, j :: 0 <= i < j < |ids| ==> ids[i] != ids[j] }

  /** `ids` are the elements of `gone` in ascending order. */
  ghost predicate Lists(ids: seq<int>, gone: set<int>) {
    Ascending(ids) && (forall f :: f in ids <==> f in gone) && |ids| == |gone|
  }

  lemma UpToIs(s: Stream, frameId: int, gone: set<int>)
    requires forall f :: f in gone <==> f in s.pending && f <= frameId
    ensures gone == UpTo(s, frameId)
  {
    var all := UpTo(s, frameId);
    assert forall f :: f in all <==> f in gone;
  }

  lemma SelectedIs(s: Stream, checkpoint: int, data: seq<byte>, gone: set<int>)
    requires forall f :: f in gone <==> f in s.pending && ReportedBelow(checkpoint, data, 8 * |data|, f)
    ensures gone == Selected(s, checkpoint, data)
  {
    hide Bit;
    var all := Selected(s, checkpoint, data);
    assert forall f :: f in all <==> f in gone;
  }

  lemma ListsNone()
    ensures Lists([], {})
  {
  }

  lemma ListsMore(ids: seq<int>, gone: set<int>, next: int)
    requires Lists(ids, gone) && forall f :: f in gone ==> f < next
    ensures Lists(ids + [next], gone + {next})
  {
    var more := ids + [next];
    forall i | 0 <= i < |ids|
      ensures ids[i] < next
    {
      assert ids[i] in ids;
    }
    assert forall f :: f in more <==> f in ids || f == next;
    assert next !in gone;
  }

  /** The vector reports `f` at one of its first `limit` bits. */
  ghost predicate ReportedBelow(checkpoint: int, data: seq<byte>, limit: int, f: int) {
    Reported(checkpoint, data, f) && f - checkpoint - 2 < limit
  }

  lemma OneMoreBit(checkpoint: int, data: seq<byte>, byteIndex: nat, bitIndex: nat, limit: int)
    requires byteIndex < |data| && bitIndex < 8 && limit == 8 * byteIndex + bitIndex
    ensures forall f :: ReportedBelow(checkpoint, data, limit, f) ==> f < checkpoint + 2 + limit
    ensures forall f :: ReportedBelow(checkpoint, data, limit, f) ==> ReportedBelow(checkpoint, data, limit + 1, f)
    ensures forall f :: ReportedBelow(checkpoint, data, limit + 1, f) && f != checkpoint + 2 + limit ==>
      ReportedBelow(checkpoint, data, limit, f)
    ensures ReportedBelow(checkpoint, data, limit + 1, checkpoint + 2 + limit) <==> Bit(data[byteIndex], bitIndex)
  {
    assert limit / 8 == byteIndex && limit % 8 == bitIndex;
  }

  /** A slot is occupied exactly when one frame in flight belongs to it. */
  lemma Occupant(ring: seq<Slot>, lo: int, hi: int, i: nat)
    requires RingValid(ring, lo, hi) && i < SLOTS
    ensures ring[i].Some? ==>
      forall f :: f in RingMap(ring, lo, hi) ==> (f % SLOTS == i <==> f == ring[i].value.frameId)
    ensures ring[i].Some? ==> ring[i].value.frameId in RingMap(ring, lo, hi)
    ensures ring[i].None? ==> forall f :: f in RingMap(ring, lo, hi) ==> f % SLOTS != i
  {
  }

  lemma AcknowledgedLists(s: Stream, checkpoint: int, ack: Option<AckBitvector>, first: seq<int>, second: seq<int>)
    requires StreamModel.Valid(s) && checkpoint < s.nextFrameId
    requires Ascending(first) && Ascending(second)
    requires forall f :: f in first <==> f in s.pending && s.checkpoint < checkpoint && f <= checkpoint
    requires forall f :: f in second <==>
      f in AcknowledgeUpTo(s, checkpoint).pending && ack.Some? && Reported(checkpoint, ack.value.data, f)
    ensures forall f :: f in first + second <==> f in Acknowledged(s, checkpoint, ack)
    ensures NoRepeats(first + second)
  {
    hide Without, Reported;
    var both := first + second;
    assert forall f :: f in both <==> f in first || f in second;
    forall i, j | 0 <= i < j < |both|
      ensures both[i] != both[j]
    {
      if i < |first| <= j {
        assert both[i] in first && both[j] in second;
      }
    }
  }
}
