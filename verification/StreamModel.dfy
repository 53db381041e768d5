/**
 One sender stream as a value (src/sender/stream.rs): the frames in flight are
 a map from identifier to frame, the queues are sequences, and each operation
 of the source is a function on that state. The in-place form, with its fixed
 ring of slots, is in StreamState.
 */
module StreamModel {
  import opened Bytes
  import opened FrameIds
  import opened Rtcp
  import Rtp

  const MAX_UNACKED_FRAMES: nat := 120

  datatype Frame = Frame(
    keyFrame: bool,
    data: seq<byte>,
    mediaTimestamp: nat,
    referenceTime: int,
    duration: Option<nat>)

  datatype EnqueueError =
    | EmptyFrame
    | FirstFrameMustBeKeyFrame
    | NonMonotonicMediaTimestamp
    | ReachedIdSpanLimit

  datatype PendingFrame = PendingFrame(
    frameId: int,
    mediaTimestamp: nat,
    duration: Option<nat>,
    packets: seq<Rtp.Packet>)

  datatype QueuedPacket = QueuedPacket(frameId: int, packet: Rtp.Packet)

  datatype OutboundPacket = OutboundPacket(queued: QueuedPacket, retransmission: bool)

  datatype Stream = Stream(
    nextFrameId: int,
    checkpoint: int,
    pending: map<int, PendingFrame>,
    lastMediaTimestamp: Option<nat>,
    sendQueue: seq<QueuedPacket>,
    retransmitQueue: seq<QueuedPacket>,
    framesAcked: nat,
    framesRejected: nat,
    nackCount: nat)

  const NEW: Stream := Stream(0, -1, map[], None, [], [], 0, 0, 0)

  // ----- What every operation keeps ----------------------------------------

  /** A queue holds only packets of frames that are still in flight. */
  ghost predicate Backed(queue: seq<QueuedPacket>, pending: map<int, PendingFrame>) {
    forall q :: q in queue ==> q.frameId in pending && q.packet in pending[q.frameId].packets
  }

  ghost predicate Valid(s: Stream) {
    // The window: at most 120 identifiers above the checkpoint.
    && -1 <= s.checkpoint < s.nextFrameId <= s.checkpoint + 1 + MAX_UNACKED_FRAMES
    // Every frame in flight lies in the window, under its own identifier.
    && (forall f :: f in s.pending ==>
          && s.checkpoint < f < s.nextFrameId
          && s.pending[f].frameId == f
          && s.pending[f].packets != [])
    && Backed(s.sendQueue, s.pending)
    && Backed(s.retransmitQueue, s.pending)
    // Conservation: every identifier handed out is acknowledged or in flight.
    && s.framesAcked == Min(s.nextFrameId - |s.pending|, U64_MAX)
  }

  lemma NewIsValid()
    ensures Valid(NEW)
  {
  }

  /** Two frames in flight never share a ring slot. */
  lemma SlotsAreDistinct(s: Stream, f: int, g: int)
    requires Valid(s) && f in s.pending && g in s.pending
    requires f % MAX_UNACKED_FRAMES == g % MAX_UNACKED_FRAMES
    ensures f == g
  {
  }

  /** While the window has room, the slot of the next frame is free. */
  lemma NextSlotIsFree(s: Stream, f: int)
    requires Valid(s) && IdSpan(s) < MAX_UNACKED_FRAMES && f in s.pending
    ensures f % MAX_UNACKED_FRAMES != s.nextFrameId % MAX_UNACKED_FRAMES
  {
    InWindow(s, f);
    hide Valid;
    DistinctResidues(f, s.nextFrameId);
  }

  lemma InWindow(s: Stream, f: int)
    requires Valid(s) && f in s.pending
    ensures s.checkpoint < f < s.nextFrameId <= s.checkpoint + 1 + MAX_UNACKED_FRAMES
  {
  }

  lemma DistinctResidues(f: int, g: int)
    requires f < g < f + MAX_UNACKED_FRAMES
    ensures f % MAX_UNACKED_FRAMES != g % MAX_UNACKED_FRAMES
  {
  }

  // ----- Enqueueing --------------------------------------------------------

  function IdSpan(s: Stream): int { s.nextFrameId - (s.checkpoint + 1) }

  /** Why a frame is turned away, in the order the source checks. */
  function Refusal(s: Stream, frame: Frame): Option<EnqueueError> {
    if frame.data == [] then Some(EmptyFrame)
    else if s.nextFrameId == 0 && !frame.keyFrame then Some(FirstFrameMustBeKeyFrame)
    else if s.lastMediaTimestamp.Some? && frame.mediaTimestamp <= s.lastMediaTimestamp.value
    then Some(NonMonotonicMediaTimestamp)
    else if IdSpan(s) >= MAX_UNACKED_FRAMES then Some(ReachedIdSpanLimit)
    else None
  }

  function Reject(s: Stream): Stream { s.(framesRejected := SaturatingAdd(s.framesRejected, 1)) }

  /** The queue entries for a frame's packets. */
  function Entries(frameId: int, packets: seq<Rtp.Packet>): (q: seq<QueuedPacket>)
    ensures |q| == |packets|
    ensures forall i :: 0 <= i < |q| ==> q[i] == QueuedPacket(frameId, packets[i])
  {
    seq(|packets|, i requires 0 <= i < |packets| => QueuedPacket(frameId, packets[i]))
  }

  /** The state after accepting a frame that was cut into `packets`. */
  function Accept(s: Stream, frame: Frame, packets: seq<Rtp.Packet>): Stream {
    var id := s.nextFrameId;
    s.(nextFrameId := id + 1,
       pending := s.pending[id := PendingFrame(id, frame.mediaTimestamp, frame.duration, packets)],
       lastMediaTimestamp := Some(frame.mediaTimestamp),
       sendQueue := s.sendQueue + Entries(id, packets))
  }

  function Enqueue(s: Stream, frame: Frame, packets: seq<Rtp.Packet>): Stream {
    if Refusal(s, frame).Some? then Reject(s) else Accept(s, frame, packets)
  }

  lemma EnqueueKeepsValid(s: Stream, frame: Frame, packets: seq<Rtp.Packet>)
    requires Valid(s) && packets != []
    ensures Valid(Enqueue(s, frame, packets))
    ensures forall f :: f in s.pending ==>
      f in Enqueue(s, frame, packets).pending && Enqueue(s, frame, packets).pending[f] == s.pending[f]
  {
    if Refusal(s, frame).None? {
      var t := Accept(s, frame, packets);
      assert t.pending.Keys == s.pending.Keys + {s.nextFrameId};
      forall q | q in t.sendQueue
        ensures q.frameId in t.pending && q.packet in t.pending[q.frameId].packets
      {
        if q !in s.sendQueue {
          assert q in Entries(s.nextFrameId, packets);
        }
      }
    }
  }

  // ----- Acknowledgement ---------------------------------------------------

  /** A queue without the packets of the given frames. */
  function Without(queue: seq<QueuedPacket>, gone: set<int>): seq<QueuedPacket> {
    if queue == [] then []
    else if queue[0].frameId in gone then Without(queue[1..], gone)
    else [queue[0]] + Without(queue[1..], gone)
  }

  lemma {:induction false} WithoutMembers(queue: seq<QueuedPacket>, gone: set<int>)
    ensures forall q :: q in Without(queue, gone) <==> q in queue && q.frameId !in gone
  {
    if queue != [] {
      WithoutMembers(queue[1..], gone);
      assert forall q :: q in queue <==> q == queue[0] || q in queue[1..];
    }
  }

  lemma {:induction false} WithoutUnion(queue: seq<QueuedPacket>, a: set<int>, b: set<int>)
    ensures Without(Without(queue, a), b) == Without(queue, a + b)
  {
    if queue != [] {
      WithoutUnion(queue[1..], a, b);
      if queue[0].frameId !in a {
        assert Without(queue, a)[1..] == Without(queue[1..], a);
      }
    }
  }

  lemma {:induction false} WithoutNothing(queue: seq<QueuedPacket>)
    ensures Without(queue, {}) == queue
  {
    if queue != [] {
      WithoutNothing(queue[1..]);
    }
  }

  /** Frames leave the map together with everything still queued for them. */
  function Drop(s: Stream, gone: set<int>): Stream {
    s.(pending := s.pending - gone,
       sendQueue := Without(s.sendQueue, gone),
       retransmitQueue := Without(s.retransmitQueue, gone))
  }

  lemma DropInTwo(s: Stream, first: set<int>, second: set<int>)
    ensures Drop(Drop(s, first), second) == Drop(s, first + second)
    ensures Drop(s, {}) == s
  {
    WithoutUnion(s.sendQueue, first, second);
    WithoutUnion(s.retransmitQueue, first, second);
    WithoutNothing(s.sendQueue);
    WithoutNothing(s.retransmitQueue);
    assert s.pending - first - second == s.pending - (first + second);
    assert s.pending - {} == s.pending;
  }

  /** Drop frames that the receiver has, and count them. */
  function Retire(s: Stream, gone: set<int>): Stream {
    Drop(s, gone).(framesAcked := SaturatingAdd(s.framesAcked, |gone|))
  }

  lemma RetireKeepsValid(s: Stream, gone: set<int>)
    requires Valid(s) && gone <= s.pending.Keys
    ensures Valid(Retire(s, gone))
    ensures |Retire(s, gone).pending| == |s.pending| - |gone|
  {
    var t := Retire(s, gone);
    assert t.pending.Keys == s.pending.Keys - gone;
    assert |t.pending.Keys| == |s.pending.Keys| - |gone|;
    WithoutMembers(s.sendQueue, gone);
    WithoutMembers(s.retransmitQueue, gone);
    hide Without;
    WindowHolds(s);
  }

  /** No more frames are in flight than identifiers were handed out. */
  lemma WindowHolds(s: Stream)
    requires Valid(s)
    ensures 0 <= |s.pending| <= IdSpan(s) <= s.nextFrameId
  {
    SubsetSize(s.pending.Keys, Interval(s.checkpoint + 1, s.nextFrameId));
  }

  ghost function Interval(lo: int, hi: int): (r: set<int>)
    requires lo <= hi
    ensures |r| == hi - lo
    ensures forall f :: f in r <==> lo <= f < hi
    decreases hi - lo
  {
    if lo == hi then {} else Interval(lo, hi - 1) + {hi - 1}
  }

  lemma SubsetSize<T>(a: set<T>, b: set<T>)
    requires a <= b
    ensures |a| <= |b|
  {
    assert b == a + (b - a);
  }

  /** The frames in flight at or below a cumulative acknowledgement. */
  function UpTo(s: Stream, frameId: int): (gone: set<int>)
    ensures gone <= s.pending.Keys
  {
    set f | f in s.pending && f <= frameId
  }

  function AcknowledgeUpTo(s: Stream, frameId: int): Stream {
    if frameId <= s.checkpoint then s else Retire(s, UpTo(s, frameId)).(checkpoint := frameId)
  }

  /** Bit zero of the vector speaks for `checkpoint + 2`; `checkpoint + 1` is missing by definition. */
  predicate Reported(checkpoint: int, data: seq<byte>, f: int) {
    var offset := f - checkpoint - 2;
    0 <= offset < 8 * |data| && Bit(data[offset / 8], offset % 8)
  }

  /** The frames in flight that an acknowledgement vector reports complete. */
  function Selected(s: Stream, checkpoint: int, data: seq<byte>): (gone: set<int>)
    ensures gone <= s.pending.Keys
  {
    set f | f in s.pending && Reported(checkpoint, data, f)
  }

  function AcknowledgeBitvector(s: Stream, checkpoint: int, ack: Option<AckBitvector>): Stream {
    if ack.None? then s else Retire(s, Selected(s, checkpoint, ack.value.data))
  }

  lemma AcknowledgeKeepsValid(s: Stream, frameId: int, ack: Option<AckBitvector>)
    requires Valid(s) && frameId < s.nextFrameId
    ensures Valid(AcknowledgeUpTo(s, frameId))
    ensures Valid(AcknowledgeBitvector(s, frameId, ack))
  {
    hide Valid, Retire, Without, Reported;
    RetireKeepsValid(s, UpTo(s, frameId));
    if frameId > s.checkpoint {
      RaisingKeepsValid(s, frameId);
    }
    if ack.Some? {
      RetireKeepsValid(s, Selected(s, frameId, ack.value.data));
    }
  }

  /** With everything up to an identifier retired, the checkpoint may move there. */
  lemma RaisingKeepsValid(s: Stream, frameId: int)
    requires Valid(Retire(s, UpTo(s, frameId))) && s.checkpoint < frameId < s.nextFrameId
    ensures Valid(Retire(s, UpTo(s, frameId)).(checkpoint := frameId))
  {
    hide Without;
  }

  // ----- Retransmission ----------------------------------------------------

  /** The packets a NACK brings back: all, the named one, or none. */
  function Requested(s: Stream, frameId: int, packetId: u16): seq<Rtp.Packet> {
    if frameId !in s.pending then []
    else if packetId == ALL_PACKETS_LOST then s.pending[frameId].packets
    else if packetId < |s.pending[frameId].packets| then [s.pending[frameId].packets[packetId]]
    else []
  }

  function HandleNack(s: Stream, frameId: int, packetId: u16): Stream {
    s.(nackCount := SaturatingAdd(s.nackCount, 1),
       retransmitQueue := s.retransmitQueue + Entries(frameId, Requested(s, frameId, packetId)))
  }

  lemma NackKeepsValid(s: Stream, frameId: int, packetId: u16)
    requires Valid(s)
    ensures Valid(HandleNack(s, frameId, packetId))
  {
    var extra := Entries(frameId, Requested(s, frameId, packetId));
    forall q | q in extra
      ensures q.frameId in s.pending && q.packet in s.pending[q.frameId].packets
    {
    }
  }

  // ----- Transmission ------------------------------------------------------

  function Sendable(s: Stream): bool { s.retransmitQueue != [] || s.sendQueue != [] }

  /** The packet to send next: retransmissions first. */
  function Head(s: Stream): OutboundPacket
    requires Sendable(s)
  {
    if s.retransmitQueue != [] then OutboundPacket(s.retransmitQueue[0], true)
    else OutboundPacket(s.sendQueue[0], false)
  }

  function AfterSend(s: Stream): Stream
    requires Sendable(s)
  {
    if s.retransmitQueue != [] then s.(retransmitQueue := s.retransmitQueue[1..])
    else s.(sendQueue := s.sendQueue[1..])
  }

  lemma SendKeepsValid(s: Stream)
    requires Valid(s) && Sendable(s)
    ensures Valid(AfterSend(s))
    ensures Head(s).queued.frameId in s.pending
    ensures Head(s).queued.packet in s.pending[Head(s).queued.frameId].packets
  {
    assert Head(s).queued in s.retransmitQueue || Head(s).queued in s.sendQueue;
  }

  // ----- Cast feedback -----------------------------------------------------

  /** The checkpoint that a feedback packet's single byte stands for. */
  function FeedbackCheckpoint(s: Stream, feedback: CastFeedback): (c: int)
    ensures s.nextFrameId - 256 <= c < s.nextFrameId
  {
    ExpandLte(feedback.checkpointFrameId, s.nextFrameId - 1)
  }

  function HandleNacks(s: Stream, checkpoint: int, nacks: seq<PacketNack>): Stream
    decreases nacks
  {
    if nacks == [] then s
    else
      var frameId := Expand(Truncate(nacks[0].frameId), checkpoint);
      HandleNacks(HandleNack(s, frameId, nacks[0].packetId), checkpoint, nacks[1..])
  }

  /** What one NACK came to: the frame it means, the packet it names and how many packets it brought back. */
  datatype Retransmission = Retransmission(frameId: int, packetId: u16, packetsQueued: nat)

  function RetransmissionFor(s: Stream, checkpoint: int, nack: PacketNack): Retransmission {
    var frameId := Expand(Truncate(nack.frameId), checkpoint);
    Retransmission(frameId, nack.packetId, |Requested(s, frameId, nack.packetId)|)
  }

  /** One feedback packet applied to its stream: cumulative, selective, then NACKs. */
  function Apply(s: Stream, feedback: CastFeedback): Stream {
    var checkpoint := FeedbackCheckpoint(s, feedback);
    HandleNacks(Acknowledge(s, checkpoint, feedback.ackBitvector), checkpoint, feedback.nacks)
  }

  /** Both kinds of acknowledgement. */
  function Acknowledge(s: Stream, checkpoint: int, ack: Option<AckBitvector>): Stream {
    AcknowledgeBitvector(AcknowledgeUpTo(s, checkpoint), checkpoint, ack)
  }

  lemma {:induction false} NacksKeepValid(s: Stream, checkpoint: int, nacks: seq<PacketNack>)
    requires Valid(s)
    ensures Valid(HandleNacks(s, checkpoint, nacks))
    ensures HandleNacks(s, checkpoint, nacks).(retransmitQueue := [], nackCount := 0)
         == s.(retransmitQueue := [], nackCount := 0)
    decreases nacks
  {
    if nacks != [] {
      var frameId := Expand(Truncate(nacks[0].frameId), checkpoint);
      NackKeepsValid(s, frameId, nacks[0].packetId);
      NacksKeepValid(HandleNack(s, frameId, nacks[0].packetId), checkpoint, nacks[1..]);
    }
  }

  /** Whether a checkpoint with its vector speaks for a frame. */
  predicate Covers(checkpoint: int, ack: Option<AckBitvector>, f: int) {
    f <= checkpoint || (ack.Some? && Reported(checkpoint, ack.value.data, f))
  }

  /** The frames in flight that a feedback packet acknowledges, either way. */
  ghost function Acknowledged(s: Stream, checkpoint: int, ack: Option<AckBitvector>): set<int> {
    set f | f in s.pending && Covers(checkpoint, ack, f)
  }

  /** The new checkpoint is the larger one, and exactly the acknowledged frames leave. */
  lemma AcknowledgeExactly(s: Stream, checkpoint: int, ack: Option<AckBitvector>)
    requires Valid(s) && checkpoint < s.nextFrameId
    ensures
      var t := Acknowledge(s, checkpoint, ack);
      && Valid(t)
      && t.nextFrameId == s.nextFrameId
      && t.checkpoint == Max(s.checkpoint, checkpoint)
      && t.pending == s.pending - Acknowledged(s, checkpoint, ack)
      && t.sendQueue == Without(s.sendQueue, Acknowledged(s, checkpoint, ack))
      && t.retransmitQueue == Without(s.retransmitQueue, Acknowledged(s, checkpoint, ack))
  {
    hide Without, Reported;
    AcknowledgeKeepsValid(s, checkpoint, None);
    var t1 := AcknowledgeUpTo(s, checkpoint);
    AcknowledgeKeepsValid(t1, checkpoint, ack);
    var first := if checkpoint <= s.checkpoint then {} else UpTo(s, checkpoint);
    var second := if ack.None? then {} else Selected(t1, checkpoint, ack.value.data);
    AcknowledgedInTwo(s, checkpoint, ack, first, second);
    DropInTwo(s, first, second);
    DropInTwo(t1, {}, {});
  }

  lemma AcknowledgedInTwo(s: Stream, checkpoint: int, ack: Option<AckBitvector>, first: set<int>, second: set<int>)
    requires Valid(s) && checkpoint < s.nextFrameId
    requires first == if checkpoint <= s.checkpoint then {} else UpTo(s, checkpoint)
    requires second == if ack.None? then {} else Selected(AcknowledgeUpTo(s, checkpoint), checkpoint, ack.value.data)
    ensures Acknowledged(s, checkpoint, ack) == first + second
  {
    hide Without, Reported;
  }

  /** Any feedback packet whatsoever, from any receiver, keeps the stream consistent. */
  lemma ApplyKeepsValid(s: Stream, feedback: CastFeedback)
    requires Valid(s)
    ensures
      var t, c := Apply(s, feedback), FeedbackCheckpoint(s, feedback);
      && Valid(t)
      && t.nextFrameId == s.nextFrameId
      && t.checkpoint == Max(s.checkpoint, c)
      && t.pending == s.pending - Acknowledged(s, c, feedback.ackBitvector)
      && t.sendQueue == Without(s.sendQueue, Acknowledged(s, c, feedback.ackBitvector))
  {
    var c := FeedbackCheckpoint(s, feedback);
    AcknowledgeExactly(s, c, feedback.ackBitvector);
    NacksKeepValid(Acknowledge(s, c, feedback.ackBitvector), c, feedback.nacks);
  }

  /**
   Two-stage recovery. A checkpoint between the stream's own and the newest
   frame survives its one byte, and once it is applied every frame still in
   flight is within reach of the signed byte, so its NACKs name it exactly,
   whatever reference the parser had expanded against: 120 <= 127.
   */
  lemma CurrentFeedbackIsExact(s: Stream, checkpoint: int, f: int, parserReference: int)
    requires Valid(s) && s.checkpoint <= checkpoint < s.nextFrameId
    requires f in AcknowledgeUpTo(s, checkpoint).pending
    ensures ExpandLte(Truncate(checkpoint), s.nextFrameId - 1) == checkpoint
    ensures Expand(Truncate(Expand(Truncate(f), parserReference)), checkpoint) == f
  {
    ExpandLteExactness(checkpoint, s.nextFrameId - 1);
    ExpandExactness(f, checkpoint);
  }
}
