/**
 The sender against a receiver over a network (src/sender/event_loop.rs,
 src/sender/stream.rs, src/frame.rs). Datagrams and feedback may be lost,
 duplicated and reordered without limit; the receiver reports honestly. The one
 hypothesis on the network is that a feedback packet is not so late that its one
 byte makes the sender read more into it, among the frames in flight, than it
 said. Anything at most 255 frames behind the newest frame meets it.
 */
module SlidingWindow {
  import opened Bytes
  import opened FrameIds
  import opened Rtcp
  import opened StreamModel
  import Crypto
  import FeedbackWire
  import Rtp

  /** A feedback packet the receiver emitted, with the checkpoint its one byte abbreviates. */
  datatype Report = Report(checkpoint: int, message: FeedbackWire.Message)

  datatype World = World(
    senderSource: u32,
    receiverSource: u32,
    sender: Stream,
    history: seq<seq<Rtp.Packet>>,       // the packets of every frame accepted so far, by identifier
    firstSent: seq<QueuedPacket>,        // first transmissions, in order
    wire: set<QueuedPacket>,             // every packet transmitted so far
    received: set<QueuedPacket>,         // every packet that reached the receiver
    reports: set<Report>)                // every report the receiver has emitted

  function Initial(senderSource: u32, receiverSource: u32): World {
    World(senderSource, receiverSource, NEW, [], [], {}, {}, {})
  }

  /** The receiver holds every packet of frame `f`. */
  ghost predicate Complete(w: World, f: int) {
    && 0 <= f < |w.history|
    && forall p :: p in w.history[f] ==> QueuedPacket(f, p) in w.received
  }

  /** The frames a report says are complete. */
  predicate Claims(r: Report, f: int) { 0 <= f && Covers(r.checkpoint, r.message.ack, f) }

  /** A report claims only frames that are complete. */
  ghost predicate Honest(w: World, r: Report) {
    && r.message.Fits()
    && r.message.senderSyncSource == w.senderSource
    && r.message.receiverSyncSource == w.receiverSource
    && r.message.checkpoint == Truncate(r.checkpoint)
    && -1 <= r.checkpoint
    && (forall f :: Claims(r, f) ==> Complete(w, f))
  }

  /** At most 255 frames behind the newest one. */
  predicate Fresh(w: World, r: Report) { w.sender.nextFrameId - 256 <= r.checkpoint }

  /** The checkpoint that a sender with this next identifier makes of a report's byte. */
  function Recovered(nextFrameId: int, r: Report): int { ExpandLte(r.message.checkpoint, nextFrameId - 1) }

  /**
   Among the last `span` identifiers, those that can be in flight, the sender
   reads nothing into the report that it does not claim.
   */
  ghost predicate Understood(nextFrameId: int, span: int, r: Report) {
    forall f :: nextFrameId - span <= f < nextFrameId && Covers(Recovered(nextFrameId, r), r.message.ack, f) ==>
      Claims(r, f)
  }

  datatype Step =
    | SubmitFrame(frame: Frame, packets: seq<Rtp.Packet>)
    | SendPacket
    | ArrivePacket(packet: QueuedPacket)
    | EmitReport(report: Report)
    | ArriveReport(report: Report)

  /** Anything transmitted may arrive, again and in any order; so may anything reported while it is understood. */
  ghost predicate Enabled(w: World, step: Step) {
    match step
    case SubmitFrame(_, packets) => packets != []
    case SendPacket => Sendable(w.sender)
    case ArrivePacket(packet) => packet in w.wire
    case EmitReport(report) => Honest(w, report)
    case ArriveReport(report) =>
      report in w.reports && Understood(w.sender.nextFrameId, IdSpan(w.sender), report)
  }

  function Do(w: World, step: Step): World
    requires step.SendPacket? ==> Sendable(w.sender)
    requires step.ArriveReport? ==> step.report.message.Fits()
  {
    match step
    case SubmitFrame(frame, packets) =>
      w.(sender := Enqueue(w.sender, frame, packets),
         history := if Refusal(w.sender, frame).Some? then w.history else w.history + [packets])
    case SendPacket =>
      var out := Head(w.sender);
      w.(sender := AfterSend(w.sender),
         firstSent := if out.retransmission then w.firstSent else w.firstSent + [out.queued],
         wire := w.wire + {out.queued})
    case ArrivePacket(packet) => w.(received := w.received + {packet})
    case EmitReport(report) => w.(reports := w.reports + {report})
    case ArriveReport(report) => w.(sender := OnDatagram(w, FeedbackWire.Encode(report.message)))
  }

  /** A datagram at the sender: parsed, and each feedback packet applied if it names this stream. */
  function OnDatagram(w: World, data: seq<byte>): Stream {
    match Parse(data)
    case Err(_) => w.sender
    case Ok(compound) => ApplyAll(w.sender, w.senderSource, w.receiverSource, compound.castFeedbacks)
  }

  function ApplyAll(s: Stream, senderSource: u32, receiverSource: u32, feedbacks: seq<CastFeedback>): Stream
    decreases feedbacks
  {
    if feedbacks == [] then s
    else
      var f := feedbacks[0];
      var t := if f.senderSyncSource == senderSource && f.receiverSyncSource == receiverSource then Apply(s, f) else s;
      ApplyAll(t, senderSource, receiverSource, feedbacks[1..])
  }

  ghost predicate CanRun(w: World, steps: seq<Step>)
    decreases steps
  {
    steps == []
    || (&& Enabled(w, steps[0])
        && (steps[0].ArriveReport? ==> steps[0].report.message.Fits())
        && CanRun(Do(w, steps[0]), steps[1..]))
  }

  ghost function Run(w: World, steps: seq<Step>): World
    requires CanRun(w, steps)
    decreases steps
  {
    if steps == [] then w else Run(Do(w, steps[0]), steps[1..])
  }

  // ----- The order of first transmissions ----------------------------------

  /** `a` can be had from `b` by leaving elements out. */
  ghost predicate Subsequence(a: seq<QueuedPacket>, b: seq<QueuedPacket>) {
    || a == []
    || (b != [] && a[0] == b[0] && Subsequence(a[1..], b[1..]))
    || (b != [] && Subsequence(a, b[1..]))
  }

  lemma {:induction false} SubsequenceRefl(a: seq<QueuedPacket>)
    ensures Subsequence(a, a)
  {
    if a != [] { SubsequenceRefl(a[1..]); }
  }

  lemma {:induction false} SubsequenceAppend(a: seq<QueuedPacket>, b: seq<QueuedPacket>, c: seq<QueuedPacket>)
    requires Subsequence(a, b)
    ensures Subsequence(a + c, b + c)
    decreases |b|
  {
    if b == [] {
      SubsequenceRefl(c);
      assert a + c == c && b + c == c;
    } else if a != [] && a[0] == b[0] && Subsequence(a[1..], b[1..]) {
      SubsequenceAppend(a[1..], b[1..], c);
      assert (a + c)[1..] == a[1..] + c && (b + c)[1..] == b[1..] + c;
    } else {
      if a == [] { assert Subsequence(a, b[1..]); }
      SubsequenceAppend(a, b[1..], c);
      assert (b + c)[1..] == b[1..] + c;
    }
  }

  lemma {:induction false} SubsequenceTrans(a: seq<QueuedPacket>, b: seq<QueuedPacket>, c: seq<QueuedPacket>)
    requires Subsequence(a, b) && Subsequence(b, c)
    ensures Subsequence(a, c)
    decreases |c|
  {
    if a != [] {
      assert b != [] && c != [];
      if b[0] == c[0] && Subsequence(b[1..], c[1..]) {
        if a[0] == b[0] && Subsequence(a[1..], b[1..]) {
          SubsequenceTrans(a[1..], b[1..], c[1..]);
        } else {
          SubsequenceTrans(a, b[1..], c[1..]);
        }
      } else {
        SubsequenceTrans(a, b, c[1..]);
      }
    }
  }

  lemma {:induction false} SubsequencePrepend(c: seq<QueuedPacket>, a: seq<QueuedPacket>, b: seq<QueuedPacket>)
    requires Subsequence(a, b)
    ensures Subsequence(c + a, c + b)
  {
    if c == [] {
      assert c + a == a && c + b == b;
    } else {
      SubsequencePrepend(c[1..], a, b);
      assert (c + a)[1..] == c[1..] + a && (c + b)[1..] == c[1..] + b;
    }
  }

  lemma {:induction false} WithoutIsSubsequence(queue: seq<QueuedPacket>, gone: set<int>)
    ensures Subsequence(Without(queue, gone), queue)
  {
    if queue != [] {
      WithoutIsSubsequence(queue[1..], gone);
      if queue[0].frameId !in gone {
        assert Without(queue, gone)[1..] == Without(queue[1..], gone);
      }
    }
  }

  /** All packets ever cut, in packetization order. */
  ghost function PacketizationOrder(history: seq<seq<Rtp.Packet>>): seq<QueuedPacket> {
    if history == [] then []
    else
      var n := |history| - 1;
      PacketizationOrder(history[..n]) + Entries(n, history[n])
  }

  lemma OrderGrows(history: seq<seq<Rtp.Packet>>, packets: seq<Rtp.Packet>)
    ensures PacketizationOrder(history + [packets]) == PacketizationOrder(history) + Entries(|history|, packets)
  {
    assert (history + [packets])[..|history|] == history;
  }

  // ----- The invariant -----------------------------------------------------

  /** Sender and history agree on what is in flight and what was sent. */
  ghost predicate Consistent(w: World) {
    && Valid(w.sender)
    && |w.history| == w.sender.nextFrameId
    && (forall f :: f in w.sender.pending ==> w.sender.pending[f].packets == w.history[f])
    && (forall q :: q in w.wire ==> 0 <= q.frameId < |w.history| && q.packet in w.history[q.frameId])
    && w.received <= w.wire
    && Subsequence(w.firstSent + w.sender.sendQueue, PacketizationOrder(w.history))
  }

  /** A frame that the sender has let go of is with the receiver. */
  ghost predicate Safe(w: World) {
    forall f :: 0 <= f < w.sender.nextFrameId && f !in w.sender.pending ==> Complete(w, f)
  }

  ghost predicate Invariant(w: World) {
    Consistent(w) && Safe(w) && forall r :: r in w.reports ==> Honest(w, r)
  }

  /** Completeness and honesty are never lost. */
  lemma Monotone(w: World, v: World)
    requires w.history <= v.history && w.received <= v.received
    requires w.senderSource == v.senderSource && w.receiverSource == v.receiverSource
    ensures forall f :: Complete(w, f) ==> Complete(v, f)
    ensures forall r :: Honest(w, r) ==> Honest(v, r)
  {
  }

  lemma SubmitKeeps(w: World, frame: Frame, packets: seq<Rtp.Packet>)
    requires Invariant(w) && packets != []
    ensures Invariant(Do(w, SubmitFrame(frame, packets)))
  {
    hide Honest, Consistent, Safe, OnDatagram;
    Monotone(w, Do(w, SubmitFrame(frame, packets)));
    if Refusal(w.sender, frame).None? {
      AcceptedIsConsistent(w, frame, packets);
      AcceptedIsSafe(w, frame, packets);
    } else {
      RefusedChangesLittle(w, frame, packets);
    }
  }

  lemma RefusedChangesLittle(w: World, frame: Frame, packets: seq<Rtp.Packet>)
    requires Consistent(w) && Safe(w) && packets != [] && Refusal(w.sender, frame).Some?
    ensures Consistent(Do(w, SubmitFrame(frame, packets))) && Safe(Do(w, SubmitFrame(frame, packets)))
  {
    hide Subsequence, StreamModel.Valid, PacketizationOrder, OnDatagram;
    EnqueueKeepsValid(w.sender, frame, packets);
  }

  lemma AcceptedIsConsistent(w: World, frame: Frame, packets: seq<Rtp.Packet>)
    requires Consistent(w) && packets != [] && Refusal(w.sender, frame).None?
    ensures Consistent(Do(w, SubmitFrame(frame, packets)))
  {
    hide Subsequence, StreamModel.Valid, PacketizationOrder, OnDatagram, Entries, Refusal;
    EnqueueKeepsValid(w.sender, frame, packets);
    var v := Do(w, SubmitFrame(frame, packets));
    var id := w.sender.nextFrameId;
    PendingBelowNext(w.sender);
    OrderGrows(w.history, packets);
    SubsequenceAppend(w.firstSent + w.sender.sendQueue, PacketizationOrder(w.history), Entries(id, packets));
    assert v.firstSent + v.sender.sendQueue == w.firstSent + w.sender.sendQueue + Entries(id, packets);
  }

  lemma AcceptedIsSafe(w: World, frame: Frame, packets: seq<Rtp.Packet>)
    requires Consistent(w) && Safe(w) && Refusal(w.sender, frame).None?
    ensures Safe(Do(w, SubmitFrame(frame, packets)))
  {
    hide Subsequence, StreamModel.Valid, PacketizationOrder, OnDatagram, Entries, Refusal;
  }

  lemma PendingBelowNext(s: Stream)
    requires Valid(s)
    ensures forall f :: f in s.pending ==> 0 <= f < s.nextFrameId
  {
  }

  lemma SendKeeps(w: World)
    requires Invariant(w) && Sendable(w.sender)
    ensures Invariant(Do(w, SendPacket))
  {
    hide Honest, Subsequence, PacketizationOrder, OnDatagram;
    SendKeepsValid(w.sender);
    var v := Do(w, SendPacket);
    Monotone(w, v);
    if w.sender.retransmitQueue == [] {
      assert v.firstSent + v.sender.sendQueue == w.firstSent + w.sender.sendQueue;
    }
  }

  lemma ArrivePacketKeeps(w: World, packet: QueuedPacket)
    requires Invariant(w) && packet in w.wire
    ensures Invariant(Do(w, ArrivePacket(packet)))
  {
    hide Honest, Subsequence, PacketizationOrder, StreamModel.Valid, OnDatagram;
    Monotone(w, Do(w, ArrivePacket(packet)));
  }

  lemma EmitReportKeeps(w: World, report: Report)
    requires Invariant(w) && Honest(w, report)
    ensures Invariant(Do(w, EmitReport(report)))
  {
    hide Honest, Subsequence, PacketizationOrder, StreamModel.Valid, OnDatagram;
    Monotone(w, Do(w, EmitReport(report)));
  }

  /**
   What an honest report does to the sender, from the wire bytes on: it is
   applied with exactly its loss fields, unless one of these is refused.
   */
  lemma ReportAtSender(w: World, report: Report)
    requires Honest(w, report)
    ensures
      var nacks := FeedbackWire.Nacks(report.message.losses, report.message.checkpoint);
      OnDatagram(w, FeedbackWire.Encode(report.message)) ==
      if nacks.Err? then w.sender else Apply(w.sender, FeedbackOf(report.message, nacks.value))
  {
    hide Parse, FeedbackWire.Encode, FeedbackWire.Nacks, Apply;
    var m := report.message;
    FeedbackWire.FeedbackRoundTrip(m);
    if FeedbackWire.Meaning(m).Ok? {
      var feedback := FeedbackOf(m, FeedbackWire.Nacks(m.losses, m.checkpoint).value);
      assert Parse(FeedbackWire.Encode(m)) == Ok(EMPTY.(castFeedbacks := [feedback]));
      ApplyOne(w.sender, feedback);
    }
  }

  lemma ApplyOne(s: Stream, feedback: CastFeedback)
    ensures ApplyAll(s, feedback.senderSyncSource, feedback.receiverSyncSource, [feedback]) == Apply(s, feedback)
  {
    hide Apply;
    assert [feedback][1..] == [];
  }

  function FeedbackOf(m: FeedbackWire.Message, nacks: seq<PacketNack>): CastFeedback {
    CastFeedback(m.receiverSyncSource, m.senderSyncSource, m.checkpoint, m.playoutDelayMs, nacks, m.ack)
  }

  /** The sender recovers the identifier a report was about exactly when the report is fresh. */
  lemma RecoveredExactlyWhenFresh(w: World, report: Report, nacks: seq<PacketNack>)
    requires Invariant(w) && Honest(w, report)
    ensures FeedbackCheckpoint(w.sender, FeedbackOf(report.message, nacks)) == report.checkpoint <==> Fresh(w, report)
  {
    CheckpointExists(w, report);
    ExpandLteExactness(report.checkpoint, w.sender.nextFrameId - 1);
  }

  lemma CheckpointExists(w: World, report: Report)
    requires Invariant(w) && Honest(w, report)
    ensures report.checkpoint < w.sender.nextFrameId
  {
    if report.checkpoint >= 0 {
      assert Claims(report, report.checkpoint);
    }
  }

  /** A fresh report is recovered, so it is understood as it was meant. */
  lemma FreshIsUnderstood(w: World, report: Report)
    requires Invariant(w) && Honest(w, report) && Fresh(w, report)
    ensures Recovered(w.sender.nextFrameId, report) == report.checkpoint
    ensures Understood(w.sender.nextFrameId, IdSpan(w.sender), report)
  {
    hide Covers, StreamModel.Valid;
    CheckpointExists(w, report);
    ExpandLteExactness(report.checkpoint, w.sender.nextFrameId - 1);
    WindowHolds(w.sender);
  }

  /** An honest report that is understood only acknowledges complete frames. */
  lemma UnderstoodReportIsSafe(w: World, report: Report, nacks: seq<PacketNack>)
    requires Invariant(w) && Honest(w, report)
    requires Understood(w.sender.nextFrameId, IdSpan(w.sender), report)
    ensures
      var feedback := FeedbackOf(report.message, nacks);
      var c := FeedbackCheckpoint(w.sender, feedback);
      forall f :: f in Acknowledged(w.sender, c, feedback.ackBitvector) ==> Complete(w, f)
  {
    hide Covers, Complete;
  }

  lemma ArriveReportKeeps(w: World, report: Report)
    requires Invariant(w) && report in w.reports
    requires Understood(w.sender.nextFrameId, IdSpan(w.sender), report)
    ensures report.message.Fits() && Invariant(Do(w, ArriveReport(report)))
  {
    hide Apply, OnDatagram, FeedbackWire.Encode, FeedbackWire.Nacks, StreamModel.Valid, Without, Subsequence,
         PacketizationOrder;
    assert Honest(w, report);
    var v := Do(w, ArriveReport(report));
    Monotone(w, v);
    ReportAtSender(w, report);
    if v.sender != w.sender {
      AppliedKeeps(w, report, FeedbackWire.Nacks(report.message.losses, report.message.checkpoint).value, v);
    }
  }

  lemma AppliedKeeps(w: World, report: Report, nacks: seq<PacketNack>, v: World)
    requires Invariant(w) && Honest(w, report)
    requires Understood(w.sender.nextFrameId, IdSpan(w.sender), report)
    requires v == w.(sender := Apply(w.sender, FeedbackOf(report.message, nacks)))
    ensures Consistent(v) && Safe(v)
  {
    hide Apply, StreamModel.Valid, Honest, Understood, Without, Subsequence, PacketizationOrder, Acknowledged,
         FeedbackCheckpoint;
    var feedback := FeedbackOf(report.message, nacks);
    UnderstoodReportIsSafe(w, report, nacks);
    ApplyKeepsValid(w.sender, feedback);
    PendingBelowNext(w.sender);
    var gone := Acknowledged(w.sender, FeedbackCheckpoint(w.sender, feedback), report.message.ack);
    WithoutIsSubsequence(w.sender.sendQueue, gone);
    SubsequencePrepend(w.firstSent, Without(w.sender.sendQueue, gone), w.sender.sendQueue);
    SubsequenceTrans(v.firstSent + v.sender.sendQueue, w.firstSent + w.sender.sendQueue, PacketizationOrder(w.history));
  }

  lemma StepKeeps(w: World, step: Step)
    requires Invariant(w) && Enabled(w, step)
    ensures step.ArriveReport? ==> step.report.message.Fits()
    ensures Invariant(Do(w, step))
  {
    hide Honest, Invariant, Do;
    match step
    case SubmitFrame(frame, packets) => SubmitKeeps(w, frame, packets);
    case SendPacket => SendKeeps(w);
    case ArrivePacket(packet) => ArrivePacketKeeps(w, packet);
    case EmitReport(report) => EmitReportKeeps(w, report);
    case ArriveReport(report) => ArriveReportKeeps(w, report);
  }

  lemma {:induction false} RunKeeps(w: World, steps: seq<Step>)
    requires Invariant(w) && CanRun(w, steps)
    ensures Invariant(Run(w, steps))
    decreases steps
  {
    if steps != [] {
      StepKeeps(w, steps[0]);
      RunKeeps(Do(w, steps[0]), steps[1..]);
    }
  }

  /**
   Protocol safety. In every run, whatever the network loses, repeats or
   reorders: no frame is retired before the receiver holds all its packets; at
   most 120 frames are in flight and every identifier is either in flight or
   counted as acknowledged once; only packets of frames in flight are queued;
   and first transmissions leave in packetization order, each at most once.
   */
  lemma ProtocolSafety(senderSource: u32, receiverSource: u32, steps: seq<Step>)
    requires CanRun(Initial(senderSource, receiverSource), steps)
    ensures
      var w := Run(Initial(senderSource, receiverSource), steps);
      && Safe(w)
      && |w.sender.pending| <= IdSpan(w.sender) <= MAX_UNACKED_FRAMES
      && w.sender.framesAcked == Min(w.sender.nextFrameId - |w.sender.pending|, U64_MAX)
      && Backed(w.sender.sendQueue + w.sender.retransmitQueue, w.sender.pending)
      && Subsequence(w.firstSent, PacketizationOrder(w.history))
  {
    hide Subsequence, PacketizationOrder, Run, CanRun, Honest;
    InitialHolds(senderSource, receiverSource);
    RunKeeps(Initial(senderSource, receiverSource), steps);
    var w := Run(Initial(senderSource, receiverSource), steps);
    WindowHolds(w.sender);
    SubsequencePrefix(w.firstSent, w.sender.sendQueue);
    SubsequenceTrans(w.firstSent, w.firstSent + w.sender.sendQueue, PacketizationOrder(w.history));
  }

  lemma InitialHolds(senderSource: u32, receiverSource: u32)
    ensures Invariant(Initial(senderSource, receiverSource))
  {
    assert NEW.sendQueue + NEW.sendQueue == [];
  }

  lemma {:induction false} SubsequencePrefix(a: seq<QueuedPacket>, b: seq<QueuedPacket>)
    ensures Subsequence(a, a + b)
  {
    if a != [] {
      SubsequencePrefix(a[1..], b);
      assert (a + b)[1..] == a[1..] + b;
    }
  }

  /** The packets reassemble and decrypt to the frame's data. */
  ghost predicate ReadBack(
    arrived: seq<Rtp.Packet>, cipher: Crypto.Cipher, mask: Crypto.Block, f: int, data: seq<byte>)
  {
    match Rtp.Reassemble(arrived)
    case None => false
    case Some(payload) => Crypto.Encrypted(cipher, mask, f, payload) == data
  }

  /**
   A retired frame can be read back at the receiver: whatever arrived for it, in
   any order and however often, reassembles and decrypts to the frame's data, if
   and only if its packets can be told apart by their 16-bit identifiers.
   */
  lemma RetiredFrameIsReadable(
    w: World, f: int, data: seq<byte>, cipher: Crypto.Cipher, mask: Crypto.Block,
    source: Rtp.Source, maxPayload: nat, h: Rtp.FrameHeader, sequence: u16, arrived: seq<Rtp.Packet>)
    requires Invariant(w) && 0 <= f < w.sender.nextFrameId && f !in w.sender.pending && 0 < maxPayload
    requires w.history[f] == Rtp.Packets(source, maxPayload, h, sequence, Crypto.Encrypted(cipher, mask, f, data))
    requires forall p :: p in arrived <==> QueuedPacket(f, p) in w.received
    ensures ReadBack(arrived, cipher, mask, f, data) <==> Rtp.PacketCount(|data|, maxPayload) <= Rtp.PACKET_ID_SPACE
  {
    hide Rtp.Packets, Rtp.Reassemble, Rtp.PacketCount, Crypto.Encrypted;
    var sent := Crypto.Encrypted(cipher, mask, f, data);
    assert Complete(w, f);
    forall p
      ensures p in arrived <==> p in w.history[f]
    {
      if p in arrived {
        assert QueuedPacket(f, p) in w.wire;
      }
    }
    Rtp.ReassembleAnyArrival(source, maxPayload, h, sequence, sent, arrived);
    Crypto.EncryptTwice(cipher, mask, f, data);
    if Rtp.Reassemble(arrived).Some? {
      Crypto.EncryptTwice(cipher, mask, f, Rtp.Reassemble(arrived).value);
    }
  }
}
