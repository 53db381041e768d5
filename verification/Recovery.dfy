/**
 Losses are made good (src/sender/stream.rs, src/sender/event_loop.rs). From
 whatever world a run has led to, even if everything still in the network is
 lost, one report that gives up the frames in flight as lost brings all their
 packets back, and one more report retires them all.
 */
module Recovery {
  import opened Bytes
  import opened FrameIds
  import opened Rtcp
  import opened StreamModel
  import opened SlidingWindow
  import opened StaleFeedback
  import FeedbackWire

  /** The world when everything still on its way is lost. */
  ghost function Cleared(w: World): World { w.(wire := w.received, reports := {}) }

  lemma ClearedKeeps(w: World)
    requires Invariant(w)
    ensures Invariant(Cleared(w))
  {
    hide Subsequence, PacketizationOrder, StreamModel.Valid;
    Monotone(w, Cleared(w));
  }

  // ----- Asking for everything ---------------------------------------------

  /** One loss field for each of `count` identifiers from `first` on, each for all packets. */
  function AllLost(first: int, count: nat): (losses: seq<FeedbackWire.Loss>)
    ensures |losses| == count
    decreases count
  {
    if count == 0 then []
    else [FeedbackWire.Loss(Truncate(first), ALL_PACKETS_LOST, 0)] + AllLost(first + 1, count - 1)
  }

  /** What the receiver says when it misses everything above the sender's checkpoint. */
  function LossReport(w: World): Report
    requires 0 <= IdSpan(w.sender)
  {
    var c := w.sender.checkpoint;
    Report(c, FeedbackWire.Message(w.receiverSource, w.senderSource, Truncate(c), 0,
                                   AllLost(c + 1, IdSpan(w.sender)), None))
  }

  lemma {:induction false} AllLostRead(first: int, count: nat, checkpoint: byte)
    ensures
      var nacks := FeedbackWire.Nacks(AllLost(first, count), checkpoint);
      && nacks.Ok? && |nacks.value| == count
      && forall i :: 0 <= i < count ==>
           nacks.value[i] == PacketNack(Expand(Truncate(first + i), checkpoint), ALL_PACKETS_LOST)
    decreases count
  {
    hide Expand, Truncate;
    if count != 0 {
      AllLostRead(first + 1, count - 1, checkpoint);
      var losses := AllLost(first, count);
      assert losses[1..] == AllLost(first + 1, count - 1);
      var rest := FeedbackWire.Nacks(losses[1..], checkpoint).value;
      var nacks := FeedbackWire.Nacks(losses, checkpoint).value;
      assert nacks == [PacketNack(Expand(Truncate(first), checkpoint), ALL_PACKETS_LOST)] + rest;
      forall i | 0 <= i < count
        ensures nacks[i] == PacketNack(Expand(Truncate(first + i), checkpoint), ALL_PACKETS_LOST)
      {
        if i > 0 {
          assert nacks[i] == rest[i - 1];
          assert first + 1 + (i - 1) == first + i;
        }
      }
    }
  }

  /** Everything of a frame is queued again if some NACK of the list means all of it. */
  lemma {:induction false} NackedIsQueued(s: Stream, checkpoint: int, nacks: seq<PacketNack>, f: int, i: nat)
    requires f in s.pending && i < |nacks|
    requires nacks[i].packetId == ALL_PACKETS_LOST && Expand(Truncate(nacks[i].frameId), checkpoint) == f
    ensures forall p :: p in s.pending[f].packets ==>
      QueuedPacket(f, p) in HandleNacks(s, checkpoint, nacks).retransmitQueue
    decreases nacks
  {
    hide Expand, Truncate;
    var frameId := Expand(Truncate(nacks[0].frameId), checkpoint);
    var t := HandleNack(s, frameId, nacks[0].packetId);
    if i == 0 {
      forall p | p in s.pending[f].packets
        ensures QueuedPacket(f, p) in t.retransmitQueue
      {
        var k :| 0 <= k < |s.pending[f].packets| && s.pending[f].packets[k] == p;
        assert Entries(f, s.pending[f].packets)[k] == QueuedPacket(f, p);
      }
      NacksOnlyAdd(t, checkpoint, nacks[1..]);
    } else {
      NackedIsQueued(t, checkpoint, nacks[1..], f, i - 1);
    }
  }

  lemma {:induction false} NacksOnlyAdd(s: Stream, checkpoint: int, nacks: seq<PacketNack>)
    ensures s.retransmitQueue <= HandleNacks(s, checkpoint, nacks).retransmitQueue
    decreases nacks
  {
    hide Expand, Truncate;
    if nacks != [] {
      NacksOnlyAdd(HandleNack(s, Expand(Truncate(nacks[0].frameId), checkpoint), nacks[0].packetId), checkpoint,
                   nacks[1..]);
    }
  }

  lemma LossReportIsHonest(w: World)
    requires Invariant(w)
    ensures 0 <= IdSpan(w.sender) && LossReport(w).message.Fits()
    ensures Honest(w, LossReport(w)) && Fresh(w, LossReport(w))
  {
  }

  /** The report retires nothing and brings back every packet of every frame in flight. */
  lemma LossReportQueuesAll(w: World)
    requires Invariant(w) && 0 <= IdSpan(w.sender) && LossReport(w).message.Fits() && Honest(w, LossReport(w))
    ensures
      var t := OnDatagram(w, FeedbackWire.Encode(LossReport(w).message));
      && t.nextFrameId == w.sender.nextFrameId && t.pending == w.sender.pending
      && forall f, p :: f in t.pending && p in t.pending[f].packets ==> QueuedPacket(f, p) in t.retransmitQueue
  {
    hide OnDatagram, HandleNacks, FeedbackWire.Encode, FeedbackWire.Nacks, AllLost, Invariant, Honest, Expand, Truncate;
    var s, report := w.sender, LossReport(w);
    var c := s.checkpoint;
    ConsistentIsValid(w);
    ReportAtSender(w, report);
    AllLostRead(c + 1, IdSpan(s), report.message.checkpoint);
    var nacks := FeedbackWire.Nacks(report.message.losses, report.message.checkpoint).value;
    ExpandLteExactness(c, s.nextFrameId - 1);
    assert Apply(s, FeedbackOf(report.message, nacks)) == HandleNacks(s, c, nacks);
    NacksKeepValid(s, c, nacks);
    forall f, p | f in s.pending && p in s.pending[f].packets
      ensures QueuedPacket(f, p) in HandleNacks(s, c, nacks).retransmitQueue
    {
      CurrentFeedbackIsExact(s, c, f, report.message.checkpoint);
      NackedIsQueued(s, c, nacks, f, f - c - 1);
    }
  }

  // ----- Sending and receiving everything queued ---------------------------

  /** The same frames at the sender and nothing lost at the receiver. */
  ghost predicate Progress(w: World, v: World) {
    && v.history == w.history && w.received <= v.received
    && v.senderSource == w.senderSource && v.receiverSource == w.receiverSource
    && v.sender.nextFrameId == w.sender.nextFrameId && v.sender.checkpoint == w.sender.checkpoint
    && v.sender.pending == w.sender.pending
  }

  /** One packet goes out and arrives. */
  lemma SendOne(w: World)
    requires Invariant(w) && Sendable(w.sender)
    ensures
      var q := Head(w.sender).queued;
      var steps := [SendPacket, ArrivePacket(q)];
      && CanRun(w, steps)
      && var v := Run(w, steps);
      && Invariant(v) && Progress(w, v) && q in v.received
      && v.sender == AfterSend(w.sender)
  {
    hide Invariant, OnDatagram, Run, CanRun;
    var q := Head(w.sender).queued;
    assert CanRun(w, []) && Run(w, []) == w by { NoSteps(w); }
    RunMore(w, [], SendPacket);
    StepKeeps(w, SendPacket);
    var sent := Do(w, SendPacket);
    RunMore(w, [] + [SendPacket], ArrivePacket(q));
    StepKeeps(sent, ArrivePacket(q));
    assert [] + [SendPacket] + [ArrivePacket(q)] == [SendPacket, ArrivePacket(q)];
  }

  lemma NoSteps(w: World)
    ensures CanRun(w, []) && Run(w, []) == w
  {
  }

  lemma {:induction false} Drain(w: World) returns (steps: seq<Step>)
    requires Invariant(w)
    ensures CanRun(w, steps)
    ensures
      var v := Run(w, steps);
      && Invariant(v) && Progress(w, v)
      && v.sender.sendQueue == [] && v.sender.retransmitQueue == []
      && forall q :: q in w.sender.sendQueue || q in w.sender.retransmitQueue ==> q in v.received
    decreases |w.sender.sendQueue| + |w.sender.retransmitQueue|
  {
    hide Invariant, Run, CanRun;
    if !Sendable(w.sender) {
      NoSteps(w);
      steps := [];
    } else {
      var one := [SendPacket, ArrivePacket(Head(w.sender).queued)];
      SendOne(w);
      var rest := Drain(Run(w, one));
      RunConcat(w, one, rest);
      steps := one + rest;
    }
  }

  // ----- The theorem -------------------------------------------------------

  lemma EmitAndArrive(w: World, report: Report)
    requires Invariant(w) && Honest(w, report) && Fresh(w, report)
    ensures
      var steps := [EmitReport(report), ArriveReport(report)];
      && report.message.Fits() && CanRun(w, steps)
      && var v := Run(w, steps);
      && Invariant(v)
      && v == w.(reports := w.reports + {report}, sender := OnDatagram(w, FeedbackWire.Encode(report.message)))
  {
    hide Invariant, OnDatagram, Run, CanRun, FeedbackWire.Encode, Understood, Complete, Parse;
    NoSteps(w);
    RunMore(w, [], EmitReport(report));
    StepKeeps(w, EmitReport(report));
    var emitted := Do(w, EmitReport(report));
    ReportsAreHonest(emitted, report);
    FreshIsUnderstood(emitted, report);
    RunMore(w, [] + [EmitReport(report)], ArriveReport(report));
    StepKeeps(emitted, ArriveReport(report));
    SameDatagram(w, emitted, FeedbackWire.Encode(report.message));
    assert [] + [EmitReport(report)] + [ArriveReport(report)] == [EmitReport(report), ArriveReport(report)];
  }

  lemma SameDatagram(w: World, v: World, data: seq<byte>)
    requires v.sender == w.sender && v.senderSource == w.senderSource && v.receiverSource == w.receiverSource
    ensures OnDatagram(v, data) == OnDatagram(w, data)
  {
    hide Parse, ApplyAll;
  }

  /** With everything received, a plain report of the newest frame retires them all. */
  lemma RetireAll(w: World) returns (steps: seq<Step>)
    requires Invariant(w) && w.sender.sendQueue == [] && w.sender.retransmitQueue == []
    requires forall f :: 0 <= f < w.sender.nextFrameId ==> Complete(w, f)
    ensures CanRun(w, steps)
    ensures
      var v := Run(w, steps);
      && Invariant(v) && v.history == w.history && v.received == w.received
      && v.sender.nextFrameId == w.sender.nextFrameId
      && v.sender.pending == map[] && v.sender.sendQueue == [] && v.sender.retransmitQueue == []
  {
    hide Invariant, OnDatagram, Run, CanRun, FeedbackWire.Encode, Complete, Apply;
    var newest := w.sender.nextFrameId - 1;
    ConsistentIsValid(w);
    var report := PlainReport(w.senderSource, w.receiverSource, newest);
    EmitAndArrive(w, report);
    PlainReportAtSender(w, newest);
    PlainReportRetires(w, newest);
    ExpandLteExactness(newest, newest);
    steps := [EmitReport(report), ArriveReport(report)];
    var t := Run(w, steps).sender;
    assert t == Apply(w.sender, FeedbackOf(report.message, []));
    PendingBelowNext(w.sender);
    assert forall f :: f in t.pending ==> f in w.sender.pending && newest < f;
    assert t.pending.Keys == {};
  }

  /** What was in flight was queued again and has arrived. */
  lemma NothingMissing(w: World, v: World)
    requires Invariant(w) && Invariant(v) && Progress(w, v)
    requires forall f, p :: f in w.sender.pending && p in w.sender.pending[f].packets ==>
      QueuedPacket(f, p) in v.received
    ensures forall f :: 0 <= f < v.sender.nextFrameId ==> Complete(v, f)
  {
    hide Honest, StreamModel.Valid, Subsequence, PacketizationOrder;
    forall f | 0 <= f < v.sender.nextFrameId
      ensures Complete(v, f)
    {
      ConsistentIsValid(v);
    }
  }

  /**
   Recoverability. Whatever a run has led to, and though nothing that is still
   in the network ever arrives, some run in which no frame is added ends with every
   frame complete at the receiver and retired at the sender.
   */
  lemma EveryWorldRecovers(w: World) returns (steps: seq<Step>)
    requires Invariant(w)
    ensures CanRun(Cleared(w), steps)
    ensures
      var v := Run(Cleared(w), steps);
      && v.history == w.history && v.sender.nextFrameId == w.sender.nextFrameId
      && v.sender.pending == map[] && v.sender.sendQueue == [] && v.sender.retransmitQueue == []
      && forall f :: 0 <= f < v.sender.nextFrameId ==> Complete(v, f)
  {
    hide Invariant, Run, CanRun, Complete, OnDatagram, FeedbackWire.Encode, LossReport, Honest;
    var w0 := Cleared(w);
    ClearedKeeps(w);
    LossReportIsHonest(w0);
    LossReportQueuesAll(w0);
    EmitAndArrive(w0, LossReport(w0));
    var asked := [EmitReport(LossReport(w0)), ArriveReport(LossReport(w0))];
    var w1 := Run(w0, asked);
    var sent := Drain(w1);
    var w2 := Run(w1, sent);
    NothingMissing(w1, w2);
    var retired := RetireAll(w2);
    RunConcat(w0, asked, sent);
    RunConcat(w0, asked + sent, retired);
    steps := asked + sent + retired;
    AllStayComplete(w2, Run(w2, retired));
  }

  lemma AllStayComplete(w: World, v: World)
    requires v.history == w.history && v.received == w.received
    ensures forall f :: Complete(w, f) ==> Complete(v, f)
  {
  }
}
