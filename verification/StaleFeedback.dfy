/**
 When a late report is dangerous. The hypothesis of SlidingWindow that reports
 are understood cannot be weakened: for every report and all numbers at the
 sender that do not meet it, this module builds a complete run of the protocol
 in which the report makes the sender retire a frame the receiver does not have.
 */
module StaleFeedback {
  import opened Bytes
  import opened FrameIds
  import opened Rtcp
  import opened StreamModel
  import opened SlidingWindow
  import FeedbackWire

  lemma {:induction false} RunConcat(w: World, a: seq<Step>, b: seq<Step>)
    requires CanRun(w, a) && CanRun(Run(w, a), b)
    ensures CanRun(w, a + b) && Run(w, a + b) == Run(Run(w, a), b)
    decreases a
  {
    hide Do;
    if a == [] {
      assert a + b == b;
    } else {
      RunConcat(Do(w, a[0]), a[1..], b);
      assert (a + b)[1..] == a[1..] + b;
    }
  }

  lemma RunMore(w: World, steps: seq<Step>, step: Step)
    requires CanRun(w, steps) && Enabled(Run(w, steps), step)
    requires step.ArriveReport? ==> step.report.message.Fits()
    ensures CanRun(w, steps + [step]) && Run(w, steps + [step]) == Do(Run(w, steps), step)
  {
    var v := Run(w, steps);
    assert [step][1..] == [];
    assert CanRun(Do(v, step), []);
    RunConcat(w, steps, [step]);
  }

  function FrameAt(k: nat): Frame { Frame(true, [0], k, 0, None) }

  /** A plain report: everything up to `checkpoint`, nothing lost, no vector. */
  function PlainReport(senderSource: u32, receiverSource: u32, checkpoint: int): Report {
    Report(checkpoint, FeedbackWire.Message(receiverSource, senderSource, Truncate(checkpoint), 0, [], None))
  }

  /** `k` frames went out and came back acknowledged. */
  ghost predicate Idle(w: World, k: nat) {
    && w.sender.nextFrameId == k
    && w.sender.checkpoint == k - 1
    && w.sender.pending == map[]
    && w.sender.sendQueue == [] && w.sender.retransmitQueue == []
    && (w.sender.lastMediaTimestamp.Some? ==> w.sender.lastMediaTimestamp.value < k)
  }

  /** A plain report arrives as the feedback it says. */
  lemma PlainReportAtSender(w: World, checkpoint: int)
    ensures
      var r := PlainReport(w.senderSource, w.receiverSource, checkpoint);
      r.message.Fits() && OnDatagram(w, FeedbackWire.Encode(r.message)) == Apply(w.sender, FeedbackOf(r.message, []))
  {
    hide Parse, FeedbackWire.Encode, Apply;
    var m := PlainReport(w.senderSource, w.receiverSource, checkpoint).message;
    FeedbackWire.FeedbackRoundTrip(m);
    assert Parse(FeedbackWire.Encode(m)) == Ok(EMPTY.(castFeedbacks := [FeedbackOf(m, [])]));
    ApplyOne(w.sender, FeedbackOf(m, []));
  }

  lemma PlainReportRetires(w: World, checkpoint: int)
    requires Valid(w.sender)
    ensures
      var m := PlainReport(w.senderSource, w.receiverSource, checkpoint).message;
      var c := ExpandLte(Truncate(checkpoint), w.sender.nextFrameId - 1);
      var t := Apply(w.sender, FeedbackOf(m, []));
      && t == Acknowledge(w.sender, c, None)
      && t.nextFrameId == w.sender.nextFrameId
      && t.checkpoint == Max(w.sender.checkpoint, c)
      && (forall f :: f in t.pending <==> f in w.sender.pending && c < f)
      && t.sendQueue == Without(w.sender.sendQueue, Acknowledged(w.sender, c, None))
      && t.retransmitQueue == Without(w.sender.retransmitQueue, Acknowledged(w.sender, c, None))
      && t.lastMediaTimestamp == w.sender.lastMediaTimestamp
  {
    AcknowledgeExactly(w.sender, ExpandLte(Truncate(checkpoint), w.sender.nextFrameId - 1), None);
    hide Without, Valid;
  }

  /** One frame sent, received, reported and acknowledged. */
  lemma OneRound(w0: World, steps: seq<Step>, k: nat) returns (more: seq<Step>)
    requires CanRun(w0, steps) && Invariant(Run(w0, steps)) && Idle(Run(w0, steps), k)
    ensures CanRun(w0, more) && Invariant(Run(w0, more)) && Idle(Run(w0, more), k + 1)
  {
    hide Run, CanRun, Honest, Invariant, Do;
    var w := Run(w0, steps);
    var entry := QueuedPacket(k, [0]);
    var w3, sent := OneTransmission(w0, steps, k);
    var r := PlainReport(w.senderSource, w.receiverSource, k);
    AllComplete(w3, k);
    RunMore(w0, sent, EmitReport(r));
    StepKeeps(w3, EmitReport(r));
    var w4 := Run(w0, sent + [EmitReport(r)]);
    Emitted(w3, r);
    NewestIsUnderstood(w4, r);
    RunMore(w0, sent + [EmitReport(r)], ArriveReport(r));
    StepKeeps(w4, ArriveReport(r));
    more := sent + [EmitReport(r)] + [ArriveReport(r)];
    Arrived(w4, k);
  }

  /** The frame reaches the receiver. */
  ghost predicate Delivered(w: World, v: World, k: nat) {
    && v.sender.nextFrameId == k + 1 && v.sender.checkpoint == k - 1
    && v.sender.pending.Keys == {k}
    && v.sender.sendQueue == [] && v.sender.retransmitQueue == []
    && v.sender.lastMediaTimestamp == Some(k)
    && v.senderSource == w.senderSource && v.receiverSource == w.receiverSource
    && v.reports == w.reports
    && Complete(v, k)
  }

  lemma OneTransmission(w0: World, steps: seq<Step>, k: nat) returns (w3: World, sent: seq<Step>)
    requires CanRun(w0, steps) && Invariant(Run(w0, steps)) && Idle(Run(w0, steps), k)
    ensures CanRun(w0, sent) && w3 == Run(w0, sent) && Invariant(w3)
    ensures Delivered(Run(w0, steps), w3, k)
  {
    hide Run, CanRun, Honest, Invariant, OnDatagram;
    var w := Run(w0, steps);
    var entry := QueuedPacket(k, [0]);
    HistoryLength(w);
    var submit := SubmitFrame(FrameAt(k), [[0]]);
    RunMore(w0, steps, submit);
    StepKeeps(w, submit);
    var w1 := Do(w, submit);
    assert w1.sender.sendQueue == [entry];
    assert w1.sender.pending.Keys == {k};
    RunMore(w0, steps + [submit], SendPacket);
    StepKeeps(w1, SendPacket);
    var w2 := Do(w1, SendPacket);
    RunMore(w0, steps + [submit] + [SendPacket], ArrivePacket(entry));
    StepKeeps(w2, ArrivePacket(entry));
    w3 := Do(w2, ArrivePacket(entry));
    sent := steps + [submit] + [SendPacket] + [ArrivePacket(entry)];
    assert w3.history[k] == [[0]];
  }

  lemma HistoryLength(w: World)
    requires Invariant(w)
    ensures |w.history| == w.sender.nextFrameId
    ensures forall q :: q in w.received ==> q.frameId < w.sender.nextFrameId
  {
  }

  lemma AllComplete(w: World, k: nat)
    requires Invariant(w) && w.sender.nextFrameId == k + 1 && w.sender.pending.Keys == {k} && Complete(w, k)
    ensures Honest(w, PlainReport(w.senderSource, w.receiverSource, k))
  {
    forall f | 0 <= f <= k
      ensures Complete(w, f)
    {
      assert f != k ==> f !in w.sender.pending;
    }
  }

  lemma NewestIsUnderstood(w: World, r: Report)
    requires Invariant(w) && r in w.reports && w.sender.nextFrameId - 1 == r.checkpoint
    ensures Enabled(w, ArriveReport(r)) && r.message.Fits()
  {
    hide StreamModel.Valid, Complete;
    FreshIsUnderstood(w, r);
  }

  lemma Emitted(w: World, r: Report)
    ensures Do(w, EmitReport(r)) == w.(reports := w.reports + {r})
  {
  }

  lemma Arrived(w: World, k: nat)
    requires Invariant(w) && w.sender.nextFrameId == k + 1 && w.sender.checkpoint == k - 1
    requires w.sender.sendQueue == [] && w.sender.retransmitQueue == []
    requires w.sender.lastMediaTimestamp == Some(k)
    ensures
      var r := PlainReport(w.senderSource, w.receiverSource, k);
      r.message.Fits() && Idle(Do(w, ArriveReport(r)), k + 1)
  {
    hide OnDatagram, Apply, FeedbackWire.Encode, Honest;
    PlainReportAtSender(w, k);
    PlainReportRetires(w, k);
    ExpandLteExactness(k, k);
    var t := Do(w, ArriveReport(PlainReport(w.senderSource, w.receiverSource, k))).sender;
    assert t.pending.Keys == {};
  }

  lemma {:induction false} Rounds(w0: World, k: nat) returns (steps: seq<Step>)
    requires w0 == Initial(w0.senderSource, w0.receiverSource)
    ensures CanRun(w0, steps) && Invariant(Run(w0, steps)) && Idle(Run(w0, steps), k)
  {
    InitialHolds(w0.senderSource, w0.receiverSource);
    if k == 0 {
      steps := [];
    } else {
      var before := Rounds(w0, k - 1);
      steps := OneRound(w0, before, k - 1);
    }
  }

  // ----- Frames of which the receiver has only what a report claims --------

  /**
   Behind `k` finished frames, `j` more were sent, and of these exactly those
   arrived that the report claims.
   */
  ghost predicate Spread(w: World, k: nat, j: nat, report: Report) {
    && w.sender.nextFrameId == k + j
    && w.sender.checkpoint == k - 1
    && (forall f :: f in w.sender.pending <==> k <= f < k + j)
    && w.sender.sendQueue == [] && w.sender.retransmitQueue == []
    && (w.sender.lastMediaTimestamp.Some? ==> w.sender.lastMediaTimestamp.value < k + j)
    && |w.history| == k + j
    && (forall f :: k <= f < k + j ==> w.history[f] == [[0]])
    && (forall q :: q in w.received ==> q.frameId < k || Claims(report, q.frameId))
    && (forall f :: k <= f < k + j && Claims(report, f) ==> QueuedPacket(f, [0]) in w.received)
  }

  lemma IdleIsSpread(w: World, k: nat, report: Report)
    requires Invariant(w) && Idle(w, k)
    ensures Spread(w, k, 0, report)
  {
    HistoryLength(w);
  }

  lemma SubmitOne(w: World, k: nat, j: nat, report: Report)
    requires Spread(w, k, j, report) && j < MAX_UNACKED_FRAMES
    ensures
      var v := Do(w, SubmitFrame(FrameAt(k + j), [[0]]));
      && v.sender == Accept(w.sender, FrameAt(k + j), [[0]])
      && v.sender.sendQueue == [QueuedPacket(k + j, [0])]
      && v == w.(sender := v.sender, history := w.history + [[[0]]])
  {
    hide Claims, OnDatagram;
    assert Refusal(w.sender, FrameAt(k + j)).None?;
  }

  /** One more frame goes out, and arrives if the report claims it. */
  lemma SpreadOne(w: World, k: nat, j: nat, report: Report)
    requires Spread(w, k, j, report) && j < MAX_UNACKED_FRAMES
    ensures
      var v := Do(w, SubmitFrame(FrameAt(k + j), [[0]]));
      var sent := Do(v, SendPacket);
      var entry := QueuedPacket(k + j, [0]);
      && Sendable(v.sender) && entry in sent.wire
      && (!Claims(report, k + j) ==> Spread(sent, k, j + 1, report))
      && (Claims(report, k + j) ==> Spread(Do(sent, ArrivePacket(entry)), k, j + 1, report))
  {
    hide Claims, OnDatagram, Enqueue;
    SubmitOne(w, k, j, report);
  }

  lemma {:induction false} SpreadRun(w0: World, k: nat, j: nat, report: Report) returns (steps: seq<Step>)
    requires w0 == Initial(w0.senderSource, w0.receiverSource) && j <= MAX_UNACKED_FRAMES
    ensures CanRun(w0, steps) && Invariant(Run(w0, steps)) && Spread(Run(w0, steps), k, j, report)
    decreases j
  {
    hide Run, CanRun, Invariant, Do, Spread, Claims;
    if j == 0 {
      steps := Rounds(w0, k);
      IdleIsSpread(Run(w0, steps), k, report);
    } else {
      steps := SpreadRun(w0, k, j - 1, report);
      var w := Run(w0, steps);
      var submit, entry := SubmitFrame(FrameAt(k + j - 1), [[0]]), QueuedPacket(k + j - 1, [0]);
      SpreadOne(w, k, j - 1, report);
      RunMore(w0, steps, submit);
      StepKeeps(w, submit);
      var v := Do(w, submit);
      steps := steps + [submit];
      RunMore(w0, steps, SendPacket);
      StepKeeps(v, SendPacket);
      var sent := Do(v, SendPacket);
      steps := steps + [SendPacket];
      if Claims(report, k + j - 1) {
        RunMore(w0, steps, ArrivePacket(entry));
        StepKeeps(sent, ArrivePacket(entry));
        steps := steps + [ArrivePacket(entry)];
      }
    }
  }

  // ----- What a late report does -------------------------------------------

  ghost predicate Reachable(w: World) {
    exists steps :: CanRun(Initial(w.senderSource, w.receiverSource), steps)
                 && w == Run(Initial(w.senderSource, w.receiverSource), steps)
  }

  /** The world after a report arrived, however late. */
  ghost function After(w: World, report: Report): World
    requires report.message.Fits()
  {
    w.(sender := OnDatagram(w, FeedbackWire.Encode(report.message)))
  }

  /** Its loss fields are read, or else the parser refuses the whole report. */
  ghost predicate Readable(report: Report) {
    FeedbackWire.Nacks(report.message.losses, report.message.checkpoint).Ok?
  }

  /** A report whose claims all exist with this next identifier. */
  ghost predicate Claimable(nextFrameId: int, report: Report) {
    forall f :: Claims(report, f) ==> f < nextFrameId
  }

  /** The report is what a receiver could send: its byte abbreviates its checkpoint. */
  ghost predicate WellFormed(report: Report) {
    report.message.Fits() && report.message.checkpoint == Truncate(report.checkpoint) && -1 <= report.checkpoint
  }

  /** A world some run leads to, with these numbers at the sender and the report among those that may arrive. */
  ghost predicate LooksLike(w: World, nextFrameId: int, span: int, report: Report) {
    Reachable(w) && w.sender.nextFrameId == nextFrameId && IdSpan(w.sender) == span && report in w.reports
  }

  /** What a report does, from the wire bytes on: the frames in flight that its byte and vector cover leave. */
  lemma ReportEffect(w: World, report: Report)
    requires Invariant(w) && Honest(w, report) && Readable(report)
    ensures
      var t := After(w, report).sender;
      && t.nextFrameId == w.sender.nextFrameId
      && forall f :: f in t.pending <==>
           f in w.sender.pending && !Covers(Recovered(w.sender.nextFrameId, report), report.message.ack, f)
  {
    hide OnDatagram, Apply, FeedbackWire.Encode, FeedbackWire.Nacks, StreamModel.Valid, Without, Covers;
    ReportAtSender(w, report);
    var nacks := FeedbackWire.Nacks(report.message.losses, report.message.checkpoint).value;
    ConsistentIsValid(w);
    ApplyKeepsValid(w.sender, FeedbackOf(report.message, nacks));
  }

  lemma ConsistentIsValid(w: World)
    requires Invariant(w)
    ensures StreamModel.Valid(w.sender) && |w.history| == w.sender.nextFrameId
  {
  }

  lemma ReachableIsConsistent(w: World)
    requires Reachable(w)
    ensures Invariant(w)
  {
    hide Run, CanRun, Invariant;
    var w0 := Initial(w.senderSource, w.receiverSource);
    var steps :| CanRun(w0, steps) && w == Run(w0, steps);
    InitialHolds(w.senderSource, w.receiverSource);
    RunKeeps(w0, steps);
  }

  lemma HonestIsClaimable(w: World, report: Report)
    requires Invariant(w) && Honest(w, report)
    ensures Claimable(w.sender.nextFrameId, report)
  {
    hide Claims;
    ConsistentIsValid(w);
  }

  lemma UnderstoodIsSafe(w: World, report: Report)
    requires Invariant(w) && report in w.reports && report.message.Fits()
    requires Readable(report) ==> Understood(w.sender.nextFrameId, IdSpan(w.sender), report)
    ensures Safe(After(w, report))
  {
    hide OnDatagram, FeedbackWire.Encode, FeedbackWire.Nacks, Understood, Consistent, Safe, Honest;
    if Readable(report) {
      ArriveReportKeeps(w, report);
    } else {
      assert Honest(w, report);
      ReportAtSender(w, report);
    }
  }

  /**
   The exact condition. In every reachable world with this next identifier and
   this many identifiers in flight a report, however late, only retires frames
   the receiver has, if and only if the sender understands it with these numbers.
   The other two cases are reports that no such world has, or that the parser
   refuses.
   */
  lemma LateReportIsSafeExactly(nextFrameId: nat, span: nat, report: Report)
    requires span <= MAX_UNACKED_FRAMES && span <= nextFrameId && WellFormed(report)
    ensures
      (forall w :: LooksLike(w, nextFrameId, span, report) ==> Safe(After(w, report))) <==>
      !Claimable(nextFrameId, report) || !Readable(report) || Understood(nextFrameId, span, report)
  {
    hide Run, CanRun, Safe, After, Invariant, Understood, Claimable, Readable, Honest;
    if !Claimable(nextFrameId, report) || !Readable(report) || Understood(nextFrameId, span, report) {
      forall w | LooksLike(w, nextFrameId, span, report)
        ensures Safe(After(w, report))
      {
        ReachableIsConsistent(w);
        ReportsAreHonest(w, report);
        HonestIsClaimable(w, report);
        UnderstoodIsSafe(w, report);
      }
    } else {
      var w := UnsafeWorld(nextFrameId, span, report);
    }
  }

  lemma ReportsAreHonest(w: World, report: Report)
    requires Invariant(w) && report in w.reports
    ensures Honest(w, report)
  {
  }

  /** A reachable world in which a report that is not understood retires a frame the receiver has nothing of. */
  lemma UnsafeWorld(nextFrameId: nat, span: nat, report: Report) returns (w: World)
    requires span <= MAX_UNACKED_FRAMES && span <= nextFrameId && WellFormed(report)
    requires Claimable(nextFrameId, report) && Readable(report) && !Understood(nextFrameId, span, report)
    ensures LooksLike(w, nextFrameId, span, report) && !Safe(After(w, report))
  {
    hide Run, CanRun, Safe, After, Invariant, Understood, Claimable, Readable, Spread, Honest, Do;
    var w0 := Initial(report.message.senderSyncSource, report.message.receiverSyncSource);
    var k := nextFrameId - span;
    var steps := SpreadRun(w0, k, span, report);
    var v := Run(w0, steps);
    SourcesStay(w0, steps);
    SpreadIsHonest(v, k, span, report);
    RunMore(w0, steps, EmitReport(report));
    StepKeeps(v, EmitReport(report));
    Emitted(v, report);
    w := Run(w0, steps + [EmitReport(report)]);
    ReportsAreHonest(w, report);
    SpreadIsUnsafe(v, w, k, span, report);
  }

  lemma SpreadIsHonest(w: World, k: nat, j: nat, report: Report)
    requires Invariant(w) && Spread(w, k, j, report) && WellFormed(report) && Claimable(k + j, report)
    requires report.message.senderSyncSource == w.senderSource
    requires report.message.receiverSyncSource == w.receiverSource
    ensures Honest(w, report)
  {
    hide Claims, Consistent;
    forall f | Claims(report, f)
      ensures Complete(w, f)
    {
      assert 0 <= f by { ClaimsNonnegative(report, f); }
      if f < k {
        assert f !in w.sender.pending;
      }
    }
  }

  lemma ClaimsNonnegative(report: Report, f: int)
    requires Claims(report, f)
    ensures 0 <= f
  {
  }

  lemma SpreadIsUnsafe(v: World, w: World, k: nat, j: nat, report: Report)
    requires Spread(v, k, j, report) && w == v.(reports := v.reports + {report}) && Invariant(w)
    requires WellFormed(report) && Readable(report) && Honest(w, report) && !Understood(k + j, j, report)
    ensures w.sender.nextFrameId == k + j && IdSpan(w.sender) == j
    ensures !Safe(After(w, report))
  {
    hide Claims, Consistent, Covers, OnDatagram, FeedbackWire.Encode, Honest, Readable;
    var f :| k <= f < k + j && Covers(Recovered(k + j, report), report.message.ack, f) && !Claims(report, f);
    ReportEffect(w, report);
    var t := After(w, report);
    assert f !in t.sender.pending;
    assert [0] in w.history[f] && QueuedPacket(f, [0]) !in w.received;
    assert !Complete(t, f);
  }

  lemma {:induction false} SourcesStay(w: World, steps: seq<Step>)
    requires CanRun(w, steps)
    ensures Run(w, steps).senderSource == w.senderSource && Run(w, steps).receiverSource == w.receiverSource
    decreases steps
  {
    if steps != [] {
      SourcesStay(Do(w, steps[0]), steps[1..]);
    }
  }

  // ----- Plain reports -----------------------------------------------------

  /** How many frames behind the newest one a report is. */
  function Lateness(nextFrameId: int, r: int): int { nextFrameId - 1 - r }

  /** The recovered identifier lies less than 256 behind the newest frame, by the lateness modulo 256. */
  lemma RecoveredCheckpoint(nextFrameId: int, r: int)
    ensures ExpandLte(Truncate(r), nextFrameId - 1) == nextFrameId - 1 - Lateness(nextFrameId, r) % 256
  {
    var late := Lateness(nextFrameId, r);
    var c := nextFrameId - 1 - late % 256;
    assert r == c - late / 256 * 256;
    hide ExpandLte, Lateness;
    WholeTurns(c, late / 256);
    ExpandLteExactness(c, nextFrameId - 1);
  }

  lemma WholeTurns(id: int, turns: int)
    ensures Truncate(id - turns * 256) == Truncate(id)
  {
    assert id == id / 256 * 256 + id % 256;
    assert id - turns * 256 == (id / 256 - turns) * 256 + id % 256;
  }

  /**
   For a report without a vector the condition is one on numbers: it is less than
   256 frames behind, or its lateness modulo 256 reaches beyond the identifiers in
   flight, and then it retires nothing.
   */
  lemma PlainReportIsUnderstood(senderSource: u32, receiverSource: u32, nextFrameId: nat, span: nat, r: int)
    requires span <= nextFrameId && -1 <= r < nextFrameId
    ensures Understood(nextFrameId, span, PlainReport(senderSource, receiverSource, r)) <==>
            Lateness(nextFrameId, r) < 256 || span <= Lateness(nextFrameId, r) % 256
  {
    hide ExpandLte, Truncate;
    RecoveredCheckpoint(nextFrameId, r);
    var report := PlainReport(senderSource, receiverSource, r);
    var c := nextFrameId - 1 - Lateness(nextFrameId, r) % 256;
    assert Recovered(nextFrameId, report) == c;
    if 256 <= Lateness(nextFrameId, r) && Lateness(nextFrameId, r) % 256 < span {
      assert Covers(c, report.message.ack, c) && !Claims(report, c);
    }
  }

  /**
   In particular the first report, delayed until 256 frames were submitted,
   reads as an acknowledgement of the newest one, of which the receiver has
   nothing.
   */
  lemma StaleReportBreaksSafety(senderSource: u32, receiverSource: u32) returns (w: World)
    ensures LooksLike(w, 256, 1, PlainReport(senderSource, receiverSource, -1))
    ensures !Safe(After(w, PlainReport(senderSource, receiverSource, -1)))
  {
    hide Safe, After, Reachable, Understood;
    PlainReportIsUnderstood(senderSource, receiverSource, 256, 1, -1);
    w := UnsafeWorld(256, 1, PlainReport(senderSource, receiverSource, -1));
  }
}
