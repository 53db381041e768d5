/**
 The sender's event loop as steps on a value (src/sender/event_loop.rs): two
 optional streams, their watchdogs, the shared pacing budget and the event
 channel. One step is one turn of the loop; its time is an input.
 */
module Session {
  import opened Bytes
  import opened Rtcp
  import opened StreamModel
  import opened Watchdogs
  import Pacing
  import Rtp

  const EVENT_CAPACITY: nat := 64
  const RESERVED_TERMINAL_EVENT_SLOTS: nat := 2

  datatype StreamType = Audio | Video

  /** One stream with its watchdog; `log` is the history the watchdog summarises. */
  datatype Lane = Lane(
    senderSource: u32,
    receiverSource: u32,
    stream: Stream,
    watchdog: Watchdog,
    log: seq<Mark>)

  datatype Ending = Running | Closed | Failed | ReceiverTimedOut

  datatype State = State(
    audio: Option<Lane>,
    video: Option<Lane>,
    budget: Pacing.Budget,
    freeSlots: nat,          // room in the event channel
    terminalEventLost: bool,
    ending: Ending,
    started: nat,
    clock: nat,
    bytesSent: nat,          // of RTP packets
    flushes: nat)

  predicate InFlight(lane: Lane) { lane.stream.pending != map[] }

  // ----- Flushing ----------------------------------------------------------

  /** A lane after a flush: bytes sent, datagrams the transport still takes, whether it failed. */
  datatype Flushed = Flushed(lane: Lane, budget: Pacing.Budget, bytes: nat, accepts: nat, failed: bool)

  /** Send while there is credit; the transport fails once it has taken `accepts` datagrams. */
  function FlushLane(lane: Lane, budget: Pacing.Budget, now: nat, accepts: nat): Flushed
    decreases |lane.stream.sendQueue| + |lane.stream.retransmitQueue|
  {
    if !Pacing.HasCredit(budget) || !Sendable(lane.stream) then Flushed(lane, budget, 0, accepts, false)
    else
      var popped := lane.(stream := AfterSend(lane.stream));
      if accepts == 0 then Flushed(popped, budget, 0, 0, true)
      else
        var length := |Head(lane.stream).queued.packet|;
        var sent := popped.(watchdog := PacketSent(lane.watchdog, now), log := lane.log + [Sent(now)]);
        var rest := FlushLane(sent, Pacing.Consumed(budget, length), now, accepts - 1);
        rest.(bytes := rest.bytes + length)
  }

  /** Refill, then audio before video, stopping at the first failure. */
  function Flush(s: State, now: nat, accepts: nat): State {
    var budget := Pacing.Refilled(s.budget, now);
    var a :=
      if s.audio.None? then (None, budget, 0, accepts, false)
      else
        var r := FlushLane(s.audio.value, budget, now, accepts);
        (Some(r.lane), r.budget, r.bytes, r.accepts, r.failed);
    var v :=
      if s.video.None? || a.4 then (s.video, a.1, 0, a.4)
      else
        var r := FlushLane(s.video.value, a.1, now, a.3);
        (Some(r.lane), r.budget, r.bytes, r.failed);
    var t := s.(audio := a.0, video := v.0, budget := v.1, clock := now,
                bytesSent := s.bytesSent + a.2 + v.2, flushes := s.flushes + 1);
    if v.3 then Terminate(t, Failed) else t
  }

  // ----- Events ------------------------------------------------------------

  /** `emit_nonterminal`: only into slots beyond the reserved ones. */
  function Emit(s: State, count: nat): State {
    s.(freeSlots := if s.freeSlots > RESERVED_TERMINAL_EVENT_SLOTS
                    then Max(s.freeSlots - count, RESERVED_TERMINAL_EVENT_SLOTS)
                    else s.freeSlots)
  }

  /** The single terminal `try_send`, after which the loop ends. */
  function Terminate(s: State, ending: Ending): State {
    if s.freeSlots == 0 then s.(ending := ending, terminalEventLost := true)
    else s.(ending := ending, freeSlots := s.freeSlots - 1)
  }

  // ----- Feedback ----------------------------------------------------------

  predicate Addressed(lane: Option<Lane>, senderSource: u32) {
    lane.Some? && lane.value.senderSource == senderSource
  }

  /** Both lanes after some feedback packets, and which lanes had frames newly retired. */
  datatype Progress = Progress(audio: Option<Lane>, video: Option<Lane>, audioAdvanced: bool, videoAdvanced: bool)

  /** Whether a feedback packet newly retires a frame. */
  predicate Advances(s: Stream, feedback: CastFeedback) {
    Apply(s, feedback).pending.Keys != s.pending.Keys
  }

  /** One feedback packet reaches the stream it names, if that stream knows the receiver. */
  function Route(p: Progress, feedback: CastFeedback): Progress {
    if Addressed(p.audio, feedback.senderSyncSource) then
      var lane := p.audio.value;
      if lane.receiverSource != feedback.receiverSyncSource then p
      else p.(audio := Some(lane.(stream := Apply(lane.stream, feedback))),
              audioAdvanced := p.audioAdvanced || Advances(lane.stream, feedback))
    else if Addressed(p.video, feedback.senderSyncSource) then
      var lane := p.video.value;
      if lane.receiverSource != feedback.receiverSyncSource then p
      else p.(video := Some(lane.(stream := Apply(lane.stream, feedback))),
              videoAdvanced := p.videoAdvanced || Advances(lane.stream, feedback))
    else p
  }

  function RouteAll(p: Progress, feedbacks: seq<CastFeedback>): Progress
    decreases feedbacks
  {
    if feedbacks == [] then p else RouteAll(Route(p, feedbacks[0]), feedbacks[1..])
  }

  function AdvanceLane(lane: Option<Lane>, advanced: bool, now: nat): Option<Lane> {
    if lane.None? || !advanced then lane
    else
      Some(lane.value.(watchdog := Advanced(lane.value.watchdog, now, InFlight(lane.value)),
                       log := lane.value.log + [Retired(now, InFlight(lane.value))]))
  }

  function OnFeedback(s: State, feedbacks: seq<CastFeedback>, now: nat): State {
    var p := RouteAll(Progress(s.audio, s.video, false, false), feedbacks);
    s.(audio := AdvanceLane(p.audio, p.audioAdvanced, now), video := AdvanceLane(p.video, p.videoAdvanced, now))
  }

  // ----- The loop ----------------------------------------------------------

  datatype Step =
    | Submit(which: StreamType, frame: Frame, packets: seq<Rtp.Packet>, now: nat, accepts: nat)
    | BurstTick(now: nat, accepts: nat)
    | Feedback(feedbacks: seq<CastFeedback>, events: nat, now: nat, accepts: nat)
    | OtherEvent(now: nat)                  // malformed datagram, statistics
    | SenderReports(now: nat, accepts: nat) // one report for each stream, outside the pacing
    | ReceiveFailed(now: nat)
    | Poll(now: nat)
    | ConsumerTakes(count: nat)
    | Shutdown

  /** Frames arrive cut into packets of at most `maxPacket` bytes; time does not run backwards. */
  ghost predicate Enabled(s: State, step: Step, maxPacket: nat) {
    && (step.ConsumerTakes? || s.ending == Running)
    && match step
       case Submit(_, _, packets, now, _) => s.clock <= now && Sized(packets, maxPacket)
       case BurstTick(now, _) => s.clock <= now
       case Feedback(_, _, now, _) => s.clock <= now
       case OtherEvent(now) => s.clock <= now
       case SenderReports(now, _) => s.clock <= now
       case ReceiveFailed(now) => s.clock <= now
       case Poll(now) => s.clock <= now
       case ConsumerTakes(count) => s.freeSlots + count <= EVENT_CAPACITY
       case Shutdown => true
  }

  ghost predicate Sized(packets: seq<Rtp.Packet>, maxPacket: nat) {
    packets != [] && forall p :: p in packets ==> 0 < |p| <= maxPacket
  }

  function SubmitTo(lane: Lane, frame: Frame, packets: seq<Rtp.Packet>): Lane {
    lane.(stream := Enqueue(lane.stream, frame, packets))
  }

  function LaneOf(s: State, which: StreamType): Option<Lane> { if which == Audio then s.audio else s.video }

  function WithLane(s: State, which: StreamType, lane: Lane): State {
    if which == Audio then s.(audio := Some(lane)) else s.(video := Some(lane))
  }

  predicate LaneTimedOut(lane: Option<Lane>, now: nat) {
    lane.Some? && TimedOut(lane.value.watchdog, now, InFlight(lane.value))
  }

  function PollLane(lane: Option<Lane>): Option<Lane> {
    if lane.None? then None
    else Some(lane.value.(watchdog := AfterPoll(lane.value.watchdog, InFlight(lane.value))))
  }

  function StreamCount(s: State): nat {
    (if s.audio.Some? then 1 else 0) + (if s.video.Some? then 1 else 0)
  }

  function Do(s: State, step: Step): State {
    match step
    case Submit(which, frame, packets, now, accepts) =>
      var lane := LaneOf(s, which);
      if lane.None? then s.(clock := now)
      else
        var t := WithLane(s, which, SubmitTo(lane.value, frame, packets));
        if Refusal(lane.value.stream, frame).Some? then t.(clock := now) else Flush(t, now, accepts)
    case BurstTick(now, accepts) => Flush(s, now, accepts)
    case Feedback(feedbacks, events, now, accepts) => Flush(Emit(OnFeedback(s, feedbacks, now), events), now, accepts)
    case OtherEvent(now) => Emit(s.(clock := now), 1)
    case SenderReports(now, accepts) =>
      if accepts < StreamCount(s) then Terminate(s.(clock := now), Failed) else s.(clock := now)
    case ReceiveFailed(now) => Terminate(s.(clock := now), Failed)
    case Poll(now) =>
      var t := s.(audio := PollLane(s.audio), video := PollLane(s.video), clock := now);
      if LaneTimedOut(s.audio, now) || LaneTimedOut(s.video, now) then Terminate(t, ReceiverTimedOut) else t
    case ConsumerTakes(count) => s.(freeSlots := s.freeSlots + count)
    case Shutdown => s.(ending := Closed)
  }

  ghost predicate CanRun(s: State, steps: seq<Step>, maxPacket: nat)
    decreases steps
  {
    steps == [] || (Enabled(s, steps[0], maxPacket) && CanRun(Do(s, steps[0]), steps[1..], maxPacket))
  }

  ghost function Run(s: State, steps: seq<Step>): State
    decreases steps
  {
    if steps == [] then s else Run(Do(s, steps[0]), steps[1..])
  }

  /** A session before its first turn. */
  ghost predicate Initial(s: State) {
    && NewLane(s.audio) && NewLane(s.video)
    && s.budget == Pacing.Full(s.started)
    && s.clock == s.started
    && s.freeSlots == EVENT_CAPACITY && !s.terminalEventLost
    && s.ending == Running
    && s.bytesSent == 0 && s.flushes == 0
  }

  ghost predicate NewLane(lane: Option<Lane>) {
    lane.Some? ==> lane.value.stream == NEW && lane.value.watchdog == IDLE && lane.value.log == []
  }

  // ----- What every turn keeps ---------------------------------------------

  /** Every packet kept for a stream fits a datagram. */
  ghost predicate SizedStream(s: Stream, maxPacket: nat) {
    forall f :: f in s.pending ==> Sized(s.pending[f].packets, maxPacket)
  }

  ghost predicate LaneOk(lane: Lane, clock: nat, maxPacket: nat) {
    && Valid(lane.stream)
    && SizedStream(lane.stream, maxPacket)
    && lane.watchdog == Replay(lane.log)
    && Chronological(lane.log, clock)
    // An armed watchdog has something to wait for.
    && (lane.watchdog.waitingSince.Some? ==> InFlight(lane))
  }

  ghost predicate LanesOk(s: State, maxPacket: nat) {
    && (s.audio.Some? ==> LaneOk(s.audio.value, s.clock, maxPacket))
    && (s.video.Some? ==> LaneOk(s.video.value, s.clock, maxPacket))
  }

  /** RTP bytes sent and what the bucket still holds never exceed what was put in, give or take one packet a flush. */
  ghost predicate Paced(s: State, maxPacket: nat) {
    && Pacing.Valid(s.budget)
    && s.started <= s.budget.lastRefill <= s.clock
    && s.bytesSent * Pacing.NANOS + Pacing.Level(s.budget)
       <= Pacing.CAPACITY * Pacing.NANOS + (s.budget.lastRefill - s.started) * Pacing.BYTES_PER_SECOND
          + s.flushes * Max(maxPacket - 1, 0) * Pacing.NANOS
  }

  ghost predicate SlotsReserved(s: State) {
    !s.terminalEventLost && (s.ending == Running ==> RESERVED_TERMINAL_EVENT_SLOTS <= s.freeSlots)
  }

  ghost predicate Invariant(s: State, maxPacket: nat) {
    LanesOk(s, maxPacket) && Paced(s, maxPacket) && SlotsReserved(s)
  }

  lemma LaterIsOk(lane: Lane, clock: nat, now: nat, maxPacket: nat)
    requires LaneOk(lane, clock, maxPacket) && clock <= now
    ensures LaneOk(lane, now, maxPacket)
  {
  }

  // Flushing.

  lemma SendKeepsLane(lane: Lane, now: nat, maxPacket: nat)
    requires LaneOk(lane, now, maxPacket) && Sendable(lane.stream)
    ensures
      var popped := lane.(stream := AfterSend(lane.stream));
      var sent := popped.(watchdog := PacketSent(lane.watchdog, now), log := lane.log + [Sent(now)]);
      && LaneOk(popped, now, maxPacket)
      && LaneOk(sent, now, maxPacket)
      && 0 < |Head(lane.stream).queued.packet| <= maxPacket
  {
    SendKeepsValid(lane.stream);
    hide Valid;
    assert (lane.log + [Sent(now)])[..|lane.log|] == lane.log;
  }

  /** One flush of a lane: it stays consistent. */
  lemma {:induction false} FlushLaneKeeps(lane: Lane, budget: Pacing.Budget, now: nat, accepts: nat, maxPacket: nat)
    requires LaneOk(lane, now, maxPacket)
    ensures LaneOk(FlushLane(lane, budget, now, accepts).lane, now, maxPacket)
    decreases |lane.stream.sendQueue| + |lane.stream.retransmitQueue|
  {
    if Pacing.HasCredit(budget) && Sendable(lane.stream) {
      hide LaneOk, Pacing.Consumed, Head, PacketSent;
      SendKeepsLane(lane, now, maxPacket);
      if accepts > 0 {
        var popped := lane.(stream := AfterSend(lane.stream));
        var sent := popped.(watchdog := PacketSent(lane.watchdog, now), log := lane.log + [Sent(now)]);
        FlushLaneKeeps(sent, Pacing.Consumed(budget, |Head(lane.stream).queued.packet|), now, accepts - 1, maxPacket);
      }
    }
  }

  /** The bucket after a flush: only the last packet can have overdrawn it. */
  ghost predicate Spent(before: Pacing.Budget, after: Pacing.Budget, bytes: nat, maxPacket: nat) {
    && Pacing.Valid(after) && after.lastRefill == before.lastRefill
    && (Pacing.HasCredit(after) ==> bytes * Pacing.NANOS + Pacing.Level(after) == Pacing.Level(before))
    && bytes * Pacing.NANOS + Pacing.Level(after) <= Pacing.Level(before) + Max(maxPacket - 1, 0) * Pacing.NANOS
    && (!Pacing.HasCredit(before) ==> bytes == 0 && after == before)
  }

  lemma SpendOne(budget: Pacing.Budget, length: nat, after: Pacing.Budget, bytes: nat, maxPacket: nat)
    requires Pacing.Valid(budget) && Pacing.HasCredit(budget) && 0 < length <= maxPacket
    requires Spent(Pacing.Consumed(budget, length), after, bytes, maxPacket)
    ensures Spent(budget, after, bytes + length, maxPacket)
  {
    Pacing.ConsumeFromLevel(budget, length);
  }

  lemma {:induction false} FlushLaneSpends(lane: Lane, budget: Pacing.Budget, now: nat, accepts: nat, maxPacket: nat)
    requires LaneOk(lane, now, maxPacket) && Pacing.Valid(budget)
    ensures
      var r := FlushLane(lane, budget, now, accepts);
      Spent(budget, r.budget, r.bytes, maxPacket)
    decreases |lane.stream.sendQueue| + |lane.stream.retransmitQueue|
  {
    hide LaneOk, Head, PacketSent, AfterSend, Spent, Pacing.Consumed, Pacing.Valid;
    SpendNothing(budget, maxPacket);
    if Pacing.HasCredit(budget) && Sendable(lane.stream) && accepts > 0 {
      SendKeepsLane(lane, now, maxPacket);
      SendShrinks(lane.stream);
      var length := |Head(lane.stream).queued.packet|;
      var popped := lane.(stream := AfterSend(lane.stream));
      var sent := popped.(watchdog := PacketSent(lane.watchdog, now), log := lane.log + [Sent(now)]);
      var left := Pacing.Consumed(budget, length);
      Pacing.ConsumeKeepsValid(budget, length);
      FlushLaneSpends(sent, left, now, accepts - 1, maxPacket);
      var rest := FlushLane(sent, left, now, accepts - 1);
      SpendOne(budget, length, rest.budget, rest.bytes, maxPacket);
    }
  }

  lemma SendShrinks(s: Stream)
    requires Sendable(s)
    ensures |AfterSend(s).sendQueue| + |AfterSend(s).retransmitQueue| < |s.sendQueue| + |s.retransmitQueue|
  {
  }

  lemma SpendTwice(b0: Pacing.Budget, b1: Pacing.Budget, b2: Pacing.Budget, first: nat, second: nat, maxPacket: nat)
    requires Spent(b0, b1, first, maxPacket) && Spent(b1, b2, second, maxPacket)
    ensures Spent(b0, b2, first + second, maxPacket)
  {
  }

  lemma SpendNothing(b: Pacing.Budget, maxPacket: nat)
    requires Pacing.Valid(b)
    ensures Spent(b, b, 0, maxPacket)
  {
  }

  /** The pacing account after a refill and a flush. */
  lemma FlushPaced(s: State, now: nat, after: Pacing.Budget, bytes: nat, maxPacket: nat)
    requires Paced(s, maxPacket) && s.clock <= now
    requires Spent(Pacing.Refilled(s.budget, now), after, bytes, maxPacket)
    ensures Paced(s.(budget := after, clock := now, bytesSent := s.bytesSent + bytes, flushes := s.flushes + 1),
                  maxPacket)
  {
    hide Pacing.Refilled;
    Pacing.RefillIsExact(s.budget, now);
    assert (now - s.started) * Pacing.BYTES_PER_SECOND
        == (s.budget.lastRefill - s.started) * Pacing.BYTES_PER_SECOND
           + (now - s.budget.lastRefill) * Pacing.BYTES_PER_SECOND;
    assert (s.flushes + 1) * Max(maxPacket - 1, 0) * Pacing.NANOS
        == s.flushes * Max(maxPacket - 1, 0) * Pacing.NANOS + Max(maxPacket - 1, 0) * Pacing.NANOS;
  }

  lemma FlushKeeps(s: State, now: nat, accepts: nat, maxPacket: nat)
    requires Invariant(s, maxPacket) && s.ending == Running && s.clock <= now
    ensures Invariant(Flush(s, now, accepts), maxPacket)
  {
    hide LaneOk, FlushLane, Spent, Paced, Pacing.Refilled;
    var budget := Pacing.Refilled(s.budget, now);
    RefillKeepsValid(s, now, maxPacket);
    var a := if s.audio.None? then Flushed(SomeLane(s), budget, 0, accepts, false)
             else FlushLane(s.audio.value, budget, now, accepts);
    if s.audio.Some? {
      LaterIsOk(s.audio.value, s.clock, now, maxPacket);
      FlushLaneKeeps(s.audio.value, budget, now, accepts, maxPacket);
      FlushLaneSpends(s.audio.value, budget, now, accepts, maxPacket);
    } else {
      SpendNothing(budget, maxPacket);
    }
    SpentIsValid(budget, a.budget, a.bytes, maxPacket);
    SpendNothing(a.budget, maxPacket);
    var v := if s.video.None? || a.failed then Flushed(SomeLane(s), a.budget, 0, 0, a.failed)
             else FlushLane(s.video.value, a.budget, now, a.accepts);
    if s.video.Some? {
      LaterIsOk(s.video.value, s.clock, now, maxPacket);
      FlushLaneKeeps(s.video.value, a.budget, now, a.accepts, maxPacket);
      FlushLaneSpends(s.video.value, a.budget, now, a.accepts, maxPacket);
    }
    SpendTwice(budget, a.budget, v.budget, a.bytes, v.bytes, maxPacket);
    FlushPaced(s, now, v.budget, a.bytes + v.bytes, maxPacket);
    PacedIgnores(s.(budget := v.budget, clock := now, bytesSent := s.bytesSent + (a.bytes + v.bytes),
                    flushes := s.flushes + 1), Flush(s, now, accepts), maxPacket);
  }

  lemma RefillKeepsValid(s: State, now: nat, maxPacket: nat)
    requires Paced(s, maxPacket) && s.clock <= now
    ensures Pacing.Valid(Pacing.Refilled(s.budget, now))
  {
    Pacing.RefillIsExact(s.budget, now);
  }

  lemma SpentIsValid(before: Pacing.Budget, after: Pacing.Budget, bytes: nat, maxPacket: nat)
    requires Spent(before, after, bytes, maxPacket)
    ensures Pacing.Valid(after)
  {
  }

  /** Pacing looks at the budget, the times and the two totals only. */
  lemma PacedIgnores(s: State, t: State, maxPacket: nat)
    requires Paced(s, maxPacket)
    requires s.budget == t.budget && s.clock == t.clock && s.started == t.started
    requires s.bytesSent == t.bytesSent && s.flushes == t.flushes
    ensures Paced(t, maxPacket)
  {
  }

  function SomeLane(s: State): Lane {
    if s.audio.Some? then s.audio.value else if s.video.Some? then s.video.value
    else Lane(0, 0, NEW, IDLE, [])
  }

  // Feedback.

  /** Between feedback and the watchdog update, a lane that advanced may be armed with nothing in flight. */
  ghost predicate LaneRouted(lane: Lane, before: Lane, advanced: bool, clock: nat, maxPacket: nat) {
    && Valid(lane.stream) && SizedStream(lane.stream, maxPacket)
    && lane.watchdog == before.watchdog && lane.log == before.log
    && LaneOk(before, clock, maxPacket)
    && lane.stream.pending.Keys <= before.stream.pending.Keys
    && (advanced <==> lane.stream.pending.Keys != before.stream.pending.Keys)
  }

  ghost predicate Routed(p: Progress, s: State, maxPacket: nat) {
    && (p.audio.Some? <==> s.audio.Some?) && (p.video.Some? <==> s.video.Some?)
    && (p.audio.Some? ==> LaneRouted(p.audio.value, s.audio.value, p.audioAdvanced, s.clock, maxPacket))
    && (p.video.Some? ==> LaneRouted(p.video.value, s.video.value, p.videoAdvanced, s.clock, maxPacket))
  }

  lemma ApplyKeepsLane(lane: Lane, before: Lane, advanced: bool, clock: nat, maxPacket: nat, feedback: CastFeedback)
    requires LaneRouted(lane, before, advanced, clock, maxPacket)
    ensures LaneRouted(lane.(stream := Apply(lane.stream, feedback)), before,
                       advanced || Advances(lane.stream, feedback), clock, maxPacket)
  {
    ApplyKeepsValid(lane.stream, feedback);
    hide Apply, Valid, LaneOk, Sized;
  }

  lemma {:induction false} RouteAllKeeps(p: Progress, s: State, maxPacket: nat, feedbacks: seq<CastFeedback>)
    requires Routed(p, s, maxPacket)
    ensures Routed(RouteAll(p, feedbacks), s, maxPacket)
    decreases feedbacks
  {
    hide Apply, Advances, LaneRouted;
    if feedbacks != [] {
      var f := feedbacks[0];
      if p.audio.Some? {
        ApplyKeepsLane(p.audio.value, s.audio.value, p.audioAdvanced, s.clock, maxPacket, f);
      }
      if p.video.Some? {
        ApplyKeepsLane(p.video.value, s.video.value, p.videoAdvanced, s.clock, maxPacket, f);
      }
      RouteAllKeeps(Route(p, f), s, maxPacket, feedbacks[1..]);
    }
  }

  lemma AdvanceKeepsLane(lane: Lane, before: Lane, advanced: bool, clock: nat, now: nat, maxPacket: nat)
    requires LaneRouted(lane, before, advanced, clock, maxPacket) && clock <= now
    ensures LaneOk(AdvanceLane(Some(lane), advanced, now).value, now, maxPacket)
  {
    hide Valid, Sized;
    if advanced {
      var more := lane.log + [Retired(now, InFlight(lane))];
      assert more[..|lane.log|] == lane.log;
    }
  }

  lemma FeedbackKeeps(s: State, feedbacks: seq<CastFeedback>, now: nat, maxPacket: nat)
    requires Invariant(s, maxPacket) && s.clock <= now
    ensures Invariant(OnFeedback(s, feedbacks, now).(clock := now), maxPacket)
  {
    var start := Progress(s.audio, s.video, false, false);
    RouteAllKeeps(start, s, maxPacket, feedbacks);
    var p := RouteAll(start, feedbacks);
    hide LaneOk, LaneRouted, RouteAll, AdvanceLane;
    AbsentLane(p.audioAdvanced, now);
    AbsentLane(p.videoAdvanced, now);
    if s.audio.Some? {
      AdvanceKeepsLane(p.audio.value, s.audio.value, p.audioAdvanced, s.clock, now, maxPacket);
      PresentLane(p.audio.value, p.audioAdvanced, now);
    }
    if s.video.Some? {
      AdvanceKeepsLane(p.video.value, s.video.value, p.videoAdvanced, s.clock, now, maxPacket);
      PresentLane(p.video.value, p.videoAdvanced, now);
    }
  }

  lemma AbsentLane(advanced: bool, now: nat)
    ensures AdvanceLane(None, advanced, now) == None
  {
  }

  lemma PresentLane(lane: Lane, advanced: bool, now: nat)
    ensures AdvanceLane(Some(lane), advanced, now).Some?
  {
  }

  // Submission and the remaining steps.

  lemma SubmitKeepsLane(lane: Lane, frame: Frame, packets: seq<Rtp.Packet>, clock: nat, maxPacket: nat)
    requires LaneOk(lane, clock, maxPacket) && Sized(packets, maxPacket)
    ensures LaneOk(SubmitTo(lane, frame, packets), clock, maxPacket)
  {
    EnqueueKeepsValid(lane.stream, frame, packets);
    hide Valid, Sized;
  }

  lemma SubmitKeeps(s: State, which: StreamType, frame: Frame, packets: seq<Rtp.Packet>, maxPacket: nat)
    requires Invariant(s, maxPacket) && LaneOf(s, which).Some? && Sized(packets, maxPacket)
    ensures Invariant(WithLane(s, which, SubmitTo(LaneOf(s, which).value, frame, packets)), maxPacket)
  {
    hide LaneOk, SubmitTo;
    SubmitKeepsLane(LaneOf(s, which).value, frame, packets, s.clock, maxPacket);
  }

  /** A poll changes nothing but the clock: a disarmed watchdog was disarmed before. */
  lemma PollLeavesLane(lane: Lane, clock: nat, maxPacket: nat)
    requires LaneOk(lane, clock, maxPacket)
    ensures PollLane(Some(lane)) == Some(lane)
  {
  }

  lemma ClockKeeps(s: State, now: nat, maxPacket: nat)
    requires Invariant(s, maxPacket) && s.clock <= now
    ensures Invariant(s.(clock := now), maxPacket)
  {
    hide LaneOk;
    if s.audio.Some? { LaterIsOk(s.audio.value, s.clock, now, maxPacket); }
    if s.video.Some? { LaterIsOk(s.video.value, s.clock, now, maxPacket); }
  }

  lemma StepKeeps(s: State, step: Step, maxPacket: nat)
    requires Invariant(s, maxPacket) && Enabled(s, step, maxPacket)
    ensures Invariant(Do(s, step), maxPacket)
  {
    hide LaneOk, Flush, RouteAll, AdvanceLane, SubmitTo;
    match step
    case Submit(which, frame, packets, now, accepts) =>
      ClockKeeps(s, now, maxPacket);
      if LaneOf(s, which).Some? {
        SubmitKeeps(s, which, frame, packets, maxPacket);
        var t := WithLane(s, which, SubmitTo(LaneOf(s, which).value, frame, packets));
        ClockKeeps(t, now, maxPacket);
        FlushKeeps(t, now, accepts, maxPacket);
      }
    case BurstTick(now, accepts) => FlushKeeps(s, now, accepts, maxPacket);
    case Feedback(feedbacks, events, now, accepts) =>
      FeedbackKeeps(s, feedbacks, now, maxPacket);
      var t := Emit(OnFeedback(s, feedbacks, now), events);
      FlushKeeps(t.(clock := now), now, accepts, maxPacket);
      FlushIgnoresClock(t, now, accepts);
    case OtherEvent(now) => ClockKeeps(s, now, maxPacket);
    case SenderReports(now, accepts) => ClockKeeps(s, now, maxPacket);
    case ReceiveFailed(now) => ClockKeeps(s, now, maxPacket);
    case Poll(now) =>
      ClockKeeps(s, now, maxPacket);
      PollLeavesLanes(s, maxPacket);
    case ConsumerTakes(count) =>
    case Shutdown =>
  }

  lemma FlushIgnoresClock(s: State, now: nat, accepts: nat)
    ensures Flush(s.(clock := now), now, accepts) == Flush(s, now, accepts)
  {
  }

  lemma PollLeavesLanes(s: State, maxPacket: nat)
    requires LanesOk(s, maxPacket)
    ensures PollLane(s.audio) == s.audio && PollLane(s.video) == s.video
  {
    if s.audio.Some? { PollLeavesLane(s.audio.value, s.clock, maxPacket); }
    if s.video.Some? { PollLeavesLane(s.video.value, s.clock, maxPacket); }
  }

  lemma {:induction false} RunKeeps(s: State, steps: seq<Step>, maxPacket: nat)
    requires Invariant(s, maxPacket) && CanRun(s, steps, maxPacket)
    ensures Invariant(Run(s, steps), maxPacket)
    decreases steps
  {
    hide Invariant, Do, Enabled;
    if steps != [] {
      StepKeeps(s, steps[0], maxPacket);
      RunKeeps(Do(s, steps[0]), steps[1..], maxPacket);
    }
  }

  lemma InitialHolds(s: State, maxPacket: nat)
    requires Initial(s)
    ensures Invariant(s, maxPacket)
  {
    NewIsValid();
  }

  /**
   Over every run of the loop, with any frames, feedback, timing and transport
   failures: the RTP bytes sent obey the pacing rate up to one packet per flush
   (Sender Reports are not paced); no terminal event is ever lost to a full channel, however slow
   the consumer; and an armed watchdog always has a frame in flight.
   */
  lemma SessionSafety(s0: State, steps: seq<Step>, maxPacket: nat)
    requires Initial(s0) && CanRun(s0, steps, maxPacket)
    ensures
      var s := Run(s0, steps);
      && s.bytesSent * Pacing.NANOS
         <= Pacing.CAPACITY * Pacing.NANOS + (s.clock - s.started) * Pacing.BYTES_PER_SECOND
            + s.flushes * Max(maxPacket - 1, 0) * Pacing.NANOS
      && !s.terminalEventLost
      && (s.ending == Running ==> RESERVED_TERMINAL_EVENT_SLOTS <= s.freeSlots)
      && LanesOk(s, maxPacket)
  {
    hide LaneOk, Run, CanRun;
    InitialHolds(s0, maxPacket);
    RunKeeps(s0, steps, maxPacket);
    var s := Run(s0, steps);
    Grows(s.budget.lastRefill - s.started, s.clock - s.started);
  }

  lemma Grows(a: nat, b: nat)
    requires a <= b
    ensures a * Pacing.BYTES_PER_SECOND <= b * Pacing.BYTES_PER_SECOND
  {
  }

  // ----- When the receiver times out ---------------------------------------

  /** Read off a stream's history: it has waited the whole limit without a newly retired frame. */
  ghost predicate Overdue(log: seq<Mark>, now: nat) {
    && WaitingSince(log).Some?
    && WaitingSince(log).value + (if LastRetired(log) >= 0 then TIMEOUT else INITIAL_TIMEOUT) <= now
  }

  /** The poll ends the session exactly when some stream is overdue, and otherwise does nothing. */
  lemma PollIsExact(s: State, now: nat, maxPacket: nat)
    requires Invariant(s, maxPacket) && s.ending == Running && s.clock <= now
    ensures
      var overdue := (s.audio.Some? && Overdue(s.audio.value.log, now))
                     || (s.video.Some? && Overdue(s.video.value.log, now));
      && (Do(s, Poll(now)).ending == ReceiverTimedOut <==> overdue)
      && (!overdue ==> Do(s, Poll(now)) == s.(clock := now))
  {
    PollLeavesLanes(s, maxPacket);
    if s.audio.Some? { OverdueLane(s.audio.value, s.clock, now, maxPacket); }
    if s.video.Some? { OverdueLane(s.video.value, s.clock, now, maxPacket); }
    hide LaneOk, Overdue, TimedOut;
  }

  lemma OverdueLane(lane: Lane, clock: nat, now: nat, maxPacket: nat)
    requires LaneOk(lane, clock, maxPacket)
    ensures LaneTimedOut(Some(lane), now) <==> Overdue(lane.log, now)
  {
    ReplayMeaning(lane.log);
  }

  // ----- What can move a deadline ------------------------------------------

  /** Nothing was retired, and the deadline is where it was: the same start and the same limit. */
  ghost predicate NotPostponed(before: Option<Lane>, after: Option<Lane>) {
    before.Some? ==>
      && after.Some?
      && after.value.stream.pending.Keys >= before.value.stream.pending.Keys
      && after.value.watchdog.hasAcknowledged == before.value.watchdog.hasAcknowledged
      && (before.value.watchdog.waitingSince.Some? ==>
            after.value.watchdog.waitingSince == before.value.watchdog.waitingSince)
  }

  /** When the watchdog runs out, if it is armed. */
  function Deadline(w: Watchdog): Option<nat> {
    if w.waitingSince.None? then None
    else Some(w.waitingSince.value + if w.hasAcknowledged then TIMEOUT else INITIAL_TIMEOUT)
  }

  /** With frames in flight a watchdog times out exactly from its deadline on, so an unmoved one fires as before. */
  lemma DeadlineMeaning(before: Lane, after: Lane, now: nat)
    requires NotPostponed(Some(before), Some(after))
    ensures TimedOut(before.watchdog, now, true) <==>
            Deadline(before.watchdog).Some? && Deadline(before.watchdog).value <= now
    ensures Deadline(before.watchdog).Some? ==> Deadline(after.watchdog) == Deadline(before.watchdog)
  {
  }

  /** Frames have left the stream and none has entered. */
  ghost predicate NewlyRetired(before: Option<Lane>, after: Option<Lane>) {
    before.Some? && after.Some? && after.value.stream.pending.Keys < before.value.stream.pending.Keys
  }

  lemma {:induction false} FlushLaneNeverPostpones(lane: Lane, budget: Pacing.Budget, now: nat, accepts: nat)
    ensures NotPostponed(Some(lane), Some(FlushLane(lane, budget, now, accepts).lane))
    ensures FlushLane(lane, budget, now, accepts).lane.stream.pending == lane.stream.pending
    decreases |lane.stream.sendQueue| + |lane.stream.retransmitQueue|
  {
    if Pacing.HasCredit(budget) && Sendable(lane.stream) && accepts > 0 {
      var sent := lane.(stream := AfterSend(lane.stream), watchdog := PacketSent(lane.watchdog, now),
                        log := lane.log + [Sent(now)]);
      FlushLaneNeverPostpones(sent, Pacing.Consumed(budget, |Head(lane.stream).queued.packet|), now, accepts - 1);
    }
  }

  lemma FlushNeverPostpones(s: State, now: nat, accepts: nat, which: StreamType)
    ensures NotPostponed(LaneOf(s, which), LaneOf(Flush(s, now, accepts), which))
    ensures LaneOf(s, which).Some? ==>
      LaneOf(Flush(s, now, accepts), which).value.stream.pending == LaneOf(s, which).value.stream.pending
  {
    hide FlushLane, Pacing.Refilled;
    var budget := Pacing.Refilled(s.budget, now);
    var a := if s.audio.None? then Flushed(SomeLane(s), budget, 0, accepts, false)
             else FlushLane(s.audio.value, budget, now, accepts);
    if s.audio.Some? { FlushLaneNeverPostpones(s.audio.value, budget, now, accepts); }
    if s.video.Some? { FlushLaneNeverPostpones(s.video.value, a.budget, now, a.accepts); }
  }

  lemma FeedbackNeverPostpones(s: State, feedbacks: seq<CastFeedback>, now: nat, which: StreamType, maxPacket: nat)
    requires Invariant(s, maxPacket)
    ensures
      var before, after := LaneOf(s, which), LaneOf(OnFeedback(s, feedbacks, now), which);
      NotPostponed(before, after) || NewlyRetired(before, after)
  {
    hide LaneOk, LaneRouted, RouteAll, AdvanceLane, NotPostponed, NewlyRetired;
    var start := Progress(s.audio, s.video, false, false);
    StartsRouted(s, maxPacket);
    RouteAllKeeps(start, s, maxPacket, feedbacks);
    var p := RouteAll(start, feedbacks);
    if s.audio.Some? {
      AdvancedLane(p.audio.value, s.audio.value, p.audioAdvanced, s.clock, now, maxPacket);
    }
    if s.video.Some? {
      AdvancedLane(p.video.value, s.video.value, p.videoAdvanced, s.clock, now, maxPacket);
    }
    NothingPostponed(LaneOf(OnFeedback(s, feedbacks, now), which));
  }

  lemma NothingPostponed(after: Option<Lane>)
    ensures NotPostponed(None, after)
  {
  }

  lemma AdvancedLane(lane: Lane, before: Lane, advanced: bool, clock: nat, now: nat, maxPacket: nat)
    requires LaneRouted(lane, before, advanced, clock, maxPacket)
    ensures
      var after := AdvanceLane(Some(lane), advanced, now);
      NotPostponed(Some(before), after) || NewlyRetired(Some(before), after)
  {
    hide LaneOk, Valid, SizedStream;
  }

  lemma StartsRouted(s: State, maxPacket: nat)
    requires LanesOk(s, maxPacket)
    ensures Routed(Progress(s.audio, s.video, false, false), s, maxPacket)
  {
  }

  /**
   No step postpones a stream's deadline except one that newly retires a frame
   of that very stream: not further packets, receiver reports, NACKs, repeated
   acknowledgements, or anything the other stream does.
   */
  lemma OnlyProgressPostpones(s: State, step: Step, which: StreamType, maxPacket: nat)
    requires Invariant(s, maxPacket) && Enabled(s, step, maxPacket)
    ensures
      var before, after := LaneOf(s, which), LaneOf(Do(s, step), which);
      NotPostponed(before, after) || (step.Feedback? && NewlyRetired(before, after))
  {
    hide LaneOk, Flush, OnFeedback;
    match step
    case Submit(to, frame, packets, now, accepts) =>
      if LaneOf(s, to).Some? {
        var t := WithLane(s, to, SubmitTo(LaneOf(s, to).value, frame, packets));
        FlushNeverPostpones(t, now, accepts, which);
        SubmitAdds(LaneOf(s, to).value, frame, packets);
      }
    case BurstTick(now, accepts) => FlushNeverPostpones(s, now, accepts, which);
    case Feedback(feedbacks, events, now, accepts) =>
      FeedbackNeverPostpones(s, feedbacks, now, which, maxPacket);
      FlushNeverPostpones(Emit(OnFeedback(s, feedbacks, now), events), now, accepts, which);
    case OtherEvent(now) =>
    case SenderReports(now, accepts) =>
    case ReceiveFailed(now) =>
    case Poll(now) => PollLeavesLanes(s, maxPacket);
    case ConsumerTakes(count) =>
    case Shutdown =>
  }

  lemma SubmitAdds(lane: Lane, frame: Frame, packets: seq<Rtp.Packet>)
    ensures NotPostponed(Some(lane), Some(SubmitTo(lane, frame, packets)))
  {
  }

  /** No step of the run newly retires a frame of this stream. */
  ghost predicate WithoutProgress(s: State, steps: seq<Step>, which: StreamType)
    decreases steps
  {
    steps == [] ||
    (&& !NewlyRetired(LaneOf(s, which), LaneOf(Do(s, steps[0]), which))
     && WithoutProgress(Do(s, steps[0]), steps[1..], which))
  }

  lemma PostponedNowhere(a: Option<Lane>, b: Option<Lane>, c: Option<Lane>)
    requires NotPostponed(a, b) && NotPostponed(b, c)
    ensures NotPostponed(a, c)
  {
  }

  lemma {:induction false} RunNeverPostpones(s: State, steps: seq<Step>, which: StreamType, maxPacket: nat)
    requires Invariant(s, maxPacket) && CanRun(s, steps, maxPacket) && WithoutProgress(s, steps, which)
    ensures NotPostponed(LaneOf(s, which), LaneOf(Run(s, steps), which))
    decreases steps
  {
    hide Invariant, Do, Enabled, NewlyRetired;
    if steps != [] {
      var t := Do(s, steps[0]);
      StepKeeps(s, steps[0], maxPacket);
      OnlyProgressPostpones(s, steps[0], which, maxPacket);
      RunNeverPostpones(t, steps[1..], which, maxPacket);
      PostponedNowhere(LaneOf(s, which), LaneOf(t, which), LaneOf(Run(t, steps[1..]), which));
    }
  }

  /**
   A stream that is waiting and makes no progress keeps its deadline through any
   run, whatever is sent, submitted, reported or retired elsewhere: a poll after
   the run finds it timed out exactly from that deadline on.
   */
  lemma SilenceIsNoticed(s: State, steps: seq<Step>, which: StreamType, now: nat, maxPacket: nat)
    requires Invariant(s, maxPacket) && CanRun(s, steps, maxPacket) && WithoutProgress(s, steps, which)
    requires LaneOf(s, which).Some? && Deadline(LaneOf(s, which).value.watchdog).Some?
    ensures LaneTimedOut(LaneOf(Run(s, steps), which), now) <==>
            Deadline(LaneOf(s, which).value.watchdog).value <= now
  {
    hide Run, CanRun, WithoutProgress, LaneOk;
    RunNeverPostpones(s, steps, which, maxPacket);
    RunKeeps(s, steps, maxPacket);
    var after := LaneOf(Run(s, steps), which).value;
    ArmedIsInFlight(after, Run(s, steps).clock, maxPacket);
  }

  lemma ArmedIsInFlight(lane: Lane, clock: nat, maxPacket: nat)
    requires LaneOk(lane, clock, maxPacket) && lane.watchdog.waitingSince.Some?
    ensures InFlight(lane)
  {
  }
}
