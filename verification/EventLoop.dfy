/**
 The event loop's in-place helpers (src/sender/event_loop.rs): flushing and
 feedback over live streams, watchdogs and the budget, proved to do to them
 what the steps of Session do to their values.
 */
module EventLoop {
  import opened Bytes
  import opened Rtcp
  import opened StreamModel
  import opened Session
  import opened Watchdogs
  import Pacing
  import S = StreamState

  /** A lane describes a live stream and its watchdog. */
  ghost predicate Describes(lane: Lane, stream: S.StreamState, watchdog: AcknowledgementWatchdog)
    reads stream, stream.pending, watchdog
  {
    && stream.Valid()
    && lane.stream == stream.Model()
    && lane.watchdog == watchdog.Model()
    && lane.senderSource == stream.packetizer.source.syncSource
    && lane.receiverSource == stream.receiverSyncSource
  }

  /** Send a stream's packets while there is credit; the transport takes `accepts` more datagrams. */
  method FlushStreamPackets(
    stream: S.StreamState, watchdog: AcknowledgementWatchdog, budget: Pacing.BurstBudget, now: nat, accepts: nat,
    ghost lane: Lane) returns (failed: bool, left: nat)
    requires Describes(lane, stream, watchdog) && Pacing.Valid(budget.Model())
    modifies stream`sendQueue, stream`retransmitQueue, watchdog, budget
    ensures
      var r := FlushLane(lane, old(budget.Model()), now, accepts);
      && Describes(r.lane, stream, watchdog)
      && budget.Model() == r.budget && Pacing.Valid(budget.Model())
      && failed == r.failed && left == r.accepts
  {
    hide StreamModel.Valid, S.RingMap, S.RingValid, Pacing.Consumed, PacketSent;
    left, failed := accepts, false;
    ghost var here, start := lane, budget.Model();
    while budget.availableBytes != 0
      invariant Describes(here, stream, watchdog) && Pacing.Valid(budget.Model())
      invariant
        var r := FlushLane(lane, start, now, accepts);
        var rest := FlushLane(here, budget.Model(), now, left);
        r.lane == rest.lane && r.budget == rest.budget && r.accepts == rest.accepts && r.failed == rest.failed
      decreases |stream.sendQueue| + |stream.retransmitQueue|
    {
      var outbound := stream.NextPacket();
      if outbound.None? {
        break;
      }
      if left == 0 {
        return true, 0;
      }
      here := here.(stream := AfterSend(here.stream), watchdog := PacketSent(here.watchdog, now),
                    log := here.log + [Sent(now)]);
      left := left - 1;
      watchdog.RecordPacketSent(now);
      budget.Consume(|outbound.value.queued.packet|);
    }
  }

  ghost predicate DescribesLane(lane: Option<Lane>, stream: S.StreamState?, watchdog: AcknowledgementWatchdog)
    reads stream, if stream == null then {} else {stream.pending}, watchdog
  {
    if stream == null then lane.None? else lane.Some? && Describes(lane.value, stream, watchdog)
  }

  /** Refill once, then audio before video on the same budget. */
  method FlushQueuedPackets(
    audio: S.StreamState?, video: S.StreamState?, audioWatchdog: AcknowledgementWatchdog,
    videoWatchdog: AcknowledgementWatchdog, budget: Pacing.BurstBudget, now: nat, accepts: nat, ghost s: State)
    returns (failed: bool)
    requires DescribesLane(s.audio, audio, audioWatchdog) && DescribesLane(s.video, video, videoWatchdog)
    requires Separate(audio, video) && audioWatchdog != videoWatchdog
    requires s.ending == Running && s.budget == budget.Model() && Pacing.Valid(budget.Model())
    modifies audio, video, audioWatchdog, videoWatchdog, budget
    ensures
      var t := Flush(s, now, accepts);
      && DescribesLane(t.audio, audio, audioWatchdog) && DescribesLane(t.video, video, videoWatchdog)
      && budget.Model() == t.budget
      && (failed <==> t.ending == Failed)
  {
    hide FlushLane, StreamModel.Valid, S.RingMap, S.RingValid, Pacing.Refilled;
    budget.Refill(now);
    failed := false;
    var left := accepts;
    if audio != null {
      failed, left := FlushStreamPackets(audio, audioWatchdog, budget, now, left, s.audio.value);
      if failed {
        return;
      }
    }
    if video != null {
      failed, left := FlushStreamPackets(video, videoWatchdog, budget, now, left, s.video.value);
    }
  }

  ghost predicate DescribesOptional(lane: Option<Lane>, stream: S.StreamState?)
    reads stream, if stream == null then {} else {stream.pending}
  {
    if stream == null then lane.None?
    else
      && lane.Some?
      && stream.Valid()
      && lane.value.stream == stream.Model()
      && lane.value.senderSource == stream.packetizer.source.syncSource
      && lane.value.receiverSource == stream.receiverSyncSource
  }

  /** Two streams share no state. */
  ghost predicate Separate(audio: S.StreamState?, video: S.StreamState?) {
    audio != null && video != null ==>
      audio != video && audio.pending != video.pending && audio.packetizer != video.packetizer
  }

  /** Acknowledging something is the same as retiring something. */
  lemma AcknowledgingAdvances(s: Stream, feedback: CastFeedback, acknowledged: seq<int>)
    requires StreamModel.Valid(s)
    requires S.ListsOnce(acknowledged, Acknowledged(s, FeedbackCheckpoint(s, feedback), feedback.ackBitvector))
    ensures acknowledged != [] <==> Advances(s, feedback)
  {
    ApplyKeepsValid(s, feedback);
    hide Apply, StreamModel.Valid, Reported, FeedbackCheckpoint;
    var gone := Acknowledged(s, FeedbackCheckpoint(s, feedback), feedback.ackBitvector);
    assert Apply(s, feedback).pending.Keys == s.pending.Keys - gone;
    if acknowledged != [] {
      var f := acknowledged[0];
      assert f in acknowledged;
      assert f in gone && f in s.pending.Keys && f !in Apply(s, feedback).pending.Keys;
    } else {
      assert gone == {};
    }
  }

  // ----- The events of a feedback packet -----------------------------------

  datatype SenderEvent =
    | FrameAcked(stream: StreamType, frameId: int)
    | PacketRetransmission(stream: StreamType, retransmission: Retransmission)

  function AckEvents(which: StreamType, acknowledged: seq<int>): seq<SenderEvent> {
    seq(|acknowledged|, i requires 0 <= i < |acknowledged| => FrameAcked(which, acknowledged[i]))
  }

  function NackEvents(which: StreamType, retransmissions: seq<Retransmission>): seq<SenderEvent> {
    seq(|retransmissions|, i requires 0 <= i < |retransmissions| => PacketRetransmission(which, retransmissions[i]))
  }

  /** The stream a feedback packet is for: the one whose source it names, if it comes from its receiver. */
  function Target(p: Progress, feedback: CastFeedback): Option<(StreamType, Lane)> {
    var named :=
      if Addressed(p.audio, feedback.senderSyncSource) then Some((Audio, p.audio.value))
      else if Addressed(p.video, feedback.senderSyncSource) then Some((Video, p.video.value))
      else None;
    if named.Some? && named.value.1.receiverSource == feedback.receiverSyncSource then named else None
  }

  /** An event for each frame newly acknowledged, once, then one for each NACK with what it brought back. */
  ghost predicate Reports(which: StreamType, s: Stream, feedback: CastFeedback, events: seq<SenderEvent>) {
    var c := FeedbackCheckpoint(s, feedback);
    exists acknowledged, retransmissions ::
      && events == AckEvents(which, acknowledged) + NackEvents(which, retransmissions)
      && S.ListsOnce(acknowledged, Acknowledged(s, c, feedback.ackBitvector))
      && S.Retransmitted(Apply(s, feedback), c, feedback.nacks, retransmissions)
  }

  ghost predicate EventsOf(p: Progress, feedback: CastFeedback, events: seq<SenderEvent>) {
    match Target(p, feedback)
    case None => events == []
    case Some((which, lane)) => Reports(which, lane.stream, feedback, events)
  }

  /** One feedback packet at the stream it is for. */
  method ApplyTo(stream: S.StreamState, which: StreamType, feedback: CastFeedback)
    returns (advanced: bool, events: seq<SenderEvent>)
    requires stream.Valid()
    modifies stream, stream.pending
    ensures stream.Valid() && stream.Model() == Apply(old(stream.Model()), feedback)
    ensures advanced == Advances(old(stream.Model()), feedback)
    ensures Reports(which, old(stream.Model()), feedback, events)
  {
    hide StreamModel.Valid, S.RingMap, S.RingValid, Apply, Advances, Acknowledged, FeedbackCheckpoint, S.ListsOnce,
         S.Retransmitted;
    ghost var before := stream.Model();
    var acknowledged, retransmissions := stream.ApplyFeedback(feedback);
    AcknowledgingAdvances(before, feedback, acknowledged);
    advanced, events := acknowledged != [], AckEvents(which, acknowledged) + NackEvents(which, retransmissions);
  }

  /** One feedback packet goes to the stream whose source it names, if it comes from that stream's receiver. */
  method RouteFeedback(
    feedback: CastFeedback, audio: S.StreamState?, video: S.StreamState?, audioBefore: bool, videoBefore: bool,
    ghost p: Progress) returns (audioAdvanced: bool, videoAdvanced: bool, events: seq<SenderEvent>)
    requires DescribesOptional(p.audio, audio) && DescribesOptional(p.video, video) && Separate(audio, video)
    requires p.audioAdvanced == audioBefore && p.videoAdvanced == videoBefore
    modifies audio, if audio == null then {} else {audio.pending}
    modifies video, if video == null then {} else {video.pending}
    ensures
      var q := Route(p, feedback);
      && DescribesOptional(q.audio, audio) && DescribesOptional(q.video, video)
      && audioAdvanced == q.audioAdvanced && videoAdvanced == q.videoAdvanced
    ensures EventsOf(p, feedback, events)
  {
    hide StreamModel.Valid, S.RingMap, S.RingValid, Apply, Advances, Reports;
    audioAdvanced, videoAdvanced, events := audioBefore, videoBefore, [];
    if audio != null && audio.packetizer.source.syncSource == feedback.senderSyncSource {
      if audio.receiverSyncSource != feedback.receiverSyncSource {
        return;
      }
      var advanced;
      advanced, events := ApplyTo(audio, Audio, feedback);
      audioAdvanced := audioAdvanced || advanced;
    } else if video != null && video.packetizer.source.syncSource == feedback.senderSyncSource {
      if video.receiverSyncSource != feedback.receiverSyncSource {
        return;
      }
      var advanced;
      advanced, events := ApplyTo(video, Video, feedback);
      videoAdvanced := videoAdvanced || advanced;
    }
  }

  lemma {:induction false} RouteOneMore(p: Progress, feedbacks: seq<CastFeedback>, feedback: CastFeedback)
    ensures RouteAll(p, feedbacks + [feedback]) == Route(RouteAll(p, feedbacks), feedback)
    decreases feedbacks
  {
    hide Route;
    if feedbacks == [] {
      assert ([] + [feedback])[1..] == [];
    } else {
      assert (feedbacks + [feedback])[1..] == feedbacks[1..] + [feedback];
      RouteOneMore(Route(p, feedbacks[0]), feedbacks[1..], feedback);
    }
  }

  /** All feedback packets of a compound, in order, with the events of each. */
  method ProcessFeedback(
    feedbacks: seq<CastFeedback>, audio: S.StreamState?, video: S.StreamState?, ghost start: Progress)
    returns (audioAdvanced: bool, videoAdvanced: bool, events: seq<seq<SenderEvent>>)
    requires DescribesOptional(start.audio, audio) && DescribesOptional(start.video, video) && Separate(audio, video)
    requires !start.audioAdvanced && !start.videoAdvanced
    modifies audio, if audio == null then {} else {audio.pending}
    modifies video, if video == null then {} else {video.pending}
    ensures
      var q := RouteAll(start, feedbacks);
      && DescribesOptional(q.audio, audio) && DescribesOptional(q.video, video)
      && audioAdvanced == q.audioAdvanced && videoAdvanced == q.videoAdvanced
    ensures |events| == |feedbacks|
    ensures forall i :: 0 <= i < |feedbacks| ==> EventsOf(RouteAll(start, feedbacks[..i]), feedbacks[i], events[i])
  {
    hide Route, StreamModel.Valid, S.RingMap, S.RingValid, EventsOf;
    audioAdvanced, videoAdvanced, events := false, false, [];
    assert feedbacks[..0] == [];
    for i := 0 to |feedbacks|
      invariant |events| == i
      invariant
        var here := RouteAll(start, feedbacks[..i]);
        && DescribesOptional(here.audio, audio) && DescribesOptional(here.video, video)
        && here.audioAdvanced == audioAdvanced && here.videoAdvanced == videoAdvanced
      invariant forall k :: 0 <= k < i ==> EventsOf(RouteAll(start, feedbacks[..k]), feedbacks[k], events[k])
    {
      assert feedbacks[..i + 1] == feedbacks[..i] + [feedbacks[i]];
      RouteOneMore(start, feedbacks[..i], feedbacks[i]);
      var more;
      audioAdvanced, videoAdvanced, more :=
        RouteFeedback(feedbacks[i], audio, video, audioAdvanced, videoAdvanced, RouteAll(start, feedbacks[..i]));
      events := events + [more];
    }
    assert feedbacks[..|feedbacks|] == feedbacks;
  }

  lemma {:induction false} RoutingLeavesWatchdogs(p: Progress, feedbacks: seq<CastFeedback>)
    ensures
      var q := RouteAll(p, feedbacks);
      && (p.audio.Some? ==> q.audio.Some? && q.audio.value.watchdog == p.audio.value.watchdog)
      && (p.video.Some? ==> q.video.Some? && q.video.value.watchdog == p.video.value.watchdog)
    decreases feedbacks
  {
    hide Apply, Advances;
    if feedbacks != [] {
      RoutingLeavesWatchdogs(Route(p, feedbacks[0]), feedbacks[1..]);
    }
  }

  /** Progress on a stream restarts its watchdog, or disarms it when nothing is left in flight. */
  method AdvanceWatchdog(stream: S.StreamState?, watchdog: AcknowledgementWatchdog, advanced: bool, now: nat,
                         ghost lane: Option<Lane>)
    requires DescribesLane(lane, stream, watchdog)
    modifies watchdog
    ensures DescribesLane(AdvanceLane(lane, advanced, now), stream, watchdog)
  {
    hide StreamModel.Valid, S.RingMap, S.RingValid;
    if advanced {
      var count := 0;
      if stream != null {
        count := stream.InFlightCount();
      }
      watchdog.AcknowledgementAdvanced(now, count != 0);
    }
  }

  /** Feedback from one datagram: the streams first, then the watchdogs of those that advanced. */
  method HandleFeedback(
    feedbacks: seq<CastFeedback>, audio: S.StreamState?, video: S.StreamState?,
    audioWatchdog: AcknowledgementWatchdog, videoWatchdog: AcknowledgementWatchdog, now: nat, ghost s: State)
    returns (events: seq<seq<SenderEvent>>)
    requires DescribesLane(s.audio, audio, audioWatchdog) && DescribesLane(s.video, video, videoWatchdog)
    requires Separate(audio, video) && audioWatchdog != videoWatchdog
    modifies audio, if audio == null then {} else {audio.pending}
    modifies video, if video == null then {} else {video.pending}
    modifies audioWatchdog, videoWatchdog
    ensures
      var t := OnFeedback(s, feedbacks, now);
      DescribesLane(t.audio, audio, audioWatchdog) && DescribesLane(t.video, video, videoWatchdog)
    ensures |events| == |feedbacks|
    ensures
      var start := Progress(s.audio, s.video, false, false);
      forall i :: 0 <= i < |feedbacks| ==> EventsOf(RouteAll(start, feedbacks[..i]), feedbacks[i], events[i])
  {
    hide EventsOf, RouteAll, StreamModel.Valid, S.RingMap, S.RingValid, AdvanceLane;
    ghost var start := Progress(s.audio, s.video, false, false);
    RoutingLeavesWatchdogs(start, feedbacks);
    var audioAdvanced, videoAdvanced;
    audioAdvanced, videoAdvanced, events := ProcessFeedback(feedbacks, audio, video, start);
    ghost var p := RouteAll(start, feedbacks);
    AdvanceWatchdog(audio, audioWatchdog, audioAdvanced, now, p.audio);
    AdvanceWatchdog(video, videoWatchdog, videoAdvanced, now, p.video);
  }

  method PollWatchdog(stream: S.StreamState?, watchdog: AcknowledgementWatchdog, now: nat, ghost lane: Option<Lane>)
    returns (timedOut: bool)
    requires DescribesLane(lane, stream, watchdog)
    modifies watchdog
    ensures timedOut == LaneTimedOut(lane, now)
    ensures DescribesLane(PollLane(lane), stream, watchdog)
  {
    hide StreamModel.Valid, S.RingMap, S.RingValid;
    var count := 0;
    if stream != null {
      count := stream.InFlightCount();
    }
    timedOut := watchdog.Poll(now, count != 0);
  }

  /** The supervision tick: both watchdogs are asked, and either ends the session. */
  method PollWatchdogs(
    audio: S.StreamState?, video: S.StreamState?, audioWatchdog: AcknowledgementWatchdog,
    videoWatchdog: AcknowledgementWatchdog, now: nat, ghost s: State) returns (timedOut: bool)
    requires DescribesLane(s.audio, audio, audioWatchdog) && DescribesLane(s.video, video, videoWatchdog)
    requires audioWatchdog != videoWatchdog && s.ending == Running
    modifies audioWatchdog, videoWatchdog
    ensures
      var t := Do(s, Session.Poll(now));
      && DescribesLane(t.audio, audio, audioWatchdog) && DescribesLane(t.video, video, videoWatchdog)
      && (timedOut <==> t.ending == ReceiverTimedOut)
  {
    hide StreamModel.Valid, S.RingMap, S.RingValid, PollLane, LaneTimedOut;
    var audioTimedOut := PollWatchdog(audio, audioWatchdog, now, s.audio);
    var videoTimedOut := PollWatchdog(video, videoWatchdog, now, s.video);
    timedOut := audioTimedOut || videoTimedOut;
  }
}
