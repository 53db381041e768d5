/**
 The pacing bound of Session is sharp (src/sender/event_loop.rs): a run in which
 the last packet of every flush finds one byte of credit left and overdraws the
 bucket by all but that byte.
 */
module Bursts {
  import opened Bytes
  import opened StreamModel
  import opened Session
  import Pacing
  import Rtp
  import Watchdogs

  /** A time that earns a whole number of bytes, and that number. */
  const PERIOD: nat := 1_953_125
  const EARNED: nat := 32_768

  /** Packets of one byte that use up all but one byte of the credit, then one of `maxPacket` bytes. */
  function Burst(credit: nat, maxPacket: nat): (packets: seq<Rtp.Packet>)
    requires 0 < credit
    ensures |packets| == credit
    decreases credit
  {
    if credit == 1 then [seq(maxPacket, _ => 0)] else [[0]] + Burst(credit - 1, maxPacket)
  }

  /** One burst for each of `n` periods. */
  function Supply(n: nat, maxPacket: nat): seq<Rtp.Packet> {
    if n == 0 then [] else Burst(EARNED, maxPacket) + Supply(n - 1, maxPacket)
  }

  lemma {:induction false} BurstIsSized(credit: nat, maxPacket: nat)
    requires 0 < credit && 0 < maxPacket
    ensures Sized(Burst(credit, maxPacket), maxPacket)
    decreases credit
  {
    if credit > 1 {
      BurstIsSized(credit - 1, maxPacket);
    }
  }

  lemma {:induction false} SupplyIsSized(n: nat, maxPacket: nat)
    requires 0 < maxPacket
    ensures forall p :: p in Supply(n, maxPacket) ==> 0 < |p| <= maxPacket
  {
    hide Burst;
    if n > 0 {
      BurstIsSized(EARNED, maxPacket);
      SupplyIsSized(n - 1, maxPacket);
    }
  }

  /** The lane has just these packets to send. */
  ghost predicate Loaded(lane: Lane, packets: seq<Rtp.Packet>) {
    lane.stream.retransmitQueue == [] && lane.stream.sendQueue == Entries(0, packets)
  }

  /** With just the burst's credit, a flush sends the burst and leaves the rest. */
  lemma {:induction false} FlushBurst(
    lane: Lane, last: nat, now: nat, credit: nat, accepts: nat, rest: seq<Rtp.Packet>, maxPacket: nat)
    requires 0 < credit <= accepts && 0 < maxPacket
    requires Loaded(lane, Burst(credit, maxPacket) + rest)
    ensures
      var r := FlushLane(lane, Pacing.Budget(credit, 0, last), now, accepts);
      && Loaded(r.lane, rest) && r.budget == Pacing.Budget(0, 0, last)
      && r.bytes == credit - 1 + maxPacket && !r.failed
    decreases credit
  {
    hide Watchdogs.PacketSent;
    var budget := Pacing.Budget(credit, 0, last);
    var packets := Burst(credit, maxPacket) + rest;
    var popped := lane.(stream := AfterSend(lane.stream));
    var sent := popped.(watchdog := Watchdogs.PacketSent(lane.watchdog, now), log := lane.log + [Watchdogs.Sent(now)]);
    assert Loaded(sent, packets[1..]);
    var length := |Head(lane.stream).queued.packet|;
    assert length == if credit == 1 then maxPacket else 1;
    if credit == 1 {
      assert packets[1..] == rest;
      NoCredit(sent, last, now, accepts - 1);
    } else {
      assert packets[1..] == Burst(credit - 1, maxPacket) + rest;
      FlushBurst(sent, last, now, credit - 1, accepts - 1, rest, maxPacket);
    }
  }

  lemma NoCredit(lane: Lane, last: nat, now: nat, accepts: nat)
    ensures FlushLane(lane, Pacing.Budget(0, 0, last), now, accepts)
         == Flushed(lane, Pacing.Budget(0, 0, last), 0, accepts, false)
  {
  }

  /** The bound of Session.SessionSafety, met with equality, and an empty bucket. */
  ghost predicate Sharp(s: State, maxPacket: nat) {
    && s.started <= s.clock && s.budget == Pacing.Budget(0, 0, s.clock)
    && s.bytesSent * Pacing.NANOS
       == Pacing.CAPACITY * Pacing.NANOS + (s.clock - s.started) * Pacing.BYTES_PER_SECOND
          + s.flushes * Max(maxPacket - 1, 0) * Pacing.NANOS
  }

  /** Running, with these packets to send on the audio stream. */
  ghost predicate Ready(s: State, packets: seq<Rtp.Packet>) {
    s.ending == Running && s.audio.Some? && Loaded(s.audio.value, packets)
  }

  /** One flush with just the burst's credit. */
  lemma FlushOnce(s: State, now: nat, credit: nat, rest: seq<Rtp.Packet>, maxPacket: nat)
    requires 0 < credit && 0 < maxPacket && Ready(s, Burst(credit, maxPacket) + rest)
    requires Pacing.Refilled(s.budget, now) == Pacing.Budget(credit, 0, now)
    ensures
      var t := Flush(s, now, credit);
      && Ready(t, rest) && t.budget == Pacing.Budget(0, 0, now) && t.clock == now && t.started == s.started
      && t.bytesSent == s.bytesSent + credit - 1 + maxPacket && t.flushes == s.flushes + 1
  {
    hide FlushLane, Loaded, Pacing.Refilled;
    FlushBurst(s.audio.value, now, now, credit, credit, rest, maxPacket);
    if s.video.Some? {
      NoCredit(s.video.value, now, now, FlushLane(s.audio.value, Pacing.Budget(credit, 0, now), now, credit).accepts);
    }
  }

  lemma OnePeriod(b: Pacing.Budget)
    requires b == Pacing.Budget(0, 0, b.lastRefill)
    ensures Pacing.Refilled(b, b.lastRefill + PERIOD) == Pacing.Budget(EARNED, 0, b.lastRefill + PERIOD)
  {
  }

  lemma TickIsSharp(s: State, rest: seq<Rtp.Packet>, maxPacket: nat)
    requires 0 < maxPacket && Sharp(s, maxPacket) && Ready(s, Burst(EARNED, maxPacket) + rest)
    ensures
      var t := Do(s, BurstTick(s.clock + PERIOD, EARNED));
      Sharp(t, maxPacket) && Ready(t, rest) && t.flushes == s.flushes + 1
  {
    hide Flush, Burst, Pacing.Refilled, Loaded;
    OnePeriod(s.budget);
    FlushOnce(s, s.clock + PERIOD, EARNED, rest, maxPacket);
    assert (s.flushes + 1) * (maxPacket - 1) * Pacing.NANOS
        == s.flushes * (maxPacket - 1) * Pacing.NANOS + (maxPacket - 1) * Pacing.NANOS;
  }

  lemma {:induction false} Ticks(s: State, n: nat, maxPacket: nat) returns (steps: seq<Step>)
    requires 0 < maxPacket && Sharp(s, maxPacket) && Ready(s, Supply(n, maxPacket))
    ensures CanRun(s, steps, maxPacket)
    ensures Sharp(Run(s, steps), maxPacket) && Run(s, steps).flushes == s.flushes + n
    decreases n
  {
    hide Sharp, Ready, Burst, Do;
    if n == 0 {
      steps := [];
    } else {
      var tick := BurstTick(s.clock + PERIOD, EARNED);
      TickIsSharp(s, Supply(n - 1, maxPacket), maxPacket);
      var rest := Ticks(Do(s, tick), n - 1, maxPacket);
      assert Enabled(s, tick, maxPacket) by { ReadyRuns(s, Supply(n, maxPacket)); }
      steps := [tick] + rest;
      assert steps[1..] == rest;
    }
  }

  lemma ReadyRuns(s: State, packets: seq<Rtp.Packet>)
    requires Ready(s, packets)
    ensures s.ending == Running
  {
  }

  lemma FirstFlush(s: State, rest: seq<Rtp.Packet>, maxPacket: nat)
    requires 0 < maxPacket && Initial(s) && s.audio.Some?
    ensures
      var step := Submit(Audio, Frame(true, [0], 0, 0, None), Burst(Pacing.CAPACITY, maxPacket) + rest, s.clock,
                         Pacing.CAPACITY);
      var t := Do(s, step);
      Sharp(t, maxPacket) && Ready(t, rest) && t.flushes == 1
  {
    hide Flush, Burst, Entries;
    var frame, packets := Frame(true, [0], 0, 0, None), Burst(Pacing.CAPACITY, maxPacket) + rest;
    var lane := SubmitTo(s.audio.value, frame, packets);
    assert lane.stream.sendQueue == Entries(0, packets);
    FlushOnce(WithLane(s, Audio, lane), s.clock, Pacing.CAPACITY, rest, maxPacket);
  }

  /**
   For every number of flushes and every packet size some run of the loop sends
   exactly as much as SessionSafety allows.
   */
  lemma BoundIsAttained(s0: State, flushes: nat, maxPacket: nat) returns (steps: seq<Step>)
    requires Initial(s0) && s0.audio.Some? && 0 < flushes && 0 < maxPacket
    ensures CanRun(s0, steps, maxPacket)
    ensures
      var s := Run(s0, steps);
      && s.flushes == flushes
      && s.bytesSent * Pacing.NANOS
         == Pacing.CAPACITY * Pacing.NANOS + (s.clock - s.started) * Pacing.BYTES_PER_SECOND
            + s.flushes * Max(maxPacket - 1, 0) * Pacing.NANOS
  {
    hide Burst, Supply, Ready, Do;
    var rest := Supply(flushes - 1, maxPacket);
    var packets := Burst(Pacing.CAPACITY, maxPacket) + rest;
    var submit := Submit(Audio, Frame(true, [0], 0, 0, None), packets, s0.clock, Pacing.CAPACITY);
    FirstFlush(s0, rest, maxPacket);
    BurstIsSized(Pacing.CAPACITY, maxPacket);
    SupplyIsSized(flushes - 1, maxPacket);
    var more := Ticks(Do(s0, submit), flushes - 1, maxPacket);
    steps := [submit] + more;
    assert steps[1..] == more;
  }
}
