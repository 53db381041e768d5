/**
 The acknowledgement watchdog of one stream (src/sender/event_loop.rs), and
 what its two fields mean in terms of the stream's history.
 */
module Watchdogs {
  import opened Bytes

  const INITIAL_TIMEOUT: nat := 10_000_000_000      // nanoseconds
  const TIMEOUT: nat := 5_000_000_000

  datatype Watchdog = Watchdog(waitingSince: Option<nat>, hasAcknowledged: bool)

  const IDLE: Watchdog := Watchdog(None, false)

  function PacketSent(w: Watchdog, now: nat): Watchdog {
    if w.waitingSince.Some? then w else w.(waitingSince := Some(now))
  }

  function Advanced(w: Watchdog, now: nat, inFlight: bool): Watchdog {
    Watchdog(if inFlight then Some(now) else None, true)
  }

  /** The poll's verdict; with nothing in flight it only disarms. */
  predicate TimedOut(w: Watchdog, now: nat, inFlight: bool) {
    && inFlight
    && w.waitingSince.Some?
    && now - w.waitingSince.value >= (if w.hasAcknowledged then TIMEOUT else INITIAL_TIMEOUT)
  }

  function AfterPoll(w: Watchdog, inFlight: bool): Watchdog {
    if inFlight then w else w.(waitingSince := None)
  }

  class AcknowledgementWatchdog {
    var waitingSince: Option<nat>
    var hasAcknowledged: bool

    ghost function Model(): Watchdog
      reads this
    {
      Watchdog(waitingSince, hasAcknowledged)
    }

    constructor ()
      ensures Model() == IDLE
    {
      waitingSince, hasAcknowledged := None, false;
    }

    method RecordPacketSent(now: nat)
      modifies this
      ensures Model() == PacketSent(old(Model()), now)
    {
      if waitingSince.None? {
        waitingSince := Some(now);
      }
    }

    method AcknowledgementAdvanced(now: nat, framesStillInFlight: bool)
      modifies this
      ensures Model() == Advanced(old(Model()), now, framesStillInFlight)
    {
      hasAcknowledged := true;
      waitingSince := if framesStillInFlight then Some(now) else None;
    }

    method Poll(now: nat, framesInFlight: bool) returns (timedOut: bool)
      modifies this
      ensures timedOut == TimedOut(old(Model()), now, framesInFlight)
      ensures Model() == AfterPoll(old(Model()), framesInFlight)
    {
      if !framesInFlight {
        waitingSince := None;
        return false;
      }
      var timeout := if hasAcknowledged then TIMEOUT else INITIAL_TIMEOUT;
      timedOut := waitingSince.Some? && now - waitingSince.value >= timeout;
    }
  }

  // ----- What the fields mean ----------------------------------------------

  /** What matters to a watchdog: packets leaving, and newly retired frames with or without more in flight. */
  datatype Mark = Sent(at: nat) | Retired(at: nat, more: bool)

  /** The watchdog after a history, as the source steps it. */
  ghost function Replay(log: seq<Mark>): Watchdog {
    if log == [] then IDLE
    else
      var w := Replay(log[..|log| - 1]);
      match log[|log| - 1]
      case Sent(at) => PacketSent(w, at)
      case Retired(at, more) => Advanced(w, at, more)
  }

  /** Where the last retirement is, or -1. */
  ghost function LastRetired(log: seq<Mark>): (i: int)
    ensures -1 <= i < |log|
    ensures i >= 0 ==> log[i].Retired?
    ensures forall j :: i < j < |log| ==> log[j].Sent?
  {
    if log == [] then -1
    else if log[|log| - 1].Retired? then |log| - 1
    else LastRetired(log[..|log| - 1])
  }

  /**
   Since when the sender has been waiting, read off the history: since the last
   retirement if that left frames in flight, and otherwise since the first
   packet sent after it.
   */
  ghost function WaitingSince(log: seq<Mark>): Option<nat> {
    var i := LastRetired(log);
    if i >= 0 && log[i].more then Some(log[i].at)
    else if i + 1 < |log| then Some(log[i + 1].at)
    else None
  }

  /** The stepped fields always say what the history says. */
  lemma {:induction false} ReplayMeaning(log: seq<Mark>)
    ensures Replay(log) == Watchdog(WaitingSince(log), LastRetired(log) >= 0)
  {
    if log != [] {
      ReplayMeaning(log[..|log| - 1]);
    }
  }

  ghost predicate Chronological(log: seq<Mark>, now: nat) {
    && (forall i :: 0 <= i < |log| ==> log[i].at <= now)
    && (forall i, j :: 0 <= i <= j < |log| ==> log[i].at <= log[j].at)
  }

  /**
   A timeout at `now` means: something was sent, and for the whole limit no
   frame was newly retired; and it is due as soon as that is so.
   */
  lemma TimeoutMeaning(log: seq<Mark>, now: nat)
    requires Chronological(log, now)
    ensures
      var w := Replay(log);
      var limit := if w.hasAcknowledged then TIMEOUT else INITIAL_TIMEOUT;
      && (w.hasAcknowledged <==> exists i :: 0 <= i < |log| && log[i].Retired?)
      && (TimedOut(w, now, true) <==>
            && w.waitingSince.Some?
            && w.waitingSince.value + limit <= now)
      && (TimedOut(w, now, true) ==>
            && (exists i :: 0 <= i < |log| && log[i].at + limit <= now && (log[i].Sent? || log[i].more))
            && forall i :: 0 <= i < |log| && log[i].Retired? ==> log[i].at + limit <= now)
  {
    ReplayMeaning(log);
    var i := LastRetired(log);
    hide Replay;
    if TimedOut(Replay(log), now, true) && !(i >= 0 && log[i].more) {
      assert log[i + 1].Sent?;
    }
  }

  /** Further packets never postpone a timeout that is already being waited for. */
  lemma SendingNeverPostpones(log: seq<Mark>, now: nat)
    requires Replay(log).waitingSince.Some?
    ensures Replay(log + [Sent(now)]) == Replay(log)
  {
    assert (log + [Sent(now)])[..|log|] == log;
  }
}
