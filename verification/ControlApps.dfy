/**
 The life of an application as the control loop reports it: it becomes known
 with a status, and is reported as stopped when a later status leaves it out or
 its transport closes.
 */
module ControlApps {
  import opened Bytes
  import opened Pending
  import opened ControlModel
  import opened RequestIds

  /** How often `transport` was reported as stopped. */
  function Stops(events: seq<Event>, transport: Address): nat {
    if events == [] then 0
    else Stops(events[..|events| - 1], transport) + StopsIn(events[|events| - 1], transport)
  }

  function StopsIn(event: Event, transport: Address): nat {
    if event.ApplicationStopped? && event.app.transportId == transport then 1 else 0
  }

  /** Applications are kept under their own transport. */
  ghost predicate Keyed(apps: map<Address, CastApp>) {
    forall t :: t in apps ==> apps[t].transportId == t
  }

  lemma {:induction false} StopsAppend(a: seq<Event>, b: seq<Event>, transport: Address)
    ensures Stops(a + b, transport) == Stops(a, transport) + Stops(b, transport)
  {
    if b == [] {
      assert a + b == a;
    } else {
      assert (a + b)[..|a + b| - 1] == a + b[..|b| - 1];
      StopsAppend(a, b[..|b| - 1], transport);
    }
  }

  lemma {:induction false} ByTransportIsKeyed(apps: seq<CastApp>)
    ensures Keyed(ByTransport(apps))
  {
    if apps != [] {
      ByTransportIsKeyed(apps[..|apps| - 1]);
    }
  }

  /** The last application listed with a transport is the one known under it. */
  lemma {:induction false} LastListedIsKnown(apps: seq<CastApp>, i: nat)
    requires i < |apps| && forall j :: i < j < |apps| ==> apps[j].transportId != apps[i].transportId
    ensures apps[i].transportId in ByTransport(apps) && ByTransport(apps)[apps[i].transportId] == apps[i]
  {
    if i < |apps| - 1 {
      LastListedIsKnown(apps[..|apps| - 1], i);
    }
  }

  /** Every known application was listed. */
  lemma {:induction false} KnownIsListed(apps: seq<CastApp>, t: Address)
    requires t in ByTransport(apps)
    ensures ByTransport(apps)[t] in apps
  {
    var last := |apps| - 1;
    if apps[last].transportId != t {
      KnownIsListed(apps[..last], t);
    }
  }

  /** Stop events name each application that left, once. */
  lemma {:induction false} StopEventsCount(apps: map<Address, CastApp>, gone: seq<Address>, t: Address)
    requires Keyed(apps) && (forall x :: x in gone ==> x in apps)
    requires forall i, j :: 0 <= i < j < |gone| ==> gone[i] != gone[j]
    ensures Stops(StopEvents(apps, gone), t) == if t in gone then 1 else 0
  {
    if gone != [] {
      var n := |gone| - 1;
      assert StopEvents(apps, gone)[..n] == StopEvents(apps, gone[..n]);
      StopEventsCount(apps, gone[..n], t);
      assert forall x :: x in gone <==> x in gone[..n] || x == gone[n];
    }
  }

  /** From `s` to `after`, an application is reported as stopped exactly if it stopped being known. */
  ghost predicate Accounts(s: State, after: State, t: Address) {
    && Keyed(after.apps)
    && Stops(after.events, t) == Stops(s.events, t) + (if t in s.apps && t !in after.apps then 1 else 0)
  }

  lemma PublishAccounts(s: State, apps: seq<CastApp>, order: seq<Address>, t: Address)
    requires Keyed(s.apps) && Enumerates(order, s.apps.Keys)
    ensures Accounts(s, Publish(s, apps, order), t)
  {
    hide ByTransport, Listed, Stops, StopEvents;
    var known := ByTransport(apps);
    ByTransportIsKeyed(apps);
    var gone := Listed(order, s.apps.Keys - known.Keys);
    ListedEnumerates(order, s.apps.Keys, s.apps.Keys - known.Keys);
    StopEventsCount(s.apps, gone, t);
    StopsAppend(s.events, StopEvents(s.apps, gone), t);
    StopsOne(s.events + StopEvents(s.apps, gone), StatusPublished(apps), t);
  }

  lemma StopsOne(events: seq<Event>, event: Event, t: Address)
    ensures Stops(events + [event], t) == Stops(events, t) + StopsIn(event, t)
  {
    assert (events + [event])[..|events|] == events;
  }

  lemma StopAppAccounts(s: State, transport: Address, t: Address)
    requires Keyed(s.apps)
    ensures Accounts(s, StopApp(s, transport), t)
  {
    hide Stops;
    if transport in s.apps {
      StopsOne(s.events, ApplicationStopped(s.apps[transport]), t);
    }
  }

  lemma DispatchReceiverAccounts(s: State, value: Value, orders: Orders, t: Address)
    requires Keyed(s.apps) && Fits(orders, s)
    ensures Accounts(s, DispatchReceiver(s, value, orders).state, t)
  {
    hide Stops, Keyed, Publish, ParseApps, CompleteReceiver, Enumerates, DueToStatus, DueToAvailability, DueToError;
    if value.kind == ReceiverStatus && value.status.Some? {
      PublishAccounts(s, ParseApps(value.status.value), orders.apps, t);
    }
  }

  lemma ConnectionClosedAccounts(s: State, source: Address, order: seq<u32>, t: Address)
    requires Keyed(s.apps)
    ensures Accounts(s, ConnectionClosed(s, source, order).state, t)
  {
    hide Stops, Keyed, StopApp, CompleteOffers, OffersTo;
    StopAppAccounts(s, source, t);
  }

  lemma ReceiveAccounts(s: State, message: Message, now: nat, written: bool, orders: Orders, t: Address)
    requires Keyed(s.apps) && Fits(orders, s)
    ensures Accounts(s, Receive(s, message, now, written, orders).state, t)
  {
    hide Accounts, Keyed, Fits, DispatchReceiver, DispatchWebrtc, DispatchProductInfo, ConnectionClosed;
    ConnectionClosedAccounts(s, message.source, orders.offers, t);
    if message.payload.Json? {
      DispatchReceiverAccounts(s, message.payload.value, orders, t);
    }
    var after := Receive(s, message, now, written, orders).state;
    if after.apps == s.apps && after.events == s.events {
      UnchangedAccounts(s, after, t);
    }
  }

  lemma UnchangedAccounts(s: State, after: State, t: Address)
    requires Keyed(s.apps) && after.apps == s.apps && after.events == s.events
    ensures Accounts(s, after, t)
  {
  }

  lemma HandleAccounts(s: State, input: Input, orders: Orders, t: Address)
    requires Keyed(s.apps) && Fits(orders, s)
    ensures Accounts(s, Handle(s, input, orders).state, t)
  {
    hide Receive, Perform, Stops, Keyed, Fits;
    match input
    case Incoming(message, now, written) => ReceiveAccounts(s, message, now, written, orders, t);
    case Issued(command, written) =>
      PerformKeepsApps(s, command, written);
    case _ =>
  }

  lemma PerformKeepsApps(s: State, command: Command, written: bool)
    ensures Perform(s, command, written).state.apps == s.apps
    ensures Perform(s, command, written).state.events == s.events
  {
    hide FirstFree;
  }

  lemma ExitAccounts(s: State, reason: CloseReason, orders: Orders, t: Address)
    requires Keyed(s.apps)
    ensures Accounts(s, Exit(s, reason, orders), t) && Exit(s, reason, orders).apps == s.apps
  {
    hide FailAllPending, Stops;
    StopsOne(s.events, Closed(reason), t);
  }

  lemma NextAccounts(s: State, step: Step, t: Address)
    requires Keyed(s.apps) && CanStep(s, step)
    ensures Accounts(s, Next(s, step), t)
  {
    hide Retain, Handle, Exit, Stops, Keyed, Fits;
    var retained := Retain(s, step.gone, step.retain);
    HandleAccounts(retained, step.input, step.handle, t);
    var handled := Handle(retained, step.input, step.handle);
    if handled.Break? {
      ExitAccounts(handled.state, handled.reason, step.exit, t);
    }
  }

  /** How often an application with this transport became known. */
  ghost function Starts(s: State, steps: seq<Step>, t: Address): nat {
    if steps == [] then 0
    else
      var before := steps[..|steps| - 1];
      Starts(s, before, t) + (if t !in Run(s, before).apps && t in Run(s, steps).apps then 1 else 0)
  }

  /**
   Conservation: over every run and for every transport, the times an
   application became known are the times it was reported as stopped, plus one
   if it is known now.
   */
  lemma {:induction false} LifecycleBalances(now: nat, steps: seq<Step>, t: Address)
    requires CanRun(Initial(now), steps)
    ensures Keyed(Run(Initial(now), steps).apps)
    ensures
      var s := Run(Initial(now), steps);
      Starts(Initial(now), steps, t) == Stops(s.events, t) + (if t in s.apps then 1 else 0)
  {
    hide CanStep, Next, Stops, Keyed;
    if steps == [] {
      StartsWithNothing(now, t);
    } else {
      var before := steps[..|steps| - 1];
      LifecycleBalances(now, before, t);
      NextAccounts(Run(Initial(now), before), steps[|steps| - 1], t);
    }
  }

  lemma StartsWithNothing(now: nat, t: Address)
    ensures Keyed(Initial(now).apps) && Stops(Initial(now).events, t) == 0 && t !in Initial(now).apps
  {
  }
}
