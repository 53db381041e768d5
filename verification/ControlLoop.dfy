/**
 The control loop with its hash maps and counters updated in place
 (src/control/mod.rs), proved to take the steps of ControlModel.
 */
module ControlLoop {
  import opened Bytes
  import opened Pending
  import opened RequestIds
  import opened ControlModel
  import opened ControlRuns
  import opened ControlReplies

  // ----- Visiting a table --------------------------------------------------

  lemma ListedOne(order: seq<u32>, keys: set<u32>, k: u32)
    requires Enumerates(order, keys) && k in keys
    ensures Listed(order, {k}) == [k]
  {
    ListedEnumerates(order, keys, {k});
    EnumeratesCount(Listed(order, {k}), {k});
    assert Listed(order, {k})[0] in Listed(order, {k});
  }

  lemma {:induction false} EnumeratesCount(order: seq<u32>, keys: set<u32>)
    requires Enumerates(order, keys)
    ensures |order| == |keys|
  {
    if order == [] {
      assert keys == {};
    } else {
      var last := |order| - 1;
      assert Enumerates(order[..last], keys - {order[last]});
      EnumeratesCount(order[..last], keys - {order[last]});
    }
  }

  lemma ListedNext(order: seq<u32>, n: nat, chosen: set<u32>)
    requires n < |order|
    ensures Listed(order[..n + 1], chosen) ==
            Listed(order[..n], chosen) + if order[n] in chosen then [order[n]] else []
  {
    assert order[..n + 1] == order[..n] + [order[n]];
    ListedAppend(order[..n], [order[n]], chosen);
    assert [order[n]][1..] == [];
  }

  ghost function Choice<Op>(table: Table<Op>, wanted: Entry<Op> -> bool): (ids: set<u32>)
    ensures ids <= table.Keys
  {
    set id | id in table && wanted(table[id])
  }

  /** Collect the entries that match. */
  method Collect<Op>(table: Table<Op>, order: seq<u32>, wanted: Entry<Op> -> bool) returns (ids: seq<u32>)
    requires Enumerates(order, table.Keys)
    ensures ids == Listed(order, Choice(table, wanted)) && Picks(table, ids)
  {
    hide Enumerates;
    ids := [];
    for i := 0 to |order|
      invariant ids == Listed(order[..i], Choice(table, wanted))
    {
      ListedNext(order, i, Choice(table, wanted));
      assert order[i] in table by { VisitsKeys(table, order, i); }
      if wanted(table[order[i]]) {
        ids := ids + [order[i]];
      }
    }
    assert order[..|order|] == order;
    ListedPicks(table, order, Choice(table, wanted));
  }

  lemma VisitsKeys<Op>(table: Table<Op>, order: seq<u32>, i: nat)
    requires Enumerates(order, table.Keys) && i < |order|
    ensures order[i] in table
  {
    assert order[i] in order;
  }

  /** The entry that matches, if it is the only one. */
  method FindOnly<Op>(table: Table<Op>, order: seq<u32>, wanted: Entry<Op> -> bool) returns (r: Option<u32>)
    requires Enumerates(order, table.Keys)
    ensures Only(Choice(table, wanted)) == if r.Some? then {r.value} else {}
    ensures r.Some? ==> r.value in table
  {
    hide Enumerates, Only, Choice;
    ghost var chosen := Choice(table, wanted);
    r := None;
    for i := 0 to |order|
      invariant Listed(order[..i], chosen) == if r.Some? then [r.value] else []
      invariant r.Some? ==> r.value in table
    {
      ListedNext(order, i, chosen);
      assert order[i] in table by { VisitsKeys(table, order, i); }
      ChoiceMember(table, wanted, order[i]);
      if wanted(table[order[i]]) {
        if r.Some? {
          TwoAreNotOnly(table.Keys, order, i + 1, chosen);
          return None;
        }
        r := Some(order[i]);
      }
    }
    assert order[..|order|] == order;
    OnlyListed(table.Keys, order, chosen);
  }

  lemma ChoiceMember<Op>(table: Table<Op>, wanted: Entry<Op> -> bool, id: u32)
    requires id in table
    ensures id in Choice(table, wanted) <==> wanted(table[id])
  {
  }

  lemma TwoAreNotOnly(keys: set<u32>, order: seq<u32>, n: nat, chosen: set<u32>)
    requires Enumerates(order, keys) && chosen <= keys && n <= |order| && |Listed(order[..n], chosen)| >= 2
    ensures Only(chosen) == {}
  {
    hide Listed, Enumerates;
    ListedEnumerates(order, keys, chosen);
    EnumeratesCount(Listed(order, chosen), chosen);
    ListedAppend(order[..n], order[n..], chosen);
    assert order[..n] + order[n..] == order;
  }

  lemma OnlyListed(keys: set<u32>, order: seq<u32>, chosen: set<u32>)
    requires Enumerates(order, keys) && chosen <= keys && |Listed(order, chosen)| <= 1
    ensures Only(chosen) == set k | k in Listed(order, chosen)
  {
    ListedEnumerates(order, keys, chosen);
    EnumeratesCount(Listed(order, chosen), chosen);
    assert chosen == set k | k in Listed(order, chosen);
  }

  /** Remove the entries one after the other and use their reply channels. */
  method SendAll<Op>(table: Table<Op>, ids: seq<u32>, reply: Op -> Reply, log: seq<Outcome<Reply>>)
    returns (rest: Table<Op>, after: seq<Outcome<Reply>>)
    requires Picks(table, ids)
    ensures rest == Remaining(table, ids) && after == log + Outcomes(table, ids, reply)
  {
    rest, after := table, log;
    for i := 0 to |ids|
      invariant rest == Remaining(table, ids[..i])
      invariant |after| == |log| + i && after[..|log|] == log
      invariant after[|log|..] == Outcomes(table, ids, reply)[..i]
    {
      var id := ids[i];
      assert id in ids;
      assert ids[..i + 1] == ids[..i] + [id];
      if id in rest {
        after := after + [Outcome(rest[id].token, reply(rest[id].op))];
        rest := rest - {id};
      }
    }
    assert ids[..|ids|] == ids;
  }

  // ----- The loop ----------------------------------------------------------

  class Channel {
    var receiver: Table<ReceiverOperation>
    var productInfo: Table<ProductInfoOperation>
    var offers: Table<Address>
    var nextRequest: u32
    var nextProductInfo: u32
    var nextSequence: u32
    var apps: map<Address, CastApp>
    var lastHeartbeat: nat
    var outcomes: seq<Outcome<Reply>>
    var events: seq<Event>
    var closed: bool

    ghost function Model(): State
      reads this
    {
      State(receiver, productInfo, offers, nextRequest, nextProductInfo, nextSequence, apps, lastHeartbeat,
            outcomes, events, closed)
    }

    constructor (now: nat)
      ensures Model() == Initial(now)
    {
      receiver, productInfo, offers := map[], map[], map[];
      nextRequest, nextProductInfo, nextSequence := 1, 1, 1;
      apps, lastHeartbeat, outcomes, events, closed := map[], now, [], [], false;
    }

    // ----- Receiver requests -----------------------------------------------

    /** Remove one receiver request and use its reply channel. */
    method SendReceiver(id: u32, reply: Reply, ghost order: seq<u32>, ghost replies: ReceiverOperation -> Reply)
      requires id in receiver && Enumerates(order, receiver.Keys) && replies(receiver[id].op) == reply
      modifies this
      ensures Model() == CompleteReceiver(old(Model()), order, {id}, replies)
    {
      ListedOne(order, receiver.Keys, id);
      outcomes := outcomes + [Outcome(receiver[id].token, reply)];
      assert [Outcome(receiver[id].token, reply)] == Outcomes(receiver, [id], replies);
      assert Remaining(receiver, [id]) == receiver - {id};
      receiver := receiver - {id};
    }

    /** A receiver status, by request identifier or else by the applications it shows. */
    method CompleteReceiverStatus(value: Value, order: seq<u32>)
      requires Enumerates(order, receiver.Keys)
      modifies this
      ensures Model() == CompleteReceiver(old(Model()), order, DueToStatus(old(receiver), value), _ => Answer(value))
    {
      if value.requestId.Some? && value.requestId.value in receiver {
        var complete := match receiver[value.requestId.value].op
          case Launch(appId) => Shows(value, appId)
          case SetVolume => true
          case Status => true
          case Stop => true
          case Availability(_) => false;
        if complete {
          SendReceiver(value.requestId.value, Answer(value), order, _ => Answer(value));
          return;
        }
      }
      var shown := (entry: Entry<ReceiverOperation>) => entry.op.Launch? && Shows(value, entry.op.appId);
      var matching := Collect(receiver, order, shown);
      assert Choice(receiver, shown) == DueToStatus(receiver, value);
      receiver, outcomes := SendAll(receiver, matching, _ => Answer(value), outcomes);
    }

    /** A reply that must name its request, of the expected operation. */
    method CompleteAvailability(value: Value, ghost order: seq<u32>)
      requires Enumerates(order, receiver.Keys)
      modifies this
      ensures Model() ==
              CompleteReceiver(old(Model()), order, DueToAvailability(old(receiver), value), _ => Answer(value))
    {
      if value.requestId.Some? && value.requestId.value in receiver &&
         receiver[value.requestId.value].op.Availability?
      {
        assert DueToAvailability(receiver, value) == {value.requestId.value};
        SendReceiver(value.requestId.value, Answer(value), order, _ => Answer(value));
      } else {
        assert DueToAvailability(receiver, value) == {};
        NothingSent(order);
      }
    }

    /** Completing nothing changes nothing. */
    lemma NothingSent(order: seq<u32>)
      ensures forall reply :: CompleteReceiver(Model(), order, {}, reply) == Model()
      ensures forall reply :: CompleteProductInfo(Model(), order, {}, reply) == Model()
      ensures forall reply :: CompleteOffers(Model(), order, {}, reply) == Model()
    {
      ListedNothing(order);
    }

    /** An error, by request identifier or else by the only request it can be about. */
    method FailReceiverRequest(value: Value, order: seq<u32>)
      requires Enumerates(order, receiver.Keys)
      modifies this
      ensures Model() == CompleteReceiver(old(Model()), order, DueToError(old(receiver), value), op => FailureOf(op))
    {
      hide Enumerates, Only;
      var id := value.requestId;
      if id.None? {
        var blamed := (entry: Entry<ReceiverOperation>) => MayBlame(entry.op, value.appId);
        id := FindOnly(receiver, order, blamed);
        assert Choice(receiver, blamed) == Suspects(receiver, value.appId);
      }
      if id.Some? && id.value in receiver {
        assert DueToError(receiver, value) == {id.value};
        SendReceiver(id.value, FailureOf(receiver[id.value].op), order, op => FailureOf(op));
      } else {
        assert DueToError(receiver, value) == {};
        NothingSent(order);
      }
    }

    // ----- Product information and offers ----------------------------------

    method CompleteProductInfoRequest(operation: ProductInfoOperation, value: Value, ghost order: seq<u32>)
      requires Enumerates(order, productInfo.Keys)
      modifies this
      ensures Model() == CompleteProductInfo(old(Model()), order, DueToProductInfo(old(productInfo), operation, value),
                                             op => ProductInfoReply(op, value))
    {
      hide Enumerates;
      var id := RequestIdOf(operation, value);
      if id.None? || id.value !in productInfo || productInfo[id.value].op != operation {
        assert DueToProductInfo(productInfo, operation, value) == {};
        NothingSent(order);
        return;
      }
      ghost var due := DueToProductInfo(productInfo, operation, value);
      assert due == {id.value};
      ListedOne(order, productInfo.Keys, id.value);
      var reply := ProductInfoReply(operation, value);
      assert [Outcome(productInfo[id.value].token, reply)] ==
             Outcomes(productInfo, [id.value], op => ProductInfoReply(op, value));
      assert Remaining(productInfo, [id.value]) == productInfo - {id.value};
      outcomes := outcomes + [Outcome(productInfo[id.value].token, reply)];
      productInfo := productInfo - {id.value};
    }

    /** Remove one offer and use its reply channel. */
    method SendOffer(id: u32, reply: Reply, ghost order: seq<u32>)
      requires id in offers && Enumerates(order, offers.Keys)
      modifies this
      ensures Model() == CompleteOffers(old(Model()), order, {id}, _ => reply)
    {
      ListedOne(order, offers.Keys, id);
      outcomes := outcomes + [Outcome(offers[id].token, reply)];
      assert [Outcome(offers[id].token, reply)] == Outcomes(offers, [id], _ => reply);
      assert Remaining(offers, [id]) == offers - {id};
      offers := offers - {id};
    }

    method CompleteOffer(value: Value, source: Address, ghost order: seq<u32>)
      requires Enumerates(order, offers.Keys)
      modifies this
      ensures
        var due := DueToAnswer(old(offers), value, source);
        Model() == CompleteOffers(old(Model()), order, due, _ => Answer(value))
    {
      hide Enumerates;
      if value.seqNum.Some? && value.seqNum.value in offers && offers[value.seqNum.value].op == source {
        assert DueToAnswer(offers, value, source) == {value.seqNum.value};
        SendOffer(value.seqNum.value, Answer(value), order);
      } else {
        assert DueToAnswer(offers, value, source) == {};
        NothingSent(order);
      }
    }

    method FailOffer(value: Value, source: Address, order: seq<u32>)
      requires Enumerates(order, offers.Keys)
      modifies this
      ensures Model() == CompleteOffers(old(Model()), order, DueToRejection(old(offers), value, source),
                                        _ => Failed(NegotiationFailed))
    {
      hide Enumerates, Only;
      var id := value.seqNum;
      if id.None? {
        var sent := (entry: Entry<Address>) => entry.op == source;
        id := FindOnly(offers, order, sent);
        assert Choice(offers, sent) == OffersTo(offers, source);
        OnlyChooses(OffersTo(offers, source));
      }
      if id.Some? && id.value in offers && offers[id.value].op == source {
        assert DueToRejection(offers, value, source) == {id.value};
        SendOffer(id.value, Failed(NegotiationFailed), order);
      } else {
        assert DueToRejection(offers, value, source) == {};
        NothingSent(order);
      }
    }

    method FailOffersForDestination(destination: Address, order: seq<u32>)
      requires Enumerates(order, offers.Keys)
      modifies this
      ensures Model() == CompleteOffers(old(Model()), order, OffersTo(old(offers), destination),
                                        _ => Failed(NegotiationFailed))
    {
      hide Enumerates;
      var sent := (entry: Entry<Address>) => entry.op == destination;
      var failed := Collect(offers, order, sent);
      assert Choice(offers, sent) == OffersTo(offers, destination);
      offers, outcomes := SendAll(offers, failed, _ => Failed(NegotiationFailed), outcomes);
    }

    // ----- Applications ----------------------------------------------------

    /** Report what is no longer listed, and remember what is. */
    method PublishReceiverStatus(listed: seq<CastApp>, order: seq<Address>)
      requires Enumerates(order, apps.Keys)
      modifies this
      ensures Model() == Publish(old(Model()), listed, order)
    {
      hide Enumerates;
      var known := KnownApps(listed);
      ghost var gone := apps.Keys - known.Keys;
      for i := 0 to |order|
        invariant Model() == old(Model()).(events := events)
        invariant events == old(events) + StopEvents(apps, Listed(order[..i], gone))
      {
        AppVisited(apps, order, i, gone);
        if order[i] !in known {
          events := events + [ApplicationStopped(apps[order[i]])];
        }
      }
      assert order[..|order|] == order;
      apps := known;
      events := events + [StatusPublished(listed)];
    }

    /** An application's transport closed. */
    method TakeApp(transport: Address)
      modifies this
      ensures Model() == StopApp(old(Model()), transport)
    {
      if transport in apps {
        events := events + [ApplicationStopped(apps[transport])];
        apps := apps - {transport};
      }
    }

    // ----- Incoming messages -----------------------------------------------

    method DispatchProductInfoMessage(operation: ProductInfoOperation, message: Message, ghost order: seq<u32>)
      returns (end: Option<CloseReason>)
      requires Enumerates(order, productInfo.Keys)
      modifies this
      ensures DispatchProductInfo(old(Model()), operation, message, order) == After(end)
    {
      hide Enumerates, CompleteProductInfo, DueToProductInfo;
      if message.source != RECEIVER_ID || message.destination != SENDER_ID {
        return None;
      }
      if !message.payload.Json? {
        return Some(Error);
      }
      CompleteProductInfoRequest(operation, message.payload.value, order);
      return None;
    }

    method DispatchReceiverMessage(value: Value, orders: Orders) returns (end: Option<CloseReason>)
      requires Fits(orders, Model())
      modifies this
      ensures DispatchReceiver(old(Model()), value, orders) == After(end)
    {
      hide Enumerates, CompleteReceiver, DueToStatus, DueToAvailability, DueToError, Publish;
      end := None;
      match value.kind {
        case ReceiverStatus =>
          if value.status.None? {
            return Some(Error);
          }
          var listed := ParseListed(value.status.value);
          PublishReceiverStatus(listed, orders.apps);
          CompleteReceiverStatus(value, orders.receiver);
        case AppAvailability =>
          CompleteAvailability(value, orders.receiver);
        case LaunchError =>
          FailReceiverRequest(value, orders.receiver);
        case InvalidRequest =>
          FailReceiverRequest(value, orders.receiver);
        case _ =>
      }
    }

    method DispatchJsonMessage(message: Message, orders: Orders) returns (end: Option<CloseReason>)
      requires Fits(orders, Model())
      modifies this
      ensures DispatchJson(old(Model()), message, orders) == After(end)
    {
      hide Enumerates, CompleteOffers, DueToAnswer, DueToRejection, DispatchReceiver;
      if (message.namespace != Receiver && message.namespace != Webrtc) || message.payload.Binary? {
        return None;
      }
      if message.payload.BadJson? {
        return Some(Error);
      }
      var value := message.payload.value;
      end := None;
      if message.namespace == Receiver {
        if message.source == RECEIVER_ID {
          end := DispatchReceiverMessage(value, orders);
        }
      } else if value.kind == OfferAnswer {
        CompleteOffer(value, message.source, orders.offers);
      } else if value.kind == InvalidRequest {
        FailOffer(value, message.source, orders.offers);
      }
    }

    method ReceiveMessage(message: Message, now: nat, written: bool, orders: Orders)
      returns (end: Option<CloseReason>)
      requires Fits(orders, Model())
      modifies this
      ensures Receive(old(Model()), message, now, written, orders) == After(end)
    {
      hide Enumerates, CompleteOffers, OffersTo, DispatchJson, DispatchProductInfo, StopApp;
      var kind := KindOf(message);
      if message.namespace == Heartbeat {
        if kind == Ping || kind == Pong {
          lastHeartbeat := now;
        }
        return if kind == Ping && !written then Some(Error) else None;
      }
      if message.namespace == Connection && kind == Close {
        if message.source == RECEIVER_ID {
          return Some(PeerClosed);
        }
        TakeApp(message.source);
        FailOffersForDestination(message.source, orders.offers);
        return None;
      }
      if message.namespace == Discovery {
        end := DispatchProductInfoMessage(DeviceInfo, message, orders.productInfo);
      } else if message.namespace == Setup {
        end := DispatchProductInfoMessage(EurekaInfo, message, orders.productInfo);
      } else {
        end := DispatchJsonMessage(message, orders);
      }
    }

    // ----- Commands and the loop -------------------------------------------

    method AddReceiverRequest(operation: ReceiverOperation, token: Token)
      requires |receiver| < MAX_ID
      modifies this
      ensures Model() == AskReceiver(old(Model()), operation, token)
    {
      var id;
      id, nextRequest := AllocateId(nextRequest, receiver);
      receiver := receiver[id := Entry(operation, token)];
    }

    method AddProductInfoRequest(operation: ProductInfoOperation, token: Token)
      requires |productInfo| < MAX_ID
      modifies this
      ensures Model() == AskProductInfo(old(Model()), operation, token)
    {
      var id;
      id, nextProductInfo := AllocateId(nextProductInfo, productInfo);
      productInfo := productInfo[id := Entry(operation, token)];
    }

    method AddOffer(destination: Address, token: Token)
      requires |offers| < MAX_ID
      modifies this
      ensures Model() == Offer(old(Model()), destination, token)
    {
      var id;
      id, nextSequence := AllocateId(nextSequence, offers);
      offers := offers[id := Entry(destination, token)];
    }

    method PerformCommand(command: Command, written: bool) returns (end: Option<CloseReason>)
      requires |receiver| < MAX_ID && |productInfo| < MAX_ID && |offers| < MAX_ID
      modifies this
      ensures Perform(old(Model()), command, written) == After(end)
    {
      hide AskReceiver, AskProductInfo, Offer;
      end := if written then None else Some(Error);
      match command {
        case ReceiverRequest(operation, token) =>
          AddReceiverRequest(operation, token);
        case ProductInfoRequest(operation, token) =>
          AddProductInfoRequest(operation, token);
        case SendOffer(destination, token) =>
          AddOffer(destination, token);
        case SendFire(token) =>
          outcomes := outcomes + [Outcome(token, if written then Done else Failed(ConnectionLost))];
        case CloseRequest(token) =>
          outcomes := outcomes + [Outcome(token, Done)];
          end := Some(if written then Requested else Error);
        case HandleDropped =>
          end := Some(if written then Requested else Error);
      }
    }

    method HandleInput(input: Input, orders: Orders) returns (end: Option<CloseReason>)
      requires |receiver| < MAX_ID && |productInfo| < MAX_ID && |offers| < MAX_ID
      requires Fits(orders, Model())
      modifies this
      ensures Handle(old(Model()), input, orders) == After(end)
    {
      hide Receive, Perform, Fits;
      match input {
        case Incoming(message, now, written) =>
          end := ReceiveMessage(message, now, written, orders);
        case ReadFailed(endOfStream) =>
          end := Some(if endOfStream then PeerClosed else Error);
        case Issued(command, written) =>
          end := PerformCommand(command, written);
        case Tick(now, written) =>
          end := if now - lastHeartbeat >= HEARTBEAT_TIMEOUT then Some(HeartbeatTimeout)
                 else if written then None else Some(Error);
      }
    }

    /** Drop the entries whose caller has given up. */
    method RetainOpen(gone: set<Token>, orders: Orders)
      requires Fits(orders, Model())
      modifies this
      ensures Model() == Retain(old(Model()), gone, orders)
    {
      hide Enumerates, Listed, Outcomes, Remaining, Choice, GivenUp;
      RetainReceiver(gone, orders.receiver);
      RetainProductInfo(gone, orders.productInfo);
      RetainOffers(gone, orders.offers);
    }

    method RetainReceiver(gone: set<Token>, order: seq<u32>)
      requires Enumerates(order, receiver.Keys)
      modifies this
      ensures Model() == CompleteReceiver(old(Model()), order, GivenUp(old(receiver), gone), _ => Withdrawn)
    {
      hide Enumerates;
      var withdrawn := (entry: Entry<ReceiverOperation>) => entry.token in gone;
      assert Choice(receiver, withdrawn) == GivenUp(receiver, gone);
      var ids := Collect(receiver, order, withdrawn);
      receiver, outcomes := SendAll(receiver, ids, _ => Withdrawn, outcomes);
    }

    method RetainProductInfo(gone: set<Token>, order: seq<u32>)
      requires Enumerates(order, productInfo.Keys)
      modifies this
      ensures Model() == CompleteProductInfo(old(Model()), order, GivenUp(old(productInfo), gone), _ => Withdrawn)
    {
      hide Enumerates;
      var withdrawn := (entry: Entry<ProductInfoOperation>) => entry.token in gone;
      assert Choice(productInfo, withdrawn) == GivenUp(productInfo, gone);
      var ids := Collect(productInfo, order, withdrawn);
      productInfo, outcomes := SendAll(productInfo, ids, _ => Withdrawn, outcomes);
    }

    method RetainOffers(gone: set<Token>, order: seq<u32>)
      requires Enumerates(order, offers.Keys)
      modifies this
      ensures Model() == CompleteOffers(old(Model()), order, GivenUp(old(offers), gone), _ => Withdrawn)
    {
      hide Enumerates;
      var withdrawn := (entry: Entry<Address>) => entry.token in gone;
      assert Choice(offers, withdrawn) == GivenUp(offers, gone);
      var ids := Collect(offers, order, withdrawn);
      offers, outcomes := SendAll(offers, ids, _ => Withdrawn, outcomes);
    }

    /** Everything still pending fails. */
    method FailPending(orders: Orders)
      requires Fits(orders, Model())
      modifies this
      ensures Model() == FailAllPending(old(Model()), orders)
    {
      hide Enumerates;
      ListedAll(receiver, orders.receiver);
      ListedAll(productInfo, orders.productInfo);
      ListedAll(offers, orders.offers);
      receiver, outcomes := SendAll(receiver, orders.receiver, _ => Failed(ConnectionLost), outcomes);
      productInfo, outcomes := SendAll(productInfo, orders.productInfo, _ => Failed(ConnectionLost), outcomes);
      offers, outcomes := SendAll(offers, orders.offers, _ => Failed(ConnectionLost), outcomes);
    }

    /** What was handled, given how it ended. */
    ghost function After(end: Option<CloseReason>): Handled
      reads this
    {
      if end.None? then Continue(Model()) else Break(Model(), end.value)
    }

    /** One turn of the loop, and its end. */
    method Turn(step: Step)
      requires CanStep(Model(), step)
      modifies this
      ensures Model() == Next(old(Model()), step)
    {
      hide Retain, Handle, FailAllPending, Fits;
      RetainShrinks(Model(), step.gone, step.retain);
      RetainOpen(step.gone, step.retain);
      var end := HandleInput(step.input, step.handle);
      if end.Some? {
        FailPending(step.exit);
        events := events + [Closed(end.value)];
        closed := true;
      }
    }
  }

  /** The applications by transport. */
  method KnownApps(listed: seq<CastApp>) returns (known: map<Address, CastApp>)
    ensures known == ByTransport(listed)
  {
    known := map[];
    for i := 0 to |listed|
      invariant known == ByTransport(listed[..i])
    {
      assert listed[..i + 1][..i] == listed[..i];
      known := known[listed[i].transportId := listed[i]];
    }
    assert listed[..|listed|] == listed;
  }

  /** The applications with both identifiers. */
  method ParseListed(apps: seq<ListedApp>) returns (parsed: seq<CastApp>)
    ensures parsed == ParseApps(apps)
  {
    parsed := [];
    for i := 0 to |apps|
      invariant ParseApps(apps) == parsed + ParseApps(apps[i..])
    {
      assert apps[i..][1..] == apps[i + 1..];
      var app := ParseApp(apps[i]);
      if app.Some? {
        parsed := parsed + [app.value];
      }
    }
  }

  lemma {:induction false} ListedAll<Op>(table: Table<Op>, order: seq<u32>)
    requires Enumerates(order, table.Keys)
    ensures Listed(order, table.Keys) == order && Picks(table, order)
  {
    ListedSelf(order, table.Keys);
    ListedPicks(table, order, table.Keys);
  }

  lemma {:induction false} ListedSelf(order: seq<u32>, keys: set<u32>)
    requires forall k :: k in order ==> k in keys
    ensures Listed(order, keys) == order
  {
    if order != [] {
      ListedSelf(order[1..], keys);
    }
  }

  lemma AppVisited(apps: map<Address, CastApp>, order: seq<Address>, n: nat, gone: set<Address>)
    requires Enumerates(order, apps.Keys) && n < |order| && gone <= apps.Keys
    ensures order[n] in apps
    ensures StopEvents(apps, Listed(order[..n + 1], gone)) ==
            StopEvents(apps, Listed(order[..n], gone)) +
            if order[n] in gone then [ApplicationStopped(apps[order[n]])] else []
  {
    assert order[n] in order;
    assert order[..n + 1] == order[..n] + [order[n]];
    ListedAppend(order[..n], [order[n]], gone);
    assert [order[n]][1..] == [];
  }
}
