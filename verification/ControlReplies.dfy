/**
 Which pending requests a message on the control channel settles, said without
 the loop's lookups: by identifier, operation and route, or by one of the
 fallbacks for receivers that leave identifiers out.
 */
module ControlReplies {
  import opened Bytes
  import opened Pending
  import opened ControlModel

  /** A message completes a receiver request. */
  ghost predicate ReceiverMatch(table: Table<ReceiverOperation>, message: Message, id: u32)
    requires id in table
  {
    && message.namespace == Receiver && message.source == RECEIVER_ID && message.payload.Json?
    && var value, op := message.payload.value, table[id].op;
       match value.kind
       case ReceiverStatus =>
         && value.status.Some?
         && (if NamesRequest(table, value) then value.requestId == Some(id) else op.Launch? && Shows(value, op.appId))
       case AppAvailability => value.requestId == Some(id) && op.Availability?
       case LaunchError => Blames(table, value, id)
       case InvalidRequest => Blames(table, value, id)
       case _ => false
  }

  /** An error names the request, or names none and can be about no other. */
  ghost predicate Blames(table: Table<ReceiverOperation>, value: Value, id: u32)
    requires id in table
  {
    || value.requestId == Some(id)
    || (&& value.requestId.None? && MayBlame(table[id].op, value.appId)
        && forall other :: other in table && MayBlame(table[other].op, value.appId) ==> other == id)
  }

  function ReceiverReply(op: ReceiverOperation, value: Value): Reply {
    if value.kind == LaunchError || value.kind == InvalidRequest then FailureOf(op) else Answer(value)
  }

  function OperationOf(namespace: Namespace): Option<ProductInfoOperation> {
    match namespace
    case Discovery => Some(DeviceInfo)
    case Setup => Some(EurekaInfo)
    case _ => None
  }

  /** A message answers a product-information request: same route, operation and identifier. */
  ghost predicate ProductInfoMatch(table: Table<ProductInfoOperation>, message: Message, id: u32)
    requires id in table
  {
    && message.source == RECEIVER_ID && message.destination == SENDER_ID && message.payload.Json?
    && OperationOf(message.namespace) == Some(table[id].op)
    && RequestIdOf(table[id].op, message.payload.value) == Some(id)
  }

  /** A message from the application an offer went to settles it. */
  ghost predicate OfferMatch(table: Table<Address>, message: Message, id: u32)
    requires id in table
  {
    && table[id].op == message.source && message.payload.Json?
    && var value := message.payload.value;
       match message.namespace
       case Connection => value.kind == Close && message.source != RECEIVER_ID
       case Webrtc =>
         || (value.kind == OfferAnswer && value.seqNum == Some(id))
         || (&& value.kind == InvalidRequest
             && (|| value.seqNum == Some(id)
                 || (&& value.seqNum.None?
                     && forall other :: other in table && table[other].op == message.source ==> other == id)))
       case _ => false
  }

  function OfferReply(message: Message): Reply {
    if message.namespace == Webrtc && KindOf(message) == OfferAnswer then Answer(message.payload.value)
    else Failed(NegotiationFailed)
  }

  ghost function ReceiverMatches(s: State, message: Message): (due: set<u32>)
    ensures due <= s.receiver.Keys
  {
    set id | id in s.receiver && ReceiverMatch(s.receiver, message, id)
  }

  ghost function ProductInfoMatches(s: State, message: Message): (due: set<u32>)
    ensures due <= s.productInfo.Keys
  {
    set id | id in s.productInfo && ProductInfoMatch(s.productInfo, message, id)
  }

  ghost function OfferMatches(s: State, message: Message): (due: set<u32>)
    ensures due <= s.offers.Keys
  {
    set id | id in s.offers && OfferMatch(s.offers, message, id)
  }

  lemma OnlyIsUnique(ids: set<u32>, id: u32)
    ensures id in Only(ids) <==> id in ids && forall other :: other in ids ==> other == id
  {
    if id in ids {
      if forall other :: other in ids ==> other == id {
        assert ids == {id};
      } else {
        var other :| other in ids && other != id;
        assert |ids| == |ids - {id}| + 1;
        assert other in ids - {id};
      }
    }
  }

  // ----- The loop settles exactly the matching requests --------------------

  function ReceiverReplyTo(message: Message): ReceiverOperation -> Reply {
    op => if message.payload.Json? then ReceiverReply(op, message.payload.value) else Done
  }

  function ProductInfoReplyTo(message: Message): ProductInfoOperation -> Reply {
    op => if message.payload.Json? then ProductInfoReply(op, message.payload.value) else Done
  }

  function OfferReplyTo(message: Message): Address -> Reply { _ => OfferReply(message) }

  /** What each table's requests were told. */
  function ReceiverOutcomes(s: State, message: Message, order: seq<u32>, due: set<u32>): seq<Outcome<Reply>>
    requires due <= s.receiver.Keys
  {
    Outcomes(s.receiver, Listed(order, due), ReceiverReplyTo(message))
  }

  function ProductInfoOutcomes(s: State, message: Message, order: seq<u32>, due: set<u32>): seq<Outcome<Reply>>
    requires due <= s.productInfo.Keys
  {
    Outcomes(s.productInfo, Listed(order, due), ProductInfoReplyTo(message))
  }

  function OfferOutcomes(s: State, message: Message, order: seq<u32>, due: set<u32>): seq<Outcome<Reply>>
    requires due <= s.offers.Keys
  {
    Outcomes(s.offers, Listed(order, due), OfferReplyTo(message))
  }

  /** `after` is `s` with these requests, and no others, told what the message says. */
  ghost predicate Settles(s: State, after: State, message: Message, orders: Orders,
                          receiver: set<u32>, productInfo: set<u32>, offers: set<u32>)
    requires receiver <= s.receiver.Keys && productInfo <= s.productInfo.Keys && offers <= s.offers.Keys
  {
    && after.receiver == s.receiver - receiver
    && after.productInfo == s.productInfo - productInfo
    && after.offers == s.offers - offers
    && after.outcomes == s.outcomes
        + ReceiverOutcomes(s, message, orders.receiver, receiver)
        + ProductInfoOutcomes(s, message, orders.productInfo, productInfo)
        + OfferOutcomes(s, message, orders.offers, offers)
  }

  lemma RemainingListed<Op>(table: Table<Op>, order: seq<u32>, due: set<u32>)
    requires Enumerates(order, table.Keys) && due <= table.Keys
    ensures Remaining(table, Listed(order, due)) == table - due
  {
    assert (set id | id in Listed(order, due)) == due;
  }

  lemma {:induction false} ListedNothing(order: seq<u32>)
    ensures Listed(order, {}) == []
  {
    if order != [] {
      ListedNothing(order[1..]);
    }
  }

  lemma OutcomesAgree<Op>(table: Table<Op>, ids: seq<u32>, f: Op -> Reply, g: Op -> Reply)
    requires forall id :: id in ids ==> id in table && f(table[id].op) == g(table[id].op)
    ensures Outcomes(table, ids, f) == Outcomes(table, ids, g)
  {
  }

  lemma SettlesNothing(s: State, after: State, message: Message, orders: Orders)
    requires after.receiver == s.receiver && after.productInfo == s.productInfo && after.offers == s.offers
    requires after.outcomes == s.outcomes
    ensures Settles(s, after, message, orders, {}, {}, {})
  {
    ListedNothing(orders.receiver);
    ListedNothing(orders.productInfo);
    ListedNothing(orders.offers);
    assert s.receiver - {} == s.receiver && s.productInfo - {} == s.productInfo && s.offers - {} == s.offers;
  }

  /** Settling receiver requests after other fields changed. */
  lemma SettlesReceiver(s: State, t: State, message: Message, orders: Orders, due: set<u32>,
                        reply: ReceiverOperation -> Reply)
    requires t.receiver == s.receiver && t.productInfo == s.productInfo && t.offers == s.offers
    requires t.outcomes == s.outcomes && Enumerates(orders.receiver, s.receiver.Keys) && due <= s.receiver.Keys
    requires forall id :: id in due ==> reply(s.receiver[id].op) == ReceiverReplyTo(message)(s.receiver[id].op)
    ensures Settles(s, CompleteReceiver(t, orders.receiver, due, reply), message, orders, due, {}, {})
  {
    hide Listed, Enumerates, ReceiverReply, ProductInfoReply, OfferReply;
    ListedNothing(orders.productInfo);
    ListedNothing(orders.offers);
    RemainingListed(s.receiver, orders.receiver, due);
    OutcomesAgree(s.receiver, Listed(orders.receiver, due), reply, ReceiverReplyTo(message));
    assert s.productInfo - {} == s.productInfo && s.offers - {} == s.offers;
  }

  lemma SettlesProductInfo(s: State, message: Message, orders: Orders, due: set<u32>,
                           reply: ProductInfoOperation -> Reply)
    requires Enumerates(orders.productInfo, s.productInfo.Keys) && due <= s.productInfo.Keys
    requires forall id :: id in due ==> reply(s.productInfo[id].op) == ProductInfoReplyTo(message)(s.productInfo[id].op)
    ensures Settles(s, CompleteProductInfo(s, orders.productInfo, due, reply), message, orders, {}, due, {})
  {
    hide Listed, Enumerates, ReceiverReply, ProductInfoReply, OfferReply;
    ListedNothing(orders.receiver);
    ListedNothing(orders.offers);
    RemainingListed(s.productInfo, orders.productInfo, due);
    OutcomesAgree(s.productInfo, Listed(orders.productInfo, due), reply, ProductInfoReplyTo(message));
    assert s.receiver - {} == s.receiver && s.offers - {} == s.offers;
  }

  lemma SettlesOffers(s: State, t: State, message: Message, orders: Orders, due: set<u32>, reply: Address -> Reply)
    requires t.receiver == s.receiver && t.productInfo == s.productInfo && t.offers == s.offers
    requires t.outcomes == s.outcomes && Enumerates(orders.offers, s.offers.Keys) && due <= s.offers.Keys
    requires forall id :: id in due ==> reply(s.offers[id].op) == OfferReply(message)
    ensures Settles(s, CompleteOffers(t, orders.offers, due, reply), message, orders, {}, {}, due)
  {
    hide Listed, Enumerates, ReceiverReply, ProductInfoReply, OfferReply;
    ListedNothing(orders.receiver);
    ListedNothing(orders.productInfo);
    RemainingListed(s.offers, orders.offers, due);
    OutcomesAgree(s.offers, Listed(orders.offers, due), reply, OfferReplyTo(message));
    assert s.receiver - {} == s.receiver && s.productInfo - {} == s.productInfo;
  }

  // ----- Lookups find the matching requests --------------------------------

  /** The only suspect is the one beside whom there is no other. */
  lemma OnlySuspect(table: Table<ReceiverOperation>, appId: Option<string>, id: u32)
    requires id in table
    ensures id in Only(Suspects(table, appId)) <==>
      && MayBlame(table[id].op, appId)
      && forall other :: other in table && MayBlame(table[other].op, appId) ==> other == id
  {
    hide MayBlame, Only;
    OnlyIsUnique(Suspects(table, appId), id);
    assert forall other :: other in table && MayBlame(table[other].op, appId) ==> other in Suspects(table, appId);
  }

  lemma OnlyOffer(table: Table<Address>, destination: Address, id: u32)
    requires id in table
    ensures id in Only(OffersTo(table, destination)) <==>
      && table[id].op == destination
      && forall other :: other in table && table[other].op == destination ==> other == id
  {
    hide Only;
    OnlyIsUnique(OffersTo(table, destination), id);
    assert forall other :: other in table && table[other].op == destination ==> other in OffersTo(table, destination);
  }

  lemma ErrorMatches(table: Table<ReceiverOperation>, value: Value)
    ensures DueToError(table, value) == set id | id in table && Blames(table, value, id)
  {
    hide Only, MayBlame, Suspects;
    forall id | id in table
      ensures id in DueToError(table, value) <==> Blames(table, value, id)
    {
      OnlySuspect(table, value.appId, id);
    }
  }

  /** The lookups for one kind of receiver message. */
  ghost function DueToReceiver(table: Table<ReceiverOperation>, value: Value): (due: set<u32>)
    ensures due <= table.Keys
  {
    match value.kind
    case ReceiverStatus => if value.status.None? then {} else DueToStatus(table, value)
    case AppAvailability => DueToAvailability(table, value)
    case LaunchError => DueToError(table, value)
    case InvalidRequest => DueToError(table, value)
    case _ => {}
  }

  lemma ReceiverLookup(s: State, message: Message)
    requires message.namespace == Receiver && message.source == RECEIVER_ID && message.payload.Json?
    ensures ReceiverMatches(s, message) == DueToReceiver(s.receiver, message.payload.value)
  {
    hide DueToError, Blames, Shows;
    ErrorMatches(s.receiver, message.payload.value);
    assert forall id :: id in ReceiverMatches(s, message) <==> id in DueToReceiver(s.receiver, message.payload.value);
  }

  lemma OfferLookup(s: State, message: Message)
    requires message.namespace == Webrtc && message.payload.Json?
    ensures
      var value := message.payload.value;
      OfferMatches(s, message) ==
      match value.kind
      case OfferAnswer => DueToAnswer(s.offers, value, message.source)
      case InvalidRequest => DueToRejection(s.offers, value, message.source)
      case _ => {}
  {
    hide Only, OffersTo;
    var value := message.payload.value;
    forall id | id in s.offers
      ensures id in Only(OffersTo(s.offers, message.source)) <==>
              s.offers[id].op == message.source &&
              forall other :: other in s.offers && s.offers[other].op == message.source ==> other == id
    {
      OnlyOffer(s.offers, message.source, id);
    }
    OnlyChooses(OffersTo(s.offers, message.source));
  }

  lemma OnlyChooses(ids: set<u32>)
    ensures Only(ids) <= ids
  {
  }

  lemma ReceiverSettles(s: State, message: Message, orders: Orders)
    requires Fits(orders, s)
    requires message.namespace == Receiver && message.source == RECEIVER_ID && message.payload.Json?
    ensures
      var after := DispatchReceiver(s, message.payload.value, orders).state;
      Settles(s, after, message, orders, ReceiverMatches(s, message), {}, {})
  {
    hide Settles, Enumerates, DueToStatus, DueToAvailability, DueToError, CompleteReceiver, ReceiverMatches, ParseApps,
         ByTransport, StopEvents, Listed;
    ReceiverLookup(s, message);
    var value := message.payload.value;
    var due := DueToReceiver(s.receiver, value);
    match value.kind
    case ReceiverStatus =>
      if value.status.Some? {
        var published := Publish(s, ParseApps(value.status.value), orders.apps);
        SettlesReceiver(s, published, message, orders, due, _ => Answer(value));
      } else {
        SettlesNothing(s, s, message, orders);
      }
    case AppAvailability => SettlesReceiver(s, s, message, orders, due, _ => Answer(value));
    case LaunchError => SettlesReceiver(s, s, message, orders, due, op => FailureOf(op));
    case InvalidRequest => SettlesReceiver(s, s, message, orders, due, op => FailureOf(op));
    case _ => SettlesNothing(s, s, message, orders);
  }

  lemma WebrtcSettles(s: State, message: Message, orders: Orders)
    requires Fits(orders, s) && message.namespace == Webrtc && message.payload.Json?
    ensures
      var after := DispatchWebrtc(s, message.payload.value, message.source, orders.offers);
      Settles(s, after, message, orders, {}, {}, OfferMatches(s, message))
  {
    hide Settles, Enumerates, DueToAnswer, DueToRejection, CompleteOffers, OfferMatches;
    OfferLookup(s, message);
    var value, due := message.payload.value, OfferMatches(s, message);
    match value.kind
    case OfferAnswer => SettlesOffers(s, s, message, orders, due, _ => Answer(value));
    case InvalidRequest => SettlesOffers(s, s, message, orders, due, _ => Failed(NegotiationFailed));
    case _ => SettlesNothing(s, s, message, orders);
  }

  lemma ClosedSettles(s: State, message: Message, orders: Orders)
    requires Fits(orders, s) && message.namespace == Connection && KindOf(message) == Close
    ensures
      var after := ConnectionClosed(s, message.source, orders.offers).state;
      Settles(s, after, message, orders, {}, {}, OfferMatches(s, message))
  {
    hide Settles, Enumerates, CompleteOffers, Listed;
    var due := OffersTo(s.offers, message.source);
    if message.source == RECEIVER_ID {
      assert OfferMatches(s, message) == {};
      SettlesNothing(s, s, message, orders);
    } else {
      assert OfferMatches(s, message) == due;
      SettlesOffers(s, StopApp(s, message.source), message, orders, due, _ => Failed(NegotiationFailed));
    }
  }

  lemma ProductInfoSettles(s: State, message: Message, orders: Orders)
    requires Fits(orders, s) && OperationOf(message.namespace).Some?
    ensures
      var after := DispatchProductInfo(s, OperationOf(message.namespace).value, message, orders.productInfo).state;
      Settles(s, after, message, orders, {}, ProductInfoMatches(s, message), {})
  {
    hide Settles, Enumerates, CompleteProductInfo;
    var operation := OperationOf(message.namespace).value;
    if message.source != RECEIVER_ID || message.destination != SENDER_ID || !message.payload.Json? {
      assert ProductInfoMatches(s, message) == {};
      SettlesNothing(s, s, message, orders);
    } else {
      var value := message.payload.value;
      var due := DueToProductInfo(s.productInfo, operation, value);
      assert ProductInfoMatches(s, message) == due;
      SettlesProductInfo(s, message, orders, due, op => ProductInfoReply(op, value));
    }
  }

  /** A message can match in one table only. */
  lemma OneTable(s: State, message: Message)
    ensures message.namespace != Receiver || message.source != RECEIVER_ID || !message.payload.Json? ==>
      ReceiverMatches(s, message) == {}
    ensures OperationOf(message.namespace).None? ==> ProductInfoMatches(s, message) == {}
    ensures !message.payload.Json? ==> OfferMatches(s, message) == {}
    ensures message.namespace != Webrtc && message.namespace != Connection ==> OfferMatches(s, message) == {}
    ensures message.namespace == Connection && KindOf(message) != Close ==> OfferMatches(s, message) == {}
  {
    hide Blames, NamesRequest;
  }

  /**
   Correlation: in every state and for every message, exactly the matching
   requests leave their tables, and each is told once what the message means for
   it. Nothing else is completed and nothing else is told anything.
   */
  lemma RepliesAreExact(s: State, message: Message, now: nat, written: bool, orders: Orders)
    requires Fits(orders, s)
    ensures
      Settles(s, Receive(s, message, now, written, orders).state, message, orders,
              ReceiverMatches(s, message), ProductInfoMatches(s, message), OfferMatches(s, message))
  {
    hide Settles, Fits, ReceiverMatches, ProductInfoMatches, OfferMatches, DispatchReceiver, DispatchWebrtc,
         DispatchProductInfo, ConnectionClosed;
    OneTable(s, message);
    SettlesNothing(s, s, message, orders);
    match message.namespace
    case Heartbeat => SettlesNothing(s, s.(lastHeartbeat := now), message, orders);
    case Discovery => ProductInfoSettles(s, message, orders);
    case Setup => ProductInfoSettles(s, message, orders);
    case Connection =>
      if KindOf(message) == Close {
        ClosedSettles(s, message, orders);
      }
    case Receiver =>
      if message.payload.Json? && message.source == RECEIVER_ID {
        ReceiverSettles(s, message, orders);
      }
    case Webrtc =>
      if message.payload.Json? {
        WebrtcSettles(s, message, orders);
      }
    case OtherNamespace =>
  }

  // ----- Where a reply comes from ------------------------------------------

  /** The message tells some matching request what it means for it. */
  ghost predicate Told(s: State, message: Message, outcome: Outcome<Reply>) {
    || (exists id :: id in s.receiver && ReceiverMatch(s.receiver, message, id)
          && outcome == Outcome(s.receiver[id].token, ReceiverReply(s.receiver[id].op, message.payload.value)))
    || (exists id :: id in s.productInfo && ProductInfoMatch(s.productInfo, message, id)
          && outcome == Outcome(s.productInfo[id].token, ProductInfoReply(s.productInfo[id].op, message.payload.value)))
    || (exists id :: id in s.offers && OfferMatch(s.offers, message, id)
          && outcome == Outcome(s.offers[id].token, OfferReply(message)))
  }

  lemma ReceiverTold(s: State, message: Message, order: seq<u32>, i: nat)
    requires i < |ReceiverOutcomes(s, message, order, ReceiverMatches(s, message))|
    ensures Told(s, message, ReceiverOutcomes(s, message, order, ReceiverMatches(s, message))[i])
  {
    hide ReceiverMatch, ReceiverReply, Listed;
    var id := Listed(order, ReceiverMatches(s, message))[i];
    assert id in Listed(order, ReceiverMatches(s, message));
    JsonOnly(s, message, id);
  }

  lemma JsonOnly(s: State, message: Message, id: u32)
    ensures id in ReceiverMatches(s, message) ==> message.payload.Json?
    ensures id in ProductInfoMatches(s, message) ==> message.payload.Json?
  {
  }

  lemma ProductInfoTold(s: State, message: Message, order: seq<u32>, i: nat)
    requires i < |ProductInfoOutcomes(s, message, order, ProductInfoMatches(s, message))|
    ensures Told(s, message, ProductInfoOutcomes(s, message, order, ProductInfoMatches(s, message))[i])
  {
    hide ProductInfoMatch, ProductInfoReply, Listed;
    var id := Listed(order, ProductInfoMatches(s, message))[i];
    assert id in Listed(order, ProductInfoMatches(s, message));
    JsonOnly(s, message, id);
  }

  lemma OfferTold(s: State, message: Message, order: seq<u32>, i: nat)
    requires i < |OfferOutcomes(s, message, order, OfferMatches(s, message))|
    ensures Told(s, message, OfferOutcomes(s, message, order, OfferMatches(s, message))[i])
  {
    hide OfferMatch, OfferReply, Listed;
    var id := Listed(order, OfferMatches(s, message))[i];
    assert id in Listed(order, OfferMatches(s, message));
  }

  /** Everything a message puts into reply channels is told to a matching request. */
  lemma NewRepliesAreTold(s: State, message: Message, now: nat, written: bool, orders: Orders, i: nat)
    requires Fits(orders, s)
    requires |s.outcomes| <= i < |Receive(s, message, now, written, orders).state.outcomes|
    ensures s.outcomes <= Receive(s, message, now, written, orders).state.outcomes
    ensures Told(s, message, Receive(s, message, now, written, orders).state.outcomes[i])
  {
    hide Told, Receive, ReceiverMatches, ProductInfoMatches, OfferMatches, ReceiverOutcomes, ProductInfoOutcomes,
         OfferOutcomes, Fits;
    RepliesAreExact(s, message, now, written, orders);
    var r := ReceiverOutcomes(s, message, orders.receiver, ReceiverMatches(s, message));
    var p := ProductInfoOutcomes(s, message, orders.productInfo, ProductInfoMatches(s, message));
    var o := OfferOutcomes(s, message, orders.offers, OfferMatches(s, message));
    var k := i - |s.outcomes|;
    if k < |r| {
      ReceiverTold(s, message, orders.receiver, k);
    } else if k < |r| + |p| {
      ProductInfoTold(s, message, orders.productInfo, k - |r|);
    } else {
      OfferTold(s, message, orders.offers, k - |r| - |p|);
    }
  }

  /** Some pending entry waits on this channel. */
  ghost predicate WaitedOn(s: State, token: Token) {
    || (exists id :: id in s.receiver && s.receiver[id].token == token)
    || (exists id :: id in s.productInfo && s.productInfo[id].token == token)
    || (exists id :: id in s.offers && s.offers[id].token == token)
  }

  /** A command that is answered at once, and with what. */
  ghost predicate AnsweredAtOnce(input: Input, outcome: Outcome<Reply>) {
    && input.Issued?
    && match input.command
       case SendFire(token) => outcome == Outcome(token, if input.written then Done else Failed(ConnectionLost))
       case CloseRequest(token) => outcome == Outcome(token, Done)
       case _ => false
  }

  /**
   Why something was put into a reply channel in this turn: its caller had given
   up on a pending request; its own command was carried out; a message told a
   matching request; or the loop ended with the request still pending.
   */
  ghost predicate Explained(s: State, step: Step, outcome: Outcome<Reply>) {
    var retained := Retain(s, step.gone, step.retain);
    var handled := Handle(retained, step.input, step.handle);
    || (outcome.result == Withdrawn && outcome.token in step.gone && WaitedOn(s, outcome.token))
    || AnsweredAtOnce(step.input, outcome)
    || (step.input.Incoming? && Told(retained, step.input.message, outcome))
    || (handled.Break? && outcome.result == Failed(ConnectionLost) && WaitedOn(handled.state, outcome.token))
  }

  /** `after` extends the log of `s` by this result, for channels waited on in `s`. */
  ghost predicate Extends(s: State, after: seq<Outcome<Reply>>, result: Reply) {
    && s.outcomes <= after
    && forall i :: |s.outcomes| <= i < |after| ==> after[i].result == result && WaitedOn(s, after[i].token)
  }

  /** Some entry of `due` was told this. */
  ghost predicate ToldTo<Op>(table: Table<Op>, due: set<u32>, reply: Op -> Reply, outcome: Outcome<Reply>)
    requires due <= table.Keys
  {
    exists id :: id in due && outcome == Outcome(table[id].token, reply(table[id].op))
  }

  lemma OutcomesAreTold<Op>(log: seq<Outcome<Reply>>, table: Table<Op>, order: seq<u32>, due: set<u32>,
                            reply: Op -> Reply)
    requires due <= table.Keys
    ensures
      var after := log + Outcomes(table, Listed(order, due), reply);
      log <= after && forall i :: |log| <= i < |after| ==> ToldTo(table, due, reply, after[i])
  {
    hide Listed;
    var ids := Listed(order, due);
    var after := log + Outcomes(table, ids, reply);
    forall i | |log| <= i < |after|
      ensures ToldTo(table, due, reply, after[i])
    {
      assert ids[i - |log|] in ids;
    }
  }

  lemma RetainWithdraws(s: State, gone: set<Token>, orders: Orders)
    ensures Extends(s, Retain(s, gone, orders).outcomes, Withdrawn)
    ensures forall i :: |s.outcomes| <= i < |Retain(s, gone, orders).outcomes| ==>
              Retain(s, gone, orders).outcomes[i].token in gone
  {
    hide Listed, Outcomes;
    var r, p, o := GivenUp(s.receiver, gone), GivenUp(s.productInfo, gone), GivenUp(s.offers, gone);
    var s1 := CompleteReceiver(s, orders.receiver, r, _ => Withdrawn);
    var s2 := CompleteProductInfo(s1, orders.productInfo, p, _ => Withdrawn);
    OutcomesAreTold(s.outcomes, s.receiver, orders.receiver, r, _ => Withdrawn);
    OutcomesAreTold(s1.outcomes, s.productInfo, orders.productInfo, p, _ => Withdrawn);
    OutcomesAreTold(s2.outcomes, s.offers, orders.offers, o, _ => Withdrawn);
  }

  lemma ExitFails(s: State, reason: CloseReason, orders: Orders)
    ensures Extends(s, Exit(s, reason, orders).outcomes, Failed(ConnectionLost))
  {
    hide Listed, Outcomes;
    var r, p, o := s.receiver.Keys, s.productInfo.Keys, s.offers.Keys;
    var s1 := CompleteReceiver(s, orders.receiver, r, _ => Failed(ConnectionLost));
    var s2 := CompleteProductInfo(s1, orders.productInfo, p, _ => Failed(ConnectionLost));
    OutcomesAreTold(s.outcomes, s.receiver, orders.receiver, r, _ => Failed(ConnectionLost));
    OutcomesAreTold(s1.outcomes, s.productInfo, orders.productInfo, p, _ => Failed(ConnectionLost));
    OutcomesAreTold(s2.outcomes, s.offers, orders.offers, o, _ => Failed(ConnectionLost));
  }

  /** What handling one input may put into reply channels. */
  lemma HandleReplies(s: State, input: Input, orders: Orders, i: nat)
    requires Fits(orders, s)
    requires |s.outcomes| <= i < |Handle(s, input, orders).state.outcomes|
    ensures s.outcomes <= Handle(s, input, orders).state.outcomes
    ensures
      var outcome := Handle(s, input, orders).state.outcomes[i];
      if input.Incoming? then Told(s, input.message, outcome) else AnsweredAtOnce(input, outcome)
  {
    hide Receive, Told, Fits;
    if input.Incoming? {
      NewRepliesAreTold(s, input.message, input.now, input.written, orders, i);
    }
  }

  lemma HandleExtends(s: State, input: Input, orders: Orders)
    requires Fits(orders, s)
    ensures s.outcomes <= Handle(s, input, orders).state.outcomes
  {
    hide Receive, Fits;
    if input.Incoming? {
      ReceiveExtends(s, input.message, input.now, input.written, orders);
    }
  }

  lemma ReceiveExtends(s: State, message: Message, now: nat, written: bool, orders: Orders)
    requires Fits(orders, s)
    ensures s.outcomes <= Receive(s, message, now, written, orders).state.outcomes
  {
    hide Receive, ReceiverMatches, ProductInfoMatches, OfferMatches, ReceiverOutcomes, ProductInfoOutcomes,
         OfferOutcomes, Fits;
    RepliesAreExact(s, message, now, written, orders);
  }

  lemma NextReplies(s: State, step: Step, i: nat)
    requires CanStep(s, step) && i < |Next(s, step).outcomes|
    ensures s.outcomes <= Next(s, step).outcomes
    ensures i >= |s.outcomes| ==> Explained(s, step, Next(s, step).outcomes[i])
  {
    hide Retain, Handle, Exit, Fits, Told, WaitedOn, AnsweredAtOnce;
    var retained := Retain(s, step.gone, step.retain);
    RetainWithdraws(s, step.gone, step.retain);
    var handled := Handle(retained, step.input, step.handle);
    HandleExtends(retained, step.input, step.handle);
    if |retained.outcomes| <= i < |handled.state.outcomes| {
      HandleReplies(retained, step.input, step.handle, i);
    }
    if handled.Break? {
      ExitFails(handled.state, handled.reason, step.exit);
    }
  }

  /**
   Provenance: whatever stands in a reply channel after any run was put there in
   some turn for one of the stated reasons: the caller had given up, its own
   command was carried out at once, a message matched the request, or the loop
   ended.
   */
  lemma {:induction false} EveryReplyIsExplained(now: nat, steps: seq<Step>, i: nat)
    requires CanRun(Initial(now), steps) && i < |Run(Initial(now), steps).outcomes|
    ensures
      var outcome := Run(Initial(now), steps).outcomes[i];
      exists k :: 0 <= k < |steps| && Explained(Run(Initial(now), steps[..k]), steps[k], outcome)
  {
    hide CanStep, Next, Explained;
    if steps != [] {
      var last := |steps| - 1;
      var before := steps[..last];
      NextReplies(Run(Initial(now), before), steps[last], i);
      if i < |Run(Initial(now), before).outcomes| {
        EveryReplyIsExplained(now, before, i);
        var k :| 0 <= k < last &&
          Explained(Run(Initial(now), before[..k]), before[k], Run(Initial(now), before).outcomes[i]);
        assert before[..k] == steps[..k];
        assert Explained(Run(Initial(now), steps[..k]), steps[k], Run(Initial(now), steps).outcomes[i]);
      } else {
        assert Explained(Run(Initial(now), steps[..last]), steps[last], Run(Initial(now), steps).outcomes[i]);
      }
    }
  }
}
