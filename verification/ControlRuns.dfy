/**
 What holds over every run of the control loop: each request handed over is
 pending, answered once or withdrawn, and none is left when the loop ends.
 */
module ControlRuns {
  import opened Bytes
  import opened Pending
  import opened RequestIds
  import opened ControlModel

  // ----- Every request is accounted for ------------------------------------

  /** How many entries wait on a reply channel, and how often something was put into it. */
  ghost function Balance(s: State, token: Token): nat {
    Waiting(s.receiver, token) + Waiting(s.productInfo, token) + Waiting(s.offers, token) + Logged(s.outcomes, token)
  }

  /** How often this turn hands a reply channel to the loop. */
  function HandedOver(input: Input, token: Token): nat {
    if input.Issued? && !input.command.HandleDropped? && input.command.token == token then 1 else 0
  }

  function HandedOverIn(steps: seq<Step>, token: Token): nat {
    if steps == [] then 0
    else HandedOverIn(steps[..|steps| - 1], token) + HandedOver(steps[|steps| - 1].input, token)
  }

  lemma BalanceIgnores(s: State, t: State, token: Token)
    requires t.receiver == s.receiver && t.productInfo == s.productInfo && t.offers == s.offers
    requires t.outcomes == s.outcomes
    ensures Balance(t, token) == Balance(s, token)
  {
  }

  /** Listing chosen entries picks each once. */
  lemma ListedPicks<Op>(table: Table<Op>, order: seq<u32>, due: set<u32>)
    requires Enumerates(order, table.Keys) && due <= table.Keys
    ensures Picks(table, Listed(order, due))
  {
    ListedEnumerates(order, table.Keys, due);
  }

  lemma CompleteReceiverConserves(s: State, order: seq<u32>, due: set<u32>, reply: ReceiverOperation -> Reply,
                                  token: Token)
    requires due <= s.receiver.Keys && Enumerates(order, s.receiver.Keys)
    ensures Balance(CompleteReceiver(s, order, due, reply), token) == Balance(s, token)
  {
    hide Waiting, Logged, Outcomes, Enumerates;
    ListedPicks(s.receiver, order, due);
    CompletingConserves(s.receiver, Listed(order, due), reply, token);
    LoggedAppend(s.outcomes, Outcomes(s.receiver, Listed(order, due), reply), token);
  }

  lemma CompleteProductInfoConserves(s: State, order: seq<u32>, due: set<u32>, reply: ProductInfoOperation -> Reply,
                                     token: Token)
    requires due <= s.productInfo.Keys && Enumerates(order, s.productInfo.Keys)
    ensures Balance(CompleteProductInfo(s, order, due, reply), token) == Balance(s, token)
  {
    hide Waiting, Logged, Outcomes, Enumerates;
    ListedPicks(s.productInfo, order, due);
    CompletingConserves(s.productInfo, Listed(order, due), reply, token);
    LoggedAppend(s.outcomes, Outcomes(s.productInfo, Listed(order, due), reply), token);
  }

  lemma CompleteOffersConserves(s: State, order: seq<u32>, due: set<u32>, reply: Address -> Reply, token: Token)
    requires due <= s.offers.Keys && Enumerates(order, s.offers.Keys)
    ensures Balance(CompleteOffers(s, order, due, reply), token) == Balance(s, token)
  {
    hide Waiting, Logged, Outcomes, Enumerates;
    ListedPicks(s.offers, order, due);
    CompletingConserves(s.offers, Listed(order, due), reply, token);
    LoggedAppend(s.outcomes, Outcomes(s.offers, Listed(order, due), reply), token);
  }

  lemma RetainConserves(s: State, gone: set<Token>, orders: Orders, token: Token)
    requires Fits(orders, s)
    ensures Balance(Retain(s, gone, orders), token) == Balance(s, token)
  {
    hide Balance, Enumerates, Listed, Outcomes, Remaining, GivenUp;
    var s1 := CompleteReceiver(s, orders.receiver, GivenUp(s.receiver, gone), _ => Withdrawn);
    var s2 := CompleteProductInfo(s1, orders.productInfo, GivenUp(s.productInfo, gone), _ => Withdrawn);
    CompleteReceiverConserves(s, orders.receiver, GivenUp(s.receiver, gone), _ => Withdrawn, token);
    CompleteProductInfoConserves(s1, orders.productInfo, GivenUp(s.productInfo, gone), _ => Withdrawn, token);
    CompleteOffersConserves(s2, orders.offers, GivenUp(s.offers, gone), _ => Withdrawn, token);
  }

  lemma FailAllConserves(s: State, orders: Orders, token: Token)
    requires Fits(orders, s)
    ensures Balance(FailAllPending(s, orders), token) == Balance(s, token)
  {
    hide Balance, Enumerates, Listed, Outcomes, Remaining;
    var s1 := CompleteReceiver(s, orders.receiver, s.receiver.Keys, _ => Failed(ConnectionLost));
    var s2 := CompleteProductInfo(s1, orders.productInfo, s.productInfo.Keys, _ => Failed(ConnectionLost));
    CompleteReceiverConserves(s, orders.receiver, s.receiver.Keys, _ => Failed(ConnectionLost), token);
    CompleteProductInfoConserves(s1, orders.productInfo, s.productInfo.Keys, _ => Failed(ConnectionLost), token);
    CompleteOffersConserves(s2, orders.offers, s.offers.Keys, _ => Failed(ConnectionLost), token);
  }

  lemma EmptiedTable<Op>(table: Table<Op>, order: seq<u32>)
    requires Enumerates(order, table.Keys)
    ensures Remaining(table, Listed(order, table.Keys)) == map[]
  {
    assert forall id :: id in table ==> id in Listed(order, table.Keys);
  }

  /** Nothing is pending once the loop has ended. */
  lemma NothingIsLeft(s: State, reason: CloseReason, orders: Orders)
    requires Fits(orders, s)
    ensures
      var after := Exit(s, reason, orders);
      after.closed && after.receiver == map[] && after.productInfo == map[] && after.offers == map[]
  {
    hide Enumerates, Listed, Outcomes, Remaining;
    EmptiedTable(s.receiver, orders.receiver);
    EmptiedTable(s.productInfo, orders.productInfo);
    EmptiedTable(s.offers, orders.offers);
  }

  lemma DispatchReceiverConserves(s: State, value: Value, orders: Orders, token: Token)
    requires Fits(orders, s)
    ensures Balance(DispatchReceiver(s, value, orders).state, token) == Balance(s, token)
  {
    hide Balance, Enumerates, CompleteReceiver, DueToStatus, DueToAvailability, DueToError, Listed, ParseApps,
         ByTransport;
    match value.kind
    case ReceiverStatus =>
      if value.status.Some? {
        var published := Publish(s, ParseApps(value.status.value), orders.apps);
        BalanceIgnores(s, published, token);
        CompleteReceiverConserves(published, orders.receiver, DueToStatus(s.receiver, value), _ => Answer(value),
                                  token);
      }
    case AppAvailability =>
      CompleteReceiverConserves(s, orders.receiver, DueToAvailability(s.receiver, value), _ => Answer(value), token);
    case LaunchError =>
      CompleteReceiverConserves(s, orders.receiver, DueToError(s.receiver, value), op => FailureOf(op), token);
    case InvalidRequest =>
      CompleteReceiverConserves(s, orders.receiver, DueToError(s.receiver, value), op => FailureOf(op), token);
    case _ =>
  }

  lemma DispatchWebrtcConserves(s: State, value: Value, source: Address, order: seq<u32>, token: Token)
    requires Enumerates(order, s.offers.Keys)
    ensures Balance(DispatchWebrtc(s, value, source, order), token) == Balance(s, token)
  {
    hide Balance, Enumerates, CompleteOffers, DueToAnswer, DueToRejection;
    match value.kind
    case OfferAnswer =>
      CompleteOffersConserves(s, order, DueToAnswer(s.offers, value, source), _ => Answer(value), token);
    case InvalidRequest =>
      CompleteOffersConserves(s, order, DueToRejection(s.offers, value, source), _ => Failed(NegotiationFailed), token);
    case _ =>
  }

  lemma ConnectionClosedConserves(s: State, source: Address, order: seq<u32>, token: Token)
    requires Enumerates(order, s.offers.Keys)
    ensures Balance(ConnectionClosed(s, source, order).state, token) == Balance(s, token)
  {
    hide Balance, Enumerates, CompleteOffers, OffersTo;
    var stopped := StopApp(s, source);
    BalanceIgnores(s, stopped, token);
    CompleteOffersConserves(stopped, order, OffersTo(s.offers, source), _ => Failed(NegotiationFailed), token);
  }

  lemma DispatchProductInfoConserves(s: State, operation: ProductInfoOperation, message: Message, order: seq<u32>,
                                     token: Token)
    requires Enumerates(order, s.productInfo.Keys)
    ensures Balance(DispatchProductInfo(s, operation, message, order).state, token) == Balance(s, token)
  {
    hide Balance, Enumerates, CompleteProductInfo, DueToProductInfo, ProductInfoReply;
    if message.payload.Json? {
      var value := message.payload.value;
      CompleteProductInfoConserves(s, order, DueToProductInfo(s.productInfo, operation, value),
                                   op => ProductInfoReply(op, value), token);
    }
  }

  lemma ReceiveConserves(s: State, message: Message, now: nat, written: bool, orders: Orders, token: Token)
    requires Fits(orders, s)
    ensures Balance(Receive(s, message, now, written, orders).state, token) == Balance(s, token)
  {
    hide Balance, Enumerates, DispatchReceiver, DispatchWebrtc, DispatchProductInfo, ConnectionClosed;
    BalanceIgnores(s, s.(lastHeartbeat := now), token);
    DispatchProductInfoConserves(s, DeviceInfo, message, orders.productInfo, token);
    DispatchProductInfoConserves(s, EurekaInfo, message, orders.productInfo, token);
    ConnectionClosedConserves(s, message.source, orders.offers, token);
    if message.payload.Json? {
      DispatchReceiverConserves(s, message.payload.value, orders, token);
      DispatchWebrtcConserves(s, message.payload.value, message.source, orders.offers, token);
    }
  }

  lemma PutReplyBalance(s: State, token: Token, reply: Reply, t: Token)
    ensures Balance(PutReply(s, token, reply), t) == Balance(s, t) + (if token == t then 1 else 0)
  {
    hide Waiting;
    LoggedAppend(s.outcomes, [Outcome(token, reply)], t);
    assert [Outcome(token, reply)][1..] == [];
  }

  lemma PerformConserves(s: State, command: Command, written: bool, t: Token)
    requires |s.receiver| < MAX_ID && |s.productInfo| < MAX_ID && |s.offers| < MAX_ID
    ensures Balance(Perform(s, command, written).state, t) ==
            Balance(s, t) + HandedOver(Issued(command, written), t)
  {
    hide Waiting, FirstFree, PutReply;
    match command
    case ReceiverRequest(operation, token) =>
      FirstFreeIsFirst(FirstTried(s.nextRequest), s.receiver);
      WaitingWith(s.receiver, FirstFree(FirstTried(s.nextRequest), s.receiver), Entry(operation, token), t);
    case ProductInfoRequest(operation, token) =>
      FirstFreeIsFirst(FirstTried(s.nextProductInfo), s.productInfo);
      WaitingWith(s.productInfo, FirstFree(FirstTried(s.nextProductInfo), s.productInfo), Entry(operation, token), t);
    case SendOffer(destination, token) =>
      FirstFreeIsFirst(FirstTried(s.nextSequence), s.offers);
      WaitingWith(s.offers, FirstFree(FirstTried(s.nextSequence), s.offers), Entry(destination, token), t);
    case SendFire(token) =>
      PutReplyBalance(s, token, if written then Done else Failed(ConnectionLost), t);
    case CloseRequest(token) =>
      PutReplyBalance(s, token, Done, t);
    case HandleDropped =>
  }

  lemma HandleConserves(s: State, input: Input, orders: Orders, token: Token)
    requires |s.receiver| < MAX_ID && |s.productInfo| < MAX_ID && |s.offers| < MAX_ID
    requires Fits(orders, s)
    ensures Balance(Handle(s, input, orders).state, token) == Balance(s, token) + HandedOver(input, token)
  {
    hide Balance, Receive, Perform;
    match input
    case Incoming(message, now, written) => ReceiveConserves(s, message, now, written, orders, token);
    case ReadFailed(_) =>
    case Issued(command, written) => PerformConserves(s, command, written, token);
    case Tick(_, _) =>
  }

  /** Dropping entries leaves room. */
  lemma RetainShrinks(s: State, gone: set<Token>, orders: Orders)
    ensures
      var after := Retain(s, gone, orders);
      |after.receiver| <= |s.receiver| && |after.productInfo| <= |s.productInfo| && |after.offers| <= |s.offers|
  {
    hide Outcomes, Listed;
    RemainingShrinks(s.receiver, Listed(orders.receiver, GivenUp(s.receiver, gone)));
    RemainingShrinks(s.productInfo, Listed(orders.productInfo, GivenUp(s.productInfo, gone)));
    RemainingShrinks(s.offers, Listed(orders.offers, GivenUp(s.offers, gone)));
  }

  lemma RemainingShrinks<Op>(table: Table<Op>, ids: seq<u32>)
    ensures |Remaining(table, ids)| <= |table|
  {
    var rest := Remaining(table, ids);
    assert rest.Keys <= table.Keys;
    assert table.Keys == rest.Keys + (table.Keys - rest.Keys);
    assert |rest.Keys| <= |table.Keys|;
    assert |rest| == |rest.Keys| && |table| == |table.Keys|;
  }

  /** One turn adds exactly the reply channels handed over in it. */
  lemma NextConserves(s: State, step: Step, token: Token)
    requires CanStep(s, step)
    ensures Balance(Next(s, step), token) == Balance(s, token) + HandedOver(step.input, token)
  {
    hide Balance, Handle, Retain, FailAllPending, Fits;
    var retained := Retain(s, step.gone, step.retain);
    RetainConserves(s, step.gone, step.retain, token);
    RetainShrinks(s, step.gone, step.retain);
    HandleConserves(retained, step.input, step.handle, token);
    var handled := Handle(retained, step.input, step.handle);
    if handled.Break? {
      FailAllConserves(handled.state, step.exit, token);
      BalanceIgnores(FailAllPending(handled.state, step.exit), Next(s, step), token);
    }
  }

  lemma NextClosed(s: State, step: Step)
    requires CanStep(s, step) && Next(s, step).closed
    ensures Next(s, step).receiver == map[] && Next(s, step).productInfo == map[] && Next(s, step).offers == map[]
  {
    hide Retain, Fits, Exit;
    var handled := Handle(Retain(s, step.gone, step.retain), step.input, step.handle);
    if handled.Break? {
      NothingIsLeft(handled.state, handled.reason, step.exit);
    } else {
      StaysOpen(s, step);
    }
  }

  /** Only leaving the loop closes the channel. */
  lemma StaysOpen(s: State, step: Step)
    requires !s.closed
    ensures !Handle(Retain(s, step.gone, step.retain), step.input, step.handle).state.closed
  {
    hide Retain, CompleteReceiver, CompleteProductInfo, CompleteOffers, Publish, StopApp, DispatchWebrtc,
         DispatchProductInfo, FirstFree, DueToStatus, DueToError, DueToAvailability, OffersTo, ParseApps;
  }

  lemma {:induction false} RunConserves(now: nat, steps: seq<Step>, token: Token)
    requires CanRun(Initial(now), steps)
    ensures Balance(Run(Initial(now), steps), token) == HandedOverIn(steps, token)
    ensures Run(Initial(now), steps).closed ==>
      var s := Run(Initial(now), steps); s.receiver == map[] && s.productInfo == map[] && s.offers == map[]
  {
    hide CanStep, Next;
    if steps == [] {
      hide Waiting;
      WaitingNowhere<ReceiverOperation>(map[], token);
      WaitingNowhere<ProductInfoOperation>(map[], token);
      WaitingNowhere<Address>(map[], token);
    } else {
      hide Balance;
      var before := steps[..|steps| - 1];
      RunConserves(now, before, token);
      NextConserves(Run(Initial(now), before), steps[|steps| - 1], token);
      if Run(Initial(now), steps).closed {
        NextClosed(Run(Initial(now), before), steps[|steps| - 1]);
      }
    }
  }

  /** How many entries wait on `token`. */
  ghost function PendingFor(s: State, token: Token): nat {
    Waiting(s.receiver, token) + Waiting(s.productInfo, token) + Waiting(s.offers, token)
  }

  /**
   Exactly-once correlation: in every run a reply channel that was handed over
   once is either waited on by exactly one pending entry and still empty, or no
   longer pending and was used exactly once. When the loop has ended it was
   used. A channel never handed over is neither waited on nor used.
   */
  lemma ExactlyOnce(now: nat, steps: seq<Step>, token: Token)
    requires CanRun(Initial(now), steps) && HandedOverIn(steps, token) <= 1
    ensures
      var s := Run(Initial(now), steps);
      && PendingFor(s, token) + Logged(s.outcomes, token) == HandedOverIn(steps, token)
      && (s.closed ==> PendingFor(s, token) == 0)
  {
    hide CanRun, Run, Waiting, Logged;
    RunConserves(now, steps, token);
    if Run(Initial(now), steps).closed {
      WaitingNowhere<ReceiverOperation>(map[], token);
      WaitingNowhere<ProductInfoOperation>(map[], token);
      WaitingNowhere<Address>(map[], token);
    }
  }
}
