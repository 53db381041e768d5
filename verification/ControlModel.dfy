/**
 The control loop (src/control/mod.rs) as a state machine: three
 tables of pending requests, the applications last reported, and what was put
 into reply channels and published as events. One step is one turn of the loop.
 JSON is represented by the fields the loop looks at.
 */
module ControlModel {
  import opened Bytes
  import opened Pending
  import opened RequestIds

  type Address = string

  const SENDER_ID: Address := "sender-0"
  const RECEIVER_ID: Address := "receiver-0"

  /** Nanoseconds without a heartbeat after which the receiver counts as gone. */
  const HEARTBEAT_TIMEOUT: nat := 15_000_000_000

  // ----- Messages ----------------------------------------------------------

  datatype Namespace = Heartbeat | Connection | Receiver | Webrtc | Discovery | Setup | OtherNamespace

  /** The message type, from the field `type` or else `responseType`. */
  datatype Kind =
    | Ping | Pong | Close
    | ReceiverStatus | AppAvailability | LaunchError | InvalidRequest
    | OfferAnswer
    | DeviceInfoReply | DeviceInfoEcho | EurekaInfoReply
    | OtherKind

  /** An application as listed in a status; either identifier may be missing. */
  datatype ListedApp = ListedApp(appId: Option<string>, transportId: Option<Address>,
                                 sessionId: string, displayName: Option<string>)

  datatype CastApp = CastApp(appId: string, transportId: Address, sessionId: string, displayName: Option<string>)

  /** The fields of a JSON message; `status` is missing unless it is an object. */
  datatype Value = Value(kind: Kind, requestId: Option<u32>, setupRequestId: Option<u32>, seqNum: Option<u32>,
                         appId: Option<string>, status: Option<seq<ListedApp>>)

  datatype Payload = Json(value: Value) | BadJson | Binary

  datatype Message = Message(namespace: Namespace, source: Address, destination: Address, payload: Payload)

  function KindOf(message: Message): Kind {
    if message.payload.Json? then message.payload.value.kind else OtherKind
  }

  // ----- Requests ----------------------------------------------------------

  datatype ReceiverOperation = Availability(appId: string) | Launch(appId: string) | SetVolume | Status | Stop

  datatype ProductInfoOperation = DeviceInfo | EurekaInfo

  datatype Failure = AppLaunchFailed | ProtocolError | NegotiationFailed | ConnectionLost

  /** What ends up in a reply channel; `Withdrawn` when its caller gave up first. */
  datatype Reply = Answer(value: Value) | Done | Failed(failure: Failure) | Withdrawn

  datatype CloseReason = PeerClosed | HeartbeatTimeout | Requested | Error

  datatype Event =
    | StatusPublished(apps: seq<CastApp>)
    | ApplicationStopped(app: CastApp)
    | Closed(reason: CloseReason)

  datatype State = State(
    receiver: Table<ReceiverOperation>,
    productInfo: Table<ProductInfoOperation>,
    offers: Table<Address>,
    nextRequest: u32,
    nextProductInfo: u32,
    nextSequence: u32,
    apps: map<Address, CastApp>,
    lastHeartbeat: nat,
    outcomes: seq<Outcome<Reply>>,
    events: seq<Event>,
    closed: bool)

  function Initial(now: nat): State { State(map[], map[], map[], 1, 1, 1, map[], now, [], [], false) }

  /** How the hash maps happen to be visited. */
  datatype Orders = Orders(receiver: seq<u32>, productInfo: seq<u32>, offers: seq<u32>, apps: seq<Address>)

  ghost predicate Fits(orders: Orders, s: State) {
    && Enumerates(orders.receiver, s.receiver.Keys)
    && Enumerates(orders.productInfo, s.productInfo.Keys)
    && Enumerates(orders.offers, s.offers.Keys)
    && Enumerates(orders.apps, s.apps.Keys)
  }

  // ----- Completing requests -----------------------------------------------

  function CompleteReceiver(s: State, order: seq<u32>, due: set<u32>, reply: ReceiverOperation -> Reply): (r: State)
    requires due <= s.receiver.Keys
    ensures r == s.(receiver := r.receiver, outcomes := r.outcomes)
  {
    var ids := Listed(order, due);
    s.(receiver := Remaining(s.receiver, ids), outcomes := s.outcomes + Outcomes(s.receiver, ids, reply))
  }

  function CompleteProductInfo(
    s: State, order: seq<u32>, due: set<u32>, reply: ProductInfoOperation -> Reply): (r: State)
    requires due <= s.productInfo.Keys
    ensures r == s.(productInfo := r.productInfo, outcomes := r.outcomes)
  {
    var ids := Listed(order, due);
    s.(productInfo := Remaining(s.productInfo, ids), outcomes := s.outcomes + Outcomes(s.productInfo, ids, reply))
  }

  function CompleteOffers(s: State, order: seq<u32>, due: set<u32>, reply: Address -> Reply): (r: State)
    requires due <= s.offers.Keys
    ensures r == s.(offers := r.offers, outcomes := r.outcomes)
  {
    var ids := Listed(order, due);
    s.(offers := Remaining(s.offers, ids), outcomes := s.outcomes + Outcomes(s.offers, ids, reply))
  }

  // ----- Which requests a message is about ---------------------------------

  /** The only element, or nothing. */
  function Only(ids: set<u32>): set<u32> { if |ids| == 1 then ids else {} }

  /** Whether the status lists an application with this identifier. */
  predicate Shows(value: Value, appId: string) {
    value.status.Some? && exists app :: app in value.status.value && app.appId == Some(appId)
  }

  /** Whether a status can answer this operation when it names the request. */
  predicate AnsweredByStatus(operation: ReceiverOperation, value: Value) {
    match operation
    case Launch(appId) => Shows(value, appId)
    case Availability(_) => false
    case _ => true
  }

  predicate NamesRequest(table: Table<ReceiverOperation>, value: Value) {
    value.requestId.Some? && value.requestId.value in table &&
    AnsweredByStatus(table[value.requestId.value].op, value)
  }

  /** A status answers the request it names, or else every launch whose application it shows. */
  function DueToStatus(table: Table<ReceiverOperation>, value: Value): (due: set<u32>)
    ensures due <= table.Keys
  {
    if NamesRequest(table, value) then {value.requestId.value}
    else set id | id in table && table[id].op.Launch? && Shows(value, table[id].op.appId)
  }

  function DueToAvailability(table: Table<ReceiverOperation>, value: Value): (due: set<u32>)
    ensures due <= table.Keys
  {
    set id | id in table && value.requestId == Some(id) && table[id].op.Availability?
  }

  /** Whether an error that names no request may be about this operation. */
  predicate MayBlame(operation: ReceiverOperation, appId: Option<string>) {
    appId.None? || (operation.Launch? && operation.appId == appId.value)
  }

  function Suspects(table: Table<ReceiverOperation>, appId: Option<string>): (ids: set<u32>)
    ensures ids <= table.Keys
  {
    set id | id in table && MayBlame(table[id].op, appId)
  }

  /** An error fails the request it names; naming none, the only one it may be about. */
  function DueToError(table: Table<ReceiverOperation>, value: Value): (due: set<u32>)
    ensures due <= table.Keys
  {
    if value.requestId.Some? then {value.requestId.value} * table.Keys
    else Only(Suspects(table, value.appId))
  }

  function FailureOf(operation: ReceiverOperation): Reply {
    Failed(if operation.Launch? then AppLaunchFailed else ProtocolError)
  }

  function DueToAnswer(table: Table<Address>, value: Value, source: Address): (due: set<u32>)
    ensures due <= table.Keys
  {
    set id | id in table && value.seqNum == Some(id) && table[id].op == source
  }

  function OffersTo(table: Table<Address>, destination: Address): (ids: set<u32>)
    ensures ids <= table.Keys
  {
    set id | id in table && table[id].op == destination
  }

  /** A rejection fails the offer it names, or the only one to its sender, but only its sender's. */
  function DueToRejection(table: Table<Address>, value: Value, source: Address): (due: set<u32>)
    ensures due <= table.Keys
  {
    if value.seqNum.Some? then set id | id in table && id == value.seqNum.value && table[id].op == source
    else Only(OffersTo(table, source))
  }

  function RequestIdOf(operation: ProductInfoOperation, value: Value): Option<u32> {
    if operation.DeviceInfo? then value.requestId else value.setupRequestId
  }

  function DueToProductInfo(table: Table<ProductInfoOperation>, operation: ProductInfoOperation, value: Value)
    : (due: set<u32>)
    ensures due <= table.Keys
  {
    set id | id in table && RequestIdOf(operation, value) == Some(id) && table[id].op == operation
  }

  predicate AcceptsKind(operation: ProductInfoOperation, kind: Kind) {
    match operation
    case DeviceInfo => kind == DeviceInfoReply || kind == DeviceInfoEcho
    case EurekaInfo => kind == EurekaInfoReply
  }

  function ProductInfoReply(operation: ProductInfoOperation, value: Value): Reply {
    if AcceptsKind(operation, value.kind) || value.kind == InvalidRequest then Answer(value)
    else Failed(ProtocolError)
  }

  // ----- Applications ------------------------------------------------------

  function ParseApp(app: ListedApp): Option<CastApp> {
    if app.appId.Some? && app.transportId.Some?
    then Some(CastApp(app.appId.value, app.transportId.value, app.sessionId, app.displayName))
    else None
  }

  function ParseApps(apps: seq<ListedApp>): seq<CastApp> {
    if apps == [] then []
    else
      match ParseApp(apps[0])
      case None => ParseApps(apps[1..])
      case Some(app) => [app] + ParseApps(apps[1..])
  }

  /** The applications by transport; of two with the same transport the later one stays. */
  function ByTransport(apps: seq<CastApp>): map<Address, CastApp> {
    if apps == [] then map[]
    else ByTransport(apps[..|apps| - 1])[apps[|apps| - 1].transportId := apps[|apps| - 1]]
  }

  function StopEvents(apps: map<Address, CastApp>, gone: seq<Address>): (r: seq<Event>)
    requires forall t :: t in gone ==> t in apps
    ensures |r| == |gone|
  {
    seq(|gone|, i requires 0 <= i < |gone| => ApplicationStopped(apps[gone[i]]))
  }

  /** A status replaces the known applications; those it no longer lists have stopped. */
  function Publish(s: State, apps: seq<CastApp>, order: seq<Address>): (r: State)
    ensures r == s.(apps := r.apps, events := r.events)
  {
    var known := ByTransport(apps);
    var gone := Listed(order, s.apps.Keys - known.Keys);
    s.(apps := known, events := s.events + StopEvents(s.apps, gone) + [StatusPublished(apps)])
  }

  /** An application's transport closed. */
  function StopApp(s: State, transport: Address): (r: State)
    ensures r == s.(apps := r.apps, events := r.events)
  {
    if transport in s.apps
    then s.(apps := s.apps - {transport}, events := s.events + [ApplicationStopped(s.apps[transport])])
    else s
  }

  // ----- Incoming messages -------------------------------------------------

  datatype Handled = Continue(state: State) | Break(state: State, reason: CloseReason)

  function DispatchProductInfo(s: State, operation: ProductInfoOperation, message: Message, order: seq<u32>)
    : (r: Handled)
    ensures r.state == s.(productInfo := r.state.productInfo, outcomes := r.state.outcomes)
  {
    if message.source != RECEIVER_ID || message.destination != SENDER_ID then Continue(s)
    else if !message.payload.Json? then Break(s, Error)
    else
      var value := message.payload.value;
      Continue(CompleteProductInfo(s, order, DueToProductInfo(s.productInfo, operation, value),
                                   op => ProductInfoReply(op, value)))
  }

  function DispatchReceiver(s: State, value: Value, orders: Orders): Handled {
    match value.kind
    case ReceiverStatus =>
      if value.status.None? then Break(s, Error)
      else
        var published := Publish(s, ParseApps(value.status.value), orders.apps);
        Continue(CompleteReceiver(published, orders.receiver, DueToStatus(s.receiver, value), _ => Answer(value)))
    case AppAvailability =>
      Continue(CompleteReceiver(s, orders.receiver, DueToAvailability(s.receiver, value), _ => Answer(value)))
    case LaunchError =>
      Continue(CompleteReceiver(s, orders.receiver, DueToError(s.receiver, value), op => FailureOf(op)))
    case InvalidRequest =>
      Continue(CompleteReceiver(s, orders.receiver, DueToError(s.receiver, value), op => FailureOf(op)))
    case _ => Continue(s)
  }

  function DispatchWebrtc(s: State, value: Value, source: Address, order: seq<u32>): (r: State)
    ensures r == s.(offers := r.offers, outcomes := r.outcomes)
  {
    match value.kind
    case OfferAnswer => CompleteOffers(s, order, DueToAnswer(s.offers, value, source), _ => Answer(value))
    case InvalidRequest =>
      CompleteOffers(s, order, DueToRejection(s.offers, value, source), _ => Failed(NegotiationFailed))
    case _ => s
  }

  function DispatchJson(s: State, message: Message, orders: Orders): Handled {
    if message.namespace != Receiver && message.namespace != Webrtc then Continue(s)
    else
      match message.payload
      case Binary => Continue(s)
      case BadJson => Break(s, Error)
      case Json(value) =>
        if message.namespace == Webrtc then Continue(DispatchWebrtc(s, value, message.source, orders.offers))
        else if message.source != RECEIVER_ID then Continue(s)
        else DispatchReceiver(s, value, orders)
  }

  /** The transport of an application, or the platform itself, closed. */
  function ConnectionClosed(s: State, source: Address, order: seq<u32>): Handled {
    if source == RECEIVER_ID then Break(s, PeerClosed)
    else
      Continue(CompleteOffers(StopApp(s, source), order, OffersTo(s.offers, source), _ => Failed(NegotiationFailed)))
  }

  function HeartbeatReceived(s: State, kind: Kind, now: nat, written: bool): Handled {
    var heard := if kind == Ping || kind == Pong then s.(lastHeartbeat := now) else s;
    if kind == Ping && !written then Break(heard, Error) else Continue(heard)
  }

  /** `written` says whether a PONG could be written, where one is due. */
  function Receive(s: State, message: Message, now: nat, written: bool, orders: Orders): Handled {
    match message.namespace
    case Heartbeat => HeartbeatReceived(s, KindOf(message), now, written)
    case Discovery => DispatchProductInfo(s, DeviceInfo, message, orders.productInfo)
    case Setup => DispatchProductInfo(s, EurekaInfo, message, orders.productInfo)
    case Connection =>
      if KindOf(message) == Close then ConnectionClosed(s, message.source, orders.offers)
      else DispatchJson(s, message, orders)
    case _ => DispatchJson(s, message, orders)
  }

  // ----- Commands ----------------------------------------------------------

  datatype Command =
    | ReceiverRequest(operation: ReceiverOperation, token: Token)
    | ProductInfoRequest(infoOperation: ProductInfoOperation, token: Token)
    | SendOffer(destination: Address, token: Token)
    | SendFire(token: Token)
    | CloseRequest(token: Token)
    | HandleDropped

  function AskReceiver(s: State, operation: ReceiverOperation, token: Token): State {
    var id := FirstFree(FirstTried(s.nextRequest), s.receiver);
    s.(receiver := s.receiver[id := Entry(operation, token)], nextRequest := Successor(id))
  }

  function AskProductInfo(s: State, operation: ProductInfoOperation, token: Token): State {
    var id := FirstFree(FirstTried(s.nextProductInfo), s.productInfo);
    s.(productInfo := s.productInfo[id := Entry(operation, token)], nextProductInfo := Successor(id))
  }

  function Offer(s: State, destination: Address, token: Token): State {
    var id := FirstFree(FirstTried(s.nextSequence), s.offers);
    s.(offers := s.offers[id := Entry(destination, token)], nextSequence := Successor(id))
  }

  function PutReply(s: State, token: Token, reply: Reply): State {
    s.(outcomes := s.outcomes + [Outcome(token, reply)])
  }

  /** Go on if the message could be written. */
  function Wrote(s: State, written: bool): Handled { if written then Continue(s) else Break(s, Error) }

  function Perform(s: State, command: Command, written: bool): Handled {
    match command
    case ReceiverRequest(operation, token) => Wrote(AskReceiver(s, operation, token), written)
    case ProductInfoRequest(operation, token) => Wrote(AskProductInfo(s, operation, token), written)
    case SendOffer(destination, token) => Wrote(Offer(s, destination, token), written)
    case SendFire(token) => Wrote(PutReply(s, token, if written then Done else Failed(ConnectionLost)), written)
    case CloseRequest(token) => Break(PutReply(s, token, Done), if written then Requested else Error)
    case HandleDropped => Break(s, if written then Requested else Error)
  }

  // ----- One turn of the loop ----------------------------------------------

  datatype Input =
    | Incoming(message: Message, now: nat, written: bool)
    | ReadFailed(endOfStream: bool)
    | Issued(command: Command, written: bool)
    | Tick(now: nat, written: bool)

  function Handle(s: State, input: Input, orders: Orders): Handled {
    match input
    case Incoming(message, now, written) => Receive(s, message, now, written, orders)
    case ReadFailed(endOfStream) => Break(s, if endOfStream then PeerClosed else Error)
    case Issued(command, written) => Perform(s, command, written)
    case Tick(now, written) =>
      if now - s.lastHeartbeat >= HEARTBEAT_TIMEOUT then Break(s, HeartbeatTimeout) else Wrote(s, written)
  }

  /** Entries whose caller has given up are dropped. */
  function Retain(s: State, gone: set<Token>, orders: Orders): (r: State)
    ensures r == s.(receiver := r.receiver, productInfo := r.productInfo, offers := r.offers, outcomes := r.outcomes)
  {
    var s1 := CompleteReceiver(s, orders.receiver, GivenUp(s.receiver, gone), _ => Withdrawn);
    var s2 := CompleteProductInfo(s1, orders.productInfo, GivenUp(s.productInfo, gone), _ => Withdrawn);
    CompleteOffers(s2, orders.offers, GivenUp(s.offers, gone), _ => Withdrawn)
  }

  /** Everything still pending fails when the loop ends. */
  function FailAllPending(s: State, orders: Orders): (r: State)
    ensures r == s.(receiver := r.receiver, productInfo := r.productInfo, offers := r.offers, outcomes := r.outcomes)
  {
    var s1 := CompleteReceiver(s, orders.receiver, s.receiver.Keys, _ => Failed(ConnectionLost));
    var s2 := CompleteProductInfo(s1, orders.productInfo, s.productInfo.Keys, _ => Failed(ConnectionLost));
    CompleteOffers(s2, orders.offers, s.offers.Keys, _ => Failed(ConnectionLost))
  }

  function Exit(s: State, reason: CloseReason, orders: Orders): State {
    var failed := FailAllPending(s, orders);
    failed.(events := failed.events + [Closed(reason)], closed := true)
  }

  /** One turn: who gave up before it, what happened, and the orders in which maps were visited. */
  datatype Step = Step(gone: set<Token>, input: Input, retain: Orders, handle: Orders, exit: Orders)

  function Next(s: State, step: Step): State {
    match Handle(Retain(s, step.gone, step.retain), step.input, step.handle)
    case Continue(after) => after
    case Break(after, reason) => Exit(after, reason, step.exit)
  }

  /** The loop is running, an identifier is free in each table, and the orders are those of the maps. */
  ghost predicate CanStep(s: State, step: Step) {
    && !s.closed
    && |s.receiver| < MAX_ID && |s.productInfo| < MAX_ID && |s.offers| < MAX_ID
    && Fits(step.retain, s)
    && Fits(step.handle, Retain(s, step.gone, step.retain))
    && Fits(step.exit, Handle(Retain(s, step.gone, step.retain), step.input, step.handle).state)
  }

  ghost predicate CanRun(s: State, steps: seq<Step>) {
    steps == [] || (CanRun(s, steps[..|steps| - 1]) && CanStep(Run(s, steps[..|steps| - 1]), steps[|steps| - 1]))
  }

  ghost function Run(s: State, steps: seq<Step>): State {
    if steps == [] then s else Next(Run(s, steps[..|steps| - 1]), steps[|steps| - 1])
  }
}
