/**
 The bridge between one HTTP request and a mounted ASGI application
 (src/asgi_http.rs).  Every lock-protected section, channel operation and
 handler wake-up is one atomic action; a run is any sequence of enabled
 actions, so a statement about all action sequences covers every interleaving
 of the application, its pending sends, its done-callback, the waiting handler, the timeout and
 the client that reads the response body.
 */
module AsgiBridge {
  import opened Common

  const BODY_CHANNEL_CAPACITY: nat := 32

  datatype ResponseStart = ResponseStart(status: int, headers: seq<(Bytes, Bytes)>)

  /** What the application may pass to `send`; `Malformed` stands for every
      message rejected before any shared state is touched. */
  datatype Message =
    | Start(start: ResponseStart)
    | Body(body: Bytes, moreBody: bool)
    | Malformed

  // --- the body channel ---------------------------------------------------

  datatype Reader = Open | Ended | Dropped

  /** `inFlight` holds the sends that have not entered the channel yet; each is a task of its own
      with its own clone of the sender.  `accepted` and `delivered` are history: they guide no step. */
  datatype BodyPart = BodyPart(
    tx: bool,
    queue: seq<Bytes>,
    inFlight: seq<Bytes>,
    reader: Reader,
    accepted: seq<Bytes>,
    delivered: seq<Bytes>)
  {
    function Send(body: Bytes, moreBody: bool): BodyPart {
      if tx then
        this.(tx := moreBody,
              inFlight := if body == [] then inFlight else inFlight + [body],
              accepted := if body == [] then accepted else accepted + [body])
      else this
    }

    /** Some pending send finds room, or learns that the receiver is gone. */
    function CompleteSend(i: nat): Option<BodyPart> {
      if i >= |inFlight| then None
      else
        var others := inFlight[..i] + inFlight[i + 1..];
        if !reader.Open? then Some(this.(inFlight := others))
        else if |queue| < BODY_CHANNEL_CAPACITY then Some(this.(queue := queue + [inFlight[i]], inFlight := others))
        else None
    }

    /** Dropping the receiver discards whatever is still queued. */
    function Close(): BodyPart {
      this.(reader := Dropped, queue := [])
    }

    function Read(): Option<BodyPart> {
      if reader.Open? && queue != [] then
        Some(this.(queue := queue[1..], delivered := delivered + [queue[0]]))
      else None
    }

    function ReadEnd(): Option<BodyPart> {
      if reader.Open? && queue == [] && !tx && inFlight == [] then Some(this.(reader := Ended)) else None
    }
  }

  // --- the response start ---------------------------------------------------

  /** The oneshot channel as its receiver sees it. */
  datatype StartChannel = Vacant | Sent(start: ResponseStart) | SenderDropped

  datatype Reply =
    | Waiting
    | Streaming(start: ResponseStart)
    | HeadOnly(start: ResponseStart)
    | InternalError(detail: Option<string>)
    | GatewayTimeout

  /** The done-callback takes its locks one after the other. */
  datatype DonePhase = NotDone | ExceptionRecorded | StartDropped | BodyDropped | Notified
  {
    function Rank(): nat {
      match this
      case NotDone => 0
      case ExceptionRecorded => 1
      case StartDropped => 2
      case BodyDropped => 3
      case Notified => 4
    }
  }

  /** `startsTaken` is history. */
  datatype StartPart = StartPart(
    tx: bool,
    channel: StartChannel,
    exceptionMsg: Option<string>,
    reply: Reply,
    done: DonePhase,
    startsTaken: nat)
  {
    function Send(start: ResponseStart): StartPart {
      if tx then this.(tx := false, channel := if reply.Waiting? then Sent(start) else SenderDropped) else this
    }

    function DropTx(): StartPart {
      this.(tx := false, done := StartDropped, channel := if tx then SenderDropped else channel)
    }

    /** The handler's `select!` sees the oneshot resolve. */
    function Take(isHead: bool): Option<StartPart> {
      if !reply.Waiting? then None else
      match channel
      case Vacant => None
      case Sent(start) =>
        Some(this.(reply := if isHead then HeadOnly(start) else Streaming(start), startsTaken := startsTaken + 1))
      case SenderDropped => Some(this.(reply := InternalError(exceptionMsg)))
    }
  }

  // --- the request body -------------------------------------------------------

  /** Concurrent `receive` calls are numbered; `handedOut` and `disconnected` are history. */
  datatype ReceivePart = ReceivePart(
    requestBody: Option<Bytes>,
    waiting: set<nat>,
    notified: set<nat>,
    handedOut: seq<Bytes>,
    disconnected: set<nat>)
  {
    function Receive(call: nat): Option<ReceivePart> {
      if call in waiting + notified + disconnected then None else
      match requestBody
      case Some(b) => Some(this.(requestBody := None, handedOut := handedOut + [b]))
      case None => Some(this.(waiting := waiting + {call}))
    }

    /** `notify_waiters` wakes the calls that wait now and stores no permit. */
    function Wake(): ReceivePart {
      this.(notified := notified + waiting, waiting := {})
    }

    function Return(call: nat): Option<ReceivePart> {
      if call in notified then
        Some(this.(notified := notified - {call}, disconnected := disconnected + {call}))
      else None
    }
  }

  // --- the whole request ------------------------------------------------------

  datatype State = State(isHead: bool, start: StartPart, body: BodyPart, recv: ReceivePart)

  datatype Action =
    | Send(message: Message)
    | CompleteSend(i: nat)
    | Receive(call: nat)
    | ReturnDisconnect(call: nat)
    | RecordException(exc: Option<string>)
    | DropStart
    | DropBody
    | NotifyDone
    | TakeStart
    | Timeout
    | Read
    | ReadEnd
    | Disconnect

  function Init(isHead: bool, requestBody: Bytes): State {
    State(isHead,
          StartPart(true, Vacant, None, Waiting, NotDone, 0),
          BodyPart(true, [], [], Open, [], []),
          ReceivePart(Some(requestBody), {}, {}, [], {}))
  }

  /** Does `send` return normally (true) or raise (false)? */
  predicate SendAccepted(s: State, m: Message) {
    match m
    case Start(_) => s.start.tx
    case Body(body, moreBody) => s.body.tx || (!moreBody && body == [])
    case Malformed => false
  }

  function AfterSend(s: State, m: Message): State {
    match m
    case Start(start) => s.(start := s.start.Send(start))
    case Body(body, moreBody) => s.(body := s.body.Send(body, moreBody))
    case Malformed => s
  }

  /** Every reply but a streaming one drops the body receiver with the handler. */
  function AfterTakeStart(s: State, p: StartPart): State {
    s.(start := p, body := if p.reply.Streaming? then s.body else s.body.Close())
  }

  function WithBody(s: State, b: Option<BodyPart>): Option<State> {
    if b.None? then None else Some(s.(body := b.value))
  }

  function WithReceive(s: State, r: Option<ReceivePart>): Option<State> {
    if r.None? then None else Some(s.(recv := r.value))
  }

  /** None when the action is not enabled.  The application need not await its sends. */
  function Next(s: State, a: Action): Option<State> {
    match a
    case Send(m) => Some(AfterSend(s, m))
    case CompleteSend(i) => WithBody(s, s.body.CompleteSend(i))
    case Receive(call) => WithReceive(s, s.recv.Receive(call))
    case ReturnDisconnect(call) => WithReceive(s, s.recv.Return(call))
    case RecordException(exc) =>
      if s.start.done.NotDone? then
        Some(s.(start := s.start.(exceptionMsg := exc, done := ExceptionRecorded)))
      else None
    case DropStart =>
      if s.start.done.ExceptionRecorded? then Some(s.(start := s.start.DropTx())) else None
    case DropBody =>
      if s.start.done.StartDropped? then
        Some(s.(start := s.start.(done := BodyDropped), body := s.body.(tx := false)))
      else None
    case NotifyDone =>
      if s.start.done.BodyDropped? then
        Some(s.(start := s.start.(done := Notified), recv := s.recv.Wake()))
      else None
    case TakeStart =>
      var p := s.start.Take(s.isHead);
      if p.None? then None else Some(AfterTakeStart(s, p.value))
    case Timeout =>
      if s.start.reply.Waiting? then
        Some(s.(start := s.start.(reply := GatewayTimeout), body := s.body.Close(), recv := s.recv.Wake()))
      else None
    case Read => if s.start.reply.Streaming? then WithBody(s, s.body.Read()) else None
    case ReadEnd => if s.start.reply.Streaming? then WithBody(s, s.body.ReadEnd()) else None
    case Disconnect =>
      if s.start.reply.Streaming? && s.body.reader.Open? then Some(s.(body := s.body.Close())) else None
  }

  /** Runs a sequence of actions; None when one of them was not enabled. */
  function Run(s: State, actions: seq<Action>): Option<State>
    decreases |actions|
  {
    if actions == [] then Some(s)
    else
      var t := Next(s, actions[0]);
      if t.None? then None else Run(t.value, actions[1..])
  }

  // --- what every action keeps -------------------------------------------------

  /** Body chunks are conserved while the reader is open. */
  ghost predicate BodyInv(b: BodyPart) {
    && (b.reader.Open? ==> multiset(b.delivered) + multiset(b.queue) + multiset(b.inFlight) == multiset(b.accepted))
    && multiset(b.delivered) <= multiset(b.accepted)
    && |b.queue| <= BODY_CHANNEL_CAPACITY
    && (!b.reader.Open? ==> b.queue == [])
    && (b.reader.Ended? ==> multiset(b.delivered) == multiset(b.accepted) && !b.tx && b.inFlight == [])
  }

  /** The start slot, the oneshot and the handler's reply agree. */
  ghost predicate StartInv(p: StartPart) {
    && (p.tx <==> p.channel.Vacant?)
    && p.startsTaken == (if p.reply.Streaming? || p.reply.HeadOnly? then 1 else 0)
    && (p.reply.Streaming? || p.reply.HeadOnly? ==> p.channel == Sent(p.reply.start))
    && (p.reply.Waiting? && p.channel.SenderDropped? ==> p.done.Rank() >= 2)
    && (p.done.Rank() >= 2 ==> !p.tx)
    && (p.done.NotDone? ==> p.exceptionMsg.None?)
    && (p.reply.InternalError? ==> p.done.Rank() >= 2 && p.reply.detail == p.exceptionMsg)
  }

  /** The reply decides over the body receiver, and the callback over the body slot. */
  ghost predicate Linked(s: State) {
    && (s.start.reply.Waiting? ==> s.body.reader.Open?)
    && (s.start.reply.Streaming? ==> !s.isHead)
    && (!s.start.reply.Waiting? && !s.start.reply.Streaming? ==> s.body.reader.Dropped?)
    && (s.start.done.Rank() >= 3 ==> !s.body.tx)
  }

  /** The request body leaves once; nobody is woken before the response is over. */
  ghost predicate ReceiveInv(s: State, requestBody: Bytes) {
    && s.recv.handedOut + ToSeq(s.recv.requestBody) == [requestBody]
    && (s.recv.notified + s.recv.disconnected != {} ==> s.start.done.Notified? || s.start.reply.GatewayTimeout?)
  }

  ghost predicate Inv(s: State, requestBody: Bytes) {
    BodyInv(s.body) && StartInv(s.start) && Linked(s) && ReceiveInv(s, requestBody)
  }

  lemma TakeOut(b: seq<Bytes>, i: nat)
    requires i < |b|
    ensures multiset(b) == multiset(b[..i] + b[i + 1..]) + multiset{b[i]}
  {
    assert b == b[..i] + [b[i]] + b[i + 1..];
  }

  lemma BodySendKeepsInv(b: BodyPart, body: Bytes, moreBody: bool)
    requires BodyInv(b)
    ensures BodyInv(b.Send(body, moreBody))
  {
  }

  lemma CompleteSendKeepsInv(b: BodyPart, i: nat)
    requires BodyInv(b) && b.CompleteSend(i).Some?
    ensures BodyInv(b.CompleteSend(i).value)
  {
    TakeOut(b.inFlight, i);
  }

  lemma ReadKeepsInv(b: BodyPart)
    requires BodyInv(b) && b.Read().Some?
    ensures BodyInv(b.Read().value)
  {
    assert b.queue == [b.queue[0]] + b.queue[1..];
    var c := b.Read().value;
    assert multiset(c.delivered) + multiset(c.queue) == multiset(b.delivered) + multiset(b.queue);
  }

  /** The ways in which an action may change the body part. */
  predicate BodyMoves(b: BodyPart, c: BodyPart) {
    || c == b || c == b.Close() || c == b.(tx := false)
    || Some(c) == b.Read() || Some(c) == b.ReadEnd()
  }

  lemma MovesKeepInv(b: BodyPart, c: BodyPart)
    requires BodyInv(b) && BodyMoves(b, c)
    ensures BodyInv(c)
  {
    if b.Read().Some? { ReadKeepsInv(b); }
  }

  lemma NextKeepsBody(s: State, a: Action, t: State)
    requires BodyInv(s.body) && Next(s, a) == Some(t)
    ensures BodyInv(t.body)
  {
    match a
    case Send(Body(body, moreBody)) => BodySendKeepsInv(s.body, body, moreBody);
    case CompleteSend(i) => CompleteSendKeepsInv(s.body, i);
    case _ => MovesKeepInv(s.body, t.body);
  }

  lemma NextKeepsStart(s: State, a: Action, t: State)
    requires StartInv(s.start) && Next(s, a) == Some(t)
    ensures StartInv(t.start)
  {
  }

  lemma NextKeepsLinks(s: State, a: Action, t: State)
    requires Linked(s) && Next(s, a) == Some(t)
    ensures Linked(t)
  {
  }

  lemma NextKeepsReceive(s: State, a: Action, t: State, requestBody: Bytes)
    requires ReceiveInv(s, requestBody) && Next(s, a) == Some(t)
    ensures ReceiveInv(t, requestBody)
  {
  }

  lemma NextKeepsInv(s: State, a: Action, t: State, requestBody: Bytes)
    requires Inv(s, requestBody) && Next(s, a) == Some(t)
    ensures Inv(t, requestBody)
  {
    NextKeepsBody(s, a, t);
    NextKeepsStart(s, a, t);
    NextKeepsLinks(s, a, t);
    NextKeepsReceive(s, a, t, requestBody);
  }

  lemma {:induction false} RunKeepsInv(s: State, actions: seq<Action>, t: State, requestBody: Bytes)
    requires Inv(s, requestBody) && Run(s, actions) == Some(t)
    ensures Inv(t, requestBody)
    decreases |actions|
  {
    if actions != [] {
      var u := Next(s, actions[0]).value;
      NextKeepsInv(s, actions[0], u, requestBody);
      RunKeepsInv(u, actions[1..], t, requestBody);
    }
  }

  // --- runs that await their sends --------------------------------------------------

  /** Every send starts when the one before has entered the channel. */
  predicate Awaited(s: State, actions: seq<Action>)
    decreases |actions|
  {
    actions == [] || Next(s, actions[0]).None?
    || ((actions[0].Send? ==> s.body.inFlight == []) && Awaited(Next(s, actions[0]).value, actions[1..]))
  }

  /** Chunks are where they are in the order in which they were accepted. */
  predicate InOrder(b: BodyPart) {
    b.delivered + b.queue + b.inFlight == b.accepted
  }

  ghost predicate Ordered(b: BodyPart) {
    && |b.inFlight| <= 1
    && (b.reader.Open? ==> InOrder(b))
    && b.delivered <= b.accepted
    && (b.reader.Ended? ==> b.delivered == b.accepted && !b.tx)
  }

  lemma CompleteKeepsOrder(b: BodyPart, c: BodyPart)
    requires b.reader.Open? && InOrder(b) && b.CompleteSend(0) == Some(c)
    ensures InOrder(c) && c.reader.Open?
  {
    assert b.inFlight[..0] + b.inFlight[1..] == b.inFlight[1..];
  }

  lemma ReadKeepsOrder(b: BodyPart, c: BodyPart)
    requires InOrder(b) && b.Read() == Some(c)
    ensures InOrder(c) && c.reader.Open?
  {
  }

  lemma InOrderIsPrefix(b: BodyPart)
    requires InOrder(b)
    ensures b.delivered <= b.accepted
  {
    ConcatAssociative(b.delivered, b.queue, b.inFlight);
  }

  lemma NextKeepsOrder(s: State, a: Action, t: State)
    requires Ordered(s.body) && Next(s, a) == Some(t) && (a.Send? ==> s.body.inFlight == [])
    ensures Ordered(t.body)
  {
    match a
    case CompleteSend(i) => if s.body.reader.Open? { CompleteKeepsOrder(s.body, t.body); }
    case Read =>
      ReadKeepsOrder(s.body, t.body);
      InOrderIsPrefix(t.body);
    case ReadEnd => assert s.body.delivered + [] + [] == s.body.delivered;
    case _ =>
  }

  lemma {:induction false} AwaitedRunKeepsOrder(s: State, actions: seq<Action>, t: State)
    requires Ordered(s.body) && Run(s, actions) == Some(t) && Awaited(s, actions)
    ensures Ordered(t.body)
    decreases |actions|
  {
    if actions != [] {
      var u := Next(s, actions[0]).value;
      NextKeepsOrder(s, actions[0], u);
      AwaitedRunKeepsOrder(u, actions[1..], t);
    }
  }

  // --- what a trace says, independently of the history fields --------------------

  function AcceptedBody(s: State, a: Action): seq<Bytes> {
    if a.Send? && a.message.Body? && a.message.body != [] && SendAccepted(s, a.message) then [a.message.body] else []
  }

  function AcceptedStart(s: State, a: Action): seq<ResponseStart> {
    if a.Send? && a.message.Start? && SendAccepted(s, a.message) then [a.message.start] else []
  }

  function ClientRead(s: State, a: Action): seq<Bytes>
    requires Next(s, a).Some?
  {
    if a.Read? then [s.body.queue[0]] else []
  }

  /** The non-empty bodies whose `send` returned normally, in order. */
  function AcceptedBodies(s: State, actions: seq<Action>): seq<Bytes>
    decreases |actions|
  {
    if actions == [] || Next(s, actions[0]).None? then []
    else AcceptedBody(s, actions[0]) + AcceptedBodies(Next(s, actions[0]).value, actions[1..])
  }

  /** The response starts whose `send` returned normally, in order. */
  function AcceptedStarts(s: State, actions: seq<Action>): seq<ResponseStart>
    decreases |actions|
  {
    if actions == [] || Next(s, actions[0]).None? then []
    else AcceptedStart(s, actions[0]) + AcceptedStarts(Next(s, actions[0]).value, actions[1..])
  }

  /** The chunks the client took out of the response stream, in order. */
  function ClientReads(s: State, actions: seq<Action>): seq<Bytes>
    decreases |actions|
  {
    if actions == [] || Next(s, actions[0]).None? then []
    else ClientRead(s, actions[0]) + ClientReads(Next(s, actions[0]).value, actions[1..])
  }

  lemma HistoryStep(s: State, a: Action, t: State)
    requires Next(s, a) == Some(t)
    ensures t.body.accepted == s.body.accepted + AcceptedBody(s, a)
    ensures t.body.delivered == s.body.delivered + ClientRead(s, a)
  {
  }

  lemma {:induction false} HistoryMatchesTrace(s: State, actions: seq<Action>, t: State)
    requires Run(s, actions) == Some(t)
    ensures t.body.accepted == s.body.accepted + AcceptedBodies(s, actions)
    ensures t.body.delivered == s.body.delivered + ClientReads(s, actions)
    decreases |actions|
  {
    if actions != [] {
      var u := Next(s, actions[0]).value;
      HistoryStep(s, actions[0], u);
      HistoryMatchesTrace(u, actions[1..], t);
      ConcatAssociative(s.body.accepted, AcceptedBody(s, actions[0]), AcceptedBodies(u, actions[1..]));
      ConcatAssociative(s.body.delivered, ClientRead(s, actions[0]), ClientReads(u, actions[1..]));
    }
  }

  // --- main results: the body ------------------------------------------------------

  /** In every interleaving, awaited or not, no accepted chunk is lost or made up: what the
      client read, what is queued and what is in flight are together the accepted chunks, until
      the reader goes away; at the end of the stream the client has read them all. */
  lemma BodyIsConserved(isHead: bool, requestBody: Bytes, actions: seq<Action>, t: State)
    requires Run(Init(isHead, requestBody), actions) == Some(t)
    ensures var accepted := multiset(AcceptedBodies(Init(isHead, requestBody), actions));
            var read := multiset(ClientReads(Init(isHead, requestBody), actions));
            && (t.body.reader.Open? ==> read + multiset(t.body.queue) + multiset(t.body.inFlight) == accepted)
            && read <= accepted
            && (t.body.reader.Ended? ==> read == accepted)
            && |t.body.queue| <= BODY_CHANNEL_CAPACITY
  {
    var s := Init(isHead, requestBody);
    RunKeepsInv(s, actions, t, requestBody);
    HistoryMatchesTrace(s, actions, t);
    assert t.body.accepted == AcceptedBodies(s, actions) && t.body.delivered == ClientReads(s, actions);
  }

  /** When the application awaits its sends, the order is kept as well: what the client read,
      what is queued and what is in flight are together the accepted body bytes, in order, until
      the reader goes away; even afterwards the client has seen only a prefix. */
  lemma BodyIsDeliveredInOrder(isHead: bool, requestBody: Bytes, actions: seq<Action>, t: State)
    requires Run(Init(isHead, requestBody), actions) == Some(t) && Awaited(Init(isHead, requestBody), actions)
    ensures var accepted := AcceptedBodies(Init(isHead, requestBody), actions);
            var read := ClientReads(Init(isHead, requestBody), actions);
            && (t.body.reader.Open? ==>
                  Flatten(read) + Flatten(t.body.queue) + Flatten(t.body.inFlight) == Flatten(accepted))
            && read <= accepted
            && (t.body.reader.Ended? ==> read == accepted)
            && |t.body.inFlight| <= 1
  {
    var s := Init(isHead, requestBody);
    AwaitedRunKeepsOrder(s, actions, t);
    HistoryMatchesTrace(s, actions, t);
    assert t.body.accepted == AcceptedBodies(s, actions) && t.body.delivered == ClientReads(s, actions);
    FlattenAppend(t.body.delivered, t.body.queue);
    FlattenAppend(t.body.delivered + t.body.queue, t.body.inFlight);
  }

  // --- sends that are not awaited ------------------------------------------------------

  /** The pending chunks cannot be told apart. */
  predicate AllAlike(b: seq<Bytes>) {
    forall i, j :: 0 <= i < |b| && 0 <= j < |b| ==> b[i] == b[j]
  }

  predicate NoSends(actions: seq<Action>) {
    forall i :: 0 <= i < |actions| ==> !actions[i].Send?
  }

  /** The client gets what was accepted in order, whatever happens next without more sends. */
  ghost predicate OrderIsSafe(s: State) {
    forall actions, t :: NoSends(actions) && Run(s, actions) == Some(t) ==> t.body.delivered <= s.body.accepted
  }

  lemma AlikeMoves(f: seq<Bytes>, i: nat)
    requires AllAlike(f) && i < |f|
    ensures f[i] == f[0] && f[..i] + f[i + 1..] == f[1..] && AllAlike(f[1..])
  {
    var c := f[..i] + f[i + 1..];
    assert forall k :: 0 <= k < |c| ==> c[k] == f[if k < i then k else k + 1];
    assert forall k :: 0 <= k < |c| ==> c[k] == f[1..][k];
  }

  /** The order holds so far and cannot be lost. */
  predicate OnCourse(b: BodyPart) {
    b.delivered <= b.accepted && (b.reader.Open? ==> InOrder(b) && AllAlike(b.inFlight))
  }

  lemma NextStaysOnCourse(s: State, a: Action, u: State)
    requires OnCourse(s.body) && !a.Send? && Next(s, a) == Some(u)
    ensures OnCourse(u.body) && u.body.accepted == s.body.accepted
  {
    match a
    case Read =>
      ReadKeepsOrder(s.body, u.body);
      InOrderIsPrefix(u.body);
    case _ =>
  }

  lemma {:induction false} AlikeKeepsOrder(s: State, actions: seq<Action>, t: State)
    requires NoSends(actions) && Run(s, actions) == Some(t) && OnCourse(s.body)
    ensures t.body.delivered <= t.body.accepted == s.body.accepted
    decreases |actions|
  {
    if actions != [] {
      var u := Next(s, actions[0]).value;
      NextStaysOnCourse(s, actions[0], u);
      assert forall i :: 0 <= i < |actions[1..]| ==> actions[1..][i] == actions[i + 1];
      AlikeKeepsOrder(u, actions[1..], t);
    }
  }

  /** What goes wrong behind an action goes wrong before it. */
  lemma UnsafeBehind(s: State, a: Action, u: State)
    requires !a.Send? && Next(s, a) == Some(u) && u.body.accepted == s.body.accepted && !OrderIsSafe(u)
    ensures !OrderIsSafe(s)
  {
    var actions, t :| NoSends(actions) && Run(u, actions) == Some(t) && !(t.body.delivered <= u.body.accepted);
    var more := [a] + actions;
    assert more[1..] == actions;
    assert NoSends(more) && Run(s, more) == Some(t);
  }

  /** With an empty queue a later chunk can overtake the first one, from which it differs. */
  lemma OvertakingNow(s: State, i: nat)
    requires s.start.reply.Streaming? && s.body.reader.Open? && InOrder(s.body) && s.body.queue == []
    requires i < |s.body.inFlight| && s.body.inFlight[i] != s.body.inFlight[0]
    ensures !OrderIsSafe(s)
  {
    var u := Next(s, CompleteSend(i)).value;
    var t := Next(u, Action.Read).value;
    RunTwo(s, CompleteSend(i), u, Action.Read, t);
    var n := |s.body.delivered|;
    assert t.body.delivered[n] == s.body.inFlight[i];
    assert s.body.accepted[n] == s.body.inFlight[0];
    assert NoSends([CompleteSend(i), Action.Read]);
  }

  /** A later chunk overtakes the first one, once the client has emptied the queue. */
  lemma {:induction false} OvertakingBreaksOrder(s: State, i: nat)
    requires s.start.reply.Streaming? && s.body.reader.Open? && InOrder(s.body)
    requires i < |s.body.inFlight| && s.body.inFlight[i] != s.body.inFlight[0]
    ensures !OrderIsSafe(s)
    decreases |s.body.queue|
  {
    if s.body.queue == [] {
      OvertakingNow(s, i);
    } else {
      var u := Next(s, Action.Read).value;
      ReadKeepsOrder(s.body, u.body);
      OvertakingBreaksOrder(u, i);
      UnsafeBehind(s, Action.Read, u);
    }
  }

  /** Main result: while a response is streamed and in order so far, every continuation keeps the
      order if and only if the pending chunks are all the same, so in general only if at most
      one send is pending: sends that are not awaited may overtake each other. */
  lemma OrderIsSafeIff(s: State)
    requires s.start.reply.Streaming? && s.body.reader.Open? && InOrder(s.body)
    ensures OrderIsSafe(s) <==> AllAlike(s.body.inFlight)
  {
    if AllAlike(s.body.inFlight) {
      InOrderIsPrefix(s.body);
      forall actions, t | NoSends(actions) && Run(s, actions) == Some(t) ensures t.body.delivered <= s.body.accepted {
        AlikeKeepsOrder(s, actions, t);
      }
    } else {
      var i, j :| 0 <= i < |s.body.inFlight| && 0 <= j < |s.body.inFlight| && s.body.inFlight[i] != s.body.inFlight[j];
      OvertakingBreaksOrder(s, if s.body.inFlight[i] != s.body.inFlight[0] then i else j);
    }
  }

  lemma {:induction false} ClosedSlotAcceptsNothing(s: State, actions: seq<Action>)
    requires !s.body.tx
    ensures AcceptedBodies(s, actions) == []
    decreases |actions|
  {
    if actions != [] && Next(s, actions[0]).Some? {
      ClosedSlotAcceptsNothing(Next(s, actions[0]).value, actions[1..]);
    }
  }

  /** Once a body message with more_body=false was accepted, no later non-empty body is. */
  lemma NothingAfterTheFinalBody(s: State, last: Bytes, after: seq<Action>)
    requires SendAccepted(s, Body(last, false))
    ensures AcceptedBodies(AfterSend(s, Body(last, false)), after) == []
  {
    ClosedSlotAcceptsNothing(AfterSend(s, Body(last, false)), after);
  }

  // --- which sends are accepted, read off the actions alone ---------------------------

  /** The callback, or a body message marked as the last one, closes the body slot. */
  predicate ClosesBody(a: Action) {
    a.DropBody? || (a.Send? && a.message.Body? && !a.message.moreBody)
  }

  /** A response start, or the callback, uses up the start slot. */
  predicate ClosesStart(a: Action) {
    a.DropStart? || (a.Send? && a.message.Start?)
  }

  predicate BodyStaysOpen(actions: seq<Action>) {
    forall i :: 0 <= i < |actions| ==> !ClosesBody(actions[i])
  }

  predicate StartStaysOpen(actions: seq<Action>) {
    forall i :: 0 <= i < |actions| ==> !ClosesStart(actions[i])
  }

  function BodySent(a: Action): seq<Bytes> {
    if a.Send? && a.message.Body? && a.message.body != [] then [a.message.body] else []
  }

  /** The non-empty bodies sent up to and including the message that closes the slot. */
  function BodiesUntilClosed(actions: seq<Action>): seq<Bytes> {
    if actions == [] then []
    else BodySent(actions[0]) + if ClosesBody(actions[0]) then [] else BodiesUntilClosed(actions[1..])
  }

  function StartSent(a: Action): seq<ResponseStart> {
    if a.Send? && a.message.Start? then [a.message.start] else []
  }

  /** The first response start, if it is sent before the callback drops the slot. */
  function FirstStart(actions: seq<Action>): seq<ResponseStart> {
    if actions == [] then []
    else if ClosesStart(actions[0]) then StartSent(actions[0])
    else FirstStart(actions[1..])
  }

  lemma StaysOpenUnfolds(actions: seq<Action>)
    requires actions != []
    ensures BodyStaysOpen(actions) <==> !ClosesBody(actions[0]) && BodyStaysOpen(actions[1..])
    ensures StartStaysOpen(actions) <==> !ClosesStart(actions[0]) && StartStaysOpen(actions[1..])
  {
    assert forall i :: 0 <= i < |actions| - 1 ==> actions[1..][i] == actions[i + 1];
    assert forall i :: 0 < i < |actions| ==> actions[i] == actions[1..][i - 1];
  }

  lemma BodySlotStep(s: State, a: Action, t: State)
    requires Next(s, a) == Some(t)
    ensures t.body.tx <==> s.body.tx && !ClosesBody(a)
    ensures AcceptedBody(s, a) == if s.body.tx then BodySent(a) else []
  {
  }

  lemma {:induction false} BodySlotTrace(s: State, actions: seq<Action>, t: State)
    requires Run(s, actions) == Some(t)
    ensures t.body.tx <==> s.body.tx && BodyStaysOpen(actions)
    ensures AcceptedBodies(s, actions) == if s.body.tx then BodiesUntilClosed(actions) else []
    decreases |actions|
  {
    if !s.body.tx { ClosedSlotAcceptsNothing(s, actions); }
    if actions != [] {
      var u := Next(s, actions[0]).value;
      StaysOpenUnfolds(actions);
      BodySlotStep(s, actions[0], u);
      BodySlotTrace(u, actions[1..], t);
    }
  }

  lemma StartSlotStep(s: State, a: Action, t: State)
    requires Next(s, a) == Some(t)
    ensures t.start.tx <==> s.start.tx && !ClosesStart(a)
    ensures AcceptedStart(s, a) == if s.start.tx then StartSent(a) else []
  {
  }

  lemma {:induction false} StartSlotIsTakenOnce(s: State, actions: seq<Action>, t: State)
    requires Run(s, actions) == Some(t)
    ensures t.start.tx <==> s.start.tx && StartStaysOpen(actions)
    ensures AcceptedStarts(s, actions) == if s.start.tx then FirstStart(actions) else []
    decreases |actions|
  {
    if actions != [] {
      var u := Next(s, actions[0]).value;
      StaysOpenUnfolds(actions);
      StartSlotStep(s, actions[0], u);
      StartSlotIsTakenOnce(u, actions[1..], t);
    }
  }

  /** Main result: in every run the accepted bodies are all non-empty bodies that were sent, in
      order, up to and including the message that closes the slot, and the accepted start is the
      first one sent before the callback. */
  lemma EverySendUntilClosedIsAccepted(isHead: bool, requestBody: Bytes, actions: seq<Action>, t: State)
    requires Run(Init(isHead, requestBody), actions) == Some(t)
    ensures AcceptedBodies(Init(isHead, requestBody), actions) == BodiesUntilClosed(actions)
    ensures AcceptedStarts(Init(isHead, requestBody), actions) == FirstStart(actions)
  {
    BodySlotTrace(Init(isHead, requestBody), actions, t);
    StartSlotIsTakenOnce(Init(isHead, requestBody), actions, t);
  }

  /** A send returns normally if and only if its slot is still open; only an empty last body is
      accepted behind a closed slot. */
  lemma SendReturnsIff(isHead: bool, requestBody: Bytes, actions: seq<Action>, t: State, m: Message)
    requires Run(Init(isHead, requestBody), actions) == Some(t)
    ensures SendAccepted(t, m) <==>
              match m
              case Start(_) => StartStaysOpen(actions)
              case Body(body, moreBody) => BodyStaysOpen(actions) || (body == [] && !moreBody)
              case Malformed => false
  {
    BodySlotTrace(Init(isHead, requestBody), actions, t);
    StartSlotIsTakenOnce(Init(isHead, requestBody), actions, t);
  }

  // --- room for pending sends --------------------------------------------------------------

  predicate OnlyCompletes(actions: seq<Action>) {
    forall i :: 0 <= i < |actions| ==> actions[i].CompleteSend?
  }

  /** All pending sends can return without anybody reading. */
  ghost predicate AllSendsCanReturn(s: State) {
    exists actions, t :: OnlyCompletes(actions) && Run(s, actions) == Some(t) && t.body.inFlight == []
  }

  lemma {:induction false} CompletesFillTheQueue(s: State, actions: seq<Action>, t: State)
    requires s.body.reader.Open? && |s.body.queue| <= 32 && OnlyCompletes(actions) && Run(s, actions) == Some(t)
    ensures t.body.reader.Open? && |t.body.queue| <= 32
    ensures |t.body.queue| + |t.body.inFlight| == |s.body.queue| + |s.body.inFlight|
    decreases |actions|
  {
    if actions != [] {
      var u := Next(s, actions[0]).value;
      assert actions[0].CompleteSend?;
      assert forall i :: 0 <= i < |actions[1..]| ==> actions[1..][i] == actions[i + 1];
      CompletesFillTheQueue(u, actions[1..], t);
    }
  }

  lemma {:induction false} SendsReturnWithRoom(s: State) returns (actions: seq<Action>, t: State)
    requires !s.body.reader.Open? || |s.body.queue| + |s.body.inFlight| <= 32
    ensures OnlyCompletes(actions) && Run(s, actions) == Some(t) && t.body.inFlight == []
    decreases |s.body.inFlight|
  {
    if s.body.inFlight == [] {
      actions, t := [], s;
    } else {
      var u := Next(s, CompleteSend(0)).value;
      var rest;
      rest, t := SendsReturnWithRoom(u);
      actions := [CompleteSend(0)] + rest;
      assert actions[1..] == rest;
    }
  }

  /** Main result: back-pressure. Pending sends can all return without the client reading if
      and only if the client is gone or the channel's 32 places hold them. */
  lemma AllSendsCanReturnIff(s: State)
    requires |s.body.queue| <= 32
    ensures AllSendsCanReturn(s) <==> !s.body.reader.Open? || |s.body.queue| + |s.body.inFlight| <= 32
  {
    if !s.body.reader.Open? || |s.body.queue| + |s.body.inFlight| <= 32 {
      var actions, t := SendsReturnWithRoom(s);
    } else if AllSendsCanReturn(s) {
      var actions, t :| OnlyCompletes(actions) && Run(s, actions) == Some(t) && t.body.inFlight == [];
      CompletesFillTheQueue(s, actions, t);
      assert false;
    }
  }

  // --- main results: the start and the reply ----------------------------------------

  lemma StartStep(s: State, a: Action, t: State)
    requires StartInv(s.start) && Next(s, a) == Some(t)
    ensures StartInv(t.start)
    ensures AcceptedStart(s, a) != [] ==> s.start.tx && !t.start.tx
    ensures !s.start.tx ==> !t.start.tx && t.start.channel == s.start.channel
    ensures s.start.tx && t.start.channel.Sent? ==> AcceptedStart(s, a) == [t.start.channel.start]
  {
  }

  lemma {:induction false} StartSlotTrace(s: State, actions: seq<Action>, t: State)
    requires StartInv(s.start) && Run(s, actions) == Some(t)
    ensures |AcceptedStarts(s, actions)| <= (if s.start.tx then 1 else 0)
    ensures t.start.tx ==> s.start.tx && AcceptedStarts(s, actions) == []
    ensures t.start.channel.Sent? && s.start.tx ==> AcceptedStarts(s, actions) == [t.start.channel.start]
    ensures !s.start.tx ==> t.start.channel == s.start.channel
    decreases |actions|
  {
    if actions != [] {
      var u := Next(s, actions[0]).value;
      StartStep(s, actions[0], u);
      StartSlotTrace(u, actions[1..], t);
    }
  }

  /** At most one response start is ever accepted, at most one reaches the handler,
      and the reply carries exactly that one. */
  lemma OneResponseStart(isHead: bool, requestBody: Bytes, actions: seq<Action>, t: State)
    requires Run(Init(isHead, requestBody), actions) == Some(t)
    ensures var starts := AcceptedStarts(Init(isHead, requestBody), actions);
            && |starts| <= 1
            && t.start.startsTaken <= |starts|
            && (t.start.reply.Streaming? || t.start.reply.HeadOnly? ==> starts == [t.start.reply.start])
  {
    RunKeepsInv(Init(isHead, requestBody), actions, t, requestBody);
    StartSlotTrace(Init(isHead, requestBody), actions, t);
  }

  /** The first reply is the only one: the handler reaches exactly one of
      streaming, an empty HEAD reply, 500 or 504. */
  lemma {:induction false} ReplyIsFinal(s: State, actions: seq<Action>, t: State)
    requires !s.start.reply.Waiting? && Run(s, actions) == Some(t)
    ensures t.start.reply == s.start.reply && t.start.startsTaken == s.start.startsTaken
    decreases |actions|
  {
    if actions != [] {
      ReplyIsFinal(Next(s, actions[0]).value, actions[1..], t);
    }
  }

  lemma {:induction false} ReplyTrace(s: State, actions: seq<Action>, t: State)
    requires Run(s, actions) == Some(t) && s.start.reply.Waiting?
    ensures t.start.reply.GatewayTimeout? <==> Timeout in actions
    ensures t.start.reply.Waiting? <==> Timeout !in actions && TakeStart !in actions
    decreases |actions|
  {
    if actions != [] {
      var u := Next(s, actions[0]).value;
      assert actions == [actions[0]] + actions[1..];
      if u.start.reply.Waiting? {
        ReplyTrace(u, actions[1..], t);
      } else {
        ReplyIsFinal(u, actions[1..], t);
        NoReplyTwice(u, actions[1..], t);
      }
    }
  }

  lemma {:induction false} NoReplyTwice(s: State, actions: seq<Action>, t: State)
    requires Run(s, actions) == Some(t) && !s.start.reply.Waiting?
    ensures Timeout !in actions && TakeStart !in actions
    decreases |actions|
  {
    if actions != [] {
      assert actions == [actions[0]] + actions[1..];
      NoReplyTwice(Next(s, actions[0]).value, actions[1..], t);
    }
  }

  /** A reply that keeps the body receiver: it is awaited or streamed. */
  predicate KeepsReader(r: Reply) {
    r.Waiting? || r.Streaming?
  }

  lemma ReaderStep(s: State, a: Action, u: State)
    requires Next(s, a) == Some(u) && Linked(s)
    ensures u.body.reader ==
              if !s.body.reader.Open? then s.body.reader
              else if a.ReadEnd? then Ended
              else if a.Disconnect? || !KeepsReader(u.start.reply) then Dropped
              else Open
  {
  }

  lemma {:induction false} ReaderTrace(s: State, actions: seq<Action>, t: State)
    requires Run(s, actions) == Some(t) && Linked(s)
    ensures t.body.reader ==
              if !s.body.reader.Open? then s.body.reader
              else if ReadEnd in actions then Ended
              else if Disconnect in actions || !KeepsReader(t.start.reply) then Dropped
              else Open
    decreases |actions|
  {
    if actions != [] {
      var u := Next(s, actions[0]).value;
      assert actions == [actions[0]] + actions[1..];
      NextKeepsLinks(s, actions[0], u);
      ReaderStep(s, actions[0], u);
      ReaderTrace(u, actions[1..], t);
      if s.body.reader.Open? && !u.body.reader.Open? {
        ClosedReaderEndsNothing(u, actions[1..], t);
        if !u.start.reply.Waiting? { ReplyIsFinal(u, actions[1..], t); }
      }
    }
  }

  lemma {:induction false} ClosedReaderEndsNothing(s: State, actions: seq<Action>, t: State)
    requires Run(s, actions) == Some(t) && !s.body.reader.Open?
    ensures ReadEnd !in actions && Disconnect !in actions && ClientReads(s, actions) == []
    decreases |actions|
  {
    if actions != [] {
      assert actions == [actions[0]] + actions[1..];
      ClosedReaderEndsNothing(Next(s, actions[0]).value, actions[1..], t);
    }
  }

  /** Main result: the body receiver has ended if and only if the client read the end, and is
      dropped if and only if it disconnected or the reply does not stream; then nothing more
      is read. */
  lemma ReaderIsGoneIff(isHead: bool, requestBody: Bytes, actions: seq<Action>, t: State, more: seq<Action>, u: State)
    requires Run(Init(isHead, requestBody), actions) == Some(t) && Run(t, more) == Some(u)
    ensures t.body.reader.Ended? <==> ReadEnd in actions
    ensures t.body.reader.Dropped? <==> ReadEnd !in actions && (Disconnect in actions || !KeepsReader(t.start.reply))
    ensures !t.body.reader.Open? ==> ClientReads(t, more) == []
  {
    ReaderTrace(Init(isHead, requestBody), actions, t);
    if !t.body.reader.Open? { ClosedReaderEndsNothing(t, more, u); }
  }

  lemma WaitingHandlerActs(s: State)
    requires StartInv(s.start)
    ensures Next(s, Timeout).Some? <==> s.start.reply == Waiting
    ensures Next(s, TakeStart).Some? <==> s.start.reply == Waiting && !s.start.tx
  {
  }

  /** Main result: the reply is 504 if and only if the timeout fired, and there is none while
      neither the timeout nor the start has been acted on. Until then the timeout can fire, and
      the handler can act on the start if one was sent or the callback dropped the slot. */
  lemma TimeoutRepliesIff(isHead: bool, requestBody: Bytes, actions: seq<Action>, t: State)
    requires Run(Init(isHead, requestBody), actions) == Some(t)
    ensures t.start.reply == GatewayTimeout <==> Timeout in actions
    ensures t.start.reply == Waiting <==> Timeout !in actions && TakeStart !in actions
    ensures Next(t, Timeout).Some? <==> t.start.reply == Waiting
    ensures Next(t, TakeStart).Some? <==> t.start.reply == Waiting && !StartStaysOpen(actions)
  {
    ReplyTrace(Init(isHead, requestBody), actions, t);
    RunKeepsInv(Init(isHead, requestBody), actions, t, requestBody);
    StartSlotIsTakenOnce(Init(isHead, requestBody), actions, t);
    WaitingHandlerActs(t);
  }

  /** When the done-callback has dropped the start slot, a handler that still waits
      can take a step, and that step replies: with the accepted start if there was
      one, and otherwise with 500 and the recorded exception. */
  lemma DoneUnblocksTheHandler(isHead: bool, requestBody: Bytes, actions: seq<Action>, t: State)
    requires Run(Init(isHead, requestBody), actions) == Some(t)
    requires t.start.done.Rank() >= 2 && t.start.reply.Waiting?
    ensures Next(t, TakeStart).Some?
    ensures var starts := AcceptedStarts(Init(isHead, requestBody), actions);
            Next(t, TakeStart).value.start.reply ==
              if starts == [] then InternalError(t.start.exceptionMsg)
              else if isHead then HeadOnly(starts[0]) else Streaming(starts[0])
  {
    RunKeepsInv(Init(isHead, requestBody), actions, t, requestBody);
    StartSlotTrace(Init(isHead, requestBody), actions, t);
    HeadFlagIsFixed(Init(isHead, requestBody), actions, t);
    if t.start.channel.SenderDropped? {
      DroppedStartWasNeverSent(Init(isHead, requestBody), actions, t);
    }
  }

  lemma {:induction false} HeadFlagIsFixed(s: State, actions: seq<Action>, t: State)
    requires Run(s, actions) == Some(t)
    ensures t.isHead == s.isHead
    decreases |actions|
  {
    if actions != [] {
      HeadFlagIsFixed(Next(s, actions[0]).value, actions[1..], t);
    }
  }

  lemma {:induction false} DroppedStartWasNeverSent(s: State, actions: seq<Action>, t: State)
    requires Run(s, actions) == Some(t) && StartInv(s.start)
    requires t.start.reply.Waiting? && t.start.channel.SenderDropped?
    ensures AcceptedStarts(s, actions) == []
    decreases |actions|
  {
    if actions != [] {
      var u := Next(s, actions[0]).value;
      if !s.start.reply.Waiting? { ReplyIsFinal(s, actions, t); }
      if !u.start.reply.Waiting? { ReplyIsFinal(u, actions[1..], t); }
      StartStep(s, actions[0], u);
      DroppedStartWasNeverSent(u, actions[1..], t);
      if u.start.channel.Sent? { StartSlotTrace(u, actions[1..], t); }
    }
  }

  lemma {:induction false} ExceptionComesFromTheCallback(s: State, actions: seq<Action>, t: State)
    requires Run(s, actions) == Some(t) && s.start.done.NotDone?
    ensures !t.start.done.NotDone? ==> RecordException(t.start.exceptionMsg) in actions
    decreases |actions|
  {
    if actions != [] {
      var u := Next(s, actions[0]).value;
      if u.start.done.NotDone? {
        ExceptionComesFromTheCallback(u, actions[1..], t);
      } else {
        RecordedExceptionIsFixed(u, actions[1..], t);
      }
    }
  }

  lemma {:induction false} RecordedExceptionIsFixed(s: State, actions: seq<Action>, t: State)
    requires Run(s, actions) == Some(t) && !s.start.done.NotDone?
    ensures t.start.exceptionMsg == s.start.exceptionMsg
    decreases |actions|
  {
    if actions != [] {
      RecordedExceptionIsFixed(Next(s, actions[0]).value, actions[1..], t);
    }
  }

  /** A 500 reply quotes the exception the coroutine finished with: the callback
      records it before it drops the start slot, so the handler cannot miss it. */
  lemma InternalErrorQuotesTheException(isHead: bool, requestBody: Bytes, actions: seq<Action>, t: State)
    requires Run(Init(isHead, requestBody), actions) == Some(t) && t.start.reply.InternalError?
    ensures RecordException(t.start.reply.detail) in actions
  {
    RunKeepsInv(Init(isHead, requestBody), actions, t, requestBody);
    ExceptionComesFromTheCallback(Init(isHead, requestBody), actions, t);
  }

  // --- main results: the end of the stream --------------------------------------------

  /** The callback has closed the body slot and the response is being streamed. */
  predicate Draining(s: State) {
    s.start.reply.Streaming? && s.body.reader.Open? && !s.body.tx
  }

  function Measure(b: BodyPart): nat {
    2 * |b.inFlight| + |b.queue|
  }

  predicate Drains(a: Action) {
    a.Read? || a.CompleteSend?
  }

  /** While draining, no action raises the measure and each read or completed send lowers it. */
  lemma DrainNeverGrows(s: State, a: Action, t: State)
    requires Draining(s) && Next(s, a) == Some(t)
    ensures Draining(t) || !t.body.reader.Open?
    ensures Draining(t) ==> Measure(t.body) <= Measure(s.body)
    ensures Draining(t) && Drains(a) ==> Measure(t.body) < Measure(s.body)
  {
  }

  function DrainCount(actions: seq<Action>): nat {
    if actions == [] then 0 else (if Drains(actions[0]) then 1 else 0) + DrainCount(actions[1..])
  }

  /** Whatever else interleaves, at most `Measure` draining actions fit before the end. */
  lemma {:induction false} DrainIsBounded(s: State, actions: seq<Action>, t: State)
    requires Draining(s) && Run(s, actions) == Some(t) && t.body.reader.Open?
    ensures DrainCount(actions) + Measure(t.body) <= Measure(s.body)
    ensures Draining(t)
    decreases |actions|
  {
    if actions != [] {
      var u := Next(s, actions[0]).value;
      DrainNeverGrows(s, actions[0], u);
      if !u.body.reader.Open? { ClosedReaderStaysClosed(u, actions[1..], t); }
      DrainIsBounded(u, actions[1..], t);
    }
  }

  lemma {:induction false} ClosedReaderStaysClosed(s: State, actions: seq<Action>, t: State)
    requires !s.body.reader.Open? && Run(s, actions) == Some(t)
    ensures !t.body.reader.Open?
    decreases |actions|
  {
    if actions != [] {
      ClosedReaderStaysClosed(Next(s, actions[0]).value, actions[1..], t);
    }
  }

  /** The action that drains next. */
  function Drain(b: BodyPart): Action {
    if b.queue != [] then Action.Read else if b.inFlight != [] then CompleteSend(0) else ReadEnd
  }

  lemma DrainMoves(s: State, u: State)
    requires Draining(s) && (s.body.queue != [] || s.body.inFlight != [])
    requires Next(s, Drain(s.body)) == Some(u)
    ensures Draining(u) && Measure(u.body) == Measure(s.body) - 1 && u.body.accepted == s.body.accepted
    ensures InOrder(s.body) ==> InOrder(u.body)
  {
    if InOrder(s.body) {
      if s.body.queue != [] { ReadKeepsOrder(s.body, u.body); } else { CompleteKeepsOrder(s.body, u.body); }
    }
  }

  lemma DrainedInOrder(b: BodyPart)
    requires InOrder(b) && b.queue == [] && b.inFlight == []
    ensures b.delivered == b.accepted
  {
    assert b.delivered + [] + [] == b.delivered;
  }

  lemma DrainEnds(s: State, requestBody: Bytes) returns (t: State)
    requires Inv(s, requestBody) && Draining(s) && s.body.queue == [] && s.body.inFlight == []
    ensures Run(s, [ReadEnd]) == Some(t) && t.body.reader.Ended?
    ensures multiset(t.body.delivered) == multiset(s.body.accepted)
    ensures InOrder(s.body) ==> t.body.delivered == s.body.accepted
  {
    t := Next(s, ReadEnd).value;
    assert Run(t, [ReadEnd][1..]) == Some(t);
    assert multiset(s.body.queue) == multiset{} && multiset(s.body.inFlight) == multiset{};
    if InOrder(s.body) { DrainedInOrder(s.body); }
  }

  /** A draining stream is never stuck: it can always be run to its end within Measure + 1
      actions, and then the client has read every accepted chunk, in order if they were so far. */
  lemma {:induction false} DrainReachesTheEnd(s: State, requestBody: Bytes) returns (actions: seq<Action>, t: State)
    requires Inv(s, requestBody) && Draining(s)
    ensures |actions| <= Measure(s.body) + 1
    ensures Run(s, actions) == Some(t) && t.body.reader.Ended?
    ensures multiset(t.body.delivered) == multiset(s.body.accepted)
    ensures InOrder(s.body) ==> t.body.delivered == s.body.accepted
    decreases Measure(s.body)
  {
    if s.body.queue == [] && s.body.inFlight == [] {
      actions := [ReadEnd];
      t := DrainEnds(s, requestBody);
    } else {
      var a := Drain(s.body);
      var u := Next(s, a).value;
      NextKeepsInv(s, a, u, requestBody);
      DrainMoves(s, u);
      var rest;
      rest, t := DrainReachesTheEnd(u, requestBody);
      actions := [a] + rest;
      assert actions[1..] == rest;
    }
  }

  // --- main results: receive ------------------------------------------------------------

  /** The request body is handed out at most once and never altered. */
  lemma RequestBodyLeavesOnce(isHead: bool, requestBody: Bytes, actions: seq<Action>, t: State)
    requires Run(Init(isHead, requestBody), actions) == Some(t)
    ensures t.recv.handedOut == (if t.recv.requestBody.None? then [requestBody] else [])
  {
    RunKeepsInv(Init(isHead, requestBody), actions, t, requestBody);
  }

  /** What the call of `receive` returns at once. */
  function BodyReceived(s: State, a: Action): seq<Bytes> {
    if a.Receive? then ToSeq(s.recv.requestBody) else []
  }

  /** What the calls of `receive` return at once, in order. */
  function BodiesReceived(s: State, actions: seq<Action>): seq<Bytes>
    decreases |actions|
  {
    if actions == [] || Next(s, actions[0]).None? then []
    else BodyReceived(s, actions[0]) + BodiesReceived(Next(s, actions[0]).value, actions[1..])
  }

  /** The calls of `receive`, in order. */
  function CallsOf(actions: seq<Action>): seq<nat> {
    if actions == [] then []
    else (if actions[0].Receive? then [actions[0].call] else []) + CallsOf(actions[1..])
  }

  function KnownCalls(r: ReceivePart): set<nat> {
    r.waiting + r.notified + r.disconnected
  }

  /** The calls that come after the body has left. */
  function LaterCalls(s: State, actions: seq<Action>): seq<nat> {
    var calls := CallsOf(actions);
    if s.recv.requestBody.Some? && calls != [] then calls[1..] else calls
  }

  lemma ReceiveStep(s: State, a: Action, t: State)
    requires Next(s, a) == Some(t)
    ensures t.recv.requestBody == if a.Receive? then None else s.recv.requestBody
    ensures KnownCalls(t.recv) == KnownCalls(s.recv) + if a.Receive? && s.recv.requestBody.None? then {a.call} else {}
  {
  }

  lemma {:induction false} ReceiveTrace(s: State, actions: seq<Action>, t: State)
    requires Run(s, actions) == Some(t)
    ensures BodiesReceived(s, actions) == if CallsOf(actions) == [] then [] else ToSeq(s.recv.requestBody)
    ensures forall c :: c in KnownCalls(t.recv) <==> c in KnownCalls(s.recv) || c in LaterCalls(s, actions)
    decreases |actions|
  {
    if actions != [] {
      var u := Next(s, actions[0]).value;
      ReceiveStep(s, actions[0], u);
      ReceiveTrace(u, actions[1..], t);
      var calls := CallsOf(actions[1..]);
      if actions[0].Receive? { assert ([actions[0].call] + calls)[1..] == calls; }
      assert [] + calls == calls;
    }
  }

  /** Main result: the first call of `receive` returns the request body; no other call returns
      anything at once, and all others wait, are woken or have reported the disconnect. */
  lemma FirstReceiveGetsTheBody(isHead: bool, requestBody: Bytes, actions: seq<Action>, t: State)
    requires Run(Init(isHead, requestBody), actions) == Some(t)
    ensures var calls := CallsOf(actions);
            && BodiesReceived(Init(isHead, requestBody), actions) == (if calls == [] then [] else [requestBody])
            && forall c :: c in KnownCalls(t.recv) <==> calls != [] && c in calls[1..]
  {
    ReceiveTrace(Init(isHead, requestBody), actions, t);
  }

  lemma {:induction false} WakeUpNeedsACause(s: State, actions: seq<Action>, t: State)
    requires Run(s, actions) == Some(t) && s.recv.notified + s.recv.disconnected == {}
    ensures t.recv.disconnected != {} ==> Timeout in actions || NotifyDone in actions
    decreases |actions|
  {
    if actions != [] {
      var u := Next(s, actions[0]).value;
      if u.recv.notified + u.recv.disconnected == {} { WakeUpNeedsACause(u, actions[1..], t); }
    }
  }

  /** No `receive` reports a disconnect before the response is done or has timed out. */
  lemma NoEarlyDisconnect(isHead: bool, requestBody: Bytes, actions: seq<Action>, t: State)
    requires Run(Init(isHead, requestBody), actions) == Some(t) && t.recv.disconnected != {}
    ensures Timeout in actions || NotifyDone in actions
  {
    WakeUpNeedsACause(Init(isHead, requestBody), actions, t);
  }

  /** The wake-up stores no permit: a call that starts to wait after the callback
      notified, with the reply already made, waits in every continuation. */
  lemma {:induction false} LateReceiveWaitsForever(s: State, call: nat, actions: seq<Action>, t: State)
    requires s.start.done.Notified? && !s.start.reply.Waiting?
    requires call in s.recv.waiting && call !in s.recv.notified && call !in s.recv.disconnected
    requires Run(s, actions) == Some(t)
    ensures call in t.recv.waiting && call !in t.recv.disconnected
    decreases |actions|
  {
    if actions != [] {
      LateReceiveWaitsForever(Next(s, actions[0]).value, call, actions[1..], t);
    }
  }

  /** A waiting call that no wake-up has reached yet. */
  predicate StillWaits(s: State, call: nat) {
    call in s.recv.waiting && call !in s.recv.notified && call !in s.recv.disconnected
  }

  /** While the callback has not notified, finishing it wakes the call. */
  lemma {:induction false} CallbackWakes(s: State, call: nat) returns (actions: seq<Action>, t: State)
    requires StillWaits(s, call) && !s.start.done.Notified?
    ensures Run(s, actions) == Some(t) && call in t.recv.disconnected
    decreases 4 - s.start.done.Rank()
  {
    var a :=
      match s.start.done
      case NotDone => RecordException(None)
      case ExceptionRecorded => DropStart
      case StartDropped => DropBody
      case _ => NotifyDone;
    var u := Next(s, a).value;
    if a.NotifyDone? {
      t := Next(u, ReturnDisconnect(call)).value;
      RunTwo(s, a, u, ReturnDisconnect(call), t);
      actions := [a, ReturnDisconnect(call)];
    } else {
      var rest;
      rest, t := CallbackWakes(u, call);
      actions := [a] + rest;
      assert actions[1..] == rest;
    }
  }

  lemma RunTwo(s0: State, a: Action, s1: State, b: Action, s2: State)
    requires Next(s0, a) == Some(s1) && Next(s1, b) == Some(s2)
    ensures Run(s0, [a, b]) == Some(s2)
  {
    assert [a, b][1..] == [b] && [b][1..] == [];
    assert Run(s1, [b]) == Run(s2, []);
  }

  /** Main result: a waiting receive can still learn of the disconnect if and only if the
      callback has not notified yet or the handler still waits for the start, where the
      timeout may wake it. */
  lemma LateReceiveIsWokenIff(s: State, call: nat)
    requires StillWaits(s, call)
    ensures (exists actions, t :: Run(s, actions) == Some(t) && call in t.recv.disconnected)
            <==> !s.start.done.Notified? || s.start.reply.Waiting?
  {
    if !s.start.done.Notified? {
      var actions, t := CallbackWakes(s, call);
    } else if s.start.reply.Waiting? {
      var u := Next(s, Timeout).value;
      var t := Next(u, ReturnDisconnect(call)).value;
      RunTwo(s, Timeout, u, ReturnDisconnect(call), t);
    } else {
      forall actions, t | Run(s, actions) == Some(t) ensures call !in t.recv.disconnected {
        LateReceiveWaitsForever(s, call, actions, t);
      }
    }
  }

  // --- the objects the request handler shares with the application -----------------------

  lemma RunFour(s0: State, a: Action, s1: State, b: Action, s2: State, c: Action, s3: State, d: Action, s4: State)
    requires Next(s0, a) == Some(s1) && Next(s1, b) == Some(s2)
    requires Next(s2, c) == Some(s3) && Next(s3, d) == Some(s4)
    ensures Run(s0, [a, b, c, d]) == Some(s4)
  {
    assert [a, b, c, d][1..] == [b, c, d] && [b, c, d][1..] == [c, d] && [c, d][1..] == [d] && [d][1..] == [];
    assert Run(s3, [d]) == Run(s4, []);
    assert Run(s2, [c, d]) == Run(s3, [d]);
    assert Run(s1, [b, c, d]) == Run(s2, [c, d]);
  }

  datatype Buffered = Complete(body: Bytes) | PayloadTooLarge | BadRequest

  /** Buffers the request body.  The outcome depends on the bytes and on where the
      payload breaks, never on how it was cut into chunks. */
  method BufferRequestBody(payload: seq<StreamItem>, maxPayloadSize: nat) returns (r: Buffered)
    ensures r == if |Received(payload)| > maxPayloadSize then PayloadTooLarge
                 else if Breaks(payload) then BadRequest
                 else Complete(Received(payload))
  {
    var requestBody: Bytes := [];
    for i := 0 to |payload|
      invariant !Breaks(payload[..i])
      invariant requestBody == Received(payload[..i])
      invariant |requestBody| <= maxPayloadSize
    {
      ReceivedAt(payload, i);
      match payload[i]
      case Data(data) =>
        if |requestBody| + |data| > maxPayloadSize {
          return PayloadTooLarge;
        }
        requestBody := requestBody + data;
      case ReadError =>
        return BadRequest;
    }
    assert payload[..|payload|] == payload;
    return Complete(requestBody);
  }

  /** The mutable state behind `AsgiSend`, `AsgiReceive` and `AsgiDoneCallback`,
      together with the channel ends held by the handler and the response stream. */
  class MountedRequest {
    const isHead: bool
    var responseStartTx: bool
    var startChannel: StartChannel
    var exceptionMsg: Option<string>
    var reply: Reply
    var bodyTx: bool
    var queue: seq<Bytes>
    var inFlight: seq<Bytes>
    var reader: Reader
    var requestBody: Option<Bytes>
    var waiting: set<nat>
    var notified: set<nat>
    ghost var done: DonePhase
    ghost var startsTaken: nat
    ghost var accepted: seq<Bytes>
    ghost var delivered: seq<Bytes>
    ghost var handedOut: seq<Bytes>
    ghost var disconnected: set<nat>

    ghost function Abs(): State
      reads this
    {
      State(isHead,
            StartPart(responseStartTx, startChannel, exceptionMsg, reply, done, startsTaken),
            BodyPart(bodyTx, queue, inFlight, reader, accepted, delivered),
            ReceivePart(requestBody, waiting, notified, handedOut, disconnected))
    }

    constructor (isHead: bool, body: Bytes)
      ensures Abs() == Init(isHead, body)
    {
      this.isHead := isHead;
      responseStartTx, startChannel, exceptionMsg, reply := true, Vacant, None, Waiting;
      bodyTx, queue, inFlight, reader := true, [], [], Open;
      requestBody, waiting, notified := Some(body), {}, {};
      done, startsTaken, accepted, delivered := NotDone, 0, [], [];
      handedOut, disconnected := [], {};
    }

    /** `AsgiSend.__call__`: false when it raises. */
    method Send(message: Message) returns (ok: bool)
      modifies this
      ensures ok == SendAccepted(old(Abs()), message)
      ensures Abs() == AfterSend(old(Abs()), message)
    {
      match message {
        case Start(start) => ok := SendStart(start);
        case Body(body, moreBody) => ok := SendBody(body, moreBody);
        case Malformed => ok := false;
      }
    }

    method SendStart(start: ResponseStart) returns (ok: bool)
      modifies this
      ensures ok == old(responseStartTx)
      ensures Abs() == old(Abs()).(start := old(Abs()).start.Send(start))
    {
      if !responseStartTx {
        return false;
      }
      responseStartTx := false;
      startChannel := if reply.Waiting? then Sent(start) else SenderDropped;
      return true;
    }

    method SendBody(body: Bytes, moreBody: bool) returns (ok: bool)
      modifies this
      ensures ok == (old(bodyTx) || (!moreBody && body == []))
      ensures Abs() == old(Abs()).(body := old(Abs()).body.Send(body, moreBody))
    {
      if bodyTx {
        if !moreBody {
          bodyTx := false;
        }
        if body != [] {
          inFlight, accepted := inFlight + [body], accepted + [body];
        }
      } else if moreBody || body != [] {
        return false;
      }
      return true;
    }

    /** `AsgiReceive.__call__`: the request body, or None when the call starts to wait. */
    method Receive(call: nat) returns (r: Option<Bytes>)
      requires call !in waiting + notified + disconnected
      modifies this
      ensures r == old(requestBody)
      ensures Next(old(Abs()), Action.Receive(call)) == Some(Abs())
    {
      r := requestBody;
      if r.Some? {
        requestBody, handedOut := None, handedOut + [r.value];
      } else {
        waiting := waiting + {call};
      }
    }

    method RecordException(exc: Option<string>)
      requires done.NotDone?
      modifies this
      ensures Next(old(Abs()), Action.RecordException(exc)) == Some(Abs())
    {
      exceptionMsg, done := exc, ExceptionRecorded;
    }

    method DropStart()
      requires done.ExceptionRecorded?
      modifies this
      ensures Next(old(Abs()), Action.DropStart) == Some(Abs())
    {
      if responseStartTx {
        responseStartTx, startChannel := false, SenderDropped;
      }
      done := StartDropped;
    }

    method DropBody()
      requires done.StartDropped?
      modifies this
      ensures Next(old(Abs()), Action.DropBody) == Some(Abs())
    {
      bodyTx, done := false, BodyDropped;
    }

    method NotifyDone()
      requires done.BodyDropped?
      modifies this
      ensures Next(old(Abs()), Action.NotifyDone) == Some(Abs())
    {
      notified, waiting, done := notified + waiting, {}, Notified;
    }

    /** `AsgiDoneCallback.__call__`: the four lock sections, in this order. */
    method DoneCallback(exc: Option<string>)
      requires done.NotDone?
      modifies this
      ensures Run(old(Abs()), [Action.RecordException(exc), Action.DropStart, Action.DropBody, Action.NotifyDone])
           == Some(Abs())
    {
      ghost var s0 := Abs();
      RecordException(exc);
      ghost var s1 := Abs();
      DropStart();
      ghost var s2 := Abs();
      DropBody();
      ghost var s3 := Abs();
      NotifyDone();
      RunFour(s0, Action.RecordException(exc), s1, Action.DropStart, s2, Action.DropBody, s3, Action.NotifyDone, Abs());
    }

    /** The handler's `select!` on the start channel; false while it has to keep waiting. */
    method TakeStart() returns (replied: bool)
      requires reply.Waiting?
      modifies this
      ensures replied == old(Abs()).start.Take(isHead).Some?
      ensures replied ==> Abs() == AfterTakeStart(old(Abs()), old(Abs()).start.Take(isHead).value)
      ensures !replied ==> Abs() == old(Abs())
    {
      match startChannel
      case Vacant =>
        return false;
      case Sent(start) =>
        startsTaken := startsTaken + 1;
        reply := if isHead then HeadOnly(start) else Streaming(start);
        if isHead {
          reader, queue := Dropped, [];
        }
        return true;
      case SenderDropped =>
        reply, reader, queue := InternalError(exceptionMsg), Dropped, [];
        return true;
    }
  }
}
