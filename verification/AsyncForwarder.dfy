/**
 The asynchronous stream forwarder (src/streaming.rs): a coroutine that pulls
 items and sends them through a try-send fast path or an awaiting slow path.
 A run is any sequence of enabled actions of generator, forwarder and client.
 */
module AsyncForwarder {
  import opened Common
  import opened StreamChannel

  datatype Phase = Running | Awaiting(pending: Bytes) | Closing | Closed

  datatype State = State(phase: Phase, ch: Channel)

  datatype Action =
    | Yield(chunk: Bytes)
    | YieldUnsupported
    | Finish
    | CompleteSend
    | FailSend
    | Close
    | Receive
    | ReceiveEnd
    | Disconnect

  function Init(capacity: nat): State {
    State(Running, Channel(capacity, [], true, false))
  }

  /** `AsyncStreamSender.send`: try first, await when the channel is full, give up
      when it is closed. */
  function AfterYield(s: State, chunk: Bytes): State {
    if !s.ch.connected then s.(phase := Closing)
    else if s.ch.HasRoom() then s.(ch := s.ch.Push(chunk))
    else s.(phase := Awaiting(chunk))
  }

  function Next(s: State, a: Action): Option<State> {
    match a
    case Yield(chunk) => if s.phase.Running? then Some(AfterYield(s, chunk)) else None
    case YieldUnsupported => if s.phase.Running? then Some(s.(phase := Closing)) else None
    case Finish => if s.phase.Running? then Some(s.(phase := Closing)) else None
    case CompleteSend =>
      if s.phase.Awaiting? && s.ch.HasRoom() then Some(State(Running, s.ch.Push(s.phase.pending))) else None
    case FailSend => if s.phase.Awaiting? && !s.ch.connected then Some(s.(phase := Closing)) else None
    case Close => if s.phase.Closing? then Some(s.(phase := Closed)) else None
    case Receive => if s.ch.CanReceive() then Some(s.(ch := s.ch.Receive())) else None
    case ReceiveEnd => if s.ch.CanEnd(s.phase.Closed?) then Some(s.(ch := s.ch.(ended := true))) else None
    case Disconnect => if s.ch.connected then Some(s.(ch := s.ch.Disconnect())) else None
  }

  function Run(s: State, actions: seq<Action>): Option<State>
    decreases |actions|
  {
    if actions == [] then Some(s)
    else
      var t := Next(s, actions[0]);
      if t.None? then None else Run(t.value, actions[1..])
  }

  function ProducedBy(a: Action): seq<Bytes> {
    if a.Yield? then [a.chunk] else []
  }

  function ReceivedBy(s: State, a: Action): seq<Bytes> {
    if a.Receive? && s.ch.CanReceive() then [s.ch.queue[0]] else []
  }

  /** The converted chunks the generator yielded. */
  function Produced(actions: seq<Action>): seq<Bytes> {
    if actions == [] then [] else ProducedBy(actions[0]) + Produced(actions[1..])
  }

  /** The chunks the client took from the channel. */
  function ReceivedChunks(s: State, actions: seq<Action>): seq<Bytes>
    decreases |actions|
  {
    if actions == [] || Next(s, actions[0]).None? then []
    else ReceivedBy(s, actions[0]) + ReceivedChunks(Next(s, actions[0]).value, actions[1..])
  }

  function Pending(s: State): seq<Bytes> {
    if s.phase.Awaiting? then [s.phase.pending] else []
  }

  ghost predicate Inv(s: State, produced: seq<Bytes>, received: seq<Bytes>) {
    Flow(s.ch, produced, received, Pending(s), s.phase.Closed?)
  }

  lemma NextKeepsInv(s: State, a: Action, t: State, produced: seq<Bytes>, received: seq<Bytes>)
    requires Inv(s, produced, received) && Next(s, a) == Some(t)
    ensures Inv(t, produced + ProducedBy(a), received + ReceivedBy(s, a))
  {
    assert produced + [] == produced && received + [] == received;
    match a
    case Yield(chunk) =>
      ProduceKeepsFlow(s.ch, produced, received, [], chunk);
      if s.ch.HasRoom() { PushKeepsFlow(s.ch, produced + [chunk], received, [chunk]); }
    case CompleteSend => PushKeepsFlow(s.ch, produced, received, Pending(s));
    case Receive => ReceiveKeepsFlow(s.ch, produced, received, Pending(s), s.phase.Closed?);
    case _ =>
  }

  lemma {:induction false} RunKeepsInv(s: State, actions: seq<Action>, t: State, produced: seq<Bytes>, received: seq<Bytes>)
    requires Inv(s, produced, received) && Run(s, actions) == Some(t)
    ensures Inv(t, produced + Produced(actions), received + ReceivedChunks(s, actions))
    decreases |actions|
  {
    if actions == [] {
      assert produced + Produced(actions) == produced && received + ReceivedChunks(s, actions) == received;
    } else {
      var a := actions[0];
      var u := Next(s, a).value;
      NextKeepsInv(s, a, u, produced, received);
      RunKeepsInv(u, actions[1..], t, produced + ProducedBy(a), received + ReceivedBy(s, a));
      ConcatAssociative(produced, ProducedBy(a), Produced(actions[1..]));
      ConcatAssociative(received, ReceivedBy(s, a), ReceivedChunks(u, actions[1..]));
    }
  }

  /** Main result: in every interleaving the client has received a prefix of what was
      yielded; while it stays connected nothing is lost, and the end of stream comes
      only after everything was received. */
  lemma NothingIsLostOrReordered(capacity: nat, actions: seq<Action>, t: State)
    requires Run(Init(capacity), actions) == Some(t)
    ensures var received := ReceivedChunks(Init(capacity), actions);
            && received <= Produced(actions)
            && (t.ch.connected ==> received + t.ch.queue + Pending(t) == Produced(actions))
            && (t.ch.ended ==> received == Produced(actions))
            && |t.ch.queue| <= t.ch.capacity
  {
    RunKeepsInv(Init(capacity), actions, t, [], []);
    assert [] + Produced(actions) == Produced(actions);
    assert [] + ReceivedChunks(Init(capacity), actions) == ReceivedChunks(Init(capacity), actions);
  }

  function Yields(actions: seq<Action>): nat {
    if actions == [] then 0 else (if actions[0].Yield? then 1 else 0) + Yields(actions[1..])
  }

  /** What the forwarder does next without another item, when the client keeps reading. */
  function Onwards(s: State): Action {
    match s.phase
    case Running => Finish
    case Awaiting(_) =>
      if !s.ch.connected then FailSend else if s.ch.HasRoom() then CompleteSend else Action.Receive
    case Closing => Action.Close
    case Closed => if s.ch.queue != [] then Action.Receive else ReceiveEnd
  }

  function Distance(s: State): nat {
    2 * |s.ch.queue| + match s.phase case Awaiting(_) => 6 case Running => 3 case Closing => 2 case Closed => 1
  }

  /** Main result: the stream is never stuck. From any state with a connected client, whether the
      forwarder runs, awaits room, closes or has closed, the client can read on to the end
      without another item, and gets exactly the queue and what the forwarder still holds. */
  lemma {:induction false} StreamCanBeReadToTheEnd(s: State) returns (actions: seq<Action>)
    requires s.ch.connected && !s.ch.ended && s.ch.capacity >= 1 && |s.ch.queue| <= s.ch.capacity
    ensures Run(s, actions).Some? && Run(s, actions).value.ch.ended && Run(s, actions).value.phase.Closed?
    ensures ReceivedChunks(s, actions) == s.ch.queue + Pending(s) && Yields(actions) == 0
    decreases Distance(s)
  {
    var a := Onwards(s);
    var u := Next(s, a).value;
    if a.ReceiveEnd? {
      actions := [a];
      assert Run(s, actions) == Run(u, actions[1..]) == Some(u);
    } else {
      var rest := StreamCanBeReadToTheEnd(u);
      actions := [a] + rest;
      assert actions[1..] == rest;
      assert ReceivedBy(s, a) + (u.ch.queue + Pending(u)) == s.ch.queue + Pending(s);
    }
  }

  /** Main result: once the client is gone at most one more item is pulled, and none while a
      send is pending or the forwarder closes. */
  lemma {:induction false} DisconnectedForwarderStops(s: State, actions: seq<Action>, t: State)
    requires !s.ch.connected && Run(s, actions) == Some(t)
    ensures Yields(actions) <= if s.phase.Running? then 1 else 0
    decreases |actions|
  {
    if actions != [] {
      DisconnectedForwarderStops(Next(s, actions[0]).value, actions[1..], t);
    }
  }

  /** The generator has stopped, or yielded what cannot be sent. */
  predicate Stops(a: Action) {
    a.Finish? || a.YieldUnsupported?
  }

  lemma {:induction false} NoYieldBehindTheLoop(s: State, actions: seq<Action>, t: State)
    requires (s.phase.Closing? || s.phase.Closed?) && Run(s, actions) == Some(t)
    ensures Yields(actions) == 0 && (t.phase.Closing? || t.phase.Closed?)
    decreases |actions|
  {
    if actions != [] { NoYieldBehindTheLoop(Next(s, actions[0]).value, actions[1..], t); }
  }

  /** Main result: nothing is pulled once the generator has stopped or yielded what cannot be
      sent, and the forwarder closes exactly once. */
  lemma {:induction false} NothingIsPulledAfterTheStop(s: State, before: seq<Action>, a: Action, after: seq<Action>, t: State)
    requires Run(s, before + [a] + after) == Some(t) && Stops(a)
    ensures Yields(after) == 0 && (t.phase.Closed? <==> Action.Close in after)
    decreases |before|
  {
    var all := before + [a] + after;
    if before == [] {
      assert all[0] == a && all[1..] == after;
      var u := Next(s, a).value;
      NoYieldBehindTheLoop(u, after, t);
      ClosesInTime(u, after, t);
    } else {
      assert all[0] == before[0] && all[1..] == before[1..] + [a] + after;
      NothingIsPulledAfterTheStop(Next(s, before[0]).value, before[1..], a, after, t);
    }
  }

  lemma {:induction false} ClosesInTime(s: State, actions: seq<Action>, t: State)
    requires (s.phase.Closing? || s.phase.Closed?) && Run(s, actions) == Some(t)
    ensures t.phase.Closed? <==> s.phase.Closed? || Action.Close in actions
    decreases |actions|
  {
    if actions != [] {
      assert actions == [actions[0]] + actions[1..];
      ClosesInTime(Next(s, actions[0]).value, actions[1..], t);
    }
  }

  /** The client is connected until it disconnects, and has seen the end when it read it. */
  lemma {:induction false} ConnectionTrace(s: State, actions: seq<Action>, t: State)
    requires Run(s, actions) == Some(t)
    ensures t.ch.connected <==> s.ch.connected && Disconnect !in actions
    ensures t.ch.ended <==> s.ch.ended || ReceiveEnd in actions
    decreases |actions|
  {
    if actions != [] {
      assert actions == [actions[0]] + actions[1..];
      ConnectionTrace(Next(s, actions[0]).value, actions[1..], t);
    }
  }

  /** It can always close, in at most two steps of its own. */
  lemma DisconnectedForwarderCloses(s: State) returns (actions: seq<Action>)
    requires !s.ch.connected
    ensures |actions| <= 2 && Run(s, actions).Some? && Run(s, actions).value.phase.Closed?
  {
    if s.phase.Closed? {
      actions := [];
    } else {
      var u := if s.phase.Closing? then s else Next(s, Onwards(s)).value;
      assert Run(u, [Action.Close]) == Run(Next(u, Action.Close).value, [Action.Close][1..]);
      actions := if s.phase.Closing? then [Action.Close] else [Onwards(s), Action.Close];
      if !s.phase.Closing? { assert actions[1..] == [Action.Close]; }
    }
  }

  // --- the sender object ------------------------------------------------------------

  /** The answer of `send` to the coroutine: continue, stop, or await the slow path. */
  datatype Answer = Continue | Stop | Await

  class AsyncStreamSender {
    var ch: Channel
    var tx: bool
    var pending: Option<Bytes>

    constructor (capacity: nat)
      ensures ch == Channel(capacity, [], true, false) && tx && pending.None?
    {
      ch, tx, pending := Channel(capacity, [], true, false), true, None;
    }

    /** The state seen by the machine while the coroutine runs. */
    ghost function Abs(): State
      reads this
    {
      State(if pending.Some? then Awaiting(pending.value) else if tx then Running else Closed, ch)
    }

    /** The coroutine is the only caller and awaits an awaitable answer before it sends again. */
    method Send(chunk: Bytes) returns (answer: Answer)
      requires pending.None?
      modifies this
      ensures answer.Stop? <==> !old(tx) || !old(ch).connected
      ensures answer.Stop? ==> Abs() == old(Abs())
      ensures answer.Stop? && old(tx) ==> AfterYield(old(Abs()), chunk).phase.Closing?
      ensures !answer.Stop? ==> Abs() == AfterYield(old(Abs()), chunk) && tx
      ensures answer.Await? <==> pending.Some?
    {
      if !tx || !ch.connected {
        return Stop;
      }
      if |ch.queue| < ch.capacity {
        ch := ch.Push(chunk);
        return Continue;
      }
      pending := Some(chunk);
      return Await;
    }

    method Close()
      requires pending.None?
      modifies this
      ensures ch == old(ch) && Abs().phase.Closed?
    {
      tx := false;
    }
  }
}
