/**
 The synchronous stream producer (src/streaming.rs): a thread that pulls items
 from a Python generator in batches and sends each with a blocking send.
 A run is any sequence of enabled actions of generator, thread and client.
 */
module SyncProducer {
  import opened Common
  import opened StreamChannel

  /** Filling counts the `__next__` calls of the current batch. */
  datatype Phase = Filling(calls: nat) | Draining | Done

  /** closes counts the calls of the generator's `close`. */
  datatype State = State(
    batchSize: nat,
    phase: Phase,
    batch: seq<Bytes>,
    exhausted: bool,
    closes: nat,
    ch: Channel)

  /** What one `__next__` call answers. */
  datatype Pulled = Item(chunk: Bytes) | Unconvertible | StopIteration | OtherError

  datatype Action =
    | Pull(result: Pulled)
    | StartDrain
    | SendHead
    | SendFails
    | FinishDrain
    | Receive
    | ReceiveEnd
    | Disconnect

  function Init(batchSize: nat, capacity: nat): State {
    State(batchSize, Filling(0), [], false, 0, Channel(capacity, [], true, false))
  }

  function AfterPull(s: State, r: Pulled): State
    requires s.phase.Filling?
  {
    match r
    case Item(chunk) => s.(phase := Filling(s.phase.calls + 1), batch := s.batch + [chunk])
    case Unconvertible => s.(phase := Filling(s.phase.calls + 1))
    case StopIteration => s.(phase := Draining, exhausted := true)
    case OtherError => s.(phase := Draining)
  }

  function Next(s: State, a: Action): Option<State> {
    match a
    case Pull(r) =>
      if s.phase.Filling? && s.phase.calls < s.batchSize then Some(AfterPull(s, r)) else None
    case StartDrain =>
      if s.phase.Filling? && s.phase.calls == s.batchSize then Some(s.(phase := Draining)) else None
    case SendHead =>
      if s.phase.Draining? && s.batch != [] && s.ch.HasRoom() then
        Some(s.(ch := s.ch.Push(s.batch[0]), batch := s.batch[1..]))
      else None
    case SendFails =>
      // the receiver is gone: close the generator, drop the rest of the batch, leave, close again
      if s.phase.Draining? && s.batch != [] && !s.ch.connected then
        Some(s.(phase := Done, batch := [], exhausted := true, closes := s.closes + 2))
      else None
    case FinishDrain =>
      if !s.phase.Draining? || s.batch != [] then None
      else if s.exhausted then Some(s.(phase := Done, closes := s.closes + 1))
      else Some(s.(phase := Filling(0)))
    case Receive => if s.ch.CanReceive() then Some(s.(ch := s.ch.Receive())) else None
    case ReceiveEnd => if s.ch.CanEnd(s.phase.Done?) then Some(s.(ch := s.ch.(ended := true))) else None
    case Disconnect => if s.ch.connected then Some(s.(ch := s.ch.Disconnect())) else None
  }

  function Run(s: State, actions: seq<Action>): Option<State>
    decreases |actions|
  {
    if actions == [] then Some(s)
    else
      var t := Next(s, actions[0]);
      if t.None? then None else Run(t.value, actions[1..])
  }

  function ProducedBy(a: Action): seq<Bytes> {
    if a.Pull? && a.result.Item? then [a.result.chunk] else []
  }

  function ReceivedBy(s: State, a: Action): seq<Bytes> {
    if a.Receive? && s.ch.CanReceive() then [s.ch.queue[0]] else []
  }

  /** The converted chunks the generator yielded. */
  function Produced(actions: seq<Action>): seq<Bytes> {
    if actions == [] then [] else ProducedBy(actions[0]) + Produced(actions[1..])
  }

  /** The chunks the client took from the channel. */
  function ReceivedChunks(s: State, actions: seq<Action>): seq<Bytes>
    decreases |actions|
  {
    if actions == [] || Next(s, actions[0]).None? then []
    else ReceivedBy(s, actions[0]) + ReceivedChunks(Next(s, actions[0]).value, actions[1..])
  }

  // --- delivery ---------------------------------------------------------------------

  ghost predicate Inv(s: State, produced: seq<Bytes>, received: seq<Bytes>) {
    && Flow(s.ch, produced, received, s.batch, s.phase.Done?)
    && (s.phase.Done? ==> s.exhausted && s.batch == [])
    && (s.phase.Done? <==> s.closes > 0)
    && (s.exhausted ==> !s.phase.Filling?)
  }

  lemma NextKeepsInv(s: State, a: Action, t: State, produced: seq<Bytes>, received: seq<Bytes>)
    requires Inv(s, produced, received) && Next(s, a) == Some(t)
    ensures Inv(t, produced + ProducedBy(a), received + ReceivedBy(s, a))
  {
    assert produced + [] == produced && received + [] == received;
    match a
    case Pull(r) =>
      if r.Item? { ProduceKeepsFlow(s.ch, produced, received, s.batch, r.chunk); }
    case SendHead => PushKeepsFlow(s.ch, produced, received, s.batch);
    case Receive => ReceiveKeepsFlow(s.ch, produced, received, s.batch, s.phase.Done?);
    case _ =>
  }

  lemma {:induction false} RunKeepsInv(s: State, actions: seq<Action>, t: State, produced: seq<Bytes>, received: seq<Bytes>)
    requires Inv(s, produced, received) && Run(s, actions) == Some(t)
    ensures Inv(t, produced + Produced(actions), received + ReceivedChunks(s, actions))
    decreases |actions|
  {
    if actions == [] {
      assert produced + Produced(actions) == produced && received + ReceivedChunks(s, actions) == received;
    } else {
      var a := actions[0];
      var u := Next(s, a).value;
      NextKeepsInv(s, a, u, produced, received);
      RunKeepsInv(u, actions[1..], t, produced + ProducedBy(a), received + ReceivedBy(s, a));
      ConcatAssociative(produced, ProducedBy(a), Produced(actions[1..]));
      ConcatAssociative(received, ReceivedBy(s, a), ReceivedChunks(u, actions[1..]));
    }
  }

  /** Main result: for every batch size and channel capacity, in every interleaving, the
      client has received a prefix of what was yielded; while it stays connected nothing
      is lost; the end of stream comes only after everything was received; and the
      generator has been closed exactly when the thread is done. */
  lemma NothingIsLostOrReordered(batchSize: nat, capacity: nat, actions: seq<Action>, t: State)
    requires Run(Init(batchSize, capacity), actions) == Some(t)
    ensures var received := ReceivedChunks(Init(batchSize, capacity), actions);
            && received <= Produced(actions)
            && (t.ch.connected ==> received + t.ch.queue + t.batch == Produced(actions))
            && (t.ch.ended ==> received == Produced(actions))
            && |t.ch.queue| <= t.ch.capacity
    ensures t.phase.Done? <==> t.closes > 0
  {
    RunKeepsInv(Init(batchSize, capacity), actions, t, [], []);
    assert [] + Produced(actions) == Produced(actions);
    assert [] + ReceivedChunks(Init(batchSize, capacity), actions) == ReceivedChunks(Init(batchSize, capacity), actions);
  }

  /** Main result: the generator is closed twice when a send fails, where the drain loop and the
      thread's end both close it, and once when the thread is done otherwise. */
  lemma {:induction false} GeneratorIsClosed(s: State, actions: seq<Action>, t: State)
    requires Run(s, actions) == Some(t) && (s.phase.Done? ==> s.closes > 0)
    ensures t.closes == s.closes +
              if s.phase.Done? || !t.phase.Done? then 0 else if SendFails in actions then 2 else 1
    decreases |actions|
  {
    if actions != [] {
      var u := Next(s, actions[0]).value;
      assert actions == [actions[0]] + actions[1..];
      GeneratorIsClosed(u, actions[1..], t);
      if u.phase.Done? { DoneStaysDone(u, actions[1..], t); }
    }
  }

  lemma {:induction false} DoneStaysDone(s: State, actions: seq<Action>, t: State)
    requires s.phase.Done? && Run(s, actions) == Some(t)
    ensures t.phase.Done? && SendFails !in actions && CountPulls(actions) == 0
    decreases |actions|
  {
    if actions != [] {
      assert actions == [actions[0]] + actions[1..];
      DoneStaysDone(Next(s, actions[0]).value, actions[1..], t);
    }
  }

  /** Items the thread may still pull into a batch before it has to send. */
  function ItemsLeft(s: State): nat {
    match s.phase
    case Filling(calls) => if calls < s.batchSize then s.batchSize - calls else if s.batch == [] then s.batchSize else 0
    case Draining => if s.batch == [] && !s.exhausted then s.batchSize else 0
    case Done => 0
  }

  /** Main result: once the client is gone the thread pulls at most one more batch of items that
      can be sent: the first send fails and ends it. */
  lemma {:induction false} DisconnectedThreadStops(s: State, actions: seq<Action>, t: State)
    requires !s.ch.connected && Run(s, actions) == Some(t)
    requires s.phase.Filling? ==> s.phase.calls <= s.batchSize && !s.exhausted
    ensures |Produced(actions)| <= s.batchSize
    ensures s.batch != [] ==> |Produced(actions)| <= ItemsLeft(s)
    decreases |actions|
  {
    if actions != [] {
      var u := Next(s, actions[0]).value;
      DisconnectedThreadStops(u, actions[1..], t);
    }
  }

  // --- termination -------------------------------------------------------------------

  predicate IsWork(a: Action) {
    a.StartDrain? || a.SendHead? || a.SendFails? || a.FinishDrain?
  }

  function CountWork(actions: seq<Action>): nat {
    if actions == [] then 0 else (if IsWork(actions[0]) then 1 else 0) + CountWork(actions[1..])
  }

  function CountPulls(actions: seq<Action>): nat {
    if actions == [] then 0 else (if actions[0].Pull? then 1 else 0) + CountPulls(actions[1..])
  }

  /** The generator's answers, in order. */
  function Answers(actions: seq<Action>): seq<Pulled> {
    if actions == [] then []
    else (if actions[0].Pull? then [actions[0].result] else []) + Answers(actions[1..])
  }

  /** Work the thread still owes for what it has pulled. */
  function Debt(s: State): nat {
    |s.batch| + (match s.phase case Filling(k) => if k > 0 then 2 else 0 case Draining => 1 case Done => 0)
  }

  /** Between two pulls the thread does a bounded amount of work: at most three actions
      per `__next__` call over the whole run. */
  lemma {:induction false} WorkIsBounded(s: State, actions: seq<Action>, t: State)
    requires s.batchSize >= 1 && Run(s, actions) == Some(t)
    ensures CountWork(actions) + Debt(t) <= 3 * CountPulls(actions) + Debt(s)
    decreases |actions|
  {
    if actions != [] {
      WorkIsBounded(Next(s, actions[0]).value, actions[1..], t);
    }
  }

  /** Python's generator law: after an exception a generator only raises StopIteration. */
  predicate GeneratorLaw(answers: seq<Pulled>) {
    forall i, j :: 0 <= i < j < |answers| && (answers[i].OtherError? || answers[i].StopIteration?) ==> answers[j].StopIteration?
  }

  function CountItems(answers: seq<Pulled>): nat {
    if answers == [] then 0
    else (if answers[0].Item? || answers[0].Unconvertible? then 1 else 0) + CountItems(answers[1..])
  }

  /** After the first StopIteration the thread never pulls again. */
  lemma {:induction false} NoPullAfterStop(s: State, actions: seq<Action>, t: State)
    requires s.exhausted && !s.phase.Filling? && Run(s, actions) == Some(t)
    ensures Answers(actions) == [] && CountPulls(actions) == 0
    decreases |actions|
  {
    if actions != [] {
      NoPullAfterStop(Next(s, actions[0]).value, actions[1..], t);
    }
  }

  lemma {:induction false} PullsAreBounded(s: State, actions: seq<Action>, t: State, failed: bool)
    requires Run(s, actions) == Some(t) && GeneratorLaw(Answers(actions))
    requires failed ==> forall i :: 0 <= i < |Answers(actions)| ==> Answers(actions)[i].StopIteration?
    ensures CountPulls(actions) <= CountItems(Answers(actions)) + (if failed then 1 else 2)
    decreases |actions|
  {
    if actions != [] {
      var a := actions[0];
      var u := Next(s, a).value;
      var all, rest := Answers(actions), Answers(actions[1..]);
      if !a.Pull? {
        assert all == rest;
        PullsAreBounded(u, actions[1..], t, failed);
      } else {
        assert all[0] == a.result && all[1..] == rest;
        assert forall i :: 0 <= i < |rest| ==> rest[i] == all[i + 1];
        if a.result.StopIteration? {
          NoPullAfterStop(u, actions[1..], t);
        } else {
          PullsAreBounded(u, actions[1..], t, a.result.OtherError?);
        }
      }
    }
  }

  /** Main result: with a law-abiding generator the thread's own actions are bounded by
      the number of items yielded, whatever the client does. */
  lemma ThreadActionsAreBounded(batchSize: nat, capacity: nat, actions: seq<Action>, t: State)
    requires batchSize >= 1 && Run(Init(batchSize, capacity), actions) == Some(t)
    requires GeneratorLaw(Answers(actions))
    ensures CountPulls(actions) <= CountItems(Answers(actions)) + 2
    ensures CountWork(actions) <= 3 * (CountItems(Answers(actions)) + 2)
  {
    WorkIsBounded(Init(batchSize, capacity), actions, t);
    PullsAreBounded(Init(batchSize, capacity), actions, t, false);
  }

  // --- exactly when the loop ends ------------------------------------------------------

  /** A run whose `__next__` calls are answered by f, one after the other. */
  ghost predicate FollowedRun(f: nat -> Pulled, batchSize: nat, capacity: nat, actions: seq<Action>) {
    && Run(Init(batchSize, capacity), actions).Some?
    && forall i :: 0 <= i < |Answers(actions)| ==> Answers(actions)[i] == f(i)
  }

  /** No run makes the thread act more often than the bound says. */
  ghost predicate ActionsBoundedBy(f: nat -> Pulled, batchSize: nat, capacity: nat, bound: nat) {
    forall actions :: FollowedRun(f, batchSize, capacity, actions) ==> CountPulls(actions) + CountWork(actions) <= bound
  }

  lemma {:induction false} PullsAreAnswered(actions: seq<Action>)
    ensures |Answers(actions)| == CountPulls(actions)
  {
    if actions != [] { PullsAreAnswered(actions[1..]); }
  }

  /** An answer that is StopIteration is the last one. */
  lemma {:induction false} StopIsTheLastAnswer(s: State, actions: seq<Action>, t: State, k: nat)
    requires Run(s, actions) == Some(t) && k < |Answers(actions)| && Answers(actions)[k].StopIteration?
    ensures |Answers(actions)| == k + 1
    decreases |actions|
  {
    var a := actions[0];
    var u := Next(s, a).value;
    if !a.Pull? {
      assert Answers(actions) == Answers(actions[1..]);
      StopIsTheLastAnswer(u, actions[1..], t, k);
    } else if k == 0 {
      NoPullAfterStop(u, actions[1..], t);
    } else {
      assert Answers(actions)[1..] == Answers(actions[1..]);
      StopIsTheLastAnswer(u, actions[1..], t, k - 1);
    }
  }

  lemma StopBoundsTheThread(f: nat -> Pulled, batchSize: nat, capacity: nat, k: nat)
    requires batchSize >= 1 && f(k).StopIteration?
    ensures ActionsBoundedBy(f, batchSize, capacity, 4 * (k + 1))
  {
    forall actions | FollowedRun(f, batchSize, capacity, actions)
      ensures CountPulls(actions) + CountWork(actions) <= 4 * (k + 1)
    {
      var t := Run(Init(batchSize, capacity), actions).value;
      PullsAreAnswered(actions);
      WorkIsBounded(Init(batchSize, capacity), actions, t);
      if k < |Answers(actions)| { StopIsTheLastAnswer(Init(batchSize, capacity), actions, t, k); }
    }
  }

  /** A connected client that reads, and a generator that has not stopped. */
  predicate Live(s: State) {
    s.ch.connected && s.ch.capacity >= 1 && s.batchSize >= 1 && !s.exhausted && !s.phase.Done?
    && (s.phase.Filling? ==> s.phase.calls <= s.batchSize)
  }

  predicate ReadyToPull(s: State) {
    Live(s) && s.phase.Filling? && s.phase.calls < s.batchSize
  }

  /** The queue and the batch drain, and the thread pulls again. */
  lemma {:induction false} ComesToPullAgain(s: State) returns (actions: seq<Action>, t: State)
    requires Live(s)
    ensures Run(s, actions) == Some(t) && ReadyToPull(t) && Answers(actions) == []
    decreases s.phase.Filling? && s.phase.calls == s.batchSize, 2 * |s.batch| + |s.ch.queue|
  {
    if ReadyToPull(s) {
      actions, t := [], s;
    } else {
      var a :=
        if s.phase.Filling? then StartDrain
        else if s.batch == [] then FinishDrain
        else if s.ch.HasRoom() then SendHead
        else Action.Receive;
      var u := Next(s, a).value;
      if a.FinishDrain? {
        actions, t := [a], u;
        assert actions[1..] == [];
      } else {
        var rest;
        rest, t := ComesToPullAgain(u);
        actions := [a] + rest;
        assert actions[1..] == rest;
      }
    }
  }

  /** Without StopIteration among the answers the thread can be made to pull any number of
      times, from any state in which it is ready to. */
  lemma {:induction false} PullsGoOn(f: nat -> Pulled, s: State, from: nat, n: nat) returns (actions: seq<Action>, t: State)
    requires ReadyToPull(s) && forall k: nat :: !f(k).StopIteration?
    ensures Run(s, actions) == Some(t) && |Answers(actions)| == n
    ensures forall i :: 0 <= i < n ==> Answers(actions)[i] == f(from + i)
    decreases n
  {
    if n == 0 {
      actions, t := [], s;
    } else {
      var u := Next(s, Pull(f(from))).value;
      var drain, v := ComesToPullAgain(u);
      var more;
      more, t := PullsGoOn(f, v, from + 1, n - 1);
      actions := PullDrainAndGoOn(s, f(from), u, drain, v, more, t);
    }
  }

  /** One pull, the draining after it and the rest of a run, put together. */
  lemma PullDrainAndGoOn(
    s: State, r: Pulled, u: State, drain: seq<Action>, v: State, more: seq<Action>, t: State)
    returns (actions: seq<Action>)
    requires Next(s, Pull(r)) == Some(u) && Run(u, drain) == Some(v) && Run(v, more) == Some(t)
    requires Answers(drain) == []
    ensures Run(s, actions) == Some(t) && Answers(actions) == [r] + Answers(more)
  {
    RunConcat(u, drain, v, more);
    AnswersConcat(drain, more);
    assert [] + Answers(more) == Answers(more);
    actions := [Pull(r)] + (drain + more);
    assert actions[1..] == drain + more;
  }

  lemma {:induction false} RunConcat(s: State, a: seq<Action>, t: State, b: seq<Action>)
    requires Run(s, a) == Some(t)
    ensures Run(s, a + b) == Run(t, b)
    decreases |a|
  {
    if a == [] {
      assert a + b == b;
    } else {
      assert (a + b)[0] == a[0] && (a + b)[1..] == a[1..] + b;
      RunConcat(Next(s, a[0]).value, a[1..], t, b);
    }
  }

  lemma {:induction false} AnswersConcat(a: seq<Action>, b: seq<Action>)
    ensures Answers(a + b) == Answers(a) + Answers(b)
  {
    if a == [] {
      assert a + b == b;
    } else {
      assert (a + b)[0] == a[0] && (a + b)[1..] == a[1..] + b;
      AnswersConcat(a[1..], b);
    }
  }

  /** Main result: for every stream of answers, the thread's own actions are bounded over all
      runs if and only if some answer is StopIteration, whatever else the iterator raises. */
  lemma LoopEndsIffIteratorStops(f: nat -> Pulled, batchSize: nat, capacity: nat)
    requires batchSize >= 1 && capacity >= 1
    ensures (exists bound: nat :: ActionsBoundedBy(f, batchSize, capacity, bound))
            <==> exists k: nat :: f(k).StopIteration?
  {
    if k: nat :| f(k).StopIteration? {
      StopBoundsTheThread(f, batchSize, capacity, k);
    } else {
      forall bound: nat ensures !ActionsBoundedBy(f, batchSize, capacity, bound) {
        var actions, t := PullsGoOn(f, Init(batchSize, capacity), 0, bound + 1);
        PullsAreAnswered(actions);
        assert FollowedRun(f, batchSize, capacity, actions);
      }
    }
  }

  /** Without the law the loop can spin: an iterator that keeps raising another error is
      pulled any number of times although nothing is ever produced. */
  lemma {:induction false} LawlessIteratorSpins(s: State, n: nat) returns (actions: seq<Action>)
    requires s.phase == Filling(0) && s.batch == [] && !s.exhausted && s.batchSize >= 1
    ensures Run(s, actions) == Some(s) && CountPulls(actions) == n && Produced(actions) == []
  {
    if n == 0 {
      actions := [];
    } else {
      var u := Next(s, Pull(OtherError)).value;
      assert Next(u, FinishDrain) == Some(s);
      var rest := LawlessIteratorSpins(s, n - 1);
      actions := [Pull(OtherError), FinishDrain] + rest;
      assert actions[1..] == [FinishDrain] + rest && actions[1..][1..] == rest;
      assert Run(u, actions[1..]) == Run(s, rest);
      assert CountPulls(actions[1..]) == CountPulls(rest) && Produced(actions[1..]) == Produced(rest);
    }
  }

  /** Once the thread is done, a connected client can always read the queue and then the end. */
  lemma {:induction false} DoneStreamCanBeReadToTheEnd(s: State) returns (actions: seq<Action>)
    requires s.phase.Done? && s.ch.connected && !s.ch.ended
    ensures |actions| == |s.ch.queue| + 1
    ensures Run(s, actions).Some? && Run(s, actions).value.ch.ended
    ensures ReceivedChunks(s, actions) == s.ch.queue
    decreases |s.ch.queue|
  {
    var a := if s.ch.queue != [] then Action.Receive else ReceiveEnd;
    var u := Next(s, a).value;
    if a.ReceiveEnd? {
      actions := [a];
      assert Run(s, actions) == Run(u, actions[1..]) == Some(u);
    } else {
      var rest := DoneStreamCanBeReadToTheEnd(u);
      actions := [a] + rest;
      assert actions[1..] == rest;
    }
  }

  /** The client is connected until it disconnects, and has seen the end when it read it. */
  lemma {:induction false} ConnectionTrace(s: State, actions: seq<Action>, t: State)
    requires Run(s, actions) == Some(t)
    ensures t.ch.connected <==> s.ch.connected && Disconnect !in actions
    ensures t.ch.ended <==> s.ch.ended || ReceiveEnd in actions
    decreases |actions|
  {
    if actions != [] {
      assert actions == [actions[0]] + actions[1..];
      ConnectionTrace(Next(s, actions[0]).value, actions[1..], t);
    }
  }

  // --- one batch ---------------------------------------------------------------------------

  function Pulls(results: seq<Pulled>): seq<Action> {
    if results == [] then [] else [Pull(results[0])] + Pulls(results[1..])
  }

  /** The answer does not end the batch: an item, also one that cannot be sent. */
  predicate GoesOn(r: Pulled) {
    r.Item? || r.Unconvertible?
  }

  function ItemsIn(results: seq<Pulled>): seq<Bytes> {
    if results == [] then []
    else (if results[0].Item? then [results[0].chunk] else []) + ItemsIn(results[1..])
  }

  /** Only the last answer may end the batch. */
  predicate OnlyLastEnds(results: seq<Pulled>) {
    forall i :: 0 <= i < |results| - 1 ==> GoesOn(results[i])
  }

  lemma OnlyLastEndsUnfolds(results: seq<Pulled>)
    requires results != []
    ensures OnlyLastEnds(results) <==> |results| == 1 || (GoesOn(results[0]) && OnlyLastEnds(results[1..]))
  {
    var rest := results[1..];
    assert forall i :: 0 <= i < |rest| ==> rest[i] == results[i + 1];
    assert forall i :: 0 < i < |results| ==> results[i] == rest[i - 1];
  }

  /** What the thread is in after these answers. */
  ghost predicate BatchAfter(s: State, results: seq<Pulled>, t: State)
    requires s.phase.Filling? && results != []
  {
    var last, calls := results[|results| - 1], s.phase.calls + |results|;
    && t.batch == s.batch + ItemsIn(results)
    && t.phase == (if GoesOn(last) then Filling(calls) else Draining)
    && t.exhausted == last.StopIteration? && t.batchSize == s.batchSize
    && (Next(t, StartDrain).Some? <==> GoesOn(last) && calls == s.batchSize)
  }

  lemma BatchAfterOne(s: State, r: Pulled)
    requires s.phase.Filling? && s.phase.calls < s.batchSize && !s.exhausted
    ensures Run(s, Pulls([r])) == Some(AfterPull(s, r)) && BatchAfter(s, [r], AfterPull(s, r))
  {
    assert Pulls([r])[1..] == Pulls([r][1..]) == [];
    assert ItemsIn([r][1..]) == [];
    assert Run(AfterPull(s, r), []) == Some(AfterPull(s, r));
  }

  lemma BatchAfterMore(s: State, r: Pulled, u: State, rest: seq<Pulled>, t: State)
    requires s.phase.Filling? && !s.exhausted && GoesOn(r) && u == AfterPull(s, r)
    requires rest != [] && BatchAfter(u, rest, t)
    ensures BatchAfter(s, [r] + rest, t)
  {
    assert ([r] + rest)[1..] == rest;
    ConcatAssociative(s.batch, if r.Item? then [r.chunk] else [], ItemsIn(rest));
  }

  /** Main result: a batch takes answers up to its size, and stops behind the first that is
      StopIteration or another error; it then holds exactly the items that could be converted. */
  lemma {:induction false} BatchTakes(s: State, results: seq<Pulled>)
    requires s.phase.Filling? && s.phase.calls <= s.batchSize && !s.exhausted && results != []
    ensures Run(s, Pulls(results)).Some? <==> s.phase.calls + |results| <= s.batchSize && OnlyLastEnds(results)
    ensures Run(s, Pulls(results)).Some? ==> BatchAfter(s, results, Run(s, Pulls(results)).value)
    decreases |results|
  {
    var rest := results[1..];
    assert Pulls(results)[1..] == Pulls(rest);
    OnlyLastEndsUnfolds(results);
    if s.phase.calls < s.batchSize {
      var u := AfterPull(s, results[0]);
      assert Run(s, Pulls(results)) == Run(u, Pulls(rest));
      if rest == [] {
        assert results == [results[0]];
        BatchAfterOne(s, results[0]);
      } else if GoesOn(results[0]) {
        BatchTakes(u, rest);
        assert results == [results[0]] + rest;
        if Run(u, Pulls(rest)).Some? { BatchAfterMore(s, results[0], u, rest, Run(u, Pulls(rest)).value); }
      } else {
        assert Pulls(rest)[0].Pull?;
      }
    }
  }

  // --- the fill loop ---------------------------------------------------------------------

  /** A generator as the list of answers it has left; when none is left it stops. */
  class Generator {
    var answers: seq<Pulled>

    constructor (answers: seq<Pulled>)
      ensures this.answers == answers
    {
      this.answers := answers;
    }

    method NextAnswer() returns (r: Pulled)
      modifies this
      ensures old(answers) == [] ==> r.StopIteration? && answers == []
      ensures old(answers) != [] ==> r == old(answers)[0] && answers == old(answers)[1..]
    {
      if answers == [] {
        return StopIteration;
      }
      r := answers[0];
      answers := answers[1..];
    }
  }

  lemma {:induction false} RunSnoc(s: State, actions: seq<Action>, t: State, a: Action, u: State)
    requires Run(s, actions) == Some(t) && Next(t, a) == Some(u)
    ensures Run(s, actions + [a]) == Some(u)
    decreases |actions|
  {
    if actions == [] {
      assert Run(u, [a][1..]) == Some(u);
      assert actions + [a] == [a];
    } else {
      assert (actions + [a])[0] == actions[0] && (actions + [a])[1..] == actions[1..] + [a];
      RunSnoc(Next(s, actions[0]).value, actions[1..], t, a, u);
    }
  }

  /** One batch: pulls until the batch is full, the generator stops or it raises.  The
      loop does exactly what the machine's pull actions do. */
  method FillBatch(gen: Generator, s: State) returns (batch: seq<Bytes>, exhausted: bool, ghost pulls: seq<Action>)
    requires s.phase == Filling(0) && s.batch == [] && !s.exhausted
    modifies gen
    ensures Run(s, pulls) == Some(s.(phase := Draining, batch := batch, exhausted := exhausted))
    ensures batch == Produced(pulls)
    ensures || Answers(pulls) + gen.answers == old(gen.answers)
            || (gen.answers == [] && Answers(pulls) == old(gen.answers) + [StopIteration])
  {
    batch, exhausted, pulls := [], false, [];
    ghost var at := s;
    for i := 0 to s.batchSize
      invariant at == s.(phase := Filling(i), batch := batch)
      invariant Run(s, pulls) == Some(at)
      invariant batch == Produced(pulls)
      invariant Answers(pulls) + gen.answers == old(gen.answers)
    {
      var r := gen.NextAnswer();
      ghost var after := AfterPull(at, r);
      RunSnoc(s, pulls, at, Pull(r), after);
      ProducedSnoc(pulls, Pull(r));
      AnswersConcat(pulls, [Pull(r)]);
      pulls, at := pulls + [Pull(r)], after;
      match r {
        case Item(chunk) => batch := batch + [chunk];
        case Unconvertible =>
        case StopIteration =>
          exhausted := true;
          return;
        case OtherError =>
          return;
      }
    }
    RunSnoc(s, pulls, at, StartDrain, at.(phase := Draining));
    ProducedSnoc(pulls, StartDrain);
    AnswersConcat(pulls, [StartDrain]);
    pulls := pulls + [StartDrain];
  }

  lemma {:induction false} ProducedSnoc(actions: seq<Action>, a: Action)
    ensures Produced(actions + [a]) == Produced(actions) + ProducedBy(a)
  {
    if actions == [] {
      assert actions + [a] == [a] && Produced([a][1..]) == [];
    } else {
      assert (actions + [a])[0] == actions[0] && (actions + [a])[1..] == actions[1..] + [a];
      ProducedSnoc(actions[1..], a);
    }
  }
}
