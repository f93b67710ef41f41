/**
 The lazily built middleware chain and route executors of one API object
 (python/django_bolt/api.py), under any interleaving of requests.

 Each request is a small program: check the flag, take the lock, check again, build, store
 the chain, set the flag, release; then look up the executor for its handler in the same
 way; then run. One step is one read or write of shared state. A build may raise.
 */
module MiddlewareCaches {
  import opened Common

  /** An object built at some point, told apart by its identity. */
  type Built = nat

  type RequestId = nat

  type Meta = nat

  /** A route executor closes over the metadata of the request that built it. */
  datatype Executor = Executor(id: Built, meta: Meta)

  datatype Phase =
    | Entered
    | WantsChainLock
    | ChecksChain
    | BuildsChain
    | HasBuiltChain(chain: Built)
    | HasStoredChain(chain: Built)
    | LeavesChainLock
    | ChainReady
    | WantsExecutorLock
    | ChecksExecutor
    | BuildsExecutor
    | HasBuiltExecutor(executor: Executor)
    | LeavesExecutorLock(executor: Executor)
    | HasExecutor(executor: Executor)
    | Running(used: Option<Built>, executor: Executor)
    | Raised

  /** meta is the metadata of the route that was asked for; handlers may have several routes. */
  datatype Request = Request(handler: nat, meta: Meta, phase: Phase)

  datatype Caches = Caches(
    flag: bool, chain: Option<Built>, chainLock: Option<RequestId>,
    executors: map<nat, Executor>, executorLock: Option<RequestId>)

  datatype State = State(caches: Caches, requests: map<RequestId, Request>)

  datatype Action = Arrive(r: RequestId, handler: nat, meta: Meta) | Step(r: RequestId, made: Built, raises: bool)

  const START := State(Caches(false, None, None, map[], None), map[])

  datatype Moved = Moved(caches: Caches, phase: Phase)

  /** One step of request r; None when it is waiting for a lock or has finished. */
  function Move(c: Caches, r: RequestId, q: Request, made: Built, raises: bool): Option<Moved> {
    match q.phase
    case Entered => Some(Moved(c, if c.flag then ChainReady else WantsChainLock))
    case WantsChainLock =>
      if c.chainLock.Some? then None else Some(Moved(c.(chainLock := Some(r)), ChecksChain))
    case ChecksChain => Some(Moved(c, if c.flag then LeavesChainLock else BuildsChain))
    case BuildsChain =>
      if raises then Some(Moved(c.(chainLock := None), Raised)) else Some(Moved(c, HasBuiltChain(made)))
    case HasBuiltChain(chain) => Some(Moved(c.(chain := Some(chain)), HasStoredChain(chain)))
    case HasStoredChain(_) => Some(Moved(c.(flag := true), LeavesChainLock))
    case LeavesChainLock => Some(Moved(c.(chainLock := None), ChainReady))
    case ChainReady =>
      Some(Moved(c, if q.handler in c.executors then HasExecutor(c.executors[q.handler]) else WantsExecutorLock))
    case WantsExecutorLock =>
      if c.executorLock.Some? then None else Some(Moved(c.(executorLock := Some(r)), ChecksExecutor))
    case ChecksExecutor =>
      Some(Moved(c, if q.handler in c.executors then LeavesExecutorLock(c.executors[q.handler]) else BuildsExecutor))
    case BuildsExecutor =>
      if raises then Some(Moved(c.(executorLock := None), Raised)) else Some(Moved(c, HasBuiltExecutor(Executor(made, q.meta))))
    case HasBuiltExecutor(e) => Some(Moved(c.(executors := c.executors[q.handler := e]), LeavesExecutorLock(e)))
    case LeavesExecutorLock(e) => Some(Moved(c.(executorLock := None), HasExecutor(e)))
    case HasExecutor(e) => Some(Moved(c, Running(c.chain, e)))
    case Running(_, _) => None
    case Raised => None
  }

  function Next(s: State, a: Action): Option<State> {
    match a
    case Arrive(r, handler, meta) =>
      if r in s.requests then None
      else Some(State(s.caches, s.requests[r := Request(handler, meta, Entered)]))
    case Step(r, made, raises) =>
      if r !in s.requests then None
      else
        var m := Move(s.caches, r, s.requests[r], made, raises);
        if m.None? then None
        else Some(State(m.value.caches, s.requests[r := s.requests[r].(phase := m.value.phase)]))
  }

  function Run(s: State, actions: seq<Action>): Option<State>
    decreases |actions|
  {
    if actions == [] then Some(s)
    else
      var t := Next(s, actions[0]);
      if t.None? then None else Run(t.value, actions[1..])
  }

  // --- the invariant ------------------------------------------------------------------------

  predicate InsideChainLock(p: Phase) {
    p.ChecksChain? || p.BuildsChain? || p.HasBuiltChain? || p.HasStoredChain? || p.LeavesChainLock?
  }

  predicate InsideExecutorLock(p: Phase) {
    p.ChecksExecutor? || p.BuildsExecutor? || p.HasBuiltExecutor? || p.LeavesExecutorLock?
  }

  predicate PastChain(p: Phase) {
    p.ChainReady? || p.WantsExecutorLock? || InsideExecutorLock(p) || p.HasExecutor? || p.Running?
  }

  /** The flag is set after the chain is stored; between the two the lock is held. */
  predicate CachesInv(c: Caches) {
    && (c.flag ==> c.chain.Some?)
    && (c.chainLock.None? && c.chain.Some? ==> c.flag)
  }

  /** What request r knows about the caches. */
  predicate Knows(c: Caches, r: RequestId, q: Request) {
    && (InsideChainLock(q.phase) <==> c.chainLock == Some(r))
    && (InsideExecutorLock(q.phase) <==> c.executorLock == Some(r))
    && (q.phase.ChecksChain? && c.chain.Some? ==> c.flag)
    && (q.phase.BuildsChain? || q.phase.HasBuiltChain? ==> !c.flag && c.chain.None?)
    && (q.phase.HasStoredChain? ==> !c.flag && c.chain == Some(q.phase.chain))
    && (q.phase.LeavesChainLock? || PastChain(q.phase) ==> c.flag)
    && (q.phase.BuildsExecutor? || q.phase.HasBuiltExecutor? ==> q.handler !in c.executors)
    && (q.phase.LeavesExecutorLock? || q.phase.HasExecutor? || q.phase.Running? ==>
          q.handler in c.executors && c.executors[q.handler] == q.phase.executor)
    && (q.phase.Running? ==> q.phase.used.Some? && q.phase.used == c.chain)
  }

  ghost predicate Inv(s: State) {
    && CachesInv(s.caches)
    && (forall r :: r in s.requests ==> Knows(s.caches, r, s.requests[r]))
    && (s.caches.chainLock.Some? ==> s.caches.chainLock.value in s.requests)
    && (s.caches.executorLock.Some? ==> s.caches.executorLock.value in s.requests)
  }

  lemma MoveKeepsOwn(c: Caches, r: RequestId, q: Request, made: Built, raises: bool)
    requires CachesInv(c) && Knows(c, r, q) && Move(c, r, q, made, raises).Some?
    ensures var m := Move(c, r, q, made, raises).value;
            CachesInv(m.caches) && Knows(m.caches, r, q.(phase := m.phase))
  {
  }

  /** A step of one request does not disturb what another one knows. */
  lemma MoveKeepsOthers(c: Caches, r: RequestId, q: Request, made: Built, raises: bool, o: RequestId, p: Request)
    requires CachesInv(c) && Knows(c, r, q) && Move(c, r, q, made, raises).Some?
    requires o != r && Knows(c, o, p)
    ensures Knows(Move(c, r, q, made, raises).value.caches, o, p)
  {
  }

  lemma NextKeepsInv(s: State, a: Action)
    requires Inv(s) && Next(s, a).Some?
    ensures Inv(Next(s, a).value)
  {
    var t := Next(s, a).value;
    if a.Step? {
      var q := s.requests[a.r];
      MoveKeepsOwn(s.caches, a.r, q, a.made, a.raises);
      forall o | o in t.requests && o != a.r ensures Knows(t.caches, o, t.requests[o]) {
        MoveKeepsOthers(s.caches, a.r, q, a.made, a.raises, o, s.requests[o]);
      }
    }
  }

  lemma {:induction false} RunKeepsInv(s: State, actions: seq<Action>)
    requires Inv(s) && Run(s, actions).Some?
    ensures Inv(Run(s, actions).value)
    decreases |actions|
  {
    if actions != [] {
      NextKeepsInv(s, actions[0]);
      RunKeepsInv(Next(s, actions[0]).value, actions[1..]);
    }
  }

  // --- what requests use ------------------------------------------------------------------------

  /** Main result: whatever the interleaving, a request that runs uses a built chain, the same
      one as every other request, and requests for one handler use the same executor. */
  lemma EveryoneUsesTheSame(actions: seq<Action>, s: State, r: RequestId, o: RequestId)
    requires Run(START, actions) == Some(s)
    requires r in s.requests && s.requests[r].phase.Running?
    requires o in s.requests && s.requests[o].phase.Running?
    ensures s.requests[r].phase.used.Some?
    ensures s.requests[r].phase.used == s.requests[o].phase.used == s.caches.chain
    ensures s.requests[r].handler == s.requests[o].handler ==>
              s.requests[r].phase.executor == s.requests[o].phase.executor
  {
    RunKeepsInv(START, actions);
    assert Knows(s.caches, r, s.requests[r]) && Knows(s.caches, o, s.requests[o]);
  }

  /** What is cached in c is still cached, unchanged, in d. */
  ghost predicate CachePersists(c: Caches, d: Caches) {
    && (c.chain.Some? ==> d.chain == c.chain)
    && (c.flag ==> d.flag)
    && (forall h :: h in c.executors ==> h in d.executors && d.executors[h] == c.executors[h])
  }

  lemma NextPersists(s: State, a: Action)
    requires Inv(s) && Next(s, a).Some?
    ensures CachePersists(s.caches, Next(s, a).value.caches)
  {
    if a.Step? {
      assert Knows(s.caches, a.r, s.requests[a.r]);
    }
  }

  /** Main result: a cached chain or executor is never replaced or dropped. */
  lemma {:induction false} CachedEntriesNeverChange(s: State, actions: seq<Action>)
    requires Inv(s) && Run(s, actions).Some?
    ensures CachePersists(s.caches, Run(s, actions).value.caches)
    decreases |actions|
  {
    if actions != [] {
      NextPersists(s, actions[0]);
      NextKeepsInv(s, actions[0]);
      CachedEntriesNeverChange(Next(s, actions[0]).value, actions[1..]);
    }
  }

  // --- builds are counted on the run -----------------------------------------------------------------

  /** The action completes the build of a chain. */
  predicate CompletesChain(s: State, a: Action) {
    a.Step? && !a.raises && a.r in s.requests && s.requests[a.r].phase.BuildsChain?
  }

  predicate CompletesExecutor(s: State, a: Action, handler: nat) {
    && a.Step? && !a.raises && a.r in s.requests
    && s.requests[a.r].phase.BuildsExecutor? && s.requests[a.r].handler == handler
  }

  /** How many chains a run builds. */
  function ChainBuilds(s: State, actions: seq<Action>): nat
    requires Run(s, actions).Some?
    decreases |actions|
  {
    if actions == [] then 0
    else (if CompletesChain(s, actions[0]) then 1 else 0) + ChainBuilds(Next(s, actions[0]).value, actions[1..])
  }

  /** How many executors a run builds for one handler. */
  function ExecutorBuilds(s: State, actions: seq<Action>, handler: nat): nat
    requires Run(s, actions).Some?
    decreases |actions|
  {
    if actions == [] then 0
    else
      (if CompletesExecutor(s, actions[0], handler) then 1 else 0)
      + ExecutorBuilds(Next(s, actions[0]).value, actions[1..], handler)
  }

  /** A chain exists: stored, or in the hands of the request that built it. */
  ghost predicate ChainExists(s: State) {
    s.caches.chain.Some? || exists r :: r in s.requests && s.requests[r].phase.HasBuiltChain?
  }

  ghost predicate ExecutorExists(s: State, handler: nat) {
    || handler in s.caches.executors
    || exists r :: r in s.requests && s.requests[r].phase.HasBuiltExecutor? && s.requests[r].handler == handler
  }

  lemma ExecutorStaysBuilt(s: State, a: Action, handler: nat)
    requires Inv(s) && Next(s, a).Some?
    ensures ExecutorExists(s, handler) ==> ExecutorExists(Next(s, a).value, handler) && !CompletesExecutor(s, a, handler)
    ensures CompletesExecutor(s, a, handler) ==> ExecutorExists(Next(s, a).value, handler)
  {
    var t := Next(s, a).value;
    NextPersists(s, a);
    if a.Step? { assert Knows(s.caches, a.r, s.requests[a.r]); }
    if handler !in s.caches.executors && ExecutorExists(s, handler) {
      var r :| r in s.requests && s.requests[r].phase.HasBuiltExecutor? && s.requests[r].handler == handler;
      assert Knows(s.caches, r, s.requests[r]);
      assert a.r == r || t.requests[r] == s.requests[r];
    }
    if CompletesExecutor(s, a, handler) {
      assert t.requests[a.r].phase.HasBuiltExecutor?;
    }
  }

  lemma {:induction false} ChainBuildsFrom(s: State, actions: seq<Action>)
    requires Inv(s) && Run(s, actions).Some?
    ensures ChainBuilds(s, actions) <= if ChainExists(s) then 0 else 1
    decreases |actions|
  {
    if actions != [] {
      NextKeepsInv(s, actions[0]);
      ChainBuildsFrom(Next(s, actions[0]).value, actions[1..]);
    }
  }

  lemma {:induction false} ExecutorBuildsFrom(s: State, actions: seq<Action>, handler: nat)
    requires Inv(s) && Run(s, actions).Some?
    ensures ExecutorBuilds(s, actions, handler) <= if ExecutorExists(s, handler) then 0 else 1
    decreases |actions|
  {
    if actions != [] {
      NextKeepsInv(s, actions[0]);
      ExecutorStaysBuilt(s, actions[0], handler);
      ExecutorBuildsFrom(Next(s, actions[0]).value, actions[1..], handler);
    }
  }

  /** Main result: in every run the chain is built at most once and the executor at most once
      per handler, failed builds not counted. */
  lemma NothingIsBuiltTwice(actions: seq<Action>, handler: nat)
    requires Run(START, actions).Some?
    ensures ChainBuilds(START, actions) <= 1 && ExecutorBuilds(START, actions, handler) <= 1
  {
    ChainBuildsFrom(START, actions);
    ExecutorBuildsFrom(START, actions, handler);
  }

  // --- every request gets through -----------------------------------------------------------------------

  predicate Finished(p: Phase) {
    p.Running? || p.Raised?
  }

  /** Steps a request can still take. */
  function StepsLeft(p: Phase): nat {
    match p
    case Entered => 14 case WantsChainLock => 13 case ChecksChain => 12 case BuildsChain => 11
    case HasBuiltChain(_) => 10 case HasStoredChain(_) => 9 case LeavesChainLock => 8 case ChainReady => 7
    case WantsExecutorLock => 6 case ChecksExecutor => 5 case BuildsExecutor => 4 case HasBuiltExecutor(_) => 3
    case LeavesExecutorLock(_) => 2 case HasExecutor(_) => 1 case Running(_, _) => 0 case Raised => 0
  }

  /** Every step of a request brings it nearer to its end and moves no other request. */
  lemma StepsAreBounded(s: State, a: Action)
    requires a.Step? && Next(s, a).Some?
    ensures var t := Next(s, a).value;
            && t.requests.Keys == s.requests.Keys
            && StepsLeft(t.requests[a.r].phase) < StepsLeft(s.requests[a.r].phase)
            && forall o :: o in s.requests && o != a.r ==> t.requests[o] == s.requests[o]
  {
  }

  /** While some request has not finished, some request can take a step: a request only waits
      for a lock whose holder can move. */
  lemma NoDeadlock(s: State, r: RequestId) returns (a: Action)
    requires Inv(s) && r in s.requests && !Finished(s.requests[r].phase)
    ensures a.Step? && Next(s, a).Some?
  {
    var p := s.requests[r].phase;
    a := Step(
      if p.WantsChainLock? && s.caches.chainLock.Some? then s.caches.chainLock.value
      else if p.WantsExecutorLock? && s.caches.executorLock.Some? then s.caches.executorLock.value
      else r, 0, false);
    assert Knows(s.caches, a.r, s.requests[a.r]);
  }

  // --- whose metadata an executor has ---------------------------------------------------------------

  /** Each executor, cached or in a request's hands, has the metadata of some arrived request for
      its handler. */
  ghost predicate Arrived(s: State, handler: nat, meta: Meta) {
    exists r :: r in s.requests && s.requests[r].handler == handler && s.requests[r].meta == meta
  }

  predicate HoldsExecutor(p: Phase) {
    p.HasBuiltExecutor? || p.LeavesExecutorLock? || p.HasExecutor? || p.Running?
  }

  ghost predicate CacheMeta(s: State) {
    forall h :: h in s.caches.executors ==> Arrived(s, h, s.caches.executors[h].meta)
  }

  ghost predicate RequestMeta(s: State, q: Request) {
    HoldsExecutor(q.phase) ==> Arrived(s, q.handler, q.phase.executor.meta)
  }

  ghost predicate MetaInv(s: State) {
    CacheMeta(s) && forall r :: r in s.requests ==> RequestMeta(s, s.requests[r])
  }

  lemma ArrivalsStay(s: State, a: Action, t: State, handler: nat, meta: Meta)
    requires Next(s, a) == Some(t) && Arrived(s, handler, meta)
    ensures Arrived(t, handler, meta)
  {
    var r :| r in s.requests && s.requests[r].handler == handler && s.requests[r].meta == meta;
    assert r in t.requests && t.requests[r].handler == handler && t.requests[r].meta == meta;
  }

  /** A step takes an executor from the cache, keeps it, or makes one with its own metadata. */
  lemma StepKeepsOwnMeta(s: State, a: Action, t: State)
    requires MetaInv(s) && a.Step? && Next(s, a) == Some(t)
    ensures RequestMeta(t, t.requests[a.r])
  {
    var q, v := s.requests[a.r], t.requests[a.r];
    assert RequestMeta(s, q);
    if q.phase.BuildsExecutor? {
      assert v.handler == q.handler && v.meta == q.meta;
    } else if HoldsExecutor(v.phase) {
      assert v.handler == q.handler && Arrived(s, q.handler, v.phase.executor.meta);
      ArrivalsStay(s, a, t, q.handler, v.phase.executor.meta);
    }
  }

  lemma NextKeepsCacheMeta(s: State, a: Action, t: State)
    requires MetaInv(s) && Next(s, a) == Some(t)
    ensures CacheMeta(t)
  {
    forall h | h in t.caches.executors ensures Arrived(t, h, t.caches.executors[h].meta) {
      if a.Step? { assert RequestMeta(s, s.requests[a.r]); }
      ArrivalsStay(s, a, t, h, t.caches.executors[h].meta);
    }
  }

  lemma NextKeepsMeta(s: State, a: Action, t: State)
    requires MetaInv(s) && Next(s, a) == Some(t)
    ensures MetaInv(t)
  {
    NextKeepsCacheMeta(s, a, t);
    forall r | r in t.requests ensures RequestMeta(t, t.requests[r]) {
      if a.Step? && r == a.r {
        StepKeepsOwnMeta(s, a, t);
      } else if r != a.r {
        assert t.requests[r] == s.requests[r] && RequestMeta(s, s.requests[r]);
        if HoldsExecutor(s.requests[r].phase) {
          ArrivalsStay(s, a, t, s.requests[r].handler, s.requests[r].phase.executor.meta);
        }
      }
    }
  }

  /** The routes that requests ask for, as pairs of a handler and its metadata. */
  ghost predicate FromRoutes(routes: set<(nat, Meta)>, s: State) {
    forall r :: r in s.requests ==> (s.requests[r].handler, s.requests[r].meta) in routes
  }

  predicate AsksFor(routes: set<(nat, Meta)>, actions: seq<Action>) {
    forall i :: 0 <= i < |actions| && actions[i].Arrive? ==> (actions[i].handler, actions[i].meta) in routes
  }

  lemma {:induction false} RunKeepsMeta(routes: set<(nat, Meta)>, s: State, actions: seq<Action>, t: State)
    requires MetaInv(s) && FromRoutes(routes, s) && AsksFor(routes, actions) && Run(s, actions) == Some(t)
    ensures MetaInv(t) && FromRoutes(routes, t)
    decreases |actions|
  {
    if actions != [] {
      var u := Next(s, actions[0]).value;
      NextKeepsMeta(s, actions[0], u);
      assert forall i :: 0 <= i < |actions[1..]| ==> actions[1..][i] == actions[i + 1];
      RunKeepsMeta(routes, u, actions[1..], t);
    }
  }

  /** Every running request runs with the metadata of its own route. */
  ghost predicate OwnMetadata(s: State) {
    forall r :: r in s.requests && s.requests[r].phase.Running? ==>
      s.requests[r].phase.executor.meta == s.requests[r].meta
  }

  ghost predicate OneRouteEach(routes: set<(nat, Meta)>) {
    forall h, m, n :: (h, m) in routes && (h, n) in routes ==> m == n
  }

  // --- reachable states --------------------------------------------------------------------------------

  /** Some run of requests to these routes leads to the state. */
  ghost predicate Reached(routes: set<(nat, Meta)>, s: State) {
    exists actions :: AsksFor(routes, actions) && Run(START, actions) == Some(s)
  }

  lemma {:induction false} RunSnoc(s: State, actions: seq<Action>, t: State, a: Action, u: State)
    requires Run(s, actions) == Some(t) && Next(t, a) == Some(u)
    ensures Run(s, actions + [a]) == Some(u)
    decreases |actions|
  {
    if actions == [] {
      assert Run(u, [a][1..]) == Some(u);
      assert actions + [a] == [a];
    } else {
      assert (actions + [a])[0] == actions[0] && (actions + [a])[1..] == actions[1..] + [a];
      RunSnoc(Next(s, actions[0]).value, actions[1..], t, a, u);
    }
  }

  lemma ReachedOnwards(routes: set<(nat, Meta)>, s: State, a: Action, u: State)
    requires Reached(routes, s) && Next(s, a) == Some(u)
    requires a.Arrive? ==> (a.handler, a.meta) in routes
    ensures Reached(routes, u)
  {
    var actions :| AsksFor(routes, actions) && Run(START, actions) == Some(s);
    RunSnoc(START, actions, s, a, u);
    var more := actions + [a];
    assert AsksFor(routes, more) && Run(START, more) == Some(u);
  }

  lemma ReachedIsGood(routes: set<(nat, Meta)>, s: State)
    requires Reached(routes, s)
    ensures Inv(s) && MetaInv(s) && FromRoutes(routes, s)
  {
    var actions :| AsksFor(routes, actions) && Run(START, actions) == Some(s);
    RunKeepsInv(START, actions);
    RunKeepsMeta(routes, START, actions, s);
  }

  /** Only request r is in a lock. */
  predicate Alone(s: State, r: RequestId) {
    && (s.caches.chainLock.None? || s.caches.chainLock == Some(r))
    && (s.caches.executorLock.None? || s.caches.executorLock == Some(r))
  }

  /** Request r has run through; the locks are free and the others are as they were. */
  ghost predicate RanThrough(s: State, r: RequestId, t: State)
    requires r in s.requests
  {
    && t.requests.Keys == s.requests.Keys
    && (forall o :: o in s.requests && o != r ==> t.requests[o] == s.requests[o])
    && t.requests[r].phase.Running?
    && t.requests[r].handler == s.requests[r].handler && t.requests[r].meta == s.requests[r].meta
    && t.caches.chainLock.None? && t.caches.executorLock.None?
  }

  /** A request that is alone in the locks runs through. */
  lemma {:induction false} RunsThrough(routes: set<(nat, Meta)>, s: State, r: RequestId) returns (t: State)
    requires Reached(routes, s) && Alone(s, r) && r in s.requests && !s.requests[r].phase.Raised?
    ensures Reached(routes, t) && RanThrough(s, r, t)
    decreases StepsLeft(s.requests[r].phase)
  {
    ReachedIsGood(routes, s);
    assert Knows(s.caches, r, s.requests[r]);
    if s.requests[r].phase.Running? {
      t := s;
    } else {
      var a := Step(r, 0, false);
      var u := Next(s, a).value;
      StepsAreBounded(s, a);
      ReachedOnwards(routes, s, a, u);
      t := RunsThrough(routes, u, r);
    }
  }

  /** A new request arrives at a quiet object and runs through. */
  lemma {:induction false} ArrivesAndRuns(routes: set<(nat, Meta)>, s: State, r: RequestId, handler: nat, meta: Meta)
    returns (t: State)
    requires Reached(routes, s) && s.caches.chainLock.None? && s.caches.executorLock.None? && r !in s.requests
    requires (handler, meta) in routes
    ensures Reached(routes, t) && t.requests.Keys == s.requests.Keys + {r}
    ensures forall o :: o in s.requests ==> t.requests[o] == s.requests[o]
    ensures t.requests[r].phase.Running? && t.requests[r].handler == handler && t.requests[r].meta == meta
    ensures t.caches.chainLock.None? && t.caches.executorLock.None?
  {
    var u := Next(s, Arrive(r, handler, meta)).value;
    ReachedOnwards(routes, s, Arrive(r, handler, meta), u);
    t := RunsThrough(routes, u, r);
  }

  /** The failing run: two routes of one handler, one request to each. Both run with the same
      executor, so one of them runs with the metadata of the other. */
  lemma {:induction false} TwoRoutesShareAnExecutor(
    routes: set<(nat, Meta)>, handler: nat, first: Meta, second: Meta) returns (t: State)
    requires first != second && (handler, first) in routes && (handler, second) in routes
    ensures Reached(routes, t) && !OwnMetadata(t)
  {
    assert AsksFor(routes, []) && Run(START, []) == Some(START);
    var s := ArrivesAndRuns(routes, START, 0, handler, first);
    t := ArrivesAndRuns(routes, s, 1, handler, second);
    ReachedIsGood(routes, t);
  }

  /** Main result: in all runs every running request uses an executor built from its own
      metadata if and only if each handler has one metadata on all its routes: the executor
      cache is keyed by the handler alone. */
  lemma {:induction false} OwnMetadataIff(routes: set<(nat, Meta)>)
    ensures (forall s :: Reached(routes, s) ==> OwnMetadata(s)) <==> OneRouteEach(routes)
  {
    if OneRouteEach(routes) {
      forall s | Reached(routes, s) ensures OwnMetadata(s) {
        ReachedIsGood(routes, s);
      }
    } else {
      var h, m, n :| (h, m) in routes && (h, n) in routes && m != n;
      var t := TwoRoutesShareAnExecutor(routes, h, m, n);
    }
  }
}
