/**
 The limit on synchronous streaming threads (src/streaming.rs): a relaxed load,
 a check, and a separate atomic add, run by concurrent request handlers.
 */
module ThreadLimit {
  import opened Common

  /** Where one caller stands.  Passed: the load was below the limit, nothing added yet.
      Added: the counter was raised, the spawn outcome is still open. */
  datatype Caller = Idle | Passed | Added

  /** One entry per concurrent caller; threads counts the unfinished producer threads. */
  datatype State = State(limit: nat, counter: int, threads: nat, callers: seq<Caller>)

  datatype Action =
    | Check(w: nat)
    | Add(w: nat)
    | Spawned(w: nat)
    | SpawnFailed(w: nat)
    | ThreadFinished

  function Init(limit: nat, callers: nat): State {
    State(limit, 0, 0, seq(callers, i => Idle))
  }

  predicate At(s: State, w: nat, c: Caller) {
    w < |s.callers| && s.callers[w] == c
  }

  function Move(s: State, w: nat, c: Caller): State
    requires w < |s.callers|
  {
    s.(callers := s.callers[w := c])
  }

  function Next(s: State, a: Action): Option<State> {
    match a
    case Check(w) =>
      // load and compare; a refused caller answers its request and is idle again
      if !At(s, w, Idle) then None
      else Some(if s.counter >= s.limit then s else Move(s, w, Passed))
    case Add(w) => if At(s, w, Passed) then Some(Move(s, w, Added).(counter := s.counter + 1)) else None
    case Spawned(w) => if At(s, w, Added) then Some(Move(s, w, Idle).(threads := s.threads + 1)) else None
    case SpawnFailed(w) => if At(s, w, Added) then Some(Move(s, w, Idle).(counter := s.counter - 1)) else None
    case ThreadFinished =>
      if s.threads > 0 then Some(s.(threads := s.threads - 1, counter := s.counter - 1)) else None
  }

  function Run(s: State, actions: seq<Action>): Option<State>
    decreases |actions|
  {
    if actions == [] then Some(s)
    else
      var t := Next(s, actions[0]);
      if t.None? then None else Run(t.value, actions[1..])
  }

  function Count(callers: seq<Caller>, c: Caller): nat {
    if callers == [] then 0 else (if callers[0] == c then 1 else 0) + Count(callers[1..], c)
  }

  lemma {:induction false} CountUpdate(callers: seq<Caller>, w: nat, c: Caller, x: Caller)
    requires w < |callers|
    ensures Count(callers[w := c], x)
         == Count(callers, x) - (if callers[w] == x then 1 else 0) + (if c == x then 1 else 0)
  {
    var u := callers[w := c];
    if w == 0 {
      assert u[1..] == callers[1..];
    } else {
      assert u[1..] == callers[1..][w - 1 := c];
      CountUpdate(callers[1..], w - 1, c, x);
    }
  }

  lemma {:induction false} CountBound(callers: seq<Caller>)
    ensures Count(callers, Passed) + Count(callers, Added) <= |callers|
  {
    if callers != [] { CountBound(callers[1..]); }
  }

  // --- the invariant ------------------------------------------------------------------

  /** The counter is exact, and callers that have passed the check are already paid for. */
  ghost predicate Inv(s: State) {
    && s.counter == s.threads + Count(s.callers, Added)
    && s.limit >= 1
    && |s.callers| >= 1
    && s.counter + Count(s.callers, Passed) <= s.limit + |s.callers| - 1
  }

  lemma {:induction false} AllIdle(n: nat)
    ensures Count(seq(n, i => Idle), Passed) == 0 && Count(seq(n, i => Idle), Added) == 0
  {
    if n > 0 {
      assert seq(n, i => Idle)[1..] == seq(n - 1, i => Idle);
      AllIdle(n - 1);
    }
  }

  lemma NextKeepsInv(s: State, a: Action, t: State)
    requires Inv(s) && Next(s, a) == Some(t)
    ensures Inv(t) && t.limit == s.limit && |t.callers| == |s.callers|
  {
    CountBound(t.callers);
    if !a.ThreadFinished? && t.callers != s.callers {
      CountUpdate(s.callers, a.w, t.callers[a.w], Passed);
      CountUpdate(s.callers, a.w, t.callers[a.w], Added);
    }
  }

  lemma {:induction false} RunKeepsInv(s: State, actions: seq<Action>, t: State)
    requires Inv(s) && Run(s, actions) == Some(t)
    ensures Inv(t) && t.limit == s.limit && |t.callers| == |s.callers|
    decreases |actions|
  {
    if actions != [] {
      var u := Next(s, actions[0]).value;
      NextKeepsInv(s, actions[0], u);
      RunKeepsInv(u, actions[1..], t);
    }
  }

  /** Main result: in every interleaving of W concurrent callers the counter equals the
      unfinished threads plus the adds whose spawn is pending, never underflows, is zero
      when all are finished, and never exceeds limit + W - 1. */
  lemma CounterIsExactAndBounded(limit: nat, callers: nat, actions: seq<Action>, t: State)
    requires limit >= 1 && callers >= 1 && Run(Init(limit, callers), actions) == Some(t)
    ensures t.counter == t.threads + Count(t.callers, Added)
    ensures 0 <= t.counter <= limit + callers - 1
    ensures t.threads == 0 && (forall w :: 0 <= w < |t.callers| ==> t.callers[w].Idle?) ==> t.counter == 0
  {
    AllIdle(callers);
    RunKeepsInv(Init(limit, callers), actions, t);
    if forall w :: 0 <= w < |t.callers| ==> t.callers[w].Idle? { NoneAdded(t.callers); }
  }

  lemma {:induction false} NoneAdded(callers: seq<Caller>)
    requires forall w :: 0 <= w < |callers| ==> callers[w].Idle?
    ensures Count(callers, Added) == 0
  {
    if callers != [] { NoneAdded(callers[1..]); }
  }

  // --- the bound is tight ----------------------------------------------------------------

  lemma {:induction false} RunAppend(s: State, a: seq<Action>, t: State, b: seq<Action>)
    requires Run(s, a) == Some(t)
    ensures Run(s, a + b) == Run(t, b)
    decreases |a|
  {
    if a == [] {
      assert a + b == b;
    } else {
      assert (a + b)[0] == a[0] && (a + b)[1..] == a[1..] + b;
      RunAppend(Next(s, a[0]).value, a[1..], t, b);
    }
  }

  /** One caller can, alone, start n threads below the limit. */
  lemma {:induction false} StartThreads(s: State, n: nat) returns (actions: seq<Action>)
    requires At(s, 0, Idle) && s.counter + n <= s.limit
    ensures Run(s, actions) == Some(s.(counter := s.counter + n, threads := s.threads + n))
    decreases n
  {
    if n == 0 {
      actions := [];
    } else {
      var one := [Check(0), Add(0), Spawned(0)];
      var u := Move(s, 0, Passed);
      var v := Move(u, 0, Added).(counter := s.counter + 1);
      var t := s.(counter := s.counter + 1, threads := s.threads + 1);
      assert Next(s, Check(0)) == Some(u) && Next(u, Add(0)) == Some(v);
      assert Move(v, 0, Idle).callers == s.callers;
      assert Next(v, Spawned(0)) == Some(t);
      assert one[1..] == [Add(0), Spawned(0)] && one[1..][1..] == [Spawned(0)] && one[1..][1..][1..] == [];
      assert Run(v, [Spawned(0)]) == Run(t, []);
      assert Run(u, [Add(0), Spawned(0)]) == Run(v, [Spawned(0)]);
      var rest := StartThreads(t, n - 1);
      RunAppend(s, one, t, rest);
      actions := one + rest;
    }
  }

  /** All callers from w on load the counter while it is below the limit. */
  lemma {:induction false} AllPass(s: State, w: nat) returns (actions: seq<Action>, t: State)
    requires w <= |s.callers| && s.counter < s.limit
    requires forall i :: w <= i < |s.callers| ==> s.callers[i].Idle?
    requires forall i :: 0 <= i < w ==> s.callers[i].Passed?
    ensures Run(s, actions) == Some(t) && t == s.(callers := t.callers) && |t.callers| == |s.callers|
    ensures forall i :: 0 <= i < |t.callers| ==> t.callers[i].Passed?
    decreases |s.callers| - w
  {
    if w == |s.callers| {
      actions, t := [], s;
    } else {
      var u := Move(s, w, Passed);
      var rest;
      rest, t := AllPass(u, w + 1);
      actions := [Check(w)] + rest;
      assert actions[1..] == rest;
    }
  }

  /** They then all add. */
  lemma {:induction false} AllAdd(s: State, w: nat) returns (actions: seq<Action>, t: State)
    requires w <= |s.callers|
    requires forall i :: w <= i < |s.callers| ==> s.callers[i].Passed?
    ensures Run(s, actions) == Some(t)
    ensures t.counter == s.counter + |s.callers| - w
    decreases |s.callers| - w
  {
    if w == |s.callers| {
      actions, t := [], s;
    } else {
      var u := Move(s, w, Added).(counter := s.counter + 1);
      var rest;
      rest, t := AllAdd(u, w + 1);
      actions := [Add(w)] + rest;
      assert actions[1..] == rest;
    }
  }

  /** Some run drives the counter to exactly limit + W - 1. */
  lemma BoundIsReached(limit: nat, callers: nat) returns (actions: seq<Action>, t: State)
    requires limit >= 1 && callers >= 1
    ensures Run(Init(limit, callers), actions) == Some(t) && t.counter == limit + callers - 1
  {
    var s := Init(limit, callers);
    var first := StartThreads(s, limit - 1);
    var u := s.(counter := limit - 1, threads := limit - 1);
    var second, v := AllPass(u, 0);
    var third;
    third, t := AllAdd(v, 0);
    RunAppend(u, second, v, third);
    RunAppend(s, first, u, second + third);
    actions := first + (second + third);
  }

  /** The configured limit itself is respected in every run exactly when there is only
      one caller at a time: the load and the add are not one atomic step. */
  lemma LimitHoldsIffSingleCaller(limit: nat, callers: nat)
    requires limit >= 1 && callers >= 1
    ensures (forall actions, t :: Run(Init(limit, callers), actions) == Some(t) ==> t.counter <= limit)
            <==> callers == 1
  {
    if callers == 1 {
      forall actions, t | Run(Init(limit, callers), actions) == Some(t) ensures t.counter <= limit {
        CounterIsExactAndBounded(limit, callers, actions, t);
      }
    } else {
      var actions, t := BoundIsReached(limit, callers);
    }
  }
}
