/**
 The walk over a handler's dependency tree (python/django_bolt/analysis.py).
 Dependencies form a finite graph that may contain cycles; the walk shares one
 visited set, stops early when every need is known and gives up on a node it
 cannot inspect.  It is proved to compute the union over all reachable nodes.
 */
module DependencyWalk {
  import opened Common

  datatype Component = Body | Query | Headers | Cookies

  datatype Needs = Needs(body: bool, query: bool, headers: bool, cookies: bool)
  {
    predicate Has(c: Component) {
      match c
      case Body => body
      case Query => query
      case Headers => headers
      case Cookies => cookies
    }

    function Union(n: Needs): Needs {
      Needs(body || n.body, query || n.query, headers || n.headers, cookies || n.cookies)
    }
  }

  const NOTHING := Needs(false, false, false, false)
  const EVERYTHING := Needs(true, true, true, true)

  /** A binder field: an ordinary one, a dependency without a callable, or a dependency. */
  datatype Field = Plain | Unmarked | Depends(dep: nat)

  /** The source analysis of a dependency: not needed, impossible, or a set of needs. */
  datatype Analysis = NotRequested | Failed | Found(needs: Needs)

  datatype Meta = Meta(fields: seq<Field>, needs: Needs, analysis: Analysis)

  /** The compiled dependencies, by callable identity; for all others compilation raises. */
  type Graph = map<nat, Meta>

  // --- the answer, defined without the walk --------------------------------------

  /** What one dependency reads by itself; a failed one counts as reading everything. */
  function Own(g: Graph, d: nat): Needs {
    if d !in g || g[d].analysis.Failed? then EVERYTHING
    else if g[d].analysis.Found? then g[d].needs.Union(g[d].analysis.needs)
    else g[d].needs
  }

  ghost predicate IsDep(fields: seq<Field>, d: nat) {
    Depends(d) in fields
  }

  ghost predicate Edge(g: Graph, d: nat, e: nat) {
    d in g && IsDep(g[d].fields, e)
  }

  /** p starts at one of the fields and follows edges. */
  ghost predicate Path(g: Graph, fields: seq<Field>, p: seq<nat>) {
    p != [] && IsDep(fields, p[0]) && forall i :: 0 < i < |p| ==> Edge(g, p[i - 1], p[i])
  }

  ghost predicate Reachable(g: Graph, fields: seq<Field>, d: nat) {
    exists p :: Path(g, fields, p) && p[|p| - 1] == d
  }

  /** Component c is read by some dependency reachable from the fields. */
  ghost predicate SomeoneReads(g: Graph, fields: seq<Field>, c: Component) {
    exists d :: Reachable(g, fields, d) && Own(g, d).Has(c)
  }

  /** Some reachable dependency cannot be compiled or its source cannot be analysed. */
  ghost predicate SomeIsUnknown(g: Graph, fields: seq<Field>) {
    exists d :: Reachable(g, fields, d) && (d !in g || g[d].analysis.Failed?)
  }

  /** One dependency that cannot be inspected makes every component needed; otherwise a component
      is needed when a binder or an analysis found it. */
  lemma SomeoneReadsIff(g: Graph, fields: seq<Field>, c: Component)
    ensures SomeoneReads(g, fields, c) <==>
              || SomeIsUnknown(g, fields)
              || exists d :: Reachable(g, fields, d) && d in g
                             && (g[d].needs.Has(c) || (g[d].analysis.Found? && g[d].analysis.needs.Has(c)))
  {
    if d :| Reachable(g, fields, d) && (d !in g || g[d].analysis.Failed?) {
      assert Own(g, d).Has(c);
    }
    if d :| Reachable(g, fields, d) && d in g
            && (g[d].needs.Has(c) || (g[d].analysis.Found? && g[d].analysis.needs.Has(c))) {
      assert Own(g, d).Has(c);
    }
  }

  lemma DirectlyReachable(g: Graph, fields: seq<Field>, d: nat)
    requires IsDep(fields, d)
    ensures Reachable(g, fields, d)
  {
    assert Path(g, fields, [d]) && [d][|[d]| - 1] == d;
  }

  lemma ReachableThrough(g: Graph, fields: seq<Field>, d: nat, e: nat)
    requires IsDep(fields, d) && d in g && Reachable(g, g[d].fields, e)
    ensures Reachable(g, fields, e)
  {
    var p :| Path(g, g[d].fields, p) && p[|p| - 1] == e;
    var q := [d] + p;
    forall i | 0 < i < |q| ensures Edge(g, q[i - 1], q[i]) {
      if i > 1 { assert Edge(g, p[i - 2], p[i - 1]); }
    }
    assert Path(g, fields, q) && q[|q| - 1] == e;
  }

  /** A set that holds the fields' dependencies and is closed under edges holds every path. */
  lemma {:induction false} ClosedSetHoldsPaths(g: Graph, fields: seq<Field>, s: set<nat>, p: seq<nat>)
    requires forall d :: IsDep(fields, d) ==> d in s
    requires forall d, e :: d in s && Edge(g, d, e) ==> e in s
    requires Path(g, fields, p)
    ensures p[|p| - 1] in s
    decreases |p|
  {
    if |p| > 1 {
      var q := p[..|p| - 1];
      assert Path(g, fields, q);
      ClosedSetHoldsPaths(g, fields, s, q);
      assert Edge(g, p[|p| - 2], p[|p| - 1]);
    }
  }

  // --- the walk ---------------------------------------------------------------------

  class DependencyNeeds {
    var needsBody: bool
    var needsQuery: bool
    var needsHeaders: bool
    var needsCookies: bool

    function Value(): Needs
      reads this
    {
      Needs(needsBody, needsQuery, needsHeaders, needsCookies)
    }

    predicate Saturated()
      reads this
    {
      needsBody && needsQuery && needsHeaders && needsCookies
    }

    constructor ()
      ensures Value() == NOTHING
    {
      needsBody, needsQuery, needsHeaders, needsCookies := false, false, false, false;
    }

    method SetAll()
      modifies this
      ensures Value() == EVERYTHING
    {
      needsBody, needsQuery, needsHeaders, needsCookies := true, true, true, true;
    }

    method Add(n: Needs)
      modifies this
      ensures Value() == old(Value()).Union(n)
    {
      needsBody := needsBody || n.body;
      needsQuery := needsQuery || n.query;
      needsHeaders := needsHeaders || n.headers;
      needsCookies := needsCookies || n.cookies;
    }
  }

  class VisitedSet {
    var ids: set<nat>

    constructor ()
      ensures ids == {}
    {
      ids := {};
    }
  }

  /** The accumulator is the start value joined with exactly the newly visited nodes. */
  ghost predicate Accumulated(g: Graph, before: Needs, after: Needs, added: set<nat>) {
    forall c: Component :: after.Has(c) <==> before.Has(c) || exists d :: d in added && Own(g, d).Has(c)
  }

  ghost predicate ClosedUnder(g: Graph, added: set<nat>, all: set<nat>) {
    forall d, e :: d in added && Edge(g, d, e) ==> e in all
  }

  /** One node and everything its subtree added. */
  lemma AccumulateNode(
    g: Graph, before: Needs, at: Needs, added: set<nat>, d: nat, after: Needs, below: set<nat>, all: set<nat>)
    requires Accumulated(g, before, at, added)
    requires Accumulated(g, at.Union(Own(g, d)), after, below)
    requires all == added + {d} + below
    ensures Accumulated(g, before, after, all)
  {
    forall c: Component ensures after.Has(c) <==> before.Has(c) || exists e :: e in all && Own(g, e).Has(c) {
      assert at.Union(Own(g, d)).Has(c) <==> at.Has(c) || Own(g, d).Has(c);
      if e :| e in all && Own(g, e).Has(c) {
        assert e in added || e == d || e in below;
      }
    }
  }

  lemma NothingAccumulated(g: Graph, n: Needs)
    ensures Accumulated(g, n, n, {})
  {
  }

  lemma CloseNode(g: Graph, added: set<nat>, d: nat, below: set<nat>, mid: set<nat>, all: set<nat>)
    requires ClosedUnder(g, added, mid) && ClosedUnder(g, below, all) && mid <= all
    requires forall e :: Edge(g, d, e) ==> e in all
    ensures ClosedUnder(g, added + {d} + below, all)
  {
  }

  method WalkDepTree(g: Graph, meta: Meta, acc: DependencyNeeds, visited: VisitedSet)
    modifies acc, visited
    ensures old(visited.ids) <= visited.ids
    ensures Accumulated(g, old(acc.Value()), acc.Value(), visited.ids - old(visited.ids))
    ensures forall d :: d in visited.ids - old(visited.ids) ==> Reachable(g, meta.fields, d)
    ensures !acc.Saturated() ==>
              && (forall d :: IsDep(meta.fields, d) ==> d in visited.ids)
              && ClosedUnder(g, visited.ids - old(visited.ids), visited.ids)
    decreases g.Keys - visited.ids
  {
    ghost var seen0 := visited.ids;
    for i := 0 to |meta.fields|
      invariant seen0 <= visited.ids
      invariant Accumulated(g, old(acc.Value()), acc.Value(), visited.ids - seen0)
      invariant forall d :: d in visited.ids - seen0 ==> Reachable(g, meta.fields, d)
      invariant !acc.Saturated() ==>
                  && (forall d :: IsDep(meta.fields[..i], d) ==> d in visited.ids)
                  && ClosedUnder(g, visited.ids - seen0, visited.ids)
    {
      assert meta.fields[..i + 1] == meta.fields[..i] + [meta.fields[i]];
      if acc.Saturated() {
        return;
      }
      if !meta.fields[i].Depends? {
        continue;
      }
      var d := meta.fields[i].dep;
      if d in visited.ids {
        continue;
      }
      ghost var seen1, needs1 := visited.ids, acc.Value();
      visited.ids := visited.ids + {d};
      DirectlyReachable(g, meta.fields, d);
      assert visited.ids - seen0 == (seen1 - seen0) + {d};

      NothingAccumulated(g, needs1.Union(Own(g, d)));
      if d !in g {
        acc.SetAll();
        AccumulateNode(g, old(acc.Value()), needs1, seen1 - seen0, d, acc.Value(), {}, visited.ids - seen0);
        return;
      }
      acc.Add(g[d].needs);
      if g[d].analysis.Failed? {
        acc.SetAll();
        AccumulateNode(g, old(acc.Value()), needs1, seen1 - seen0, d, acc.Value(), {}, visited.ids - seen0);
        return;
      }
      if g[d].analysis.Found? {
        acc.Add(g[d].analysis.needs);
      }
      assert acc.Value() == needs1.Union(Own(g, d));
      ghost var seen2, needs2 := visited.ids, acc.Value();
      WalkDepTree(g, g[d], acc, visited);
      forall e | e in visited.ids - seen2 ensures Reachable(g, meta.fields, e) {
        ReachableThrough(g, meta.fields, d, e);
      }
      assert visited.ids - seen0 == (seen1 - seen0) + {d} + (visited.ids - seen2);
      AccumulateNode(g, old(acc.Value()), needs1, seen1 - seen0, d, acc.Value(), visited.ids - seen2, visited.ids - seen0);
      if !acc.Saturated() {
        CloseNode(g, seen1 - seen0, d, visited.ids - seen2, seen1, visited.ids);
      }
    }
    assert meta.fields[..|meta.fields|] == meta.fields;
  }

  /** Main result: on every finite graph, cycles included, a component is needed
      exactly when some dependency reachable from the handler reads it.  Neither
      the early exit nor the shared visited set changes the answer. */
  method AnalyzeDependencyTree(g: Graph, meta: Meta) returns (needs: Needs)
    ensures forall c: Component :: needs.Has(c) <==> SomeoneReads(g, meta.fields, c)
    ensures SomeIsUnknown(g, meta.fields) ==> needs == Needs(true, true, true, true)
    ensures !SomeIsUnknown(g, meta.fields) ==>
              forall c: Component :: needs.Has(c) <==>
                exists d :: Reachable(g, meta.fields, d) && d in g
                            && (g[d].needs.Has(c) || (g[d].analysis.Found? && g[d].analysis.needs.Has(c)))
  {
    var result := new DependencyNeeds();
    var visited := new VisitedSet();
    WalkDepTree(g, meta, result, visited);
    needs := result.Value();
    forall c: Component ensures needs.Has(c) <==> SomeoneReads(g, meta.fields, c) {
      if SomeoneReads(g, meta.fields, c) && !result.Saturated() {
        var d :| Reachable(g, meta.fields, d) && Own(g, d).Has(c);
        var p :| Path(g, meta.fields, p) && p[|p| - 1] == d;
        ClosedSetHoldsPaths(g, meta.fields, visited.ids, p);
      }
    }
    forall c: Component {
      SomeoneReadsIff(g, meta.fields, c);
    }
    assert SomeIsUnknown(g, meta.fields) ==>
        needs.Has(Body) && needs.Has(Query) && needs.Has(Headers) && needs.Has(Cookies);
  }

  /** Consequence: order and repetition of the fields do not matter. */
  lemma OnlyTheSetOfFieldsMatters(g: Graph, f1: seq<Field>, f2: seq<Field>, c: Component)
    requires forall d :: IsDep(f1, d) ==> IsDep(f2, d)
    ensures SomeoneReads(g, f1, c) ==> SomeoneReads(g, f2, c)
  {
    if SomeoneReads(g, f1, c) {
      var d :| Reachable(g, f1, d) && Own(g, d).Has(c);
      var p :| Path(g, f1, p) && p[|p| - 1] == d;
      assert Path(g, f2, p);
    }
  }

  /** Unfolding: what a dependency tree reads is what its direct dependencies read
      themselves or through their own fields. */
  lemma ReadsUnfold(g: Graph, fields: seq<Field>, c: Component)
    ensures SomeoneReads(g, fields, c) <==>
              exists d :: IsDep(fields, d) && (Own(g, d).Has(c) || (d in g && SomeoneReads(g, g[d].fields, c)))
  {
    if SomeoneReads(g, fields, c) {
      var e :| Reachable(g, fields, e) && Own(g, e).Has(c);
      var p :| Path(g, fields, p) && p[|p| - 1] == e;
      if |p| > 1 {
        var q := p[1..];
        assert Edge(g, p[0], p[1]);
        forall i | 0 < i < |q| ensures Edge(g, q[i - 1], q[i]) {
          assert Edge(g, p[i], p[i + 1]);
        }
        assert Path(g, g[p[0]].fields, q) && q[|q| - 1] == e;
      }
    }
    if d :| IsDep(fields, d) && (Own(g, d).Has(c) || (d in g && SomeoneReads(g, g[d].fields, c))) {
      if Own(g, d).Has(c) {
        DirectlyReachable(g, fields, d);
      } else {
        var e :| Reachable(g, g[d].fields, e) && Own(g, e).Has(c);
        ReachableThrough(g, fields, d, e);
      }
    }
  }
}
