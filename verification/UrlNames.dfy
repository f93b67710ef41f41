/**
 Which route a name reverses to (python/django_bolt/urls.py).

 Routes arrive one by one under a key, the namespace and the name. An explicit name beats
 one derived from the handler, and two explicit names with different routes are refused.
 */
module UrlNames {
  import opened Common

  type Key = (string, string)

  datatype Entry = Entry(route: string, explicit: bool)

  datatype NamedRoute = NamedRoute(key: Key, entry: Entry)

  /** The entries under one key, in registration order. */
  function EntriesOf(routes: seq<NamedRoute>, key: Key): seq<Entry> {
    if routes == [] then []
    else
      var n := |routes| - 1;
      var before := EntriesOf(routes[..n], key);
      if routes[n].key == key then before + [routes[n].entry] else before
  }

  /** An entry that settles the route: explicit, and not just repeating the first route
      when the first entry was derived. */
  predicate Settles(es: seq<Entry>, j: nat)
    requires j < |es|
  {
    es[j].explicit && (j == 0 || es[j].route != es[0].route)
  }

  /** The first entry that settles the route, or the number of entries. */
  function Settler(es: seq<Entry>): (j: nat)
    ensures j <= |es| && (j < |es| ==> Settles(es, j))
    ensures forall i: nat :: i < j ==> !Settles(es, i)
  {
    SettlerFrom(es, 0)
  }

  function SettlerFrom(es: seq<Entry>, from: nat): (j: nat)
    requires from <= |es| && forall i: nat :: i < from ==> !Settles(es, i)
    ensures j <= |es| && (j < |es| ==> Settles(es, j))
    ensures forall i: nat :: i < j ==> !Settles(es, i)
    decreases |es| - from
  {
    if from == |es| || Settles(es, from) then from else SettlerFrom(es, from + 1)
  }

  /** The route and flag that a key ends with. */
  function Winner(es: seq<Entry>): Entry
    requires es != []
  {
    var j := Settler(es);
    if j < |es| then es[j] else Entry(es[0].route, false)
  }

  /** Some later explicit entry disagrees with the one that settled the route. */
  ghost predicate Conflict(es: seq<Entry>) {
    exists k: nat :: Settler(es) < k < |es| && es[k].explicit && es[k].route != es[Settler(es)].route
  }

  /** An entry added at the end is first only if nothing settled the route before it. */
  lemma SettlerOfMore(es: seq<Entry>, e: Entry)
    requires es != []
    ensures Settler(es) < |es| ==> Settler(es + [e]) == Settler(es)
    ensures Settler(es) == |es| ==>
              Settler(es + [e]) == if e.explicit && e.route != es[0].route then |es| else |es| + 1
  {
    var all, j := es + [e], Settler(es);
    assert forall i: nat :: i < |es| ==> (Settles(all, i) <==> Settles(es, i));
    if j < |es| {
    } else if e.explicit && e.route != es[0].route {
      assert Settles(all, |es|);
    } else {
      assert !Settles(all, |es|);
    }
  }

  /** The branches of the loop body, seen from the entries of one key. */
  lemma OneMoreEntry(es: seq<Entry>, e: Entry)
    requires es != [] && !Conflict(es)
    ensures var winner := Winner(es);
            && (Conflict(es + [e]) <==> e.route != winner.route && e.explicit && winner.explicit)
            && (!Conflict(es + [e]) ==>
                 Winner(es + [e]) ==
                   if e.route != winner.route && e.explicit then Entry(e.route, true) else winner)
  {
    var all, j := es + [e], Settler(es);
    SettlerOfMore(es, e);
    assert all[|es|] == e;
    assert forall k: nat :: k < |es| ==> all[k] == es[k];
  }

  /** What the dictionary says about a key is what its entries say. */
  ghost predicate Agrees(chosen: map<Key, Entry>, es: seq<Entry>, key: Key) {
    && !Conflict(es)
    && (key in chosen <==> es != [])
    && (key in chosen ==> chosen[key] == Winner(es))
  }

  ghost predicate AgreesOn(chosen: map<Key, Entry>, routes: seq<NamedRoute>, key: Key) {
    Agrees(chosen, EntriesOf(routes, key), key)
  }

  ghost predicate AgreesOnAll(chosen: map<Key, Entry>, routes: seq<NamedRoute>) {
    forall key :: AgreesOn(chosen, routes, key)
  }

  lemma OneMoreAgrees(before: map<Key, Entry>, after: map<Key, Entry>, routes: seq<NamedRoute>, i: nat)
    requires i < |routes| && AgreesOnAll(before, routes[..i])
    requires forall key :: key != routes[i].key ==>
               (key in after <==> key in before) && (key in after ==> after[key] == before[key])
    requires Agrees(after, EntriesOf(routes[..i], routes[i].key) + [routes[i].entry], routes[i].key)
    ensures AgreesOnAll(after, routes[..i + 1])
  {
    var more := routes[..i + 1];
    assert more[..i] == routes[..i];
    forall key ensures AgreesOn(after, more, key) {
      assert AgreesOn(before, routes[..i], key);
    }
  }

  /** The loop over all named routes; the key of the first collision is the error. */
  method ChooseRoutes(routes: seq<NamedRoute>) returns (r: Result<map<Key, Entry>, Key>)
    ensures r.Ok? ==> AgreesOnAll(r.value, routes)
    ensures r.Err? ==> Conflict(EntriesOf(routes, r.error))
  {
    var chosen: map<Key, Entry> := map[];
    var i := 0;
    while i < |routes|
      invariant i <= |routes|
      invariant AgreesOnAll(chosen, routes[..i])
    {
      var key, entry := routes[i].key, routes[i].entry;
      ghost var es := EntriesOf(routes[..i], key);
      ghost var before := chosen;
      assert AgreesOn(chosen, routes[..i], key);
      if key !in chosen {
        chosen := chosen[key := entry];
        assert es + [entry] == [entry];
      } else {
        OneMoreEntry(es, entry);
        var previous := chosen[key];
        if previous.route != entry.route {
          if entry.explicit && previous.explicit {
            assert routes[..i + 1][..i] == routes[..i];
            ConflictStays(routes, i + 1, key);
            return Err(key);
          }
          if entry.explicit {
            chosen := chosen[key := Entry(entry.route, true)];
          }
        }
      }
      OneMoreAgrees(before, chosen, routes, i);
      i := i + 1;
    }
    assert routes[..i] == routes;
    return Ok(chosen);
  }

  lemma ConflictSurvives(es: seq<Entry>, e: Entry)
    requires Conflict(es)
    ensures Conflict(es + [e])
  {
    var k: nat :| Settler(es) < k < |es| && es[k].explicit && es[k].route != es[Settler(es)].route;
    SettlerOfMore(es, e);
    assert (es + [e])[k] == es[k];
  }

  lemma {:induction false} ConflictStays(routes: seq<NamedRoute>, i: nat, key: Key)
    requires i <= |routes| && Conflict(EntriesOf(routes[..i], key))
    ensures Conflict(EntriesOf(routes, key))
  {
    var n := |routes| - 1;
    if i == |routes| {
      assert routes[..i] == routes;
    } else {
      assert routes[..n][..i] == routes[..i];
      ConflictStays(routes[..n], i, key);
      if routes[n].key == key { ConflictSurvives(EntriesOf(routes[..n], key), routes[n].entry); }
    }
  }

  // --- what the choice means --------------------------------------------------------------

  ghost predicate ExplicitNamesDiffer(es: seq<Entry>) {
    exists i: nat, k: nat :: i < k < |es| && es[i].explicit && es[k].explicit && es[i].route != es[k].route
  }

  /** A reported duplicate is one: two explicit entries with different routes. */
  lemma ReportedDuplicatesAreReal(es: seq<Entry>)
    requires Conflict(es)
    ensures ExplicitNamesDiffer(es)
  {
    var j := Settler(es);
    var k: nat :| j < k < |es| && es[k].explicit && es[k].route != es[j].route;
    assert es[j].explicit;
  }

  /** The chosen route is the first one when no entry is explicit, and otherwise the route
      of an explicit entry. */
  lemma ChosenRouteIsFirstOrExplicit(es: seq<Entry>)
    requires es != []
    ensures (forall i :: 0 <= i < |es| ==> !es[i].explicit) ==> Winner(es) == Entry(es[0].route, false)
    ensures (exists i :: 0 <= i < |es| && es[i].explicit) ==>
              exists k: nat :: k < |es| && es[k].explicit && Winner(es).route == es[k].route
  {
    var j := Settler(es);
    if i :| 0 <= i < |es| && es[i].explicit {
      if j == |es| {
        assert !Settles(es, i);
        assert Winner(es).route == es[i].route;
      } else {
        assert es[j].explicit && Winner(es).route == es[j].route;
      }
    }
  }

  /** The first entry was derived, the explicit names before j all repeat its route, and from
      j on all agree on another route. */
  ghost predicate SwitchesOnceAt(es: seq<Entry>, j: nat) {
    && 0 < j < |es| && !es[0].explicit && es[j].explicit && es[j].route != es[0].route
    && (forall i: nat :: i < j && es[i].explicit ==> es[i].route == es[0].route)
    && (forall i: nat :: j < i < |es| && es[i].explicit ==> es[i].route == es[j].route)
  }

  /** Explicit names that differ go unreported exactly when a derived route is repeated by
      explicit names and then replaced once: repeating it does not make it explicit. */
  lemma DifferentNamesGoUnreportedIff(es: seq<Entry>)
    requires ExplicitNamesDiffer(es)
    ensures !Conflict(es) <==> exists j: nat :: SwitchesOnceAt(es, j)
  {
    if !Conflict(es) {
      var a: nat, b: nat :| a < b < |es| && es[a].explicit && es[b].explicit && es[a].route != es[b].route;
      SettledBetween(es, a, b);
    }
    if m: nat :| SwitchesOnceAt(es, m) {
      assert Settler(es) == m;
    }
  }

  lemma SettledBetween(es: seq<Entry>, a: nat, b: nat)
    requires a < b < |es| && es[a].explicit && es[b].explicit && es[a].route != es[b].route && !Conflict(es)
    ensures SwitchesOnceAt(es, Settler(es))
  {
    var j := Settler(es);
    assert Settles(es, a) || Settles(es, b);
    assert a < j <= b;
    forall i: nat | i < j && es[i].explicit ensures es[i].route == es[0].route {
      assert !Settles(es, i);
    }
    assert !es[0].explicit by {
      assert !Settles(es, 0);
    }
  }

  /** A concrete run: a derived name, then an explicit name for the same route, then an
      explicit name for another. Nothing is reported. */
  lemma DifferentNamesCanGoUnreported(first: string, other: string)
    requires first != other
    ensures var es := [Entry(first, false), Entry(first, true), Entry(other, true)];
            ExplicitNamesDiffer(es) && !Conflict(es) && Winner(es) == Entry(other, true)
  {
    var es := [Entry(first, false), Entry(first, true), Entry(other, true)];
    assert es[1].explicit && es[2].explicit;
    assert Settles(es, 2) && !Settles(es, 0) && !Settles(es, 1);
  }
}
