/**
 The API object of python/django_bolt/api.py, whose registration calls update its
 lists, dictionaries and set in place. Every method is proved against the function
 of the same name in Registration.dfy, where the results about whole runs are.
 */
module BoltApi {
  import opened Common
  import opened Registration

  lemma {:induction false} FileAllCounts(t: Table, source: Table, owner: nat, keys: Keys)
    ensures FileAll(t, source, owner, keys).nextId == t.nextId + |keys|
  {
    if keys != [] { FileAllCounts(t, source, owner, keys[..|keys| - 1]); }
  }

  lemma TwoSteps(t: Table, app: Api, p: Mountpoint, mid: Table, u: Table)
    requires mid == FileAll(t, app.table, app.self, RouteKeys(app.routes, p))
    requires u == FileAll(mid, app.table, app.self, RouteKeys(app.sockets, p))
    ensures u == MountedTable(t, app, p) && mid.nextId == t.nextId + |app.routes|
  {
    FileAllCounts(t, app.table, app.self, RouteKeys(app.routes, p));
  }

  lemma FileAllStep(t: Table, source: Table, owner: nat, keys: Keys, i: nat)
    requires i < |keys|
    ensures FileAll(t, source, owner, keys[..i + 1]) ==
            FileAll(t, source, owner, keys[..i]).File(source.CopyFor(keys[i], owner))
  {
    assert keys[..i + 1][..i] == keys[..i];
  }

  lemma CopyMountsStep(m: MountTable, entries: seq<AsgiEntry>, i: nat, mountPath: string)
    requires i < |entries| && CopyMounts(m, entries[..i], mountPath).error.None?
    ensures CopyMounts(m, entries[..i + 1], mountPath) ==
            AddMount(CopyMounts(m, entries[..i], mountPath).mounts,
                     MountedPrefix(mountPath, entries[i].prefix), entries[i].app)
  {
    assert entries[..i + 1][..i] == entries[..i];
  }

  lemma {:induction false} CopyMountsStopsAtTheFirstError(m: MountTable, entries: seq<AsgiEntry>, n: nat, mountPath: string)
    requires n <= |entries| && (n < |entries| ==> CopyMounts(m, entries[..n], mountPath).error.Some?)
    ensures CopyMounts(m, entries, mountPath) == CopyMounts(m, entries[..n], mountPath)
  {
    if n == |entries| {
      assert entries[..n] == entries;
    } else {
      var k := |entries| - 1;
      assert entries[..k][..n] == entries[..n];
      CopyMountsStopsAtTheFirstError(m, entries[..k], n, mountPath);
    }
  }

  /** The registration tables of an API object. */
  class BoltAPI {
    const self: nat
    const prefix: string
    const slashes: SlashMode
    var routes: seq<Route>
    var sockets: seq<Route>
    var handlers: map<nat, Handler>
    var handlerMeta: map<MetaKey, Meta>
    var handlerMiddleware: map<nat, Middleware>
    var handlerApi: map<nat, nat>
    var nextHandlerId: nat
    var asgiMounts: seq<AsgiEntry>
    var asgiMountPrefixes: set<string>

    constructor (self: nat, prefix: string, slashes: SlashMode, registry: Registry)
      modifies registry
      ensures Abs() == NewApi(self, prefix, slashes)
      ensures registry.apis == old(registry.apis) + [self]
    {
      this.self, this.prefix, this.slashes := self, StripRight(prefix), slashes;
      routes, sockets := [], [];
      handlers, handlerMeta, handlerMiddleware, handlerApi, nextHandlerId := map[], map[], map[], map[], 0;
      asgiMounts, asgiMountPrefixes := [], {};
      new;
      registry.apis := registry.apis + [self];
    }

    function TableNow(): Table reads this {
      Table(handlers, handlerMeta, handlerMiddleware, handlerApi, nextHandlerId)
    }

    function MountsNow(): MountTable reads this {
      MountTable(asgiMounts, asgiMountPrefixes)
    }

    function Abs(): Api reads this {
      Api(self, prefix, slashes, routes, sockets, TableNow(), MountsNow())
    }

    /** Registers a route; deps are the dependencies compiled for it. */
    method AddRoute(verb: string, path: string, skipPrefix: bool, h: Compiled, deps: seq<(nat, Meta)>)
      modifies this
      ensures Abs() == Registration.AddRoute(old(Abs()), verb, path, skipPrefix, h, deps)
    {
      var id := nextHandlerId;
      nextHandlerId := nextHandlerId + 1;
      var full := FullPath(prefix, path, skipPrefix, slashes);
      routes := routes + [Route(Some(verb), full, id, h.fn)];
      handlers := handlers[id := h.fn];
      var k := 0;
      while k < |deps|
        invariant k <= |deps|
        invariant AddDeps(handlerMeta, deps[k..]) == AddDeps(old(handlerMeta), deps)
        modifies this`handlerMeta
      {
        assert deps[k..][1..] == deps[k + 1..];
        if Callable(deps[k].0) !in handlerMeta {
          handlerMeta := handlerMeta[Callable(deps[k].0) := deps[k].1];
        }
        k := k + 1;
      }
      handlerMeta := handlerMeta[Id(id) := h.meta];
      handlerMiddleware := handlerMiddleware[id := h.middleware];
    }

    method AddSocket(path: string, h: Compiled)
      modifies this
      ensures Abs() == Registration.AddSocket(old(Abs()), path, h)
    {
      var id := nextHandlerId;
      nextHandlerId := nextHandlerId + 1;
      sockets := sockets + [Route(None, prefix + path, id, h.fn)];
      handlers := handlers[id := h.fn];
      handlerMeta := handlerMeta[Id(id) := h.meta];
      handlerMiddleware := handlerMiddleware[id := h.middleware];
    }

    method MountAsgi(path: string, app: nat) returns (error: Option<RegistrationError>)
      modifies this`asgiMounts, this`asgiMountPrefixes
      ensures Outcome(MountsNow(), error) == Registration.MountAsgi(old(Abs()), path, app)
    {
      var p := MountAsgiPath(prefix, path);
      if p.Err? { return Some(p.error); }
      error := FileMount(p.value, app);
    }

    method FileMount(p: string, app: nat) returns (error: Option<RegistrationError>)
      modifies this`asgiMounts, this`asgiMountPrefixes
      ensures Outcome(MountsNow(), error) == AddMount(old(MountsNow()), Ok(p), app)
    {
      if p in asgiMountPrefixes { return Some(DuplicateMountPrefix); }
      asgiMountPrefixes := asgiMountPrefixes + {p};
      asgiMounts := asgiMounts + [AsgiEntry(p, app)];
      return None;
    }

    /** Files a handler of a sub-application under the next id, with its metadata and, for the
        new path, its middleware. */
    method FileCopy(app: BoltAPI, key: Key) returns (id: nat)
      requires app != this
      modifies this`handlers, this`handlerMeta, this`handlerMiddleware, this`handlerApi, this`nextHandlerId
      ensures id == old(nextHandlerId)
      ensures TableNow() == old(TableNow()).File(app.TableNow().CopyFor(key, app.self))
    {
      id := nextHandlerId;
      nextHandlerId := nextHandlerId + 1;
      handlers := handlers[id := key.handler];
      if Id(key.from) in app.handlerMeta {
        handlerMeta := handlerMeta[Id(id) := app.handlerMeta[Id(key.from)]];
      }
      if key.from in app.handlerMiddleware {
        handlerMiddleware := handlerMiddleware[id := app.handlerMiddleware[key.from].(path := Some(key.path))];
      }
      handlerApi := handlerApi[id := app.self];
    }

    /** Files the given routes of a sub-application and gives their copies. */
    method CopyRoutes(app: BoltAPI, ghost sub: Api, subs: seq<Route>, p: Mountpoint)
      returns (copies: seq<Route>)
      requires app != this && sub == app.Abs()
      modifies this`handlers, this`handlerMeta, this`handlerMiddleware, this`handlerApi, this`nextHandlerId
      ensures copies == CopiedRoutes(subs, p, old(nextHandlerId))
      ensures TableNow() == FileAll(old(TableNow()), sub.table, sub.self, RouteKeys(subs, p))
    {
      ghost var all, keys := CopiedRoutes(subs, p, nextHandlerId), RouteKeys(subs, p);
      copies := [];
      var i := 0;
      while i < |subs|
        invariant i <= |subs|
        invariant nextHandlerId == old(nextHandlerId) + i
        invariant copies == all[..i]
        invariant TableNow() == FileAll(old(TableNow()), sub.table, sub.self, keys[..i])
      {
        var newPath := p.Place(subs[i].path);
        assert keys[i] == Key(subs[i].id, subs[i].handler, newPath);
        var id := FileCopy(app, Key(subs[i].id, subs[i].handler, newPath));
        assert all[i] == Route(subs[i].verb, newPath, id, subs[i].handler);
        copies := copies + [Route(subs[i].verb, newPath, id, subs[i].handler)];
        FileAllStep(old(TableNow()), sub.table, sub.self, keys, i);
        i := i + 1;
      }
      assert all[..i] == all && keys[..i] == keys;
    }

    method CopyAsgiMounts(app: BoltAPI, mountPath: string) returns (error: Option<RegistrationError>)
      requires app != this
      modifies this`asgiMounts, this`asgiMountPrefixes
      ensures Outcome(MountsNow(), error) == CopyMounts(old(MountsNow()), app.asgiMounts, mountPath)
      ensures TableNow() == old(TableNow())
    {
      ghost var entries := app.asgiMounts;
      var i := 0;
      error := None;
      while i < |app.asgiMounts| && error.None?
        invariant i <= |app.asgiMounts|
        invariant Outcome(MountsNow(), error) == CopyMounts(old(MountsNow()), entries[..i], mountPath)
        decreases |app.asgiMounts| - i
      {
        CopyMountsStep(old(MountsNow()), entries, i, mountPath);
        var p := MountedPrefix(mountPath, app.asgiMounts[i].prefix);
        if p.Err? {
          error := Some(p.error);
        } else {
          error := FileMount(p.value, app.asgiMounts[i].app);
        }
        i := i + 1;
      }
      CopyMountsStopsAtTheFirstError(old(MountsNow()), entries, i, mountPath);
    }

    /** Copies the routes and then the websocket routes of a sub-application. */
    method CopyBoth(app: BoltAPI, ghost sub: Api, p: Mountpoint)
      requires app != this && sub == app.Abs()
      modifies this`routes, this`sockets
      modifies this`handlers, this`handlerMeta, this`handlerMiddleware, this`handlerApi, this`nextHandlerId
      ensures routes == old(routes) + CopiedRoutes(sub.routes, p, old(nextHandlerId))
      ensures sockets == old(sockets) + CopiedRoutes(sub.sockets, p, old(nextHandlerId) + |sub.routes|)
      ensures TableNow() == MountedTable(old(TableNow()), sub, p)
    {
      var copies := CopyRoutes(app, sub, app.routes, p);
      routes := routes + copies;
      ghost var mid := TableNow();
      copies := CopyRoutes(app, sub, app.sockets, p);
      sockets := sockets + copies;
      TwoSteps(old(TableNow()), sub, p, mid, TableNow());
    }

    /** Copies the routes, websocket routes and ASGI mounts of a sub-application. */
    method CopyAll(app: BoltAPI, ghost sub: Api, p: Mountpoint) returns (error: Option<RegistrationError>)
      requires app != this && sub == app.Abs()
      modifies this`routes, this`sockets, this`asgiMounts, this`asgiMountPrefixes
      modifies this`handlers, this`handlerMeta, this`handlerMiddleware, this`handlerApi, this`nextHandlerId
      ensures routes == old(routes) + CopiedRoutes(sub.routes, p, old(nextHandlerId))
      ensures sockets == old(sockets) + CopiedRoutes(sub.sockets, p, old(nextHandlerId) + |sub.routes|)
      ensures TableNow() == MountedTable(old(TableNow()), sub, p)
      ensures Outcome(MountsNow(), error) == CopyMounts(old(MountsNow()), sub.mounts.entries, p.path)
    {
      CopyBoth(app, sub, p);
      error := CopyAsgiMounts(app, p.path);
    }

    /** Copies a sub-application below the given mount point. */
    method CopyBelow(app: BoltAPI, ghost sub: Api, p: Mountpoint) returns (error: Option<RegistrationError>)
      requires app != this && sub == app.Abs()
      modifies this
      ensures Abs() == MountAt(old(Abs()), p, sub)
      ensures error == CopyMounts(old(MountsNow()), sub.mounts.entries, p.path).error
    {
      ghost var s := Abs();
      error := CopyAll(app, sub, p);
      MountFromParts(s, p, sub, Abs());
    }

    /** Copies a sub-application and, unless a prefix is refused, takes it off the registry. The
        source iterates lists of the sub-application while it appends to its own, so an object is
        never mounted on itself. */
    method Mount(path: string, app: BoltAPI, registry: Registry) returns (error: Option<RegistrationError>)
      requires app != this
      modifies this, registry
      ensures Abs() == Registration.Mount(old(Abs()), path, app.Abs())
      ensures error == CopyMounts(old(MountsNow()), app.asgiMounts, MountPath(path)).error
      ensures registry.apis == if error.Some? then old(registry.apis) else Without(old(registry.apis), app.self)
    {
      error := CopyBelow(app, app.Abs(), Mountpoint(MountPath(path), slashes));
      if error.None? {
        registry.apis := Without(registry.apis, app.self);
      }
    }
  }

  // --- the registry of top-level objects --------------------------------------------------

  /** The list without the first occurrence, if there is one. */
  function Without(apis: seq<nat>, api: nat): seq<nat> {
    if apis == [] then []
    else if apis[0] == api then apis[1..]
    else [apis[0]] + Without(apis[1..], api)
  }

  class Registry {
    var apis: seq<nat>
  }

  /** The first occurrence goes, and everything around it stays in its place. */
  lemma {:induction false} OnlyTheFirstLeaves(a: seq<nat>, api: nat, b: seq<nat>)
    requires api !in a
    ensures Without(a + [api] + b, api) == a + b
    ensures Without(a, api) == a
  {
    if a == [] {
      assert a + [api] + b == [api] + b && a + b == b;
    } else {
      var all := a + [api] + b;
      assert all[0] == a[0] && all[1..] == a[1..] + [api] + b;
      OnlyTheFirstLeaves(a[1..], api, b);
      assert a + b == [a[0]] + (a[1..] + b);
    }
  }

  /** Each object is registered once when it is created, so a mounted one is gone and all
      others stay, in order. */
  lemma {:induction false} MountedLeavesTheRegistry(apis: seq<nat>, api: nat)
    requires forall i, j :: 0 <= i < j < |apis| ==> apis[i] != apis[j]
    ensures api !in Without(apis, api)
    ensures forall x :: x != api ==> (x in Without(apis, api) <==> x in apis)
    ensures forall i, j :: 0 <= i < j < |Without(apis, api)| ==> Without(apis, api)[i] != Without(apis, api)[j]
  {
    if apis != [] {
      var rest := apis[1..];
      assert forall i :: 0 <= i < |rest| ==> rest[i] == apis[i + 1];
      assert apis == [apis[0]] + rest;
      MountedLeavesTheRegistry(rest, api);
      if apis[0] != api {
        var w := Without(rest, api);
        forall j | 0 <= j < |w| ensures w[j] != apis[0] {
          assert w[j] in w;
        }
      }
    }
  }
}
