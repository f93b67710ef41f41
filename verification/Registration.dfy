/**
 Route registration and sub-application mounting (python/django_bolt/api.py).
 The state of an API object is a value and every registration call a function
 on it; BoltApi.dfy performs the calls in place.
 */
module Registration {
  import opened Common
  import AsgiMounts

  // --- path normalisation -------------------------------------------------------------

  predicate OnlySlashes(s: string) {
    forall i :: 0 <= i < |s| ==> s[i] == '/'
  }

  /** Where the slashes from i on end. */
  function SlashesEnd(s: string, i: nat): (k: nat)
    requires i <= |s|
    ensures i <= k <= |s| && (k < |s| ==> s[k] != '/')
    ensures forall j :: i <= j < k ==> s[j] == '/'
    decreases |s| - i
  {
    if i < |s| && s[i] == '/' then SlashesEnd(s, i + 1) else i
  }

  /** Where the slashes before j start. */
  function SlashesStart(s: string, j: nat): (k: nat)
    requires j <= |s|
    ensures k <= j && (k > 0 ==> s[k - 1] != '/')
    ensures forall i :: k <= i < j ==> s[i] == '/'
  {
    if j > 0 && s[j - 1] == '/' then SlashesStart(s, j - 1) else j
  }

  /** Python's s.rstrip("/"). */
  function StripRight(s: string): (r: string)
    ensures r != "" ==> r[|r| - 1] != '/'
  {
    s[..SlashesStart(s, |s|)]
  }

  /** Python's s.lstrip("/"). */
  function StripLeft(s: string): (r: string)
    ensures r != "" ==> r[0] != '/'
  {
    s[SlashesEnd(s, 0)..]
  }

  /** Python's s.strip("/"). */
  function Strip(s: string): (r: string)
    ensures r != "" ==> r[0] != '/' && r[|r| - 1] != '/'
  {
    StripRight(StripLeft(s))
  }

  lemma StripLeftIs(s: string, k: nat)
    requires k <= |s| && (k < |s| ==> s[k] != '/')
    requires forall j :: 0 <= j < k ==> s[j] == '/'
    ensures StripLeft(s) == s[k..]
  {
    assert SlashesEnd(s, 0) == k;
  }

  datatype SlashMode = StripSlash | AppendSlash | KeepSlash

  function NormalizePath(path: string, mode: SlashMode): string {
    if path == "" || path == "/" then "/"
    else
      match mode
      case StripSlash => StripRight(path)
      case AppendSlash => if path[|path| - 1] == '/' then path else path + "/"
      case KeepSlash => path
  }

  datatype RegistrationError = DynamicMountPrefix | DuplicateMountPrefix

  predicate HasBrace(s: string) {
    '{' in s || '}' in s
  }

  function NormalizeMountPrefix(path: string): Result<string, RegistrationError> {
    var mountPath := TrimmedPrefix(RootedPath(path));
    if HasBrace(mountPath) then Err(DynamicMountPrefix) else Ok(mountPath)
  }

  function RootedPath(path: string): string {
    if path != "" then "/" + Strip(path) else "/"
  }

  function TrimmedPrefix(p: string): string {
    if p != "/" && p != "" && p[|p| - 1] == '/' then StripRight(p) else p
  }

  lemma NormalizeKeepsClean(core: string, p: string)
    requires core != "" && core[0] != '/' && core[|core| - 1] != '/' && p == "/" + core
    ensures Strip(p) == core
  {
    StripLeftIs(p, 1);
    assert p[1..] == core;
  }

  lemma RootedShape(path: string)
    ensures RootedPath(path) == "/" + Strip(path)
  {
    if path == "" {
      assert Strip(path) == "";
    }
  }

  lemma NormalizedShape(path: string, p: string)
    requires p == "/" + Strip(path)
    ensures NormalizeMountPrefix(path) == if HasBrace(p) then Err(DynamicMountPrefix) else Ok(p)
  {
    RootedShape(path);
  }

  /** A normalised prefix always passes the checks of the Rust side, is static, and is
      its own normal form. */
  lemma {:induction false} NormalizedPrefixPassesRustChecks(path: string)
    requires NormalizeMountPrefix(path).Ok?
    ensures var p := NormalizeMountPrefix(path).value;
            AsgiMounts.ValidPrefix(p) && !HasBrace(p) && NormalizeMountPrefix(p) == Ok(p)
  {
    var core := Strip(path);
    var p := NormalizeMountPrefix(path).value;
    NormalizedShape(path, "/" + core);
    if core == "" {
      assert p == "/" && Strip(p) == "";
    } else {
      NormalizeKeepsClean(core, p);
    }
    NormalizedShape(p, p);
  }

  /** The strip mode turns a path into the empty string exactly when it is made of at
      least two slashes and nothing else. */
  lemma NormalizedPathIsEmptyIff(path: string)
    ensures NormalizePath(path, StripSlash) == "" <==> |path| >= 2 && OnlySlashes(path)
  {
    if |path| == 1 && path[0] == '/' { assert path == "/"; }
  }

  // --- the state of one API object ---------------------------------------------------------

  type Handler = nat
  type Meta = nat

  /** A route; websocket routes have no verb. */
  datatype Route = Route(verb: Option<string>, path: string, id: nat, handler: Handler)

  /** Handler metadata is filed under route ids and, for dependencies, under callables. */
  datatype MetaKey = Id(id: nat) | Callable(fn: nat)

  /** The compiled middleware of a route; mounting rewrites the path in it. */
  datatype Middleware = Middleware(path: Option<string>, settings: nat)

  /** A handler with what was compiled for it. */
  datatype Compiled = Compiled(fn: Handler, meta: Meta, middleware: Middleware)

  /** What is filed under one id. */
  datatype Record = Record(handler: Handler, meta: Option<Meta>, middleware: Option<Middleware>, owner: Option<nat>)

  /** Everything that is looked up by route id, and the id allocator. */
  datatype Table = Table(
    handlers: map<nat, Handler>, meta: map<MetaKey, Meta>, middleware: map<nat, Middleware>, owner: map<nat, nat>,
    nextId: nat)
  {
    /** Files a handler under the next id. */
    function File(r: Record): Table {
      Table(handlers[nextId := r.handler],
            if r.meta.Some? then meta[Id(nextId) := r.meta.value] else meta,
            if r.middleware.Some? then middleware[nextId := r.middleware.value] else middleware,
            if r.owner.Some? then owner[nextId := r.owner.value] else owner,
            nextId + 1)
    }

    /** The record under which a sub-application's handler is filed in its parent. */
    function CopyFor(key: Key, ownedBy: nat): Record {
      Record(key.handler,
             if Id(key.from) in meta then Some(meta[Id(key.from)]) else None,
             if key.from in middleware then Some(middleware[key.from].(path := Some(key.path))) else None,
             Some(ownedBy))
    }
  }

  /** A handler to copy: its id in the mounted application and its path in the parent. */
  datatype Key = Key(from: nat, handler: Handler, path: string)

  type Keys = seq<Key>

  function OwnRecord(h: Compiled): Record {
    Record(h.fn, Some(h.meta), Some(h.middleware), None)
  }

  datatype AsgiEntry = AsgiEntry(prefix: string, app: nat)

  /** The ASGI mounts as a list and their prefixes as a set. */
  datatype MountTable = MountTable(entries: seq<AsgiEntry>, prefixes: set<string>)
  {
    function Add(prefix: string, app: nat): MountTable {
      MountTable(entries + [AsgiEntry(prefix, app)], prefixes + {prefix})
    }
  }

  datatype Api = Api(
    self: nat,
    prefix: string,
    slashes: SlashMode,
    routes: seq<Route>,
    sockets: seq<Route>,
    table: Table,
    mounts: MountTable)

  function NewApi(self: nat, prefix: string, slashes: SlashMode): Api {
    Api(self, StripRight(prefix), slashes, [], [], Table(map[], map[], map[], map[], 0), MountTable([], {}))
  }

  // --- the calls -------------------------------------------------------------------------------

  /** Dependencies compiled on the way are filed under their callable, unless cached. */
  function AddDeps(meta: map<MetaKey, Meta>, deps: seq<(nat, Meta)>): map<MetaKey, Meta>
    decreases |deps|
  {
    if deps == [] then meta
    else
      var key := Callable(deps[0].0);
      AddDeps(if key in meta then meta else meta[key := deps[0].1], deps[1..])
  }

  function FullPath(prefix: string, path: string, skipPrefix: bool, slashes: SlashMode): string {
    var own := if path == "" then "/" else path;
    NormalizePath(if skipPrefix then own else prefix + own, slashes)
  }

  function AddRoute(s: Api, verb: string, path: string, skipPrefix: bool, h: Compiled, deps: seq<(nat, Meta)>): Api {
    var full := FullPath(s.prefix, path, skipPrefix, s.slashes);
    s.(routes := s.routes + [Route(Some(verb), full, s.table.nextId, h.fn)],
       table := s.table.(meta := AddDeps(s.table.meta, deps)).File(OwnRecord(h)))
  }

  function AddSocket(s: Api, path: string, h: Compiled): Api {
    s.(sockets := s.sockets + [Route(None, s.prefix + path, s.table.nextId, h.fn)],
       table := s.table.File(OwnRecord(h)))
  }

  function MountAsgiPath(apiPrefix: string, path: string): Result<string, RegistrationError> {
    var p := NormalizeMountPrefix(path);
    if p.Err? || apiPrefix == "" then p
    else if p.value == "/" then NormalizeMountPrefix(apiPrefix)
    else NormalizeMountPrefix(apiPrefix + p.value)
  }

  /** The mounts and the error, if any, after a call that may raise. */
  datatype Outcome = Outcome(mounts: MountTable, error: Option<RegistrationError>)

  /** Adds one mount unless its prefix is refused or already taken. */
  function AddMount(m: MountTable, prefix: Result<string, RegistrationError>, app: nat): Outcome {
    if prefix.Err? then Outcome(m, Some(prefix.error))
    else if prefix.value in m.prefixes then Outcome(m, Some(DuplicateMountPrefix))
    else Outcome(m.Add(prefix.value, app), None)
  }

  function MountAsgi(s: Api, path: string, app: nat): Outcome {
    AddMount(s.mounts, MountAsgiPath(s.prefix, path), app)
  }

  function MountPath(path: string): string {
    if path != "" then "/" + Strip(path) else ""
  }

  /** Where a path of a mounted application ends up. */
  datatype Mountpoint = Mountpoint(path: string, slashes: SlashMode)
  {
    function Place(sub: string): string {
      NormalizePath(path + sub, slashes)
    }
  }

  function RouteKeys(routes: seq<Route>, p: Mountpoint): Keys {
    seq(|routes|, i requires 0 <= i < |routes| => Key(routes[i].id, routes[i].handler, p.Place(routes[i].path)))
  }

  /** Files handlers of a mounted application under fresh ids, one after the other. */
  function FileAll(t: Table, source: Table, owner: nat, keys: Keys): Table {
    if keys == [] then t
    else
      var n := |keys| - 1;
      FileAll(t, source, owner, keys[..n]).File(source.CopyFor(keys[n], owner))
  }

  function CopiedRoutes(routes: seq<Route>, p: Mountpoint, firstId: nat): seq<Route> {
    seq(|routes|, i requires 0 <= i < |routes| =>
      Route(routes[i].verb, p.Place(routes[i].path), firstId + i, routes[i].handler))
  }

  function MountedPrefix(mountPath: string, prefix: string): Result<string, RegistrationError> {
    if mountPath == "" then Ok(prefix)
    else if prefix == "/" then NormalizeMountPrefix(mountPath)
    else NormalizeMountPrefix(mountPath + prefix)
  }

  /** Copies the mounts one after the other; a refused prefix stops the copying. */
  function CopyMounts(m: MountTable, entries: seq<AsgiEntry>, mountPath: string): Outcome {
    if entries == [] then Outcome(m, None)
    else
      var n := |entries| - 1;
      var before := CopyMounts(m, entries[..n], mountPath);
      if before.error.Some? then before
      else AddMount(before.mounts, MountedPrefix(mountPath, entries[n].prefix), entries[n].app)
  }

  function MountedTable(t: Table, app: Api, p: Mountpoint): Table {
    FileAll(FileAll(t, app.table, app.self, RouteKeys(app.routes, p)),
            app.table, app.self, RouteKeys(app.sockets, p))
  }

  function MountAt(s: Api, p: Mountpoint, app: Api): Api {
    var first := s.table.nextId;
    s.(routes := s.routes + CopiedRoutes(app.routes, p, first),
       sockets := s.sockets + CopiedRoutes(app.sockets, p, first + |app.routes|),
       table := MountedTable(s.table, app, p),
       mounts := CopyMounts(s.mounts, app.mounts.entries, p.path).mounts)
  }

  function Mount(s: Api, path: string, app: Api): Api {
    MountAt(s, Mountpoint(MountPath(path), s.slashes), app)
  }

  // --- the invariant ---------------------------------------------------------------------------------

  /** An id in use is below the next id and has its handler, metadata and middleware. */
  predicate Known(t: Table, id: nat, handler: Handler) {
    id < t.nextId && id in t.handlers && t.handlers[id] == handler && Id(id) in t.meta && id in t.middleware
  }

  ghost predicate RoutesKnown(routes: seq<Route>, t: Table) {
    && (forall i :: 0 <= i < |routes| ==> Known(t, routes[i].id, routes[i].handler))
    && (forall i, j :: 0 <= i < j < |routes| ==> routes[i].id < routes[j].id)
  }

  ghost predicate IdsDiffer(routes: seq<Route>, sockets: seq<Route>) {
    forall i, j :: 0 <= i < |routes| && 0 <= j < |sockets| ==> routes[i].id != sockets[j].id
  }

  ghost predicate IdsInv(s: Api) {
    RoutesKnown(s.routes, s.table) && RoutesKnown(s.sockets, s.table) && IdsDiffer(s.routes, s.sockets)
  }

  /** The set is exactly the list of prefixes, without repetition, and the Rust side
      accepts each of them. */
  ghost predicate MountsInv(m: MountTable) {
    && (forall i :: 0 <= i < |m.entries| ==> m.entries[i].prefix in m.prefixes)
    && (forall p :: p in m.prefixes ==> exists i :: 0 <= i < |m.entries| && m.entries[i].prefix == p)
    && (forall i, j :: 0 <= i < j < |m.entries| ==> m.entries[i].prefix != m.entries[j].prefix)
    && (forall i :: 0 <= i < |m.entries| ==> AsgiMounts.ValidPrefix(m.entries[i].prefix))
  }

  ghost predicate Inv(s: Api) {
    IdsInv(s) && MountsInv(s.mounts)
  }

  /** What is filed under an id stays filed under it. */
  predicate KeepsId(t: Table, u: Table, id: nat) {
    && (id in t.handlers ==> id in u.handlers && u.handlers[id] == t.handlers[id])
    && (Id(id) in t.meta ==> Id(id) in u.meta && u.meta[Id(id)] == t.meta[Id(id)])
    && (id in t.middleware ==> id in u.middleware && u.middleware[id] == t.middleware[id])
    && (id in t.owner ==> id in u.owner && u.owner[id] == t.owner[id])
  }

  /** Ids already handed out keep all that is filed under them. */
  ghost predicate Extends(t: Table, u: Table) {
    t.nextId <= u.nextId && forall id: nat :: id < t.nextId ==> KeepsId(t, u, id)
  }

  lemma {:induction false} AddDepsKeepsIds(meta: map<MetaKey, Meta>, deps: seq<(nat, Meta)>)
    ensures forall k :: k in meta ==> k in AddDeps(meta, deps) && AddDeps(meta, deps)[k] == meta[k]
    decreases |deps|
  {
    if deps != [] {
      var key := Callable(deps[0].0);
      AddDepsKeepsIds(if key in meta then meta else meta[key := deps[0].1], deps[1..]);
    }
  }

  lemma ExtensionKeepsKnown(t: Table, u: Table, id: nat, handler: Handler)
    requires Extends(t, u) && Known(t, id, handler)
    ensures Known(u, id, handler)
  {
    assert KeepsId(t, u, id);
  }

  lemma MoreRoutesKnown(routes: seq<Route>, t: Table, more: seq<Route>, u: Table)
    requires RoutesKnown(routes, t) && RoutesKnown(more, u) && Extends(t, u)
    requires forall i :: 0 <= i < |more| ==> more[i].id >= t.nextId
    ensures RoutesKnown(routes + more, u)
  {
    var all := routes + more;
    forall i | 0 <= i < |all| ensures Known(u, all[i].id, all[i].handler) {
      if i < |routes| {
        ExtensionKeepsKnown(t, u, routes[i].id, routes[i].handler);
      } else {
        assert all[i] == more[i - |routes|];
      }
    }
    assert forall i :: 0 <= i < |routes| ==> Known(t, routes[i].id, routes[i].handler);
  }

  lemma ExtendsIsTransitive(t: Table, u: Table, v: Table)
    requires Extends(t, u) && Extends(u, v)
    ensures Extends(t, v)
  {
    forall id: nat | id < t.nextId ensures KeepsId(t, v, id) {
      assert KeepsId(t, u, id) && KeepsId(u, v, id);
    }
  }

  lemma AddRouteKeepsIds(s: Api, verb: string, path: string, skipPrefix: bool, h: Compiled, deps: seq<(nat, Meta)>)
    requires IdsInv(s)
    ensures IdsInv(AddRoute(s, verb, path, skipPrefix, h, deps))
  {
    AddDepsKeepsIds(s.table.meta, deps);
    var t := AddRoute(s, verb, path, skipPrefix, h, deps);
    var withDeps := s.table.(meta := AddDeps(s.table.meta, deps));
    var more := [t.routes[|s.routes|]];
    assert Extends(s.table, withDeps);
    ExtendsIsTransitive(s.table, withDeps, t.table);
    MoreRoutesKnown(s.routes, s.table, more, t.table);
    MoreRoutesKnown(s.sockets, s.table, [], t.table);
    assert t.routes == s.routes + more && s.sockets + [] == s.sockets;
  }

  lemma AddKeepsMounts(m: MountTable, prefix: string, app: nat)
    requires MountsInv(m) && prefix !in m.prefixes && AsgiMounts.ValidPrefix(prefix)
    ensures MountsInv(m.Add(prefix, app))
  {
    var t := m.Add(prefix, app);
    assert t.entries[|m.entries|].prefix == prefix;
    forall p | p in t.prefixes ensures exists i :: 0 <= i < |t.entries| && t.entries[i].prefix == p {
      if p != prefix {
        var i :| 0 <= i < |m.entries| && m.entries[i].prefix == p;
        assert t.entries[i].prefix == p;
      }
    }
  }

  lemma AddMountKeepsMounts(m: MountTable, prefix: Result<string, RegistrationError>, app: nat)
    requires MountsInv(m) && (prefix.Ok? ==> AsgiMounts.ValidPrefix(prefix.value))
    ensures MountsInv(AddMount(m, prefix, app).mounts)
  {
    if prefix.Ok? && prefix.value !in m.prefixes { AddKeepsMounts(m, prefix.value, app); }
  }

  lemma MountAsgiPathIsValid(apiPrefix: string, path: string)
    requires MountAsgiPath(apiPrefix, path).Ok?
    ensures AsgiMounts.ValidPrefix(MountAsgiPath(apiPrefix, path).value)
  {
    NormalizedPrefixPassesRustChecks(path);
    if apiPrefix != "" {
      var p := NormalizeMountPrefix(path).value;
      NormalizedPrefixPassesRustChecks(if p == "/" then apiPrefix else apiPrefix + p);
    }
  }

  lemma MountAsgiKeepsMounts(s: Api, path: string, app: nat)
    requires MountsInv(s.mounts)
    ensures MountsInv(MountAsgi(s, path, app).mounts)
  {
    var p := MountAsgiPath(s.prefix, path);
    if p.Ok? { MountAsgiPathIsValid(s.prefix, path); }
    AddMountKeepsMounts(s.mounts, p, app);
  }

  lemma MountedPrefixIsValid(mountPath: string, prefix: string)
    requires AsgiMounts.ValidPrefix(prefix) && MountedPrefix(mountPath, prefix).Ok?
    ensures AsgiMounts.ValidPrefix(MountedPrefix(mountPath, prefix).value)
  {
    if mountPath != "" {
      NormalizedPrefixPassesRustChecks(if prefix == "/" then mountPath else mountPath + prefix);
    }
  }

  lemma {:induction false} CopyMountsKeepsMounts(m: MountTable, entries: seq<AsgiEntry>, mountPath: string)
    requires MountsInv(m) && forall i :: 0 <= i < |entries| ==> AsgiMounts.ValidPrefix(entries[i].prefix)
    ensures MountsInv(CopyMounts(m, entries, mountPath).mounts)
  {
    if entries != [] {
      var n := |entries| - 1;
      CopyMountsKeepsMounts(m, entries[..n], mountPath);
      var p := MountedPrefix(mountPath, entries[n].prefix);
      if p.Ok? { MountedPrefixIsValid(mountPath, entries[n].prefix); }
      AddMountKeepsMounts(CopyMounts(m, entries[..n], mountPath).mounts, p, entries[n].app);
    }
  }

  /** The prefixes under which the mounts of a sub-application are to be filed. */
  function Targets(entries: seq<AsgiEntry>, mountPath: string): seq<Result<string, RegistrationError>> {
    seq(|entries|, i requires 0 <= i < |entries| => MountedPrefix(mountPath, entries[i].prefix))
  }

  /** All prefixes are static, none is taken and no two are alike. */
  ghost predicate Mountable(taken: set<string>, targets: seq<Result<string, RegistrationError>>) {
    && (forall i :: 0 <= i < |targets| ==> targets[i].Ok? && targets[i].value !in taken)
    && (forall i, j :: 0 <= i < j < |targets| ==> targets[i] != targets[j])
  }

  /** What is in the table once the copying went through. */
  ghost predicate AllMounted(
    m: MountTable, entries: seq<AsgiEntry>, targets: seq<Result<string, RegistrationError>>, after: MountTable)
    requires |targets| == |entries|
  {
    && |after.entries| == |m.entries| + |entries| && m.entries <= after.entries
    && (forall i :: 0 <= i < |entries| ==>
          after.entries[|m.entries| + i].app == entries[i].app
          && Ok(after.entries[|m.entries| + i].prefix) == targets[i])
    && (forall p :: p in after.prefixes <==> p in m.prefixes || Ok(p) in targets)
  }

  lemma OneMoreMountable(
    taken: set<string>, targets: seq<Result<string, RegistrationError>>, n: nat, takenThen: set<string>)
    requires |targets| == n + 1 && Mountable(taken, targets[..n])
    requires forall p :: p in takenThen <==> p in taken || Ok(p) in targets[..n]
    ensures Mountable(taken, targets) <==> targets[n].Ok? && targets[n].value !in takenThen
  {
    var done := targets[..n];
    if targets[n].Ok? && targets[n].value !in takenThen {
      forall i | 0 <= i < n ensures targets[i] != targets[n] {
        assert done[i] == targets[i];
      }
      forall i, j | 0 <= i < j < |targets| ensures targets[i] != targets[j] {
        if j < n { assert done[i] != done[j]; }
      }
    } else if targets[n].Ok? && targets[n].value !in taken {
      assert targets[n] in done;
    }
  }

  lemma OneMoreMounted(
    m: MountTable, entries: seq<AsgiEntry>, targets: seq<Result<string, RegistrationError>>, n: nat,
    before: MountTable, after: MountTable)
    requires |entries| == |targets| == n + 1 && AllMounted(m, entries[..n], targets[..n], before)
    requires targets[n].Ok? && after == before.Add(targets[n].value, entries[n].app)
    ensures AllMounted(m, entries, targets, after)
  {
    assert targets == targets[..n] + [targets[n]];
    forall i | 0 <= i < |entries|
      ensures after.entries[|m.entries| + i].app == entries[i].app
      ensures Ok(after.entries[|m.entries| + i].prefix) == targets[i]
    {
      if i < n {
        assert entries[..n][i] == entries[i] && targets[..n][i] == targets[i];
        assert after.entries[|m.entries| + i] == before.entries[|m.entries| + i];
      }
    }
  }

  lemma PrefixIsMountable(taken: set<string>, targets: seq<Result<string, RegistrationError>>, n: nat)
    requires n <= |targets| && Mountable(taken, targets)
    ensures Mountable(taken, targets[..n])
  {
    var done := targets[..n];
    assert forall i :: 0 <= i < n ==> done[i] == targets[i];
  }

  /** Copying the mounts of a sub-application goes through exactly when all their new
      prefixes are static, free and different, and then it adds all of them in order and
      nothing else. */
  lemma {:induction false} CopyMountsSucceedsIff(m: MountTable, entries: seq<AsgiEntry>, mountPath: string)
    ensures CopyMounts(m, entries, mountPath).error.None? <==> Mountable(m.prefixes, Targets(entries, mountPath))
    ensures Mountable(m.prefixes, Targets(entries, mountPath)) ==>
              AllMounted(m, entries, Targets(entries, mountPath), CopyMounts(m, entries, mountPath).mounts)
  {
    if entries != [] {
      var n := |entries| - 1;
      var targets := Targets(entries, mountPath);
      assert Targets(entries[..n], mountPath) == targets[..n];
      CopyMountsSucceedsIff(m, entries[..n], mountPath);
      var before := CopyMounts(m, entries[..n], mountPath).mounts;
      if Mountable(m.prefixes, targets[..n]) {
        OneMoreMountable(m.prefixes, targets, n, before.prefixes);
        if Mountable(m.prefixes, targets) {
          OneMoreMounted(m, entries, targets, n, before, CopyMounts(m, entries, mountPath).mounts);
        }
      } else if Mountable(m.prefixes, targets) {
        PrefixIsMountable(m.prefixes, targets, n);
      }
    }
  }

  // --- what mount copies ------------------------------------------------------------------------------------

  /** Id `to` in u stands for the given handler of the mounted application: same handler and
      metadata, the middleware with the new path, and the application as owner. */
  predicate StandsFor(u: Table, to: nat, source: Table, owner: nat, key: Key) {
    && Known(u, to, key.handler)
    && Id(key.from) in source.meta && u.meta[Id(to)] == source.meta[Id(key.from)]
    && key.from in source.middleware && u.middleware[to] == source.middleware[key.from].(path := Some(key.path))
    && to in u.owner && u.owner[to] == owner
  }

  /** u holds the i-th key under the i-th id from `first` on. */
  predicate HoldsAt(u: Table, first: nat, source: Table, owner: nat, keys: Keys, i: nat)
    requires i < |keys|
  {
    StandsFor(u, first + i, source, owner, keys[i])
  }

  ghost predicate HoldsAll(u: Table, first: nat, source: Table, owner: nat, keys: Keys) {
    forall i: nat :: i < |keys| ==> HoldsAt(u, first, source, owner, keys, i)
  }

  predicate KeyKnown(source: Table, key: Key) {
    Id(key.from) in source.meta && key.from in source.middleware
  }

  ghost predicate KeysKnown(source: Table, keys: Keys) {
    forall i :: 0 <= i < |keys| ==> KeyKnown(source, keys[i])
  }

  lemma ExtensionHoldsAll(t: Table, u: Table, first: nat, source: Table, owner: nat, keys: Keys)
    requires Extends(t, u) && HoldsAll(t, first, source, owner, keys)
    ensures HoldsAll(u, first, source, owner, keys)
  {
    forall i: nat | i < |keys| ensures HoldsAt(u, first, source, owner, keys, i) {
      assert HoldsAt(t, first, source, owner, keys, i);
      assert KeepsId(t, u, first + i);
    }
  }

  /** One more handler filed keeps the earlier ones and adds its own. */
  lemma FileHoldsOneMore(
    before: Table, u: Table, first: nat, source: Table, owner: nat, keys: Keys, n: nat)
    requires |keys| == n + 1 && before.nextId == first + n && KeyKnown(source, keys[n])
    requires HoldsAll(before, first, source, owner, keys[..n])
    requires u == before.File(source.CopyFor(keys[n], owner))
    ensures HoldsAll(u, first, source, owner, keys)
  {
    ExtensionHoldsAll(before, u, first, source, owner, keys[..n]);
    forall i: nat | i < |keys| ensures HoldsAt(u, first, source, owner, keys, i) {
      if i < n { assert HoldsAt(u, first, source, owner, keys[..n], i); }
    }
  }

  lemma {:induction false} FileAllFacts(t: Table, source: Table, owner: nat, keys: Keys)
    requires KeysKnown(source, keys)
    ensures Extends(t, FileAll(t, source, owner, keys))
    ensures FileAll(t, source, owner, keys).nextId == t.nextId + |keys|
    ensures HoldsAll(FileAll(t, source, owner, keys), t.nextId, source, owner, keys)
  {
    if keys != [] {
      var n := |keys| - 1;
      FileAllFacts(t, source, owner, keys[..n]);
      var before := FileAll(t, source, owner, keys[..n]);
      var u := FileAll(t, source, owner, keys);
      ExtendsIsTransitive(t, before, u);
      FileHoldsOneMore(before, u, t.nextId, source, owner, keys, n);
    }
  }

  /** The table after mounting: old ids untouched, new ids stand for the application's. */
  lemma TableAfterMount(t: Table, u: Table, app: Api, p: Mountpoint)
    requires IdsInv(app) && u == MountedTable(t, app, p)
    ensures Extends(t, u) && u.nextId == t.nextId + |app.routes| + |app.sockets|
    ensures HoldsAll(u, t.nextId, app.table, app.self, RouteKeys(app.routes, p))
    ensures HoldsAll(u, t.nextId + |app.routes|, app.table, app.self, RouteKeys(app.sockets, p))
  {
    var keys, others := RouteKeys(app.routes, p), RouteKeys(app.sockets, p);
    var mid := FileAll(t, app.table, app.self, keys);
    FileAllFacts(t, app.table, app.self, keys);
    FileAllFacts(mid, app.table, app.self, others);
    ExtendsIsTransitive(t, mid, u);
    ExtensionHoldsAll(mid, u, t.nextId, app.table, app.self, keys);
  }

  /** The route is the application's, placed below the mount and filed under the given id. */
  predicate RouteCopied(u: Table, route: Route, id: nat, p: Mountpoint, app: Api, from: Route) {
    && route == Route(from.verb, p.Place(from.path), id, from.handler)
    && StandsFor(u, id, app.table, app.self, Key(from.id, from.handler, p.Place(from.path)))
  }

  lemma RoutesAreCopied(u: Table, app: Api, subs: seq<Route>, p: Mountpoint, first: nat, i: nat)
    requires i < |subs| && HoldsAll(u, first, app.table, app.self, RouteKeys(subs, p))
    ensures RouteCopied(u, CopiedRoutes(subs, p, first)[i], first + i, p, app, subs[i])
  {
    assert HoldsAt(u, first, app.table, app.self, RouteKeys(subs, p), i);
  }

  /** What has the parts of a mounted state is one. */
  lemma MountFromParts(s: Api, p: Mountpoint, app: Api, t: Api)
    requires t == Api(s.self, s.prefix, s.slashes,
                      s.routes + CopiedRoutes(app.routes, p, s.table.nextId),
                      s.sockets + CopiedRoutes(app.sockets, p, s.table.nextId + |app.routes|),
                      MountedTable(s.table, app, p), CopyMounts(s.mounts, app.mounts.entries, p.path).mounts)
    ensures t == MountAt(s, p, app)
  {
  }

  /** Behind the routes that were there come those of the application, in order, each under the
      next id. */
  ghost predicate RoutesMounted(
    before: seq<Route>, after: seq<Route>, u: Table, app: Api, subs: seq<Route>, p: Mountpoint, first: nat)
  {
    && before <= after && |after| == |before| + |subs|
    && forall i :: 0 <= i < |subs| ==> RouteCopied(u, after[|before| + i], first + i, p, app, subs[i])
  }

  lemma RoutesCopiedBehind(
    before: seq<Route>, after: seq<Route>, u: Table, app: Api, subs: seq<Route>, p: Mountpoint, first: nat)
    requires after == before + CopiedRoutes(subs, p, first)
    requires HoldsAll(u, first, app.table, app.self, RouteKeys(subs, p))
    ensures RoutesMounted(before, after, u, app, subs, p, first)
  {
    forall i | 0 <= i < |subs| ensures RouteCopied(u, after[|before| + i], first + i, p, app, subs[i]) {
      RoutesAreCopied(u, app, subs, p, first, i);
      assert after[|before| + i] == CopiedRoutes(subs, p, first)[i];
    }
  }

  lemma CopiedAt(s: Api, p: Mountpoint, app: Api, t: Api, second: nat)
    requires IdsInv(app) && t == MountAt(s, p, app) && second == s.table.nextId + |app.routes|
    ensures Extends(s.table, t.table) && t.table.nextId == second + |app.sockets|
    ensures RoutesMounted(s.routes, t.routes, t.table, app, app.routes, p, s.table.nextId)
    ensures RoutesMounted(s.sockets, t.sockets, t.table, app, app.sockets, p, second)
  {
    TableAfterMount(s.table, t.table, app, p);
    RoutesCopiedBehind(s.routes, t.routes, t.table, app, app.routes, p, s.table.nextId);
    RoutesCopiedBehind(s.sockets, t.sockets, t.table, app, app.sockets, p, second);
  }

  /** Main result: mount gives every copied route, and then every websocket route, a fresh id in
      order, with the source's handler and metadata, its middleware for the new path and the
      sub-application as owner, and leaves every id already in use as it was. */
  lemma MountCopiesRoutes(s: Api, path: string, app: Api, t: Api, second: nat)
    requires IdsInv(app) && t == Mount(s, path, app) && second == s.table.nextId + |app.routes|
    ensures Extends(s.table, t.table) && t.table.nextId == second + |app.sockets|
    ensures var p := Mountpoint(MountPath(path), s.slashes);
            && RoutesMounted(s.routes, t.routes, t.table, app, app.routes, p, s.table.nextId)
            && RoutesMounted(s.sockets, t.sockets, t.table, app, app.sockets, p, second)
  {
    CopiedAt(s, Mountpoint(MountPath(path), s.slashes), app, t, second);
  }

  lemma CopiedRoutesKnown(u: Table, app: Api, subs: seq<Route>, p: Mountpoint, first: nat)
    requires HoldsAll(u, first, app.table, app.self, RouteKeys(subs, p))
    ensures RoutesKnown(CopiedRoutes(subs, p, first), u)
  {
    forall i | 0 <= i < |subs| ensures Known(u, first + i, subs[i].handler) {
      assert HoldsAt(u, first, app.table, app.self, RouteKeys(subs, p), i);
    }
  }

  lemma MountedIds(
    routes: seq<Route>, sockets: seq<Route>, t: Table, u: Table, app: Api, p: Mountpoint,
    more: seq<Route>, others: seq<Route>)
    requires RoutesKnown(routes, t) && RoutesKnown(sockets, t) && IdsDiffer(routes, sockets)
    requires IdsInv(app) && u == MountedTable(t, app, p)
    requires more == CopiedRoutes(app.routes, p, t.nextId)
    requires others == CopiedRoutes(app.sockets, p, t.nextId + |app.routes|)
    ensures RoutesKnown(routes + more, u) && RoutesKnown(sockets + others, u) && IdsDiffer(routes + more, sockets + others)
  {
    TableAfterMount(t, u, app, p);
    CopiedRoutesKnown(u, app, app.routes, p, t.nextId);
    CopiedRoutesKnown(u, app, app.sockets, p, t.nextId + |app.routes|);
    MoreRoutesKnown(routes, t, more, u);
    MoreRoutesKnown(sockets, t, others, u);
  }

  lemma MountKeepsIds(s: Api, p: Mountpoint, app: Api, t: Api)
    requires IdsInv(s) && IdsInv(app) && t == MountAt(s, p, app)
    ensures IdsInv(t)
  {
    var more := CopiedRoutes(app.routes, p, s.table.nextId);
    var others := CopiedRoutes(app.sockets, p, s.table.nextId + |app.routes|);
    MountedIds(s.routes, s.sockets, s.table, t.table, app, p, more, others);
  }

  lemma MountKeepsInv(s: Api, p: Mountpoint, app: Api, t: Api)
    requires Inv(s) && Inv(app) && t == MountAt(s, p, app)
    ensures Inv(t)
  {
    MountKeepsIds(s, p, app, t);
    CopyMountsKeepsMounts(s.mounts, app.mounts.entries, p.path);
  }

  // --- where copied routes end up -----------------------------------------------------------------------

  /** A route path as the decorators make it: one slash, and no second one behind it. */
  predicate StartsWithOneSlash(p: string) {
    p != "" && p[0] == '/' && (|p| > 1 ==> p[1] != '/')
  }

  /** A path that is not slashes alone up to k keeps its front under every slash mode. */
  lemma NormalizeKeepsFront(path: string, mode: SlashMode, k: nat)
    requires k < |path| && path[k] != '/'
    ensures k < |NormalizePath(path, mode)| && NormalizePath(path, mode)[..k + 1] == path[..k + 1]
  {
    assert path != "/";
    match mode
    case StripSlash =>
    case _ =>
  }

  /** Below a mount path of slashes every route path gets a second slash, or, for the root
      route in strip mode, is lost altogether. */
  lemma SlashMountMisplaces(path: string, sub: string, mode: SlashMode)
    requires path != "" && OnlySlashes(path) && StartsWithOneSlash(sub)
    ensures !StartsWithOneSlash(Mountpoint(MountPath(path), mode).Place(sub))
  {
    assert MountPath(path) == ['/'];
    var p := ['/'] + sub;
    assert p[0] == '/' && p[1] == '/';
    if |sub| > 1 {
      NormalizeKeepsFront(p, mode, 2);
      assert NormalizePath(p, mode)[..3][1] == p[..3][1];
    } else if mode.StripSlash? {
      NormalizedPathIsEmptyIff(p);
    }
  }

  lemma OtherMountKeepsOneSlash(path: string, sub: string, mode: SlashMode)
    requires !(path != "" && OnlySlashes(path)) && StartsWithOneSlash(sub)
    ensures StartsWithOneSlash(Mountpoint(MountPath(path), mode).Place(sub))
  {
    var core := Strip(path);
    if path == "" {
      assert MountPath(path) + sub == sub;
      if |sub| > 1 {
        NormalizeKeepsFront(sub, mode, 1);
        assert NormalizePath(sub, mode)[..2] == sub[..2];
        assert NormalizePath(sub, mode)[0] == sub[..2][0] && NormalizePath(sub, mode)[1] == sub[..2][1];
      } else {
        assert sub == "/";
      }
    } else {
      var p := MountPath(path) + sub;
      assert MountPath(path)[0] == '/' && MountPath(path)[1] == core[0];
      assert p[0] == '/' && p[1] == core[0] != '/';
      NormalizeKeepsFront(p, mode, 1);
      assert NormalizePath(p, mode)[0] == p[..2][0] && NormalizePath(p, mode)[1] == p[..2][1];
    }
  }

  /** Main result: a route whose path starts with one slash keeps doing so below a mount path,
      and so can be addressed, if and only if the mount path is empty or holds something else
      than slashes. */
  lemma CopiedRouteStaysAddressableIff(path: string, sub: string, mode: SlashMode)
    requires StartsWithOneSlash(sub)
    ensures StartsWithOneSlash(Mountpoint(MountPath(path), mode).Place(sub)) <==> path == "" || !OnlySlashes(path)
  {
    if path != "" && OnlySlashes(path) {
      SlashMountMisplaces(path, sub, mode);
    } else {
      OtherMountKeepsOneSlash(path, sub, mode);
    }
  }

  // --- runs ---------------------------------------------------------------------------------------------

  /** A registration call; a mounted application is given by its state at that moment. */
  datatype Call =
    | RouteCall(verb: string, path: string, skipPrefix: bool, h: Compiled, deps: seq<(nat, Meta)>)
    | SocketCall(path: string, h: Compiled)
    | MountAsgiCall(path: string, app: nat)
    | MountCall(path: string, sub: Api)

  function Apply(s: Api, c: Call): Api {
    match c
    case RouteCall(verb, path, skipPrefix, h, deps) => AddRoute(s, verb, path, skipPrefix, h, deps)
    case SocketCall(path, h) => AddSocket(s, path, h)
    case MountAsgiCall(path, app) => s.(mounts := MountAsgi(s, path, app).mounts)
    case MountCall(path, sub) => Mount(s, path, sub)
  }

  function ApplyAll(s: Api, calls: seq<Call>): Api
    decreases |calls|
  {
    if calls == [] then s else ApplyAll(Apply(s, calls[0]), calls[1..])
  }

  lemma ApplyKeepsInv(s: Api, c: Call)
    requires Inv(s) && (c.MountCall? ==> Inv(c.sub))
    ensures Inv(Apply(s, c))
  {
    match c
    case RouteCall(verb, path, skipPrefix, h, deps) => AddRouteKeepsIds(s, verb, path, skipPrefix, h, deps);
    case SocketCall(path, h) =>
    case MountAsgiCall(path, app) => MountAsgiKeepsMounts(s, path, app);
    case MountCall(path, sub) =>
      MountKeepsInv(s, Mountpoint(MountPath(path), s.slashes), sub, Mount(s, path, sub));
  }

  /** After any sequence of calls on a consistent object, those that raise on a mount prefix
      included, the object is consistent. */
  lemma {:induction false} EveryRunKeepsTheTablesConsistent(s: Api, calls: seq<Call>)
    requires Inv(s)
    requires forall i :: 0 <= i < |calls| && calls[i].MountCall? ==> Inv(calls[i].sub)
    ensures Inv(ApplyAll(s, calls))
    decreases |calls|
  {
    if calls != [] {
      ApplyKeepsInv(s, calls[0]);
      assert forall i :: 0 <= i < |calls[1..]| ==> calls[1..][i] == calls[i + 1];
      EveryRunKeepsTheTablesConsistent(Apply(s, calls[0]), calls[1..]);
    }
  }

  // --- every object a program can build -----------------------------------------------------------------

  /** How an API object came about: created, and changed by one call after the other. A mounted
      sub-application comes with its own history up to the call. */
  datatype History =
    | Created(self: nat, prefix: string, slashes: SlashMode)
    | ThenRoute(before: History, verb: string, path: string, skipPrefix: bool, h: Compiled, deps: seq<(nat, Meta)>)
    | ThenSocket(before: History, path: string, h: Compiled)
    | ThenMountAsgi(before: History, path: string, app: nat)
    | ThenMount(before: History, path: string, sub: History)

  function Build(h: History): Api {
    match h
    case Created(self, prefix, slashes) => NewApi(self, prefix, slashes)
    case ThenRoute(before, verb, path, skipPrefix, c, deps) => Apply(Build(before), RouteCall(verb, path, skipPrefix, c, deps))
    case ThenSocket(before, path, c) => Apply(Build(before), SocketCall(path, c))
    case ThenMountAsgi(before, path, app) => Apply(Build(before), MountAsgiCall(path, app))
    case ThenMount(before, path, sub) => Apply(Build(before), MountCall(path, Build(sub)))
  }

  /** Main result: in every API object that can be built, sub-applications included, the ids in
      use are distinct, below the next id and backed by a handler, metadata and middleware, and
      the prefix set is exactly the duplicate-free list of prefixes. */
  lemma {:induction false} EveryApiIsConsistent(h: History)
    ensures Inv(Build(h))
    decreases h
  {
    match h
    case Created(_, _, _) =>
    case ThenRoute(before, verb, path, skipPrefix, c, deps) =>
      EveryApiIsConsistent(before);
      ApplyKeepsInv(Build(before), RouteCall(verb, path, skipPrefix, c, deps));
    case ThenSocket(before, path, c) =>
      EveryApiIsConsistent(before);
      ApplyKeepsInv(Build(before), SocketCall(path, c));
    case ThenMountAsgi(before, path, app) =>
      EveryApiIsConsistent(before);
      ApplyKeepsInv(Build(before), MountAsgiCall(path, app));
    case ThenMount(before, path, sub) =>
      EveryApiIsConsistent(before);
      EveryApiIsConsistent(sub);
      ApplyKeepsInv(Build(before), MountCall(path, Build(sub)));
  }

  function RustMounts(entries: seq<AsgiEntry>): seq<AsgiMounts.Mount> {
    seq(|entries|, i requires 0 <= i < |entries| => AsgiMounts.Mount(entries[i].prefix, entries[i].app))
  }

  /** Together with the Rust side: the mount list of every API object is accepted. */
  lemma {:induction false} RegisteredMountsAreAccepted(h: History)
    ensures var ms := RustMounts(Build(h).mounts.entries);
            AsgiMounts.AllValid(ms) && !AsgiMounts.VisibleDuplicate(ms)
  {
    EveryApiIsConsistent(h);
    AsgiMounts.DistinctPrefixesAreAccepted(RustMounts(Build(h).mounts.entries));
  }
}
