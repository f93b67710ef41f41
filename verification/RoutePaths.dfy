/**
 Where routes, websocket routes and ASGI mounts end up
 (python/django_bolt/api.py), said of the texts themselves: a path is written
 as a core without outer slashes and the slashes around it.
 */
module RoutePaths {
  import opened Common
  import opened Registration

  predicate EndsClean(s: string) {
    s != "" && s[|s| - 1] != '/'
  }

  /** Neither starts nor ends with a slash. */
  predicate IsCore(s: string) {
    EndsClean(s) && s[0] != '/'
  }

  lemma StrippedRight(core: string, right: string, s: string)
    requires s == core + right && OnlySlashes(right) && (core == "" || EndsClean(core))
    ensures StripRight(s) == core
  {
    assert forall i :: |core| <= i < |s| ==> s[i] == right[i - |core|];
    assert core != "" ==> s[|core| - 1] == core[|core| - 1];
    assert SlashesStart(s, |s|) == |core|;
  }

  lemma StrippedBoth(left: string, core: string, right: string, s: string)
    requires s == left + core + right && OnlySlashes(left) && OnlySlashes(right) && IsCore(core)
    ensures Strip(s) == core && s != ""
  {
    assert s[|left|] == core[0];
    StripLeftIs(s, |left|);
    StrippedRight(core, right, s[|left|..]);
  }

  /** What a slash mode makes of slashes behind a path. */
  function Ending(right: string, mode: SlashMode): string {
    match mode
    case StripSlash => ""
    case AppendSlash => if right == "" then "/" else right
    case KeepSlash => right
  }

  lemma NormalizedEnding(base: string, right: string, mode: SlashMode, path: string)
    requires EndsClean(base) && OnlySlashes(right) && path == base + right
    ensures NormalizePath(path, mode) == base + Ending(right, mode)
  {
    assert path[|base| - 1] == base[|base| - 1];
    StrippedRight(base, right, path);
    if right != "" { assert path[|path| - 1] == right[|right| - 1]; }
    assert base + "" == base;
  }

  // --- registering -------------------------------------------------------------------------

  lemma ConcatPaths(prefix: string, core: string, right: string)
    ensures prefix + (core + right) == (prefix + core) + right
  {
  }

  lemma FullPathIs(prefix: string, core: string, right: string, skipPrefix: bool, mode: SlashMode)
    requires OnlySlashes(right) && EndsClean((if skipPrefix then "" else prefix) + core)
    ensures var base := (if skipPrefix then "" else prefix) + core;
            FullPath(prefix, core + right, skipPrefix, mode) ==
              base + Ending(if core + right == "" then "/" else right, mode)
  {
    var base := (if skipPrefix then "" else prefix) + core;
    var ending := if core + right == "" then "/" else right;
    var own := if core + right == "" then "/" else core + right;
    assert own == core + ending;
    ConcatPaths(prefix, core, ending);
    assert "" + core == core;
    NormalizedEnding(base, ending, mode, base + ending);
  }

  /** The first metadata given for a callable, if any. */
  function FirstMeta(deps: seq<(nat, Meta)>, fn: nat): Option<Meta> {
    if deps == [] then None
    else if deps[0].0 == fn then Some(deps[0].1)
    else FirstMeta(deps[1..], fn)
  }

  lemma {:induction false} DependenciesAreCached(meta: map<MetaKey, Meta>, deps: seq<(nat, Meta)>, key: MetaKey)
    ensures var after, first := AddDeps(meta, deps), if key.Callable? then FirstMeta(deps, key.fn) else None;
            && (key in after <==> key in meta || first.Some?)
            && (key in after ==> after[key] == if key in meta then meta[key] else first.value)
    decreases |deps|
  {
    if deps != [] {
      var k := Callable(deps[0].0);
      DependenciesAreCached(if k in meta then meta else meta[k := deps[0].1], deps[1..], key);
    }
  }

  /** Under the given id stands the compiled handler, and under all other ids what stood there. */
  ghost predicate Filed(t: Table, u: Table, id: nat, h: Compiled) {
    && u.nextId == id + 1
    && id in u.handlers && u.handlers[id] == h.fn
    && Id(id) in u.meta && u.meta[Id(id)] == h.meta
    && id in u.middleware && u.middleware[id] == h.middleware
    && (forall i: nat :: i != id ==> SameEntry(t, u, i))
    && u.owner == t.owner
  }

  predicate SameEntry(t: Table, u: Table, i: nat) {
    && (i in u.handlers <==> i in t.handlers) && (i in t.handlers ==> u.handlers[i] == t.handlers[i])
    && (Id(i) in u.meta <==> Id(i) in t.meta) && (Id(i) in t.meta ==> u.meta[Id(i)] == t.meta[Id(i)])
    && (i in u.middleware <==> i in t.middleware) && (i in t.middleware ==> u.middleware[i] == t.middleware[i])
  }

  /** Main result: a route is registered last, under the next id, at the API prefix followed by
      its path (or at its path alone), ending as the slash mode wants, with its handler,
      metadata and middleware; dependencies are cached under their callables, the first one first. */
  lemma RouteIsRegisteredAt(
    s: Api, verb: string, core: string, right: string, skipPrefix: bool, h: Compiled, deps: seq<(nat, Meta)>, t: Api)
    requires t == AddRoute(s, verb, core + right, skipPrefix, h, deps)
    requires OnlySlashes(right) && EndsClean((if skipPrefix then "" else s.prefix) + core)
    ensures var path := (if skipPrefix then "" else s.prefix) + core
                        + Ending(if core + right == "" then "/" else right, s.slashes);
            t.routes == s.routes + [Route(Some(verb), path, s.table.nextId, h.fn)]
    ensures t.sockets == s.sockets && t.mounts == s.mounts
    ensures t.prefix == s.prefix && t.slashes == s.slashes && t.self == s.self
    ensures Filed(s.table, t.table, s.table.nextId, h)
    ensures forall fn :: Callable(fn) in t.table.meta <==> Callable(fn) in s.table.meta || FirstMeta(deps, fn).Some?
    ensures forall fn :: Callable(fn) in t.table.meta ==>
              t.table.meta[Callable(fn)] ==
                if Callable(fn) in s.table.meta then s.table.meta[Callable(fn)] else FirstMeta(deps, fn).value
  {
    FullPathIs(s.prefix, core, right, skipPrefix, s.slashes);
    forall key: MetaKey {
      DependenciesAreCached(s.table.meta, deps, key);
    }
  }

  /** The root path of an API without a prefix, however it is written, is "/" in every mode. */
  lemma RootIsRegisteredAt(s: Api, verb: string, path: string, skipPrefix: bool, h: Compiled, deps: seq<(nat, Meta)>)
    requires (skipPrefix || s.prefix == "") && (path == "" || path == "/")
    ensures AddRoute(s, verb, path, skipPrefix, h, deps).routes ==
              s.routes + [Route(Some(verb), "/", s.table.nextId, h.fn)]
  {
    assert "" + "/" == "/";
  }

  /** A websocket route is registered at the API prefix followed by its path, as it is. */
  lemma SocketIsRegisteredAt(s: Api, path: string, h: Compiled, t: Api)
    requires t == AddSocket(s, path, h)
    ensures t.sockets == s.sockets + [Route(None, s.prefix + path, s.table.nextId, h.fn)]
    ensures t.routes == s.routes && t.mounts == s.mounts && Filed(s.table, t.table, s.table.nextId, h)
  {
  }

  /** The prefix of a new object loses its slashes at the end and keeps the rest. */
  lemma PrefixOfNewApi(self: nat, core: string, right: string, mode: SlashMode)
    requires OnlySlashes(right) && (core == "" || EndsClean(core))
    ensures NewApi(self, core + right, mode).prefix == core
  {
    StrippedRight(core, right, core + right);
  }

  // --- mounting ----------------------------------------------------------------------------------

  /** Main result: below a mount path with a core, a copied path is that core behind one slash,
      followed by the path of the sub-application, ending as the slash mode of the parent wants. */
  lemma CopiedPathIs(left: string, core: string, right: string, sub: string, ending: string, mode: SlashMode)
    requires OnlySlashes(left) && OnlySlashes(right) && IsCore(core)
    requires OnlySlashes(ending) && (sub == "" || EndsClean(sub))
    ensures Mountpoint(MountPath(left + core + right), mode).Place(sub + ending) ==
              "/" + core + sub + Ending(ending, mode)
  {
    var path := left + core + right;
    StrippedBoth(left, core, right, path);
    var base := "/" + core + sub;
    assert MountPath(path) == "/" + core;
    assert base[|base| - 1] == if sub == "" then core[|core| - 1] else sub[|sub| - 1];
    assert MountPath(path) + (sub + ending) == base + ending;
    NormalizedEnding(base, ending, mode, base + ending);
  }

  lemma CopiedAtIndex(before: seq<Route>, subs: seq<Route>, p: Mountpoint, first: nat, i: nat, after: seq<Route>)
    requires after == before + CopiedRoutes(subs, p, first) && i < |subs|
    ensures |after| == |before| + |subs| && after[|before| + i].path == p.Place(subs[i].path)
  {
  }

  lemma PlacedBy(s: Api, p: Mountpoint, app: Api, t: Api, i: nat)
    requires t == MountAt(s, p, app)
    ensures |t.routes| == |s.routes| + |app.routes| && |t.sockets| == |s.sockets| + |app.sockets|
    ensures i < |app.routes| ==> t.routes[|s.routes| + i].path == p.Place(app.routes[i].path)
    ensures i < |app.sockets| ==> t.sockets[|s.sockets| + i].path == p.Place(app.sockets[i].path)
  {
    if i < |app.routes| { CopiedAtIndex(s.routes, app.routes, p, s.table.nextId, i, t.routes); }
    if i < |app.sockets| { CopiedAtIndex(s.sockets, app.sockets, p, s.table.nextId + |app.routes|, i, t.sockets); }
  }

  /** The same of the routes and websocket routes that mount files behind its own. */
  lemma MountedRoutesLieBelow(
    s: Api, left: string, core: string, right: string, app: Api, t: Api, i: nat, sub: string, ending: string,
    placed: string)
    requires OnlySlashes(left) && OnlySlashes(right) && IsCore(core)
    requires OnlySlashes(ending) && (sub == "" || EndsClean(sub))
    requires t == Mount(s, left + core + right, app) && placed == "/" + core + sub + Ending(ending, s.slashes)
    ensures |t.routes| == |s.routes| + |app.routes| && |t.sockets| == |s.sockets| + |app.sockets|
    ensures i < |app.routes| && app.routes[i].path == sub + ending ==> t.routes[|s.routes| + i].path == placed
    ensures i < |app.sockets| && app.sockets[i].path == sub + ending ==> t.sockets[|s.sockets| + i].path == placed
  {
    var p := Mountpoint(MountPath(left + core + right), s.slashes);
    CopiedPathIs(left, core, right, sub, ending, s.slashes);
    PlacedBy(s, p, app, t, i);
  }

  /** Text that Python takes for a path with parameters. */
  predicate Dynamic(s: string) {
    exists i :: 0 <= i < |s| && (s[i] == '{' || s[i] == '}')
  }

  lemma NormalizedMount(left: string, core: string, right: string, path: string)
    requires OnlySlashes(left) && OnlySlashes(right) && IsCore(core) && path == left + core + right
    ensures NormalizeMountPrefix(path) == if Dynamic(core) then Err(DynamicMountPrefix) else Ok("/" + core)
  {
    StrippedBoth(left, core, right, path);
    NormalizedShape(path, "/" + core);
    var p := "/" + core;
    assert p[1..] == core;
    assert forall i :: 0 <= i < |core| ==> p[i + 1] == core[i];
    assert HasBrace(p) <==> Dynamic(core) by {
      if i :| 0 <= i < |p| && (p[i] == '{' || p[i] == '}') { assert core[i - 1] == p[i]; }
      if i :| 0 <= i < |core| && (core[i] == '{' || core[i] == '}') { assert p[i + 1] in p; }
    }
  }

  lemma JoinedCores(a: string, b: string, c: string)
    requires IsCore(a) && IsCore(b) && c == a + "/" + b
    ensures IsCore(c) && (Dynamic(c) <==> Dynamic(a) || Dynamic(b))
  {
    assert c[0] == a[0] && c[|c| - 1] == b[|b| - 1];
    assert forall i :: 0 <= i < |a| ==> c[i] == a[i];
    assert forall i :: 0 <= i < |b| ==> c[|a| + 1 + i] == b[i];
    assert forall i :: |a| < i < |c| ==> c[i] == b[i - |a| - 1];
  }

  /** Two cores, the second behind one slash, make up a mount prefix. */
  lemma JoinedMount(left: string, a: string, b: string, front: string, back: string, placed: string)
    requires OnlySlashes(left) && IsCore(a) && IsCore(b)
    requires front == left + a && back == "/" + b && placed == "/" + a + back
    ensures NormalizeMountPrefix(front + back) ==
              if Dynamic(a) || Dynamic(b) then Err(DynamicMountPrefix) else Ok(placed)
  {
    var c := a + "/" + b;
    JoinedCores(a, b, c);
    assert front + back == left + c + "" && placed == "/" + c;
    NormalizedMount(left, c, "", front + back);
  }

  lemma AloneMount(left: string, a: string, front: string, placed: string)
    requires OnlySlashes(left) && IsCore(a) && front == left + a && placed == "/" + a
    ensures NormalizeMountPrefix(front) == if Dynamic(a) then Err(DynamicMountPrefix) else Ok(placed)
  {
    assert front == left + a + "";
    NormalizedMount(left, a, "", front);
  }

  /** Main result: an ASGI mount is filed under the core of the API prefix and its own core, each
      behind one slash, and refused when one of them has a brace. */
  lemma AsgiMountIsFiledUnder(
    slashes: string, api: string, apiPrefix: string, left: string, core: string, right: string, path: string,
    placed: string)
    requires OnlySlashes(slashes) && IsCore(api) && apiPrefix == slashes + api
    requires OnlySlashes(left) && OnlySlashes(right) && IsCore(core) && path == left + core + right
    requires placed == "/" + core
    ensures MountAsgiPath("", path) == if Dynamic(core) then Err(DynamicMountPrefix) else Ok(placed)
    ensures MountAsgiPath(apiPrefix, path) ==
              if Dynamic(core) || Dynamic(api) then Err(DynamicMountPrefix) else Ok("/" + api + placed)
  {
    NormalizedMount(left, core, right, path);
    JoinedMount(slashes, api, core, apiPrefix, placed, "/" + api + placed);
  }

  /** Mounted at the root, an application is filed under the API prefix alone. */
  lemma AsgiRootIsFiledUnder(slashes: string, api: string, apiPrefix: string, path: string, placed: string)
    requires OnlySlashes(slashes) && IsCore(api) && apiPrefix == slashes + api && placed == "/" + api
    requires path == "" || path == "/"
    ensures MountAsgiPath(apiPrefix, path) == if Dynamic(api) then Err(DynamicMountPrefix) else Ok(placed)
    ensures MountAsgiPath("", path) == Ok("/")
  {
    NormalizedShape(path, "/");
    AloneMount(slashes, api, apiPrefix, placed);
  }

  /** Main result: below a mount path with a core, the mount of a sub-application is filed under
      that core followed by its own prefix, or under the core alone for the prefix "/". */
  lemma CopiedMountIsFiledUnder(
    left: string, core: string, right: string, mountPath: string, own: string, prefix: string)
    requires OnlySlashes(left) && OnlySlashes(right) && IsCore(core) && (own == "" || IsCore(own))
    requires mountPath == "/" + core && prefix == "/" + own
    ensures MountPath(left + core + right) == mountPath
    ensures MountedPrefix(mountPath, prefix) ==
              if Dynamic(core) || Dynamic(own) then Err(DynamicMountPrefix)
              else Ok(if own == "" then mountPath else mountPath + prefix)
    ensures MountedPrefix(MountPath(""), prefix) == Ok(prefix)
  {
    StrippedBoth(left, core, right, left + core + right);
    if own == "" {
      assert prefix == "/" && !Dynamic(own);
      AloneMount("/", core, mountPath, mountPath);
    } else {
      assert |prefix| > 1;
      JoinedMount("/", core, own, mountPath, prefix, mountPath + prefix);
    }
  }

  // --- an interrupted mount ---------------------------------------------------------------------------

  lemma FirstRefused(m: MountTable, entries: seq<AsgiEntry>, path: string, n: nat)
    requires |entries| == n + 1 && CopyMounts(m, entries[..n], path).error.None? && CopyMounts(m, entries, path).error.Some?
    ensures CopyMounts(m, entries, path).mounts == CopyMounts(m, entries[..n], path).mounts
    ensures CopyMounts(m, entries, path).error ==
              Some(if MountedPrefix(path, entries[n].prefix).Err? then DynamicMountPrefix else DuplicateMountPrefix)
  {
  }

  /** Main result: when a prefix is refused the mounts before the first refused one stay filed,
      and the error says whether that one is dynamic or taken. */
  lemma {:induction false} InterruptedMountKeepsTheFront(m: MountTable, entries: seq<AsgiEntry>, path: string) returns (k: nat)
    requires CopyMounts(m, entries, path).error.Some?
    ensures k < |entries|
    ensures Mountable(m.prefixes, Targets(entries[..k], path)) && !Mountable(m.prefixes, Targets(entries[..k + 1], path))
    ensures AllMounted(m, entries[..k], Targets(entries[..k], path), CopyMounts(m, entries, path).mounts)
    ensures CopyMounts(m, entries, path).error ==
              Some(if MountedPrefix(path, entries[k].prefix).Err? then DynamicMountPrefix else DuplicateMountPrefix)
  {
    var n := |entries| - 1;
    if CopyMounts(m, entries[..n], path).error.Some? {
      k := InterruptedMountKeepsTheFront(m, entries[..n], path);
      assert entries[..n][..k] == entries[..k] && entries[..n][..k + 1] == entries[..k + 1];
      assert CopyMounts(m, entries, path) == CopyMounts(m, entries[..n], path);
    } else {
      k := n;
      CopyMountsSucceedsIff(m, entries[..n], path);
      CopyMountsSucceedsIff(m, entries, path);
      FirstRefused(m, entries, path, n);
      assert entries[..k + 1] == entries;
    }
  }
}
