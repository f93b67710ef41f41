/**
 Mounted ASGI applications: validating and ordering the mount list
 (src/asgi_mounts.rs), longest-prefix lookup (src/state.rs), the subpath handed
 to the application (src/asgi_http.rs) and Django's path rewrite
 (python/django_bolt/api.py).
 */
module AsgiMounts {
  import opened Common

  datatype Mount = Mount(prefix: string, app: nat)

  datatype MountError = InvalidPrefix | TrailingSlash | DuplicatePrefix

  /** Length in UTF-8, by which the mounts are ordered. */
  function ByteLength(s: string): nat {
    if s == "" then 0 else Width(s[0]) + ByteLength(s[1..])
  }

  function Width(c: char): (w: nat)
    ensures 1 <= w <= 4
  {
    if c as int < 0x80 then 1 else if c as int < 0x800 then 2 else if c as int < 0x10000 then 3 else 4
  }

  /** The UTF-8 encoding of section 3 of RFC 3629. */
  function Encoded(c: char): Bytes {
    var n := c as int;
    if n < 0x80 then [n as byte]
    else if n < 0x800 then [(0xC0 + n / 0x40) as byte, (0x80 + n % 0x40) as byte]
    else if n < 0x10000 then
      [(0xE0 + n / 0x1000) as byte, (0x80 + n / 0x40 % 0x40) as byte, (0x80 + n % 0x40) as byte]
    else
      [(0xF0 + n / 0x40000) as byte, (0x80 + n / 0x1000 % 0x40) as byte,
       (0x80 + n / 0x40 % 0x40) as byte, (0x80 + n % 0x40) as byte]
  }

  function EncodedAll(s: string): Bytes {
    if s == "" then [] else Encoded(s[0]) + EncodedAll(s[1..])
  }

  /** The length by which mounts are ordered is that of the encoded prefix. */
  lemma {:induction false} ByteLengthIsEncodedLength(s: string)
    ensures ByteLength(s) == |EncodedAll(s)|
  {
    if s != "" { ByteLengthIsEncodedLength(s[1..]); }
  }

  predicate ValidPrefix(p: string) {
    p != "" && p[0] == '/' && (|p| > 1 ==> p[|p| - 1] != '/')
  }

  // --- the stable sort by descending byte length ---------------------------------------

  function Insert(m: Mount, s: seq<Mount>): seq<Mount> {
    if s == [] || ByteLength(m.prefix) >= ByteLength(s[0].prefix) then [m] + s else [s[0]] + Insert(m, s[1..])
  }

  function Sort(ms: seq<Mount>): seq<Mount> {
    if ms == [] then [] else Insert(ms[0], Sort(ms[1..]))
  }

  ghost predicate Descending(s: seq<Mount>) {
    forall i, j :: 0 <= i < j < |s| ==> ByteLength(s[i].prefix) >= ByteLength(s[j].prefix)
  }

  function OfLength(s: seq<Mount>, n: nat): seq<Mount> {
    if s == [] then []
    else if ByteLength(s[0].prefix) == n then [s[0]] + OfLength(s[1..], n)
    else OfLength(s[1..], n)
  }

  lemma {:induction false} InsertKeepsMounts(m: Mount, s: seq<Mount>)
    ensures multiset(Insert(m, s)) == multiset(s) + multiset{m}
    ensures forall x :: x in Insert(m, s) <==> x == m || x in s
  {
    if s != [] && ByteLength(m.prefix) < ByteLength(s[0].prefix) {
      InsertKeepsMounts(m, s[1..]);
      assert s == [s[0]] + s[1..];
    }
  }

  lemma {:induction false} InsertKeepsOrder(m: Mount, s: seq<Mount>)
    requires Descending(s)
    ensures Descending(Insert(m, s))
  {
    if s != [] && ByteLength(m.prefix) < ByteLength(s[0].prefix) {
      var t := Insert(m, s[1..]);
      InsertKeepsOrder(m, s[1..]);
      InsertKeepsMounts(m, s[1..]);
      forall i | 0 <= i < |t| ensures ByteLength(s[0].prefix) >= ByteLength(t[i].prefix) {
        assert t[i] == m || t[i] in s[1..];
      }
    }
  }

  lemma {:induction false} InsertIsStable(m: Mount, s: seq<Mount>, n: nat)
    ensures OfLength(Insert(m, s), n) == if ByteLength(m.prefix) == n then [m] + OfLength(s, n) else OfLength(s, n)
  {
    if s == [] || ByteLength(m.prefix) >= ByteLength(s[0].prefix) {
      assert ([m] + s)[1..] == s;
    } else {
      InsertIsStable(m, s[1..], n);
      var t := Insert(m, s[1..]);
      assert ([s[0]] + t)[1..] == t;
    }
  }

  /** The sort orders by descending length and keeps the mounts. */
  lemma {:induction false} SortIsOrdered(ms: seq<Mount>)
    ensures Descending(Sort(ms))
    ensures multiset(Sort(ms)) == multiset(ms)
    ensures forall x :: x in Sort(ms) <==> x in ms
  {
    if ms != [] {
      SortIsOrdered(ms[1..]);
      InsertKeepsOrder(ms[0], Sort(ms[1..]));
      InsertKeepsMounts(ms[0], Sort(ms[1..]));
      assert ms == [ms[0]] + ms[1..];
    }
  }

  /** Mounts of equal length keep their order. */
  lemma {:induction false} SortIsStable(ms: seq<Mount>, n: nat)
    ensures OfLength(Sort(ms), n) == OfLength(ms, n)
  {
    if ms != [] {
      SortIsStable(ms[1..], n);
      InsertIsStable(ms[0], Sort(ms[1..]), n);
    }
  }

  // --- which duplicates the neighbour check sees --------------------------------------------

  /** Equal prefixes at i and j with no mount of the same length between them. */
  ghost predicate NeighbourPair(s: seq<Mount>, i: nat, j: nat) {
    && i < j < |s|
    && s[i].prefix == s[j].prefix
    && forall k :: i < k < j ==> ByteLength(s[k].prefix) != ByteLength(s[i].prefix)
  }

  ghost predicate VisibleDuplicate(s: seq<Mount>) {
    exists i: nat, j: nat :: NeighbourPair(s, i, j)
  }

  ghost predicate AdjacentDuplicate(s: seq<Mount>) {
    exists i :: 0 <= i < |s| - 1 && s[i].prefix == s[i + 1].prefix
  }

  lemma {:induction false} FirstOfLength(s: seq<Mount>, n: nat) returns (f: nat)
    requires OfLength(s, n) != []
    ensures f < |s| && s[f] == OfLength(s, n)[0]
    ensures forall k :: 0 <= k < f ==> ByteLength(s[k].prefix) != n
    ensures ByteLength(s[f].prefix) == n
  {
    if ByteLength(s[0].prefix) == n {
      f := 0;
    } else {
      var g := FirstOfLength(s[1..], n);
      f := g + 1;
      assert forall k :: 0 < k < f ==> s[k] == s[1..][k - 1];
    }
  }

  lemma {:induction false} NoneOfLength(s: seq<Mount>, n: nat, k: nat)
    requires OfLength(s, n) == [] && k < |s|
    ensures ByteLength(s[k].prefix) != n
  {
    if k > 0 { NoneOfLength(s[1..], n, k - 1); }
  }

  ghost predicate PairOfLength(s: seq<Mount>, n: nat) {
    exists i: nat, j: nat :: NeighbourPair(s, i, j) && ByteLength(s[i].prefix) == n
  }

  /** A pair of s is a pair of its tail, or starts at the head. */
  lemma PairsOfTail(s: seq<Mount>, n: nat)
    requires s != []
    ensures PairOfLength(s, n) <==>
              PairOfLength(s[1..], n) || (ByteLength(s[0].prefix) == n && exists j: nat :: NeighbourPair(s, 0, j))
  {
    if i: nat, j: nat :| NeighbourPair(s, i, j) && ByteLength(s[i].prefix) == n && i > 0 {
      assert NeighbourPair(s[1..], i - 1, j - 1) && ByteLength(s[1..][i - 1].prefix) == n;
    }
    if i: nat, j: nat :| NeighbourPair(s[1..], i, j) && ByteLength(s[1..][i].prefix) == n {
      assert NeighbourPair(s, i + 1, j + 1) && ByteLength(s[i + 1].prefix) == n;
    }
  }

  /** The head has a neighbour exactly when the next mount of its length equals it. */
  lemma HeadPair(s: seq<Mount>)
    requires s != []
    ensures var f := OfLength(s[1..], ByteLength(s[0].prefix));
            (exists j: nat :: NeighbourPair(s, 0, j)) <==> f != [] && f[0].prefix == s[0].prefix
  {
    var n := ByteLength(s[0].prefix);
    var t := s[1..];
    var f := OfLength(t, n);
    if f == [] {
      if j: nat :| NeighbourPair(s, 0, j) { NoneOfLength(t, n, j - 1); }
    } else {
      var first := FirstOfLength(t, n);
      assert s[first + 1] == f[0];
      assert forall k :: 0 < k < first + 1 ==> s[k] == t[k - 1];
      if f[0].prefix == s[0].prefix { assert NeighbourPair(s, 0, first + 1); }
      if j: nat :| NeighbourPair(s, 0, j) { assert j == first + 1; }
    }
  }

  lemma AdjacentCons(x: Mount, f: seq<Mount>)
    ensures AdjacentDuplicate([x] + f) <==> AdjacentDuplicate(f) || (f != [] && f[0].prefix == x.prefix)
  {
    var all := [x] + f;
    if i :| 0 <= i < |all| - 1 && all[i].prefix == all[i + 1].prefix && i > 0 {
      assert f[i - 1].prefix == f[i].prefix;
    }
    if i :| 0 <= i < |f| - 1 && f[i].prefix == f[i + 1].prefix {
      assert all[i + 1].prefix == all[i + 2].prefix;
    }
    if f != [] && f[0].prefix == x.prefix { assert all[0].prefix == all[1].prefix; }
  }

  /** Among the mounts of one length, neighbours are exactly the pairs with no mount of
      that length between them. */
  lemma {:induction false} AdjacentInFilter(s: seq<Mount>, n: nat)
    ensures AdjacentDuplicate(OfLength(s, n)) <==> PairOfLength(s, n)
  {
    if s != [] {
      AdjacentInFilter(s[1..], n);
      PairsOfTail(s, n);
      HeadPair(s);
      AdjacentCons(s[0], OfLength(s[1..], n));
    }
  }

  lemma LengthsBetween(s: seq<Mount>, i: nat, k: nat, j: nat)
    requires Descending(s) && i < k < j < |s|
    ensures ByteLength(s[i].prefix) >= ByteLength(s[k].prefix) >= ByteLength(s[j].prefix)
  {
  }

  /** In a list ordered by length, equal neighbours and visible duplicates are the same. */
  lemma SortedNeighbours(s: seq<Mount>)
    requires Descending(s)
    ensures AdjacentDuplicate(s) <==> VisibleDuplicate(s)
  {
    if i :| 0 <= i < |s| - 1 && s[i].prefix == s[i + 1].prefix {
      assert NeighbourPair(s, i, i + 1);
    }
    if i: nat, j: nat :| NeighbourPair(s, i, j) {
      if i + 1 < j {
        LengthsBetween(s, i, i + 1, j);
        assert false;
      }
    }
  }

  lemma SortKeepsVisibleDuplicates(ms: seq<Mount>)
    ensures AdjacentDuplicate(Sort(ms)) <==> VisibleDuplicate(ms)
  {
    var s := Sort(ms);
    SortIsOrdered(ms);
    SortedNeighbours(s);
    if i: nat, j: nat :| NeighbourPair(s, i, j) {
      var n := ByteLength(s[i].prefix);
      SortIsStable(ms, n);
      assert PairOfLength(s, n);
      AdjacentInFilter(s, n);
      AdjacentInFilter(ms, n);
    }
    if i: nat, j: nat :| NeighbourPair(ms, i, j) {
      var n := ByteLength(ms[i].prefix);
      SortIsStable(ms, n);
      assert PairOfLength(ms, n);
      AdjacentInFilter(s, n);
      AdjacentInFilter(ms, n);
    }
  }

  /** The error names what is wrong with the first prefix that is not valid. */
  ghost predicate FirstInvalid(ms: seq<Mount>, i: nat, e: MountError) {
    && i < |ms|
    && AllValid(ms[..i])
    && match e
       case InvalidPrefix => !("/" <= ms[i].prefix)
       case TrailingSlash => "/" < ms[i].prefix && ms[i].prefix[|ms[i].prefix| - 1] == '/'
       case DuplicatePrefix => false
  }

  predicate AllValid(ms: seq<Mount>) {
    forall i :: 0 <= i < |ms| ==> ValidPrefix(ms[i].prefix)
  }

  /** Main result: a mount list is accepted exactly when every prefix is valid and no two
      equal prefixes are visible as neighbours among the mounts of their length. */
  method ValidateAndSort(mounts: seq<Mount>) returns (r: Result<seq<Mount>, MountError>)
    ensures r.Ok? <==> AllValid(mounts) && !VisibleDuplicate(mounts)
    ensures r.Ok? ==> r.value == Sort(mounts)
    ensures r.Err? ==> (r.error.DuplicatePrefix? <==> AllValid(mounts))
    ensures r.Err? && !r.error.DuplicatePrefix? ==> exists i: nat :: FirstInvalid(mounts, i, r.error)
  {
    var asgiMounts: seq<Mount> := [];
    for i := 0 to |mounts|
      invariant asgiMounts == mounts[..i]
      invariant AllValid(asgiMounts)
    {
      var prefix := mounts[i].prefix;
      if prefix == "" || prefix[0] != '/' {
        assert FirstInvalid(mounts, i, InvalidPrefix);
        return Err(InvalidPrefix);
      }
      if |prefix| > 1 && prefix[|prefix| - 1] == '/' {
        assert FirstInvalid(mounts, i, TrailingSlash);
        return Err(TrailingSlash);
      }
      asgiMounts := asgiMounts + [mounts[i]];
    }
    assert asgiMounts == mounts;
    SortKeepsVisibleDuplicates(mounts);
    asgiMounts := Sort(asgiMounts);
    var idx := 1;
    while idx < |asgiMounts|
      invariant idx >= 1
      invariant forall k :: 0 <= k < idx - 1 && k + 1 < |asgiMounts| ==> asgiMounts[k].prefix != asgiMounts[k + 1].prefix
    {
      if asgiMounts[idx - 1].prefix == asgiMounts[idx].prefix {
        return Err(DuplicatePrefix);
      }
      idx := idx + 1;
    }
    return Ok(asgiMounts);
  }

  /** A list without duplicate prefixes is accepted as soon as its prefixes are valid. */
  lemma DistinctPrefixesAreAccepted(ms: seq<Mount>)
    requires forall i, j :: 0 <= i < j < |ms| ==> ms[i].prefix != ms[j].prefix
    ensures !VisibleDuplicate(ms)
  {
  }

  /** The check is no full duplicate check: a prefix may repeat around another one of
      the same length. */
  lemma HiddenDuplicateIsAccepted()
    ensures var ms := [Mount("/a", 0), Mount("/b", 1), Mount("/a", 2)];
            AllValid(ms) && !VisibleDuplicate(ms) && ms[0].prefix == ms[2].prefix
  {
    var ms := [Mount("/a", 0), Mount("/b", 1), Mount("/a", 2)];
    assert ms[1].prefix[1] == 'b' && ms[0].prefix[1] == 'a' && ms[2].prefix[1] == 'a';
    assert !NeighbourPair(ms, 0, 1) && !NeighbourPair(ms, 1, 2);
    assert ByteLength(ms[1].prefix) == ByteLength(ms[0].prefix);
    assert !NeighbourPair(ms, 0, 2);
    forall i: nat, j: nat | i < j < |ms| ensures !NeighbourPair(ms, i, j) {
      assert (i == 0 && j == 1) || (i == 0 && j == 2) || (i == 1 && j == 2);
    }
  }

  // --- lookup ----------------------------------------------------------------------------------

  predicate MatchesPath(prefix: string, path: string) {
    || prefix == "/"
    || path == prefix
    || (|path| > |prefix| && prefix <= path && path[|prefix|] == '/')
  }

  /** The first mount that matches, in list order. */
  function FindMount(mounts: seq<Mount>, path: string): Option<Mount> {
    if mounts == [] then None
    else if MatchesPath(mounts[0].prefix, path) then Some(mounts[0])
    else FindMount(mounts[1..], path)
  }

  /** Splits at every slash. */
  function Segments(cur: string, s: string): seq<string>
    decreases |s|
  {
    if s == "" then [cur]
    else if s[0] == '/' then [cur] + Segments("", s[1..])
    else Segments(cur + [s[0]], s[1..])
  }

  lemma {:induction false} SegmentsSplit(cur: string, a: string, b: string)
    ensures Segments(cur, a + "/" + b) == Segments(cur, a) + Segments("", b)
    decreases |a|
  {
    var s := a + "/" + b;
    if a == "" {
      assert s[1..] == b;
    } else {
      assert s[1..] == a[1..] + "/" + b;
      SegmentsSplit(if a[0] == '/' then "" else cur + [a[0]], a[1..], b);
    }
  }

  function JoinSegments(segments: seq<string>): string
    requires segments != []
  {
    if |segments| == 1 then segments[0] else segments[0] + "/" + JoinSegments(segments[1..])
  }

  lemma {:induction false} JoinUndoesSegments(cur: string, s: string)
    ensures Segments(cur, s) != [] && JoinSegments(Segments(cur, s)) == cur + s
    decreases |s|
  {
    if s == "" {
      assert cur + s == cur;
    } else if s[0] == '/' {
      JoinUndoesSegments("", s[1..]);
      assert cur + s == cur + "/" + ("" + s[1..]);
    } else {
      JoinUndoesSegments(cur + [s[0]], s[1..]);
      assert cur + [s[0]] + s[1..] == cur + s;
    }
  }

  lemma {:induction false} JoinAppend(a: seq<string>, b: seq<string>)
    requires a != [] && b != []
    ensures JoinSegments(a + b) == JoinSegments(a) + "/" + JoinSegments(b)
    decreases |a|
  {
    assert (a + b)[0] == a[0] && (a + b)[1..] == a[1..] + b;
    if |a| == 1 {
      assert a[1..] + b == b;
    } else {
      JoinAppend(a[1..], b);
      assert a[0] + "/" + (JoinSegments(a[1..]) + "/" + JoinSegments(b))
          == a[0] + "/" + JoinSegments(a[1..]) + "/" + JoinSegments(b);
    }
  }

  lemma MatchingPathExtendsSegments(prefix: string, path: string)
    requires prefix != "/" && MatchesPath(prefix, path)
    ensures Segments("", prefix) <= Segments("", path)
  {
    if path != prefix {
      var rest := path[|prefix| + 1..];
      assert path == prefix + "/" + rest;
      SegmentsSplit("", prefix, rest);
    }
  }

  lemma ExtendedSegmentsMatch(prefix: string, path: string)
    requires Segments("", prefix) <= Segments("", path)
    ensures MatchesPath(prefix, path)
  {
    var p, s := Segments("", prefix), Segments("", path);
    JoinUndoesSegments("", prefix);
    JoinUndoesSegments("", path);
    assert "" + prefix == prefix && "" + path == path;
    var more := s[|p|..];
    assert s == p + more;
    if more == [] {
      assert s == p;
    } else {
      JoinAppend(p, more);
      ConcatAssociative(prefix, "/", JoinSegments(more));
    }
  }

  /** A mount other than "/" matches exactly the paths whose segments start with its own. */
  lemma MatchesOnSegmentBoundary(prefix: string, path: string)
    requires prefix != "/"
    ensures MatchesPath(prefix, path) <==> Segments("", prefix) <= Segments("", path)
  {
    if MatchesPath(prefix, path) { MatchingPathExtendsSegments(prefix, path); }
    if Segments("", prefix) <= Segments("", path) { ExtendedSegmentsMatch(prefix, path); }
  }

  /** A prefix is valid if and only if it is "/", or it opens with a slash and its last segment
      is not empty. */
  lemma ValidPrefixIff(p: string, segments: seq<string>)
    requires segments == Segments("", p)
    ensures segments != []
    ensures ValidPrefix(p) <==> p == "/" || (segments[0] == "" && |segments| >= 2 && segments[|segments| - 1] != "")
  {
    LastSegment("", p);
    if p != "" {
      LastSegment("", p[1..]);
      FirstSegmentGrows("" + [p[0]], p[1..]);
      assert |p| == 1 && p[0] == '/' ==> p == "/";
    }
  }

  lemma {:induction false} LastSegment(cur: string, s: string)
    ensures Segments(cur, s) != []
    ensures Segments(cur, s)[|Segments(cur, s)| - 1] == "" <==> if s == "" then cur == "" else s[|s| - 1] == '/'
    decreases |s|
  {
    if s != "" {
      LastSegment(if s[0] == '/' then "" else cur + [s[0]], s[1..]);
    }
  }

  lemma {:induction false} FirstSegmentGrows(cur: string, s: string)
    ensures Segments(cur, s) != [] && cur <= Segments(cur, s)[0]
    decreases |s|
  {
    if s != "" && s[0] != '/' {
      FirstSegmentGrows(cur + [s[0]], s[1..]);
      assert cur <= cur + [s[0]] <= Segments(cur, s)[0];
    }
  }

  lemma {:induction false} FindMountIsSound(mounts: seq<Mount>, path: string)
    ensures FindMount(mounts, path).Some? ==>
              FindMount(mounts, path).value in mounts && MatchesPath(FindMount(mounts, path).value.prefix, path)
  {
    if mounts != [] { FindMountIsSound(mounts[1..], path); }
  }

  /** A matching mount is found unless a longer one comes before it. */
  lemma {:induction false} FoundIsLongest(mounts: seq<Mount>, path: string, i: nat)
    requires Descending(mounts) && i < |mounts| && MatchesPath(mounts[i].prefix, path)
    ensures FindMount(mounts, path).Some?
    ensures ByteLength(mounts[i].prefix) <= ByteLength(FindMount(mounts, path).value.prefix)
  {
    if !MatchesPath(mounts[0].prefix, path) {
      assert forall k :: 0 <= k < |mounts[1..]| ==> mounts[1..][k] == mounts[k + 1];
      FoundIsLongest(mounts[1..], path, i - 1);
    }
  }

  lemma {:induction false} LongerHasMoreBytes(a: string, b: string)
    requires a <= b
    ensures ByteLength(a) <= ByteLength(b)
    ensures ByteLength(a) == ByteLength(b) ==> a == b
  {
    if a != "" {
      LongerHasMoreBytes(a[1..], b[1..]);
      assert a == [a[0]] + a[1..] && b == [b[0]] + b[1..];
    }
  }

  /** Main result: for every accepted list and every path, lookup finds a mount exactly
      when some prefix matches, and the found prefix is the one longest match: every other
      matching prefix is a proper part of it. */
  lemma LongestPrefixWins(ms: seq<Mount>, path: string)
    requires AllValid(ms)
    ensures FindMount(Sort(ms), path).None? <==> forall m :: m in ms ==> !MatchesPath(m.prefix, path)
    ensures FindMount(Sort(ms), path).Some? ==>
              var m := FindMount(Sort(ms), path).value;
              && m in ms && MatchesPath(m.prefix, path)
              && forall x :: x in ms && MatchesPath(x.prefix, path) && x.prefix != m.prefix ==> x.prefix < m.prefix
  {
    var s := Sort(ms);
    SortIsOrdered(ms);
    FindMountIsSound(s, path);
    forall x | x in ms && MatchesPath(x.prefix, path)
      ensures FindMount(s, path).Some?
      ensures x.prefix == FindMount(s, path).value.prefix || x.prefix < FindMount(s, path).value.prefix
    {
      var i :| 0 <= i < |s| && s[i] == x;
      FoundIsLongest(s, path, i);
      LongerMatchHolds(x.prefix, FindMount(s, path).value.prefix, path);
    }
  }

  lemma LongerMatchHolds(a: string, b: string, path: string)
    requires ValidPrefix(a) && ValidPrefix(b) && ByteLength(a) <= ByteLength(b)
    requires MatchesPath(a, path) && MatchesPath(b, path)
    ensures a == b || a < b
  {
    if |a| <= |b| {
    } else {
      LongerHasMoreBytes(b, a);
    }
  }

  // --- the subpath and Django's rewrite ---------------------------------------------------------------

  function Subpath(path: string, prefix: string): string {
    if prefix == "/" then path
    else if path == prefix then "/"
    else if prefix <= path then
      var rest := path[|prefix|..];
      if rest == "" then "/" else rest
    else path
  }

  function RootPath(prefix: string): string {
    if prefix == "/" then "" else prefix
  }

  /** The path of the rewritten scope of an HTTP request. */
  function RewriteForDjango(rootPath: string, scopePath: string): string {
    if rootPath == "" then scopePath
    else
      var path := if scopePath == "" then "/" else scopePath;
      var absolute := if path[0] != '/' then "/" + path else path;
      if rootPath <= absolute then scopePath else rootPath + absolute
  }

  /** The request path as a mounted application should see it put together again. */
  function Restored(path: string, prefix: string): string {
    if prefix != "/" && path == prefix then path + "/" else path
  }

  /** Prefix and subpath give back the path (plus a slash when they are equal). */
  lemma SubpathCompletesThePrefix(path: string, prefix: string)
    requires ValidPrefix(prefix) && MatchesPath(prefix, path)
    ensures RootPath(prefix) + Subpath(path, prefix) == Restored(path, prefix)
    ensures prefix != "/" ==> Subpath(path, prefix) != "" && Subpath(path, prefix)[0] == '/'
  {
  }

  /** Main result: the rewrite restores the request path exactly when the mount is "/" or
      the subpath does not itself start with the root path. */
  lemma DjangoRewriteRestoresIff(path: string, prefix: string)
    requires ValidPrefix(prefix) && MatchesPath(prefix, path)
    ensures RewriteForDjango(RootPath(prefix), Subpath(path, prefix)) == Restored(path, prefix)
            <==> prefix == "/" || !(prefix <= Subpath(path, prefix))
  {
    SubpathCompletesThePrefix(path, prefix);
    if prefix != "/" {
      assert |Restored(path, prefix)| == |prefix| + |Subpath(path, prefix)|;
    }
  }

  /** The failing family is not empty: the subpath may start like the mount prefix. */
  lemma DjangoRewriteCanFail()
    ensures MatchesPath("/a", "/a/ab") && RewriteForDjango("/a", Subpath("/a/ab", "/a")) == "/ab"
  {
    assert "/a/ab"[..2] == "/a" && "/a/ab"[2..] == "/ab";
    assert Subpath("/a/ab", "/a") == "/ab";
    assert "/ab"[..2] == "/a";
  }
}
