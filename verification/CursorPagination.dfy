/**
 Cursor pagination (python/django_bolt/pagination.py) over a table that may
 change arbitrarily between two requests.  Rows are identified by their
 ordering key, which is unique, non-null and immutable.  The last part lets keys
 repeat, over a table that does not change.
 */
module CursorPagination {
  import opened Common

  /** a comes strictly before b in the requested order. */
  predicate Before(desc: bool, a: int, b: int) {
    if desc then a > b else a < b
  }

  ghost predicate StrictlyOrdered(desc: bool, s: seq<int>) {
    forall i, j :: 0 <= i < j < |s| ==> Before(desc, s[i], s[j])
  }

  // --- the query ---------------------------------------------------------------

  ghost predicate IsFirst(desc: bool, rows: set<int>, first: int) {
    first in rows && forall k :: k in rows && k != first ==> Before(desc, first, k)
  }

  lemma {:induction false} HasFirst(desc: bool, rows: set<int>)
    requires rows != {}
    ensures exists first :: IsFirst(desc, rows, first)
    decreases |rows|
  {
    if forall k :: k in rows ==> k in {} { assert false; }
    var one :| one in rows;
    var others := rows - {one};
    assert rows == others + {one};
    if others == {} {
      assert IsFirst(desc, rows, one);
    } else {
      HasFirst(desc, others);
      var first :| IsFirst(desc, others, first);
      var least := if Before(desc, one, first) then one else first;
      assert IsFirst(desc, rows, least);
    }
  }

  /** order_by: the rows in order. */
  ghost function OrderBy(desc: bool, rows: set<int>): (s: seq<int>)
    ensures StrictlyOrdered(desc, s)
    ensures forall k :: k in s <==> k in rows
    decreases |rows|
  {
    if rows == {} then []
    else
      HasFirst(desc, rows);
      var first :| IsFirst(desc, rows, first);
      [first] + OrderBy(desc, rows - {first})
  }

  /** filter(key__lt) or filter(key__gt), when a cursor is given. */
  ghost function AfterCursor(desc: bool, cursor: Option<int>, rows: set<int>): set<int> {
    if cursor.None? then rows else set k | k in rows && Before(desc, cursor.value, k)
  }

  datatype Page = Page(items: seq<int>, hasNext: bool, hasPrevious: bool, nextCursor: Option<int>)

  /** One request: fetch one row more than the page holds to learn whether there is a next page. */
  ghost function Paginate(desc: bool, cursor: Option<int>, size: pos, rows: set<int>): Page {
    var ordered := OrderBy(desc, AfterCursor(desc, cursor, rows));
    var fetched := if |ordered| > size + 1 then ordered[..size + 1] else ordered;
    var hasNext := |fetched| > size;
    var items := if hasNext then fetched[..size] else fetched;
    Page(items, hasNext, cursor.Some?, if hasNext then Some(items[|items| - 1]) else None)
  }

  // --- one page ------------------------------------------------------------------

  /** k belongs to the stretch of keys that a request with this cursor is responsible
      for, given the cursor it answers with. */
  predicate InWindow(desc: bool, from: Option<int>, to: Option<int>, k: int) {
    && (from.None? || Before(desc, from.value, k))
    && (to.None? || !Before(desc, to.value, k))
  }

  /** The first keys in order are those that do not come after the last of them. */
  lemma FrontIsWindow(desc: bool, ordered: seq<int>, size: pos, k: int)
    requires StrictlyOrdered(desc, ordered) && size <= |ordered| && k in ordered
    ensures k in ordered[..size] <==> !Before(desc, ordered[size - 1], k)
  {
    var i :| 0 <= i < |ordered| && ordered[i] == k;
    if i < size {
      assert ordered[..size][i] == k;
      assert i < size - 1 ==> Before(desc, k, ordered[size - 1]);
    } else {
      assert Before(desc, ordered[size - 1], k);
      assert forall j :: 0 <= j < size ==> Before(desc, ordered[j], k);
    }
  }

  /** A page is the front of the rows behind the cursor, or all of them. */
  lemma PageIsFront(desc: bool, cursor: Option<int>, size: pos, rows: set<int>, p: Page, ordered: seq<int>)
    requires ordered == OrderBy(desc, AfterCursor(desc, cursor, rows)) && p == Paginate(desc, cursor, size, rows)
    ensures p.hasNext <==> |ordered| > size
    ensures p.items == if p.hasNext then ordered[..size] else ordered
    ensures p.nextCursor == if p.hasNext then Some(ordered[size - 1]) else None
    ensures p.hasPrevious <==> cursor.Some?
    ensures StrictlyOrdered(desc, ordered)
    ensures forall k :: k in ordered <==> k in rows && InWindow(desc, cursor, None, k)
  {
  }

  lemma PageHoldsItsWindow(desc: bool, cursor: Option<int>, size: pos, rows: set<int>)
    ensures var p := Paginate(desc, cursor, size, rows);
            && StrictlyOrdered(desc, p.items)
            && (forall k :: k in p.items <==> k in rows && InWindow(desc, cursor, p.nextCursor, k))
            && |p.items| <= size
            && (p.nextCursor.Some? ==> |p.items| == size && p.nextCursor.value == p.items[size - 1])
            && (p.hasNext <==> p.nextCursor.Some?)
  {
    var p := Paginate(desc, cursor, size, rows);
    var ordered := OrderBy(desc, AfterCursor(desc, cursor, rows));
    PageIsFront(desc, cursor, size, rows, p, ordered);
    forall k ensures k in p.items <==> k in rows && InWindow(desc, cursor, p.nextCursor, k) {
      if k in ordered && p.hasNext { FrontIsWindow(desc, ordered, size, k); }
    }
  }

  /** A page has a next one exactly when some row behind the cursor is not on it, and claims a
      previous one exactly when a cursor was given. */
  lemma PageSaysWhetherMoreFollows(desc: bool, cursor: Option<int>, size: pos, rows: set<int>, p: Page)
    requires p == Paginate(desc, cursor, size, rows)
    ensures p.hasNext <==> exists k :: k in rows && InWindow(desc, cursor, None, k) && k !in p.items
    ensures p.hasPrevious <==> cursor.Some?
  {
    var ordered := OrderBy(desc, AfterCursor(desc, cursor, rows));
    PageIsFront(desc, cursor, size, rows, p, ordered);
    if p.hasNext {
      var k := ordered[size];
      assert k in ordered && InWindow(desc, cursor, None, k);
      assert forall i :: 0 <= i < size ==> Before(desc, ordered[i], k);
    }
  }

  // --- a walk along next_cursor --------------------------------------------------------

  /** What one request of a walk meets: the page size it asks for and the table as it is then. */
  datatype Request = Request(size: pos, rows: set<int>)

  ghost function CursorAt(pages: seq<Page>, i: nat): Option<int>
    requires i <= |pages|
  {
    if i == 0 then None else pages[i - 1].nextCursor
  }

  /** Request i uses the cursor of the page before it, which has to exist. */
  ghost predicate Answered(desc: bool, requests: seq<Request>, pages: seq<Page>, i: nat)
    requires i < |pages| == |requests|
  {
    && (i > 0 ==> CursorAt(pages, i).Some?)
    && pages[i] == Paginate(desc, CursorAt(pages, i), requests[i].size, requests[i].rows)
  }

  ghost predicate Walk(desc: bool, requests: seq<Request>, pages: seq<Page>) {
    |pages| == |requests| && forall i: nat :: i < |pages| ==> Answered(desc, requests, pages, i)
  }

  ghost predicate Completed(pages: seq<Page>) {
    pages != [] && pages[|pages| - 1].nextCursor.None?
  }

  function Returned(pages: seq<Page>): seq<int> {
    if pages == [] then [] else Returned(pages[..|pages| - 1]) + pages[|pages| - 1].items
  }

  lemma WalkPrefix(desc: bool, requests: seq<Request>, pages: seq<Page>)
    requires pages != [] && Walk(desc, requests, pages)
    ensures Walk(desc, requests[..|pages| - 1], pages[..|pages| - 1])
  {
    var n := |pages| - 1;
    forall i: nat | i < n ensures Answered(desc, requests[..n], pages[..n], i) {
      assert Answered(desc, requests, pages, i) && CursorAt(pages[..n], i) == CursorAt(pages, i);
    }
  }

  /** The last page of a walk holds exactly its window. */
  lemma LastPage(desc: bool, requests: seq<Request>, pages: seq<Page>, n: nat)
    requires |pages| == n + 1 && Walk(desc, requests, pages)
    ensures n > 0 ==> CursorAt(pages, n).Some?
    ensures StrictlyOrdered(desc, pages[n].items)
    ensures forall k :: k in pages[n].items <==>
              k in requests[n].rows && InWindow(desc, CursorAt(pages, n), pages[n].nextCursor, k)
    ensures pages[n].nextCursor.Some? ==>
              pages[n].items != [] && pages[n].nextCursor.value == pages[n].items[|pages[n].items| - 1]
  {
    assert Answered(desc, requests, pages, n);
    PageHoldsItsWindow(desc, CursorAt(pages, n), requests[n].size, requests[n].rows);
  }

  /** A walk that still has a next cursor has returned no key beyond it. */
  lemma {:induction false} WalkIsOrdered(desc: bool, requests: seq<Request>, pages: seq<Page>)
    requires Walk(desc, requests, pages)
    ensures StrictlyOrdered(desc, Returned(pages))
    ensures pages != [] && pages[|pages| - 1].nextCursor.Some? ==>
              forall k :: k in Returned(pages) ==> !Before(desc, pages[|pages| - 1].nextCursor.value, k)
  {
    if pages != [] {
      var n := |pages| - 1;
      WalkPrefix(desc, requests, pages);
      WalkIsOrdered(desc, requests[..n], pages[..n]);
      LastPage(desc, requests, pages, n);
      var head, items := Returned(pages[..n]), pages[n].items;
      assert Returned(pages) == head + items;
      if n > 0 {
        var c := pages[n - 1].nextCursor.value;
        assert pages[..n][n - 1].nextCursor == Some(c);
        forall i, j | 0 <= i < |head| && 0 <= j < |items| ensures Before(desc, head[i], items[j]) {
          assert head[i] in head && items[j] in items;
        }
      }
    }
  }

  /** Main result: whatever is inserted or deleted between requests and whatever page
      sizes are asked for, the returned keys are strictly monotone, so none repeats. */
  lemma NoRowIsReturnedTwice(desc: bool, requests: seq<Request>, pages: seq<Page>)
    requires Walk(desc, requests, pages)
    ensures StrictlyOrdered(desc, Returned(pages))
    ensures forall k :: multiset(Returned(pages))[k] <= 1
  {
    WalkIsOrdered(desc, requests, pages);
    var s := Returned(pages);
    forall k ensures multiset(s)[k] <= 1 { OrderedHasNoRepeats(desc, s, k); }
  }

  lemma {:induction false} OrderedHasNoRepeats(desc: bool, s: seq<int>, k: int)
    requires StrictlyOrdered(desc, s)
    ensures multiset(s)[k] <= 1
  {
    if s != [] {
      var t := s[..|s| - 1];
      assert s == t + [s[|s| - 1]];
      OrderedHasNoRepeats(desc, t, k);
      assert forall i :: 0 <= i < |t| ==> Before(desc, t[i], s[|s| - 1]);
      assert s[|s| - 1] !in t;
    }
  }

  /** Request i is responsible for k: its window holds k. */
  ghost predicate Responsible(desc: bool, pages: seq<Page>, k: int, i: nat) {
    i < |pages| && InWindow(desc, CursorAt(pages, i), pages[i].nextCursor, k)
  }

  /** k's row exists when the request responsible for k is answered. */
  ghost predicate PresentWhenAsked(desc: bool, requests: seq<Request>, pages: seq<Page>, k: int) {
    exists i: nat :: Responsible(desc, pages, k, i) && i < |requests| && k in requests[i].rows
  }

  lemma ResponsibleInPrefix(desc: bool, pages: seq<Page>, k: int, i: nat)
    requires pages != [] && i < |pages| - 1
    ensures Responsible(desc, pages[..|pages| - 1], k, i) <==> Responsible(desc, pages, k, i)
  {
    assert CursorAt(pages[..|pages| - 1], i) == CursorAt(pages, i);
  }

  lemma {:induction false} SomeRequestIsResponsible(desc: bool, requests: seq<Request>, pages: seq<Page>, k: int)
    requires Walk(desc, requests, pages) && pages != []
    requires pages[|pages| - 1].nextCursor.None? || !Before(desc, pages[|pages| - 1].nextCursor.value, k)
    ensures exists i: nat :: Responsible(desc, pages, k, i)
  {
    var n := |pages| - 1;
    if !Responsible(desc, pages, k, n) {
      WalkPrefix(desc, requests, pages);
      SomeRequestIsResponsible(desc, requests[..n], pages[..n], k);
      var i: nat :| Responsible(desc, pages[..n], k, i);
      ResponsibleInPrefix(desc, pages, k, i);
    }
  }

  lemma {:induction false} ReturnedByItsWindow(desc: bool, requests: seq<Request>, pages: seq<Page>, k: int)
    requires Walk(desc, requests, pages)
    ensures k in Returned(pages) <==> PresentWhenAsked(desc, requests, pages, k)
  {
    if pages != [] {
      var n := |pages| - 1;
      WalkPrefix(desc, requests, pages);
      ReturnedByItsWindow(desc, requests[..n], pages[..n], k);
      LastPage(desc, requests, pages, n);
    }
  }

  /** Main result: in a completed walk every key has a request responsible for it, and
      the key is returned exactly when its row exists at that request. */
  lemma RowIsReturnedIffPresentWhenAsked(desc: bool, requests: seq<Request>, pages: seq<Page>, k: int)
    requires Walk(desc, requests, pages) && Completed(pages)
    ensures exists i: nat :: Responsible(desc, pages, k, i)
    ensures k in Returned(pages) <==> PresentWhenAsked(desc, requests, pages, k)
  {
    SomeRequestIsResponsible(desc, requests, pages, k);
    ReturnedByItsWindow(desc, requests, pages, k);
  }

  /** Main result: a row present at all requests of a completed walk is returned exactly once. */
  lemma StableRowIsReturnedOnce(desc: bool, requests: seq<Request>, pages: seq<Page>, k: int)
    requires Walk(desc, requests, pages) && Completed(pages)
    requires forall i :: 0 <= i < |requests| ==> k in requests[i].rows
    ensures multiset(Returned(pages))[k] == 1
  {
    RowIsReturnedIffPresentWhenAsked(desc, requests, pages, k);
    var i: nat :| Responsible(desc, pages, k, i);
    assert k in requests[i].rows;
    NoRowIsReturnedTwice(desc, requests, pages);
    assert k in multiset(Returned(pages));
  }

  /** On a table that does not change, a completed walk returns the ordered table. */
  lemma UnchangedTableIsReturnedWhole(desc: bool, requests: seq<Request>, pages: seq<Page>, rows: set<int>)
    requires Walk(desc, requests, pages) && Completed(pages)
    requires forall i :: 0 <= i < |requests| ==> requests[i].rows == rows
    ensures Returned(pages) == OrderBy(desc, rows)
  {
    WalkIsOrdered(desc, requests, pages);
    forall k ensures k in Returned(pages) <==> k in rows {
      RowIsReturnedIffPresentWhenAsked(desc, requests, pages, k);
      var i: nat :| Responsible(desc, pages, k, i);
      assert requests[i].rows == rows;
    }
    SameOrderedContents(desc, Returned(pages), OrderBy(desc, rows));
  }

  lemma OrderedHead(desc: bool, s: seq<int>, t: seq<int>)
    requires s != [] && t != [] && StrictlyOrdered(desc, s) && StrictlyOrdered(desc, t)
    requires t[0] in s && s[0] in t
    ensures s[0] == t[0]
  {
    assert forall i :: 0 < i < |s| ==> Before(desc, s[0], s[i]);
    assert forall i :: 0 < i < |t| ==> Before(desc, t[0], t[i]);
  }

  lemma TailMembers(desc: bool, s: seq<int>, k: int)
    requires s != [] && StrictlyOrdered(desc, s)
    ensures k in s[1..] <==> k in s && k != s[0]
  {
    assert forall i :: 0 < i < |s| ==> Before(desc, s[0], s[i]);
    assert s == [s[0]] + s[1..];
  }

  lemma HeadIsMember(t: seq<int>)
    requires t != []
    ensures t[0] in t
  {
  }

  lemma {:induction false} SameOrderedContents(desc: bool, s: seq<int>, t: seq<int>)
    requires StrictlyOrdered(desc, s) && StrictlyOrdered(desc, t)
    requires forall k :: k in s <==> k in t
    ensures s == t
  {
    if s != [] {
      HeadIsMember(s);
      assert s[0] in t;
      HeadIsMember(t);
      OrderedHead(desc, s, t);
      forall k ensures k in s[1..] <==> k in t[1..] {
        TailMembers(desc, s, k);
        TailMembers(desc, t, k);
      }
      SameOrderedContents(desc, s[1..], t[1..]);
      assert s == [s[0]] + s[1..] && t == [t[0]] + t[1..];
    } else if t != [] {
      HeadIsMember(t);
    }
  }

  lemma {:induction false} ReturnedIsLong(desc: bool, requests: seq<Request>, pages: seq<Page>)
    requires Walk(desc, requests, pages)
    ensures |Returned(pages)| + 1 >= |pages|
    ensures pages != [] && pages[|pages| - 1].nextCursor.Some? ==> |Returned(pages)| >= |pages|
  {
    if pages != [] {
      var n := |pages| - 1;
      WalkPrefix(desc, requests, pages);
      ReturnedIsLong(desc, requests[..n], pages[..n]);
      LastPage(desc, requests, pages, n);
      if n > 0 { assert pages[..n][n - 1] == pages[n - 1]; }
    }
  }

  lemma {:induction false} OrderedFitsInSet(desc: bool, s: seq<int>, all: set<int>)
    requires StrictlyOrdered(desc, s) && forall i :: 0 <= i < |s| ==> s[i] in all
    ensures |s| <= |all|
    decreases |s|
  {
    if s != [] {
      var last := s[|s| - 1];
      assert forall i :: 0 <= i < |s| - 1 ==> Before(desc, s[i], last);
      OrderedFitsInSet(desc, s[..|s| - 1], all - {last});
      assert last in all;
    }
  }

  lemma ReturnedRowsExisted(desc: bool, requests: seq<Request>, pages: seq<Page>, all: set<int>, i: nat)
    requires Walk(desc, requests, pages) && i < |Returned(pages)|
    requires forall j :: 0 <= j < |requests| ==> requests[j].rows <= all
    ensures Returned(pages)[i] in all
  {
    ReturnedByItsWindow(desc, requests, pages, Returned(pages)[i]);
  }

  /** A walk cannot go on for ever while the rows ever seen come from a finite set:
      it makes at most one request more than there are such rows. */
  lemma WalkIsBounded(desc: bool, requests: seq<Request>, pages: seq<Page>, all: set<int>)
    requires Walk(desc, requests, pages)
    requires forall i :: 0 <= i < |requests| ==> requests[i].rows <= all
    ensures |pages| <= |all| + 1
  {
    WalkIsOrdered(desc, requests, pages);
    ReturnedIsLong(desc, requests, pages);
    forall i | 0 <= i < |Returned(pages)| ensures Returned(pages)[i] in all {
      ReturnedRowsExisted(desc, requests, pages, all, i);
    }
    OrderedFitsInSet(desc, Returned(pages), all);
  }

  // --- ordering keys that repeat -----------------------------------------------------------

  /** A row of a table that does not change, ordered by a key that other rows may share. */
  datatype Row = Row(key: int, id: nat)

  ghost predicate SortedByKey(desc: bool, rows: seq<Row>) {
    forall i, j :: 0 <= i < j < |rows| ==> !Before(desc, rows[j].key, rows[i].key)
  }

  ghost predicate Distinct(rows: seq<Row>) {
    forall i, j :: 0 <= i < j < |rows| ==> rows[i] != rows[j]
  }

  /** The strict filter of a request with a cursor. */
  function RowsAfter(desc: bool, cursor: Option<int>, rows: seq<Row>): seq<Row> {
    if rows == [] then []
    else if cursor.None? || Before(desc, cursor.value, rows[0].key) then [rows[0]] + RowsAfter(desc, cursor, rows[1..])
    else RowsAfter(desc, cursor, rows[1..])
  }

  datatype RowPage = RowPage(items: seq<Row>, nextCursor: Option<int>)

  function PageOf(desc: bool, cursor: Option<int>, size: pos, rows: seq<Row>): RowPage {
    var ordered := RowsAfter(desc, cursor, rows);
    if |ordered| > size then RowPage(ordered[..size], Some(ordered[size - 1].key)) else RowPage(ordered, None)
  }

  /** The rows that the first n pages of a walk along next_cursor return. */
  function Walked(desc: bool, cursor: Option<int>, size: pos, rows: seq<Row>, n: nat): seq<Row>
    decreases n, 1
  {
    if n == 0 then [] else WalkedFrom(desc, PageOf(desc, cursor, size, rows), size, rows, n)
  }

  function WalkedFrom(desc: bool, p: RowPage, size: pos, rows: seq<Row>, n: nat): seq<Row>
    requires n >= 1
    decreases n, 0
  {
    if p.nextCursor.Some? then p.items + Walked(desc, p.nextCursor, size, rows, n - 1) else p.items
  }

  /** How many rows the cursor leaves behind. */
  function Behind(desc: bool, cursor: Option<int>, rows: seq<Row>): (n: nat)
    ensures n <= |rows|
  {
    if rows == [] || cursor.None? || Before(desc, cursor.value, rows[0].key) then 0
    else 1 + Behind(desc, cursor, rows[1..])
  }

  /** On an ordered table the strict filter leaves a tail. */
  lemma {:induction false} FilterLeavesTail(desc: bool, cursor: Option<int>, rows: seq<Row>)
    requires SortedByKey(desc, rows)
    ensures RowsAfter(desc, cursor, rows) == rows[Behind(desc, cursor, rows)..]
  {
    if rows != [] {
      FilterLeavesTail(desc, cursor, rows[1..]);
      if cursor.None? || Before(desc, cursor.value, rows[0].key) {
        assert rows == [rows[0]] + rows[1..];
      }
    }
  }

  /** The cursor of row i leaves it behind together with all rows of its key. */
  lemma {:induction false} CursorSkipsTheGroup(desc: bool, rows: seq<Row>, i: nat)
    requires SortedByKey(desc, rows) && i < |rows|
    ensures var next := Behind(desc, Some(rows[i].key), rows);
            && i < next
            && (i + 1 < |rows| ==> (next == i + 1 <==> rows[i].key != rows[i + 1].key))
  {
    if i > 0 {
      assert forall k :: 0 <= k < |rows[1..]| ==> rows[1..][k] == rows[k + 1];
      CursorSkipsTheGroup(desc, rows[1..], i - 1);
    } else if |rows| > 1 {
      assert rows[1..][0] == rows[1];
    }
  }

  /** Pages from a start position on, read off the ordered table. */
  lemma PageAt(desc: bool, cursor: Option<int>, size: pos, rows: seq<Row>, start: nat)
    requires SortedByKey(desc, rows) && start == Behind(desc, cursor, rows)
    ensures var p := PageOf(desc, cursor, size, rows);
            if start + size < |rows|
            then p == RowPage(rows[start..start + size], Some(rows[start + size - 1].key))
            else p == RowPage(rows[start..], None)
  {
    FilterLeavesTail(desc, cursor, rows);
    if start + size < |rows| {
      assert rows[start..][..size] == rows[start..start + size];
      assert rows[start..][size - 1] == rows[start + size - 1];
    }
  }

  /** No page boundary from start on falls between two rows of one key. */
  predicate NoCutFrom(rows: seq<Row>, size: pos, start: nat)
    decreases |rows| - start
  {
    start + size < |rows| ==>
      rows[start + size - 1].key != rows[start + size].key && NoCutFrom(rows, size, start + size)
  }

  /** One page of a walk that stands at a position of the ordered table. */
  lemma WalkedStep(desc: bool, cursor: Option<int>, size: pos, rows: seq<Row>, start: nat, n: nat)
    requires n >= 1 && SortedByKey(desc, rows) && start == Behind(desc, cursor, rows)
    ensures start + size >= |rows| ==> Walked(desc, cursor, size, rows, n) == rows[start..]
    ensures start + size < |rows| ==>
              Walked(desc, cursor, size, rows, n)
              == rows[start..start + size] + Walked(desc, Some(rows[start + size - 1].key), size, rows, n - 1)
  {
    var p := PageOf(desc, cursor, size, rows);
    PageAt(desc, cursor, size, rows, start);
  }

  lemma UncutStep(desc: bool, cursor: Option<int>, next: Option<int>, size: pos, rows: seq<Row>, start: nat, n: nat)
    requires n >= 1 && SortedByKey(desc, rows) && start == Behind(desc, cursor, rows)
    requires start + size < |rows| && next == Some(rows[start + size - 1].key)
    requires Walked(desc, next, size, rows, n - 1) == rows[start + size..]
    ensures Walked(desc, cursor, size, rows, n) == rows[start..]
  {
    WalkedStep(desc, cursor, size, rows, start, n);
    assert rows[start..] == rows[start..start + size] + rows[start + size..];
  }

  /** Without a cut the walk returns the whole tail. */
  lemma {:induction false} UncutIsReturned(
    desc: bool, cursor: Option<int>, size: pos, rows: seq<Row>, start: nat, n: nat)
    requires SortedByKey(desc, rows) && start == Behind(desc, cursor, rows)
    requires NoCutFrom(rows, size, start) && n > |rows| - start
    ensures Walked(desc, cursor, size, rows, n) == rows[start..]
    decreases n
  {
    if start + size < |rows| {
      var next := Some(rows[start + size - 1].key);
      CursorSkipsTheGroup(desc, rows, start + size - 1);
      UncutIsReturned(desc, next, size, rows, start + size, n - 1);
      UncutStep(desc, cursor, next, size, rows, start, n);
    } else {
      WalkedStep(desc, cursor, size, rows, start, n);
    }
  }

  /** Row k is among those that n pages return. */
  predicate Returns(desc: bool, cursor: Option<int>, size: pos, rows: seq<Row>, n: nat, k: nat)
    requires k < |rows|
  {
    rows[k] in Walked(desc, cursor, size, rows, n)
  }

  lemma InEitherIff(a: seq<Row>, b: seq<Row>, r: Row)
    ensures r in a + b <==> r in a || r in b
  {
  }

  /** A row is returned on the page at hand or by the walk behind it. */
  lemma ReturnsStep(
    desc: bool, cursor: Option<int>, next: Option<int>, size: pos, rows: seq<Row>, start: nat, n: nat, k: nat)
    requires n >= 1 && SortedByKey(desc, rows) && Distinct(rows) && start == Behind(desc, cursor, rows)
    requires k < |rows| && (start + size < |rows| ==> next == Some(rows[start + size - 1].key))
    ensures Returns(desc, cursor, size, rows, n, k) <==>
            start <= k < start + size || (start + size < |rows| && Returns(desc, next, size, rows, n - 1, k))
  {
    WalkedStep(desc, cursor, size, rows, start, n);
    if start + size < |rows| {
      InEitherIff(rows[start..start + size], Walked(desc, next, size, rows, n - 1), rows[k]);
    } else {
      assert rows[start..|rows|] == rows[start..];
    }
  }

  lemma NoPagesNoRows(desc: bool, cursor: Option<int>, size: pos, rows: seq<Row>, k: nat)
    requires k < |rows|
    ensures !Returns(desc, cursor, size, rows, 0, k)
  {
  }

  lemma NeverGoesBack(
    desc: bool, cursor: Option<int>, next: Option<int>, size: pos, rows: seq<Row>, start: nat, n: nat, k: nat)
    requires n >= 1 && SortedByKey(desc, rows) && Distinct(rows) && start == Behind(desc, cursor, rows)
    requires k < start && (start + size < |rows| ==> next == Some(rows[start + size - 1].key))
    requires start + size < |rows| ==> !Returns(desc, next, size, rows, n - 1, k)
    ensures !Returns(desc, cursor, size, rows, n, k)
  {
    ReturnsStep(desc, cursor, next, size, rows, start, n, k);
  }

  /** A walk returns nothing that its first cursor leaves behind. */
  lemma {:induction false} OnlyTheTailIsReturned(
    desc: bool, cursor: Option<int>, size: pos, rows: seq<Row>, start: nat, n: nat, k: nat)
    requires SortedByKey(desc, rows) && Distinct(rows)
    requires start == Behind(desc, cursor, rows) && k < start
    ensures !Returns(desc, cursor, size, rows, n, k)
    decreases n
  {
    if n == 0 {
      NoPagesNoRows(desc, cursor, size, rows, k);
    } else if start + size < |rows| {
      var next := Some(rows[start + size - 1].key);
      CursorSkipsTheGroup(desc, rows, start + size - 1);
      OnlyTheTailIsReturned(desc, next, size, rows, Behind(desc, next, rows), n - 1, k);
      NeverGoesBack(desc, cursor, next, size, rows, start, n, k);
    } else {
      NeverGoesBack(desc, cursor, None, size, rows, start, n, k);
    }
  }

  /** A row that the rest of the walk does not return, and that is not on this page, is lost. */
  lemma LostBehindPage(
    desc: bool, cursor: Option<int>, next: Option<int>, size: pos, rows: seq<Row>, start: nat, n: nat, k: nat)
    requires n >= 1 && SortedByKey(desc, rows) && Distinct(rows) && start == Behind(desc, cursor, rows)
    requires start + size <= k < |rows| && next == Some(rows[start + size - 1].key)
    requires !Returns(desc, next, size, rows, n - 1, k)
    ensures !Returns(desc, cursor, size, rows, n, k)
  {
    ReturnsStep(desc, cursor, next, size, rows, start, n, k);
  }

  /** A cut loses the row right behind the boundary. */
  lemma CutHere(desc: bool, cursor: Option<int>, next: Option<int>, size: pos, rows: seq<Row>, start: nat, n: nat)
    requires n >= 1 && SortedByKey(desc, rows) && Distinct(rows) && start == Behind(desc, cursor, rows)
    requires start + size < |rows| && next == Some(rows[start + size - 1].key) == Some(rows[start + size].key)
    ensures !Returns(desc, cursor, size, rows, n, start + size)
  {
    CursorSkipsTheGroup(desc, rows, start + size - 1);
    OnlyTheTailIsReturned(desc, next, size, rows, Behind(desc, next, rows), n - 1, start + size);
    LostBehindPage(desc, cursor, next, size, rows, start, n, start + size);
  }

  lemma NoCutHere(desc: bool, rows: seq<Row>, i: nat)
    requires SortedByKey(desc, rows) && i + 1 < |rows| && rows[i].key != rows[i + 1].key
    ensures Behind(desc, Some(rows[i].key), rows) == i + 1
  {
    CursorSkipsTheGroup(desc, rows, i);
  }

  /** A cut anywhere on the way loses a row. */
  lemma {:induction false} CutLosesARow(
    desc: bool, cursor: Option<int>, size: pos, rows: seq<Row>, start: nat, n: nat) returns (k: nat)
    requires SortedByKey(desc, rows) && Distinct(rows) && start == Behind(desc, cursor, rows)
    requires !NoCutFrom(rows, size, start)
    ensures start + size <= k < |rows| && !Returns(desc, cursor, size, rows, n, k)
    decreases n
  {
    var next := Some(rows[start + size - 1].key);
    if n == 0 {
      k := start + size;
      NoPagesNoRows(desc, cursor, size, rows, k);
    } else if rows[start + size - 1].key == rows[start + size].key {
      k := start + size;
      CutHere(desc, cursor, next, size, rows, start, n);
    } else {
      NoCutHere(desc, rows, start + size - 1);
      k := CutLosesARow(desc, next, size, rows, start + size, n - 1);
      LostBehindPage(desc, cursor, next, size, rows, start, n, k);
    }
  }

  /** Where the k-th page ends if every page before it is full. */
  function PageEnd(k: nat, size: pos): nat {
    k * size
  }

  /** No end of a full page falls inside a group of equal keys. */
  ghost predicate NoGroupIsCut(rows: seq<Row>, size: pos) {
    forall k: nat :: 0 < PageEnd(k, size) < |rows| ==> rows[PageEnd(k, size) - 1].key != rows[PageEnd(k, size)].key
  }

  lemma PageEndStep(k: nat, size: pos)
    ensures PageEnd(k + 1, size) == PageEnd(k, size) + size
  {
  }

  lemma {:induction false} PageEndsGrow(j: nat, k: nat, size: pos)
    requires j <= k
    ensures PageEnd(j, size) <= PageEnd(k, size)
    decreases k - j
  {
    if j < k {
      PageEndStep(k - 1, size);
      PageEndsGrow(j, k - 1, size);
    }
  }

  /** The cuts that the walk meets, page by page, are those of the full pages. */
  lemma {:induction false} CutsAreBoundaries(rows: seq<Row>, size: pos, m: nat)
    ensures NoCutFrom(rows, size, PageEnd(m, size)) <==>
            forall k: nat :: m < k && PageEnd(k, size) < |rows| ==>
              rows[PageEnd(k, size) - 1].key != rows[PageEnd(k, size)].key
    decreases |rows| - PageEnd(m, size)
  {
    PageEndStep(m, size);
    if PageEnd(m + 1, size) < |rows| { CutsAreBoundaries(rows, size, m + 1); }
    forall k: nat | m < k ensures PageEnd(m + 1, size) <= PageEnd(k, size) {
      PageEndsGrow(m + 1, k, size);
    }
  }

  lemma NoCutIff(rows: seq<Row>, size: pos)
    ensures NoGroupIsCut(rows, size) <==> NoCutFrom(rows, size, 0)
  {
    assert PageEnd(0, size) == 0;
    CutsAreBoundaries(rows, size, 0);
    forall k: nat | 0 < k ensures 0 < PageEnd(k, size) {
      PageEndStep(0, size);
      PageEndsGrow(1, k, size);
    }
  }

  /** What a walk returns; one page for each row is more than enough. */
  function WalkedRows(desc: bool, size: pos, rows: seq<Row>): seq<Row> {
    Walked(desc, None, size, rows, |rows| + 1)
  }

  lemma UncutWalk(desc: bool, size: pos, rows: seq<Row>, n: nat)
    requires SortedByKey(desc, rows) && NoCutFrom(rows, size, 0) && n > |rows|
    ensures Walked(desc, None, size, rows, n) == rows
  {
    UncutIsReturned(desc, None, size, rows, 0, n);
    assert rows[0..] == rows;
  }

  lemma CutWalk(desc: bool, size: pos, rows: seq<Row>, n: nat) returns (k: nat)
    requires SortedByKey(desc, rows) && Distinct(rows) && !NoCutFrom(rows, size, 0)
    ensures k < |rows| && !Returns(desc, None, size, rows, n, k)
  {
    k := CutLosesARow(desc, None, size, rows, 0, n);
  }

  predicate IsReturned(desc: bool, size: pos, rows: seq<Row>, k: nat)
    requires k < |rows|
  {
    rows[k] in WalkedRows(desc, size, rows)
  }

  ghost predicate EveryRowIsReturned(desc: bool, size: pos, rows: seq<Row>) {
    forall k: nat :: k < |rows| ==> IsReturned(desc, size, rows, k)
  }

  /** Main result: on a table that does not change, whose ordering key may repeat, the walk
      returns every row if and only if no page boundary falls inside a group of equal keys;
      then it returns the table as it is ordered. */
  lemma EveryRowIsReturnedIff(desc: bool, size: pos, rows: seq<Row>)
    requires SortedByKey(desc, rows) && Distinct(rows)
    ensures EveryRowIsReturned(desc, size, rows) <==> NoGroupIsCut(rows, size)
    ensures NoGroupIsCut(rows, size) ==> WalkedRows(desc, size, rows) == rows
  {
    NoCutIff(rows, size);
    if NoGroupIsCut(rows, size) {
      UncutWalk(desc, size, rows, |rows| + 1);
    } else {
      var k := CutWalk(desc, size, rows, |rows| + 1);
      assert !IsReturned(desc, size, rows, k);
    }
  }

  /** A smallest failing input: two rows with one key, one row to a page. */
  lemma TieIsLost(desc: bool, key: int)
    ensures Row(key, 1) !in WalkedRows(desc, 1, [Row(key, 0), Row(key, 1)])
  {
    var rows := [Row(key, 0), Row(key, 1)];
    assert !NoCutFrom(rows, 1, 0);
    var k := CutLosesARow(desc, None, 1, rows, 0, 3);
  }

  /** Keys that do not repeat are never cut. */
  lemma UniqueKeysAreSafe(desc: bool, size: pos, rows: seq<Row>)
    requires forall i, j :: 0 <= i < j < |rows| ==> Before(desc, rows[i].key, rows[j].key)
    ensures WalkedRows(desc, size, rows) == rows
  {
    forall i, j | 0 <= i < j < |rows| ensures rows[i].key != rows[j].key {
      assert Before(desc, rows[i].key, rows[j].key);
    }
    EveryRowIsReturnedIff(desc, size, rows);
  }
}
