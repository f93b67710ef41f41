/**
 Page-number and limit/offset pagination (python/django_bolt/pagination.py)
 over a list that does not change between requests.
 */
module PagePagination {
  import opened Common

  /** A query parameter after Python's int(): missing or empty, not a number, or a number. */
  datatype Param = Missing | Invalid | Number(value: int)

  datatype Config = Config(pageSize: int, maxPageSize: int)

  // --- request parameters -----------------------------------------------------------

  function PageSize(c: Config, p: Param): int {
    if !p.Number? then c.pageSize
    else if p.value > c.maxPageSize then c.maxPageSize
    else if p.value < 1 then c.pageSize
    else p.value
  }

  function Limit(c: Config, p: Param): int {
    if !p.Number? then c.pageSize
    else
      var limit := if p.value < 1 then c.pageSize else p.value;
      if limit > c.maxPageSize then c.maxPageSize else limit
  }

  function PageNumber(p: Param): pos {
    if p.Number? && p.value >= 1 then p.value else 1
  }

  function Offset(p: Param): nat {
    if p.Number? && p.value >= 0 then p.value else 0
  }

  predicate InRange(c: Config, n: int) {
    1 <= n <= c.maxPageSize
  }

  /** No query can push the page size or the limit out of 1..max_page_size, exactly
      when the configured default lies in that range. */
  lemma SizesStayInRangeIff(c: Config)
    ensures (forall p :: InRange(c, PageSize(c, p)) && InRange(c, Limit(c, p))) <==> InRange(c, c.pageSize)
  {
    assert PageSize(c, Missing) == c.pageSize;
  }

  /** A number in 1..max_page_size is used as it is, a larger one is cut to the maximum, and
      everything else gives the default, when the default lies in the range itself. */
  lemma SizeIsAsAsked(c: Config, p: Param)
    requires InRange(c, c.pageSize)
    ensures PageSize(c, p) == Limit(c, p)
    ensures p.Number? && InRange(c, p.value) ==> PageSize(c, p) == p.value
    ensures p.Number? && p.value > c.maxPageSize ==> PageSize(c, p) == c.maxPageSize
    ensures !p.Number? || p.value < 1 ==> PageSize(c, p) == c.pageSize
  {
  }

  /** The two kinds of pagination understand every size alike if and only if the configured
      default does not exceed the maximum: only one of them cuts the default down. */
  lemma SizesAgreeIff(c: Config)
    requires c.maxPageSize >= 1
    ensures (forall p :: PageSize(c, p) == Limit(c, p)) <==> c.pageSize <= c.maxPageSize
  {
    if c.pageSize > c.maxPageSize {
      assert PageSize(c, Number(0)) == c.pageSize && Limit(c, Number(0)) == c.maxPageSize;
    }
  }

  // --- page numbers ---------------------------------------------------------------------

  /** Python's s[from:to] for non-negative bounds. */
  function Slice<T>(s: seq<T>, from: nat, to: nat): seq<T>
    requires from <= to
  {
    if from >= |s| then [] else s[from..if to > |s| then |s| else to]
  }

  datatype Page<T> = Page(
    items: seq<T>,
    total: nat,
    page: nat,
    pageSize: nat,
    totalPages: nat,
    hasNext: bool,
    hasPrevious: bool,
    nextPage: Option<pos>,
    previousPage: Option<pos>)

  function TotalPages(total: nat, size: pos): nat {
    if total > 0 then (total + size - 1) / size else 0
  }

  function Paginate<T>(all: seq<T>, requested: pos, size: pos): Page<T> {
    var pages := TotalPages(|all|, size);
    var page := if requested > pages && pages > 0 then pages else requested;
    var offset := (page - 1) * size;
    Page(Slice(all, offset, offset + size), |all|, page, size, pages, page < pages, page > 1,
         if page < pages then Some(page + 1) else None,
         if page > 1 then Some(page - 1) else None)
  }

  /** The number of pages is the ceiling of total / size. */
  lemma TotalPagesIsCeiling(total: nat, size: pos)
    ensures var k := TotalPages(total, size);
            total <= k * size && (k > 0 ==> (k - 1) * size < total)
  {
    var k := TotalPages(total, size);
    if total > 0 {
      var r := (total + size - 1) % size;
      assert total + size - 1 == size * k + r;
      assert k * size == size * k && (k - 1) * size == size * k - size;
    }
  }

  /** The pages met when following `next_page`, starting at a page number. */
  function Follow<T>(all: seq<T>, page: pos, size: pos): seq<Page<T>>
    decreases TotalPages(|all|, size) - page
  {
    var p := Paginate(all, page, size);
    [p] + if p.nextPage.Some? then Follow(all, p.nextPage.value, size) else []
  }

  function ItemsOf<T>(pages: seq<Page<T>>): seq<seq<T>> {
    if pages == [] then [] else [pages[0].items] + ItemsOf(pages[1..])
  }

  lemma OffsetStep(page: pos, size: pos)
    ensures page * size == (page - 1) * size + size
  {
    assert page * size == (page - 1 + 1) * size == (page - 1) * size + 1 * size;
  }

  lemma PageStartsInside(total: nat, page: pos, size: pos)
    requires 1 <= page <= TotalPages(total, size)
    ensures (page - 1) * size < total
  {
    var k := TotalPages(total, size);
    TotalPagesIsCeiling(total, size);
    assert (page - 1) * size <= (k - 1) * size by {
      assert (k - 1) * size == (page - 1) * size + (k - page) * size;
      assert (k - page) * size >= 0;
    }
  }

  lemma PageInside<T>(all: seq<T>, page: pos, size: pos, from: nat)
    requires 1 <= page <= TotalPages(|all|, size) && from == (page - 1) * size
    ensures from < |all| && page * size == from + size
    ensures page < TotalPages(|all|, size) ==> from + size < |all|
    ensures var p := Paginate(all, page, size);
            if page < TotalPages(|all|, size)
            then p.nextPage == Some(page + 1) && p.items == all[from..from + size]
            else p.nextPage.None? && p.items == all[from..]
  {
    PageStartsInside(|all|, page, size);
    OffsetStep(page, size);
    TotalPagesIsCeiling(|all|, size);
    if page < TotalPages(|all|, size) { PageStartsInside(|all|, page + 1, size); }
  }

  lemma NextOffset(page: pos, size: pos, from: nat)
    requires from == (page - 1) * size
    ensures (page + 1 - 1) * size == from + size
  {
    OffsetStep(page, size);
  }

  /** The pages hold the items, one page after the other. */
  predicate Holds<T(==)>(walk: seq<Page<T>>, items: seq<T>, count: nat) {
    |walk| == count && Flatten(ItemsOf(walk)) == items
  }

  lemma HoldsOneMore<T>(p: Page<T>, rest: seq<Page<T>>, items: seq<T>, count: nat)
    requires Holds(rest, items, count)
    ensures Holds([p] + rest, p.items + items, count + 1)
  {
    ItemsOfCons(p, rest);
    FlattenCons(p.items, ItemsOf(rest));
  }

  lemma HoldsNone<T>()
    ensures Holds<T>([], [], 0)
  {
  }

  /** The walk from a page on, when there are `pages` of them. */
  lemma {:induction false} FollowFrom<T>(all: seq<T>, page: pos, size: pos, from: nat, pages: nat)
    requires pages == TotalPages(|all|, size) && 1 <= page <= pages && from == (page - 1) * size
    ensures from < |all| && Holds(Follow(all, page, size), all[from..], pages - page + 1)
    decreases pages - page
  {
    var p := Paginate(all, page, size);
    PageInside(all, page, size, from);
    if page < pages {
      NextOffset(page, size, from);
      FollowFrom(all, page + 1, size, from + size, pages);
      HoldsOneMore(p, Follow(all, page + 1, size), all[from + size..], pages - page);
      SplitTail(all, from, from + size);
    } else {
      HoldsNone<T>();
      HoldsOneMore(p, [], [], 0);
      assert p.items + [] == p.items;
    }
  }

  lemma SplitTail<T>(all: seq<T>, from: nat, to: nat)
    requires from <= to <= |all|
    ensures all[from..to] + all[to..] == all[from..]
  {
  }

  lemma ItemsOfCons<T>(p: Page<T>, rest: seq<Page<T>>)
    ensures ItemsOf([p] + rest) == [p.items] + ItemsOf(rest)
  {
    assert ([p] + rest)[1..] == rest;
  }

  /** Main result: following `next_page` from page 1 visits exactly ceil(n / size)
      pages (one empty page when the list is empty) and rebuilds the list. */
  lemma FollowingNextPageRebuildsTheList<T>(all: seq<T>, size: pos)
    ensures Flatten(ItemsOf(Follow(all, 1, size))) == all
    ensures |Follow(all, 1, size)| == if all == [] then 1 else TotalPages(|all|, size)
  {
    if all == [] {
      var walk := Follow(all, 1, size);
      assert walk[1..] == [];
      assert Flatten(ItemsOf(walk)) == walk[0].items + Flatten([]);
    } else {
      TotalPagesIsCeiling(|all|, size);
      FollowFrom(all, 1, size, 0, TotalPages(|all|, size));
      assert all[0..] == all;
    }
  }

  /** The rows of the page lie at from..to in a list that is not empty, and both flags and both
      neighbours say what lies outside. */
  ghost predicate IsAt<T>(all: seq<T>, p: Page<T>, size: pos, from: int, to: int) {
    && 0 <= from < to <= |all| && p.items == all[from..to]
    && (p.hasNext <==> to < |all|) && (p.nextPage.Some? <==> to < |all|)
    && (p.hasPrevious <==> from > 0) && (p.previousPage.Some? <==> from > 0)
    && (to < |all| ==> to == from + size)
  }

  lemma PageIsAt<T>(all: seq<T>, page: pos, size: pos, from: nat) returns (to: nat)
    requires page <= TotalPages(|all|, size) && from == (page - 1) * size
    ensures IsAt(all, Paginate(all, page, size), size, from, to)
    ensures page < TotalPages(|all|, size) ==> to == from + size == (page + 1 - 1) * size
  {
    PageInside(all, page, size, from);
    if page > 1 { OffsetStep(page - 1, size); }
    to := if page < TotalPages(|all|, size) then from + size else |all|;
  }

  lemma PreviousIsAt<T>(all: seq<T>, page: pos, size: pos, from: nat)
    requires 1 < page <= TotalPages(|all|, size) && from == (page - 1) * size
    ensures from >= size && IsAt(all, Paginate(all, page - 1, size), size, from - size, from)
    ensures Paginate(all, page - 1, size).nextPage == Some(page)
  {
    OffsetStep(page - 1, size);
    var to := PageIsAt(all, page - 1, size, (page - 1 - 1) * size);
    PageInside(all, page - 1, size, (page - 1 - 1) * size);
  }

  /** Main result: a page says where it lies: has_next and next_page hold exactly when rows lie
      behind it, has_previous and previous_page exactly when rows lie before it, and they lead to
      the pages that hold those. */
  lemma PageTellsItsPlace<T>(all: seq<T>, page: pos, size: pos, from: nat, p: Page<T>)
    returns (to: nat, last: nat)
    requires page <= TotalPages(|all|, size) && from == (page - 1) * size && p == Paginate(all, page, size)
    ensures p.total == |all| && p.pageSize == size && p.page == page && p.totalPages == TotalPages(|all|, size)
    ensures IsAt(all, p, size, from, to)
    ensures p.hasNext ==>
              p.nextPage == Some(page + 1) && IsAt(all, Paginate(all, page + 1, size), size, to, last)
    ensures p.hasPrevious ==>
              && page > 1 && p.previousPage == Some(page - 1)
              && IsAt(all, Paginate(all, page - 1, size), size, from - size, from)
              && Paginate(all, page - 1, size).nextPage == Some(page)
  {
    to := PageIsAt(all, page, size, from);
    last := to;
    if page < TotalPages(|all|, size) { last := PageIsAt(all, page + 1, size, to); }
    if page > 1 { PreviousIsAt(all, page, size, from); }
  }

  /** On an empty list every page is empty and the last one, but all numbers except 1 still
      claim that there is a page before. */
  lemma EmptyListStillHasPrevious<T>(requested: pos, size: pos)
    ensures var p := Paginate<T>([], requested, size);
            && p.items == [] && p.total == 0 && p.page == requested
            && !p.hasNext && p.nextPage.None?
            && (p.hasPrevious <==> requested > 1)
            && p.previousPage == if requested > 1 then Some(requested - 1) else None
  {
  }

  /** Asking beyond the end of a non-empty list answers with the last page, which
      holds the tail of the list. */
  lemma OverlargePageIsTheLast<T>(all: seq<T>, page: pos, size: pos)
    requires all != [] && page >= TotalPages(|all|, size)
    ensures var last := Paginate(all, page, size);
            && last == Paginate(all, TotalPages(|all|, size), size)
            && last.items != [] && !last.hasNext
            && last.items == all[|all| - |last.items|..]
  {
    var n := TotalPages(|all|, size);
    TotalPagesIsCeiling(|all|, size);
    PageStartsInside(|all|, n, size);
    OffsetStep(n, size);
  }

  // --- limit and offset --------------------------------------------------------------------

  datatype Window<T> = Window(
    items: seq<T>, total: nat, limit: nat, offset: nat, hasNext: bool, hasPrevious: bool)

  function PaginateWindow<T>(all: seq<T>, limit: pos, offset: nat): Window<T> {
    Window(Slice(all, offset, offset + limit), |all|, limit, offset, offset + limit < |all|, offset > 0)
  }

  /** Steps the offset by the limit until `has_next` is false. */
  function StepThrough<T>(all: seq<T>, limit: pos, offset: nat): seq<seq<T>>
    decreases |all| - offset
  {
    var w := PaginateWindow(all, limit, offset);
    [w.items] + if w.hasNext then StepThrough(all, limit, offset + limit) else []
  }

  /** From any offset inside the list the stepped windows rebuild its tail. */
  lemma {:induction false} SteppingRebuildsTheTail<T>(all: seq<T>, limit: pos, offset: nat)
    requires offset <= |all|
    ensures Flatten(StepThrough(all, limit, offset)) == all[offset..]
    decreases |all| - offset
  {
    var items := PaginateWindow(all, limit, offset).items;
    WindowInside(all, limit, offset);
    if offset + limit < |all| {
      SteppingRebuildsTheTail(all, limit, offset + limit);
      OneMoreWindow(items, StepThrough(all, limit, offset + limit), all[offset + limit..]);
    } else {
      OneMoreWindow(items, [], []);
    }
  }

  lemma OneMoreWindow<T>(items: seq<T>, rest: seq<seq<T>>, tail: seq<T>)
    requires Flatten(rest) == tail
    ensures Flatten([items] + rest) == items + tail
  {
    FlattenCons(items, rest);
  }

  /** A window and what lies behind it make up the tail. */
  lemma WindowInside<T>(all: seq<T>, limit: pos, offset: nat)
    requires offset <= |all|
    ensures var w := PaginateWindow(all, limit, offset);
            && (w.hasNext <==> offset + limit < |all|)
            && w.items + (if w.hasNext then all[offset + limit..] else []) == all[offset..]
  {
    if offset + limit < |all| {
      SplitTail(all, offset, offset + limit);
    } else {
      assert PaginateWindow(all, limit, offset).items + [] == all[offset..];
    }
  }

  /** Every row before, inside and behind a window is accounted for by its flags. */
  lemma WindowTellsItsPlace<T>(all: seq<T>, limit: pos, offset: nat)
    ensures var w := PaginateWindow(all, limit, offset);
            && w.total == |all| && w.limit == limit && w.offset == offset
            && (w.hasPrevious <==> offset > 0)
            && (w.hasNext <==> offset + limit < |all|)
            && |w.items| <= limit && (w.hasNext ==> |w.items| == limit)
            && (forall k :: 0 <= k < |w.items| ==> offset + k < |all| && w.items[k] == all[offset + k])
            && (offset < |all| && !w.hasNext ==> offset + |w.items| == |all|)
  {
  }

  /** Main result: stepping from offset 0 rebuilds the whole list. */
  lemma SteppingRebuildsTheList<T>(all: seq<T>, limit: pos)
    ensures Flatten(StepThrough(all, limit, 0)) == all
  {
    SteppingRebuildsTheTail(all, limit, 0);
    assert all[0..] == all;
  }

  // --- walks as a client makes them ----------------------------------------------------------

  /** The page a request is answered with. */
  function AnswerPage<T>(all: seq<T>, c: Config, page: Param, size: Param): Page<T>
    requires PageSize(c, size) >= 1
  {
    Paginate(all, PageNumber(page), PageSize(c, size))
  }

  /** The pages of a client that starts with the given parameter and then asks for next_page. */
  function ClientPages<T>(all: seq<T>, c: Config, page: Param, size: Param): seq<Page<T>>
    requires PageSize(c, size) >= 1
    decreases TotalPages(|all|, PageSize(c, size)) - PageNumber(page)
  {
    var p := AnswerPage(all, c, page, size);
    [p] + if p.nextPage.Some? then ClientPages(all, c, Number(p.nextPage.value), size) else []
  }

  lemma {:induction false} ClientFollows<T>(all: seq<T>, c: Config, page: Param, size: Param)
    requires PageSize(c, size) >= 1
    ensures ClientPages(all, c, page, size) == Follow(all, PageNumber(page), PageSize(c, size))
    decreases TotalPages(|all|, PageSize(c, size)) - PageNumber(page)
  {
    var p := AnswerPage(all, c, page, size);
    if p.nextPage.Some? { ClientFollows(all, c, Number(p.nextPage.value), size); }
  }

  /** Main result: a client that starts without a page parameter, or with one that is not a
      number or below 1, gets the whole list, page by page, at whatever page size it asks for. */
  lemma ClientGetsTheList<T>(all: seq<T>, c: Config, page: Param, size: Param)
    requires PageSize(c, size) >= 1 && (page.Number? ==> page.value <= 1)
    ensures Flatten(ItemsOf(ClientPages(all, c, page, size))) == all
    ensures |ClientPages(all, c, page, size)| == if all == [] then 1 else TotalPages(|all|, PageSize(c, size))
  {
    ClientFollows(all, c, page, size);
    FollowingNextPageRebuildsTheList(all, PageSize(c, size));
  }

  /** The windows of a client that steps its offset by the limit it was given. */
  function ClientWindows<T>(all: seq<T>, c: Config, limit: Param, offset: Param): seq<seq<T>>
    requires Limit(c, limit) >= 1
    decreases |all| - Offset(offset)
  {
    var w := PaginateWindow(all, Limit(c, limit), Offset(offset));
    [w.items] + if w.hasNext then ClientWindows(all, c, limit, Number(Offset(offset) + Limit(c, limit))) else []
  }

  lemma {:induction false} ClientSteps<T>(all: seq<T>, c: Config, limit: Param, offset: Param, step: pos, from: nat)
    requires step == Limit(c, limit) >= 1 && from == Offset(offset)
    ensures ClientWindows(all, c, limit, offset) == StepThrough(all, step, from)
    decreases |all| - from
  {
    if PaginateWindow(all, step, from).hasNext {
      var next := Number(from + step);
      assert Offset(next) == from + step;
      ClientSteps(all, c, limit, next, step, from + step);
      assert ClientWindows(all, c, limit, offset)
          == [PaginateWindow(all, step, from).items] + ClientWindows(all, c, limit, next);
    }
  }

  /** The same for limit and offset. */
  lemma ClientStepsThroughTheList<T>(all: seq<T>, c: Config, limit: Param, offset: Param)
    requires Limit(c, limit) >= 1 && (offset.Number? ==> offset.value <= 0)
    ensures Flatten(ClientWindows(all, c, limit, offset)) == all
  {
    ClientSteps(all, c, limit, offset, Limit(c, limit), 0);
    SteppingRebuildsTheList(all, Limit(c, limit));
  }

  lemma FlattenCons<T>(x: seq<T>, rest: seq<seq<T>>)
    ensures Flatten([x] + rest) == x + Flatten(rest)
  {
    assert ([x] + rest)[1..] == rest;
  }
}
