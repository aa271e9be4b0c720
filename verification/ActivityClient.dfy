/** The client's activity iterator (pkg/activitypub/client/client.go, util.go) walking a collection that a
    server pages out (pkg/activitypub/resthandler) while items keep being appended and fetches may fail.

    URLs of pages are abstracted to page references, and a fetch to the page the server would return. */
module ActivityClient {
  import opened Common
  import opened Paging

  /** A page URL: with a page number, or without one, which means the first page. */
  datatype PageRef = FirstPage | PageNum(n: nat)

  /** A page item as the client sees it: an activity (by its ID), or something else. */
  datatype Item = Activity(id: nat) | Other

  datatype Page = Page(items: seq<Item>, current: PageRef, prev: Option<PageRef>, next: Option<PageRef>)

  datatype Error = NotFound | FetchFailed

  datatype Order = Forward | Reverse

  // ---------------------------------------------------------------------------------------------
  // The server (ascending sort order, as every endpoint is configured)

  function RefOf(page: int): Option<PageRef> {
    if page >= 0 then Some(PageNum(page)) else None
  }

  /** The page number a reference stands for. */
  function Number(ref: PageRef): nat {
    if ref.FirstPage? then 0 else ref.n
  }

  /** The page returned for `ref` when the list is `items`. */
  function Serve(items: seq<Item>, pageSize: PageSize, ref: PageRef): Page {
    var requested := if ref.FirstPage? then -1 else ref.n;
    var links := PrevNext(|items|, pageSize, requested, Ascending);
    Page(PageItems(items, pageSize, Number(ref)),
         PageNum(CurrentPage(|items|, pageSize, requested, Ascending)),
         RefOf(links.prev), RefOf(links.next))
  }

  /** `last` of the collection: getPageURL with a negative number names no page. */
  function LastPage(totalItems: nat, pageSize: PageSize): PageRef {
    var last := GetLastPageNum(totalItems, pageSize, Ascending);
    if last >= 0 then PageNum(last) else FirstPage
  }

  /** A server whose list only grows. */
  class Server {
    const pageSize: PageSize
    var items: seq<Item>

    constructor (pageSize: PageSize, items: seq<Item>)
      ensures this.pageSize == pageSize && this.items == items
    {
      this.pageSize := pageSize;
      this.items := items;
    }

    method Append(more: seq<Item>)
      modifies this
      ensures items == old(items) + more
    {
      items := items + more;
    }
  }

  // ---------------------------------------------------------------------------------------------
  // The flat list the iterator stands for

  ghost predicate AllActivities(items: seq<Item>) {
    forall i :: 0 <= i < |items| ==> items[i].Activity?
  }

  /** The activities among the first n items, in order. */
  function IdsUpTo(items: seq<Item>, n: nat): seq<nat>
    requires n <= |items|
  {
    if n == 0 then []
    else IdsUpTo(items, n - 1) + (if items[n - 1].Activity? then [items[n - 1].id] else [])
  }

  function Ids(items: seq<Item>): seq<nat> {
    IdsUpTo(items, |items|)
  }

  /** The first m elements, backwards. */
  function Backwards(s: seq<nat>, m: nat): seq<nat>
    requires m <= |s|
  {
    if m == 0 then [] else [s[m - 1]] + Backwards(s, m - 1)
  }

  function Reversed(s: seq<nat>): seq<nat> {
    Backwards(s, |s|)
  }

  /** What is collected from a page: the activities, prepended one by one when iterating in reverse. */
  function Collected(items: seq<Item>, order: Order): seq<nat> {
    if order.Forward? then Ids(items) else Reversed(Ids(items))
  }

  lemma {:induction false} IdsUpToActivities(items: seq<Item>, n: nat)
    requires AllActivities(items) && n <= |items|
    ensures |IdsUpTo(items, n)| == n
    ensures forall i :: 0 <= i < n ==> IdsUpTo(items, n)[i] == items[i].id
  {
    if n > 0 {
      IdsUpToActivities(items, n - 1);
    }
  }

  lemma IdsOfActivities(items: seq<Item>)
    requires AllActivities(items)
    ensures |Ids(items)| == |items|
    ensures forall i :: 0 <= i < |items| ==> Ids(items)[i] == items[i].id
  {
    IdsUpToActivities(items, |items|);
  }

  /** The activities of a list: exactly those, in order, whatever stands between them. */
  lemma {:induction false} IdsOfConcat(a: seq<Item>, b: seq<Item>)
    ensures Ids(a + b) == Ids(a) + Ids(b)
    decreases |b|
  {
    if b == [] {
      assert a + b == a;
    } else {
      var n := |b| - 1;
      IdsOfConcat(a, b[..n]);
      IdsOfFirst(a + b, |a| + n, a + b[..n]);
      IdsOfFirst(b, n, b[..n]);
    }
  }

  lemma {:induction false} IdsOfFirst(items: seq<Item>, n: nat, first: seq<Item>)
    requires n <= |items| && first == items[..n]
    ensures IdsUpTo(items, n) == Ids(first)
    decreases n
  {
    if n > 0 {
      IdsOfFirst(items, n - 1, items[..n - 1]);
      IdsOfFirst(first, n - 1, items[..n - 1]);
    }
  }

  lemma IdsOfOne(id: nat)
    ensures Ids([Activity(id)]) == [id] && Ids([Other]) == [] && Ids([]) == []
  {
    assert IdsUpTo([Activity(id)], 0) == [] && IdsUpTo([Other], 0) == [];
  }

  lemma {:induction false} BackwardsAt(s: seq<nat>, m: nat)
    requires m <= |s|
    ensures |Backwards(s, m)| == m
    ensures forall i :: 0 <= i < m ==> Backwards(s, m)[i] == s[m - 1 - i]
  {
    if m > 0 {
      BackwardsAt(s, m - 1);
    }
  }

  /** Only the first m elements matter. */
  lemma BackwardsOfPrefix(s: seq<nat>, t: seq<nat>, m: nat)
    requires m <= |s| && s <= t
    ensures Backwards(t, m) == Backwards(s, m)
  {
    BackwardsAt(s, m);
    BackwardsAt(t, m);
  }

  lemma ReversedSnoc(s: seq<nat>, x: nat)
    ensures Reversed(s + [x]) == [x] + Reversed(s)
  {
    BackwardsOfPrefix(s, s + [x], |s|);
  }

  lemma IdsOfPage(items: seq<Item>, from: nat, to: nat)
    requires AllActivities(items) && from <= to <= |items|
    ensures |Ids(items)| == |items| && Ids(items[from..to]) == Ids(items)[from..to]
  {
    IdsOfActivities(items);
    IdsOfActivities(items[from..to]);
  }

  lemma IdsOfPrefix(items: seq<Item>, more: seq<Item>)
    requires AllActivities(items + more)
    ensures AllActivities(items)
    ensures |Ids(items)| == |items| && Ids(items) <= Ids(items + more)
  {
    assert forall i :: 0 <= i < |items| ==> (items + more)[i] == items[i];
    IdsOfActivities(items);
    IdsOfActivities(items + more);
  }

  /** Page k covers positions k * pageSize up to (k + 1) * pageSize of the list, as far as there are any. */
  function PageStart(n: nat, pageSize: PageSize, k: nat): nat {
    Min(Offset(pageSize, k), n)
  }

  function PageEnd(n: nat, pageSize: PageSize, k: nat): (to: nat)
    ensures PageStart(n, pageSize, k) <= to <= n
  {
    assert Offset(pageSize, k) <= Offset(pageSize, k + 1);
    Min(Offset(pageSize, k + 1), n)
  }

  /** A page served while going forward: a slice of the list, and a link to the next slice unless the list
      ends here. */
  lemma ServedForward(items: seq<Item>, pageSize: PageSize, link: PageRef)
    requires AllActivities(items)
    ensures var k := Number(link);
            var page := Serve(items, pageSize, link);
            var from, to := PageStart(|items|, pageSize, k), PageEnd(|items|, pageSize, k);
            && |Ids(items)| == |items|
            && Ids(page.items) == Ids(items)[from..to]
            && page.next == (if Offset(pageSize, k + 1) < |items| then Some(PageNum(k + 1)) else None)
            && (page.next.None? ==> to == |items|)
            && (page.next.Some? ==> to == Offset(pageSize, k + 1))
  {
    var k := Number(link);
    ServedNext(items, pageSize, link);
    PageIsASlice(items, pageSize, k);
    IdsOfPage(items, PageStart(|items|, pageSize, k), PageEnd(|items|, pageSize, k));
  }

  lemma ServedNext(items: seq<Item>, pageSize: PageSize, link: PageRef)
    ensures var next := Number(link) + 1;
            Serve(items, pageSize, link).next == if Offset(pageSize, next) < |items| then Some(PageNum(next)) else None
  {
    HighestPageAtLeast(|items|, pageSize, Number(link) + 1);
  }

  lemma PageIsASlice(items: seq<Item>, pageSize: PageSize, k: nat)
    ensures PageItems(items, pageSize, k) == items[PageStart(|items|, pageSize, k)..PageEnd(|items|, pageSize, k)]
  {
  }

  lemma ServedPrev(items: seq<Item>, pageSize: PageSize, link: PageRef)
    requires Number(link) == 0 || Offset(pageSize, Number(link)) < |items|
    ensures var page, k := Serve(items, pageSize, link), Number(link);
            && page.items == PageItems(items, pageSize, k)
            && page.prev == if k > 0 then Some(PageNum(k - 1)) else None
  {
    HighestPageAtLeast(|items|, pageSize, Number(link));
  }

  /** The reversed slice of a page is a slice of the reversed list. */
  lemma ReversedPage(items: seq<Item>, pageSize: PageSize, k: nat, m: nat)
    requires AllActivities(items) && PageEnd(|items|, pageSize, k) <= m <= |items|
    ensures var from, to := PageStart(|items|, pageSize, k), PageEnd(|items|, pageSize, k);
            && |Ids(items)| == |items| && |Backwards(Ids(items), m)| == m
            && Reversed(Ids(PageItems(items, pageSize, k))) == Backwards(Ids(items), m)[m - to..m - from]
  {
    var from, to := PageStart(|items|, pageSize, k), PageEnd(|items|, pageSize, k);
    PageIsASlice(items, pageSize, k);
    IdsOfPage(items, from, to);
    ReverseOfSlice(Ids(items), from, to, m);
  }

  /** A page served while going backward: the reversed slice, and a link to the page before. */
  lemma ServedBackward(items: seq<Item>, pageSize: PageSize, link: PageRef, m: nat)
    requires AllActivities(items) && PageEnd(|items|, pageSize, Number(link)) <= m <= |items|
    requires Number(link) == 0 || Offset(pageSize, Number(link)) < |items|
    ensures var k := Number(link);
            var page := Serve(items, pageSize, link);
            var from, to := PageStart(|items|, pageSize, k), PageEnd(|items|, pageSize, k);
            && |Ids(items)| == |items| && |Backwards(Ids(items), m)| == m
            && Reversed(Ids(page.items)) == Backwards(Ids(items), m)[m - to..m - from]
            && page.prev == (if k > 0 then Some(PageNum(k - 1)) else None)
  {
    ServedPrev(items, pageSize, link);
    ReversedPage(items, pageSize, Number(link), m);
  }

  lemma ReverseOfSlice(s: seq<nat>, from: nat, to: nat, m: nat)
    requires from <= to <= m <= |s|
    ensures |Backwards(s, m)| == m
    ensures Reversed(s[from..to]) == Backwards(s, m)[m - to..m - from]
  {
    ReverseOfPart(s, s[from..to], from, to, m, Backwards(s, m), Reversed(s[from..to]));
  }

  /** `part` is the slice of `s` up to `to`, `all` the first m elements backwards, and `back` the slice backwards. */
  lemma ReverseOfPart(s: seq<nat>, part: seq<nat>, from: nat, to: nat, m: nat, all: seq<nat>, back: seq<nat>)
    requires from <= to <= m <= |s| && part == s[from..to]
    requires all == Backwards(s, m) && back == Backwards(part, |part|)
    ensures |all| == m && back == all[m - to..m - from]
  {
    BackwardsAt(s, m);
    BackwardsAt(part, |part|);
    forall i | 0 <= i < |back| ensures back[i] == all[m - to + i] {
      assert back[i] == part[to - from - 1 - i] == s[to - 1 - i];
    }
    SliceEqual(back, all, m - to);
  }

  lemma SliceEqual(a: seq<nat>, b: seq<nat>, low: nat)
    requires low + |a| <= |b| && forall i :: 0 <= i < |a| ==> a[i] == b[low + i]
    ensures a == b[low..low + |a|]
  {
  }

  // ---------------------------------------------------------------------------------------------
  // The iterator's state as a cursor

  /** The iterator's fields. `base` and `walked` are history: the position in the flat list of the first
      current item and, in reverse, the length of the list prefix that is walked back (known once the
      first page was read). */
  datatype Cursor = Cursor(
    order: Order,
    totalItems: nat,
    currentItems: seq<nat>,
    currentPage: Option<PageRef>,
    nextPage: Option<PageRef>,
    currentIndex: int,
    numProcessed: int,
    base: nat,
    walked: Option<nat>
  )

  /** `activityIteratorFromCollection`, for a collection with `totalItems` items. */
  function NewCursor(order: Order, totalItems: nat, pageSize: PageSize): Cursor {
    var link := if order.Forward? then FirstPage else LastPage(totalItems, pageSize);
    Cursor(order, totalItems, [], None, Some(link), 0, 0, 0, None)
  }

  /** The flat list: the server's list, or the walked prefix of it backwards. */
  function Flat(c: Cursor, items: seq<Item>): seq<nat> {
    if c.order.Forward? then Ids(items)
    else if c.walked.Some? && c.walked.value <= |Ids(items)| then Backwards(Ids(items), c.walked.value)
    else []
  }

  /** Position in the flat list just behind the current items. */
  function End(c: Cursor): nat {
    c.base + |c.currentItems|
  }

  /** The next link leads to the page that continues the flat list behind the current items. */
  ghost predicate LinkContinues(c: Cursor, n: nat, pageSize: PageSize) {
    match c.order
    case Forward =>
      if c.nextPage.None? then c.totalItems <= End(c)
      else End(c) == PageStart(n, pageSize, Number(c.nextPage.value)) &&
           Offset(pageSize, Number(c.nextPage.value)) <= n
    case Reverse =>
      if c.walked.None? then
        && End(c) == 0 && c.nextPage.Some?
        && c.totalItems <= Offset(pageSize, Number(c.nextPage.value) + 1)
        && (Number(c.nextPage.value) == 0 || Offset(pageSize, Number(c.nextPage.value)) < c.totalItems)
      else
        && c.totalItems <= c.walked.value <= n
        && if c.nextPage.None? then End(c) == c.walked.value
           else c.walked.value - End(c) == Offset(pageSize, Number(c.nextPage.value) + 1)
  }

  /** The iterator is a cursor over `flat`, for a list of n items: its current items are a slice of it and it
      stands at position `numProcessed`. */
  ghost predicate AlignedTo(c: Cursor, flat: seq<nat>, n: nat, pageSize: PageSize) {
    && c.totalItems <= n
    && 0 <= c.currentIndex <= |c.currentItems|
    && c.numProcessed == c.base + c.currentIndex
    && End(c) <= |flat| && c.currentItems == flat[c.base..End(c)]
    && LinkContinues(c, n, pageSize)
  }

  /** The iterator is a cursor over its flat list. */
  ghost predicate Aligned(c: Cursor, items: seq<Item>, pageSize: PageSize) {
    AllActivities(items) && AlignedTo(c, Flat(c, items), |items|, pageSize)
  }

  /** The flat list depends on the order and the walked prefix only. */
  lemma SameFlat(c: Cursor, d: Cursor, items: seq<Item>)
    requires d.order == c.order && (c.order.Reverse? ==> d.walked == c.walked)
    ensures Flat(d, items) == Flat(c, items)
  {
  }

  lemma NewCursorIsAligned(order: Order, items: seq<Item>, pageSize: PageSize)
    requires AllActivities(items)
    ensures Aligned(NewCursor(order, |items|, pageSize), items, pageSize)
  {
    var h := HighestPage(|items|, pageSize);
    HighestPageAtLeast(|items|, pageSize, 0);
    if h >= 0 {
      HighestPageAtLeast(|items|, pageSize, h);
      HighestPageAtLeast(|items|, pageSize, h + 1);
    }
  }

  lemma FlatGrows(c: Cursor, items: seq<Item>, more: seq<Item>)
    requires AllActivities(items + more) && (c.walked.Some? ==> c.order.Forward? || c.walked.value <= |items|)
    ensures Flat(c, items) <= Flat(c, items + more)
    ensures c.order.Reverse? && c.walked.Some? ==> Flat(c, items + more) == Flat(c, items)
  {
    IdsOfPrefix(items, more);
    if c.order.Reverse? && c.walked.Some? {
      BackwardsOfPrefix(Ids(items), Ids(items + more), c.walked.value);
    }
  }

  lemma AlignedToGrows(c: Cursor, flat: seq<nat>, longer: seq<nat>, n: nat, size: nat, pageSize: PageSize)
    requires AlignedTo(c, flat, n, pageSize) && flat <= longer && n <= size
    ensures AlignedTo(c, longer, size, pageSize)
  {
  }

  /** Growth of the list does not disturb the cursor: it keeps its place, and in reverse its list. */
  lemma AlignedUnderGrowth(c: Cursor, items: seq<Item>, more: seq<Item>, pageSize: PageSize)
    requires Aligned(c, items, pageSize) && AllActivities(items + more)
    ensures Aligned(c, items + more, pageSize)
    ensures Flat(c, items) <= Flat(c, items + more)
    ensures c.order.Reverse? && c.walked.Some? ==> Flat(c, items + more) == Flat(c, items)
  {
    FlatGrows(c, items, more);
    AlignedToGrows(c, Flat(c, items), Flat(c, items + more), |items|, |items + more|, pageSize);
  }

  /** The fields after `getNextPage` read `page`, which ends at position `pageEnd` of the server's list. */
  function Advanced(c: Cursor, page: Page, pageEnd: nat): Cursor {
    c.(currentItems := Collected(page.items, c.order),
       currentPage := Some(page.current),
       nextPage := if c.order.Forward? then page.next else page.prev,
       currentIndex := 0,
       base := End(c),
       walked := if c.order.Forward? || c.walked.Some? then c.walked else Some(pageEnd))
  }

  function AfterFetch(c: Cursor, items: seq<Item>, pageSize: PageSize): Cursor
    requires c.nextPage.Some?
  {
    Advanced(c, Serve(items, pageSize, c.nextPage.value),
             PageEnd(|items|, pageSize, Number(c.nextPage.value)))
  }

  /** Going forward: a page that continues the list up to `to` keeps the cursor aligned. */
  lemma ForwardAligned(c: Cursor, flat: seq<nat>, n: nat, pageSize: PageSize, collected: seq<nat>,
                       page: Option<PageRef>, next: Option<PageRef>, to: nat)
    requires c.order.Forward? && AlignedTo(c, flat, n, pageSize) && End(c) <= to <= n == |flat|
    requires collected == flat[End(c)..to]
    requires if next.None? then to == n else to == Offset(pageSize, Number(next.value))
    ensures var d := c.(currentItems := collected, currentPage := page, nextPage := next, currentIndex := 0,
                        base := End(c), numProcessed := End(c));
            AlignedTo(d, flat, n, pageSize)
  {
  }

  lemma ForwardFetch(c: Cursor, items: seq<Item>, pageSize: PageSize, page: Page, to: nat)
    requires c.order.Forward? && Aligned(c, items, pageSize)
    requires End(c) <= to <= |items| == |Ids(items)|
    requires Ids(page.items) == Ids(items)[End(c)..to]
    requires if page.next.None? then to == |items| else to == Offset(pageSize, Number(page.next.value))
    requires End(c) < c.totalItems ==> End(c) < to
    ensures var d := Advanced(c, page, to).(numProcessed := End(c));
            Aligned(d, items, pageSize) && (d.base < c.totalItems ==> d.currentItems != [])
  {
    ForwardAligned(c, Flat(c, items), |items|, pageSize, Ids(page.items), Some(page.current), page.next, to);
    SameFlat(c, Advanced(c, page, to).(numProcessed := End(c)), items);
  }

  /** Going backward: a page that continues the walk down to `from` keeps the cursor aligned. */
  lemma ReverseAligned(c: Cursor, flat: seq<nat>, n: nat, pageSize: PageSize, collected: seq<nat>,
                       page: Option<PageRef>, prev: Option<PageRef>, from: nat, to: nat, m: nat)
    requires c.order.Reverse? && c.totalItems <= m <= n && |flat| == m
    requires from <= to <= m && m - to == End(c)
    requires collected == flat[m - to..m - from]
    requires if prev.None? then from == 0 else from == Offset(pageSize, Number(prev.value) + 1)
    ensures var d := c.(currentItems := collected, currentPage := page, nextPage := prev, currentIndex := 0,
                        base := End(c), walked := Some(m), numProcessed := End(c));
            AlignedTo(d, flat, n, pageSize)
  {
  }

  lemma ForwardFetchKeepsAligned(c: Cursor, items: seq<Item>, pageSize: PageSize)
    requires c.order.Forward? && Aligned(c, items, pageSize) && c.nextPage.Some?
    ensures var d := AfterFetch(c, items, pageSize).(numProcessed := End(c));
            Aligned(d, items, pageSize) && (d.base < c.totalItems ==> d.currentItems != [])
  {
    var link := c.nextPage.value;
    var k := Number(link);
    var page := Serve(items, pageSize, link);
    var to := PageEnd(|items|, pageSize, k);
    ServedForward(items, pageSize, link);
    ForwardFetch(c, items, pageSize, page, to);
  }

  /** Where the page behind the next link lies when going backward. */
  lemma ReverseLinkBounds(c: Cursor, n: nat, pageSize: PageSize, k: nat, start: nat, m: nat)
    requires start == Offset(pageSize, k) && c.totalItems <= n
    requires if c.walked.None?
             then End(c) == 0 && c.totalItems <= start + pageSize && (k == 0 || start < c.totalItems)
             else c.totalItems <= c.walked.value <= n && c.walked.value - End(c) == start + pageSize
    requires m == if c.walked.Some? then c.walked.value else PageEnd(n, pageSize, k)
    ensures var from, to := PageStart(n, pageSize, k), PageEnd(n, pageSize, k);
            && from == start && (k == 0 || start < n)
            && c.totalItems <= m && to <= m <= n && m - to == End(c)
            && (End(c) < c.totalItems ==> from < to)
  {
  }

  /** The page behind the next link going backward, whoever serves it. */
  lemma ReversePage(c: Cursor, items: seq<Item>, pageSize: PageSize, page: Page, k: nat)
    requires c.order.Reverse? && c.nextPage.Some? && k == Number(c.nextPage.value)
    requires AllActivities(items) && c.totalItems <= |items| && LinkContinues(c, |items|, pageSize)
    requires page.items == PageItems(items, pageSize, k)
    requires page.prev == if k > 0 then Some(PageNum(k - 1)) else None
    ensures var d := Advanced(c, page, PageEnd(|items|, pageSize, k)).(numProcessed := End(c));
            Aligned(d, items, pageSize) && (d.base < c.totalItems ==> d.currentItems != [])
  {
    var from, to := PageStart(|items|, pageSize, k), PageEnd(|items|, pageSize, k);
    var m := if c.walked.Some? then c.walked.value else to;
    ReverseBounds(c, |items|, pageSize, k, m);
    ReversedPage(items, pageSize, k, m);
    var flat, collected := Backwards(Ids(items), m), Reversed(Ids(page.items));
    ReversePageAligned(c, flat, |items|, pageSize, collected, page, k, from, to, m);
    var d := Advanced(c, page, to).(numProcessed := End(c));
    AlignedFrom(d, flat, items, pageSize);
  }

  lemma ReversePageAligned(c: Cursor, flat: seq<nat>, n: nat, pageSize: PageSize, collected: seq<nat>, page: Page,
                           k: nat, from: nat, to: nat, m: nat)
    requires c.order.Reverse? && m == (if c.walked.Some? then c.walked.value else to)
    requires from == Offset(pageSize, k) && page.prev == if k > 0 then Some(PageNum(k - 1)) else None
    requires from <= to <= m && c.totalItems <= m <= n && |flat| == m && m - to == End(c)
    requires collected == flat[m - to..m - from] && collected == Collected(page.items, Reverse)
    ensures var d := Advanced(c, page, to).(numProcessed := End(c));
            AlignedTo(d, flat, n, pageSize) && d.walked == Some(m) && |d.currentItems| == to - from
  {
    ReverseAligned(c, flat, n, pageSize, collected, Some(page.current), page.prev, from, to, m);
  }

  lemma AlignedFrom(c: Cursor, flat: seq<nat>, items: seq<Item>, pageSize: PageSize)
    requires AllActivities(items) && AlignedTo(c, flat, |items|, pageSize) && |Ids(items)| == |items|
    requires c.order.Reverse? && c.walked.Some? && c.walked.value <= |items| && flat == Backwards(Ids(items), c.walked.value)
    ensures Aligned(c, items, pageSize)
  {
    assert Flat(c, items) == flat;
  }

  lemma ReverseBounds(c: Cursor, n: nat, pageSize: PageSize, k: nat, m: nat)
    requires c.order.Reverse? && c.totalItems <= n && LinkContinues(c, n, pageSize)
    requires c.nextPage.Some? && k == Number(c.nextPage.value)
    requires m == if c.walked.Some? then c.walked.value else PageEnd(n, pageSize, k)
    ensures var from, to := PageStart(n, pageSize, k), PageEnd(n, pageSize, k);
            && from == Offset(pageSize, k)
            && c.totalItems <= m && to <= m <= n && m - to == End(c)
            && (End(c) < c.totalItems ==> from < to)
  {
    ReverseLinkBounds(c, n, pageSize, k, Offset(pageSize, k), m);
  }

  lemma ReverseLinkInRange(c: Cursor, n: nat, pageSize: PageSize)
    requires c.order.Reverse? && c.nextPage.Some? && c.totalItems <= n && LinkContinues(c, n, pageSize)
    ensures var k := Number(c.nextPage.value); k == 0 || Offset(pageSize, k) < n
  {
  }

  lemma ReverseFetchKeepsAligned(c: Cursor, items: seq<Item>, pageSize: PageSize)
    requires c.order.Reverse? && Aligned(c, items, pageSize) && c.nextPage.Some?
    ensures var d := AfterFetch(c, items, pageSize).(numProcessed := End(c));
            Aligned(d, items, pageSize) && (d.base < c.totalItems ==> d.currentItems != [])
  {
    var link := c.nextPage.value;
    ReverseLinkInRange(c, |items|, pageSize);
    ServedPrev(items, pageSize, link);
    ReversePage(c, items, pageSize, Serve(items, pageSize, link), Number(link));
  }

  /** Fetching the next page keeps the cursor aligned, at the position behind the old page, and the page
      is not empty while there are items to process. */
  lemma FetchKeepsAligned(c: Cursor, items: seq<Item>, pageSize: PageSize)
    requires Aligned(c, items, pageSize) && c.nextPage.Some?
    ensures var d := AfterFetch(c, items, pageSize).(numProcessed := End(c));
            Aligned(d, items, pageSize) && (d.base < c.totalItems ==> d.currentItems != [])
  {
    if c.order.Forward? {
      ForwardFetchKeepsAligned(c, items, pageSize);
    } else {
      ReverseFetchKeepsAligned(c, items, pageSize);
    }
  }

  /** Taking the item at the index. */
  function AfterTake(c: Cursor): Cursor {
    c.(currentIndex := c.currentIndex + 1, numProcessed := c.numProcessed + 1)
  }

  /** The item taken is the element of the flat list at position `numProcessed`. */
  lemma TakeAligned(c: Cursor, flat: seq<nat>, n: nat, pageSize: PageSize)
    requires AlignedTo(c, flat, n, pageSize) && c.currentIndex < |c.currentItems|
    ensures AlignedTo(AfterTake(c), flat, n, pageSize)
    ensures 0 <= c.numProcessed < |flat| && c.currentItems[c.currentIndex] == flat[c.numProcessed]
  {
  }

  lemma TakeKeepsAligned(c: Cursor, items: seq<Item>, pageSize: PageSize)
    requires Aligned(c, items, pageSize) && c.currentIndex < |c.currentItems|
    ensures Aligned(AfterTake(c), items, pageSize)
    ensures Flat(AfterTake(c), items) == Flat(c, items)
    ensures 0 <= c.numProcessed < |Flat(c, items)|
    ensures c.currentItems[c.currentIndex] == Flat(c, items)[c.numProcessed]
  {
    TakeAligned(c, Flat(c, items), |items|, pageSize);
    SameFlat(c, AfterTake(c), items);
  }

  /** The cursor Next takes from: the current one, or the one behind the next link. */
  function Ready(c: Cursor, items: seq<Item>, pageSize: PageSize): Cursor
    requires c.currentIndex < |c.currentItems| || c.nextPage.Some?
  {
    if c.currentIndex < |c.currentItems| then c else AfterFetch(c, items, pageSize)
  }

  /** While there are items left to process there is a page to take the next one from. */
  lemma ReadyHasItem(c: Cursor, items: seq<Item>, pageSize: PageSize)
    requires Aligned(c, items, pageSize) && c.numProcessed < c.totalItems
    ensures c.currentIndex < |c.currentItems| || c.nextPage.Some?
    ensures var d := Ready(c, items, pageSize);
            && d.numProcessed == c.numProcessed
            && Aligned(d, items, pageSize) && d.currentIndex < |d.currentItems|
            && (c.walked.Some? ==> d.walked == c.walked)
            && (c.order.Reverse? && c.walked.None? ==>
                  && c.nextPage.Some?
                  && d.walked == Some(PageEnd(|items|, pageSize, Number(c.nextPage.value))))
            && d.order == c.order && d.totalItems == c.totalItems
  {
    if c.currentIndex >= |c.currentItems| {
      assert c.numProcessed == End(c);
      assert c.nextPage.Some?;
      FetchKeepsAligned(c, items, pageSize);
    }
  }

  /** The effect of `Next`. */
  function AfterNext(c: Cursor, items: seq<Item>, pageSize: PageSize, fetchOk: bool): Cursor {
    if c.numProcessed >= c.totalItems then c
    else if c.currentIndex < |c.currentItems| then AfterTake(c)
    else if c.nextPage.None? || !fetchOk then c
    else
      var d := AfterFetch(c, items, pageSize);
      if d.currentItems == [] then d else AfterTake(d)
  }

  /** What `Next` returns. */
  function NextResult(c: Cursor, items: seq<Item>, pageSize: PageSize, fetchOk: bool): Result<nat, Error>
    requires c.currentIndex >= 0
  {
    if c.numProcessed >= c.totalItems then Err(NotFound)
    else if c.currentIndex < |c.currentItems| then Ok(c.currentItems[c.currentIndex])
    else if c.nextPage.None? then Err(NotFound)
    else if !fetchOk then Err(FetchFailed)
    else
      var d := AfterFetch(c, items, pageSize);
      if d.currentItems == [] then Err(NotFound) else Ok(d.currentItems[0])
  }

  /** A failed fetch changes nothing, so the call can be repeated. Otherwise an aligned iterator returns the
      element of the flat list at position `numProcessed`, or NotFound exactly when the items that existed
      when it was created have all been processed. */
  lemma NextReturnsTheFlatItem(c: Cursor, items: seq<Item>, pageSize: PageSize, fetchOk: bool)
    requires Aligned(c, items, pageSize)
    ensures var r, d := NextResult(c, items, pageSize, fetchOk), AfterNext(c, items, pageSize, fetchOk);
            && Aligned(d, items, pageSize)
            && (r == Err(NotFound) <==> c.numProcessed >= c.totalItems)
            && (r == Err(FetchFailed) ==> !fetchOk)
            && (r.Err? ==> d == c)
            && (r.Ok? ==>
                  && d.numProcessed == c.numProcessed + 1 <= |Flat(d, items)|
                  && r.value == Flat(d, items)[c.numProcessed])
  {
    if c.numProcessed < c.totalItems {
      ReadyHasItem(c, items, pageSize);
      TakeKeepsAligned(Ready(c, items, pageSize), items, pageSize);
    }
  }

  /** In reverse, the first successful call fixes the prefix that is walked back; it never changes again. */
  lemma NextFixesTheWalk(c: Cursor, items: seq<Item>, pageSize: PageSize, fetchOk: bool)
    requires Aligned(c, items, pageSize)
    ensures var r, d := NextResult(c, items, pageSize, fetchOk), AfterNext(c, items, pageSize, fetchOk);
            && d.order == c.order && d.totalItems == c.totalItems
            && (c.walked.Some? ==> d.walked == c.walked)
            && (r.Ok? && c.order.Reverse? && c.walked.None? ==>
                  && c.nextPage.Some?
                  && d.walked == Some(PageEnd(|items|, pageSize, Number(c.nextPage.value))))
  {
    if c.numProcessed < c.totalItems {
      ReadyHasItem(c, items, pageSize);
    }
  }

  /** The effect of `NextPage`. */
  function AfterNextPage(c: Cursor, items: seq<Item>, pageSize: PageSize, fetchOk: bool): Cursor {
    var skipped := c.numProcessed + (|c.currentItems| - c.currentIndex);
    if c.nextPage.None? then c.(numProcessed := skipped)
    else if !fetchOk then c
    else AfterFetch(c, items, pageSize).(numProcessed := skipped)
  }

  function AsItems(ids: seq<nat>): (items: seq<Item>)
    ensures |items| == |ids| && AllActivities(items)
  {
    seq(|ids|, i requires 0 <= i < |ids| => Activity(ids[i]))
  }

  // ---------------------------------------------------------------------------------------------
  // Any mix of calls

  datatype Call =
    | CallNext(fetchOk: bool)
    | CallNextPage(fetchOk: bool)
    | CallSetNextIndex(index: int)
    | Grow(more: seq<nat>)            // the server's list grows between calls

  /** The effect of `SetNextIndex`. */
  function AtIndex(c: Cursor, index: int): Cursor {
    c.(currentIndex := index, numProcessed := c.numProcessed + index - c.currentIndex)
  }

  function AfterCall(c: Cursor, items: seq<Item>, pageSize: PageSize, call: Call): Cursor {
    match call
    case CallNext(ok) => AfterNext(c, items, pageSize, ok)
    case CallNextPage(ok) => AfterNextPage(c, items, pageSize, ok)
    case CallSetNextIndex(i) => AtIndex(c, i)
    case Grow(_) => c
  }

  function ItemsAfter(items: seq<Item>, call: Call): seq<Item> {
    if call.Grow? then items + AsItems(call.more) else items
  }

  /** The index stays on the current page, and NextPage is not called behind the last page. */
  predicate InRange(c: Cursor, call: Call) {
    match call
    case CallSetNextIndex(i) => 0 <= i <= |c.currentItems|
    case CallNextPage(_) => c.nextPage.Some?
    case _ => true
  }

  ghost predicate AllInRange(c: Cursor, items: seq<Item>, pageSize: PageSize, calls: seq<Call>)
    decreases |calls|
  {
    calls == [] ||
    (InRange(c, calls[0]) &&
     AllInRange(AfterCall(c, items, pageSize, calls[0]), ItemsAfter(items, calls[0]), pageSize, calls[1..]))
  }

  /** The cursor and the server's list after a sequence of calls. */
  ghost function AfterCalls(c: Cursor, items: seq<Item>, pageSize: PageSize, calls: seq<Call>)
    : (Cursor, seq<Item>)
    decreases |calls|
  {
    if calls == [] then (c, items)
    else AfterCalls(AfterCall(c, items, pageSize, calls[0]), ItemsAfter(items, calls[0]), pageSize, calls[1..])
  }

  lemma NextPageKeepsAligned(c: Cursor, items: seq<Item>, pageSize: PageSize, fetchOk: bool)
    requires Aligned(c, items, pageSize) && c.nextPage.Some?
    ensures Aligned(AfterNextPage(c, items, pageSize, fetchOk), items, pageSize)
  {
    FetchKeepsAligned(c, items, pageSize);
  }

  lemma SetIndexKeepsAligned(c: Cursor, items: seq<Item>, pageSize: PageSize, index: int)
    requires Aligned(c, items, pageSize) && 0 <= index <= |c.currentItems|
    ensures Aligned(AfterCall(c, items, pageSize, CallSetNextIndex(index)), items, pageSize)
  {
    SetIndexAligned(c, Flat(c, items), |items|, pageSize, index);
    SameFlat(c, AtIndex(c, index), items);
  }

  lemma SetIndexAligned(c: Cursor, flat: seq<nat>, n: nat, pageSize: PageSize, index: int)
    requires AlignedTo(c, flat, n, pageSize) && 0 <= index <= |c.currentItems|
    ensures AlignedTo(AtIndex(c, index), flat, n, pageSize)
  {
  }

  lemma CallKeepsAligned(c: Cursor, items: seq<Item>, pageSize: PageSize, call: Call)
    requires Aligned(c, items, pageSize) && InRange(c, call)
    ensures Aligned(AfterCall(c, items, pageSize, call), ItemsAfter(items, call), pageSize)
  {
    match call {
      case CallNext(ok) => NextReturnsTheFlatItem(c, items, pageSize, ok);
      case CallNextPage(ok) => NextPageKeepsAligned(c, items, pageSize, ok);
      case CallSetNextIndex(i) => SetIndexKeepsAligned(c, items, pageSize, i);
      case Grow(more) => AlignedUnderGrowth(c, items, AsItems(more), pageSize);
    }
  }

  lemma {:induction false} CallsKeepAligned(c: Cursor, items: seq<Item>, pageSize: PageSize, calls: seq<Call>)
    requires Aligned(c, items, pageSize) && AllInRange(c, items, pageSize, calls)
    ensures var (d, list) := AfterCalls(c, items, pageSize, calls);
            Aligned(d, list, pageSize) && d.order == c.order && d.totalItems == c.totalItems
    decreases |calls|
  {
    if calls != [] {
      CallKeepsAligned(c, items, pageSize, calls[0]);
      CallsKeepAligned(AfterCall(c, items, pageSize, calls[0]), ItemsAfter(items, calls[0]), pageSize, calls[1..]);
    }
  }

  /** A fresh forward iterator refines a cursor over the server's list: after any mix of calls, while the
      list grows and fetches fail, the next item returned is the list's item at position `numProcessed`. */
  lemma ForwardIteratorIsACursor(items: seq<Item>, pageSize: PageSize, calls: seq<Call>)
    requires AllActivities(items)
    requires AllInRange(NewCursor(Forward, |items|, pageSize), items, pageSize, calls)
    ensures var (c, list) := AfterCalls(NewCursor(Forward, |items|, pageSize), items, pageSize, calls);
            && c.totalItems == |items|
            && Aligned(c, list, pageSize)
            && 0 <= c.numProcessed
            && NextResult(c, list, pageSize, true) ==
               (if c.numProcessed < |items| then Ok(list[c.numProcessed].id) else Err(NotFound))
  {
    var c0 := NewCursor(Forward, |items|, pageSize);
    NewCursorIsAligned(Forward, items, pageSize);
    CallsKeepAligned(c0, items, pageSize, calls);
    var (c, list) := AfterCalls(c0, items, pageSize, calls);
    NextReturnsTheFlatItem(c, list, pageSize, true);
    IdsOfActivities(list);
  }

  // ---------------------------------------------------------------------------------------------
  // Where the iterator says it is

  /** The current items are the items of the current page, as many as there were when it was fetched. */
  ghost predicate Located(c: Cursor, pageSize: PageSize) {
    if c.currentPage.None? then c.currentItems == []
    else
      var start := Offset(pageSize, Number(c.currentPage.value));
      && |c.currentItems| <= pageSize
      && (c.order.Forward? ==> c.base == start)
      && (c.order.Reverse? ==> c.walked.Some? && c.walked.value - End(c) == start)
  }

  /** A page names itself, also when it was asked for without a number. */
  lemma ServedCurrent(items: seq<Item>, pageSize: PageSize, link: PageRef)
    ensures Serve(items, pageSize, link).current == PageNum(if link.FirstPage? then 0 else link.n)
  {
  }

  lemma ForwardFetchLocates(c: Cursor, items: seq<Item>, pageSize: PageSize)
    requires c.order.Forward? && Aligned(c, items, pageSize) && c.nextPage.Some?
    ensures Located(AfterFetch(c, items, pageSize), pageSize)
  {
    ServedForward(items, pageSize, c.nextPage.value);
    ServedCurrent(items, pageSize, c.nextPage.value);
  }

  lemma ReverseFetchLocates(c: Cursor, items: seq<Item>, pageSize: PageSize)
    requires c.order.Reverse? && Aligned(c, items, pageSize) && c.nextPage.Some?
    ensures Located(AfterFetch(c, items, pageSize), pageSize)
  {
    var k := Number(c.nextPage.value);
    var m := if c.walked.Some? then c.walked.value else PageEnd(|items|, pageSize, k);
    ReverseBounds(c, |items|, pageSize, k, m);
    ReverseLinkInRange(c, |items|, pageSize);
    ServedPrev(items, pageSize, c.nextPage.value);
    ReversedPage(items, pageSize, k, m);
    ServedCurrent(items, pageSize, c.nextPage.value);
    ReverseLocated(c, Serve(items, pageSize, c.nextPage.value), |items|, pageSize, k, m);
  }

  lemma ReverseLocated(c: Cursor, page: Page, n: nat, pageSize: PageSize, k: nat, m: nat)
    requires c.order.Reverse? && page.current == PageNum(k)
    requires var from, to := PageStart(n, pageSize, k), PageEnd(n, pageSize, k);
             && |Reversed(Ids(page.items))| == to - from && from == Offset(pageSize, k) && m - to == End(c)
             && m == if c.walked.Some? then c.walked.value else to
    ensures Located(Advanced(c, page, PageEnd(n, pageSize, k)), pageSize)
  {
  }

  /** The fetched page becomes the current one. */
  lemma FetchLocates(c: Cursor, items: seq<Item>, pageSize: PageSize)
    requires Aligned(c, items, pageSize) && c.nextPage.Some?
    ensures var d := AfterFetch(c, items, pageSize);
            && Located(d, pageSize)
            && d.currentPage.Some? && Number(d.currentPage.value) == Number(c.nextPage.value)
  {
    ServedCurrent(items, pageSize, c.nextPage.value);
    if c.order.Forward? {
      ForwardFetchLocates(c, items, pageSize);
    } else {
      ReverseFetchLocates(c, items, pageSize);
    }
  }

  /** Where item j of the current items stands on the current page: reverse iteration counts from its end. */
  function PositionOnPage(c: Cursor, j: int): int {
    if c.order.Forward? then j else |c.currentItems| - 1 - j
  }

  lemma ItemOnPage(items: seq<Item>, pageSize: PageSize, k: nat, p: nat)
    requires p < pageSize && Offset(pageSize, k) + p < |items|
    ensures p < |PageItems(items, pageSize, k)| && PageItems(items, pageSize, k)[p] == items[Offset(pageSize, k) + p]
  {
  }

  lemma ItemIsOnTheCurrentPage(c: Cursor, items: seq<Item>, pageSize: PageSize, j: nat)
    requires Aligned(c, items, pageSize) && Located(c, pageSize) && j < |c.currentItems|
    ensures c.currentPage.Some?
    ensures var page, p := PageItems(items, pageSize, Number(c.currentPage.value)), PositionOnPage(c, j);
            0 <= p < |page| && page[p] == Activity(c.currentItems[j])
  {
    var k, p := Number(c.currentPage.value), PositionOnPage(c, j);
    IdsOfActivities(items);
    if c.order.Forward? {
      assert c.currentItems[j] == Ids(items)[c.base + j];
    } else {
      BackwardsAt(Ids(items), c.walked.value);
      assert c.currentItems[j] == Backwards(Ids(items), c.walked.value)[c.base + j];
    }
    ItemOnPage(items, pageSize, k, p);
  }

  /** The item just returned stands on the page the iterator names as the current one, at the index before the next
      one (counted from the end in reverse). Going forward, page and index give the number of items processed, so
      the walk can be resumed from them. */
  ghost predicate ReturnedFrom(c: Cursor, items: seq<Item>, pageSize: PageSize, id: nat) {
    && c.currentPage.Some?
    && var k, p := Number(c.currentPage.value), PositionOnPage(c, c.currentIndex - 1);
    && 0 <= p < |PageItems(items, pageSize, k)| && PageItems(items, pageSize, k)[p] == Activity(id)
    && (c.order.Forward? ==> c.numProcessed == Offset(pageSize, k) + c.currentIndex)
  }

  lemma TakenFromThePage(c: Cursor, items: seq<Item>, pageSize: PageSize)
    requires Aligned(c, items, pageSize) && Located(c, pageSize) && c.currentIndex < |c.currentItems|
    ensures Located(AfterTake(c), pageSize)
    ensures ReturnedFrom(AfterTake(c), items, pageSize, c.currentItems[c.currentIndex])
  {
    ItemIsOnTheCurrentPage(c, items, pageSize, c.currentIndex);
  }

  /** While there are items left, the page the next one is taken from is located. */
  lemma ReadyIsLocated(c: Cursor, items: seq<Item>, pageSize: PageSize)
    requires Aligned(c, items, pageSize) && Located(c, pageSize) && c.numProcessed < c.totalItems
    ensures c.currentIndex < |c.currentItems| || c.nextPage.Some?
    ensures Located(Ready(c, items, pageSize), pageSize)
  {
    ReadyHasItem(c, items, pageSize);
    if c.currentIndex >= |c.currentItems| {
      FetchLocates(c, items, pageSize);
    }
  }

  /** Next is taking an item from the page that is ready, or nothing. */
  lemma NextTakesOrStays(c: Cursor, items: seq<Item>, pageSize: PageSize, fetchOk: bool, ready: Cursor)
    requires c.currentIndex >= 0
    requires c.numProcessed < c.totalItems ==>
               && (c.currentIndex < |c.currentItems| || c.nextPage.Some?)
               && ready == Ready(c, items, pageSize) && 0 <= ready.currentIndex < |ready.currentItems|
               && (c.currentIndex >= |c.currentItems| ==> ready.currentIndex == 0)
    ensures var r, d := NextResult(c, items, pageSize, fetchOk), AfterNext(c, items, pageSize, fetchOk);
            && (r.Err? ==> d == c)
            && (r.Ok? ==> c.numProcessed < c.totalItems && d == AfterTake(ready)
                          && r.value == ready.currentItems[ready.currentIndex])
  {
  }

  /** In both orders, Next returns an item of the page that the iterator then names. */
  lemma NextItemIsWhereItSays(c: Cursor, items: seq<Item>, pageSize: PageSize, fetchOk: bool)
    requires Aligned(c, items, pageSize) && Located(c, pageSize)
    ensures var r, d := NextResult(c, items, pageSize, fetchOk), AfterNext(c, items, pageSize, fetchOk);
            Located(d, pageSize) && (r.Ok? ==> ReturnedFrom(d, items, pageSize, r.value))
  {
    var ready := c;
    if c.numProcessed < c.totalItems {
      ReadyHasItem(c, items, pageSize);
      ReadyIsLocated(c, items, pageSize);
      ready := Ready(c, items, pageSize);
      TakenFromThePage(ready, items, pageSize);
    }
    NextTakesOrStays(c, items, pageSize, fetchOk, ready);
  }

  lemma CallKeepsLocated(c: Cursor, items: seq<Item>, pageSize: PageSize, call: Call)
    requires Aligned(c, items, pageSize) && Located(c, pageSize) && InRange(c, call)
    ensures Located(AfterCall(c, items, pageSize, call), pageSize)
  {
    match call {
      case CallNext(ok) => NextItemIsWhereItSays(c, items, pageSize, ok);
      case CallNextPage(ok) => FetchLocates(c, items, pageSize);
      case CallSetNextIndex(_) =>
      case Grow(_) =>
    }
  }

  lemma {:induction false} CallsKeepLocated(c: Cursor, items: seq<Item>, pageSize: PageSize, calls: seq<Call>)
    requires Aligned(c, items, pageSize) && Located(c, pageSize) && AllInRange(c, items, pageSize, calls)
    ensures Located(AfterCalls(c, items, pageSize, calls).0, pageSize)
    decreases |calls|
  {
    if calls != [] {
      CallKeepsAligned(c, items, pageSize, calls[0]);
      CallKeepsLocated(c, items, pageSize, calls[0]);
      CallsKeepLocated(AfterCall(c, items, pageSize, calls[0]), ItemsAfter(items, calls[0]), pageSize, calls[1..]);
    }
  }

  /** A fresh iterator of either order knows its place after any mix of calls: the next item it returns stands on the
      page it then names, at the index it has just passed. */
  lemma IteratorKnowsItsPlace(order: Order, items: seq<Item>, pageSize: PageSize, calls: seq<Call>)
    requires AllActivities(items)
    requires AllInRange(NewCursor(order, |items|, pageSize), items, pageSize, calls)
    ensures var (c, list) := AfterCalls(NewCursor(order, |items|, pageSize), items, pageSize, calls);
            && 0 <= c.currentIndex
            && var r := NextResult(c, list, pageSize, true);
            r.Ok? ==> ReturnedFrom(AfterNext(c, list, pageSize, true), list, pageSize, r.value)
  {
    var c0 := NewCursor(order, |items|, pageSize);
    NewCursorIsAligned(order, items, pageSize);
    CallsKeepAligned(c0, items, pageSize, calls);
    CallsKeepLocated(c0, items, pageSize, calls);
    var (c, list) := AfterCalls(c0, items, pageSize, calls);
    NextItemIsWhereItSays(c, list, pageSize, true);
  }

  /** NextPage behind the last page: the rest of the page counts as processed, so Next returns nothing any more. The
      index stays where it was, so the iterator is still a cursor over its list exactly if nothing was skipped. */
  lemma NextPageBehindTheLast(c: Cursor, items: seq<Item>, pageSize: PageSize, fetchOk: bool)
    requires Aligned(c, items, pageSize) && c.nextPage.None?
    ensures var d := AfterNextPage(c, items, pageSize, fetchOk);
            && d == c.(numProcessed := c.base + |c.currentItems|) && c.totalItems <= d.numProcessed
            && NextResult(d, items, pageSize, fetchOk) == Err(NotFound)
            && (Aligned(d, items, pageSize) <==> c.currentIndex == |c.currentItems|)
  {
    SameFlat(c, AfterNextPage(c, items, pageSize, fetchOk), items);
  }

  // ---------------------------------------------------------------------------------------------
  // The iterator

  /** The loop of `getNextPage` over a page's items. */
  method CollectActivities(items: seq<Item>, order: Order) returns (activities: seq<nat>)
    ensures activities == Collected(items, order)
  {
    activities := [];
    for i := 0 to |items|
      invariant activities == if order.Forward? then IdsUpTo(items, i) else Reversed(IdsUpTo(items, i))
    {
      var item := items[i];
      if item.Activity? {
        ReversedSnoc(IdsUpTo(items, i), item.id);
        activities := if order.Forward? then activities + [item.id] else [item.id] + activities;
      } else {
        assert IdsUpTo(items, i + 1) == IdsUpTo(items, i);
      }
    }
  }

  class ActivityIterator {
    const order: Order
    const totalItems: nat
    var currentItems: seq<nat>
    var currentPage: Option<PageRef>
    var nextPage: Option<PageRef>
    var currentIndex: int
    var numProcessed: int
    ghost var base: nat
    ghost var walked: Option<nat>

    ghost function View(): Cursor
      reads this
    {
      Cursor(order, totalItems, currentItems, currentPage, nextPage, currentIndex, numProcessed, base, walked)
    }

    constructor FromCollection(order: Order, server: Server)
      ensures View() == NewCursor(order, |server.items|, server.pageSize)
    {
      this.order := order;
      totalItems := |server.items|;
      currentItems, currentPage := [], None;
      nextPage := Some(if order.Forward? then FirstPage else LastPage(|server.items|, server.pageSize));
      currentIndex, numProcessed := 0, 0;
      base, walked := 0, None;
    }

    /** `SetNextIndex`: an index within the current page moves the cursor within that page. */
    method SetNextIndex(index: int)
      modifies this`numProcessed, this`currentIndex
      ensures View() == AtIndex(old(View()), index)
      ensures forall items, pageSize ::
                Aligned(old(View()), items, pageSize) && 0 <= index <= |currentItems| ==>
                  Aligned(View(), items, pageSize)
    {
      ghost var before := View();
      numProcessed := numProcessed + (index - currentIndex);
      currentIndex := index;
      forall items, pageSize | Aligned(before, items, pageSize) && 0 <= index <= |currentItems|
        ensures Aligned(View(), items, pageSize)
      {
        SetIndexKeepsAligned(before, items, pageSize, index);
      }
    }

    /** `getNextPage`: fetch the page behind the next link and make it the current one. */
    method GetNextPage(server: Server, fetchOk: bool) returns (err: Option<Error>)
      modifies this
      ensures numProcessed == old(numProcessed)
      ensures old(nextPage).None? ==> err == Some(NotFound) && View() == old(View())
      ensures old(nextPage).Some? && !fetchOk ==> err == Some(FetchFailed) && View() == old(View())
      ensures old(nextPage).Some? && fetchOk ==>
                && View() == AfterFetch(old(View()), server.items, server.pageSize)
                && currentPage.Some? && Number(currentPage.value) == Number(old(nextPage).value)
                && err == (if currentItems == [] then Some(NotFound) else None)
    {
      if nextPage.None? {
        return Some(NotFound);
      }
      if !fetchOk {
        return Some(FetchFailed);
      }
      var page := Serve(server.items, server.pageSize, nextPage.value);
      ServedCurrent(server.items, server.pageSize, nextPage.value);
      var activities := CollectActivities(page.items, order);
      ghost var after := Advanced(View(), page, PageEnd(|server.items|, server.pageSize, Number(nextPage.value)));
      currentIndex := 0;
      currentItems := activities;
      currentPage := Some(page.current);
      nextPage := if order.Forward? then page.next else page.prev;
      base, walked := after.base, after.walked;
      return if currentItems == [] then Some(NotFound) else None;
    }

    method NextPage(server: Server, fetchOk: bool) returns (r: Result<PageRef, Error>)
      modifies this
      ensures View() == AfterNextPage(old(View()), server.items, server.pageSize, fetchOk)
      ensures r == Err(FetchFailed) <==> old(nextPage).Some? && !fetchOk
      ensures r.Ok? <==> old(nextPage).Some? && fetchOk && currentItems != []
      ensures r.Ok? ==> currentPage == Some(r.value) && Number(r.value) == Number(old(nextPage).value)
    {
      var unprocessedCount := |currentItems| - currentIndex;
      var err := GetNextPage(server, fetchOk);
      if err.Some? {
        if err.value == NotFound {
          numProcessed := numProcessed + unprocessedCount;
        }
        return Err(err.value);
      }
      numProcessed := numProcessed + unprocessedCount;
      return Ok(currentPage.value);
    }

    /** A negative index, which `SetNextIndex` accepts, would make this call panic. */
    method Next(server: Server, fetchOk: bool) returns (r: Result<nat, Error>)
      requires currentIndex >= 0
      modifies this
      ensures View() == AfterNext(old(View()), server.items, server.pageSize, fetchOk)
      ensures r == NextResult(old(View()), server.items, server.pageSize, fetchOk)
    {
      if numProcessed >= totalItems {
        return Err(NotFound);
      }
      if currentIndex >= |currentItems| {
        var err := GetNextPage(server, fetchOk);
        if err.Some? {
          return Err(err.value);
        }
      }
      var item := currentItems[currentIndex];
      currentIndex := currentIndex + 1;
      numProcessed := numProcessed + 1;
      return Ok(item);
    }
  }

  // ---------------------------------------------------------------------------------------------
  // Reading everything

  /** What happens around one call: the server's list grows, and a fetch may fail. */
  datatype Weather = Weather(growth: seq<nat>, fetchOk: bool)

  /** Since position `start` of `flat`, up to position `now`, the iterator has returned `read`. */
  ghost predicate HasReadFrom(flat: seq<nat>, now: int, start: nat, read: seq<nat>) {
    now == start + |read| <= |flat| && read == flat[start..start + |read|]
  }

  ghost predicate HasRead(c: Cursor, items: seq<Item>, start: nat, read: seq<nat>) {
    HasReadFrom(Flat(c, items), c.numProcessed, start, read)
  }

  lemma HasReadUnderGrowth(c: Cursor, items: seq<Item>, more: seq<Item>, pageSize: PageSize,
                           start: nat, read: seq<nat>)
    requires Aligned(c, items, pageSize) && AllActivities(more) && HasRead(c, items, start, read)
    ensures Aligned(c, items + more, pageSize) && HasRead(c, items + more, start, read)
  {
    AlignedUnderGrowth(c, items, more, pageSize);
    HasReadOfPrefix(Flat(c, items), Flat(c, items + more), c.numProcessed, start, read);
  }

  lemma HasReadOfPrefix(flat: seq<nat>, longer: seq<nat>, now: int, start: nat, read: seq<nat>)
    requires HasReadFrom(flat, now, start, read) && flat <= longer
    ensures HasReadFrom(longer, now, start, read)
  {
  }

  lemma HasReadNext(flat: seq<nat>, now: int, start: nat, read: seq<nat>, next: nat)
    requires HasReadFrom(flat, now, start, read) && now < |flat| && next == flat[now]
    ensures HasReadFrom(flat, now + 1, start, read + [next])
  {
  }

  lemma HasReadOneMore(c: Cursor, d: Cursor, items: seq<Item>, pageSize: PageSize,
                       start: nat, read: seq<nat>, next: nat)
    requires Aligned(c, items, pageSize) && Aligned(d, items, pageSize) && HasRead(c, items, start, read)
    requires d.order == c.order && (c.walked.Some? ==> d.walked == c.walked)
    requires d.numProcessed == c.numProcessed + 1 <= |Flat(d, items)|
    requires next == Flat(d, items)[c.numProcessed]
    ensures HasRead(d, items, start, read + [next])
  {
    if c.order.Forward? || c.walked.Some? {
      SameFlat(c, d, items);
    } else {
      assert Flat(c, items) == [] && read == [] && start == 0;
    }
    HasReadNext(Flat(d, items), c.numProcessed, start, read, next);
  }

  /** How many activities are read: all that are left, or at most `maxItems` if that is positive. */
  function ReadCount(maxItems: int, left: int): int {
    if maxItems <= 0 then left else Min(maxItems, left)
  }

  /** In reverse: what is walked back was fixed by the end of page `link` when that page was read, at a
      time when the list had between `low` and `high` items. */
  ghost predicate WalkFixed(walked: Option<nat>, link: PageRef, low: nat, high: nat, pageSize: PageSize) {
    exists n :: low <= n <= high && walked == Some(PageEnd(n, pageSize, Number(link)))
  }

  /** The walk of an iterator that started as `first` and has read something is fixed. */
  ghost predicate WalkKnown(first: Cursor, c: Cursor, low: nat, high: nat, pageSize: PageSize, read: seq<nat>) {
    first.order.Reverse? && first.walked.None? && first.nextPage.Some? && read != [] ==>
      WalkFixed(c.walked, first.nextPage.value, low, high, pageSize)
  }

  lemma WalkStep(first: Cursor, c: Cursor, d: Cursor, low: nat, size: nat, high: nat, pageSize: PageSize,
                 read: seq<nat>, next: nat)
    requires low <= size <= high && (read == [] ==> c == first)
    requires WalkKnown(first, c, low, size, pageSize, read)
    requires c.walked.Some? ==> d.walked == c.walked
    requires first.order.Reverse? && c.walked.None? ==>
               c.nextPage.Some? && d.walked == Some(PageEnd(high, pageSize, Number(c.nextPage.value)))
    ensures WalkKnown(first, d, low, high, pageSize, read + [next])
  {
    if first.order.Reverse? && first.walked.None? && first.nextPage.Some? {
      if read == [] {
        assert d.walked == Some(PageEnd(high, pageSize, Number(first.nextPage.value)));
      } else {
        var n :| low <= n <= size && c.walked == Some(PageEnd(n, pageSize, Number(first.nextPage.value)));
        assert d.walked == Some(PageEnd(n, pageSize, Number(first.nextPage.value)));
      }
    }
  }

  /** An iterator that stood at `first` when the list had `low` items, and has read `read` since. */
  ghost predicate Reading(first: Cursor, low: nat, c: Cursor, items: seq<Item>, pageSize: PageSize, read: seq<nat>)
    requires first.numProcessed >= 0
  {
    && Aligned(c, items, pageSize) && HasRead(c, items, first.numProcessed, read)
    && c.numProcessed <= c.totalItems == first.totalItems && c.order == first.order && low <= |items|
    && (read == [] ==> c == first)
    && WalkKnown(first, c, low, |items|, pageSize, read)
  }

  lemma ReadingUnderGrowth(first: Cursor, low: nat, c: Cursor, items: seq<Item>, more: seq<Item>,
                           pageSize: PageSize, read: seq<nat>)
    requires first.numProcessed >= 0 && Reading(first, low, c, items, pageSize, read) && AllActivities(more)
    ensures Reading(first, low, c, items + more, pageSize, read)
  {
    HasReadUnderGrowth(c, items, more, pageSize, first.numProcessed, read);
    WalkStays(first, c, low, |items|, |items + more|, pageSize, read);
  }

  lemma WalkStays(first: Cursor, c: Cursor, low: nat, size: nat, high: nat, pageSize: PageSize, read: seq<nat>)
    requires size <= high && WalkKnown(first, c, low, size, pageSize, read)
    ensures WalkKnown(first, c, low, high, pageSize, read)
  {
  }

  /** One call of Next: what has been read grows by the item that is returned, and by nothing on an error. */
  lemma ReadingStep(first: Cursor, low: nat, c: Cursor, items: seq<Item>, pageSize: PageSize, read: seq<nat>,
                    fetchOk: bool)
    requires first.numProcessed >= 0 && Reading(first, low, c, items, pageSize, read)
    ensures var r, d := NextResult(c, items, pageSize, fetchOk), AfterNext(c, items, pageSize, fetchOk);
            && Reading(first, low, d, items, pageSize, if r.Ok? then read + [r.value] else read)
            && (r == Err(NotFound) <==> c.numProcessed == c.totalItems)
            && (r == Err(FetchFailed) ==> !fetchOk)
            && (r.Ok? ==> d.numProcessed == c.numProcessed + 1)
  {
    var r, d := NextResult(c, items, pageSize, fetchOk), AfterNext(c, items, pageSize, fetchOk);
    NextReturnsTheFlatItem(c, items, pageSize, fetchOk);
    NextFixesTheWalk(c, items, pageSize, fetchOk);
    if r.Ok? {
      HasReadOneMore(c, d, items, pageSize, first.numProcessed, read, r.value);
      WalkStep(first, c, d, low, |items|, |items|, pageSize, read, r.value);
    }
  }

  /** The server's list grows, then the client calls Next. */
  method GrowThenNext(it: ActivityIterator, server: Server, weather: Weather,
                      ghost first: Cursor, ghost low: nat, ghost read: seq<nat>)
    returns (r: Result<nat, Error>)
    requires first.numProcessed >= 0 && Reading(first, low, it.View(), server.items, server.pageSize, read)
    modifies it, server
    ensures server.items == old(server.items) + AsItems(weather.growth)
    ensures Reading(first, low, it.View(), server.items, server.pageSize, if r.Ok? then read + [r.value] else read)
    ensures r == Err(NotFound) <==> old(it.numProcessed) == it.totalItems
    ensures r == Err(FetchFailed) ==> !weather.fetchOk
    ensures r.Ok? ==> it.numProcessed == old(it.numProcessed) + 1
  {
    ghost var before := it.View();
    ReadingUnderGrowth(first, low, before, server.items, AsItems(weather.growth), server.pageSize, read);
    server.Append(AsItems(weather.growth));
    ReadingStep(first, low, before, server.items, server.pageSize, read, weather.fetchOk);
    r := it.Next(server, weather.fetchOk);
  }

  /** `ReadActivities`, with the server's list growing before every call of Next. If no fetch fails the
      result is the flat list from the current position on, cut at `maxItems` and at the number of items
      the collection had when the iterator was created, however much the list grows meanwhile. */
  method ReadActivities(it: ActivityIterator, server: Server, maxItems: int, weather: nat -> Weather)
    returns (r: Result<seq<nat>, Error>)
    requires Aligned(it.View(), server.items, server.pageSize) && it.numProcessed <= it.totalItems
    modifies it, server
    ensures old(server.items) <= server.items
    ensures Aligned(it.View(), server.items, server.pageSize)
    ensures r.Err? ==> r.error == FetchFailed && exists k :: !weather(k).fetchOk
    ensures r.Ok? ==>
              && |r.value| == ReadCount(maxItems, it.totalItems - old(it.numProcessed))
              && Reading(old(it.View()), |old(server.items)|, it.View(), server.items, server.pageSize, r.value)
  {
    ghost var first, low := it.View(), |server.items|;
    var activities: seq<nat> := [];
    var call := 0;
    while maxItems <= 0 || |activities| < maxItems
      invariant old(server.items) <= server.items
      invariant Reading(first, low, it.View(), server.items, server.pageSize, activities)
      invariant maxItems > 0 ==> |activities| <= maxItems
      decreases it.totalItems - it.numProcessed
    {
      var activity := GrowThenNext(it, server, weather(call), first, low, activities);
      if activity.Err? {
        if activity.error == NotFound {
          break;
        }
        return Err(activity.error);
      }
      activities := activities + [activity.value];
      call := call + 1;
    }
    return Ok(activities);
  }

  // ---------------------------------------------------------------------------------------------
  // Plain iteration of a fresh iterator

  /** Going forward, reading everything yields exactly the items the collection had at the start, in
      order, even though the list grew meanwhile. */
  lemma ForwardReadsTheCollection(c: Cursor, before: seq<Item>, items: seq<Item>, read: seq<nat>)
    requires c.order.Forward? && AllActivities(items) && before <= items
    requires c.totalItems == |before| && |read| == ReadCount(0, c.totalItems)
    requires HasRead(c, items, 0, read)
    ensures read == Ids(before)
  {
    assert items == before + items[|before|..];
    IdsOfPrefix(before, items[|before|..]);
  }

  /** `read` is the first `count` elements, backwards, of the first m items. */
  ghost predicate ReadBack(items: seq<Item>, m: nat, count: nat, read: seq<nat>) {
    && count <= m <= |items| && |read| == count
    && m <= |Ids(items)| && |Backwards(Ids(items), m)| == m && read == Backwards(Ids(items), m)[..count]
  }

  /** Going backward, reading everything yields as many items as the collection had, namely the first ones
      of the walked prefix backwards. If the list did not grow past the collection before the first page
      was read this is the whole collection backwards; otherwise the earliest items are missed. */
  lemma ReverseReadsTheWalkedPrefix(c: Cursor, items: seq<Item>, pageSize: PageSize, read: seq<nat>)
    requires c.order.Reverse? && Aligned(c, items, pageSize) && c.walked.Some?
    requires |read| == c.totalItems && HasRead(c, items, 0, read)
    ensures c.walked.value <= |items| && ReadBack(items, c.walked.value, c.totalItems, read)
  {
    IdsOfActivities(items);
    BackwardsAt(Ids(items), c.walked.value);
  }

  /** Item by item. */
  lemma ReadBackItems(items: seq<Item>, m: nat, count: nat, read: seq<nat>)
    requires AllActivities(items) && ReadBack(items, m, count, read)
    ensures forall i :: 0 <= i < count ==> read[i] == items[m - 1 - i].id
  {
    IdsOfActivities(items);
    BackwardsAt(Ids(items), m);
  }

  /** A client reads a whole collection while the server's list grows and fetches may fail. Forward it gets
      the collection as it was at the start. In reverse it gets as many items from the walked prefix
      backwards, where that prefix ends with the collection's last page as it was when it was read. */
  method ReadCollection(server: Server, order: Order, weather: nat -> Weather)
    returns (r: Result<seq<nat>, Error>)
    requires AllActivities(server.items)
    modifies server
    ensures old(server.items) <= server.items && AllActivities(server.items)
    ensures r.Err? ==> r.error == FetchFailed && exists k :: !weather(k).fetchOk
    ensures r.Ok? && order.Forward? ==> r.value == Ids(old(server.items))
    ensures r.Ok? && order.Reverse? && old(server.items) != [] ==>
              exists n :: |old(server.items)| <= n <= |server.items| &&
                ReadInReverse(server.items, n, |old(server.items)|, server.pageSize, r.value)
    ensures r.Ok? && old(server.items) == [] ==> r.value == []
  {
    var it := new ActivityIterator.FromCollection(order, server);
    NewCursorIsAligned(order, server.items, server.pageSize);
    r := ReadActivities(it, server, 0, weather);
    if r.Ok? {
      if order.Forward? {
        ForwardReadsTheCollection(it.View(), old(server.items), server.items, r.value);
      } else if r.value != [] {
        ReverseReadsTheCollection(it.View(), |old(server.items)|, server.items, server.pageSize, r.value);
      }
    }
  }

  /** The last page of a collection that is not empty. */
  lemma LastPageNumber(totalItems: nat, pageSize: PageSize)
    requires totalItems > 0
    ensures var last := GetLastPageNum(totalItems, pageSize, Ascending);
            last >= 0 && LastPage(totalItems, pageSize) == PageNum(last)
  {
    HighestPageAtLeast(totalItems, pageSize, 0);
  }

  /** With the walk fixed by fetching the collection's last page, the walked prefix is the one `ReadInReverse`
      names. */
  lemma ReverseReadsTheCollection(c: Cursor, totalItems: nat, items: seq<Item>, pageSize: PageSize, read: seq<nat>)
    requires c.order.Reverse? && c.totalItems == totalItems && Aligned(c, items, pageSize)
    requires WalkFixed(c.walked, LastPage(totalItems, pageSize), totalItems, |items|, pageSize)
    requires |read| == totalItems > 0 && HasRead(c, items, 0, read)
    ensures exists n :: totalItems <= n <= |items| && ReadInReverse(items, n, totalItems, pageSize, read)
  {
    LastPageNumber(totalItems, pageSize);
    var last := GetLastPageNum(totalItems, pageSize, Ascending);
    ReverseReadsUpTo(c, totalItems, items, pageSize, read, last);
    var n :| totalItems <= n <= |items| && ReadBack(items, PageEnd(n, pageSize, last), totalItems, read);
    OffsetIsProduct(pageSize, last + 1);
    assert ReadInReverse(items, n, totalItems, pageSize, read);
  }

  lemma ReverseReadsUpTo(c: Cursor, totalItems: nat, items: seq<Item>, pageSize: PageSize, read: seq<nat>, last: nat)
    requires c.order.Reverse? && c.totalItems == totalItems && Aligned(c, items, pageSize)
    requires WalkFixed(c.walked, PageNum(last), totalItems, |items|, pageSize)
    requires |read| == totalItems && HasRead(c, items, 0, read)
    ensures exists n :: totalItems <= n <= |items| && ReadBack(items, PageEnd(n, pageSize, last), totalItems, read)
  {
    ReverseReadsTheWalkedPrefix(c, items, pageSize, read);
    var n :| totalItems <= n <= |items| && c.walked == Some(PageEnd(n, pageSize, last));
    assert ReadBack(items, PageEnd(n, pageSize, last), totalItems, read);
  }

  /** `read` is the first `totalItems` elements, backwards, of the items up to the end of the page that was
      last when the collection had `totalItems` items, as that page was when the list had `n`. */
  ghost predicate ReadInReverse(items: seq<Item>, n: nat, totalItems: nat, pageSize: PageSize, read: seq<nat>) {
    var m := Min((GetLastPageNum(totalItems, pageSize, Ascending) + 1) * pageSize, n);
    m >= 0 && ReadBack(items, m, totalItems, read)
  }
}
