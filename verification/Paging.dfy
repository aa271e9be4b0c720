/** Page numbers of ActivityPub collections (pkg/activitypub/resthandler/resthandler.go), as in section 5
    of the W3C ActivityPub recommendation. A page number of -1 means "no such page". */
module Paging {

  datatype SortOrder = Ascending | Descending

  type PageSize = n: int | 0 < n witness 1

  function HighestPage(totalItems: nat, pageSize: PageSize): int {
    if totalItems % pageSize > 0 then totalItems / pageSize else totalItems / pageSize - 1
  }

  function GetFirstPageNum(totalItems: nat, pageSize: PageSize, order: SortOrder): int {
    if order.Ascending? then 0 else HighestPage(totalItems, pageSize)
  }

  function GetLastPageNum(totalItems: nat, pageSize: PageSize, order: SortOrder): int {
    if order.Descending? then 0 else HighestPage(totalItems, pageSize)
  }

  datatype Neighbours = Neighbours(prev: int, next: int)

  function GetPrevNextAscending(current: int, first: int, last: int): Neighbours {
    var next := if current < last then current + 1 else -1;
    var prev := if current > first then (if current > last then last else current - 1) else -1;
    Neighbours(prev, next)
  }

  function GetPrevNextDescending(current: int, first: int, last: int): Neighbours {
    var next := if current > last then (if current > first then first else current - 1) else -1;
    var prev := if current < first then current + 1 else -1;
    Neighbours(prev, next)
  }

  /** `getCurrentPrevNext`: a negative requested page number means the first page. */
  function CurrentPage(totalItems: nat, pageSize: PageSize, requested: int, order: SortOrder): int {
    if requested >= 0 then requested else GetFirstPageNum(totalItems, pageSize, order)
  }

  function PrevNext(totalItems: nat, pageSize: PageSize, requested: int, order: SortOrder): Neighbours {
    var first := GetFirstPageNum(totalItems, pageSize, order);
    var last := GetLastPageNum(totalItems, pageSize, order);
    var current := CurrentPage(totalItems, pageSize, requested, order);
    if order.Descending? then GetPrevNextDescending(current, first, last)
    else GetPrevNextAscending(current, first, last)
  }

  // ---------------------------------------------------------------------------------------------
  // Page contents

  function Min(a: int, b: int): int {
    if a < b then a else b
  }

  /** Where page k starts: at k * pageSize. */
  function Offset(pageSize: PageSize, k: nat): nat {
    if k == 0 then 0 else Offset(pageSize, k - 1) + pageSize
  }

  lemma {:induction false} OffsetIsProduct(pageSize: PageSize, k: nat)
    ensures Offset(pageSize, k) == k * pageSize
  {
    if k > 0 {
      OffsetIsProduct(pageSize, k - 1);
      assert k * pageSize == (k - 1) * pageSize + pageSize;
    }
  }

  /** The items from the start of page k up to the start of the next page, cut off at the end of the list. */
  function PageItems<T>(items: seq<T>, pageSize: PageSize, k: nat): seq<T> {
    var from := Offset(pageSize, k);
    if from >= |items| then [] else items[from..Min(from + pageSize, |items|)]
  }

  /** The highest page is the one that holds the last item. */
  lemma HighestPageBounds(totalItems: nat, pageSize: PageSize)
    ensures var h := HighestPage(totalItems, pageSize);
            h * pageSize < totalItems <= (h + 1) * pageSize || (totalItems == 0 && h == -1)
  {
    var q, r := totalItems / pageSize, totalItems % pageSize;
    assert totalItems == q * pageSize + r;
    assert (q + 1) * pageSize == q * pageSize + pageSize;
    assert (q - 1) * pageSize == q * pageSize - pageSize;
    if totalItems == 0 {
    } else if q == 0 {
      assert r > 0;
    }
  }

  lemma HighestPageAtLeast(totalItems: nat, pageSize: PageSize, k: nat)
    ensures k <= HighestPage(totalItems, pageSize) <==> Offset(pageSize, k) < totalItems
  {
    OffsetIsProduct(pageSize, k);
    var h := HighestPage(totalItems, pageSize);
    HighestPageBounds(totalItems, pageSize);
    if k <= h {
      MulMonotone(k, h, pageSize);
    } else {
      MulMonotone(h + 1, k, pageSize);
    }
  }

  lemma MulMonotone(a: int, b: int, c: PageSize)
    requires a <= b
    ensures a * c <= b * c
  {
    assert (b - a) * c >= 0;
  }

  // ---------------------------------------------------------------------------------------------
  // Walking the links

  /** The pages visited by following `next` from page k of an ascending collection. */
  ghost function NextWalk(totalItems: nat, pageSize: PageSize, k: nat): (pages: seq<int>)
    decreases HighestPage(totalItems, pageSize) - k
  {
    var next := PrevNext(totalItems, pageSize, k, Ascending).next;
    if next < 0 then [k] else [k] + NextWalk(totalItems, pageSize, next)
  }

  /** The pages visited by following `prev` from page k of an ascending collection. */
  ghost function PrevWalk(totalItems: nat, pageSize: PageSize, k: nat): (pages: seq<int>)
    decreases k
  {
    var prev := PrevNext(totalItems, pageSize, k, Ascending).prev;
    if prev < 0 then [k] else [k] + PrevWalk(totalItems, pageSize, prev)
  }

  ghost function Flatten<T>(items: seq<T>, pageSize: PageSize, pages: seq<int>): seq<T>
    requires forall i :: 0 <= i < |pages| ==> pages[i] >= 0
  {
    if pages == [] then [] else PageItems(items, pageSize, pages[0]) + Flatten(items, pageSize, pages[1..])
  }

  /** Following `next` visits consecutive pages up to the highest one, and nothing else. */
  lemma {:induction false} NextWalkIsConsecutive(totalItems: nat, pageSize: PageSize, k: nat)
    ensures var pages := NextWalk(totalItems, pageSize, k);
            var h := HighestPage(totalItems, pageSize);
            && |pages| == (if h < k then 1 else h - k + 1)
            && forall i :: 0 <= i < |pages| ==> pages[i] == k + i
    decreases HighestPage(totalItems, pageSize) - k
  {
    if k < HighestPage(totalItems, pageSize) {
      NextWalkIsConsecutive(totalItems, pageSize, k + 1);
    }
  }

  lemma {:induction false} NextWalkContents<T>(items: seq<T>, pageSize: PageSize, k: nat)
    requires Offset(pageSize, k) <= |items|
    ensures var pages := NextWalk(|items|, pageSize, k);
            && (forall i :: 0 <= i < |pages| ==> pages[i] >= 0)
            && Flatten(items, pageSize, pages) == items[Offset(pageSize, k)..]
    decreases HighestPage(|items|, pageSize) - k
  {
    NextWalkIsConsecutive(|items|, pageSize, k);
    var pages := NextWalk(|items|, pageSize, k);
    HighestPageAtLeast(|items|, pageSize, k + 1);
    if k < HighestPage(|items|, pageSize) {
      NextWalkContents(items, pageSize, k + 1);
      assert pages[1..] == NextWalk(|items|, pageSize, k + 1);
    } else {
      assert pages == [k];
    }
  }

  /** Following `next` from the first page visits every page once, in order, and the pages' items put
      together are the whole list. An empty collection still has its (empty) page 0. */
  lemma NextWalkCoversTheList<T>(items: seq<T>, pageSize: PageSize)
    ensures var first := CurrentPage(|items|, pageSize, -1, Ascending);
            && first == 0
            && var pages := NextWalk(|items|, pageSize, first);
            && |pages| == (if items == [] then 1 else HighestPage(|items|, pageSize) + 1)
            && (forall i :: 0 <= i < |pages| ==> pages[i] == i)
            && Flatten(items, pageSize, pages) == items
  {
    NextWalkIsConsecutive(|items|, pageSize, 0);
    NextWalkContents(items, pageSize, 0);
    HighestPageBounds(|items|, pageSize);
  }

  /** The number of pages is the item count divided by the page size, rounded up. */
  lemma PageCount(totalItems: nat, pageSize: PageSize)
    ensures HighestPage(totalItems, pageSize) + 1 == (totalItems + pageSize - 1) / pageSize
  {
    var q, r := totalItems / pageSize, totalItems % pageSize;
    var n := totalItems + pageSize - 1;
    if r > 0 {
      DivUnique(n, pageSize, q + 1, r - 1);
    } else {
      DivUnique(n, pageSize, q, pageSize - 1);
    }
  }

  lemma DivUnique(n: int, d: PageSize, q: int, r: int)
    requires n == q * d + r && 0 <= r < d
    ensures n / d == q
  {
    var q', r' := n / d, n % d;
    assert (q - q') * d == r' - r;
    if q > q' {
      MulMonotone(1, q - q', d);
    } else if q < q' {
      MulMonotone(q - q', -1, d);
    }
  }

  /** Following `prev` always ends: it visits k, then min(k - 1, highest), then every page below. It ends
      at page 0 exactly when there is an item or the walk starts there; from a page past an empty
      collection it stops at once. */
  lemma {:induction false} PrevWalkDescends(totalItems: nat, pageSize: PageSize, k: nat)
    ensures var pages := PrevWalk(totalItems, pageSize, k);
            var below := Min(k, HighestPage(totalItems, pageSize) + 1);
            && |pages| == below + 1
            && pages[0] == k
            && (forall i :: 1 <= i < |pages| ==> pages[i] == below - i)
            && (pages[|pages| - 1] == 0 <==> totalItems > 0 || k == 0)
    decreases k
  {
    HighestPageBounds(totalItems, pageSize);
    var h := HighestPage(totalItems, pageSize);
    if totalItems > 0 && h < 0 {
      MulMonotone(h + 1, 0, pageSize);
    }
    var prev := PrevNext(totalItems, pageSize, k, Ascending).prev;
    if prev >= 0 {
      PrevWalkDescends(totalItems, pageSize, prev);
    }
  }

  /** A descending collection is the ascending one read backwards: on the same page its `prev` is the
      other's `next` and its `next` the other's `prev`. */
  lemma DescendingMirrorsAscending(totalItems: nat, pageSize: PageSize, k: nat)
    ensures var up := PrevNext(totalItems, pageSize, k, Ascending);
            PrevNext(totalItems, pageSize, k, Descending) == Neighbours(up.next, up.prev)
  {
  }
}
