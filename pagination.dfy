/** The page arithmetic of the roster table (components/users-table.tsx). */
module Pagination {

  /** ITEMS_PER_PAGE. */
  const PageSize: nat := 100

  /** How many rendered page buttons at most. */
  const MaxPageButtons: nat := 5

  function Min(a: int, b: int): int { if a <= b then a else b }
  function Max(a: int, b: int): int { if a <= b then b else a }

  /** `Math.ceil(n / ITEMS_PER_PAGE)`: the fewest pages of PageSize rows that hold n rows. */
  function TotalPages(n: nat): (r: nat)
    ensures n <= r * PageSize
    ensures r > 0 ==> (r - 1) * PageSize < n
    ensures r == 0 <==> n == 0
  {
    (n + PageSize - 1) / PageSize
  }

  /** Index of the first row of page `page` (pages are numbered from 1). */
  function StartIndex(page: int): int
  {
    (page - 1) * PageSize
  }

  /**
   * `rows.slice(startIndex, startIndex + ITEMS_PER_PAGE)`: JavaScript's slice clamps both ends
   * to the length, so a page past the end is empty.
   */
  function PageSlice<T>(rows: seq<T>, page: int): (r: seq<T>)
    requires page >= 1
    ensures |r| <= PageSize
    ensures page <= TotalPages(|rows|) ==> 0 < |r| == Min(PageSize, |rows| - StartIndex(page))
    ensures page > TotalPages(|rows|) ==> r == []
    ensures forall k :: 0 <= k < |r| ==> r[k] == rows[StartIndex(page) + k]
  {
    var lo := Min(StartIndex(page), |rows|);
    rows[lo .. Min(StartIndex(page) + PageSize, |rows|)]
  }

  /** The pages from `page` on, laid end to end. */
  function PagesFrom<T>(rows: seq<T>, page: nat): seq<T>
    requires page >= 1
    decreases TotalPages(|rows|) + 1 - page
  {
    if page > TotalPages(|rows|) then [] else PageSlice(rows, page) + PagesFrom(rows, page + 1)
  }

  /** Pages `page`, `page + 1`, ... together hold exactly the rows from that page's start on. */
  lemma {:induction false} PagesFromSuffix<T>(rows: seq<T>, page: nat)
    requires page >= 1
    ensures PagesFrom(rows, page) == rows[Min(StartIndex(page), |rows|)..]
    decreases TotalPages(|rows|) + 1 - page
  {
    if page <= TotalPages(|rows|) {
      PagesFromSuffix(rows, page + 1);
      var lo, hi := StartIndex(page), Min(StartIndex(page) + PageSize, |rows|);
      assert StartIndex(page + 1) == lo + PageSize;
      assert rows[lo..] == rows[lo..hi] + rows[hi..];
    }
  }

  /** The pages 1 .. TotalPages partition the rows: laid end to end they give back the list. */
  lemma PagesPartition<T>(rows: seq<T>)
    ensures PagesFrom(rows, 1) == rows
  {
    PagesFromSuffix(rows, 1);
  }

  /**
   * The "Showing from to to" label of page `page` over `n` rows: from is startIndex + 1, to is
   * `Math.min(startIndex + ITEMS_PER_PAGE, n)`.
   */
  function ShowingFrom(page: int): int { StartIndex(page) + 1 }
  function ShowingTo(page: int, n: nat): int { Min(StartIndex(page) + PageSize, n) }

  /** On an existing page the label names exactly the rows the page shows, counted from 1. */
  lemma ShowingMatchesPage<T>(rows: seq<T>, page: int)
    requires 1 <= page <= TotalPages(|rows|)
    ensures 1 <= ShowingFrom(page) <= ShowingTo(page, |rows|) <= |rows|
    ensures ShowingTo(page, |rows|) - ShowingFrom(page) + 1 == |PageSlice(rows, page)|
    ensures PageSlice(rows, page) == rows[ShowingFrom(page) - 1 .. ShowingTo(page, |rows|)]
  {
  }

  /**
   * The numbered buttons: pages 1 .. min(5, totalPages), always starting from 1 whatever the
   * current page (no sliding window).
   */
  function PageButtons(totalPages: nat): (r: seq<int>)
    ensures |r| <= MaxPageButtons
    ensures totalPages > 0 ==> |r| > 0 && r[0] == 1
    ensures forall i :: 0 < i < |r| ==> r[i] == r[i - 1] + 1
    ensures forall b :: b in r <==> 1 <= b <= Min(MaxPageButtons, totalPages)
  {
    var r := seq(Min(MaxPageButtons, totalPages), i requires 0 <= i => i + 1);
    assert forall b :: 1 <= b <= |r| ==> b in r by {
      forall b | 1 <= b <= |r| ensures b in r {
        assert r[b - 1] == b;
      }
    }
    r
  }

  /** The page the Previous button moves to: `Math.max(1, currentPage - 1)`. */
  function Previous(page: int): int { Max(1, page - 1) }

  /** The page the Next button moves to: `Math.min(totalPages, currentPage + 1)`. */
  function Next(page: int, totalPages: nat): int { Min(totalPages, page + 1) }

  /** From a page in range, Previous and Next stay in range and move by at most one page. */
  lemma NavigationStaysInRange(page: int, totalPages: nat)
    requires 1 <= page <= totalPages
    ensures 1 <= Previous(page) <= page && page - Previous(page) <= 1
    ensures page <= Next(page, totalPages) <= totalPages && Next(page, totalPages) - page <= 1
    ensures Previous(page) == page <==> page == 1
    ensures Next(page, totalPages) == page <==> page == totalPages
  {
  }

  /** 250 rows: three pages, page 1 shows rows 1-100, page 3 rows 201-250, and 3 is the last page. */
  lemma TwoHundredFiftyRows<T>(rows: seq<T>)
    requires |rows| == 250
    ensures TotalPages(|rows|) == 3
    ensures PageSlice(rows, 1) == rows[0..100]
    ensures PageSlice(rows, 3) == rows[200..250]
    ensures ShowingFrom(3) == 201 && ShowingTo(3, |rows|) == 250
    ensures Next(3, TotalPages(|rows|)) == 3
  {
  }
}
