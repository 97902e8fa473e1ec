/** The page arithmetic shared by the management list routes:
    `skip = (page - 1) * limit`, `take = limit`, `pages = Math.ceil(total / limit)`. */
module Pagination {
  import opened Common

  /** The defaults of `const { page = 1, limit = 20 } = req.query`: a
      parameter missing from the query string takes these values. */
  const DefaultPage := 1
  const DefaultLimit := 20

  /** The page a list route serves: the query's, or the first. */
  function PageOf(page: Option<int>): int {
    page.GetOr(DefaultPage)
  }

  /** The page size a list route uses: the query's, or 20. */
  function LimitOf(limit: Option<int>): int {
    limit.GetOr(DefaultLimit)
  }

  /** The page and limit, given or defaulted, are both at least 1. */
  predicate InRange(page: Option<int>, limit: Option<int>) {
    PageOf(page) >= 1 && LimitOf(limit) >= 1
  }

  /** The `pagination` object of a list response. */
  datatype PageInfo = PageInfo(page: int, limit: int, total: nat, pages: nat)

  /** One page of rows together with its `pagination` object. */
  datatype Page<T> = Page(rows: seq<T>, info: PageInfo)

  /** Rows skipped before 1-based page `page`. */
  function Skip(page: int, limit: int): int {
    (page - 1) * limit
  }

  /** `Math.ceil(total / limit)` for a positive limit: the fewest pages of
      `limit` rows that hold `total` rows. */
  function PageCount(total: nat, limit: int): (pages: nat)
    requires limit > 0
    ensures total <= pages * limit
    ensures pages == 0 || (pages - 1) * limit < total
  {
    var pages := (total + limit - 1) / limit;
    DivisionBounds(total + limit - 1, limit);
    pages
  }

  /** Floor division brackets its dividend. */
  lemma DivisionBounds(n: nat, d: int)
    requires d > 0
    ensures (n / d) * d <= n < (n / d) * d + d
  {
  }

  /** `findMany({ skip, take: limit })` over the ordered, filtered rows. */
  function PageRows<T(!new)>(rows: seq<T>, page: int, limit: int): (r: seq<T>)
    requires page >= 1 && limit >= 1
    ensures |r| <= limit
    ensures Skip(page, limit) >= |rows| ==> r == []
    ensures Skip(page, limit) < |rows| ==>
      |r| == (if |rows| - Skip(page, limit) < limit then |rows| - Skip(page, limit) else limit)
    ensures forall i :: 0 <= i < |r| ==> Skip(page, limit) + i < |rows| && r[i] == rows[Skip(page, limit) + i]
    ensures forall x :: x in r ==> x in rows
  {
    var s := Skip(page, limit);
    if s >= |rows| then []
    else rows[s..if s + limit < |rows| then s + limit else |rows|]
  }

  /** The list response: one page of the rows and the counts the client pages by. */
  function Paginate<T(!new)>(rows: seq<T>, page: int, limit: int): (p: Page<T>)
    requires page >= 1 && limit >= 1
    ensures p.rows == PageRows(rows, page, limit)
    ensures p.info.page == page && p.info.limit == limit
    ensures p.info.total == |rows|
    ensures p.info.pages == PageCount(|rows|, limit)
  {
    Page(PageRows(rows, page, limit), PageInfo(page, limit, |rows|, PageCount(|rows|, limit)))
  }

  /** The list response for the query's `page` and `limit`, with the route's
      defaults for a missing parameter: without `limit` a page holds at most 20
      rows, and without `page` the response is the first rows of the list. */
  function PaginateQuery<T(!new)>(rows: seq<T>, page: Option<int>, limit: Option<int>): (p: Page<T>)
    requires InRange(page, limit)
    ensures p.rows == PageRows(rows, PageOf(page), LimitOf(limit))
    ensures p.info == PageInfo(PageOf(page), LimitOf(limit), |rows|, PageCount(|rows|, LimitOf(limit)))
    ensures limit.None? ==> p.info.limit == DefaultLimit && |p.rows| <= DefaultLimit
    ensures page.None? ==> p.info.page == DefaultPage && p.rows == Take(rows, LimitOf(limit))
  {
    Paginate(rows, PageOf(page), LimitOf(limit))
  }

  /** The rows of pages 1 through `k`, read one after another. */
  function PagesThrough<T(!new)>(rows: seq<T>, limit: int, k: nat): seq<T>
    requires limit >= 1
  {
    if k == 0 then [] else PagesThrough(rows, limit, k - 1) + PageRows(rows, k, limit)
  }

  /** Reading pages 1..k yields exactly the first `k * limit` rows (or all of them). */
  lemma {:induction false} PagesThroughIsPrefix<T(!new)>(rows: seq<T>, limit: int, k: nat)
    requires limit >= 1
    ensures k * limit <= |rows| ==> PagesThrough(rows, limit, k) == rows[..k * limit]
    ensures k * limit > |rows| ==> PagesThrough(rows, limit, k) == rows
  {
    if k > 0 {
      PagesThroughIsPrefix(rows, limit, k - 1);
      var lo := (k - 1) * limit;
      var hi := k * limit;
      MulSucc(k, limit);
      var cur := PageRows(rows, k, limit);
      assert cur == if lo >= |rows| then [] else rows[lo..if hi < |rows| then hi else |rows|];
      ConcatSlices(rows, PagesThrough(rows, limit, k - 1), cur, lo, hi);
    }
  }

  /** The rows up to `lo` followed by the rows from `lo` up to `hi` (both cut
      off at the end) are the rows up to `hi`. */
  lemma ConcatSlices<T>(rows: seq<T>, prev: seq<T>, cur: seq<T>, lo: int, hi: int)
    requires 0 <= lo <= hi
    requires lo <= |rows| ==> prev == rows[..lo]
    requires lo > |rows| ==> prev == rows
    requires cur == if lo >= |rows| then [] else rows[lo..if hi < |rows| then hi else |rows|]
    ensures hi <= |rows| ==> prev + cur == rows[..hi]
    ensures hi > |rows| ==> prev + cur == rows
  {
    if lo >= |rows| {
      assert prev == rows;
    } else if hi <= |rows| {
      assert rows[..lo] + rows[lo..hi] == rows[..hi];
    } else {
      assert rows[..lo] + rows[lo..] == rows;
    }
  }

  lemma MulSucc(k: int, limit: int)
    ensures k * limit == (k - 1) * limit + limit
  {
  }

  /** Paging through `pages` pages visits every row exactly once, in order;
      every one of those pages is non-empty and the page after the last is empty. */
  lemma PagesCoverAllRows<T(!new)>(rows: seq<T>, limit: int)
    requires limit >= 1
    ensures PagesThrough(rows, limit, PageCount(|rows|, limit)) == rows
    ensures forall page :: 1 <= page <= PageCount(|rows|, limit) ==> PageRows(rows, page, limit) != []
    ensures PageRows(rows, PageCount(|rows|, limit) + 1, limit) == []
  {
    var n := PageCount(|rows|, limit);
    PagesThroughIsPrefix(rows, limit, n);
    if n * limit <= |rows| {
      assert rows[..n * limit] == rows;
    }
    forall page | 1 <= page <= n
      ensures PageRows(rows, page, limit) != []
    {
      MulMonotone(page - 1, n - 1, limit);
    }
    assert Skip(n + 1, limit) == n * limit;
  }

  lemma MulMonotone(a: int, b: int, c: int)
    requires a <= b && c >= 0
    ensures a * c <= b * c
  {
  }
}
