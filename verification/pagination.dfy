/**
 The pagination arithmetic shared by the component and notification listings:
 `page` and `limit` fall back to 1 and 20 when their parse is falsy, the store
 skips `(page - 1) * limit` documents, and the reply reports
 `totalPages = Math.ceil(total / limit)`, `hasNext` and `hasPrev`.
 */
module Pagination {
  import opened Wrappers

  const DEFAULT_PAGE: int := 1
  const DEFAULT_LIMIT: int := 20

  /** `parseInt(raw) || fallback`; `None` stands for a parse that gave `NaN`. Zero is falsy too. */
  function ParamOr(raw: Option<int>, fallback: int): (v: int)
    ensures raw.None? || raw.value == 0 ==> v == fallback
    ensures raw.Some? && raw.value != 0 ==> v == raw.value
    ensures fallback != 0 ==> v != 0
  {
    if raw.Some? && raw.value != 0 then raw.value else fallback
  }

  /** `Math.ceil(a / b)` computed exactly. */
  function CeilDiv(a: int, b: int): (q: int)
    requires b != 0
    ensures b > 0 ==> (q - 1) * b < a <= q * b
    ensures b < 0 ==> q * b <= a < (q - 1) * b
  {
    if b > 0 then
      var q' := (-a) / b;
      assert -a == b * q' + (-a) % b;
      -q'
    else
      assert a == b * (a / b) + a % b;
      a / b
  }

  datatype Page = Page(currentPage: int, limit: int, skip: int, totalPages: int,
                       total: nat, hasNext: bool, hasPrev: bool)

  /** The pagination block of a listing over `total` matching documents. */
  function Paginate(total: nat, pageParam: Option<int>, limitParam: Option<int>): (p: Page)
    ensures p.currentPage == ParamOr(pageParam, DEFAULT_PAGE) && p.limit == ParamOr(limitParam, DEFAULT_LIMIT)
    ensures p.total == total && p.limit != 0
    ensures p.skip == (p.currentPage - 1) * p.limit
    ensures p.hasPrev <==> p.currentPage > 1
    ensures p.limit > 0 ==> (p.totalPages - 1) * p.limit < total <= p.totalPages * p.limit
    ensures p.limit > 0 ==> (p.hasNext <==> p.currentPage * p.limit < total)
  {
    var page := ParamOr(pageParam, DEFAULT_PAGE);
    var limit := ParamOr(limitParam, DEFAULT_LIMIT);
    var pages := CeilDiv(total, limit);
    NextPageExists(page, limit, pages, total);
    Page(page, limit, (page - 1) * limit, pages, total, page < pages, page > 1)
  }

  /** With a positive page size, "this is not the last page" means "some matching
      document comes after this page". */
  lemma NextPageExists(page: int, limit: int, pages: int, total: int)
    requires limit > 0 ==> (pages - 1) * limit < total <= pages * limit
    ensures limit > 0 ==> (page < pages <==> page * limit < total)
  {
    if limit <= 0 {
    } else if page < pages {
      assert page * limit <= (pages - 1) * limit by {
        MultiplyMonotone(page, pages - 1, limit);
      }
    } else {
      assert pages * limit <= page * limit by {
        MultiplyMonotone(pages, page, limit);
      }
    }
  }

  lemma MultiplyMonotone(a: int, b: int, c: int)
    requires a <= b && c >= 0
    ensures a * c <= b * c
  {
  }

  lemma MultiplyStrict(a: int, b: int, c: int)
    requires a * c < b * c && c > 0
    ensures a < b
  {
    if b <= a {
      MultiplyMonotone(b, a, c);
    }
  }

  /** The documents of one page of `items`, once the store has sorted them. */
  function Slice<T>(items: seq<T>, p: Page): (r: seq<T>)
    requires p.limit > 0 && p.skip >= 0
    ensures p.skip >= |items| ==> r == []
    ensures p.skip < |items| ==> |r| == (if p.skip + p.limit <= |items| then p.limit else |items| - p.skip)
    ensures forall i :: 0 <= i < |r| ==> r[i] == items[p.skip + i]
  {
    if p.skip >= |items| then []
    else if p.skip + p.limit >= |items| then items[p.skip..]
    else items[p.skip..p.skip + p.limit]
  }

  /** A page never holds more than `limit` documents, and only documents of `items`. */
  lemma SliceWithinPage<T>(items: seq<T>, p: Page)
    requires p.limit > 0 && p.skip >= 0
    ensures |Slice(items, p)| <= p.limit
    ensures forall x :: x in Slice(items, p) ==> x in items
  {
    var r := Slice(items, p);
    forall x | x in r
      ensures x in items
    {
      var i :| 0 <= i < |r| && r[i] == x;
      assert items[p.skip + i] == x;
    }
  }

  /** Every document lies on a page that exists: item `i` is on page `i / limit + 1`,
      at position `i % limit` of that page's slice. */
  lemma ItemOnItsPage<T>(items: seq<T>, limit: int, i: int)
    requires limit > 0 && 0 <= i < |items|
    ensures 1 <= Paginate(|items|, Some(i / limit + 1), Some(limit)).currentPage
                <= Paginate(|items|, Some(i / limit + 1), Some(limit)).totalPages
    ensures Slice(items, Paginate(|items|, Some(i / limit + 1), Some(limit)))[i % limit] == items[i]
  {
    var p := Paginate(|items|, Some(i / limit + 1), Some(limit));
    assert i == (i / limit) * limit + i % limit;
    assert p.currentPage == i / limit + 1 && p.limit == limit;
    assert p.skip == (i / limit) * limit;
    assert i / limit < p.totalPages by {
      assert (i / limit) * limit <= i < p.totalPages * limit;
      MultiplyStrict(i / limit, p.totalPages, limit);
    }
    assert p.skip <= i < p.skip + limit;
    assert |Slice(items, p)| > i % limit;
  }
}
