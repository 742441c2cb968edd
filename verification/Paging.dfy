/** The paging arithmetic of the stores' Select. */
module Paging {
  import opened Common

  const MAX_INT: int := 0x7FFF_FFFF_FFFF_FFFF

  type i64 = x: int | -MAX_INT - 1 <= x <= MAX_INT

  /** The 64-bit integer the product of two others comes out as. */
  function Wrap(x: int): i64 {
    var low := x % 0x1_0000_0000_0000_0000;
    if low > MAX_INT then low - 0x1_0000_0000_0000_0000 else low
  }

  datatype PageRequest = PageRequest(page: i64, size: i64)

  datatype Page<T> = Page(items: seq<T>, totalCount: i64, request: PageRequest, totalPages: i64)

  datatype SelectError = CountFailed | QueryFailed | ScanFailed

  /** The page count is the least number of pages that holds all rows. */
  function NewPage<T>(items: seq<T>, totalCount: i64, req: PageRequest): (p: Page<T>)
    requires req.size >= 1 && totalCount >= 0
    ensures p.totalPages >= 0 && (p.totalPages - 1) * req.size < totalCount <= p.totalPages * req.size
    ensures p.items == items && p.totalCount == totalCount && p.request == req
  {
    PageCountBounds(totalCount, req.size);
    var whole := totalCount / req.size;
    Page(items, totalCount, req, if totalCount % req.size != 0 then whole + 1 else whole)
  }

  lemma PageCountBounds(total: int, size: int)
    requires total >= 0 && size >= 1
    ensures 0 <= total / size <= total
    ensures total % size != 0 ==> total / size < total
    ensures total == total / size * size + total % size
  {
    assert total == size * (total / size) + total % size;
    AtLeastOnce(total / size, size);
  }

  lemma AtLeastOnce(q: int, size: int)
    requires size >= 1
    ensures q * size == size * q
    ensures q >= 0 ==> q * size >= q
    ensures q < 0 ==> q * size <= -size
  {
    if q >= 0 {
      assert q * (size - 1) >= 0;
    } else {
      assert (-q - 1) * size >= 0;
    }
  }

  /** The rows a LIMIT and an OFFSET leave; a negative offset skips nothing. */
  function Window<T>(rows: seq<T>, offset: i64, limit: i64): seq<T>
    requires limit >= 0
  {
    var skip := if offset < 0 then 0 else offset;
    if skip >= |rows| then [] else if limit <= |rows| - skip then rows[skip..skip + limit] else rows[skip..]
  }

  function Normal(req: PageRequest): PageRequest {
    PageRequest(if req.page < 1 then 1 else req.page, if req.size < 1 then 20 else req.size)
  }

  /** The rows a request selects out of all rows in their order. */
  function RowsOf<T>(rows: seq<T>, req: PageRequest): seq<T> {
    var n := Normal(req);
    Window(rows, Wrap((n.page - 1) * n.size), n.size)
  }

  /** The page count reported for a request of this size. */
  function TotalPages(total: i64, size: i64): i64
    requires total >= 0
  {
    NewPage<int>([], total, Normal(PageRequest(1, size))).totalPages
  }

  /** Row by row, what scanning leaves. */
  ghost predicate Scans<R, T>(rows: seq<R>, scan: R -> Option<T>, items: seq<T>) {
    |items| == |rows| && forall i :: 0 <= i < |rows| ==> scan(rows[i]) == Some(items[i])
  }

  /** `rows` are the live rows in their order; `counts` and `queries` say whether the two statements succeed. */
  method Select<R, T>(rows: seq<R>, scan: R -> Option<T>, req: PageRequest, counts: bool, queries: bool)
    returns (r: Result<Page<T>, SelectError>)
    requires |rows| <= MAX_INT
    ensures r.Err? && r.error.CountFailed? <==> !counts
    ensures r.Err? && r.error.QueryFailed? <==> counts && !queries
    ensures r.Err? && r.error.ScanFailed?
            <==> counts && queries && exists i :: 0 <= i < |RowsOf(rows, req)| && scan(RowsOf(rows, req)[i]).None?
    ensures r.Ok? ==>
              && Scans(RowsOf(rows, req), scan, r.value.items)
              && r.value.totalCount == |rows|
              && r.value.request == Normal(req)
              && r.value.totalPages == TotalPages(|rows|, req.size)
              && r.value.request.page == (if req.page >= 1 then req.page else 1)
              && r.value.request.size == (if req.size >= 1 then req.size else 20)
  {
    var page: i64, size: i64 := req.page, req.size;
    if page < 1 {
      page := 1;
    }
    if size < 1 {
      size := 20;
    }
    if !counts {
      return Err(CountFailed);
    }
    var steps: int, step: int := page - 1, size;
    var offset := Wrap(steps * step);
    if !queries {
      return Err(QueryFailed);
    }
    var found := Window(rows, offset, size);
    var items: seq<T> := [];
    assert found == RowsOf(rows, req);
    for i := 0 to |found|
      invariant Scans(found[..i], scan, items)
    {
      var item := scan(found[i]);
      if item.None? {
        return Err(ScanFailed);
      }
      items := items + [item.value];
    }
    assert found[..|found|] == found;
    r := Ok(NewPage(items, |rows|, PageRequest(page, size)));
  }

  // ── What the pages add up to ──

  /** Pages 1 to n, one after the other. */
  function Pages<T>(rows: seq<T>, size: i64, n: nat): seq<T>
    requires n <= MAX_INT
  {
    if n == 0 then [] else Pages(rows, size, n - 1) + RowsOf(rows, PageRequest(n, size))
  }

  function Effective(size: i64): (s: i64)
    ensures s == if size >= 1 then size else 20
  {
    Normal(PageRequest(1, size)).size
  }

  /** The rows from lo up to but not including hi, as far as there are any. */
  function Stretch<T>(rows: seq<T>, lo: nat, hi: nat): seq<T>
    requires lo <= hi
  {
    if hi <= |rows| then rows[lo..hi] else if lo <= |rows| then rows[lo..] else []
  }

  lemma WrapKeeps(x: int)
    requires -MAX_INT - 1 <= x <= MAX_INT
    ensures Wrap(x) == x
  {
  }

  lemma WindowIsStretch<T>(rows: seq<T>, lo: nat, n: nat)
    requires lo <= MAX_INT && n <= MAX_INT
    ensures Window(rows, lo, n) == Stretch(rows, lo, lo + n)
  {
  }

  lemma Times(a: int, b: int, size: int)
    ensures a * size + b * size == (a + b) * size
    ensures b >= 0 && size >= 0 ==> b * size >= 0
  {
  }

  /** A page whose offset fits is the stretch of rows it stands for. */
  lemma PageIsStretch<T>(rows: seq<T>, page: i64, size: i64)
    requires page >= 1 && (page - 1) * Effective(size) <= MAX_INT
    ensures 0 <= (page - 1) * Effective(size) <= page * Effective(size)
    ensures RowsOf(rows, PageRequest(page, size))
         == Stretch(rows, (page - 1) * Effective(size), page * Effective(size))
  {
    var s: int := Effective(size);
    Times(0, page - 1, s);
    Times(page - 1, 1, s);
    var offset := (page - 1) * s;
    WrapKeeps(offset);
    WindowIsStretch(rows, offset, s);
  }

  /** A page count that holds all rows and no more: what NewPage reports. */
  predicate Holds(pages: int, size: int, total: int) {
    pages >= 0 && (pages - 1) * size < total <= pages * size
  }

  lemma TotalPagesHold(total: i64, size: i64)
    requires total >= 0
    ensures Holds(TotalPages(total, size), Effective(size), total)
  {
  }

  /** Where a page begins and ends, among so many pages. */
  lemma PageEnds(page: int, pages: int, size: int, total: int)
    requires Holds(pages, size, total) && page >= 1 && size >= 1
    ensures 0 <= (page - 1) * size && page * size == (page - 1) * size + size
    ensures page <= pages ==> (page - 1) * size < total
    ensures page < pages ==> page * size < total
    ensures page > pages ==> total <= (page - 1) * size
  {
    Times(0, page - 1, size);
    Times(page - 1, 1, size);
    if page <= pages {
      Times(page - 1, pages - page, size);
    }
    if page < pages {
      Times(page, pages - 1 - page, size);
    }
    if page > pages {
      Times(pages, page - 1 - pages, size);
    }
  }

  /** A request in numbers: page and size count from 1, with page 1 and size 20 in place of smaller ones, and the
      rows are those from (page - 1) * size up to page * size, as far as there are any. */
  lemma RequestInNumbers<T>(rows: seq<T>, req: PageRequest, page: i64, size: i64)
    requires page == (if req.page >= 1 then req.page else 1) && size == (if req.size >= 1 then req.size else 20)
    requires (page - 1) * size <= 0x7FFF_FFFF_FFFF_FFFF
    ensures 0 <= (page - 1) * size <= page * size
    ensures page * size <= |rows| ==> RowsOf(rows, req) == rows[(page - 1) * size..page * size]
    ensures (page - 1) * size <= |rows| < page * size ==> RowsOf(rows, req) == rows[(page - 1) * size..]
    ensures |rows| < (page - 1) * size ==> RowsOf(rows, req) == []
  {
    PageIsStretch(rows, page, size);
    assert Normal(PageRequest(page, size)) == Normal(req);
  }

  lemma {:induction false} PagesArePrefix<T>(rows: seq<T>, size: i64, n: nat, pages: int)
    requires |rows| <= MAX_INT && n <= pages <= MAX_INT && Holds(pages, Effective(size), |rows|)
    ensures n * Effective(size) >= 0
    ensures Pages(rows, size, n) == Stretch(rows, 0, n * Effective(size))
  {
    if n > 0 {
      PagesArePrefix(rows, size, n - 1, pages);
      PageEnds(n, pages, Effective(size), |rows|);
      PageIsStretch(rows, n, size);
      Stretches(rows, (n - 1) * Effective(size), n * Effective(size));
    }
  }

  lemma Stretches<T>(rows: seq<T>, mid: nat, hi: nat)
    requires mid <= hi
    ensures Stretch(rows, 0, mid) + Stretch(rows, mid, hi) == Stretch(rows, 0, hi)
  {
  }

  /** Pages 1 to TotalPages, put together, are all the rows once and in order, whatever size is asked for. */
  lemma PagesCoverRows<T>(rows: seq<T>, size: i64)
    requires |rows| <= MAX_INT
    ensures Pages(rows, size, TotalPages(|rows|, size)) == rows
  {
    var pages := TotalPages(|rows|, size);
    TotalPagesHold(|rows|, size);
    PagesArePrefix(rows, size, pages, pages);
  }

  /** Of those pages only the last may be short, and it is not empty. */
  lemma OnlyTheLastIsShort<T>(rows: seq<T>, size: i64, page: i64)
    requires |rows| <= MAX_INT && 1 <= page <= TotalPages(|rows|, size)
    ensures var found := RowsOf(rows, PageRequest(page, size));
            && 1 <= |found| <= Effective(size)
            && (page < TotalPages(|rows|, size) ==> |found| == Effective(size))
  {
    TotalPagesHold(|rows|, size);
    PageEnds(page, TotalPages(|rows|, size), Effective(size), |rows|);
    PageIsStretch(rows, page, size);
  }

  /** A later page is empty unless its offset, cut to 64 bits, comes out negative or short of the last row. */
  lemma LaterPages<T>(rows: seq<T>, size: i64, page: i64)
    requires |rows| <= MAX_INT && page >= 1 && page > TotalPages(|rows|, size)
    ensures RowsOf(rows, PageRequest(page, size)) == []
       <==> rows == [] || |rows| <= (page - 1) * Effective(size) % 0x1_0000_0000_0000_0000 <= 0x7FFF_FFFF_FFFF_FFFF
    ensures (page - 1) * Effective(size) <= 0x7FFF_FFFF_FFFF_FFFF ==> RowsOf(rows, PageRequest(page, size)) == []
  {
    TotalPagesHold(|rows|, size);
    PageEnds(page, TotalPages(|rows|, size), Effective(size), |rows|);
    WindowIsEmpty(rows, (page - 1) * Effective(size), Effective(size));
  }

  lemma WindowIsEmpty<T>(rows: seq<T>, offset: int, limit: i64)
    requires limit >= 1 && offset >= 0 && |rows| <= MAX_INT
    ensures Window(rows, Wrap(offset), limit) == []
       <==> rows == [] || |rows| <= offset % 0x1_0000_0000_0000_0000 <= MAX_INT
    ensures offset <= MAX_INT ==> offset % 0x1_0000_0000_0000_0000 == offset
  {
  }

  /** Such a request: a page far past the end that shows the first rows again. */
  lemma FarPageShowsFirstRows<T>(rows: seq<T>)
    requires 1 <= |rows| <= MAX_INT
    ensures var page := 0x4000_0000_0000_0001;
            && page > TotalPages(|rows|, 4)
            && RowsOf(rows, PageRequest(page, 4)) == RowsOf(rows, PageRequest(1, 4))
  {
    assert 0x4000_0000_0000_0000 * 4 % 0x1_0000_0000_0000_0000 == 0;
  }
}
