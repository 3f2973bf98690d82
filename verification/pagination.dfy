/** Client-side pagination on the listing page: the whole filtered list is
    counted, ten rows are cut out of it from the offset `skipNum`, the number
    of pages is the ceiling of the count over ten, and the pagination widget's
    page number converts to and from `skipNum`. */
module Pagination {

  /** Rows per page. */
  const PageSize: nat := 10

  function Min(a: int, b: int): int
  {
    if a <= b then a else b
  }

  /** How `Array.prototype.slice` reads an index argument: a negative index
      counts back from the end, and the result is clamped into `[0, len]`. */
  function ResolveIndex(len: nat, k: int): (r: nat)
    ensures r <= len
    ensures 0 <= k <= len ==> r == k
    ensures k < 0 ==> r + (-k) >= len && (r > 0 ==> r + (-k) == len)
    ensures k > len ==> r == len
  {
    if k < 0 then (if len + k < 0 then 0 else len + k)
    else if k > len then len
    else k
  }

  /** `s.slice(start, end)`: the elements from the resolved start up to the
      resolved end, or none when the end does not lie past the start. */
  function Slice<T>(s: seq<T>, start: int, end: int): (r: seq<T>)
    ensures |r| <= |s|
    ensures 0 <= start <= end ==> |r| <= end - start
    ensures 0 <= start ==>
              forall i :: 0 <= i < |r| ==> start + i < |s| && r[i] == s[start + i]
    ensures 0 <= start <= end ==>
              |r| == (if start >= |s| then 0 else Min(end, |s|) - start)
  {
    var from := ResolveIndex(|s|, start);
    var to := ResolveIndex(|s|, end);
    if from < to then s[from..to] else []
  }

  /** `subjects.slice(skipNum, skipNum + 10)`: never more than a page of
      rows; for a non-negative offset, the rows from `skipNum` on, in order,
      up to a page of them, and none once the offset reaches the end. */
  function PageWindow<T>(items: seq<T>, skipNum: int): (page: seq<T>)
    ensures |page| <= PageSize
    ensures skipNum >= 0 ==>
              |page| == (if skipNum >= |items| then 0 else Min(PageSize, |items| - skipNum))
    ensures skipNum >= 0 ==>
              forall i :: 0 <= i < |page| ==> page[i] == items[skipNum + i]
  {
    Slice(items, skipNum, skipNum + PageSize)
  }

  /** `Math.ceil(counts / 10)`: the least number of pages that holds `n`
      rows. */
  function PageCount(n: nat): (pages: nat)
    ensures PageSize * pages >= n
    ensures n > 0 ==> PageSize * (pages - 1) < n
    ensures pages == 0 <==> n == 0
  {
    (n + PageSize - 1) / PageSize
  }

  /** `onChangePage`: the offset at which page `val` (counted from 1)
      starts. */
  function SkipForPage(val: int): (skipNum: int)
    ensures skipNum % PageSize == 0
    ensures skipNum >= 0 <==> val >= 1
  {
    PageSize * (val - 1)
  }

  /** The page number shown by the widget, `(skipNum / 10) + 1`. The
      division is exact because every offset the page sets is a multiple of
      ten. */
  function DisplayedPage(skipNum: int): (page: int)
    requires skipNum % PageSize == 0
    ensures PageSize * (page - 1) == skipNum
    ensures page >= 1 <==> skipNum >= 0
  {
    skipNum / PageSize + 1
  }

  /** The offsets the page can reach: non-negative multiples of the page
      size. */
  predicate ValidOffset(skipNum: int)
  {
    skipNum >= 0 && skipNum % PageSize == 0
  }

  /** Choosing page `val` and reading the displayed page back gives `val`. */
  lemma PageRoundTrip(val: int)
    ensures SkipForPage(val) % PageSize == 0
    ensures DisplayedPage(SkipForPage(val)) == val
  {
  }

  /** Reading the displayed page of a reachable offset and choosing it gives
      the offset back. */
  lemma OffsetRoundTrip(skipNum: int)
    requires skipNum % PageSize == 0
    ensures SkipForPage(DisplayedPage(skipNum)) == skipNum
  {
  }

  /** The offset of page `val` is reachable exactly when `val` is a page
      number the widget can emit, that is at least one. */
  lemma SkipForPageValid(val: int)
    ensures ValidOffset(SkipForPage(val)) <==> val >= 1
  {
  }

  /** The pages the widget offers, `1..PageCount(n)`, are exactly the
      non-empty ones. */
  lemma NonEmptyPages<T>(items: seq<T>, val: int)
    requires val >= 1
    ensures PageWindow(items, SkipForPage(val)) != [] <==> val <= PageCount(|items|)
  {
  }

  /** Every row appears on some offered page: row `i` is entry `i % 10` of
      page `i / 10 + 1`. */
  lemma RowOnPage<T>(items: seq<T>, i: nat)
    requires i < |items|
    ensures 1 <= i / PageSize + 1 <= PageCount(|items|)
    ensures var page := PageWindow(items, SkipForPage(i / PageSize + 1));
            i % PageSize < |page| && page[i % PageSize] == items[i]
  {
  }
}
