/** Client-side pagination of the packet-summary table: ten rows per page, at least
    one page, and page changes outside the valid range ignored. */
module Pagination {
  import opened Wrappers
  import opened Traffic

  /** The number of pages: `max(1, ceil(count / PageSize))`. */
  function TotalPages(count: nat): (pages: nat)
    ensures pages >= 1
    ensures count <= pages * PageSize
    ensures count > 0 ==> (pages - 1) * PageSize < count
    ensures count == 0 ==> pages == 1
  {
    var ceiling := (count + PageSize - 1) / PageSize;
    if ceiling < 1 then 1 else ceiling
  }

  /** How `Array.prototype.slice` reads an index: a negative one counts back from the
      end, and the result is clamped to `[0, len]`. */
  function RelativeIndex(i: int, len: nat): (k: nat)
    ensures k <= len
    ensures 0 <= i ==> k == Min(i, len)
    ensures i < 0 ==> k == Max(len + i, 0)
  {
    if i < 0 then (if len + i > 0 then len + i else 0)
    else if i < len then i else len
  }

  /** `s.slice(start, end)`: empty when the clamped end is not past the clamped start. */
  function JsSlice<T>(s: seq<T>, start: int, end: int): (r: seq<T>)
    ensures |r| <= |s|
    ensures 0 <= start <= end ==> r == s[Min(start, |s|)..Min(end, |s|)]
    ensures 0 <= end <= start ==> r == []
  {
    var from := RelativeIndex(start, |s|);
    var to := RelativeIndex(end, |s|);
    if from < to then s[from..to] else []
  }

  /** The rows shown on page `page` (numbered from 1). */
  function PageItems<T>(items: seq<T>, page: int): (r: seq<T>)
    ensures |r| <= PageSize
    ensures 1 <= page ==> r == items[Min((page - 1) * PageSize, |items|)..Min(page * PageSize, |items|)]
    ensures 1 <= page < TotalPages(|items|) ==> |r| == PageSize
    ensures 1 <= page <= TotalPages(|items|) && |items| > 0 ==> |r| > 0
    ensures page == 0 || page > TotalPages(|items|) ==> r == []
  {
    JsSlice(items, (page - 1) * PageSize, page * PageSize)
  }

  /** The page after a request to move to `requested`: taken when it is a page number
      in `[1, totalPages]`, ignored otherwise. */
  function ChangePage(current: int, requested: int, totalPages: nat): (page: int)
    ensures 1 <= requested <= totalPages ==> page == requested
    ensures requested < 1 || requested > totalPages ==> page == current
    ensures 1 <= current <= totalPages ==> 1 <= page <= totalPages
  {
    if requested < 1 || requested > totalPages then current else requested
  }

  /** Pages 1 to n, one after another. */
  function PagesUpTo<T>(items: seq<T>, n: nat): seq<T>
    decreases n
  {
    if n == 0 then [] else PagesUpTo(items, n - 1) + PageItems(items, n)
  }

  /** The first n pages together are the first `n * PageSize` rows. */
  lemma {:induction false} PagesUpToIsPrefix<T>(items: seq<T>, n: nat)
    ensures PagesUpTo(items, n) == items[..Min(n * PageSize, |items|)]
    decreases n
  {
    if n > 0 {
      PagesUpToIsPrefix(items, n - 1);
      var a := Min((n - 1) * PageSize, |items|);
      var b := Min(n * PageSize, |items|);
      assert items[..a] + items[a..b] == items[..b];
    }
  }

  /** Paging through every page shows each row exactly once, in order. */
  lemma PagesCoverItems<T>(items: seq<T>)
    ensures PagesUpTo(items, TotalPages(|items|)) == items
  {
    PagesUpToIsPrefix(items, TotalPages(|items|));
  }

  /** Twenty-five rows make three pages of 10, 10 and 5 rows; asking for page 0 or
      page 4 leaves the current page unchanged. */
  lemma TwentyFiveRows<T>(items: seq<T>, current: int)
    requires |items| == 25
    ensures TotalPages(|items|) == 3
    ensures |PageItems(items, 1)| == 10 && |PageItems(items, 3)| == 5
    ensures PageItems(items, 3) == items[20..]
    ensures ChangePage(current, 0, 3) == current && ChangePage(current, 4, 3) == current
  {
  }
}
