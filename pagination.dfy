/** The visible page of the result table and the page count
    (src/pages/MovieSearchPage.tsx). */
module Pagination {

  const ItemsPerPage: nat := 10

  /** How `Array.prototype.slice` resolves an index against a length:
      a negative index counts from the end, and the result is clamped to
      [0, len]. */
  function SliceIndex(i: int, len: nat): (r: nat)
    ensures r <= len
    ensures 0 <= i ==> r == if i < len then i else len
  {
    if i < 0 then (if len + i < 0 then 0 else len + i)
    else if i < len then i else len
  }

  /** `s.slice(start, end)`. */
  function JsSlice<T>(s: seq<T>, start: int, end: int): (r: seq<T>)
    ensures forall k :: 0 <= k < |r| ==> r[k] in s
  {
    var a, b := SliceIndex(start, |s|), SliceIndex(end, |s|);
    if a < b then s[a..b] else []
  }

  /** The records on 1-based page `page`: the slice starting at
      (page - 1) * 10, ten long. */
  function PageSlice<T>(s: seq<T>, page: int): seq<T> {
    var offset := (page - 1) * ItemsPerPage;
    JsSlice(s, offset, offset + ItemsPerPage)
  }

  /** `Math.ceil(n / 10)`: the least number of pages that holds n rows. */
  function TotalPages(n: nat): (r: nat)
    ensures n <= r * ItemsPerPage < n + ItemsPerPage
    ensures r == 0 <==> n == 0
  {
    (n + ItemsPerPage - 1) / ItemsPerPage
  }

  function Min(a: int, b: int): int { if a < b then a else b }

  /** For a page from 1 on, the page holds the rows from (p-1)*10 up to
      p*10 or the end, whichever comes first, and nothing when it starts
      past the end. */
  lemma PageSliceWindow<T>(s: seq<T>, p: int)
    requires p >= 1
    ensures var offset := (p - 1) * ItemsPerPage;
      PageSlice(s, p) == if offset < |s| then s[offset..Min(offset + ItemsPerPage, |s|)] else []
  {
  }

  /** No page, whatever its number, shows more than ten rows. */
  lemma PageSliceAtMostTen<T>(s: seq<T>, p: int)
    ensures |PageSlice(s, p)| <= ItemsPerPage
  {
    var offset := (p - 1) * ItemsPerPage;
    if p <= 0 {
      assert offset + ItemsPerPage <= 0;
    }
  }

  /** A page past the last one is empty, without error; so is page 0. */
  lemma PageBeyondLastIsEmpty<T>(s: seq<T>, p: int)
    requires p > TotalPages(|s|) || p == 0
    ensures PageSlice(s, p) == []
  {
    if p > TotalPages(|s|) {
      assert (p - 1) * ItemsPerPage >= TotalPages(|s|) * ItemsPerPage;
    }
  }

  /** Every page from 1 to the last shows at least one row, and every page
      before the last is full. */
  lemma PageInRangeIsFilled<T>(s: seq<T>, p: int)
    requires 1 <= p <= TotalPages(|s|)
    ensures 0 < |PageSlice(s, p)|
    ensures p < TotalPages(|s|) ==> |PageSlice(s, p)| == ItemsPerPage
  {
    var t := TotalPages(|s|);
    assert (p - 1) * ItemsPerPage <= (t - 1) * ItemsPerPage;
    if p < t {
      assert p * ItemsPerPage <= (t - 1) * ItemsPerPage;
    }
  }

  /** Pages 1 to k, one after another. */
  function Pages<T>(s: seq<T>, k: nat): seq<T> {
    if k == 0 then [] else Pages(s, k - 1) + PageSlice(s, k)
  }

  lemma {:induction false} PagesPrefix<T>(s: seq<T>, k: nat)
    ensures Pages(s, k) == s[..Min(k * ItemsPerPage, |s|)]
  {
    if k > 0 {
      PagesPrefix(s, k - 1);
      var lo, hi := Min((k - 1) * ItemsPerPage, |s|), Min(k * ItemsPerPage, |s|);
      assert PageSlice(s, k) == s[lo..hi];
      assert s[..lo] + s[lo..hi] == s[..hi];
    }
  }

  /** Paging loses and repeats nothing: pages 1 to TotalPages, put
      together, are the whole result. */
  lemma PagesCoverAll<T>(s: seq<T>)
    ensures Pages(s, TotalPages(|s|)) == s
  {
    PagesPrefix(s, TotalPages(|s|));
    assert s[..|s|] == s;
  }
}
