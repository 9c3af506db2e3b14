/**
 The pagination stage of the list: `Array.prototype.slice` over the sorted
 records, ten to a page, and the page count the pager renders.
 */
module Paging {
  import Seqs

  /** Records shown on one page. */
  const ITEMS_PER_PAGE: nat := 10

  /** A `slice` index as JavaScript resolves it: negative counts from the end, then clamped to `[0, n]`. */
  function ResolveIndex(i: int, n: nat): (r: nat)
    ensures r <= n
    ensures 0 <= i <= n ==> r == i
    ensures i > n ==> r == n
    ensures i < 0 ==> r == Seqs.Max(n + i, 0)
  {
    if i < 0 then (if n + i < 0 then 0 else n + i)
    else if i > n then n
    else i
  }

  /** `s.slice(start, end)`: empty when the resolved end does not pass the resolved start. */
  function Slice<T>(s: seq<T>, start: int, end: int): (r: seq<T>)
    ensures var a, b := ResolveIndex(start, |s|), ResolveIndex(end, |s|);
            if a < b then r == s[a..b] else r == []
  {
    var a := ResolveIndex(start, |s|);
    var b := ResolveIndex(end, |s|);
    if a < b then s[a..b] else []
  }

  /** The records on page `page` (1-based), as the list computes them. */
  function PageOf<T>(s: seq<T>, page: int): (r: seq<T>)
    ensures |r| <= ITEMS_PER_PAGE
    ensures page >= 1 ==>
              r == s[Seqs.Min((page - 1) * ITEMS_PER_PAGE, |s|)..Seqs.Min(page * ITEMS_PER_PAGE, |s|)]
  {
    var start := (page - 1) * ITEMS_PER_PAGE;
    Slice(s, start, start + ITEMS_PER_PAGE)
  }

  /** A page only holds records of the list it was cut from. */
  lemma PageMembers<T>(s: seq<T>, page: int)
    ensures forall x :: x in PageOf(s, page) ==> x in s
  {
    var a := ResolveIndex((page - 1) * ITEMS_PER_PAGE, |s|);
    var b := ResolveIndex((page - 1) * ITEMS_PER_PAGE + ITEMS_PER_PAGE, |s|);
    if a < b {
      forall x | x in s[a..b] ensures x in s {
        var k :| a <= k < b && s[k] == x;
      }
    }
  }

  /** `Math.ceil(n / ITEMS_PER_PAGE)`: the fewest pages that hold `n` records. */
  function TotalPages(n: nat): (r: nat)
    ensures r * ITEMS_PER_PAGE >= n
    ensures r == 0 || (r - 1) * ITEMS_PER_PAGE < n
  {
    (n + ITEMS_PER_PAGE - 1) / ITEMS_PER_PAGE
  }

  /** There are no pages exactly when there are no records. */
  lemma TotalPagesZero(n: nat)
    ensures TotalPages(n) == 0 <==> n == 0
  {
  }

  /** A page past the last one is empty. */
  lemma PagePastEndIsEmpty<T>(s: seq<T>, page: int)
    requires page > TotalPages(|s|)
    ensures PageOf(s, page) == []
  {
  }

  /** Every page up to the last is non-empty; all but the last are full. */
  lemma PagesInRangeAreFilled<T>(s: seq<T>, page: int)
    requires 1 <= page <= TotalPages(|s|)
    ensures |PageOf(s, page)| > 0
    ensures page < TotalPages(|s|) ==> |PageOf(s, page)| == ITEMS_PER_PAGE
  {
  }

  /** Pages `1..k`, concatenated in order. */
  function Pages<T>(s: seq<T>, k: nat): seq<T>
  {
    if k == 0 then [] else Pages(s, k - 1) + PageOf(s, k)
  }

  /** The first `k` pages are the first `min(10k, n)` records. */
  lemma {:induction false} PagesPrefix<T>(s: seq<T>, k: nat)
    ensures Pages(s, k) == s[..Seqs.Min(k * ITEMS_PER_PAGE, |s|)]
  {
    if k > 0 {
      PagesPrefix(s, k - 1);
      var a := Seqs.Min((k - 1) * ITEMS_PER_PAGE, |s|);
      var b := Seqs.Min(k * ITEMS_PER_PAGE, |s|);
      assert s[..a] + s[a..b] == s[..b];
    }
  }

  /** Reading every page in order gives back the whole list. */
  lemma PagesCoverAll<T>(s: seq<T>)
    ensures Pages(s, TotalPages(|s|)) == s
  {
    PagesPrefix(s, TotalPages(|s|));
  }
}
