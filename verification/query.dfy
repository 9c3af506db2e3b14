/**
 The list's query pipeline end to end: the view state (search term, status
 filter, sort state, current page), the filtered-and-sorted list every bulk
 operation works on, and the page of it that is rendered.
 */
module Query {
  import opened Types
  import Seqs
  import Filtering
  import Sorting
  import Paging

  datatype ListQuery = ListQuery(
    searchTerm: string,
    statusFilter: Filtering.StatusFilter,
    sort: Sorting.SortState,
    currentPage: int)

  /** No search, every status, email ascending, first page. */
  const INITIAL_QUERY: ListQuery := ListQuery("", Filtering.All, Sorting.INITIAL_SORT, 1)

  /** `filteredSubscriptions`: search and status filter, then the stable sort. */
  function Filtered(s: seq<Subscription>, q: ListQuery): (r: seq<Subscription>)
    ensures forall x :: multiset(r)[x] ==
              if Filtering.MatchesSearch(x, q.searchTerm) && Filtering.MatchesStatus(x, q.statusFilter)
              then multiset(s)[x] else 0
    ensures Sorting.Sorted(q.sort, r)
  {
    Sorting.SortBy(q.sort, Filtering.FilterSubscriptions(s, q.searchTerm, q.statusFilter))
  }

  /** Every listed record is a stored record that passes the search and the status filter. */
  lemma FilteredMembers(s: seq<Subscription>, q: ListQuery, x: Subscription)
    ensures x in Filtered(s, q) <==>
              x in s && Filtering.MatchesSearch(x, q.searchTerm) && Filtering.MatchesStatus(x, q.statusFilter)
  {
    assert x in Filtered(s, q) <==> multiset(Filtered(s, q))[x] > 0;
    assert x in s <==> multiset(s)[x] > 0;
  }

  /** What the list renders: the rows of the current page and the page count of the pager. */
  datatype View = View(rows: seq<Subscription>, totalPages: nat)

  function Visible(s: seq<Subscription>, q: ListQuery): (r: View)
    ensures |r.rows| <= Paging.ITEMS_PER_PAGE
    ensures forall x :: x in r.rows ==> x in Filtered(s, q)
    ensures var all := Filtered(s, q);
            q.currentPage >= 1 ==>
              r.rows == all[Seqs.Min((q.currentPage - 1) * Paging.ITEMS_PER_PAGE, |all|)
                            ..Seqs.Min(q.currentPage * Paging.ITEMS_PER_PAGE, |all|)]
    ensures var n := |Filtered(s, q)|;
            r.totalPages * Paging.ITEMS_PER_PAGE >= n
            && (r.totalPages == 0 || (r.totalPages - 1) * Paging.ITEMS_PER_PAGE < n)
  {
    var all := Filtered(s, q);
    var page := Paging.PageOf(all, q.currentPage);
    Paging.PageMembers(all, q.currentPage);
    View(page, Paging.TotalPages(|all|))
  }

  /** The pager is rendered only when there is more than one page. */
  predicate PagerShown(v: View)
  {
    v.totalPages > 1
  }

  /** On first render the list shows the first ten stored records in email order. */
  lemma InitialViewIsFirstTenByEmail(s: seq<Subscription>)
    ensures Visible(s, INITIAL_QUERY).rows
            == Sorting.SortBy(Sorting.INITIAL_SORT, s)[..Seqs.Min(Paging.ITEMS_PER_PAGE, |s|)]
  {
    Filtering.DefaultFilterKeepsAll(s);
  }

  /** Typing in the search box as written: the term changes and the current page is kept. */
  function SetSearchAsWritten(q: ListQuery, term: string): (r: ListQuery)
    ensures r.searchTerm == term && r.currentPage == q.currentPage
    ensures r.statusFilter == q.statusFilter && r.sort == q.sort
  {
    q.(searchTerm := term)
  }

  /** Choosing a status as written: the filter changes and the current page is kept. */
  function SetStatusFilterAsWritten(q: ListQuery, filter: Filtering.StatusFilter): (r: ListQuery)
    ensures r.statusFilter == filter && r.currentPage == q.currentPage
    ensures r.searchTerm == q.searchTerm && r.sort == q.sort
  {
    q.(statusFilter := filter)
  }

  /**
   A kept page number past a narrowed list: when at most one page of matches
   remains but the list is on page two or later, no row is shown and the
   pager, which would let the user go back, is hidden.
   */
  lemma StalePageHidesMatches(s: seq<Subscription>, q: ListQuery)
    requires q.currentPage >= 2
    requires 1 <= |Filtered(s, q)| <= Paging.ITEMS_PER_PAGE
    ensures Visible(s, q).rows == []
    ensures !PagerShown(Visible(s, q))
  {
  }

  /** Searching from page 2 as written, with a term that leaves one page of matches, hides them all. */
  lemma SearchAsWrittenStrands(s: seq<Subscription>, q: ListQuery, term: string)
    requires q.currentPage >= 2
    requires 1 <= |Filtered(s, SetSearchAsWritten(q, term))| <= Paging.ITEMS_PER_PAGE
    ensures Visible(s, SetSearchAsWritten(q, term)).rows == []
    ensures !PagerShown(Visible(s, SetSearchAsWritten(q, term)))
  {
    StalePageHidesMatches(s, SetSearchAsWritten(q, term));
  }

  /** Typing in the search box, returning to the first page. */
  function SetSearch(q: ListQuery, term: string): (r: ListQuery)
    ensures r.searchTerm == term && r.currentPage == 1
    ensures r.statusFilter == q.statusFilter && r.sort == q.sort
  {
    q.(searchTerm := term, currentPage := 1)
  }

  /** Choosing a status, returning to the first page. */
  function SetStatusFilter(q: ListQuery, filter: Filtering.StatusFilter): (r: ListQuery)
    ensures r.statusFilter == filter && r.currentPage == 1
    ensures r.searchTerm == q.searchTerm && r.sort == q.sort
  {
    q.(statusFilter := filter, currentPage := 1)
  }

  /** The rows are the first ten listed records, so some row is shown whenever a record is listed. */
  predicate ShowsFirstMatches(s: seq<Subscription>, q: ListQuery)
  {
    var all := Filtered(s, q);
    && Visible(s, q).rows == all[..Seqs.Min(Paging.ITEMS_PER_PAGE, |all|)]
    && (|all| > 0 ==> |Visible(s, q).rows| > 0)
  }

  /** On the first page the rows are the first ten listed records. */
  lemma FirstPageRows(s: seq<Subscription>, q: ListQuery)
    requires q.currentPage == 1
    ensures ShowsFirstMatches(s, q)
  {
    var all := Filtered(s, q);
    assert Seqs.Min(0, |all|) == 0;
    assert Visible(s, q).rows == all[0..Seqs.Min(Paging.ITEMS_PER_PAGE, |all|)];
  }

  /** After a search or filter change the first matches are on screen: rows appear whenever matches exist. */
  lemma NarrowingShowsFirstMatches(s: seq<Subscription>, q: ListQuery, term: string, filter: Filtering.StatusFilter)
    ensures ShowsFirstMatches(s, SetSearch(q, term))
    ensures ShowsFirstMatches(s, SetStatusFilter(q, filter))
  {
    FirstPageRows(s, SetSearch(q, term));
    FirstPageRows(s, SetStatusFilter(q, filter));
  }
}
