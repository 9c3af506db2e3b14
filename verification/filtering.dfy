/**
 The first two stages of the list's query pipeline: case-insensitive search
 on email or status, then the status filter.
 */
module Filtering {
  import opened Types
  import Seqs
  import Text

  datatype StatusFilter = All | OnlyStatus(status: Status)

  /** The lowered email or the lowered status contains the lowered term. */
  predicate MatchesSearch(x: Subscription, term: string)
  {
    Text.Contains(Text.Lower(x.email), Text.Lower(term)) ||
    Text.Contains(Text.Lower(StatusText(x.status)), Text.Lower(term))
  }

  predicate MatchesStatus(x: Subscription, filter: StatusFilter)
  {
    filter.All? || x.status == filter.status
  }

  function Keep(term: string, filter: StatusFilter): Subscription -> bool
  {
    (x: Subscription) => MatchesSearch(x, term) && MatchesStatus(x, filter)
  }

  /** The records that pass both the search and the status filter, in store order. */
  function FilterSubscriptions(s: seq<Subscription>, term: string, filter: StatusFilter): (r: seq<Subscription>)
    ensures Seqs.IsSubseq(r, s)
    ensures forall x :: x in r ==>
              (Text.Contains(Text.Lower(x.email), Text.Lower(term)) ||
               Text.Contains(StatusText(x.status), Text.Lower(term)))
              && (filter == All || x.status == filter.status)
    ensures forall x :: x in s && MatchesSearch(x, term) && MatchesStatus(x, filter) ==> x in r
    ensures forall x :: multiset(r)[x] == if MatchesSearch(x, term) && MatchesStatus(x, filter) then multiset(s)[x] else 0
  {
    Seqs.FilterIsSubseq(s, Keep(term, filter));
    Seqs.FilterMultiset(s, Keep(term, filter));
    Seqs.FilterMembers(s, Keep(term, filter));
    StatusTextIsLower();
    Seqs.Filter(s, Keep(term, filter))
  }

  lemma StatusTextIsLower()
    ensures forall st: Status :: Text.Lower(StatusText(st)) == StatusText(st)
  {
    forall st: Status ensures Text.Lower(StatusText(st)) == StatusText(st) {
      Text.LowerOfLowerCase(StatusText(st));
    }
  }

  /** An empty search term with filter `all` keeps every record. */
  lemma DefaultFilterKeepsAll(s: seq<Subscription>)
    ensures FilterSubscriptions(s, "", All) == s
  {
    assert Text.Lower("") == "";
    forall x | x in s ensures Keep("", All)(x) {
      assert Text.Contains(Text.Lower(x.email), "");
    }
    Seqs.FilterAll(s, Keep("", All));
  }

  /** With an empty term, the status filter keeps exactly the records of that status. */
  lemma StatusOnlyFilter(s: seq<Subscription>, st: Status)
    ensures FilterSubscriptions(s, "", OnlyStatus(st)) == Seqs.Filter(s, HasStatus(st))
  {
    assert Text.Lower("") == "";
    forall x | x in s ensures Keep("", OnlyStatus(st))(x) == HasStatus(st)(x) {
      assert Text.Contains(Text.Lower(x.email), "");
    }
    Seqs.FilterExt(s, Keep("", OnlyStatus(st)), HasStatus(st));
  }

  function HasStatus(st: Status): Subscription -> bool
  {
    (x: Subscription) => x.status == st
  }
}
