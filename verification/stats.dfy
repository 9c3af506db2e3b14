/**
 The three counters above the list: every record, the active ones and the
 expired ones.
 */
module Stats {
  import opened Types
  import Seqs
  import Store
  import Filtering

  datatype Counts = Counts(total: nat, active: nat, expired: nat)

  /** The counters as the stats panel computes them, one `filter` per status. */
  function CountStatuses(s: seq<Subscription>): (r: Counts)
    ensures r.total == |s|
    ensures r.active + r.expired == r.total
    ensures r.active <= r.total && r.expired <= r.total
  {
    Seqs.FilterSplitsLength(s, Filtering.HasStatus(Active), Filtering.HasStatus(Expired));
    Counts(|s|, |Seqs.Filter(s, Filtering.HasStatus(Active))|, |Seqs.Filter(s, Filtering.HasStatus(Expired))|)
  }

  /** The counters depend only on which records there are, not on their order. */
  lemma CountsIgnoreOrder(a: seq<Subscription>, b: seq<Subscription>)
    requires multiset(a) == multiset(b)
    ensures CountStatuses(a) == CountStatuses(b)
  {
    Seqs.FilterPermutation(a, b, Filtering.HasStatus(Active));
    Seqs.FilterPermutation(a, b, Filtering.HasStatus(Expired));
  }

  /** The active counter is the length of the list filtered to `active` with no search term. */
  lemma ActiveCountIsFilteredLength(s: seq<Subscription>)
    ensures CountStatuses(s).active == |Filtering.FilterSubscriptions(s, "", Filtering.OnlyStatus(Active))|
    ensures CountStatuses(s).expired == |Filtering.FilterSubscriptions(s, "", Filtering.OnlyStatus(Expired))|
  {
    Filtering.StatusOnlyFilter(s, Active);
    Filtering.StatusOnlyFilter(s, Expired);
  }

  /** Adding a record raises the total by one and exactly one of the other two counters. */
  lemma AddUpdatesCounts(store: seq<Subscription>, draft: Store.Draft, freshId: Id, now: Instant)
    ensures var before, after := CountStatuses(store), CountStatuses(Store.Add(store, draft, freshId, now));
            && after.total == before.total + 1
            && (draft.endDate > now ==> after.active == before.active + 1 && after.expired == before.expired)
            && (draft.endDate <= now ==> after.expired == before.expired + 1 && after.active == before.active)
  {
    var r := Store.Add(store, draft, freshId, now);
    assert r == store + [r[|store|]];
    Seqs.FilterAppend(store, [r[|store|]], Filtering.HasStatus(Active));
    Seqs.FilterAppend(store, [r[|store|]], Filtering.HasStatus(Expired));
  }
}
