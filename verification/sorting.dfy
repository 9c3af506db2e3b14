/**
 The sort stage of the list's query pipeline: the sort state machine driven
 by clicks on column headers, the comparator it selects, and the stable sort
 (`Array.prototype.sort`) that orders the filtered records.
 */
module Sorting {
  import opened Types
  import Seqs
  import Text
  import StableSort

  datatype SortField = ByEmail | ByStartDate | ByEndDate | ByStatus

  datatype SortDirection = Asc | Desc

  datatype SortState = SortState(field: SortField, direction: SortDirection)

  /** The list opens sorted by email, ascending. */
  const INITIAL_SORT: SortState := SortState(ByEmail, Asc)

  /** `handleSort`: a click on the current field flips the direction; another field starts ascending. */
  function HandleSort(st: SortState, f: SortField): (r: SortState)
    ensures r.field == f
    ensures st.field == f ==> r.direction != st.direction
    ensures st.field != f ==> r.direction == Asc
  {
    if st.field == f then st.(direction := if st.direction == Asc then Desc else Asc)
    else SortState(f, Asc)
  }

  /** Two clicks on the current field restore the state; two clicks on another field leave it descending. */
  lemma HandleSortTwice(st: SortState, f: SortField)
    ensures HandleSort(HandleSort(st, st.field), st.field) == st
    ensures f != st.field ==> HandleSort(HandleSort(st, f), f) == SortState(f, Desc)
  {
  }

  /** A sort key: string fields compare as text, date fields by instant. */
  datatype Key = TextKey(text: string) | TimeKey(instant: Instant)

  function KeyOf(f: SortField, x: Subscription): Key
  {
    match f
    case ByEmail => TextKey(x.email)
    case ByStartDate => TimeKey(x.startDate)
    case ByEndDate => TimeKey(x.endDate)
    case ByStatus => TextKey(StatusText(x.status))
  }

  /** Three-way comparison of keys: `localeCompare` on text, the sign of the difference on instants. */
  function CompareKeys(a: Key, b: Key): (r: int)
    ensures -1 <= r <= 1
  {
    match (a, b)
    case (TextKey(s), TextKey(t)) => Text.LexCompare(s, t)
    case (TimeKey(s), TimeKey(t)) => if s < t then -1 else if s > t then 1 else 0
    case (TextKey(_), TimeKey(_)) => -1
    case (TimeKey(_), TextKey(_)) => 1
  }

  /** The sign of the comparator the list passes to `sort`: operands swapped for `desc`. */
  function Comparator(st: SortState, a: Subscription, b: Subscription): int
  {
    if st.direction == Asc then CompareKeys(KeyOf(st.field, a), KeyOf(st.field, b))
    else CompareKeys(KeyOf(st.field, b), KeyOf(st.field, a))
  }

  lemma CompareKeysAntisymmetric(a: Key, b: Key)
    ensures CompareKeys(a, b) == -CompareKeys(b, a)
  {
    if a.TextKey? && b.TextKey? {
      Text.LexCompareAntisymmetric(a.text, b.text);
    }
  }

  lemma CompareKeysZero(a: Key, b: Key)
    ensures CompareKeys(a, b) == 0 <==> a == b
  {
    if a.TextKey? && b.TextKey? {
      Text.LexCompareZero(a.text, b.text);
    }
  }

  lemma CompareKeysTransitive(a: Key, b: Key, c: Key)
    requires CompareKeys(a, b) <= 0 && CompareKeys(b, c) <= 0
    ensures CompareKeys(a, c) <= 0
  {
    if a.TextKey? && b.TextKey? && c.TextKey? {
      Text.LexCompareTransitive(a.text, b.text, c.text);
    }
  }

  lemma ComparatorAntisymmetric(st: SortState, a: Subscription, b: Subscription)
    ensures Comparator(st, a, b) == -Comparator(st, b, a)
  {
    CompareKeysAntisymmetric(KeyOf(st.field, a), KeyOf(st.field, b));
  }

  /** The comparator ties exactly the records with equal keys. */
  lemma ComparatorZero(st: SortState, a: Subscription, b: Subscription)
    ensures Comparator(st, a, b) == 0 <==> KeyOf(st.field, a) == KeyOf(st.field, b)
  {
    CompareKeysZero(KeyOf(st.field, a), KeyOf(st.field, b));
    CompareKeysZero(KeyOf(st.field, b), KeyOf(st.field, a));
  }

  lemma ComparatorTransitive(st: SortState, a: Subscription, b: Subscription, c: Subscription)
    requires Comparator(st, a, b) <= 0 && Comparator(st, b, c) <= 0
    ensures Comparator(st, a, c) <= 0
  {
    var f := st.field;
    if st.direction == Asc {
      CompareKeysTransitive(KeyOf(f, a), KeyOf(f, b), KeyOf(f, c));
    } else {
      CompareKeysTransitive(KeyOf(f, c), KeyOf(f, b), KeyOf(f, a));
    }
  }

  /** The comparator as a value, the form `Array.prototype.sort` receives. */
  function ComparatorOf(st: SortState): (Subscription, Subscription) -> int
  {
    (a: Subscription, b: Subscription) => Comparator(st, a, b)
  }

  /** Every sort state selects a comparator consistent enough for a stable sort. */
  lemma ComparatorTotalPreorder(st: SortState)
    ensures StableSort.TotalPreorder(ComparatorOf(st))
  {
    var cmp := ComparatorOf(st);
    forall a, b ensures cmp(a, b) == -cmp(b, a) {
      ComparatorAntisymmetric(st, a, b);
    }
    forall a, b, c | cmp(a, b) <= 0 && cmp(b, c) <= 0 ensures cmp(a, c) <= 0 {
      ComparatorTransitive(st, a, b, c);
    }
  }

  /** No later record should have gone before an earlier one. */
  predicate Sorted(st: SortState, s: seq<Subscription>)
  {
    StableSort.SortedBy(ComparatorOf(st), s)
  }

  function SameKeyAs(f: SortField, k: Key): Subscription -> bool
  {
    (x: Subscription) => KeyOf(f, x) == k
  }

  /** The records of `s` whose key is `k`, in order. */
  function Only(f: SortField, s: seq<Subscription>, k: Key): seq<Subscription>
  {
    Seqs.Filter(s, SameKeyAs(f, k))
  }

  /** The sort stage: the records reordered by the comparator the sort state selects. */
  function SortBy(st: SortState, s: seq<Subscription>): (r: seq<Subscription>)
    ensures multiset(r) == multiset(s)
    ensures Sorted(st, r)
  {
    ComparatorTotalPreorder(st);
    StableSort.Sort(ComparatorOf(st), s)
  }

  /** Sorting on a date column orders the instants: earliest first for `asc`, latest first for `desc`. */
  lemma SortByDateOrder(st: SortState, s: seq<Subscription>)
    requires st.field == ByStartDate || st.field == ByEndDate
    ensures var r := SortBy(st, s);
            forall i, j :: 0 <= i < j < |r| ==>
              if st.direction == Asc then KeyOf(st.field, r[i]).instant <= KeyOf(st.field, r[j]).instant
              else KeyOf(st.field, r[i]).instant >= KeyOf(st.field, r[j]).instant
  {
  }

  /** The comparator's tie class of `x0` is the set of records sharing its key. */
  lemma TiesAreSameKey(st: SortState, s: seq<Subscription>, x0: Subscription)
    ensures Seqs.Filter(s, StableSort.TiedWith(ComparatorOf(st), x0)) == Only(st.field, s, KeyOf(st.field, x0))
  {
    forall x | x in s
      ensures StableSort.TiedWith(ComparatorOf(st), x0)(x) == SameKeyAs(st.field, KeyOf(st.field, x0))(x)
    {
      ComparatorZero(st, x, x0);
    }
    Seqs.FilterExt(s, StableSort.TiedWith(ComparatorOf(st), x0), SameKeyAs(st.field, KeyOf(st.field, x0)));
  }

  /** Records with equal keys appear in the sorted output in their input order. */
  lemma SortIsStable(st: SortState, s: seq<Subscription>, x0: Subscription)
    ensures Only(st.field, SortBy(st, s), KeyOf(st.field, x0)) == Only(st.field, s, KeyOf(st.field, x0))
  {
    ComparatorTotalPreorder(st);
    TiesAreSameKey(st, SortBy(st, s), x0);
    TiesAreSameKey(st, s, x0);
  }

  /** No two records share a key. */
  predicate DistinctKeys(f: SortField, s: seq<Subscription>)
  {
    forall i, j :: 0 <= i < j < |s| ==> KeyOf(f, s[i]) != KeyOf(f, s[j])
  }

  /** With distinct keys, sorting descending yields exactly the reverse of sorting ascending. */
  lemma SortDescIsReversedAsc(f: SortField, s: seq<Subscription>)
    requires DistinctKeys(f, s)
    ensures SortBy(SortState(f, Desc), s) == Seqs.Reverse(SortBy(SortState(f, Asc), s))
  {
    var up := ComparatorOf(SortState(f, Asc));
    var down := ComparatorOf(SortState(f, Desc));
    ComparatorTotalPreorder(SortState(f, Asc));
    forall a, b ensures down(a, b) == up(b, a) { }
    forall i, j | 0 <= i < j < |s| ensures up(s[i], s[j]) != 0 {
      ComparatorZero(SortState(f, Asc), s[i], s[j]);
    }
    StableSort.SortFlippedIsReverse(up, down, s);
  }
}
