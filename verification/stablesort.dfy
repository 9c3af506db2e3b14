/**
 A stable sort over any three-way comparator that is a total preorder: the
 behaviour `Array.prototype.sort` guarantees. Records the comparator ties
 keep their input order.
 */
module StableSort {
  import Seqs

  /** `cmp` is antisymmetric in sign and transitive: a total preorder. */
  ghost predicate TotalPreorder<T(!new)>(cmp: (T, T) -> int)
  {
    && (forall a, b :: cmp(a, b) == -cmp(b, a))
    && (forall a, b, c {:trigger cmp(a, b), cmp(b, c), cmp(a, c)} ::
          cmp(a, b) <= 0 && cmp(b, c) <= 0 ==> cmp(a, c) <= 0)
  }

  predicate SortedBy<T(!new)>(cmp: (T, T) -> int, s: seq<T>)
  {
    forall i, j :: 0 <= i < j < |s| ==> cmp(s[i], s[j]) <= 0
  }

  /** No two elements are tied by `cmp`. */
  predicate DistinctBy<T(!new)>(cmp: (T, T) -> int, s: seq<T>)
  {
    forall i, j :: 0 <= i < j < |s| ==> cmp(s[i], s[j]) != 0
  }

  /** Membership in the tie class of `x0`. */
  function TiedWith<T(!new)>(cmp: (T, T) -> int, x0: T): T -> bool
  {
    (y: T) => cmp(y, x0) == 0
  }

  /** Inserts `x` after every element that does not sort after it. */
  function Insert<T(!new)>(cmp: (T, T) -> int, x: T, s: seq<T>): seq<T>
  {
    if |s| == 0 then [x]
    else if cmp(s[0], x) > 0 then [x] + s
    else [s[0]] + Insert(cmp, x, s[1..])
  }

  lemma SortedTail<T(!new)>(cmp: (T, T) -> int, s: seq<T>)
    requires |s| > 0 && SortedBy(cmp, s)
    ensures SortedBy(cmp, s[1..])
  {
    forall i, j | 0 <= i < j < |s[1..]| ensures cmp(s[1..][i], s[1..][j]) <= 0 {
      assert s[1..][i] == s[i + 1] && s[1..][j] == s[j + 1];
    }
  }

  lemma {:induction false} InsertMultiset<T(!new)>(cmp: (T, T) -> int, x: T, s: seq<T>)
    ensures multiset(Insert(cmp, x, s)) == multiset(s) + multiset{x}
  {
    if |s| > 0 && cmp(s[0], x) <= 0 {
      InsertMultiset(cmp, x, s[1..]);
      assert s == [s[0]] + s[1..];
    }
  }

  lemma {:induction false} InsertSorted<T(!new)>(cmp: (T, T) -> int, x: T, s: seq<T>)
    requires TotalPreorder(cmp)
    requires SortedBy(cmp, s)
    ensures SortedBy(cmp, Insert(cmp, x, s))
  {
    if |s| == 0 {
    } else if cmp(s[0], x) > 0 {
      InsertSortedFront(cmp, x, s);
    } else {
      SortedTail(cmp, s);
      InsertSorted(cmp, x, s[1..]);
      HeadFirst(cmp, s);
      InsertSortedPast(cmp, x, s);
    }
  }

  /** `x` goes first when the head sorts after it. */
  lemma InsertSortedFront<T(!new)>(cmp: (T, T) -> int, x: T, s: seq<T>)
    requires TotalPreorder(cmp)
    requires SortedBy(cmp, s)
    requires |s| > 0 && cmp(s[0], x) > 0
    ensures SortedBy(cmp, [x] + s)
  {
    var r := [x] + s;
    forall i, j | 0 <= i < j < |r| ensures cmp(r[i], r[j]) <= 0 {
      if i == 0 {
        assert cmp(x, s[0]) < 0;
        assert r[j] == s[j - 1];
      } else {
        assert r[i] == s[i - 1] && r[j] == s[j - 1];
      }
    }
  }

  /** Insertion adds `x` and keeps every other element. */
  lemma {:induction false} InsertMembers<T(!new)>(cmp: (T, T) -> int, x: T, s: seq<T>)
    ensures forall y :: y in Insert(cmp, x, s) <==> y == x || y in s
  {
    if |s| > 0 && cmp(s[0], x) <= 0 {
      InsertMembers(cmp, x, s[1..]);
      assert s == [s[0]] + s[1..];
    }
  }

  /** The head of a sorted sequence sorts no later than any of its elements. */
  lemma HeadFirst<T(!new)>(cmp: (T, T) -> int, s: seq<T>)
    requires TotalPreorder(cmp)
    requires SortedBy(cmp, s)
    requires |s| > 0
    ensures forall y :: y in s ==> cmp(s[0], y) <= 0
  {
    forall y | y in s ensures cmp(s[0], y) <= 0 {
      var j :| 0 <= j < |s| && s[j] == y;
      if j == 0 {
        assert cmp(s[0], s[0]) == -cmp(s[0], s[0]);
      } else {
        assert cmp(s[0], s[j]) <= 0;
      }
    }
  }

  /** The head stays first when `x` is inserted further on and the rest is sorted. */
  lemma InsertSortedPast<T(!new)>(cmp: (T, T) -> int, x: T, s: seq<T>)
    requires |s| > 0 && cmp(s[0], x) <= 0
    requires forall y :: y in s ==> cmp(s[0], y) <= 0
    requires SortedBy(cmp, Insert(cmp, x, s[1..]))
    ensures SortedBy(cmp, Insert(cmp, x, s))
  {
    var rest := Insert(cmp, x, s[1..]);
    var r := Insert(cmp, x, s);
    assert r == [s[0]] + rest;
    InsertMembers(cmp, x, s[1..]);
    assert forall y :: y in s[1..] ==> y in s;
    forall i, j | 0 <= i < j < |r| ensures cmp(r[i], r[j]) <= 0 {
      if i == 0 {
        assert r[j] == rest[j - 1] && rest[j - 1] in rest;
      } else {
        assert r[i] == rest[i - 1] && r[j] == rest[j - 1];
      }
    }
  }

  /** Nothing in a sorted sequence whose head sorts after `x` is tied with `x`'s class. */
  lemma NoTiesAbove<T(!new)>(cmp: (T, T) -> int, x: T, s: seq<T>, x0: T)
    requires TotalPreorder(cmp)
    requires SortedBy(cmp, s)
    requires |s| > 0 && cmp(s[0], x) > 0 && cmp(x, x0) == 0
    ensures Seqs.Filter(s, TiedWith(cmp, x0)) == []
  {
    forall y | y in s ensures !TiedWith(cmp, x0)(y) {
      var j :| 0 <= j < |s| && s[j] == y;
      assert cmp(s[0], y) <= 0 by {
        if j > 0 { assert cmp(s[0], s[j]) <= 0; }
      }
      assert cmp(y, x) > 0;
    }
    Seqs.FilterNone(s, TiedWith(cmp, x0));
  }

  /** Insertion into a sorted sequence puts `x` last among its ties and disturbs no other tie class. */
  lemma {:induction false} InsertTies<T(!new)>(cmp: (T, T) -> int, x: T, s: seq<T>, x0: T)
    requires TotalPreorder(cmp)
    requires SortedBy(cmp, s)
    ensures Seqs.Filter(Insert(cmp, x, s), TiedWith(cmp, x0))
            == Seqs.Filter(s, TiedWith(cmp, x0)) + (if cmp(x, x0) == 0 then [x] else [])
  {
    if |s| > 0 {
      if cmp(s[0], x) > 0 {
        InsertTiesFront(cmp, x, s, x0);
      } else {
        SortedTail(cmp, s);
        InsertTies(cmp, x, s[1..], x0);
        InsertTiesPast(cmp, x, s, x0);
      }
    }
  }

  lemma InsertTiesFront<T(!new)>(cmp: (T, T) -> int, x: T, s: seq<T>, x0: T)
    requires TotalPreorder(cmp)
    requires SortedBy(cmp, s)
    requires |s| > 0 && cmp(s[0], x) > 0
    ensures Seqs.Filter([x] + s, TiedWith(cmp, x0))
            == Seqs.Filter(s, TiedWith(cmp, x0)) + (if cmp(x, x0) == 0 then [x] else [])
  {
    Seqs.FilterAppend([x], s, TiedWith(cmp, x0));
    if cmp(x, x0) == 0 {
      NoTiesAbove(cmp, x, s, x0);
    }
  }

  lemma InsertTiesPast<T(!new)>(cmp: (T, T) -> int, x: T, s: seq<T>, x0: T)
    requires |s| > 0 && cmp(s[0], x) <= 0
    requires Seqs.Filter(Insert(cmp, x, s[1..]), TiedWith(cmp, x0))
             == Seqs.Filter(s[1..], TiedWith(cmp, x0)) + (if cmp(x, x0) == 0 then [x] else [])
    ensures Seqs.Filter(Insert(cmp, x, s), TiedWith(cmp, x0))
            == Seqs.Filter(s, TiedWith(cmp, x0)) + (if cmp(x, x0) == 0 then [x] else [])
  {
    var p := TiedWith(cmp, x0);
    var t := Insert(cmp, x, s[1..]);
    var r := Insert(cmp, x, s);
    var tail := if cmp(x, x0) == 0 then [x] else [];
    assert r == [s[0]] + t;
    assert r[0] == s[0] && r[1..] == t;
    var before := Seqs.Filter(s[1..], p);
    if p(s[0]) {
      assert Seqs.Filter(r, p) == [s[0]] + Seqs.Filter(t, p);
      assert Seqs.Filter(s, p) == [s[0]] + before;
      Seqs.AppendAssoc([s[0]], before, tail);
    } else {
      assert Seqs.Filter(r, p) == Seqs.Filter(t, p);
      assert Seqs.Filter(s, p) == before;
    }
  }

  /** One step of the sort: inserting the last input element into the sorted prefix. */
  lemma SortStep<T(!new)>(cmp: (T, T) -> int, pre: seq<T>, last: T, t: seq<T>)
    requires TotalPreorder(cmp)
    requires multiset(t) == multiset(pre)
    requires SortedBy(cmp, t)
    requires forall x0 :: Seqs.Filter(t, TiedWith(cmp, x0)) == Seqs.Filter(pre, TiedWith(cmp, x0))
    ensures multiset(Insert(cmp, last, t)) == multiset(pre + [last])
    ensures SortedBy(cmp, Insert(cmp, last, t))
    ensures forall x0 :: Seqs.Filter(Insert(cmp, last, t), TiedWith(cmp, x0))
                         == Seqs.Filter(pre + [last], TiedWith(cmp, x0))
  {
    InsertMultiset(cmp, last, t);
    InsertSorted(cmp, last, t);
    forall x0 ensures Seqs.Filter(Insert(cmp, last, t), TiedWith(cmp, x0))
                      == Seqs.Filter(pre + [last], TiedWith(cmp, x0)) {
      InsertTies(cmp, last, t, x0);
      Seqs.FilterAppend(pre, [last], TiedWith(cmp, x0));
    }
  }

  /**
   Insertion sort, taking the input from the front: a permutation of the
   input, sorted, in which every tie class keeps its input order.
   */
  function Sort<T(!new)>(cmp: (T, T) -> int, s: seq<T>): (r: seq<T>)
    requires TotalPreorder(cmp)
    ensures multiset(r) == multiset(s)
    ensures SortedBy(cmp, r)
    ensures forall x0 :: Seqs.Filter(r, TiedWith(cmp, x0)) == Seqs.Filter(s, TiedWith(cmp, x0))
    decreases |s|
  {
    if |s| == 0 then []
    else
      var pre := s[..|s| - 1];
      var last := s[|s| - 1];
      assert s == pre + [last];
      SortStep(cmp, pre, last, Sort(cmp, pre));
      Insert(cmp, last, Sort(cmp, pre))
  }

  /** Sorting cannot create a tie: the tie classes of input and output are the same. */
  lemma SortKeepsDistinct<T(!new)>(cmp: (T, T) -> int, s: seq<T>)
    requires TotalPreorder(cmp)
    requires DistinctBy(cmp, s)
    ensures DistinctBy(cmp, Sort(cmp, s))
  {
    var r := Sort(cmp, s);
    forall i, j | 0 <= i < j < |r| ensures cmp(r[i], r[j]) != 0 {
      if cmp(r[i], r[j]) == 0 {
        var p := TiedWith(cmp, r[i]);
        assert cmp(r[i], r[i]) == 0;
        Seqs.FilterAtLeastTwo(r, p, i, j);
        Seqs.FilterTwo(s, p);
        assert false;
      }
    }
  }

  /** Two sorted permutations of each other without ties are equal. */
  lemma {:induction false} SortedDistinctUnique<T(!new)>(cmp: (T, T) -> int, a: seq<T>, b: seq<T>)
    requires TotalPreorder(cmp)
    requires multiset(a) == multiset(b)
    requires SortedBy(cmp, a) && SortedBy(cmp, b)
    requires DistinctBy(cmp, a) && DistinctBy(cmp, b)
    ensures a == b
    decreases |a|
  {
    assert |a| == |multiset(a)| == |multiset(b)| == |b|;
    if |a| > 0 {
      SameHead(cmp, a, b);
      assert a == [a[0]] + a[1..];
      assert b == [b[0]] + b[1..];
      assert multiset(a[1..]) == multiset(a) - multiset{a[0]};
      assert multiset(b[1..]) == multiset(b) - multiset{b[0]};
      SortedTail(cmp, a);
      SortedTail(cmp, b);
      DistinctTail(cmp, a);
      DistinctTail(cmp, b);
      SortedDistinctUnique(cmp, a[1..], b[1..]);
    }
  }

  /** Sorted permutations of each other without ties start with the same element. */
  lemma SameHead<T(!new)>(cmp: (T, T) -> int, a: seq<T>, b: seq<T>)
    requires TotalPreorder(cmp)
    requires multiset(a) == multiset(b) && |a| > 0 && |b| > 0
    requires SortedBy(cmp, a) && SortedBy(cmp, b)
    requires DistinctBy(cmp, a) && DistinctBy(cmp, b)
    ensures a[0] == b[0]
  {
    assert a[0] in multiset(b) && b[0] in multiset(a);
    var k :| 0 <= k < |b| && b[k] == a[0];
    var m :| 0 <= m < |a| && a[m] == b[0];
    assert cmp(b[0], b[0]) == 0 && cmp(a[0], a[0]) == 0;
    assert k == 0;
  }

  lemma DistinctTail<T(!new)>(cmp: (T, T) -> int, s: seq<T>)
    requires |s| > 0 && DistinctBy(cmp, s)
    ensures DistinctBy(cmp, s[1..])
  {
    forall i, j | 0 <= i < j < |s[1..]| ensures cmp(s[1..][i], s[1..][j]) != 0 {
      assert s[1..][i] == s[i + 1] && s[1..][j] == s[j + 1];
    }
  }

  lemma FlipIsTotalPreorder<T(!new)>(cmp: (T, T) -> int, flip: (T, T) -> int)
    requires TotalPreorder(cmp)
    requires forall a, b :: flip(a, b) == cmp(b, a)
    ensures TotalPreorder(flip)
  {
    forall a, b, c | flip(a, b) <= 0 && flip(b, c) <= 0 ensures flip(a, c) <= 0 {
      assert cmp(c, b) <= 0 && cmp(b, a) <= 0;
    }
  }

  /** Without ties, sorting by the flipped comparator reverses sorting by the comparator. */
  lemma SortFlippedIsReverse<T(!new)>(cmp: (T, T) -> int, flip: (T, T) -> int, s: seq<T>)
    requires TotalPreorder(cmp)
    requires forall a, b :: flip(a, b) == cmp(b, a)
    requires DistinctBy(cmp, s)
    ensures Sort(flip, s) == Seqs.Reverse(Sort(cmp, s))
  {
    FlipIsTotalPreorder(cmp, flip);
    var up := Sort(cmp, s);
    assert DistinctBy(flip, s) by {
      forall i, j | 0 <= i < j < |s| ensures flip(s[i], s[j]) != 0 {
        assert cmp(s[i], s[j]) != 0;
      }
    }
    var down := Sort(flip, s);
    SortKeepsDistinct(cmp, s);
    SortKeepsDistinct(flip, s);
    var r := Seqs.Reverse(up);
    Seqs.ReverseMultiset(up);
    ReverseSortedDistinct(cmp, flip, up);
    SortedDistinctUnique(flip, down, r);
  }

  lemma ReverseSortedDistinct<T(!new)>(cmp: (T, T) -> int, flip: (T, T) -> int, s: seq<T>)
    requires forall a, b :: flip(a, b) == cmp(b, a)
    requires SortedBy(cmp, s) && DistinctBy(cmp, s)
    ensures SortedBy(flip, Seqs.Reverse(s)) && DistinctBy(flip, Seqs.Reverse(s))
  {
    var r := Seqs.Reverse(s);
    forall i, j | 0 <= i < j < |r| ensures flip(r[i], r[j]) <= 0 && flip(r[i], r[j]) != 0 {
      assert r[i] == s[|s| - 1 - i] && r[j] == s[|s| - 1 - j];
    }
  }
}
