/**
 The list's bulk operations: the per-row checkbox toggle, the header's
 select-all, and the bulk delete that hands every selected id to the store.
 */
module Selection {
  import opened Types
  import Seqs
  import Store

  function Except(id: Id): Id -> bool
  {
    (y: Id) => y != id
  }

  /** `handleSelectItem`: drops `id` if it is selected, appends it otherwise. */
  function Toggle(sel: seq<Id>, id: Id): (r: seq<Id>)
    ensures id in r <==> id !in sel
    ensures forall y :: y != id ==> (y in r <==> y in sel)
  {
    Seqs.FilterMembers(sel, Except(id));
    if id in sel then Seqs.Filter(sel, Except(id)) else sel + [id]
  }

  /** Toggling twice restores the selected set, and the exact selection when `id` was not selected. */
  lemma ToggleTwice(sel: seq<Id>, id: Id)
    ensures forall y :: y in Toggle(Toggle(sel, id), id) <==> y in sel
    ensures id !in sel ==> Toggle(Toggle(sel, id), id) == sel
  {
    if id !in sel {
      Seqs.FilterAppend(sel, [id], Except(id));
      Seqs.FilterAll(sel, Except(id));
    }
  }

  /** A selection that started without repetitions never acquires one. */
  lemma ToggleKeepsDistinct(sel: seq<Id>, id: Id)
    requires Seqs.Distinct(sel)
    ensures Seqs.Distinct(Toggle(sel, id))
  {
    if id in sel {
      Seqs.FilterDistinct(sel, Except(id));
    }
  }

  /** `handleSelectAll`: checked selects the ids of the filtered records in list order; unchecked clears. */
  function SelectAll(checked: bool, filtered: seq<Subscription>): (r: seq<Id>)
    ensures checked ==> |r| == |filtered| && forall i :: 0 <= i < |r| ==> r[i] == filtered[i].id
    ensures !checked ==> r == []
  {
    if checked then Ids(filtered) else []
  }

  /** The header checkbox reads checked when the selection is as long as the filtered list. */
  predicate HeaderChecked(sel: seq<Id>, filtered: seq<Subscription>)
  {
    |sel| == |filtered|
  }

  /** Select-all checks the header, and over a store with unique ids selects each record once. */
  lemma SelectAllChecksHeader(filtered: seq<Subscription>)
    ensures HeaderChecked(SelectAll(true, filtered), filtered)
    ensures UniqueIds(filtered) ==> Seqs.Distinct(SelectAll(true, filtered))
  {
  }

  function NotSelected(sel: seq<Id>): Subscription -> bool
  {
    (x: Subscription) => x.id !in sel
  }

  /** The store and the selection after a bulk delete. */
  datatype BulkOutcome = BulkOutcome(store: seq<Subscription>, selection: seq<Id>)

  /**
   Bulk delete as the handler means it: every record whose id is selected
   is removed, the others keep their order, and the selection is cleared.
   */
  function DeleteSelected(store: seq<Subscription>, sel: seq<Id>): (r: BulkOutcome)
    ensures forall x :: x in r.store ==> x.id !in sel
    ensures forall x :: x in store && x.id !in sel ==> x in r.store
    ensures Seqs.IsSubseq(r.store, store)
    ensures r.selection == []
  {
    Seqs.FilterMembers(store, NotSelected(sel));
    Seqs.FilterIsSubseq(store, NotSelected(sel));
    BulkOutcome(Seqs.Filter(store, NotSelected(sel)), [])
  }

  /** `onDelete` applied to each selected id in turn, each call seeing the previous call's store. */
  function DeleteEach(store: seq<Subscription>, sel: seq<Id>): seq<Subscription>
    decreases |sel|
  {
    if |sel| == 0 then store else DeleteEach(Store.Delete(store, sel[0]), sel[1..])
  }

  /** Removing the selected ids at once is deleting them one after another. */
  lemma {:induction false} DeleteSelectedIsEachDeleted(store: seq<Subscription>, sel: seq<Id>)
    ensures DeleteSelected(store, sel).store == DeleteEach(store, sel)
    decreases |sel|
  {
    if |sel| == 0 {
      Seqs.FilterAll(store, NotSelected(sel));
    } else {
      var first := Store.NotId(sel[0]);
      DeleteSelectedIsEachDeleted(Store.Delete(store, sel[0]), sel[1..]);
      Seqs.FilterFilter(store, first, NotSelected(sel[1..]));
      assert sel == [sel[0]] + sel[1..];
      Seqs.FilterExt(store, Seqs.Both(first, NotSelected(sel[1..])), NotSelected(sel));
    }
  }

  /**
   Bulk delete as written: every `onDelete(id)` call filters the same
   render-time store and replaces the state with its own result, so the last
   call's result is the one that stays.
   */
  function DeleteSelectedAsWritten(store: seq<Subscription>, sel: seq<Id>): (r: BulkOutcome)
    ensures |sel| == 0 ==> r.store == store
    ensures |sel| > 0 ==> r.store == Store.Delete(store, sel[|sel| - 1])
    ensures r.selection == []
  {
    var last := if |sel| == 0 then store else Store.Delete(store, sel[|sel| - 1]);
    BulkOutcome(last, [])
  }

  /** As written, a selected id other than the last one survives the bulk delete. */
  lemma AsWrittenKeepsEarlierSelections(store: seq<Subscription>, sel: seq<Id>, i: int, k: int)
    requires 0 <= i < |sel| && 0 <= k < |store|
    requires store[k].id == sel[i] && sel[i] != sel[|sel| - 1]
    ensures HasId(DeleteSelectedAsWritten(store, sel).store, sel[i])
    ensures !HasId(DeleteSelected(store, sel).store, sel[i])
  {
    var r := DeleteSelectedAsWritten(store, sel).store;
    assert store[k] in r;
    var j :| 0 <= j < |r| && r[j] == store[k];
  }

  /** Two records selected together: the handler as written deletes only the second. */
  lemma BulkDeleteCounterexample()
    ensures var a := Subscription("a", "a@x.io", "pw", 0, 10, Active);
            var b := Subscription("b", "b@x.io", "pw", 0, 10, Active);
            DeleteSelectedAsWritten([a, b], ["a", "b"]).store == [a]
            && DeleteSelected([a, b], ["a", "b"]).store == []
  {
    var a := Subscription("a", "a@x.io", "pw", 0, 10, Active);
    var b := Subscription("b", "b@x.io", "pw", 0, 10, Active);
    assert Store.Delete([a, b], "b") == [a] by {
      assert Seqs.Filter([a, b], Store.NotId("b")) == [a] + Seqs.Filter([b], Store.NotId("b"));
    }
    assert DeleteSelected([a, b], ["a", "b"]).store == [] by {
      Seqs.FilterNone([a, b], NotSelected(["a", "b"]));
    }
  }
}
