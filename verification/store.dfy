/**
 The record store of the dashboard shell: the ordered collection of
 subscriptions with its add, delete and edit transitions, the initial load,
 and the login guard in front of it. The clock and the id generator are
 parameters: `now` is the current instant and `freshId` a new identifier.
 */
module Store {
  import opened Types
  import Seqs

  /** What the add form hands to the store: a record without id and status. */
  datatype Draft = Draft(email: string, password: string, startDate: Instant, endDate: Instant)

  /** Appends the draft under `freshId`, with its status resolved against `now`. */
  function Add(store: seq<Subscription>, draft: Draft, freshId: Id, now: Instant): (r: seq<Subscription>)
    ensures |r| == |store| + 1
    ensures r[..|store|] == store
    ensures r[|store|].id == freshId
    ensures r[|store|].email == draft.email && r[|store|].password == draft.password
    ensures r[|store|].startDate == draft.startDate && r[|store|].endDate == draft.endDate
    ensures r[|store|].status == Active <==> draft.endDate > now
  {
    store + [Subscription(freshId, draft.email, draft.password, draft.startDate, draft.endDate,
                          ResolveStatus(draft.endDate, now))]
  }

  /** A fresh id keeps the ids of the store unique. */
  lemma AddPreservesUniqueIds(store: seq<Subscription>, draft: Draft, freshId: Id, now: Instant)
    requires UniqueIds(store)
    requires !HasId(store, freshId)
    ensures UniqueIds(Add(store, draft, freshId, now))
    ensures HasId(Add(store, draft, freshId, now), freshId)
  {
    var r := Add(store, draft, freshId, now);
    assert r[|store|].id == freshId;
    forall i, j | 0 <= i < j < |r|
      ensures r[i].id != r[j].id
    {
      if j < |store| {
        assert r[i] == store[i] && r[j] == store[j];
      } else {
        assert r[i] == store[i];
      }
    }
  }

  function NotId(id: Id): Subscription -> bool
  {
    (x: Subscription) => x.id != id
  }

  /** Removes every record carrying `id`; the others keep their relative order. */
  function Delete(store: seq<Subscription>, id: Id): (r: seq<Subscription>)
    ensures forall x :: x in r ==> x.id != id
    ensures forall x :: x in store && x.id != id ==> x in r
    ensures Seqs.IsSubseq(r, store)
    ensures |r| <= |store|
  {
    Seqs.FilterIsSubseq(store, NotId(id));
    Seqs.FilterMembers(store, NotId(id));
    Seqs.Filter(store, NotId(id))
  }

  /** Deleting an id the store does not hold changes nothing. */
  lemma DeleteAbsentIsNoop(store: seq<Subscription>, id: Id)
    requires !HasId(store, id)
    ensures Delete(store, id) == store
  {
    forall x | x in store
      ensures NotId(id)(x)
    {
      var i :| 0 <= i < |store| && store[i] == x;
    }
    Seqs.FilterAll(store, NotId(id));
  }

  /** Deleting twice is deleting once. */
  lemma DeleteIdempotent(store: seq<Subscription>, id: Id)
    ensures Delete(Delete(store, id), id) == Delete(store, id)
  {
    Seqs.FilterIdempotent(store, NotId(id));
  }

  /** Every record other than `id` survives with its multiplicity; `id` is gone. */
  lemma DeleteMultiset(store: seq<Subscription>, id: Id)
    ensures forall x :: multiset(Delete(store, id))[x] == if x.id == id then 0 else multiset(store)[x]
    ensures !HasId(Delete(store, id), id)
  {
    Seqs.FilterMultiset(store, NotId(id));
  }

  /** Removing records cannot create a duplicate id. */
  lemma DeletePreservesUniqueIds(store: seq<Subscription>, id: Id)
    requires UniqueIds(store)
    ensures UniqueIds(Delete(store, id))
  {
    Seqs.FilterIsSubseq(store, NotId(id));
    SubseqPreservesUniqueIds(Delete(store, id), store);
  }

  lemma {:induction false} SubseqPreservesUniqueIds(a: seq<Subscription>, b: seq<Subscription>)
    requires Seqs.IsSubseq(a, b)
    requires UniqueIds(b)
    ensures UniqueIds(a)
    decreases |b|
  {
    if |a| > 0 {
      assert |b| > 0;
      assert UniqueIds(b[1..]) by {
        forall i, j | 0 <= i < j < |b[1..]| ensures b[1..][i].id != b[1..][j].id {
          assert b[1..][i] == b[i + 1] && b[1..][j] == b[j + 1];
        }
      }
      if a[0] == b[0] && Seqs.IsSubseq(a[1..], b[1..]) {
        SubseqPreservesUniqueIds(a[1..], b[1..]);
        SubseqMembers(a[1..], b[1..]);
        forall i, j | 0 <= i < j < |a| ensures a[i].id != a[j].id {
          if i == 0 {
            assert a[j] == a[1..][j - 1];
            var k :| 0 <= k < |b[1..]| && b[1..][k] == a[j];
            assert b[k + 1] == a[j];
          } else {
            assert a[i] == a[1..][i - 1] && a[j] == a[1..][j - 1];
          }
        }
      } else {
        SubseqPreservesUniqueIds(a, b[1..]);
      }
    }
  }

  lemma {:induction false} SubseqMembers<T(!new)>(a: seq<T>, b: seq<T>)
    requires Seqs.IsSubseq(a, b)
    ensures forall i :: 0 <= i < |a| ==> exists k :: 0 <= k < |b| && b[k] == a[i]
    decreases |b|
  {
    if |a| > 0 {
      if a[0] == b[0] && Seqs.IsSubseq(a[1..], b[1..]) {
        SubseqMembers(a[1..], b[1..]);
        forall i | 0 <= i < |a| ensures exists k :: 0 <= k < |b| && b[k] == a[i] {
          if i == 0 {
            assert b[0] == a[0];
          } else {
            var k :| 0 <= k < |b[1..]| && b[1..][k] == a[1..][i - 1];
            assert b[k + 1] == a[i];
          }
        }
      } else {
        SubseqMembers(a, b[1..]);
        forall i | 0 <= i < |a| ensures exists k :: 0 <= k < |b| && b[k] == a[i] {
          var k :| 0 <= k < |b[1..]| && b[1..][k] == a[i];
          assert b[k + 1] == a[i];
        }
      }
    }
  }

  /** Replaces, in place, every record whose id is that of `updated`. */
  function Edit(store: seq<Subscription>, updated: Subscription): (r: seq<Subscription>)
    ensures |r| == |store|
    ensures Ids(r) == Ids(store)
    ensures forall i :: 0 <= i < |store| && store[i].id != updated.id ==> r[i] == store[i]
    ensures forall i :: 0 <= i < |store| && store[i].id == updated.id ==> r[i] == updated
  {
    seq(|store|, i requires 0 <= i < |store| => if store[i].id == updated.id then updated else store[i])
  }

  /** With unique ids, editing writes `updated` at the one position holding its id and keeps the invariant. */
  lemma EditInPlace(store: seq<Subscription>, updated: Subscription, i: int)
    requires UniqueIds(store)
    requires 0 <= i < |store| && store[i].id == updated.id
    ensures Edit(store, updated) == store[i := updated]
    ensures UniqueIds(Edit(store, updated))
  {
    var r := Edit(store, updated);
    forall j | 0 <= j < |store| ensures r[j] == store[i := updated][j] {
      if j != i {
        assert store[j].id != updated.id by {
          if j < i { assert store[j].id != store[i].id; } else { assert store[i].id != store[j].id; }
        }
      }
    }
    assert forall a, b :: 0 <= a < b < |r| ==> r[a].id == Ids(r)[a] && r[b].id == Ids(r)[b];
  }

  /** Editing a record the store does not hold changes nothing. */
  lemma EditUnknownIsNoop(store: seq<Subscription>, updated: Subscription)
    requires !HasId(store, updated.id)
    ensures Edit(store, updated) == store
  {
  }

  /** Why the initial load can fail: the saved blob is not a record array. */
  datatype LoadError = MalformedSaved

  /**
   The initial store: `saved ? JSON.parse(saved) : []`. An absent or empty
   entry yields the empty store; `parse` stands for `JSON.parse`, whose
   failure the dashboard does not catch.
   */
  function LoadStore(saved: Option<string>, parse: string -> Option<seq<Subscription>>)
    : (r: Result<seq<Subscription>, LoadError>)
    ensures saved.None? || saved == Some("") ==> r == Success([])
    ensures saved.Some? && saved.value != "" && parse(saved.value).Some? ==> r == Success(parse(saved.value).value)
    ensures saved.Some? && saved.value != "" && parse(saved.value).None? ==> r.Failure?
  {
    match saved
    case None => Success([])
    case Some(text) =>
      if text == "" then Success([])
      else match parse(text)
        case Some(records) => Success(records)
        case None => Failure(MalformedSaved)
  }

  /**
   Persisting and reloading gives the store back: when `parse` inverts the
   serialiser `encode`, whose output is never empty (an array is written as
   at least `[]`), loading the saved text of any store yields that store.
   */
  lemma ReloadRoundTrip(store: seq<Subscription>, encode: seq<Subscription> -> string,
                        parse: string -> Option<seq<Subscription>>)
    requires forall s :: parse(encode(s)) == Some(s) && encode(s) != ""
    ensures LoadStore(Some(encode(store)), parse) == Success(store)
  {
    assert parse(encode(store)) == Some(store) && encode(store) != "";
  }

  /** The value `handleLogin` writes for the authentication flag. */
  const AUTH_FLAG: string := "true"

  /** The saved authentication flag counts only when it is the string "true". */
  function InitialAuthenticated(saved: Option<string>): (r: bool)
    ensures r <==> saved == Some("true")
  {
    saved.Some? && saved.value == "true"
  }

  const LOGIN_ALERT: string := "Please enter both email and password"

  /** The new flag, the value written to storage if any, and the alert shown if any. */
  datatype LoginOutcome = LoginOutcome(authenticated: bool, written: Option<string>, alert: Option<string>)

  /** `handleLogin`: any non-empty email and password authenticate and persist the flag; otherwise alert and change nothing. */
  function HandleLogin(authenticated: bool, email: string, password: string): (r: LoginOutcome)
    ensures r.authenticated <==> authenticated || (email != "" && password != "")
    ensures email != "" && password != "" ==> r.authenticated && r.written == Some(AUTH_FLAG) && r.alert.None?
    ensures email == "" || password == "" ==>
              r.authenticated == authenticated && r.written.None? && r.alert == Some(LOGIN_ALERT)
  {
    if email != "" && password != "" then LoginOutcome(true, Some(AUTH_FLAG), None)
    else LoginOutcome(authenticated, None, Some(LOGIN_ALERT))
  }

  /** The saved flag after a login: the written value, or the previous one when nothing was written. */
  function SavedAfter(saved: Option<string>, out: LoginOutcome): Option<string>
  {
    if out.written.Some? then out.written else saved
  }

  /**
   A login keeps the in-memory flag and the saved flag in agreement: starting
   from the flag read at load, reloading after any login restores exactly the
   flag the login left, so a successful login survives a reload.
   */
  lemma LoginSurvivesReload(saved: Option<string>, email: string, password: string)
    ensures var out := HandleLogin(InitialAuthenticated(saved), email, password);
            InitialAuthenticated(SavedAfter(saved, out)) == out.authenticated
    ensures email != "" && password != "" ==>
              InitialAuthenticated(SavedAfter(saved, HandleLogin(InitialAuthenticated(saved), email, password)))
  {
  }
}
