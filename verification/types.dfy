/**
 The record shapes shared by every component of the subscription dashboard:
 the subscription record, its two-valued status and the status resolver.
 Timestamps are modelled as instants (milliseconds since the epoch); the
 ISO-8601 text the dashboard stores is an encoding of such an instant.
 */
module Types {

  datatype Option<+T> = None | Some(value: T)

  datatype Result<+T, +E> = Success(value: T) | Failure(error: E)

  /** Opaque record identifier (a UUID in the dashboard). */
  type Id = string

  /** Milliseconds since the epoch, as `Date.getTime()` returns them. */
  type Instant = int

  datatype Status = Active | Expired

  /** The status as the literal string stored in the record. */
  function StatusText(s: Status): string
  {
    match s
    case Active => "active"
    case Expired => "expired"
  }

  datatype Subscription = Subscription(
    id: Id,
    email: string,
    password: string,
    startDate: Instant,
    endDate: Instant,
    status: Status)

  /** A record is active exactly when its end instant lies strictly after `now`. */
  function ResolveStatus(endDate: Instant, now: Instant): (s: Status)
    ensures s == Active <==> endDate > now
    ensures s == Expired <==> endDate <= now
  {
    if endDate > now then Active else Expired
  }

  /** The ids of a record sequence, in order. */
  function Ids(s: seq<Subscription>): (r: seq<Id>)
    ensures |r| == |s|
    ensures forall i :: 0 <= i < |s| ==> r[i] == s[i].id
  {
    if |s| == 0 then [] else [s[0].id] + Ids(s[1..])
  }

  /** The store invariant: no two records share an id. */
  predicate UniqueIds(s: seq<Subscription>)
  {
    forall i, j :: 0 <= i < j < |s| ==> s[i].id != s[j].id
  }

  predicate HasId(s: seq<Subscription>, id: Id)
  {
    exists i :: 0 <= i < |s| && s[i].id == id
  }
}
