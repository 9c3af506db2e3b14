/**
 The duration catalog shared by the add form and the inline edit form: six
 preset lengths, looked up by selector with a six-hour fallback, and the
 `addHours` arithmetic that turns a preset into an end instant.
 */
module Durations {
  import opened Types

  datatype DurationOption = DurationOption(value: int, labelKey: string, hours: int)

  /** The catalog, in presentation order. */
  const DURATION_OPTIONS: seq<DurationOption> := [
    DurationOption(1, "dashboard.duration.6hours", 6),
    DurationOption(2, "dashboard.duration.1month", 720),
    DurationOption(3, "dashboard.duration.2months", 1440),
    DurationOption(4, "dashboard.duration.3months", 2160),
    DurationOption(5, "dashboard.duration.6months", 4320),
    DurationOption(6, "dashboard.duration.1year", 8760)
  ]

  /** Hours used when the selector matches no entry (or an entry of zero hours). */
  const FALLBACK_HOURS: int := 6

  const MS_PER_HOUR: int := 3_600_000

  /** Both forms start with the first entry selected. */
  const DEFAULT_SELECTOR: int := DURATION_OPTIONS[0].value

  /** `Array.prototype.find` by selector value: the first matching entry. */
  function FindOption(opts: seq<DurationOption>, selector: int): (r: Option<DurationOption>)
    ensures r.None? <==> forall i :: 0 <= i < |opts| ==> opts[i].value != selector
    ensures r.Some? ==> exists i :: 0 <= i < |opts| && opts[i] == r.value && opts[i].value == selector &&
                          forall j :: 0 <= j < i ==> opts[j].value != selector
  {
    if |opts| == 0 then None
    else if opts[0].value == selector then Some(opts[0])
    else
      var r := FindOption(opts[1..], selector);
      if r.Some? then
        var i :| 0 <= i < |opts[1..]| && opts[1..][i] == r.value && opts[1..][i].value == selector &&
                 forall j :: 0 <= j < i ==> opts[1..][j].value != selector;
        assert opts[i + 1] == r.value;
        r
      else r
  }

  /** `find(opt => opt.value === selector)?.hours || 6`. */
  function HoursFor(selector: int): (h: int)
    ensures FALLBACK_HOURS <= h <= 8760
  {
    CatalogHoursInRange();
    match FindOption(DURATION_OPTIONS, selector)
    case Some(o) => if o.hours != 0 then o.hours else FALLBACK_HOURS
    case None => FALLBACK_HOURS
  }

  lemma CatalogHoursInRange()
    ensures forall o :: o in DURATION_OPTIONS ==> FALLBACK_HOURS <= o.hours <= 8760
  {
  }

  /** date-fns `addHours` on instants. */
  function AddHours(t: Instant, hours: int): Instant
  {
    t + hours * MS_PER_HOUR
  }

  /** The end instant of a preset duration started at `now`: between six hours and a year ahead. */
  function PresetEnd(now: Instant, selector: int): (r: Instant)
    ensures now + FALLBACK_HOURS * MS_PER_HOUR <= r <= now + 8760 * MS_PER_HOUR
  {
    AddHours(now, HoursFor(selector))
  }

  /** The catalog has six entries with selectors 1..6 (all distinct) and the listed hours, and defaults to the first. */
  lemma CatalogShape()
    ensures |DURATION_OPTIONS| == 6
    ensures forall i :: 0 <= i < 6 ==> DURATION_OPTIONS[i].value == i + 1
    ensures forall i, j :: 0 <= i < j < 6 ==> DURATION_OPTIONS[i].value != DURATION_OPTIONS[j].value
    ensures [DURATION_OPTIONS[0].hours, DURATION_OPTIONS[1].hours, DURATION_OPTIONS[2].hours,
             DURATION_OPTIONS[3].hours, DURATION_OPTIONS[4].hours, DURATION_OPTIONS[5].hours]
            == [6, 720, 1440, 2160, 4320, 8760]
    ensures DEFAULT_SELECTOR == 1
  {
  }

  /** Selector k in 1..6 yields the hours of the k-th entry; any other selector yields six hours. */
  lemma HoursForTable(selector: int)
    ensures 1 <= selector <= 6 ==> HoursFor(selector) == DURATION_OPTIONS[selector - 1].hours
    ensures !(1 <= selector <= 6) ==> HoursFor(selector) == FALLBACK_HOURS
  {
    CatalogShape();
    FindNumbered(DURATION_OPTIONS, 1, selector);
    if 1 <= selector <= 6 {
      assert DURATION_OPTIONS[selector - 1].hours != 0;
    }
  }

  /** In a list numbered consecutively from `k`, `find` by number picks the entry at that offset. */
  lemma {:induction false} FindNumbered(opts: seq<DurationOption>, k: int, selector: int)
    requires forall i :: 0 <= i < |opts| ==> opts[i].value == k + i
    ensures k <= selector < k + |opts| ==> FindOption(opts, selector) == Some(opts[selector - k])
    ensures !(k <= selector < k + |opts|) ==> FindOption(opts, selector) == None
    decreases |opts|
  {
    if |opts| > 0 && opts[0].value != selector {
      FindNumbered(opts[1..], k + 1, selector);
    }
  }
}
