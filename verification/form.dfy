/**
 The add form: its input state, the browser's validation of its `required`
 inputs, and the submit handler that builds a draft and clears the inputs.
 */
module Form {
  import opened Types
  import opened Durations
  import Store

  /**
   The form's inputs. `endDate` is the custom end-date input (None while it is
   empty); `useCustomDate` chooses between it and the preset `selectedDuration`.
   */
  datatype AddForm = AddForm(
    email: string,
    password: string,
    endDate: Option<Instant>,
    useCustomDate: bool,
    selectedDuration: int)

  const INITIAL_ADD_FORM: AddForm := AddForm("", "", None, true, DEFAULT_SELECTOR)

  /**
   Constraint validation of the `required` inputs: email and password always,
   the end-date input only while the custom date is chosen. When it fails the
   submit event never reaches the handler.
   */
  predicate CanSubmit(f: AddForm)
  {
    f.email != "" && f.password != "" && (f.useCustomDate ==> f.endDate.Some?)
  }

  datatype Submission = Submission(draft: Store.Draft, form: AddForm)

  /** Submitting at `now`: the draft to add and the form left behind. */
  function Submit(f: AddForm, now: Instant): (r: Option<Submission>)
    ensures r.Some? <==> CanSubmit(f)
    ensures r.Some? ==> r.value.draft.startDate == now
    ensures r.Some? ==> r.value.draft.email == f.email && r.value.draft.password == f.password
    ensures r.Some? && f.useCustomDate ==> r.value.draft.endDate == f.endDate.value
    ensures r.Some? && !f.useCustomDate ==>
              r.value.draft.endDate > now && r.value.draft.endDate == AddHours(now, HoursFor(f.selectedDuration))
    ensures r.Some? ==> r.value.form == AddForm("", "", None, f.useCustomDate, f.selectedDuration)
  {
    if !CanSubmit(f) then None
    else
      var end := if f.useCustomDate then f.endDate.value else PresetEnd(now, f.selectedDuration);
      Some(Submission(Store.Draft(f.email, f.password, now, end),
                      f.(email := "", password := "", endDate := None)))
  }

  /** A preset-duration submission added at the same instant is active, and its end is the catalog's hours after `now`. */
  lemma PresetSubmissionIsActive(f: AddForm, now: Instant, store: seq<Subscription>, freshId: Id)
    requires CanSubmit(f) && !f.useCustomDate
    ensures var d := Submit(f, now).value.draft;
            var added := Store.Add(store, d, freshId, now)[|store|];
            && added.status == Active
            && added.startDate == now
            && (1 <= f.selectedDuration <= 6 ==>
                  added.endDate == now + DURATION_OPTIONS[f.selectedDuration - 1].hours * MS_PER_HOUR)
            && (!(1 <= f.selectedDuration <= 6) ==> added.endDate == now + 6 * MS_PER_HOUR)
  {
    HoursForTable(f.selectedDuration);
  }
}
