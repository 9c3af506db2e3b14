/**
 Inline editing in the subscription list: opening a record for editing, the
 cancel button, and the save handler, which validates the form, chooses the
 end date (custom or preset), recomputes the status and hands the record to
 the store's edit.
 */
module Editing {
  import opened Types
  import opened Durations
  import Store

  /** The partial record being edited; absent dates stand for empty strings. */
  datatype EditForm = EditForm(
    email: string,
    password: string,
    startDate: Option<Instant>,
    endDate: Option<Instant>)

  const EMPTY_EDIT_FORM: EditForm := EditForm("", "", None, None)

  datatype EditSession = EditSession(
    editingId: Option<Id>,
    form: EditForm,
    useCustomDate: bool,
    selectedDuration: int)

  const INITIAL_SESSION: EditSession := EditSession(None, EMPTY_EDIT_FORM, true, DEFAULT_SELECTOR)

  function FormOf(sub: Subscription): EditForm
  {
    EditForm(sub.email, sub.password, Some(sub.startDate), Some(sub.endDate))
  }

  /** `handleEdit`: load the record into the form and switch to the custom date. */
  function StartEdit(session: EditSession, sub: Subscription): (r: EditSession)
    ensures r.editingId == Some(sub.id)
    ensures r.form.email == sub.email && r.form.password == sub.password
    ensures r.form.startDate == Some(sub.startDate) && r.form.endDate == Some(sub.endDate)
    ensures r.useCustomDate
    ensures r.selectedDuration == session.selectedDuration
  {
    session.(editingId := Some(sub.id), form := FormOf(sub), useCustomDate := true)
  }

  /** `handleCancel`: close the edit, clear the form and select the custom date again. */
  function Cancel(session: EditSession): (r: EditSession)
    ensures r.editingId.None? && r.form == EMPTY_EDIT_FORM && r.useCustomDate
    ensures r.selectedDuration == session.selectedDuration
  {
    session.(editingId := None, form := EMPTY_EDIT_FORM, useCustomDate := true)
  }

  /**
   Cancelling discards an opened edit entirely: the session is as if the
   record had never been opened, and a save issued afterwards writes nothing.
   */
  lemma CancelDiscardsEdit(session: EditSession, sub: Subscription, store: seq<Subscription>, id: Id, now: Instant)
    ensures Cancel(StartEdit(session, sub)) == Cancel(session)
    ensures Cancel(Cancel(session)) == Cancel(session)
    ensures SaveToStore(store, Cancel(StartEdit(session, sub)), id, now) == store
  {
    assert Cancel(StartEdit(session, sub)).form.email == "";
  }

  /**
   The end instant a save chooses: the form's end date when the custom date
   is chosen and present, otherwise the preset duration from `now`.
   */
  function ChosenEnd(session: EditSession, now: Instant): (r: Instant)
    ensures session.useCustomDate && session.form.endDate.Some? ==> r == session.form.endDate.value
    ensures !(session.useCustomDate && session.form.endDate.Some?) ==>
              now + FALLBACK_HOURS * MS_PER_HOUR <= r <= now + 8760 * MS_PER_HOUR
  {
    if session.useCustomDate && session.form.endDate.Some? then session.form.endDate.value
    else PresetEnd(now, session.selectedDuration)
  }

  datatype SaveOutcome = SaveOutcome(updated: Option<Subscription>, session: EditSession)

  /** `handleSave(id)` at `now`. */
  function Save(session: EditSession, id: Id, now: Instant): (r: SaveOutcome)
    ensures r.updated.None? <==> session.form.email == "" || session.form.password == ""
    ensures r.updated.None? ==> r.session == session
    ensures r.updated.Some? ==>
              var u := r.updated.value;
              && u.id == id
              && u.email == session.form.email && u.password == session.form.password
              && u.startDate == (if session.form.startDate.Some? then session.form.startDate.value else now)
              && (session.useCustomDate && session.form.endDate.Some? ==> u.endDate == session.form.endDate.value)
              && (!(session.useCustomDate && session.form.endDate.Some?) ==>
                    u.endDate == AddHours(now, HoursFor(session.selectedDuration)) && u.status == Active)
              && (u.status == Active <==> u.endDate > now)
              && r.session == session.(editingId := None, form := EMPTY_EDIT_FORM)
  {
    var f := session.form;
    if f.email == "" || f.password == "" then SaveOutcome(None, session)
    else
      var end := ChosenEnd(session, now);
      var start := if f.startDate.Some? then f.startDate.value else now;
      var u := Subscription(id, f.email, f.password, start, end, ResolveStatus(end, now));
      SaveOutcome(Some(u), session.(editingId := None, form := EMPTY_EDIT_FORM))
  }

  /** The store after a save: the store's edit with the saved record, or the store unchanged. */
  function SaveToStore(store: seq<Subscription>, session: EditSession, id: Id, now: Instant): (r: seq<Subscription>)
    ensures |r| == |store| && Ids(r) == Ids(store)
    ensures session.form.email == "" || session.form.password == "" ==> r == store
  {
    match Save(session, id, now).updated
    case Some(u) => Store.Edit(store, u)
    case None => store
  }

  /**
   Opening a stored record and saving it without changes keeps every field
   in place and only recomputes its status against `now`.
   */
  lemma SaveUnchangedRecomputesStatus(store: seq<Subscription>, i: int, session: EditSession, now: Instant)
    requires UniqueIds(store)
    requires 0 <= i < |store|
    requires store[i].email != "" && store[i].password != ""
    ensures var sub := store[i];
            SaveToStore(store, StartEdit(session, sub), sub.id, now)
              == store[i := sub.(status := ResolveStatus(sub.endDate, now))]
  {
    var sub := store[i];
    var u := Save(StartEdit(session, sub), sub.id, now).updated.value;
    assert u == sub.(status := ResolveStatus(sub.endDate, now));
    Store.EditInPlace(store, u, i);
  }
}
