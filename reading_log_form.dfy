/** The reading-log form of src/components/books/ReadingLogForm.tsx: its schema, its
    default values, which fields each status asks for, and what a submission stores. */
module ReadingLogForm {
  import opened Wrappers
  import opened Types
  import opened Api

  /** The inputs as typed, before the schema checks them; the status is free text. */
  datatype RawValues = RawValues(
    status: string,
    rating: Option<int>,
    startDate: Option<string>,
    finishDate: Option<string>,
    notes: Option<string>)

  /** The values the schema lets through. */
  datatype FormValues = FormValues(
    status: ReadingStatus,
    rating: Option<int>,
    startDate: Option<string>,
    finishDate: Option<string>,
    notes: Option<string>)

  /** The schema: the status must be one of the three labels and a rating, when given,
      must lie between 1 and 5; dates and notes are any strings or absent. */
  function ParseForm(raw: RawValues): (r: Option<FormValues>)
    ensures r.Some? <==> ParseStatus(raw.status).Some? && (raw.rating.None? || 1 <= raw.rating.value <= 5)
    ensures r.Some? ==> && StatusLabel(r.value.status) == raw.status
                        && r.value.rating == raw.rating
                        && r.value.startDate == raw.startDate
                        && r.value.finishDate == raw.finishDate
                        && r.value.notes == raw.notes
  {
    match ParseStatus(raw.status)
    case None => None
    case Some(status) =>
      if raw.rating.Some? && !(1 <= raw.rating.value <= 5) then None
      else Some(FormValues(status, raw.rating, raw.startDate, raw.finishDate, raw.notes))
  }

  /** The initial values: those of the existing log (absent notes shown as the empty
      string), or 'Want to Read' with no rating and empty dates and notes. */
  function DefaultValues(existingLog: Option<ReadingLog>): (v: FormValues)
    ensures existingLog.None? ==>
              v.status == WantToRead && v.rating.None? && v.startDate == Some("") && v.finishDate == Some("") && v.notes == Some("")
    ensures existingLog.Some? ==>
              && v.status == existingLog.value.status
              && v.rating == existingLog.value.rating
              && v.startDate == existingLog.value.startDate
              && v.finishDate == existingLog.value.finishDate
              && (existingLog.value.notes.Some? ==> v.notes == existingLog.value.notes)
              && (existingLog.value.notes.None? ==> v.notes == Some(""))
  {
    match existingLog
    case Some(log) =>
      FormValues(log.status, log.rating, log.startDate, log.finishDate, Some(log.notes.GetOr("")))
    case None =>
      FormValues(WantToRead, None, Some(""), Some(""), Some(""))
  }

  /** The start-date field is on screen for 'Reading' and 'Read'. */
  function ShowsStartDate(status: ReadingStatus): (r: bool)
    ensures r <==> StatusLabel(status) == "Reading" || StatusLabel(status) == "Read"
  {
    status == Reading || status == Read
  }

  /** The finish-date and rating fields are on screen for 'Read' only. */
  function ShowsFinishDateAndRating(status: ReadingStatus): (r: bool)
    ensures r <==> StatusLabel(status) == "Read"
    ensures r ==> ShowsStartDate(status)
  {
    status == Read
  }

  /** The `logData` object built on submit: user from the session, book from the
      form's prop, status and rating as entered (the rating is kept whatever the
      status), and empty dates and notes made absent. */
  function LogDataOf(values: FormValues, user: User, bookId: string): (d: LogData)
    ensures d.userId == user.id && d.bookId == bookId
    ensures d.status == values.status && d.rating == values.rating
    ensures d.startDate != Some("") && d.finishDate != Some("") && d.notes != Some("")
    ensures values.startDate != Some("") ==> d.startDate == values.startDate
    ensures values.finishDate != Some("") ==> d.finishDate == values.finishDate
    ensures values.notes != Some("") ==> d.notes == values.notes
    ensures d.book.None?
  {
    LogData(user.id, bookId, values.status, values.rating,
            OrAbsent(values.startDate), OrAbsent(values.finishDate), OrAbsent(values.notes), None)
  }

  /** The same object passed as a patch: every key except `id` and `book` is present,
      so absent dates and notes overwrite with `undefined`. */
  function PatchOf(d: LogData): (p: LogPatch)
    ensures p.id.None? && p.book.None?
    ensures p.rating.Some? && p.startDate.Some? && p.finishDate.Some? && p.notes.Some?
  {
    LogPatch(None, Some(d.userId), Some(d.bookId), Some(d.status),
             Some(d.rating), Some(d.startDate), Some(d.finishDate), Some(d.notes), None)
  }

  /** Updating with the form's patch keeps the record's id and attached book and
      takes every other field from the submitted data. */
  lemma {:induction false} PatchReplacesAllButIdAndBook(log: ReadingLog, d: LogData)
    ensures Merge(log, PatchOf(d)) == LogWithId(d, log.id).(book := log.book)
  {
    var p := PatchOf(d);
    assert p.id == None && p.book == None;
  }

  /** Opening the form on an existing log of the signed-in user and submitting it
      unchanged leaves the log as it was, provided none of its dates or notes is the
      empty string. */
  lemma SubmitUnchangedIsNoOp(log: ReadingLog, user: User)
    requires log.userId == user.id
    requires log.startDate != Some("") && log.finishDate != Some("") && log.notes != Some("")
    ensures Merge(log, PatchOf(LogDataOf(DefaultValues(Some(log)), user, log.bookId))) == log
  {
    PatchReplacesAllButIdAndBook(log, LogDataOf(DefaultValues(Some(log)), user, log.bookId));
  }

  /** The store call a submission makes. */
  datatype SaveCall = UpdateCall(id: string, patch: LogPatch) | AddCall(data: LogData)

  /** `onSubmit`'s choice: nothing without a signed-in user; an update by the existing
      log's id when the form was opened on one; otherwise an add. */
  function ChooseSave(user: Option<User>, bookId: string, existingLog: Option<ReadingLog>, values: FormValues): (c: Option<SaveCall>)
    ensures c.None? <==> user.None?
    ensures user.Some? && existingLog.Some? ==>
              c == Some(UpdateCall(existingLog.value.id, PatchOf(LogDataOf(values, user.value, bookId))))
    ensures user.Some? && existingLog.None? ==> c == Some(AddCall(LogDataOf(values, user.value, bookId)))
  {
    match user
    case None => None
    case Some(u) =>
      var logData := LogDataOf(values, u, bookId);
      match existingLog
      case Some(log) => Some(UpdateCall(log.id, PatchOf(logData)))
      case None => Some(AddCall(logData))
  }

  /** How a submission ended. */
  datatype SubmitOutcome = NotSignedIn | Saved(log: ReadingLog) | Failed(error: ApiError)

  /** `onSubmit`: makes the chosen store call and reports its result; a rejected call
      is reported as a failure and leaves the store as it was. */
  method OnSubmit(store: Store, user: Option<User>, bookId: string, existingLog: Option<ReadingLog>,
                  values: FormValues, newId: string) returns (out: SubmitOutcome)
    requires forall i :: 0 <= i < |store.readingLogs| ==> store.readingLogs[i].id != newId
    modifies store`readingLogs
    ensures user.None? ==> out == NotSignedIn && store.readingLogs == old(store.readingLogs)
    ensures user.Some? && existingLog.None? ==>
              var log := LogWithId(LogDataOf(values, user.value, bookId), newId);
              out == Saved(log) && store.readingLogs == Upserted(old(store.readingLogs), log)
    ensures user.Some? && existingLog.Some? && LogIdIndex(old(store.readingLogs), existingLog.value.id) == -1 ==>
              out == Failed(ReadingLogNotFound) && store.readingLogs == old(store.readingLogs)
    ensures user.Some? && existingLog.Some? && LogIdIndex(old(store.readingLogs), existingLog.value.id) >= 0 ==>
              var k := LogIdIndex(old(store.readingLogs), existingLog.value.id);
              && out == Saved(Merge(old(store.readingLogs)[k], PatchOf(LogDataOf(values, user.value, bookId))))
              && store.readingLogs == old(store.readingLogs)[k := out.log]
  {
    var call := ChooseSave(user, bookId, existingLog, values);
    match call
    case None =>
      out := NotSignedIn;
    case Some(UpdateCall(id, patch)) =>
      var result := store.UpdateReadingLog(id, patch);
      out := if result.Success? then Saved(result.value) else Failed(result.error);
    case Some(AddCall(logData)) =>
      var log := store.AddToReadingLog(logData, newId);
      out := Saved(log);
  }
}
