/** The Task document (task-reminder-backend/models/Task.js): its fields, the defaults a
    new document receives, the schema's validity constraints and the pre-save hook that
    stamps `updatedAt` and keeps the duplicated reminder and completion fields in step.

    A field that is undefined on the document is None. Dates are time values in
    milliseconds; the user reference is its id string. */
module TaskModel {
  import opened Wrappers

  const DefaultReminderMinutes: int := 15

  /** The fields of a task document. */
  datatype TaskFields = TaskFields(
    title: Option<string>,
    description: Option<string>,
    completed: Option<bool>,
    isCompleted: Option<bool>,
    userId: Option<string>,
    dueDate: Option<int>,
    reminderTime: Option<int>,
    reminderMinutesBefore: Option<int>,
    createdAt: Option<int>,
    updatedAt: Option<int>)

  /** The schema's defaults (lines 59-72, 115-154): a field left undefined on a new
      document takes its default; the two timestamps take the creation time. */
  function WithDefaults(given: TaskFields, now: int): (f: TaskFields)
    ensures f.completed.Some? && f.isCompleted.Some?
    ensures f.reminderTime.Some? && f.reminderMinutesBefore.Some?
    ensures f.createdAt.Some? && f.updatedAt.Some?
    ensures f.title == given.title && f.description == given.description
    ensures f.userId == given.userId && f.dueDate == given.dueDate
  {
    given.(
      completed := Some(given.completed.GetOr(false)),
      isCompleted := Some(given.isCompleted.GetOr(false)),
      reminderTime := Some(given.reminderTime.GetOr(DefaultReminderMinutes)),
      reminderMinutesBefore := Some(given.reminderMinutesBefore.GetOr(DefaultReminderMinutes)),
      createdAt := Some(given.createdAt.GetOr(now)),
      updatedAt := Some(given.updatedAt.GetOr(now)))
  }

  /** The schema's constraints (lines 35-38, 84-88, 100-103, 115-119): a title that is a
      non-empty string, a user and a due date, and a reminder time that is not negative
      when it is set. */
  predicate Valid(f: TaskFields) {
    && f.title.Some? && |f.title.value| > 0
    && f.userId.Some?
    && f.dueDate.Some?
    && (f.reminderTime.Some? ==> f.reminderTime.value >= 0)
  }

  /** The reminder and completion fields are in step: where either of a pair is defined,
      both are defined and equal. */
  predicate InSync(f: TaskFields) {
    && (f.reminderTime.Some? || f.reminderMinutesBefore.Some? ==> f.reminderTime == f.reminderMinutesBefore)
    && (f.completed.Some? || f.isCompleted.Some? ==> f.completed == f.isCompleted)
  }

  /** The fields the pre-save hook (lines 170-200) leaves behind. */
  function Synced(f: TaskFields, now: int): (r: TaskFields)
    ensures InSync(r)
    ensures r.updatedAt == Some(now)
  {
    var reminders :=
      if f.reminderTime.Some? then (f.reminderTime, f.reminderTime)
      else (f.reminderMinutesBefore, f.reminderMinutesBefore);
    var completion :=
      if f.isCompleted.Some? then (f.isCompleted, f.isCompleted)
      else (f.completed, f.completed);
    f.(updatedAt := Some(now),
       reminderTime := reminders.0, reminderMinutesBefore := reminders.1,
       completed := completion.0, isCompleted := completion.1)
  }

  /** A task document as the hook sees it: fields updated in place. */
  class TaskDocument {
    var title: Option<string>
    var description: Option<string>
    var completed: Option<bool>
    var isCompleted: Option<bool>
    var userId: Option<string>
    var dueDate: Option<int>
    var reminderTime: Option<int>
    var reminderMinutesBefore: Option<int>
    var createdAt: Option<int>
    var updatedAt: Option<int>

    function Fields(): TaskFields
      reads this
    {
      TaskFields(title, description, completed, isCompleted, userId, dueDate,
                 reminderTime, reminderMinutesBefore, createdAt, updatedAt)
    }

    /** `new Task(given)`: the given fields with the schema's defaults filled in. */
    constructor (given: TaskFields, now: int)
      ensures Fields() == WithDefaults(given, now)
    {
      title := given.title;
      description := given.description;
      completed := Some(given.completed.GetOr(false));
      isCompleted := Some(given.isCompleted.GetOr(false));
      userId := given.userId;
      dueDate := given.dueDate;
      reminderTime := Some(given.reminderTime.GetOr(DefaultReminderMinutes));
      reminderMinutesBefore := Some(given.reminderMinutesBefore.GetOr(DefaultReminderMinutes));
      createdAt := Some(given.createdAt.GetOr(now));
      updatedAt := Some(given.updatedAt.GetOr(now));
    }

    /** The pre-save hook: stamp the update time, then copy `reminderTime` onto
        `reminderMinutesBefore` (or back when only the latter is set), and `isCompleted`
        onto `completed` (or back when only the latter is set). */
    method PreSave(now: int)
      modifies this
      ensures Fields() == Synced(old(Fields()), now)
    {
      updatedAt := Some(now);
      if reminderTime.Some? {
        reminderMinutesBefore := reminderTime;
      } else if reminderMinutesBefore.Some? {
        reminderTime := reminderMinutesBefore;
      }
      if isCompleted.Some? {
        completed := isCompleted;
      } else if completed.Some? {
        isCompleted := completed;
      }
    }
  }

  /** The reminder fields after the hook: a defined `reminderTime` is kept and copied onto
      `reminderMinutesBefore`; `reminderTime` is only ever written when it was undefined,
      and then takes `reminderMinutesBefore`. */
  lemma HookSyncsReminder(f: TaskFields, now: int)
    ensures var r := Synced(f, now);
      && (f.reminderTime.Some? ==> r.reminderTime == f.reminderTime && r.reminderMinutesBefore == f.reminderTime)
      && (r.reminderTime != f.reminderTime ==> f.reminderTime.None? && r.reminderTime == f.reminderMinutesBefore)
      && (f.reminderTime.None? ==> r.reminderMinutesBefore == f.reminderMinutesBefore)
  {
  }

  /** The completion fields after the hook: a defined `isCompleted` wins, otherwise
      `isCompleted` takes `completed`. */
  lemma HookSyncsCompletion(f: TaskFields, now: int)
    ensures var r := Synced(f, now);
      && (f.isCompleted.Some? ==> r.completed == f.isCompleted && r.isCompleted == f.isCompleted)
      && (f.isCompleted.None? ==> r.isCompleted == f.completed && r.completed == f.completed)
  {
  }

  /** The hook changes no field other than the stamp and the two synchronised pairs. */
  lemma HookKeepsOtherFields(f: TaskFields, now: int)
    ensures var r := Synced(f, now);
      && r.title == f.title && r.description == f.description
      && r.userId == f.userId && r.dueDate == f.dueDate
      && r.createdAt == f.createdAt
  {
  }

  /** Saving twice leaves the same fields as saving once, apart from the later stamp, and
      a document already in step only has its stamp changed. */
  lemma HookIdempotent(f: TaskFields, t1: int, t2: int)
    ensures Synced(Synced(f, t1), t2) == Synced(f, t2)
    ensures InSync(f) ==> Synced(f, t2) == f.(updatedAt := Some(t2))
  {
  }

  /** A new document with nothing but the required fields given: reminders of 15 minutes,
      not completed, created and updated now, and already in step. */
  lemma NewDocumentDefaults(title: string, userId: string, due: int, now: int)
    requires |title| > 0
    ensures var f := WithDefaults(TaskFields(Some(title), None, None, None, Some(userId), Some(due),
                                             None, None, None, None), now);
      && f.reminderTime == Some(15) && f.reminderMinutesBefore == Some(15)
      && f.completed == Some(false) && f.isCompleted == Some(false)
      && f.createdAt == Some(now) && f.updatedAt == Some(now)
      && Valid(f) && InSync(f)
  {
  }

  /** The hook keeps a valid document valid exactly when it does not copy a negative
      `reminderMinutesBefore` into an undefined `reminderTime`: that field has no
      minimum of its own. */
  lemma HookValidity(f: TaskFields, now: int)
    requires Valid(f)
    ensures Valid(Synced(f, now)) <==>
      (f.reminderTime.Some? || f.reminderMinutesBefore.None? || f.reminderMinutesBefore.value >= 0)
  {
  }

  /** A valid document whose `reminderTime` is unset and whose `reminderMinutesBefore` is
      -5 leaves the hook with a reminder time of -5. */
  lemma NegativeReminderSlipsThrough(now: int)
    ensures var f := TaskFields(Some("Call"), None, None, None, Some("u1"), Some(0), None, Some(-5), None, None);
      Valid(f) && Synced(f, now).reminderTime == Some(-5) && !Valid(Synced(f, now))
  {
  }
}
