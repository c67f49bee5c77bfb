/** The task board of the server's own browser page (task-reminder-backend/public/script.js):
    the reminder label on a task card, the search and status filter with the sort that
    orders the list, the counters, the reminder a task schedules for itself, the tasks a
    user is shown, the local update when a task is ticked, and the minute-by-minute check
    for reminders that are due. One `now` stands for every `new Date()` of an operation. */
module BoardScript {
  import opened Wrappers
  import opened JsText
  import opened Clock
  import opened TaskView

  // ---------------------------------------------------------------------------
  // the reminder label (lines 1614-1630)

  /** The reminder shown for a task whose reminder time is undefined or null. */
  const ShownDefaultMinutes: int := 15

  datatype TimeUnit = Days | Hours | Minutes

  function UnitWord(u: TimeUnit): string {
    match u
    case Days => "day"
    case Hours => "hour"
    case Minutes => "minute"
  }

  /** The count and unit of the label: whole days from a day on, whole hours from an hour
      on, else the minutes themselves. */
  function ReminderParts(minutes: int): (p: (int, TimeUnit))
    ensures p.1 == Days <==> minutes >= 1440
    ensures p.1 == Days ==> 1 <= p.0 && p.0 * 1440 <= minutes < (p.0 + 1) * 1440
    ensures p.1 == Hours <==> 60 <= minutes < 1440
    ensures p.1 == Hours ==> 1 <= p.0 < 24 && p.0 * 60 <= minutes < (p.0 + 1) * 60
    ensures p.1 == Minutes ==> p.0 == minutes < 60
  {
    if minutes >= 1440 then (minutes / 1440, Days)
    else if minutes >= 60 then (minutes / 60, Hours)
    else (minutes, Minutes)
  }

  /** What follows the count on the label: the unit, plural when the count is above one. */
  function LabelRest(count: int, unit: TimeUnit): string {
    " " + UnitWord(unit) + (if count > 1 then "s" else "") + " before"
  }

  /** The label of a task card, such as "2 hours before". */
  function ReminderText(reminderTime: Option<int>): string {
    var p := ReminderParts(reminderTime.GetOr(ShownDefaultMinutes));
    IntText(p.0) + LabelRest(p.0, p.1)
  }

  lemma PluralExactlyAboveOne(count: int, unit: TimeUnit)
    ensures LabelRest(count, unit) == " " + UnitWord(unit) + "s before" <==> count > 1
    ensures LabelRest(count, unit) == " " + UnitWord(unit) + " before" <==> count <= 1
  {
    var w := UnitWord(unit);
    assert (" " + w + "s before")[|w| + 1] == 's';
    assert (" " + w + " before")[|w| + 1] == ' ';
  }

  /** The label starts with the count, which `parseInt` reads back, and goes on with the
      unit, plural exactly when the count is above one. */
  lemma ReminderTextReadsBack(reminderTime: Option<int>)
    ensures var p := ReminderParts(reminderTime.GetOr(ShownDefaultMinutes));
      var text := ReminderText(reminderTime);
      var n := |IntText(p.0)|;
      && ParseInt(Some(text)) == Some(p.0)
      && n <= |text|
      && (text[n..] == " " + UnitWord(p.1) + "s before" <==> p.0 > 1)
      && (text[n..] == " " + UnitWord(p.1) + " before" <==> p.0 <= 1)
  {
    var p := ReminderParts(reminderTime.GetOr(ShownDefaultMinutes));
    var rest := LabelRest(p.0, p.1);
    ParseIntText(p.0, rest);
    assert ReminderText(reminderTime)[|IntText(p.0)|..] == rest;
    PluralExactlyAboveOne(p.0, p.1);
  }

  /** A task without a reminder time is labelled with the default of 15 minutes. */
  lemma DefaultReminderText()
    ensures ReminderText(None) == "15 minutes before"
  {
    assert IntText(15) == NatText(1) + [DigitChar(5)];
  }

  // ---------------------------------------------------------------------------
  // search, status filter and sort (lines 1771-1797)

  /** Not completed and not yet past the due date; false for an Invalid Date. */
  predicate PendingAt(t: ClientTask, now: int) {
    !t.isCompleted && t.dueDate.Some? && now <= t.dueDate.value
  }

  /** Not completed and past the due date; false for an Invalid Date. */
  predicate OverdueAt(t: ClientTask, now: int) {
    !t.isCompleted && t.dueDate.Some? && now > t.dueDate.value
  }

  /** The search box: the lower-cased query occurs in the lower-cased title or
      description (a missing description searches as the empty string). */
  predicate MatchesSearch(t: ClientTask, query: string) {
    var q := Lower(query);
    Contains(Lower(t.title), q) || Contains(Lower(t.description.GetOr("")), q)
  }

  /** The status buttons; any other filter value, "all" included, keeps every task. */
  predicate PassesStatus(t: ClientTask, filter: string, now: int) {
    if filter == "pending" then PendingAt(t, now)
    else if filter == "completed" then t.isCompleted
    else if filter == "overdue" then OverdueAt(t, now)
    else true
  }

  /** A task stays in the list: an empty query matches everything. */
  predicate Shown(t: ClientTask, query: string, filter: string, now: int) {
    (|query| == 0 || MatchesSearch(t, query)) && PassesStatus(t, filter, now)
  }

  /** The status filter agrees with the status badge on a task with a valid due date;
      on a task whose due date is an Invalid Date the badge says pending but neither the
      pending nor the overdue filter shows it. */
  lemma StatusFilterMatchesBadge(t: ClientTask, now: int, s: Status)
    ensures t.dueDate.Some? ==> (PassesStatus(t, StatusName(s), now) <==> TaskStatus(t, now) == s)
    ensures t.dueDate.None? && !t.isCompleted ==>
      TaskStatus(t, now) == Pending && !PassesStatus(t, "pending", now) && !PassesStatus(t, "overdue", now)
  {
  }

  /** The sort comparator read as "`a` goes strictly before `b`": an incomplete task
      before a completed one, otherwise the earlier due date first. An Invalid Date makes
      the difference NaN, which the sort takes as a tie. */
  predicate SortsBefore(a: ClientTask, b: ClientTask) {
    if a.isCompleted != b.isCompleted then !a.isCompleted
    else a.dueDate.Some? && b.dueDate.Some? && a.dueDate.value < b.dueDate.value
  }

  /** No task in the list goes strictly before one ahead of it. */
  predicate InBoardOrder(s: seq<ClientTask>) {
    forall i, j :: 0 <= i < j < |s| ==> !SortsBefore(s[j], s[i])
  }

  /** `x` put in front of the first task it goes strictly before. */
  function Insert(x: ClientTask, s: seq<ClientTask>): (r: seq<ClientTask>)
    ensures multiset(r) == multiset(s) + multiset{x}
  {
    if |s| == 0 then [x]
    else if SortsBefore(x, s[0]) then [x] + s
    else
      assert s == [s[0]] + s[1..];
      [s[0]] + Insert(x, s[1..])
  }

  /** `Array.prototype.sort` with the comparator, as an insertion sort: the same tasks,
      as often as they were there. */
  function SortTasks(s: seq<ClientTask>): (r: seq<ClientTask>)
    ensures multiset(r) == multiset(s)
  {
    if |s| == 0 then []
    else
      assert s == s[..|s| - 1] + [s[|s| - 1]];
      Insert(s[|s| - 1], SortTasks(s[..|s| - 1]))
  }

  lemma {:induction false} InsertInOrder(x: ClientTask, s: seq<ClientTask>)
    requires InBoardOrder(s)
    ensures InBoardOrder(Insert(x, s))
  {
    if |s| > 0 && !SortsBefore(x, s[0]) {
      InsertInOrder(x, s[1..]);
      var r := Insert(x, s[1..]);
      forall k | 0 <= k < |r|
        ensures !SortsBefore(r[k], s[0])
      {
        assert r[k] in multiset(r);
        if r[k] != x {
          assert r[k] in multiset(s[1..]);
          var j :| 0 <= j < |s[1..]| && s[1..][j] == r[k];
          assert s[j + 1] == r[k];
        }
      }
    }
  }

  /** The sorted list has every incomplete task before every completed one, and within
      each group no later due date before an earlier one. */
  lemma {:induction false} SortTasksOrder(s: seq<ClientTask>)
    ensures var r := SortTasks(s);
      && InBoardOrder(r)
      && (forall i, j :: 0 <= i < j < |r| && r[i].isCompleted ==> r[j].isCompleted)
      && (forall i, j ::
            (0 <= i < j < |r| && r[i].isCompleted == r[j].isCompleted && r[i].dueDate.Some? && r[j].dueDate.Some?)
            ==> r[i].dueDate.value <= r[j].dueDate.value)
  {
    if |s| > 0 {
      SortTasksOrder(s[..|s| - 1]);
      InsertInOrder(s[|s| - 1], SortTasks(s[..|s| - 1]));
    }
    var r := SortTasks(s);
    assert forall i, j :: 0 <= i < j < |r| ==> !SortsBefore(r[j], r[i]);
  }

  /** `filterAndDisplayTasks`: the tasks that pass the search and the status filter,
      sorted. */
  function VisibleTasks(tasks: seq<ClientTask>, query: string, filter: string, now: int): seq<ClientTask> {
    SortTasks(Filter(tasks, t => Shown(t, query, filter, now)))
  }

  /** The list shows each task that passes the filters as often as it is on the board,
      no other task, and in board order. */
  lemma VisibleTasksSpec(tasks: seq<ClientTask>, query: string, filter: string, now: int)
    ensures var r := VisibleTasks(tasks, query, filter, now);
      && (forall t :: Shown(t, query, filter, now) ==> multiset(r)[t] == multiset(tasks)[t])
      && (forall t :: !Shown(t, query, filter, now) ==> multiset(r)[t] == 0)
      && InBoardOrder(r)
  {
    var p := t => Shown(t, query, filter, now);
    FilterMultiset(tasks, p);
    SortTasksOrder(Filter(tasks, p));
  }

  // ---------------------------------------------------------------------------
  // counters (lines 1842-1846)

  /** `updateStats`: the number of tasks, of completed ones, of pending ones and of
      overdue ones. */
  function BackendStats(tasks: seq<ClientTask>, now: int): (st: Stats)
    ensures st.total == |tasks|
    ensures st.completed <= st.total && st.pending <= st.total && st.overdue <= st.total
  {
    Stats(|tasks|,
          |Filter(tasks, (t: ClientTask) => t.isCompleted)|,
          |Filter(tasks, t => PendingAt(t, now))|,
          |Filter(tasks, t => OverdueAt(t, now))|)
  }

  predicate AllDated(tasks: seq<ClientTask>) {
    forall i :: 0 <= i < |tasks| ==> tasks[i].dueDate.Some?
  }

  /** When every due date is valid, each task is counted under exactly one of completed,
      pending and overdue. */
  lemma BackendStatsAddUp(tasks: seq<ClientTask>, now: int)
    requires AllDated(tasks)
    ensures var st := BackendStats(tasks, now);
      st.completed + st.pending + st.overdue == st.total
  {
    FilterPartition3(tasks, (t: ClientTask) => t.isCompleted, t => PendingAt(t, now), t => OverdueAt(t, now));
  }

  /** An incomplete task with an Invalid Date is in the total but under no counter. */
  lemma UndatedTaskUncounted(t: ClientTask, now: int)
    requires !t.isCompleted && t.dueDate.None?
    ensures var st := BackendStats([t], now);
      st.total == 1 && st.completed + st.pending + st.overdue == 0
  {
  }

  // ---------------------------------------------------------------------------
  // scheduleReminder (lines 333-362)

  /** The reminder minutes `scheduleReminder` uses: 10 when the task has none or zero. */
  function ScheduledMinutes(t: ClientTask): int {
    if t.reminderTime.Some? && t.reminderTime.value != 0 then t.reminderTime.value else 10
  }

  /** The delay after which the reminder is shown, when one is scheduled: only for a
      reminder moment still to come and at most a day ahead. An Invalid Date makes
      `toISOString` throw, which the function catches, and nothing is scheduled. */
  function ScheduleDelay(t: ClientTask, now: int): (delay: Option<int>)
    ensures delay.Some? ==> 0 < delay.value <= DayMs
    ensures delay.Some? ==> t.dueDate.Some? && delay.value == t.dueDate.value - ScheduledMinutes(t) * MinuteMs - now
  {
    if t.dueDate.None? then None
    else
      var reminder := Clip(t.dueDate.value - ScheduledMinutes(t) * MinuteMs);
      if reminder.Some? && reminder.value > now && reminder.value - now <= DayMs
      then Some(reminder.value - now)
      else None
  }

  /** A reminder is scheduled exactly when its moment is valid and falls within the next
      day; a reminder time of zero is scheduled like one of 10 minutes. */
  lemma ScheduleWindow(t: ClientTask, now: int)
    requires t.dueDate.Some?
    ensures var reminder := t.dueDate.value - ScheduledMinutes(t) * MinuteMs;
      ScheduleDelay(t, now).Some? <==> IsValidTime(reminder) && now < reminder <= now + DayMs
    ensures ScheduleDelay(t.(reminderTime := Some(0)), now) == ScheduleDelay(t.(reminderTime := Some(10)), now)
    ensures ScheduleDelay(t.(reminderTime := None), now) == ScheduleDelay(t.(reminderTime := Some(10)), now)
  {
  }

  // ---------------------------------------------------------------------------
  // the tasks a user sees (lines 1228-1245)

  /** The task's user: the first of `userId`, `createdBy`, `owner` and `user` that is a
      non-empty string. */
  function OwnerOf(t: ClientTask): (o: Option<string>)
    ensures o.None? <==> !Truthy(t.userId) && !Truthy(t.createdBy) && !Truthy(t.owner) && !Truthy(t.user)
    ensures o.Some? ==> |o.value| > 0
    ensures Truthy(t.userId) ==> o == t.userId
  {
    if Truthy(t.userId) then t.userId
    else if Truthy(t.createdBy) then t.createdBy
    else if Truthy(t.owner) then t.owner
    else if Truthy(t.user) then t.user
    else None
  }

  /** The task has a user and it is the given one, both trimmed. */
  predicate BelongsTo(t: ClientTask, userId: string) {
    OwnerOf(t).Some? && Trim(OwnerOf(t).value) == Trim(userId)
  }

  /** The server's tasks kept for the signed-in user: those of that user, then those
      with an id. */
  function UserTasks(serverTasks: seq<ClientTask>, userId: string): (r: seq<ClientTask>)
    ensures forall t :: t in r <==> t in serverTasks && BelongsTo(t, userId) && Truthy(GetTaskId(t))
    ensures |r| <= |serverTasks|
  {
    Filter(Filter(serverTasks, t => BelongsTo(t, userId)), t => Truthy(GetTaskId(t)))
  }

  /** A task whose `userId` names another user is dropped even when its `createdBy` names
      the signed-in one. */
  lemma FirstOwnerDecides(t: ClientTask, userId: string)
    requires Truthy(t.userId) && Trim(t.userId.value) != Trim(userId)
    ensures t !in UserTasks([t], userId)
  {
  }

  /** What the server answered to the task request. */
  datatype Reply =
    | TaskList(tasks: seq<ClientTask>)
    | Unauthorised   // 401 or 403
    | NoTasks        // 404
    | Failed         // any other error, or a network failure

  /** The board after `loadTasks`: with no signed-in user, or when the session is
      refused, the list is emptied; a 404 empties it too; a list of tasks replaces it with
      the user's tasks; any other failure leaves it as it was. */
  function AfterLoad(before: seq<ClientTask>, currentUserId: Option<string>, reply: Reply): (r: seq<ClientTask>)
    ensures !Truthy(currentUserId) ==> r == []
    ensures r != before ==> reply != Failed || !Truthy(currentUserId)
    ensures forall t :: t in r && reply != Failed ==> BelongsTo(t, currentUserId.value) && Truthy(GetTaskId(t))
  {
    if !Truthy(currentUserId) then []
    else match reply
      case TaskList(ts) => UserTasks(ts, currentUserId.value)
      case Unauthorised => []
      case NoTasks => []
      case Failed => before
  }

  // ---------------------------------------------------------------------------
  // ticking a task (lines 1548-1551)

  /** The task carries the id, as `getTaskId(t) === id` compares them. */
  predicate HasId(t: ClientTask, id: string) {
    GetTaskId(t) == Some(id)
  }

  /** `allTasks.findIndex(t => getTaskId(t) === id)`, searching from `from` on. */
  function FindTaskIndexFrom(tasks: seq<ClientTask>, id: string, from: nat): (i: Option<nat>)
    requires from <= |tasks|
    decreases |tasks| - from
    ensures i.Some? ==> from <= i.value < |tasks| && HasId(tasks[i.value], id)
    ensures i.Some? ==> forall k :: from <= k < i.value ==> !HasId(tasks[k], id)
    ensures i.None? ==> forall k :: from <= k < |tasks| ==> !HasId(tasks[k], id)
  {
    if from == |tasks| then None
    else if HasId(tasks[from], id) then Some(from)
    else FindTaskIndexFrom(tasks, id, from + 1)
  }

  /** `allTasks.findIndex(t => getTaskId(t) === id)`: the first task with that id. */
  function FindTaskIndex(tasks: seq<ClientTask>, id: string): Option<nat> {
    FindTaskIndexFrom(tasks, id, 0)
  }

  lemma FindTaskIndexAt(tasks: seq<ClientTask>, id: string, i: nat)
    requires i <= |tasks|
    requires forall k :: 0 <= k < i ==> !HasId(tasks[k], id)
    requires i < |tasks| ==> HasId(tasks[i], id)
    ensures FindTaskIndex(tasks, id) == if i < |tasks| then Some(i) else None
  {
    var r := FindTaskIndex(tasks, id);
    if r.Some? {
      assert r.value >= i;
    }
  }

  /** The search loop of `findIndex`. */
  method FindIndex(tasks: seq<ClientTask>, id: string) returns (r: Option<nat>)
    ensures r == FindTaskIndex(tasks, id)
  {
    var i := 0;
    while i < |tasks| && !HasId(tasks[i], id)
      invariant 0 <= i <= |tasks|
      invariant forall k :: 0 <= k < i ==> !HasId(tasks[k], id)
    {
      i := i + 1;
    }
    FindTaskIndexAt(tasks, id, i);
    r := if i < |tasks| then Some(i) else None;
  }

  /** The board after the first task with the id took the new completion flag. */
  function MarkCompleted(tasks: seq<ClientTask>, id: string, completed: bool): (r: seq<ClientTask>)
    ensures |r| == |tasks|
  {
    match FindTaskIndex(tasks, id)
    case None => tasks
    case Some(i) => tasks[i := tasks[i].(isCompleted := completed)]
  }

  /** Ticking changes the completion flag of the first task with the id, whose status
      then follows the flag, and nothing else; an unknown id changes nothing. */
  lemma MarkCompletedEffect(tasks: seq<ClientTask>, id: string, completed: bool, now: int)
    ensures var r := MarkCompleted(tasks, id, completed);
      match FindTaskIndex(tasks, id)
      case None => r == tasks
      case Some(i) =>
        && r[i] == tasks[i].(isCompleted := completed)
        && (TaskStatus(r[i], now) == Completed <==> completed)
        && (forall k :: 0 <= k < |tasks| && k != i ==> r[k] == tasks[k])
  {
  }

  // ---------------------------------------------------------------------------
  // checkForDueReminders (lines 2078-2096)

  /** A task whose reminder is due now: not completed, and `now` within a minute of the
      reminder moment, taken `reminderTime || 15` minutes before the due date. */
  predicate ReminderDueAt(t: ClientTask, now: int) {
    var minutes := if t.reminderTime.Some? && t.reminderTime.value != 0 then t.reminderTime.value else 15;
    && !t.isCompleted
    && t.dueDate.Some?
    && var reminder := Clip(t.dueDate.value - minutes * MinuteMs);
       reminder.Some? && -MinuteMs <= now - reminder.value <= MinuteMs
  }

  /** The tasks whose reminder is due, in board order. */
  function DueReminders(tasks: seq<ClientTask>, now: int): (r: seq<ClientTask>)
    ensures forall t :: t in r <==> t in tasks && ReminderDueAt(t, now)
  {
    Filter(tasks, t => ReminderDueAt(t, now))
  }

  lemma DueRemindersAppend(tasks: seq<ClientTask>, t: ClientTask, now: int)
    ensures DueReminders(tasks + [t], now) == DueReminders(tasks, now) + (if ReminderDueAt(t, now) then [t] else [])
  {
    FilterAppend(tasks, t, t => ReminderDueAt(t, now));
  }

  /** A task with no reminder time is reminded 15 minutes before it is due, give or take
      the minute of the check. */
  lemma DefaultReminderMoment(t: ClientTask, now: int)
    requires t.reminderTime.None? && !t.isCompleted && t.dueDate.Some?
    requires IsValidTime(t.dueDate.value - 15 * MinuteMs)
    ensures ReminderDueAt(t, now) <==> 14 * MinuteMs <= t.dueDate.value - now <= 16 * MinuteMs
  {
  }

  // ---------------------------------------------------------------------------
  // the board's state

  /** The page's list of tasks (`allTasks`). */
  class TaskBoard {
    var allTasks: seq<ClientTask>

    constructor ()
      ensures allTasks == []
    {
      allTasks := [];
    }

    /** `loadTasks`, given the signed-in user's id and the server's answer. */
    method LoadTasks(currentUserId: Option<string>, reply: Reply)
      modifies this
      ensures allTasks == AfterLoad(old(allTasks), currentUserId, reply)
    {
      if !Truthy(currentUserId) {
        allTasks := [];
        return;
      }
      match reply
      case TaskList(ts) =>
        allTasks := UserTasks(ts, currentUserId.value);
      case Unauthorised =>
        allTasks := [];
      case NoTasks =>
        allTasks := [];
      case Failed =>
    }

    /** The local update after the server accepted a tick: the first task with the id
        takes the new flag. */
    method SetCompleted(id: string, completed: bool)
      modifies this
      ensures allTasks == MarkCompleted(old(allTasks), id, completed)
    {
      var i := FindIndex(allTasks, id);
      if i.Some? {
        allTasks := allTasks[i.value := allTasks[i.value].(isCompleted := completed)];
      }
    }

    /** `checkForDueReminders`: the tasks whose reminder is shown now, in order; none
        when nobody is signed in. */
    method CheckForDueReminders(authenticated: bool, now: int) returns (shown: seq<ClientTask>)
      ensures shown == if authenticated then DueReminders(allTasks, now) else []
    {
      shown := [];
      if !authenticated || |allTasks| == 0 {
        return;
      }
      var i := 0;
      while i < |allTasks|
        invariant 0 <= i <= |allTasks|
        invariant shown == DueReminders(allTasks[..i], now)
      {
        var t := allTasks[i];
        DueRemindersAppend(allTasks[..i], t, now);
        assert allTasks[..i + 1] == allTasks[..i] + [t];
        if ReminderDueAt(t, now) {
          shown := shown + [t];
        }
        i := i + 1;
      }
      assert allTasks[..i] == allTasks;
    }
  }
}
