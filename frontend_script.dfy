/** The separate browser client (task-reminder-frontend/script.js): its search and status
    filter, its counters, the poll that raises at most one reminder a minute, and the test
    it applies to what the chat assistant sends back. One `now` stands for every
    `new Date()` of an operation. */
module FrontendScript {
  import opened Wrappers
  import opened JsText
  import opened Clock
  import opened TaskView
  import ChatMatch
  import ChatParser

  // ---------------------------------------------------------------------------
  // search and status filter (lines 515-532, query from line 652)

  /** The stored search query: the input lower-cased and trimmed. */
  function SearchQuery(input: string): string {
    Lower(Trim(input))
  }

  /** The query occurs in the lower-cased title, or in the lower-cased description when
      the task has a non-empty one. */
  predicate FrontMatchesSearch(t: ClientTask, query: string) {
    Contains(Lower(t.title), query) || (Truthy(t.description) && Contains(Lower(t.description.value), query))
  }

  /** Any filter other than "all" keeps the tasks whose status has that name. */
  predicate FrontPassesStatus(t: ClientTask, filter: string, now: int) {
    filter == "all" || StatusName(TaskStatus(t, now)) == filter
  }

  /** The tasks the list renders: the search applied when the query is not empty, then
      the status filter unless it is "all", then only the tasks that have an id. */
  function FrontVisible(tasks: seq<ClientTask>, query: string, filter: string, now: int): (r: seq<ClientTask>)
    ensures |r| <= |tasks|
  {
    var searched := if |query| > 0 then Filter(tasks, t => FrontMatchesSearch(t, query)) else tasks;
    var byStatus := if filter != "all" then Filter(searched, t => FrontPassesStatus(t, filter, now)) else searched;
    Filter(byStatus, t => Truthy(GetTaskId(t)))
  }

  /** The list renders each task that matches the query and the filter and has an id, as
      often as it is in the list, and no other task. */
  lemma FrontVisibleSpec(tasks: seq<ClientTask>, query: string, filter: string, now: int)
    ensures var r := FrontVisible(tasks, query, filter, now);
      forall t :: multiset(r)[t] ==
        if (|query| == 0 || FrontMatchesSearch(t, query)) && FrontPassesStatus(t, filter, now) && Truthy(GetTaskId(t))
        then multiset(tasks)[t] else 0
  {
    var p1 := t => FrontMatchesSearch(t, query);
    var p2 := t => FrontPassesStatus(t, filter, now);
    var p3 := t => Truthy(GetTaskId(t));
    var searched := if |query| > 0 then Filter(tasks, p1) else tasks;
    var byStatus := if filter != "all" then Filter(searched, p2) else searched;
    if |query| > 0 {
      FilterMultiset(tasks, p1);
    }
    if filter != "all" {
      FilterMultiset(searched, p2);
    }
    FilterMultiset(byStatus, p3);
  }

  /** The search ignores case: a title in which the trimmed input occurs matches the
      stored query, whatever the case of either. */
  lemma SearchIgnoresCase(t: ClientTask, input: string, i: nat)
    requires OccursAt(t.title, Trim(input), i)
    ensures FrontMatchesSearch(t, SearchQuery(input))
  {
    LowerOccurs(t.title, Trim(input), i);
    OccursContains(Lower(t.title), SearchQuery(input), i);
  }

  // ---------------------------------------------------------------------------
  // counters (lines 555-563)

  /** `updateStats`: pending counts every task not completed, overdue the ones of them
      past their due date. */
  function FrontendStats(tasks: seq<ClientTask>, now: int): (st: Stats)
    ensures st.total == |tasks|
  {
    Stats(|tasks|,
          |Filter(tasks, (t: ClientTask) => t.isCompleted)|,
          |Filter(tasks, (t: ClientTask) => !t.isCompleted)|,
          |Filter(tasks, t => IsPastDue(t, now) && !t.isCompleted)|)
  }

  /** Completed and pending split the list; the overdue tasks are among the pending
      ones, and are exactly those whose status is overdue. */
  lemma FrontendStatsAddUp(tasks: seq<ClientTask>, now: int)
    ensures var st := FrontendStats(tasks, now);
      && st.completed + st.pending == st.total
      && st.overdue <= st.pending
      && st.overdue == |Filter(tasks, t => TaskStatus(t, now) == Overdue)|
  {
    var overdue := t => IsPastDue(t, now) && !t.isCompleted;
    var status := t => TaskStatus(t, now) == Overdue;
    FilterPartition2(tasks, (t: ClientTask) => t.isCompleted, (t: ClientTask) => !t.isCompleted);
    FilterWeaker(tasks, overdue, (t: ClientTask) => !t.isCompleted);
    FilterSame(tasks, overdue, status);
  }

  lemma {:induction false} FilterSame(tasks: seq<ClientTask>, p: ClientTask -> bool, q: ClientTask -> bool)
    requires forall t :: p(t) == q(t)
    ensures Filter(tasks, p) == Filter(tasks, q)
  {
    if |tasks| > 0 {
      FilterSame(tasks[1..], p, q);
    }
  }

  // ---------------------------------------------------------------------------
  // the reminder poll (lines 777-803)

  /** A task the poll raises a reminder for: its id not yet reminded, not completed, a
      due date, a reminder time (`parseInt(undefined)` is NaN), and `now` between the
      reminder moment and the due date, both included. */
  predicate ShouldFire(t: ClientTask, active: set<Option<string>>, now: int) {
    && GetTaskId(t) !in active
    && !t.isCompleted
    && t.dueDate.Some?
    && t.reminderTime.Some?
    && var reminder := Clip(t.dueDate.value - t.reminderTime.value * MinuteMs);
       reminder.Some? && reminder.value <= now <= t.dueDate.value
  }

  /** The first task from `from` on that the poll raises a reminder for. */
  function FirstDueIndex(tasks: seq<ClientTask>, active: set<Option<string>>, now: int, from: nat): (i: Option<nat>)
    requires from <= |tasks|
    decreases |tasks| - from
    ensures i.Some? ==> from <= i.value < |tasks| && ShouldFire(tasks[i.value], active, now)
    ensures i.Some? ==> forall k :: from <= k < i.value ==> !ShouldFire(tasks[k], active, now)
    ensures i.None? ==> forall k :: from <= k < |tasks| ==> !ShouldFire(tasks[k], active, now)
  {
    if from == |tasks| then None
    else if ShouldFire(tasks[from], active, now) then Some(from)
    else FirstDueIndex(tasks, active, now, from + 1)
  }

  /** The task one poll reminds of, if any. */
  function FirstDue(tasks: seq<ClientTask>, active: set<Option<string>>, now: int): Option<ClientTask> {
    match FirstDueIndex(tasks, active, now, 0)
    case None => None
    case Some(i) => Some(tasks[i])
  }

  /** Once a task has been reminded of, no later poll reminds of a task with the same id,
      whatever the server sends and whenever the poll runs. */
  lemma FiresOncePerId(tasks1: seq<ClientTask>, tasks2: seq<ClientTask>, active: set<Option<string>>, now1: int, now2: int)
    ensures var f1 := FirstDue(tasks1, active, now1);
      f1.Some? ==>
        var f2 := FirstDue(tasks2, active + {GetTaskId(f1.value)}, now2);
        f2.Some? ==> GetTaskId(f2.value) != GetTaskId(f1.value)
  {
  }

  /** A task without a reminder time is never reminded of; one with a reminder time of
      zero only when the poll runs exactly at its due time. */
  lemma ReminderTimeQuirks(t: ClientTask, active: set<Option<string>>, now: int)
    ensures t.reminderTime.None? ==> !ShouldFire(t, active, now)
    ensures t.reminderTime == Some(0) && ShouldFire(t, active, now) ==> now == t.dueDate.value
  {
  }

  /** The loop of one poll: the tasks are skipped until one is due for a reminder. */
  method FindDue(tasks: seq<ClientTask>, active: set<Option<string>>, now: int) returns (r: Option<nat>)
    ensures r == FirstDueIndex(tasks, active, now, 0)
  {
    var i := 0;
    while i < |tasks|
      invariant 0 <= i <= |tasks|
      invariant FirstDueIndex(tasks, active, now, 0) == FirstDueIndex(tasks, active, now, i)
    {
      var task := tasks[i];
      if GetTaskId(task) in active || task.isCompleted {
        assert !ShouldFire(task, active, now);
        i := i + 1;
        continue;
      }
      if task.dueDate.None? {
        assert !ShouldFire(task, active, now);
        i := i + 1;
        continue;
      }
      if task.reminderTime.Some? {
        var reminder := Clip(task.dueDate.value - task.reminderTime.value * MinuteMs);
        if reminder.Some? && reminder.value <= now <= task.dueDate.value {
          assert ShouldFire(task, active, now);
          return Some(i);
        }
      }
      assert !ShouldFire(task, active, now);
      i := i + 1;
    }
    return None;
  }

  /** The ids already reminded of (`activeReminders`). */
  class ReminderPoller {
    var activeReminders: set<Option<string>>

    constructor ()
      ensures activeReminders == {}
    {
      activeReminders := {};
    }

    /** One run of the poll over the tasks the server returned: the first task due for a
        reminder is reminded of and its id remembered, and the loop stops there. */
    method Tick(tasks: seq<ClientTask>, now: int) returns (fired: Option<ClientTask>)
      modifies this
      ensures fired == FirstDue(tasks, old(activeReminders), now)
      ensures activeReminders ==
        if fired.Some? then old(activeReminders) + {GetTaskId(fired.value)} else old(activeReminders)
    {
      var i := FindDue(tasks, activeReminders, now);
      if i.Some? {
        var task := tasks[i.value];
        activeReminders := activeReminders + {GetTaskId(task)};
        fired := Some(task);
      } else {
        fired := None;
      }
    }
  }

  // ---------------------------------------------------------------------------
  // the chat assistant's answer (lines 733-736)

  /** The top-level fields of the JSON object the chat request returns. */
  datatype ChatReply = ChatReply(title: Option<string>, dueDate: Option<string>, reminderTime: Option<int>)

  /** The answer is taken as a task unless its title, due date or reminder time is
      missing or falsy; a reminder time of zero is falsy. */
  predicate AcceptChatReply(r: ChatReply) {
    Truthy(r.title) && Truthy(r.dueDate) && r.reminderTime.Some? && r.reminderTime.value != 0
  }

  /** A draft the assistant parsed from a non-blank message, carried in those fields with
      its due date as a non-empty date string, is accepted exactly when its reminder time
      is not zero. */
  lemma DraftAcceptance(text: string, rm: seq<Option<ChatMatch.Match>>, tm: seq<Option<ChatMatch.Match>>,
                        now: int, dueText: string)
    requires ChatParser.ParseInputOk(text, rm, tm, now)
    requires |Trim(text)| > 0 && |dueText| > 0
    requires ChatParser.ParseSpec(text, rm, tm, now).Success?
    ensures var d := ChatParser.ParseSpec(text, rm, tm, now).value;
      AcceptChatReply(ChatReply(Some(d.title), Some(dueText), Some(d.reminderTime))) <==> d.reminderTime != 0
  {
  }
}
