/** The task helpers both browser scripts define identically
    (task-reminder-backend/public/script.js:1157-1180 and
    task-reminder-frontend/script.js:35-64): the task id, the status and the priority
    class, over a task as the server sends it and one `now`. Also the filtering and
    counting the scripts do with `Array.prototype.filter`. */
module TaskView {
  import opened Wrappers
  import opened JsText
  import opened Clock

  /** A task as the browser receives it. `mongoId` is the `_id` field; ids and user
      references are strings; the due date is the time value `new Date(task.dueDate)`
      gives (None when missing or not a date); `reminderTime` is None when undefined or
      null. */
  datatype ClientTask = ClientTask(
    mongoId: Option<string>,
    id: Option<string>,
    title: string,
    description: Option<string>,
    isCompleted: bool,
    dueDate: Date,
    reminderTime: Option<int>,
    userId: Option<string>,
    createdBy: Option<string>,
    owner: Option<string>,
    user: Option<string>)

  // ---------------------------------------------------------------------------
  // getTaskId

  /** `getTaskId(task)`: `_id` when it is a non-empty string, else `id`, trimmed; null
      (None) when neither is. */
  function GetTaskId(t: ClientTask): (r: Option<string>)
    ensures r.None? <==> !Truthy(t.mongoId) && !Truthy(t.id)
  {
    var raw := if Truthy(t.mongoId) then t.mongoId else t.id;
    if Truthy(raw) then Some(Trim(raw.value)) else None
  }

  /** The id is `_id` when that is set, else `id`, and comes trimmed; a blank id gives
      the empty string, not null. */
  lemma GetTaskIdSpec(t: ClientTask)
    ensures Truthy(t.mongoId) ==> GetTaskId(t) == Some(Trim(t.mongoId.value))
    ensures !Truthy(t.mongoId) && Truthy(t.id) ==> GetTaskId(t) == Some(Trim(t.id.value))
    ensures GetTaskId(t).Some? ==> Trim(GetTaskId(t).value) == GetTaskId(t).value
  {
    var raw := if Truthy(t.mongoId) then t.mongoId else t.id;
    if Truthy(raw) {
      TrimIdempotent(raw.value);
    }
  }

  // ---------------------------------------------------------------------------
  // getTaskStatus

  datatype Status = Completed | Overdue | Pending

  /** The status names the filters use. */
  function StatusName(s: Status): string {
    match s
    case Completed => "completed"
    case Overdue => "overdue"
    case Pending => "pending"
  }

  /** The due date has passed: `now > new Date(task.dueDate)`, false for an Invalid Date. */
  predicate IsPastDue(t: ClientTask, now: int) {
    t.dueDate.Some? && now > t.dueDate.value
  }

  /** `getTaskStatus(task)`: completed first, then overdue when now is after the due
      date, else pending (a task due exactly now is pending). */
  function TaskStatus(t: ClientTask, now: int): (s: Status)
    ensures s == Completed <==> t.isCompleted
    ensures s == Overdue <==> !t.isCompleted && IsPastDue(t, now)
    ensures s == Pending <==> !t.isCompleted && !IsPastDue(t, now)
  {
    if t.isCompleted then Completed
    else if IsPastDue(t, now) then Overdue
    else Pending
  }

  // ---------------------------------------------------------------------------
  // getPriorityClass

  datatype Priority = High | Medium | Low

  /** A rank of urgency: 2 for high, 1 for medium, 0 for low. */
  function Urgency(p: Priority): nat {
    match p
    case High => 2
    case Medium => 1
    case Low => 0
  }

  /** `getPriorityClass(dueDate)`: high when fewer than 24 hours remain (a date in the
      past included), medium when fewer than 72, low otherwise and for an Invalid Date,
      where every comparison with NaN is false. */
  function PriorityClass(due: Date, now: int): (p: Priority)
    ensures due.None? ==> p == Low
    ensures due.Some? ==> (p == High <==> due.value - now < 24 * HourMs)
    ensures due.Some? ==> (p == Medium <==> 24 * HourMs <= due.value - now < 72 * HourMs)
    ensures due.Some? ==> (p == Low <==> 72 * HourMs <= due.value - now)
  {
    if due.None? then Low
    else if due.value - now < 24 * HourMs then High
    else if due.value - now < 72 * HourMs then Medium
    else Low
  }

  /** A task due later is never more urgent, and an overdue task is always high. */
  lemma PriorityMonotone(d1: int, d2: int, now: int)
    requires d1 <= d2
    ensures Urgency(PriorityClass(Some(d2), now)) <= Urgency(PriorityClass(Some(d1), now))
    ensures d1 <= now ==> PriorityClass(Some(d1), now) == High
  {
  }

  // ---------------------------------------------------------------------------
  // filtering and counting

  /** The counters above the task list. */
  datatype Stats = Stats(total: nat, completed: nat, pending: nat, overdue: nat)

  /** `s.filter(p)`: the elements satisfying `p`, in their order. */
  function Filter<T(!new)>(s: seq<T>, p: T -> bool): (r: seq<T>)
    ensures |r| <= |s|
    ensures forall i :: 0 <= i < |r| ==> p(r[i])
    ensures forall x :: x in r <==> x in s && p(x)
  {
    if |s| == 0 then []
    else (if p(s[0]) then [s[0]] else []) + Filter(s[1..], p)
  }

  /** Filtering keeps every element that satisfies the test, as often as it occurs. */
  lemma {:induction false} FilterMultiset<T(!new)>(s: seq<T>, p: T -> bool)
    ensures forall x :: p(x) ==> multiset(Filter(s, p))[x] == multiset(s)[x]
    ensures forall x :: !p(x) ==> multiset(Filter(s, p))[x] == 0
  {
    if |s| > 0 {
      FilterMultiset(s[1..], p);
      assert s == [s[0]] + s[1..];
    }
  }

  /** When every element satisfies exactly one of two tests, the two filters together
      have as many elements as the list. */
  lemma {:induction false} FilterPartition2<T(!new)>(s: seq<T>, p: T -> bool, q: T -> bool)
    requires forall i :: 0 <= i < |s| ==> (p(s[i]) <==> !q(s[i]))
    ensures |Filter(s, p)| + |Filter(s, q)| == |s|
  {
    if |s| > 0 {
      FilterPartition2(s[1..], p, q);
    }
  }

  /** When every element satisfies exactly one of three tests, the three filters
      together have as many elements as the list. */
  lemma {:induction false} FilterPartition3<T(!new)>(s: seq<T>, p: T -> bool, q: T -> bool, r: T -> bool)
    requires forall i :: 0 <= i < |s| ==>
      (p(s[i]) || q(s[i]) || r(s[i])) && !(p(s[i]) && q(s[i])) && !(p(s[i]) && r(s[i])) && !(q(s[i]) && r(s[i]))
    ensures |Filter(s, p)| + |Filter(s, q)| + |Filter(s, r)| == |s|
  {
    if |s| > 0 {
      FilterPartition3(s[1..], p, q, r);
    }
  }

  /** A weaker test keeps at least as many elements. */
  lemma {:induction false} FilterWeaker<T(!new)>(s: seq<T>, p: T -> bool, q: T -> bool)
    requires forall i :: 0 <= i < |s| ==> p(s[i]) ==> q(s[i])
    ensures |Filter(s, p)| <= |Filter(s, q)|
  {
    if |s| > 0 {
      FilterWeaker(s[1..], p, q);
    }
  }

  /** Filtering a list with one more element at its end. */
  lemma {:induction false} FilterAppend<T(!new)>(s: seq<T>, x: T, p: T -> bool)
    ensures Filter(s + [x], p) == Filter(s, p) + (if p(x) then [x] else [])
  {
    if |s| == 0 {
      assert s + [x] == [x];
    } else {
      assert (s + [x])[1..] == s[1..] + [x];
      FilterAppend(s[1..], x, p);
    }
  }
}
