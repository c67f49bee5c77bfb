# Task reminder: a Dafny model of its core

This project models the core of the task-reminder application: an Express/MongoDB
back end with a browser page it serves itself, plus a separate browser client. It
proves properties of that model. Four parts are modelled:

- **The chat parser.** `parseTaskFromText` in `task-reminder-backend/routes/chatbot.js`
  turns one chat message into a task draft in three stages, run in order:
  1. A reminder offset, from the first of seven reminder patterns that matches.
  2. A due date, from the first of ten due-date patterns that matches, with the helpers
     `getNextWeekday` and `convertTo24Hour`.
  3. A title and a description: lead-ins are stripped from the working text, then it is
     split at a separator or after the fifth word.

  Each stage is a function over the pattern matches. A method computes it with the
  source's own loop, and the method is proved equal to that function. Lemmas state what
  each branch yields, together with the quirks the code has (see below).
- **The Task document.** In `task-reminder-backend/models/Task.js` these are the
  schema's defaults and constraints, and the pre-save hook. The hook stamps `updatedAt`
  and keeps `reminderTime`/`reminderMinutesBefore` and `isCompleted`/`completed` in
  step. The document is a class whose fields the hook updates in place.
- **The server's own browser page** (`task-reminder-backend/public/script.js`):
  - the task id, status and priority class;
  - the reminder label on a task card;
  - the search and status filter, and the sort of the task list;
  - the counters;
  - when `scheduleReminder` fires;
  - the tasks a signed-in user is shown after `loadTasks`;
  - the local update when a task is ticked;
  - the minute-by-minute check for due reminders.

  The page's task list is a class field that `loadTasks` and the tick update reassign.
- **The separate client** (`task-reminder-frontend/script.js`):
  - its search and status filter, and its counters;
  - the poll that raises at most one reminder per task id;
  - the test it applies to the chat assistant's answer.

  The set of ids already reminded of is a class field.

Modules, one per file:

| module | file | content |
|---|---|---|
| `Wrappers` | wrappers.dfy | `Option`, `Result` |
| `JsText` | jstext.dfy | the JavaScript string and number primitives the code relies on: `trim`, ASCII case mapping, `includes`/`indexOf`/`startsWith`, `split(' ')`/`join(' ')`, `parseInt` and number-to-string |
| `Clock` | clock.dfy | `Date` time values, `setHours`, day arithmetic, TimeClip |
| `ChatMatch` | chat_match.dfy | pattern matches, the small matchers, `convertTo24Hour`, `getNextWeekday` |
| `ChatParser` | chat_parser.dfy | `parseTaskFromText` |
| `TaskModel` | task_model.dfy | the Task schema and its hook |
| `TaskView` | task_view.dfy | `getTaskId`, `getTaskStatus`, `getPriorityClass`, which both browser scripts define identically, and `Array.prototype.filter` |
| `BoardScript` | board_script.dfy | the server's browser page |
| `FrontendScript` | frontend_script.dfy | the separate client |

Quirks of the source that the model keeps and proves:

- The test for advance notice looks for "before" or "ahead" in lower case only. A phrase
  written "BEFORE" therefore gives direct timing, with no notice (`CapitalBeforeIsDirect`).
- A numeric date such as "on 12/25" is read as the clock time 12:25 (`NumericDateIsClockTime`).
- A month-name date such as "on January 15" reaches the clock-time branch
  (`MonthDateIsClockTime`) and gives an Invalid Date. `toISOString()` then throws
  outside the `try`, so the whole parse fails (`MonthNameIsInvalid`,
  `MonthNameFailsParse`, `OnJanuaryFifteenth`).
- The Task schema's minimum of 0 covers `reminderTime` only. The hook can copy a negative
  `reminderMinutesBefore` into an undefined `reminderTime` (`HookValidity`,
  `NegativeReminderSlipsThrough`).
- On the server's page, an incomplete task whose due date is not a date is shown as
  pending. Neither the pending nor the overdue filter keeps it, and no counter counts it
  (`StatusFilterMatchesBadge`, `UndatedTaskUncounted`).
- The client's poll never reminds of a task without a reminder time. With a reminder time
  of zero it reminds only at the exact due time (`ReminderTimeQuirks`).

## Model

| member | source | states |
|---|---|---|
| `JsText.TrimEnds` | task-reminder-backend/routes/chatbot.js:34 | a trimmed text is empty or starts and ends with a character that is not white space |
| `JsText.TrimIdempotent` | task-reminder-backend/routes/chatbot.js:34 | trimming a trimmed text changes nothing |
| `JsText.LowerOccurs` | task-reminder-frontend/script.js:520-521 | an occurrence of a text survives lower-casing both texts, at the same index |
| `JsText.ContainsMeansOccurs` | task-reminder-backend/routes/chatbot.js:292-293 | when `includes` holds, the needle occurs at the index `indexOf` reports |
| `JsText.OccursContains` | task-reminder-backend/routes/chatbot.js:292 | a needle that occurs at some index makes `includes` hold |
| `JsText.SplitTwoParts` | task-reminder-backend/routes/chatbot.js:293-295 | `split(sep)` keeps its first two parts: neither holds the separator, and part, separator, part starts the text |
| `JsText.JoinSplit` | task-reminder-backend/routes/chatbot.js:303-306 | joining the words of `split(' ')` with spaces gives back the text |
| `JsText.ParseIntDigits` | task-reminder-backend/routes/chatbot.js:59 | `parseInt` of a digit string is the decimal number it spells |
| `JsText.ParseIntWord` | task-reminder-backend/routes/chatbot.js:141 | `parseInt` of a text starting with a letter is NaN |
| `JsText.NatTextValue` | task-reminder-backend/public/script.js:1622-1629 | the decimal digits of a number spell that number back |
| `JsText.ParseIntText` | task-reminder-backend/public/script.js:1622-1629 | `parseInt` of a number's text, followed by anything that begins with a space, gives back the number |
| `Clock.DayOf` | task-reminder-backend/routes/chatbot.js:191 | a time that many milliseconds after a day's midnight lies in that day, at that time of day |
| `Clock.AddWholeDays` | task-reminder-backend/routes/chatbot.js:186 | moving by whole days shifts the day number and keeps the time of day |
| `Clock.WeekDayAfter` | task-reminder-backend/routes/chatbot.js:122-133 | `getDay()` moves on by the number of days added, modulo 7 |
| `Clock.SetHoursOnClock` | task-reminder-backend/routes/chatbot.js:209-226 | `setHours(h, m, 0, 0)` with an hour and minute of the clock stays on the same day, at that hour and minute |
| `Clock.NextDayAt` | task-reminder-backend/routes/chatbot.js:184-195 | `setDate(getDate() + 1)` then `setHours(h, m)` lands on the next day at h:m |
| `ChatMatch.CutMatch` | task-reminder-backend/routes/chatbot.js:78 | `replace(pattern, '')` removes exactly the matched characters |
| `ChatMatch.FirstMatch` | task-reminder-backend/routes/chatbot.js:56-81 | the index of the first pattern in list order that matched; none of the earlier ones did |
| `ChatMatch.FirstMatchPrefix` | task-reminder-backend/routes/chatbot.js:79 | the `break` after the first match: later patterns do not change which is first |
| `ChatMatch.FindTimeWellFormed` | task-reminder-backend/routes/chatbot.js:188 | the clock-time search captures one or two hour digits, two minute digits if any, and "am"/"pm" |
| `ChatMatch.PeriodShift` | task-reminder-backend/routes/chatbot.js:145-152 | a pm hour other than 12 gains 12, 12 pm stays 12, 12 am becomes 0 and other am hours are kept, so hours 1-12 map onto 12-23 with pm and onto 0-11 with am; without a period the hour is kept |
| `ChatMatch.TwelveHourClock` | task-reminder-backend/routes/chatbot.js:140-154 | `convertTo24Hour` reads the digits as their number, shifts by the period, and reads a missing minute as 0 |
| `ChatMatch.TwelveHourClockInjective` | task-reminder-backend/routes/chatbot.js:140-154 | different twelve-hour readings (hour 1-12 and period) give different 24-hour hours |
| `ChatMatch.WeekdayIndex` | task-reminder-backend/routes/chatbot.js:120-125 | `days.indexOf(name)` is the name's position in the Sunday-first list |
| `ChatMatch.DaysUntilLandsOnTarget` | task-reminder-backend/routes/chatbot.js:127-130 | the distance is 1-7 days, lands on the target weekday, and is 7 exactly when the target is today |
| `ChatMatch.NextWeekdayFacts` | task-reminder-backend/routes/chatbot.js:119-135 | `getNextWeekday` gives a day 1-7 days on with the requested name, at the same time of day; an unknown name gives now |
| `ChatMatch.FirstPrefix` | task-reminder-backend/routes/chatbot.js:277-285 | the first lead-in, in the pattern's alternative order, that begins the text |
| `ChatMatch.FirstSeparator` | task-reminder-backend/routes/chatbot.js:287-299 | the first separator in list order (not in text order) that the text contains |
| `ChatParser.PhraseMinutes` | task-reminder-backend/routes/chatbot.js:59-65 | the number read from the phrase, times sixty for "hour"/"hr" units |
| `ChatParser.ReminderStage` | task-reminder-backend/routes/chatbot.js:39-81 | the reminder offset is never negative, and direct timing leaves no notice |
| `ChatParser.ApplyReminderPhrase` | task-reminder-backend/routes/chatbot.js:58-79 | an advance-notice phrase gives its minutes; any other phrase gives direct timing with 0; the phrase is cut from the text |
| `ChatParser.ExtractReminder` | task-reminder-backend/routes/chatbot.js:52-81 | the loop over the reminder patterns computes the reminder stage |
| `ChatParser.DefaultReminder` | task-reminder-backend/routes/chatbot.js:35-53 | with no reminder phrase: 10 minutes, not direct, and the lower-cased message as working text |
| `ChatParser.ReminderFromPhrase` | task-reminder-backend/routes/chatbot.js:56-81 | the first matching phrase sets the offset from the number `parseInt` reads, or gives direct timing, and is cut from the working text |
| `ChatParser.ReminderFirstMatchWins` | task-reminder-backend/routes/chatbot.js:56-81 | patterns after the first match cannot change the reminder stage |
| `ChatParser.CapitalBeforeIsDirect` | task-reminder-backend/routes/chatbot.js:68-75 | a phrase without a lower-case "before" or "ahead" gives direct timing and no notice |
| `ChatParser.DueStage` | task-reminder-backend/routes/chatbot.js:157-271 | the reminder offset is reset to 0 only under direct timing, and otherwise kept |
| `ChatParser.ApplyDueHandler` | task-reminder-backend/routes/chatbot.js:162-266 | the branch-by-branch update of the date gives the due date the matched phrase names; it reports whether the relative branch reached its reset |
| `ChatParser.DueStageAt` | task-reminder-backend/routes/chatbot.js:157-271 | the first matching due-date pattern decides the date, the reset and the working text |
| `ChatParser.ResolveDueDate` | task-reminder-backend/routes/chatbot.js:113-271 | the loop over the due-date patterns computes the due-date stage |
| `ChatParser.DueDefaultsToNow` | task-reminder-backend/routes/chatbot.js:113 | with no due-date phrase the date is now, and the working text is left as it was |
| `ChatParser.DirectResetIsNoOp` | task-reminder-backend/routes/chatbot.js:178-180 | the reset to 0 in the relative branch never changes the offset |
| `ChatParser.WorkingTextSource` | task-reminder-backend/routes/chatbot.js:35-268 | the title comes from the message without its due-date phrase, else without its reminder phrase, else from the lower-cased message |
| `ChatParser.RelativeOffset` | task-reminder-backend/routes/chatbot.js:164-266 | "in N unit" adds N units; without a unit group the error is caught and the date is now |
| `ChatParser.RelativeUnits` | task-reminder-backend/routes/chatbot.js:170-176 | "min…" counts minutes, "hour…"/"hr…" hours and "day…" days; any other unit leaves now |
| `ChatParser.KeywordTimes` | task-reminder-backend/routes/chatbot.js:184-226 | tonight 20:00, this morning 09:00, this afternoon 14:00, this evening 18:00 today; tomorrow without a time 09:00 the next day; today without a time is now |
| `ChatParser.TomorrowAtTime` | task-reminder-backend/routes/chatbot.js:184-195 | "tomorrow at h:mm" is the next day at that 24-hour time |
| `ChatParser.WeekdayAtNine` | task-reminder-backend/routes/chatbot.js:229-238 | a weekday without a time is 09:00 on the next day with that name, 1-7 days on |
| `ChatParser.ClockTimeAfterNow` | task-reminder-backend/routes/chatbot.js:241-261 | a clock time ends strictly after now, and at most a day after now when it is a time of the clock |
| `ChatParser.NumericDateIsClockTime` | task-reminder-backend/routes/chatbot.js:104-254 | "12/25" is read with the month as hour and the day as minute |
| `ChatParser.MonthNameIsInvalid` | task-reminder-backend/routes/chatbot.js:107-254 | a month name in the hour group gives an Invalid Date |
| `ChatParser.KeywordFreeIsClockTime` | task-reminder-backend/routes/chatbot.js:164-254 | a phrase holding none of the branch keywords ("in"/"after" with a number, "tomorrow", "today", "tonight", "this morning/afternoon/evening"), whose group 1 is no weekday name and whose group 2 is present, takes the clock-time branch |
| `ChatParser.MonthDateIsClockTime` | task-reminder-backend/routes/chatbot.js:107-254 | "on/by/due", white space, a month name, white space and digits take the clock-time branch with the month as group 1 |
| `ChatParser.NumericDateBranch` | task-reminder-backend/routes/chatbot.js:104-254 | "on/by/due", white space, digits, "/" or "-" and digits take the clock-time branch, and without a year they are read as month:day |
| `ChatParser.OnJanuaryFifteenth` | task-reminder-backend/routes/chatbot.js:107-254 | "on January 15", as the month-name pattern matches it, has no valid due date |
| `ChatParser.TitleParts` | task-reminder-backend/routes/chatbot.js:287-328 | a non-empty message always yields a non-empty title |
| `ChatParser.TitleStage` | task-reminder-backend/routes/chatbot.js:274-328 | a non-empty message always yields a non-empty title |
| `ChatParser.StripLeadIns` | task-reminder-backend/routes/chatbot.js:277-285 | the clean-up loop strips the lead-in patterns in order |
| `ChatParser.CleanupTrimmed` | task-reminder-backend/routes/chatbot.js:277-285 | the cleaned text is trimmed; with no lead-in and no task label it is the working text trimmed |
| `ChatParser.CleanupLeadIn` | task-reminder-backend/routes/chatbot.js:277-285 | with lead-in k the first to begin the text, the cleaned text is the rest after it, trimmed, with any task label then stripped |
| `ChatParser.SplitTitleAt` | task-reminder-backend/routes/chatbot.js:288-299 | the split happens at the first separator in list order that the text contains |
| `ChatParser.SplitAndCapitalise` | task-reminder-backend/routes/chatbot.js:287-328 | the loop over the separators, the long-text split, the fallback to the message and the capitalisation compute the title parts |
| `ChatParser.ExtractTitle` | task-reminder-backend/routes/chatbot.js:274-328 | the title stage as the source computes it |
| `ChatParser.SeparatorSplit` | task-reminder-backend/routes/chatbot.js:288-299 | no earlier separator occurs; neither part holds the separator; title, separator and description start the text |
| `ChatParser.LongTextSplit` | task-reminder-backend/routes/chatbot.js:301-309 | a long text of more than eight words splits into its first five words and the rest, which rejoin into the text |
| `ChatParser.ParseSpec` | task-reminder-backend/routes/chatbot.js:33-333 | a parsed draft's reminder is never negative, and a non-blank message gives a non-empty title |
| `ChatParser.ParseTaskFromText` | task-reminder-backend/routes/chatbot.js:33-333 | the three stages in order compute the parse |
| `ChatParser.ParseFailsOnlyOnInvalidDate` | task-reminder-backend/routes/chatbot.js:113-330 | the parse fails exactly when the due date is invalid; a message with no due-date phrase is due now |
| `ChatParser.MonthNameFailsParse` | task-reminder-backend/routes/chatbot.js:107-330 | a first due-date match that reads "on", "by" or "due", white space, a month name, white space and one or two digits, with the month and day as groups 1 and 2, makes the parse fail |
| `TaskModel.WithDefaults` | task-reminder-backend/models/Task.js:59-154 | a new document has both completion flags, both reminder fields and both timestamps set, and keeps every given field |
| `TaskModel.Synced` | task-reminder-backend/models/Task.js:170-200 | after the hook both pairs are in step and `updatedAt` is the save time |
| `TaskModel.TaskDocument.constructor` | task-reminder-backend/models/Task.js:24-154 | a new document holds the given fields with the defaults filled in |
| `TaskModel.TaskDocument.PreSave` | task-reminder-backend/models/Task.js:170-200 | the hook updates the fields in place to their synchronised values |
| `TaskModel.HookSyncsReminder` | task-reminder-backend/models/Task.js:181-189 | a defined `reminderTime` wins and is copied; `reminderTime` is written only when undefined, from `reminderMinutesBefore` |
| `TaskModel.HookSyncsCompletion` | task-reminder-backend/models/Task.js:192-197 | a defined `isCompleted` wins and is copied, otherwise `isCompleted` takes `completed` |
| `TaskModel.HookKeepsOtherFields` | task-reminder-backend/models/Task.js:170-200 | the hook touches no field outside the stamp and the two pairs |
| `TaskModel.HookIdempotent` | task-reminder-backend/models/Task.js:170-200 | saving twice is saving once with the later stamp; a document already in step only gets a new stamp |
| `TaskModel.NewDocumentDefaults` | task-reminder-backend/models/Task.js:59-154 | a document given only title, user and due date has 15-minute reminders, is not completed, is stamped now, is valid and is in step |
| `TaskModel.HookValidity` | task-reminder-backend/models/Task.js:115-189 | the hook keeps a valid document valid exactly when it does not copy a negative `reminderMinutesBefore` into an undefined `reminderTime` |
| `TaskModel.NegativeReminderSlipsThrough` | task-reminder-backend/models/Task.js:115-186 | a valid document with `reminderMinutesBefore` -5 leaves the hook with `reminderTime` -5, which the schema forbids |
| `TaskView.GetTaskId` | task-reminder-backend/public/script.js:1157-1163 | null exactly when neither `_id` nor `id` is a non-empty string |
| `TaskView.GetTaskIdSpec` | task-reminder-backend/public/script.js:1157-1163 | `_id` is preferred to `id`; the id comes trimmed, and trimming it again changes nothing |
| `TaskView.TaskStatus` | task-reminder-backend/public/script.js:1165-1170 | completed exactly when ticked; overdue exactly when not ticked and past due; pending otherwise |
| `TaskView.PriorityClass` | task-reminder-backend/public/script.js:1172-1180 | high under 24 hours left, medium under 72, low otherwise and for an Invalid Date |
| `TaskView.PriorityMonotone` | task-reminder-backend/public/script.js:1172-1180 | a later due date is never more urgent, and a task already due is high |
| `TaskView.Filter` | task-reminder-backend/public/script.js:1771 | `filter` keeps exactly the elements that pass, and never adds any |
| `TaskView.FilterMultiset` | task-reminder-backend/public/script.js:1771 | `filter` keeps each passing element as often as it occurs and drops every other one |
| `TaskView.FilterPartition2` | task-reminder-frontend/script.js:557-558 | two complementary filters together count the whole list |
| `TaskView.FilterPartition3` | task-reminder-backend/public/script.js:1844-1846 | three filters that split the list count it whole |
| `BoardScript.ReminderParts` | task-reminder-backend/public/script.js:1619-1629 | days from 1440 minutes on, hours from 60, minutes below; each count is the whole number of its unit that fits |
| `BoardScript.PluralExactlyAboveOne` | task-reminder-backend/public/script.js:1622-1629 | the unit is plural exactly when the count is above one |
| `BoardScript.ReminderTextReadsBack` | task-reminder-backend/public/script.js:1614-1630 | the label begins with its count, which `parseInt` reads back, and goes on with the unit, plural exactly above one |
| `BoardScript.DefaultReminderText` | task-reminder-backend/public/script.js:1614-1618 | a task without a reminder time reads "15 minutes before" |
| `BoardScript.StatusFilterMatchesBadge` | task-reminder-backend/public/script.js:1779-1787 | on a dated task the status filter keeps exactly the tasks with that badge; an undated incomplete task is pending, yet neither filter keeps it |
| `BoardScript.Insert` | task-reminder-backend/public/script.js:1793-1797 | one insertion step keeps every task and adds the new one |
| `BoardScript.SortTasks` | task-reminder-backend/public/script.js:1793-1797 | the sort keeps exactly the tasks it was given |
| `BoardScript.SortTasksOrder` | task-reminder-backend/public/script.js:1793-1797 | the sorted list puts incomplete before completed tasks and, within each group, the earlier dated task first |
| `BoardScript.VisibleTasksSpec` | task-reminder-backend/public/script.js:1771-1797 | the list shows each task that passes search and filter as often as it is on the board, nothing else, in board order |
| `BoardScript.BackendStats` | task-reminder-backend/public/script.js:1842-1846 | the total is the number of tasks, and no counter exceeds it |
| `BoardScript.BackendStatsAddUp` | task-reminder-backend/public/script.js:1842-1846 | when every due date is valid, completed, pending and overdue add up to the total |
| `BoardScript.UndatedTaskUncounted` | task-reminder-backend/public/script.js:1845-1846 | an incomplete task with an Invalid Date is counted in the total but under no status |
| `BoardScript.ScheduleDelay` | task-reminder-backend/public/script.js:333-362 | a reminder is set only for a moment still to come and at most a day ahead, after the delay to that moment |
| `BoardScript.ScheduleWindow` | task-reminder-backend/public/script.js:333-362 | scheduled exactly when the moment is valid and within the next day; a reminder time of 0 or none acts as 10 |
| `BoardScript.OwnerOf` | task-reminder-backend/public/script.js:1229 | the first non-empty of `userId`, `createdBy`, `owner` and `user`, absent only when all four are |
| `BoardScript.UserTasks` | task-reminder-backend/public/script.js:1228-1245 | the kept tasks are exactly those of the signed-in user that have an id |
| `BoardScript.FirstOwnerDecides` | task-reminder-backend/public/script.js:1229-1239 | a task whose `userId` names someone else is dropped whatever its other owner fields say |
| `BoardScript.AfterLoad` | task-reminder-backend/public/script.js:1183-1245 | with no user the list is emptied; only a failure keeps the old list; every task loaded belongs to the user and has an id |
| `BoardScript.FindTaskIndexFrom` | task-reminder-backend/public/script.js:1548 | the first index from the start point on whose task carries the id, or none when no task does |
| `BoardScript.FindIndex` | task-reminder-backend/public/script.js:1548 | the search loop finds the first task carrying the id |
| `BoardScript.MarkCompleted` | task-reminder-backend/public/script.js:1548-1551 | the tick keeps the number of tasks |
| `BoardScript.MarkCompletedEffect` | task-reminder-backend/public/script.js:1548-1551 | only the first task with the id changes, and its status then follows the flag; an unknown id changes nothing |
| `BoardScript.DueReminders` | task-reminder-backend/public/script.js:2078-2096 | exactly the incomplete, dated tasks whose reminder moment is within a minute of now |
| `BoardScript.DefaultReminderMoment` | task-reminder-backend/public/script.js:2088-2093 | with no reminder time the reminder comes 14 to 16 minutes before the due time |
| `BoardScript.TaskBoard.constructor` | task-reminder-backend/public/script.js:24 | the page starts with no tasks |
| `BoardScript.TaskBoard.LoadTasks` | task-reminder-backend/public/script.js:1183-1245 | `loadTasks` replaces the list as `AfterLoad` says |
| `BoardScript.TaskBoard.SetCompleted` | task-reminder-backend/public/script.js:1548-1551 | the list after the tick is the old list with the first task carrying the id updated |
| `BoardScript.TaskBoard.CheckForDueReminders` | task-reminder-backend/public/script.js:2078-2096 | the loop shows exactly the due reminders in board order, and none when signed out |
| `FrontendScript.FrontVisible` | task-reminder-frontend/script.js:515-549 | the rendered list is never longer than the task list |
| `FrontendScript.FrontVisibleSpec` | task-reminder-frontend/script.js:515-549 | each task is rendered as often as it is listed when it matches the query and filter and has an id, and otherwise never |
| `FrontendScript.SearchIgnoresCase` | task-reminder-frontend/script.js:652 | a title containing the trimmed input in any case matches the stored query |
| `FrontendScript.FrontendStats` | task-reminder-frontend/script.js:555-563 | the total is the number of tasks |
| `FrontendScript.FrontendStatsAddUp` | task-reminder-frontend/script.js:555-563 | completed and pending add up to the total; overdue is at most pending and equals the number with status overdue |
| `FrontendScript.FirstDueIndex` | task-reminder-frontend/script.js:785-800 | the first task from the start point on that is due for a reminder, or none when none is |
| `FrontendScript.FindDue` | task-reminder-frontend/script.js:785-800 | the poll's loop, skipping with `continue` and stopping at the first task due, finds that task |
| `FrontendScript.FiresOncePerId` | task-reminder-frontend/script.js:786-797 | after a reminder its id is never reminded of again, whatever later polls see |
| `FrontendScript.ReminderTimeQuirks` | task-reminder-frontend/script.js:790-795 | no reminder time means no reminder; a reminder time of 0 fires only at the exact due time |
| `FrontendScript.ReminderPoller.constructor` | task-reminder-frontend/script.js:777-803 | no id has been reminded of yet |
| `FrontendScript.ReminderPoller.Tick` | task-reminder-frontend/script.js:777-803 | one poll reminds of the first task due, if any, and remembers its id |
| `FrontendScript.DraftAcceptance` | task-reminder-frontend/script.js:733-736 | a parsed draft in those fields is accepted exactly when its reminder time is not 0 |

## Left out

- The seventeen regular expressions of the reminder and due-date pattern lists are not
  re-implemented. Their first match on the trimmed message is an input. The smaller
  matchers applied afterwards to the match and the working text are modelled.
- Time zones and daylight saving are not modelled: local time is taken as UTC, so a day
  is always 86 400 000 ms.
- The clock is read once per operation. `parseTaskFromText` reads it separately at
  `chatbot.js` lines 113, 121, 125, 168, 185, 199, 210, 216, 220, 224, 242, 257 and
  265. The model uses one `now` for all.
- Numbers are integers. Floating-point rounding, very large numbers and non-integer
  reminder times are not modelled. `parseInt` is modelled over decimal and `0x` digits.
- Case mapping is ASCII only. Non-ASCII letters keep their case, and lengths count
  characters, not UTF-16 code units.
- The text of `toISOString()` is not modelled. A valid date is its time value, and only
  the throw on an Invalid Date is kept.
- The following are outside the model: all I/O, the DOM and rendering (`renderTask`,
  toasts, `alert`), `fetch`, timers (`setTimeout`, `setInterval`), notifications and
  sounds.
- The task-list request's HTTP status becomes a `Reply` value. Network failures and
  other errors become `Failed`.
- The Express routes, authentication, sessions, the database and the server set-up are
  not part of this model. The chatbot route enters only through the non-empty message
  that `parseTaskFromText` receives.
- `FrontendScript.DraftAcceptance` models the client reading `title`, `dueDate` and
  `reminderTime` at the top level of the chat answer. The chatbot route (chatbot.js
  339-405) places the task under `task` and `parsedData` instead. The model does not
  model that envelope.
- Globals are parameters: `searchQuery`, `currentFilter`, `currentUser.id`,
  `isAuthenticated`.
- A task field is either present or absent. `null` and `undefined` are not told apart,
  and ids and user references are strings only.
- Task objects are values. When a task is ticked, a new list replaces the old one rather
  than an object being mutated through a shared reference.
- `ChatParser.MonthDateIsClockTime` and `ChatParser.MonthNameFailsParse` cover the
  month-name phrase without its optional ordinal suffix and time ("15th", "at 2 PM").
  The keyword argument they rest on excludes the letter pair "th", which the suffix
  can contain. The branch the longer phrases take is not derived.
- `ChatParser.NumericDateBranch` covers the numeric date without its optional year and
  time in the phrase. The year group may still be present in the match.
- `BoardScript.SortTasks` models `Array.prototype.sort` as an insertion sort. When every
  due date is a valid date the comparator is consistent, and the order
  `BoardScript.SortTasksOrder` proves is the one any sort with this comparator gives, up
  to the order of ties. With an Invalid Date present the comparator returns NaN, the
  engine's order is implementation-defined, and `SortTasksOrder` describes only the
  insertion sort's order. Stability is not proved.
- `BoardScript.MarkCompleted` states only the length in its own contract. What the tick
  changes is stated in `BoardScript.MarkCompletedEffect`.
- `BoardScript.BackendStatsAddUp` states the counters adding up only when every due date
  is valid. An undated incomplete task is in no counter (`BoardScript.UndatedTaskUncounted`).
