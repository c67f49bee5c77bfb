/** `parseTaskFromText` (task-reminder-backend/routes/chatbot.js:33-333): one chat message
    becomes a task draft in three stages run in order.

    1. Reminder offset: the first of seven reminder patterns that matches sets the reminder.
    2. Due date: the first of ten due-date patterns that matches the original text sets the
       due date, by a handler chosen from what the match contains.
    3. Title and description: a lead-in is stripped from the working text, which is then
       split in two.

    Each stage is specified by a function over the pattern matches (see ChatMatch) and
    computed by a method that loops over the pattern list as the source does. One `now`
    stands for the clock, which the source reads separately at lines 113, 121, 125, 168,
    185, 199, 210, 216, 220, 224, 242, 257 and 265. */
module ChatParser {
  import opened Wrappers
  import opened JsText
  import opened Clock
  import opened ChatMatch

  const ReminderPatternCount: nat := 7
  const TimePatternCount: nat := 10
  /** The reminder offset used when no reminder pattern matches (line 51). */
  const DefaultReminderMinutes: int := 10

  // ---------------------------------------------------------------------------
  // stage 1: the reminder offset (lines 39-81)

  /** What every reminder pattern guarantees of its match: the number group is a digit
      run and the unit group is present. */
  predicate ReminderMatchOk(orig: string, m: Match) {
    && Within(orig, m)
    && Group(m, 1).Some? && |Group(m, 1).value| > 0 && AllDigits(Group(m, 1).value)
    && Group(m, 2).Some?
  }

  predicate ReminderMatchesOk(orig: string, rm: seq<Option<Match>>) {
    forall j :: 0 <= j < |rm| && rm[j].Some? ==> ReminderMatchOk(orig, rm[j].value)
  }

  predicate TimeMatchesOk(orig: string, tm: seq<Option<Match>>) {
    forall j :: 0 <= j < |tm| && tm[j].Some? ==> Within(orig, tm[j].value)
  }

  /** A unit that counts hours: one starting with "hour" or "hr" in any case. */
  predicate IsHourUnit(unit: string) {
    StartsWith(Lower(unit), "hour") || StartsWith(Lower(unit), "hr")
  }

  /** The matched phrase asks for advance notice: it contains "before" or "ahead", in
      lower case only. */
  predicate IsAdvanceNotice(orig: string, m: Match)
    requires Within(orig, m)
  {
    Contains(Matched(orig, m), "before") || Contains(Matched(orig, m), "ahead")
  }

  /** The number of minutes a reminder phrase names: hour units count sixty each. */
  function PhraseMinutes(m: Match): (n: nat)
    requires Group(m, 1).Some? && AllDigits(Group(m, 1).value) && Group(m, 2).Some?
    ensures !IsHourUnit(Group(m, 2).value) ==> n == DecimalValue(Group(m, 1).value)
    ensures IsHourUnit(Group(m, 2).value) ==> n == 60 * DecimalValue(Group(m, 1).value)
  {
    var n := DecimalValue(Group(m, 1).value);
    if IsHourUnit(Group(m, 2).value) then n * 60 else n
  }

  /** The state after the reminder stage: the offset in minutes, whether the phrase gave
      direct timing, and the working text handed on. */
  datatype ReminderState = ReminderState(minutes: int, direct: bool, working: string)

  /** The reminder stage: the first matching pattern decides, an advance-notice phrase
      gives its own minutes and any other phrase gives direct timing with no notice. */
  function ReminderStage(orig: string, rm: seq<Option<Match>>): (rs: ReminderState)
    requires ReminderMatchesOk(orig, rm)
    ensures rs.minutes >= 0
    ensures rs.direct ==> rs.minutes == 0
  {
    match FirstMatch(rm)
    case None => ReminderState(DefaultReminderMinutes, false, Lower(orig))
    case Some(k) =>
      var m := rm[k].value;
      var working := Trim(CutMatch(orig, m));
      if IsAdvanceNotice(orig, m) then ReminderState(PhraseMinutes(m), false, working)
      else ReminderState(0, true, working)
  }

  /** Lines 59-78 for one matched reminder phrase. */
  method ApplyReminderPhrase(orig: string, m: Match)
    returns (reminderTime: int, isDirectTiming: bool, normalized: string)
    requires ReminderMatchOk(orig, m)
    ensures IsAdvanceNotice(orig, m) ==> reminderTime == PhraseMinutes(m) && !isDirectTiming
    ensures !IsAdvanceNotice(orig, m) ==> reminderTime == 0 && isDirectTiming
    ensures normalized == Trim(CutMatch(orig, m))
  {
    ParseIntDigits(Group(m, 1).value);
    var time := ParseInt(Group(m, 1)).value;
    if IsHourUnit(Group(m, 2).value) {
      time := time * 60;
    }
    if IsAdvanceNotice(orig, m) {
      reminderTime := time;
      isDirectTiming := false;
    } else {
      isDirectTiming := true;
      reminderTime := 0;
    }
    normalized := Trim(CutMatch(orig, m));
  }

  /** The reminder stage as the loop at lines 55-81 computes it. */
  method ExtractReminder(orig: string, rm: seq<Option<Match>>) returns (rs: ReminderState)
    requires ReminderMatchesOk(orig, rm)
    ensures rs == ReminderStage(orig, rm)
  {
    var reminderTime := DefaultReminderMinutes;
    var isDirectTiming := false;
    var normalized := Lower(orig);
    var i := 0;
    while i < |rm|
      invariant i <= |rm|
      invariant forall j :: 0 <= j < i ==> rm[j].None?
      invariant reminderTime == DefaultReminderMinutes && !isDirectTiming
      invariant normalized == Lower(orig)
    {
      if rm[i].Some? {
        reminderTime, isDirectTiming, normalized := ApplyReminderPhrase(orig, rm[i].value);
        assert FirstMatch(rm) == Some(i);
        break;
      }
      i := i + 1;
    }
    if i == |rm| {
      assert FirstMatch(rm).None?;
    }
    rs := ReminderState(reminderTime, isDirectTiming, normalized);
  }

  /** With no reminder phrase the offset is 10 minutes, timing is not direct and the
      working text is the lower-cased message. */
  lemma DefaultReminder(orig: string, rm: seq<Option<Match>>)
    requires ReminderMatchesOk(orig, rm)
    requires forall j :: 0 <= j < |rm| ==> rm[j].None?
    ensures ReminderStage(orig, rm) == ReminderState(10, false, Lower(orig))
  {
    assert FirstMatch(rm).None?;
  }

  /** A matched reminder phrase sets the offset to the number `parseInt` reads from it
      (sixty times that for hours) when it asks for advance notice, and to 0 with direct
      timing otherwise; the phrase is cut out of the working text. */
  lemma ReminderFromPhrase(orig: string, rm: seq<Option<Match>>, k: nat)
    requires ReminderMatchesOk(orig, rm)
    requires k < |rm| && rm[k].Some? && forall j :: 0 <= j < k ==> rm[j].None?
    ensures var m := rm[k].value;
      var rs := ReminderStage(orig, rm);
      var n := ParseInt(Group(m, 1));
      && n.Some?
      && rs.working == Trim(CutMatch(orig, m))
      && (IsAdvanceNotice(orig, m) ==>
            !rs.direct && rs.minutes == (if IsHourUnit(Group(m, 2).value) then 60 * n.value else n.value))
      && (!IsAdvanceNotice(orig, m) ==> rs.direct && rs.minutes == 0)
  {
    var m := rm[k].value;
    ParseIntDigits(Group(m, 1).value);
    assert FirstMatch(rm) == Some(k);
  }

  /** Only the first matching reminder pattern counts: the patterns after it may match
      or not without changing the outcome. */
  lemma ReminderFirstMatchWins(orig: string, rm: seq<Option<Match>>, rm': seq<Option<Match>>, k: nat)
    requires ReminderMatchesOk(orig, rm) && ReminderMatchesOk(orig, rm')
    requires k < |rm| && k < |rm'| && rm[..k + 1] == rm'[..k + 1]
    requires rm[k].Some? && forall j :: 0 <= j < k ==> rm[j].None?
    ensures ReminderStage(orig, rm) == ReminderStage(orig, rm')
  {
    FirstMatchPrefix(rm, rm', k);
    assert rm'[k] == rm[..k + 1][k];
  }

  /** "BEFORE" in capitals is not advance notice: the test for "before" and "ahead" is
      case-sensitive, so such a phrase gives direct timing and no notice. */
  lemma CapitalBeforeIsDirect(orig: string, rm: seq<Option<Match>>, k: nat)
    requires ReminderMatchesOk(orig, rm)
    requires k < |rm| && rm[k].Some? && forall j :: 0 <= j < k ==> rm[j].None?
    requires var m0 := Matched(orig, rm[k].value); !Contains(m0, "before") && !Contains(m0, "ahead")
    ensures ReminderStage(orig, rm).direct && ReminderStage(orig, rm).minutes == 0
  {
    assert FirstMatch(rm) == Some(k);
  }

  // ---------------------------------------------------------------------------
  // stage 2: the due date (lines 85-271)

  /** The handler the due-date stage picks for a match, tested in the source's order. */
  datatype DueBranch =
    | Relative | Tomorrow | Today | Tonight | ThisMorning | ThisAfternoon | ThisEvening
    | Weekday | ClockTime | NoBranch

  predicate IsWeekdayName(s: Option<string>) {
    Truthy(s) && Lower(s.value) in WeekdayNames
  }

  predicate IsPeriodWord(s: string) {
    Lower(s) == "am" || Lower(s) == "pm"
  }

  function BranchOf(m0: string, m: Match): DueBranch {
    var lower := Lower(m0);
    if HasRelativeOffset(m0) then Relative
    else if Contains(lower, "tomorrow") then Tomorrow
    else if Contains(lower, "today") then Today
    else if Contains(lower, "tonight") then Tonight
    else if Contains(lower, "this morning") then ThisMorning
    else if Contains(lower, "this afternoon") then ThisAfternoon
    else if Contains(lower, "this evening") then ThisEvening
    else if IsWeekdayName(Group(m, 1)) then Weekday
    else if Truthy(Group(m, 1)) && (Truthy(Group(m, 2)) || Truthy(Group(m, 3))) then ClockTime
    else NoBranch
  }

  /** The hour and minute the clock-time branch reads (lines 244-254): the minute group
      when present, and a period from the third group or else the second; a second group
      that is "am" or "pm" is the period and the minute is 0. */
  function ClockReading(m: Match): (Option<int>, Option<int>) {
    var g2 := Group(m, 2);
    var minute := if Truthy(g2) then g2 else Some("0");
    var period := if Truthy(Group(m, 3)) then Group(m, 3) else g2;
    if Truthy(g2) && IsPeriodWord(g2.value) then ConvertTo24Hour(Group(m, 1), Some("0"), g2)
    else ConvertTo24Hour(Group(m, 1), minute, period)
  }

  /** The clock-time branch: that hour and minute today, moved to tomorrow when it is not
      after now. */
  function ClockTimeDue(m: Match, now: int): Date {
    var reading := ClockReading(m);
    var d := SetHours(Some(now), reading.0, reading.1);
    if d.Some? && d.value <= now then Add(d, Some(1), DayMs) else d
  }

  /** The date at the time of day a clock-time capture names. */
  function AtCapturedTime(d: Date, c: TimeCaptures): Date {
    var time := ConvertTo24Hour(Some(c.hour), c.minute, Some(c.period));
    SetHours(d, time.0, time.1)
  }

  /** The offset of the relative branch: minutes, hours or days by the unit's prefix. */
  function RelativeDue(amount: Option<int>, unit: string, now: int): Date {
    var u := Lower(unit);
    if StartsWith(u, "minute") || StartsWith(u, "min") then Add(Some(now), amount, MinuteMs)
    else if StartsWith(u, "hour") || StartsWith(u, "hr") then Add(Some(now), amount, HourMs)
    else if StartsWith(u, "day") then Add(Some(now), amount, DayMs)
    else Some(now)
  }

  /** The due date a matched phrase gives; None is an Invalid Date. */
  function DueOf(m0: string, m: Match, now: int): Date
    requires IsValidTime(now)
  {
    match BranchOf(m0, m)
    case Relative =>
      // without a unit group, reading the unit throws and the catch falls back to now
      if Group(m, 2).None? then Some(now) else RelativeDue(ParseInt(Group(m, 1)), Group(m, 2).value, now)
    case Tomorrow =>
      var d := Add(Some(now), Some(1), DayMs);
      (match FindTime(m0)
       case Some(c) => AtCapturedTime(d, c)
       case None => SetHours(d, Some(9), Some(0)))
    case Today =>
      (match FindTime(m0)
       case Some(c) => AtCapturedTime(Some(now), c)
       case None => Some(now))
    case Tonight => SetHours(Some(now), Some(20), Some(0))
    case ThisMorning => SetHours(Some(now), Some(9), Some(0))
    case ThisAfternoon => SetHours(Some(now), Some(14), Some(0))
    case ThisEvening => SetHours(Some(now), Some(18), Some(0))
    case Weekday =>
      var d := NextWeekday(Group(m, 1).value, now);
      if Truthy(Group(m, 2)) then
        var time := ConvertTo24Hour(Group(m, 2), Group(m, 3), Group(m, 4));
        SetHours(d, time.0, time.1)
      else SetHours(d, Some(9), Some(0))
    case ClockTime => ClockTimeDue(m, now)
    case NoBranch => Some(now)
  }

  /** The relative branch runs to its end (and so reaches the direct-timing reset at
      line 180) only when the unit group is present. */
  predicate RelativeCompletes(m0: string, m: Match) {
    BranchOf(m0, m) == Relative && Group(m, 2).Some?
  }

  /** The state after the due-date stage. */
  datatype DueState = DueState(due: Date, minutes: int, working: string)

  /** The due-date stage: the first matching pattern decides the due date and the working
      text becomes the original message without that phrase; with no match the due date
      is now and the working text is the reminder stage's. */
  function DueStage(orig: string, tm: seq<Option<Match>>, now: int, rs: ReminderState): (ds: DueState)
    requires IsValidTime(now) && TimeMatchesOk(orig, tm)
    ensures rs.direct ==> ds.minutes == 0 || ds.minutes == rs.minutes
    ensures !rs.direct ==> ds.minutes == rs.minutes
  {
    match FirstMatch(tm)
    case None => DueState(Some(now), rs.minutes, rs.working)
    case Some(k) =>
      var m := tm[k].value;
      var m0 := Matched(orig, m);
      var minutes := if RelativeCompletes(m0, m) && rs.direct then 0 else rs.minutes;
      DueState(DueOf(m0, m, now), minutes, Trim(CutMatch(orig, m)))
  }

  /** The handler of lines 162-266 for one matched phrase, updating the date in place
      branch by branch; `reset` tells whether the relative branch reached the
      direct-timing reset at line 180. */
  method ApplyDueHandler(m0: string, m: Match, now: int) returns (dueDate: Date, reset: bool)
    requires IsValidTime(now)
    ensures dueDate == DueOf(m0, m, now)
    ensures reset == RelativeCompletes(m0, m)
  {
    dueDate := Some(now);
    reset := false;
    var lower := Lower(m0);
    if HasRelativeOffset(m0) {
      assert BranchOf(m0, m) == Relative;
      if Group(m, 2).None? {
        // the unit cannot be read: the TypeError is caught and the date reset to now
        dueDate := Some(now);
      } else {
        var amount := ParseInt(Group(m, 1));
        var unit := Lower(Group(m, 2).value);
        dueDate := Some(now);
        if StartsWith(unit, "minute") || StartsWith(unit, "min") {
          dueDate := Add(dueDate, amount, MinuteMs);
        } else if StartsWith(unit, "hour") || StartsWith(unit, "hr") {
          dueDate := Add(dueDate, amount, HourMs);
        } else if StartsWith(unit, "day") {
          dueDate := Add(dueDate, amount, DayMs);
        }
        reset := true;
      }
    } else if Contains(lower, "tomorrow") {
      assert BranchOf(m0, m) == Tomorrow;
      dueDate := Add(Some(now), Some(1), DayMs);
      var timeMatch := FindTime(m0);
      if timeMatch.Some? {
        dueDate := AtCapturedTime(dueDate, timeMatch.value);
      } else {
        dueDate := SetHours(dueDate, Some(9), Some(0));
      }
    } else if Contains(lower, "today") {
      assert BranchOf(m0, m) == Today;
      dueDate := Some(now);
      var timeMatch := FindTime(m0);
      if timeMatch.Some? {
        dueDate := AtCapturedTime(dueDate, timeMatch.value);
      }
    } else if Contains(lower, "tonight") {
      assert BranchOf(m0, m) == Tonight;
      dueDate := SetHours(Some(now), Some(20), Some(0));
    } else if Contains(lower, "this morning") {
      assert BranchOf(m0, m) == ThisMorning;
      dueDate := SetHours(Some(now), Some(9), Some(0));
    } else if Contains(lower, "this afternoon") {
      assert BranchOf(m0, m) == ThisAfternoon;
      dueDate := SetHours(Some(now), Some(14), Some(0));
    } else if Contains(lower, "this evening") {
      assert BranchOf(m0, m) == ThisEvening;
      dueDate := SetHours(Some(now), Some(18), Some(0));
    } else if IsWeekdayName(Group(m, 1)) {
      assert BranchOf(m0, m) == Weekday;
      dueDate := NextWeekday(Group(m, 1).value, now);
      if Truthy(Group(m, 2)) {
        var time := ConvertTo24Hour(Group(m, 2), Group(m, 3), Group(m, 4));
        dueDate := SetHours(dueDate, time.0, time.1);
      } else {
        dueDate := SetHours(dueDate, Some(9), Some(0));
      }
    } else if Truthy(Group(m, 1)) && (Truthy(Group(m, 2)) || Truthy(Group(m, 3))) {
      assert BranchOf(m0, m) == ClockTime;
      dueDate := Some(now);
      var minute := if Truthy(Group(m, 2)) then Group(m, 2) else Some("0");
      var period := if Truthy(Group(m, 3)) then Group(m, 3) else Group(m, 2);
      if Truthy(Group(m, 2)) && IsPeriodWord(Group(m, 2).value) {
        minute := Some("0");
        period := Group(m, 2);
      }
      var time := ConvertTo24Hour(Group(m, 1), minute, period);
      dueDate := SetHours(dueDate, time.0, time.1);
      if dueDate.Some? && dueDate.value <= now {
        dueDate := Add(dueDate, Some(1), DayMs);
      }
    } else {
      assert BranchOf(m0, m) == NoBranch;
    }
  }

  /** The due-date stage for the first matching pattern. */
  lemma DueStageAt(orig: string, tm: seq<Option<Match>>, now: int, rs: ReminderState, k: nat)
    requires IsValidTime(now) && TimeMatchesOk(orig, tm)
    requires k < |tm| && tm[k].Some? && forall j :: 0 <= j < k ==> tm[j].None?
    ensures var m := tm[k].value;
      var m0 := Matched(orig, m);
      DueStage(orig, tm, now, rs) ==
        DueState(DueOf(m0, m, now), if RelativeCompletes(m0, m) && rs.direct then 0 else rs.minutes,
                 Trim(CutMatch(orig, m)))
  {
    assert FirstMatch(tm) == Some(k);
  }

  /** The due-date stage as the loop at lines 157-271 computes it. */
  method ResolveDueDate(orig: string, tm: seq<Option<Match>>, now: int, rs: ReminderState)
    returns (ds: DueState)
    requires IsValidTime(now) && TimeMatchesOk(orig, tm)
    ensures ds == DueStage(orig, tm, now, rs)
  {
    var dueDate: Date := Some(now);
    var reminderTime := rs.minutes;
    var normalized := rs.working;
    var i := 0;
    while i < |tm|
      invariant i <= |tm|
      invariant forall j :: 0 <= j < i ==> tm[j].None?
      invariant dueDate == Some(now) && reminderTime == rs.minutes && normalized == rs.working
    {
      if tm[i].Some? {
        var m := tm[i].value;
        var reset;
        dueDate, reset := ApplyDueHandler(Matched(orig, m), m, now);
        if reset && rs.direct {
          reminderTime := 0;
        }
        normalized := Trim(CutMatch(orig, m));
        DueStageAt(orig, tm, now, rs, i);
        break;
      }
      i := i + 1;
    }
    if i == |tm| {
      DueDefaultsToNow(orig, tm, now, rs);
    }
    ds := DueState(dueDate, reminderTime, normalized);
  }

  /** With no due-date phrase the due date is now and the working text is left as the
      reminder stage made it. */
  lemma DueDefaultsToNow(orig: string, tm: seq<Option<Match>>, now: int, rs: ReminderState)
    requires IsValidTime(now) && TimeMatchesOk(orig, tm)
    requires forall j :: 0 <= j < |tm| ==> tm[j].None?
    ensures DueStage(orig, tm, now, rs) == DueState(Some(now), rs.minutes, rs.working)
  {
    assert FirstMatch(tm).None?;
  }

  /** The reset of the reminder to 0 in the relative branch changes nothing: direct
      timing has already set it to 0. */
  lemma DirectResetIsNoOp(orig: string, rm: seq<Option<Match>>, tm: seq<Option<Match>>, now: int)
    requires IsValidTime(now) && ReminderMatchesOk(orig, rm) && TimeMatchesOk(orig, tm)
    ensures var rs := ReminderStage(orig, rm);
      DueStage(orig, tm, now, rs).minutes == rs.minutes
  {
  }

  /** The text the title comes from: the original message without the due-date phrase
      when one matched (the reminder phrase is then left in), else the original message
      without the reminder phrase when one matched, else the lower-cased message. */
  lemma WorkingTextSource(orig: string, rm: seq<Option<Match>>, tm: seq<Option<Match>>, now: int)
    requires IsValidTime(now) && ReminderMatchesOk(orig, rm) && TimeMatchesOk(orig, tm)
    ensures var w := DueStage(orig, tm, now, ReminderStage(orig, rm)).working;
      && (FirstMatch(tm).Some? ==> w == Trim(CutMatch(orig, tm[FirstMatch(tm).value].value)))
      && (FirstMatch(tm).None? && FirstMatch(rm).Some? ==>
            w == Trim(CutMatch(orig, rm[FirstMatch(rm).value].value)))
      && (FirstMatch(tm).None? && FirstMatch(rm).None? ==> w == Lower(orig))
  {
  }

  /** Relative offsets read the amount as `parseInt` does; a phrase without a unit group
      gives now, because reading the unit throws and the catch resets the date. */
  lemma RelativeOffset(m0: string, m: Match, now: int)
    requires IsValidTime(now) && BranchOf(m0, m) == Relative
    requires Group(m, 1).Some? && |Group(m, 1).value| > 0 && AllDigits(Group(m, 1).value)
    ensures Group(m, 2).None? ==> DueOf(m0, m, now) == Some(now)
    ensures Group(m, 2).Some? ==>
      DueOf(m0, m, now) == RelativeDue(Some(DecimalValue(Group(m, 1).value)), Group(m, 2).value, now)
  {
    ParseIntDigits(Group(m, 1).value);
  }

  /** The units of a relative offset: "min…" counts minutes, "hour…" and "hr…" hours,
      "day…" days, any other unit leaves the date at now. */
  lemma RelativeUnits(n: int, unit: string, now: int)
    ensures StartsWith(Lower(unit), "min") ==> RelativeDue(Some(n), unit, now) == Clip(now + n * MinuteMs)
    ensures IsHourUnit(unit) ==> RelativeDue(Some(n), unit, now) == Clip(now + n * HourMs)
    ensures StartsWith(Lower(unit), "day") ==> RelativeDue(Some(n), unit, now) == Clip(now + n * DayMs)
    ensures !StartsWith(Lower(unit), "min") && !IsHourUnit(unit) && !StartsWith(Lower(unit), "day") ==>
      RelativeDue(Some(n), unit, now) == Some(now)
  {
    var u := Lower(unit);
    if StartsWith(u, "min") {
      assert !StartsWith(u, "hour") && !StartsWith(u, "hr") && !StartsWith(u, "day") by {
        assert u[0] == 'm';
      }
    } else if IsHourUnit(unit) {
      assert !StartsWith(u, "minute") && !StartsWith(u, "day") by {
        assert u[0] == 'h';
      }
    }
  }

  /** The keyword phrases: "tonight" is 20:00, "this morning" 09:00, "this afternoon"
      14:00 and "this evening" 18:00 today, and "tomorrow" without a time is 09:00 the
      next day. */
  lemma KeywordTimes(m0: string, m: Match, now: int)
    requires IsValidTime(now) && DueOf(m0, m, now).Some?
    ensures var t := DueOf(m0, m, now).value;
      && (BranchOf(m0, m) == Tonight ==> Day(t) == Day(now) && TimeInDay(t) == 20 * HourMs)
      && (BranchOf(m0, m) == ThisMorning ==> Day(t) == Day(now) && TimeInDay(t) == 9 * HourMs)
      && (BranchOf(m0, m) == ThisAfternoon ==> Day(t) == Day(now) && TimeInDay(t) == 14 * HourMs)
      && (BranchOf(m0, m) == ThisEvening ==> Day(t) == Day(now) && TimeInDay(t) == 18 * HourMs)
      && (BranchOf(m0, m) == Tomorrow && FindTime(m0).None? ==>
            Day(t) == Day(now) + 1 && TimeInDay(t) == 9 * HourMs)
      && (BranchOf(m0, m) == Today && FindTime(m0).None? ==> t == now)
  {
    match BranchOf(m0, m)
    case Tonight => SetHoursOnClock(now, 20, 0);
    case ThisMorning => SetHoursOnClock(now, 9, 0);
    case ThisAfternoon => SetHoursOnClock(now, 14, 0);
    case ThisEvening => SetHoursOnClock(now, 18, 0);
    case Tomorrow =>
      if FindTime(m0).None? {
        NextDayAt(now, 9, 0);
      }
    case _ =>
  }

  /** "tomorrow" with a time: the next day at that time, read on the twelve-hour clock. */
  lemma TomorrowAtTime(m0: string, m: Match, now: int, h: int, mi: int)
    requires IsValidTime(now) && BranchOf(m0, m) == Tomorrow && FindTime(m0).Some?
    requires var c := FindTime(m0).value;
      ConvertTo24Hour(Some(c.hour), c.minute, Some(c.period)) == (Some(h), Some(mi))
    requires 0 <= h < 24 && 0 <= mi < 60
    requires DueOf(m0, m, now).Some?
    ensures var t := DueOf(m0, m, now).value;
      Day(t) == Day(now) + 1 && TimeInDay(t) == h * HourMs + mi * MinuteMs
  {
    assert DueOf(m0, m, now) == SetHours(Add(Some(now), Some(1), DayMs), Some(h), Some(mi));
    NextDayAt(now, h, mi);
  }

  /** A weekday without a time: 09:00 on the next day with that name, one to seven days
      on. */
  lemma WeekdayAtNine(m0: string, m: Match, now: int)
    requires IsValidTime(now) && BranchOf(m0, m) == Weekday && !Truthy(Group(m, 2))
    requires DueOf(m0, m, now).Some?
    ensures var t := DueOf(m0, m, now).value;
      && 1 <= Day(t) - Day(now) <= 7
      && WeekDay(t) == WeekdayIndex(Lower(Group(m, 1).value))
      && TimeInDay(t) == 9 * HourMs
  {
    var name := Group(m, 1).value;
    NextWeekdayFacts(name, now);
    SetHoursOnClock(NextWeekday(name, now).value, 9, 0);
  }

  /** The clock-time branch ends strictly after now, and no more than a day after now
      when the reading is an hour and minute of the clock. */
  lemma ClockTimeAfterNow(m: Match, now: int)
    requires IsValidTime(now) && ClockTimeDue(m, now).Some?
    requires var r := ClockReading(m); r.0.Some? && r.1.Some? && r.0.value >= 0 && r.1.value >= 0
    ensures now < ClockTimeDue(m, now).value
    ensures var r := ClockReading(m);
      r.0.value < 24 && r.1.value < 60 ==> ClockTimeDue(m, now).value <= now + DayMs
  {
    var r := ClockReading(m);
    var x := r.0.value * HourMs + r.1.value * MinuteMs;
    DaySplit(now);
    if r.0.value < 24 && r.1.value < 60 {
      SetHoursOnClock(now, r.0.value, r.1.value);
    }
  }

  /** A numeric date such as "on 12/25" is read as a clock time: month as the hour and
      day as the minute, since the day group also serves as the period. */
  lemma NumericDateIsClockTime(m: Match)
    requires Group(m, 1).Some? && |Group(m, 1).value| > 0 && AllDigits(Group(m, 1).value)
    requires Group(m, 2).Some? && |Group(m, 2).value| > 0 && AllDigits(Group(m, 2).value)
    requires !Truthy(Group(m, 3))
    ensures ClockReading(m) == (Some(DecimalValue(Group(m, 1).value)), Some(DecimalValue(Group(m, 2).value)))
  {
    var g2 := Group(m, 2).value;
    ParseIntDigits(Group(m, 1).value);
    ParseIntDigits(g2);
    assert Lower(g2)[0] == g2[0];
    assert Lower(g2) != "am" && Lower(g2) != "pm";
  }

  /** A month name such as "on January 15" reaches the clock-time branch with the month
      as the hour, which `parseInt` cannot read: the date is invalid. */
  lemma MonthNameIsInvalid(m0: string, m: Match, now: int)
    requires IsValidTime(now) && BranchOf(m0, m) == ClockTime
    requires 'a' <= LowerChar(Group(m, 1).value[0]) <= 'z'
    ensures DueOf(m0, m, now).None?
  {
    ParseIntWord(Group(m, 1).value);
  }

  // ---------------------------------------------------------------------------
  // which branch a date phrase of lines 104 and 107 takes

  /** The letter pairs the branch test depends on: every keyword it looks for holds one
      of them ("in", "after", "today", "tonight", "this …") or a "w" ("tomorrow"). */
  predicate KeyPair(x: char, y: char) {
    || (x == 'i' && y == 'n') || (x == 'f' && y == 't') || (x == 'o' && y == 'd')
    || (x == 'g' && y == 'h') || (x == 't' && y == 'h')
  }

  /** A text with no "w" and no key letter pair, so that none of the keywords of the
      branch test can occur in it. */
  predicate KeywordFree(s: string)
    decreases |s|
  {
    |s| == 0 || (s[0] != 'w' && (|s| == 1 || !KeyPair(s[0], s[1])) && KeywordFree(s[1..]))
  }

  lemma {:induction false} KeywordFreeAt(s: string, j: nat)
    requires KeywordFree(s) && j < |s|
    ensures s[j] != 'w' && (j + 1 < |s| ==> !KeyPair(s[j], s[j + 1]))
    decreases j
  {
    if j > 0 {
      KeywordFreeAt(s[1..], j - 1);
    }
  }

  /** Two keyword-free texts joined where they meet without a key pair stay keyword-free. */
  lemma {:induction false} KeywordFreeAppend(a: string, b: string)
    requires KeywordFree(a) && KeywordFree(b)
    requires |a| > 0 && |b| > 0 ==> !KeyPair(a[|a| - 1], b[0])
    ensures KeywordFree(a + b)
    decreases |a|
  {
    if |a| > 0 {
      assert (a + b)[0] == a[0];
      assert (a + b)[1..] == a[1..] + b;
      if |a| > 1 {
        assert (a + b)[1] == a[1];
      } else if |b| > 0 {
        assert (a + b)[1] == b[0];
      }
      KeywordFreeAppend(a[1..], b);
      assert KeywordFree((a + b)[1..]);
    } else {
      assert a + b == b;
    }
  }

  predicate IsLetter(c: char) {
    'a' <= c <= 'z' || 'A' <= c <= 'Z'
  }

  predicate NoLetters(s: string) {
    forall i :: 0 <= i < |s| ==> !IsLetter(s[i])
  }

  /** White space and digits are left alone by lower-casing and hold no keyword. */
  lemma {:induction false} NoLettersKeywordFree(s: string)
    requires NoLetters(s)
    ensures Lower(s) == s && KeywordFree(s)
    decreases |s|
  {
    assert forall i :: 0 <= i < |s| ==> Lower(s)[i] == s[i];
    if |s| > 0 {
      NoLettersKeywordFree(s[1..]);
    }
  }

  /** A word with a "w" or a key pair at its position k does not occur in a keyword-free
      text at index i. */
  lemma NoWordAt(s: string, t: string, k: nat, i: nat)
    requires KeywordFree(s) && k < |t|
    requires t[k] == 'w' || (k + 1 < |t| && KeyPair(t[k], t[k + 1]))
    ensures !OccursAt(s, t, i)
  {
    if i + |t| <= |s| {
      KeywordFreeAt(s, i + k);
      assert s[i..i + |t|][k] == s[i + k];
      if k + 1 < |t| {
        assert s[i..i + |t|][k + 1] == s[i + k + 1];
      }
    }
  }

  /** Such a word is not contained in a keyword-free text at all. */
  lemma NoWord(s: string, t: string, k: nat)
    requires KeywordFree(s) && k < |t|
    requires t[k] == 'w' || (k + 1 < |t| && KeyPair(t[k], t[k + 1]))
    ensures !Contains(s, t)
  {
    NoWordAt(s, t, k, IndexOf(s, t).GetOr(0));
  }

  /** A phrase without any of the keywords, whose first group is not a weekday name and
      whose second group is present, takes the clock-time branch. */
  lemma KeywordFreeIsClockTime(m0: string, m: Match)
    requires KeywordFree(Lower(m0))
    requires Truthy(Group(m, 1)) && !IsWeekdayName(Group(m, 1)) && Truthy(Group(m, 2))
    ensures BranchOf(m0, m) == ClockTime
  {
    var lower := Lower(m0);
    forall i: nat | i < |m0|
      ensures !RelativeAt(m0, i)
    {
      NoWordAt(lower, "in", 0, i);
      NoWordAt(lower, "after", 1, i);
    }
    NoWord(lower, "tomorrow", 7);
    NoWord(lower, "today", 1);
    NoWord(lower, "tonight", 4);
    NoWord(lower, "this morning", 0);
    NoWord(lower, "this afternoon", 0);
    NoWord(lower, "this evening", 0);
  }

  /** The words that open a date phrase (lines 104 and 107), in lower case. */
  const DateLeads: seq<string> := ["on", "by", "due"]

  /** The month names of line 107, in lower case. */
  const MonthNames: seq<string> :=
    ["january", "february", "march", "april", "may", "june", "july", "august",
     "september", "october", "november", "december"]

  predicate AllSpace(s: string) {
    forall i :: 0 <= i < |s| ==> IsSpace(s[i])
  }

  lemma DateLeadsKeywordFree(lead: string)
    requires lead in DateLeads
    ensures KeywordFree(lead)
  {
    assert KeywordFree("y") && KeywordFree("n") && KeywordFree("e") && KeywordFree("ue");
  }

  lemma MonthsKeywordFree0()
    ensures KeywordFree("january") && KeywordFree("february")
  {
  }

  lemma MonthsKeywordFree1()
    ensures KeywordFree("march") && KeywordFree("april")
  {
  }

  lemma MonthsKeywordFree2()
    ensures KeywordFree("may") && KeywordFree("june")
  {
  }

  lemma MonthsKeywordFree3()
    ensures KeywordFree("july") && KeywordFree("august")
  {
  }

  lemma MonthsKeywordFree4()
    ensures KeywordFree("september") && KeywordFree("october")
  {
  }

  lemma MonthsKeywordFree5()
    ensures KeywordFree("november") && KeywordFree("december")
  {
  }

  lemma MonthKeywordFreeAt(k: nat)
    requires k < |MonthNames|
    ensures KeywordFree(MonthNames[k])
  {
    match k
    case 0 => assert MonthNames[0] == "january"; MonthsKeywordFree0();
    case 1 => assert MonthNames[1] == "february"; MonthsKeywordFree0();
    case 2 => assert MonthNames[2] == "march"; MonthsKeywordFree1();
    case 3 => assert MonthNames[3] == "april"; MonthsKeywordFree1();
    case 4 => assert MonthNames[4] == "may"; MonthsKeywordFree2();
    case 5 => assert MonthNames[5] == "june"; MonthsKeywordFree2();
    case 6 => assert MonthNames[6] == "july"; MonthsKeywordFree3();
    case 7 => assert MonthNames[7] == "august"; MonthsKeywordFree3();
    case 8 => assert MonthNames[8] == "september"; MonthsKeywordFree4();
    case 9 => assert MonthNames[9] == "october"; MonthsKeywordFree4();
    case 10 => assert MonthNames[10] == "november"; MonthsKeywordFree5();
    case _ => assert MonthNames[11] == "december"; MonthsKeywordFree5();
  }

  /** A month name holds no keyword. */
  lemma MonthNamesKeywordFree(month: string)
    requires month in MonthNames
    ensures KeywordFree(month)
  {
    var k :| 0 <= k < |MonthNames| && MonthNames[k] == month;
    MonthKeywordFreeAt(k);
  }

  /** A month name is no weekday name and starts with a letter. */
  lemma MonthNameIsWord(month: string)
    requires month in MonthNames
    ensures month !in WeekdayNames && 'a' <= month[0] <= 'z'
  {
  }

  /** A date written with a month name, `(?:on|by|due)\s+(<month>)\s+(\d{1,2})` of line
      107 without its optional ordinal suffix and time, split into its parts. */
  predicate MonthDatePhrase(lead: string, gap1: string, month: string, gap2: string, day: string) {
    && Lower(lead) in DateLeads
    && |gap1| > 0 && AllSpace(gap1)
    && Lower(month) in MonthNames
    && |gap2| > 0 && AllSpace(gap2)
    && 1 <= |day| <= 2 && AllDigits(day)
  }

  /** Lower-casing the five parts of a date phrase one by one. */
  lemma LowerPhrase(a: string, b: string, c: string, d: string, e: string)
    ensures Lower(a + b + c + d + e) == Lower(a) + Lower(b) + Lower(c) + Lower(d) + Lower(e)
  {
    LowerAppend(a + b + c + d, e);
    LowerAppend(a + b + c, d);
    LowerAppend(a + b, c);
    LowerAppend(a, b);
  }

  /** Lead, gap, middle word, gap and digits: keyword-free when both words are. */
  lemma PhraseKeywordFree(lead: string, gap1: string, word: string, gap2: string, tail: string)
    requires KeywordFree(lead) && KeywordFree(word)
    requires |gap1| > 0 && NoLetters(gap1) && NoLetters(gap2) && NoLetters(tail)
    ensures KeywordFree(lead + gap1 + word + gap2 + tail)
  {
    assert (lead + gap1)[|lead + gap1| - 1] == gap1[|gap1| - 1];
    if |gap2| > 0 {
      assert (lead + gap1 + word + gap2)[|lead + gap1 + word + gap2| - 1] == gap2[|gap2| - 1];
    }
    NoLettersKeywordFree(gap1);
    NoLettersKeywordFree(gap2);
    NoLettersKeywordFree(tail);
    KeywordFreeAppend(lead, gap1);
    KeywordFreeAppend(lead + gap1, word);
    KeywordFreeAppend(lead + gap1 + word, gap2);
    KeywordFreeAppend(lead + gap1 + word + gap2, tail);
  }

  /** A month-name date reaches the clock-time branch (lines 242-254), with the month as
      its first group: no earlier branch applies to it. */
  lemma MonthDateIsClockTime(lead: string, gap1: string, month: string, gap2: string, day: string, m: Match)
    requires MonthDatePhrase(lead, gap1, month, gap2, day)
    requires Group(m, 1) == Some(month) && Group(m, 2) == Some(day)
    ensures BranchOf(lead + gap1 + month + gap2 + day, m) == ClockTime
  {
    var phrase := lead + gap1 + month + gap2 + day;
    LowerPhrase(lead, gap1, month, gap2, day);
    NoLettersKeywordFree(gap1);
    NoLettersKeywordFree(gap2);
    NoLettersKeywordFree(day);
    DateLeadsKeywordFree(Lower(lead));
    MonthNamesKeywordFree(Lower(month));
    MonthNameIsWord(Lower(month));
    PhraseKeywordFree(Lower(lead), gap1, Lower(month), gap2, day);
    KeywordFreeIsClockTime(phrase, m);
  }

  /** A numeric date, `(?:on|by|due)\s+(\d{1,2})[\/\-](\d{1,2})` of line 104 without its
      optional year and time, split into its parts. */
  predicate NumericDatePhrase(lead: string, gap: string, month: string, sep: string, day: string) {
    && Lower(lead) in DateLeads
    && |gap| > 0 && AllSpace(gap)
    && 1 <= |month| <= 2 && AllDigits(month)
    && (sep == "/" || sep == "-")
    && 1 <= |day| <= 2 && AllDigits(day)
  }

  /** A numeric date also reaches the clock-time branch, and without a year it is read
      with the month as the hour and the day as the minute. */
  lemma NumericDateBranch(lead: string, gap: string, month: string, sep: string, day: string, m: Match)
    requires NumericDatePhrase(lead, gap, month, sep, day)
    requires Group(m, 1) == Some(month) && Group(m, 2) == Some(day)
    ensures BranchOf(lead + gap + month + sep + day, m) == ClockTime
    ensures !Truthy(Group(m, 3)) ==>
      ClockReading(m) == (Some(DecimalValue(month)), Some(DecimalValue(day)))
  {
    var phrase := lead + gap + month + sep + day;
    LowerPhrase(lead, gap, month, sep, day);
    NoLettersKeywordFree(gap);
    NoLettersKeywordFree(month);
    NoLettersKeywordFree(sep);
    NoLettersKeywordFree(day);
    DateLeadsKeywordFree(Lower(lead));
    PhraseKeywordFree(Lower(lead), gap, month, sep, day);
    assert Lower(month)[0] == month[0];
    assert Lower(month) !in WeekdayNames;
    KeywordFreeIsClockTime(phrase, m);
    if !Truthy(Group(m, 3)) {
      NumericDateIsClockTime(m);
    }
  }

  /** "on January 15", as the month-name pattern matches it, has no valid due date. */
  lemma OnJanuaryFifteenth(now: int)
    requires IsValidTime(now)
    ensures var m := Match(0, 13, [Some("January"), Some("15"), None, None, None]);
      DueOf("on January 15", m, now).None?
  {
    var m := Match(0, 13, [Some("January"), Some("15"), None, None, None]);
    assert "on January 15" == "on" + " " + "January" + " " + "15";
    assert forall i :: 0 <= i < 2 ==> Lower("on")[i] == "on"[i];
    assert Lower("on") == "on";
    assert forall i :: 0 <= i < 7 ==> Lower("January")[i] == "january"[i];
    assert Lower("January") == "january";
    MonthDateIsClockTime("on", " ", "January", " ", "15", m);
    MonthNameIsInvalid("on January 15", m, now);
  }

  // ---------------------------------------------------------------------------
  // stage 3: title and description (lines 274-328)

  /** The cleaned text split in two: at the first separator in list order that it
      contains, else a long text of many words after its fifth word, else not at all. */
  function SplitTitle(cleaned: string): (string, string) {
    match FirstSeparator(cleaned, Separators)
    case Some(k) =>
      var parts := SplitTwo(cleaned, Separators[k]);
      (Trim(parts.0), Trim(parts.1))
    case None =>
      if |cleaned| > 50 && |SplitSpace(cleaned)| > 8 then
        var words := SplitSpace(cleaned);
        (JoinSpace(words[..5]), JoinSpace(words[5..]))
      else (cleaned, "")
  }

  /** The title and description of a cleaned text, capitalised; an empty cleaned text
      gives the original message as title, and an empty title falls back to it too. */
  function TitleParts(orig: string, cleaned: string): (r: (string, string))
    ensures |orig| > 0 ==> |r.0| > 0
  {
    var parts := if |cleaned| == 0 then (orig, "") else SplitTitle(cleaned);
    var title := Capitalise(parts.0);
    (if |title| > 0 then title else orig, Capitalise(parts.1))
  }

  /** The title stage: lead-ins stripped, the rest split, both parts capitalised. */
  function TitleStage(orig: string, working: string): (r: (string, string))
    ensures |orig| > 0 ==> |r.0| > 0
  {
    TitleParts(orig, Cleanup(working, CleanupPatterns))
  }

  /** The clean-up loop of lines 282-285. */
  method StripLeadIns(working: string) returns (cleaned: string)
    ensures cleaned == Cleanup(working, CleanupPatterns)
  {
    cleaned := working;
    var p := 0;
    while p < |CleanupPatterns|
      invariant p <= |CleanupPatterns|
      invariant Cleanup(cleaned, CleanupPatterns[p..]) == Cleanup(working, CleanupPatterns)
    {
      assert CleanupPatterns[p..][1..] == CleanupPatterns[p + 1..];
      cleaned := StripPrefix(cleaned, CleanupPatterns[p]);
      p := p + 1;
    }
    assert CleanupPatterns[p..] == [];
  }

  /** The cleaned text is trimmed, and a working text that starts with no lead-in and,
      once trimmed, with no task label is only trimmed. */
  lemma CleanupTrimmed(working: string)
    ensures Trim(Cleanup(working, CleanupPatterns)) == Cleanup(working, CleanupPatterns)
    ensures (forall j :: 0 <= j < |LeadIns| ==> !StartsWith(Lower(working), LeadIns[j])) &&
            (forall j :: 0 <= j < |TaskLabels| ==> !StartsWith(Lower(Trim(working)), TaskLabels[j])) ==>
            Cleanup(working, CleanupPatterns) == Trim(working)
  {
    var once := StripPrefix(working, LeadIns);
    CleanupTwoPasses(working);
    match FirstPrefix(once, TaskLabels) {
      case None =>
        match FirstPrefix(working, LeadIns) {
          case None => TrimIdempotent(working);
          case Some(k) => TrimIdempotent(working[|LeadIns[k]|..]);
        }
      case Some(k) => TrimIdempotent(once[|TaskLabels[k]|..]);
    }
  }

  /** With lead-in k the first in list order to begin the working text (in any case),
      the lead-in is cut off and the rest trimmed before the task labels are tried; with
      no task label after it, that is the cleaned text. */
  lemma CleanupLeadIn(working: string, k: nat)
    requires k < |LeadIns| && StartsWith(Lower(working), LeadIns[k])
    requires forall j :: 0 <= j < k ==> !StartsWith(Lower(working), LeadIns[j])
    ensures Cleanup(working, CleanupPatterns) == StripPrefix(Trim(working[|LeadIns[k]|..]), TaskLabels)
    ensures (forall j :: 0 <= j < |TaskLabels| ==> !StartsWith(Lower(Trim(working[|LeadIns[k]|..])), TaskLabels[j])) ==>
            Cleanup(working, CleanupPatterns) == Trim(working[|LeadIns[k]|..])
  {
    assert FirstPrefix(working, LeadIns) == Some(k);
    CleanupTwoPasses(working);
    TrimIdempotent(working[|LeadIns[k]|..]);
  }

  /** The clean-up runs the lead-ins and then the task labels. */
  lemma CleanupTwoPasses(working: string)
    ensures Cleanup(working, CleanupPatterns) == StripPrefix(StripPrefix(working, LeadIns), TaskLabels)
  {
    var once := StripPrefix(working, LeadIns);
    assert CleanupPatterns[0] == LeadIns && CleanupPatterns[1..] == [TaskLabels];
    assert Cleanup(working, CleanupPatterns) == Cleanup(once, [TaskLabels]);
    assert [TaskLabels][0] == TaskLabels && [TaskLabels][1..] == [];
    assert Cleanup(once, [TaskLabels]) == Cleanup(StripPrefix(once, TaskLabels), []);
  }

  /** The split at the first separator in list order, for the separator found at `i`. */
  lemma SplitTitleAt(cleaned: string, i: nat)
    requires i < |Separators| && Contains(cleaned, Separators[i])
    requires forall j :: 0 <= j < i ==> !Contains(cleaned, Separators[j])
    ensures var parts := SplitTwo(cleaned, Separators[i]);
      SplitTitle(cleaned) == (Trim(parts.0), Trim(parts.1))
  {
    assert FirstSeparator(cleaned, Separators) == Some(i);
  }

  /** Lines 287-328: the split of the cleaned text and the capitalisation. */
  method SplitAndCapitalise(orig: string, cleaned: string) returns (title: string, description: string)
    ensures (title, description) == TitleParts(orig, cleaned)
  {
    var taskTitle := "";
    var taskDescription := "";
    if |cleaned| > 0 {
      var splitFound := false;
      var i := 0;
      while i < |Separators|
        invariant i <= |Separators|
        invariant forall j :: 0 <= j < i ==> !Contains(cleaned, Separators[j])
        invariant !splitFound
      {
        if Contains(cleaned, Separators[i]) {
          var parts := SplitTwo(cleaned, Separators[i]);
          taskTitle := Trim(parts.0);
          taskDescription := Trim(parts.1);
          splitFound := true;
          SplitTitleAt(cleaned, i);
          break;
        }
        i := i + 1;
      }
      if !splitFound {
        assert FirstSeparator(cleaned, Separators).None?;
        if |cleaned| > 50 {
          var words := SplitSpace(cleaned);
          if |words| > 8 {
            taskTitle := JoinSpace(words[..5]);
            taskDescription := JoinSpace(words[5..]);
          } else {
            taskTitle := cleaned;
          }
        } else {
          taskTitle := cleaned;
        }
      }
      assert (taskTitle, taskDescription) == SplitTitle(cleaned);
    } else {
      taskTitle := orig;
    }
    if |taskTitle| > 0 {
      taskTitle := Capitalise(taskTitle);
    }
    if |taskDescription| > 0 {
      taskDescription := Capitalise(taskDescription);
    }
    title := if |taskTitle| > 0 then taskTitle else orig;
    description := taskDescription;
  }

  /** The title stage as lines 274-328 compute it. */
  method ExtractTitle(orig: string, working: string) returns (title: string, description: string)
    ensures (title, description) == TitleStage(orig, working)
  {
    var cleaned := StripLeadIns(working);
    title, description := SplitAndCapitalise(orig, cleaned);
  }

  /** Splitting at a separator: it is the first separator in list order that occurs;
      neither part contains it, so the description stops before its next occurrence;
      and title, separator and description are the start of the text. */
  lemma SeparatorSplit(cleaned: string)
    requires FirstSeparator(cleaned, Separators).Some?
    ensures var k := FirstSeparator(cleaned, Separators).value;
      var sep := Separators[k];
      var (a, b) := SplitTwo(cleaned, sep);
      && SplitTitle(cleaned) == (Trim(a), Trim(b))
      && (forall j :: 0 <= j < k ==> !Contains(cleaned, Separators[j]))
      && !Contains(a, sep) && !Contains(b, sep)
      && (cleaned == a + sep + b || StartsWith(cleaned, a + sep + b + sep))
  {
    var k := FirstSeparator(cleaned, Separators).value;
    SplitTwoParts(cleaned, Separators[k]);
  }

  /** A long text of many words with no separator: the title is its first five words,
      the description the rest, and together with a space between they are the text. */
  lemma LongTextSplit(cleaned: string)
    requires FirstSeparator(cleaned, Separators).None?
    requires |cleaned| > 50 && |SplitSpace(cleaned)| > 8
    ensures var (t, d) := SplitTitle(cleaned);
      t == JoinSpace(SplitSpace(cleaned)[..5]) && t + " " + d == cleaned
  {
    var words := SplitSpace(cleaned);
    assert words == words[..5] + words[5..];
    JoinAppend(words[..5], words[5..]);
    JoinSplit(cleaned);
  }

  // ---------------------------------------------------------------------------
  // the whole parse

  /** The parsed task: due date as a time value in milliseconds, reminder in minutes. */
  datatype Draft = Draft(title: string, description: string, dueDate: int, reminderTime: int)

  /** `toISOString()` on an Invalid Date throws outside the try block (line 330). */
  datatype ParseError = InvalidDate

  /** The inputs as the source produces them: a valid clock and one match slot per
      pattern, each match within the trimmed message and reminder matches well formed. */
  predicate ParseInputOk(text: string, rm: seq<Option<Match>>, tm: seq<Option<Match>>, now: int) {
    && IsValidTime(now)
    && |rm| == ReminderPatternCount && |tm| == TimePatternCount
    && ReminderMatchesOk(Trim(text), rm) && TimeMatchesOk(Trim(text), tm)
  }

  /** `parseTaskFromText(text)` for the given pattern matches on the trimmed text. */
  function ParseSpec(text: string, rm: seq<Option<Match>>, tm: seq<Option<Match>>, now: int)
    : (r: Result<Draft, ParseError>)
    requires ParseInputOk(text, rm, tm, now)
    ensures r.Success? ==> r.value.reminderTime >= 0
    ensures r.Success? && |Trim(text)| > 0 ==> |r.value.title| > 0
  {
    var orig := Trim(text);
    var rs := ReminderStage(orig, rm);
    var ds := DueStage(orig, tm, now, rs);
    var parts := TitleStage(orig, ds.working);
    match ds.due
    case None => Failure(InvalidDate)
    case Some(t) => Success(Draft(parts.0, parts.1, t, ds.minutes))
  }

  /** `parseTaskFromText(text)`, stage by stage. */
  method ParseTaskFromText(text: string, rm: seq<Option<Match>>, tm: seq<Option<Match>>, now: int)
    returns (r: Result<Draft, ParseError>)
    requires ParseInputOk(text, rm, tm, now)
    ensures r == ParseSpec(text, rm, tm, now)
  {
    var originalText := Trim(text);
    var rs := ExtractReminder(originalText, rm);
    var ds := ResolveDueDate(originalText, tm, now, rs);
    var title, description := ExtractTitle(originalText, ds.working);
    if ds.due.None? {
      return Failure(InvalidDate);
    }
    return Success(Draft(title, description, ds.due.value, ds.minutes));
  }

  /** The parse fails exactly when the due-date phrase gives an Invalid Date, and a
      message without any due-date phrase is due now. */
  lemma ParseFailsOnlyOnInvalidDate(text: string, rm: seq<Option<Match>>, tm: seq<Option<Match>>, now: int)
    requires ParseInputOk(text, rm, tm, now)
    ensures var orig := Trim(text);
      ParseSpec(text, rm, tm, now).Failure? <==> DueStage(orig, tm, now, ReminderStage(orig, rm)).due.None?
    ensures (forall j :: 0 <= j < |tm| ==> tm[j].None?) ==>
      ParseSpec(text, rm, tm, now).Success? && ParseSpec(text, rm, tm, now).value.dueDate == now
  {
    if forall j :: 0 <= j < |tm| ==> tm[j].None? {
      assert FirstMatch(tm).None?;
    }
  }

  /** A month-name date such as "on January 15" as the first due-date match makes the
      whole parse fail. */
  lemma MonthNameFailsParse(text: string, rm: seq<Option<Match>>, tm: seq<Option<Match>>, now: int, k: nat,
                            lead: string, gap1: string, month: string, gap2: string, day: string)
    requires ParseInputOk(text, rm, tm, now)
    requires k < |tm| && tm[k].Some? && forall j :: 0 <= j < k ==> tm[j].None?
    requires MonthDatePhrase(lead, gap1, month, gap2, day)
    requires var m := tm[k].value;
      && Matched(Trim(text), m) == lead + gap1 + month + gap2 + day
      && Group(m, 1) == Some(month) && Group(m, 2) == Some(day)
    ensures ParseSpec(text, rm, tm, now) == Failure(InvalidDate)
  {
    var m := tm[k].value;
    assert FirstMatch(tm) == Some(k);
    MonthDateIsClockTime(lead, gap1, month, gap2, day, m);
    MonthNameIsWord(Lower(month));
    assert Lower(month)[0] == LowerChar(month[0]);
    MonthNameIsInvalid(Matched(Trim(text), m), m, now);
  }
}
