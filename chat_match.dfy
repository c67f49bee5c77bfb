/** The pattern matching that `parseTaskFromText` (task-reminder-backend/routes/chatbot.js)
    depends on.

    The seventeen regular expressions of the reminder and due-date pattern lists are not
    re-implemented: what each one returns on the trimmed message is an input, a `Match`
    per pattern (or None when it does not match). The small matchers the function applies
    afterwards to `match[0]` and to the working text are written out here: the relative
    offset test, the clock-time search, the anchored lead-in prefixes and the separators.
    Letters are compared case-insensitively by ASCII case folding, which is how a
    JavaScript `/i` pattern treats an all-ASCII literal. */
module ChatMatch {
  import opened Wrappers
  import opened JsText
  import opened Clock

  // ---------------------------------------------------------------------------
  // regular-expression results

  /** The first match of a pattern in a text: `match[0]` is `text[start..end]`, and
      `groups[k - 1]` is `match[k]` (None when group k took no part in the match). */
  datatype Match = Match(start: nat, end: nat, groups: seq<Option<string>>)

  predicate Within(text: string, m: Match) {
    m.start <= m.end <= |text|
  }

  /** `match[0]` */
  function Matched(text: string, m: Match): string
    requires Within(text, m)
  {
    text[m.start..m.end]
  }

  /** `match[k]` for k >= 1: undefined beyond the pattern's groups. */
  function Group(m: Match, k: nat): Option<string> {
    if 1 <= k <= |m.groups| then m.groups[k - 1] else None
  }

  /** `text.replace(pattern, '')`: the first match cut out of the text. */
  function CutMatch(text: string, m: Match): (r: string)
    requires Within(text, m)
    ensures |r| == |text| - (m.end - m.start)
  {
    text[..m.start] + text[m.end..]
  }

  /** The index of the first pattern in list order that matched: the loops at lines
      56-81 and 157-271 stop at the first match. */
  function FirstMatch(ms: seq<Option<Match>>): (k: Option<nat>)
    ensures k.Some? ==> k.value < |ms| && ms[k.value].Some?
    ensures k.Some? ==> forall j :: 0 <= j < k.value ==> ms[j].None?
    ensures k.None? ==> forall j :: 0 <= j < |ms| ==> ms[j].None?
  {
    if |ms| == 0 then None
    else if ms[0].Some? then Some(0)
    else match FirstMatch(ms[1..])
      case Some(k) => Some(k + 1)
      case None => None
  }

  /** Entries past the first match do not change which pattern is first. */
  lemma {:induction false} FirstMatchPrefix(ms: seq<Option<Match>>, ms': seq<Option<Match>>, i: nat)
    requires i < |ms| && i < |ms'| && ms[..i + 1] == ms'[..i + 1]
    requires ms[i].Some? && forall j :: 0 <= j < i ==> ms[j].None?
    ensures FirstMatch(ms) == FirstMatch(ms') == Some(i)
  {
    assert ms'[i] == ms[..i + 1][i];
    assert forall j :: 0 <= j < i ==> ms'[j] == ms[..i + 1][j];
  }

  // ---------------------------------------------------------------------------
  // `match[0].match(/(?:in|after)\s+\d+/i)` (line 164)

  /** From index i: a run of white space, then a digit (`\s*\d`). */
  predicate SpaceRunThenDigit(s: string, i: nat)
    decreases |s| - i
  {
    i < |s| && (IsDigit(s[i]) || (IsSpace(s[i]) && SpaceRunThenDigit(s, i + 1)))
  }

  /** From index i: at least one white space, then a digit (`\s+\d`). */
  predicate SpacesThenDigit(s: string, i: nat) {
    i < |s| && IsSpace(s[i]) && SpaceRunThenDigit(s, i + 1)
  }

  /** "in" or "after", in any case, then white space and a digit, starting at index i. */
  predicate RelativeAt(s: string, i: nat) {
    || (OccursAt(Lower(s), "in", i) && SpacesThenDigit(s, i + 2))
    || (OccursAt(Lower(s), "after", i) && SpacesThenDigit(s, i + 5))
  }

  /** The text contains a relative offset such as "in 2" or "After  30". */
  predicate HasRelativeOffset(s: string) {
    exists i: nat :: i < |s| && RelativeAt(s, i)
  }

  // ---------------------------------------------------------------------------
  // `match[0].match(/(\d{1,2}):?(\d{2})?\s*(am|pm)/i)` (lines 188 and 201)

  /** The groups of a clock-time match: hour digits, optional minute digits and the
      period as written. */
  datatype TimeCaptures = TimeCaptures(hour: string, minute: Option<string>, period: string)

  /** The index after a run of white space starting at i. */
  function SkipSpaces(s: string, i: nat): (j: nat)
    requires i <= |s|
    decreases |s| - i
    ensures i <= j <= |s|
  {
    if i < |s| && IsSpace(s[i]) then SkipSpaces(s, i + 1) else i
  }

  /** Two digits at index i. */
  predicate TwoDigitsAt(s: string, i: nat) {
    i + 2 <= |s| && IsDigit(s[i]) && IsDigit(s[i + 1])
  }

  /** `\s*(am|pm)` from index i: the period as written. */
  function PeriodAt(s: string, i: nat): Option<string>
    requires i <= |s|
  {
    var j := SkipSpaces(s, i);
    if j + 2 <= |s| && (Lower(s[j..j + 2]) == "am" || Lower(s[j..j + 2]) == "pm")
    then Some(s[j..j + 2])
    else None
  }

  /** `(\d{2})?\s*(am|pm)` from index i: with the two minute digits first, then without. */
  function MinutesAndPeriodAt(s: string, i: nat): Option<(Option<string>, string)>
    requires i <= |s|
  {
    var withMinutes := if TwoDigitsAt(s, i) then PeriodAt(s, i + 2) else None;
    if withMinutes.Some? then Some((Some(s[i..i + 2]), withMinutes.value))
    else match PeriodAt(s, i)
      case Some(p) => Some((None, p))
      case None => None
  }

  /** `:?(\d{2})?\s*(am|pm)` from index i: with the colon first, then without. */
  function AfterHourAt(s: string, i: nat): Option<(Option<string>, string)>
    requires i <= |s|
  {
    var withColon := if i < |s| && s[i] == ':' then MinutesAndPeriodAt(s, i + 1) else None;
    if withColon.Some? then withColon else MinutesAndPeriodAt(s, i)
  }

  /** The whole clock-time pattern anchored at index i: two hour digits first, then one. */
  function TimeAt(s: string, i: nat): Option<TimeCaptures>
    requires i <= |s|
  {
    var two := if TwoDigitsAt(s, i) then AfterHourAt(s, i + 2) else None;
    if two.Some? then Some(TimeCaptures(s[i..i + 2], two.value.0, two.value.1))
    else if i < |s| && IsDigit(s[i]) then
      match AfterHourAt(s, i + 1)
      case Some(r) => Some(TimeCaptures(s[i..i + 1], r.0, r.1))
      case None => None
    else None
  }

  /** The leftmost clock-time match at or after index i. */
  function FindTimeFrom(s: string, i: nat): Option<TimeCaptures>
    requires i <= |s|
    decreases |s| - i
  {
    if i == |s| then None
    else match TimeAt(s, i)
      case Some(c) => Some(c)
      case None => FindTimeFrom(s, i + 1)
  }

  /** `s.match(/(\d{1,2}):?(\d{2})?\s*(am|pm)/i)` */
  function FindTime(s: string): Option<TimeCaptures> {
    FindTimeFrom(s, 0)
  }

  /** A period found by the search is "am" or "pm" in some case. */
  lemma PeriodAtIsPeriod(s: string, i: nat)
    requires i <= |s| && PeriodAt(s, i).Some?
    ensures Lower(PeriodAt(s, i).value) in {"am", "pm"}
  {
  }

  /** What a clock-time match captures: one or two hour digits, two minute digits if
      any, and a period that is "am" or "pm" in some case. */
  predicate WellFormedTime(c: TimeCaptures) {
    && 1 <= |c.hour| <= 2 && AllDigits(c.hour)
    && (c.minute.Some? ==> |c.minute.value| == 2 && AllDigits(c.minute.value))
    && Lower(c.period) in {"am", "pm"}
  }

  lemma {:induction false} FindTimeWellFormed(s: string, i: nat)
    requires i <= |s| && FindTimeFrom(s, i).Some?
    ensures WellFormedTime(FindTimeFrom(s, i).value)
    decreases |s| - i
  {
    match TimeAt(s, i)
    case Some(c) =>
      assert c == FindTimeFrom(s, i).value;
      TimeAtWellFormed(s, i);
    case None =>
      FindTimeWellFormed(s, i + 1);
  }

  lemma TimeAtWellFormed(s: string, i: nat)
    requires i <= |s| && TimeAt(s, i).Some?
    ensures WellFormedTime(TimeAt(s, i).value)
  {
    var c := TimeAt(s, i).value;
    var a := if TwoDigitsAt(s, i) && AfterHourAt(s, i + 2).Some? then i + 2 else i + 1;
    AfterHourWellFormed(s, a);
  }

  lemma AfterHourWellFormed(s: string, i: nat)
    requires i <= |s| && AfterHourAt(s, i).Some?
    ensures var r := AfterHourAt(s, i).value;
      && (r.0.Some? ==> |r.0.value| == 2 && AllDigits(r.0.value))
      && Lower(r.1) in {"am", "pm"}
  {
    if i < |s| && s[i] == ':' && MinutesAndPeriodAt(s, i + 1).Some? {
      MinutesWellFormed(s, i + 1);
    } else {
      MinutesWellFormed(s, i);
    }
  }

  lemma MinutesWellFormed(s: string, i: nat)
    requires i <= |s| && MinutesAndPeriodAt(s, i).Some?
    ensures var r := MinutesAndPeriodAt(s, i).value;
      && (r.0.Some? ==> |r.0.value| == 2 && AllDigits(r.0.value))
      && Lower(r.1) in {"am", "pm"}
  {
    if TwoDigitsAt(s, i) && PeriodAt(s, i + 2).Some? {
      PeriodAtIsPeriod(s, i + 2);
    } else {
      PeriodAtIsPeriod(s, i);
    }
  }

  // ---------------------------------------------------------------------------
  // `convertTo24Hour` (lines 140-154)

  /** The hour on the 24-hour clock for an hour read with a period: a pm hour other than
      12 gains 12, 12 am becomes 0, and any other hour (or no period) is kept. */
  function HourIn24(h: Option<int>, period: Option<string>): Option<int> {
    var p := if Truthy(period) then Lower(period.value) else "";
    if p == "pm" && h != Some(12) then (if h.Some? then Some(h.value + 12) else None)
    else if p == "am" && h == Some(12) then Some(0)
    else h
  }

  /** `convertTo24Hour(hour, minute, period)`: the hour and minute as numbers, None for
      NaN; a missing minute is 0. */
  function ConvertTo24Hour(hour: Option<string>, minute: Option<string>, period: Option<string>)
    : (Option<int>, Option<int>)
  {
    (HourIn24(ParseInt(hour), period), if Truthy(minute) then ParseInt(minute) else Some(0))
  }

  /** The period shift: a pm hour other than 12 gains 12, 12 pm stays 12, 12 am becomes 0
      and any other am hour is kept, so hours 1 to 12 map onto 12 to 23 with pm and onto
      0 to 11 with am; without a period, or with a period that is neither, the hour is
      kept. */
  lemma PeriodShift(n: int, period: Option<string>)
    ensures var h := HourIn24(Some(n), period);
      var p := if Truthy(period) then Lower(period.value) else "";
      && h.Some?
      && (p == "pm" && n != 12 ==> h.value == n + 12)
      && (p == "pm" && n == 12 ==> h.value == 12)
      && (p == "am" && n == 12 ==> h.value == 0)
      && (p == "am" && n != 12 ==> h.value == n)
      && (p == "pm" && 1 <= n <= 12 ==> 12 <= h.value < 24)
      && (p == "am" && 1 <= n <= 12 ==> 0 <= h.value < 12)
      && (p != "am" && p != "pm" ==> h.value == n)
  {
  }

  /** The twelve-hour clock on digit strings: the hour is the number the digits spell,
      shifted by the period as `PeriodShift` states, and a missing minute reads as 0. */
  lemma TwelveHourClock(hour: string, minute: Option<string>, period: Option<string>)
    requires |hour| > 0 && AllDigits(hour)
    ensures var time := ConvertTo24Hour(Some(hour), minute, period);
      && time.0 == HourIn24(Some(DecimalValue(hour)), period)
      && (!Truthy(minute) ==> time.1 == Some(0))
      && (Truthy(minute) && AllDigits(minute.value) ==> time.1 == Some(DecimalValue(minute.value)))
  {
    ParseIntDigits(hour);
    if Truthy(minute) && AllDigits(minute.value) {
      ParseIntDigits(minute.value);
    }
  }

  /** Distinct twelve-hour readings give distinct 24-hour hours. */
  lemma TwelveHourClockInjective(h1: string, p1: string, h2: string, p2: string)
    requires |h1| > 0 && AllDigits(h1) && 1 <= DecimalValue(h1) <= 12
    requires |h2| > 0 && AllDigits(h2) && 1 <= DecimalValue(h2) <= 12
    requires Lower(p1) in {"am", "pm"} && Lower(p2) in {"am", "pm"}
    requires ConvertTo24Hour(Some(h1), None, Some(p1)).0 == ConvertTo24Hour(Some(h2), None, Some(p2)).0
    ensures DecimalValue(h1) == DecimalValue(h2) && Lower(p1) == Lower(p2)
  {
    ParseIntDigits(h1);
    ParseIntDigits(h2);
    PeriodShift(DecimalValue(h1), Some(p1));
    PeriodShift(DecimalValue(h2), Some(p2));
  }

  // ---------------------------------------------------------------------------
  // `getNextWeekday` (lines 119-135)

  const WeekdayNames: seq<string> :=
    ["sunday", "monday", "tuesday", "wednesday", "thursday", "friday", "saturday"]

  /** `days.indexOf(name)` for a name in the list. */
  function WeekdayIndex(name: string): (k: nat)
    requires name in WeekdayNames
    ensures k < 7 && WeekdayNames[k] == name
  {
    if name == "sunday" then 0 else if name == "monday" then 1
    else if name == "tuesday" then 2 else if name == "wednesday" then 3
    else if name == "thursday" then 4 else if name == "friday" then 5
    else 6
  }

  /** Days from weekday `today` forward to weekday `target`; a distance of zero or
      less is pushed a week on. */
  function DaysUntil(target: int, today: int): int {
    var d := target - today;
    if d <= 0 then d + 7 else d
  }

  /** The distance is one to seven days, it lands on the target weekday, and it is a
      whole week exactly when the target is today's weekday. */
  lemma DaysUntilLandsOnTarget(target: int, today: int)
    requires 0 <= target < 7 && 0 <= today < 7
    ensures 1 <= DaysUntil(target, today) <= 7
    ensures (today + DaysUntil(target, today)) % 7 == target
    ensures DaysUntil(target, today) == 7 <==> target == today
  {
  }

  /** `getNextWeekday(dayName)`: the current time moved forward to the next day with
      that name; a name that is not a weekday gives the current time. */
  function NextWeekday(dayName: string, now: int): Date
    requires IsValidTime(now)
  {
    var name := Lower(dayName);
    if name !in WeekdayNames then Some(now)
    else Add(Some(now), Some(DaysUntil(WeekdayIndex(name), WeekDay(now))), DayMs)
  }

  /** The next weekday is one to seven days on, at the same time of day, on a day with
      the requested name, and exactly seven days on when that is today's name. */
  lemma NextWeekdayFacts(dayName: string, now: int)
    requires IsValidTime(now)
    ensures Lower(dayName) !in WeekdayNames ==> NextWeekday(dayName, now) == Some(now)
    ensures Lower(dayName) in WeekdayNames && NextWeekday(dayName, now).Some? ==>
      var t := NextWeekday(dayName, now).value;
      var k := WeekdayIndex(Lower(dayName));
      && 1 <= Day(t) - Day(now) <= 7
      && TimeInDay(t) == TimeInDay(now)
      && WeekDay(t) == k
      && (Day(t) - Day(now) == 7 <==> k == WeekDay(now))
  {
    var name := Lower(dayName);
    if name in WeekdayNames {
      var k := WeekdayIndex(name);
      var d := DaysUntil(k, WeekDay(now));
      DaysUntilLandsOnTarget(k, WeekDay(now));
      AddWholeDays(now, d);
      WeekDayAfter(now, d);
    }
  }

  // ---------------------------------------------------------------------------
  // lead-ins and separators (lines 277-299)

  /** The alternatives of the first clean-up pattern, in order. */
  const LeadIns: seq<string> := [
    "remind me to", "remind me", "set a reminder to", "set reminder to", "alert me to",
    "notify me to", "i need to", "i should", "please remind me to", "can you remind me to"]

  /** The second clean-up pattern: a task label followed by a colon. */
  const TaskLabels: seq<string> := ["task:", "todo:", "to do:"]

  /** The clean-up patterns, applied in this order. */
  const CleanupPatterns: seq<seq<string>> := [LeadIns, TaskLabels]

  /** The title/description separators, in the order they are tried. */
  const Separators: seq<string> := [" - ", " | ", ": ", " about ", " regarding "]

  /** The first alternative, in list order, that begins the text (any case). */
  function FirstPrefix(s: string, alts: seq<string>): (k: Option<nat>)
    ensures k.Some? ==> k.value < |alts| && StartsWith(Lower(s), alts[k.value])
    ensures k.Some? ==> forall j :: 0 <= j < k.value ==> !StartsWith(Lower(s), alts[j])
    ensures k.None? ==> forall j :: 0 <= j < |alts| ==> !StartsWith(Lower(s), alts[j])
  {
    if |alts| == 0 then None
    else if StartsWith(Lower(s), alts[0]) then Some(0)
    else match FirstPrefix(s, alts[1..])
      case Some(k) => Some(k + 1)
      case None => None
  }

  /** `s.replace(/^(?:alt|...)\s*&#47;i, '').trim()`: the first alternative that begins
      the text, and the white space after it, removed, then the rest trimmed. */
  function StripPrefix(s: string, alts: seq<string>): string {
    match FirstPrefix(s, alts)
    case None => Trim(s)
    case Some(k) => Trim(s[|alts[k]|..])
  }

  /** The clean-up loop: each pattern in turn stripped from the text. */
  function Cleanup(s: string, patterns: seq<seq<string>>): string
    decreases |patterns|
  {
    if |patterns| == 0 then s else Cleanup(StripPrefix(s, patterns[0]), patterns[1..])
  }

  /** The first separator, in list order (not in text order), that the text contains. */
  function FirstSeparator(s: string, seps: seq<string>): (k: Option<nat>)
    ensures k.Some? ==> k.value < |seps| && Contains(s, seps[k.value])
    ensures k.Some? ==> forall j :: 0 <= j < k.value ==> !Contains(s, seps[j])
    ensures k.None? ==> forall j :: 0 <= j < |seps| ==> !Contains(s, seps[j])
  {
    if |seps| == 0 then None
    else if Contains(s, seps[0]) then Some(0)
    else match FirstSeparator(s, seps[1..])
      case Some(k) => Some(k + 1)
      case None => None
  }
}
