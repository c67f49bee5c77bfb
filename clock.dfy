/** JavaScript `Date` arithmetic on time values (milliseconds since the epoch).
    Local time is taken to be UTC: no time-zone offset and no daylight-saving shifts,
    so a day is always 86 400 000 ms long. */
module Clock {
  import opened Wrappers

  const MinuteMs: int := 60000
  const HourMs: int := 3600000
  const DayMs: int := 86400000
  /** The largest magnitude a time value may have (TimeClip). */
  const MaxTime: int := 8640000000000000

  /** A `Date` object's time value: None stands for an Invalid Date (NaN). */
  type Date = Option<int>

  predicate IsValidTime(t: int) {
    -MaxTime <= t <= MaxTime
  }

  /** TimeClip: a time value out of range makes the date invalid. */
  function Clip(t: int): Date {
    if IsValidTime(t) then Some(t) else None
  }

  /** Day number of a time value (days since the epoch). */
  function Day(t: int): int {
    t / DayMs
  }

  /** Milliseconds since midnight. */
  function TimeInDay(t: int): int {
    t % DayMs
  }

  /** `getDay()`: 0 for Sunday to 6 for Saturday; day 0 was a Thursday. */
  function WeekDay(t: int): (w: int)
    ensures 0 <= w < 7
  {
    (Day(t) + 4) % 7
  }

  /** `d.setHours(h, m, 0, 0)`: the given hours and minutes from midnight of the day
      of `d`; hours and minutes outside their usual range carry into other days. */
  function SetHours(d: Date, h: Option<int>, m: Option<int>): Date {
    if d.None? || h.None? || m.None? then None
    else Clip(Day(d.value) * DayMs + h.value * HourMs + m.value * MinuteMs)
  }

  /** `n` units of `unitMs` milliseconds later, as `setDate(getDate() + n)`,
      `setHours(getHours() + n)` and `setMinutes(getMinutes() + n)` compute it. */
  function Add(d: Date, n: Option<int>, unitMs: int): Date {
    if d.None? || n.None? then None else Clip(d.value + n.value * unitMs)
  }

  /** A time value splits into its day and the time within that day. */
  lemma DaySplit(t: int)
    ensures t == Day(t) * DayMs + TimeInDay(t)
    ensures 0 <= TimeInDay(t) < DayMs
  {
  }

  /** A time value `x` after midnight of day `q` lies in day `q`, at `x`. */
  lemma DayOf(q: int, x: int)
    requires 0 <= x < DayMs
    ensures Day(q * DayMs + x) == q && TimeInDay(q * DayMs + x) == x
  {
    var t := q * DayMs + x;
    DaySplit(t);
    var q' := Day(t);
    var x' := TimeInDay(t);
    assert q' * DayMs + x' == q * DayMs + x;
  }

  /** Moving by whole days changes the day number and keeps the time of day. */
  lemma AddWholeDays(t: int, n: int)
    ensures Day(t + n * DayMs) == Day(t) + n
    ensures TimeInDay(t + n * DayMs) == TimeInDay(t)
  {
    DaySplit(t);
    assert t + n * DayMs == (Day(t) + n) * DayMs + TimeInDay(t);
    DayOf(Day(t) + n, TimeInDay(t));
  }

  /** `n` days later the weekday has moved on by `n`, modulo 7. */
  lemma WeekDayAfter(t: int, n: int)
    ensures WeekDay(t + n * DayMs) == (WeekDay(t) + n) % 7
  {
    AddWholeDays(t, n);
  }

  /** On a valid date, `setHours(h, m, 0, 0)` with an hour and minute of the clock
      lands on the same day at that hour and minute. */
  lemma SetHoursOnClock(t: int, h: int, m: int)
    requires 0 <= h < 24 && 0 <= m < 60
    ensures var x := h * HourMs + m * MinuteMs;
      && 0 <= x < DayMs
      && (SetHours(Some(t), Some(h), Some(m)).Some? ==>
            var r := SetHours(Some(t), Some(h), Some(m)).value;
            Day(r) == Day(t) && TimeInDay(r) == x)
  {
    var x := h * HourMs + m * MinuteMs;
    assert x <= 23 * HourMs + 59 * MinuteMs;
    DayOf(Day(t), x);
  }

  /** The next day at an hour and minute of the clock, as `setDate(getDate() + 1)`
      followed by `setHours(h, m, 0, 0)` computes it. */
  lemma NextDayAt(t: int, h: int, m: int)
    requires 0 <= h < 24 && 0 <= m < 60
    ensures var r := SetHours(Add(Some(t), Some(1), DayMs), Some(h), Some(m));
      r.Some? ==> Day(r.value) == Day(t) + 1 && TimeInDay(r.value) == h * HourMs + m * MinuteMs
  {
    var d := Add(Some(t), Some(1), DayMs);
    if d.Some? {
      assert d.value == t + 1 * DayMs;
      AddWholeDays(t, 1);
      SetHoursOnClock(d.value, h, m);
    }
  }
}
