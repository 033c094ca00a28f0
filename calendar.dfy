/** Local calendar time as a JavaScript Date exposes it (getFullYear,
    getMonth, getDate, getHours, getMinutes, getSeconds, getMilliseconds),
    the Date setters' overflow normalisation, and the time value (milliseconds
    since 1 January 1970) that Date comparison uses. The calendar is the
    proleptic Gregorian one of ECMAScript; time zones and daylight saving are
    not modelled, so local time is treated as a uniform time line. */
module Calendar {

  /** A broken-down local time; `month` is 0-based as in getMonth. */
  datatype DateTime = DateTime(year: int, month: int, day: int,
                               hours: int, minutes: int, seconds: int, millis: int)

  predicate IsLeapYear(y: int) {
    y % 4 == 0 && (y % 100 != 0 || y % 400 == 0)
  }

  function DaysInYear(y: int): int {
    if IsLeapYear(y) then 366 else 365
  }

  function DaysInMonth(y: int, m: int): (n: int)
    requires 0 <= m < 12
    ensures 28 <= n <= 31
  {
    if m == 1 then (if IsLeapYear(y) then 29 else 28)
    else if m == 3 || m == 5 || m == 8 || m == 10 then 30
    else 31
  }

  /** Every field within the range a Date's getters report. */
  predicate Normalized(t: DateTime) {
    && 0 <= t.month < 12
    && 1 <= t.day <= DaysInMonth(t.year, t.month)
    && 0 <= t.hours < 24
    && 0 <= t.minutes < 60
    && 0 <= t.seconds < 60
    && 0 <= t.millis < 1000
  }

  /** The hours, minutes, seconds and milliseconds of `a` and `b` agree. */
  predicate SameClock(a: DateTime, b: DateTime) {
    a.hours == b.hours && a.minutes == b.minutes && a.seconds == b.seconds && a.millis == b.millis
  }

  /** Days from 1 January 1970 to 1 January of year `y`, negative for
      earlier years: the ECMAScript DayFromYear, counted year by year. */
  function DaysBeforeYear(y: int): int
    decreases if y < 1970 then 1970 - y else y - 1970
  {
    if y == 1970 then 0
    else if y > 1970 then DaysBeforeYear(y - 1) + DaysInYear(y - 1)
    else DaysBeforeYear(y + 1) - DaysInYear(y)
  }

  /** Days from 1 January of year `y` to the first day of month `m`. */
  function DaysBeforeMonth(y: int, m: int): int
    requires 0 <= m < 12
  {
    if m == 0 then 0 else DaysBeforeMonth(y, m - 1) + DaysInMonth(y, m - 1)
  }

  /** Days since 1 January 1970 of the calendar day of `t`. */
  function DayNumber(t: DateTime): int
    requires 0 <= t.month < 12
  {
    DaysBeforeYear(t.year) + DaysBeforeMonth(t.year, t.month) + t.day - 1
  }

  const MsPerSecond: int := 1000
  const MsPerMinute: int := 60000
  const MsPerHour: int := 3600000
  const MsPerDay: int := 86400000

  /** The Date's time value: milliseconds since 1 January 1970, 00:00. */
  function TimeValue(t: DateTime): int
    requires 0 <= t.month < 12
  {
    DayNumber(t) * MsPerDay + t.hours * MsPerHour + t.minutes * MsPerMinute
      + t.seconds * MsPerSecond + t.millis
  }

  /** A year contributes its own length to the count. */
  lemma {:induction false} YearLength(y: int)
    ensures DaysBeforeYear(y + 1) == DaysBeforeYear(y) + DaysInYear(y)
  {
  }

  lemma {:induction false} MonthLength(y: int, m: int)
    requires 0 <= m < 11
    ensures DaysBeforeMonth(y, m + 1) == DaysBeforeMonth(y, m) + DaysInMonth(y, m)
  {
  }

  lemma {:induction false} DecemberEndsYear(y: int)
    ensures DaysBeforeYear(y) + DaysBeforeMonth(y, 11) + DaysInMonth(y, 11) == DaysBeforeYear(y + 1)
  {
    YearLength(y);
    var leap := if IsLeapYear(y) then 1 else 0;
    assert DaysBeforeMonth(y, 1) == 31;
    assert DaysBeforeMonth(y, 2) == 59 + leap;
    assert DaysBeforeMonth(y, 3) == 90 + leap;
    assert DaysBeforeMonth(y, 4) == 120 + leap;
    assert DaysBeforeMonth(y, 5) == 151 + leap;
    assert DaysBeforeMonth(y, 6) == 181 + leap;
    assert DaysBeforeMonth(y, 7) == 212 + leap;
    assert DaysBeforeMonth(y, 8) == 243 + leap;
    assert DaysBeforeMonth(y, 9) == 273 + leap;
    assert DaysBeforeMonth(y, 10) == 304 + leap;
    assert DaysBeforeMonth(y, 11) == 334 + leap;
  }

  /** The calendar day after `t`, at the same time of day. */
  function NextDay(t: DateTime): (r: DateTime)
    requires Normalized(t)
    ensures Normalized(r) && SameClock(r, t)
    ensures DayNumber(r) == DayNumber(t) + 1
  {
    if t.day < DaysInMonth(t.year, t.month) then t.(day := t.day + 1)
    else if t.month < 11 then MonthLength(t.year, t.month); t.(month := t.month + 1, day := 1)
    else DecemberEndsYear(t.year); t.(year := t.year + 1, month := 0, day := 1)
  }

  /** The calendar day before `t`, at the same time of day. */
  function PrevDay(t: DateTime): (r: DateTime)
    requires Normalized(t)
    ensures Normalized(r) && SameClock(r, t)
    ensures DayNumber(r) == DayNumber(t) - 1
  {
    if t.day > 1 then t.(day := t.day - 1)
    else if t.month > 0 then
      MonthLength(t.year, t.month - 1);
      t.(month := t.month - 1, day := DaysInMonth(t.year, t.month - 1))
    else
      DecemberEndsYear(t.year - 1);
      t.(year := t.year - 1, month := 11, day := 31)
  }

  /** `n` calendar days after (or, for negative `n`, before) `t`. */
  function AddDays(t: DateTime, n: int): (r: DateTime)
    requires Normalized(t)
    ensures Normalized(r) && SameClock(r, t)
    ensures DayNumber(r) == DayNumber(t) + n
    decreases if n < 0 then -n else n
  {
    if n == 0 then t
    else if n > 0 then AddDays(NextDay(t), n - 1)
    else AddDays(PrevDay(t), n + 1)
  }

  /** Date.prototype.setMonth(month): the year absorbs whole multiples of 12
      and a day beyond the end of the new month spills into the next one. */
  function WithMonth(t: DateTime, month: int): (r: DateTime)
    requires Normalized(t)
    ensures Normalized(r) && SameClock(r, t)
  {
    var y := t.year + month / 12;
    var m := month % 12;
    var length := DaysInMonth(y, m);
    if t.day <= length then t.(year := y, month := m)
    else if m < 11 then t.(year := y, month := m + 1, day := t.day - length)
    else t.(year := y + 1, month := 0, day := t.day - length)
  }

  /** setMonth keeps the day of the month as an offset from the first day of
      the new month (the ECMAScript MakeDay of year, month and date). */
  lemma {:induction false} WithMonthDayNumber(t: DateTime, month: int)
    requires Normalized(t)
    ensures DayNumber(WithMonth(t, month)) == MonthStart(t.year, month) + t.day - 1
  {
    var y := t.year + month / 12;
    var m := month % 12;
    if t.day > DaysInMonth(y, m) {
      if m < 11 {
        MonthLength(y, m);
      } else {
        DecemberEndsYear(y);
      }
    }
  }

  /** Date.prototype.setDate(date): day `date` of the current month, counted
      on into later months or back into earlier ones when out of range. */
  function WithDate(t: DateTime, date: int): (r: DateTime)
    requires Normalized(t)
    ensures Normalized(r) && SameClock(r, t)
  {
    AddDays(t, date - t.day)
  }

  /** The day of `t` at `x` seconds after its midnight (ECMAScript MakeTime
      and MakeDate): `x` may be negative or exceed a day, and whole days carry
      into the date. The milliseconds are kept. */
  function AtSecondOfDay(t: DateTime, x: int): (r: DateTime)
    requires Normalized(t)
    ensures Normalized(r)
  {
    var minutes := x / 60;
    var hours := minutes / 60;
    AddDays(t.(hours := hours % 24, minutes := minutes % 60, seconds := x % 60), hours / 24)
  }

  /** Date.prototype.setHours(hours). */
  function WithHours(t: DateTime, hours: int): (r: DateTime)
    requires Normalized(t)
    ensures Normalized(r)
  {
    AtSecondOfDay(t, hours * 3600 + t.minutes * 60 + t.seconds)
  }

  /** Date.prototype.setMinutes(minutes). */
  function WithMinutes(t: DateTime, minutes: int): (r: DateTime)
    requires Normalized(t)
    ensures Normalized(r)
  {
    AtSecondOfDay(t, t.hours * 3600 + minutes * 60 + t.seconds)
  }

  /** Date.prototype.setSeconds(seconds). */
  function WithSeconds(t: DateTime, seconds: int): (r: DateTime)
    requires Normalized(t)
    ensures Normalized(r)
  {
    AtSecondOfDay(t, t.hours * 3600 + t.minutes * 60 + seconds)
  }

  /** setDate moves the time value by whole days. */
  lemma {:induction false} WithDateTimeValue(t: DateTime, date: int)
    requires Normalized(t)
    ensures TimeValue(WithDate(t, date)) == TimeValue(t) + (date - t.day) * MsPerDay
  {
  }

  /** Setting the time of day to second `x` moves the time value to `x`
      seconds after the midnight of the day of `t`. */
  lemma {:induction false} AtSecondOfDayTimeValue(t: DateTime, x: int)
    requires Normalized(t)
    ensures TimeValue(AtSecondOfDay(t, x)) == DayNumber(t) * MsPerDay + x * MsPerSecond + t.millis
  {
    var minutes := x / 60;
    var hours := minutes / 60;
    assert x == 60 * minutes + x % 60;
    assert minutes == 60 * hours + minutes % 60;
    assert hours == 24 * (hours / 24) + hours % 24;
  }

  /** setHours moves the time value by whole hours, carrying into the date. */
  lemma {:induction false} WithHoursTimeValue(t: DateTime, hours: int)
    requires Normalized(t)
    ensures TimeValue(WithHours(t, hours)) == TimeValue(t) + (hours - t.hours) * MsPerHour
  {
    AtSecondOfDayTimeValue(t, hours * 3600 + t.minutes * 60 + t.seconds);
  }

  /** setMinutes moves the time value by whole minutes. */
  lemma {:induction false} WithMinutesTimeValue(t: DateTime, minutes: int)
    requires Normalized(t)
    ensures TimeValue(WithMinutes(t, minutes)) == TimeValue(t) + (minutes - t.minutes) * MsPerMinute
  {
    AtSecondOfDayTimeValue(t, t.hours * 3600 + minutes * 60 + t.seconds);
  }

  /** setSeconds moves the time value by whole seconds. */
  lemma {:induction false} WithSecondsTimeValue(t: DateTime, seconds: int)
    requires Normalized(t)
    ensures TimeValue(WithSeconds(t, seconds)) == TimeValue(t) + (seconds - t.seconds) * MsPerSecond
  {
    AtSecondOfDayTimeValue(t, t.hours * 3600 + t.minutes * 60 + seconds);
  }

  /** The day number of the first day of month `month` counted from January
      of `year` (the ECMAScript MakeDay with date 1); `month` may lie outside
      0..11. */
  function MonthStart(year: int, month: int): int {
    DaysBeforeYear(year + month / 12) + DaysBeforeMonth(year + month / 12, month % 12)
  }

  lemma {:induction false} MonthStartStep(year: int, month: int)
    ensures MonthStart(year, month + 1)
         == MonthStart(year, month) + DaysInMonth(year + month / 12, month % 12)
  {
    if month % 12 < 11 {
      assert (month + 1) / 12 == month / 12 && (month + 1) % 12 == month % 12 + 1;
      MonthLength(year + month / 12, month % 12);
    } else {
      assert (month + 1) / 12 == month / 12 + 1 && (month + 1) % 12 == 0;
      DecemberEndsYear(year + month / 12);
    }
  }

  /** Later months start on later days. */
  lemma {:induction false} MonthStartIncreasing(year: int, a: int, b: int)
    requires a < b
    ensures MonthStart(year, a) < MonthStart(year, b)
    decreases b - a
  {
    MonthStartStep(year, b - 1);
    if a < b - 1 {
      MonthStartIncreasing(year, a, b - 1);
    }
  }

  /** A Date's own month starts `day - 1` days before it. */
  lemma {:induction false} OwnMonthStart(t: DateTime)
    requires Normalized(t)
    ensures DayNumber(t) == MonthStart(t.year, t.month) + t.day - 1
  {
    assert t.month / 12 == 0 && t.month % 12 == t.month;
  }

  /** At the same time of day, a later calendar day is a later time. */
  lemma {:induction false} LaterDayLaterTime(a: DateTime, b: DateTime)
    requires Normalized(a) && Normalized(b) && SameClock(a, b)
    ensures DayNumber(a) < DayNumber(b) <==> TimeValue(a) < TimeValue(b)
  {
  }

  /** Moving `n > 0` months forward lands on a strictly later day. */
  lemma {:induction false} WithMonthForward(t: DateTime, n: int)
    requires Normalized(t) && n > 0
    ensures DayNumber(WithMonth(t, t.month + n)) > DayNumber(t)
  {
    WithMonthDayNumber(t, t.month + n);
    OwnMonthStart(t);
    MonthStartIncreasing(t.year, t.month, t.month + n);
  }

  /** Moving `n > 0` months forward gives a strictly later time. */
  lemma {:induction false} WithMonthLater(t: DateTime, n: int)
    requires Normalized(t) && n > 0
    ensures TimeValue(t) < TimeValue(WithMonth(t, t.month + n))
  {
    WithMonthForward(t, n);
    LaterDayLaterTime(t, WithMonth(t, t.month + n));
  }

  /** A JavaScript Date object: a mutable cell holding one local time. */
  class Date {
    var local: DateTime

    ghost predicate Valid()
      reads this
    {
      Normalized(local)
    }

    /** `new Date()` at clock reading `t`, or `new Date(d)` copying a Date
        whose time is `t`. */
    constructor At(t: DateTime)
      requires Normalized(t)
      ensures Valid() && local == t
    {
      local := t;
    }

    function GetMonth(): int reads this { local.month }
    function GetDate(): int reads this { local.day }
    function GetHours(): int reads this { local.hours }
    function GetMinutes(): int reads this { local.minutes }
    function GetSeconds(): int reads this { local.seconds }

    method SetMonth(month: int)
      requires Valid()
      modifies this
      ensures Valid() && local == WithMonth(old(local), month)
    {
      local := WithMonth(local, month);
    }

    method SetDate(date: int)
      requires Valid()
      modifies this
      ensures Valid() && local == WithDate(old(local), date)
    {
      local := WithDate(local, date);
    }

    method SetHours(hours: int)
      requires Valid()
      modifies this
      ensures Valid() && local == WithHours(old(local), hours)
    {
      local := WithHours(local, hours);
    }

    method SetMinutes(minutes: int)
      requires Valid()
      modifies this
      ensures Valid() && local == WithMinutes(old(local), minutes)
    {
      local := WithMinutes(local, minutes);
    }

    method SetSeconds(seconds: int)
      requires Valid()
      modifies this
      ensures Valid() && local == WithSeconds(old(local), seconds)
    {
      local := WithSeconds(local, seconds);
    }
  }
}
