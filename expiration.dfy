/** The expiration object of a create or update request: its validation
    loop and addExpiration (backend/controllers/guestUserController.js,
    lines 70-98, repeated verbatim at 222-249). Both request handlers call
    the one ValidateDuration and the one AddExpiration defined here. */
module Expiration {
  import opened Calendar

  /** What the source makes of one unit `v` of the expiration object.
      `Falsy` is a missing or falsy value (undefined, null, 0, '', false,
      NaN), which `Number(v || 0)` reads as 0; `Integer(n)` is a value that
      `Number` turns into the integer `n`; `NotInteger` is anything `Number`
      turns into a fraction, NaN or an infinity. */
  datatype UnitValue = Falsy | Integer(n: int) | NotInteger

  datatype Unit = Months | Days | Hours | Minutes | Seconds

  /** The order in which the source visits the units. */
  const Units: seq<Unit> := [Months, Days, Hours, Minutes, Seconds]

  function UnitName(u: Unit): string {
    match u
    case Months => "months"
    case Days => "days"
    case Hours => "hours"
    case Minutes => "minutes"
    case Seconds => "seconds"
  }

  /** Position of a unit in `Units`. */
  function Rank(u: Unit): (i: nat)
    ensures i < |Units| && Units[i] == u
  {
    match u
    case Months => 0
    case Days => 1
    case Hours => 2
    case Minutes => 3
    case Seconds => 4
  }

  datatype Duration = Duration(months: UnitValue, days: UnitValue, hours: UnitValue,
                               minutes: UnitValue, seconds: UnitValue)
  {
    /** `expiration[unit]` */
    function Get(u: Unit): UnitValue {
      match u
      case Months => months
      case Days => days
      case Hours => hours
      case Minutes => minutes
      case Seconds => seconds
    }
  }

  /** `Number(v || 0)` is an integer and not negative. */
  predicate IsNonNegativeInteger(v: UnitValue) {
    v.Falsy? || (v.Integer? && v.n >= 0)
  }

  /** `Number(v || 0)` is greater than zero. */
  predicate IsPositive(v: UnitValue) {
    v.Integer? && v.n > 0
  }

  /** `Number(v || 0)` for a value that reads as an integer. */
  function Amount(v: UnitValue): int
    requires !v.NotInteger?
  {
    if v.Falsy? then 0 else v.n
  }

  /** The outcome of the validation: accepted, or the 400 response it sends. */
  datatype Verdict = Accepted | InvalidUnit(unit: Unit) | NoPositiveUnit

  function RejectionMessage(v: Verdict): string
    requires !v.Accepted?
  {
    match v
    case InvalidUnit(u) => "Invalid expiration: " + UnitName(u) + " must be a non-negative integer."
    case NoPositiveUnit => "Expiration must have at least one non-zero value."
  }

  /** Reference definition of the validation, unit by unit in source order. */
  function CheckDuration(d: Duration): Verdict {
    if !IsNonNegativeInteger(d.months) then InvalidUnit(Months)
    else if !IsNonNegativeInteger(d.days) then InvalidUnit(Days)
    else if !IsNonNegativeInteger(d.hours) then InvalidUnit(Hours)
    else if !IsNonNegativeInteger(d.minutes) then InvalidUnit(Minutes)
    else if !IsNonNegativeInteger(d.seconds) then InvalidUnit(Seconds)
    else if IsPositive(d.months) || IsPositive(d.days) || IsPositive(d.hours)
         || IsPositive(d.minutes) || IsPositive(d.seconds) then Accepted
    else NoPositiveUnit
  }

  /** `Units` lists each unit at its rank. */
  lemma UnitsRanked(i: nat)
    requires i < |Units|
    ensures Rank(Units[i]) == i
  {
    if i == 0 {
    } else if i == 1 {
    } else if i == 2 {
    } else if i == 3 {
    } else {
    }
  }

  /** Each unit value is one of the five fields. */
  lemma GetIsField(d: Duration, u: Unit)
    ensures d.Get(u) in {d.months, d.days, d.hours, d.minutes, d.seconds}
  {
  }

  /** The validation loop: each unit in turn must read as a non-negative
      integer, the first one that does not is reported, and at least one
      unit must be positive. */
  method ValidateDuration(d: Duration) returns (v: Verdict)
    ensures v == CheckDuration(d)
  {
    var hasPositive := false;
    for i := 0 to |Units|
      invariant forall u: Unit :: Rank(u) < i ==> IsNonNegativeInteger(d.Get(u))
      invariant hasPositive <==> exists u: Unit :: Rank(u) < i && IsPositive(d.Get(u))
    {
      var unit := Units[i];
      UnitsRanked(i);
      var value := d.Get(unit);
      if !IsNonNegativeInteger(value) {
        CheckNamesFirstInvalid(d, unit);
        return InvalidUnit(unit);
      }
      if Amount(value) > 0 {
        hasPositive := true;
      }
    }
    CheckWhenAllValid(d);
    if !hasPositive {
      return NoPositiveUnit;
    }
    return Accepted;
  }

  /** When every unit reads as a non-negative integer, the verdict depends
      only on whether one of them is positive. */
  lemma CheckWhenAllValid(d: Duration)
    requires forall u: Unit :: IsNonNegativeInteger(d.Get(u))
    ensures CheckDuration(d) == if exists u: Unit :: IsPositive(d.Get(u)) then Accepted else NoPositiveUnit
  {
    assert IsNonNegativeInteger(d.Get(Months)) && IsNonNegativeInteger(d.Get(Days))
        && IsNonNegativeInteger(d.Get(Hours)) && IsNonNegativeInteger(d.Get(Minutes))
        && IsNonNegativeInteger(d.Get(Seconds));
    if IsPositive(d.months) {
      assert IsPositive(d.Get(Months));
    } else if IsPositive(d.days) {
      assert IsPositive(d.Get(Days));
    } else if IsPositive(d.hours) {
      assert IsPositive(d.Get(Hours));
    } else if IsPositive(d.minutes) {
      assert IsPositive(d.Get(Minutes));
    } else if IsPositive(d.seconds) {
      assert IsPositive(d.Get(Seconds));
    } else {
      forall u: Unit ensures !IsPositive(d.Get(u)) {
        GetIsField(d, u);
      }
    }
  }

  /** A duration is accepted exactly when every unit reads as a
      non-negative integer and at least one of them is positive. */
  lemma CheckAcceptsIff(d: Duration)
    ensures CheckDuration(d) == Accepted
        <==> (forall u: Unit :: IsNonNegativeInteger(d.Get(u))) && (exists u: Unit :: IsPositive(d.Get(u)))
  {
    if forall u: Unit :: IsNonNegativeInteger(d.Get(u)) {
      CheckWhenAllValid(d);
    } else {
      var u :| !IsNonNegativeInteger(d.Get(u));
      GetIsField(d, u);
    }
  }

  /** The unit named in a rejection is the first unit, in source order, that
      does not read as a non-negative integer. */
  lemma CheckNamesFirstInvalid(d: Duration, u: Unit)
    ensures CheckDuration(d) == InvalidUnit(u)
        <==> !IsNonNegativeInteger(d.Get(u))
             && forall w: Unit :: Rank(w) < Rank(u) ==> IsNonNegativeInteger(d.Get(w))
  {
    if !IsNonNegativeInteger(d.Get(u)) && forall w: Unit :: Rank(w) < Rank(u) ==> IsNonNegativeInteger(d.Get(w)) {
      assert Rank(u) > 0 ==> IsNonNegativeInteger(d.Get(Months));
      assert Rank(u) > 1 ==> IsNonNegativeInteger(d.Get(Days));
      assert Rank(u) > 2 ==> IsNonNegativeInteger(d.Get(Hours));
      assert Rank(u) > 3 ==> IsNonNegativeInteger(d.Get(Minutes));
    }
  }

  /** A duration whose units are all missing or zero is rejected. */
  lemma AllZeroRejected(d: Duration)
    requires forall u: Unit :: d.Get(u) == Falsy || d.Get(u) == Integer(0)
    ensures CheckDuration(d) == NoPositiveUnit
  {
    assert d.Get(Months) == Falsy || d.Get(Months) == Integer(0);
    assert d.Get(Days) == Falsy || d.Get(Days) == Integer(0);
    assert d.Get(Hours) == Falsy || d.Get(Hours) == Integer(0);
    assert d.Get(Minutes) == Falsy || d.Get(Minutes) == Integer(0);
    assert d.Get(Seconds) == Falsy || d.Get(Seconds) == Integer(0);
  }

  /** Every unit reads as an integer: what the validation leaves for
      addExpiration. */
  predicate Readable(d: Duration) {
    !d.months.NotInteger? && !d.days.NotInteger? && !d.hours.NotInteger?
    && !d.minutes.NotInteger? && !d.seconds.NotInteger?
  }

  /** `if (exp.unit)` in addExpiration for a readable unit; a truthy value
      that reads as 0 (the string "0") changes nothing, so it is taken as
      falsy here. */
  predicate Applies(v: UnitValue) {
    v.Integer? && v.n != 0
  }

  /** The month step of addExpiration: setMonth(getMonth() + months) when
      the value applies. */
  function ShiftMonths(t: DateTime, v: UnitValue): (r: DateTime)
    requires Normalized(t) && !v.NotInteger?
    ensures Normalized(r)
  {
    if Applies(v) then WithMonth(t, t.month + v.n) else t
  }

  /** The day step: setDate(getDate() + days) when the value applies. */
  function ShiftDays(t: DateTime, v: UnitValue): (r: DateTime)
    requires Normalized(t) && !v.NotInteger?
    ensures Normalized(r)
  {
    if Applies(v) then WithDate(t, t.day + v.n) else t
  }

  /** The hour step: setHours(getHours() + hours) when the value applies. */
  function ShiftHours(t: DateTime, v: UnitValue): (r: DateTime)
    requires Normalized(t) && !v.NotInteger?
    ensures Normalized(r)
  {
    if Applies(v) then WithHours(t, t.hours + v.n) else t
  }

  /** The minute step: setMinutes(getMinutes() + minutes) when the value
      applies. */
  function ShiftMinutes(t: DateTime, v: UnitValue): (r: DateTime)
    requires Normalized(t) && !v.NotInteger?
    ensures Normalized(r)
  {
    if Applies(v) then WithMinutes(t, t.minutes + v.n) else t
  }

  /** The second step: setSeconds(getSeconds() + seconds) when the value
      applies. */
  function ShiftSeconds(t: DateTime, v: UnitValue): (r: DateTime)
    requires Normalized(t) && !v.NotInteger?
    ensures Normalized(r)
  {
    if Applies(v) then WithSeconds(t, t.seconds + v.n) else t
  }

  /** The time addExpiration produces from base `t`: months first, then days,
      hours, minutes and seconds, each applied to the result of the step
      before. */
  function ExpirationFrom(t: DateTime, exp: Duration): (r: DateTime)
    requires Normalized(t) && Readable(exp)
    ensures Normalized(r)
  {
    var t1 := ShiftMonths(t, exp.months);
    var t2 := ShiftDays(t1, exp.days);
    var t3 := ShiftHours(t2, exp.hours);
    var t4 := ShiftMinutes(t3, exp.minutes);
    ShiftSeconds(t4, exp.seconds)
  }

  /** addExpiration: copies the base Date and moves the copy unit by unit. */
  method AddExpiration(date: Date, exp: Duration) returns (d: Date)
    requires date.Valid() && Readable(exp)
    ensures fresh(d) && d.Valid()
    ensures d.local == ExpirationFrom(date.local, exp)
  {
    d := new Date.At(date.local);
    ApplyMonths(d, exp.months);
    ApplyDays(d, exp.days);
    ApplyHours(d, exp.hours);
    ApplyMinutes(d, exp.minutes);
    ApplySeconds(d, exp.seconds);
  }

  /** `if (exp.months) d.setMonth(d.getMonth() + Number(exp.months))` */
  method ApplyMonths(d: Date, v: UnitValue)
    requires d.Valid() && !v.NotInteger?
    modifies d
    ensures d.Valid() && d.local == ShiftMonths(old(d.local), v)
  {
    if Applies(v) {
      ghost var t := d.local;
      var month := d.GetMonth();
      d.SetMonth(month + v.n);
      assert d.local == WithMonth(t, t.month + v.n);
    }
  }

  /** `if (exp.days) d.setDate(d.getDate() + Number(exp.days))` */
  method ApplyDays(d: Date, v: UnitValue)
    requires d.Valid() && !v.NotInteger?
    modifies d
    ensures d.Valid() && d.local == ShiftDays(old(d.local), v)
  {
    if Applies(v) {
      var date := d.GetDate();
      d.SetDate(date + v.n);
    }
  }

  /** `if (exp.hours) d.setHours(d.getHours() + Number(exp.hours))` */
  method ApplyHours(d: Date, v: UnitValue)
    requires d.Valid() && !v.NotInteger?
    modifies d
    ensures d.Valid() && d.local == ShiftHours(old(d.local), v)
  {
    if Applies(v) {
      var hours := d.GetHours();
      d.SetHours(hours + v.n);
    }
  }

  /** `if (exp.minutes) d.setMinutes(d.getMinutes() + Number(exp.minutes))` */
  method ApplyMinutes(d: Date, v: UnitValue)
    requires d.Valid() && !v.NotInteger?
    modifies d
    ensures d.Valid() && d.local == ShiftMinutes(old(d.local), v)
  {
    if Applies(v) {
      var minutes := d.GetMinutes();
      d.SetMinutes(minutes + v.n);
    }
  }

  /** `if (exp.seconds) d.setSeconds(d.getSeconds() + Number(exp.seconds))` */
  method ApplySeconds(d: Date, v: UnitValue)
    requires d.Valid() && !v.NotInteger?
    modifies d
    ensures d.Valid() && d.local == ShiftSeconds(old(d.local), v)
  {
    if Applies(v) {
      var seconds := d.GetSeconds();
      d.SetSeconds(seconds + v.n);
    }
  }

  lemma {:induction false} ShiftDaysTimeValue(t: DateTime, v: UnitValue)
    requires Normalized(t) && !v.NotInteger?
    ensures TimeValue(ShiftDays(t, v)) == TimeValue(t) + Amount(v) * MsPerDay
  {
    if Applies(v) { WithDateTimeValue(t, t.day + v.n); }
  }

  lemma {:induction false} ShiftHoursTimeValue(t: DateTime, v: UnitValue)
    requires Normalized(t) && !v.NotInteger?
    ensures TimeValue(ShiftHours(t, v)) == TimeValue(t) + Amount(v) * MsPerHour
  {
    if Applies(v) { WithHoursTimeValue(t, t.hours + v.n); }
  }

  lemma {:induction false} ShiftMinutesTimeValue(t: DateTime, v: UnitValue)
    requires Normalized(t) && !v.NotInteger?
    ensures TimeValue(ShiftMinutes(t, v)) == TimeValue(t) + Amount(v) * MsPerMinute
  {
    if Applies(v) { WithMinutesTimeValue(t, t.minutes + v.n); }
  }

  lemma {:induction false} ShiftSecondsTimeValue(t: DateTime, v: UnitValue)
    requires Normalized(t) && !v.NotInteger?
    ensures TimeValue(ShiftSeconds(t, v)) == TimeValue(t) + Amount(v) * MsPerSecond
  {
    if Applies(v) { WithSecondsTimeValue(t, t.seconds + v.n); }
  }

  /** After the month step, the other four units add a fixed number of
      milliseconds each, so the only calendar-dependent step is the first. */
  lemma {:induction false} ExpirationTimeValue(t: DateTime, exp: Duration)
    requires Normalized(t) && Readable(exp)
    ensures TimeValue(ExpirationFrom(t, exp))
         == TimeValue(ShiftMonths(t, exp.months)) + Amount(exp.days) * MsPerDay
            + Amount(exp.hours) * MsPerHour + Amount(exp.minutes) * MsPerMinute
            + Amount(exp.seconds) * MsPerSecond
  {
    var t1 := ShiftMonths(t, exp.months);
    var t2 := ShiftDays(t1, exp.days);
    var t3 := ShiftHours(t2, exp.hours);
    var t4 := ShiftMinutes(t3, exp.minutes);
    ShiftDaysTimeValue(t1, exp.days);
    ShiftHoursTimeValue(t2, exp.hours);
    ShiftMinutesTimeValue(t3, exp.minutes);
    ShiftSecondsTimeValue(t4, exp.seconds);
  }

  /** The month step never moves the time back when the month count is not
      negative, and moves it forward when the count is positive. */
  lemma {:induction false} ShiftMonthsForward(t: DateTime, v: UnitValue)
    requires Normalized(t) && IsNonNegativeInteger(v)
    ensures IsPositive(v) ==> TimeValue(t) < TimeValue(ShiftMonths(t, v))
    ensures !IsPositive(v) ==> ShiftMonths(t, v) == t
  {
    if Applies(v) {
      WithMonthLater(t, v.n);
    }
  }

  /** An accepted duration always ends strictly after its base. */
  lemma {:induction false} AcceptedExpirationIsLater(t: DateTime, exp: Duration)
    requires Normalized(t) && CheckDuration(exp) == Accepted
    ensures TimeValue(t) < TimeValue(ExpirationFrom(t, exp))
  {
    CheckAcceptsIff(exp);
    assert IsNonNegativeInteger(exp.Get(Months)) && IsNonNegativeInteger(exp.Get(Days))
        && IsNonNegativeInteger(exp.Get(Hours)) && IsNonNegativeInteger(exp.Get(Minutes))
        && IsNonNegativeInteger(exp.Get(Seconds));
    ExpirationTimeValue(t, exp);
    ShiftMonthsForward(t, exp.months);
  }

  /** setMonth(1) on 31 January 2024: February 2024 has 29 days, so the 31st
      spills two days into March. */
  lemma JanuaryThirtyFirstNextMonth(t: DateTime)
    requires t == DateTime(2024, 0, 31, 0, 0, 0, 0)
    ensures WithMonth(t, 1) == DateTime(2024, 2, 2, 0, 0, 0, 0)
  {
    assert IsLeapYear(2024);
  }

  /** 31 January 2024 plus one month is 2 March 2024. */
  lemma OneMonthFromJanuary31(t: DateTime)
    requires t == DateTime(2024, 0, 31, 0, 0, 0, 0)
    ensures ExpirationFrom(t, Duration(Integer(1), Falsy, Falsy, Falsy, Falsy))
         == DateTime(2024, 2, 2, 0, 0, 0, 0)
  {
    JanuaryThirtyFirstNextMonth(t);
  }

  /** setDate moves within a month when the new day fits. */
  lemma {:induction false} WithDateInMonth(t: DateTime, date: int)
    requires Normalized(t) && t.day < date <= DaysInMonth(t.year, t.month)
    ensures WithDate(t, date) == t.(day := date)
    decreases date - t.day
  {
    if date > t.day + 1 {
      WithDateInMonth(t.(day := t.day + 1), date);
    }
  }

  /** One month then one day from 31 January 2024 gives 3 March. */
  lemma MonthsThenDays(t: DateTime)
    requires t == DateTime(2024, 0, 31, 0, 0, 0, 0)
    ensures ExpirationFrom(t, Duration(Integer(1), Integer(1), Falsy, Falsy, Falsy))
         == DateTime(2024, 2, 3, 0, 0, 0, 0)
  {
    JanuaryThirtyFirstNextMonth(t);
    WithDateInMonth(DateTime(2024, 2, 2, 0, 0, 0, 0), 3);
  }

  /** The order of the steps matters: the day first and the month after,
      from 31 January 2024, would give 1 March instead of 3 March. */
  lemma DaysThenMonthsDiffers(t: DateTime)
    requires t == DateTime(2024, 0, 31, 0, 0, 0, 0)
    ensures var t1 := WithDate(t, t.day + 1);
      WithMonth(t1, t1.month + 1) == DateTime(2024, 2, 1, 0, 0, 0, 0)
  {
    assert WithDate(t, t.day + 1) == NextDay(t);
    assert NextDay(t) == DateTime(2024, 1, 1, 0, 0, 0, 0);
  }
}
