/**
  Budget resets (packages/types/src/cost.ts, `nextReset`) over the time values of section 21.4.1 of
  ECMA-262: milliseconds since the epoch, UTC, in the proleptic Gregorian calendar.

  Months are counted through all years, as 12 * year + month with January as month 0. Everything up
  to the class is stated for any calendar whose months have 28 to 31 days, given as a function from
  month to length; `MonthLength` is the Gregorian one.
 */
module Calendar {
  import opened Options

  /** n days in milliseconds. */
  function Days(n: int): int { n * 86_400_000 }

  const JANUARY_1970 := 12 * 1970

  datatype Cadence = Never | Daily | Weekly | Monthly

  type Lengths = int -> int

  ghost predicate Plausible(len: Lengths) {
    forall month :: 28 <= len(month) <= 31
  }

  function Min(a: int, b: int): int { if a < b then a else b }

  // ----- time values and their fields -----

  /** The day number of the first of a month, by counting the months since the epoch. */
  function StartOf(len: Lengths, month: int): int
    decreases if month < JANUARY_1970 then JANUARY_1970 - month else month - JANUARY_1970
  {
    if month == JANUARY_1970 then 0
    else if month > JANUARY_1970 then StartOf(len, month - 1) + len(month - 1)
    else StartOf(len, month + 1) - len(month)
  }

  lemma {:induction false} MonthsAreContiguous(len: Lengths, month: int)
    ensures StartOf(len, month + 1) == StartOf(len, month) + len(month)
  {
  }

  lemma {:induction false} MonthsAreOrdered(len: Lengths, a: int, b: int)
    requires Plausible(len) && a <= b
    ensures StartOf(len, a) + 28 * (b - a) <= StartOf(len, b)
    decreases b - a
  {
    if a < b {
      MonthsAreOrdered(len, a, b - 1);
      MonthsAreContiguous(len, b - 1);
    }
  }

  /** The month in which a day falls, found by walking one month at a time. */
  function MonthOfDay(len: Lengths, day: int, from: int): int
    requires Plausible(len)
    decreases if StartOf(len, from) <= day then day - StartOf(len, from) else StartOf(len, from) + 31 - day
  {
    MonthsAreContiguous(len, from);
    MonthsAreContiguous(len, from - 1);
    if day < StartOf(len, from) then
      if StartOf(len, from - 1) <= day then from - 1 else MonthOfDay(len, day, from - 1)
    else if day < StartOf(len, from + 1) then from
    else MonthOfDay(len, day, from + 1)
  }

  lemma {:induction false} MonthOfDayHoldsIt(len: Lengths, day: int, from: int)
    requires Plausible(len)
    ensures var month := MonthOfDay(len, day, from); StartOf(len, month) <= day < StartOf(len, month + 1)
    decreases if StartOf(len, from) <= day then day - StartOf(len, from) else StartOf(len, from) + 31 - day
  {
    MonthsAreContiguous(len, from);
    MonthsAreContiguous(len, from - 1);
    if day < StartOf(len, from) {
      if day < StartOf(len, from - 1) { MonthOfDayHoldsIt(len, day, from - 1); }
    } else if day >= StartOf(len, from + 1) {
      MonthOfDayHoldsIt(len, day, from + 1);
    }
  }

  lemma {:induction false} MonthOfDayIsUnique(len: Lengths, day: int, a: int, b: int)
    requires Plausible(len)
    requires StartOf(len, a) <= day < StartOf(len, a + 1) && StartOf(len, b) <= day < StartOf(len, b + 1)
    ensures a == b
  {
    if a < b { MonthsAreOrdered(len, a + 1, b); }
    if b < a { MonthsAreOrdered(len, b + 1, a); }
  }

  /** What the getters of a Date read: month of all time, day of the month from 1, time within the day. */
  datatype Fields = Fields(month: int, date: int, time: int)

  ghost predicate Proper(len: Lengths, f: Fields) {
    1 <= f.date <= len(f.month) && 0 <= f.time < 86_400_000
  }

  function FromTime(len: Lengths, t: int): Fields
    requires Plausible(len)
  {
    var month := MonthOfDay(len, t / 86_400_000, JANUARY_1970);
    Fields(month, t / 86_400_000 - StartOf(len, month) + 1, t % 86_400_000)
  }

  /** MakeDate(MakeDay(...), time): any day of the month is accepted and rolls over. */
  function ToTime(len: Lengths, f: Fields): int {
    Days(StartOf(len, f.month) + f.date - 1) + f.time
  }

  /** Every time value has proper fields and is determined by them. */
  lemma {:induction false} TimeHasFields(len: Lengths, t: int)
    requires Plausible(len)
    ensures Proper(len, FromTime(len, t)) && ToTime(len, FromTime(len, t)) == t
  {
    MonthOfDayHoldsIt(len, t / 86_400_000, JANUARY_1970);
    MonthsAreContiguous(len, FromTime(len, t).month);
  }

  /** Proper fields are read back unchanged. */
  lemma {:induction false} FieldsAreReadBack(len: Lengths, f: Fields)
    requires Plausible(len) && Proper(len, f)
    ensures FromTime(len, ToTime(len, f)) == f
  {
    var day := StartOf(len, f.month) + f.date - 1;
    DayAndTime(day, f.time);
    MonthsAreContiguous(len, f.month);
    MonthOfDayHoldsIt(len, day, JANUARY_1970);
    MonthOfDayIsUnique(len, day, f.month, MonthOfDay(len, day, JANUARY_1970));
  }

  /** What a day of the month reads back as, when it is past the month's end by no more than the next month. */
  function RolledOver(len: Lengths, f: Fields): Fields {
    if f.date <= len(f.month) then f else Fields(f.month + 1, f.date - len(f.month), f.time)
  }

  lemma {:induction false} DaysRollOver(len: Lengths, f: Fields)
    requires Plausible(len) && 0 <= f.time < 86_400_000 && 1 <= f.date <= len(f.month) + len(f.month + 1)
    ensures FromTime(len, ToTime(len, f)) == RolledOver(len, f)
  {
    var g := RolledOver(len, f);
    MonthsAreContiguous(len, f.month);
    assert ToTime(len, f) == ToTime(len, g);
    FieldsAreReadBack(len, g);
  }

  lemma {:induction false} DayAndTime(day: int, time: int)
    requires 0 <= time < 86_400_000
    ensures (Days(day) + time) / 86_400_000 == day && (Days(day) + time) % 86_400_000 == time
  {
  }

  // ----- the reset schedule -----

  /** Date.UTC reads a year from 0 to 99 as one of the twentieth century. */
  function MakeFullYear(year: int): int { if 0 <= year <= 99 then 1900 + year else year }

  /** The month whose last day `nextReset` looks up, through Date.UTC, for a given month. */
  function LookedUp(month: int): int { 12 * MakeFullYear(month / 12) + month % 12 }

  /** A monthly reset: the next month, on the same day if the looked-up length allows, at the same time. */
  function NextMonth(len: Lengths, f: Fields): Fields {
    Fields(f.month + 1, Min(f.date, len(LookedUp(f.month + 1))), f.time)
  }

  function ResetAfter(len: Lengths, t: int, cadence: Cadence): int
    requires Plausible(len) && cadence != Never
  {
    match cadence
    case Daily => t + Days(1)
    case Weekly => t + Days(7)
    case Monthly => ToTime(len, NextMonth(len, FromTime(len, t)))
  }

  function Iterate(len: Lengths, t: int, cadence: Cadence, k: nat): int
    requires Plausible(len) && cadence != Never
  {
    if k == 0 then t else ResetAfter(len, Iterate(len, t, cadence, k - 1), cadence)
  }

  lemma {:induction false} IterateStep(len: Lengths, t: int, cadence: Cadence, k: nat)
    requires Plausible(len) && cadence != Never
    ensures Iterate(len, t, cadence, k + 1) == ResetAfter(len, Iterate(len, t, cadence, k), cadence)
  {
  }

  /** The looked-up month is never longer than the month it stands for. */
  ghost predicate LookupIsSafe(len: Lengths) {
    forall month :: len(LookedUp(month)) <= len(month)
  }

  lemma {:induction false} MonthlyFields(len: Lengths, t: int)
    requires Plausible(len) && LookupIsSafe(len)
    ensures FromTime(len, ResetAfter(len, t, Monthly)) == NextMonth(len, FromTime(len, t))
    ensures Proper(len, NextMonth(len, FromTime(len, t)))
  {
    TimeHasFields(len, t);
    var f := FromTime(len, t);
    assert 28 <= len(LookedUp(f.month + 1)) <= len(f.month + 1);
    FieldsAreReadBack(len, NextMonth(len, f));
  }

  /** Every monthly gap is 28 to 31 whole days. */
  lemma {:induction false} MonthlyGap(len: Lengths, t: int) returns (days: int)
    requires Plausible(len) && LookupIsSafe(len)
    ensures ResetAfter(len, t, Monthly) - t == Days(days) && 28 <= days <= 31
  {
    TimeHasFields(len, t);
    var f := FromTime(len, t);
    MonthsAreContiguous(len, f.month);
    assert 28 <= len(LookedUp(f.month + 1)) <= len(f.month + 1);
    days := len(f.month) + NextMonth(len, f).date - f.date;
  }

  /** The starting day clamped by the looked-up length of each of the k months that follow. */
  function Clamp(len: Lengths, date: int, month: int, k: nat): int {
    if k == 0 then date else Min(Clamp(len, date, month, k - 1), len(LookedUp(month + k)))
  }

  /** Where k monthly resets from the given fields lead. */
  function MonthsOn(len: Lengths, f: Fields, k: nat): Fields {
    Fields(f.month + k, Clamp(len, f.date, f.month, k), f.time)
  }

  lemma {:induction false} MonthlyScheduleStep(len: Lengths, t: int, f: Fields, k: nat)
    requires Plausible(len) && LookupIsSafe(len) && FromTime(len, t) == MonthsOn(len, f, k)
    ensures FromTime(len, ResetAfter(len, t, Monthly)) == MonthsOn(len, f, k + 1)
  {
    MonthlyFields(len, t);
  }

  /**
    k monthly resets land exactly k calendar months on at the same time of day. The day is the
    starting day clamped by every month passed, so it never climbs back.
   */
  lemma {:induction false} MonthlySchedule(len: Lengths, t: int, k: nat)
    requires Plausible(len) && LookupIsSafe(len)
    ensures FromTime(len, Iterate(len, t, Monthly, k)) == MonthsOn(len, FromTime(len, t), k)
  {
    if k == 0 {
      assert Iterate(len, t, Monthly, 0) == t;
    } else {
      MonthlySchedule(len, t, k - 1);
      IterateStep(len, t, Monthly, k - 1);
      MonthlyScheduleStep(len, Iterate(len, t, Monthly, k - 1), FromTime(len, t), k - 1);
    }
  }

  lemma {:induction false} ClampNeverClimbs(len: Lengths, date: int, month: int, j: nat, k: nat)
    requires Plausible(len) && j <= k
    ensures Clamp(len, date, month, k) <= Clamp(len, date, month, j) <= date
    ensures Clamp(len, date, month, k) >= Min(date, 28)
  {
    if j < k {
      ClampNeverClimbs(len, date, month, j, k - 1);
    } else if 0 < k {
      ClampNeverClimbs(len, date, month, k - 1, k - 1);
    }
  }

  /** The day of the month never increases along the schedule nor drops below min(start day, 28). */
  lemma {:induction false} MonthlyDayNeverClimbsBack(len: Lengths, t: int, j: nat, k: nat)
    requires Plausible(len) && LookupIsSafe(len) && j <= k
    ensures FromTime(len, Iterate(len, t, Monthly, k)).date <= FromTime(len, Iterate(len, t, Monthly, j)).date
    ensures Min(FromTime(len, t).date, 28) <= FromTime(len, Iterate(len, t, Monthly, k)).date <= FromTime(len, t).date
  {
    MonthlySchedule(len, t, j);
    MonthlySchedule(len, t, k);
    ClampNeverClimbs(len, FromTime(len, t).date, FromTime(len, t).month, j, k);
  }

  /** Daily and weekly schedules are exact. */
  lemma {:induction false} FixedSchedule(len: Lengths, t: int, k: nat)
    requires Plausible(len)
    ensures Iterate(len, t, Daily, k) == t + Days(k)
    ensures Iterate(len, t, Weekly, k) == t + Days(7 * k)
  {
    if k > 0 { FixedSchedule(len, t, k - 1); }
  }

  lemma {:induction false} BoundaryIsADayLater(len: Lengths, t: int, cadence: Cadence, k: nat)
    requires Plausible(len) && LookupIsSafe(len) && cadence != Never
    ensures Iterate(len, t, cadence, k + 1) >= Iterate(len, t, cadence, k) + Days(1)
  {
    IterateStep(len, t, cadence, k);
    if cadence == Monthly { var days := MonthlyGap(len, Iterate(len, t, cadence, k)); }
  }

  lemma {:induction false} IterateIncreases(len: Lengths, t: int, cadence: Cadence, k: nat)
    requires Plausible(len) && LookupIsSafe(len) && cadence != Never
    ensures Iterate(len, t, cadence, k) < Iterate(len, t, cadence, k + 1)
  {
    BoundaryIsADayLater(len, t, cadence, k);
  }

  lemma {:induction false} ClimbsByStep(f: nat -> int, j: nat, k: nat)
    requires (forall i: nat :: f(i) < f(i + 1)) && j < k
    ensures f(j) < f(k)
  {
    var m := k - 1;
    assert f(m) < f(m + 1);
    if j < m { ClimbsByStep(f, j, m); }
  }

  lemma {:induction false} ScheduleIncreases(len: Lengths, t: int, cadence: Cadence, j: nat, k: nat)
    requires Plausible(len) && LookupIsSafe(len) && cadence != Never && j < k
    ensures Iterate(len, t, cadence, j) < Iterate(len, t, cadence, k)
  {
    var at: nat -> int := (i: nat) => Iterate(len, t, cadence, i);
    forall i: nat ensures at(i) < at(i + 1) { IterateIncreases(len, t, cadence, i); }
    ClimbsByStep(at, j, k);
  }

  // ----- the Gregorian calendar -----

  predicate IsLeap(year: int) { year % 4 == 0 && (year % 100 != 0 || year % 400 == 0) }

  function MonthLength(month: int): (n: int)
    ensures 28 <= n <= 31
  {
    var m := month % 12;
    if m == 1 then (if IsLeap(month / 12) then 29 else 28)
    else if m == 3 || m == 5 || m == 8 || m == 10 then 30
    else 31
  }

  lemma {:induction false} YearFields(year: int, m: int)
    requires 0 <= m < 12
    ensures (12 * year + m) / 12 == year && (12 * year + m) % 12 == m
  {
  }

  /** Date.UTC's reading of early years shortens one month only: February of the year 0. */
  lemma {:induction false} LookupIsExactExactlyWhen(month: int)
    ensures MonthLength(LookedUp(month)) == MonthLength(month) <==> month != 1
    ensures MonthLength(LookedUp(month)) <= MonthLength(month)
  {
    var year := month / 12;
    YearFields(MakeFullYear(year), month % 12);
    if 0 <= year <= 99 {
      assert IsLeap(1900 + year) <==> IsLeap(year) && year != 0;
    }
  }

  lemma {:induction false} GregorianIsFit()
    ensures Plausible(MonthLength) && LookupIsSafe(MonthLength)
  {
    forall month ensures MonthLength(LookedUp(month)) <= MonthLength(month) {
      LookupIsExactExactlyWhen(month);
    }
  }

  /** DayFromYear of ECMA-262. */
  function DayFromYear(year: int): int {
    365 * (year - 1970) + (year - 1969) / 4 - (year - 1901) / 100 + (year - 1601) / 400
  }

  lemma {:induction false} FourthYears(year: int)
    ensures (year - 1968) / 4 == (year - 1969) / 4 + if year % 4 == 0 then 1 else 0
  {
  }

  lemma {:induction false} Centuries(year: int)
    ensures (year - 1900) / 100 == (year - 1901) / 100 + if year % 100 == 0 then 1 else 0
  {
  }

  lemma {:induction false} FourthCenturies(year: int)
    ensures (year - 1600) / 400 == (year - 1601) / 400 + if year % 400 == 0 then 1 else 0
  {
  }

  lemma {:induction false} LeapNesting(year: int)
    ensures year % 400 == 0 ==> year % 100 == 0
    ensures year % 100 == 0 ==> year % 4 == 0
  {
  }

  lemma {:induction false} DayFromYearStep(year: int)
    ensures DayFromYear(year + 1) == DayFromYear(year) + if IsLeap(year) then 366 else 365
  {
    FourthYears(year);
    Centuries(year);
    FourthCenturies(year);
    LeapNesting(year);
  }

  /** The days of a common year before each month, and in all of it. */
  const DAYS_BEFORE := [0, 31, 59, 90, 120, 151, 181, 212, 243, 273, 304, 334, 365]

  lemma {:induction false} MonthsOfYear(year: int, m: nat)
    requires m <= 12
    ensures StartOf(MonthLength, 12 * year + m)
         == StartOf(MonthLength, 12 * year) + DAYS_BEFORE[m] + if m > 1 && IsLeap(year) then 1 else 0
  {
    if m > 0 {
      var n := m - 1;
      MonthsOfYear(year, n);
      YearFields(year, n);
      MonthsAreContiguous(MonthLength, 12 * year + n);
    }
  }

  lemma {:induction false} YearOfMonths(year: int)
    ensures StartOf(MonthLength, 12 * year + 12) == StartOf(MonthLength, 12 * year) + if IsLeap(year) then 366 else 365
  {
    MonthsOfYear(year, 12);
  }

  /** Every month starts where ECMA-262 puts it: the days to its year, the days before it in a common year, and the leap day. */
  lemma {:induction false} EveryMonthStartsRight(year: int, m: nat)
    requires m < 12
    ensures StartOf(MonthLength, 12 * year + m)
         == DayFromYear(year) + [0, 31, 59, 90, 120, 151, 181, 212, 243, 273, 304, 334][m]
            + if m > 1 && year % 4 == 0 && (year % 100 != 0 || year % 400 == 0) then 1 else 0
  {
    CountingAgreesWithFormula(year);
    MonthsOfYear(year, m);
    assert DAYS_BEFORE[m] == [0, 31, 59, 90, 120, 151, 181, 212, 243, 273, 304, 334][m];
  }

  /** Counting months agrees with the closed formula that ECMA-262 gives for the start of a year. */
  lemma {:induction false} CountingAgreesWithFormula(year: int)
    ensures StartOf(MonthLength, 12 * year) == DayFromYear(year)
    decreases if year < 1970 then 1970 - year else year - 1970
  {
    if year > 1970 {
      CountingAgreesWithFormula(year - 1);
      YearOfMonths(year - 1);
      DayFromYearStep(year - 1);
    } else if year < 1970 {
      CountingAgreesWithFormula(year + 1);
      YearOfMonths(year);
      DayFromYearStep(year);
    }
  }

  // ----- the source's own steps -----

  function FieldsOf(t: int): Fields {
    GregorianIsFit();
    FromTime(MonthLength, t)
  }

  function WithDate(t: int, date: int): int { ToTime(MonthLength, FieldsOf(t).(date := date)) }

  /** The month of the same year, counted from 0; 12 and more roll into later years. */
  function WithMonth(t: int, m: int): int {
    ToTime(MonthLength, FieldsOf(t).(month := 12 * (FieldsOf(t).month / 12) + m))
  }

  function DateUTC(year: int, m: int, date: int): int {
    ToTime(MonthLength, Fields(12 * MakeFullYear(year) + m, date, 0))
  }

  /** A JavaScript Date, of which only the time value is state. */
  class UtcDate {
    var time: int

    constructor (time: int)
      ensures this.time == time
    {
      this.time := time;
    }

    function GetUTCFullYear(): int
      reads this
    {
      FieldsOf(time).month / 12
    }

    function GetUTCMonth(): int
      reads this
    {
      FieldsOf(time).month % 12
    }

    function GetUTCDate(): int
      reads this
    {
      FieldsOf(time).date
    }

    method SetUTCDate(date: int)
      modifies this
      ensures time == WithDate(old(time), date)
    {
      time := ToTime(MonthLength, FieldsOf(time).(date := date));
    }

    method SetUTCMonth(m: int)
      modifies this
      ensures time == WithMonth(old(time), m)
    {
      time := ToTime(MonthLength, FieldsOf(time).(month := 12 * GetUTCFullYear() + m));
    }
  }

  /**
    Setting the day of the month moves the instant by whole days and keeps the time of day. A day that
    the month has reads back as it was set; one past its end reads back in the next month.
   */
  lemma {:induction false} SettingTheDay(t: int, date: int)
    ensures WithDate(t, date) == t + Days(date - FieldsOf(t).date)
    ensures var month := FieldsOf(t).month;
            && (1 <= date <= MonthLength(month) ==> FieldsOf(WithDate(t, date)) == FieldsOf(t).(date := date))
            && (1 <= date - MonthLength(month) <= MonthLength(month + 1) ==>
                  FieldsOf(WithDate(t, date)) == Fields(month + 1, date - MonthLength(month), FieldsOf(t).time))
  {
    GregorianIsFit();
    TimeHasFields(MonthLength, t);
    var f := FieldsOf(t).(date := date);
    if 1 <= date <= MonthLength(f.month) + MonthLength(f.month + 1) { DaysRollOver(MonthLength, f); }
  }

  /**
    Setting the month keeps the year, the time of day and, if the month has it, the day. Otherwise the
    date rolls over into the month after: 31 January becomes 2 or 3 March.
   */
  lemma {:induction false} SettingTheMonth(t: int, m: int)
    ensures var f := FieldsOf(t);
            var month := 12 * (f.month / 12) + m;
            FieldsOf(WithMonth(t, m)) ==
              if f.date <= MonthLength(month) then f.(month := month)
              else Fields(month + 1, f.date - MonthLength(month), f.time)
  {
    GregorianIsFit();
    TimeHasFields(MonthLength, t);
    var f := FieldsOf(t);
    DaysRollOver(MonthLength, f.(month := 12 * (f.month / 12) + m));
  }

  /** Day 0 of the month after is the last day of the month. */
  lemma {:induction false} LastDayOfMonth(month: int)
    ensures FieldsOf(DateUTC(month / 12, month % 12 + 1, 0)).date == MonthLength(LookedUp(month))
  {
    var full := LookedUp(month);
    assert DateUTC(month / 12, month % 12 + 1, 0) == ToTime(MonthLength, Fields(full + 1, 0, 0));
    DayZero(full);
  }

  lemma {:induction false} DayZero(month: int)
    ensures FieldsOf(ToTime(MonthLength, Fields(month + 1, 0, 0))) == Fields(month, MonthLength(month), 0)
  {
    GregorianIsFit();
    MonthsAreContiguous(MonthLength, month);
    assert ToTime(MonthLength, Fields(month + 1, 0, 0)) == ToTime(MonthLength, Fields(month, MonthLength(month), 0));
    FieldsAreReadBack(MonthLength, Fields(month, MonthLength(month), 0));
  }

  /** Going back to the first makes the month move land in the next month, whatever its length. */
  lemma {:induction false} FirstOfNextMonth(t: int)
    ensures var first := WithDate(t, 1);
            FieldsOf(WithMonth(first, FieldsOf(first).month % 12 + 1)) == Fields(FieldsOf(t).month + 1, 1, FieldsOf(t).time)
  {
    GregorianIsFit();
    TimeHasFields(MonthLength, t);
    var f := FieldsOf(t);
    FieldsAreReadBack(MonthLength, f.(date := 1));
    assert 12 * (f.month / 12) + (f.month % 12 + 1) == f.month + 1;
    FieldsAreReadBack(MonthLength, Fields(f.month + 1, 1, f.time));
  }

  /** What the source's steps of a monthly reset amount to. */
  lemma {:induction false} MonthlyStepsAmountToNextMonth(t: int, moved: int, lastDay: int)
    requires moved == WithMonth(WithDate(t, 1), FieldsOf(WithDate(t, 1)).month % 12 + 1)
    requires lastDay == FieldsOf(DateUTC(FieldsOf(moved).month / 12, FieldsOf(moved).month % 12 + 1, 0)).date
    ensures WithDate(moved, Min(FieldsOf(t).date, lastDay)) == ToTime(MonthLength, NextMonth(MonthLength, FieldsOf(t)))
  {
    FirstOfNextMonth(t);
    LastDayOfMonth(FieldsOf(moved).month);
  }

  /** To the first of the month, on to the next month, and back to the day if that month has it. */
  method AdvanceOneMonth(next: UtcDate)
    modifies next
    ensures next.time == ToTime(MonthLength, NextMonth(MonthLength, FieldsOf(old(next.time))))
  {
    var day := next.GetUTCDate();
    next.SetUTCDate(1);
    var m := next.GetUTCMonth();
    next.SetUTCMonth(m + 1);
    var lastDay := FieldsOf(DateUTC(next.GetUTCFullYear(), next.GetUTCMonth() + 1, 0)).date;
    MonthlyStepsAmountToNextMonth(old(next.time), next.time, lastDay);
    next.SetUTCDate(Min(day, lastDay));
  }

  /** The reset that follows, in the Gregorian calendar. */
  function Next(t: int, cadence: Cadence): int
    requires cadence != Never
  {
    GregorianIsFit();
    ResetAfter(MonthLength, t, cadence)
  }

  /** A monthly reset keeps the time and, if the next month has it, the day; otherwise it takes that month's last day. */
  lemma {:induction false} NextMonthlyReset(t: int)
    requires FieldsOf(t).month != 0
    ensures var f := FieldsOf(t);
            var length := StartOf(MonthLength, f.month + 2) - StartOf(MonthLength, f.month + 1);
            FieldsOf(Next(t, Monthly)) == Fields(f.month + 1, if f.date <= length then f.date else length, f.time)
  {
    GregorianIsFit();
    var month := FieldsOf(t).month + 1;
    LookupIsExactExactlyWhen(month);
    MonthsAreContiguous(MonthLength, month);
    MonthlyFields(MonthLength, t);
  }

  /** A clone of `from` is advanced in place; `from` itself is left alone. */
  method NextReset(from: UtcDate, cadence: Cadence) returns (next: UtcDate?)
    ensures next == null <==> cadence == Never
    ensures next != null ==> fresh(next) && next.time == Next(from.time, cadence)
  {
    if cadence == Never { return null; }
    next := new UtcDate(from.time);
    GregorianIsFit();
    TimeHasFields(MonthLength, from.time);
    if cadence == Daily {
      next.SetUTCDate(next.GetUTCDate() + 1);
    } else if cadence == Weekly {
      next.SetUTCDate(next.GetUTCDate() + 7);
    } else {
      AdvanceOneMonth(next);
    }
  }

  // ----- the catch-up sweep -----

  const MAX_PERIODS_PER_SWEEP := 400

  function Boundary(resetsAt: int, cadence: Cadence, k: nat): int
    requires cadence != Never
  {
    GregorianIsFit();
    Iterate(MonthLength, resetsAt, cadence, k)
  }

  /**
    The loop of the reset runner over one wallet: one grant per boundary that has passed, at most
    400 in one sweep, and the next boundary is the first one still ahead.
   */
  method CatchUp(resetsAt: int, cadence: Cadence, now: int) returns (granted: seq<int>, next: int)
    requires cadence != Never
    ensures |granted| <= 400
    ensures forall i :: 0 <= i < |granted| ==> granted[i] == Boundary(resetsAt, cadence, i) <= now
    ensures next == Boundary(resetsAt, cadence, |granted|)
    ensures |granted| < 400 ==>
              forall k: nat :: Boundary(resetsAt, cadence, k) <= now <==> k < |granted|
  {
    granted, next := [], resetsAt;
    while |granted| < MAX_PERIODS_PER_SWEEP && next <= now
      invariant |granted| <= MAX_PERIODS_PER_SWEEP
      invariant forall i :: 0 <= i < |granted| ==> granted[i] == Boundary(resetsAt, cadence, i) <= now
      invariant next == Boundary(resetsAt, cadence, |granted|)
      decreases MAX_PERIODS_PER_SWEEP - |granted|
    {
      var boundary := new UtcDate(next);
      var advanced := NextReset(boundary, cadence);
      granted, next := granted + [next], advanced.time;
    }
    if next > now { LaterBoundariesAreAhead(resetsAt, cadence, |granted|, now); }
  }

  /** Once one boundary is ahead, all later ones are: a sweep that stops has missed none. */
  lemma {:induction false} LaterBoundariesAreAhead(resetsAt: int, cadence: Cadence, n: nat, now: int)
    requires cadence != Never && Boundary(resetsAt, cadence, n) > now
    ensures forall k: nat :: n <= k ==> Boundary(resetsAt, cadence, k) > now
  {
    GregorianIsFit();
    forall k: nat | n <= k ensures Boundary(resetsAt, cadence, k) > now {
      if n < k { ScheduleIncreases(MonthLength, resetsAt, cadence, n, k); }
    }
  }
}
