/** Proleptic Gregorian calendar arithmetic on integer instants, standing in
    for the JavaScript `Date` values the services build. An instant counts
    milliseconds from 1970-01-01 00:00:00.000 on the server's wall clock; the
    offset between local time and UTC is not modelled.

    `NewDate` is the seven-argument `Date` constructor as ECMAScript defines it
    (MakeDay / MakeTime / MakeDate): the month index may fall outside 0..11 and
    the day may be 0, both being normalised into a neighbouring month, and a
    year in 0..99 is read as 1900..1999. `CivilOf` goes the other way. */
module Calendar {
  import opened Wrappers

  type Instant = int

  /** Optional inclusive bounds on instants, as in a `{ $gte, $lte }` query
      condition; a missing bound leaves that side open. */
  datatype Window = Window(from: Option<Instant>, to: Option<Instant>) {
    predicate Contains(t: Instant) {
      (from.None? || from.value <= t) && (to.None? || t <= to.value)
    }
  }

  /** First instant of a day number; a day lasts 86 400 000 ms. */
  function DayStart(day: int): Instant {
    day * 86_400_000
  }

  /** A calendar date; `month` is 1-based as in the `YYYY-MM` filter text. */
  datatype CivilDate = CivilDate(year: int, month: int, day: int)

  predicate IsLeapYear(y: int) {
    y % 4 == 0 && (y % 100 != 0 || y % 400 == 0)
  }

  function DaysInYear(y: int): int {
    if IsLeapYear(y) then 366 else 365
  }

  function DaysInMonth(y: int, m: int): int
    requires 1 <= m <= 12
  {
    if m == 2 then (if IsLeapYear(y) then 29 else 28)
    else if m == 4 || m == 6 || m == 9 || m == 11 then 30
    else 31
  }

  /** Days of year `y` before the first of month `m`; `m == 13` is the end of the year. */
  function DaysBeforeMonth(y: int, m: int): int
    requires 1 <= m <= 13
  {
    var common :=
      if m == 1 then 0 else if m == 2 then 31 else if m == 3 then 59
      else if m == 4 then 90 else if m == 5 then 120 else if m == 6 then 151
      else if m == 7 then 181 else if m == 8 then 212 else if m == 9 then 243
      else if m == 10 then 273 else if m == 11 then 304 else if m == 12 then 334
      else 365;
    common + (if m > 2 && IsLeapYear(y) then 1 else 0)
  }

  /** Day number (days since 1970-01-01) of January 1 of year `y`. */
  function DaysBeforeYear(y: int): int
    decreases if y >= 1970 then y - 1970 else 1970 - y
  {
    if y == 1970 then 0
    else if y > 1970 then DaysBeforeYear(y - 1) + DaysInYear(y - 1)
    else DaysBeforeYear(y + 1) - DaysInYear(y)
  }

  predicate ValidCivil(c: CivilDate) {
    1 <= c.month <= 12 && 1 <= c.day <= DaysInMonth(c.year, c.month)
  }

  /** Day number of a calendar date. */
  function DayNumber(c: CivilDate): int
    requires 1 <= c.month <= 12
  {
    DaysBeforeYear(c.year) + DaysBeforeMonth(c.year, c.month) + c.day - 1
  }

  /** Day number of the day an instant falls on (division rounds down). */
  function DayOf(t: Instant): int {
    t / 86_400_000
  }

  // ---------------------------------------------------------------------------
  // The `Date` constructor

  /** The year the `Date` constructor actually uses for its first argument. */
  function JsYear(y: int): int {
    if 0 <= y <= 99 then 1900 + y else y
  }

  /** ECMAScript MakeDay: the month index is folded into the year first. */
  function MakeDay(year: int, monthIndex: int, date: int): int {
    var ym := year + monthIndex / 12;
    var mn := monthIndex % 12;
    DaysBeforeYear(ym) + DaysBeforeMonth(ym, mn + 1) + date - 1
  }

  function MakeTime(hour: int, minute: int, second: int, ms: int): int {
    ((hour * 60 + minute) * 60 + second) * 1000 + ms
  }

  /** `new Date(year, monthIndex, date, hour, minute, second, ms)`. */
  function NewDate(year: int, monthIndex: int, date: int,
                   hour: int, minute: int, second: int, ms: int): Instant
  {
    DayStart(MakeDay(JsYear(year), monthIndex, date)) + MakeTime(hour, minute, second, ms)
  }

  /** `new Date(y, m - 1, 1)`: first instant of month `m` (1-based). */
  function MonthFirstInstant(y: int, m: int): Instant {
    NewDate(y, m - 1, 1, 0, 0, 0, 0)
  }

  /** `new Date(y, m, 0, 23, 59, 59, 999)`: day 0 of the next month is the
      last day of month `m`. */
  function MonthLastInstant(y: int, m: int): Instant {
    NewDate(y, m, 0, 23, 59, 59, 999)
  }

  /** `new Date(y, 0, 1)`. */
  function YearFirstInstant(y: int): Instant {
    NewDate(y, 0, 1, 0, 0, 0, 0)
  }

  /** `new Date(y, 11, 31, 23, 59, 59, 999)`. */
  function YearLastInstant(y: int): Instant {
    NewDate(y, 11, 31, 23, 59, 59, 999)
  }

  // ---------------------------------------------------------------------------
  // From an instant back to its calendar date (`getFullYear`, `getMonth`)

  lemma DaysBeforeYearStep(y: int)
    ensures DaysBeforeYear(y + 1) == DaysBeforeYear(y) + DaysInYear(y)
  {
  }

  /** The cumulative month table adds up the month lengths and the whole year. */
  lemma DaysBeforeMonthStep(y: int, m: int)
    requires 1 <= m <= 12
    ensures DaysBeforeMonth(y, m + 1) == DaysBeforeMonth(y, m) + DaysInMonth(y, m)
    ensures DaysBeforeMonth(y, 1) == 0 && DaysBeforeMonth(y, 13) == DaysInYear(y)
  {
  }

  /** The year whose days include `day`, searching upwards from `y`. */
  function YearFrom(day: int, y: int): (r: int)
    requires DaysBeforeYear(y) <= day
    ensures DaysBeforeYear(r) <= day < DaysBeforeYear(r + 1)
    decreases day - DaysBeforeYear(y)
  {
    DaysBeforeYearStep(y);
    if day < DaysBeforeYear(y + 1) then y else YearFrom(day, y + 1)
  }

  /** The year whose days include `day`, searching downwards from `y`. */
  function YearBefore(day: int, y: int): (r: int)
    requires day < DaysBeforeYear(y + 1)
    ensures DaysBeforeYear(r) <= day < DaysBeforeYear(r + 1)
    decreases DaysBeforeYear(y + 1) - day
  {
    DaysBeforeYearStep(y);
    if DaysBeforeYear(y) <= day then y else YearBefore(day, y - 1)
  }

  function YearOfDay(day: int): (y: int)
    ensures DaysBeforeYear(y) <= day < DaysBeforeYear(y + 1)
  {
    if day >= 0 then YearFrom(day, 1970) else YearBefore(day, 1969)
  }

  /** The month of year `y` containing day-of-year `doy`, searching from `m`. */
  function MonthFrom(y: int, doy: int, m: int): (r: int)
    requires 1 <= m <= 12
    requires DaysBeforeMonth(y, m) <= doy < DaysBeforeMonth(y, 13)
    ensures m <= r <= 12
    ensures DaysBeforeMonth(y, r) <= doy < DaysBeforeMonth(y, r + 1)
    decreases 12 - m
  {
    if doy < DaysBeforeMonth(y, m + 1) then m else MonthFrom(y, doy, m + 1)
  }

  /** The calendar date of an instant. */
  function CivilOf(t: Instant): (c: CivilDate)
    ensures ValidCivil(c)
    ensures DayNumber(c) == DayOf(t)
  {
    var day := DayOf(t);
    var y := YearOfDay(day);
    DaysBeforeYearStep(y);
    var doy := day - DaysBeforeYear(y);
    DaysBeforeMonthStep(y, 1);
    var m := MonthFrom(y, doy, 1);
    DaysBeforeMonthStep(y, m);
    CivilDate(y, m, doy - DaysBeforeMonth(y, m) + 1)
  }

  // ---------------------------------------------------------------------------
  // Lemmas

  lemma {:induction false} DaysBeforeYearMonotone(a: int, b: int)
    requires a < b
    ensures DaysBeforeYear(a + 1) <= DaysBeforeYear(b)
    decreases b - a
  {
    if b > a + 1 {
      DaysBeforeYearMonotone(a, b - 1);
      DaysBeforeYearStep(b - 1);
    }
  }

  lemma {:induction false} DaysBeforeMonthMonotone(y: int, a: int, b: int)
    requires 1 <= a < b <= 13
    ensures DaysBeforeMonth(y, a + 1) <= DaysBeforeMonth(y, b)
    decreases b - a
  {
    if b > a + 1 {
      DaysBeforeMonthMonotone(y, a, b - 1);
    }
  }

  /** At most one year contains a given day. */
  lemma YearUnique(y1: int, y2: int, day: int)
    requires DaysBeforeYear(y1) <= day < DaysBeforeYear(y1 + 1)
    requires DaysBeforeYear(y2) <= day < DaysBeforeYear(y2 + 1)
    ensures y1 == y2
  {
    if y1 < y2 {
      DaysBeforeYearMonotone(y1, y2);
    } else if y2 < y1 {
      DaysBeforeYearMonotone(y2, y1);
    }
  }

  /** At most one month of a year contains a given day of that year. */
  lemma MonthUnique(y: int, m1: int, m2: int, doy: int)
    requires 1 <= m1 <= 12 && 1 <= m2 <= 12
    requires DaysBeforeMonth(y, m1) <= doy < DaysBeforeMonth(y, m1 + 1)
    requires DaysBeforeMonth(y, m2) <= doy < DaysBeforeMonth(y, m2 + 1)
    ensures m1 == m2
  {
    if m1 < m2 {
      DaysBeforeMonthMonotone(y, m1, m2);
    } else if m2 < m1 {
      DaysBeforeMonthMonotone(y, m2, m1);
    }
  }

  /** A valid calendar date lies inside its own year and month. */
  lemma CivilBounds(c: CivilDate)
    requires ValidCivil(c)
    ensures DaysBeforeYear(c.year) <= DayNumber(c) < DaysBeforeYear(c.year + 1)
    ensures DaysBeforeMonth(c.year, c.month) <= DayNumber(c) - DaysBeforeYear(c.year)
            < DaysBeforeMonth(c.year, c.month + 1)
  {
    DaysBeforeYearStep(c.year);
    DaysBeforeMonthMonotone(c.year, c.month, 13);
  }

  /** Round trip: every instant of a valid date's day maps back to that date. */
  lemma CivilOfDayNumber(c: CivilDate, t: Instant)
    requires ValidCivil(c)
    requires DayOf(t) == DayNumber(c)
    ensures CivilOf(t) == c
  {
    var c' := CivilOf(t);
    CivilBounds(c);
    CivilBounds(c');
    YearUnique(c.year, c'.year, DayOf(t));
    MonthUnique(c.year, c.month, c'.month, DayOf(t) - DaysBeforeYear(c.year));
  }

  /** Day-level reading of an instant window `[DayStart(a), DayStart(b) - 1]`. */
  lemma DayWindow(t: Instant, a: int, b: int)
    ensures DayStart(a) <= t <= DayStart(b) - 1 <==> a <= DayOf(t) < b
  {
  }

  /** `MakeDay(Y, m - 1, 1)` is the first day of month `m`. */
  lemma MakeDayFirstOfMonth(Y: int, m: int)
    requires 1 <= m <= 12
    ensures MakeDay(Y, m - 1, 1) == DaysBeforeYear(Y) + DaysBeforeMonth(Y, m)
  {
    assert (m - 1) / 12 == 0 && (m - 1) % 12 == m - 1;
  }

  /** `MakeDay(Y, m, 0)`, day 0 of the next month, is the last day of month `m`. */
  lemma MakeDayZeroOfNextMonth(Y: int, m: int)
    requires 1 <= m <= 12
    ensures MakeDay(Y, m, 0) == DaysBeforeYear(Y) + DaysBeforeMonth(Y, m + 1) - 1
  {
    if m < 12 {
      assert m / 12 == 0 && m % 12 == m;
    } else {
      assert m / 12 == 1 && m % 12 == 0;
      DaysBeforeYearStep(Y);
    }
  }

  /** `new Date(y, m - 1, 1)` and `new Date(y, m, 0, 23, 59, 59, 999)` span exactly
      the days of month `m` of year `JsYear(y)`. */
  lemma MonthWindowBounds(y: int, m: int)
    requires 1 <= m <= 12
    ensures MonthFirstInstant(y, m)
            == DayStart(DaysBeforeYear(JsYear(y)) + DaysBeforeMonth(JsYear(y), m))
    ensures MonthLastInstant(y, m)
            == DayStart(DaysBeforeYear(JsYear(y)) + DaysBeforeMonth(JsYear(y), m + 1)) - 1
    ensures MonthLastInstant(y, m) - MonthFirstInstant(y, m) + 1
            == DayStart(DaysInMonth(JsYear(y), m))
  {
    var Y := JsYear(y);
    MakeDayFirstOfMonth(Y, m);
    MakeDayZeroOfNextMonth(Y, m);
    var first := DaysBeforeYear(Y) + DaysBeforeMonth(Y, m);
    var next := DaysBeforeYear(Y) + DaysBeforeMonth(Y, m + 1);
    assert next - first == DaysInMonth(Y, m);
  }

  /** Day-level form: the days of month `m` of year `Y` are exactly those
      whose calendar date lies in that month. */
  lemma MonthDaysAreCalendarMonth(Y: int, m: int, t: Instant)
    requires 1 <= m <= 12
    ensures DaysBeforeYear(Y) + DaysBeforeMonth(Y, m) <= DayOf(t)
              < DaysBeforeYear(Y) + DaysBeforeMonth(Y, m + 1)
            <==> CivilOf(t).year == Y && CivilOf(t).month == m
  {
    var c := CivilOf(t);
    CivilBounds(c);
    var day := DayOf(t);
    if DaysBeforeYear(Y) + DaysBeforeMonth(Y, m) <= day < DaysBeforeYear(Y) + DaysBeforeMonth(Y, m + 1) {
      DaysBeforeYearStep(Y);
      DaysBeforeMonthMonotone(Y, m, 13);
      YearUnique(Y, c.year, day);
      MonthUnique(Y, m, c.month, day - DaysBeforeYear(Y));
    }
  }

  /** An instant lies in the month window exactly when its calendar date is in
      that month; for `y` in 0..99 the month is one of year 1900 + y. */
  lemma MonthWindowIsCalendarMonth(y: int, m: int, t: Instant)
    requires 1 <= m <= 12
    ensures MonthFirstInstant(y, m) <= t <= MonthLastInstant(y, m)
            <==> CivilOf(t).year == JsYear(y) && CivilOf(t).month == m
  {
    var Y := JsYear(y);
    var first := DaysBeforeYear(Y) + DaysBeforeMonth(Y, m);
    var next := DaysBeforeYear(Y) + DaysBeforeMonth(Y, m + 1);
    assert MonthFirstInstant(y, m) <= t <= MonthLastInstant(y, m) <==> first <= DayOf(t) < next by {
      MonthWindowBounds(y, m);
      DayWindow(t, first, next);
    }
    MonthDaysAreCalendarMonth(Y, m, t);
  }

  /** The year window starts with January's window and ends with December's. */
  lemma YearWindowIsItsMonths(y: int)
    ensures YearFirstInstant(y) == MonthFirstInstant(y, 1)
    ensures YearLastInstant(y) == MonthLastInstant(y, 12)
  {
    MonthWindowBounds(y, 12);
    assert 11 / 12 == 0 && 11 % 12 == 11;
  }

  /** An instant lies in the year window exactly when its calendar year is `JsYear(y)`. */
  lemma YearWindowIsCalendarYear(y: int, t: Instant)
    ensures YearFirstInstant(y) <= t <= YearLastInstant(y) <==> CivilOf(t).year == JsYear(y)
  {
    var Y := JsYear(y);
    YearWindowIsItsMonths(y);
    MonthWindowBounds(y, 1);
    MonthWindowBounds(y, 12);
    DayWindow(t, DaysBeforeYear(Y), DaysBeforeYear(Y + 1));
    DaysBeforeYearStep(Y);
    var c := CivilOf(t);
    CivilBounds(c);
    if DaysBeforeYear(Y) <= DayOf(t) < DaysBeforeYear(Y + 1) {
      YearUnique(Y, c.year, DayOf(t));
    }
  }
}
