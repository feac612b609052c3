/**
 Civil days and the choice of a year for a date without one (date_util.cc).

 absl::CivilDay counts days of the proleptic Gregorian calendar and normalizes a day that
 does not exist. `Resolve` chooses the year; `Resolves` says for which days of today a date
 is found, `InWindow` that what is found is from 90 days back to 275 days ahead.
 */
module CivilDays {
  import opened Basics

  predicate IsLeap(y: int) { y % 4 == 0 && (y % 100 != 0 || y % 400 == 0) }

  function DaysInMonth(y: int, m: int): int
    requires 1 <= m <= 12
  {
    if m == 2 then (if IsLeap(y) then 29 else 28)
    else if m == 4 || m == 6 || m == 9 || m == 11 then 30
    else 31
  }

  datatype Day = Day(y: int, m: int, d: int)

  /** The day exists in its year. */
  predicate Exists(y: int, m: int, d: int) { 1 <= m <= 12 && 1 <= d <= DaysInMonth(y, m) }

  type CivilDay = c: Day | Exists(c.y, c.m, c.d) witness Day(1970, 1, 1)

  /** CivilDay's constructor: surplus days are those of the next month. */
  function Normalized(y: int, m: int, d: int): CivilDay
    requires 1 <= m <= 12 && 1 <= d <= 31
  {
    if d <= DaysInMonth(y, m) then Day(y, m, d) else Day(y, m + 1, d - DaysInMonth(y, m))
  }

  // ----- Day numbers

  /** Days of the years before y, counted from the year 1. */
  function DaysBeforeYear(y: int): int { 365 * (y - 1) + (y - 1) / 4 - (y - 1) / 100 + (y - 1) / 400 }

  function DaysBeforeMonth(y: int, m: int): int
    requires 1 <= m <= 12
    decreases m
  {
    if m == 1 then 0 else DaysBeforeMonth(y, m - 1) + DaysInMonth(y, m - 1)
  }

  function DayNumber(c: CivilDay): int { DaysBeforeYear(c.y) + DaysBeforeMonth(c.y, c.m) + c.d }

  function Difference(a: CivilDay, b: CivilDay): int { DayNumber(a) - DayNumber(b) }

  function YearLength(y: int): int { if IsLeap(y) then 366 else 365 }

  lemma NextYear(y: int)
    ensures DaysBeforeYear(y + 1) == DaysBeforeYear(y) + YearLength(y)
  {
    Quotient(y, 4);
    Quotient(y, 100);
    Quotient(y, 400);
    Divides(y);
  }

  lemma Divides(y: int)
    ensures y % 400 == 0 ==> y % 100 == 0
    ensures y % 100 == 0 ==> y % 4 == 0
  {
    if y % 400 == 0 { Multiple100(y / 400); }
    if y % 100 == 0 { Multiple4(y / 100); }
  }

  lemma Multiple100(q: int)
    ensures (400 * q) % 100 == 0
  {}

  lemma Multiple4(q: int)
    ensures (100 * q) % 4 == 0
  {}

  lemma Quotient(y: int, k: int)
    requires k == 4 || k == 100 || k == 400
    ensures y / k - (y - 1) / k == if y % k == 0 then 1 else 0
  {}

  /** Days before the months of a year without a leap day. */
  function PlainDaysBefore(m: int): int
    requires 1 <= m <= 12
  {
    [0, 31, 59, 90, 120, 151, 181, 212, 243, 273, 304, 334][m - 1]
  }

  lemma {:induction false} DaysBeforeMonthTable(y: int, m: int)
    requires 1 <= m <= 12
    ensures DaysBeforeMonth(y, m) == PlainDaysBefore(m) + if m > 2 && IsLeap(y) then 1 else 0
    decreases m
  {
    hide IsLeap;
    if m > 1 { DaysBeforeMonthTable(y, m - 1); }
  }

  function DayOfYear(c: CivilDay): int { DaysBeforeMonth(c.y, c.m) + c.d }

  lemma DayOfYearTable(c: CivilDay)
    ensures DayOfYear(c) == PlainDaysBefore(c.m) + c.d + if c.m > 2 && IsLeap(c.y) then 1 else 0
    ensures 1 <= DayOfYear(c) <= YearLength(c.y)
  {
    hide IsLeap;
    DaysBeforeMonthTable(c.y, c.m);
  }

  /** The day after c. */
  function Tomorrow(c: CivilDay): CivilDay {
    if c.d < DaysInMonth(c.y, c.m) then Day(c.y, c.m, c.d + 1)
    else if c.m < 12 then Day(c.y, c.m + 1, 1)
    else Day(c.y + 1, 1, 1)
  }

  /** The day numbers count the days of the calendar. */
  lemma DayNumbersCount(c: CivilDay)
    ensures DayNumber(Tomorrow(c)) == DayNumber(c) + 1 && DayNumber(Day(1, 1, 1)) == 1
  {
    hide IsLeap, YearLength;
    if c.m == 12 {
      NextYear(c.y);
      DaysBeforeMonthTable(c.y, 12);
      assert YearLength(c.y) == (if IsLeap(c.y) then 366 else 365) by { LengthOfYear(c.y); }
    }
  }

  lemma LengthOfYear(y: int)
    ensures YearLength(y) == if IsLeap(y) then 366 else 365
  {}

  // ----- The year of a date without one

  function TargetYear(today: CivilDay, m: int, d: int): int
    requires 1 <= m <= 12 && 1 <= d <= 31
  {
    var diffDays := Difference(Normalized(today.y, m, d), today);
    if diffDays < -90 then today.y + 1 else if diffDays > 275 then today.y - 1 else today.y
  }

  /** The day when it survives normalization, as the source tests it. */
  function DayOf(y: int, m: int, d: int): Option<CivilDay>
    requires 1 <= m <= 12 && 1 <= d <= 31
  {
    var resultDay := Normalized(y, m, d);
    if resultDay.y != y || resultDay.m != m || resultDay.d != d then None else Some(resultDay)
  }

  function Resolve(today: CivilDay, m: int, d: int): Option<CivilDay>
    requires 1 <= m <= 12 && 1 <= d <= 31
  {
    DayOf(TargetYear(today, m, d), m, d)
  }

  lemma DayOfExists(y: int, m: int, d: int)
    requires 1 <= m <= 12 && 1 <= d <= 31
    ensures DayOf(y, m, d).Some? <==> Exists(y, m, d)
    ensures DayOf(y, m, d).Some? ==> DayOf(y, m, d).value == Day(y, m, d)
  {}

  predicate WithinWindow(day: CivilDay, today: CivilDay) { -90 <= Difference(day, today) <= 275 }

  lemma DifferenceTo(y: int, m: int, d: int, today: CivilDay)
    requires 1 <= m <= 12 && 1 <= d <= 31 && today.y - 1 <= y <= today.y + 1
    ensures var day := Normalized(y, m, d);
      var yearly := if y < today.y then -YearLength(y) else if y > today.y then YearLength(today.y) else 0;
      Difference(day, today) == DayOfYear(day) - DayOfYear(today) + yearly
  {
    hide DaysBeforeYear, YearLength, IsLeap, DaysBeforeMonth;
    if y < today.y { NextYear(y); }
    if y > today.y { NextYear(today.y); }
  }

  /** The candidate of the current year. */
  lemma Candidate(today: CivilDay, m: int, d: int)
    requires 1 <= m <= 12 && 1 <= d <= 31
    ensures var day := Normalized(today.y, m, d);
      Difference(day, today) == DayOfYear(day) - DayOfYear(today) && 1 <= DayOfYear(day) <= YearLength(today.y)
    ensures 1 <= DayOfYear(today) <= YearLength(today.y)
  {
    hide DaysBeforeMonth, DayOfYear, YearLength, IsLeap, Difference;
    DifferenceTo(today.y, m, d, today);
    DayOfYearTable(Normalized(today.y, m, d));
    DayOfYearTable(today);
  }

  /** A date that is found is from 90 days before to 275 days after today. */
  lemma InWindow(today: CivilDay, m: int, d: int)
    requires 1 <= m <= 12 && 1 <= d <= 31 && Resolve(today, m, d).Some?
    ensures WithinWindow(Resolve(today, m, d).value, today)
    ensures Resolve(today, m, d).value.m == m && Resolve(today, m, d).value.d == d
  {
    hide DaysBeforeMonth, DaysBeforeYear, IsLeap;
    var y := TargetYear(today, m, d);
    DayOfExists(y, m, d);
    Candidate(today, m, d);
    DifferenceTo(y, m, d, today);
    DayOfYearTable(Normalized(y, m, d));
    DayOfYearTable(Normalized(today.y, m, d));
  }

  // ----- When a date is found

  /** A date that exists in every year is always found. */
  lemma EveryYearResolves(today: CivilDay, m: int, d: int)
    requires forall y :: Exists(y, m, d)
    ensures Exists(today.y, m, d) && Resolve(today, m, d).Some?
  {
    assert Exists(today.y, m, d) && Exists(TargetYear(today, m, d), m, d);
    DayOfExists(TargetYear(today, m, d), m, d);
  }

  /** Some year has the date from 90 days before to 275 days after today. */
  ghost predicate OccursInWindow(today: CivilDay, m: int, d: int) {
    exists y :: Exists(y, m, d) && WithinWindow(Day(y, m, d), today)
  }

  /** May 30 before a leap year: 275 days before its leap day. */
  predicate IsBlindSpot(today: CivilDay, m: int, d: int) {
    m == 2 && d == 29 && today.m == 5 && today.d == 30 && !IsLeap(today.y) && IsLeap(today.y + 1)
  }

  lemma {:induction false} YearsApart(y1: int, y2: int)
    requires y1 <= y2
    ensures DaysBeforeYear(y2) - DaysBeforeYear(y1) >= 365 * (y2 - y1)
    decreases y2 - y1
  {
    hide DaysBeforeYear;
    if y1 < y2 {
      YearsApart(y1, y2 - 1);
      NextYear(y2 - 1);
    }
  }

  lemma WindowIsNear(day: CivilDay, today: CivilDay)
    requires WithinWindow(day, today)
    ensures today.y - 1 <= day.y <= today.y + 1
  {
    hide DaysBeforeYear, DaysBeforeMonth, IsLeap;
    DayOfYearTable(day);
    DayOfYearTable(today);
    if day.y > today.y + 1 {
      YearsApart(today.y + 1, day.y);
      NextYear(today.y);
    } else if day.y < today.y - 1 {
      YearsApart(day.y + 1, today.y);
      NextYear(day.y);
    }
  }

  lemma LeapNeighbours(y: int)
    requires IsLeap(y)
    ensures !IsLeap(y + 1) && !IsLeap(y - 1)
  {}

  /** The leap day in the years around today, in terms of the day of the year. */
  lemma LeapDayInWindow(today: CivilDay, y: int)
    requires today.y - 1 <= y <= today.y + 1 && IsLeap(y)
    ensures var n := DayOfYear(today);
      WithinWindow(Day(y, 2, 29), today) <==> (y == today.y && n <= 150) || (y == today.y + 1 && n >= 150)
  {
    hide DaysBeforeYear, DaysBeforeMonth;
    var day := Day(y, 2, 29);
    DifferenceTo(y, 2, 29, today);
    DayOfYearTable(day);
    DayOfYearTable(today);
    LeapNeighbours(y);
  }

  lemma LeapDayResolves(today: CivilDay)
    ensures var n := DayOfYear(today);
      Resolve(today, 2, 29).Some? <==> if IsLeap(today.y) then n <= 150 else n > 150 && IsLeap(today.y + 1)
  {
    hide DaysBeforeYear, DaysBeforeMonth, IsLeap;
    Candidate(today, 2, 29);
    DayOfYearTable(Normalized(today.y, 2, 29));
    DayOfExists(TargetYear(today, 2, 29), 2, 29);
    if IsLeap(today.y) { LeapNeighbours(today.y); }
  }

  lemma MayThirtieth(today: CivilDay)
    requires !IsLeap(today.y)
    ensures DayOfYear(today) == 150 <==> today.m == 5 && today.d == 30
  {
    hide IsLeap;
    DayOfYearTable(today);
  }

  lemma LeapDay(today: CivilDay)
    ensures Resolve(today, 2, 29).Some? <==> OccursInWindow(today, 2, 29) && !IsBlindSpot(today, 2, 29)
  {
    hide Resolve, DayOfYear, IsLeap, WithinWindow;
    LeapDayResolves(today);
    if !IsLeap(today.y) { MayThirtieth(today); }
    forall y | Exists(y, 2, 29) && WithinWindow(Day(y, 2, 29), today)
      ensures IsLeap(y) && ((y == today.y && DayOfYear(today) <= 150) || (y == today.y + 1 && DayOfYear(today) >= 150))
    {
      WindowIsNear(Day(y, 2, 29), today);
      LeapDayInWindow(today, y);
    }
    if IsLeap(today.y) {
      LeapNeighbours(today.y);
      LeapDayInWindow(today, today.y);
      assert Exists(today.y, 2, 29);
    } else if IsLeap(today.y + 1) {
      LeapDayInWindow(today, today.y + 1);
      assert Exists(today.y + 1, 2, 29);
    }
  }

  /** A date is found exactly when it occurs in the window, but for one day in the year before a leap year. */
  lemma Resolves(today: CivilDay, m: int, d: int)
    requires 1 <= m <= 12 && 1 <= d <= 31
    ensures Resolve(today, m, d).Some? <==> OccursInWindow(today, m, d) && !IsBlindSpot(today, m, d)
  {
    hide Normalized, Difference, WithinWindow, IsLeap;
    if m == 2 && d == 29 {
      LeapDay(today);
    } else {
      var y := TargetYear(today, m, d);
      DayOfExists(y, m, d);
      if Resolve(today, m, d).Some? {
        InWindow(today, m, d);
        assert Exists(y, m, d) && WithinWindow(Day(y, m, d), today);
      }
    }
  }

  /** The exception is real: the leap day of 2028 is 275 days after this day and is not found. */
  lemma BlindSpot()
    ensures var today := Day(2027, 5, 30); Resolve(today, 2, 29) == None && OccursInWindow(today, 2, 29)
  {
    var today := Day(2027, 5, 30);
    Resolves(today, 2, 29);
    assert Exists(2028, 2, 29);
    DayOfYearTable(today);
    LeapDayInWindow(today, 2028);
  }

  /** Both ends of the window are reached. */
  lemma WindowIsTight()
    ensures var r := Resolve(Day(2026, 4, 1), 1, 1);
      r.Some? && r.value == Day(2026, 1, 1) && Difference(r.value, Day(2026, 4, 1)) == -90
    ensures var r := Resolve(Day(2026, 1, 1), 10, 3);
      r.Some? && r.value == Day(2026, 10, 3) && Difference(r.value, Day(2026, 1, 1)) == 275
  {
    DaysBeforeMonthTable(2026, 4);
    DaysBeforeMonthTable(2026, 1);
    DaysBeforeMonthTable(2026, 10);
  }
}
