/** The Gregorian calendar, as JavaScript's Date counts it. */
module Calendar {

  datatype Date = Date(year: int, month: int, day: int)

  predicate IsLeap(year: int) {
    year % 4 == 0 && (year % 100 != 0 || year % 400 == 0)
  }

  function DaysIn(year: int, month: int): int {
    if month == 2 then (if IsLeap(year) then 29 else 28)
    else if month == 4 || month == 6 || month == 9 || month == 11 then 30
    else 31
  }

  predicate IsDate(d: Date) {
    1 <= d.month <= 12 && 1 <= d.day <= DaysIn(d.year, d.month)
  }

  function Next(d: Date): Date {
    if d.day < DaysIn(d.year, d.month) then d.(day := d.day + 1)
    else if d.month < 12 then Date(d.year, d.month + 1, 1)
    else Date(d.year + 1, 1, 1)
  }

  function Previous(d: Date): Date {
    if d.day > 1 then d.(day := d.day - 1)
    else if d.month > 1 then Date(d.year, d.month - 1, DaysIn(d.year, d.month - 1))
    else Date(d.year - 1, 12, 31)
  }

  /** The date of a day, counted from 1 January 1970. */
  function Civil(day: int): (d: Date)
    ensures IsDate(d)
    decreases if day < 0 then -day else day
  {
    if day == 0 then Date(1970, 1, 1)
    else if day > 0 then Next(Civil(day - 1))
    else Previous(Civil(day + 1))
  }

  /** The day of the week by counting on from the epoch; Sunday is 0. */
  function Weekday(day: int): int {
    (day + 4) % 7
  }

  /** The leap years before a year, counted from year 1. */
  function LeapsBefore(year: int): int {
    (year - 1) / 4 - (year - 1) / 100 + (year - 1) / 400
  }

  function DaysBeforeMonth(year: int, month: int): int {
    [0, 31, 59, 90, 120, 151, 181, 212, 243, 273, 304, 334][(if 1 <= month <= 12 then month else 1) - 1]
    + if month > 2 && IsLeap(year) then 1 else 0
  }

  /** The day of a date by the closed formula. */
  function DayNumber(d: Date): int {
    365 * (d.year - 1970) + LeapsBefore(d.year) - LeapsBefore(1970) + DaysBeforeMonth(d.year, d.month) + d.day - 1
  }

  lemma QuotientNext(year: int, n: int)
    requires n > 0
    ensures year / n == (year - 1) / n + if year % n == 0 then 1 else 0
  {
    var q, r := year / n, year % n;
    assert year == n * q + r;
    var q', r' := (year - 1) / n, (year - 1) % n;
    assert year - 1 == n * q' + r';
    var gap := q - q';
    assert n * gap == 1 + r' - r;
    assert gap >= 2 ==> n * gap >= 2 * n;
    assert gap <= -1 ==> n * gap <= -n;
    assert gap == 0 || gap == 1;
  }

  lemma Multiples(year: int)
    ensures year % 400 == 0 ==> year % 100 == 0
    ensures year % 100 == 0 ==> year % 4 == 0
  {
  }

  lemma LeapsNext(year: int)
    ensures LeapsBefore(year + 1) == LeapsBefore(year) + if IsLeap(year) then 1 else 0
  {
    QuotientNext(year, 4);
    QuotientNext(year, 100);
    QuotientNext(year, 400);
    Multiples(year);
  }

  lemma DayNumberNext(d: Date)
    requires IsDate(d)
    ensures DayNumber(Next(d)) == DayNumber(d) + 1
  {
    LeapsNext(d.year);
    hide LeapsBefore, IsLeap;
  }

  lemma EpochNumber()
    ensures DayNumber(Civil(0)) == 0
  {
    assert Civil(0) == Date(1970, 1, 1);
  }

  /** Counting day by day and the closed formula agree. */
  lemma {:induction false} DayNumberOfCivil(day: int)
    ensures DayNumber(Civil(day)) == day
    decreases if day < 0 then -day else day
  {
    hide DayNumber, Civil, Next;
    if day > 0 {
      DayNumberOfCivil(day - 1);
      CivilNext(day - 1);
      DayNumberNext(Civil(day - 1));
    } else if day < 0 {
      DayNumberOfCivil(day + 1);
      CivilNext(day);
      DayNumberNext(Civil(day));
    } else {
      EpochNumber();
    }
  }

  // ---------------------------------------------------------------------------
  // The day of the week of a date

  /** Sakamoto's formula, over year, month and day alone; Sunday is 0. */
  function DayOfWeek(d: Date): int
    requires IsDate(d)
  {
    WeekSum(d) % 7
  }

  function WeekSum(d: Date): int
    requires IsDate(d)
  {
    var year := if d.month < 3 then d.year - 1 else d.year;
    year + year / 4 - year / 100 + year / 400 + TABLE[d.month - 1] + d.day
  }

  const TABLE: seq<int> := [0, 3, 2, 5, 0, 3, 5, 1, 4, 6, 2, 4]

  lemma WeekSumByLeaps(d: Date)
    requires IsDate(d)
    ensures WeekSum(d) == d.year - (if d.month < 3 then 1 else 0) + LeapsBefore(d.year)
                          + (if d.month > 2 && IsLeap(d.year) then 1 else 0) + TABLE[d.month - 1] + d.day
  {
    LeapsNext(d.year);
    hide IsLeap;
  }

  lemma WholeWeeks(days: int, weeks: int)
    ensures (days + 7 * weeks) % 7 == days % 7
  {
  }

  /** The formula counts the days since the epoch, up to whole weeks. */
  lemma DayOfWeekOfNumber(d: Date)
    requires IsDate(d)
    ensures DayOfWeek(d) == (DayNumber(d) + 4) % 7
  {
    WeekSumByLeaps(d);
    assert LeapsBefore(1970) == 477;
    hide LeapsBefore, IsLeap, WeekSum;
    var weeks := 52 * d.year + [-102789, -102785, -102781, -102777, -102772, -102768, -102764, -102759, -102755, -102751, -102746, -102742][d.month - 1];
    assert DayNumber(d) + 4 == WeekSum(d) + 7 * weeks;
    WholeWeeks(WeekSum(d), weeks);
  }

  /** For every day: counting from the epoch gives the day of the week that the formula gives for its date. */
  lemma WeekdayOfCivil(day: int)
    ensures Weekday(day) == DayOfWeek(Civil(day))
  {
    DayNumberOfCivil(day);
    DayOfWeekOfNumber(Civil(day));
  }

  // ---------------------------------------------------------------------------
  // Days and dates correspond

  function YearStart(year: int): int {
    365 * (year - 1970) + LeapsBefore(year) - LeapsBefore(1970)
  }

  lemma {:induction false} YearsIncrease(a: int, b: int)
    requires a <= b
    ensures YearStart(a) <= YearStart(b)
    decreases b - a
  {
    hide LeapsBefore;
    if a < b {
      YearsIncrease(a, b - 1);
      LeapsNext(b - 1);
    }
  }

  lemma DayWithinYear(d: Date)
    requires IsDate(d)
    ensures YearStart(d.year) <= DayNumber(d) < YearStart(d.year + 1)
  {
    LeapsNext(d.year);
    hide LeapsBefore, IsLeap;
  }

  lemma NumbersIncrease(a: Date, b: Date)
    requires IsDate(a) && IsDate(b) && Earlier(a, b)
    ensures DayNumber(a) < DayNumber(b)
  {
    if a.year < b.year {
      DayWithinYear(a);
      DayWithinYear(b);
      YearsIncrease(a.year + 1, b.year);
    }
  }

  /** Every date is the date of the day with its number. */
  lemma DateOfDayNumber(d: Date)
    requires IsDate(d)
    ensures Civil(DayNumber(d)) == d
  {
    var other := Civil(DayNumber(d));
    DayNumberOfCivil(DayNumber(d));
    if Earlier(other, d) {
      NumbersIncrease(other, d);
    } else if Earlier(d, other) {
      NumbersIncrease(d, other);
    }
  }

  predicate Earlier(a: Date, b: Date) {
    a.year < b.year || (a.year == b.year && (a.month < b.month || (a.month == b.month && a.day < b.day)))
  }

  lemma CivilNext(day: int)
    ensures Civil(day + 1) == Next(Civil(day))
  {
  }

  lemma {:induction false} LaterDays(i: int, j: int)
    requires i < j
    ensures Earlier(Civil(i), Civil(j))
    decreases j - i
  {
    CivilNext(j - 1);
    if i < j - 1 {
      LaterDays(i, j - 1);
    }
  }

  /** Different days have different dates. */
  lemma DatesDetermineDays(i: int, j: int)
    requires Civil(i) == Civil(j)
    ensures i == j
  {
    if i < j {
      LaterDays(i, j);
    } else if j < i {
      LaterDays(j, i);
    }
  }

  /** Every month has every day of the week. */
  lemma EveryWeekday(month: int, weekday: int) returns (day: int)
    requires 1 <= month <= 12 && 0 <= weekday <= 6
    ensures Civil(day).month == month && DayOfWeek(Civil(day)) == weekday
  {
    hide WeekSum, Civil, DayNumber, IsDate;
    LaterInMonth(month, 0);
    var sum := WeekSum(Date(1970, month, 1));
    var k := WeekdayReached(sum, weekday);
    LaterInMonth(month, k);
    DateOfDayNumber(Date(1970, month, 1 + k));
    day := DayNumber(Date(1970, month, 1 + k));
  }

  lemma LaterInMonth(month: int, k: nat)
    requires 1 <= month <= 12 && k < 7
    ensures IsDate(Date(1970, month, 1)) && IsDate(Date(1970, month, 1 + k))
    ensures WeekSum(Date(1970, month, 1 + k)) == WeekSum(Date(1970, month, 1)) + k
  {
  }

  lemma WeekdayReached(sum: int, weekday: int) returns (k: nat)
    requires 0 <= weekday <= 6
    ensures k < 7 && (sum + k) % 7 == weekday
  {
    k := (weekday - sum % 7) % 7;
  }
}
