/** Proleptic Gregorian civil dates, day numbers counted from 1970-01-01 (day 0,
    a Thursday), and ISO 8601 week numbering (ISO 8601:2004 section 4.1.4: weeks
    run Monday to Sunday and week 1 is the week that holds the year's first
    Thursday).  The dashboard's `Date` arithmetic is modelled on these. */
module CivilDate {

  import opened JsValue

  /** A civil date; `month` runs 1..12 (JavaScript's `getUTCMonth()` is month - 1). */
  datatype Date = Date(year: int, month: int, day: int)

  predicate IsLeap(y: int)
  {
    y % 4 == 0 && (y % 100 != 0 || y % 400 == 0)
  }

  function DaysInYear(y: int): int
  {
    if IsLeap(y) then 366 else 365
  }

  function DaysInMonth(y: int, m: int): int
    requires 1 <= m <= 12
  {
    if m == 2 then (if IsLeap(y) then 29 else 28)
    else if m == 4 || m == 6 || m == 9 || m == 11 then 30
    else 31
  }

  predicate Valid(d: Date)
  {
    1 <= d.month <= 12 && 1 <= d.day <= DaysInMonth(d.year, d.month)
  }

  /** Days of year y that come before the first of month m. */
  function DaysBeforeMonth(y: int, m: int): int
    requires 1 <= m <= 12
  {
    [0, 31, 59, 90, 120, 151, 181, 212, 243, 273, 304, 334][m - 1]
      + (if m > 2 && IsLeap(y) then 1 else 0)
  }

  /** Number of leap years in 1..n (negative for n < 0, counting backwards). */
  function LeapsThrough(n: int): int
  {
    n / 4 - n / 100 + n / 400
  }

  /** Day number of January 1 of year y. */
  function DaysBeforeYear(y: int): int
  {
    365 * (y - 1970) + LeapsThrough(y - 1) - LeapsThrough(1969)
  }

  /** Zero-based position of d within its year. */
  function DayOfYear(d: Date): (k: int)
    requires Valid(d)
    ensures 0 <= k < DaysInYear(d.year)
  {
    DaysBeforeMonth(d.year, d.month) + d.day - 1
  }

  /** Days from 1970-01-01 to d (negative before it). */
  function DaysFromCivil(d: Date): int
    requires Valid(d)
  {
    DaysBeforeYear(d.year) + DayOfYear(d)
  }

  /** Day of the week of day number n, 0 = Sunday (as `getUTCDay()`). */
  function Weekday(n: int): (w: int)
    ensures 0 <= w < 7
  {
    (n + 4) % 7
  }

  /** The civil date one day later, as `setUTCDate(getUTCDate() + 1)`. */
  function NextDay(d: Date): Date
    requires Valid(d)
  {
    if d.day < DaysInMonth(d.year, d.month) then Date(d.year, d.month, d.day + 1)
    else if d.month < 12 then Date(d.year, d.month + 1, 1)
    else Date(d.year + 1, 1, 1)
  }

  lemma LeapStep(y: int)
    ensures LeapsThrough(y) - LeapsThrough(y - 1) == if IsLeap(y) then 1 else 0
  {
    MultiplesBelow(y, 4);
    MultiplesBelow(y, 100);
    MultiplesBelow(y, 400);
    if y % 100 == 0 {
      DivUnique(y, 4, 25 * (y / 100), 0);
    }
    if y % 400 == 0 {
      DivUnique(y, 100, 4 * (y / 400), 0);
    }
  }

  /** Going from y - 1 to y passes one more multiple of k exactly when y is one. */
  lemma MultiplesBelow(y: int, k: int)
    requires k > 0
    ensures y / k - (y - 1) / k == if y % k == 0 then 1 else 0
  {
    var q, r := (y - 1) / k, (y - 1) % k;
    if r + 1 == k {
      DivUnique(y, k, q + 1, 0);
    } else {
      DivUnique(y, k, q, r + 1);
    }
  }

  /** Euclidean division has one quotient and one remainder. */
  lemma DivUnique(y: int, k: int, a: int, b: int)
    requires k > 0 && y == k * a + b && 0 <= b < k
    ensures a == y / k && b == y % k
  {
    var d := a - y / k;
    assert k * d == y % k - b;
    assert d >= 1 ==> k * d >= k * 1;
    assert d <= -1 ==> k * d <= k * -1;
  }

  /** Year y has DaysInYear(y) days in the day numbering. */
  lemma DaysBeforeYearStep(y: int)
    ensures DaysBeforeYear(y + 1) == DaysBeforeYear(y) + DaysInYear(y)
  {
    LeapStep(y);
  }

  /** January 1 moves forward by at least 365 days per year. */
  lemma {:induction false} DaysBeforeYearMonotone(a: int, b: int)
    requires a <= b
    ensures DaysBeforeYear(a) + 365 * (b - a) <= DaysBeforeYear(b)
    decreases b - a
  {
    if a < b {
      DaysBeforeYearMonotone(a, b - 1);
      DaysBeforeYearStep(b - 1);
    }
  }

  /** NextDay is the following day number and stays a valid date. */
  lemma NextDayStep(d: Date)
    requires Valid(d)
    ensures Valid(NextDay(d))
    ensures DaysFromCivil(NextDay(d)) == DaysFromCivil(d) + 1
    ensures NextDay(d).year == d.year <==> DayOfYear(d) + 1 < DaysInYear(d.year)
    ensures NextDay(d).year == d.year ==> DayOfYear(NextDay(d)) == DayOfYear(d) + 1
  {
    if d.day == DaysInMonth(d.year, d.month) && d.month == 12 {
      DaysBeforeYearStep(d.year);
    }
  }

  /** Month m + 1 starts DaysInMonth(y, m) days after month m, and no month is
      shorter than four weeks. */
  lemma NextMonthStart(y: int, m: int)
    requires 1 <= m < 12
    ensures DaysBeforeMonth(y, m + 1) == DaysBeforeMonth(y, m) + DaysInMonth(y, m)
    ensures DaysInMonth(y, m) >= 28
  {
  }

  /** The year that contains day number n, found by stepping from 1970. */
  function YearOfDay(n: int): (y: int)
    ensures DaysBeforeYear(y) <= n < DaysBeforeYear(y + 1)
  {
    if n >= 0 then YearUp(n, 1970) else YearDown(n, 1969)
  }

  function YearUp(n: int, y: int): (r: int)
    requires DaysBeforeYear(y) <= n
    ensures DaysBeforeYear(r) <= n < DaysBeforeYear(r + 1)
    decreases n - DaysBeforeYear(y)
  {
    DaysBeforeYearStep(y);
    if n < DaysBeforeYear(y + 1) then y else YearUp(n, y + 1)
  }

  function YearDown(n: int, y: int): (r: int)
    requires n < DaysBeforeYear(y + 1)
    ensures DaysBeforeYear(r) <= n < DaysBeforeYear(r + 1)
    decreases DaysBeforeYear(y + 1) - n
  {
    DaysBeforeYearStep(y);
    if DaysBeforeYear(y) <= n then y else YearDown(n, y - 1)
  }

  /** Every day number lies in exactly one year. */
  lemma YearOfDayUnique(n: int, y: int)
    requires DaysBeforeYear(y) <= n < DaysBeforeYear(y + 1)
    ensures YearOfDay(n) == y
  {
    var r := YearOfDay(n);
    if r < y {
      DaysBeforeYearMonotone(r + 1, y);
    } else if y < r {
      DaysBeforeYearMonotone(y + 1, r);
    }
  }

  /** The year of a valid date is the year of its day number. */
  lemma YearOfDate(d: Date)
    requires Valid(d)
    ensures YearOfDay(DaysFromCivil(d)) == d.year
  {
    DaysBeforeYearStep(d.year);
    YearOfDayUnique(DaysFromCivil(d), d.year);
  }

  // ---------------------------------------------------------------------
  // ISO 8601 weeks

  datatype IsoWeek = IsoWeek(year: int, week: int)

  /** Day of the week with Sunday as 7 (`getDay() || 7`). */
  function IsoWeekday(n: int): (w: int)
    ensures 1 <= w <= 7
  {
    if Weekday(n) == 0 then 7 else Weekday(n)
  }

  /** `Math.ceil(x)`. */
  function Ceil(x: real): int
  {
    -((-x).Floor)
  }

  /** ceil((k + 1) / 7) is the integer k / 7 + 1. */
  lemma CeilWeek(k: int)
    requires 0 <= k
    ensures Ceil((k as real + 1.0) / 7.0) == k / 7 + 1
  {
    var q := k / 7;
    var x := (k as real + 1.0) / 7.0;
    assert q as real < x <= (q + 1) as real;
    assert ((-(q + 1)) as real) <= -x < ((-(q + 1)) as real) + 1.0;
  }

  /** The Thursday of the Monday-to-Sunday week of day n. */
  function WeekThursday(n: int): int
  {
    n + 4 - IsoWeekday(n)
  }

  /** `getWeekNumber`: move to the Thursday of the week, then count weeks from
      January 1 of that Thursday's year. */
  function IsoWeekOf(n: int): (w: IsoWeek)
    ensures 1 <= w.week <= 53
    ensures DaysBeforeYear(w.year) <= WeekThursday(n) < DaysBeforeYear(w.year + 1)
  {
    var th := WeekThursday(n);
    var y := YearOfDay(th);
    CeilWeek(th - DaysBeforeYear(y));
    DaysBeforeYearStep(y);
    IsoWeek(y, Ceil(((th - DaysBeforeYear(y)) as real + 1.0) / 7.0))
  }

  /** Week 1 is the week whose Thursday is among the first seven days of the year,
      i.e. the week holding the year's first Thursday. */
  lemma WeekOneHoldsFirstThursday(n: int)
    ensures IsoWeekOf(n).week == 1 <==>
              WeekThursday(n) - DaysBeforeYear(IsoWeekOf(n).year) < 7
  {
    var th := WeekThursday(n);
    CeilWeek(th - DaysBeforeYear(YearOfDay(th)));
  }

  /** The days Monday..Sunday of one week have the same ISO week: day m, at most
      as many days after n as remain in n's week, has n's week. */
  lemma SameWeek(n: int, m: int)
    requires n <= m <= n + 7 - IsoWeekday(n)
    ensures IsoWeekday(m) == IsoWeekday(n) + (m - n)
    ensures IsoWeekOf(m) == IsoWeekOf(n)
  {
    assert (m + 4) % 7 == ((n + 4) % 7 + (m - n)) % 7;
    assert WeekThursday(m) == WeekThursday(n);
  }

  /** Seven days later is the next ISO week: the week number goes up by one, or
      it is week 1 of the next year. */
  lemma NextWeek(n: int)
    ensures var a, b := IsoWeekOf(n), IsoWeekOf(n + 7);
      (b.year == a.year && b.week == a.week + 1) || (b.year == a.year + 1 && b.week == 1)
  {
    assert Weekday(n + 7) == Weekday(n);
    var th := WeekThursday(n);
    assert WeekThursday(n + 7) == th + 7;
    var y := YearOfDay(th);
    DaysBeforeYearStep(y);
    DaysBeforeYearStep(y + 1);
    CeilWeek(th - DaysBeforeYear(y));
    if th + 7 < DaysBeforeYear(y + 1) {
      YearOfDayUnique(th + 7, y);
      CeilWeek(th + 7 - DaysBeforeYear(y));
    } else {
      YearOfDayUnique(th + 7, y + 1);
      CeilWeek(th + 7 - DaysBeforeYear(y + 1));
    }
  }

  /** The key `YYYY-Www` with the week zero-padded to two digits. */
  function WeekText(w: IsoWeek): string
    requires 1 <= w.week
  {
    IntText(w.year) + "-W" + PadStart(NatText(w.week), 2, '0')
  }

  /** 2024-01-01, a Monday, is in week 2024-W01. */
  lemma IsoWeekOfNewYear2024()
    ensures IsoWeekOf(DaysFromCivil(Date(2024, 1, 1))) == IsoWeek(2024, 1)
    ensures WeekText(IsoWeek(2024, 1)) == "2024-W01"
  {
    assert LeapsThrough(2023) == 490 && LeapsThrough(1969) == 477;
    assert LeapsThrough(2024) == 491;
    assert DaysBeforeYear(2024) == 19723;
    assert DaysBeforeYear(2025) == 20089;
    var a := DaysFromCivil(Date(2024, 1, 1));
    assert a == 19723;
    assert Weekday(a) == 1;
    YearOfDayUnique(19726, 2024);
    CeilWeek(3);
    assert NatText(2024) == NatText(202) + "4";
    assert NatText(202) == NatText(20) + "2";
    assert NatText(20) == NatText(2) + "0";
  }

  /** 2023-12-31, a Sunday, is in week 2023-W52. */
  lemma IsoWeekOfNewYearsEve2023()
    ensures IsoWeekOf(DaysFromCivil(Date(2023, 12, 31))) == IsoWeek(2023, 52)
    ensures WeekText(IsoWeek(2023, 52)) == "2023-W52"
  {
    assert LeapsThrough(2022) == 490 && LeapsThrough(1969) == 477;
    assert LeapsThrough(2023) == 490;
    assert DaysBeforeYear(2023) == 19358;
    assert DaysBeforeYear(2024) == 19723;
    var b := DaysFromCivil(Date(2023, 12, 31));
    assert b == 19722;
    assert Weekday(b) == 0;
    YearOfDayUnique(19719, 2023);
    CeilWeek(361);
    assert NatText(2023) == NatText(202) + "3";
    assert NatText(202) == NatText(20) + "2";
    assert NatText(20) == NatText(2) + "0";
    assert NatText(52) == NatText(5) + "2";
  }
}
