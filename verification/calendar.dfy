/** The proleptic Gregorian calendar that JavaScript's `Date` follows, on
    whole local days: a calendar date, the next date, and the day number
    (days since 1970-01-01) from which the weekday follows. */
module Calendar {

  predicate IsLeapYear(y: int) {
    y % 4 == 0 && (y % 100 != 0 || y % 400 == 0)
  }

  function DaysInYear(y: int): nat {
    if IsLeapYear(y) then 366 else 365
  }

  function DaysInMonth(y: int, m: int): nat
    requires 1 <= m <= 12
  {
    if m == 2 then (if IsLeapYear(y) then 29 else 28)
    else if m == 4 || m == 6 || m == 9 || m == 11 then 30
    else 31
  }

  /** A calendar date with a 1-based month and day. */
  datatype Date = Date(year: int, month: int, day: int)

  predicate ValidDate(d: Date) {
    1 <= d.month <= 12 && 1 <= d.day <= DaysInMonth(d.year, d.month)
  }

  /** `date.setDate(date.getDate() + 1)` on a date at local midnight. */
  function NextDate(d: Date): (r: Date)
    requires ValidDate(d)
    ensures ValidDate(r)
  {
    if d.day < DaysInMonth(d.year, d.month) then Date(d.year, d.month, d.day + 1)
    else if d.month < 12 then Date(d.year, d.month + 1, 1)
    else Date(d.year + 1, 1, 1)
  }

  /** The number of leap years before year `y`, offset so that floor
      division makes it valid for every integer year. */
  function LeapsBefore(y: int): int {
    (y - 1) / 4 - (y - 1) / 100 + (y - 1) / 400
  }

  /** Day number of January 1 of year `y`. */
  function DaysBeforeYear(y: int): int {
    365 * (y - 1970) + LeapsBefore(y) - LeapsBefore(1970)
  }

  /** Days of year `y` before the first of month `m`. */
  function DaysBeforeMonth(y: int, m: int): nat
    requires 1 <= m <= 12
  {
    [0, 31, 59, 90, 120, 151, 181, 212, 243, 273, 304, 334][m - 1]
      + (if m > 2 && IsLeapYear(y) then 1 else 0)
  }

  /** Days since 1970-01-01 (negative before it). */
  function DayNumber(d: Date): int
    requires ValidDate(d)
  {
    DaysBeforeYear(d.year) + DaysBeforeMonth(d.year, d.month) + d.day - 1
  }

  /** `Date.prototype.getDay`: 0 is Sunday, 6 is Saturday; day 0 (1970-01-01)
      was a Thursday. */
  function Weekday(n: int): (w: int)
    ensures 0 <= w < 7
  {
    (n + 4) % 7
  }

  lemma ModSeven(a: int, q: int, r: int)
    requires 0 <= r < 7 && a == 7 * q + r
    ensures a % 7 == r
  {
  }

  /** Moving `k` days moves the weekday by `k` modulo 7. */
  lemma WeekdayAdd(n: int, k: int)
    ensures Weekday(n + k) == (Weekday(n) + k) % 7
  {
    var w := (n + 4) % 7;
    ModSeven(n + 4 + k, (n + 4) / 7 + (w + k) / 7, (w + k) % 7);
  }

  lemma DivStep(y: int, k: int)
    requires k > 0
    ensures y / k - (y - 1) / k == if y % k == 0 then 1 else 0
  {
    var q, r := y / k, y % k;
    assert y == k * q + r && 0 <= r < k;
    if r == 0 {
      assert k * (q - 1) == k * q - k;
      DivUnique(y - 1, k, q - 1, k - 1);
    } else {
      DivUnique(y - 1, k, q, r - 1);
    }
  }

  lemma DivUnique(a: int, k: int, q: int, r: int)
    requires k > 0 && 0 <= r < k && a == k * q + r
    ensures a / k == q
  {
    var q', r' := a / k, a % k;
    assert a == k * q' + r' && 0 <= r' < k;
    if q' < q {
      MulAtLeast(k, q - q');
    } else if q' > q {
      MulAtLeast(k, q' - q);
    }
  }

  lemma {:induction false} MulAtLeast(k: int, x: int)
    requires k > 0 && x >= 1
    ensures k * x >= k
    decreases x
  {
    if x > 1 {
      MulAtLeast(k, x - 1);
      assert k * x == k * (x - 1) + k;
    }
  }

  lemma DivisibleBy(y: int, a: int, b: int)
    requires a > 0 && b > 0 && y % (a * b) == 0
    ensures y % a == 0
  {
    var q := y / (a * b);
    assert y == (a * b) * q;
    assert y == a * (b * q);
  }

  lemma LeapStep(y: int)
    ensures LeapsBefore(y + 1) - LeapsBefore(y) == if IsLeapYear(y) then 1 else 0
  {
    DivStep(y, 4);
    DivStep(y, 100);
    DivStep(y, 400);
    if y % 100 == 0 { DivisibleBy(y, 4, 25); }
    if y % 400 == 0 { DivisibleBy(y, 100, 4); }
  }

  /** Consecutive years are as far apart as the first one is long. */
  lemma YearStep(y: int)
    ensures DaysBeforeYear(y + 1) == DaysBeforeYear(y) + DaysInYear(y)
  {
    LeapStep(y);
  }

  lemma {:induction false} DaysBeforeYearMonotone(a: int, b: int)
    requires a <= b
    ensures DaysBeforeYear(a) <= DaysBeforeYear(b)
    decreases b - a
  {
    if a < b {
      YearStep(a);
      DaysBeforeYearMonotone(a + 1, b);
    }
  }

  lemma DaysBeforeMonthBound(y: int, m: int)
    requires 1 <= m <= 12
    ensures DaysBeforeMonth(y, m) + DaysInMonth(y, m) <= DaysInYear(y)
    ensures m < 12 ==> DaysBeforeMonth(y, m + 1) == DaysBeforeMonth(y, m) + DaysInMonth(y, m)
    ensures m == 12 ==> DaysBeforeMonth(y, m) + DaysInMonth(y, m) == DaysInYear(y)
  {
  }

  /** A date's day number lies within its year's range of day numbers. */
  lemma DayNumberInYear(d: Date)
    requires ValidDate(d)
    ensures DaysBeforeYear(d.year) <= DayNumber(d) < DaysBeforeYear(d.year + 1)
  {
    DaysBeforeMonthBound(d.year, d.month);
    YearStep(d.year);
  }

  /** The day number determines the year. */
  lemma YearOfDayNumber(d: Date, y: int)
    requires ValidDate(d)
    requires DaysBeforeYear(y) <= DayNumber(d) < DaysBeforeYear(y + 1)
    ensures d.year == y
  {
    DayNumberInYear(d);
    if d.year < y {
      DaysBeforeYearMonotone(d.year + 1, y);
    } else if d.year > y {
      DaysBeforeYearMonotone(y + 1, d.year);
    }
  }

  /** The next date is the next day number. */
  lemma NextDateNumber(d: Date)
    requires ValidDate(d)
    ensures DayNumber(NextDate(d)) == DayNumber(d) + 1
  {
    if d.day == DaysInMonth(d.year, d.month) && d.month == 12 {
      DaysBeforeMonthBound(d.year, 12);
      YearStep(d.year);
    }
  }

  /** The date `k` days after `d`. */
  function DateAfter(d: Date, k: nat): (r: Date)
    requires ValidDate(d)
    ensures ValidDate(r)
  {
    if k == 0 then d else NextDate(DateAfter(d, k - 1))
  }

  lemma {:induction false} DateAfterNumber(d: Date, k: nat)
    requires ValidDate(d)
    ensures DayNumber(DateAfter(d, k)) == DayNumber(d) + k
  {
    if k > 0 {
      DateAfterNumber(d, k - 1);
      NextDateNumber(DateAfter(d, k - 1));
    }
  }
}
