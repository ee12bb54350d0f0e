/** Proleptic Gregorian calendar arithmetic on instants, counted in
    milliseconds since 1970-01-01T00:00:00Z. Days are UTC days; months are
    numbered 0 (January) to 11 (December), as a date's month index is. */
module Calendar {

  /** Milliseconds in a day (24 * 60 * 60 * 1000). */
  const DAY_MS: int := 86_400_000
  const WEEK_MS: int := 7 * DAY_MS

  /** Days before the first of each month in a common year; entry 12 is the
      length of the year. */
  const CUMULATIVE_DAYS: seq<int> := [0, 31, 59, 90, 120, 151, 181, 212, 243, 273, 304, 334, 365]

  predicate IsLeapYear(y: int) {
    y % 4 == 0 && (y % 100 != 0 || y % 400 == 0)
  }

  function DaysInYear(y: int): int {
    if IsLeapYear(y) then 366 else 365
  }

  /** Days in the year `y` before the first of month `m`. */
  function DaysBeforeMonth(y: int, m: int): int
    requires 0 <= m <= 12
  {
    CUMULATIVE_DAYS[m] + if m >= 2 && IsLeapYear(y) then 1 else 0
  }

  /** The length of month `m` of year `y`: 28 or 29 for February, 30 for
      April, June, September and November, 31 otherwise. It is the gap
      between consecutive month starts. */
  function DaysInMonth(y: int, m: int): (n: int)
    requires 0 <= m < 12
    ensures n == DaysBeforeMonth(y, m + 1) - DaysBeforeMonth(y, m)
    ensures 28 <= n <= 31
  {
    if m == 1 then (if IsLeapYear(y) then 29 else 28)
    else if m == 3 || m == 5 || m == 8 || m == 10 then 30
    else 31
  }

  /** The twelve months fill the year exactly. */
  lemma YearIsTwelveMonths(y: int)
    ensures DaysBeforeMonth(y, 12) == DaysInYear(y)
  {
  }

  lemma {:induction false} DaysBeforeMonthMonotone(y: int, m1: int, m2: int)
    requires 0 <= m1 <= m2 <= 12
    ensures DaysBeforeMonth(y, m1) <= DaysBeforeMonth(y, m2)
    decreases m2 - m1
  {
    if m1 < m2 {
      assert DaysInMonth(y, m1) > 0;
      DaysBeforeMonthMonotone(y, m1 + 1, m2);
    }
  }

  /** Leap years among the years 1 to `y` (counted with floor division, so
      the formula extends to earlier years). */
  function LeapYearsThrough(y: int): int {
    y / 4 - y / 100 + y / 400
  }

  /** The day number of January 1 of year `y` (day 0 is 1970-01-01). */
  function YearStart(y: int): int {
    365 * (y - 1970) + LeapYearsThrough(y - 1) - LeapYearsThrough(1969)
  }

  /** Consecutive year starts are one year length apart. */
  lemma YearStartStep(y: int)
    ensures YearStart(y + 1) == YearStart(y) + DaysInYear(y)
  {
    FloorStep(y, 4);
    FloorStep(y, 100);
    FloorStep(y, 400);
  }

  /** Floor division by `k` steps up by one exactly at the multiples of `k`. */
  lemma FloorStep(y: int, k: int)
    requires k > 0
    ensures y / k - (y - 1) / k == if y % k == 0 then 1 else 0
  {
    var q, r := (y - 1) / k, (y - 1) % k;
    assert y - 1 == k * q + r && 0 <= r < k;
    if r == k - 1 {
      DivUnique(y, k, q + 1, 0);
    } else {
      DivUnique(y, k, q, r + 1);
    }
  }

  /** Quotient and remainder are determined by `x == k * q + r`, `0 <= r < k`. */
  lemma DivUnique(x: int, k: int, q: int, r: int)
    requires k > 0 && 0 <= r < k && x == k * q + r
    ensures x / k == q && x % k == r
  {
    var q', r' := x / k, x % k;
    assert x == k * q' + r' && 0 <= r' < k;
    assert k * (q - q') == r' - r;
    MulSign(k, q - q');
  }

  /** A nonzero multiple of a positive `k` is at least `k` away from zero. */
  lemma MulSign(k: int, d: int)
    requires k > 0
    ensures d > 0 ==> k * d >= k
    ensures d < 0 ==> k * d <= -k
  {
    if d > 0 {
      MulAtLeast(k, d);
    } else if d < 0 {
      MulAtLeast(k, -d);
      assert k * d == -(k * -d);
    }
  }

  lemma {:induction false} MulAtLeast(k: int, d: int)
    requires k > 0 && d >= 1
    ensures k * d >= k
    decreases d
  {
    if d > 1 {
      MulAtLeast(k, d - 1);
      assert k * d == k * (d - 1) + k;
    }
  }

  lemma {:induction false} YearStartMonotone(y1: int, y2: int)
    requires y1 <= y2
    ensures YearStart(y1) <= YearStart(y2)
    decreases y2 - y1
  {
    if y1 < y2 {
      YearStartStep(y2 - 1);
      YearStartMonotone(y1, y2 - 1);
    }
  }

  /** The year containing day `d`, searching upwards from year `y`. */
  function FindYearUp(y: int, d: int): (r: int)
    requires YearStart(y) <= d
    ensures YearStart(r) <= d < YearStart(r + 1)
    decreases d - YearStart(y)
  {
    YearStartStep(y);
    if d < YearStart(y + 1) then y else FindYearUp(y + 1, d)
  }

  /** The year containing day `d`, searching downwards from year `y`. */
  function FindYearDown(y: int, d: int): (r: int)
    requires d < YearStart(y)
    ensures YearStart(r) <= d < YearStart(r + 1)
    decreases YearStart(y) - d
  {
    YearStartStep(y - 1);
    if YearStart(y - 1) <= d then y - 1 else FindYearDown(y - 1, d)
  }

  /** The year containing day number `d`. */
  function YearOf(d: int): (y: int)
    ensures YearStart(y) <= d < YearStart(y + 1)
  {
    if YearStart(1970) <= d then FindYearUp(1970, d) else FindYearDown(1970, d)
  }

  /** The month of year `y` containing day `doy` of that year, searching
      upwards from month `m`. */
  function FindMonth(y: int, doy: int, m: int): (r: int)
    requires 0 <= m < 12
    requires DaysBeforeMonth(y, m) <= doy < DaysInYear(y)
    ensures m <= r < 12
    ensures DaysBeforeMonth(y, r) <= doy < DaysBeforeMonth(y, r + 1)
    decreases 12 - m
  {
    YearIsTwelveMonths(y);
    if doy < DaysBeforeMonth(y, m + 1) then m else FindMonth(y, doy, m + 1)
  }

  /** A calendar month: a year and a month index 0..11. */
  datatype YearMonth = YearMonth(year: int, month: int) {
    ghost predicate Valid() { 0 <= month < 12 }
  }

  /** Day number of the first day of the month. */
  function MonthStartDay(ym: YearMonth): int
    requires ym.Valid()
  {
    YearStart(ym.year) + DaysBeforeMonth(ym.year, ym.month)
  }

  /** Day number of the first day of the following month. */
  function NextMonthStartDay(ym: YearMonth): (d: int)
    requires ym.Valid()
    ensures d == MonthStartDay(ym) + DaysInMonth(ym.year, ym.month)
  {
    YearStart(ym.year) + DaysBeforeMonth(ym.year, ym.month + 1)
  }

  // DayOf and DayStart write the day length as a literal rather than
  // DAY_MS: the solver handles multiplication by a literal linearly, but
  // multiplication by a named constant as a nonlinear product.

  /** The UTC day number of the instant `t`. */
  function DayOf(t: int): int {
    t / 86_400_000
  }

  /** The first millisecond of day `d`. */
  function DayStart(d: int): int {
    d * 86_400_000
  }

  /** The instants on day `d` or later are those from the start of day `d`
      on. */
  lemma DayOfBounds(t: int, d: int)
    ensures DayOf(t) >= d <==> t >= DayStart(d)
  {
    var q, m := t / 86_400_000, t % 86_400_000;
    assert t == DayStart(q) + m && 0 <= m < 86_400_000;
    if q >= d {
      assert DayStart(q) >= DayStart(d);
    } else {
      assert DayStart(q) <= DayStart(d - 1);
    }
  }

  /** Consecutive days start one day length apart. */
  lemma DayStartStep(d: int)
    ensures DayStart(d + 1) == DayStart(d) + DAY_MS
  {
  }

  /** `t` falls on a day of the month `ym`. */
  ghost predicate InMonth(t: int, ym: YearMonth)
    requires ym.Valid()
  {
    MonthStartDay(ym) <= DayOf(t) < NextMonthStartDay(ym)
  }

  /** The UTC calendar month of the instant `t`. */
  function MonthOf(t: int): (ym: YearMonth)
    ensures ym.Valid()
    ensures InMonth(t, ym)
  {
    var d := DayOf(t);
    var y := YearOf(d);
    var doy := d - YearStart(y);
    YearStartStep(y);
    assert 0 <= doy < DaysInYear(y);
    var m := FindMonth(y, doy, 0);
    assert DaysBeforeMonth(y, m) <= doy < DaysBeforeMonth(y, m + 1);
    YearMonth(y, m)
  }

  ghost predicate Earlier(a: YearMonth, b: YearMonth) {
    a.year < b.year || (a.year == b.year && a.month < b.month)
  }

  /** An earlier month ends no later than a later month begins. */
  lemma MonthsOrdered(a: YearMonth, b: YearMonth)
    requires a.Valid() && b.Valid() && Earlier(a, b)
    ensures NextMonthStartDay(a) <= MonthStartDay(b)
  {
    if a.year == b.year {
      DaysBeforeMonthMonotone(a.year, a.month + 1, b.month);
    } else {
      DaysBeforeMonthMonotone(a.year, a.month + 1, 12);
      YearIsTwelveMonths(a.year);
      YearStartStep(a.year);
      YearStartMonotone(a.year + 1, b.year);
    }
  }

  /** Months do not overlap: `MonthOf(t)` is the only month containing `t`. */
  lemma MonthOfUnique(t: int, ym: YearMonth)
    requires ym.Valid()
    ensures MonthOf(t) == ym <==> InMonth(t, ym)
  {
    var a := MonthOf(t);
    if InMonth(t, ym) && a != ym {
      if Earlier(a, ym) {
        MonthsOrdered(a, ym);
      } else {
        MonthsOrdered(ym, a);
      }
    }
  }
}
