/** Proleptic Gregorian dates as Python's `datetime.date` has them: validity,
    day numbers for subtraction, comparison, and the `strftime` renderings
    the services use. */
module Calendar {
  import opened Text
  import Sorting

  datatype Date = Date(year: int, month: int, day: int)

  predicate IsLeap(y: int) {
    y % 4 == 0 && (y % 100 != 0 || y % 400 == 0)
  }

  function DaysInMonth(y: int, m: int): (r: int)
    ensures 28 <= r <= 31
    ensures m == 2 ==> (r == 29 <==> IsLeap(y))
  {
    if m == 2 then (if IsLeap(y) then 29 else 28)
    else if m == 4 || m == 6 || m == 9 || m == 11 then 30
    else 31
  }

  /** What `date(year, month, day)` accepts without raising ValueError. */
  predicate ValidDate(d: Date) {
    1 <= d.year <= 9999 && 1 <= d.month <= 12 && 1 <= d.day <= DaysInMonth(d.year, d.month)
  }

  /** Days of the months before `m` in year `y`. */
  function DaysBeforeMonth(y: int, m: int): (r: nat)
    decreases m
  {
    if m <= 1 then 0 else DaysBeforeMonth(y, m - 1) + DaysInMonth(y, m - 1)
  }

  function DaysInYear(y: int): nat {
    DaysBeforeMonth(y, 13)
  }

  /** Days of the years before `y`, counting from year 1. */
  function DaysBeforeYear(y: int): (r: nat)
    decreases y
  {
    if y <= 1 then 0 else DaysBeforeYear(y - 1) + DaysInYear(y - 1)
  }

  /** The day number `date.toordinal()` gives; `(a - b).days` is the
      difference of two of them. */
  function Ordinal(d: Date): int {
    DaysBeforeYear(d.year) + DaysBeforeMonth(d.year, d.month) + d.day
  }

  /** `a < b` on dates: year, then month, then day. */
  predicate DateLt(a: Date, b: Date) {
    a.year < b.year || (a.year == b.year && (a.month < b.month || (a.month == b.month && a.day < b.day)))
  }

  predicate DateLe(a: Date, b: Date) {
    DateLt(a, b) || a == b
  }

  lemma DateLeIsTotalPreorder()
    ensures Sorting.TotalPreorder(DateLe)
  {
  }

  lemma {:induction false} DaysBeforeMonthMonotone(y: int, m1: int, m2: int)
    requires m1 <= m2
    ensures DaysBeforeMonth(y, m1) <= DaysBeforeMonth(y, m2)
    decreases m2 - m1
  {
    if m1 < m2 {
      DaysBeforeMonthMonotone(y, m1, m2 - 1);
    }
  }

  lemma {:induction false} DaysBeforeYearMonotone(y1: int, y2: int)
    requires y1 <= y2
    ensures DaysBeforeYear(y1) <= DaysBeforeYear(y2)
    decreases y2 - y1
  {
    if y1 < y2 {
      DaysBeforeYearMonotone(y1, y2 - 1);
    }
  }

  /** A valid date lies inside its year's span of day numbers. */
  lemma OrdinalWithinYear(d: Date)
    requires ValidDate(d)
    ensures DaysBeforeYear(d.year) < Ordinal(d) <= DaysBeforeYear(d.year + 1)
  {
    var y := d.year;
    MonthStep(y, d.month);
    DaysBeforeMonthMonotone(y, d.month + 1, 13);
    YearStep(y);
    assert DaysBeforeMonth(y, d.month) + d.day <= DaysInYear(y);
  }

  lemma MonthStep(y: int, m: int)
    requires m >= 1
    ensures DaysBeforeMonth(y, m + 1) == DaysBeforeMonth(y, m) + DaysInMonth(y, m)
  {
  }

  lemma YearStep(y: int)
    requires y >= 1
    ensures DaysBeforeYear(y + 1) == DaysBeforeYear(y) + DaysInYear(y)
  {
  }

  lemma OrdinalYearOrder(a: Date, b: Date)
    requires ValidDate(a) && ValidDate(b)
    requires a.year < b.year
    ensures Ordinal(a) < Ordinal(b)
  {
    OrdinalWithinYear(a);
    DaysBeforeYearMonotone(a.year + 1, b.year);
    assert DaysBeforeYear(b.year) < Ordinal(b);
  }

  lemma OrdinalMonthOrder(a: Date, b: Date)
    requires ValidDate(a) && ValidDate(b)
    requires a.year == b.year && a.month < b.month
    ensures Ordinal(a) < Ordinal(b)
  {
    DaysBeforeMonthMonotone(a.year, a.month + 1, b.month);
    assert DaysBeforeMonth(a.year, a.month + 1) == DaysBeforeMonth(a.year, a.month) + DaysInMonth(a.year, a.month);
  }

  /** An earlier date has a smaller day number. */
  lemma OrdinalStrict(a: Date, b: Date)
    requires ValidDate(a) && ValidDate(b)
    requires DateLt(a, b)
    ensures Ordinal(a) < Ordinal(b)
  {
    if a.year < b.year {
      OrdinalYearOrder(a, b);
    } else if a.month < b.month {
      OrdinalMonthOrder(a, b);
    }
  }

  /** Date order is day-number order, so `(b - a).days` is positive exactly
      when `a < b`. */
  lemma OrdinalOrder(a: Date, b: Date)
    requires ValidDate(a) && ValidDate(b)
    ensures DateLt(a, b) <==> Ordinal(a) < Ordinal(b)
    ensures a == b <==> Ordinal(a) == Ordinal(b)
  {
    if DateLt(a, b) {
      OrdinalStrict(a, b);
    } else if DateLt(b, a) {
      OrdinalStrict(b, a);
    }
  }

  /** Within one month, day numbers differ by the difference of the days. */
  lemma SameMonthDistance(y: int, m: int, d1: int, d2: int)
    ensures Ordinal(Date(y, m, d2)) - Ordinal(Date(y, m, d1)) == d2 - d1
  {
  }

  /** Four-digit rendering, as `%Y` gives for the years 1000 to 9999. */
  function Pad4(n: nat): (r: string)
    requires n < 10000
    ensures |r| == 4 && forall k :: 0 <= k < 4 ==> IsDigit(r[k])
  {
    Pad2(n / 100) + Pad2(n % 100)
  }

  /** `strftime("%d.%m")`. */
  function FormatDM(d: Date): (r: string)
    requires ValidDate(d)
    ensures |r| == 5 && r[2] == '.' && '.' !in r[..2] && '.' !in r[3..]
    ensures r[..2] == Pad2(d.day) && r[3..] == Pad2(d.month)
  {
    Pad2(d.day) + "." + Pad2(d.month)
  }

  /** `strftime("%d.%m.%Y")`. */
  function FormatDMY(d: Date): (r: string)
    requires ValidDate(d)
    ensures |r| == 10 && r[..5] == FormatDM(d) && r[5] == '.'
    ensures forall k :: 0 <= k < 10 && k != 2 && k != 5 ==> IsDigit(r[k])
  {
    FormatDM(d) + "." + Pad4(d.year)
  }

  /** Distinct valid dates render to distinct `%d.%m.%Y` strings. */
  lemma FormatDMYInjective(a: Date, b: Date)
    requires ValidDate(a) && ValidDate(b)
    requires FormatDMY(a) == FormatDMY(b)
    ensures a == b
  {
    var sa, sb := FormatDMY(a), FormatDMY(b);
    assert Pad2(a.day) == sa[0..2] == sb[0..2] == Pad2(b.day);
    assert Pad2(a.month) == sa[3..5] == sb[3..5] == Pad2(b.month);
    assert Pad4(a.year) == sa[6..] == sb[6..] == Pad4(b.year);
    assert Pad2(a.year / 100) == Pad4(a.year)[..2];
    assert Pad2(b.year / 100) == Pad4(b.year)[..2];
    assert Pad2(a.year % 100) == Pad4(a.year)[2..];
    assert Pad2(b.year % 100) == Pad4(b.year)[2..];
  }
}
