/**
 * Calendar arithmetic on day numbers.  A `Date` counts days from 0001-01-01
 * of the proleptic Gregorian calendar (day 0, a Monday), which is the
 * calendar Ruby's `Date` uses for every date the plugin handles.
 */
module Dates {
  type Date = int

  /** ISO weekday, 1 = Monday .. 7 = Sunday (Ruby's `Date#cwday`). */
  function CwDay(d: Date): (w: int)
    ensures 1 <= w <= 7
  {
    d % 7 + 1
  }

  /** An inclusive range of days `first..last`; empty when `last < first`. */
  datatype Span = Span(first: Date, last: Date) {
    predicate IsEmpty() { last < first }

    predicate Contains(d: Date) { first <= d <= last }

    function Length(): nat { if last < first then 0 else last - first + 1 }

    function Days(): set<Date> { set d | first <= d <= last && Contains(d) }
  }

  /** The number of days of a range is its length. */
  lemma {:induction false} DaysCardinality(s: Span)
    ensures |s.Days()| == s.Length()
    decreases s.Length()
  {
    if s.last < s.first {
      assert s.Days() == {};
    } else {
      var t := Span(s.first, s.last - 1);
      DaysCardinality(t);
      assert s.Days() == t.Days() + {s.last};
    }
  }

  // ---------------------------------------------------------------------
  // Years and months

  predicate IsLeapYear(y: int) {
    y % 4 == 0 && (y % 100 != 0 || y % 400 == 0)
  }

  function DaysInMonth(y: int, m: int): (n: int)
    requires 1 <= m <= 12
    ensures 28 <= n <= 31
    ensures n == 29 <==> m == 2 && IsLeapYear(y)
  {
    if m == 2 then (if IsLeapYear(y) then 29 else 28)
    else if m == 4 || m == 6 || m == 9 || m == 11 then 30
    else 31
  }

  /** Days of year `y` that precede the first of month `m`. */
  function DaysBeforeMonth(y: int, m: int): int
    requires 1 <= m <= 12
  {
    (if m == 1 then 0 else if m == 2 then 31 else if m == 3 then 59
     else if m == 4 then 90 else if m == 5 then 120 else if m == 6 then 151
     else if m == 7 then 181 else if m == 8 then 212 else if m == 9 then 243
     else if m == 10 then 273 else if m == 11 then 304 else 334)
    + (if m > 2 && IsLeapYear(y) then 1 else 0)
  }

  /** Days from 0001-01-01 to the first of January of year `y`. */
  function DaysBeforeYear(y: int): int {
    365 * (y - 1) + (y - 1) / 4 - (y - 1) / 100 + (y - 1) / 400
  }

  lemma LeapDivisors(y: int)
    ensures y / 4 - (y - 1) / 4 == (if y % 4 == 0 then 1 else 0)
    ensures y / 100 - (y - 1) / 100 == (if y % 100 == 0 then 1 else 0)
    ensures y / 400 - (y - 1) / 400 == (if y % 400 == 0 then 1 else 0)
    ensures y % 100 == 0 ==> y % 4 == 0
    ensures y % 400 == 0 ==> y % 100 == 0
  {
  }

  lemma YearLength(y: int)
    ensures DaysBeforeYear(y + 1) == DaysBeforeYear(y) + (if IsLeapYear(y) then 366 else 365)
  {
    LeapDivisors(y);
  }

  /** Month number `k` counts months from January of year 1 (k = 12 * (year - 1) + month - 1). */
  function YearOfMonth(k: int): int { k / 12 + 1 }

  function MonthOfMonth(k: int): (m: int)
    ensures 1 <= m <= 12
  {
    k % 12 + 1
  }

  function MonthLength(k: int): (n: int)
    ensures 28 <= n <= 31
  {
    DaysInMonth(YearOfMonth(k), MonthOfMonth(k))
  }

  /** The first day of month number `k`: month 0 starts on day 0 and each month follows the one before. */
  function MonthStart(k: int): Date
    decreases if k < 0 then -k else k
  {
    if k == 0 then 0
    else if k > 0 then MonthStart(k - 1) + MonthLength(k - 1)
    else MonthStart(k + 1) - MonthLength(k)
  }

  lemma MonthStartStep(k: int)
    ensures MonthStart(k + 1) == MonthStart(k) + MonthLength(k)
  {
  }

  /** The first of the month in closed form, from the year and the month. */
  function CivilMonthStart(y: int, m: int): Date
    requires 1 <= m <= 12
  {
    DaysBeforeYear(y) + DaysBeforeMonth(y, m)
  }

  function Civil(k: int): Date {
    CivilMonthStart(YearOfMonth(k), MonthOfMonth(k))
  }

  lemma CivilMonthStep(k: int)
    ensures Civil(k + 1) == Civil(k) + MonthLength(k)
  {
    if k % 12 == 11 {
      assert (k + 1) / 12 == k / 12 + 1 && (k + 1) % 12 == 0;
      YearLength(k / 12 + 1);
    } else {
      assert (k + 1) / 12 == k / 12 && (k + 1) % 12 == k % 12 + 1;
    }
  }

  /** The recursive month start agrees with the civil closed form. */
  lemma {:induction false} MonthStartCivil(k: int)
    ensures MonthStart(k) == Civil(k)
    decreases if k < 0 then -k else k
  {
    if k > 0 {
      MonthStartCivil(k - 1);
      CivilMonthStep(k - 1);
      assert MonthStart(k) == MonthStart(k - 1) + MonthLength(k - 1);
    } else if k < 0 {
      MonthStartCivil(k + 1);
      CivilMonthStep(k);
      assert MonthStart(k) == MonthStart(k + 1) - MonthLength(k);
    }
  }

  lemma {:induction false} MonthStartMonotone(k: int, j: int)
    requires k < j
    ensures MonthStart(k + 1) <= MonthStart(j)
    decreases j - k
  {
    if k + 1 < j {
      MonthStartMonotone(k + 1, j);
      MonthStartStep(k + 1);
    }
  }

  function MonthSearchUp(d: Date, k: int): (r: int)
    requires MonthStart(k) <= d
    ensures MonthStart(r) <= d < MonthStart(r + 1)
    decreases d - MonthStart(k)
  {
    MonthStartStep(k);
    if d < MonthStart(k + 1) then k else MonthSearchUp(d, k + 1)
  }

  function MonthSearchDown(d: Date, k: int): (r: int)
    requires d < MonthStart(k + 1)
    ensures MonthStart(r) <= d < MonthStart(r + 1)
    decreases MonthStart(k) - d
  {
    MonthStartStep(k - 1);
    if MonthStart(k) <= d then k else MonthSearchDown(d, k - 1)
  }

  lemma MonthIndexExists(d: Date)
    ensures exists k :: MonthStart(k) <= d < MonthStart(k + 1)
  {
    var guess := d / 31;
    var k := if MonthStart(guess) <= d then MonthSearchUp(d, guess) else MonthSearchDown(d, guess - 1);
    assert MonthStart(k) <= d < MonthStart(k + 1);
  }

  /** A day lies in exactly one month. */
  lemma MonthIndexesAgree(d: Date, k: int, j: int)
    requires MonthStart(k) <= d < MonthStart(k + 1)
    requires MonthStart(j) <= d < MonthStart(j + 1)
    ensures k == j
  {
    if j < k {
      MonthStartMonotone(j, k);
    } else if k < j {
      MonthStartMonotone(k, j);
    }
  }

  /** The number of the month that contains day `d`. */
  function MonthIndexOf(d: Date): (k: int)
    ensures MonthStart(k) <= d < MonthStart(k + 1)
  {
    MonthIndexExists(d);
    forall k, j | MonthStart(k) <= d < MonthStart(k + 1) && MonthStart(j) <= d < MonthStart(j + 1)
      ensures k == j
    {
      MonthIndexesAgree(d, k, j);
    }
    var k :| MonthStart(k) <= d < MonthStart(k + 1); k
  }

  lemma MonthIndexUnique(d: Date, k: int)
    requires MonthStart(k) <= d < MonthStart(k + 1)
    ensures MonthIndexOf(d) == k
  {
    MonthIndexesAgree(d, k, MonthIndexOf(d));
  }

  /** The day of year `y`, month `m`, day-of-month `dd`. */
  function DateOf(y: int, m: int, dd: int): Date
    requires 1 <= m <= 12
  {
    CivilMonthStart(y, m) + dd - 1
  }

  /** Ruby's `beginning_of_month`. */
  function FirstOfMonth(d: Date): (r: Date)
    ensures r <= d && MonthIndexOf(r) == MonthIndexOf(d)
    ensures d - r < 31
  {
    var k := MonthIndexOf(d);
    MonthStartStep(k);
    MonthIndexUnique(MonthStart(k), k);
    MonthStart(k)
  }

  /** Ruby's `end_of_month`. */
  function EndOfMonth(d: Date): (r: Date)
    ensures d <= r && MonthIndexOf(r) == MonthIndexOf(d)
    ensures MonthIndexOf(r + 1) == MonthIndexOf(d) + 1
  {
    var k := MonthIndexOf(d);
    MonthStartStep(k);
    MonthStartStep(k + 1);
    MonthIndexUnique(MonthStart(k + 1) - 1, k);
    MonthIndexUnique(MonthStart(k + 1), k + 1);
    MonthStart(k + 1) - 1
  }

  /** Ruby's `beginning_of_month.next_month`: the first day of the following month. */
  function BeginningOfNextMonth(d: Date): (r: Date)
    ensures d < r && MonthIndexOf(r) == MonthIndexOf(d) + 1 && FirstOfMonth(r) == r
  {
    var k := MonthIndexOf(d);
    MonthStartStep(k + 1);
    MonthIndexUnique(MonthStart(k + 1), k + 1);
    MonthStart(k + 1)
  }

  /** Ruby's `Date#day`: the position of a day inside its month, from 1. */
  function DayOfMonth(d: Date): (n: int)
    ensures 1 <= n <= 31
  {
    d - FirstOfMonth(d) + 1
  }

  lemma MonthNumberOf(y: int, m: int)
    requires 1 <= m <= 12
    ensures YearOfMonth(12 * (y - 1) + m - 1) == y && MonthOfMonth(12 * (y - 1) + m - 1) == m
  {
  }

  lemma {:induction false} CivilMonthNumber(y: int, m: int)
    requires 1 <= m <= 12
    ensures MonthStart(12 * (y - 1) + m - 1) == CivilMonthStart(y, m)
    ensures MonthLength(12 * (y - 1) + m - 1) == DaysInMonth(y, m)
  {
    var k := 12 * (y - 1) + m - 1;
    MonthNumberOf(y, m);
    MonthStartCivil(k);
  }

  /** The civil constructor agrees with the month search and with `Date#day`. */
  lemma {:induction false} DateOfMonth(y: int, m: int, dd: int)
    requires 1 <= m <= 12 && 1 <= dd <= DaysInMonth(y, m)
    ensures MonthIndexOf(DateOf(y, m, dd)) == 12 * (y - 1) + m - 1
    ensures DayOfMonth(DateOf(y, m, dd)) == dd
  {
    var k := 12 * (y - 1) + m - 1;
    CivilMonthNumber(y, m);
    MonthStartStep(k);
    MonthIndexUnique(DateOf(y, m, dd), k);
  }
}
