/** Calendar dates from day counts, with the month lengths and the leap rule of RFC 3339 (section 5.7, Appendix C). */
module CivilDate {

  predicate IsLeap(y: nat) {
    y % 4 == 0 && (y % 100 != 0 || y % 400 == 0)
  }

  function YearDays(y: nat): nat {
    if IsLeap(y) then 366 else 365
  }

  function MonthDays(y: nat): (m: seq<nat>)
    ensures |m| == 12
  {
    [31, if IsLeap(y) then 29 else 28, 31, 30, 31, 30, 31, 31, 30, 31, 30, 31]
  }

  datatype Date = Date(year: nat, month: nat, day: nat)

  predicate ValidDate(d: Date) {
    d.year >= 1970 && 1 <= d.month <= 12 && 1 <= d.day <= MonthDays(d.year)[d.month - 1]
  }

  // --- Counting days -----------------------------------------------------------------------------

  /** Days from the start of 1970 to the start of year `y`. */
  function YearStart(y: nat): nat
    requires y >= 1970
  {
    if y == 1970 then 0 else YearStart(y - 1) + YearDays(y - 1)
  }

  /** Days from the start of a year to the start of its month number `m` + 1. */
  function MonthStart(y: nat, m: nat): nat
    requires m <= 12
  {
    if m == 0 then 0 else MonthStart(y, m - 1) + MonthDays(y)[m - 1]
  }

  function DayNumber(d: Date): nat
    requires ValidDate(d)
  {
    YearStart(d.year) + MonthStart(d.year, d.month - 1) + d.day - 1
  }

  /** Each year adds 365 days, each multiple of 4 one more, except centuries not divisible by 400. */
  lemma {:induction false} YearStartClosedForm(y: nat)
    requires y >= 1970
    ensures YearStart(y) == 365 * (y - 1970) + (y - 1) / 4 - (y - 1) / 100 + (y - 1) / 400 - 477
  {
    if y > 1970 {
      YearStartClosedForm(y - 1);
      var x := y - 1;
      assert x / 4 == (x - 1) / 4 + if x % 4 == 0 then 1 else 0;
      assert x / 100 == (x - 1) / 100 + if x % 100 == 0 then 1 else 0;
      assert x / 400 == (x - 1) / 400 + if x % 400 == 0 then 1 else 0;
    }
  }

  /** Where each month begins, without the table of month lengths. */
  lemma {:induction false} MonthStartClosedForm(y: nat, m: nat)
    requires 1 <= m <= 12
    ensures MonthStart(y, m - 1) == (367 * m - 362) / 12 - if m <= 2 then 0 else if IsLeap(y) then 1 else 2
  {
    if m > 1 { MonthStartClosedForm(y, m - 1); }
  }

  lemma {:induction false} MonthsFillYear(y: nat)
    ensures MonthStart(y, 12) == YearDays(y)
  {
    var feb := MonthDays(y)[1];
    assert MonthStart(y, 1) == 31;
    assert MonthStart(y, 2) == 31 + feb;
    assert MonthStart(y, 4) == 92 + feb;
    assert MonthStart(y, 6) == 153 + feb;
    assert MonthStart(y, 8) == 215 + feb;
    assert MonthStart(y, 10) == 276 + feb;
  }

  lemma {:induction false} MonthStartGrows(y: nat, m: nat, n: nat)
    requires m <= n <= 12
    ensures MonthStart(y, m) <= MonthStart(y, n)
  {
    if m < n { MonthStartGrows(y, m, n - 1); }
  }

  lemma {:induction false} YearStartGrows(y: nat, z: nat)
    requires 1970 <= y <= z
    ensures YearStart(y) <= YearStart(z)
  {
    if y < z { YearStartGrows(y, z - 1); }
  }

  predicate Earlier(a: Date, b: Date) {
    a.year < b.year || (a.year == b.year && (a.month < b.month || (a.month == b.month && a.day < b.day)))
  }

  lemma InYear(d: Date)
    requires ValidDate(d)
    ensures YearStart(d.year) <= DayNumber(d) < YearStart(d.year + 1)
  {
    MonthStartGrows(d.year, d.month, 12);
    MonthsFillYear(d.year);
  }

  /** Later dates have larger day numbers, and only they do. */
  lemma DayNumberOrders(a: Date, b: Date)
    requires ValidDate(a) && ValidDate(b)
    ensures Earlier(a, b) <==> DayNumber(a) < DayNumber(b)
  {
    if Earlier(a, b) { EarlierIsLess(a, b); }
    if Earlier(b, a) { EarlierIsLess(b, a); }
  }

  lemma EarlierIsLess(a: Date, b: Date)
    requires ValidDate(a) && ValidDate(b) && Earlier(a, b)
    ensures DayNumber(a) < DayNumber(b)
  {
    InYear(a);
    InYear(b);
    if a.year < b.year {
      YearStartGrows(a.year + 1, b.year);
    } else if a.month < b.month {
      MonthStartGrows(a.year, a.month, b.month - 1);
    }
  }

  // --- The conversion ----------------------------------------------------------------------------

  /** The date with the given day number; every day count has one. */
  method DaysToYmd(count: nat) returns (d: Date)
    ensures ValidDate(d) && DayNumber(d) == count
  {
    var days: nat := count;
    var year := 1970;
    while days >= YearDays(year)
      invariant year >= 1970 && YearStart(year) + days == count
      decreases days
    {
      days := days - YearDays(year);
      year := year + 1;
    }
    ghost var dayOfYear := days;
    MonthsFillYear(year);
    var lengths := MonthDays(year);
    var month := 1;
    while month <= 12 && days >= lengths[month - 1]
      invariant 1 <= month <= 13 && MonthStart(year, month - 1) + days == dayOfYear
    {
      days := days - lengths[month - 1];
      month := month + 1;
    }
    d := Date(year, month, days + 1);
  }

  /** Converting the day number of a date gives that date back. */
  method DateSurvives(d: Date) returns (back: Date)
    requires ValidDate(d)
    ensures back == d
  {
    back := DaysToYmd(DayNumber(d));
    DayNumberOrders(d, back);
    DayNumberOrders(back, d);
  }

  /** Of two day counts the larger gives the later date. */
  method DaysInOrder(m: nat, n: nat) returns (a: Date, b: Date)
    ensures ValidDate(a) && ValidDate(b) && (m < n <==> Earlier(a, b))
  {
    a := DaysToYmd(m);
    b := DaysToYmd(n);
    DayNumberOrders(a, b);
  }
}
