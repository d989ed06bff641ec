/** Day numbers of the proleptic Gregorian calendar from 1 January of year 0,
    standing for Go's midnight-UTC times. */
module Gregorian {

  predicate IsLeap(y: nat) {
    y % 4 == 0 && (y % 100 != 0 || y % 400 == 0)
  }

  function YearLength(y: nat): nat {
    if IsLeap(y) then 366 else 365
  }

  /** Day number of 1 January of y. */
  function YearStart(y: nat): nat {
    if y == 0 then 0 else YearStart(y - 1) + YearLength(y - 1)
  }

  function MonthLength(y: nat, month: nat): (n: nat)
    requires 1 <= month <= 12
    ensures 28 <= n <= 31
  {
    if month == 2 then (if IsLeap(y) then 29 else 28)
    else if month in {4, 6, 9, 11} then 30 else 31
  }

  /** Days of year y before the first of `month`. */
  function MonthStart(y: nat, month: nat): (n: nat)
    requires 1 <= month <= 13
    ensures n <= 31 * (month - 1)
  {
    if month == 1 then 0 else MonthStart(y, month - 1) + MonthLength(y, month - 1)
  }

  function DayNumber(y: nat, month: nat, day: nat): nat
    requires 1 <= month <= 12 && 1 <= day
  {
    YearStart(y) + MonthStart(y, month) + day - 1
  }

  /** Go's Weekday: Sunday is 0. 1 January of year 0 is a Saturday. */
  function Weekday(n: nat): nat {
    (n + 6) % 7
  }

  /** The year a day number falls in. */
  function Year(n: nat): (y: nat)
    ensures YearStart(y) <= n < YearStart(y + 1)
  {
    YearFrom(n, 0)
  }

  function YearFrom(n: nat, y: nat): (r: nat)
    requires YearStart(y) <= n
    ensures y <= r && YearStart(r) <= n < YearStart(r + 1)
    decreases n - YearStart(y)
  {
    if n < YearStart(y + 1) then y else YearFrom(n, y + 1)
  }

  lemma {:induction false} YearStartMonotone(y: nat, z: nat)
    requires y <= z
    ensures YearStart(y) + 365 * (z - y) <= YearStart(z)
    decreases z - y
  {
    if y < z { YearStartMonotone(y, z - 1); }
  }

  lemma YearUnique(n: nat, y: nat)
    requires YearStart(y) <= n < YearStart(y + 1)
    ensures Year(n) == y
  {
    if Year(n) < y { YearStartMonotone(Year(n) + 1, y); }
    if y < Year(n) { YearStartMonotone(y + 1, Year(n)); }
  }

  lemma MonthStarts(y: nat)
    ensures var leap := if IsLeap(y) then 1 else 0;
      && MonthStart(y, 3) == 59 + leap && MonthStart(y, 4) == 90 + leap && MonthStart(y, 5) == 120 + leap
      && MonthStart(y, 6) == 151 + leap && MonthStart(y, 7) == 181 + leap && MonthStart(y, 8) == 212 + leap
      && MonthStart(y, 9) == 243 + leap && MonthStart(y, 10) == 273 + leap && MonthStart(y, 11) == 304 + leap
      && MonthStart(y, 12) == 334 + leap && MonthStart(y, 13) == YearLength(y)
  {
  }

  /** The closed form: leap days come every 4 years, less every 100, plus every 400. */
  lemma {:induction false} MarchFirst(y: nat)
    ensures DayNumber(y, 3, 1) == 60 + 365 * y + y / 4 - y / 100 + y / 400
  {
    MonthStarts(y);
    if y > 0 {
      MarchFirst(y - 1);
      MonthStarts(y - 1);
      LeapDays(y);
    }
  }

  lemma LeapDays(y: nat)
    requires y > 0
    ensures y / 4 - y / 100 + y / 400 - ((y - 1) / 4 - (y - 1) / 100 + (y - 1) / 400) == if IsLeap(y) then 1 else 0
  {
    Carry4(y);
    Carry100(y);
    Carry400(y);
    CarriesNest(y);
    hide *;
    LeapBy(y);
  }

  lemma LeapBy(y: nat)
    ensures IsLeap(y) <==> y % 4 == 0 && (y % 100 != 0 || y % 400 == 0)
  {
  }

  lemma CarriesNest(y: nat)
    ensures y % 400 == 0 ==> y % 100 == 0
    ensures y % 100 == 0 ==> y % 4 == 0
  {
    if y % 400 == 0 { HundredsOf(y / 400); }
    if y % 100 == 0 { FoursOf(y / 100); }
  }

  lemma HundredsOf(q: nat)
    ensures (400 * q) % 100 == 0
  {
  }

  lemma FoursOf(q: nat)
    ensures (100 * q) % 4 == 0
  {
  }

  lemma Carry4(y: nat)
    requires y > 0
    ensures y / 4 - (y - 1) / 4 == if y % 4 == 0 then 1 else 0
  {
  }

  lemma Carry100(y: nat)
    requires y > 0
    ensures y / 100 - (y - 1) / 100 == if y % 100 == 0 then 1 else 0
  {
  }

  lemma Carry400(y: nat)
    requires y > 0
    ensures y / 400 - (y - 1) / 400 == if y % 400 == 0 then 1 else 0
  {
  }

  // ----- months and days of a day number

  function Month(d: nat): (m: nat)
    ensures 1 <= m <= 12 && MonthStart(Year(d), m) <= d - YearStart(Year(d)) < MonthStart(Year(d), m + 1)
  {
    MonthStarts(Year(d));
    MonthFrom(Year(d), d - YearStart(Year(d)), 1)
  }

  function MonthFrom(y: nat, day: nat, m: nat): (r: nat)
    requires 1 <= m <= 12 && MonthStart(y, m) <= day < MonthStart(y, 13)
    ensures m <= r <= 12 && MonthStart(y, r) <= day < MonthStart(y, r + 1)
    decreases 12 - m
  {
    if day < MonthStart(y, m + 1) then m else MonthFrom(y, day, m + 1)
  }

  /** The first of a month; month 13 is January of the next year. */
  function FirstOf(y: nat, m: nat): nat
    requires 1 <= m <= 13
  {
    if m == 13 then DayNumber(y + 1, 1, 1) else DayNumber(y, m, 1)
  }

  lemma FirstOfIs(y: nat, m: nat)
    requires 1 <= m <= 13
    ensures FirstOf(y, m) == YearStart(y) + MonthStart(y, m)
  {
    MonthStarts(y);
  }

  lemma {:induction false} MonthStartMonotone(y: nat, m: nat, n: nat)
    requires 1 <= m <= n <= 13
    ensures MonthStart(y, m) <= MonthStart(y, n)
    decreases n - m
  {
    if m < n { MonthStartMonotone(y, m, n - 1); }
  }

  lemma YearEnd(y: nat)
    ensures MonthStart(y, 1) == 0 && YearStart(y) + MonthStart(y, 13) == YearStart(y + 1)
  {
    MonthStarts(y);
  }

  lemma MonthUnique(d: nat, y: nat, m: nat)
    requires 1 <= m <= 12 && FirstOf(y, m) <= d < FirstOf(y, m + 1)
    ensures Year(d) == y && Month(d) == m
  {
    hide MonthStart, YearStart, FirstOf, IsLeap, YearLength;
    FirstOfIs(y, m);
    FirstOfIs(y, m + 1);
    YearEnd(y);
    MonthStartMonotone(y, 1, m);
    MonthStartMonotone(y, m + 1, 13);
    YearUnique(d, y);
    if Month(d) < m { MonthStartMonotone(y, Month(d) + 1, m); }
    if m < Month(d) { MonthStartMonotone(y, m + 1, Month(d)); }
  }

  lemma MonthHolds(d: nat)
    ensures FirstOf(Year(d), Month(d)) <= d < FirstOf(Year(d), Month(d) + 1)
  {
  }

  /** The day of the month. */
  function Day(d: nat): (n: nat)
    ensures n >= 1
  {
    MonthHolds(d);
    d - FirstOf(Year(d), Month(d)) + 1
  }

  /** Year, month and day name the date. */
  lemma DateIs(d: nat, y: nat, m: nat, day: nat)
    requires 1 <= m <= 12 && 1 <= day <= MonthLength(y, m)
    ensures d == DayNumber(y, m, day) <==> Year(d) == y && Month(d) == m && Day(d) == day
  {
    hide Year, Month, FirstOf, MonthStart, YearStart, IsLeap, YearLength;
    MonthHolds(d);
    FirstOfIs(y, m);
    FirstOfIs(y, m + 1);
    MonthStep(y, m);
    if d == DayNumber(y, m, day) { MonthUnique(d, y, m); }
  }

  lemma MonthStep(y: nat, m: nat)
    requires 1 <= m <= 12
    ensures MonthStart(y, m + 1) == MonthStart(y, m) + MonthLength(y, m)
  {
  }
}
