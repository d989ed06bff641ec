/** internal/workcal/pl.go: Easter, the Polish public holidays and working days. */
module WorkCalendar {
  import opened Gregorian
  import opened Strings

  datatype Holiday = Holiday(date: nat, name: string)

  // ----- Easter

  datatype EasterTerms = EasterTerms(a: nat, b: nat, c: nat, d: nat, e: nat, g: int, h: nat, i: nat, k: nat, l: nat,
    m: int)

  /** The intermediate values of the anonymous Gregorian algorithm. */
  function Terms(year: nat): EasterTerms {
    var a := year % 19;
    var b := year / 100;
    var c := year % 100;
    var d := b / 4;
    var e := b % 4;
    var f := (b + 8) / 25;
    var g := (b - f + 1) / 3;
    var h := (19 * a + b - d - g + 15) % 30;
    var i := c / 4;
    var k := c % 4;
    var l := (32 + 2 * e + 2 * i - h - k) % 7;
    var m := (a + 11 * h + 22 * l) / 451;
    EasterTerms(a, b, c, d, e, g, h, i, k, l, m)
  }

  /** Every operand of / and % is non-negative, so Go's truncating division and
      Dafny's Euclidean one agree. */
  lemma NoNegativeDividend(year: nat)
    ensures var t := Terms(year);
      && t.b - (t.b + 8) / 25 + 1 >= 0
      && 19 * t.a + t.b - t.d - t.g + 15 >= 0
      && 32 + 2 * t.e + 2 * t.i - t.h - t.k >= 0
  {
  }

  /** Gauss's lunar correction: the moon falls back 8 days in 25 centuries. */
  lemma LunarCorrection(b: nat)
    ensures (b - (b + 8) / 25 + 1) / 3 == (8 * b + 13) / 25
  {
  }

  /** easter: a day number. The month comes out as 3 or 4 (EasterIsFirstSundayAfterFullMoon). */
  function EasterOffset(year: nat): int {
    var t := Terms(year);
    t.h + t.l - 7 * t.m + 114
  }

  lemma OffsetBounds(year: nat)
    ensures 114 <= EasterOffset(year) <= 148
    ensures 3 <= EasterOffset(year) / 31 <= 4
    ensures EasterOffset(year) == 114 + Terms(year).h + Terms(year).l - 7 * Terms(year).m
    ensures Terms(year).m == if Terms(year).l == 6 &&
      (Terms(year).h == 29 || (Terms(year).h == 28 && Terms(year).a > 10)) then 1 else 0
  {
  }

  function Easter(year: nat): nat {
    OffsetBounds(year);
    var n := EasterOffset(year);
    DayNumber(year, n / 31, n % 31 + 1)
  }

  // The reference: Lilius and Clavius' ecclesiastical full moon.

  function GoldenNumber(year: nat): nat { year % 19 + 1 }

  function Century(year: nat): nat { year / 100 + 1 }

  /** Age of the moon on 1 January, corrected for dropped leap days (solar) and
      for the drift of the 19-year cycle (lunar), then for the two ages that
      would repeat a full moon. */
  function Epact(year: nat): nat {
    var solar := 3 * Century(year) / 4 - 12;
    var lunar := (8 * Century(year) + 5) / 25 - 5;
    var epact := (11 * GoldenNumber(year) + 20 + lunar - solar) % 30;
    if epact == 24 || (epact == 25 && GoldenNumber(year) > 11) then epact + 1 else epact
  }

  /** Day of March of the first ecclesiastical full moon on or after 21 March. */
  function FullMoonOfMarch(year: nat): int {
    var n := 44 - Epact(year);
    if n < 21 then n + 30 else n
  }

  function FullMoon(year: nat): int {
    DayNumber(year, 3, 1) + FullMoonOfMarch(year) - 1
  }

  /** The uncorrected epact mirrors the code's h. */
  lemma RawEpact(year: nat)
    ensures var t := Terms(year);
      (11 * GoldenNumber(year) + 20 + ((8 * Century(year) + 5) / 25 - 5) - (3 * Century(year) / 4 - 12)) % 30 ==
      if t.h <= 23 then 23 - t.h else 53 - t.h
  {
    var t := Terms(year);
    var x := 19 * t.a + t.b - t.d - t.g + 15;
    assert t.h == x % 30 && t.d == t.b / 4 && t.g == (t.b - (t.b + 8) / 25 + 1) / 3;
    assert GoldenNumber(year) == t.a + 1 && Century(year) == t.b + 1;
    hide *;
    LunarCorrection(t.b);
    SolarCorrection(t.b);
    MirrorMod(x, t.a);
  }

  lemma SolarCorrection(b: nat)
    ensures 3 * (b + 1) / 4 == b - b / 4
  {
  }

  lemma MirrorMod(x: int, a: nat)
    ensures (30 * a + 53 - x) % 30 == if x % 30 <= 23 then 23 - x % 30 else 53 - x % 30
  {
  }

  lemma FullMoonFromTerms(year: nat)
    ensures var t := Terms(year);
      FullMoonOfMarch(year) == 21 + t.h - (if t.h == 29 || (t.h == 28 && t.a > 10) then 1 else 0)
  {
    RawEpact(year);
  }

  lemma SundaySum(n: int, year: int, b: int, d: int, e: int, i: int, k: int, m: int, w: int)
    requires year == 100 * b + 4 * i + k && b == 4 * d + e
    requires n == 81 + 365 * year + (25 * b + i) - b + d + (32 + 2 * e + 2 * i - k) - 7 * w - 7 * m
    ensures (n + 6) % 7 == 0
  {
    assert n + 6 == 7 * (20871 * d + 5218 * e + 209 * i + 52 * k + 17 - w - m);
  }

  lemma EasterIsSunday(year: nat)
    ensures Weekday(Easter(year)) == 0
  {
    var t := Terms(year);
    var w := (32 + 2 * t.e + 2 * t.i - t.h - t.k) / 7;
    assert Easter(year) == 81 + 365 * year + year / 4 - t.b + year / 400 + t.h + t.l - 7 * t.m by {
      EasterFromMarch(year);
      MarchFirst(year);
    }
    assert t.h + t.l == 32 + 2 * t.e + 2 * t.i - t.k - 7 * w by { LeftoverDays(year); }
    YearParts(year);
    SundaySum(Easter(year), year, t.b, t.d, t.e, t.i, t.k, t.m, w);
  }

  lemma LeftoverDays(year: nat)
    ensures var t := Terms(year);
      t.h + t.l == 32 + 2 * t.e + 2 * t.i - t.k - 7 * ((32 + 2 * t.e + 2 * t.i - t.h - t.k) / 7)
  {
    var t := Terms(year);
    var s := 32 + 2 * t.e + 2 * t.i - t.h - t.k;
    assert t.l == s % 7;
    hide *;
    assert s == 7 * (s / 7) + s % 7;
  }

  lemma YearParts(year: nat)
    ensures var t := Terms(year);
      year == 100 * t.b + 4 * t.i + t.k && t.b == 4 * t.d + t.e && year / 4 == 25 * t.b + t.i && year / 400 == t.d
  {
  }

  lemma EasterFromMarch(year: nat)
    ensures Easter(year) == DayNumber(year, 3, 1) + EasterOffset(year) - 93
  {
    OffsetBounds(year);
    MonthStarts(year);
  }

  lemma EasterAfterFullMoon(year: nat)
    ensures FullMoon(year) < Easter(year) <= FullMoon(year) + 7
  {
    EasterFromMarch(year);
    OffsetBounds(year);
    FullMoonFromTerms(year);
    assert 0 <= Terms(year).l < 7;
    hide *;
    assert FullMoon(year) == DayNumber(year, 3, 1) + FullMoonOfMarch(year) - 1 by { FullMoonDay(year); }
  }

  lemma FullMoonDay(year: nat)
    ensures FullMoon(year) == DayNumber(year, 3, 1) + FullMoonOfMarch(year) - 1
  {
  }

  lemma EasterBounds(year: nat)
    ensures DayNumber(year, 3, 22) <= Easter(year) <= DayNumber(year, 4, 25)
  {
    EasterFromMarch(year);
    OffsetBounds(year);
    MonthStarts(year);
  }

  lemma NoEarlierSunday(n: nat, d: nat)
    requires Weekday(n) == 0 && d < n < d + 7
    ensures Weekday(d) != 0
  {
  }

  /** Easter is the first Sunday strictly after the ecclesiastical full moon,
      and falls between 22 March and 25 April. */
  lemma EasterIsFirstSundayAfterFullMoon(year: nat)
    ensures Weekday(Easter(year)) == 0
    ensures FullMoon(year) < Easter(year) <= FullMoon(year) + 7
    ensures forall d: nat :: FullMoon(year) < d < Easter(year) ==> Weekday(d) != 0
    ensures DayNumber(year, 3, 22) <= Easter(year) <= DayNumber(year, 4, 25)
  {
    hide *;
    EasterIsSunday(year);
    EasterAfterFullMoon(year);
    EasterBounds(year);
    forall d: nat | FullMoon(year) < d < Easter(year) ensures Weekday(d) != 0 {
      NoEarlierSunday(Easter(year), d);
    }
  }

  // ----- public holidays

  const WIGILIA_FROM := 2025

  function PolishHolidays(year: nat): seq<Holiday> {
    var e := Easter(year);
    [Holiday(DayNumber(year, 1, 1), "Nowy Rok"),
     Holiday(DayNumber(year, 1, 6), "Trzech Króli"),
     Holiday(e, "Wielkanoc"),
     Holiday(e + 1, "Poniedziałek Wielkanocny"),
     Holiday(DayNumber(year, 5, 1), "Święto Pracy"),
     Holiday(DayNumber(year, 5, 3), "Święto Konstytucji 3 Maja"),
     Holiday(e + 49, "Zielone Świątki"),
     Holiday(e + 60, "Boże Ciało"),
     Holiday(DayNumber(year, 8, 15), "Wniebowzięcie NMP"),
     Holiday(DayNumber(year, 11, 1), "Wszystkich Świętych"),
     Holiday(DayNumber(year, 11, 11), "Narodowe Święto Niepodległości")] +
    (if year >= WIGILIA_FROM then [Holiday(DayNumber(year, 12, 24), "Wigilia")] else []) +
    [Holiday(DayNumber(year, 12, 25), "Boże Narodzenie"),
     Holiday(DayNumber(year, 12, 26), "Drugi dzień Bożego Narodzenia")]
  }

  predicate Ascending(hs: seq<Holiday>) {
    forall i, j :: 0 <= i < j < |hs| ==> hs[i].date < hs[j].date
  }

  /** The list is in strict date order and stays inside its year. */
  lemma HolidaysAscending(year: nat)
    ensures Ascending(PolishHolidays(year))
    ensures forall i :: 0 <= i < |PolishHolidays(year)| ==> Year(PolishHolidays(year)[i].date) == year
  {
    var hs := PolishHolidays(year);
    EasterIsFirstSundayAfterFullMoon(year);
    MonthStarts(year);
    assert MonthStart(year, 1) == 0;
    assert forall i :: 0 <= i < |hs| - 1 ==> hs[i].date < hs[i + 1].date;
    AscendingFromSteps(hs);
    forall i | 0 <= i < |hs| ensures Year(hs[i].date) == year {
      assert hs[0].date <= hs[i].date <= hs[|hs| - 1].date;
      YearUnique(hs[i].date, year);
    }
  }

  lemma {:induction false} AscendingFromSteps(hs: seq<Holiday>)
    requires forall i :: 0 <= i < |hs| - 1 ==> hs[i].date < hs[i + 1].date
    ensures Ascending(hs)
  {
    if |hs| > 1 {
      AscendingFromSteps(hs[..|hs| - 1]);
      forall i | 0 <= i < |hs| - 1 ensures hs[i].date < hs[|hs| - 1].date {
        assert hs[..|hs| - 1][i] == hs[i] && hs[..|hs| - 1][|hs| - 2] == hs[|hs| - 2];
        if i < |hs| - 2 { assert hs[i].date < hs[|hs| - 2].date; }
      }
      forall i, j | 0 <= i < j < |hs| ensures hs[i].date < hs[j].date {
        if j < |hs| - 1 { assert hs[..|hs| - 1][i] == hs[i] && hs[..|hs| - 1][j] == hs[j]; }
      }
    }
  }

  function NameIn(hs: seq<Holiday>, d: nat): Option<string> {
    if hs == [] then None else if hs[0].date == d then Some(hs[0].name) else NameIn(hs[1..], d)
  }

  function HolidayName(d: nat): Option<string> {
    NameIn(PolishHolidays(Year(d)), d)
  }

  lemma {:induction false} NameInAscending(hs: seq<Holiday>, d: nat, name: string)
    requires Ascending(hs)
    ensures NameIn(hs, d) == Some(name) <==> Holiday(d, name) in hs
  {
    if hs != [] {
      NameInAscending(hs[1..], d, name);
      assert hs == [hs[0]] + hs[1..];
      assert forall i :: 0 <= i < |hs[1..]| ==> hs[0].date < hs[1..][i].date;
    }
  }

  lemma HolidayNameMeans(d: nat, name: string)
    ensures HolidayName(d) == Some(name) <==> Holiday(d, name) in PolishHolidays(Year(d))
  {
    HolidaysAscending(Year(d));
    NameInAscending(PolishHolidays(Year(d)), d, name);
  }

  // ----- working days

  predicate IsWeekend(d: nat) { Weekday(d) == 6 || Weekday(d) == 0 }

  predicate IsWorkingDay(d: nat) { !IsWeekend(d) && HolidayName(d).None? }

  ghost function WorkingDates(from: nat, to: nat): set<nat> {
    set d: nat | from <= d <= to && IsWorkingDay(d)
  }

  method WorkingDays(from: nat, to: nat) returns (n: nat)
    ensures n == |WorkingDates(from, to)|
  {
    hide IsWorkingDay;
    n := 0;
    var d := from;
    ghost var counted: set<nat> := {};
    while d <= to
      invariant from <= d && (d <= to + 1 || d == from)
      invariant counted == (set x: nat | from <= x < d && IsWorkingDay(x)) && n == |counted|
    {
      if IsWorkingDay(d) {
        n := n + 1;
        counted := counted + {d};
      }
      d := d + 1;
    }
    assert counted == WorkingDates(from, to);
  }

  /** Every holiday from `from` to `to`, weekend ones too, in date order. */
  ghost predicate HolidaysOf(hs: seq<Holiday>, from: nat, to: nat) {
    && Ascending(hs)
    && forall h: Holiday :: h in hs <==> from <= h.date <= to && HolidayName(h.date) == Some(h.name)
  }

  method HolidaysBetween(from: nat, to: nat) returns (out: seq<Holiday>)
    ensures HolidaysOf(out, from, to)
  {
    hide PolishHolidays, NameIn, Year;
    out := [];
    var y := Year(from);
    while y <= Year(to)
      invariant Year(from) <= y
      invariant Ascending(out)
      invariant forall h :: h in out <==>
        from <= h.date <= to && YearStart(Year(from)) <= h.date < YearStart(y) && HolidayName(h.date) == Some(h.name)
      decreases Year(to) + 1 - y
    {
      out := AppendYear(out, y, from, to);
      y := y + 1;
    }
    forall h: Holiday | from <= h.date <= to && HolidayName(h.date) == Some(h.name)
      ensures YearStart(Year(from)) <= h.date < YearStart(y)
    {
      YearStartMonotone(Year(to) + 1, y);
    }
  }

  /** The inner loop: the holidays of year y that lie in range are appended. */
  method AppendYear(before: seq<Holiday>, y: nat, from: nat, to: nat) returns (out: seq<Holiday>)
    requires Ascending(before) && forall i :: 0 <= i < |before| ==> before[i].date < YearStart(y)
    ensures Ascending(out)
    ensures forall h :: h in out <==>
      (|| h in before
       || (from <= h.date <= to && YearStart(y) <= h.date < YearStart(y + 1) && HolidayName(h.date) == Some(h.name)))
  {
    hide PolishHolidays, NameIn, Year;
    out := before;
    var hs := PolishHolidays(y);
    HolidaysAscending(y);
    for i := 0 to |hs|
      invariant Ascending(out)
      invariant forall k :: 0 <= k < |out| ==> out[k].date < YearStart(y) || (i > 0 && out[k].date <= hs[i - 1].date)
      invariant forall h :: h in out <==> h in before || (h in hs[..i] && from <= h.date <= to)
    {
      assert hs[..i + 1] == hs[..i] + [hs[i]];
      if from <= hs[i].date <= to { out := out + [hs[i]]; }
    }
    forall h: Holiday
      ensures h in hs <==> YearStart(y) <= h.date < YearStart(y + 1) && HolidayName(h.date) == Some(h.name) {
      HolidayNameMeans(h.date, h.name);
      if YearStart(y) <= h.date < YearStart(y + 1) { YearUnique(h.date, y); }
    }
    assert hs[..|hs|] == hs;
  }

  /** Members of a holiday list that fall on Monday to Friday. */
  function WeekdayCount(hs: seq<Holiday>): nat {
    if hs == [] then 0 else WeekdayCount(hs[1..]) + if IsWeekend(hs[0].date) then 0 else 1
  }

  ghost function WeekdayDates(hs: seq<Holiday>): set<nat> {
    set i | 0 <= i < |hs| && !IsWeekend(hs[i].date) :: hs[i].date
  }

  lemma {:induction false} WeekdayCountIsCardinality(hs: seq<Holiday>)
    requires Ascending(hs)
    ensures WeekdayCount(hs) == |WeekdayDates(hs)|
  {
    hide IsWeekend;
    if hs != [] {
      WeekdayCountIsCardinality(hs[1..]);
      var rest := WeekdayDates(hs[1..]);
      assert forall i :: 0 < i < |hs| ==> hs[i] == hs[1..][i - 1];
      assert hs[0].date !in rest;
      if IsWeekend(hs[0].date) {
        assert WeekdayDates(hs) == rest;
      } else {
        assert WeekdayDates(hs) == rest + {hs[0].date};
      }
    }
  }

  ghost function Weekdays(from: nat, to: nat): set<nat> {
    set d: nat | from <= d <= to && !IsWeekend(d)
  }

  /** Working days are the Monday-Friday days less the Monday-Friday holidays. */
  lemma WorkingDaysAreWeekdaysLessHolidays(from: nat, to: nat, hs: seq<Holiday>)
    requires HolidaysOf(hs, from, to)
    ensures |WorkingDates(from, to)| == |Weekdays(from, to)| - WeekdayCount(hs)
  {
    hide PolishHolidays, NameIn, Year;
    WeekdayCountIsCardinality(hs);
    var off := WeekdayDates(hs);
    forall d | d in Weekdays(from, to) && !IsWorkingDay(d) ensures d in off {
      var h := Holiday(d, HolidayName(d).value);
      assert h in hs;
      var i :| 0 <= i < |hs| && hs[i] == h;
    }
    forall d | d in off ensures d in Weekdays(from, to) && !IsWorkingDay(d) {
      var i :| 0 <= i < |hs| && hs[i].date == d && !IsWeekend(hs[i].date);
      assert hs[i] in hs;
    }
    assert WorkingDates(from, to) == Weekdays(from, to) - off;
    assert off <= Weekdays(from, to);
  }

  /** Adjacent ranges add up. */
  lemma WorkingDaysAdditive(from: nat, mid: nat, to: nat)
    requires from <= mid + 1 && mid <= to
    ensures |WorkingDates(from, to)| == |WorkingDates(from, mid)| + |WorkingDates(mid + 1, to)|
  {
    assert WorkingDates(from, to) == WorkingDates(from, mid) + WorkingDates(mid + 1, to);
    assert WorkingDates(from, mid) !! WorkingDates(mid + 1, to);
  }
}
