/** Which dates are public holidays, told from the date: the days of the Polish act on
    non-working days (internal/workcal/pl.go). */
module HolidayDates {
  import opened Strings
  import opened Gregorian
  import opened WorkCalendar

  // ----- the holidays by date

  /** The holidays that keep their day and month; Christmas Eve is one from 2025 on. */
  predicate Fixed(year: nat, month: nat, day: nat, name: string) {
    || (month == 1 && day == 1 && name == "Nowy Rok")
    || (month == 1 && day == 6 && name == "Trzech Króli")
    || (month == 5 && day == 1 && name == "Święto Pracy")
    || (month == 5 && day == 3 && name == "Święto Konstytucji 3 Maja")
    || (month == 8 && day == 15 && name == "Wniebowzięcie NMP")
    || (month == 11 && day == 1 && name == "Wszystkich Świętych")
    || (month == 11 && day == 11 && name == "Narodowe Święto Niepodległości")
    || (month == 12 && day == 24 && year >= 2025 && name == "Wigilia")
    || (month == 12 && day == 25 && name == "Boże Narodzenie")
    || (month == 12 && day == 26 && name == "Drugi dzień Bożego Narodzenia")
  }

  ghost function Sundays(e: nat, d: nat): set<nat> {
    set x: nat | e < x <= d && Weekday(x) == 0
  }

  /** The seventh Sunday after e. */
  ghost predicate SeventhSunday(e: nat, d: nat) {
    Weekday(d) == 0 && |Sundays(e, d)| == 7
  }

  /** The holidays that move with Easter: Easter Sunday, the Monday after it, the seventh
      Sunday after it, and the Thursday of the second week after that Sunday. */
  ghost predicate Movable(e: nat, d: nat, name: string) {
    || (d == e && name == "Wielkanoc")
    || (Weekday(d) == 1 && e < d < e + 7 && name == "Poniedziałek Wielkanocny")
    || (SeventhSunday(e, d) && name == "Zielone Świątki")
    || (Weekday(d) == 4 && name == "Boże Ciało" && exists p: nat :: SeventhSunday(e, p) && p + 7 < d < p + 14)
  }

  // ----- weekdays around Easter

  lemma SameWeekday(e: nat, n: nat)
    ensures Weekday(e + n) == (Weekday(e) + n) % 7
  {
  }

  lemma {:induction false} SundayCount(e: nat, k: nat)
    requires Weekday(e) == 0
    ensures |Sundays(e, e + 7 * k)| == k && Weekday(e + 7 * k) == 0
  {
    hide Weekday, Sundays;
    if k == 0 {
      NoSunday(e);
    } else {
      SundayCount(e, k - 1);
      NextSunday(e, e + 7 * (k - 1));
      assert e + 7 * k == e + 7 * (k - 1) + 7;
    }
  }

  lemma NoSunday(e: nat)
    ensures |Sundays(e, e)| == 0
  {
    assert Sundays(e, e) == {};
  }

  lemma NextSunday(e: nat, last: nat)
    requires Weekday(e) == 0 && Weekday(last) == 0 && e <= last
    ensures Weekday(last + 7) == 0
    ensures Sundays(e, last + 7) == Sundays(e, last) + {last + 7} && last + 7 !in Sundays(e, last)
  {
    hide Weekday;
    forall x: nat | last < x <= last + 7 ensures Weekday(x) == 0 <==> x == last + 7 { SameWeekday(last, x - last); }
  }

  lemma SeventhSundayIs(e: nat, d: nat)
    requires Weekday(e) == 0
    ensures SeventhSunday(e, d) <==> d == e + 49
  {
    SundayCount(e, 7);
    if Weekday(d) == 0 && d > e {
      SameWeekday(e, d - e);
      SundayCount(e, (d - e) / 7);
    } else if d <= e {
      assert Sundays(e, d) == {};
    }
  }

  /** The movable holidays of a year, as days after Easter. */
  lemma MovableIs(e: nat, d: nat, name: string)
    requires Weekday(e) == 0
    ensures Movable(e, d, name) <==>
      || (d == e && name == "Wielkanoc") || (d == e + 1 && name == "Poniedziałek Wielkanocny")
      || (d == e + 49 && name == "Zielone Świątki") || (d == e + 60 && name == "Boże Ciało")
  {
    hide SeventhSunday, Weekday;
    forall p: nat ensures SeventhSunday(e, p) <==> p == e + 49 { SeventhSundayIs(e, p); }
    MondayAndThursday(e, d);
    assert d == e + 60 ==> SeventhSunday(e, e + 49) && (e + 49) + 7 < d < (e + 49) + 14;
  }

  lemma MondayAndThursday(e: nat, d: nat)
    requires Weekday(e) == 0
    ensures Weekday(d) == 1 && e < d < e + 7 <==> d == e + 1
    ensures Weekday(d) == 4 && e + 56 < d < e + 63 <==> d == e + 60
  {
    hide Weekday;
    if e < d < e + 63 { SameWeekday(e, d - e); }
  }

  /** Easter Monday is a Monday, Pentecost a Sunday and Corpus Christi a Thursday. */
  lemma MovableWeekdays(year: nat)
    ensures var e := Easter(year);
      Weekday(e) == 0 && Weekday(e + 1) == 1 && Weekday(e + 49) == 0 && Weekday(e + 60) == 4
  {
    hide Easter, Weekday;
    EasterIsSunday(year);
    SameWeekday(Easter(year), 1);
    SameWeekday(Easter(year), 49);
    SameWeekday(Easter(year), 60);
  }

  // ----- the list against the dates

  /** A date has a holiday name exactly when the act makes it a holiday of that name. */
  lemma HolidayIffAct(d: nat, name: string)
    ensures HolidayName(d) == Some(name) <==>
      Fixed(Year(d), Month(d), Day(d), name) || Movable(Easter(Year(d)), d, name)
  {
    var y := Year(d);
    HolidayNameMeans(d, name);
    EasterIsSunday(y);
    MovableIs(Easter(y), d, name);
    hide HolidayName, Movable, Easter, Year, Month, Day, Weekday, DayNumber;
    ListIs(y, d, name);
    FixedIs(d, name);
  }

  lemma ListIs(y: nat, d: nat, name: string)
    ensures Holiday(d, name) in PolishHolidays(y) <==>
      || (d == Easter(y) && name == "Wielkanoc") || (d == Easter(y) + 1 && name == "Poniedziałek Wielkanocny")
      || (d == Easter(y) + 49 && name == "Zielone Świątki") || (d == Easter(y) + 60 && name == "Boże Ciało")
      || exists m, day :: FixedDay(y, m, day, name) && d == DayNumber(y, m, day)
  {
    hide PolishHolidays, Easter, DayNumber, Fixed;
    forall m, day | FixedDay(y, m, day, name) && d == DayNumber(y, m, day)
      ensures Holiday(d, name) in PolishHolidays(y)
    {
      FixedIsListed(y, m, day, name);
    }
    MovableIsListed(y, d, name);
    if Holiday(d, name) in PolishHolidays(y) { ListedIs(y, d, name); }
  }

  lemma FixedIsListed(y: nat, m: nat, day: nat, name: string)
    requires FixedDay(y, m, day, name)
    ensures Holiday(DayNumber(y, m, day), name) in PolishHolidays(y)
  {
    hide Easter, DayNumber;
  }

  lemma MovableIsListed(y: nat, d: nat, name: string)
    ensures var e := Easter(y);
      || (d == e && name == "Wielkanoc") || (d == e + 1 && name == "Poniedziałek Wielkanocny")
      || (d == e + 49 && name == "Zielone Świątki") || (d == e + 60 && name == "Boże Ciało")
      ==> Holiday(d, name) in PolishHolidays(y)
  {
    hide Easter, DayNumber;
  }

  lemma ListedIs(y: nat, d: nat, name: string)
    requires Holiday(d, name) in PolishHolidays(y)
    ensures
      || (d == Easter(y) && name == "Wielkanoc") || (d == Easter(y) + 1 && name == "Poniedziałek Wielkanocny")
      || (d == Easter(y) + 49 && name == "Zielone Świątki") || (d == Easter(y) + 60 && name == "Boże Ciało")
      || exists m, day :: FixedDay(y, m, day, name) && d == DayNumber(y, m, day)
  {
    hide Easter, DayNumber;
  }

  /** A fixed holiday, whose day exists in its month. */
  ghost predicate FixedDay(y: nat, m: nat, day: nat, name: string) {
    1 <= m <= 12 && 1 <= day <= 26 && Fixed(y, m, day, name)
  }

  lemma FixedIs(d: nat, name: string)
    ensures Fixed(Year(d), Month(d), Day(d), name) <==>
      exists m, day :: FixedDay(Year(d), m, day, name) && d == DayNumber(Year(d), m, day)
  {
    var y := Year(d);
    if m, day :| FixedDay(y, m, day, name) && d == DayNumber(y, m, day) {
      DateIs(d, y, m, day);
    }
    if Fixed(y, Month(d), Day(d), name) {
      DateIs(d, y, Month(d), Day(d));
      assert FixedDay(y, Month(d), Day(d), name);
    }
  }

  /** A year has 13 public holidays, 14 from 2025 on. */
  lemma HolidayCount(year: nat)
    ensures |set d: nat | YearStart(year) <= d < YearStart(year + 1) && HolidayName(d).Some?| ==
      if year >= 2025 then 14 else 13
  {
    var hs := PolishHolidays(year);
    HolidaysAscending(year);
    var dates := set d: nat | YearStart(year) <= d < YearStart(year + 1) && HolidayName(d).Some?;
    forall d: nat ensures d in dates <==> d in Dates(hs) {
      if YearStart(year) <= d < YearStart(year + 1) {
        YearUnique(d, year);
        forall name ensures HolidayName(d) == Some(name) <==> Holiday(d, name) in hs { HolidayNameMeans(d, name); }
      }
      assert d in dates ==> Holiday(d, HolidayName(d).value) in hs;
    }
    assert dates == Dates(hs);
    DatesSize(hs);
  }

  ghost function Dates(hs: seq<Holiday>): set<nat> { set i | 0 <= i < |hs| :: hs[i].date }

  lemma {:induction false} DatesSize(hs: seq<Holiday>)
    requires Ascending(hs)
    ensures |Dates(hs)| == |hs|
  {
    if hs == [] {
      assert Dates(hs) == {};
    } else {
      var n := |hs| - 1;
      DatesSize(hs[..n]);
      assert Dates(hs) == Dates(hs[..n]) + {hs[n].date} && hs[n].date !in Dates(hs[..n]);
    }
  }

  /** Working days are Monday to Friday, Monday being 1, without the holidays. */
  lemma WorkingDayIs(d: nat)
    ensures IsWorkingDay(d) <==> 1 <= Weekday(d) <= 5 && forall name :: HolidayName(d) != Some(name)
  {
  }
}
