/** The report of internal/server/jira_worklog.go in whole seconds: periodRange,
    norm and the totals. Dates are day numbers. */
module WorklogReport {
  import opened Strings
  import opened Gregorian
  import opened WorkCalendar
  import opened WorklogFetch

  datatype Range = Range(from: int, until: int)

  predicate In(d: int, r: Range) { r.from <= d <= r.until }

  // ----- periods

  /** The day, ISO week or month around d. */
  function PeriodRange(period: string, d: nat): Range {
    if period == "week" then
      var from := d as int - (Weekday(d) + 6) % 7;
      Range(from, from + 6)
    else if period == "month" then
      Range(FirstOf(Year(d), Month(d)), FirstOf(Year(d), Month(d) + 1) - 1)
    else Range(d, d)
  }

  /** A month's range is exactly the days of that month of that year. */
  lemma MonthIsExact(d: nat, e: nat)
    ensures In(e, PeriodRange("month", d)) <==> Year(e) == Year(d) && Month(e) == Month(d)
  {
    hide Year, Month, DayNumber, FirstOf;
    assert FirstOf(Year(e), Month(e)) <= e < FirstOf(Year(e), Month(e) + 1) by { MonthHolds(e); }
    if In(e, PeriodRange("month", d)) { MonthUnique(e, Year(d), Month(d)); }
  }

  /** Any other period is the day itself. */
  lemma OtherPeriodsAreDays(period: string, d: nat, e: nat)
    requires period != "week" && period != "month"
    ensures In(e, PeriodRange(period, d)) <==> e == d
  {
    hide Month, Year, FirstOf, Weekday;
  }

  /** A week runs from Monday to Sunday and holds d. */
  lemma WeekIsMondayToSunday(d: nat, e: nat)
    ensures var r := PeriodRange("week", d);
      && In(d, r) && r.until == r.from + 6
      && (In(e, r) ==> (Weekday(e) == 1 <==> e == r.from) && (Weekday(e) == 0 <==> e == r.until))
  {
  }

  /** Days, weeks and months partition the calendar: another day lies in d's
      period exactly when it has the same period. */
  lemma PeriodsPartition(period: string, d: nat, e: nat)
    ensures In(d, PeriodRange(period, d))
    ensures In(e, PeriodRange(period, d)) <==> PeriodRange(period, e) == PeriodRange(period, d)
  {
    hide Month, Year, FirstOf, Weekday;
    if period == "month" {
      MonthHolds(d);
      MonthHolds(e);
      MonthIsExact(d, e);
    } else if period == "week" {
      WeeksPartition(d, e);
    }
  }

  lemma WeeksPartition(d: nat, e: nat)
    ensures In(d, PeriodRange("week", d))
    ensures In(e, PeriodRange("week", d)) <==> PeriodRange("week", e) == PeriodRange("week", d)
  {
    hide PeriodRange;
    var q := WeekOf(d);
    var r := WeekOf(e);
    SameWeek(q, r, e);
  }

  /** d lies in the week that begins five days before a multiple of seven. */
  lemma WeekOf(d: nat) returns (q: int)
    ensures PeriodRange("week", d) == Range(7 * q - 5, 7 * q + 1) && 7 * q - 5 <= d <= 7 * q + 1
  {
    hide Month, FirstOf, Year;
    q := (d + 5) / 7;
    DivSeven(d);
    assert (Weekday(d) + 6) % 7 == (d + 5) % 7;
  }

  lemma DivSeven(d: nat)
    ensures d + 5 == 7 * ((d + 5) / 7) + (d + 5) % 7 && (d + 6) % 7 < 7 && ((d + 6) % 7 + 6) % 7 == (d + 5) % 7
  {
  }

  lemma SameWeek(q: int, r: int, e: int)
    requires 7 * r - 5 <= e <= 7 * r + 1
    ensures 7 * q - 5 <= e <= 7 * q + 1 <==> q == r
  {
  }

  function Min(a: int, b: int): int { if a < b then a else b }
  function Max(a: int, b: int): int { if a > b then a else b }

  /** The dates fetched for a report. */
  function Fetched(period: string, d: nat): Range {
    var p, w, m := PeriodRange(period, d), PeriodRange("week", d), PeriodRange("month", d);
    Range(Min(p.from, Min(w.from, m.from)), Max(p.until, Max(w.until, m.until)))
  }

  /** What is fetched covers the period, the week and the month, and nothing else. */
  lemma FetchedCovers(period: string, d: nat, e: int)
    ensures In(e, Fetched(period, d)) <==>
      In(e, PeriodRange(period, d)) || In(e, PeriodRange("week", d)) || In(e, PeriodRange("month", d))
  {
    hide PeriodRange;
    PeriodsPartition(period, d, d);
    PeriodsPartition("week", d, d);
    PeriodsPartition("month", d, d);
  }

  // ----- totals

  /** Seconds of the entries that match. */
  function Total(es: seq<Entry>, f: Entry -> bool): int {
    if es == [] then 0 else Total(es[..|es| - 1], f) + if f(es[|es| - 1]) then es[|es| - 1].seconds else 0
  }

  function Chosen(es: seq<Entry>, f: Entry -> bool): seq<Entry> {
    if es == [] then [] else Chosen(es[..|es| - 1], f) + if f(es[|es| - 1]) then [es[|es| - 1]] else []
  }

  function During(r: Range): Entry -> bool { (e: Entry) => In(e.day, r) }

  function OnDay(d: int): Entry -> bool { (e: Entry) => e.day == d }

  function OfIssue(key: string, r: Range): Entry -> bool { (e: Entry) => e.key == key && In(e.day, r) }

  method Sum(es: seq<Entry>, r: Range) returns (n: int)
    ensures n == Total(es, During(r))
  {
    n := 0;
    for i := 0 to |es|
      invariant n == Total(es[..i], During(r))
    {
      TotalSnoc(es, i, During(r));
      if !(es[i].day < r.from) && !(es[i].day > r.until) { n := n + es[i].seconds; }
    }
    assert es[..|es|] == es;
  }

  lemma {:induction false} TotalConcat(a: seq<Entry>, b: seq<Entry>, f: Entry -> bool)
    ensures Total(a + b, f) == Total(a, f) + Total(b, f)
  {
    if b == [] {
      assert a + b == a;
    } else {
      assert (a + b)[..|a + b| - 1] == a + b[..|b| - 1];
      TotalConcat(a, b[..|b| - 1], f);
    }
  }

  /** Sorting the entries changes no total. */
  lemma {:induction false} TotalIgnoresOrder(es: seq<Entry>, sorted: seq<Entry>, f: Entry -> bool)
    requires multiset(sorted) == multiset(es)
    ensures Total(sorted, f) == Total(es, f)
    decreases |es|
  {
    if es == [] {
      assert |multiset(sorted)| == |sorted|;
    } else {
      var n := |es| - 1;
      assert es == es[..n] + [es[n]];
      assert es[n] in multiset(sorted);
      var k :| 0 <= k < |sorted| && sorted[k] == es[n];
      var rest := sorted[..k] + sorted[k + 1..];
      assert sorted == sorted[..k] + [sorted[k]] + sorted[k + 1..];
      assert multiset(rest) == multiset(sorted) - multiset{es[n]};
      assert multiset(es[..n]) == multiset(es) - multiset{es[n]};
      TotalIgnoresOrder(es[..n], rest, f);
      TotalConcat(sorted[..k] + [sorted[k]], sorted[k + 1..], f);
      TotalConcat(sorted[..k], [sorted[k]], f);
      TotalConcat(sorted[..k], sorted[k + 1..], f);
      TotalConcat(es[..n], [es[n]], f);
    }
  }

  lemma TotalAdd(es: seq<Entry>, e: Entry, f: Entry -> bool)
    ensures Total(es + [e], f) == Total(es, f) + if f(e) then e.seconds else 0
  {
    assert (es + [e])[..|es|] == es;
  }

  /** Keeping only the fetched dates loses nothing: every total over a range within
      them is the total over all of the caller's entries on any wider dates. */
  lemma {:induction false} FetchLosesNothing(wls: seq<Worklog>, issues: map<string, Issue>, me: string, fetched: Range,
      wide: Range, r: Range)
    requires fetched.from <= r.from && r.until <= fetched.until
    requires wide.from <= fetched.from && fetched.until <= wide.until
    ensures var a, b :=
      EntriesOf(wls, issues, me, fetched.from, fetched.until), EntriesOf(wls, issues, me, wide.from, wide.until);
      && (a.Some? <==> b.Some?)
      && (a.Some? ==> Total(a.value, During(r)) == Total(b.value, During(r)))
  {
    hide EntriesOf, Total;
    EntriesStep(wls, issues, me, fetched);
    EntriesStep(wls, issues, me, wide);
    if wls != [] {
      var n := |wls| - 1;
      FetchLosesNothing(wls[..n], issues, me, fetched, wide, r);
      var a, b := EntriesOf(wls[..n], issues, me, fetched.from, fetched.until),
        EntriesOf(wls[..n], issues, me, wide.from, wide.until);
      if a.Some? && Mine(wls[n], issues, me) && wls[n].day.Some? {
        TotalAdd(a.value, EntryOf(wls[n], issues), During(r));
        TotalAdd(b.value, EntryOf(wls[n], issues), During(r));
      }
    }
  }

  lemma EntriesStep(wls: seq<Worklog>, issues: map<string, Issue>, me: string, r: Range)
    ensures wls == [] ==> EntriesOf(wls, issues, me, r.from, r.until) == Some([])
    ensures wls != [] ==>
      var n := |wls| - 1;
      var before := EntriesOf(wls[..n], issues, me, r.from, r.until);
      EntriesOf(wls, issues, me, r.from, r.until) ==
        if before.None? || !Mine(wls[n], issues, me) then before
        else if wls[n].day.None? then None
        else if In(wls[n].day.value, r) then Some(before.value + [EntryOf(wls[n], issues)]) else before
  {
  }

  datatype Day = Day(date: nat, working: bool, holiday: Option<string>, entries: seq<Entry>, seconds: int)

  function DaySum(days: seq<Day>): int {
    if days == [] then 0 else DaySum(days[..|days| - 1]) + days[|days| - 1].seconds
  }

  ghost function IssueSum(totals: map<string, int>): int
    decreases |totals.Keys|
  {
    if totals.Keys == {} then 0
    else
      var k := AnyKey(totals.Keys);
      totals[k] + IssueSum(totals - {k})
  }

  ghost function AnyKey(keys: set<string>): (k: string)
    requires keys != {}
    ensures k in keys
  {
    var k :| k in keys;
    k
  }

  lemma IssueSumFirst(totals: map<string, int>)
    requires totals.Keys != {}
    ensures var k := AnyKey(totals.Keys); IssueSum(totals) == totals[k] + IssueSum(totals - {k})
  {
  }

  /** Any key may be counted first. */
  lemma {:induction false} IssueSumLess(totals: map<string, int>, k: string)
    requires k in totals
    ensures IssueSum(totals) == totals[k] + IssueSum(totals - {k})
    decreases |totals.Keys|
  {
    hide IssueSum;
    var j := AnyKey(totals.Keys);
    IssueSumFirst(totals);
    assert (totals - {j}).Keys == totals.Keys - {j} && (totals - {k}).Keys == totals.Keys - {k};
    if j != k {
      IssueSumLess(totals - {j}, k);
      IssueSumLess(totals - {k}, j);
      assert totals - {j} - {k} == totals - {k} - {j};
    }
  }

  function Got(totals: map<string, int>, k: string): int {
    if k in totals then totals[k] else 0
  }

  lemma IssueSumAdd(totals: map<string, int>, k: string, x: int)
    ensures IssueSum(totals[k := Got(totals, k) + x]) == IssueSum(totals) + x
  {
    var next := totals[k := Got(totals, k) + x];
    IssueSumLess(next, k);
    if k in totals {
      IssueSumLess(totals, k);
      assert next - {k} == totals - {k};
    } else {
      assert next - {k} == totals;
    }
  }

  lemma {:induction false} TotalSplit(es: seq<Entry>, f: Entry -> bool, g: Entry -> bool, h: Entry -> bool)
    requires forall e: Entry :: h(e) == (f(e) || g(e)) && !(f(e) && g(e))
    ensures Total(es, h) == Total(es, f) + Total(es, g)
  {
    if es != [] { TotalSplit(es[..|es| - 1], f, g, h); }
  }

  lemma {:induction false} TotalNone(es: seq<Entry>, f: Entry -> bool)
    requires forall e: Entry :: !f(e)
    ensures Total(es, f) == 0
  {
    if es != [] { TotalNone(es[..|es| - 1], f); }
  }

  lemma TotalSnoc(es: seq<Entry>, n: nat, f: Entry -> bool)
    requires n < |es|
    ensures Total(es[..n + 1], f) == Total(es[..n], f) + if f(es[n]) then es[n].seconds else 0
    ensures Chosen(es[..n + 1], f) == Chosen(es[..n], f) + if f(es[n]) then [es[n]] else []
  {
    assert es[..n + 1][..n] == es[..n];
  }

  // ----- the report

  /** A day of the report: its date's entries in order, and their seconds. */
  ghost predicate DayIs(day: Day, date: nat, es: seq<Entry>) {
    && day.date == date && day.working == IsWorkingDay(date) && day.holiday == HolidayName(date)
    && day.entries == Chosen(es, OnDay(date)) && day.seconds == Total(es, OnDay(date))
  }

  ghost predicate Seen(es: seq<Entry>, f: Entry -> bool) {
    exists i :: 0 <= i < |es| && f(es[i])
  }

  /** Totals so far: all entries before the day, and the first n of the day's. */
  ghost predicate TotalsAre(totals: map<string, int>, es: seq<Entry>, n: nat, from: nat, day: nat)
    requires n <= |es|
  {
    && (forall k :: k in totals <==>
      Seen(es, OfIssue(k, Range(from, day - 1))) || Seen(es[..n], OfIssue(k, Range(day, day))))
    && (forall k ::
      Got(totals, k) == Total(es, OfIssue(k, Range(from, day - 1))) + Total(es[..n], OfIssue(k, Range(day, day))))
  }

  /** The day and issue totals of a report over r. */
  method Report(es: seq<Entry>, r: Range) returns (days: seq<Day>, byIssue: map<string, int>)
    requires 0 <= r.from <= r.until
    ensures |days| == r.until - r.from + 1 && forall i :: 0 <= i < |days| ==> DayIs(days[i], r.from + i, es)
    ensures forall k :: k in byIssue <==> Seen(es, OfIssue(k, r))
    ensures forall k :: k in byIssue ==> byIssue[k] == Total(es, OfIssue(k, r))
    ensures DaySum(days) == IssueSum(byIssue) == Total(es, During(r))
  {
    hide *;
    days, byIssue := [], map[];
    var d: nat := r.from;
    NoTotalsYet(es, r.from);
    while d <= r.until
      invariant r.from <= d <= r.until + 1 && |days| == d - r.from
      invariant forall i :: 0 <= i < |days| ==> DayIs(days[i], r.from + i, es)
      invariant TotalsAre(byIssue, es, 0, r.from, d)
      invariant DaySum(days) == IssueSum(byIssue) == Total(es, During(Range(r.from, d - 1)))
    {
      var chosen, secs := [], 0;
      StartDay(es, d);
      for n := 0 to |es|
        invariant chosen == Chosen(es[..n], OnDay(d)) && secs == Total(es[..n], OnDay(d))
        invariant TotalsAre(byIssue, es, n, r.from, d)
        invariant IssueSum(byIssue) == DaySum(days) + secs
      {
        var e := es[n];
        TotalSnoc(es, n, OnDay(d));
        OnDayIs(d, e);
        if e.day != d {
          NextEntry(byIssue, es, n, r.from, d);
          continue;
        }
        chosen, secs := chosen + [e], secs + e.seconds;
        NextEntry(byIssue, es, n, r.from, d);
        IssueSumAdd(byIssue, e.key, e.seconds);
        GotIs(byIssue, e.key);
        byIssue := byIssue[e.key := (if e.key in byIssue then byIssue[e.key] else 0) + e.seconds];
      }
      assert es[..|es|] == es;
      var day := Day(d, IsWorkingDay(d), HolidayName(d), chosen, secs);
      DayDone(d, es);
      DaySumSnoc(days, day);
      NextDay(byIssue, es, r.from, d);
      days := days + [day];
      d := d + 1;
    }
    TotalsDone(byIssue, es, r.from, d);
    assert Range(r.from, d - 1) == r;
  }

  lemma NoTotalsYet(es: seq<Entry>, from: nat)
    ensures TotalsAre(map[], es, 0, from, from)
    ensures DaySum([]) == IssueSum(map[]) == Total(es, During(Range(from, from - 1))) == 0
  {
    var none := Range(from, from - 1);
    TotalNone(es, During(none));
    forall k ensures Total(es, OfIssue(k, none)) == 0 {
      TotalNone(es, OfIssue(k, none));
    }
  }

  lemma StartDay(es: seq<Entry>, d: nat)
    ensures Chosen(es[..0], OnDay(d)) == [] && Total(es[..0], OnDay(d)) == 0
  {
  }

  lemma OnDayIs(d: int, e: Entry)
    ensures OnDay(d)(e) <==> e.day == d
  {
  }

  lemma GotIs(totals: map<string, int>, k: string)
    ensures Got(totals, k) == if k in totals then totals[k] else 0
  {
  }

  lemma SeenSnoc(es: seq<Entry>, n: nat, f: Entry -> bool)
    requires n < |es|
    ensures Seen(es[..n + 1], f) <==> Seen(es[..n], f) || f(es[n])
  {
  }

  lemma NextEntry(totals: map<string, int>, es: seq<Entry>, n: nat, from: nat, d: nat)
    requires n < |es| && TotalsAre(totals, es, n, from, d)
    ensures es[n].day != d ==> TotalsAre(totals, es, n + 1, from, d)
    ensures es[n].day == d ==>
      TotalsAre(totals[es[n].key := Got(totals, es[n].key) + es[n].seconds], es, n + 1, from, d)
  {
    hide Total, Seen;
    forall k
      ensures Seen(es[..n + 1], OfIssue(k, Range(d, d))) <==>
        Seen(es[..n], OfIssue(k, Range(d, d))) || (es[n].key == k && es[n].day == d)
      ensures Total(es[..n + 1], OfIssue(k, Range(d, d))) ==
        Total(es[..n], OfIssue(k, Range(d, d))) + if es[n].key == k && es[n].day == d then es[n].seconds else 0
    {
      TotalSnoc(es, n, OfIssue(k, Range(d, d)));
      SeenSnoc(es, n, OfIssue(k, Range(d, d)));
    }
  }

  lemma DayDone(date: nat, es: seq<Entry>)
    ensures DayIs(Day(date, IsWorkingDay(date), HolidayName(date), Chosen(es, OnDay(date)), Total(es, OnDay(date))),
      date, es)
  {
  }

  lemma DaySumSnoc(days: seq<Day>, day: Day)
    ensures DaySum(days + [day]) == DaySum(days) + day.seconds
  {
  }

  lemma NextDay(totals: map<string, int>, es: seq<Entry>, from: nat, d: nat)
    requires from <= d && TotalsAre(totals, es, |es|, from, d)
    ensures TotalsAre(totals, es, 0, from, d + 1)
    ensures Total(es, During(Range(from, d))) == Total(es, During(Range(from, d - 1))) + Total(es, OnDay(d))
  {
    hide Total, Seen;
    assert es[..|es|] == es && es[..0] == [];
    TotalSplit(es, During(Range(from, d - 1)), OnDay(d), During(Range(from, d)));
    forall k
      ensures Total(es, OfIssue(k, Range(from, d))) ==
        Total(es, OfIssue(k, Range(from, d - 1))) + Total(es, OfIssue(k, Range(d, d)))
      ensures Seen(es, OfIssue(k, Range(from, d))) <==>
        Seen(es, OfIssue(k, Range(from, d - 1))) || Seen(es, OfIssue(k, Range(d, d)))
      ensures Total([], OfIssue(k, Range(d + 1, d + 1))) == 0 && !Seen([], OfIssue(k, Range(d + 1, d + 1)))
    {
      TotalSplit(es, OfIssue(k, Range(from, d - 1)), OfIssue(k, Range(d, d)), OfIssue(k, Range(from, d)));
      SeenSplit(es, OfIssue(k, Range(from, d - 1)), OfIssue(k, Range(d, d)), OfIssue(k, Range(from, d)));
      NothingSeen(OfIssue(k, Range(d + 1, d + 1)));
    }
    assert d == d + 1 - 1;
  }

  lemma SeenSplit(es: seq<Entry>, f: Entry -> bool, g: Entry -> bool, h: Entry -> bool)
    requires forall e: Entry :: h(e) == (f(e) || g(e))
    ensures Seen(es, h) <==> Seen(es, f) || Seen(es, g)
  {
  }

  lemma NothingSeen(f: Entry -> bool)
    ensures Total([], f) == 0 && !Seen([], f)
  {
  }

  lemma TotalsDone(totals: map<string, int>, es: seq<Entry>, from: nat, d: nat)
    requires TotalsAre(totals, es, 0, from, d)
    ensures forall k :: k in totals <==> Seen(es, OfIssue(k, Range(from, d - 1)))
    ensures forall k :: k in totals ==> totals[k] == Total(es, OfIssue(k, Range(from, d - 1)))
  {
    hide Total, Seen;
    forall k ensures Total(es[..0], OfIssue(k, Range(d, d))) == 0 && !Seen(es[..0], OfIssue(k, Range(d, d))) {
      NothingSeen(OfIssue(k, Range(d, d)));
    }
    forall k | k in totals ensures totals[k] == Total(es, OfIssue(k, Range(from, d - 1))) {
      assert totals[k] == Got(totals, k);
    }
  }

  // ----- the working-hours norm

  const HOURS_PER_DAY := 8
  const HOUR := 3600

  /** The norm of a range in whole hours and seconds: `toDate` counts working days
      up to and including asOf, `left` and `overtime` compare with the whole norm. */
  datatype Norm = Norm(workingDays: nat, hours: nat, toDateHours: nat, left: int, overtime: int, balance: int,
    holidays: seq<Holiday>)

  ghost function WorkDays(r: Range): nat
    requires 0 <= r.from <= r.until
  {
    |WorkingDates(r.from, r.until)|
  }

  method NormOf(r: Range, asOf: nat, logged: int) returns (n: Norm)
    requires 0 <= r.from <= r.until
    ensures n.workingDays == WorkDays(r) && n.hours == 8 * WorkDays(r)
    ensures n.left >= 0 && n.overtime >= 0 && n.left - n.overtime == n.hours * 3600 - logged &&
      (n.left == 0 || n.overtime == 0)
    ensures n.balance == logged - n.toDateHours * 3600
    ensures asOf < r.from ==> n.toDateHours == 0
    ensures asOf >= r.until ==> n.toDateHours == n.hours
    ensures In(asOf, r) && asOf < r.until ==>
      n.hours == n.toDateHours + 8 * WorkDays(Range(asOf + 1, r.until))
    ensures HolidaysOf(n.holidays, r.from, r.until)
    ensures n.workingDays == |Weekdays(r.from, r.until)| - WeekdayCount(n.holidays)
  {
    hide WorkingDates, HolidaysOf, WeekdayCount, Weekdays;
    var days := WorkingDays(r.from, r.until);
    var hours, toDate := days * HOURS_PER_DAY, 0;
    if asOf >= r.from {
      var end := r.until;
      if asOf < r.until {
        end := asOf;
        WorkingDaysAdditive(r.from, asOf, r.until);
      }
      var before := WorkingDays(r.from, end);
      toDate := before * HOURS_PER_DAY;
    }
    var holidays := HolidaysBetween(r.from, r.until);
    WorkingDaysAreWeekdaysLessHolidays(r.from, r.until, holidays);
    n := Norm(days, hours, toDate, Max(hours * HOUR - logged, 0), Max(logged - hours * HOUR, 0), logged - toDate * HOUR,
      holidays);
  }

  // ----- from the server's listing to the report

  /** Seconds of the caller's worklogs on visible issues whose date is in r. */
  function Logged(wls: seq<Worklog>, visible: map<string, Issue>, me: string, r: Range): int {
    if wls == [] then 0
    else
      var w := wls[|wls| - 1];
      Logged(wls[..|wls| - 1], visible, me, r) +
      if w.issueId in visible && w.author == me && w.day.Some? && r.from <= w.day.value <= r.until then w.seconds else 0
  }

  /** One of the caller's worklogs on a visible issue has no readable date. */
  ghost predicate Unreadable(wls: seq<Worklog>, visible: map<string, Issue>, me: string) {
    exists i :: 0 <= i < |wls| && wls[i].issueId in visible && wls[i].author == me && wls[i].day.None?
  }

  lemma {:induction false} EntriesAreLogged(wls: seq<Worklog>, visible: map<string, Issue>, ids: set<string>,
      me: string, f: Range, r: Range)
    requires Ids(wls) <= ids && f.from <= r.from && r.until <= f.until
    ensures var es := EntriesOf(wls, Among(visible, ids), me, f.from, f.until);
      && (es.None? <==> Unreadable(wls, visible, me))
      && (es.Some? ==> Total(es.value, During(r)) == Logged(wls, visible, me, r))
  {
    hide EntriesOf, Total;
    var issues := Among(visible, ids);
    EntriesStep(wls, issues, me, f);
    if wls == [] {
      NothingSeen(During(r));
    } else {
      var n := |wls| - 1;
      var w := wls[n];
      assert Ids(wls[..n]) <= Ids(wls) && w.issueId in Ids(wls);
      EntriesAreLogged(wls[..n], visible, ids, me, f, r);
      assert Mine(w, issues, me) <==> Mine(w, visible, me);
      assert Unreadable(wls, visible, me) <==>
        Unreadable(wls[..n], visible, me) || (Mine(w, visible, me) && w.day.None?) by {
        UnreadableStep(wls, visible, me);
      }
      var before := EntriesOf(wls[..n], issues, me, f.from, f.until);
      if before.Some? && Mine(w, issues, me) && w.day.Some? { TotalAdd(before.value, EntryOf(w, issues), During(r)); }
    }
  }

  lemma UnreadableStep(wls: seq<Worklog>, visible: map<string, Issue>, me: string)
    requires wls != []
    ensures var n := |wls| - 1;
      Unreadable(wls, visible, me) <==>
        Unreadable(wls[..n], visible, me) || (Mine(wls[n], visible, me) && wls[n].day.None?)
  {
    var n := |wls| - 1;
    assert forall i :: 0 <= i < n ==> wls[..n][i] == wls[i];
  }

  datatype Summary = Summary(days: seq<Day>, byIssue: map<string, int>, week: int, month: int)

  /** report, without its norms: the listing is fetched for the dates of period, week
      and month, scoped, reduced to the caller's entries and summed. It fails exactly
      when too many issues are behind the listing or a date cannot be read; otherwise
      the day and issue totals come to the caller's logged seconds of the period, and
      the week's and the month's seconds are theirs. */
  method FullReport(page: nat -> Page, ghost listing: seq<Worklog>, jira: JiraClient, ghost visible: map<string, Issue>,
                    me: string, period: string, asOf: nat) returns (r: Option<Summary>)
    requires Serves(page, listing) && Finds(jira.found, visible) && PeriodRange(period, asOf).from >= 0
    modifies jira
    ensures r.None? <==> |Ids(listing)| > 500 || Unreadable(listing, visible, me)
    ensures r.Some? ==>
      && DaySum(r.value.days) == IssueSum(r.value.byIssue) == Logged(listing, visible, me, PeriodRange(period, asOf))
      && r.value.week == Logged(listing, visible, me, PeriodRange("week", asOf))
      && r.value.month == Logged(listing, visible, me, PeriodRange("month", asOf))
  {
    hide PeriodRange, Serves, Finds, Logged, Unreadable, Total, EntriesOf, DaySum, IssueSum, Among, Ids, DayIs, Seen;
    var p, w, m := PeriodRange(period, asOf), PeriodRange("week", asOf), PeriodRange("month", asOf);
    var f := Fetched(period, asOf);
    PeriodsPartition(period, asOf, asOf);
    var wls := TempoWorklogs(page, listing);
    var issues := ScopedIssues(wls, jira, visible);
    if issues.None? { return None; }
    EntriesAreLogged(wls, visible, Ids(wls), me, f, p);
    EntriesAreLogged(wls, visible, Ids(wls), me, f, w);
    EntriesAreLogged(wls, visible, Ids(wls), me, f, m);
    var entries := MyEntries(wls, issues.value, me, f.from, f.until);
    if entries.None? { return None; }
    var es := entries.value;
    ghost var listed := EntriesOf(wls, issues.value, me, f.from, f.until).value;
    TotalIgnoresOrder(listed, es, During(p));
    TotalIgnoresOrder(listed, es, During(w));
    TotalIgnoresOrder(listed, es, During(m));
    var days, byIssue := Report(es, p);
    var week := Sum(es, w);
    var month := Sum(es, m);
    r := Some(Summary(days, byIssue, week, month));
  }
}
