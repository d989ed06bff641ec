/** Fetching of internal/server/jira_worklog.go: tempoWorklogs, scopedIssues and
    myEntries. The two services are functions from requests to replies. */
module WorklogFetch {
  import opened Strings
  import opened Sorting

  /** `day` is the start date as a day number, None when it cannot be read. */
  datatype Worklog = Worklog(
    id: int, issueId: string, author: string, startDate: string, startTime: string, day: Option<int>, seconds: int)

  datatype Issue = Issue(id: string, key: string)

  datatype Page = Page(results: seq<Worklog>, next: bool)

  const MAX_ISSUES := 500
  const SEARCH_CHUNK := 100

  // ----- paging

  /** A listing served in pages: from any offset a part of what follows, not empty
      while anything follows, and a next link exactly while more follows. */
  ghost predicate Serves(page: nat -> Page, listing: seq<Worklog>) {
    forall offset: nat :: offset <= |listing| ==> ServesAt(page(offset), listing, offset)
  }

  ghost predicate ServesAt(p: Page, listing: seq<Worklog>, offset: nat) {
    && offset + |p.results| <= |listing|
    && p.results == listing[offset..offset + |p.results|]
    && (offset < |listing| ==> p.results != [])
    && (p.next <==> offset + |p.results| < |listing|)
  }

  /** Whatever the page sizes, the whole listing comes back once, in order. */
  method TempoWorklogs(page: nat -> Page, ghost listing: seq<Worklog>) returns (all: seq<Worklog>)
    requires Serves(page, listing)
    ensures all == listing
  {
    all := [];
    var offset := 0;
    while true
      invariant offset <= |listing| && all == listing[..offset]
      decreases |listing| - offset
    {
      var p := page(offset);
      assert ServesAt(p, listing, offset);
      assert listing[..offset + |p.results|] == listing[..offset] + p.results;
      all := all + p.results;
      offset := offset + |p.results|;
      if |p.results| == 0 || !p.next {
        assert offset == |listing|;
        return all;
      }
    }
  }

  // ----- distinct ids in chunks

  function Ids(wls: seq<Worklog>): set<string> {
    set i | 0 <= i < |wls| :: wls[i].issueId
  }

  function ToSet(ids: seq<string>): set<string> {
    set i | 0 <= i < |ids| :: ids[i]
  }

  lemma {:induction false} DistinctSize(ids: seq<string>)
    requires Distinct(ids)
    ensures |ToSet(ids)| == |ids|
  {
    if ids == [] {
      assert ToSet(ids) == {};
    } else {
      var n := |ids| - 1;
      DistinctSize(ids[..n]);
      assert ToSet(ids) == ToSet(ids[..n]) + {ids[n]};
    }
  }

  method DistinctIds(wls: seq<Worklog>) returns (ids: seq<string>)
    ensures Distinct(ids) && ToSet(ids) == Ids(wls)
  {
    ids := [];
    var seen: set<string> := {};
    for n := 0 to |wls|
      invariant Distinct(ids) && ToSet(ids) == seen == Ids(wls[..n])
    {
      var id := wls[n].issueId;
      assert Ids(wls[..n + 1]) == Ids(wls[..n]) + {id};
      if id !in seen {
        assert forall i :: 0 <= i < |ids| ==> ids[i] in seen;
        ToSetConcat(ids, [id]);
        assert [id][0] == id && ToSet([id]) == {id};
        seen := seen + {id};
        ids := ids + [id];
      }
    }
    assert wls[..|wls|] == wls;
  }

  /** The search finds the visible issues among the ids asked for, and no others. */
  ghost predicate Finds(search: seq<string> -> seq<Issue>, visible: map<string, Issue>) {
    forall ids :: FindsFor(search(ids), visible, ids)
  }

  ghost predicate FindsFor(found: seq<Issue>, visible: map<string, Issue>, ids: seq<string>) {
    && (forall i :: 0 <= i < |found| ==>
      found[i].id in ids && found[i].id in visible && visible[found[i].id] == found[i])
    && (forall i :: 0 <= i < |ids| && ids[i] in visible ==> visible[ids[i]] in found && visible[ids[i]].id == ids[i])
  }

  ghost function Among(visible: map<string, Issue>, ids: set<string>): map<string, Issue> {
    map id | id in visible && id in ids :: visible[id]
  }

  function Joined(chunks: seq<seq<string>>): seq<string> {
    if chunks == [] then [] else Joined(chunks[..|chunks| - 1]) + chunks[|chunks| - 1]
  }

  method AddFound(issues: map<string, Issue>, found: seq<Issue>, ghost visible: map<string, Issue>,
      ghost done: set<string>, ghost ids: seq<string>)
    returns (r: map<string, Issue>)
    requires issues == Among(visible, done) && FindsFor(found, visible, ids)
    ensures r == Among(visible, done + ToSet(ids))
  {
    r := issues;
    for n := 0 to |found|
      invariant r.Keys <= Among(visible, done + ToSet(ids)).Keys && issues.Keys <= r.Keys
      invariant forall id :: id in r ==> id in visible && r[id] == visible[id]
      invariant forall i :: 0 <= i < n ==> found[i].id in r
    {
      r := r[found[n].id := found[n]];
    }
    forall id | id in Among(visible, done + ToSet(ids)) ensures id in r {
      if id !in done {
        var i :| 0 <= i < |ids| && ids[i] == id;
        assert visible[ids[i]] in found;
      }
    }
    assert r.Keys == Among(visible, done + ToSet(ids)).Keys;
  }

  /** The Jira client's search, with a record of what it was asked for. */
  class JiraClient {
    const found: seq<string> -> seq<Issue>
    ghost var asked: seq<seq<string>>

    constructor (found: seq<string> -> seq<Issue>)
      ensures this.found == found && asked == []
    {
      this.found, asked := found, [];
    }

    method SearchIssues(ids: seq<string>) returns (r: seq<Issue>)
      modifies this
      ensures r == found(ids) && asked == old(asked) + [ids]
    {
      asked := asked + [ids];
      r := found(ids);
    }
  }

  /** The ids in chunks of 1 to 100, each exactly once. */
  ghost predicate Chunked(chunks: seq<seq<string>>, ids: set<string>) {
    && Distinct(Joined(chunks)) && ToSet(Joined(chunks)) == ids
    && forall i :: 0 <= i < |chunks| ==> 0 < |chunks[i]| <= 100
  }

  /** More than 500 distinct issues are refused without a search; otherwise the
      result is the visible issues behind the worklogs, and the searches made are
      for chunks that cover every distinct id exactly once. */
  method ScopedIssues(wls: seq<Worklog>, jira: JiraClient, ghost visible: map<string, Issue>)
      returns (issues: Option<map<string, Issue>>)
    requires Finds(jira.found, visible)
    modifies jira
    ensures issues.None? <==> |Ids(wls)| > 500
    ensures issues.None? ==> jira.asked == old(jira.asked)
    ensures issues.Some? ==> issues.value == Among(visible, Ids(wls))
    ensures issues.Some? ==> exists chunks :: jira.asked == old(jira.asked) + chunks && Chunked(chunks, Ids(wls))
  {
    var ids := DistinctIds(wls);
    DistinctSize(ids);
    if |ids| > MAX_ISSUES { return None; }
    var found: map<string, Issue> := map[];
    ghost var chunks: seq<seq<string>> := [];
    var i := 0;
    assert ids[..0] == [];
    while i < |ids|
      invariant 0 <= i
      invariant jira.asked == old(jira.asked) + chunks && Joined(chunks) == ids[..Upto(i, ids)]
      invariant found == Among(visible, ToSet(ids[..Upto(i, ids)]))
      invariant forall k :: 0 <= k < |chunks| ==> 0 < |chunks[k]| <= SEARCH_CHUNK
    {
      var n := Upto(i + SEARCH_CHUNK, ids);
      var chunk := ids[i..n];
      assert ids[..n] == ids[..i] + chunk;
      assert ToSet(ids[..n]) == ToSet(ids[..i]) + ToSet(chunk) by { ToSetConcat(ids[..i], chunk); }
      assert FindsFor(jira.found(chunk), visible, chunk);
      var some := jira.SearchIssues(chunk);
      found := AddFound(found, some, visible, ToSet(ids[..i]), chunk);
      JoinedSnoc(chunks, chunk);
      chunks := chunks + [chunk];
      i := i + SEARCH_CHUNK;
    }
    assert ids[..|ids|] == ids;
    assert Chunked(chunks, Ids(wls));
    issues := Some(found);
  }

  function Upto(i: nat, ids: seq<string>): (n: nat)
    ensures n <= |ids|
  {
    if i < |ids| then i else |ids|
  }

  lemma ToSetConcat(a: seq<string>, b: seq<string>)
    ensures ToSet(a + b) == ToSet(a) + ToSet(b)
  {
    forall x | x in ToSet(b) ensures x in ToSet(a + b) {
      var i :| 0 <= i < |b| && b[i] == x;
      assert (a + b)[|a| + i] == x;
    }
    forall x | x in ToSet(a) ensures x in ToSet(a + b) {
      var i :| 0 <= i < |a| && a[i] == x;
      assert (a + b)[i] == x;
    }
  }

  lemma JoinedSnoc(chunks: seq<seq<string>>, chunk: seq<string>)
    ensures Joined(chunks + [chunk]) == Joined(chunks) + chunk
  {
  }

  // ----- the caller's entries

  datatype Entry = Entry(id: int, key: string, started: string, day: int, seconds: int)

  /** A start time HH:MM:SS cut to HH:MM. */
  function StartHHMM(startTime: string): string {
    if |startTime| < 5 then "" else startTime[..5]
  }

  function EntryOf(w: Worklog, issues: map<string, Issue>): Entry
    requires w.issueId in issues && w.day.Some?
  {
    Entry(w.id, issues[w.issueId].key, TrimSpace(w.startDate + " " + StartHHMM(w.startTime)), w.day.value, w.seconds)
  }

  ghost predicate NoSpace(s: string) { forall i :: 0 <= i < |s| ==> !IsSpace(s[i]) }

  /** What an entry shows of its worklog: the date, then hours and minutes if there are any. */
  lemma EntryShows(w: Worklog, issues: map<string, Issue>)
    requires w.issueId in issues && w.day.Some? && w.startDate != "" && NoSpace(w.startDate) && NoSpace(w.startTime)
    ensures var e := EntryOf(w, issues);
      && (|w.startTime| >= 5 ==> e.started == w.startDate + " " + w.startTime[..5])
      && (|w.startTime| < 5 ==> e.started == w.startDate)
      && e.id == w.id && e.key == issues[w.issueId].key && e.day == w.day.value && e.seconds == w.seconds
  {
    var hm := StartHHMM(w.startTime);
    var s := w.startDate + " " + hm;
    assert s[0] == w.startDate[0];
    assert TrimLeft(s) == s;
    if hm == "" {
      assert s[..|s| - 1] == w.startDate && s[|s| - 1] == ' ';
      assert TrimRight(s) == TrimRight(w.startDate) == w.startDate;
    } else {
      assert s[|s| - 1] == hm[|hm| - 1] == w.startTime[4];
    }
  }

  predicate Mine(w: Worklog, issues: map<string, Issue>, me: string) {
    w.issueId in issues && w.author == me
  }

  /** The entries in listing order; None when one of the caller's has no readable date. */
  function EntriesOf(wls: seq<Worklog>, issues: map<string, Issue>, me: string, from: int,
      until: int): Option<seq<Entry>> {
    if wls == [] then Some([])
    else
      var n := |wls| - 1;
      var before := EntriesOf(wls[..n], issues, me, from, until);
      if before.None? || !Mine(wls[n], issues, me) then before
      else if wls[n].day.None? then None
      else if from <= wls[n].day.value <= until then
        Some(before.value + [EntryOf(wls[n], issues)])
      else before
  }

  lemma {:induction false} NoneStays(wls: seq<Worklog>, n: nat, issues: map<string, Issue>, me: string, from: int,
      until: int)
    requires n <= |wls| && EntriesOf(wls[..n], issues, me, from, until).None?
    ensures EntriesOf(wls, issues, me, from, until).None?
    decreases |wls|
  {
    if n == |wls| {
      assert wls[..n] == wls;
    } else {
      assert wls[..|wls| - 1][..n] == wls[..n];
      NoneStays(wls[..|wls| - 1], n, issues, me, from, until);
    }
  }

  const BY_START: (Entry, Entry) -> bool := (a: Entry, b: Entry) => TextLess(a.started, b.started)

  lemma StartOrder()
    ensures WeakOrder(BY_START)
  {
    hide TextLess;
    TextOrder();
    assert forall a: Entry, b: Entry :: BY_START(a, b) == BY_TEXT(a.started, b.started);
  }

  /** The loop of myEntries and its stable sort by start time. */
  method MyEntries(wls: seq<Worklog>, issues: map<string, Issue>, me: string, from: int, until: int)
      returns (r: Option<seq<Entry>>)
    ensures r.None? <==> EntriesOf(wls, issues, me, from, until).None?
    ensures r.Some? ==> StableSort(EntriesOf(wls, issues, me, from, until).value, r.value, BY_START)
  {
    var entries: seq<Entry> := [];
    for n := 0 to |wls|
      invariant Some(entries) == EntriesOf(wls[..n], issues, me, from, until)
    {
      var w := wls[n];
      assert wls[..n + 1][..n] == wls[..n];
      if w.issueId !in issues || w.author != me { continue; }
      if w.day.None? {
        NoneStays(wls, n + 1, issues, me, from, until);
        return None;
      }
      if from <= w.day.value <= until {
        entries := entries + [EntryOf(w, issues)];
      }
    }
    assert wls[..|wls|] == wls;
    StartOrder();
    entries := Sort(entries, BY_START);
    return Some(entries);
  }
}
