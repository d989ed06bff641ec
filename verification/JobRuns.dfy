/** Runs of the job store: any interleaving of Add, claim, finish, Cancel and
    Delete by callers and by any number of run loops. */
module JobRuns {
  import opened Strings
  import opened JobStore

  datatype Event =
    | Add(job: Record, now: int, freshId: string)
    | Claim(id: string, now: int)
    | Finish(id: string, result: JobResult)
    | Cancel(id: string, agentId: string)
    | Delete(id: string)

  /** `flight`: the ids of the claims whose executor has not finished yet.
      `used`: every id ever added. */
  datatype State = State(jobs: Jobs, flight: multiset<string>, used: set<string>)

  const INITIAL := State(map[], multiset{}, {})

  /** No id is added while an executor of it is in flight, and only an executor that
      claimed finishes. */
  predicate Enabled(s: State, e: Event) {
    match e
    case Add(job, now, freshId) => Named(job, now, freshId).id !in s.flight
    case Finish(id, _) => id in s.flight
    case _ => true
  }

  /** The id is not added again. */
  predicate NotReused(s: State, e: Event, id: string) {
    e.Add? && Named(e.job, e.now, e.freshId).id == id ==> id !in s.used
  }

  function Next(s: State, e: Event): State {
    match e
    case Add(job, now, freshId) =>
      State(Added(s.jobs, job, now, freshId), s.flight, s.used + {Named(job, now, freshId).id})
    case Claim(id, now) =>
      State(Claimed(s.jobs, id, now), if Claimable(s.jobs, id) then s.flight + multiset{id} else s.flight, s.used)
    case Finish(id, result) => State(Finished(s.jobs, id, result), s.flight - multiset{id}, s.used)
    case Cancel(id, agentId) => s.(jobs := AfterCancel(s.jobs, id, agentId))
    case Delete(id) => s.(jobs := s.jobs - {id})
  }

  ghost predicate Legal(s: State, es: seq<Event>)
    decreases |es|
  {
    es != [] ==> Enabled(s, es[0]) && Legal(Next(s, es[0]), es[1..])
  }

  /** Along the run the id is not added again. */
  ghost predicate AddedOnce(s: State, es: seq<Event>, id: string)
    decreases |es|
  {
    es != [] ==> NotReused(s, es[0], id) && AddedOnce(Next(s, es[0]), es[1..], id)
  }

  function After(s: State, es: seq<Event>): State
    decreases |es|
  {
    if es == [] then s else After(Next(s, es[0]), es[1..])
  }

  // ----- the invariant

  ghost predicate JobInv(s: State, id: string)
    requires id in s.jobs
  {
    var job := s.jobs[id];
    && job.id == id
    && (job.status.Pending? ==> s.flight[id] == 0)
    && (job.status.Running? ==> s.flight[id] == 1)
    && (Settled(job.status) ==>
      s.flight[id] == 0 && job.result.Some? && job.result.value.success == job.status.Completed?)
  }

  ghost predicate Inv(s: State) {
    && s.jobs.Keys <= s.used
    && (forall id :: s.flight[id] <= 1 && (id in s.flight ==> id in s.used))
    && forall id :: id in s.jobs ==> JobInv(s, id)
  }

  lemma NextKeepsInv(s: State, e: Event)
    requires Inv(s) && Enabled(s, e)
    ensures Inv(Next(s, e))
  {
    NextKeepsFlight(s, e);
    hide JobInv, Next, Enabled;
    forall id | id in Next(s, e).jobs ensures JobInv(Next(s, e), id) { NextKeepsJob(s, e, id); }
  }

  lemma NextKeepsFlight(s: State, e: Event)
    requires Inv(s) && Enabled(s, e)
    ensures var t := Next(s, e);
      t.jobs.Keys <= t.used && forall id :: t.flight[id] <= 1 && (id in t.flight ==> id in t.used)
  {
    forall id ensures Next(s, e).flight[id] <= 1 {
      assert id in s.jobs ==> JobInv(s, id);
    }
  }

  lemma NextKeepsJob(s: State, e: Event, id: string)
    requires Inv(s) && Enabled(s, e) && id in Next(s, e).jobs
    ensures JobInv(Next(s, e), id)
  {
    if id in s.jobs { assert JobInv(s, id); }
  }

  lemma {:induction false} RunKeepsInv(s: State, es: seq<Event>)
    requires Inv(s) && Legal(s, es)
    ensures Inv(After(s, es))
    decreases |es|
  {
    if es != [] {
      NextKeepsInv(s, es[0]);
      RunKeepsInv(Next(s, es[0]), es[1..]);
    }
  }

  /** In every reachable state no id has two executors in flight, a running job has
      exactly one, a pending or settled one none, and a settled one a matching result. */
  lemma RunningHasOneExecutor(es: seq<Event>, id: string)
    requires Legal(INITIAL, es)
    ensures After(INITIAL, es).flight[id] <= 1
    ensures id in After(INITIAL, es).jobs ==> var s := After(INITIAL, es); var job := s.jobs[id];
      && (job.status.Running? ==> s.flight[id] == 1)
      && (job.status.Pending? ==> s.flight[id] == 0)
      && (Settled(job.status) ==>
            s.flight[id] == 0 && job.result.Some? && (job.status.Completed? <==> job.result.value.success))
  {
    RunKeepsInv(INITIAL, es);
    assert id in After(INITIAL, es).jobs ==> JobInv(After(INITIAL, es), id);
  }

  // ----- each job is claimed at most once

  /** Claims of id that succeed along the run. */
  function Claims(s: State, es: seq<Event>, id: string): nat
    decreases |es|
  {
    if es == [] then 0
    else
      (if es[0].Claim? && es[0].id == id && Claimable(s.jobs, id) then 1 else 0)
      + Claims(Next(s, es[0]), es[1..], id)
  }

  ghost predicate NeverAgain(s: State, id: string) {
    id in s.used && !Claimable(s.jobs, id)
  }

  lemma NeverAgainStays(s: State, e: Event, id: string)
    requires NeverAgain(s, id) && NotReused(s, e, id)
    ensures NeverAgain(Next(s, e), id)
  {
  }

  lemma {:induction false} NoMoreClaims(s: State, es: seq<Event>, id: string)
    requires NeverAgain(s, id) && AddedOnce(s, es, id)
    ensures Claims(s, es, id) == 0
    decreases |es|
  {
    if es != [] {
      NeverAgainStays(s, es[0], id);
      NoMoreClaims(Next(s, es[0]), es[1..], id);
    }
  }

  lemma {:induction false} ClaimedAtMostOnce(s: State, es: seq<Event>, id: string)
    requires Inv(s) && Legal(s, es) && AddedOnce(s, es, id)
    ensures Claims(s, es, id) <= 1
    decreases |es|
  {
    if es != [] {
      var t := Next(s, es[0]);
      NextKeepsInv(s, es[0]);
      if es[0].Claim? && es[0].id == id && Claimable(s.jobs, id) {
        NoMoreClaims(t, es[1..], id);
      } else {
        ClaimedAtMostOnce(t, es[1..], id);
      }
    }
  }

  // ----- what is final

  /** Deleted for good, or still there with the same status. */
  ghost predicate Keeps(s: State, id: string, st: Status) {
    id in s.used && (id in s.jobs ==> s.jobs[id].status == st)
  }

  lemma {:induction false} CancelledIsFinal(s: State, es: seq<Event>, id: string)
    requires AddedOnce(s, es, id) && Keeps(s, id, Cancelled)
    ensures Keeps(After(s, es), id, Cancelled)
    decreases |es|
  {
    hide *;
    AddedOnceStep(s, es, id);
    if es != [] {
      KeepsStep(s, es[0], id);
      CancelledIsFinal(Next(s, es[0]), es[1..], id);
    }
    AfterStep(s, es);
  }

  lemma KeepsStep(s: State, e: Event, id: string)
    requires NotReused(s, e, id) && Keeps(s, id, Cancelled)
    ensures Keeps(Next(s, e), id, Cancelled)
  {
  }

  lemma AddedOnceStep(s: State, es: seq<Event>, id: string)
    requires AddedOnce(s, es, id)
    ensures es != [] ==> NotReused(s, es[0], id) && AddedOnce(Next(s, es[0]), es[1..], id)
  {
  }

  lemma AfterStep(s: State, es: seq<Event>)
    ensures After(s, es) == if es == [] then s else After(Next(s, es[0]), es[1..])
  {
  }

  ghost predicate KeepsRecord(s: State, id: string, job: Record) {
    && id in s.used && id !in s.flight && Settled(job.status)
    && (id in s.jobs ==> s.jobs[id] == job)
  }

  lemma {:induction false} KeptToTheEnd(s: State, es: seq<Event>, id: string, job: Record)
    requires Legal(s, es) && AddedOnce(s, es, id) && KeepsRecord(s, id, job)
    ensures KeepsRecord(After(s, es), id, job)
    decreases |es|
  {
    hide *;
    AddedOnceStep(s, es, id);
    LegalStep(s, es);
    if es != [] {
      KeepsRecordStep(s, es[0], id, job);
      KeptToTheEnd(Next(s, es[0]), es[1..], id, job);
    }
    AfterStep(s, es);
  }

  lemma KeepsRecordStep(s: State, e: Event, id: string, job: Record)
    requires Enabled(s, e) && NotReused(s, e, id) && KeepsRecord(s, id, job)
    ensures KeepsRecord(Next(s, e), id, job)
  {
  }

  lemma LegalStep(s: State, es: seq<Event>)
    requires Legal(s, es)
    ensures es != [] ==> Enabled(s, es[0]) && Legal(Next(s, es[0]), es[1..])
  {
  }

  /** A completed or failed job keeps its whole record, result included, until
      it is deleted; once gone it does not come back. */
  lemma SettledIsFinal(es: seq<Event>, more: seq<Event>, id: string)
    requires Legal(INITIAL, es) && Legal(After(INITIAL, es), more)
    requires AddedOnce(After(INITIAL, es), more, id)
    requires id in After(INITIAL, es).jobs && Settled(After(INITIAL, es).jobs[id].status)
    ensures var s := After(INITIAL, es); var t := After(s, more);
      id in t.jobs ==> t.jobs[id] == s.jobs[id]
  {
    var s := After(INITIAL, es);
    RunKeepsInv(INITIAL, es);
    assert JobInv(s, id);
    KeptToTheEnd(s, more, id, s.jobs[id]);
  }

  // ----- the recorded result is the executor's

  lemma {:induction false} AfterSnoc(s: State, es: seq<Event>, e: Event)
    requires Legal(s, es + [e])
    ensures Legal(s, es) && Enabled(After(s, es), e)
    ensures After(s, es + [e]) == Next(After(s, es), e)
    decreases |es|
  {
    var all := es + [e];
    if es == [] {
      assert all == [e] && all[1..] == [];
    } else {
      assert all[0] == es[0] && all[1..] == es[1..] + [e];
      AfterSnoc(Next(s, es[0]), es[1..], e);
    }
  }

  /** A job settles only by a finish, which records its result. */
  lemma SettlesByFinish(s: State, e: Event, id: string)
    requires Inv(s) && Enabled(s, e)
    requires id in Next(s, e).jobs && Settled(Next(s, e).jobs[id].status)
    ensures var job := Next(s, e).jobs[id];
      || (id in s.jobs && s.jobs[id] == job)
      || (job.result.Some? && e == Finish(id, job.result.value))
  {
    assert id in s.jobs ==> JobInv(s, id);
  }

  ghost predicate Reported(es: seq<Event>, id: string, result: Option<JobResult>) {
    result.Some? && exists k :: 0 <= k < |es| && es[k] == Finish(id, result.value)
  }

  /** Every settled status was set by a finish that reported that very result. */
  lemma {:induction false} ResultIsReported(es: seq<Event>, id: string)
    requires Legal(INITIAL, es) && id in After(INITIAL, es).jobs
    requires Settled(After(INITIAL, es).jobs[id].status)
    ensures Reported(es, id, After(INITIAL, es).jobs[id].result)
    decreases |es|
  {
    hide Next, Enabled, Inv;
    if es != [] {
      var n := |es| - 1;
      var prefix, e := es[..n], es[n];
      assert es == prefix + [e];
      AfterSnoc(INITIAL, prefix, e);
      var s := After(INITIAL, prefix);
      InitialInv();
      RunKeepsInv(INITIAL, prefix);
      SettlesByFinish(s, e, id);
      if id in s.jobs && s.jobs[id] == Next(s, e).jobs[id] {
        ResultIsReported(prefix, id);
        var k :| 0 <= k < n && prefix[k] == Finish(id, s.jobs[id].result.value);
        assert es[k] == prefix[k];
      }
    }
  }

  lemma InitialInv()
    ensures Inv(INITIAL)
  {
  }

  // ----- when an id may be added again

  /** Adding an id keeps it at one executor, whatever follows, exactly when no executor
      of it is in flight. */
  lemma AddAgainIff(s: State, job: Record, now: int, freshId: string)
    requires Inv(s)
    ensures var id := Named(job, now, freshId).id; var t := Next(s, Add(job, now, freshId));
      id !in s.flight <==> forall es :: Legal(t, es) ==> After(t, es).flight[id] <= 1
  {
    hide Inv, After, Legal, Next;
    var id, e := Named(job, now, freshId).id, Add(job, now, freshId);
    var t := Next(s, e);
    if id !in s.flight {
      NextKeepsInv(s, e);
      forall es | Legal(t, es) ensures After(t, es).flight[id] <= 1 {
        RunKeepsInv(t, es);
        OneInFlight(After(t, es), id);
      }
    } else {
      SecondExecutor(s, job, now, freshId);
      var es := [Claim(id, now)];
      assert Legal(t, es) && After(t, es).flight[id] == 2;
    }
  }

  lemma OneInFlight(s: State, id: string)
    requires Inv(s)
    ensures s.flight[id] <= 1
  {
  }

  /** A job added under an id in flight is pending, and can be claimed at once. */
  lemma SecondExecutor(s: State, job: Record, now: int, freshId: string)
    requires Inv(s) && Named(job, now, freshId).id in s.flight
    ensures var id := Named(job, now, freshId).id; var t := Next(s, Add(job, now, freshId));
      Legal(t, [Claim(id, now)]) && After(t, [Claim(id, now)]).flight[id] == 2
  {
    var id := Named(job, now, freshId).id;
    var t, claim := Next(s, Add(job, now, freshId)), Claim(id, now);
    OneInFlight(s, id);
    assert s.flight[id] == 1 && t.flight == s.flight && t.jobs[id].status.Pending?;
    assert Next(t, claim).flight == s.flight + multiset{id};
    assert [claim][1..] == [];
    AfterStep(t, [claim]);
    AfterStep(Next(t, claim), []);
  }

  /** One such run: Add overwrites, and two executors run one job. */
  lemma ReusedIdRunsTwice(job: Record)
    requires job.id != ""
    ensures var es := [Add(job, 0, ""), Claim(job.id, 1), Add(job, 2, ""), Claim(job.id, 3)];
      After(INITIAL, es).flight[job.id] == 2
  {
    var a, c, b, d := Add(job, 0, ""), Claim(job.id, 1), Add(job, 2, ""), Claim(job.id, 3);
    var s1 := Next(INITIAL, a);
    var s2 := Next(s1, c);
    var s3 := Next(s2, b);
    var s4 := Next(s3, d);
    assert [a, c, b, d][1..] == [c, b, d] && [c, b, d][1..] == [b, d] && [b, d][1..] == [d] && [d][1..] == [];
    assert After(s3, [d]) == After(s4, []) == s4;
    assert After(s2, [b, d]) == s4;
    assert After(s1, [c, b, d]) == s4;
  }
}
