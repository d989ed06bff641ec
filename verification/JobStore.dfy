/** The job store of internal/scheduler/scheduler.go. Each method is one region
    under the store's lock; the clock and generated ids are parameters. */
module JobStore {
  import opened Strings

  datatype Status = Pending | Running | Completed | Failed | Cancelled

  datatype JobResult = JobResult(success: bool, output: string, error: string, startedAt: int, finishedAt: int)

  /** A job's value. `createdAt` is None for Go's zero time. */
  datatype Record = Record(
    id: string, agentId: string, workspace: string, kind: string, params: map<string, string>,
    scheduledAt: int, createdAt: Option<int>, status: Status,
    lastRun: Option<int>, nextRun: Option<int>, result: Option<JobResult>)

  type Jobs = map<string, Record>

  datatype Reply = Done | NotFound | Unauthorized | Already(status: Status)

  // ----- what each operation does to the stored values

  function Settled(st: Status): bool { st.Completed? || st.Failed? }

  function Named(job: Record, now: int, freshId: string): (r: Record) {
    job.(id := if job.id == "" then freshId else job.id,
         createdAt := if job.createdAt.None? then Some(now) else job.createdAt,
         status := Pending)
  }

  function Added(jobs: Jobs, job: Record, now: int, freshId: string): Jobs {
    jobs[Named(job, now, freshId).id := Named(job, now, freshId)]
  }

  predicate Claimable(jobs: Jobs, id: string) {
    id in jobs && jobs[id].status.Pending?
  }

  function Claimed(jobs: Jobs, id: string, now: int): Jobs {
    if Claimable(jobs, id) then jobs[id := jobs[id].(status := Running, lastRun := Some(now))] else jobs
  }

  function Finished(jobs: Jobs, id: string, result: JobResult): Jobs {
    if id !in jobs then jobs
    else
      var job := jobs[id].(result := Some(result));
      jobs[id := if !job.status.Running? then job
                 else job.(status := if result.success then Completed else Failed)]
  }

  function CancelReply(jobs: Jobs, id: string, agentId: string): Reply {
    if id !in jobs then NotFound
    else if jobs[id].agentId != agentId then Unauthorized
    else if Settled(jobs[id].status) then Already(jobs[id].status)
    else Done
  }

  function AfterCancel(jobs: Jobs, id: string, agentId: string): Jobs {
    if CancelReply(jobs, id, agentId).Done? then jobs[id := jobs[id].(status := Cancelled)] else jobs
  }

  lemma AddedIs(jobs: Jobs, job: Record, now: int, freshId: string)
    ensures var named := Named(job, now, freshId); Added(jobs, job, now, freshId) == jobs[named.id := named]
  {
  }

  // ----- the store

  class Job {
    var id: string
    var agentId: string
    var workspace: string
    var kind: string
    var params: map<string, string>
    var scheduledAt: int
    var createdAt: Option<int>
    var status: Status
    var lastRun: Option<int>
    var nextRun: Option<int>
    var result: Option<JobResult>

    function Value(): Record
      reads this
    {
      Record(id, agentId, workspace, kind, params, scheduledAt, createdAt, status, lastRun, nextRun, result)
    }

    constructor (r: Record)
      ensures Value() == r
    {
      id, agentId, workspace, kind, params := r.id, r.agentId, r.workspace, r.kind, r.params;
      scheduledAt, createdAt, status := r.scheduledAt, r.createdAt, r.status;
      lastRun, nextRun, result := r.lastRun, r.nextRun, r.result;
    }

    /** The part of Add before the lock. */
    method Name(now: int, freshId: string)
      modifies this
      ensures Value() == Named(old(Value()), now, freshId)
    {
      if id == "" { id := freshId; }
      if createdAt.None? { createdAt := Some(now); }
      status := Pending;
    }

    method Clone() returns (c: Job)
      ensures fresh(c) && c.Value() == Value()
    {
      c := new Job(Value());
    }
  }

  class Store {
    var jobs: map<string, Job>

    /** No two ids share a stored job. */
    ghost predicate Valid()
      reads this
    {
      forall i, j :: i in jobs && j in jobs && jobs[i] == jobs[j] ==> i == j
    }

    ghost function Contents(): Jobs
      reads this, jobs.Values
    {
      map id | id in jobs :: jobs[id].Value()
    }

    constructor ()
      ensures Valid() && Contents() == map[]
    {
      jobs := map[];
    }

    /** Callers hold copies only, so `job` is not itself a stored job. */
    method Add(job: Job, now: int, freshId: string)
      requires Valid() && job !in jobs.Values
      modifies this, job
      ensures Valid() && job !in jobs.Values
      ensures job.Value() == Named(old(job.Value()), now, freshId)
      ensures Contents() == Added(old(Contents()), old(job.Value()), now, freshId)
      ensures forall j :: j in jobs.Values ==> j in old(jobs.Values) || fresh(j)
    {
      hide Named, Added;
      AddedIs(Contents(), job.Value(), now, freshId);
      job.Name(now, freshId);
      assert Contents() == old(Contents());
      var copy := job.Clone();
      Keep(copy);
    }

    /** The region under the lock. */
    method Keep(copy: Job)
      requires Valid() && copy !in jobs.Values
      modifies this
      ensures Valid() && jobs == old(jobs)[copy.id := copy]
      ensures Contents() == old(Contents())[copy.id := copy.Value()]
    {
      jobs := jobs[copy.id := copy];
    }

    method Get(id: string) returns (r: Option<Job>)
      requires Valid()
      ensures r.Some? <==> id in jobs
      ensures r.Some? ==> fresh(r.value) && r.value.Value() == Contents()[id]
    {
      if id !in jobs { return None; }
      var copy := jobs[id].Clone();
      return Some(copy);
    }

    method Claim(id: string, now: int) returns (r: Option<Job>)
      requires Valid()
      modifies jobs.Values
      ensures Valid() && jobs == old(jobs)
      ensures Contents() == Claimed(old(Contents()), id, now)
      ensures r.Some? <==> Claimable(old(Contents()), id)
      ensures r.Some? ==> fresh(r.value) && r.value.Value() == Contents()[id]
    {
      if id !in jobs || jobs[id].status != Pending { return None; }
      var job := jobs[id];
      job.status := Running;
      job.lastRun := Some(now);
      var copy := job.Clone();
      return Some(copy);
    }

    method Finish(id: string, result: JobResult)
      requires Valid()
      modifies jobs.Values
      ensures Valid() && jobs == old(jobs)
      ensures Contents() == Finished(old(Contents()), id, result)
    {
      if id !in jobs { return; }
      var job := jobs[id];
      job.result := Some(result);
      if job.status != Running { return; }
      if result.success { job.status := Completed; } else { job.status := Failed; }
    }

    method Delete(id: string) returns (r: Reply)
      requires Valid()
      modifies this
      ensures Valid()
      ensures r == if id in old(jobs) then Done else NotFound
      ensures Contents() == old(Contents()) - {id}
    {
      if id !in jobs { return NotFound; }
      jobs := jobs - {id};
      return Done;
    }

    method Cancel(id: string, agentId: string) returns (r: Reply)
      requires Valid()
      modifies jobs.Values
      ensures Valid() && jobs == old(jobs)
      ensures r == CancelReply(old(Contents()), id, agentId)
      ensures Contents() == AfterCancel(old(Contents()), id, agentId)
    {
      if id !in jobs { return NotFound; }
      var job := jobs[id];
      if job.agentId != agentId { return Unauthorized; }
      if job.status == Completed || job.status == Failed { return Already(job.status); }
      job.status := Cancelled;
      return Done;
    }

    /** The pending jobs due before now, in any order, each once. */
    method Due(now: int) returns (pending: seq<string>)
      ensures forall id :: id in pending <==> id in jobs && jobs[id].status.Pending? && jobs[id].scheduledAt < now
      ensures forall i, j :: 0 <= i < j < |pending| ==> pending[i] != pending[j]
    {
      pending := [];
      var left := jobs.Keys;
      while left != {}
        invariant left <= jobs.Keys
        invariant forall id :: id in pending <==>
          id in jobs && id !in left && jobs[id].status.Pending? && jobs[id].scheduledAt < now
        invariant forall i, j :: 0 <= i < j < |pending| ==> pending[i] != pending[j]
        decreases left
      {
        var id :| id in left;
        if jobs[id].status == Pending && jobs[id].scheduledAt < now { pending := pending + [id]; }
        left := left - {id};
      }
    }

    /** executeJob with no other step between the claim and the finish. */
    method Execute(id: string, now: int, finishedAt: int, wrapupError: Option<string>)
      requires Valid()
      modifies jobs.Values
      ensures Valid() && jobs == old(jobs)
      ensures Contents() == if !Claimable(old(Contents()), id) then old(Contents())
        else Finished(Claimed(old(Contents()), id, now), id,
          Outcome(old(Contents())[id].kind, now, finishedAt, wrapupError))
    {
      var claimed := Claim(id, now);
      if claimed.None? { return; }
      var job := claimed.value;
      var result := JobResult(false, "", "", now, finishedAt);
      if job.kind == WRAPUP {
        if wrapupError.None? {
          result := result.(success := true);
        } else {
          result := result.(error := wrapupError.value);
        }
      } else {
        result := result.(error := "unknown job type: " + job.kind);
      }
      Finish(id, result);
    }
  }

  const WRAPUP := "clockify.wrapup"

  /** What an executor reports for a claimed job. */
  function Outcome(kind: string, now: int, finishedAt: int, wrapupError: Option<string>): JobResult {
    var success := kind == WRAPUP && wrapupError.None?;
    var error := if success then "" else if kind == WRAPUP then wrapupError.value else "unknown job type: " + kind;
    JobResult(success, "", error, now, finishedAt)
  }
}
