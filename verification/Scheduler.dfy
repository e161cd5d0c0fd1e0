/**
 The validate-job scheduler: start handlers and worker goroutines share a job
 table under a lock. Every critical section is one atomic step; a run is any
 interleaving of the steps of any number of handlers and workers.
 */
module Scheduler {
  import opened Sorting

  type JobId = string

  datatype JobState = Queued | Running | Completed | Failed

  datatype Job = Job(state: JobState, percent: int, totalProfiles: int, completedProfiles: int, updatedAt: int)

  type Jobs = map<JobId, Job>

  predicate Finished(job: Job) {
    job.state == Completed || job.state == Failed
  }

  datatype Stage =
    | PrepareRun | InspectArtifact | StageArtifact | LoadMatrix | LoadManifest
    | ValidateTargets | WriteReport | PersistRegistry | CompletedStage | OtherStage

  datatype ProgressUpdate = ProgressUpdate(stage: Stage, totalProfiles: int, completedProfiles: int)

  function Clamp(value: int, low: int, high: int): int {
    if value < low then low else if value > high then high else value
  }

  /** Progress estimate of a stage; only target validation depends on the profile counts. */
  function EstimatePercent(stage: Stage, completed: int, total: int): (r: int)
    ensures 5 <= r <= 100
    ensures r == 100 ==> stage == CompletedStage
  {
    match stage
    case PrepareRun => 5
    case InspectArtifact => 15
    case StageArtifact => 25
    case LoadMatrix => 35
    case LoadManifest => 40
    case ValidateTargets =>
      if total <= 0 then 50 else
        var done := Clamp(completed, 0, total);
        assert 0 <= (done * 45) / total <= 45 by { ScaledShare(done, total); }
        45 + (done * 45) / total
    case WriteReport => 92
    case PersistRegistry => 97
    case CompletedStage => 100
    case OtherStage => 5
  }

  lemma MulGrows(a: int, b: int, d: int)
    requires a <= b && 0 <= d
    ensures a * d <= b * d
  {
    assert 0 <= (b - a) * d;
  }

  lemma QuotientGrows(x: int, y: int, d: int)
    requires x <= y && 0 < d
    ensures x / d <= y / d
  {
    if y / d < x / d { MulGrows(y / d + 1, x / d, d); }
  }

  lemma WholeQuotient(q: int, d: int)
    requires 0 < d
    ensures (q * d) / d == q
  {
    var r := (q * d) / d;
    if r < q { MulGrows(r + 1, q, d); }
    if q < r { MulGrows(q + 1, r, d); }
  }

  lemma ScaledShare(done: int, total: int)
    requires 0 <= done <= total && 0 < total
    ensures 0 <= (done * 45) / total <= 45
  {
    WholeQuotient(0, total);
    WholeQuotient(45, total);
    QuotientGrows(0, done * 45, total);
    QuotientGrows(done * 45, 45 * total, total);
  }

  /** How far along a run a stage is. */
  function Rank(stage: Stage): nat {
    match stage
    case PrepareRun => 0
    case InspectArtifact => 1
    case StageArtifact => 2
    case LoadMatrix => 3
    case LoadManifest => 4
    case ValidateTargets => 5
    case WriteReport => 6
    case PersistRegistry => 7
    case CompletedStage => 8
    case OtherStage => 0
  }

  /** The estimate grows from stage to stage, whatever the profile counts, and with the validated profiles. */
  lemma EstimateGrows(a: Stage, b: Stage, completed: int, total: int, completed': int, total': int)
    ensures Rank(a) < Rank(b) ==> EstimatePercent(a, completed, total) < EstimatePercent(b, completed', total')
    ensures completed <= completed' ==> EstimatePercent(a, completed, total) <= EstimatePercent(a, completed', total)
  {
    if total > 0 {
      var done, done' := Clamp(completed, 0, total), Clamp(completed', 0, total);
      ScaledShare(done, total);
      if completed <= completed' { QuotientGrows(done * 45, done' * 45, total); }
    }
    if total' > 0 { ScaledShare(Clamp(completed', 0, total'), total'); }
  }

  /** Validating targets takes the estimate from 45 to 90: after `done` of `total` profiles, that share rounded down. */
  lemma EstimateIsShare(done: int, total: int)
    requires 0 <= done <= total && 0 < total
    ensures var share := EstimatePercent(ValidateTargets, done, total) - 45;
      share * total <= done * 45 < (share + 1) * total
    ensures EstimatePercent(ValidateTargets, 0, total) == 45 && EstimatePercent(ValidateTargets, total, total) == 90
  {
    ScaledShare(done, total);
    WholeQuotient(0, total);
    WholeQuotient(45, total);
  }

  // ---- Critical sections, as functions of the job table ----

  function NewJob(total: nat, now: int): Job {
    Job(Queued, 0, total, 0, now)
  }

  function RunningIds(jobs: Jobs): set<JobId> {
    set id | id in jobs && jobs[id].state == Running
  }

  function QueuedIds(jobs: Jobs): set<JobId> {
    set id | id in jobs && jobs[id].state == Queued
  }

  predicate HasCapacity(jobs: Jobs, maxActive: nat, maxQueued: nat) {
    |RunningIds(jobs)| < maxActive || |QueuedIds(jobs)| < maxQueued
  }

  /** One poll of the slot wait, for a job that is in the table. */
  function AcquireSlot(jobs: Jobs, id: JobId, maxActive: nat, now: int): Jobs
    requires id in jobs
  {
    var job := jobs[id];
    if job.state == Running || |RunningIds(jobs)| >= maxActive then jobs
    else jobs[id := job.(state := Running, percent := if job.percent < 1 then 1 else job.percent, updatedAt := now)]
  }

  /** What `updateValidateJob` adds around every mutation. */
  function Stamp(job: Job, now: int): Job {
    job.(percent := Clamp(job.percent, 0, 100), updatedAt := now)
  }

  function ProgressJob(job: Job, u: ProgressUpdate): Job {
    var total := if u.totalProfiles > 0 then u.totalProfiles else job.totalProfiles;
    var completed := if u.completedProfiles >= 0 then u.completedProfiles else job.completedProfiles;
    var next := EstimatePercent(u.stage, completed, total);
    job.(state := Running, totalProfiles := total, completedProfiles := completed,
         percent := if next > job.percent then next else job.percent)
  }

  function FinishJob(job: Job, ok: bool): Job {
    if ok then job.(state := Completed, percent := 100) else job.(state := Failed)
  }

  function UpdateJob(jobs: Jobs, id: JobId, mutate: Job -> Job, now: int): Jobs {
    if id in jobs then jobs[id := Stamp(mutate(jobs[id]), now)] else jobs
  }

  /** An update stamps one stored job and touches no other; its percentage is kept within 0 and 100. */
  lemma UpdatesOne(jobs: Jobs, id: JobId, mutate: Job -> Job, now: int, other: JobId)
    ensures var after := UpdateJob(jobs, id, mutate, now);
      && after.Keys == jobs.Keys
      && (other in jobs && other != id ==> after[other] == jobs[other])
      && (id in jobs ==>
          var (was, job) := (mutate(jobs[id]), after[id]);
          && job == was.(percent := job.percent, updatedAt := now) && 0 <= job.percent <= 100
          && (0 <= was.percent <= 100 ==> job.percent == was.percent)
          && (was.percent < 0 ==> job.percent == 0) && (was.percent > 100 ==> job.percent == 100))
  {
  }

  /**
   Progress marks the job running and takes over the counts it is given; the percentage is the greater of what it was
   and the stage's estimate.
   */
  lemma ProgressTakesOver(job: Job, u: ProgressUpdate)
    ensures var after := ProgressJob(job, u);
      && after.state == Running && after.updatedAt == job.updatedAt
      && (u.totalProfiles > 0 ==> after.totalProfiles == u.totalProfiles)
      && (u.totalProfiles <= 0 ==> after.totalProfiles == job.totalProfiles)
      && (u.completedProfiles >= 0 ==> after.completedProfiles == u.completedProfiles)
      && (u.completedProfiles < 0 ==> after.completedProfiles == job.completedProfiles)
      && var estimate := EstimatePercent(u.stage, after.completedProfiles, after.totalProfiles);
      && after.percent in {job.percent, estimate} && after.percent >= job.percent && after.percent >= estimate
  {
  }

  /**
   `after` is `before` trimmed to `limit` jobs: only finished jobs go, oldest
   update first, no more than needed, and trimming stops early only when no
   finished job is left.
   */
  ghost predicate Trimmed(before: Jobs, after: Jobs, limit: nat) {
    && after.Keys <= before.Keys
    && (forall id | id in after :: after[id] == before[id])
    && (forall id | id in before && id !in after :: Finished(before[id]))
    && (forall gone, kept | gone in before && gone !in after && kept in after && Finished(before[kept]) ::
          before[gone].updatedAt <= before[kept].updatedAt)
    && (|after| <= limit || forall id | id in after :: !Finished(after[id]))
    && (after != before ==> |after| >= limit)
  }

  // ---- The job table as the server holds it ----

  class JobTable {
    var jobs: Jobs
    const maxActive: nat
    const maxQueued: nat
    const maxStored: nat

    constructor (maxActive: nat, maxQueued: nat, maxStored: nat)
      ensures jobs == map[] && this.maxActive == maxActive && this.maxQueued == maxQueued && this.maxStored == maxStored
    {
      jobs := map[];
      this.maxActive, this.maxQueued, this.maxStored := maxActive, maxQueued, maxStored;
    }

    /** Counts running and queued jobs by scanning the table. */
    method Counts() returns (active: nat, queued: nat)
      ensures active == |RunningIds(jobs)| && queued == |QueuedIds(jobs)|
    {
      active, queued := 0, 0;
      var left := jobs.Keys;
      ghost var run, que := {}, {};
      while left != {}
        invariant left <= jobs.Keys
        invariant run == set id | id in jobs && id !in left && jobs[id].state == Running
        invariant que == set id | id in jobs && id !in left && jobs[id].state == Queued
        invariant active == |run| && queued == |que|
        decreases left
      {
        var id :| id in left;
        left := left - {id};
        match jobs[id].state
        case Running => active := active + 1; run := run + {id};
        case Queued => queued := queued + 1; que := que + {id};
        case _ =>
      }
      assert run == RunningIds(jobs) && que == QueuedIds(jobs);
    }

    method EnsureCapacity() returns (ok: bool)
      ensures ok == HasCapacity(jobs, maxActive, maxQueued)
    {
      var active, queued := Counts();
      ok := active < maxActive || queued < maxQueued;
    }

    /** Adds a queued job and trims the table. */
    method Create(id: JobId, total: nat, now: int)
      modifies this
      ensures Trimmed(old(jobs)[id := NewJob(total, now)], jobs, maxStored)
    {
      jobs := jobs[id := NewJob(total, now)];
      Trim();
    }

    method FinishedIds() returns (ids: seq<JobId>)
      ensures forall id :: id in ids <==> id in jobs && Finished(jobs[id])
      ensures Distinct(ids)
    {
      ids := [];
      var left := jobs.Keys;
      while left != {}
        invariant left <= jobs.Keys
        invariant forall id :: id in ids <==> id in jobs && id !in left && Finished(jobs[id])
        invariant Distinct(ids)
        decreases left
      {
        var id :| id in left;
        left := left - {id};
        if Finished(jobs[id]) { ids := ids + [id]; }
      }
    }

    method Trim()
      modifies this
      ensures Trimmed(old(jobs), jobs, maxStored)
    {
      if |jobs| <= maxStored { return; }
      var ids := FinishedIds();
      var before := jobs;
      var order := SortByUpdate(ids, before);
      var next := 0;
      while |jobs| > maxStored && next < |order|
        invariant 0 <= next <= |order|
        invariant Without(before, jobs, order[..next])
        invariant |jobs| >= maxStored
      {
        DropNext(before, jobs, order, next);
        jobs := jobs - {order[next]};
        next := next + 1;
      }
      TrimDone(before, jobs, order, next, maxStored);
    }

    /** One iteration of the slot wait: `found` is false when the job is not in the table. */
    method Poll(id: JobId, now: int) returns (found: bool, acquired: bool)
      modifies this
      ensures found == (id in old(jobs))
      ensures jobs == if found then AcquireSlot(old(jobs), id, maxActive, now) else old(jobs)
      ensures acquired == (found && jobs[id].state == Running)
      ensures acquired <==>
        id in old(jobs) && (old(jobs)[id].state == Running || |RunningIds(old(jobs))| < maxActive)
    {
      found, acquired := id in jobs, false;
      if found {
        var active, _ := Counts();
        var job := jobs[id];
        if job.state == Running {
          acquired := true;
        } else if active < maxActive {
          jobs := jobs[id := job.(state := Running, percent := if job.percent < 1 then 1 else job.percent,
            updatedAt := now)];
          acquired := true;
        }
      }
    }

    /** Looks the job up and mutates it in place; a missing job is ignored. */
    method Update(id: JobId, mutate: Job -> Job, now: int)
      modifies this
      ensures jobs == UpdateJob(old(jobs), id, mutate, now)
    {
      if id !in jobs { return; }
      var job := mutate(jobs[id]);
      job := job.(percent := Clamp(job.percent, 0, 100));
      jobs := jobs[id := job.(updatedAt := now)];
    }
  }

  /** `after` is `before` without the listed jobs. */
  ghost predicate Without(before: Jobs, after: Jobs, gone: seq<JobId>) {
    && (forall id | id in after :: id in before && after[id] == before[id])
    && (forall id | id in before :: id in after <==> id !in gone)
  }

  lemma DropNext(before: Jobs, jobs: Jobs, order: seq<JobId>, next: nat)
    requires next < |order| && Distinct(order) && order[next] in before
    requires Without(before, jobs, order[..next])
    ensures Without(before, jobs - {order[next]}, order[..next + 1])
    ensures |jobs - {order[next]}| == |jobs| - 1
  {
    var x := order[next];
    assert order[..next + 1] == order[..next] + [x];
    assert x !in order[..next];
    assert (jobs - {x}).Keys == jobs.Keys - {x};
    assert |jobs - {x}| == |(jobs - {x}).Keys|;
  }

  /** The table left after dropping a prefix of the oldest-first list of finished jobs. */
  lemma TrimDone(before: Jobs, after: Jobs, order: seq<JobId>, next: nat, limit: nat)
    requires forall id :: id in order <==> id in before && Finished(before[id])
    requires Distinct(order) && OldestFirst(order, before)
    requires next <= |order|
    requires Without(before, after, order[..next])
    requires |after| == limit || (|after| >= limit && next == |order|)
    ensures Trimmed(before, after, limit)
  {
    forall gone, kept | gone in before && gone !in after && kept in after && Finished(before[kept])
      ensures before[gone].updatedAt <= before[kept].updatedAt
    {
      assert forall k | 0 <= k < next :: order[k] in order[..next];
      var i :| 0 <= i < next && order[i] == gone;
      var j :| 0 <= j < |order| && order[j] == kept;
    }
    assert next == |order| ==> order[..next] == order;
  }

  ghost predicate OldestFirst(order: seq<JobId>, jobs: Jobs) {
    forall i, j | 0 <= i < j < |order| ::
      order[i] in jobs && order[j] in jobs && jobs[order[i]].updatedAt <= jobs[order[j]].updatedAt
  }

  method SortByUpdate(ids: seq<JobId>, jobs: Jobs) returns (order: seq<JobId>)
    requires forall id | id in ids :: id in jobs
    requires Distinct(ids)
    ensures forall id :: id in order <==> id in ids
    ensures Distinct(order)
    ensures OldestFirst(order, jobs)
  {
    var at := (id: JobId) => if id in jobs then jobs[id].updatedAt else 0;
    var lt := (a: JobId, b: JobId) => at(a) < at(b);
    assert StrictWeakOrder(lt) by {
      forall x, y, z ensures Lawful(lt, x, y, z) {}
    }
    order := SortUnstable(ids, lt);
    DistinctPermutation(ids, order);
    forall i, j | 0 <= i < j < |order|
      ensures order[i] in jobs && order[j] in jobs && jobs[order[i]].updatedAt <= jobs[order[j]].updatedAt
    {
      assert order[i] in order && order[j] in order;
      assert !lt(order[j], order[i]);
    }
  }
}
