/**
 Runs of the scheduler: every interleaving of start handlers, workers and the
 shutdown goroutine, and what holds in all of them.
 */
module SchedulerRuns {
  import opened Scheduler
  import opened Sorting

  datatype Config = Config(maxActive: nat, maxQueued: nat, maxStored: nat)

  /**
   Where the handler and worker of one job are: created but not yet counted in
   the wait group, polling for a slot, inside the runner, finished but not yet
   signed off, gone; or given up because the job was not found.
   */
  datatype Pc = Created | Waiting | Working | Finishing | Returned | Abandoned

  /** The HTTP server: serving, stopped with every handler returned, or given up on after its timeout. */
  datatype Http = Serving | Stopped | TimedOut

  /**
   `admitted` handlers are past the shutdown check, `checked` handlers are past
   the capacity check as well; both kinds have no job yet.
   */
  datatype State = State(
    jobs: Jobs,
    threads: map<JobId, Pc>,
    inflight: int,
    admitted: nat,
    checked: nat,
    shutting: bool,
    http: Http,
    drained: bool)

  datatype Step =
    | Arrive
    | Refuse
    | CheckCapacity
    | Create(id: JobId, total: nat, now: int, kept: Jobs)
    | AddInflight(id: JobId)
    | Poll(id: JobId, now: int)
    | Progress(id: JobId, update: ProgressUpdate, now: int)
    | Finish(id: JobId, ok: bool, now: int)
    | Done(id: JobId)
    | BeginShutdown
    | HttpStop
    | HttpTimeout
    | DrainComplete

  function Init(): State {
    State(map[], map[], 0, 0, 0, false, Serving, false)
  }

  predicate At(s: State, id: JobId, pc: Pc) {
    id in s.threads && s.threads[id] == pc
  }

  function CreatedIds(threads: map<JobId, Pc>): set<JobId> {
    set id | id in threads && threads[id] == Created
  }

  /** No start handler is between the shutdown check and the wait group. */
  predicate Quiet(s: State) {
    s.admitted == 0 && s.checked == 0 && CreatedIds(s.threads) == {}
  }

  /** Job ids are fresh, and a runner makes no progress call after it returns. */
  ghost predicate Enabled(c: Config, s: State, step: Step) {
    match step
    case Arrive => !s.shutting
    case Refuse => s.admitted > 0
    case CheckCapacity => s.admitted > 0
    case Create(id, total, now, kept) =>
      s.checked > 0 && id !in s.threads && id !in s.jobs && Trimmed(s.jobs[id := NewJob(total, now)], kept, c.maxStored)
    case AddInflight(id) => At(s, id, Created)
    case Poll(id, _) => At(s, id, Waiting)
    case Progress(id, _, _) => At(s, id, Working)
    case Finish(id, _, _) => At(s, id, Working)
    case Done(id) => At(s, id, Finishing) || At(s, id, Abandoned)
    case BeginShutdown => true
    case HttpStop => s.shutting && s.http == Serving && Quiet(s)
    case HttpTimeout => s.shutting && s.http == Serving
    case DrainComplete => s.http != Serving && s.inflight == 0
  }

  ghost function Apply(c: Config, s: State, step: Step): State
    requires Enabled(c, s, step)
  {
    match step
    case Arrive => s.(admitted := s.admitted + 1)
    case Refuse => s.(admitted := s.admitted - 1)
    case CheckCapacity =>
      s.(admitted := s.admitted - 1, checked := if HasCapacity(s.jobs, c.maxActive,
        c.maxQueued) then s.checked + 1 else s.checked)
    case Create(id, _, _, kept) => s.(checked := s.checked - 1, jobs := kept, threads := s.threads[id := Created])
    case AddInflight(id) => s.(inflight := s.inflight + 1, threads := s.threads[id := Waiting])
    case Poll(id, now) =>
      if id !in s.jobs then s.(threads := s.threads[id := Abandoned])
      else
        var jobs := AcquireSlot(s.jobs, id, c.maxActive, now);
        s.(jobs := jobs, threads := if jobs[id].state == Running then s.threads[id := Working] else s.threads)
    case Progress(id, u, now) => s.(jobs := UpdateJob(s.jobs, id, job => ProgressJob(job, u), now))
    case Finish(id, ok, now) =>
      s.(jobs := UpdateJob(s.jobs, id, job => FinishJob(job, ok), now), threads := s.threads[id := Finishing])
    case Done(id) => s.(inflight := s.inflight - 1, threads := s.threads[id := Returned])
    case BeginShutdown => s.(shutting := true)
    case HttpStop => s.(http := Stopped)
    case HttpTimeout => s.(http := TimedOut)
    case DrainComplete => s.(drained := true)
  }

  /** `s` can go to `t` by the steps in order, each enabled when it is taken. */
  ghost predicate Leads(c: Config, s: State, steps: seq<Step>, t: State)
    decreases |steps|
  {
    if steps == [] then s == t
    else Enabled(c, s, steps[0]) && Leads(c, Apply(c, s, steps[0]), steps[1..], t)
  }

  ghost predicate Reachable(c: Config, s: State) {
    exists steps :: Leads(c, Init(), steps, s)
  }

  // ---- The invariant ----

  predicate Counted(pc: Pc) {
    pc == Waiting || pc == Working || pc == Finishing || pc == Abandoned
  }

  function CountedIds(threads: map<JobId, Pc>): set<JobId> {
    set id | id in threads && Counted(threads[id])
  }

  /** A job's stored state follows from where its handler and worker are. */
  predicate Consistent(jobs: Jobs, id: JobId, pc: Pc) {
    match pc
    case Created => id in jobs && jobs[id].state == Queued
    case Waiting => id in jobs && jobs[id].state == Queued
    case Working => id in jobs && jobs[id].state == Running
    case Finishing => id in jobs ==> Finished(jobs[id])
    case Returned => id in jobs ==> Finished(jobs[id])
    case Abandoned => false
  }

  ghost predicate Inv(c: Config, s: State) {
    && (forall id | id in s.threads :: Consistent(s.jobs, id, s.threads[id]))
    && (forall id | id in s.jobs :: id in s.threads && 0 <= s.jobs[id].percent <= 100)
    && s.inflight == |CountedIds(s.threads)|
    && |RunningIds(s.jobs)| <= c.maxActive
  }

  lemma CreateKeepsInv(c: Config, s: State, step: Step)
    requires Inv(c, s) && step.Create? && Enabled(c, s, step)
    ensures Inv(c, Apply(c, s, step))
  {
    var t := Apply(c, s, step);
    SubsetSize(RunningIds(t.jobs), RunningIds(s.jobs));
    assert CountedIds(t.threads) == CountedIds(s.threads);
    forall id | id in t.threads
      ensures Consistent(t.jobs, id, t.threads[id])
    {
      if id == step.id { assert id in t.jobs; } else { assert Consistent(s.jobs, id, s.threads[id]); }
    }
  }

  lemma PollKeepsInv(c: Config, s: State, step: Step)
    requires Inv(c, s) && step.Poll? && Enabled(c, s, step)
    ensures Inv(c, Apply(c, s, step))
  {
    var t := Apply(c, s, step);
    assert Consistent(s.jobs, step.id, Waiting);
    assert CountedIds(t.threads) == CountedIds(s.threads);
    if t.jobs != s.jobs {
      assert RunningIds(t.jobs) == RunningIds(s.jobs) + {step.id};
    }
    forall id | id in t.threads
      ensures Consistent(t.jobs, id, t.threads[id])
    {
      assert Consistent(s.jobs, id, s.threads[id]);
    }
  }

  lemma UpdateKeepsInv(c: Config, s: State, step: Step)
    requires Inv(c, s) && (step.Progress? || step.Finish?) && Enabled(c, s, step)
    ensures Inv(c, Apply(c, s, step))
  {
    var t := Apply(c, s, step);
    assert Consistent(s.jobs, step.id, Working);
    assert CountedIds(t.threads) == CountedIds(s.threads);
    SubsetSize(RunningIds(t.jobs), RunningIds(s.jobs));
    forall id | id in t.threads
      ensures Consistent(t.jobs, id, t.threads[id])
    {
      assert Consistent(s.jobs, id, s.threads[id]);
    }
  }

  lemma AddKeepsInv(c: Config, s: State, step: Step)
    requires Inv(c, s) && step.AddInflight? && Enabled(c, s, step)
    ensures Inv(c, Apply(c, s, step))
  {
    var t := Apply(c, s, step);
    assert Consistent(s.jobs, step.id, Created);
    assert CountedIds(t.threads) == CountedIds(s.threads) + {step.id};
    forall id | id in t.threads
      ensures Consistent(t.jobs, id, t.threads[id])
    {
      assert Consistent(s.jobs, id, s.threads[id]);
    }
  }

  lemma DoneKeepsInv(c: Config, s: State, step: Step)
    requires Inv(c, s) && step.Done? && Enabled(c, s, step)
    ensures Inv(c, Apply(c, s, step))
  {
    var t := Apply(c, s, step);
    assert Consistent(s.jobs, step.id, s.threads[step.id]);
    assert CountedIds(t.threads) == CountedIds(s.threads) - {step.id};
    forall id | id in t.threads
      ensures Consistent(t.jobs, id, t.threads[id])
    {
      assert Consistent(s.jobs, id, s.threads[id]);
    }
  }

  /** Every step keeps the invariant. */
  lemma StepKeepsInv(c: Config, s: State, step: Step)
    requires Inv(c, s) && Enabled(c, s, step)
    ensures Inv(c, Apply(c, s, step))
  {
    match step
    case Create(_, _, _, _) => CreateKeepsInv(c, s, step);
    case AddInflight(_) => AddKeepsInv(c, s, step);
    case Poll(_, _) => PollKeepsInv(c, s, step);
    case Progress(_, _, _) => UpdateKeepsInv(c, s, step);
    case Finish(_, _, _) => UpdateKeepsInv(c, s, step);
    case Done(_) => DoneKeepsInv(c, s, step);
    case _ =>
  }

  lemma {:induction false} RunKeepsInv(c: Config, s: State, steps: seq<Step>, t: State)
    requires Inv(c, s) && Leads(c, s, steps, t)
    ensures Inv(c, t)
    decreases |steps|
  {
    if steps != [] {
      StepKeepsInv(c, s, steps[0]);
      RunKeepsInv(c, Apply(c, s, steps[0]), steps[1..], t);
    }
  }

  lemma ReachableInv(c: Config, s: State)
    requires Reachable(c, s)
    ensures Inv(c, s)
  {
    var steps :| Leads(c, Init(), steps, s);
    RunKeepsInv(c, Init(), steps, s);
  }

  // ---- What holds in every interleaving ----

  /** At most `maxActive` jobs run at any time. */
  lemma ActiveBound(c: Config, s: State)
    requires Reachable(c, s)
    ensures |RunningIds(s.jobs)| <= c.maxActive
  {
    ReachableInv(c, s);
  }

  /**
   No accepted job is lost: a worker that polls or runs always finds its job,
   with the state it expects, and no worker ever gives up on a missing job.
   */
  lemma NoJobLost(c: Config, s: State, id: JobId)
    requires Reachable(c, s) && id in s.threads
    ensures s.threads[id] != Abandoned
    ensures s.threads[id] in {Created, Waiting} ==> id in s.jobs && s.jobs[id].state == Queued
    ensures s.threads[id] == Working ==> id in s.jobs && s.jobs[id].state == Running
  {
    ReachableInv(c, s);
    assert Consistent(s.jobs, id, s.threads[id]);
  }

  function UnfinishedIds(jobs: Jobs): set<JobId> {
    set id | id in jobs && !Finished(jobs[id])
  }

  /** The wait group and the handlers between create and add account for every unfinished job. */
  lemma UnfinishedBound(c: Config, s: State)
    requires Reachable(c, s)
    ensures |UnfinishedIds(s.jobs)| <= s.inflight + |CreatedIds(s.threads)|
  {
    ReachableInv(c, s);
    var counted, created := CountedIds(s.threads), CreatedIds(s.threads);
    forall id | id in UnfinishedIds(s.jobs)
      ensures id in counted + created
    {
      assert Consistent(s.jobs, id, s.threads[id]);
    }
    SubsetSize(UnfinishedIds(s.jobs), counted + created);
    assert |counted + created| == |counted| + |created| - |counted * created|;
  }

  ghost predicate AllFinished(jobs: Jobs) {
    forall id | id in jobs :: Finished(jobs[id])
  }

  /**
   The drain reports completion when the wait group is empty. Then every stored
   job is completed or failed exactly when no handler is between creating its
   job and adding it to the wait group.
   */
  lemma DrainReport(c: Config, s: State)
    requires Reachable(c, s) && s.inflight == 0
    ensures AllFinished(s.jobs) <==> CreatedIds(s.threads) == {}
  {
    ReachableInv(c, s);
    if CreatedIds(s.threads) == {} {
      UnfinishedBound(c, s);
      forall id | id in s.jobs
        ensures Finished(s.jobs[id])
      {
        assert UnfinishedIds(s.jobs) == {};
        assert id !in UnfinishedIds(s.jobs);
      }
    } else {
      var id :| id in CreatedIds(s.threads);
      assert Consistent(s.jobs, id, Created);
    }
  }

  predicate Settled(s: State) {
    s.shutting && s.inflight == 0 && Quiet(s)
  }

  lemma SettledStep(c: Config, s: State, step: Step)
    requires Inv(c, s) && Settled(s) && Enabled(c, s, step)
    ensures Settled(Apply(c, s, step)) && Apply(c, s, step).jobs == s.jobs
  {
    assert CountedIds(s.threads) == {};
    forall id | id in s.threads
      ensures s.threads[id] == Returned
    {
      assert id !in CountedIds(s.threads) && id !in CreatedIds(s.threads);
    }
  }

  /**
   Once shutdown has begun, the wait group is empty and no start handler is in
   flight, the job table never changes again and holds finished jobs only.
   */
  lemma {:induction false} DrainIsFinal(c: Config, s: State, steps: seq<Step>, t: State)
    requires Reachable(c, s) && Settled(s) && Leads(c, s, steps, t)
    ensures t.jobs == s.jobs && AllFinished(t.jobs)
  {
    ReachableInv(c, s);
    DrainReport(c, s);
    SettledRun(c, s, steps, t);
  }

  lemma {:induction false} SettledRun(c: Config, s: State, steps: seq<Step>, t: State)
    requires Inv(c, s) && Settled(s) && Leads(c, s, steps, t)
    ensures t.jobs == s.jobs
    decreases |steps|
  {
    if steps != [] {
      SettledStep(c, s, steps[0]);
      StepKeepsInv(c, s, steps[0]);
      SettledRun(c, Apply(c, s, steps[0]), steps[1..], t);
    }
  }

  /** Once the server has stopped no start handler is left, and once the drain has reported after that, no worker. */
  predicate ShutdownInv(s: State) {
    && (s.http != Serving ==> s.shutting)
    && (s.http == Stopped ==> Quiet(s))
    && (s.drained ==> s.http != Serving)
    && (s.drained && s.http == Stopped ==> s.inflight == 0)
  }

  lemma StepKeepsShutdown(c: Config, s: State, step: Step)
    requires Inv(c, s) && ShutdownInv(s) && Enabled(c, s, step)
    ensures ShutdownInv(Apply(c, s, step))
  {
    if s.http == Stopped {
      forall id | id in s.threads
        ensures s.threads[id] != Created
      {
        assert id !in CreatedIds(s.threads);
      }
      assert CreatedIds(Apply(c, s, step).threads) == {};
      assert step.Done? ==> step.id in CountedIds(s.threads);
    }
  }

  lemma {:induction false} RunKeepsShutdown(c: Config, s: State, steps: seq<Step>, t: State)
    requires Inv(c, s) && ShutdownInv(s) && Leads(c, s, steps, t)
    ensures ShutdownInv(t)
    decreases |steps|
  {
    if steps != [] {
      StepKeepsShutdown(c, s, steps[0]);
      StepKeepsInv(c, s, steps[0]);
      RunKeepsShutdown(c, Apply(c, s, steps[0]), steps[1..], t);
    }
  }

  /**
   When the HTTP server stopped without timing out, a drain that reports completion reports truly and finally: every
   stored job is finished, and the table never changes again.
   */
  lemma DrainAfterStop(c: Config, s: State, steps: seq<Step>, t: State)
    requires Reachable(c, s) && s.drained && s.http == Stopped && Leads(c, s, steps, t)
    ensures AllFinished(s.jobs) && t.jobs == s.jobs
  {
    var before :| Leads(c, Init(), before, s);
    RunKeepsShutdown(c, Init(), before, s);
    DrainIsFinal(c, s, steps, t);
  }

  // ---- What one job goes through over a run ----

  /** `after` is a later value of a job that was `before`. */
  predicate Advances(before: Job, after: Job) {
    && before.percent <= after.percent
    && (Finished(before) ==> after == before)
    && (before.state == Running ==> after.state != Queued)
  }

  lemma StepAdvances(c: Config, s: State, step: Step, id: JobId)
    requires Inv(c, s) && Enabled(c, s, step) && id in s.jobs && id in Apply(c, s, step).jobs
    ensures Advances(s.jobs[id], Apply(c, s, step).jobs[id])
  {
    assert Consistent(s.jobs, id, s.threads[id]);
  }

  /** A job that left the table does not come back. */
  lemma StepNeverRevives(c: Config, s: State, step: Step, id: JobId)
    requires Inv(c, s) && Enabled(c, s, step) && id in s.threads && id !in s.jobs
    ensures id in Apply(c, s, step).threads && id !in Apply(c, s, step).jobs
  {
  }

  /**
   Over any run a stored job's percentage never goes down, a finished job never
   changes again, and a running job never goes back to the queue; only finished
   jobs disappear.
   */
  lemma {:induction false} JobLifecycle(c: Config, s: State, steps: seq<Step>, t: State, id: JobId)
    requires Inv(c, s) && Leads(c, s, steps, t) && id in s.jobs
    ensures id in t.jobs ==> Advances(s.jobs[id], t.jobs[id])
    ensures id !in t.jobs ==> id in t.threads && t.threads[id] in {Finishing, Returned}
    decreases |steps|
  {
    if steps != [] {
      var m := Apply(c, s, steps[0]);
      StepKeepsInv(c, s, steps[0]);
      if id in m.jobs {
        StepAdvances(c, s, steps[0], id);
        JobLifecycle(c, m, steps[1..], t, id);
      } else {
        assert Consistent(s.jobs, id, s.threads[id]);
        GoneForGood(c, m, steps[1..], t, id);
      }
    }
  }

  lemma {:induction false} GoneForGood(c: Config, s: State, steps: seq<Step>, t: State, id: JobId)
    requires Inv(c, s) && Leads(c, s, steps, t) && id in s.threads && id !in s.jobs
    ensures id in t.threads && id !in t.jobs && t.threads[id] in {Finishing, Returned}
    decreases |steps|
  {
    if steps != [] {
      StepNeverRevives(c, s, steps[0], id);
      StepKeepsInv(c, s, steps[0]);
      GoneForGood(c, Apply(c, s, steps[0]), steps[1..], t, id);
    } else {
      assert Consistent(s.jobs, id, s.threads[id]);
    }
  }

  /** A waiting job gets a slot at its next poll exactly when one is free. */
  lemma PollStartsExactly(c: Config, s: State, id: JobId, now: int)
    requires Inv(c, s) && At(s, id, Waiting)
    ensures At(Apply(c, s, Poll(id, now)), id, Working) <==> |RunningIds(s.jobs)| < c.maxActive
    ensures var t := Apply(c, s, Poll(id, now));
      && t.jobs.Keys == s.jobs.Keys && id in s.jobs
      && (forall other | other in s.jobs && other != id :: t.jobs[other] == s.jobs[other])
      && (At(t, id, Working) ==> t.jobs[id].percent >= 1 && t.jobs[id].percent >= s.jobs[id].percent)
  {
    assert Consistent(s.jobs, id, Waiting);
  }

  /** What a run that succeeded, or failed, leaves of its job. */
  predicate EndedAs(before: Job, after: Job, ok: bool) {
    if ok then after.state == Completed && after.percent == 100
    else after.state == Failed && after.percent == before.percent
  }

  lemma FinishEnds(c: Config, s: State, id: JobId, ok: bool, now: int)
    requires Inv(c, s) && At(s, id, Working)
    ensures var t := Apply(c, s, Finish(id, ok, now));
      id in s.jobs && id in t.jobs && EndedAs(s.jobs[id], t.jobs[id], ok) && t.jobs[id].updatedAt == now
  {
    assert Consistent(s.jobs, id, Working);
  }

  /** Step `i` ends the run of a job with this outcome. */
  predicate EndsAt(steps: seq<Step>, i: nat, id: JobId, job: Job)
    requires i < |steps|
  {
    && steps[i].Finish? && steps[i].id == id
    && job.state == (if steps[i].ok then Completed else Failed)
    && (steps[i].ok ==> job.percent == 100)
  }

  /** Over any run a job ends completed exactly by a run of it that succeeded, and failed by one that failed. */
  lemma {:induction false} EndsByItsRun(c: Config, s: State, steps: seq<Step>, t: State, id: JobId)
    requires Inv(c, s) && Leads(c, s, steps, t)
    requires id in s.jobs ==> !Finished(s.jobs[id])
    requires id in t.jobs && Finished(t.jobs[id])
    ensures exists i: nat :: i < |steps| && EndsAt(steps, i, id, t.jobs[id])
    decreases |steps|
  {
    var m := Apply(c, s, steps[0]);
    StepKeepsInv(c, s, steps[0]);
    if steps[0].Finish? && steps[0].id == id {
      FinishEnds(c, s, id, steps[0].ok, steps[0].now);
      JobLifecycle(c, m, steps[1..], t, id);
      assert EndsAt(steps, 0, id, t.jobs[id]);
    } else {
      StillUnfinished(c, s, steps[0], id);
      EndsByItsRun(c, m, steps[1..], t, id);
      var i: nat :| i < |steps[1..]| && EndsAt(steps[1..], i, id, t.jobs[id]);
      assert EndsAt(steps, i + 1, id, t.jobs[id]);
    }
  }

  lemma StillUnfinished(c: Config, s: State, step: Step, id: JobId)
    requires Inv(c, s) && Enabled(c, s, step) && (id in s.jobs ==> !Finished(s.jobs[id]))
    requires !(step.Finish? && step.id == id)
    ensures var m := Apply(c, s, step); id in m.jobs ==> !Finished(m.jobs[id])
  {
  }

  /** A run of one enabled step. */
  lemma LeadsOne(c: Config, s: State, step: Step)
    requires Enabled(c, s, step)
    ensures Leads(c, s, [step], Apply(c, s, step))
  {
    assert [step][1..] == [];
  }

  lemma LeadsMore(c: Config, s: State, steps: seq<Step>, m: State, step: Step)
    requires Leads(c, s, steps, m) && Enabled(c, m, step)
    ensures Leads(c, s, steps + [step], Apply(c, m, step))
  {
    LeadsOne(c, m, step);
    LeadsConcat(c, s, steps, m, [step], Apply(c, m, step));
  }

  /** When every slot is taken, some job that runs can end and leave its slot. */
  lemma SlotCanFree(c: Config, s: State, id: JobId) returns (steps: seq<Step>, t: State)
    requires Inv(c, s) && c.maxActive > 0 && At(s, id, Waiting)
    ensures Leads(c, s, steps, t) && Inv(c, t) && At(t, id, Waiting) && |RunningIds(t.jobs)| < c.maxActive
  {
    if |RunningIds(s.jobs)| < c.maxActive {
      steps, t := [], s;
    } else {
      var other :| other in RunningIds(s.jobs);
      assert Consistent(s.jobs, other, s.threads[other]);
      var step := Finish(other, true, 0);
      LeadsOne(c, s, step);
      StepKeepsInv(c, s, step);
      steps, t := [step], Apply(c, s, step);
      assert RunningIds(t.jobs) == RunningIds(s.jobs) - {other};
    }
  }

  /**
   No deadlock: from every reachable state, every job not yet ended can go on to end either way, whatever the other
   handlers have done so far.
   */
  lemma JobCanEnd(c: Config, s: State, id: JobId, ok: bool) returns (steps: seq<Step>, t: State)
    requires Inv(c, s) && c.maxActive > 0 && id in s.threads && s.threads[id] in {Created, Waiting, Working}
    ensures Leads(c, s, steps, t) && id in t.jobs && t.jobs[id].state == if ok then Completed else Failed
  {
    steps, t := [], s;
    if s.threads[id] == Created {
      LeadsOne(c, s, AddInflight(id));
      StepKeepsInv(c, s, AddInflight(id));
      steps, t := [AddInflight(id)], Apply(c, s, AddInflight(id));
    }
    if t.threads[id] == Waiting {
      var more, free := SlotCanFree(c, t, id);
      LeadsConcat(c, s, steps, t, more, free);
      PollStartsExactly(c, free, id, 0);
      LeadsMore(c, s, steps + more, free, Poll(id, 0));
      StepKeepsInv(c, free, Poll(id, 0));
      steps, t := steps + more + [Poll(id, 0)], Apply(c, free, Poll(id, 0));
    }
    LeadsMore(c, s, steps, t, Finish(id, ok, 0));
    FinishEnds(c, t, id, ok, 0);
    steps, t := steps + [Finish(id, ok, 0)], Apply(c, t, Finish(id, ok, 0));
  }

  // ---- What does not hold ----

  lemma {:induction false} LeadsConcat(c: Config, s: State, a: seq<Step>, m: State, b: seq<Step>, t: State)
    requires Leads(c, s, a, m) && Leads(c, m, b, t)
    ensures Leads(c, s, a + b, t)
    decreases |a|
  {
    if a == [] {
      assert a + b == b;
    } else {
      assert (a + b)[1..] == a[1..] + b;
      LeadsConcat(c, Apply(c, s, a[0]), a[1..], m, b, t);
    }
  }

  /** One more handler goes from arrival to a created job while no job has a slot. */
  lemma QueueOneMore(c: Config, s: State, id: JobId) returns (steps: seq<Step>, t: State)
    requires c.maxActive > 0 && !s.shutting && id !in s.jobs && id !in s.threads
    requires forall x | x in s.jobs :: s.jobs[x].state == Queued
    ensures Leads(c, s, steps, t)
    ensures t == s.(jobs := s.jobs[id := NewJob(0, 0)], threads := s.threads[id := Created])
  {
    var kept := s.jobs[id := NewJob(0, 0)];
    assert RunningIds(s.jobs) == {};
    var s1 := Apply(c, s, Arrive);
    var s2 := Apply(c, s1, CheckCapacity);
    t := Apply(c, s2, Create(id, 0, 0, kept));
    steps := [Arrive, CheckCapacity, Create(id, 0, 0, kept)];
    assert steps[1..] == [CheckCapacity, Create(id, 0, 0, kept)];
    assert steps[1..][1..] == [Create(id, 0, 0, kept)];
    assert Leads(c, s2, [Create(id, 0, 0, kept)], t) by {
      assert [Create(id, 0, 0, kept)][1..] == [];
    }
  }

  lemma {:induction false} QueueMany(c: Config, n: nat) returns (steps: seq<Step>, s: State)
    requires c.maxActive > 0
    ensures Leads(c, Init(), steps, s)
    ensures |s.jobs| == n && !s.shutting && s.inflight == 0 && s.http == Serving
    ensures forall id | id in s.jobs :: s.jobs[id].state == Queued
    ensures forall id | id in s.jobs || id in s.threads :: |id| < n
    ensures n > 0 ==> CreatedIds(s.threads) != {}
  {
    if n == 0 {
      steps, s := [], Init();
    } else {
      var pre, m := QueueMany(c, n - 1);
      var id := seq(n - 1, _ => 'x');
      var more, t := QueueOneMore(c, m, id);
      LeadsConcat(c, Init(), pre, m, more, t);
      steps, s := pre + more, t;
      assert s.jobs.Keys == m.jobs.Keys + {id};
      assert |s.jobs| == |s.jobs.Keys| && |m.jobs| == |m.jobs.Keys|;
      assert id in CreatedIds(s.threads);
    }
  }

  /**
   `maxQueued` bounds what the capacity check lets pass at one instant, not the
   queue: whatever the limit, some interleaving has `n` jobs queued.
   */
  lemma QueueLimitIsNotAnInvariant(c: Config, n: nat)
    requires c.maxActive > 0
    ensures exists s :: Reachable(c, s) && |QueuedIds(s.jobs)| == n
  {
    var steps, s := QueueMany(c, n);
    assert QueuedIds(s.jobs) == s.jobs.Keys;
    assert Reachable(c, s);
  }

  /**
   When the wait for HTTP handlers timed out, the drain can report completion while a job is still queued: its handler
   has not reached the wait group yet.
   */
  lemma DrainCanRaceHandler(c: Config)
    requires c.maxActive > 0
    ensures exists s :: Reachable(c, s) && s.drained && s.http == TimedOut && !AllFinished(s.jobs)
  {
    var pre, m := QueueMany(c, 1);
    var s1 := Apply(c, m, BeginShutdown);
    var s2 := Apply(c, s1, HttpTimeout);
    var s := Apply(c, s2, DrainComplete);
    var tail := [BeginShutdown, HttpTimeout, DrainComplete];
    assert Leads(c, m, tail, s) by {
      assert tail[1..] == [HttpTimeout, DrainComplete];
      assert [HttpTimeout, DrainComplete][1..] == [DrainComplete];
      assert [DrainComplete][1..] == [];
      assert Leads(c, s2, [DrainComplete], s);
      assert Leads(c, s1, [HttpTimeout, DrainComplete], s);
    }
    LeadsConcat(c, Init(), pre, m, tail, s);
    assert Reachable(c, s);
    DrainReport(c, s);
  }
}
