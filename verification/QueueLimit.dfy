/**
 When the limit on queued jobs holds: the capacity check and the creation of the job are separate critical sections,
 and the check also passes when a slot is free.
 */
module QueueLimit {
  import opened Scheduler
  import opened SchedulerRuns
  import opened Sorting

  // ---- One step ----

  lemma CreateQueues(c: Config, s: State, step: Step)
    requires step.Create? && Enabled(c, s, step)
    ensures |QueuedIds(Apply(c, s, step).jobs)| == |QueuedIds(s.jobs)| + 1
  {
    assert QueuedIds(Apply(c, s, step).jobs) == QueuedIds(s.jobs) + {step.id};
  }

  lemma OthersDoNotQueue(c: Config, s: State, step: Step)
    requires Inv(c, s) && Enabled(c, s, step) && !step.Create?
    ensures |QueuedIds(Apply(c, s, step).jobs)| <= |QueuedIds(s.jobs)|
  {
    if step.Poll? || step.Progress? || step.Finish? {
      assert Consistent(s.jobs, step.id, s.threads[step.id]);
    }
    SubsetSize(QueuedIds(Apply(c, s, step).jobs), QueuedIds(s.jobs));
  }

  /** The queue passes its limit exactly when a job is created while it is full. */
  lemma StepOverflowsExactly(c: Config, s: State, step: Step)
    requires Inv(c, s) && Enabled(c, s, step) && |QueuedIds(s.jobs)| <= c.maxQueued
    ensures |QueuedIds(Apply(c, s, step).jobs)| > c.maxQueued <==> step.Create? && |QueuedIds(s.jobs)| == c.maxQueued
  {
    if step.Create? { CreateQueues(c, s, step); } else { OthersDoNotQueue(c, s, step); }
  }

  // ---- One handler running alone ----

  /**
   A handler that runs from arrival to its created job with nothing in between leaves more jobs queued than the limit
   exactly when it found the queue full and a slot free.
   */
  lemma LoneHandlerOverflowsExactly(c: Config, s: State, id: JobId, total: nat, now: int, kept: Jobs)
    requires !s.shutting && id !in s.threads && id !in s.jobs &&
      Trimmed(s.jobs[id := NewJob(total, now)], kept, c.maxStored)
    ensures var checked := Apply(c, Apply(c, s, Arrive), CheckCapacity);
      && (checked.checked > s.checked <==> HasCapacity(s.jobs, c.maxActive, c.maxQueued))
      && ((&& checked.checked > s.checked
           && |QueuedIds(Apply(c, checked, Create(id, total, now, kept)).jobs)| > c.maxQueued) <==>
          (|QueuedIds(s.jobs)| >= c.maxQueued && |RunningIds(s.jobs)| < c.maxActive))
  {
    var checked := Apply(c, Apply(c, s, Arrive), CheckCapacity);
    if checked.checked > s.checked { CreateQueues(c, checked, Create(id, total, now, kept)); }
  }

  // ---- Handlers past the check ----

  predicate CreatesOnly(steps: seq<Step>) {
    forall i | 0 <= i < |steps| :: steps[i].Create?
  }

  lemma {:induction false} CreatesAdd(c: Config, s: State, steps: seq<Step>, t: State)
    requires CreatesOnly(steps) && Leads(c, s, steps, t)
    ensures |steps| <= s.checked && |QueuedIds(t.jobs)| == |QueuedIds(s.jobs)| + |steps|
    decreases |steps|
  {
    if steps != [] {
      CreateQueues(c, s, steps[0]);
      CreatesAdd(c, Apply(c, s, steps[0]), steps[1..], t);
    }
  }

  lemma {:induction false} Oldest(jobs: Jobs, ids: set<JobId>) returns (oldest: JobId)
    requires ids != {} && ids <= jobs.Keys
    ensures oldest in ids && forall id | id in ids :: jobs[oldest].updatedAt <= jobs[id].updatedAt
    decreases |ids|
  {
    var first :| first in ids;
    oldest := first;
    var rest := ids - {first};
    if rest != {} {
      var other := Oldest(jobs, rest);
      if jobs[other].updatedAt < jobs[first].updatedAt { oldest := other; }
      assert forall id | id in ids :: id == first || id in rest;
    }
  }

  /** A table can always be trimmed. */
  lemma {:induction false} TrimExists(jobs: Jobs, limit: nat) returns (kept: Jobs)
    ensures Trimmed(jobs, kept, limit)
    decreases |jobs|
  {
    var finished := set id | id in jobs && Finished(jobs[id]);
    if |jobs| <= limit || finished == {} {
      kept := jobs;
      assert forall id | id in jobs && Finished(jobs[id]) :: id in finished;
    } else {
      var x := Oldest(jobs, finished);
      var rest := jobs - {x};
      assert rest.Keys == jobs.Keys - {x};
      assert |rest| == |rest.Keys| && |jobs| == |jobs.Keys|;
      kept := TrimExists(rest, limit);
      assert forall id | id in jobs && Finished(jobs[id]) :: id in finished;
    }
  }

  lemma {:induction false} Longest(ids: set<JobId>) returns (n: nat)
    ensures forall id | id in ids :: |id| <= n
  {
    n := 0;
    if ids != {} {
      var x :| x in ids;
      var m := Longest(ids - {x});
      n := if |x| > m then |x| else m;
    }
  }

  /** All the handlers past the check can create their jobs one after the other. */
  lemma {:induction false} CreatesPossible(c: Config, s: State, n: nat) returns (steps: seq<Step>, t: State)
    requires n <= s.checked
    ensures CreatesOnly(steps) && |steps| == n && Leads(c, s, steps, t)
    decreases n
  {
    if n == 0 {
      steps, t := [], s;
    } else {
      var longest := Longest(s.jobs.Keys + s.threads.Keys);
      var id: JobId := seq(longest + 1, _ => 'x');
      assert id !in s.jobs.Keys + s.threads.Keys;
      var kept := TrimExists(s.jobs[id := NewJob(0, 0)], c.maxStored);
      var step := Create(id, 0, 0, kept);
      var rest;
      rest, t := CreatesPossible(c, Apply(c, s, step), n - 1);
      steps := [step] + rest;
      assert steps[1..] == rest;
    }
  }

  ghost predicate CreatesFit(c: Config, s: State) {
    forall steps, t | CreatesOnly(steps) && Leads(c, s, steps, t) :: |QueuedIds(t.jobs)| <= c.maxQueued
  }

  /**
   In whatever order the handlers past the check create their jobs the queue stays within its limit, exactly when it
   has room for all of them.
   */
  lemma CreatesFitExactly(c: Config, s: State)
    ensures CreatesFit(c, s) <==> |QueuedIds(s.jobs)| + s.checked <= c.maxQueued
  {
    forall steps, t | CreatesOnly(steps) && Leads(c, s, steps, t)
      ensures |QueuedIds(t.jobs)| <= |QueuedIds(s.jobs)| + s.checked
    {
      CreatesAdd(c, s, steps, t);
    }
    var steps, t := CreatesPossible(c, s, s.checked);
    CreatesAdd(c, s, steps, t);
  }
}
