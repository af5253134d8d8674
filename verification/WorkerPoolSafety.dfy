/** What holds in every interleaving of the worker pool: no job is lost or done
    twice, the counter counts the executing, the rotation agrees with the ready
    queue, and the scheduler leaves only when everything has been done. */
module WorkerPoolSafety {
  import opened Distinctness
  import opened Rotation
  import opened WorkerPool

  // ----- Who is where

  ghost function BusyIds(workers: seq<Worker>): multiset<int>
  {
    if workers == [] then multiset{}
    else
      var last := workers[|workers| - 1];
      BusyIds(workers[..|workers| - 1]) + JobOf(last)
  }

  ghost function BusyCount(workers: seq<Worker>): nat
  {
    if workers == [] then 0 else BusyCount(workers[..|workers| - 1]) + if workers[|workers| - 1].Busy? then 1 else 0
  }

  ghost function JobOf(w: Worker): multiset<int>
  {
    if w.Busy? then multiset{w.job.id} else multiset{}
  }

  lemma BusyLast(workers: seq<Worker>, x: Worker, id: int)
    ensures BusyIds(workers + [x])[id] == BusyIds(workers)[id] + JobOf(x)[id]
  {
    assert (workers + [x])[..|workers|] == workers;
  }

  lemma {:induction false} WorkerChanges(workers: seq<Worker>, w: nat, x: Worker, id: int)
    requires w < |workers|
    ensures BusyIds(workers[w := x])[id] + JobOf(workers[w])[id] == BusyIds(workers)[id] + JobOf(x)[id]
  {
    var most, last := workers[..|workers| - 1], workers[|workers| - 1];
    assert workers == most + [last];
    BusyLast(most, last, id);
    if w == |most| {
      assert workers[w := x] == most + [x];
      BusyLast(most, x, id);
    } else {
      assert workers[w := x] == most[w := x] + [last];
      BusyLast(most[w := x], last, id);
      WorkerChanges(most, w, x, id);
    }
  }

  lemma {:induction false} BusyCountChanges(workers: seq<Worker>, w: nat, x: Worker)
    requires w < |workers|
    ensures BusyCount(workers[w := x]) + (if workers[w].Busy? then 1 else 0)
         == BusyCount(workers) + if x.Busy? then 1 else 0
  {
    var n := |workers| - 1;
    if w == n {
      assert workers[w := x][..n] == workers[..n];
    } else {
      BusyCountChanges(workers[..n], w, x);
      assert workers[w := x][..n] == workers[..n][w := x];
    }
  }

  /** How often job `id` occurs, wherever it is. */
  ghost function Occurrences(s: Pool, id: int): nat
  {
    multiset(Ids(s.pending))[id] + multiset(Ids(s.ready))[id] + BusyIds(s.workers)[id] + multiset(Ids(s.completed))[id]
  }

  /** No job is lost and none appears twice. */
  ghost predicate Conserved(jobs: seq<Job>, s: Pool)
  {
    forall id :: Occurrences(s, id) == multiset(Ids(jobs))[id]
  }

  // ----- Dispatch counts

  ghost function RunsOf(jobs: seq<Job>): nat
  {
    if jobs == [] then 0 else RunsOf(jobs[..|jobs| - 1]) + jobs[|jobs| - 1].runs
  }

  ghost function BusyRuns(workers: seq<Worker>): nat
  {
    if workers == [] then 0
    else
      var last := workers[|workers| - 1];
      BusyRuns(workers[..|workers| - 1]) + if last.Busy? then last.job.runs else 0
  }

  ghost function TotalRuns(s: Pool): nat
  {
    RunsOf(s.ready) + BusyRuns(s.workers) + RunsOf(s.completed)
  }

  lemma {:induction false} BusyRunsChange(workers: seq<Worker>, w: nat, x: Worker)
    requires w < |workers|
    ensures BusyRuns(workers[w := x]) + (if workers[w].Busy? then workers[w].job.runs else 0)
         == BusyRuns(workers) + if x.Busy? then x.job.runs else 0
  {
    var n := |workers| - 1;
    if w == n {
      assert workers[w := x][..n] == workers[..n];
    } else {
      BusyRunsChange(workers[..n], w, x);
      assert workers[w := x][..n] == workers[..n][w := x];
    }
  }

  lemma {:induction false} RunsAdd(a: seq<Job>, b: seq<Job>)
    ensures RunsOf(a + b) == RunsOf(a) + RunsOf(b)
  {
    if b == [] {
      assert a + b == a;
    } else {
      var n := |b| - 1;
      assert (a + b)[..|a + b| - 1] == a + b[..n];
      RunsAdd(a, b[..n]);
    }
  }

  lemma RunsOne(jobs: seq<Job>, j: Job)
    ensures RunsOf(jobs + [j]) == RunsOf(jobs) + j.runs
  {
    assert (jobs + [j])[..|jobs|] == jobs;
  }

  lemma {:induction false} RunsWithout(jobs: seq<Job>, k: nat)
    requires k < |jobs|
    ensures RunsOf(jobs[..k] + jobs[k + 1..]) + jobs[k].runs == RunsOf(jobs)
  {
    var n := |jobs| - 1;
    if k == n {
      assert jobs[..k] + jobs[k + 1..] == jobs[..n];
    } else {
      var most := jobs[..n];
      RunsWithout(most, k);
      RunsOne(most[..k] + most[k + 1..], jobs[n]);
      assert jobs[..k] + jobs[k + 1..] == most[..k] + most[k + 1..] + [jobs[n]];
    }
  }

  lemma {:induction false} NeverRun(jobs: seq<Job>)
    requires forall k :: 0 <= k < |jobs| ==> jobs[k].runs == 0
    ensures RunsOf(jobs) == 0
  {
    if jobs != [] {
      NeverRun(jobs[..|jobs| - 1]);
    }
  }

  // ----- Each job's progress

  function Times(n: nat, x: real): real
  {
    if n == 0 then 0.0 else Times(n - 1, x) + x
  }

  /** Not executing: untouched, or short of its burst by one full slice for each dispatch. */
  ghost predicate Waiting(slice: real, j: Job)
  {
    && j.arrival >= 0.0 && j.burst >= 0.0
    && (j.runs == 0 ==> j.remaining == j.burst && j.start == -1.0)
    && (j.runs > 0 ==>
         slice > 0.0 && j.start >= j.arrival && j.remaining > SNAP && j.remaining == j.burst - Times(j.runs, slice))
  }

  ghost predicate Executing(slice: real, j: Job, execution: real, dispatchTime: real)
  {
    && j.arrival >= 0.0 && j.burst >= 0.0 && j.runs >= 1
    && dispatchTime >= j.arrival && j.start >= j.arrival && execution == Execution(slice, j.remaining)
    && (j.runs == 1 ==> j.remaining == j.burst && j.start == dispatchTime)
    && (j.runs > 1 ==> slice > 0.0 && j.remaining > SNAP && j.remaining == j.burst - Times(j.runs - 1, slice))
  }

  /** Done, in exactly as many dispatches as it takes to bring what remains of the burst down to `SNAP`. */
  ghost predicate Done(slice: real, j: Job)
  {
    && j.state == Finished && j.remaining == 0.0 && j.runs >= 1
    && (j.runs > 1 ==> slice > 0.0 && j.burst - Times(j.runs - 1, slice) > SNAP)
    && (slice > 0.0 ==> j.burst - Times(j.runs, slice) <= SNAP)
    && j.start >= j.arrival && j.finish >= j.arrival
    && j.waiting == j.start - j.arrival && j.turnaround == j.finish - j.arrival
    && (j.runs == 1 ==> j.waiting + j.burst - SNAP <= j.turnaround <= j.waiting + j.burst)
    && (slice < 0.0 ==> j.turnaround == j.waiting + j.burst)
  }

  ghost predicate WorkerOk(slice: real, w: Worker)
  {
    match w
    case Free(coreTime) => coreTime >= 0.0
    case Busy(job, execution, dispatchTime) => Executing(slice, job, execution, dispatchTime)
    case Gone => true
  }

  ghost predicate ProgressOk(slice: real, s: Pool)
  {
    && (forall k :: 0 <= k < |s.pending| ==> Waiting(slice, s.pending[k]) && s.pending[k].runs == 0)
    && (forall k :: 0 <= k < |s.ready| ==> Waiting(slice, s.ready[k]))
    && (forall w :: 0 <= w < |s.workers| ==> WorkerOk(slice, s.workers[w]))
    && (forall k :: 0 <= k < |s.completed| ==> Done(slice, s.completed[k]))
  }

  ghost predicate PolicyOk(policy: Policy)
  {
    policy.RoundRobin? ==> policy.quantum > 0
  }

  lemma TakenProgress(slice: real, j: Job, coreTime: real)
    requires Waiting(slice, j) && coreTime >= 0.0
    ensures var time := if coreTime < j.arrival then j.arrival else coreTime;
            Executing(slice, Dispatched(j, time), Execution(slice, j.remaining), time)
  {
  }

  lemma FinishedProgress(slice: real, j: Job, execution: real, dispatchTime: real)
    requires Executing(slice, j, execution, dispatchTime) && (slice < 0.0 || slice >= 1.0)
    ensures var left, finish := LeftAfter(j.remaining, execution), dispatchTime + execution;
            && finish >= 0.0
            && if left <= SNAP then Done(slice, Completed(j, finish))
                else Waiting(slice, j.(remaining := left, state := Ready))
  {
  }

  // ----- The invariant

  ghost predicate RotationOk(policy: Policy, s: Pool)
  {
    if policy.RoundRobin? then Distinct(s.rotation) && forall x :: x in s.rotation ==> x in Ids(s.ready)
    else s.rotation == []
  }

  ghost predicate Inv(policy: Policy, jobs: seq<Job>, s: Pool)
  {
    && PolicyOk(policy) && Distinct(Ids(jobs))
    && Conserved(jobs, s) && s.active == BusyCount(s.workers) && s.switches == TotalRuns(s)
    && ProgressOk(SliceOf(policy), s) && RotationOk(policy, s)
    && (s.done ==> s.pending == [] && s.ready == [] && s.active == 0)
    && (!s.running ==> s.done)
  }

  /** Whoever is ready is nowhere else. */
  lemma ReadyOnce(jobs: seq<Job>, s: Pool)
    requires Conserved(jobs, s) && Distinct(Ids(jobs))
    ensures Distinct(Ids(s.ready))
    ensures forall w :: 0 <= w < |s.workers| && s.workers[w].Busy? ==> s.workers[w].job.id !in Ids(s.ready)
  {
    forall x: int
      ensures multiset(Ids(s.ready))[x] + BusyIds(s.workers)[x] <= 1
    {
      DistinctIsOnce(Ids(jobs), x);
      assert Occurrences(s, x) <= 1;
    }
    OnceIsDistinct(Ids(s.ready));
    forall w | 0 <= w < |s.workers| && s.workers[w].Busy?
      ensures s.workers[w].job.id !in Ids(s.ready)
    {
      BusyIsCounted(s.workers, w);
    }
  }

  lemma {:induction false} BusyIsCounted(workers: seq<Worker>, w: nat)
    requires w < |workers| && workers[w].Busy?
    ensures BusyIds(workers)[workers[w].job.id] >= 1
  {
    if w < |workers| - 1 {
      BusyIsCounted(workers[..|workers| - 1], w);
    }
  }

  lemma IdsAdd(a: seq<Job>, b: seq<Job>)
    ensures Ids(a + b) == Ids(a) + Ids(b)
  {
  }

  lemma IdsWithout(jobs: seq<Job>, k: nat)
    requires k < |jobs|
    ensures multiset(Ids(jobs[..k] + jobs[k + 1..])) + multiset{jobs[k].id} == multiset(Ids(jobs))
    ensures forall x :: x in Ids(jobs[..k] + jobs[k + 1..]) ==> x in Ids(jobs)
    ensures forall x :: x in Ids(jobs) && x != jobs[k].id ==> x in Ids(jobs[..k] + jobs[k + 1..])
  {
    var rest := jobs[..k] + jobs[k + 1..];
    assert Ids(rest) == Ids(jobs)[..k] + Ids(jobs)[k + 1..];
    assert Ids(jobs) == Ids(jobs)[..k] + [jobs[k].id] + Ids(jobs)[k + 1..];
  }

  // ----- Every step keeps it

  lemma InitialHolds(policy: Policy, jobs: seq<Job>, s: Pool)
    requires Initial(jobs, s) && PolicyOk(policy)
    ensures Inv(policy, jobs, s)
  {
    NobodyBusy(s.workers);
  }

  lemma {:induction false} NobodyBusy(workers: seq<Worker>)
    requires forall w :: 0 <= w < |workers| ==> !workers[w].Busy?
    ensures BusyIds(workers) == multiset{} && BusyCount(workers) == BusyRuns(workers) == 0
  {
    if workers != [] {
      NobodyBusy(workers[..|workers| - 1]);
    }
  }

  lemma AdmitConserves(jobs: seq<Job>, s: Pool, s': Pool)
    requires Conserved(jobs, s) && Admit(s, s')
    ensures Conserved(jobs, s')
  {
    var n := Arrived(s.pending, s.clock);
    var came := MadeReady(s.pending[..n]);
    assert s.pending == s.pending[..n] + s.pending[n..];
    IdsAdd(s.pending[..n], s.pending[n..]);
    IdsAdd(s.ready, came);
    assert Ids(came) == Ids(s.pending[..n]);
    forall id
      ensures Occurrences(s', id) == Occurrences(s, id)
    {
    }
  }

  lemma AdmitRuns(slice: real, s: Pool, s': Pool)
    requires ProgressOk(slice, s) && Admit(s, s')
    ensures ProgressOk(slice, s') && TotalRuns(s') == TotalRuns(s)
  {
    var came := MadeReady(s.pending[..Arrived(s.pending, s.clock)]);
    RunsAdd(s.ready, came);
    NeverRun(came);
  }

  lemma AdmitRotates(policy: Policy, s: Pool, s': Pool)
    requires RotationOk(policy, s) && Admit(s, s')
    ensures RotationOk(policy, s')
  {
    IdsAdd(s.ready, MadeReady(s.pending[..Arrived(s.pending, s.clock)]));
  }

  lemma AdmitHolds(policy: Policy, jobs: seq<Job>, s: Pool, s': Pool)
    requires Inv(policy, jobs, s) && Admit(s, s')
    ensures Inv(policy, jobs, s')
  {
    AdmitConserves(jobs, s, s');
    AdmitRuns(SliceOf(policy), s, s');
    AdmitRotates(policy, s, s');
  }

  lemma TakeConserves(policy: Policy, jobs: seq<Job>, s: Pool, s': Pool, w: nat, k: nat)
    requires Conserved(jobs, s) && Take(policy, s, s', w, k)
    ensures Conserved(jobs, s') && BusyCount(s'.workers) == BusyCount(s.workers) + 1
  {
    IdsWithout(s.ready, k);
    BusyCountChanges(s.workers, w, s'.workers[w]);
    forall id
      ensures Occurrences(s', id) == Occurrences(s, id)
    {
      WorkerChanges(s.workers, w, s'.workers[w], id);
      assert multiset(Ids(s'.ready))[id] + multiset{s.ready[k].id}[id] == multiset(Ids(s.ready))[id];
    }
  }

  lemma TakeRotates(policy: Policy, jobs: seq<Job>, s: Pool, s': Pool, w: nat, k: nat)
    requires Conserved(jobs, s) && Distinct(Ids(jobs)) && RotationOk(policy, s) && Take(policy, s, s', w, k)
    ensures RotationOk(policy, s')
  {
    if policy.RoundRobin? {
      ReadyOnce(jobs, s);
      OrderFacts(s.rotation, Ids(s.ready));
      var order := ServiceOrder(s.rotation, Ids(s.ready));
      IdsWithout(s.ready, k);
      forall x | x in order[1..]
        ensures x in Ids(s'.ready)
      {
        assert x in order && x != order[0];
      }
    }
  }

  lemma TakeRuns(policy: Policy, s: Pool, s': Pool, w: nat, k: nat)
    requires ProgressOk(SliceOf(policy), s) && Take(policy, s, s', w, k)
    ensures ProgressOk(SliceOf(policy), s') && TotalRuns(s') == TotalRuns(s) + 1
  {
    assert WorkerOk(SliceOf(policy), s.workers[w]);
    TakenProgress(SliceOf(policy), s.ready[k], s.workers[w].coreTime);
    RunsWithout(s.ready, k);
    BusyRunsChange(s.workers, w, s'.workers[w]);
  }

  lemma TakeHolds(policy: Policy, jobs: seq<Job>, s: Pool, s': Pool, w: nat, k: nat)
    requires Inv(policy, jobs, s) && Take(policy, s, s', w, k)
    ensures Inv(policy, jobs, s')
  {
    TakeConserves(policy, jobs, s, s', w, k);
    TakeRotates(policy, jobs, s, s', w, k);
    TakeRuns(policy, s, s', w, k);
  }

  /** The finished worker's job reappears in the ready queue or among the completed. */
  lemma ReturnConserves(jobs: seq<Job>, s: Pool, s': Pool, w: nat, j: Job)
    requires Conserved(jobs, s) && w < |s.workers| && s.workers[w].Busy? && s.workers[w].job.id == j.id
    requires |s'.workers| == |s.workers| && s'.workers == s.workers[w := s'.workers[w]] && !s'.workers[w].Busy?
    requires s'.pending == s.pending
    requires (s'.ready == s.ready + [j] && s'.completed == s.completed)
             || (s'.ready == s.ready && s'.completed == s.completed + [j])
    ensures Conserved(jobs, s')
  {
    IdsAdd(s.ready, [j]);
    IdsAdd(s.completed, [j]);
    assert Ids([j]) == [j.id];
    forall id
      ensures Occurrences(s', id) == Occurrences(s, id)
    {
      WorkerChanges(s.workers, w, s'.workers[w], id);
    }
  }

  /** The job as it is put back, or as it is completed. */
  function Returned(b: Worker): Job
    requires b.Busy?
  {
    var left := LeftAfter(b.job.remaining, b.execution);
    if left <= SNAP then Completed(b.job, b.dispatchTime + b.execution) else b.job.(remaining := left, state := Ready)
  }

  lemma FinishMoves(policy: Policy, s: Pool, s': Pool, w: nat)
    requires Finish(policy, s, s', w)
    ensures var b, j := s.workers[w], Returned(s.workers[w]);
            && |s'.workers| == |s.workers| && s'.workers == s.workers[w := Free(b.dispatchTime + b.execution)]
            && s'.pending == s.pending && j.id == b.job.id && j.runs == b.job.runs
            && if LeftAfter(b.job.remaining, b.execution) <= SNAP then s'.ready == s.ready
                && s'.completed == s.completed + [j]
               else s'.ready == s.ready + [j] && s'.completed == s.completed
  {
  }

  lemma FinishConserves(policy: Policy, jobs: seq<Job>, s: Pool, s': Pool, w: nat)
    requires Conserved(jobs, s) && Finish(policy, s, s', w)
    ensures Conserved(jobs, s') && BusyCount(s'.workers) + 1 == BusyCount(s.workers)
  {
    FinishMoves(policy, s, s', w);
    BusyCountChanges(s.workers, w, s'.workers[w]);
    ReturnConserves(jobs, s, s', w, Returned(s.workers[w]));
  }

  lemma FinishRotates(policy: Policy, jobs: seq<Job>, s: Pool, s': Pool, w: nat)
    requires Conserved(jobs, s) && Distinct(Ids(jobs)) && RotationOk(policy, s) && Finish(policy, s, s', w)
    ensures RotationOk(policy, s')
  {
    if policy.RoundRobin? {
      var b := s.workers[w];
      WithoutFacts(s.rotation, b.job.id);
      if LeftAfter(b.job.remaining, b.execution) > SNAP {
        IdsAdd(s.ready, [s'.ready[|s.ready|]]);
      }
      ReadyOnce(jobs, s);
    }
  }

  lemma FinishProgresses(policy: Policy, s: Pool, s': Pool, w: nat)
    requires PolicyOk(policy) && ProgressOk(SliceOf(policy), s) && Finish(policy, s, s', w)
    ensures ProgressOk(SliceOf(policy), s')
  {
    var b := s.workers[w];
    FinishMoves(policy, s, s', w);
    assert WorkerOk(SliceOf(policy), b);
    FinishedProgress(SliceOf(policy), b.job, b.execution, b.dispatchTime);
  }

  lemma FinishRuns(policy: Policy, s: Pool, s': Pool, w: nat)
    requires Finish(policy, s, s', w)
    ensures TotalRuns(s') == TotalRuns(s)
  {
    FinishMoves(policy, s, s', w);
    BusyRunsChange(s.workers, w, s'.workers[w]);
    RunsOne(s.completed, Returned(s.workers[w]));
    RunsOne(s.ready, Returned(s.workers[w]));
  }

  lemma FinishHolds(policy: Policy, jobs: seq<Job>, s: Pool, s': Pool, w: nat)
    requires Inv(policy, jobs, s) && Finish(policy, s, s', w)
    ensures Inv(policy, jobs, s')
  {
    FinishConserves(policy, jobs, s, s', w);
    FinishRotates(policy, jobs, s, s', w);
    FinishProgresses(policy, s, s', w);
    FinishRuns(policy, s, s', w);
  }

  lemma LeaveHolds(policy: Policy, jobs: seq<Job>, s: Pool, s': Pool, w: nat)
    requires Inv(policy, jobs, s) && Leave(s, s', w)
    ensures Inv(policy, jobs, s')
  {
    BusyCountChanges(s.workers, w, Gone);
    BusyRunsChange(s.workers, w, Gone);
    forall id
      ensures Occurrences(s', id) == Occurrences(s, id)
    {
      WorkerChanges(s.workers, w, Gone, id);
    }
  }

  /** The scheduler's steps that move no job. */
  lemma ElsewhereHolds(policy: Policy, jobs: seq<Job>, s: Pool, s': Pool)
    requires Inv(policy, jobs, s) && (Break(s, s') || Advance(s, s') || Stop(s, s'))
    ensures Inv(policy, jobs, s')
  {
    forall id
      ensures Occurrences(s', id) == Occurrences(s, id)
    {
    }
  }

  lemma StepHolds(policy: Policy, jobs: seq<Job>, s: Pool, s': Pool, step: Step)
    requires Inv(policy, jobs, s) && Steps(policy, s, s', step)
    ensures Inv(policy, jobs, s')
  {
    match step
    case AdmitStep => AdmitHolds(policy, jobs, s, s');
    case TakeStep(w, k) => TakeHolds(policy, jobs, s, s', w, k);
    case FinishStep(w) => FinishHolds(policy, jobs, s, s', w);
    case LeaveStep(w) => LeaveHolds(policy, jobs, s, s', w);
    case BreakStep => ElsewhereHolds(policy, jobs, s, s');
    case AdvanceStep => ElsewhereHolds(policy, jobs, s, s');
    case StopStep => ElsewhereHolds(policy, jobs, s, s');
  }

  // ----- Whole runs

  ghost predicate StepAt(policy: Policy, run: seq<Pool>, steps: seq<Step>, t: nat)
    requires t < |steps| && |run| == |steps| + 1
  {
    Steps(policy, run[t], run[t + 1], steps[t])
  }

  ghost predicate IsRun(policy: Policy, jobs: seq<Job>, run: seq<Pool>, steps: seq<Step>)
  {
    && |run| == |steps| + 1 && Initial(jobs, run[0])
    && forall t :: 0 <= t < |steps| ==> StepAt(policy, run, steps, t)
  }

  lemma StepAtHolds(policy: Policy, jobs: seq<Job>, run: seq<Pool>, steps: seq<Step>, t: nat)
    requires t < |steps| && |run| == |steps| + 1 && StepAt(policy, run, steps, t) && Inv(policy, jobs, run[t])
    ensures Inv(policy, jobs, run[t + 1])
  {
    StepHolds(policy, jobs, run[t], run[t + 1], steps[t]);
  }

  lemma NextHolds(policy: Policy, jobs: seq<Job>, run: seq<Pool>, steps: seq<Step>, t: nat)
    requires IsRun(policy, jobs, run, steps) && t < |steps| && Inv(policy, jobs, run[t])
    ensures Inv(policy, jobs, run[t + 1])
  {
    assert StepAt(policy, run, steps, t);
    StepAtHolds(policy, jobs, run, steps, t);
  }

  lemma {:induction false} HoldsUpTo(policy: Policy, jobs: seq<Job>, run: seq<Pool>, steps: seq<Step>, t: nat)
    requires IsRun(policy, jobs, run, steps) && t < |run| && Inv(policy, jobs, run[0])
    ensures Inv(policy, jobs, run[t])
  {
    if t > 0 {
      var before := t - 1;
      HoldsUpTo(policy, jobs, run, steps, before);
      NextHolds(policy, jobs, run, steps, before);
    }
  }

  /** In every interleaving, between any two steps. */
  lemma AlwaysHolds(policy: Policy, jobs: seq<Job>, run: seq<Pool>, steps: seq<Step>, t: nat)
    requires PolicyOk(policy) && IsRun(policy, jobs, run, steps) && t < |run|
    ensures Inv(policy, jobs, run[t])
  {
    InitialHolds(policy, jobs, run[0]);
    HoldsUpTo(policy, jobs, run, steps, t);
  }

  /** Once the scheduler has left its loop: every job has been completed, once, with nothing remaining,
      and the switches counted are the dispatches of the completed jobs. */
  lemma DoneIsComplete(policy: Policy, jobs: seq<Job>, s: Pool)
    requires Inv(policy, jobs, s) && s.done
    ensures multiset(Ids(s.completed)) == multiset(Ids(jobs)) && Distinct(Ids(s.completed))
    ensures forall k :: 0 <= k < |s.completed| ==> Done(SliceOf(policy), s.completed[k])
    ensures s.switches == RunsOf(s.completed)
  {
    NobodyRuns(s.workers);
    assert Ids(s.pending) == [] && Ids(s.ready) == [];
    forall id
      ensures multiset(Ids(s.completed))[id] == multiset(Ids(jobs))[id] <= 1
    {
      DistinctIsOnce(Ids(jobs), id);
      assert Occurrences(s, id) == multiset(Ids(s.completed))[id];
    }
    OnceIsDistinct(Ids(s.completed));
  }

  lemma {:induction false} NobodyRuns(workers: seq<Worker>)
    requires BusyCount(workers) == 0
    ensures BusyIds(workers) == multiset{} && BusyRuns(workers) == 0
    ensures forall w :: 0 <= w < |workers| ==> !workers[w].Busy?
  {
    if workers != [] {
      NobodyRuns(workers[..|workers| - 1]);
    }
  }

  /** After that nothing changes any more but the flag and the workers leaving. */
  lemma DoneIsStable(policy: Policy, jobs: seq<Job>, s: Pool, s': Pool, step: Step)
    requires Inv(policy, jobs, s) && s.done && Steps(policy, s, s', step)
    ensures s'.done && s'.completed == s.completed && s'.switches == s.switches
    ensures s' == s.(workers := s'.workers, running := s'.running)
  {
    NobodyRuns(s.workers);
  }

  lemma StableAt(policy: Policy, jobs: seq<Job>, run: seq<Pool>, steps: seq<Step>, t: nat)
    requires PolicyOk(policy) && IsRun(policy, jobs, run, steps) && t < |steps| && run[t].done
    ensures run[t + 1].done && run[t + 1].completed == run[t].completed
  {
    AlwaysHolds(policy, jobs, run, steps, t);
    assert StepAt(policy, run, steps, t);
    DoneIsStable(policy, jobs, run[t], run[t + 1], steps[t]);
  }

  lemma {:induction false} StaysDone(policy: Policy, jobs: seq<Job>, run: seq<Pool>, steps: seq<Step>, t: nat, u: nat)
    requires PolicyOk(policy) && IsRun(policy, jobs, run, steps) && t <= u < |run| && run[t].done
    ensures run[u].done && run[u].completed == run[t].completed
    decreases u - t
  {
    if t < u {
      StableAt(policy, jobs, run, steps, t);
      var next := t + 1;
      StaysDone(policy, jobs, run, steps, next, u);
    }
  }

  // ----- Whose records these are

  /** The record `r` is of the job submitted as `j`. */
  ghost predicate RecordOf(j: Job, r: Job)
  {
    r.id == j.id && r.arrival == j.arrival && r.burst == j.burst
  }

  ghost predicate Submitted(jobs: seq<Job>, r: Job)
  {
    exists k :: 0 <= k < |jobs| && RecordOf(jobs[k], r)
  }

  /** Every record anywhere is of a submitted job. */
  ghost predicate AllSubmitted(jobs: seq<Job>, s: Pool)
  {
    && (forall k :: 0 <= k < |s.pending| ==> Submitted(jobs, s.pending[k]))
    && (forall k :: 0 <= k < |s.ready| ==> Submitted(jobs, s.ready[k]))
    && (forall w :: 0 <= w < |s.workers| && s.workers[w].Busy? ==> Submitted(jobs, s.workers[w].job))
    && (forall k :: 0 <= k < |s.completed| ==> Submitted(jobs, s.completed[k]))
  }

  lemma SameRecord(jobs: seq<Job>, r: Job, r': Job)
    requires Submitted(jobs, r) && RecordOf(r, r')
    ensures Submitted(jobs, r')
  {
    var k :| 0 <= k < |jobs| && RecordOf(jobs[k], r);
    assert RecordOf(jobs[k], r');
  }

  lemma AdmitRecords(jobs: seq<Job>, s: Pool, s': Pool)
    requires AllSubmitted(jobs, s) && Admit(s, s')
    ensures AllSubmitted(jobs, s')
  {
    var n := Arrived(s.pending, s.clock);
    forall k | 0 <= k < |s'.ready|
      ensures Submitted(jobs, s'.ready[k])
    {
      if k >= |s.ready| {
        SameRecord(jobs, s.pending[k - |s.ready|], s'.ready[k]);
      }
    }
  }

  lemma TakeRecords(policy: Policy, jobs: seq<Job>, s: Pool, s': Pool, w: nat, k: nat)
    requires AllSubmitted(jobs, s) && Take(policy, s, s', w, k)
    ensures AllSubmitted(jobs, s')
  {
    SameRecord(jobs, s.ready[k], s'.workers[w].job);
  }

  lemma FinishRecords(policy: Policy, jobs: seq<Job>, s: Pool, s': Pool, w: nat)
    requires AllSubmitted(jobs, s) && Finish(policy, s, s', w)
    ensures AllSubmitted(jobs, s')
  {
    FinishMoves(policy, s, s', w);
    SameRecord(jobs, s.workers[w].job, Returned(s.workers[w]));
  }

  lemma StepRecords(policy: Policy, jobs: seq<Job>, s: Pool, s': Pool, step: Step)
    requires AllSubmitted(jobs, s) && Steps(policy, s, s', step)
    ensures AllSubmitted(jobs, s') && |s'.workers| == |s.workers|
  {
    match step
    case AdmitStep => AdmitRecords(jobs, s, s');
    case TakeStep(w, k) => TakeRecords(policy, jobs, s, s', w, k);
    case FinishStep(w) =>
      FinishMoves(policy, s, s', w);
      FinishRecords(policy, jobs, s, s', w);
    case LeaveStep(w) =>
    case BreakStep =>
    case AdvanceStep =>
    case StopStep =>
  }

  lemma {:induction false} RecordsAreSubmitted(policy: Policy, jobs: seq<Job>, run: seq<Pool>, steps: seq<Step>, t: nat)
    requires IsRun(policy, jobs, run, steps) && t < |run|
    ensures AllSubmitted(jobs, run[t]) && |run[t].workers| == |run[0].workers|
  {
    if t == 0 {
      assert forall k :: 0 <= k < |jobs| ==> RecordOf(jobs[k], jobs[k]);
    } else {
      RecordsAreSubmitted(policy, jobs, run, steps, t - 1);
      assert StepAt(policy, run, steps, t - 1);
      StepRecords(policy, jobs, run[t - 1], run[t], steps[t - 1]);
    }
  }

  /** With as many records as jobs, every job has its record. */
  lemma HasRecord(jobs: seq<Job>, records: seq<Job>, k: nat) returns (i: nat)
    requires Distinct(Ids(jobs)) && multiset(Ids(records)) == multiset(Ids(jobs)) && k < |jobs|
    requires forall i :: 0 <= i < |records| ==> Submitted(jobs, records[i])
    ensures i < |records| && RecordOf(jobs[k], records[i])
  {
    assert Ids(jobs)[k] in multiset(Ids(records));
    i :| i < |records| && Ids(records)[i] == Ids(jobs)[k];
    var m :| 0 <= m < |jobs| && RecordOf(jobs[m], records[i]);
    assert Ids(jobs)[m] == Ids(jobs)[k];
  }

  /** In every interleaving: when the scheduler takes its break every job has been completed exactly once, as submitted,
      and stays so. */
  lemma BreakMeansCompleted(policy: Policy, jobs: seq<Job>, run: seq<Pool>, steps: seq<Step>, t: nat, u: nat)
    requires PolicyOk(policy) && IsRun(policy, jobs, run, steps) && t <= u < |run| && run[t].done
    ensures run[u].done && run[u].completed == run[t].completed
    ensures multiset(Ids(run[u].completed)) == multiset(Ids(jobs)) && Distinct(Ids(run[u].completed))
    ensures forall k :: 0 <= k < |run[u].completed| ==>
              Done(SliceOf(policy), run[u].completed[k]) && Submitted(jobs, run[u].completed[k])
    ensures forall k :: 0 <= k < |jobs| ==>
              exists i :: 0 <= i < |run[u].completed| && RecordOf(jobs[k], run[u].completed[i])
    ensures run[u].switches == RunsOf(run[u].completed)
  {
    StaysDone(policy, jobs, run, steps, t, u);
    AlwaysHolds(policy, jobs, run, steps, u);
    RecordsAreSubmitted(policy, jobs, run, steps, u);
    DoneIsComplete(policy, jobs, run[u]);
    forall k | 0 <= k < |jobs|
      ensures exists i :: 0 <= i < |run[u].completed| && RecordOf(jobs[k], run[u].completed[i])
    {
      var i := HasRecord(jobs, run[u].completed, k);
    }
  }

  // ----- Dispatching

  lemma {:induction false} TimesIsProduct(n: nat, x: real)
    ensures Times(n, x) == n as real * x
  {
    if n > 0 {
      TimesIsProduct(n - 1, x);
      assert n as real == (n - 1) as real + 1.0;
    } else {
      assert n as real == 0.0;
    }
  }

  /** `runs` dispatches is as often as quanta fit `burst`, to within `SNAP`: once if the policy runs to completion, and
      under round robin never more than the burst divided by the quantum, rounded up. */
  ghost predicate RightCount(policy: Policy, burst: real, runs: nat)
  {
    match policy
    case RunToCompletion => runs == 1
    case RoundRobin(quantum) =>
      && runs >= 1 && (runs == 1 || (runs - 1) as real * quantum as real < burst - SNAP)
      && burst - SNAP <= runs as real * quantum as real
  }

  lemma DoneCount(policy: Policy, j: Job)
    requires PolicyOk(policy) && Done(SliceOf(policy), j)
    ensures RightCount(policy, j.burst, j.runs)
  {
    TimesIsProduct(j.runs, SliceOf(policy));
    TimesIsProduct(j.runs - 1, SliceOf(policy));
  }

  /** In every interleaving, each completed job was dispatched exactly as often as its submitted burst takes. */
  lemma DispatchCount(policy: Policy, jobs: seq<Job>, run: seq<Pool>, steps: seq<Step>, t: nat, i: nat) returns (k: nat)
    requires PolicyOk(policy) && IsRun(policy, jobs, run, steps) && t < |run| && i < |run[t].completed|
    ensures k < |jobs| && RecordOf(jobs[k], run[t].completed[i])
    ensures RightCount(policy, jobs[k].burst, run[t].completed[i].runs)
  {
    AlwaysHolds(policy, jobs, run, steps, t);
    RecordsAreSubmitted(policy, jobs, run, steps, t);
    DoneCount(policy, run[t].completed[i]);
    assert Submitted(jobs, run[t].completed[i]);
    k :| k < |jobs| && RecordOf(jobs[k], run[t].completed[i]);
  }

  /** While somebody is ready a free worker always gets a job: the policy never comes back empty-handed. */
  lemma FreeWorkerGetsJob(policy: Policy, jobs: seq<Job>, s: Pool, w: nat) returns (k: nat, s': Pool)
    requires Inv(policy, jobs, s) && w < |s.workers| && s.workers[w].Free? && s.ready != []
    ensures Take(policy, s, s', w, k)
  {
    var order := ServiceOrder(s.rotation, Ids(s.ready));
    k := 0;
    if policy.RoundRobin? {
      HeadIsReady(s.rotation, Ids(s.ready));
      k :| k < |s.ready| && Ids(s.ready)[k] == order[0];
    }
    var job := s.ready[k];
    var time := if s.workers[w].coreTime < job.arrival then job.arrival else s.workers[w].coreTime;
    s' := s.(ready := s.ready[..k] + s.ready[k + 1..],
             workers := s.workers[w := Busy(Dispatched(job, time), Execution(SliceOf(policy), job.remaining), time)],
             active := s.active + 1, switches := s.switches + 1,
             rotation := if policy.RoundRobin? then order[1..] else s.rotation);
  }
}
