/** Time in the worker pool, over every interleaving: nobody is admitted before it
    has arrived, and what a completed job is said to have waited is the time to its
    first dispatch. */
module WorkerPoolClocks {
  import opened WorkerPool
  import opened WorkerPoolSafety

  // ----- The scheduler's clock

  /** Everybody ready, executing or completed has arrived. */
  ghost predicate AllArrived(s: Pool)
  {
    && (forall k :: 0 <= k < |s.ready| ==> s.ready[k].arrival <= s.clock + EPSILON)
    && (forall w :: 0 <= w < |s.workers| && s.workers[w].Busy? ==> s.workers[w].job.arrival <= s.clock + EPSILON)
    && (forall k :: 0 <= k < |s.completed| ==> s.completed[k].arrival <= s.clock + EPSILON)
  }

  /** The clock stands still, or has moved forward to the arrival of the first pending job. */
  ghost predicate ClockMoves(s: Pool, s': Pool)
  {
    s'.clock == s.clock || (s.pending != [] && s'.clock == s.pending[0].arrival > s.clock)
  }

  lemma StepArrived(policy: Policy, s: Pool, s': Pool, step: Step)
    requires AllArrived(s) && Steps(policy, s, s', step)
    ensures AllArrived(s') && ClockMoves(s, s')
  {
    match step
    case AdmitStep => AdmitArrives(s, s');
    case TakeStep(w, k) =>
    case FinishStep(w) => FinishMoves(policy, s, s', w);
    case LeaveStep(w) =>
    case BreakStep =>
    case AdvanceStep =>
    case StopStep =>
  }

  lemma AdmitArrives(s: Pool, s': Pool)
    requires AllArrived(s) && Admit(s, s')
    ensures AllArrived(s') && s'.clock == s.clock
    ensures s'.pending == [] || s'.pending[0].arrival > s'.clock + EPSILON
  {
    var n := Arrived(s.pending, s.clock);
    ArrivedTells(s.pending, s.clock);
    forall k | |s.ready| <= k < |s'.ready|
      ensures s'.ready[k].arrival <= s.clock + EPSILON
    {
      assert s'.ready[k] == MadeReady(s.pending[..n])[k - |s.ready|];
    }
  }

  /** In every interleaving nobody is ready, executing or completed before it has arrived, and the clock never goes
      back. */
  lemma {:induction false} NobodyBeforeArrival(policy: Policy, jobs: seq<Job>, run: seq<Pool>, steps: seq<Step>, t: nat)
    requires IsRun(policy, jobs, run, steps) && t < |run|
    ensures AllArrived(run[t]) && run[0].clock <= run[t].clock
  {
    if t > 0 {
      NobodyBeforeArrival(policy, jobs, run, steps, t - 1);
      assert StepAt(policy, run, steps, t - 1);
      StepArrived(policy, run[t - 1], run[t], steps[t - 1]);
    }
  }

  /** The clock is where it started or at the arrival of a submitted job. */
  lemma {:induction false} ClockIsAnArrival(policy: Policy, jobs: seq<Job>, run: seq<Pool>, steps: seq<Step>, t: nat)
    requires IsRun(policy, jobs, run, steps) && t < |run|
    ensures run[t].clock == run[0].clock || exists k :: 0 <= k < |jobs| && jobs[k].arrival == run[t].clock
  {
    if t > 0 {
      ClockIsAnArrival(policy, jobs, run, steps, t - 1);
      NobodyBeforeArrival(policy, jobs, run, steps, t - 1);
      RecordsAreSubmitted(policy, jobs, run, steps, t - 1);
      assert StepAt(policy, run, steps, t - 1);
      StepArrived(policy, run[t - 1], run[t], steps[t - 1]);
      var s := run[t - 1];
      if run[t].clock != s.clock {
        assert Submitted(jobs, s.pending[0]);
      }
    }
  }

  /** Having moved its clock, the scheduler admits the first pending job the next time it looks. */
  lemma AdvanceReaches(s: Pool, s': Pool, s'': Pool)
    requires Advance(s, s') && Admit(s', s'')
    ensures |s''.pending| < |s.pending| && |s''.ready| > |s.ready|
  {
    ArrivedTells(s'.pending, s'.clock);
  }

  // ----- The first dispatch

  /** By step `t` worker `w` takes the job with this id, which has not run before, at local time `start`: the later of
      the core's own time and the job's arrival. */
  ghost predicate FirstTaken(run: seq<Pool>, steps: seq<Step>, t: nat, id: int, start: real)
    requires t < |steps| && |run| == |steps| + 1
  {
    && steps[t].TakeStep? && steps[t].k < |run[t].ready| && steps[t].w < |run[t].workers|
    && run[t].workers[steps[t].w].Free?
    && var job, time := run[t].ready[steps[t].k], run[t].workers[steps[t].w].coreTime;
       job.id == id && job.runs == 0 && start == if time < job.arrival then job.arrival else time
  }

  /** If the job has run, its start time is that of its first dispatch. */
  ghost predicate StartKnown(run: seq<Pool>, steps: seq<Step>, t: nat, j: Job)
    requires t <= |steps| && |run| == |steps| + 1
  {
    j.runs > 0 ==> exists u: nat :: u < t && FirstTaken(run, steps, u, j.id, j.start)
  }

  ghost predicate StartsKnown(run: seq<Pool>, steps: seq<Step>, t: nat)
    requires t <= |steps| && |run| == |steps| + 1
  {
    && (forall k :: 0 <= k < |run[t].pending| ==> StartKnown(run, steps, t, run[t].pending[k]))
    && (forall k :: 0 <= k < |run[t].ready| ==> StartKnown(run, steps, t, run[t].ready[k]))
    && (forall w :: 0 <= w < |run[t].workers| && run[t].workers[w].Busy? ==>
         StartKnown(run, steps, t, run[t].workers[w].job))
    && (forall k :: 0 <= k < |run[t].completed| ==> StartKnown(run, steps, t, run[t].completed[k]))
  }

  lemma KnownLater(run: seq<Pool>, steps: seq<Step>, t: nat, j: Job, j': Job)
    requires t < |steps| && |run| == |steps| + 1 && StartKnown(run, steps, t, j)
    requires j'.id == j.id && j'.runs == j.runs && j'.start == j.start
    ensures StartKnown(run, steps, t + 1, j')
  {
    if j.runs > 0 {
      var u: nat :| u < t && FirstTaken(run, steps, u, j.id, j.start);
      assert FirstTaken(run, steps, u, j'.id, j'.start);
    }
  }

  /** Every job is kept with its id, dispatch count and start, but for the one worker `w` takes. */
  lemma TakeKnown(policy: Policy, jobs: seq<Job>, run: seq<Pool>, steps: seq<Step>, t: nat, w: nat, k: nat)
    requires t < |steps| && |run| == |steps| + 1 && Inv(policy, jobs, run[t]) && StartsKnown(run, steps, t)
    requires steps[t] == TakeStep(w, k) && Take(policy, run[t], run[t + 1], w, k)
    ensures StartKnown(run, steps, t + 1, run[t + 1].workers[w].job)
  {
    var j, j' := run[t].ready[k], run[t + 1].workers[w].job;
    assert Waiting(SliceOf(policy), j);
    if j.runs == 0 {
      assert FirstTaken(run, steps, t, j'.id, j'.start);
    } else {
      assert StartKnown(run, steps, t, j);
      var u: nat :| u < t && FirstTaken(run, steps, u, j.id, j.start);
      assert FirstTaken(run, steps, u, j'.id, j'.start);
    }
  }

  lemma AdmitKnown(run: seq<Pool>, steps: seq<Step>, t: nat)
    requires t < |steps| && |run| == |steps| + 1 && StartsKnown(run, steps, t) && Admit(run[t], run[t + 1])
    ensures StartsKnown(run, steps, t + 1)
  {
    var s, s' := run[t], run[t + 1];
    SameKnown(run, steps, t);
    forall k | 0 <= k < |s'.ready|
      ensures StartKnown(run, steps, t + 1, s'.ready[k])
    {
      if k >= |s.ready| {
        KnownLater(run, steps, t, s.pending[k - |s.ready|], s'.ready[k]);
      }
    }
  }

  /** What was known stays known. */
  lemma SameKnown(run: seq<Pool>, steps: seq<Step>, t: nat)
    requires t < |steps| && |run| == |steps| + 1 && StartsKnown(run, steps, t)
    ensures forall k :: 0 <= k < |run[t].pending| ==> StartKnown(run, steps, t + 1, run[t].pending[k])
    ensures forall k :: 0 <= k < |run[t].ready| ==> StartKnown(run, steps, t + 1, run[t].ready[k])
    ensures forall w :: 0 <= w < |run[t].workers| && run[t].workers[w].Busy? ==>
              StartKnown(run, steps, t + 1, run[t].workers[w].job)
    ensures forall k :: 0 <= k < |run[t].completed| ==> StartKnown(run, steps, t + 1, run[t].completed[k])
  {
    var s := run[t];
    forall k | 0 <= k < |s.pending|
      ensures StartKnown(run, steps, t + 1, s.pending[k])
    {
      KnownLater(run, steps, t, s.pending[k], s.pending[k]);
    }
    forall k | 0 <= k < |s.ready|
      ensures StartKnown(run, steps, t + 1, s.ready[k])
    {
      KnownLater(run, steps, t, s.ready[k], s.ready[k]);
    }
    forall w | 0 <= w < |s.workers| && s.workers[w].Busy?
      ensures StartKnown(run, steps, t + 1, s.workers[w].job)
    {
      KnownLater(run, steps, t, s.workers[w].job, s.workers[w].job);
    }
    forall k | 0 <= k < |s.completed|
      ensures StartKnown(run, steps, t + 1, s.completed[k])
    {
      KnownLater(run, steps, t, s.completed[k], s.completed[k]);
    }
  }

  lemma FinishKnown(policy: Policy, run: seq<Pool>, steps: seq<Step>, t: nat, w: nat)
    requires t < |steps| && |run| == |steps| + 1 && StartsKnown(run, steps, t)
    requires Finish(policy, run[t], run[t + 1], w)
    ensures StartsKnown(run, steps, t + 1)
  {
    SameKnown(run, steps, t);
    FinishMoves(policy, run[t], run[t + 1], w);
    KnownLater(run, steps, t, run[t].workers[w].job, Returned(run[t].workers[w]));
  }

  /** The steps that touch no record. */
  lemma ElsewhereKnown(run: seq<Pool>, steps: seq<Step>, t: nat)
    requires t < |steps| && |run| == |steps| + 1 && StartsKnown(run, steps, t)
    requires run[t + 1].pending == run[t].pending && run[t + 1].ready == run[t].ready
    requires run[t + 1].completed == run[t].completed && |run[t + 1].workers| == |run[t].workers|
    requires forall w :: 0 <= w < |run[t].workers| && run[t + 1].workers[w].Busy? ==>
               run[t + 1].workers[w] == run[t].workers[w]
    ensures StartsKnown(run, steps, t + 1)
  {
    SameKnown(run, steps, t);
    var s, s' := run[t], run[t + 1];
    forall w | 0 <= w < |s'.workers| && s'.workers[w].Busy?
      ensures StartKnown(run, steps, t + 1, s'.workers[w].job)
    {
      assert s'.workers[w] == s.workers[w];
    }
  }

  lemma TakeKeepsKnown(policy: Policy, jobs: seq<Job>, run: seq<Pool>, steps: seq<Step>, t: nat, w: nat, k: nat)
    requires t < |steps| && |run| == |steps| + 1 && StartsKnown(run, steps, t) && Inv(policy, jobs, run[t])
    requires steps[t] == TakeStep(w, k) && Take(policy, run[t], run[t + 1], w, k)
    ensures StartsKnown(run, steps, t + 1)
  {
    SameKnown(run, steps, t);
    TakeKnown(policy, jobs, run, steps, t, w, k);
  }

  lemma StepKnown(policy: Policy, jobs: seq<Job>, run: seq<Pool>, steps: seq<Step>, t: nat)
    requires t < |steps| && |run| == |steps| + 1 && StartsKnown(run, steps, t) && Inv(policy, jobs, run[t])
    requires Steps(policy, run[t], run[t + 1], steps[t])
    ensures StartsKnown(run, steps, t + 1)
  {
    match steps[t]
    case AdmitStep => AdmitKnown(run, steps, t);
    case TakeStep(w, k) => TakeKeepsKnown(policy, jobs, run, steps, t, w, k);
    case FinishStep(w) => FinishKnown(policy, run, steps, t, w);
    case LeaveStep(w) => ElsewhereKnown(run, steps, t);
    case BreakStep => ElsewhereKnown(run, steps, t);
    case AdvanceStep => ElsewhereKnown(run, steps, t);
    case StopStep => ElsewhereKnown(run, steps, t);
  }

  lemma {:induction false} StartsAlwaysKnown(policy: Policy, jobs: seq<Job>, run: seq<Pool>, steps: seq<Step>, t: nat)
    requires PolicyOk(policy) && IsRun(policy, jobs, run, steps) && t < |run|
    ensures StartsKnown(run, steps, t)
  {
    if t > 0 {
      StartsAlwaysKnown(policy, jobs, run, steps, t - 1);
      AlwaysHolds(policy, jobs, run, steps, t - 1);
      assert StepAt(policy, run, steps, t - 1);
      StepKnown(policy, jobs, run, steps, t - 1);
    }
  }

  /** In every interleaving, what a completed job is said to have waited is the time from its arrival to its first
      dispatch, whatever it has waited between its slices. */
  lemma WaitingIsToFirstDispatch(policy: Policy, jobs: seq<Job>, run: seq<Pool>, steps: seq<Step>, t: nat, i: nat)
    returns (u: nat)
    requires PolicyOk(policy) && IsRun(policy, jobs, run, steps) && t < |run| && i < |run[t].completed|
    ensures var r := run[t].completed[i]; u < t && FirstTaken(run, steps, u, r.id, r.arrival + r.waiting)
  {
    var r := run[t].completed[i];
    StartsAlwaysKnown(policy, jobs, run, steps, t);
    AlwaysHolds(policy, jobs, run, steps, t);
    assert StartKnown(run, steps, t, r) && Done(SliceOf(policy), r);
    u :| u < t && FirstTaken(run, steps, u, r.id, r.start);
  }

  // ----- One core runs one slice at a time

  /** When the core is done with what it has been given. */
  function DoneAt(w: Worker): real
  {
    match w
    case Free(coreTime) => coreTime
    case Busy(_, execution, dispatchTime) => dispatchTime + execution
    case Gone => 0.0
  }

  lemma StepCoreTime(policy: Policy, jobs: seq<Job>, s: Pool, s': Pool, step: Step, w: nat)
    requires Inv(policy, jobs, s) && Steps(policy, s, s', step) && w < |s.workers|
    ensures |s'.workers| == |s.workers|
    ensures s.workers[w].Gone? ==> s'.workers[w].Gone?
    ensures !s'.workers[w].Gone? ==> DoneAt(s.workers[w]) <= DoneAt(s'.workers[w])
    ensures step.TakeStep? && step.w == w ==>
              s'.workers[w].Busy? && DoneAt(s.workers[w]) <= s'.workers[w].dispatchTime
  {
    if step.FinishStep? {
      FinishMoves(policy, s, s', step.w);
    } else if step.TakeStep? {
      TakeHolds(policy, jobs, s, s', step.w, step.k);
      assert WorkerOk(SliceOf(policy), s'.workers[step.w]);
    }
  }

  lemma CoreTimeAt(policy: Policy, jobs: seq<Job>, run: seq<Pool>, steps: seq<Step>, w: nat, t: nat)
    requires PolicyOk(policy) && IsRun(policy, jobs, run, steps) && t < |steps| && w < |run[t].workers|
    ensures w < |run[t + 1].workers| && (run[t].workers[w].Gone? ==> run[t + 1].workers[w].Gone?)
    ensures !run[t + 1].workers[w].Gone? ==> DoneAt(run[t].workers[w]) <= DoneAt(run[t + 1].workers[w])
    ensures steps[t].TakeStep? && steps[t].w == w ==>
              run[t + 1].workers[w].Busy? && DoneAt(run[t].workers[w]) <= run[t + 1].workers[w].dispatchTime
  {
    AlwaysHolds(policy, jobs, run, steps, t);
    assert StepAt(policy, run, steps, t);
    StepCoreTime(policy, jobs, run[t], run[t + 1], steps[t], w);
  }

  lemma {:induction false} CoreTimeGrows(policy: Policy, jobs: seq<Job>, run: seq<Pool>, steps: seq<Step>, w: nat,
                                         t: nat, u: nat)
    requires PolicyOk(policy) && IsRun(policy, jobs, run, steps) && t <= u < |run| && w < |run[t].workers|
    ensures w < |run[u].workers| && (run[t].workers[w].Gone? ==> run[u].workers[w].Gone?)
    ensures !run[u].workers[w].Gone? ==> DoneAt(run[t].workers[w]) <= DoneAt(run[u].workers[w])
  {
    if t < u {
      CoreTimeGrows(policy, jobs, run, steps, w, t, u - 1);
      CoreTimeAt(policy, jobs, run, steps, w, u - 1);
    }
  }

  /** In every interleaving the slices of one core do not overlap: none starts before the one before it has ended. */
  lemma SlicesApart(policy: Policy, jobs: seq<Job>, run: seq<Pool>, steps: seq<Step>, w: nat, t: nat, u: nat)
    requires PolicyOk(policy) && IsRun(policy, jobs, run, steps) && t < u < |steps|
    requires steps[t].TakeStep? && steps[u].TakeStep? && steps[t].w == steps[u].w == w
    ensures w < |run[t + 1].workers| && run[t + 1].workers[w].Busy?
    ensures w < |run[u + 1].workers| && run[u + 1].workers[w].Busy?
    ensures run[t + 1].workers[w].dispatchTime + run[t + 1].workers[w].execution <= run[u + 1].workers[w].dispatchTime
  {
    TakerExists(policy, jobs, run, steps, t);
    TakerExists(policy, jobs, run, steps, u);
    var next := t + 1;
    CoreTimeAt(policy, jobs, run, steps, w, t);
    CoreTimeGrows(policy, jobs, run, steps, w, next, u);
    CoreTimeAt(policy, jobs, run, steps, w, u);
  }

  lemma TakerExists(policy: Policy, jobs: seq<Job>, run: seq<Pool>, steps: seq<Step>, t: nat)
    requires IsRun(policy, jobs, run, steps) && t < |steps| && steps[t].TakeStep?
    ensures steps[t].w < |run[t].workers| && run[t].workers[steps[t].w].Free?
  {
    assert StepAt(policy, run, steps, t);
  }
}
