/** When a completed job's turnaround can be below its burst: its slices run on
    cores whose local times are not in step. */
module WorkerPoolTimes {
  import opened Rotation
  import opened WorkerPool
  import opened WorkerPoolSafety

  // ----- One core keeps time

  /** By `time` the job has had its slices since it was first started. */
  ghost predicate Behind(j: Job, time: real)
  {
    j.runs > 0 ==> j.start + (j.burst - j.remaining) <= time
  }

  ghost predicate LongEnough(j: Job)
  {
    j.turnaround >= j.burst - SNAP
  }

  /** The only core's time is never before the end of anybody's last slice. */
  ghost predicate InTime(s: Pool)
  {
    && |s.workers| == 1
    && (match s.workers[0]
        case Free(coreTime) => forall k :: 0 <= k < |s.ready| ==> Behind(s.ready[k], coreTime)
        case Busy(job, execution, dispatchTime) =>
          Behind(job, dispatchTime) && forall k :: 0 <= k < |s.ready| ==> Behind(s.ready[k], dispatchTime)
        case Gone => s.ready == [])
    && forall k :: 0 <= k < |s.completed| ==> LongEnough(s.completed[k])
  }

  lemma AdmitInTime(policy: Policy, jobs: seq<Job>, s: Pool, s': Pool)
    requires Inv(policy, jobs, s) && InTime(s) && Admit(s, s') && !s.workers[0].Gone?
    ensures InTime(s')
  {
    var n := Arrived(s.pending, s.clock);
    forall k | |s.ready| <= k < |s'.ready|
      ensures s'.ready[k].runs == 0
    {
      assert s'.ready[k] == MadeReady(s.pending[..n])[k - |s.ready|];
    }
  }

  lemma TakeInTime(policy: Policy, jobs: seq<Job>, s: Pool, s': Pool, w: nat, k: nat)
    requires Inv(policy, jobs, s) && InTime(s) && Take(policy, s, s', w, k)
    ensures InTime(s')
  {
    assert Waiting(SliceOf(policy), s.ready[k]) && Behind(s.ready[k], s.workers[0].coreTime);
    forall i | 0 <= i < |s'.ready|
      ensures Behind(s'.ready[i], s.workers[0].coreTime)
    {
      assert s'.ready[i] == s.ready[if i < k then i else i + 1];
    }
  }

  lemma SliceInTime(slice: real, j: Job, execution: real, dispatchTime: real)
    requires Executing(slice, j, execution, dispatchTime) && Behind(j, dispatchTime)
    ensures execution >= 0.0
    ensures var left, finish := LeftAfter(j.remaining, execution), dispatchTime + execution;
            if left <= SNAP then LongEnough(Completed(j, finish))
            else Behind(j.(remaining := left, state := Ready), finish)
  {
  }

  lemma FinishInTime(policy: Policy, jobs: seq<Job>, s: Pool, s': Pool, w: nat)
    requires Inv(policy, jobs, s) && InTime(s) && Finish(policy, s, s', w)
    ensures InTime(s')
  {
    var b := s.workers[w];
    FinishMoves(policy, s, s', w);
    assert WorkerOk(SliceOf(policy), b);
    SliceInTime(SliceOf(policy), b.job, b.execution, b.dispatchTime);
  }

  lemma StepInTime(policy: Policy, jobs: seq<Job>, s: Pool, s': Pool, step: Step)
    requires Inv(policy, jobs, s) && InTime(s) && Steps(policy, s, s', step)
    requires s.workers[0].Gone? ==> s.done
    ensures InTime(s') && (s'.workers[0].Gone? ==> s'.done)
  {
    match step
    case AdmitStep => AdmitInTime(policy, jobs, s, s');
    case TakeStep(w, k) => TakeInTime(policy, jobs, s, s', w, k);
    case FinishStep(w) => FinishInTime(policy, jobs, s, s', w);
    case LeaveStep(w) =>
    case BreakStep =>
    case AdvanceStep =>
    case StopStep =>
  }

  lemma {:induction false} OneCoreKeepsTime(policy: Policy, jobs: seq<Job>, run: seq<Pool>, steps: seq<Step>, t: nat)
    requires PolicyOk(policy) && IsRun(policy, jobs, run, steps) && t < |run| && |run[0].workers| == 1
    ensures InTime(run[t]) && (run[t].workers[0].Gone? ==> run[t].done)
  {
    if t > 0 {
      OneCoreKeepsTime(policy, jobs, run, steps, t - 1);
      NextInTime(policy, jobs, run, steps, t - 1);
    }
  }

  lemma NextInTime(policy: Policy, jobs: seq<Job>, run: seq<Pool>, steps: seq<Step>, t: nat)
    requires PolicyOk(policy) && IsRun(policy, jobs, run, steps) && t < |steps|
    requires InTime(run[t]) && (run[t].workers[0].Gone? ==> run[t].done)
    ensures InTime(run[t + 1]) && (run[t + 1].workers[0].Gone? ==> run[t + 1].done)
  {
    AlwaysHolds(policy, jobs, run, steps, t);
    assert StepAt(policy, run, steps, t);
    StepInTime(policy, jobs, run[t], run[t + 1], steps[t]);
  }

  // ----- Two cores do not

  function TheJob(burst: real): Job
  {
    Job(1, 0.0, burst, burst, -1.0, -1.0, 0.0, 0.0, New, 0)
  }

  lemma OneInOrder(rotation: seq<int>, j: Job)
    requires j.id == 1 && (rotation == [] || rotation == [1])
    ensures Ids([j]) == [1] && ServiceOrder(rotation, Ids([j])) == [1]
  {
    assert Ids([j]) == [1];
    assert [1][..0] == [];
    assert Kept(rotation, [1]) == rotation;
    assert Appended(rotation, [1][..0]) == rotation;
  }

  /** The job is alone in the ready queue, and core `w` is free at `time`. */
  ghost predicate Alone(burst: real, s: Pool, j: Job, w: nat, time: real)
  {
    && s.ready == [j] && RecordOf(TheJob(burst), j) && s.completed == []
    && w < |s.workers| && s.workers[w] == Free(time) && time >= 0.0
    && (s.rotation == [] || s.rotation == [1])
  }

  /** One slice on core `w`. */
  lemma SliceOn(quantum: int, burst: real, run: seq<Pool>, steps: seq<Step>, j: Job, w: nat, time: real)
    returns (run': seq<Pool>, steps': seq<Step>)
    requires IsRun(RoundRobin(quantum), [TheJob(burst)], run, steps) && quantum >= 1
    requires Alone(burst, run[|run| - 1], j, w, time) && j.remaining > SNAP
    ensures IsRun(RoundRobin(quantum), [TheJob(burst)], run', steps') && run'[0] == run[0]
    ensures var s, s' := run[|run| - 1], run'[|run'| - 1];
            var e := Execution(quantum as real, j.remaining);
            var d := Dispatched(j, time);
            && s'.workers == s.workers[w := Free(time + e)]
            && if LeftAfter(j.remaining, e) <= SNAP then s'.completed == [Completed(d, time + e)]
               else Alone(burst, s', d.(remaining := j.remaining - e, state := Ready), w, time + e)
  {
    var policy, s := RoundRobin(quantum), run[|run| - 1];
    var m, s' := SliceStates(quantum, burst, s, j, w, time);
    run', steps' := run + [m, s'], steps + [TakeStep(w, 0), FinishStep(w)];
    TwoMore(policy, [TheJob(burst)], run, steps, m, s', TakeStep(w, 0), FinishStep(w));
  }

  /** The states after the job is taken and after its slice. */
  lemma SliceStates(quantum: int, burst: real, s: Pool, j: Job, w: nat, time: real) returns (m: Pool, s': Pool)
    requires quantum >= 1 && Alone(burst, s, j, w, time) && j.remaining > SNAP
    ensures Take(RoundRobin(quantum), s, m, w, 0) && Finish(RoundRobin(quantum), m, s', w)
    ensures var e := Execution(quantum as real, j.remaining);
            var d := Dispatched(j, time);
            && s'.workers == s.workers[w := Free(time + e)]
            && if LeftAfter(j.remaining, e) <= SNAP then s'.completed == [Completed(d, time + e)]
               else Alone(burst, s', d.(remaining := j.remaining - e, state := Ready), w, time + e)
  {
    m := TakeAlone(quantum, burst, s, j, w, time);
    s' := AfterSlice(RoundRobin(quantum), m, w);
    assert Without([], 1) == [];
  }

  lemma TakeAlone(quantum: int, burst: real, s: Pool, j: Job, w: nat, time: real) returns (m: Pool)
    requires quantum >= 1 && Alone(burst, s, j, w, time)
    ensures Take(RoundRobin(quantum), s, m, w, 0) && m.ready == [] && m.rotation == [] && m.completed == []
    ensures m.workers == s.workers[w := Busy(Dispatched(j, time), Execution(quantum as real, j.remaining), time)]
  {
    var order := ServiceOrder(s.rotation, Ids(s.ready));
    OneInOrder(s.rotation, j);
    var e := Execution(quantum as real, j.remaining);
    m := s.(ready := s.ready[..0] + s.ready[1..], workers := s.workers[w := Busy(Dispatched(j, time), e, time)],
            active := s.active + 1, switches := s.switches + 1, rotation := order[1..]);
  }

  lemma AfterSlice(policy: Policy, s: Pool, w: nat) returns (s': Pool)
    requires w < |s.workers| && s.workers[w].Busy?
    ensures Finish(policy, s, s', w)
  {
    var b := s.workers[w];
    var finish := b.dispatchTime + b.execution;
    var left := LeftAfter(b.job.remaining, b.execution);
    var t := s.(workers := s.workers[w := Free(finish)], active := s.active - 1,
                rotation := if policy.RoundRobin?
                            then Without(s.rotation, b.job.id) + (if left <= SNAP then [] else [b.job.id])
                            else s.rotation);
    s' := if left <= SNAP then t.(completed := s.completed + [Completed(b.job, finish)])
          else t.(ready := s.ready + [b.job.(remaining := left, state := Ready)]);
  }

  lemma TwoMore(policy: Policy, jobs: seq<Job>, run: seq<Pool>, steps: seq<Step>, m: Pool, s': Pool, a: Step, b: Step)
    requires IsRun(policy, jobs, run, steps) && Steps(policy, run[|run| - 1], m, a) && Steps(policy, m, s', b)
    ensures IsRun(policy, jobs, run + [m, s'], steps + [a, b])
  {
    var run', steps' := run + [m, s'], steps + [a, b];
    forall t | 0 <= t < |steps'|
      ensures StepAt(policy, run', steps', t)
    {
      if t < |steps| {
        assert StepAt(policy, run, steps, t);
      }
    }
  }

  /** Core 1 does all that is left, from its own time on. */
  lemma {:induction false} RestOnCoreOne(quantum: int, burst: real, run: seq<Pool>, steps: seq<Step>, j: Job,
                                         time: real)
    returns (run': seq<Pool>, steps': seq<Step>)
    requires IsRun(RoundRobin(quantum), [TheJob(burst)], run, steps) && quantum >= 1
    requires Alone(burst, run[|run| - 1], j, 1, time) && j.remaining > SNAP && j.start == 0.0
    requires time + j.remaining <= burst - quantum as real
    ensures IsRun(RoundRobin(quantum), [TheJob(burst)], run', steps') && run'[0] == run[0]
    ensures var done := run'[|run'| - 1].completed;
            |done| == 1 && RecordOf(TheJob(burst), done[0]) && done[0].turnaround <= burst - quantum as real
    decreases j.remaining.Floor
  {
    run', steps' := SliceOn(quantum, burst, run, steps, j, 1, time);
    var e := Execution(quantum as real, j.remaining);
    if LeftAfter(j.remaining, e) > SNAP {
      var rest := Dispatched(j, time).(remaining := j.remaining - e, state := Ready);
      run', steps' := RestOnCoreOne(quantum, burst, run', steps', rest, time + e);
    }
  }

  lemma Admission(burst: real, workers: nat, policy: Policy) returns (run: seq<Pool>, steps: seq<Step>)
    requires burst >= 0.0
    ensures IsRun(policy, [TheJob(burst)], run, steps) && |run[0].workers| == workers
    ensures var s := run[|run| - 1];
            && s.ready == [TheJob(burst).(state := Ready)] && s.completed == [] && s.rotation == []
            && s.workers == run[0].workers
  {
    var j := TheJob(burst);
    var s := Pool([j], [], seq(workers, _ => Free(0.0)), [], 0, 0, [], 0.0, false, true);
    var s' := s.(pending := [], ready := [j.(state := Ready)]);
    assert Ids([j]) == [1];
    assert Arrived([], 0.0) == 0 && [j][1..] == [];
    assert Arrived([j], 0.0) == 1;
    assert MadeReady([j][..1]) == [j.(state := Ready)];
    run, steps := [s, s'], [AdmitStep];
    assert StepAt(policy, run, steps, 0);
  }

  /** With two cores, and a burst beyond the quantum, core 0 can do the first slice and core 1 the others, as if from
      time 0: the turnaround comes out a whole quantum short. */
  lemma FallsShort(quantum: int, workers: nat, burst: real) returns (run: seq<Pool>, steps: seq<Step>)
    requires quantum >= 1 && workers >= 2 && burst > quantum as real + SNAP
    ensures IsRun(RoundRobin(quantum), [TheJob(burst)], run, steps) && |run[0].workers| == workers
    ensures var done := run[|run| - 1].completed;
            |done| == 1 && RecordOf(TheJob(burst), done[0]) && done[0].turnaround <= burst - quantum as real
  {
    var j := TheJob(burst).(state := Ready);
    run, steps := Admission(burst, workers, RoundRobin(quantum));
    assert run[0].workers[0] == run[0].workers[1] == Free(0.0);
    run, steps := SliceOn(quantum, burst, run, steps, j, 0, 0.0);
    var rest := Dispatched(j, 0.0).(remaining := burst - quantum as real, state := Ready);
    assert Alone(burst, run[|run| - 1], rest, 1, 0.0);
    run, steps := RestOnCoreOne(quantum, burst, run, steps, rest, 0.0);
  }

  // ----- Exactly when

  /** Over every interleaving on `workers` cores, a job of this burst never has a turnaround below it. */
  ghost predicate NeverShort(policy: Policy, workers: nat, burst: real)
  {
    forall jobs: seq<Job>, run: seq<Pool>, steps: seq<Step>, t: nat, k: nat
      | IsRun(policy, jobs, run, steps) && |run[0].workers| == workers && t < |run|
        && k < |run[t].completed| && run[t].completed[k].burst == burst
      :: LongEnough(run[t].completed[k])
  }

  /** What a caller can check beforehand. */
  predicate OneSliceOrOneCore(policy: Policy, workers: nat, burst: real)
  {
    policy.RunToCompletion? || workers <= 1 || burst <= policy.quantum as real + SNAP
  }

  lemma TimesAtLeastOne(n: nat, x: real)
    requires n >= 1 && x >= 0.0
    ensures Times(n, x) >= x
  {
    TimesIsNatural(n - 1, x);
  }

  lemma {:induction false} TimesIsNatural(n: nat, x: real)
    requires x >= 0.0
    ensures Times(n, x) >= 0.0
  {
    if n > 0 {
      TimesIsNatural(n - 1, x);
    }
  }

  lemma OneSliceIsLongEnough(policy: Policy, j: Job)
    requires PolicyOk(policy) && Done(SliceOf(policy), j)
    requires policy.RunToCompletion? || j.burst <= policy.quantum as real + SNAP
    ensures LongEnough(j)
  {
    if j.runs > 1 && policy.RoundRobin? {
      TimesAtLeastOne(j.runs - 1, SliceOf(policy));
    }
  }

  lemma LongEnoughInRun(policy: Policy, jobs: seq<Job>, run: seq<Pool>, steps: seq<Step>, t: nat, k: nat)
    requires PolicyOk(policy) && IsRun(policy, jobs, run, steps) && t < |run| && k < |run[t].completed|
    requires OneSliceOrOneCore(policy, |run[0].workers|, run[t].completed[k].burst)
    ensures LongEnough(run[t].completed[k])
  {
    AlwaysHolds(policy, jobs, run, steps, t);
    if |run[0].workers| == 1 {
      OneCoreKeepsTime(policy, jobs, run, steps, t);
    } else if |run[0].workers| == 0 {
      NobodyCompletes(policy, jobs, run, steps, t);
    } else {
      OneSliceIsLongEnough(policy, run[t].completed[k]);
    }
  }

  lemma {:induction false} NobodyCompletes(policy: Policy, jobs: seq<Job>, run: seq<Pool>, steps: seq<Step>, t: nat)
    requires IsRun(policy, jobs, run, steps) && t < |run| && |run[0].workers| == 0
    ensures run[t].completed == [] && run[t].workers == []
  {
    if t > 0 {
      NobodyCompletes(policy, jobs, run, steps, t - 1);
      assert StepAt(policy, run, steps, t - 1);
    }
  }

  /** Turnaround is at least the burst, to within `SNAP`, in every interleaving exactly if the policy runs to
      completion, there is only one core, or the burst fits one quantum. */
  lemma NeverShortIff(policy: Policy, workers: nat, burst: real)
    requires PolicyOk(policy) && burst >= 0.0
    ensures NeverShort(policy, workers, burst) <==> OneSliceOrOneCore(policy, workers, burst)
  {
    if OneSliceOrOneCore(policy, workers, burst) {
      forall jobs: seq<Job>, run: seq<Pool>, steps: seq<Step>, t: nat, k: nat
        | IsRun(policy, jobs, run, steps) && |run[0].workers| == workers && t < |run|
          && k < |run[t].completed| && run[t].completed[k].burst == burst
        ensures LongEnough(run[t].completed[k])
      {
        LongEnoughInRun(policy, jobs, run, steps, t, k);
      }
    } else {
      var run, steps := FallsShort(policy.quantum, workers, burst);
      assert IsRun(policy, [TheJob(burst)], run, steps);
      assert !LongEnough(run[|run| - 1].completed[0]);
    }
  }

  /** A job of burst 3, with a quantum of 2 on two cores, is completed with a turnaround of at most 1. */
  lemma TurnaroundBelowBurst() returns (run: seq<Pool>, steps: seq<Step>)
    ensures IsRun(RoundRobin(2), [TheJob(3.0)], run, steps) && |run[0].workers| == 2
    ensures var done := run[|run| - 1].completed; |done| == 1 && done[0].burst == 3.0 && done[0].turnaround <= 1.0
  {
    run, steps := FallsShort(2, 2, 3.0);
  }
}
