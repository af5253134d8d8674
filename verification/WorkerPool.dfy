/** The concurrent scheduler as a state machine: every region under the queue
    mutex is one step, and what is read without the mutex may be anything. */
module WorkerPool {
  import opened Distinctness
  import opened Rotation

  const EPSILON := 0.00001
  const SNAP := 0.001

  datatype JobState = New | Ready | Running | Finished

  /** `runs` counts dispatches; it is kept for the statements only. */
  datatype Job = Job(id: int, arrival: real, burst: real, remaining: real, start: real, finish: real,
                     waiting: real, turnaround: real, state: JobState, runs: nat)

  /** A worker outside its slice, with its core's local time; one that executes a copy of a job; one that has left its
      loop. */
  datatype Worker =
    | Free(coreTime: real)
    | Busy(job: Job, execution: real, dispatchTime: real)
    | Gone

  /** A policy's choice matters only for round robin; a negative slice means running to completion. */
  datatype Policy = RoundRobin(quantum: int) | RunToCompletion

  datatype Pool = Pool(pending: seq<Job>, ready: seq<Job>, workers: seq<Worker>, completed: seq<Job>, active: int,
                       switches: nat, rotation: seq<int>, clock: real, done: bool, running: bool)

  function SliceOf(policy: Policy): real
  {
    match policy
    case RoundRobin(quantum) => quantum as real
    case RunToCompletion => -1.0
  }

  function Ids(jobs: seq<Job>): (r: seq<int>)
    ensures |r| == |jobs| && forall k :: 0 <= k < |jobs| ==> r[k] == jobs[k].id
  {
    seq(|jobs|, k requires 0 <= k < |jobs| => jobs[k].id)
  }

  // ----- One slice

  function Execution(slice: real, remaining: real): real
  {
    var e := if slice > 0.0 && slice < remaining then slice else remaining;
    if e < SNAP then remaining else e
  }

  function Dispatched(job: Job, dispatchTime: real): Job
  {
    job.(start := if job.start < 0.0 then dispatchTime else job.start, state := Running, runs := job.runs + 1)
  }

  function LeftAfter(remaining: real, execution: real): real
  {
    if remaining - execution < SNAP then 0.0 else remaining - execution
  }

  function AtLeastZero(x: real): real
  {
    if x < 0.0 then 0.0 else x
  }

  function Completed(job: Job, finish: real): Job
  {
    job.(remaining := 0.0, finish := finish, state := Finished,
         waiting := if job.start >= 0.0 && job.arrival >= 0.0 then AtLeastZero(job.start - job.arrival)
             else job.waiting,
         turnaround := if finish >= 0.0 && job.arrival >= 0.0 then AtLeastZero(finish - job.arrival)
             else job.turnaround)
  }

  // ----- Steps

  /** How many jobs at the front of `pending` have arrived. */
  function Arrived(pending: seq<Job>, clock: real): (n: nat)
    ensures n <= |pending|
  {
    if pending == [] || pending[0].arrival > clock + EPSILON then 0 else 1 + Arrived(pending[1..], clock)
  }

  /** They are the longest stretch at the front in which everybody has arrived. */
  lemma {:induction false} ArrivedTells(pending: seq<Job>, clock: real)
    ensures forall k :: 0 <= k < Arrived(pending, clock) ==> pending[k].arrival <= clock + EPSILON
    ensures Arrived(pending, clock) < |pending| ==> pending[Arrived(pending, clock)].arrival > clock + EPSILON
  {
    if pending != [] && pending[0].arrival <= clock + EPSILON {
      ArrivedTells(pending[1..], clock);
      var n := Arrived(pending[1..], clock);
      forall k | 0 <= k < n + 1
        ensures pending[k].arrival <= clock + EPSILON
      {
        assert k > 0 ==> pending[k] == pending[1..][k - 1];
      }
    }
  }

  function MadeReady(jobs: seq<Job>): (r: seq<Job>)
    ensures |r| == |jobs| && forall k :: 0 <= k < |jobs| ==> r[k] == jobs[k].(state := Ready)
  {
    seq(|jobs|, k requires 0 <= k < |jobs| => jobs[k].(state := Ready))
  }

  /** The scheduler admits every job that has arrived. */
  ghost predicate Admit(s: Pool, s': Pool)
  {
    && !s.done
    && var n := Arrived(s.pending, s.clock);
       s' == s.(pending := s.pending[n..], ready := s.ready + MadeReady(s.pending[..n]))
  }

  /** The scheduler finds nothing pending, nothing ready and no worker active, and leaves its loop. */
  ghost predicate Break(s: Pool, s': Pool)
  {
    !s.done && s.pending == [] && s.ready == [] && s.active == 0 && s' == s.(done := true)
  }

  /** The scheduler, having read the ready queue without the mutex, moves its clock to the next arrival. */
  ghost predicate Advance(s: Pool, s': Pool)
  {
    && !s.done && s.pending != []
    && s' == s.(clock := if s.pending[0].arrival > s.clock then s.pending[0].arrival else s.clock)
  }

  /** The flag is cleared once the scheduler has left its loop. */
  ghost predicate Stop(s: Pool, s': Pool)
  {
    s.done && s' == s.(running := false)
  }

  /** Worker `w` takes the ready job at position `k`, the policy's choice, out of the queue. */
  ghost predicate Take(policy: Policy, s: Pool, s': Pool, w: nat, k: nat)
  {
    && w < |s.workers| && s.workers[w].Free? && k < |s.ready|
    && var order, job := ServiceOrder(s.rotation, Ids(s.ready)), s.ready[k];
       var time := if s.workers[w].coreTime < job.arrival then job.arrival else s.workers[w].coreTime;
       && (policy.RoundRobin? ==> order != [] && job.id == order[0])
       && s' == s.(ready := s.ready[..k] + s.ready[k + 1..],
                   workers := s.workers[w :=
                     Busy(Dispatched(job, time), Execution(SliceOf(policy), job.remaining), time)],
                   active := s.active + 1, switches := s.switches + 1,
                   rotation := if policy.RoundRobin? && order != [] then order[1..] else s.rotation)
  }

  /** Worker `w` has run its slice: the job is complete, or goes back to the ready queue. */
  ghost predicate Finish(policy: Policy, s: Pool, s': Pool, w: nat)
  {
    && w < |s.workers| && s.workers[w].Busy?
    && var b := s.workers[w];
       var finish := b.dispatchTime + b.execution;
       var left := LeftAfter(b.job.remaining, b.execution);
       var t := s.(workers := s.workers[w := Free(finish)], active := s.active - 1,
                   rotation := if policy.RoundRobin?
                               then Without(s.rotation, b.job.id) + (if left <= SNAP then [] else [b.job.id])
                               else s.rotation);
       s' == if left <= SNAP then t.(completed := s.completed + [Completed(b.job, finish)])
             else t.(ready := s.ready + [b.job.(remaining := left, state := Ready)])
  }

  /** A worker leaves its loop once the flag is cleared. */
  ghost predicate Leave(s: Pool, s': Pool, w: nat)
  {
    w < |s.workers| && s.workers[w].Free? && !s.running && s' == s.(workers := s.workers[w := Gone])
  }

  datatype Step = AdmitStep | BreakStep | AdvanceStep | StopStep | TakeStep(w: nat, k: nat) | FinishStep(w: nat)
      | LeaveStep(w: nat)

  ghost predicate Steps(policy: Policy, s: Pool, s': Pool, step: Step)
  {
    match step
    case AdmitStep => Admit(s, s')
    case BreakStep => Break(s, s')
    case AdvanceStep => Advance(s, s')
    case StopStep => Stop(s, s')
    case TakeStep(w, k) => Take(policy, s, s', w, k)
    case FinishStep(w) => Finish(policy, s, s', w)
    case LeaveStep(w) => Leave(s, s', w)
  }

  ghost predicate FreshJob(j: Job)
  {
    j.remaining == j.burst >= 0.0 && j.arrival >= 0.0 && j.start == -1.0 && j.runs == 0
  }

  /** Before the first step: every job pending, every worker free. */
  ghost predicate Initial(jobs: seq<Job>, s: Pool)
  {
    && Distinct(Ids(jobs)) && (forall k :: 0 <= k < |jobs| ==> FreshJob(jobs[k]))
    && s.pending == jobs && s.ready == s.completed == [] && s.rotation == [] && s.active == s.switches == 0
    && (forall w :: 0 <= w < |s.workers| ==> s.workers[w] == Free(0.0))
    && !s.done && s.running
  }
}
