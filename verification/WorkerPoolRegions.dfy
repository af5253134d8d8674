/** The regions of the scheduler and the workers that run under the queue mutex,
    as they update the shared queues: each is one step of the state machine. */
module WorkerPoolRegions {
  import opened Distinctness
  import opened Rotation
  import opened WorkerPool
  import RoundRobinPolicy

  class Engine {
    const policy: Policy
    const roundRobin: RoundRobinPolicy.Policy
    var pending: seq<Job>
    var ready: seq<Job>
    var workers: seq<Worker>
    var completed: seq<Job>
    var active: int
    var switches: nat
    var clock: real
    var done: bool
    var running: bool

    ghost function State(): Pool
      reads this, roundRobin
    {
      Pool(pending, ready, workers, completed, active, switches, roundRobin.rotation, clock, done, running)
    }

    constructor (jobs: seq<Job>, cores: nat, policy: Policy, roundRobin: RoundRobinPolicy.Policy)
      requires Distinct(Ids(jobs)) && (forall k :: 0 <= k < |jobs| ==> FreshJob(jobs[k])) && roundRobin.rotation == []
      ensures this.policy == policy && this.roundRobin == roundRobin && Initial(jobs, State())
    {
      this.policy, this.roundRobin := policy, roundRobin;
      pending, ready, completed := jobs, [], [];
      workers := seq(cores, w => Free(0.0));
      active, switches, done, running := 0, 0, false, true;
      clock := if jobs == [] then 0.0 else jobs[0].arrival;
    }

    method AdmitArrived()
      requires !done
      modifies this`pending, this`ready
      ensures AdmitsArrived(old(State()), State())
      ensures pending == [] || pending[0].arrival > clock + EPSILON
    {
      ghost var s := State();
      ghost var n := MoveArrived();
      AdmittingDone(s, n, State());
    }

    /** As long as the first pending job has arrived it joins the ready queue. */
    method MoveArrived() returns (ghost n: nat)
      modifies this`pending, this`ready
      ensures Admitting(old(pending), old(ready), clock, n, pending, ready)
      ensures pending == [] || pending[0].arrival > clock + EPSILON
    {
      ghost var all, was := pending, ready;
      n := 0;
      ArrivedFrom(all, clock, 0);
      while pending != [] && pending[0].arrival <= clock + EPSILON
        invariant Admitting(all, was, clock, n, pending, ready)
        decreases |pending|
      {
        AdmittingNext(all, was, clock, n, pending, ready);
        ready := ready + [pending[0].(state := Ready)];
        pending := pending[1..];
        n := n + 1;
      }
    }

    method TestBreak() returns (break_: bool)
      requires !done
      modifies this`done
      ensures break_ == (pending == [] && ready == [] && active == 0)
      ensures if break_ then Break(old(State()), State()) else State() == old(State())
    {
      break_ := pending == [] && ready == [] && active == 0;
      done := break_;
    }

    /** `readyLooksEmpty` is what the scheduler read without the mutex. */
    method AdvanceTime(readyLooksEmpty: bool)
      requires !done
      modifies this`clock
      ensures Advance(old(State()), State()) || State() == old(State())
      ensures clock == old(clock) || (pending != [] && clock == pending[0].arrival > old(clock))
      ensures readyLooksEmpty && pending != [] ==> clock >= pending[0].arrival
    {
      if readyLooksEmpty && pending != [] {
        if pending[0].arrival > clock {
          clock := pending[0].arrival;
        }
      }
    }

    /** The policy's choice, as a position; any position stands for the other policies. */
    method Select(choice: nat) returns (k: nat)
      requires choice < |ready|
      modifies roundRobin
      ensures k < |ready|
      ensures if policy.RoundRobin? then [ready[k].id] + roundRobin.rotation
              == ServiceOrder(old(roundRobin.rotation), Ids(ready))
              else k == choice && roundRobin.rotation == old(roundRobin.rotation)
    {
      k := choice;
      if policy.RoundRobin? {
        var found, id := roundRobin.GetNextJob(Ids(ready));
        ghost var rotation := roundRobin.rotation;
        k := 0;
        while ready[k].id != id
          invariant roundRobin.rotation == rotation
          invariant k < |ready| && forall j :: 0 <= j < k ==> ready[j].id != id
          decreases |ready| - k
        {
          InTheRest(ready, k, id);
          k := k + 1;
        }
      }
    }

    /** A free worker takes a job out of the non-empty ready queue. */
    method TakeJob(w: nat, choice: nat) returns (ghost k: nat)
      requires w < |workers| && workers[w].Free? && choice < |ready|
      modifies this`ready, this`workers, this`active, this`switches, roundRobin
      ensures Take(policy, old(State()), State(), w, k)
    {
      var at := Select(choice);
      k := at;
      var job := ready[at];
      ready := ready[..at] + ready[at + 1..];
      Launch(w, job);
    }

    /** Worker `w` starts on its copy of the job. */
    method Launch(w: nat, selected: Job)
      requires w < |workers| && workers[w].Free?
      modifies this`workers, this`active, this`switches
      ensures active == old(active) + 1 && switches == old(switches) + 1
      ensures var coreTime := old(workers[w]).coreTime;
              var time := if coreTime < selected.arrival then selected.arrival else coreTime;
              workers == old(workers)[w :=
                Busy(Dispatched(selected, time), Execution(SliceOf(policy), selected.remaining), time)]
    {
      var job := selected;
      var dispatchTime := if workers[w].coreTime < job.arrival then job.arrival else workers[w].coreTime;
      var remaining := job.remaining;
      if job.start < 0.0 {
        job := job.(start := dispatchTime);
      }
      job := job.(state := Running, runs := job.runs + 1);
      active := active + 1;
      switches := switches + 1;
      var slice := SliceOf(policy);
      var execution := remaining;
      if slice > 0.0 {
        execution := if slice < remaining then slice else remaining;
      }
      if execution < SNAP {
        execution := remaining;
      }
      workers := workers[w := Busy(job, execution, dispatchTime)];
    }

    /** A worker that has run its slice completes its job or puts it back. */
    method FinishSlice(w: nat)
      requires w < |workers| && workers[w].Busy?
      modifies this`ready, this`workers, this`active, this`completed, roundRobin
      ensures Finish(policy, old(State()), State(), w)
    {
      var b := workers[w];
      var job, finishTime := b.job, b.dispatchTime + b.execution;
      var left := b.job.remaining - b.execution;
      if left < SNAP {
        left := 0.0;
      }
      job := job.(remaining := left);
      if left <= SNAP {
        job := Completed(job, finishTime);
        completed := completed + [job];
      } else {
        job := job.(state := Ready);
        ready := ready + [job];
      }
      if policy.RoundRobin? {
        roundRobin.OnJobCompletion(job.id, left > SNAP);
      }
      workers := workers[w := Free(finishTime)];
      active := active - 1;
    }
  }

  /** Jobs from the front of `pending`, all of which have arrived, have joined the ready queue in order; the next one
      has not arrived. */
  ghost predicate AdmittedOnArrival(s: Pool, s': Pool)
  {
    var n := |s'.ready| - |s.ready|;
    var moved := 0 <= n <= |s.pending| && s'.pending == s.pending[n..] && s'.clock == s.clock
                 && s'.ready[..|s.ready|] == s.ready;
    var came := moved && forall k :: 0 <= k < n ==> ArrivedAs(s.pending[k], s'.ready[|s.ready| + k], s.clock);
    var next := s'.pending == [] || s'.pending[0].arrival > s.clock + EPSILON;
    moved && came && next
  }

  ghost predicate ArrivedAs(j: Job, j': Job, clock: real)
  {
    j' == j.(state := Ready) && j.arrival <= clock + EPSILON
  }

  lemma AdmitOnArrival(s: Pool, s': Pool)
    requires Admit(s, s')
    ensures AdmittedOnArrival(s, s')
    ensures s'.pending == [] || s'.pending[0].arrival > s'.clock + EPSILON
  {
    ArrivedTells(s.pending, s.clock);
    var n := Arrived(s.pending, s.clock);
    forall k | 0 <= k < n
      ensures ArrivedAs(s.pending[k], s'.ready[|s.ready| + k], s.clock)
    {
      assert MadeReady(s.pending[..n])[k] == s.pending[..n][k].(state := Ready);
    }
  }

  /** The first `n` of all pending jobs, every one of them arrived, have joined those that were ready. */
  ghost predicate Admitting(all: seq<Job>, was: seq<Job>, clock: real, n: nat, pending: seq<Job>, ready: seq<Job>)
  {
    && n <= |all| && pending == all[n..] && ready == was + MadeReady(all[..n])
    && n + Arrived(all[n..], clock) == Arrived(all, clock)
  }

  /** The step of the state machine, and what it does to the queues. */
  ghost predicate AdmitsArrived(s: Pool, s': Pool)
  {
    var step := Admit(s, s');
    step && AdmittedOnArrival(s, s')
  }

  lemma AdmittingDone(s: Pool, n: nat, s': Pool)
    requires !s.done && s' == s.(pending := s'.pending, ready := s'.ready)
    requires Admitting(s.pending, s.ready, s.clock, n, s'.pending, s'.ready)
    requires s'.pending == [] || s'.pending[0].arrival > s.clock + EPSILON
    ensures AdmitsArrived(s, s')
  {
    AdmitOnArrival(s, s');
  }

  lemma AdmittingNext(all: seq<Job>, was: seq<Job>, clock: real, n: nat, pending: seq<Job>, ready: seq<Job>)
    requires Admitting(all, was, clock, n, pending, ready)
    requires pending != [] && pending[0].arrival <= clock + EPSILON
    ensures Admitting(all, was, clock, n + 1, pending[1..], ready + [pending[0].(state := Ready)])
  {
    MadeReadyNext(all, n);
    ArrivedFrom(all, clock, n);
  }

  lemma MadeReadyNext(all: seq<Job>, n: nat)
    requires n < |all|
    ensures MadeReady(all[..n + 1]) == MadeReady(all[..n]) + [all[n].(state := Ready)]
    ensures all[n..][1..] == all[n + 1..]
  {
  }

  lemma ArrivedFrom(all: seq<Job>, clock: real, n: nat)
    requires n <= |all| && n + Arrived(all[n..], clock) == Arrived(all, clock)
    ensures n < |all| && all[n].arrival <= clock + EPSILON ==>
            n + 1 + Arrived(all[n + 1..], clock) == Arrived(all, clock)
  {
    if n < |all| {
      assert all[n..][1..] == all[n + 1..];
    }
  }

  lemma InTheRest(jobs: seq<Job>, k: nat, id: int)
    requires k < |jobs| && id in Ids(jobs) && forall j :: 0 <= j <= k ==> jobs[j].id != id
    ensures k + 1 < |jobs|
  {
    var j :| 0 <= j < |jobs| && Ids(jobs)[j] == id;
  }
}
