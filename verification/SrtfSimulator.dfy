/** The shortest-remaining-time-first simulator: its completion times have the least possible sum. */
module SrtfSimulator {
  import opened Arithmetic
  import opened SrtfOptimality

  datatype Process = Process(pid: int, arrival: int, burst: int, completion: int, turnaround: int, wait: int,
                             remaining: int, priority: int, inQueue: bool, complete: bool)

  function Jobs(ps: seq<Process>): (jobs: seq<Job>)
    ensures |jobs| == |ps| && forall i :: 0 <= i < |ps| ==> jobs[i] == Job(ps[i].arrival, ps[i].burst)
  {
    seq(|ps|, i requires 0 <= i < |ps| => Job(ps[i].arrival, ps[i].burst))
  }

  /** As set up by the caller: nothing has run. */
  predicate Unstarted(p: Process)
  {
    p.remaining == p.burst && !p.complete
  }

  /** The results recorded for a completed process. */
  ghost predicate Recorded(jobs: seq<Job>, sched: seq<int>, i: nat, p: Process)
    requires i < |jobs|
  {
    && 0 < p.completion <= |sched|
    && CompletesAt(jobs, sched, i, p.completion)
    && p.turnaround == p.completion - p.arrival
    && p.wait == p.turnaround - p.burst
  }

  ghost predicate Tracks(jobs: seq<Job>, sched: seq<int>, i: nat, p: Process)
    requires i < |jobs|
  {
    && p.arrival == jobs[i].arrival && p.burst == jobs[i].burst
    && p.remaining == Rem(jobs, sched, i, |sched|)
    && (p.complete <==> p.remaining == 0)
    && (p.complete ==> Recorded(jobs, sched, i, p))
  }

  ghost predicate Invariant(jobs: seq<Job>, sched: seq<int>, ps: seq<Process>)
  {
    && |ps| == |jobs|
    && GoodJobs(jobs)
    && Greedy(jobs, sched)
    && forall i :: 0 <= i < |ps| ==> Tracks(jobs, sched, i, ps[i])
  }

  // ----- Extending the schedule by one tick

  lemma {:induction false} RemOfPrefix(jobs: seq<Job>, sched: seq<int>, choice: int, i: nat, t: nat)
    requires i < |jobs| && t <= |sched|
    ensures Rem(jobs, sched + [choice], i, t) == Rem(jobs, sched, i, t)
  {
    if t > 0 {
      RemOfPrefix(jobs, sched, choice, i, t - 1);
    }
  }

  lemma RemOfExtension(jobs: seq<Job>, sched: seq<int>, choice: int, i: nat)
    requires i < |jobs|
    ensures var r := Rem(jobs, sched, i, |sched|);
            Rem(jobs, sched + [choice], i, |sched| + 1) == if choice == i && r > 0 then r - 1 else r
  {
    RemOfPrefix(jobs, sched, choice, i, |sched|);
  }

  lemma RecordedInExtension(jobs: seq<Job>, sched: seq<int>, choice: int, i: nat, p: Process)
    requires i < |jobs| && Recorded(jobs, sched, i, p)
    ensures Recorded(jobs, sched + [choice], i, p)
  {
    RemOfPrefix(jobs, sched, choice, i, p.completion);
    RemOfPrefix(jobs, sched, choice, i, p.completion - 1);
  }

  lemma GreedyExtension(jobs: seq<Job>, sched: seq<int>, choice: int)
    requires Greedy(jobs, sched) && Shortest(jobs, Rems(jobs, sched, |sched|), |sched|, choice)
    ensures Greedy(jobs, sched + [choice])
  {
    var sched' := sched + [choice];
    forall u | 0 <= u < |sched'|
      ensures ShortestAt(jobs, sched', u)
    {
      forall i | 0 <= i < |jobs|
        ensures Rem(jobs, sched', i, u) == Rem(jobs, sched, i, u)
      {
        RemOfPrefix(jobs, sched, choice, i, u);
      }
      assert Rems(jobs, sched', u) == Rems(jobs, sched, u);
      if u < |sched| {
        assert ShortestAt(jobs, sched, u);
      }
    }
  }

  /** One unit of work for a process during tick `time`. */
  function Work(p: Process, time: int): Process
  {
    var q := p.(remaining := p.remaining - 1);
    if q.remaining == 0 then
      q.(complete := true, completion := time + 1, turnaround := time + 1 - p.arrival,
         wait := time + 1 - p.arrival - p.burst)
    else q
  }

  lemma TrackTick(jobs: seq<Job>, sched: seq<int>, i: nat, p: Process, choice: int)
    requires i < |jobs| && Tracks(jobs, sched, i, p) && jobs[i].burst >= 1
    requires choice == i ==> p.remaining > 0
    ensures Tracks(jobs, sched + [choice], i, if choice == i then Work(p, |sched|) else p)
  {
    RemOfExtension(jobs, sched, choice, i);
    if choice == i {
      RemOfPrefix(jobs, sched, choice, i, |sched|);
    } else if p.complete {
      RecordedInExtension(jobs, sched, choice, i, p);
    }
  }

  lemma TickKeepsInvariant(jobs: seq<Job>, sched: seq<int>, ps: seq<Process>, choice: int)
    requires Invariant(jobs, sched, ps) && Selected(ps, |sched|, choice)
    ensures Invariant(jobs, sched + [choice], if choice == -1 then ps else ps[choice := Work(ps[choice], |sched|)])
  {
    var rem := Rems(jobs, sched, |sched|);
    assert forall i :: 0 <= i < |ps| ==> Tracks(jobs, sched, i, ps[i]);
    assert forall i :: Ready(jobs, rem, |sched|, i) ==> Eligible(ps, |sched|, i);
    GreedyExtension(jobs, sched, choice);
    forall i | 0 <= i < |ps|
      ensures Tracks(jobs, sched + [choice], i, if choice == i then Work(ps[i], |sched|) else ps[i])
    {
      TrackTick(jobs, sched, i, ps[i], choice);
    }
  }

  // ----- Progress

  function Remaining(ps: seq<Process>): (r: seq<int>)
    ensures |r| == |ps| && forall i :: 0 <= i < |ps| ==> r[i] == ps[i].remaining
  {
    seq(|ps|, i requires 0 <= i < |ps| => ps[i].remaining)
  }

  function LastArrival(ps: seq<Process>): (m: nat)
    ensures forall i :: 0 <= i < |ps| ==> ps[i].arrival <= m
  {
    if ps == [] then 0
    else
      var n := |ps| - 1;
      var m := LastArrival(ps[..n]);
      assert forall i :: 0 <= i < n ==> ps[i] == ps[..n][i];
      if ps[n].arrival > m then ps[n].arrival else m
  }

  function Completed(ps: seq<Process>): nat
  {
    if ps == [] then 0 else Completed(ps[..|ps| - 1]) + if ps[|ps| - 1].complete then 1 else 0
  }

  lemma {:induction false} CompletedAll(ps: seq<Process>)
    ensures Completed(ps) <= |ps|
    ensures Completed(ps) == |ps| <==> forall i :: 0 <= i < |ps| ==> ps[i].complete
  {
    if ps != [] {
      var init := ps[..|ps| - 1];
      CompletedAll(init);
      assert ps == init + [ps[|ps| - 1]];
    }
  }

  lemma {:induction false} CompletedUpdate(ps: seq<Process>, i: nat, p: Process)
    requires i < |ps| && !ps[i].complete
    ensures Completed(ps[i := p]) == Completed(ps) + if p.complete then 1 else 0
  {
    var n := |ps| - 1;
    if i == n {
      assert ps[i := p][..n] == ps[..n];
    } else {
      CompletedUpdate(ps[..n], i, p);
      assert ps[i := p][..n] == ps[..n][i := p];
    }
  }

  lemma {:induction false} SumUpdate(s: seq<int>, i: nat, v: int)
    requires i < |s|
    ensures Sum(s[i := v]) == Sum(s) - s[i] + v
  {
    var n := |s| - 1;
    if i == n {
      assert s[i := v][..n] == s[..n];
    } else {
      SumUpdate(s[..n], i, v);
      assert s[i := v][..n] == s[..n][i := v];
    }
  }

  lemma {:induction false} SumNatural(s: seq<int>)
    requires Natural(s)
    ensures Sum(s) >= 0
  {
    if s != [] {
      SumNatural(s[..|s| - 1]);
    }
  }

  // ----- The selection scan

  predicate Eligible(ps: seq<Process>, time: int, i: int)
  {
    0 <= i < |ps| && ps[i].arrival <= time && !ps[i].complete && 0 < ps[i].remaining < INT_MAX
  }

  ghost predicate Selected(ps: seq<Process>, time: int, choice: int)
  {
    if choice == -1 then forall i :: !Eligible(ps, time, i)
    else Eligible(ps, time, choice) && forall i :: Eligible(ps, time, i) ==> ps[choice].remaining <= ps[i].remaining
  }

  method SelectShortest(jobs: array<Process>, time: int) returns (shortest: int)
    ensures Selected(jobs[..], time, shortest)
    ensures shortest >= 0 ==>
      !exists i :: 0 <= i < shortest && Eligible(jobs[..], time, i) && jobs[i].remaining == jobs[shortest].remaining
  {
    shortest := -1;
    var minRemaining := INT_MAX;
    for i := 0 to jobs.Length
      invariant -1 <= shortest < i
      invariant shortest == -1 ==> minRemaining == INT_MAX
      invariant shortest >= 0 ==> Eligible(jobs[..], time, shortest) && minRemaining == jobs[shortest].remaining
      invariant forall j :: 0 <= j < i && Eligible(jobs[..], time, j) ==> minRemaining <= jobs[j].remaining
      invariant forall j :: 0 <= j < shortest && Eligible(jobs[..], time, j) ==> minRemaining < jobs[j].remaining
      invariant minRemaining <= INT_MAX
    {
      if jobs[i].arrival <= time && !jobs[i].complete && jobs[i].remaining > 0 {
        if jobs[i].remaining < minRemaining {
          minRemaining := jobs[i].remaining;
          shortest := i;
        }
      }
    }
  }

  // ----- The simulator

  function Completions(ps: seq<Process>): (times: seq<int>)
    ensures |times| == |ps| && forall i :: 0 <= i < |ps| ==> times[i] == ps[i].completion
  {
    seq(|ps|, i requires 0 <= i < |ps| => ps[i].completion)
  }

  function Waits(ps: seq<Process>): (waits: seq<int>)
    ensures |waits| == |ps| && forall i :: 0 <= i < |ps| ==> waits[i] == ps[i].wait
  {
    seq(|ps|, i requires 0 <= i < |ps| => ps[i].wait)
  }

  /** The waiting times that go with completion times `times`. */
  function WaitsFor(jobs: seq<Job>, times: seq<int>): (waits: seq<int>)
    requires |times| == |jobs|
    ensures |waits| == |jobs| && forall i :: 0 <= i < |jobs| ==> waits[i] == times[i] - jobs[i].arrival - jobs[i].burst
  {
    seq(|jobs|, i requires 0 <= i < |jobs| => times[i] - jobs[i].arrival - jobs[i].burst)
  }

  lemma {:induction false} WaitsFollowTimes(jobs: seq<Job>, a: seq<int>, b: seq<int>)
    requires |a| == |b| == |jobs|
    ensures Sum(WaitsFor(jobs, a)) - Sum(WaitsFor(jobs, b)) == Sum(a) - Sum(b)
  {
    if jobs != [] {
      var n := |jobs| - 1;
      WaitsFollowTimes(jobs[..n], a[..n], b[..n]);
      assert WaitsFor(jobs, a)[..n] == WaitsFor(jobs[..n], a[..n]);
      assert WaitsFor(jobs, b)[..n] == WaitsFor(jobs[..n], b[..n]);
    }
  }

  /** Every feasible one-CPU schedule has at least this sum of completion times and of waiting times. */
  ghost predicate Optimal(jobs: seq<Job>, ps: seq<Process>)
  {
    forall other, times: seq<nat> :: Respects(jobs, other) && CompletionTimes(jobs, other, times) ==>
      Sum(Completions(ps)) <= Sum(times) && Sum(Waits(ps)) <= Sum(WaitsFor(jobs, times))
  }

  ghost predicate Finished(jobs: seq<Job>, sched: seq<int>, i: nat, p: Process)
    requires i < |jobs|
  {
    Recorded(jobs, sched, i, p) && p.arrival == jobs[i].arrival && p.burst == jobs[i].burst && p.remaining == 0
        && p.complete
  }

  ghost predicate AllFinished(jobs: seq<Job>, sched: seq<int>, ps: seq<Process>)
  {
    |ps| == |jobs| && forall i :: 0 <= i < |ps| ==> Finished(jobs, sched, i, ps[i])
  }

  lemma FinishedTimes(jobs: seq<Job>, sched: seq<int>, ps: seq<Process>) returns (times: seq<nat>)
    requires AllFinished(jobs, sched, ps)
    ensures times == Completions(ps) && Waits(ps) == WaitsFor(jobs, times)
    ensures CompletionTimes(jobs, sched, times)
    ensures forall i :: 0 <= i < |times| ==> times[i] <= |sched|
  {
    forall i | 0 <= i < |ps|
      ensures 0 <= ps[i].completion <= |sched| && CompletesAt(jobs, sched, i, ps[i].completion)
      ensures ps[i].wait == ps[i].completion - jobs[i].arrival - jobs[i].burst
    {
      assert Finished(jobs, sched, i, ps[i]);
    }
    times := Completions(ps);
  }

  lemma FinishedIsOptimal(jobs: seq<Job>, sched: seq<int>, ps: seq<Process>)
    requires GoodJobs(jobs) && Greedy(jobs, sched) && AllFinished(jobs, sched, ps)
    ensures Optimal(jobs, ps)
  {
    var times := FinishedTimes(jobs, sched, ps);
    forall other, otherTimes: seq<nat> | Respects(jobs, other) && CompletionTimes(jobs, other, otherTimes)
      ensures Sum(Completions(ps)) <= Sum(otherTimes) && Sum(Waits(ps)) <= Sum(WaitsFor(jobs, otherTimes))
    {
      GreedyIsOptimal(jobs, sched, times, other, otherTimes);
      WaitsFollowTimes(jobs, times, otherTimes);
    }
  }

  lemma InvariantAtEnd(jobs: seq<Job>, sched: seq<int>, ps: seq<Process>)
    requires Invariant(jobs, sched, ps) && Completed(ps) == |ps|
    ensures Greedy(jobs, sched) && AllFinished(jobs, sched, ps) && Optimal(jobs, ps)
  {
    CompletedAll(ps);
    forall i | 0 <= i < |ps|
      ensures Finished(jobs, sched, i, ps[i])
    {
      assert Tracks(jobs, sched, i, ps[i]);
    }
    FinishedIsOptimal(jobs, sched, ps);
  }

  lemma InvariantAtStart(ps: seq<Process>)
    requires forall i :: 0 <= i < |ps| ==> Unstarted(ps[i]) && 1 <= ps[i].burst < INT_MAX
    ensures Invariant(Jobs(ps), [], ps) && Completed(ps) == 0
  {
    NoneCompleted(ps);
  }

  lemma {:induction false} NoneCompleted(ps: seq<Process>)
    requires forall i :: 0 <= i < |ps| ==> !ps[i].complete
    ensures Completed(ps) == 0
  {
    if ps != [] {
      NoneCompleted(ps[..|ps| - 1]);
    }
  }

  ghost predicate SameProcess(p: Process, q: Process)
  {
    p.pid == q.pid && p.arrival == q.arrival && p.burst == q.burst && p.priority == q.priority && p.inQueue == q.inQueue
  }

  /** Ticks of work left, plus ticks until the last arrival. */
  ghost function Outstanding(ps: seq<Process>, time: int, last: int): int
  {
    Sum(Remaining(ps)) + if time < last then last - time else 0
  }

  lemma {:induction false} Progress(jobs: seq<Job>, sched: seq<int>, ps: seq<Process>, last: int, choice: int)
    requires Invariant(jobs, sched, ps) && Selected(ps, |sched|, choice)
    requires Completed(ps) < |ps| && forall i :: 0 <= i < |ps| ==> jobs[i].arrival <= last
    ensures var ps' := if choice == -1 then ps else ps[choice := Work(ps[choice], |sched|)];
            0 <= Outstanding(ps, |sched|, last) && Outstanding(ps', |sched| + 1, last) < Outstanding(ps, |sched|, last)
  {
    forall i | 0 <= i < |ps|
      ensures 0 <= ps[i].remaining < INT_MAX && ps[i].arrival == jobs[i].arrival
    {
      assert Tracks(jobs, sched, i, ps[i]);
      RemRange(jobs, sched, i, |sched|);
    }
    SumNatural(Remaining(ps));
    if choice == -1 {
      CompletedAll(ps);
      var i :| 0 <= i < |ps| && !ps[i].complete;
      assert Tracks(jobs, sched, i, ps[i]);
      assert !Eligible(ps, |sched|, i);
    } else {
      var p := Work(ps[choice], |sched|);
      SumUpdate(Remaining(ps), choice, p.remaining);
      assert Remaining(ps[choice := p]) == Remaining(ps)[choice := p.remaining];
    }
  }

  // ----- Bursts the loop never gets done

  /** The process table at each loop head, from `states[0]`, with the choice made in each tick. */
  ghost predicate TickAt(states: seq<seq<Process>>, choices: seq<int>, t: nat)
    requires t < |choices| && |states| == |choices| + 1
  {
    && Selected(states[t], t, choices[t])
    && states[t + 1] == if choices[t] == -1 then states[t]
                        else states[t][choices[t] := Work(states[t][choices[t]], t)]
  }

  ghost predicate Ticks(states: seq<seq<Process>>, choices: seq<int>)
  {
    |states| == |choices| + 1 && forall t :: 0 <= t < |choices| ==> TickAt(states, choices, t)
  }

  lemma {:induction false} NeverTouched(states: seq<seq<Process>>, choices: seq<int>, i: nat, t: nat)
    requires Ticks(states, choices) && t < |states| && i < |states[0]| && !states[0][i].complete
    requires states[0][i].remaining <= 0 || states[0][i].remaining >= INT_MAX
    ensures |states[t]| == |states[0]| && states[t][i] == states[0][i]
  {
    if t > 0 {
      NeverTouched(states, choices, i, t - 1);
      assert TickAt(states, choices, t - 1);
    }
  }

  /** With a burst outside 1 .. INT_MAX - 1 the loop never ends: after any number of ticks somebody is not complete. */
  lemma NeverEnds(states: seq<seq<Process>>, choices: seq<int>, i: nat, t: nat)
    requires Ticks(states, choices) && t < |states| && i < |states[0]| && Unstarted(states[0][i])
    requires states[0][i].burst <= 0 || states[0][i].burst >= INT_MAX
    ensures Completed(states[t]) < |states[t]|
  {
    NeverTouched(states, choices, i, t);
    CompletedAll(states[t]);
  }

  /** Runs the selected job for tick `time`. */
  method RunTick(jobs: array<Process>, shortest: nat, time: int) returns (finished: bool)
    requires shortest < jobs.Length
    modifies jobs
    ensures jobs[..] == old(jobs[..])[shortest := Work(old(jobs[shortest]), time)]
    ensures finished == (old(jobs[shortest]).remaining == 1)
  {
    var job := jobs[shortest];
    job := job.(remaining := job.remaining - 1);
    finished := job.remaining == 0;
    if finished {
      job := job.(complete := true, completion := time + 1);
      job := job.(turnaround := job.completion - job.arrival);
      job := job.(wait := job.turnaround - job.burst);
    }
    jobs[shortest] := job;
  }

  method Srtf(jobs: array<Process>) returns (ghost sched: seq<int>)
    requires forall i :: 0 <= i < jobs.Length ==> Unstarted(jobs[i]) && 1 <= jobs[i].burst < INT_MAX
    modifies jobs
    ensures forall i :: 0 <= i < jobs.Length ==> SameProcess(jobs[i], old(jobs[..])[i])
    ensures Greedy(Jobs(old(jobs[..])), sched)
    ensures AllFinished(Jobs(old(jobs[..])), sched, jobs[..])
    ensures Optimal(Jobs(old(jobs[..])), jobs[..])
  {
    var time, completed := 0, 0;
    ghost var start := jobs[..];
    ghost var spec := Jobs(start);
    ghost var last := LastArrival(start);
    sched := [];
    InvariantAtStart(start);
    while completed < jobs.Length
      invariant Running(start, sched, jobs[..], time, completed)
      decreases Outstanding(jobs[..], time, last)
    {
      completed, sched := Turn(jobs, time, completed, start, sched, last);
      time := time + 1;
    }
    CompletedAll(jobs[..]);
    InvariantAtEnd(spec, sched, jobs[..]);
  }

  /** At the loop head, `sched` being the choices so far from the table `start`. */
  ghost predicate Running(start: seq<Process>, sched: seq<int>, ps: seq<Process>, time: int, completed: int)
  {
    && |sched| == time && completed == Completed(ps) && Invariant(Jobs(start), sched, ps)
    && forall i :: 0 <= i < |start| ==> SameProcess(ps[i], start[i])
  }

  lemma RunningNext(start: seq<Process>, sched: seq<int>, ps: seq<Process>, time: int, completed: int, choice: int)
    requires Running(start, sched, ps, time, completed) && Selected(ps, time, choice)
    ensures var ps' := if choice == -1 then ps else ps[choice := Work(ps[choice], time)];
            var done := choice != -1 && ps[choice].remaining == 1;
            Running(start, sched + [choice], ps', time + 1, if done then completed + 1 else completed)
  {
    TickKeepsInvariant(Jobs(start), sched, ps, choice);
    if choice != -1 {
      CompletedUpdate(ps, choice, Work(ps[choice], time));
    }
  }

  /** One turn of the loop: selects a job and runs it for a tick, or lets the tick pass. */
  method Turn(jobs: array<Process>, time: int, completed: int, ghost start: seq<Process>, ghost sched: seq<int>,
              ghost last: nat)
    returns (completed': int, ghost sched': seq<int>)
    requires Running(start, sched, jobs[..], time, completed) && completed < jobs.Length
    requires forall i :: 0 <= i < |start| ==> start[i].arrival <= last
    modifies jobs
    ensures Running(start, sched', jobs[..], time + 1, completed')
    ensures 0 <= Outstanding(old(jobs[..]), time, last)
    ensures Outstanding(jobs[..], time + 1, last) < Outstanding(old(jobs[..]), time, last)
  {
    ghost var before := jobs[..];
    var shortest := SelectShortest(jobs, time);
    RunningNext(start, sched, before, time, completed, shortest);
    Progress(Jobs(start), sched, before, last, shortest);
    completed', sched' := completed, sched + [shortest];
    if shortest != -1 {
      var finished := RunTick(jobs, shortest, time);
      if finished {
        completed' := completed + 1;
      }
    }
  }
}
