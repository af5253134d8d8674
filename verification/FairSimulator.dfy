/** The completely fair scheduler: a heap keyed by virtual runtime drives the simulation. */
module FairSimulator {
  import opened FairShare
  import opened MinHeap
  import opened Arithmetic
  import opened Distinctness
  import opened Timeline
  import opened FairBooks
  import opened FairHistory
  import opened ArrivalOrder

  const MAXP := 64

  class CfsSim {
    const jobs: seq<Job>
    const csCost: int
    const period: int
    const runq: Heap
    const procs: array<Proc>
    var sumWeights: int
    var now: int
    var gantt: seq<Slice>
    var busy: int
    ghost var admitted: set<int>
    ghost var runnable: set<int>
    ghost var first: seq<int>
    ghost var owners: seq<int>

    /** Every state since the start, and what led from each to the next. */
    ghost var states: seq<Cfs>
    ghost var events: seq<Event>

    ghost function State(): Cfs
      reads this`admitted, this`runnable, this`first, this`gantt, this`owners, this`now, this`busy, procs
    {
      Cfs(procs[..], admitted, runnable, first, gantt, owners, now, busy)
    }

    ghost predicate HeapHolds(members: set<int>)
      reads runq, runq.idx, runq.key, procs
    {
      && |jobs| <= MAXP && runq.idx.Length == MAXP && procs.Length == |jobs|
      && runq.Valid() && Ordered(runq.Entries())
      && Keyed(multiset(runq.Entries()), procs[..], members)
    }

    /** The heap holds the runnable processes with their virtual runtimes, and `sumWeights` is the sum of their
        weights. */
    ghost predicate Consistent()
      reads this`admitted, this`runnable, this`first, this`gantt, this`owners, this`now, this`busy, this`sumWeights
      reads runq, runq.idx, runq.key, procs
    {
      BooksOk(jobs, State()) && HeapHolds(runnable) && sumWeights == Weights(jobs, runnable)
    }

    ghost predicate Recorded()
      reads this, procs
    {
      IsHistory(jobs, csCost, period, states, events) && states[|events|] == State()
    }

    ghost predicate Valid()
      reads this, runq, runq.idx, runq.key, procs
    {
      var consistent := Consistent();
      var recorded := Recorded();
      consistent && recorded
    }

    constructor (jobs: seq<Job>, csCost: int, period: int)
      requires JobsOk(jobs) && |jobs| <= MAXP
      ensures Valid() && fresh(runq) && fresh(runq.idx) && fresh(runq.key) && fresh(procs)
      ensures this.jobs == jobs && this.csCost == csCost && this.period == period
      ensures now == 0 && admitted == runnable == {}
    {
      this.jobs, this.csCost, this.period := jobs, csCost, period;
      runq := new Heap(MAXP);
      procs := new Proc[|jobs|](i requires 0 <= i < |jobs| => Proc(jobs[i].burst, -1, -1, 0, -1, 0, 0.0));
      sumWeights, now, gantt, busy := 0, 0, [], 0;
      admitted, runnable, owners := {}, {}, [];
      first := seq(|jobs|, i => 0);
      events := [];
      new;
      states := [State()];
      StartingBooks(jobs, State());
      NoWeight(jobs, |jobs|);
    }

    ghost method Record(s: Cfs, e: Event)
      requires IsHistory(jobs, csCost, period, states, events) && states[|events|] == s && BooksOk(jobs, s)
      requires BooksOk(jobs, State()) && Happens(jobs, csCost, period, s, State(), e)
      modifies this`states, this`events
      ensures Recorded() && State() == old(State())
    {
      HistoryGoesOn(jobs, csCost, period, states, events, State(), e);
      states, events := states + [State()], events + [e];
    }

    method Push(i: int)
      requires HeapHolds(runnable - {i}) && BooksOk(jobs, State()) && i in runnable
      modifies runq, runq.idx, runq.key
      ensures HeapHolds(runnable)
    {
      ghost var entries := multiset(runq.Entries());
      HasRoom(entries, State().(runnable := runnable - {i}), i);
      assert |runq.Entries()| == |entries|;
      KeyedPush(entries, procs[..], runnable - {i}, i);
      runq.Push(i, procs[i].vruntime);
      assert runnable - {i} + {i} == runnable;
    }

    method Enqueue(i: int)
      requires Valid() && 0 <= i < |jobs| && i !in admitted && jobs[i].arrival <= now
      modifies this, runq, runq.idx, runq.key, procs
      ensures Valid() && State() == Enqueued(old(State()), i)
    {
      ghost var s := State();
      Join(i);
      Record(s, Joins(i));
    }

    method Join(i: int)
      requires Consistent() && 0 <= i < |jobs| && i !in admitted
      modifies this`first, this`admitted, this`runnable, this`sumWeights, runq, runq.idx, runq.key, procs
      ensures Consistent() && State() == Enqueued(old(State()), i)
    {
      ghost var s := State();
      EnqueueKeeps(jobs, s, i);
      WeightsJoin(jobs, runnable, i, |jobs|);
      Stamp(i);
      assert runnable - {i} == s.runnable;
      Push(i);
      sumWeights := sumWeights + jobs[i].weight;
    }

    /** Records that the process is admitted and queued now. */
    method Stamp(i: int)
      requires HeapHolds(runnable) && 0 <= i < |jobs| && |first| == |jobs|
      modifies this`first, this`admitted, this`runnable, procs
      ensures State() == Enqueued(old(State()), i) && HeapHolds(old(runnable))
    {
      KeyedElsewhere(multiset(runq.Entries()), procs[..], Enqueued(State(), i).procs, runnable);
      procs[i] := procs[i].(lastEnq := now);
      first, admitted, runnable := first[i := now], admitted + {i}, runnable + {i};
      assert State() == Enqueued(old(State()), i);
    }

    /** The runnable process with the least virtual runtime, taken out of the heap, and its slice. */
    method Pick() returns (i: int, slice: int)
      requires Valid() && runq.n > 0
      modifies runq, runq.idx, runq.key
      ensures i in runnable && HeapHolds(runnable - {i})
      ensures forall j :: j in runnable ==> 0 <= j < |jobs| && procs[..][i].vruntime <= procs[..][j].vruntime
      ensures sumWeights >= 1 && slice == SliceOf(period, jobs[i].weight, sumWeights)
      ensures WholeShare(period, jobs[i].weight, sumWeights, slice)
    {
      ghost var entries := multiset(runq.Entries());
      ghost var before := runq.Entries();
      var ok, id, key := runq.Pop();
      assert Entry(id, key) in entries && forall x :: x in entries ==> x in before;
      LeastIsPick(entries, State(), Entry(id, key));
      KeyedPop(entries, multiset(runq.Entries()), procs[..], runnable, Entry(id, key));
      WeightAtLeast(jobs, runnable, id, |jobs|);
      i := id;
      var w := jobs[i].weight;
      slice := SliceOf(period, w, if sumWeights > 0 then sumWeights else w);
      SliceIsShare(period, w, sumWeights);
    }

    method RunProc(i: int, start: int, run: int)
      requires 0 <= i < |jobs| == procs.Length && jobs[i].weight >= 1
      modifies procs
      ensures procs[..] == old(procs[..])[i := RanProc(old(procs[i]), Charge(run, jobs[i].weight), start, run)]
    {
      var p := procs[i];
      if p.startTime == -1 {
        p := p.(startTime := start);
      }
      if p.lastEnq != -1 {
        p := p.(waiting := p.waiting + (start - p.lastEnq));
      }
      p := p.(remaining := p.remaining - run);
      p := p.(vruntime := p.vruntime + Charge(run, jobs[i].weight));
      if p.remaining <= 0 {
        p := p.(completion := start + run);
      } else {
        p := p.(lastEnq := start + run);
      }
      procs[i] := p;
    }

    /** The picked process runs during `[start, start + run)`. */
    method RunDuring(i: int, start: int, run: int)
      requires 0 <= i < |jobs| == procs.Length && jobs[i].weight >= 1
      modifies this`gantt, this`owners, this`busy, this`now, procs
      ensures State() == Ran(jobs, old(State()), i, start, run, Charge(run, jobs[i].weight)).(runnable := runnable)
    {
      RunProc(i, start, run);
      if start + run > start {
        gantt := gantt + [Slice(start, start + run, jobs[i].pid)];
      }
      owners := OwnersPushed(owners, start, start + run, i);
      busy := busy + run;
      now := start + run;
    }

    /** A finished process gives up its weight; any other goes back into the heap. */
    method Settle(i: int)
      requires i in runnable && 0 <= i < |jobs| && HeapHolds(runnable - {i}) && sumWeights == Weights(jobs, runnable)
      requires BooksOk(jobs, State().(runnable := if procs[i].remaining <= 0 then runnable - {i} else runnable))
      modifies this`sumWeights, this`runnable, runq, runq.idx, runq.key
      ensures State() == old(State()).(runnable := if procs[i].remaining <= 0 then old(runnable) - {i}
              else old(runnable))
      ensures HeapHolds(runnable) && sumWeights == Weights(jobs, runnable)
    {
      if procs[i].remaining <= 0 {
        WeightsJoin(jobs, runnable - {i}, i, |jobs|);
        assert runnable - {i} + {i} == runnable;
        sumWeights := sumWeights - jobs[i].weight;
        runnable := runnable - {i};
      } else {
        Push(i);
      }
    }

    /** The picked process runs during `[start, start + run)` and is put back or finished. */
    method Execute(i: int, start: int, run: int, ghost s': Cfs)
      requires BooksOk(jobs, State()) && i in runnable && HeapHolds(runnable - {i})
      requires sumWeights == Weights(jobs, runnable)
      requires BooksOk(jobs, s') && s' == Ran(jobs, State(), i, start, run, Charge(run, jobs[i].weight))
      modifies this, runq, runq.idx, runq.key, procs
      ensures Consistent() && State() == s' && states == old(states) && events == old(events)
    {
      KeyedElsewhere(multiset(runq.Entries()), procs[..], s'.procs, runnable - {i});
      RunDuring(i, start, run);
      Settle(i);
    }

    /** Runs the picked process for its slice or to its end. */
    method RunPicked(i: int, slice: int)
      requires BooksOk(jobs, State()) && i in runnable && HeapHolds(runnable - {i})
      requires sumWeights == Weights(jobs, runnable)
      requires forall j :: j in runnable ==> procs[..][i].vruntime <= procs[..][j].vruntime
      requires sumWeights >= 1 && slice == SliceOf(period, jobs[i].weight, sumWeights)
      requires Recorded() && NobodyOverdue(jobs, admitted, now)
      modifies this, runq, runq.idx, runq.key, procs
      ensures Valid() && RunsRight(jobs, csCost, period, old(State()), State(), i)
      ensures admitted == old(admitted) && first == old(first)
    {
      ghost var s := State();
      var start := if csCost > 0 then now + csCost else now;
      var run := if procs[i].remaining < slice then procs[i].remaining else slice;
      ghost var s' := Ran(jobs, s, i, start, run, Charge(run, jobs[i].weight));
      RunIsRight(jobs, csCost, period, s, i, start, slice, run);
      Execute(i, start, run, s');
      Record(s, Runs(i));
    }

    /** Picks a process and runs it. */
    method DispatchOne() returns (ghost i: int)
      requires Valid() && runq.n > 0
      requires NobodyOverdue(jobs, admitted, now)
      modifies this, runq, runq.idx, runq.key, procs
      ensures Valid() && Dispatches(jobs, period, View(old(State())), View(State()), i)
      ensures HasRun(jobs, csCost, period, old(State()), State(), i)
      ensures admitted == old(admitted) && first == old(first)
      ensures (runnable == old(runnable) && busy > old(busy)) || (runnable < old(runnable) && busy >= old(busy))
    {
      var id, slice := Pick();
      RunPicked(id, slice);
      i := id;
    }

    /** Enqueues every process that has arrived by now. */
    method AdmitArrived(arrivals: seq<Arrival>, ai: nat) returns (next: nat)
      requires Valid() && Lists(arrivals, Times(jobs)) && Admitted(jobs, arrivals, ai, first, admitted)
      modifies this, runq, runq.idx, runq.key, procs
      ensures Valid() && ai <= next <= |arrivals| && Admitted(jobs, arrivals, next, first, admitted)
      ensures Admits(View(old(State())), View(State())) && now == old(now) && busy == old(busy)
      ensures next == ai ==> runnable == old(runnable)
      ensures next == |arrivals| || arrivals[next].t > now
    {
      next := ai;
      ghost var s0 := State();
      while next < |arrivals| && arrivals[next].t <= now
        invariant Valid() && ai <= next <= |arrivals| && Admitted(jobs, arrivals, next, first, admitted)
        invariant Admits(View(s0), View(State())) && now == s0.now && busy == s0.busy
        invariant next == ai ==> runnable == s0.runnable
      {
        next := AdmitNext(arrivals, next, s0);
      }
    }

    method AdmitNext(arrivals: seq<Arrival>, ai: nat, ghost s0: Cfs) returns (next: nat)
      requires Valid() && Lists(arrivals, Times(jobs)) && Admitted(jobs, arrivals, ai, first, admitted)
      requires ai < |arrivals| && arrivals[ai].t <= now && Admits(View(s0), View(State()))
      modifies this, runq, runq.idx, runq.key, procs
      ensures Valid() && next == ai + 1 && Admitted(jobs, arrivals, next, first, admitted)
      ensures Admits(View(s0), View(State())) && now == old(now) && busy == old(busy)
    {
      ghost var s := State();
      NextIsNew(jobs, arrivals, ai, first, admitted, now);
      Enqueue(arrivals[ai].idx);
      AdmitsTwice(View(s0), View(s), View(State()));
      next := ai + 1;
    }

    /** Nobody is runnable: the clock goes to the next arrival. */
    method SkipTo(t: int)
      requires Valid() && t >= now && runnable == {} && NextComes(jobs, admitted, t)
      modifies this`now, this`states, this`events
      ensures Valid() && State() == old(State()).(now := t) && View(State()) == View(old(State()))
    {
      ghost var s := State();
      LaterIsFine(jobs, s, t);
      now := t;
      Record(s, Skips);
    }

    /** The whole simulation. `run` and `picks` record the state before each dispatch, and whom it picks. */
    method Simulate() returns (ghost run: seq<Fair>, ghost picks: seq<int>)
      requires Valid() && admitted == {} && busy == 0
      modifies this, runq, runq.idx, runq.key, procs
      ensures Valid() && IsRun(jobs, period, run, picks) && NothingOwed(run[0])
      ensures Admits(View(old(State())), run[0]) && run[|run| - 1] == View(State())
      ensures Recorded() && AllPrompt(jobs, states, events, |events|)
      ensures runnable == {} && forall i :: 0 <= i < |jobs| ==> CompletedAt(jobs, State(), i)
      ensures forall i :: 0 <= i < |jobs| ==> PaidFor(procs[..][i], jobs[i])
      ensures Labelled(gantt, owners, Pids(jobs)) && busy == Sum(Bursts(jobs))
      ensures Distinct(Pids(jobs)) ==> forall i :: 0 <= i < |jobs| ==> TimeUnder(gantt, jobs[i].pid) == jobs[i].burst
    {
      var list := MakeArrivals(Times(jobs), Pids(jobs));
      RunningStarts(jobs, period, list[..], State());
      run, picks := RunAll(list[..], View(State()));
      NobodyRunnable(multiset(runq.Entries()), State());
      AllCompleted(jobs, list[..], State());
      AdmittedPromptly(jobs, csCost, period, states, events, |events|);
    }

    /** The loop: until every process has been admitted and nobody is runnable. */
    method RunAll(arrivals: seq<Arrival>, ghost start: Fair) returns (ghost run: seq<Fair>, ghost picks: seq<int>)
      requires Valid() && Lists(arrivals, Times(jobs))
      requires Running(jobs, period, arrivals, 0, start, State(), [start], [])
      modifies this, runq, runq.idx, runq.key, procs
      ensures Valid() && Running(jobs, period, arrivals, |arrivals|, start, State(), run, picks) && runq.n == 0
    {
      var ai: nat := 0;
      run, picks := [start], [];
      while true
        invariant Valid() && Running(jobs, period, arrivals, ai, start, State(), run, picks)
        decreases |arrivals| - ai, Sum(Bursts(jobs)) - busy + |runnable|, ai < |arrivals| && arrivals[ai].t > now
      {
        ai, run := AdmitNow(arrivals, ai, start, run, picks);
        NextArrival(jobs, arrivals, ai, first, admitted, now);
        if runq.n == 0 {
          if ai == |arrivals| {
            break;
          }
          NobodyRunnable(multiset(runq.Entries()), State());
          SkipTo(arrivals[ai].t);
        } else {
          run, picks := DispatchNext(arrivals, ai, start, run, picks);
        }
      }
    }

    /** The arrivals now due, added to the run so far. */
    method AdmitNow(arrivals: seq<Arrival>, ai: nat, ghost start: Fair, ghost run: seq<Fair>, ghost picks: seq<int>)
      returns (next: nat, ghost run': seq<Fair>)
      requires Valid() && Lists(arrivals, Times(jobs))
      requires Running(jobs, period, arrivals, ai, start, State(), run, picks)
      modifies this, runq, runq.idx, runq.key, procs
      ensures Valid() && Running(jobs, period, arrivals, next, start, State(), run', picks)
      ensures ai <= next <= |arrivals| && now == old(now) && busy == old(busy) <= Sum(Bursts(jobs))
      ensures next == ai ==> runnable == old(runnable)
      ensures next == |arrivals| || arrivals[next].t > now
    {
      ghost var s := State();
      WorkIsBounded(jobs, s);
      next := AdmitArrived(arrivals, ai);
      RunningAdmits(jobs, period, arrivals, ai, start, s, run, picks, next, State());
      run' := run[|run| - 1 := View(State())];
    }

    /** One dispatch, added to the run so far. */
    method DispatchNext(arrivals: seq<Arrival>, ghost ai: nat, ghost start: Fair, ghost run: seq<Fair>,
                        ghost picks: seq<int>)
      returns (ghost run': seq<Fair>, ghost picks': seq<int>)
      requires Valid() && runq.n > 0 && Running(jobs, period, arrivals, ai, start, State(), run, picks)
      requires NobodyOverdue(jobs, admitted, now)
      modifies this, runq, runq.idx, runq.key, procs
      ensures Valid() && Running(jobs, period, arrivals, ai, start, State(), run', picks')
      ensures 0 <= Sum(Bursts(jobs)) - busy
      ensures Sum(Bursts(jobs)) - busy + |runnable| < Sum(Bursts(jobs)) - old(busy) + |old(runnable)|
    {
      ghost var a := State();
      ghost var i := DispatchOne();
      RunningDispatches(jobs, period, arrivals, ai, start, a, run, picks, i, State());
      run', picks' := run + [View(State())], picks + [i];
      WorkIsBounded(jobs, State());
      SubsetSize(runnable, a.runnable);
    }
  }
}
