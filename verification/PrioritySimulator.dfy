/** The Windows-like scheduler: sixteen queues, a quantum for each, aging, and one event loop. */
module PrioritySimulator {
  import opened ArrivalOrder
  import opened Arithmetic
  import opened Distinctness
  import opened Timeline
  import opened PriorityBooks
  import opened PriorityHistory

  class WinSim {
    const jobs: seq<Job>
    const csCost: int
    const procs: array<Proc>
    const queues: array<seq<int>>
    var readyCount: int
    var running: int
    var sliceStart: int
    var sliceEnd: int
    var now: int
    var gantt: seq<Slice>
    var busy: int
    ghost var admitted: set<int>
    ghost var ready: set<int>
    ghost var owners: seq<int>

    /** Every state since the start, and what led from each to the next. */
    ghost var states: seq<Win>
    ghost var events: seq<Event>

    ghost function State(): Win
      reads this, procs, queues
    {
      Win(procs[..], queues[..], running, sliceStart, sliceEnd, admitted, ready, gantt, owners, now, busy)
    }

    ghost predicate Valid()
      reads this, procs, queues
    {
      var books := BooksOk(jobs, State());
      var recorded := Recorded();
      books && recorded && readyCount == |ready|
    }

    ghost predicate Recorded()
      reads this, procs, queues
    {
      IsRun(jobs, csCost, states, events) && states[|events|] == State()
    }

    constructor (jobs: seq<Job>, csCost: int)
      requires JobsOk(jobs)
      ensures Valid() && fresh(procs) && fresh(queues) && this.jobs == jobs && this.csCost == csCost
      ensures admitted == ready == {} && running == -1 && now == busy == 0
    {
      this.jobs, this.csCost := jobs, csCost;
      procs := new Proc[|jobs|](i requires 0 <= i < |jobs| =>
        Proc(jobs[i].burst, -1, -1, 0, -1, Clamp(jobs[i].priority), 0.0));
      queues := new seq<int>[LEVELS](i => []);
      readyCount, running, sliceStart, sliceEnd, now, busy := 0, -1, -1, -1, 0, 0;
      admitted, ready, gantt, owners := {}, {}, [], [];
      events := [];
      new;
      states := [State()];
      FreshStarts(jobs, csCost, State());
    }

    ghost method Record(s: Win, e: Event)
      requires IsRun(jobs, csCost, states, events) && states[|events|] == s && BooksOk(jobs, s)
      requires BooksOk(jobs, State()) && Happens(jobs, csCost, s, State(), e)
      modifies this`states, this`events
      ensures Recorded() && State() == old(State())
    {
      RunGoesOn(jobs, csCost, states, events, State(), e);
      states, events := states + [State()], events + [e];
    }

    method Enqueue(i: int)
      requires 0 <= i < procs.Length && queues.Length == LEVELS && i !in ready && readyCount == |ready|
      modifies this`readyCount, this`ready, procs, queues
      ensures State() == Enqueued(old(State()), i) && readyCount == |ready|
    {
      var level := Clamp(procs[i].dynPrio);
      procs[i] := procs[i].(lastEnq := now);
      queues[level] := queues[level] + [i];
      readyCount := readyCount + 1;
      ready := ready + {i};
    }

    method AdmitNext(arrivals: seq<Arrival>, ai: nat)
      requires Valid() && Lists(arrivals, Times(jobs)) && OnTime(arrivals, ai, admitted, now)
      requires ai < |arrivals| && arrivals[ai].t <= now
      modifies this`readyCount, this`ready, this`admitted, this`states, this`events, procs, queues
      ensures Valid() && OnTime(arrivals, ai + 1, admitted, now)
    {
      ghost var s := State();
      NextOnTime(jobs, arrivals, ai, admitted, now);
      AdmitKeeps(jobs, s, arrivals[ai].idx);
      Enqueue(arrivals[ai].idx);
      admitted := admitted + {arrivals[ai].idx};
      assert State() == AdmittedOne(s, arrivals[ai].idx);
      Record(s, Admits(arrivals[ai].idx));
    }

    method AdmitArrived(arrivals: seq<Arrival>, ai: nat) returns (next: nat)
      requires Valid() && Lists(arrivals, Times(jobs)) && OnTime(arrivals, ai, admitted, now)
      modifies this`readyCount, this`ready, this`admitted, this`states, this`events, procs, queues
      ensures Valid() && ai <= next <= |arrivals| && OnTime(arrivals, next, admitted, now)
      ensures next == |arrivals| || arrivals[next].t > now
      ensures next == ai ==> State() == old(State())
    {
      next := ai;
      ghost var s0 := State();
      while next < |arrivals| && arrivals[next].t <= now
        invariant Valid() && ai <= next <= |arrivals| && OnTime(arrivals, next, admitted, now)
        invariant next == ai ==> State() == s0
      {
        AdmitNext(arrivals, next);
        next := next + 1;
      }
    }

    method ChargeSlice()
      requires 0 <= running < procs.Length
      modifies this`running, this`busy, procs
      ensures State() == Charged(old(State()))
    {
      var i, ran := running, sliceEnd - sliceStart;
      if ran > 0 {
        procs[i] := procs[i].(remaining := procs[i].remaining - ran);
        busy := busy + ran;
      }
      running := -1;
      assert procs[..] == old(procs[..])[i := procs[i]];
    }

    method Release(i: int)
      requires 0 <= i < procs.Length && queues.Length == LEVELS && i !in ready && readyCount == |ready|
      modifies this`readyCount, this`ready, procs, queues
      ensures State() == Released(old(State()), i) && readyCount == |ready|
    {
      if procs[i].remaining <= 0 {
        procs[i] := procs[i].(completion := sliceEnd);
      } else {
        procs[i] := procs[i].(dynPrio := Clamp(procs[i].dynPrio - 1));
        Enqueue(i);
      }
    }

    /** The running process's slice is over. */
    method EndSlice()
      requires Valid() && running != -1 && now == sliceEnd
      modifies this`readyCount, this`ready, this`running, this`busy, this`states, this`events, procs, queues
      ensures Valid() && State() == SliceEnded(old(State())) && ToDo(jobs, State()) < ToDo(jobs, old(State()))
      ensures DropsLevel(old(State()), State(), old(running))
    {
      ghost var s := State();
      SliceEndFacts(jobs, csCost, states, events, s);
      var i := running;
      ChargeSlice();
      Release(i);
      Record(s, Ends);
    }

    /** The highest level with somebody in its queue; -1 when all are empty. */
    method HighestLevel() returns (level: int)
      requires queues.Length == LEVELS
      ensures -1 <= level < LEVELS && (level >= 0 ==> queues[level] != [])
      ensures forall l :: level < l < LEVELS ==> queues[l] == []
    {
      level := LEVELS - 1;
      while level >= 0 && queues[level] == []
        invariant -1 <= level < LEVELS && forall l :: level < l < LEVELS ==> queues[l] == []
      {
        level := level - 1;
      }
    }

    method TakeHead(level: nat) returns (i: int)
      requires queues.Length == LEVELS && level < LEVELS && readyCount == |ready|
      requires queues[level] != [] && queues[level][0] in ready
      modifies this`readyCount, this`ready, queues
      ensures State() == Taken(old(State()), level) && readyCount == |ready| && i == old(queues[level])[0]
    {
      i := queues[level][0];
      queues[level] := queues[level][1..];
      readyCount := readyCount - 1;
      ready := ready - {i};
    }

    method StartProc(i: int, start: int)
      requires 0 <= i < procs.Length
      modifies procs
      ensures procs[..] == old(procs[..])[i := StartedProc(old(procs[i]), now, start)]
    {
      var p := procs[i];
      if p.lastEnq != -1 {
        var waited := now - p.lastEnq;
        if waited > 10 {
          p := p.(dynPrio := Clamp(p.dynPrio + 1));
        }
      }
      if p.startTime == -1 {
        p := p.(startTime := start);
      }
      if p.lastEnq != -1 {
        p := p.(waiting := p.waiting + (start - p.lastEnq));
      }
      procs[i] := p;
    }

    method Start(i: int, level: nat)
      requires 0 <= i < procs.Length == |jobs|
      modifies this`running, this`sliceStart, this`sliceEnd, this`gantt, this`owners, this`now, procs
      ensures State() == Started(jobs, old(State()), i, level, csCost)
    {
      var start := if csCost > 0 then now + csCost else now;
      StartProc(i, start);
      now := start;
      var runLen := if procs[i].remaining < Quantum(level) then procs[i].remaining else Quantum(level);
      sliceStart, sliceEnd := now, now + runLen;
      if sliceEnd > sliceStart {
        gantt := gantt + [Slice(sliceStart, sliceEnd, jobs[i].pid)];
      }
      owners := OwnersPushed(owners, sliceStart, sliceEnd, i);
      running := i;
    }

    /** Starts the head of the highest non-empty level; false when nobody is ready. */
    method Pick() returns (picked: bool, ghost level: int)
      requires Valid() && running == -1
      modifies this`readyCount, this`ready, this`running, this`sliceStart, this`sliceEnd, this`gantt, this`owners
      modifies this`now, this`states, this`events
      modifies procs, queues
      ensures Valid()
      ensures !picked ==> State() == old(State()) && ready == {}
      ensures picked ==> 0 <= level < LEVELS && old(queues[level]) != [] && 0 <= old(queues[level])[0] < procs.Length
      ensures picked ==> forall l :: level < l < LEVELS ==> old(queues[l]) == []
      ensures picked ==>
        State() == Picked(jobs, old(State()), level, csCost) && ToDo(jobs, State()) == ToDo(jobs, old(State()))
      ensures picked ==> StartsHead(jobs, csCost, old(State()), State(), level)
    {
      var lvl := HighestLevel();
      level := lvl;
      picked := lvl >= 0;
      if picked {
        ghost var s := State();
        PickFacts(jobs, csCost, states, events, s, lvl);
        var i := TakeHead(lvl);
        Start(i, lvl);
        Record(s, Picks(lvl));
      } else {
        NobodyReady(queues[..], ready);
      }
    }

    method SetClock(t: int)
      requires Valid() && t >= 0 && (running == -1 ==> t >= now) && NextEvent(jobs, State(), t)
      modifies this`now, this`states, this`events
      ensures Valid() && State() == old(State()).(now := t)
    {
      ghost var s := State();
      ClockKeeps(jobs, s, t);
      now := t;
      Record(s, Clock);
    }

    /** The clock goes to the end of the slice, or to an arrival before it, which may lie before the slice starts. */
    method Advance(arrivals: seq<Arrival>, ai: nat)
      requires Valid() && running != -1 && Lists(arrivals, Times(jobs))
      requires ai <= |arrivals| && Coming(arrivals, ai, admitted)
      modifies this`now, this`states, this`events
      ensures Valid() && OnTime(arrivals, ai, admitted, now) && Due(State(), arrivals, ai)
      ensures State() == old(State()).(now := now)
    {
      NextArrival(jobs, arrivals, ai, admitted);
      if ai < |arrivals| && arrivals[ai].t < sliceEnd {
        SetClock(arrivals[ai].t);
      } else {
        SetClock(sliceEnd);
      }
    }

    /** With no process running: the clock goes to the next arrival if nobody is ready, else somebody starts;
        false when neither is possible. */
    method PickOrSkip(arrivals: seq<Arrival>, ai: nat) returns (more: bool)
      requires Valid() && running == -1 && Lists(arrivals, Times(jobs)) && OnTime(arrivals, ai, admitted, now)
      modifies this`readyCount, this`ready, this`running, this`sliceStart, this`sliceEnd, this`gantt, this`owners
      modifies this`now, this`states, this`events
      modifies procs, queues
      ensures Valid() && ToDo(jobs, State()) == ToDo(jobs, old(State()))
      ensures !more ==> running == -1 && ready == {} && ai == |arrivals| && now == old(now)
      ensures more && running == -1 ==> ai < |arrivals| && now == arrivals[ai].t
    {
      NextArrival(jobs, arrivals, ai, admitted);
      if readyCount == 0 && ai < |arrivals| {
        SetClock(arrivals[ai].t);
        return true;
      }
      ghost var level;
      more, level := Pick();
    }

    /** The whole simulation. */
    method Simulate()
      requires Valid() && admitted == ready == {} && running == -1 && now == busy == 0
      modifies this, procs, queues
      ensures Valid() && running == -1 && ready == {}
      ensures IsRun(jobs, csCost, states, events) && states[|events|] == State()
      ensures forall i :: 0 <= i < |jobs| ==>
        StartTells(gantt, owners, i, procs[..][i].startTime, procs[..][i].completion)
      ensures forall i :: 0 <= i < |jobs| ==>
        Finished(procs[..][i], jobs[i].burst, jobs[i].arrival, TimeOf(gantt, owners, i))
      ensures InOrder(gantt, now) && Labelled(gantt, owners, Pids(jobs)) && busy == Sum(Bursts(jobs))
      ensures Distinct(Pids(jobs)) ==> forall i :: 0 <= i < |jobs| ==> TimeUnder(gantt, jobs[i].pid) == jobs[i].burst
    {
      var list := MakeArrivals(Times(jobs), Pids(jobs));
      var arrivals := list[..];
      var ai: nat := 0;
      var more := true;
      while more
        invariant Valid() && Lists(arrivals, Times(jobs))
        invariant OnTime(arrivals, ai, admitted, now) && Due(State(), arrivals, ai)
        invariant !more ==> running == -1 && ready == {} && ai == |arrivals|
        decreases more, |arrivals| - ai, ToDo(jobs, State()), Rank(State(), arrivals, ai)
      {
        ToDoIsNatural(jobs, State());
        ai, more := Turn(arrivals, ai);
      }
      AllCompleted(jobs, arrivals, State());
    }

    /** One turn of the event loop. */
    method Turn(arrivals: seq<Arrival>, ai: nat) returns (next: nat, more: bool)
      requires Valid() && Lists(arrivals, Times(jobs)) && OnTime(arrivals, ai, admitted, now)
      requires Due(State(), arrivals, ai)
      modifies this, procs, queues
      ensures Valid() && OnTime(arrivals, next, admitted, now) && Due(State(), arrivals, next)
      ensures ai <= next <= |arrivals|
      ensures !more ==> running == -1 && ready == {} && next == |arrivals|
      ensures more && next == ai ==>
        ToDo(jobs, State()) < ToDo(jobs, old(State()))
        || (ToDo(jobs, State()) == ToDo(jobs, old(State()))
            && Rank(State(), arrivals, ai) < Rank(old(State()), arrivals, ai))
    {
      next := AdmitArrived(arrivals, ai);
      more := Round(arrivals, next);
    }

    method EndIfDue()
      requires Valid()
      modifies this`readyCount, this`ready, this`running, this`busy, this`states, this`events, procs, queues
      ensures Valid() && admitted == old(admitted) && now == old(now)
      ensures if old(running != -1 && now >= sliceEnd)
              then running == -1 && ToDo(jobs, State()) < ToDo(jobs, old(State()))
              else State() == old(State())
    {
      if running != -1 && now >= sliceEnd {
        EndSlice();
      }
    }

    /** The rest of one round of the event loop, after the arrivals; false when everything is done. */
    method Round(arrivals: seq<Arrival>, ai: nat) returns (more: bool)
      requires Valid() && Lists(arrivals, Times(jobs)) && OnTime(arrivals, ai, admitted, now)
      requires ai == |arrivals| || arrivals[ai].t > now
      modifies this, procs, queues
      ensures Valid() && admitted == old(admitted) && OnTime(arrivals, ai, admitted, now) && Due(State(), arrivals, ai)
      ensures !more ==> running == -1 && ready == {} && ai == |arrivals|
      ensures more && Due(old(State()), arrivals, ai) ==>
        ToDo(jobs, State()) < ToDo(jobs, old(State()))
        || (ToDo(jobs, State()) == ToDo(jobs, old(State()))
            && Rank(State(), arrivals, ai) < Rank(old(State()), arrivals, ai))
    {
      EndIfDue();
      more := Proceed(arrivals, ai);
    }

    /** Somebody starts or the clock moves to the next arrival, and while somebody runs to whatever comes next. */
    method Proceed(arrivals: seq<Arrival>, ai: nat) returns (more: bool)
      requires Valid() && Lists(arrivals, Times(jobs)) && OnTime(arrivals, ai, admitted, now)
      modifies this, procs, queues
      ensures Valid() && admitted == old(admitted) && OnTime(arrivals, ai, admitted, now) && Due(State(), arrivals, ai)
      ensures ToDo(jobs, State()) == ToDo(jobs, old(State()))
      ensures !more ==> running == -1 && ready == {} && ai == |arrivals|
      ensures more && running == -1 ==> ai < |arrivals| && now == arrivals[ai].t
    {
      more := true;
      if running == -1 {
        more := PickOrSkip(arrivals, ai);
      }
      if running != -1 {
        Advance(arrivals, ai);
      }
    }
  }
}
