/** Runs of the completely fair scheduler, stage by stage: when processes are
    admitted, what each dispatch does, and when the clock moves. */
module FairHistory {
  import opened Timeline
  import opened ArrivalOrder
  import opened FairShare
  import opened FairBooks

  datatype Event = Joins(i: int) | Runs(i: int) | Skips

  /** What the stages of the loop do to the state: a process is admitted no earlier than it arrives; nobody is
      dispatched before everybody who has arrived has been admitted; the clock skips to the next arrival only while
      nobody is runnable. */
  ghost predicate Happens(jobs: seq<Job>, csCost: int, period: int, s: Cfs, s': Cfs, e: Event)
  {
    && |s.procs| == |s.first| == |jobs|
    && match e
       case Joins(i) => 0 <= i < |jobs| && i !in s.admitted && jobs[i].arrival <= s.now && s' == Enqueued(s, i)
       case Runs(i) =>
         && NobodyOverdue(jobs, s.admitted, s.now)
         && HasRun(jobs, csCost, period, s, s', i) && s'.admitted == s.admitted && s'.first == s.first
         && s'.runnable == if s'.procs[i].remaining <= 0 then s.runnable - {i} else s.runnable
       case Skips =>
         && s.runnable == {} && s'.now >= s.now && s' == s.(now := s'.now)
         && NextComes(jobs, s.admitted, s'.now)
  }

  /** Everybody who has arrived by now has been admitted. */
  ghost predicate NobodyOverdue(jobs: seq<Job>, admitted: set<int>, now: int)
  {
    forall i :: 0 <= i < |jobs| && i !in admitted ==> jobs[i].arrival > now
  }

  /** The first arrival among those still to come is at `t`. */
  ghost predicate NextComes(jobs: seq<Job>, admitted: set<int>, t: int)
  {
    && (exists i :: 0 <= i < |jobs| && i !in admitted && jobs[i].arrival == t)
    && forall i :: 0 <= i < |jobs| && i !in admitted ==> jobs[i].arrival >= t
  }

  lemma NextArrival(jobs: seq<Job>, arrivals: seq<Arrival>, ai: nat, first: seq<int>, admitted: set<int>, now: int)
    requires Lists(arrivals, Times(jobs)) && Admitted(jobs, arrivals, ai, first, admitted)
    requires ai == |arrivals| || arrivals[ai].t > now
    ensures ai < |arrivals| ==> NextComes(jobs, admitted, arrivals[ai].t)
    ensures NobodyOverdue(jobs, admitted, now)
  {
    if ai < |arrivals| {
      assert arrivals[ai].idx !in admitted && jobs[arrivals[ai].idx].arrival == arrivals[ai].t;
    }
    forall i | 0 <= i < |jobs| && i !in admitted
      ensures ai < |arrivals| && arrivals[ai].t <= jobs[i].arrival
    {
      assert Arrival(Times(jobs)[i], i) in arrivals;
      var k :| 0 <= k < |arrivals| && arrivals[k] == Arrival(Times(jobs)[i], i);
      assert k >= ai;
    }
  }

  /** What running the picked process means for the books, for Fairness and for the history. */
  ghost predicate RunsRight(jobs: seq<Job>, csCost: int, period: int, s: Cfs, s': Cfs, i: int)
  {
    var books := BooksOk(jobs, s');
    var dispatched := Dispatches(jobs, period, View(s), View(s'), i);
    var happens := Happens(jobs, csCost, period, s, s', Runs(i));
    var progress := (s'.runnable == s.runnable && s'.busy > s.busy) || (s'.runnable < s.runnable && s'.busy >= s.busy);
    books && dispatched && happens && progress
  }

  lemma RunIsRight(jobs: seq<Job>, csCost: int, period: int, s: Cfs, i: int, start: int, slice: int, run: int)
    requires BooksOk(jobs, s) && i in s.runnable && Weights(jobs, s.runnable) >= 1
    requires forall j :: j in s.runnable ==> s.procs[i].vruntime <= s.procs[j].vruntime
    requires start == (if csCost > 0 then s.now + csCost else s.now)
    requires slice == SliceOf(period, jobs[i].weight, Weights(jobs, s.runnable))
    requires run == if s.procs[i].remaining < slice then s.procs[i].remaining else slice
    requires NobodyOverdue(jobs, s.admitted, s.now)
    ensures RunsRight(jobs, csCost, period, s, Ran(jobs, s, i, start, run, Charge(run, jobs[i].weight)), i)
  {
    RunKeeps(jobs, period, s, i, start, slice);
    RunHasRun(jobs, csCost, period, s, i, start, slice, run);
  }

  // ----- Runs

  ghost predicate HappensAt(jobs: seq<Job>, csCost: int, period: int, states: seq<Cfs>, events: seq<Event>, t: nat)
    requires t < |events| == |states| - 1
  {
    && BooksOk(jobs, states[t]) && BooksOk(jobs, states[t + 1])
    && Happens(jobs, csCost, period, states[t], states[t + 1], events[t])
  }

  ghost predicate IsHistory(jobs: seq<Job>, csCost: int, period: int, states: seq<Cfs>, events: seq<Event>)
  {
    && |states| == |events| + 1 && states[0].admitted == {} && states[0].now == 0
    && forall t :: 0 <= t < |events| ==> HappensAt(jobs, csCost, period, states, events, t)
  }

  lemma HistoryGoesOn(jobs: seq<Job>, csCost: int, period: int, states: seq<Cfs>, events: seq<Event>, s': Cfs, e: Event)
    requires IsHistory(jobs, csCost, period, states, events) && BooksOk(jobs, states[|events|]) && BooksOk(jobs, s')
    requires Happens(jobs, csCost, period, states[|events|], s', e)
    ensures IsHistory(jobs, csCost, period, states + [s'], events + [e])
  {
    forall t | 0 <= t < |events| + 1
      ensures HappensAt(jobs, csCost, period, states + [s'], events + [e], t)
    {
      assert t < |events| ==> HappensAt(jobs, csCost, period, states, events, t);
    }
  }

  /** In every run the CPU is idle only while everybody admitted has finished. */
  lemma IdleMeansFinished(jobs: seq<Job>, csCost: int, period: int, states: seq<Cfs>, events: seq<Event>, t: nat,
                          i: int)
    requires IsHistory(jobs, csCost, period, states, events) && t < |events| && events[t] == Skips
    requires i in states[t].admitted
    ensures 0 <= i < |states[t].procs| && states[t].procs[i].remaining == 0
  {
    assert HappensAt(jobs, csCost, period, states, events, t);
    assert BookAt(jobs, states[t], i);
  }

  // ----- Nobody waits to be admitted

  /** The process was admitted on arrival, at the start of the simulation if it was there before, or at the end of the
      dispatch during which it arrived. */
  ghost predicate Prompt(jobs: seq<Job>, states: seq<Cfs>, events: seq<Event>, t: nat, i: int)
    requires t < |states| && |states| == |events| + 1
  {
    && 0 <= i < |jobs| && i < |states[t].first|
    && var first := states[t].first[i];
       || first == jobs[i].arrival
       || (first == 0 && jobs[i].arrival <= 0)
       || exists u: nat :: u < t && ArrivedDuring(jobs, states, events, u, i, first)
  }

  ghost predicate ArrivedDuring(jobs: seq<Job>, states: seq<Cfs>, events: seq<Event>, u: nat, i: int, first: int)
  {
    u < |events| && u + 1 < |states| && 0 <= i < |jobs| && events[u].Runs?
    && states[u].now < jobs[i].arrival <= states[u + 1].now == first
  }

  /** Who is still to come: has not arrived before the last dispatch began. */
  ghost predicate Expected(jobs: seq<Job>, states: seq<Cfs>, events: seq<Event>, t: nat, i: int)
    requires t < |states| && |states| == |events| + 1 && 0 <= i < |jobs|
  {
    var now := states[t].now;
    || jobs[i].arrival >= now || now == 0
    || exists u: nat :: u < t && ArrivedDuring(jobs, states, events, u, i, now)
  }

  ghost predicate AllPrompt(jobs: seq<Job>, states: seq<Cfs>, events: seq<Event>, t: nat)
    requires t < |states| && |states| == |events| + 1
  {
    forall i :: 0 <= i < |jobs| ==>
      if i in states[t].admitted then Prompt(jobs, states, events, t, i) else Expected(jobs, states, events, t, i)
  }

  lemma PromptStep(jobs: seq<Job>, csCost: int, period: int, states: seq<Cfs>, events: seq<Event>, t: nat, i: int)
    requires IsHistory(jobs, csCost, period, states, events) && t < |events| && 0 <= i < |jobs|
    requires if i in states[t].admitted then Prompt(jobs, states, events, t, i)
             else Expected(jobs, states, events, t, i)
    ensures if i in states[t + 1].admitted then Prompt(jobs, states, events, t + 1, i)
            else Expected(jobs, states, events, t + 1, i)
  {
    assert HappensAt(jobs, csCost, period, states, events, t);
    var s, s' := states[t], states[t + 1];
    match events[t]
    case Joins(j) =>
    case Runs(j) =>
      if i !in s.admitted && jobs[i].arrival < s'.now {
        assert ArrivedDuring(jobs, states, events, t, i, s'.now);
      }
    case Skips =>
  }

  /** In every run nobody is admitted later than it has to be. */
  lemma {:induction false} AdmittedPromptly(jobs: seq<Job>, csCost: int, period: int, states: seq<Cfs>,
                                            events: seq<Event>, t: nat)
    requires IsHistory(jobs, csCost, period, states, events) && t < |states|
    ensures AllPrompt(jobs, states, events, t)
  {
    if t > 0 {
      AdmittedPromptly(jobs, csCost, period, states, events, t - 1);
      forall i | 0 <= i < |jobs|
        ensures if i in states[t].admitted then Prompt(jobs, states, events, t, i)
                else Expected(jobs, states, events, t, i)
      {
        PromptStep(jobs, csCost, period, states, events, t - 1, i);
      }
    }
  }
}
