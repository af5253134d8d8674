/** A run of the completely fair scheduler, step by step: the heap's contents,
    everybody's books, and the trace that Fairness speaks about. */
module FairBooks {
  import opened FairShare
  import opened MinHeap
  import opened Arithmetic
  import opened Distinctness
  import opened Timeline
  import opened ArrivalOrder

  datatype Cfs = Cfs(procs: seq<Proc>, admitted: set<int>, runnable: set<int>, first: seq<int>,
                     gantt: seq<Slice>, owners: seq<int>, now: int, busy: int)

  ghost function View(s: Cfs): (f: Fair)
    ensures |f.v| == |f.left| == |s.procs| && f.runnable == s.runnable
    ensures forall i :: 0 <= i < |s.procs| ==> f.v[i] == s.procs[i].vruntime && f.left[i] == s.procs[i].remaining
  {
    Fair(seq(|s.procs|, i requires 0 <= i < |s.procs| => s.procs[i].vruntime),
         seq(|s.procs|, i requires 0 <= i < |s.procs| => s.procs[i].remaining), s.runnable)
  }

  // ----- Books

  ghost predicate BookAt(jobs: seq<Job>, s: Cfs, i: int)
    requires |s.procs| == |s.first| == |jobs| && |s.gantt| == |s.owners| && 0 <= i < |jobs|
  {
    var p, served := s.procs[i], TimeOf(s.gantt, s.owners, i);
    var ran := if i !in s.admitted then Untouched(p, jobs[i].burst, served)
               else if i in s.runnable then Queued(p, jobs[i].burst, s.first[i], served)
               else Finished(p, jobs[i].burst, s.first[i], served);
    var paid := Paid(p, jobs[i]);
    var started := StartTells(s.gantt, s.owners, i, p.startTime, p.completion);
    ran && paid && started
  }

  /** Virtual runtime times weight is 512 for every tick run. */
  ghost predicate Paid(p: Proc, job: Job)
  {
    p.vruntime * job.weight as real == 512.0 * (job.burst - p.remaining) as real
  }

  ghost predicate BooksOk(jobs: seq<Job>, s: Cfs)
  {
    && JobsOk(jobs) && |s.procs| == |s.first| == |jobs| && |s.gantt| == |s.owners|
    && Labelled(s.gantt, s.owners, Pids(jobs))
    && s.runnable <= s.admitted && (forall i :: i in s.admitted ==> 0 <= i < |jobs|)
    && (forall i :: 0 <= i < |jobs| ==> BookAt(jobs, s, i))
    && InOrder(s.gantt, s.now) && s.now >= 0
    && s.busy == WorkDone(s.procs, Bursts(jobs))
  }

  lemma StartingBooks(jobs: seq<Job>, s: Cfs)
    requires JobsOk(jobs) && |s.procs| == |s.first| == |jobs| && s.gantt == [] && s.owners == []
    requires forall i :: 0 <= i < |jobs| ==> s.procs[i] == Proc(jobs[i].burst, -1, -1, 0, -1, 0, 0.0)
    requires s.admitted == s.runnable == {} && s.now == s.busy == 0
    ensures BooksOk(jobs, s)
  {
    NothingDone(s.procs, Bursts(jobs));
  }

  function Enqueued(s: Cfs, i: int): Cfs
    requires 0 <= i < |s.procs| == |s.first|
  {
    s.(procs := s.procs[i := s.procs[i].(lastEnq := s.now)], first := s.first[i := s.now],
       admitted := s.admitted + {i}, runnable := s.runnable + {i})
  }

  lemma EnqueueKeeps(jobs: seq<Job>, s: Cfs, i: int)
    requires BooksOk(jobs, s) && 0 <= i < |jobs| && i !in s.admitted
    ensures BooksOk(jobs, Enqueued(s, i)) && Admits(View(s), View(Enqueued(s, i)))
  {
    var s' := Enqueued(s, i);
    WorkAfter(s.procs, Bursts(jobs), i, s'.procs[i]);
    forall j | 0 <= j < |jobs|
      ensures BookAt(jobs, s', j)
    {
      EnqueuedBook(jobs, s, i, j, s');
    }
    assert View(s').v == View(s).v && View(s').left == View(s).left;
  }

  lemma EnqueuedBook(jobs: seq<Job>, s: Cfs, i: int, j: int, s': Cfs)
    requires |s.procs| == |s.first| == |jobs| && |s.gantt| == |s.owners| && 0 <= i < |jobs| && 0 <= j < |jobs|
    requires BookAt(jobs, s, j) && i !in s.admitted && s.runnable <= s.admitted && s.now >= 0
    requires s' == Enqueued(s, i) && jobs[i].burst >= 0
    ensures BookAt(jobs, s', j)
  {
  }

  /** What a dispatch does to the process it picks. */
  function RanProc(p: Proc, charge: real, start: int, run: int): Proc
  {
    var left := p.remaining - run;
    p.(startTime := if p.startTime == -1 then start else p.startTime,
       waiting := if p.lastEnq != -1 then p.waiting + (start - p.lastEnq) else p.waiting,
       remaining := left, vruntime := p.vruntime + charge,
       completion := if left <= 0 then start + run else p.completion,
       lastEnq := if left <= 0 then p.lastEnq else start + run)
  }

  ghost function Ran(jobs: seq<Job>, s: Cfs, i: int, start: int, run: int, charge: real): Cfs
    requires 0 <= i < |s.procs| == |jobs|
  {
    var p := RanProc(s.procs[i], charge, start, run);
    s.(procs := s.procs[i := p], runnable := if p.remaining <= 0 then s.runnable - {i} else s.runnable,
       gantt := Pushed(s.gantt, start, start + run, jobs[i].pid),
           owners := OwnersPushed(s.owners, start, start + run, i),
       now := start + run, busy := s.busy + run)
  }

  /** The picked process's books after its slice. */
  lemma RanBook(p: Proc, burst: int, first: int, served: int, charge: real, start: int, run: int)
    requires Queued(p, burst, first, served) && 0 <= run <= p.remaining && start >= 0
    ensures var p' := RanProc(p, charge, start, run);
            if p'.remaining <= 0 then Finished(p', burst, first, served + run)
                else Queued(p', burst, first, served + run)
  {
  }

  lemma RanPaid(p: Proc, job: Job, start: int, run: int)
    requires Paid(p, job) && job.weight >= 1
    ensures Paid(RanProc(p, Charge(run, job.weight), start, run), job)
  {
    ChargePays(run, job.weight);
    Paying(p.vruntime, Charge(run, job.weight), job.weight as real, job.burst - p.remaining, run);
  }

  lemma RanStarted(p: Proc, charge: real, g: seq<Slice>, owners: seq<int>, i: int, start: int, run: int, pid: int)
    requires |g| == |owners| && StartTells(g, owners, i, p.startTime, -1) && start >= 0
    requires 0 <= run <= p.remaining && (run == 0 ==> p.remaining == 0)
    ensures var p' := RanProc(p, charge, start, run);
            && |Pushed(g, start, start + run, pid)| == |OwnersPushed(owners, start, start + run, i)|
            && StartTells(Pushed(g, start, start + run, pid), OwnersPushed(owners, start, start + run, i), i,
                   p'.startTime, p'.completion)
  {
    StartTaken(g, owners, i, p.startTime, start, start + run, pid);
  }

  lemma OtherBook(jobs: seq<Job>, s: Cfs, s': Cfs, j: int)
    requires |s.procs| == |s.first| == |jobs| == |s'.procs| == |s'.first| && |s.gantt| == |s.owners|
    requires |s'.gantt| == |s'.owners|
    requires 0 <= j < |jobs| && BookAt(jobs, s, j)
    requires s'.procs[j] == s.procs[j] && s'.first == s.first && s'.admitted == s.admitted
    requires (j in s'.runnable <==> j in s.runnable) && TimeOf(s'.gantt, s'.owners, j) == TimeOf(s.gantt, s.owners, j)
    requires StartTells(s'.gantt, s'.owners, j, s.procs[j].startTime, s.procs[j].completion)
    ensures BookAt(jobs, s', j)
  {
  }

  lemma RanChart(jobs: seq<Job>, s: Cfs, i: int, start: int, run: int, charge: real)
    requires BooksOk(jobs, s) && i in s.runnable && s.now <= start && 0 <= run
    ensures var s' := Ran(jobs, s, i, start, run, charge);
            && |s'.gantt| == |s'.owners| && Labelled(s'.gantt, s'.owners, Pids(jobs)) && InOrder(s'.gantt, s'.now)
            && forall j :: TimeOf(s'.gantt, s'.owners, j) == TimeOf(s.gantt, s.owners, j) + if j == i then run else 0
  {
    PushAdds(s.gantt, s.owners, start, start + run, jobs[i].pid, i, s.now);
    PushLabels(s.gantt, s.owners, Pids(jobs), start, start + run, i);
  }

  lemma OtherRan(jobs: seq<Job>, s: Cfs, i: int, start: int, run: int, charge: real, j: int)
    requires BooksOk(jobs, s) && i in s.runnable && s.now <= start && 0 <= run && 0 <= j < |jobs| && j != i
    ensures |Ran(jobs, s, i, start, run, charge).gantt| == |Ran(jobs, s, i, start, run, charge).owners|
    ensures BookAt(jobs, Ran(jobs, s, i, start, run, charge), j)
  {
    RanChart(jobs, s, i, start, run, charge);
    assert BookAt(jobs, s, j);
    var p := s.procs[j];
    StartStays(s.gantt, s.owners, j, p.startTime, p.completion, start, start + run, jobs[i].pid, i);
    OtherBook(jobs, s, Ran(jobs, s, i, start, run, charge), j);
  }

  lemma OwnRan(jobs: seq<Job>, s: Cfs, i: int, start: int, run: int, charge: real)
    requires BooksOk(jobs, s) && i in s.runnable && s.now <= start && 0 <= run <= s.procs[i].remaining
    requires (run == 0 ==> s.procs[i].remaining == 0) && charge == Charge(run, jobs[i].weight)
    ensures |Ran(jobs, s, i, start, run, charge).gantt| == |Ran(jobs, s, i, start, run, charge).owners|
    ensures BookAt(jobs, Ran(jobs, s, i, start, run, charge), i)
  {
    RanChart(jobs, s, i, start, run, charge);
    assert BookAt(jobs, s, i);
    RanBook(s.procs[i], jobs[i].burst, s.first[i], TimeOf(s.gantt, s.owners, i), charge, start, run);
    RanPaid(s.procs[i], jobs[i], start, run);
    RanStarted(s.procs[i], charge, s.gantt, s.owners, i, start, run, jobs[i].pid);
  }

  lemma RanKeeps(jobs: seq<Job>, s: Cfs, i: int, start: int, run: int, charge: real)
    requires BooksOk(jobs, s) && i in s.runnable && s.now <= start && 0 <= run <= s.procs[i].remaining
    requires (run == 0 ==> s.procs[i].remaining == 0) && charge == Charge(run, jobs[i].weight)
    ensures BooksOk(jobs, Ran(jobs, s, i, start, run, charge))
  {
    RanChart(jobs, s, i, start, run, charge);
    WorkAfter(s.procs, Bursts(jobs), i, Ran(jobs, s, i, start, run, charge).procs[i]);
    OwnRan(jobs, s, i, start, run, charge);
    forall j | 0 <= j < |jobs| && j != i
      ensures BookAt(jobs, Ran(jobs, s, i, start, run, charge), j)
    {
      OtherRan(jobs, s, i, start, run, charge, j);
    }
  }

  // ----- The heap

  /** One entry for each runnable process, keyed by its current virtual runtime. */
  ghost predicate Keyed(entries: multiset<Entry>, procs: seq<Proc>, runnable: set<int>)
  {
    forall e: Entry ::
      entries[e] == if e.idx in runnable && 0 <= e.idx < |procs| && e.key == procs[e.idx].vruntime then 1 else 0
  }

  lemma {:induction false} KeyedSize(entries: multiset<Entry>, procs: seq<Proc>, runnable: set<int>)
    requires Keyed(entries, procs, runnable) && forall i :: i in runnable ==> 0 <= i < |procs|
    ensures |entries| == |runnable|
    decreases |runnable|
  {
    if runnable == {} {
      assert entries == multiset{};
    } else {
      if forall j :: j !in runnable {
        assert false;
      }
      var i :| i in runnable;
      var e := Entry(i, procs[i].vruntime);
      KeyedSize(entries - multiset{e}, procs, runnable - {i});
      assert entries == entries - multiset{e} + multiset{e};
    }
  }

  lemma KeyedPush(entries: multiset<Entry>, procs: seq<Proc>, members: set<int>, i: int)
    requires Keyed(entries, procs, members) && i !in members && 0 <= i < |procs|
    ensures Keyed(entries + multiset{Entry(i, procs[i].vruntime)}, procs, members + {i})
  {
  }

  lemma KeyedPop(entries: multiset<Entry>, rest: multiset<Entry>, procs: seq<Proc>, members: set<int>, e: Entry)
    requires Keyed(entries, procs, members) && rest + multiset{e} == entries
    ensures Keyed(rest, procs, members - {e.idx})
  {
    forall x: Entry
      ensures rest[x] == if x.idx in members - {e.idx} && 0 <= x.idx < |procs|
              && x.key == procs[x.idx].vruntime then 1 else 0
    {
      assert (rest + multiset{e})[x] == entries[x];
      assert (rest + multiset{e})[e] == entries[e];
    }
  }

  lemma KeyedElsewhere(entries: multiset<Entry>, procs: seq<Proc>, procs': seq<Proc>, members: set<int>)
    requires Keyed(entries, procs, members) && |procs| == |procs'|
    requires forall i :: i in members && 0 <= i < |procs| ==> procs'[i].vruntime == procs[i].vruntime
    ensures Keyed(entries, procs', members)
  {
    forall x: Entry
      ensures entries[x] == if x.idx in members && 0 <= x.idx < |procs'| && x.key == procs'[x.idx].vruntime then 1
              else 0
    {
    }
  }

  /** A process that is not runnable leaves room in a heap as large as the process table. */
  lemma HasRoom(entries: multiset<Entry>, s: Cfs, i: int)
    requires Keyed(entries, s.procs, s.runnable) && (forall j :: j in s.runnable ==> 0 <= j < |s.procs|)
    requires 0 <= i < |s.procs| && i !in s.runnable
    ensures |entries| < |s.procs|
  {
    KeyedSize(entries, s.procs, s.runnable);
    RangeSize(|s.procs|);
    SubsetSize(s.runnable + {i}, Range(|s.procs|));
  }

  /** The entry with the least key belongs to a runnable process with the least virtual runtime. */
  lemma LeastIsPick(entries: multiset<Entry>, s: Cfs, e: Entry)
    requires Keyed(entries, s.procs, s.runnable) && e in entries && forall x :: x in entries ==> e.key <= x.key
    requires forall j :: j in s.runnable ==> 0 <= j < |s.procs|
    ensures e.idx in s.runnable && s.procs[e.idx].vruntime == e.key
    ensures forall j :: j in s.runnable ==> s.procs[e.idx].vruntime <= s.procs[j].vruntime
  {
    forall j | j in s.runnable
      ensures e.key <= s.procs[j].vruntime
    {
      assert Entry(j, s.procs[j].vruntime) in entries;
    }
  }

  // ----- The trace

  lemma LeadsFurther(jobs: seq<Job>, period: int, s: Fair, i: int, s': Fair, s'': Fair)
    requires Leads(jobs, period, s, i, s') && Admits(s', s'')
    ensures Leads(jobs, period, s, i, s'')
  {
    var mid :| Dispatches(jobs, period, s, mid, i) && Admits(mid, s');
    assert Admits(mid, s'');
  }

  /** Processes admitted since the last dispatch belong to the last state of the run. */
  lemma RunAdmits(jobs: seq<Job>, period: int, run: seq<Fair>, picks: seq<int>, s': Fair)
    requires IsRun(jobs, period, run, picks) && Admits(run[|run| - 1], s') && |s'.v| == |jobs|
    ensures IsRun(jobs, period, run[|run| - 1 := s'], picks)
  {
    var run' := run[|run| - 1 := s'];
    forall t | 0 <= t < |run'| - 1
      ensures StepAt(jobs, period, run', picks, t)
    {
      assert StepAt(jobs, period, run, picks, t);
      if t == |run| - 2 {
        LeadsFurther(jobs, period, run[t], picks[t], run[t + 1], s');
      }
    }
  }

  lemma RunDispatches(jobs: seq<Job>, period: int, run: seq<Fair>, picks: seq<int>, s': Fair, i: int)
    requires IsRun(jobs, period, run, picks) && Dispatches(jobs, period, run[|run| - 1], s', i)
    ensures IsRun(jobs, period, run + [s'], picks + [i])
  {
    var run' := run + [s'];
    forall t | 0 <= t < |run'| - 1
      ensures StepAt(jobs, period, run', picks + [i], t)
    {
      if t < |run| - 1 {
        assert StepAt(jobs, period, run, picks, t);
      } else {
        assert Admits(s', s');
      }
    }
  }

  lemma RanIsDispatch(jobs: seq<Job>, period: int, s: Cfs, i: int, start: int, run: int)
    requires BooksOk(jobs, s) && i in s.runnable
    requires forall j :: j in s.runnable ==> s.procs[i].vruntime <= s.procs[j].vruntime
    requires Weights(jobs, s.runnable) >= 1
    requires var slice := SliceOf(period, jobs[i].weight, Weights(jobs, s.runnable));
             run == if s.procs[i].remaining < slice then s.procs[i].remaining else slice
    ensures Dispatches(jobs, period, View(s), View(Ran(jobs, s, i, start, run, Charge(run, jobs[i].weight))), i)
  {
    var f, f' := View(s), View(Ran(jobs, s, i, start, run, Charge(run, jobs[i].weight)));
    assert f'.v == f.v[i := f.v[i] + Charge(run, jobs[i].weight)];
    assert f'.left == f.left[i := f.left[i] - run];
  }

  /** A dispatch keeps the books and is what Fairness calls a dispatch. */
  lemma RunKeeps(jobs: seq<Job>, period: int, s: Cfs, i: int, start: int, slice: int)
    requires BooksOk(jobs, s) && i in s.runnable
    requires forall j :: j in s.runnable ==> s.procs[i].vruntime <= s.procs[j].vruntime
    requires s.now <= start && Weights(jobs, s.runnable) >= 1
    requires slice == SliceOf(period, jobs[i].weight, Weights(jobs, s.runnable))
    ensures var run := if s.procs[i].remaining < slice then s.procs[i].remaining else slice;
            var s' := Ran(jobs, s, i, start, run, Charge(run, jobs[i].weight));
            && BooksOk(jobs, s') && Dispatches(jobs, period, View(s), View(s'), i)
            && ((s'.runnable == s.runnable && s'.busy > s.busy) || (s'.runnable < s.runnable && s'.busy >= s.busy))
  {
    var run := if s.procs[i].remaining < slice then s.procs[i].remaining else slice;
    assert BookAt(jobs, s, i);
    RanKeeps(jobs, s, i, start, run, Charge(run, jobs[i].weight));
    RanIsDispatch(jobs, period, s, i, start, run);
  }

  ghost predicate Charged(v: real, v': real, w: int, ran: int)
  {
    (v' - v) * w as real == 512.0 * ran as real
  }

  /** What has run is the whole share of the period, or all that was left if that is less. */
  ghost predicate RunsItsShare(period: int, w: int, total: int, left: int, ran: int)
  {
    exists slice :: WholeShare(period, w, total, slice) && ran == if left < slice then left else slice
  }

  lemma ChargedFor(v: real, w: int, run: int)
    requires w >= 1
    ensures Charged(v, v + Charge(run, w), w, run)
  {
    ChargePays(run, w);
  }

  lemma SliceRuns(period: int, w: int, total: int, left: int)
    requires total >= 1
    ensures var slice := SliceOf(period, w, total);
            slice >= 1 && RunsItsShare(period, w, total, left, if left < slice then left else slice)
  {
    SliceIsShare(period, w, total);
  }

  /** Process `i`, a runnable one with the least virtual runtime, has run after any switching cost for the whole ticks
      of its share of the period, at least one, or to its end; it has been charged, and nobody else has changed. */
  ghost predicate HasRun(jobs: seq<Job>, csCost: int, period: int, s: Cfs, s': Cfs, i: int)
  {
    && 0 <= i < |s.procs| == |s'.procs| == |jobs| && i in s.runnable
    && (forall j :: j in s.runnable && 0 <= j < |jobs| ==> s.procs[i].vruntime <= s.procs[j].vruntime)
    && (forall j :: 0 <= j < |jobs| && j != i ==> s'.procs[j] == s.procs[j])
    && var p, p' := s.procs[i], s'.procs[i];
       var ran, w := p.remaining - p'.remaining, jobs[i].weight;
       var start := s'.now - ran;
       && start == s.now + (if csCost > 0 then csCost else 0)
       && RunsItsShare(period, w, Weights(jobs, s.runnable), p.remaining, ran)
       && Charged(p.vruntime, p'.vruntime, w, ran)
       && s'.gantt == (if ran > 0 then s.gantt + [Slice(start, s'.now, jobs[i].pid)] else s.gantt)
  }

  lemma RunHasRun(jobs: seq<Job>, csCost: int, period: int, s: Cfs, i: int, start: int, slice: int, run: int)
    requires BooksOk(jobs, s) && i in s.runnable && Weights(jobs, s.runnable) >= 1
    requires forall j :: j in s.runnable ==> s.procs[i].vruntime <= s.procs[j].vruntime
    requires start == (if csCost > 0 then s.now + csCost else s.now)
    requires slice == SliceOf(period, jobs[i].weight, Weights(jobs, s.runnable))
    requires run == if s.procs[i].remaining < slice then s.procs[i].remaining else slice
    ensures HasRun(jobs, csCost, period, s, Ran(jobs, s, i, start, run, Charge(run, jobs[i].weight)), i)
  {
    SliceRuns(period, jobs[i].weight, Weights(jobs, s.runnable), s.procs[i].remaining);
    ChargedFor(s.procs[i].vruntime, jobs[i].weight, run);
  }

  // ----- Arrivals

  /** Exactly the first `ai` arrivals have been admitted, none before its time. */
  ghost predicate Admitted(jobs: seq<Job>, arrivals: seq<Arrival>, ai: nat, first: seq<int>, admitted: set<int>)
  {
    && ai <= |arrivals| && |first| == |jobs|
    && (forall k :: 0 <= k < |arrivals| ==> (arrivals[k].idx in admitted <==> k < ai))
    && (forall i :: i in admitted && 0 <= i < |jobs| ==> first[i] >= jobs[i].arrival)
  }

  lemma NextIsNew(jobs: seq<Job>, arrivals: seq<Arrival>, ai: nat, first: seq<int>, admitted: set<int>, now: int)
    requires Lists(arrivals, Times(jobs)) && Admitted(jobs, arrivals, ai, first, admitted)
    requires ai < |arrivals| && arrivals[ai].t <= now
    ensures 0 <= arrivals[ai].idx < |jobs| && arrivals[ai].idx !in admitted
    ensures Admitted(jobs, arrivals, ai + 1, first[arrivals[ai].idx := now], admitted + {arrivals[ai].idx})
  {
  }

  /** `i` has run for its burst; the rest of the time since its admission it was waiting or paying for a switch. */
  ghost predicate CompletedAt(jobs: seq<Job>, s: Cfs, i: int)
    requires |s.procs| == |s.first| == |jobs| && |s.gantt| == |s.owners| && 0 <= i < |jobs|
  {
    && s.first[i] >= jobs[i].arrival
    && Finished(s.procs[i], jobs[i].burst, s.first[i], TimeOf(s.gantt, s.owners, i))
    && Paid(s.procs[i], jobs[i])
    && StartTells(s.gantt, s.owners, i, s.procs[i].startTime, s.procs[i].completion)
  }

  lemma NothingLeft(jobs: seq<Job>, s: Cfs)
    requires BooksOk(jobs, s)
    ensures forall i :: 0 <= i < |s.procs| ==> s.procs[i].remaining >= 0
  {
    forall i | 0 <= i < |s.procs|
      ensures s.procs[i].remaining >= 0
    {
      assert BookAt(jobs, s, i);
    }
  }

  lemma WorkIsBounded(jobs: seq<Job>, s: Cfs)
    requires BooksOk(jobs, s)
    ensures s.busy <= Sum(Bursts(jobs))
  {
    NothingLeft(jobs, s);
    WorkBound(s.procs, Bursts(jobs));
  }

  lemma BookIsComplete(jobs: seq<Job>, s: Cfs, i: int)
    requires |s.procs| == |s.first| == |jobs| && |s.gantt| == |s.owners| && 0 <= i < |jobs|
    requires BookAt(jobs, s, i) && i in s.admitted && i !in s.runnable && s.first[i] >= jobs[i].arrival
    ensures CompletedAt(jobs, s, i)
  {
  }

  /** Over its whole burst the process has been charged 512 for every tick. */
  ghost predicate PaidFor(p: Proc, job: Job)
  {
    p.vruntime * job.weight as real == 512.0 * job.burst as real
  }

  lemma PaidInFull(p: Proc, job: Job)
    requires Paid(p, job) && p.remaining == 0
    ensures PaidFor(p, job)
  {
    assert job.burst - p.remaining == job.burst;
  }

  lemma AllCompleted(jobs: seq<Job>, arrivals: seq<Arrival>, s: Cfs)
    requires BooksOk(jobs, s) && s.runnable == {}
    requires Lists(arrivals, Times(jobs)) && Admitted(jobs, arrivals, |arrivals|, s.first, s.admitted)
    ensures forall i :: 0 <= i < |jobs| ==> CompletedAt(jobs, s, i)
    ensures forall i :: 0 <= i < |jobs| ==> PaidFor(s.procs[i], jobs[i])
    ensures s.busy == Sum(Bursts(jobs))
    ensures Distinct(Pids(jobs)) ==> forall i :: 0 <= i < |jobs| ==> TimeUnder(s.gantt, jobs[i].pid) == jobs[i].burst
  {
    forall i | 0 <= i < |jobs|
      ensures CompletedAt(jobs, s, i)
    {
      assert Arrival(Times(jobs)[i], i) in arrivals;
      assert BookAt(jobs, s, i);
      BookIsComplete(jobs, s, i);
    }
    forall i | 0 <= i < |jobs|
      ensures s.procs[i].remaining == 0
      ensures PaidFor(s.procs[i], jobs[i])
      ensures Distinct(Pids(jobs)) ==> TimeUnder(s.gantt, jobs[i].pid) == jobs[i].burst
    {
      assert CompletedAt(jobs, s, i);
      PaidInFull(s.procs[i], jobs[i]);
      if Distinct(Pids(jobs)) {
        LabelsTell(s.gantt, s.owners, Pids(jobs), i);
      }
    }
    WorkBound(s.procs, Bursts(jobs));
  }

  lemma NobodyRunnable(entries: multiset<Entry>, s: Cfs)
    requires Keyed(entries, s.procs, s.runnable) && entries == multiset{}
    requires forall i :: i in s.runnable ==> 0 <= i < |s.procs|
    ensures s.runnable == {}
  {
    KeyedSize(entries, s.procs, s.runnable);
  }

  /** The clock may move on while nobody runs. */
  lemma LaterIsFine(jobs: seq<Job>, s: Cfs, now: int)
    requires BooksOk(jobs, s) && s.now <= now
    ensures BooksOk(jobs, s.(now := now)) && View(s.(now := now)) == View(s)
  {
    var s' := s.(now := now);
    forall i | 0 <= i < |jobs|
      ensures BookAt(jobs, s', i)
    {
      assert BookAt(jobs, s, i);
    }
    assert View(s').v == View(s).v && View(s').left == View(s).left;
  }

  // ----- The loop

  lemma AdmitsTwice(s: Fair, s': Fair, s'': Fair)
    requires Admits(s, s') && Admits(s', s'')
    ensures Admits(s, s'')
  {
  }

  /** What is known at every loop head: who has been admitted, and the run so far from `start`. */
  ghost predicate Running(jobs: seq<Job>, period: int, arrivals: seq<Arrival>, ai: nat, start: Fair, s: Cfs,
                          run: seq<Fair>, picks: seq<int>)
  {
    var admitted := |s.procs| == |jobs| && Admitted(jobs, arrivals, ai, s.first, s.admitted);
    var followed := IsRun(jobs, period, run, picks) && NothingOwed(run[0]) && Admits(start, run[0])
                    && run[|run| - 1] == View(s);
    admitted && followed
  }

  lemma RunningStarts(jobs: seq<Job>, period: int, arrivals: seq<Arrival>, s: Cfs)
    requires BooksOk(jobs, s) && s.admitted == {}
    ensures Running(jobs, period, arrivals, 0, View(s), s, [View(s)], [])
  {
    NothingLeft(jobs, s);
  }

  lemma RunningAdmits(jobs: seq<Job>, period: int, arrivals: seq<Arrival>, ai: nat, start: Fair, s: Cfs,
                      run: seq<Fair>, picks: seq<int>, next: nat, s': Cfs)
    requires Running(jobs, period, arrivals, ai, start, s, run, picks) && Admits(View(s), View(s'))
             && |s'.procs| == |jobs|
    requires Admitted(jobs, arrivals, next, s'.first, s'.admitted)
    ensures Running(jobs, period, arrivals, next, start, s', run[|run| - 1 := View(s')], picks)
  {
    RunAdmits(jobs, period, run, picks, View(s'));
  }

  lemma RunningDispatches(jobs: seq<Job>, period: int, arrivals: seq<Arrival>, ai: nat, start: Fair, s: Cfs,
                          run: seq<Fair>, picks: seq<int>, i: int, s': Cfs)
    requires Running(jobs, period, arrivals, ai, start, s, run, picks) && Dispatches(jobs, period, View(s), View(s'), i)
    requires |s'.procs| == |jobs| && s'.first == s.first && s'.admitted == s.admitted
    ensures Running(jobs, period, arrivals, ai, start, s', run + [View(s')], picks + [i])
  {
    RunDispatches(jobs, period, run, picks, View(s'), i);
  }
}
