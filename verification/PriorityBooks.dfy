/** The Windows-like priority round robin, stage by stage: queues by level,
    slices, and everybody's books. */
module PriorityBooks {
  import opened ArrivalOrder
  import opened Arithmetic
  import opened Distinctness
  import opened Timeline

  const LEVELS := 16

  datatype Win = Win(procs: seq<Proc>, queues: seq<seq<int>>, running: int, sliceStart: int, sliceEnd: int,
                     admitted: set<int>, ready: set<int>, gantt: seq<Slice>, owners: seq<int>, now: int, busy: int)

  function Clamp(v: int): (r: int)
    ensures 0 <= r < LEVELS
  {
    if v < 0 then 0 else if v > 15 then 15 else v
  }

  function Quantum(level: int): int
  {
    6 + level / 2
  }

  // ----- Queues

  /** Everybody in the first `n` queues. */
  ghost function InQueues(queues: seq<seq<int>>, n: nat): multiset<int>
    requires n <= |queues|
  {
    if n == 0 then multiset{} else InQueues(queues, n - 1) + multiset(queues[n - 1])
  }

  lemma {:induction false} QueueChanges(queues: seq<seq<int>>, level: nat, q: seq<int>, n: nat, i: int)
    requires level < |queues| && n <= |queues|
    ensures InQueues(queues[level := q], n)[i] + (if level < n then multiset(queues[level])[i] else 0)
         == InQueues(queues, n)[i] + (if level < n then multiset(q)[i] else 0)
  {
    if n > 0 {
      QueueChanges(queues, level, q, n - 1, i);
    }
  }

  /** Each ready process is in one queue, once. */
  ghost predicate QueuesHold(queues: seq<seq<int>>, ready: set<int>)
  {
    |queues| == LEVELS && forall i :: InQueues(queues, LEVELS)[i] == if i in ready then 1 else 0
  }

  lemma PushHolds(queues: seq<seq<int>>, ready: set<int>, level: nat, x: int)
    requires QueuesHold(queues, ready) && level < LEVELS && x !in ready
    ensures QueuesHold(queues[level := queues[level] + [x]], ready + {x})
  {
    var after := queues[level := queues[level] + [x]];
    forall i: int
      ensures InQueues(after, LEVELS)[i] == if i in ready + {x} then 1 else 0
    {
      QueueChanges(queues, level, queues[level] + [x], LEVELS, i);
    }
  }

  lemma {:induction false} QueuedIsReady(queues: seq<seq<int>>, level: nat, n: nat, x: int)
    requires level < n <= |queues| && x in queues[level]
    ensures InQueues(queues, n)[x] >= 1
  {
    if level < n - 1 {
      QueuedIsReady(queues, level, n - 1, x);
    }
  }

  lemma PopHolds(queues: seq<seq<int>>, ready: set<int>, level: nat)
    requires QueuesHold(queues, ready) && level < LEVELS && queues[level] != []
    ensures queues[level][0] in ready
    ensures QueuesHold(queues[level := queues[level][1..]], ready - {queues[level][0]})
  {
    var x, rest := queues[level][0], queues[level][1..];
    QueuedIsReady(queues, level, LEVELS, x);
    assert queues[level] == [x] + rest;
    forall i: int
      ensures InQueues(queues[level := rest], LEVELS)[i] == if i in ready - {x} then 1 else 0
    {
      QueueChanges(queues, level, rest, LEVELS, i);
      assert multiset(queues[level])[i] == multiset(rest)[i] + if i == x then 1 else 0;
    }
  }

  lemma {:induction false} EmptyQueues(queues: seq<seq<int>>, n: nat)
    requires n <= |queues| && forall l :: 0 <= l < n ==> queues[l] == []
    ensures InQueues(queues, n) == multiset{}
  {
    if n > 0 {
      EmptyQueues(queues, n - 1);
    }
  }

  lemma NobodyReady(queues: seq<seq<int>>, ready: set<int>)
    requires QueuesHold(queues, ready) && forall l :: 0 <= l < LEVELS ==> queues[l] == []
    ensures ready == {}
  {
    EmptyQueues(queues, LEVELS);
    assert forall i :: i !in ready;
  }

  // ----- Books

  /** On the CPU for `[sliceStart, sliceEnd)`, which is on the chart but not yet taken off what remains. */
  ghost predicate Running(p: Proc, job: Job, served: int, sliceStart: int, sliceEnd: int)
  {
    && p.completion == -1 && 0 <= sliceEnd - sliceStart <= p.remaining
    && (sliceEnd - sliceStart < p.remaining ==> sliceEnd - sliceStart >= 1)
    && served == job.burst - p.remaining + (sliceEnd - sliceStart)
    && sliceStart - job.arrival == (job.burst - p.remaining) + p.waiting
  }

  ghost predicate BookAt(jobs: seq<Job>, s: Win, i: int)
    requires |s.procs| == |jobs| && |s.gantt| == |s.owners| && 0 <= i < |jobs|
  {
    var p, served := s.procs[i], TimeOf(s.gantt, s.owners, i);
    var ran := if i !in s.admitted then Untouched(p, jobs[i].burst, served)
               else if i == s.running then Running(p, jobs[i], served, s.sliceStart, s.sliceEnd)
               else if i in s.ready then Queued(p, jobs[i].burst, jobs[i].arrival, served)
               else Finished(p, jobs[i].burst, jobs[i].arrival, served);
    var charted := i == s.running && s.sliceStart < s.sliceEnd ==> i in s.owners;
    var started := StartTells(s.gantt, s.owners, i, p.startTime, if i == s.running then s.sliceStart else p.completion);
    ran && charted && started
  }

  ghost predicate JobsOk(jobs: seq<Job>)
  {
    forall i :: 0 <= i < |jobs| ==> jobs[i].burst >= 0 && jobs[i].arrival >= 0
  }

  ghost predicate BooksOk(jobs: seq<Job>, s: Win)
  {
    && JobsOk(jobs) && |s.procs| == |jobs| && |s.gantt| == |s.owners|
    && Labelled(s.gantt, s.owners, Pids(jobs))
    && (forall i :: i in s.admitted ==> 0 <= i < |jobs|)
    && s.ready <= s.admitted && s.running !in s.ready && (s.running != -1 ==> s.running in s.admitted)
    && (forall i :: 0 <= i < |jobs| ==> BookAt(jobs, s, i))
    && s.now >= 0 && (s.running != -1 ==> s.now <= s.sliceEnd)
    && InOrder(s.gantt, if s.running == -1 then s.now else s.sliceEnd)
    && QueuesHold(s.queues, s.ready)
    && s.busy == WorkDone(s.procs, Bursts(jobs))
  }

  lemma OtherBook(jobs: seq<Job>, s: Win, s': Win, j: int)
    requires |s.procs| == |jobs| == |s'.procs| && |s.gantt| == |s.owners| && |s'.gantt| == |s'.owners|
    requires 0 <= j < |jobs| && BookAt(jobs, s, j) && j != s.running && j != s'.running
    requires s'.procs[j] == s.procs[j] && (j in s'.admitted <==> j in s.admitted) && (j in s'.ready <==> j in s.ready)
    requires TimeOf(s'.gantt, s'.owners, j) == TimeOf(s.gantt, s.owners, j)
    requires StartTells(s'.gantt, s'.owners, j, s.procs[j].startTime, s.procs[j].completion)
    ensures BookAt(jobs, s', j)
  {
  }

  /** `i` goes to the end of its level's queue. */
  function Enqueued(s: Win, i: int): Win
    requires 0 <= i < |s.procs| && |s.queues| == LEVELS
  {
    var level := Clamp(s.procs[i].dynPrio);
    s.(procs := s.procs[i := s.procs[i].(lastEnq := s.now)], queues := s.queues[level := s.queues[level] + [i]],
       ready := s.ready + {i})
  }

  function AdmittedOne(s: Win, i: int): Win
    requires 0 <= i < |s.procs| && |s.queues| == LEVELS
  {
    Enqueued(s, i).(admitted := s.admitted + {i})
  }

  /** Only an arrival on time starts its books right. */
  lemma AdmitKeeps(jobs: seq<Job>, s: Win, i: int)
    requires BooksOk(jobs, s) && 0 <= i < |jobs| && i !in s.admitted && jobs[i].arrival == s.now
    ensures BooksOk(jobs, AdmittedOne(s, i))
  {
    var s' := AdmittedOne(s, i);
    WorkAfter(s.procs, Bursts(jobs), i, s'.procs[i]);
    PushHolds(s.queues, s.ready, Clamp(s.procs[i].dynPrio), i);
    forall j | 0 <= j < |jobs|
      ensures BookAt(jobs, s', j)
    {
      assert BookAt(jobs, s, j);
    }
  }

  /** The running process's slice is over. */
  function Charged(s: Win): Win
    requires 0 <= s.running < |s.procs|
  {
    var i, ran := s.running, s.sliceEnd - s.sliceStart;
    var spent := if ran > 0 then ran else 0;
    s.(procs := s.procs[i := s.procs[i].(remaining := s.procs[i].remaining - spent)], busy := s.busy + spent,
        running := -1)
  }

  /** It finishes, or loses a level and goes back to a queue. */
  function Released(s: Win, i: int): Win
    requires 0 <= i < |s.procs| && |s.queues| == LEVELS
  {
    var p := s.procs[i];
    if p.remaining <= 0 then s.(procs := s.procs[i := p.(completion := s.sliceEnd)])
    else Enqueued(s.(procs := s.procs[i := p.(dynPrio := Clamp(p.dynPrio - 1))]), i)
  }

  function SliceEnded(s: Win): Win
    requires 0 <= s.running < |s.procs| && |s.queues| == LEVELS
  {
    Released(Charged(s), s.running)
  }

  lemma SliceEndBook(p: Proc, job: Job, served: int, sliceStart: int, sliceEnd: int, p': Proc)
    requires Running(p, job, served, sliceStart, sliceEnd) && sliceEnd >= 0
    requires p'.remaining == p.remaining - (sliceEnd - sliceStart) && p'.waiting == p.waiting
    requires if p'.remaining <= 0 then p'.completion == sliceEnd
             else p'.lastEnq == sliceEnd && p'.completion == p.completion
    ensures if p'.remaining <= 0 then Finished(p', job.burst, job.arrival, served)
            else Queued(p', job.burst, job.arrival, served)
  {
  }

  lemma SliceEndKeeps(jobs: seq<Job>, s: Win)
    requires BooksOk(jobs, s) && s.running != -1 && s.now == s.sliceEnd
    ensures BooksOk(jobs, SliceEnded(s))
  {
    var i, s' := s.running, SliceEnded(s);
    assert BookAt(jobs, s, i);
    assert s'.procs == s.procs[i := s'.procs[i]];
    WorkAfter(s.procs, Bursts(jobs), i, s'.procs[i]);
    SliceEndBook(s.procs[i], jobs[i], TimeOf(s.gantt, s.owners, i), s.sliceStart, s.sliceEnd, s'.procs[i]);
    if s'.procs[i].remaining > 0 {
      PushHolds(s.queues, s.ready, Clamp(s'.procs[i].dynPrio), i);
    }
    forall j | 0 <= j < |jobs|
      ensures BookAt(jobs, s', j)
    {
      if j != i {
        assert BookAt(jobs, s, j);
        OtherBook(jobs, s, s', j);
      }
    }
  }

  /** Work not yet done and processes not yet finished. */
  ghost function ToDo(jobs: seq<Job>, s: Win): int
  {
    Sum(Bursts(jobs)) - s.busy + |s.ready| + if s.running != -1 then 1 else 0
  }

  lemma SliceEndProgress(jobs: seq<Job>, s: Win)
    requires BooksOk(jobs, s) && s.running != -1
    ensures ToDo(jobs, SliceEnded(s)) < ToDo(jobs, s)
  {
    assert BookAt(jobs, s, s.running);
  }

  function StartedProc(p: Proc, now: int, start: int): Proc
  {
    p.(dynPrio := if p.lastEnq != -1 && now - p.lastEnq > 10 then Clamp(p.dynPrio + 1) else p.dynPrio,
       startTime := if p.startTime == -1 then start else p.startTime,
       waiting := if p.lastEnq != -1 then p.waiting + (start - p.lastEnq) else p.waiting)
  }

  /** The head of `level` leaves its queue. */
  function Taken(s: Win, level: nat): Win
    requires |s.queues| == LEVELS && level < LEVELS && s.queues[level] != []
  {
    s.(queues := s.queues[level := s.queues[level][1..]], ready := s.ready - {s.queues[level][0]})
  }

  /** Process `i` runs, after any switching cost, for the level's quantum or to its end. */
  ghost function Started(jobs: seq<Job>, s: Win, i: int, level: nat, csCost: int): Win
    requires 0 <= i < |s.procs| == |jobs|
  {
    var start := if csCost > 0 then s.now + csCost else s.now;
    var run := if s.procs[i].remaining < Quantum(level) then s.procs[i].remaining else Quantum(level);
    s.(procs := s.procs[i := StartedProc(s.procs[i], s.now, start)], running := i,
       sliceStart := start, sliceEnd := start + run, now := start,
       gantt := Pushed(s.gantt, start, start + run, jobs[i].pid),
           owners := OwnersPushed(s.owners, start, start + run, i))
  }

  ghost function Picked(jobs: seq<Job>, s: Win, level: nat, csCost: int): Win
    requires |s.procs| == |jobs| && |s.queues| == LEVELS && level < LEVELS
    requires s.queues[level] != [] && 0 <= s.queues[level][0] < |s.procs|
  {
    Started(jobs, Taken(s, level), s.queues[level][0], level, csCost)
  }

  lemma StartBook(p: Proc, job: Job, served: int, now: int, start: int, run: int)
    requires Queued(p, job.burst, job.arrival, served) && 0 <= run <= p.remaining && (run < p.remaining ==> run >= 1)
    ensures Running(StartedProc(p, now, start), job, served + run, start, start + run)
  {
  }

  lemma PickKeeps(jobs: seq<Job>, s: Win, level: nat, csCost: int)
    requires BooksOk(jobs, s) && s.running == -1 && level < LEVELS && s.queues[level] != []
    ensures 0 <= s.queues[level][0] < |s.procs| && s.queues[level][0] in s.ready
    ensures BooksOk(jobs, Picked(jobs, s, level, csCost))
  {
    PopHolds(s.queues, s.ready, level);
    var i := s.queues[level][0];
    StartKeeps(jobs, s, Taken(s, level), i, level, csCost);
  }

  lemma StartChart(jobs: seq<Job>, s: Win, i: int, level: nat, csCost: int)
    requires 0 <= i < |s.procs| == |jobs| && s.procs[i].remaining >= 0
    requires InOrder(s.gantt, s.now) && Labelled(s.gantt, s.owners, Pids(jobs))
    ensures var s' := Started(jobs, s, i, level, csCost);
            && 0 <= s'.sliceEnd - s'.sliceStart
            && |s'.gantt| == |s'.owners| && InOrder(s'.gantt, s'.sliceEnd)
            && Labelled(s'.gantt, s'.owners, Pids(jobs))
            && forall j :: TimeOf(s'.gantt, s'.owners, j)
                        == TimeOf(s.gantt, s.owners, j) + if j == i then s'.sliceEnd - s'.sliceStart else 0
  {
    var s' := Started(jobs, s, i, level, csCost);
    PushBoth(s.gantt, s.owners, Pids(jobs), s'.sliceStart, s'.sliceEnd, i, s.now);
    assert s'.gantt == Pushed(s.gantt, s'.sliceStart, s'.sliceEnd, Pids(jobs)[i]);
  }

  lemma OwnBook(jobs: seq<Job>, s: Win, i: int)
    requires BooksOk(jobs, s) && s.running == -1 && i in s.ready
    ensures 0 <= i < |s.procs| && s.procs[i].remaining >= 0
    ensures StartTells(s.gantt, s.owners, i, s.procs[i].startTime, -1)
  {
    assert BookAt(jobs, s, i);
  }

  /** The slice starts the process if it has not run before. */
  lemma StartsOwn(jobs: seq<Job>, s: Win, i: int, level: nat, csCost: int)
    requires 0 <= i < |s.procs| == |jobs| && |s.gantt| == |s.owners| && s.now >= 0
    requires StartTells(s.gantt, s.owners, i, s.procs[i].startTime, -1)
    ensures var s' := Started(jobs, s, i, level, csCost);
            && |s'.gantt| == |s'.owners|
            && StartTells(s'.gantt, s'.owners, i, s'.procs[i].startTime, s'.sliceStart)
            && (s'.sliceStart < s'.sliceEnd ==> i in s'.owners)
  {
    var s' := Started(jobs, s, i, level, csCost);
    StartTaken(s.gantt, s.owners, i, s.procs[i].startTime, s'.sliceStart, s'.sliceEnd, jobs[i].pid);
  }

  lemma StartsNobodyElse(jobs: seq<Job>, s: Win, i: int, level: nat, csCost: int, j: int)
    requires 0 <= i < |s.procs| == |jobs| && |s.gantt| == |s.owners| && 0 <= j < |jobs| && j != i
    requires StartTells(s.gantt, s.owners, j, s.procs[j].startTime, s.procs[j].completion)
    ensures var s' := Started(jobs, s, i, level, csCost);
            && |s'.gantt| == |s'.owners|
            && StartTells(s'.gantt, s'.owners, j, s.procs[j].startTime, s.procs[j].completion)
  {
    var s', p := Started(jobs, s, i, level, csCost), s.procs[j];
    StartStays(s.gantt, s.owners, j, p.startTime, p.completion, s'.sliceStart, s'.sliceEnd, jobs[i].pid, i);
  }

  lemma OtherStart(jobs: seq<Job>, s: Win, t: Win, i: int, level: nat, csCost: int, j: int, s': Win)
    requires 0 <= i < |s.procs| == |jobs| && 0 <= j < |jobs| && j != i && s.running == -1 && |s.gantt| == |s.owners|
    requires BookAt(jobs, s, j) && t == s.(queues := t.queues, ready := s.ready - {i})
    requires s' == Started(jobs, t, i, level, csCost) && |s'.gantt| == |s'.owners|
    requires TimeOf(s'.gantt, s'.owners, j) == TimeOf(s.gantt, s.owners, j)
    ensures BookAt(jobs, s', j)
  {
    StartsNobodyElse(jobs, t, i, level, csCost, j);
    OtherBook(jobs, s, s', j);
  }

  lemma StartBooks(jobs: seq<Job>, s: Win, t: Win, i: int, level: nat, csCost: int)
    requires BooksOk(jobs, s) && s.running == -1 && i in s.ready && t == s.(queues := t.queues, ready := s.ready - {i})
    ensures var s' := Started(jobs, t, i, level, csCost);
            && |s'.gantt| == |s'.owners| && InOrder(s'.gantt, s'.sliceEnd)
            && Labelled(s'.gantt, s'.owners, Pids(jobs))
            && forall j :: 0 <= j < |jobs| ==> BookAt(jobs, s', j)
  {
    var s' := Started(jobs, t, i, level, csCost);
    OwnBook(jobs, s, i);
    StartChart(jobs, t, i, level, csCost);
    StartsOwn(jobs, t, i, level, csCost);
    PickerBook(jobs, s, s', i);
    forall j | 0 <= j < |jobs| && j != i
      ensures BookAt(jobs, s', j)
    {
      OtherStart(jobs, s, t, i, level, csCost, j, s');
    }
  }

  lemma PickerBook(jobs: seq<Job>, s: Win, s': Win, i: int)
    requires |s.procs| == |jobs| == |s'.procs| && |s.gantt| == |s.owners| && |s'.gantt| == |s'.owners|
    requires 0 <= i < |jobs| && BookAt(jobs, s, i) && i in s.admitted && i in s.ready && i != s.running
    requires var run := s'.sliceEnd - s'.sliceStart;
             && 0 <= run <= s.procs[i].remaining && (run < s.procs[i].remaining ==> run >= 1)
             && TimeOf(s'.gantt, s'.owners, i) == TimeOf(s.gantt, s.owners, i) + run
    requires s'.running == i && s'.admitted == s.admitted
    requires s'.procs[i] == StartedProc(s.procs[i], s.now, s'.sliceStart)
    requires StartTells(s'.gantt, s'.owners, i, s'.procs[i].startTime, s'.sliceStart)
    requires s'.sliceStart < s'.sliceEnd ==> i in s'.owners
    ensures BookAt(jobs, s', i)
  {
    StartBook(s.procs[i], jobs[i], TimeOf(s.gantt, s.owners, i), s.now, s'.sliceStart, s'.sliceEnd - s'.sliceStart);
  }

  lemma StartKeeps(jobs: seq<Job>, s: Win, t: Win, i: int, level: nat, csCost: int)
    requires BooksOk(jobs, s) && s.running == -1 && i in s.ready
    requires t == s.(queues := t.queues, ready := s.ready - {i}) && QueuesHold(t.queues, t.ready)
    ensures 0 <= i < |t.procs| && BooksOk(jobs, Started(jobs, t, i, level, csCost))
  {
    var s' := Started(jobs, t, i, level, csCost);
    StartBooks(jobs, s, t, i, level, csCost);
    WorkAfter(s.procs, Bursts(jobs), i, s'.procs[i]);
    assert BookAt(jobs, s, i);
  }

  /** The clock may move, even back, as long as it does not pass the running slice. */
  lemma ClockKeeps(jobs: seq<Job>, s: Win, now: int)
    requires BooksOk(jobs, s) && now >= 0 && if s.running == -1 then now >= s.now else now <= s.sliceEnd
    ensures BooksOk(jobs, s.(now := now))
  {
    forall j | 0 <= j < |jobs|
      ensures BookAt(jobs, s.(now := now), j)
    {
      assert BookAt(jobs, s, j);
    }
  }

  // ----- Arrivals and the end

  /** Exactly the first `ai` arrivals have been admitted. */
  ghost predicate Coming(arrivals: seq<Arrival>, ai: nat, admitted: set<int>)
  {
    forall k :: 0 <= k < |arrivals| ==> (arrivals[k].idx in admitted <==> k < ai)
  }

  /** Exactly the first `ai` arrivals have been admitted, and the next is not overdue. */
  ghost predicate OnTime(arrivals: seq<Arrival>, ai: nat, admitted: set<int>, now: int)
  {
    && ai <= |arrivals| && Coming(arrivals, ai, admitted)
    && (ai < |arrivals| ==> now <= arrivals[ai].t)
  }

  lemma NextOnTime(jobs: seq<Job>, arrivals: seq<Arrival>, ai: nat, admitted: set<int>, now: int)
    requires Lists(arrivals, Times(jobs)) && OnTime(arrivals, ai, admitted, now) && ai < |arrivals|
    requires arrivals[ai].t <= now
    ensures 0 <= arrivals[ai].idx < |jobs| && arrivals[ai].idx !in admitted && jobs[arrivals[ai].idx].arrival == now
    ensures OnTime(arrivals, ai + 1, admitted + {arrivals[ai].idx}, now)
  {
    assert ai + 1 < |arrivals| ==> arrivals[ai].t <= arrivals[ai + 1].t;
  }

  /** The running slice is due to end, or an arrival is due before it. */
  ghost predicate Due(s: Win, arrivals: seq<Arrival>, ai: nat)
  {
    s.running != -1 ==> s.now == s.sliceEnd || (ai < |arrivals| && arrivals[ai].t == s.now)
  }

  ghost function Rank(s: Win, arrivals: seq<Arrival>, ai: nat): nat
  {
    if s.running != -1 then 0 else if ai < |arrivals| && arrivals[ai].t == s.now then 1 else 2
  }

  lemma ToDoIsNatural(jobs: seq<Job>, s: Win)
    requires BooksOk(jobs, s)
    ensures ToDo(jobs, s) >= 0
  {
    WorkIsBounded(jobs, s);
  }

  lemma TakenCount(jobs: seq<Job>, s: Win, level: nat, csCost: int)
    requires BooksOk(jobs, s) && s.running == -1 && level < LEVELS && s.queues[level] != []
    requires 0 <= s.queues[level][0] < |s.procs| && s.queues[level][0] in s.ready
    ensures ToDo(jobs, Picked(jobs, s, level, csCost)) == ToDo(jobs, s)
  {
    assert |s.ready - {s.queues[level][0]}| == |s.ready| - 1;
    assert s.queues[level][0] != -1;
  }

  lemma WorkIsBounded(jobs: seq<Job>, s: Win)
    requires BooksOk(jobs, s)
    ensures s.busy <= Sum(Bursts(jobs))
  {
    forall i | 0 <= i < |s.procs|
      ensures s.procs[i].remaining >= 0
    {
      assert BookAt(jobs, s, i);
    }
    WorkBound(s.procs, Bursts(jobs));
  }

  /** Everyone is complete: the chart holds exactly each burst, and the rest of its time each process waited. */
  lemma AllCompleted(jobs: seq<Job>, arrivals: seq<Arrival>, s: Win)
    requires BooksOk(jobs, s) && s.ready == {} && s.running == -1
    requires Lists(arrivals, Times(jobs)) && OnTime(arrivals, |arrivals|, s.admitted, s.now)
    ensures forall i :: 0 <= i < |jobs| ==>
      Finished(s.procs[i], jobs[i].burst, jobs[i].arrival, TimeOf(s.gantt, s.owners, i))
    ensures forall i :: 0 <= i < |jobs| ==>
      StartTells(s.gantt, s.owners, i, s.procs[i].startTime, s.procs[i].completion)
    ensures InOrder(s.gantt, s.now) && s.busy == Sum(Bursts(jobs))
    ensures Distinct(Pids(jobs)) ==> forall i :: 0 <= i < |jobs| ==> TimeUnder(s.gantt, jobs[i].pid) == jobs[i].burst
  {
    forall i | 0 <= i < |jobs|
      ensures Finished(s.procs[i], jobs[i].burst, jobs[i].arrival, TimeOf(s.gantt, s.owners, i))
      ensures StartTells(s.gantt, s.owners, i, s.procs[i].startTime, s.procs[i].completion)
    {
      assert Arrival(Times(jobs)[i], i) in arrivals;
      assert BookAt(jobs, s, i);
    }
    WorkBound(s.procs, Bursts(jobs));
    if Distinct(Pids(jobs)) {
      forall i | 0 <= i < |jobs|
        ensures TimeUnder(s.gantt, jobs[i].pid) == jobs[i].burst
      {
        LabelsTell(s.gantt, s.owners, Pids(jobs), i);
      }
    }
  }
}
