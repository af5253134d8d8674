/** Whole runs of the multicore simulator: what the policies promise, how a run
    ends, and that round robin starves nobody. */
module MulticoreRuns {
  import opened MulticoreState
  import opened MulticoreDispatch
  import opened MulticoreRoundRobin
  import opened MulticoreStamps
  import RR = RoundRobin

  datatype Interrupt = None | Io(duration: int)

  datatype Policy = Fifo | Sjf | Srtcf | RoundRobin(quantum: int) | HighestPriority

  /** What each policy promises of a dispatch. */
  ghost predicate DispatchedBy(policy: Policy, s: Sim, s': Sim)
  {
    && Dispatched(s, s') && AllStamped(s, s')
    && (-1 !in s'.core || s'.ready == [])
    && match policy
       case Fifo => Filled(s, s', First)
       case Sjf => Filled(s, s', Smallest(Burst))
       case Srtcf => NothingToPreempt(s', Remaining)
       case RoundRobin(quantum) => View(s') == RR.Dispatch(View(s), quantum)
       case HighestPriority => NothingToPreempt(s', Priority) && BestFirst(s, s', Priority)
  }

  function InterruptCore(s: Sim, draw: Interrupt, c: nat): (s': Sim)
    requires c < |s.core|
    ensures |s'.core| == |s.core| && |s'.threads| == |s.threads| && s'.now == s.now
  {
    if draw.Io? && 0 <= s.core[c] < |s.threads| then Block(s, c, s.now + draw.duration) else s
  }

  /** The threads on cores before `c` for which the draw says so have started I/O. */
  function Interrupted(s: Sim, draws: seq<Interrupt>, c: nat): (s': Sim)
    requires c <= |s.core| == |draws|
    ensures |s'.core| == |s.core| && |s'.threads| == |s.threads| && s'.now == s.now
  {
    if c == 0 then s else InterruptCore(Interrupted(s, draws, c - 1), draws[c - 1], c - 1)
  }

  lemma InterruptKeeps(s: Sim, io: seq<int>, draw: Interrupt, c: nat, s': Sim)
    requires Good(s, io) && c < |s.core| && s' == InterruptCore(s, draw, c)
    ensures Good(s', io)
  {
    if draw.Io? && 0 <= s.core[c] < |s.threads| {
      BlockKeeps(s, io, c, s.now + draw.duration);
    }
  }

  lemma {:induction false} InterruptedKeeps(s: Sim, io: seq<int>, draws: seq<Interrupt>, c: nat)
    requires Good(s, io) && c <= |s.core| == |draws|
    ensures Good(Interrupted(s, draws, c), io)
  {
    if c > 0 {
      InterruptedKeeps(s, io, draws, c - 1);
      var p := Interrupted(s, draws, c - 1);
      InterruptKeeps(p, io, draws[c - 1], c - 1, Interrupted(s, draws, c));
    }
  }

  function NoInterrupts(n: nat): (r: seq<Interrupt>)
    ensures |r| == n && forall c :: 0 <= c < n ==> r[c] == None
  {
    seq(n, c => None)
  }

  lemma {:induction false} NotInterrupted(s: Sim, c: nat)
    requires c <= |s.core|
    ensures Interrupted(s, NoInterrupts(|s.core|), c) == s
  {
    if c > 0 {
      NotInterrupted(s, c - 1);
    }
  }

  /** One tick, from loop head to loop head, with the state `d` just after its dispatch. */
  ghost predicate Ticks(policy: Policy, draws: seq<Interrupt>, s: Sim, d: Sim, s': Sim)
    requires |draws| == |s.core|
  {
    DispatchedBy(policy, Interrupted(Resolve(Admit(s)), draws, |s.core|), d) && s' == TickWork(d)
  }

  lemma ClockAdvances(policy: Policy, draws: seq<Interrupt>, s: Sim, d: Sim, s': Sim)
    requires |draws| == |s.core| && Ticks(policy, draws, s, d, s')
    ensures s'.now == s.now + 1 && |s'.core| == |s.core| && |s'.threads| == |s.threads|
  {
    assert |d.core| == |s.core|;
  }

  lemma QuietDispatch(policy: Policy, s: Sim, d: Sim, s': Sim)
    requires Ticks(policy, NoInterrupts(|s.core|), s, d, s')
    ensures DispatchedBy(policy, Resolve(Admit(s)), d) && s' == TickWork(d)
  {
    NotInterrupted(Resolve(Admit(s)), |s.core|);
  }

  // ----- What the preemptive policies achieve

  ghost predicate NaturalPriorities(threads: seq<Thread>)
  {
    forall i :: 0 <= i < |threads| ==> threads[i].priority >= 0
  }

  lemma {:induction false} InterruptsKeepPriorities(s: Sim, draws: seq<Interrupt>, c: nat)
    requires c <= |s.core| == |draws| && NaturalPriorities(s.threads)
    ensures NaturalPriorities(Interrupted(s, draws, c).threads)
  {
    if c > 0 {
      InterruptsKeepPriorities(s, draws, c - 1);
    }
  }

  /** Priorities that start out non-negative stay so: decay stops at zero. */
  lemma TickKeepsPriorities(policy: Policy, draws: seq<Interrupt>, s: Sim, d: Sim, s': Sim)
    requires |draws| == |s.core| && Ticks(policy, draws, s, d, s') && NaturalPriorities(s.threads)
    ensures NaturalPriorities(d.threads) && NaturalPriorities(s'.threads)
  {
    InterruptsKeepPriorities(Resolve(Admit(s)), draws, |s.core|);
    DispatchKeepsPriorities(Interrupted(Resolve(Admit(s)), draws, |s.core|), d);
    WorkKeepsPriorities(d);
  }

  lemma DispatchKeepsPriorities(s: Sim, d: Sim)
    requires Dispatched(s, d) && NaturalPriorities(s.threads)
    ensures NaturalPriorities(d.threads)
  {
    forall i | 0 <= i < |d.threads|
      ensures d.threads[i].priority >= 0
    {
      assert SameWork(s.threads[i], d.threads[i]);
    }
  }

  lemma WorkKeepsPriorities(d: Sim)
    requires NaturalPriorities(d.threads)
    ensures NaturalPriorities(TickWork(d).threads)
  {
    var b := Decay(CpuStep(Bump(d)));
    assert NaturalPriorities(b.threads);
    if |d.core| > 0 {
      CollectedCore(b, |d.core|, 0);
    }
  }

  /** No ready thread has less remaining time than a running one after an SRTCF dispatch. */
  lemma NobodyIsShorterThanRunning(s: Sim, d: Sim, io: seq<int>, c: nat, j: int)
    requires DispatchedBy(Srtcf, s, d) && Good(d, io)
    requires c < |d.core| && d.core[c] != -1 && j in d.ready
    ensures 0 <= d.core[c] < |d.threads| && 0 <= j < |d.threads|
    ensures d.threads[d.core[c]].remaining <= d.threads[j].remaining
  {
    GoodIsIndexed(d);
    assert d.core[c] in d.core;
    assert Accounted(d, io, d.core[c]);
    assert RunKey(d.threads, d.core[c], Remaining) <= RunKey(d.threads, j, Remaining);
  }

  /** Whoever an SJF dispatch puts on an idle core has no longer a burst than anybody it leaves ready. */
  lemma NobodyReadyIsShorter(s: Sim, d: Sim, c: nat, j: int)
    requires EachOnce(s) && DispatchedBy(Sjf, s, d)
    requires c < |s.core| && s.core[c] == -1 && d.core[c] != -1 && j in d.ready
    ensures 0 <= d.core[c] < |d.threads| && 0 <= j < |d.threads|
    ensures d.threads[d.core[c]].burst <= d.threads[j].burst
  {
    GoodIsIndexed(s);
    FilledWithLeast(s, d, Smallest(Burst), c, j);
  }

  /** What is running with a priority number from 0 up has none larger than anybody left ready. */
  lemma NobodyReadyIsBetter(s: Sim, d: Sim, c: nat, j: int)
    requires EachOnce(s) && DispatchedBy(HighestPriority, s, d)
    requires c < |d.core| && d.core[c] != -1 && j in d.ready
    ensures 0 <= d.core[c] < |d.threads| && 0 <= j < |d.threads|
    ensures d.threads[d.core[c]].priority <= d.threads[j].priority || d.threads[d.core[c]].priority < 0
  {
    GoodIsIndexed(s);
    DispatchedIndexed(s, d);
    assert RunKey(d.threads, d.core[c], Priority) <= RunKey(d.threads, j, Priority)
           || RunKey(d.threads, d.core[c], Priority) <= -1;
  }

  // ----- The start of a run

  datatype Job = Job(arrival: int, burst: int, priority: int)

  function MakeThread(tid: int, job: Job): Thread
  {
    Thread(tid, job.arrival, job.burst, job.burst, New, -1, -1, -1, 0, 0, job.priority)
  }

  function Naturals(n: nat): (r: seq<int>)
    ensures |r| == n && forall i :: 0 <= i < n ==> r[i] == i
  {
    if n == 0 then [] else Naturals(n - 1) + [n - 1]
  }

  lemma {:induction false} NaturalsOnce(n: nat, i: int)
    ensures multiset(Naturals(n))[i] == if 0 <= i < n then 1 else 0
  {
    if n > 0 {
      NaturalsOnce(n - 1, i);
      var before := Naturals(n - 1);
      assert multiset(before + [n - 1])[i] == multiset(before)[i] + multiset([n - 1])[i];
    }
  }

  lemma AllIdle(core: seq<int>, i: int)
    requires forall c :: 0 <= c < |core| ==> core[c] == -1
    ensures OnCores(core)[i] == 0
  {
    assert i in core ==> i == -1;
  }

  lemma StartIsOnce(s: Sim)
    requires s.workload == Naturals(|s.threads|) && s.ready == s.waiting == s.finished == []
    requires forall c :: 0 <= c < |s.core| ==> s.core[c] == -1
    ensures EachOnce(s)
  {
    forall i: int
      ensures Everyone(s)[i] == if 0 <= i < |s.threads| then 1 else 0
    {
      NaturalsOnce(|s.threads|, i);
      AllIdle(s.core, i);
    }
  }

  /** Everybody still in the workload, every core idle. */
  function Start(jobs: seq<Job>, cores: nat): (s: Sim)
    ensures |s.threads| == |jobs| && forall j :: 0 <= j < |jobs| ==> s.threads[j] == MakeThread(j + 1, jobs[j])
    ensures |s.core| == cores && forall c :: 0 <= c < cores ==> s.core[c] == -1
  {
    Sim(seq(|jobs|, j requires 0 <= j < |jobs| => MakeThread(j + 1, jobs[j])), seq(cores, _ => -1), Naturals(|jobs|),
        [], [], [], 0)
  }

  lemma StartIsGood(jobs: seq<Job>, cores: nat, io: seq<int>)
    requires |jobs| == |io|
    requires forall j :: 0 <= j < |jobs| ==> jobs[j].burst >= 1 && io[j] == 0
    ensures Good(Start(jobs, cores), io) && StillToCome(Start(jobs, cores), 0)
  {
    var s := Start(jobs, cores);
    StartIsOnce(s);
    forall i | 0 <= i < |s.threads|
      ensures Accounted(s, io, i) && i in s.workload
    {
      assert s.workload[i] == i;
      PlacedOnce(s, i);
    }
  }

  // ----- The end of a run

  predicate Drained(s: Sim)
  {
    s.ready == [] && s.waiting == [] && forall c :: 0 <= c < |s.core| ==> s.core[c] == -1
  }

  function WorkLeft(threads: seq<Thread>): nat
  {
    if threads == [] then 0
    else
      var t := threads[|threads| - 1];
      WorkLeft(threads[..|threads| - 1]) + if t.remaining > 0 then t.remaining else 0
  }

  lemma {:induction false} WorkShrinks(a: seq<Thread>, b: seq<Thread>, i: int)
    requires |a| == |b| && forall j :: 0 <= j < |a| ==> b[j].remaining <= a[j].remaining
    ensures WorkLeft(b) <= WorkLeft(a)
    ensures 0 <= i < |a| && a[i].remaining > 0 && b[i].remaining < a[i].remaining ==> WorkLeft(b) < WorkLeft(a)
  {
    if a != [] {
      WorkShrinks(a[..|a| - 1], b[..|a| - 1], i);
    }
  }

  lemma WorkStays(a: seq<Thread>, b: seq<Thread>)
    requires |a| == |b| && forall j :: 0 <= j < |a| ==> b[j].remaining == a[j].remaining
    ensures WorkLeft(b) == WorkLeft(a)
  {
    WorkShrinks(a, b, -1);
    WorkShrinks(b, a, -1);
  }

  lemma TickWorkThread(s: Sim, i: int)
    requires 0 <= i < |s.threads|
    ensures var s' := TickWork(s);
            |s'.threads| == |s.threads|
            && s'.threads[i].remaining == (if i in s.core then Worked(s.threads[i]) else s.threads[i]).remaining
            && s'.threads[i].arrival == s.threads[i].arrival
            && s'.ready == s.ready && s'.waiting == s.waiting && s'.workload == s.workload && s'.now == s.now + 1
            && |s'.core| == |s.core|
  {
    if |s.core| > 0 {
      CollectedCore(Decay(CpuStep(Bump(s))), |s.core|, 0);
    }
  }

  lemma SomeCoreIsBusy(s: Sim) returns (c: nat)
    requires |s.core| >= 1 && s.waiting == [] && (-1 !in s.core || s.ready == []) && !Drained(TickWork(s))
    ensures c < |s.core| && s.core[c] != -1
  {
    var b := Decay(CpuStep(Bump(s)));
    var s' := Collect(b, |s.core|);
    c := 0;
    if s.ready == [] {
      c :| c < |s'.core| && s'.core[c] != -1;
      CollectedCore(b, |s.core|, c);
    }
  }

  /** A tick that leaves something active has done some work, if nobody is kept waiting for a core that is idle. */
  lemma WorkIsDone(s: Sim, io: seq<int>)
    requires Good(s, io) && |s.core| >= 1 && s.waiting == [] && (-1 !in s.core || s.ready == [])
    requires !Drained(TickWork(s))
    ensures WorkLeft(TickWork(s).threads) < WorkLeft(s.threads)
  {
    var c := SomeCoreIsBusy(s);
    var s', i := TickWork(s), s.core[c];
    assert i in s.core;
    PlacedOnce(s, i);
    assert Accounted(s, io, i);
    forall j | 0 <= j < |s.threads|
      ensures s'.threads[j].remaining <= s.threads[j].remaining
      ensures j == i ==> s'.threads[j].remaining < s.threads[j].remaining
    {
      TickWorkThread(s, j);
    }
    WorkShrinks(s.threads, s'.threads, i);
  }

  // ----- Who has been admitted

  /** The workload holds exactly the threads that did not arrive at one of the ticks before `upto`. */
  ghost predicate StillToCome(s: Sim, upto: int)
  {
    forall i :: 0 <= i < |s.threads| ==> (i in s.workload <==> !(0 <= s.threads[i].arrival < upto))
  }

  lemma AdmitTakes(s: Sim, upto: int)
    requires StillToCome(s, upto) && upto <= s.now + 1 && s.now >= 0
    requires upto >= s.now
    ensures StillToCome(Admit(s), s.now + 1)
  {
    FilterSplits(s.workload, IsDue(s.threads, s.now));
    forall i | 0 <= i < |s.threads|
      ensures i in Admit(s).workload <==> !(0 <= s.threads[i].arrival < s.now + 1)
    {
    }
  }

  lemma ComingStays(s: Sim, s': Sim, upto: int)
    requires StillToCome(s, upto) && |s.threads| == |s'.threads| && s'.workload == s.workload
    requires forall i :: 0 <= i < |s.threads| ==> s'.threads[i].arrival == s.threads[i].arrival
    ensures StillToCome(s', upto)
  {
    forall i | 0 <= i < |s'.threads|
      ensures i in s'.workload <==> !(0 <= s'.threads[i].arrival < upto)
    {
      assert s'.threads[i].arrival == s.threads[i].arrival;
    }
  }

  /** When a run has drained, exactly the threads that arrived at one of its ticks have finished, each
      having spent its time since arrival on its burst, in the ready queue, or waiting for I/O. */
  lemma WhoHasFinished(s: Sim, io: seq<int>, i: int)
    requires Good(s, io) && Drained(s) && StillToCome(s, s.now) && 0 <= i < |s.threads|
    ensures i in s.finished <==> 0 <= s.threads[i].arrival < s.now
    ensures i in s.finished ==> Settled(s.threads[i], io[i])
  {
    assert Everyone(s)[i] == 1;
    assert i !in s.core;
    assert Everyone(s)[i] == multiset(s.workload)[i] + multiset(s.ready)[i] + multiset(s.waiting)[i]
                             + multiset(s.finished)[i] + OnCores(s.core)[i];
    assert OnCores(s.core)[i] == multiset(s.core)[i];
    PlacedOnce(s, i);
    assert Accounted(s, io, i);
  }

  // ----- Runs without interrupts

  lemma SameWorkEverywhere(s: Sim, d: Sim)
    requires Dispatched(Resolve(Admit(s)), d)
    ensures |d.threads| == |s.threads| && |d.core| == |s.core| && d.now == s.now
    ensures forall j :: 0 <= j < |s.threads| ==>
      d.threads[j].remaining == s.threads[j].remaining && d.threads[j].arrival == s.threads[j].arrival
  {
    forall j | 0 <= j < |s.threads|
      ensures d.threads[j].remaining == s.threads[j].remaining && d.threads[j].arrival == s.threads[j].arrival
    {
      assert SameWork(Resolve(Admit(s)).threads[j], d.threads[j]);
    }
  }

  /** With interrupts off: nobody waits for I/O, arrivals are on time, and work is done unless all has drained. */
  lemma QuietTick(policy: Policy, s: Sim, d: Sim, s': Sim, io: seq<int>, upto: int)
    requires Good(s, io) && Good(d, io) && s.waiting == [] && |s.core| >= 1
    requires Ticks(policy, NoInterrupts(|s.core|), s, d, s')
    requires StillToCome(s, upto) && 0 <= s.now <= upto <= s.now + 1
    ensures DispatchedBy(policy, Resolve(Admit(s)), d) && s' == TickWork(d)
    ensures s'.waiting == [] && IoAfter(d, io) == io && StillToCome(s', s'.now)
    ensures !Drained(s') ==> WorkLeft(s'.threads) < WorkLeft(s.threads)
  {
    QuietDispatch(policy, s, d, s');
    SameWorkEverywhere(s, d);
    QuietWork(s, d, io);
    QuietArrivals(s, d, upto);
  }

  lemma QuietWork(s: Sim, d: Sim, io: seq<int>)
    requires Good(d, io) && d.waiting == [] && |d.core| >= 1 && (-1 !in d.core || d.ready == [])
    requires |d.threads| == |s.threads|
    requires forall j :: 0 <= j < |s.threads| ==> d.threads[j].remaining == s.threads[j].remaining
    ensures !Drained(TickWork(d)) ==> WorkLeft(TickWork(d).threads) < WorkLeft(s.threads)
  {
    WorkStays(s.threads, d.threads);
    if !Drained(TickWork(d)) {
      WorkIsDone(d, io);
    }
  }

  lemma QuietArrivals(s: Sim, d: Sim, upto: int)
    requires StillToCome(s, upto) && 0 <= s.now <= upto <= s.now + 1
    requires d.workload == Admit(s).workload && d.now == s.now && |d.threads| == |s.threads|
    requires forall j :: 0 <= j < |s.threads| ==> d.threads[j].arrival == s.threads[j].arrival
    ensures StillToCome(TickWork(d), s.now + 1) && TickWork(d).now == s.now + 1
  {
    AdmitTakes(s, upto);
    ComingStays(Admit(s), d, s.now + 1);
    forall j | 0 <= j < |d.threads|
      ensures |TickWork(d).threads| == |d.threads| && TickWork(d).threads[j].arrival == d.threads[j].arrival
    {
      TickWorkThread(d, j);
    }
    ComingStays(d, TickWork(d), s.now + 1);
  }

  ghost predicate ChainAt(policy: Policy, trace: seq<Sim>, t: nat)
    requires t + 1 < |trace|
  {
    DispatchedBy(policy, Between(trace[t]), trace[t + 1])
  }

  ghost predicate OnceAt(trace: seq<Sim>, t: nat)
    requires t < |trace|
  {
    EachOnce(trace[t])
  }

  /** The states just after each dispatch of a run without interrupts. */
  ghost predicate Chain(policy: Policy, trace: seq<Sim>)
  {
    AllOnce(trace) && Linked(policy, trace)
  }

  ghost predicate AllOnce(trace: seq<Sim>)
  {
    forall t :: 0 <= t < |trace| ==> OnceAt(trace, t)
  }

  ghost predicate Linked(policy: Policy, trace: seq<Sim>)
  {
    forall t :: 0 <= t < |trace| - 1 ==> ChainAt(policy, trace, t)
  }

  /** The first dispatch of round robin, onto idle cores. */
  ghost predicate FairStart(policy: Policy, d: Sim)
  {
    policy.RoundRobin? ==> RR.Starts(View(d), RR.FullSlice(policy.quantum))
  }

  lemma StartsFair(policy: Policy, s: Sim, d: Sim)
    requires Indexed(s) && DispatchedBy(policy, s, d) && forall c :: 0 <= c < |s.core| ==> s.core[c] == -1
    ensures FairStart(policy, d)
  {
    if policy.RoundRobin? {
      if -1 in s.ready {
        assert false;
      }
      RR.DispatchServes(View(s), policy.quantum);
    }
  }

  lemma FirstDispatch(policy: Policy, s: Sim, d: Sim, io: seq<int>)
    requires Good(s, io) && DispatchedBy(policy, Resolve(Admit(s)), d)
    requires forall c :: 0 <= c < |s.core| ==> s.core[c] == -1
    ensures FairStart(policy, d)
  {
    AdmitKeeps(s, io);
    ResolveKeeps(Admit(s), io);
    GoodIsIndexed(Resolve(Admit(s)));
    StartsFair(policy, Resolve(Admit(s)), d);
  }

  lemma ChainLonger(policy: Policy, trace: seq<Sim>, d: Sim, longer: seq<Sim>)
    requires Chain(policy, trace) && EachOnce(d) && longer == trace + [d]
    requires trace != [] ==> DispatchedBy(policy, Between(trace[|trace| - 1]), d)
    ensures Chain(policy, longer)
  {
    AllOnceGoesOn(trace, d, longer);
    if trace != [] {
      LastChainAt(policy, trace, d, longer);
    }
    LinkedGoesOn(policy, trace, d, longer);
  }

  lemma AllOnceGoesOn(trace: seq<Sim>, d: Sim, longer: seq<Sim>)
    requires AllOnce(trace) && EachOnce(d) && longer == trace + [d]
    ensures AllOnce(longer)
  {
    forall t | 0 <= t < |longer|
      ensures OnceAt(longer, t)
    {
      if t < |trace| {
        SameOnceAt(trace, longer, t);
      }
    }
  }

  lemma LinkedGoesOn(policy: Policy, trace: seq<Sim>, d: Sim, longer: seq<Sim>)
    requires Linked(policy, trace) && longer == trace + [d]
    requires trace != [] ==> ChainAt(policy, longer, |trace| - 1)
    ensures Linked(policy, longer)
  {
    forall t | 0 <= t < |trace| - 1
      ensures ChainAt(policy, longer, t)
    {
      EarlierChainAt(policy, trace, longer, t);
    }
  }

  lemma EarlierChainAt(policy: Policy, trace: seq<Sim>, longer: seq<Sim>, t: nat)
    requires Linked(policy, trace) && t + 1 < |trace| < |longer|
    requires longer[t] == trace[t] && longer[t + 1] == trace[t + 1]
    ensures ChainAt(policy, longer, t)
  {
    assert ChainAt(policy, trace, t);
    SameChainAt(policy, trace, longer, t);
  }

  lemma SameOnceAt(a: seq<Sim>, b: seq<Sim>, t: nat)
    requires t < |a| && t < |b| && a[t] == b[t] && OnceAt(a, t)
    ensures OnceAt(b, t)
  {
  }

  lemma LastChainAt(policy: Policy, trace: seq<Sim>, d: Sim, longer: seq<Sim>)
    requires trace != [] && longer == trace + [d] && DispatchedBy(policy, Between(trace[|trace| - 1]), d)
    ensures ChainAt(policy, longer, |trace| - 1)
  {
  }

  lemma SameChainAt(policy: Policy, a: seq<Sim>, b: seq<Sim>, t: nat)
    requires t + 1 < |a| && t + 1 < |b| && a[t] == b[t] && a[t + 1] == b[t + 1] && ChainAt(policy, a, t)
    ensures ChainAt(policy, b, t)
  {
  }

  /** At the head of the loop: the states after each dispatch so far, and who has been admitted. */
  ghost predicate RunSoFar(policy: Policy, s: Sim, io: seq<int>, trace: seq<Sim>)
  {
    && Good(s, io) && s.waiting == [] && s.now == |trace| && |s.core| >= 1
    && StillToCome(s, if trace == [] then 1 else s.now)
    && Chain(policy, trace)
    && if trace == [] then forall c :: 0 <= c < |s.core| ==> s.core[c] == -1
       else FairStart(policy, trace[0]) && s == TickWork(trace[|trace| - 1])
  }

  lemma RunGoesOn(policy: Policy, s: Sim, io: seq<int>, trace: seq<Sim>, d: Sim, s': Sim)
    requires RunSoFar(policy, s, io, trace) && Ticks(policy, NoInterrupts(|s.core|), s, d, s')
    requires Good(d, io) && Good(s', IoAfter(d, io))
    ensures RunSoFar(policy, s', io, trace + [d]) && IoAfter(d, io) == io
    ensures !Drained(s') ==> WorkLeft(s'.threads) < WorkLeft(s.threads)
  {
    QuietTick(policy, s, d, s', io, if trace == [] then 1 else s.now);
    ClockAdvances(policy, NoInterrupts(|s.core|), s, d, s');
    if trace == [] {
      FirstDispatch(policy, s, d, io);
    }
    ChainLonger(policy, trace, d, trace + [d]);
  }

  ghost function Views(trace: seq<Sim>): (r: seq<RR.RR>)
    ensures |r| == |trace| && forall t :: 0 <= t < |trace| ==> r[t] == View(trace[t])
  {
    seq(|trace|, t requires 0 <= t < |trace| => View(trace[t]))
  }

  ghost function Dones(trace: seq<Sim>): (r: seq<set<int>>)
    ensures |r| == |trace| && forall t :: 0 <= t < |trace| ==> r[t] == DoneCores(trace[t])
  {
    seq(|trace|, t requires 0 <= t < |trace| => DoneCores(trace[t]))
  }

  ghost function Arrivals(trace: seq<Sim>): (r: seq<seq<int>>)
    ensures |r| == |trace| && forall t :: 0 <= t < |trace| ==> r[t] == Joining(TickWork(trace[t]))
  {
    seq(|trace|, t requires 0 <= t < |trace| => Joining(TickWork(trace[t])))
  }

  lemma NobodyIsMinusOne(s: Sim)
    requires EachOnce(s)
    ensures -1 !in Joining(TickWork(s))
  {
    var t := TickWork(s);
    GoodIsIndexed(s);
    FilterSplits(t.workload, IsDue(t.threads, t.now));
    FilterSplits(t.waiting, IsUnblocked(Admit(t).threads, t.now));
    assert -1 !in s.workload && -1 !in s.waiting;
  }

  lemma ChainIsRun(trace: seq<Sim>, quantum: int)
    requires Chain(RoundRobin(quantum), trace)
    ensures RR.IsRun(Views(trace), Dones(trace), Arrivals(trace), quantum)
  {
    var run, done, arrivals := Views(trace), Dones(trace), Arrivals(trace);
    forall t | 0 <= t < |run| - 1
      ensures RR.RunAt(run, done, arrivals, quantum, t)
    {
      assert OnceAt(trace, t) && ChainAt(RoundRobin(quantum), trace, t);
      GoodIsIndexed(trace[t]);
      NobodyIsMinusOne(trace[t]);
      BetweenIsARound(trace[t]);
    }
  }

  // ----- Nobody starves

  /** Round robin starves nobody: in a run that goes on until everything has drained, the thread with `k` others ahead
      of it in the ready queue after a dispatch is on a core within (k / cores + 1) quanta. */
  lemma NobodyStarves(trace: seq<Sim>, quantum: int, from: nat, k: nat) returns (at: nat)
    requires Chain(RoundRobin(quantum), trace)
    requires |trace| > 0 && FairStart(RoundRobin(quantum), trace[0]) && Drained(TickWork(trace[|trace| - 1]))
    requires from < |trace| && |trace[from].core| >= 1 && k < |trace[from].ready|
    ensures from <= at < |trace| && at <= from + (k / |trace[from].core| + 1) * RR.FullSlice(quantum)
    ensures trace[from].ready[k] in trace[at].core
  {
    RunIsComplete(trace, quantum);
    at := ServedInTime(Views(trace), Dones(trace), Arrivals(trace), trace, quantum, from, k);
  }

  lemma RunIsComplete(trace: seq<Sim>, quantum: int)
    requires Chain(RoundRobin(quantum), trace)
    requires |trace| > 0 && FairStart(RoundRobin(quantum), trace[0]) && Drained(TickWork(trace[|trace| - 1]))
    ensures RR.IsComplete(Views(trace), Dones(trace), Arrivals(trace), quantum)
  {
    ChainIsRun(trace, quantum);
    LastIsEmpty(trace);
    ViewsStart(trace, quantum);
  }

  lemma LastIsEmpty(trace: seq<Sim>)
    requires |trace| > 0 && Drained(TickWork(trace[|trace| - 1]))
    ensures RR.EndsEmpty(Views(trace))
  {
    var last := trace[|trace| - 1];
    assert TickWork(last).ready == last.ready;
  }

  lemma ViewsStart(trace: seq<Sim>, quantum: int)
    requires |trace| > 0 && FairStart(RoundRobin(quantum), trace[0])
    ensures RR.Starts(Views(trace)[0], RR.FullSlice(quantum))
  {
  }

  lemma ServedInTime(run: seq<RR.RR>, done: seq<set<int>>, arrivals: seq<seq<int>>, trace: seq<Sim>, quantum: int,
                     from: nat, k: nat)
    returns (at: nat)
    requires RR.IsComplete(run, done, arrivals, quantum) && run == Views(trace)
    requires from < |trace| && |trace[from].core| >= 1 && k < |trace[from].ready|
    ensures from <= at < |trace| && at <= from + (k / |trace[from].core| + 1) * RR.FullSlice(quantum)
    ensures trace[from].ready[k] in trace[at].core
  {
    at := RR.NobodyLeftWaiting(run, done, arrivals, quantum, |trace[from].core|, from, k);
  }
}
