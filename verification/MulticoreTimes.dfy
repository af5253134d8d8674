/** What the histories of the multicore simulator say of single threads: whom each
    dispatch prefers, when a thread first runs, and what its recorded state tells. */
module MulticoreTimes {
  import opened MulticoreState
  import opened MulticoreDispatch
  import opened MulticoreStamps
  import opened MulticoreRuns
  import opened MulticoreEnds
  import opened MulticoreHistory

  // ----- The state just before a dispatch

  /** After arrivals, returns from I/O and the draws, just before the dispatch of tick `t`. */
  ghost function Undispatched(draws: seq<seq<Interrupt>>, h: History, t: nat): Sim
    requires t < |h.heads| && t < |draws| && |draws[t]| == |h.heads[t].core|
  {
    Interrupted(Resolve(Admit(h.heads[t])), draws[t], |h.heads[t].core|)
  }

  /** The accounts balance at every loop head, before and after every dispatch. */
  lemma {:induction false} HistoryIsGood(policy: Policy, draws: seq<seq<Interrupt>>, h: History, t: nat)
    requires IsHistory(policy, draws, h) && Good(h.heads[0], h.ios[0]) && t <= |h.dispatches|
    ensures Good(h.heads[t], h.ios[t])
  {
    if t > 0 {
      HistoryIsGood(policy, draws, h, t - 1);
      GoodForATick(policy, draws, h, t - 1);
    }
  }

  lemma GoodForATick(policy: Policy, draws: seq<seq<Interrupt>>, h: History, t: nat)
    requires IsHistory(policy, draws, h) && t < |h.dispatches| && Good(h.heads[t], h.ios[t])
    ensures |draws[t]| == |h.heads[t].core| && Good(Undispatched(draws, h, t), h.ios[t])
    ensures Good(h.dispatches[t], h.ios[t]) && Good(h.heads[t + 1], h.ios[t + 1])
  {
    assert TicksAt(policy, draws, h, t);
    var s, io := h.heads[t], h.ios[t];
    AdmitKeeps(s, io);
    ResolveKeeps(Admit(s), io);
    InterruptedKeeps(Resolve(Admit(s)), io, draws[t], |s.core|);
    DispatchKeeps(Undispatched(draws, h, t), h.dispatches[t], io);
    TickWorkKeeps(h.dispatches[t], io);
  }

  /** In every run with shortest job first: whoever is put on an idle core has no longer a burst than anybody who is
      left in the ready queue. */
  lemma ShortestJobsFirst(draws: seq<seq<Interrupt>>, h: History, t: nat, c: nat, j: int)
    requires IsHistory(Sjf, draws, h) && Good(h.heads[0], h.ios[0]) && t < |h.dispatches|
    requires |draws[t]| == |h.heads[t].core| && c < |h.heads[t].core|
    requires Undispatched(draws, h, t).core[c] == -1
    requires c < |h.dispatches[t].core| && h.dispatches[t].core[c] != -1 && j in h.dispatches[t].ready
    ensures var d := h.dispatches[t];
            0 <= d.core[c] < |d.threads| && 0 <= j < |d.threads| && d.threads[d.core[c]].burst <= d.threads[j].burst
  {
    HistoryIsGood(Sjf, draws, h, t);
    GoodForATick(Sjf, draws, h, t);
    assert TicksAt(Sjf, draws, h, t);
    NobodyReadyIsShorter(Undispatched(draws, h, t), h.dispatches[t], c, j);
  }

  /** In every run with shortest remaining time first nobody running has more left to do than anybody ready. */
  lemma ShortestRemainingFirst(draws: seq<seq<Interrupt>>, h: History, t: nat, c: nat, j: int)
    requires IsHistory(Srtcf, draws, h) && Good(h.heads[0], h.ios[0]) && t < |h.dispatches|
    requires c < |h.dispatches[t].core| && h.dispatches[t].core[c] != -1 && j in h.dispatches[t].ready
    ensures var d := h.dispatches[t];
            && 0 <= d.core[c] < |d.threads| && 0 <= j < |d.threads|
            && d.threads[d.core[c]].remaining <= d.threads[j].remaining
  {
    HistoryIsGood(Srtcf, draws, h, t);
    GoodForATick(Srtcf, draws, h, t);
    assert TicksAt(Srtcf, draws, h, t);
    NobodyIsShorterThanRunning(Undispatched(draws, h, t), h.dispatches[t], h.ios[t], c, j);
  }

  /** In every run by priority nobody running has a larger priority number than anybody ready, unless it is negative. */
  lemma BestPriorityFirst(draws: seq<seq<Interrupt>>, h: History, t: nat, c: nat, j: int)
    requires IsHistory(HighestPriority, draws, h) && Good(h.heads[0], h.ios[0]) && t < |h.dispatches|
    requires c < |h.dispatches[t].core| && h.dispatches[t].core[c] != -1 && j in h.dispatches[t].ready
    ensures var d := h.dispatches[t];
            && 0 <= d.core[c] < |d.threads| && 0 <= j < |d.threads|
            && (d.threads[d.core[c]].priority <= d.threads[j].priority || d.threads[d.core[c]].priority < 0)
  {
    HistoryIsGood(HighestPriority, draws, h, t);
    GoodForATick(HighestPriority, draws, h, t);
    assert TicksAt(HighestPriority, draws, h, t);
    NobodyReadyIsBetter(Undispatched(draws, h, t), h.dispatches[t], c, j);
  }

  // ----- One thread through one tick

  lemma {:induction false} InterruptedThread(s: Sim, draws: seq<Interrupt>, c: nat, i: int)
    requires c <= |s.core| == |draws| && 0 <= i < |s.threads|
    ensures var p := Interrupted(s, draws, c);
            && p.threads[i].startTime == s.threads[i].startTime && p.threads[i].priority == s.threads[i].priority
            && (forall d :: 0 <= d < |s.core| ==> p.core[d] == s.core[d] || p.core[d] == -1)
            && p.ready == s.ready
  {
    if c > 0 {
      InterruptedThread(s, draws, c - 1, i);
    }
  }

  lemma WorkedThread(d: Sim, i: int)
    requires 0 <= i < |d.threads|
    ensures var s', p := TickWork(d), d.threads[i].priority;
            && |s'.threads| == |d.threads| && s'.threads[i].startTime == d.threads[i].startTime
            && s'.threads[i].unblockedAt == d.threads[i].unblockedAt
            && (d.threads[i].quantaRem == 0 ==> s'.threads[i].quantaRem == 0)
            && s'.threads[i].priority == (if (i in d.ready || i in d.waiting) && p > 0 then p - 1 else p)
            && s'.waiting == d.waiting && s'.ready == d.ready && |s'.core| == |d.core|
  {
    if |d.core| > 0 {
      CollectedCore(Decay(CpuStep(Bump(d))), |d.core|, 0);
    }
  }

  // ----- Response times

  /** Thread `i` is on a core after the dispatch of tick `u`. */
  ghost predicate Runs(h: History, i: int, u: nat)
  {
    u < |h.dispatches| && i in h.dispatches[u].core
  }

  /** Tick `u`, before tick `t`, is the first at which thread `i` runs. */
  ghost predicate FirstRuns(h: History, i: int, t: nat, u: nat)
  {
    u < t && Runs(h, i, u) && forall v: nat :: v < u ==> !Runs(h, i, v)
  }

  ghost predicate NeverRuns(h: History, i: int, t: nat)
  {
    forall v: nat :: v < t ==> !Runs(h, i, v)
  }

  /** Neither on a core nor finished. */
  ghost predicate NotYet(s: Sim, i: int)
  {
    i !in s.core && i !in s.finished
  }

  /** What is known of the start time of thread `i` at the head of tick `t`. */
  ghost predicate StartIsFirst(h: History, i: int, t: nat)
    requires t < |h.heads| && 0 <= i < |h.heads[t].threads| && h.heads[0].now >= 0
  {
    var start := h.heads[t].threads[i].startTime;
    if start >= 0 then exists u :: FirstRuns(h, i, t, u) && start == h.heads[0].now + u
    else NeverRuns(h, i, t) && NotYet(h.heads[t], i)
  }

  lemma {:induction false} CollectedMembers(s: Sim, c: nat, i: int)
    requires c <= |s.core| && i != -1
    ensures i in Collect(s, c).finished ==> i in s.finished || i in s.core
    ensures i in Collect(s, c).core ==> i in s.core
  {
    if c > 0 {
      CollectedMembers(s, c - 1, i);
      var p := Collect(s, c - 1);
      assert p.core[c - 1] in p.core;
      OthersStayOn(p.core, c - 1, i);
    }
  }

  lemma {:induction false} InterruptedMembers(s: Sim, draws: seq<Interrupt>, c: nat, i: int)
    requires c <= |s.core| == |draws| && i != -1
    ensures i in Interrupted(s, draws, c).core ==> i in s.core
    ensures Interrupted(s, draws, c).finished == s.finished
  {
    if c > 0 {
      InterruptedMembers(s, draws, c - 1, i);
      OthersStayOn(Interrupted(s, draws, c - 1).core, c - 1, i);
    }
  }

  /** A thread gets its start time at the first tick it runs. */
  lemma StartForATick(policy: Policy, draws: seq<Interrupt>, s: Sim, d: Sim, s': Sim, i: int)
    requires |draws| == |s.core| && Ticks(policy, draws, s, d, s') && 0 <= i < |s.threads|
    requires s.threads[i].startTime >= 0 || NotYet(s, i)
    ensures |d.threads| == |s'.threads| == |s.threads|
    ensures var start := s.threads[i].startTime;
            s'.threads[i].startTime == if start < 0 && i in d.core then s.now else start
    ensures s.threads[i].startTime < 0 && i !in d.core ==> NotYet(s', i)
  {
    var r := Resolve(Admit(s));
    InterruptedThread(r, draws, |s.core|, i);
    InterruptedMembers(r, draws, |s.core|, i);
    assert Stamped(Interrupted(r, draws, |s.core|), d, i);
    WorkedThread(d, i);
    CollectedMembers(Decay(CpuStep(Bump(d))), |d.core|, i);
  }

  lemma FirstStays(h: History, i: int, t: nat, u: nat)
    requires FirstRuns(h, i, t, u)
    ensures FirstRuns(h, i, t + 1, u)
  {
  }

  lemma {:induction false} StartTimes(policy: Policy, draws: seq<seq<Interrupt>>, h: History, i: int, t: nat)
    requires IsHistory(policy, draws, h) && t <= |h.dispatches| && h.heads[0].now >= 0
    requires 0 <= i < |h.heads[0].threads| && h.heads[0].threads[i].startTime < 0 && NotYet(h.heads[0], i)
    ensures |h.heads[t].threads| == |h.heads[0].threads| && StartIsFirst(h, i, t)
  {
    if t > 0 {
      StartTimes(policy, draws, h, i, t - 1);
      StartTimesNext(policy, draws, h, i, t - 1);
    }
  }

  lemma StartTimesNext(policy: Policy, draws: seq<seq<Interrupt>>, h: History, i: int, u: nat)
    requires IsHistory(policy, draws, h) && u < |h.dispatches| && h.heads[0].now >= 0
    requires 0 <= i < |h.heads[u].threads| && StartIsFirst(h, i, u)
    ensures |h.heads[u + 1].threads| == |h.heads[u].threads| && StartIsFirst(h, i, u + 1)
  {
    HistoryFacts(policy, draws, h, u);
    assert TicksAt(policy, draws, h, u);
    StartForATick(policy, draws[u], h.heads[u], h.dispatches[u], h.heads[u + 1], i);
    StartStep(h, i, u);
  }

  lemma StartStep(h: History, i: int, u: nat)
    requires u < |h.dispatches| && |h.heads| == |h.dispatches| + 1 && h.heads[0].now >= 0
    requires h.heads[u].now == h.heads[0].now + u
    requires 0 <= i < |h.heads[u].threads| == |h.heads[u + 1].threads| && StartIsFirst(h, i, u)
    requires var start := h.heads[u].threads[i].startTime;
             && h.heads[u + 1].threads[i].startTime == (if start < 0 && Runs(h, i, u) then h.heads[u].now else start)
             && (start < 0 && !Runs(h, i, u) ==> NotYet(h.heads[u + 1], i))
    ensures StartIsFirst(h, i, u + 1)
  {
    var start := h.heads[u].threads[i].startTime;
    if start >= 0 {
      var v :| FirstRuns(h, i, u, v) && start == h.heads[0].now + v;
      FirstStays(h, i, u, v);
    } else if Runs(h, i, u) {
      assert FirstRuns(h, i, u + 1, u);
    }
  }

  /** In every run a thread that has finished has run, and its start time, on which its response time is reckoned, is
      the first tick at which it ran. */
  lemma ResponseTime(policy: Policy, draws: seq<seq<Interrupt>>, h: History, i: int, t: nat) returns (u: nat)
    requires IsHistory(policy, draws, h) && t <= |h.dispatches| && h.heads[0].now >= 0
    requires 0 <= i < |h.heads[0].threads| && h.heads[0].threads[i].startTime < 0 && NotYet(h.heads[0], i)
    requires i in h.heads[t].finished
    ensures FirstRuns(h, i, t, u) && |h.heads[t].threads| == |h.heads[0].threads|
    ensures h.heads[t].threads[i].startTime == h.heads[0].now + u
  {
    StartTimes(policy, draws, h, i, t);
    u :| FirstRuns(h, i, t, u) && h.heads[t].threads[i].startTime == h.heads[0].now + u;
  }

  // ----- Labels

  ghost predicate LabelsOk(s: Sim)
  {
    forall i :: 0 <= i < |s.threads| ==> LabelOk(s, i)
  }

  lemma AdmitLabels(s: Sim)
    requires EachOnce(s) && LabelsOk(s)
    ensures LabelsOk(Admit(s))
  {
    FilterSplits(s.workload, IsDue(s.threads, s.now));
    forall i | 0 <= i < |s.threads|
      ensures LabelOk(Admit(s), i)
    {
      assert LabelOk(s, i);
      PlacedOnce(s, i);
    }
  }

  lemma ResolveLabels(s: Sim)
    requires EachOnce(s) && LabelsOk(s)
    ensures LabelsOk(Resolve(s))
  {
    FilterSplits(s.waiting, IsUnblocked(s.threads, s.now));
    forall i | 0 <= i < |s.threads|
      ensures LabelOk(Resolve(s), i)
    {
      assert LabelOk(s, i);
      PlacedOnce(s, i);
    }
  }

  lemma BlockLabels(s: Sim, c: nat, unblockAt: int)
    requires EachOnce(s) && LabelsOk(s) && c < |s.core| && 0 <= s.core[c] < |s.threads|
    ensures LabelsOk(Block(s, c, unblockAt))
  {
    assert s.core[c] in s.core;
    PlacedOnce(s, s.core[c]);
    CoreFreed(s, c);
    forall i | 0 <= i < |s.threads|
      ensures LabelOk(Block(s, c, unblockAt), i)
    {
      assert LabelOk(s, i);
      OthersStayOn(s.core, c, i);
    }
  }

  ghost predicate GoodLabelled(s: Sim, io: seq<int>)
  {
    var good := Good(s, io);
    var labelled := LabelsOk(s);
    good && labelled
  }

  lemma {:induction false} InterruptedLabels(s: Sim, io: seq<int>, draws: seq<Interrupt>, c: nat)
    requires GoodLabelled(s, io) && c <= |s.core| == |draws|
    ensures GoodLabelled(Interrupted(s, draws, c), io)
  {
    if c > 0 {
      InterruptedLabels(s, io, draws, c - 1);
      InterruptLabels(Interrupted(s, draws, c - 1), io, draws[c - 1], c - 1, Interrupted(s, draws, c));
    }
  }

  lemma InterruptLabels(s: Sim, io: seq<int>, draw: Interrupt, c: nat, s': Sim)
    requires GoodLabelled(s, io) && c < |s.core| && s' == InterruptCore(s, draw, c)
    ensures GoodLabelled(s', io)
  {
    InterruptKeeps(s, io, draw, c, s');
    if s' != s {
      BlockLabels(s, c, s.now + draw.duration);
    }
  }

  lemma CollectLabels(s: Sim, c: nat, s': Sim)
    requires EachOnce(s) && LabelsOk(s) && c < |s.core| && s' == CollectCore(s, c)
    ensures EachOnce(s') && LabelsOk(s')
  {
    if s' != s {
      CollectMoves(s, c);
      assert s.core[c] in s.core;
      PlacedOnce(s, s.core[c]);
      CoreFreed(s, c);
      forall i | 0 <= i < |s.threads|
        ensures LabelOk(s', i)
      {
        assert LabelOk(s, i);
        OthersStayOn(s.core, c, i);
      }
    }
  }

  lemma {:induction false} CollectedLabels(s: Sim, c: nat)
    requires EachOnce(s) && LabelsOk(s) && c <= |s.core|
    ensures EachOnce(Collect(s, c)) && LabelsOk(Collect(s, c))
  {
    if c > 0 {
      CollectedLabels(s, c - 1);
      CollectLabels(Collect(s, c - 1), c - 1, Collect(s, c));
    }
  }

  lemma WorkLabels(d: Sim)
    requires EachOnce(d) && LabelsOk(d)
    ensures LabelsOk(TickWork(d))
  {
    var b := Decay(CpuStep(Bump(d)));
    assert Everyone(b) == Everyone(d);
    forall i | 0 <= i < |b.threads|
      ensures LabelOk(b, i)
    {
      assert LabelOk(d, i);
    }
    CollectedLabels(b, |d.core|);
  }

  /** In every run the state recorded of a thread tells where it is, at every loop head and after every dispatch. */
  lemma {:induction false} HistoryLabels(policy: Policy, draws: seq<seq<Interrupt>>, h: History, t: nat)
    requires IsHistory(policy, draws, h) && Good(h.heads[0], h.ios[0]) && LabelsOk(h.heads[0]) && t <= |h.dispatches|
    ensures LabelsOk(h.heads[t]) && (t > 0 ==> LabelsOk(h.dispatches[t - 1]))
  {
    if t > 0 {
      HistoryLabels(policy, draws, h, t - 1);
      HistoryIsGood(policy, draws, h, t - 1);
      LabelsForATick(policy, draws, h, t - 1);
    }
  }

  lemma LabelsForATick(policy: Policy, draws: seq<seq<Interrupt>>, h: History, t: nat)
    requires IsHistory(policy, draws, h) && t < |h.dispatches| && Good(h.heads[t], h.ios[t]) && LabelsOk(h.heads[t])
    ensures LabelsOk(h.dispatches[t]) && LabelsOk(h.heads[t + 1])
  {
    var s, io := h.heads[t], h.ios[t];
    GoodForATick(policy, draws, h, t);
    assert TicksAt(policy, draws, h, t);
    AdmitKeeps(s, io);
    ResolveKeeps(Admit(s), io);
    AdmitLabels(s);
    ResolveLabels(Admit(s));
    InterruptedLabels(Resolve(Admit(s)), io, draws[t], |s.core|);
    StampsKeepLabels(Undispatched(draws, h, t), h.dispatches[t]);
    WorkLabels(h.dispatches[t]);
  }

  lemma StampsKeepLabels(s: Sim, d: Sim)
    requires AllStamped(s, d) && LabelsOk(s)
    ensures LabelsOk(d)
  {
    forall i | 0 <= i < |d.threads|
      ensures LabelOk(d, i)
    {
      assert Stamped(s, d, i);
    }
  }

  // ----- The start of a run

  /** As submitted: arrival, burst and priority of its job, numbered from 1, and nothing has happened to it. */
  ghost predicate SubmittedAs(t: Thread, tid: int, job: Job)
  {
    && t.tid == tid && t.arrival == job.arrival && t.burst == t.remaining == job.burst && t.priority == job.priority
    && t.startTime < 0 && t.finishTime < 0 && t.waitTime == 0
  }

  lemma StartLabels(jobs: seq<Job>, cores: nat)
    ensures LabelsOk(Start(jobs, cores))
  {
    var s := Start(jobs, cores);
    forall i | 0 <= i < |s.threads|
      ensures LabelOk(s, i)
    {
      assert s.threads[i] == MakeThread(i + 1, jobs[i]);
    }
  }

  lemma StartIsSubmitted(jobs: seq<Job>, cores: nat, i: int)
    requires 0 <= i < |jobs|
    ensures var s := Admit(Start(jobs, cores));
            |s.threads| == |jobs| && SubmittedAs(s.threads[i], i + 1, jobs[i]) && NotYet(s, i)
  {
    assert Start(jobs, cores).threads[i] == MakeThread(i + 1, jobs[i]);
  }

  /** The first loop head of a run of submitted jobs is one that the histories above start from. */
  lemma RunsStartFresh(jobs: seq<Job>, cores: nat, io: seq<int>)
    requires |jobs| == |io|
    requires forall j :: 0 <= j < |jobs| ==> jobs[j].burst >= 1 && io[j] == 0
    ensures var s := Admit(Start(jobs, cores));
            && Good(s, io) && LabelsOk(s) && s.now == 0 && |s.core| == cores && |s.threads| == |jobs|
            && forall i :: 0 <= i < |jobs| ==> SubmittedAs(s.threads[i], i + 1, jobs[i]) && NotYet(s, i)
  {
    StartIsGood(jobs, cores, io);
    StartLabels(jobs, cores);
    AdmitKeeps(Start(jobs, cores), io);
    AdmitLabels(Start(jobs, cores));
    forall i | 0 <= i < |jobs|
      ensures |Admit(Start(jobs, cores)).threads| == |jobs|
      ensures SubmittedAs(Admit(Start(jobs, cores)).threads[i], i + 1, jobs[i]) && NotYet(Admit(Start(jobs, cores)), i)
    {
      StartIsSubmitted(jobs, cores, i);
    }
  }
}
