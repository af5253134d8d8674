/** Runs of the multicore simulator with any interrupts, tick by tick. */
module MulticoreHistory {
  import opened MulticoreState
  import opened MulticoreDispatch
  import opened MulticoreRuns
  import opened MulticoreEnds

  /** The states at the loop heads, those just after each dispatch, and the ticks each thread has waited for I/O. */
  datatype History = History(heads: seq<Sim>, dispatches: seq<Sim>, ios: seq<seq<int>>)

  ghost predicate TicksAt(policy: Policy, draws: seq<seq<Interrupt>>, h: History, t: nat)
    requires t < |h.dispatches| <= |draws| && |h.heads| == |h.ios| == |h.dispatches| + 1
  {
    && |draws[t]| == |h.heads[t].core| && Ticks(policy, draws[t], h.heads[t], h.dispatches[t], h.heads[t + 1])
    && |h.ios[t]| == |h.dispatches[t].threads| && h.ios[t + 1] == IoAfter(h.dispatches[t], h.ios[t])
  }

  ghost predicate IsHistory(policy: Policy, draws: seq<seq<Interrupt>>, h: History)
  {
    && |h.dispatches| <= |draws| && |h.heads| == |h.ios| == |h.dispatches| + 1
    && forall t :: 0 <= t < |h.dispatches| ==> TicksAt(policy, draws, h, t)
  }

  function Extended(h: History, d: Sim, s: Sim, io: seq<int>): History
  {
    History(h.heads + [s], h.dispatches + [d], h.ios + [io])
  }

  lemma SameTicksAt(policy: Policy, draws: seq<seq<Interrupt>>, h: History, h': History, t: nat)
    requires t < |h.dispatches| <= |draws| && |h.heads| == |h.ios| == |h.dispatches| + 1
    requires t < |h'.dispatches| <= |draws| && |h'.heads| == |h'.ios| == |h'.dispatches| + 1
    requires h'.heads[t] == h.heads[t] && h'.heads[t + 1] == h.heads[t + 1] && h'.dispatches[t] == h.dispatches[t]
    requires h'.ios[t] == h.ios[t] && h'.ios[t + 1] == h.ios[t + 1] && TicksAt(policy, draws, h, t)
    ensures TicksAt(policy, draws, h', t)
  {
  }

  lemma HistoryGoesOn(policy: Policy, draws: seq<seq<Interrupt>>, h: History, d: Sim, s: Sim, io: seq<int>)
    requires IsHistory(policy, draws, h) && |h.dispatches| < |draws|
    requires TicksAt(policy, draws, Extended(h, d, s, io), |h.dispatches|)
    ensures IsHistory(policy, draws, Extended(h, d, s, io))
  {
    EarlierTicks(policy, draws, h, d, s, io);
  }

  lemma EarlierTicks(policy: Policy, draws: seq<seq<Interrupt>>, h: History, d: Sim, s: Sim, io: seq<int>)
    requires IsHistory(policy, draws, h) && |h.dispatches| < |draws|
    ensures forall t :: 0 <= t < |h.dispatches| ==> TicksAt(policy, draws, Extended(h, d, s, io), t)
  {
    forall t | 0 <= t < |h.dispatches|
      ensures TicksAt(policy, draws, Extended(h, d, s, io), t)
    {
      assert TicksAt(policy, draws, h, t);
      SameTicksAt(policy, draws, h, Extended(h, d, s, io), t);
    }
  }

  lemma LastTicksAt(policy: Policy, draws: seq<seq<Interrupt>>, h: History, s: Sim, io: seq<int>, d: Sim, s': Sim)
    requires |h.dispatches| < |draws| && |h.heads| == |h.ios| == |h.dispatches| + 1
    requires h.heads[|h.dispatches|] == s && h.ios[|h.dispatches|] == io && |io| == |d.threads|
    requires |draws[|h.dispatches|]| == |s.core| && Ticks(policy, draws[|h.dispatches|], s, d, s')
    ensures TicksAt(policy, draws, Extended(h, d, s', IoAfter(d, io)), |h.dispatches|)
  {
  }

  // ----- Arrivals

  lemma {:induction false} InterruptedWorkload(s: Sim, draws: seq<Interrupt>, c: nat)
    requires c <= |s.core| == |draws|
    ensures Interrupted(s, draws, c).workload == s.workload
  {
    if c > 0 {
      InterruptedWorkload(s, draws, c - 1);
    }
  }

  lemma TickTakesArrivals(policy: Policy, draws: seq<Interrupt>, s: Sim, d: Sim, s': Sim, upto: int)
    requires |draws| == |s.core| && Ticks(policy, draws, s, d, s')
    requires StillToCome(s, upto) && 0 <= s.now <= upto <= s.now + 1
    ensures StillToCome(s', s'.now)
  {
    AdmitTakes(s, upto);
    InterruptedWorkload(Resolve(Admit(s)), draws, |s.core|);
    TickWorkQueues(d);
    TickSameJobs(policy, draws, s, d, s');
    ClockAdvances(policy, draws, s, d, s');
    ComingStays(Admit(s), s', s.now + 1);
  }

  /** Over any run: nobody's arrival or burst changes, the clock counts the ticks, arrivals are on time. */
  lemma {:induction false} HistoryFacts(policy: Policy, draws: seq<seq<Interrupt>>, h: History, t: nat)
    requires IsHistory(policy, draws, h) && t <= |h.dispatches|
    ensures SameJobs(h.heads[0].threads, h.heads[t].threads) && h.heads[t].now == h.heads[0].now + t
    ensures h.heads[0].now == 0 && StillToCome(h.heads[0], 1) && t >= 1 ==> StillToCome(h.heads[t], t)
  {
    if t > 0 {
      var u := t - 1;
      HistoryFacts(policy, draws, h, u);
      assert TicksAt(policy, draws, h, u);
      var s, d, s' := h.heads[u], h.dispatches[u], h.heads[t];
      TickSameJobs(policy, draws[u], s, d, s');
      ClockAdvances(policy, draws[u], s, d, s');
      if h.heads[0].now == 0 && StillToCome(h.heads[0], 1) {
        TickTakesArrivals(policy, draws[u], s, d, s', if u == 0 then 1 else u);
      }
    }
  }

  // ----- The loop of a run

  /** At the head of the loop in a run from `s0`, or, when `done`, behind it. */
  ghost predicate RunWith(policy: Policy, draws: seq<seq<Interrupt>>, s0: Sim, io0: seq<int>, s: Sim, io: seq<int>,
                          h: History, done: bool)
  {
    && Good(s, io) && IsHistory(policy, draws, h)
    && h.heads[0] == Admit(s0) && h.ios[0] == io0
    && h.heads[|h.dispatches|] == s && h.ios[|h.dispatches|] == io
    && |s.core| == |s0.core| && NoneDrained(h)
    && (done <==> |h.dispatches| >= 1 && Drained(s))
  }

  /** No loop head between the first and the latest was drained. */
  ghost predicate NoneDrained(h: History)
    requires |h.heads| == |h.dispatches| + 1
  {
    forall t :: 1 <= t < |h.dispatches| ==> !Drained(h.heads[t])
  }

  lemma NoneDrainedGoesOn(h: History, h': History)
    requires |h.heads| == |h.dispatches| + 1 && |h'.heads| == |h'.dispatches| + 1 == |h.heads| + 1
    requires h'.heads[..|h.heads|] == h.heads && NoneDrained(h)
    requires |h.dispatches| >= 1 ==> !Drained(h.heads[|h.dispatches|])
    ensures NoneDrained(h')
  {
    forall t | 1 <= t < |h'.dispatches|
      ensures h'.heads[t] == h.heads[t]
    {
      assert h'.heads[..|h.heads|][t] == h'.heads[t];
    }
  }

  lemma RunWithGoesOn(policy: Policy, draws: seq<seq<Interrupt>>, s0: Sim, io0: seq<int>, s: Sim, io: seq<int>,
                      h: History, d: Sim, s': Sim)
    requires RunWith(policy, draws, s0, io0, s, io, h, false) && |h.dispatches| < |draws|
    requires |draws[|h.dispatches|]| == |s.core| && Ticks(policy, draws[|h.dispatches|], s, d, s')
    requires |io| == |d.threads| && Good(s', IoAfter(d, io))
    ensures RunWith(policy, draws, s0, io0, s', IoAfter(d, io), Extended(h, d, s', IoAfter(d, io)), Drained(s'))
  {
    ClockAdvances(policy, draws[|h.dispatches|], s, d, s');
    LastTicksAt(policy, draws, h, s, io, d, s');
    HistoryGoesOn(policy, draws, h, d, s', IoAfter(d, io));
    NoneDrainedGoesOn(h, Extended(h, d, s', IoAfter(d, io)));
  }

  lemma RunWithEnds(policy: Policy, draws: seq<seq<Interrupt>>, s0: Sim, io0: seq<int>, s: Sim, io: seq<int>,
                    h: History, done: bool)
    requires RunWith(policy, draws, s0, io0, s, io, h, done)
    ensures SameJobs(s0.threads, s.threads)
    ensures s0.now == 0 && StillToCome(s0, 0) && |h.dispatches| >= 1 ==> StillToCome(s, s.now)
  {
    HistoryFacts(policy, draws, h, |h.dispatches|);
    if s0.now == 0 && StillToCome(s0, 0) {
      AdmitTakes(s0, 0);
    }
  }

  // ----- Priorities

  lemma NaturalForATick(policy: Policy, draws: seq<seq<Interrupt>>, h: History, t: nat)
    requires IsHistory(policy, draws, h) && t < |h.dispatches| && NaturalPriorities(h.heads[t].threads)
    ensures NaturalPriorities(h.dispatches[t].threads) && NaturalPriorities(h.heads[t + 1].threads)
  {
    assert TicksAt(policy, draws, h, t);
    TickKeepsPriorities(policy, draws[t], h.heads[t], h.dispatches[t], h.heads[t + 1]);
  }

  lemma {:induction false} PrioritiesStayNatural(policy: Policy, draws: seq<seq<Interrupt>>, h: History, t: nat)
    requires IsHistory(policy, draws, h) && t < |h.dispatches| && NaturalPriorities(h.heads[0].threads)
    ensures NaturalPriorities(h.heads[t].threads) && NaturalPriorities(h.dispatches[t].threads)
  {
    if t > 0 {
      PrioritiesStayNatural(policy, draws, h, t - 1);
      NaturalForATick(policy, draws, h, t - 1);
    }
    NaturalForATick(policy, draws, h, t);
  }

  lemma NothingLeftToPreempt(draws: seq<seq<Interrupt>>, h: History, t: nat)
    requires IsHistory(HighestPriority, draws, h) && t < |h.dispatches|
    ensures NothingToPreempt(h.dispatches[t], Priority)
  {
    assert TicksAt(HighestPriority, draws, h, t);
    PriorityDispatch(Interrupted(Resolve(Admit(h.heads[t])), draws[t], |h.heads[t].core|), h.dispatches[t]);
  }

  lemma PriorityDispatch(s: Sim, d: Sim)
    requires DispatchedBy(HighestPriority, s, d)
    ensures NothingToPreempt(d, Priority)
  {
  }

  lemma NothingOutranks(d: Sim)
    requires NothingToPreempt(d, Priority) && NaturalPriorities(d.threads)
    ensures !SomebodyOutranked(d)
  {
  }

  /** In a run that starts with non-negative priorities nobody ready ever outranks somebody running after a dispatch. */
  lemma NobodyOutranksRunning(draws: seq<seq<Interrupt>>, h: History, t: nat)
    requires IsHistory(HighestPriority, draws, h) && t < |h.dispatches| && NaturalPriorities(h.heads[0].threads)
    ensures !SomebodyOutranked(h.dispatches[t])
  {
    PrioritiesStayNatural(HighestPriority, draws, h, t);
    NothingLeftToPreempt(draws, h, t);
    NothingOutranks(h.dispatches[t]);
  }
}
