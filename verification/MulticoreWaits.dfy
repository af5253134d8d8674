/** How long waiting lasts in the multicore simulator: I/O takes the ticks drawn for
    it, and a thread kept from the cores gains a step of priority with every tick. */
module MulticoreWaits {
  import opened MulticoreState
  import opened MulticoreDispatch
  import opened MulticoreStamps
  import opened MulticoreRuns
  import opened MulticoreEnds
  import opened MulticoreHistory
  import opened MulticoreTimes

  // ----- How long I/O lasts

  /** Thread `i` waits for I/O until `x`, with nothing left of its time slice. */
  ghost predicate WaitsUntil(s: Sim, i: int, x: int)
  {
    i in s.waiting && 0 <= i < |s.threads| && s.threads[i].unblockedAt == x && s.threads[i].quantaRem == 0
  }

  lemma {:induction false} InterruptedWaits(s: Sim, draws: seq<Interrupt>, c: nat, i: int, x: int)
    requires c <= |s.core| == |draws| && WaitsUntil(s, i, x) && i !in s.core
    ensures WaitsUntil(Interrupted(s, draws, c), i, x) && i !in Interrupted(s, draws, c).core
  {
    if c > 0 {
      InterruptedWaits(s, draws, c - 1, i, x);
      var p := Interrupted(s, draws, c - 1);
      assert p.core[c - 1] in p.core;
      OthersStayOn(p.core, c - 1, i);
    }
  }

  /** Core `c`'s thread has started I/O by the time the cores before `n` have been drawn for. */
  lemma {:induction false} InterruptedStarts(s: Sim, draws: seq<Interrupt>, n: nat, c: nat)
    requires c < n <= |s.core| == |draws| && EachOnce(s) && s.core[c] != -1 && draws[c].Io?
    ensures var i, p := s.core[c], Interrupted(s, draws, n);
            WaitsUntil(p, i, s.now + draws[c].duration) && i !in p.core
  {
    var i := s.core[c];
    if c < n - 1 {
      InterruptedStarts(s, draws, n - 1, c);
      var p := Interrupted(s, draws, n - 1);
      assert p.core[n - 1] in p.core;
      OthersStayOn(p.core, n - 1, i);
    } else {
      InterruptedRest(s, draws, c, i);
    }
  }

  /** Before its own draw a thread stays on its core, and nowhere else. */
  lemma InterruptedRest(s: Sim, draws: seq<Interrupt>, c: nat, i: int)
    requires c < |s.core| == |draws| && EachOnce(s) && s.core[c] == i != -1
    ensures var p := Interrupted(s, draws, c);
            p.core[c] == i && 0 <= i < |s.threads| && i !in p.core[c := -1] && p.now == s.now
  {
    assert s.core[c] in s.core;
    PlacedOnce(s, i);
    NoThreadTwice(s);
    InterruptedCores(s, draws, c);
  }

  lemma {:induction false} InterruptedCores(s: Sim, draws: seq<Interrupt>, c: nat)
    requires c <= |s.core| == |draws|
    ensures var p := Interrupted(s, draws, c);
            forall d :: 0 <= d < |s.core| ==> p.core[d] == s.core[d] || (d < c && p.core[d] == -1)
  {
    if c > 0 {
      InterruptedCores(s, draws, c - 1);
    }
  }

  lemma WaitThroughTick(s: Sim, d: Sim, i: int, x: int)
    requires AllStamped(s, d) && WaitsUntil(s, i, x)
    ensures WaitsUntil(d, i, x) && WaitsUntil(TickWork(d), i, x)
  {
    assert Stamped(s, d, i);
    WorkedThread(d, i);
  }

  lemma ResolvedAt(s: Sim, i: int, x: int)
    requires WaitsUntil(s, i, x)
    ensures if x <= s.now then i in Resolve(Admit(s)).ready else i in Resolve(Admit(s)).waiting
  {
    FilterSplits(s.waiting, IsUnblocked(Admit(s).threads, s.now));
  }

  /** A waiting thread is ready again at the first tick not before its time, and waits through all earlier ones. */
  lemma WaitForATick(policy: Policy, draws: seq<Interrupt>, s: Sim, d: Sim, s': Sim, i: int, x: int)
    requires |draws| == |s.core| && Ticks(policy, draws, s, d, s') && EachOnce(s) && WaitsUntil(s, i, x)
    ensures if x <= s.now then i in Resolve(Admit(s)).ready else WaitsUntil(d, i, x) && WaitsUntil(s', i, x)
  {
    ResolvedAt(s, i, x);
    PlacedOnce(s, i);
    if x > s.now {
      InterruptedWaits(Resolve(Admit(s)), draws, |s.core|, i, x);
      WaitThroughTick(Interrupted(Resolve(Admit(s)), draws, |s.core|), d, i, x);
    }
  }

  lemma BlockedForATick(policy: Policy, draws: seq<Interrupt>, s: Sim, d: Sim, s': Sim, c: nat)
    requires |draws| == |s.core| && Ticks(policy, draws, s, d, s') && EachOnce(Resolve(Admit(s)))
    requires c < |s.core| && s.core[c] != -1 && draws[c].Io?
    ensures WaitsUntil(d, s.core[c], s.now + draws[c].duration) && WaitsUntil(s', s.core[c], s.now + draws[c].duration)
  {
    var r := Resolve(Admit(s));
    InterruptedStarts(r, draws, |s.core|, c);
    WaitThroughTick(Interrupted(r, draws, |s.core|), d, s.core[c], s.now + draws[c].duration);
  }

  lemma WaitsOn(policy: Policy, draws: seq<seq<Interrupt>>, h: History, t: nat, i: int, x: int)
    requires IsHistory(policy, draws, h) && t < |h.dispatches| && Good(h.heads[t], h.ios[t])
    requires WaitsUntil(h.heads[t], i, x) && h.heads[t].now < x
    ensures i in h.dispatches[t].waiting && WaitsUntil(h.heads[t + 1], i, x)
  {
    assert TicksAt(policy, draws, h, t);
    WaitForATick(policy, draws[t], h.heads[t], h.dispatches[t], h.heads[t + 1], i, x);
  }

  lemma {:induction false} StillWaits(policy: Policy, draws: seq<seq<Interrupt>>, h: History, t: nat, i: int, x: int,
                                      u: nat)
    requires IsHistory(policy, draws, h) && Good(h.heads[0], h.ios[0]) && t <= u <= |h.dispatches|
    requires WaitsUntil(h.heads[t], i, x) && u + h.heads[0].now <= x
    ensures WaitsUntil(h.heads[u], i, x) && forall v :: t <= v < u ==> i in h.dispatches[v].waiting
  {
    if t < u {
      StillWaits(policy, draws, h, t, i, x, u - 1);
      HistoryIsGood(policy, draws, h, u - 1);
      HistoryFacts(policy, draws, h, u - 1);
      WaitsOn(policy, draws, h, u - 1, i, x);
    }
  }

  lemma BlockedAt(policy: Policy, draws: seq<seq<Interrupt>>, h: History, t: nat, c: nat, length: int)
    requires IsHistory(policy, draws, h) && t < |h.dispatches| && Good(h.heads[t], h.ios[t])
    requires c < |h.heads[t].core| == |draws[t]| && h.heads[t].core[c] != -1 && draws[t][c] == Io(length)
    ensures var i := h.heads[t].core[c];
            i in h.dispatches[t].waiting && WaitsUntil(h.heads[t + 1], i, h.heads[t].now + length)
  {
    AdmitKeeps(h.heads[t], h.ios[t]);
    ResolveKeeps(Admit(h.heads[t]), h.ios[t]);
    assert TicksAt(policy, draws, h, t);
    BlockedForATick(policy, draws[t], h.heads[t], h.dispatches[t], h.heads[t + 1], c);
  }

  lemma BackAt(policy: Policy, draws: seq<seq<Interrupt>>, h: History, u: nat, i: int, x: int)
    requires IsHistory(policy, draws, h) && u < |h.dispatches| && Good(h.heads[u], h.ios[u])
    requires WaitsUntil(h.heads[u], i, x) && x <= h.heads[u].now
    ensures i in Resolve(Admit(h.heads[u])).ready
  {
    assert TicksAt(policy, draws, h, u);
    WaitForATick(policy, draws[u], h.heads[u], h.dispatches[u], h.heads[u + 1], i, x);
  }

  /** In every run a thread that starts I/O of some length at tick `t` is off the cores and the ready queue at every
      dispatch from then on until the length has passed, or for one tick if the length is less than 1, and is back in
      the ready queue then. */
  lemma IoLasts(policy: Policy, draws: seq<seq<Interrupt>>, h: History, t: nat, c: nat, length: int, u: nat)
    requires IsHistory(policy, draws, h) && Good(h.heads[0], h.ios[0]) && t < |h.dispatches|
    requires c < |h.heads[t].core| == |draws[t]| && h.heads[t].core[c] != -1 && draws[t][c] == Io(length)
    requires u == t + if length < 1 then 1 else length
    ensures forall v :: t <= v < u && v < |h.dispatches| ==> h.heads[t].core[c] in h.dispatches[v].waiting
    ensures u < |h.dispatches| ==> h.heads[t].core[c] in Resolve(Admit(h.heads[u])).ready
  {
    var i, x := h.heads[t].core[c], h.heads[t].now + length;
    var last := if u < |h.dispatches| then u else |h.dispatches|;
    HistoryIsGood(policy, draws, h, t);
    HistoryFacts(policy, draws, h, t);
    BlockedAt(policy, draws, h, t, c, length);
    if length >= 1 {
      StillWaits(policy, draws, h, t + 1, i, x, last);
    }
    if u < |h.dispatches| {
      HistoryIsGood(policy, draws, h, u);
      HistoryFacts(policy, draws, h, u);
      BackAt(policy, draws, h, u, i, x);
    }
  }

  // ----- Aging

  /** Thread `i` is kept from the cores, ready or waiting, at every tick from `t` on and before `u`. */
  ghost predicate KeptWaiting(h: History, i: int, t: nat, u: nat)
  {
    forall v: nat :: t <= v < u && v < |h.dispatches| ==> i in h.dispatches[v].ready || i in h.dispatches[v].waiting
  }

  lemma PriorityForATick(policy: Policy, draws: seq<Interrupt>, s: Sim, d: Sim, s': Sim, i: int)
    requires |draws| == |s.core| && Ticks(policy, draws, s, d, s') && 0 <= i < |s.threads|
    ensures |d.threads| == |s'.threads| == |s.threads| && d.threads[i].priority == s.threads[i].priority
    ensures var p := s.threads[i].priority;
            s'.threads[i].priority == if (i in d.ready || i in d.waiting) && p > 0 then p - 1 else p
  {
    var r := Resolve(Admit(s));
    InterruptedThread(r, draws, |s.core|, i);
    assert SameWork(Interrupted(r, draws, |s.core|).threads[i], d.threads[i]);
    WorkedThread(d, i);
  }

  lemma PriorityNext(policy: Policy, draws: seq<seq<Interrupt>>, h: History, i: int, t: nat)
    requires IsHistory(policy, draws, h) && t < |h.dispatches| && 0 <= i < |h.heads[t].threads|
    ensures |h.dispatches[t].threads| == |h.heads[t + 1].threads| == |h.heads[t].threads|
    ensures h.dispatches[t].threads[i].priority == h.heads[t].threads[i].priority
    ensures var p, d := h.heads[t].threads[i].priority, h.dispatches[t];
            h.heads[t + 1].threads[i].priority == if (i in d.ready || i in d.waiting) && p > 0 then p - 1 else p
  {
    assert TicksAt(policy, draws, h, t);
    PriorityForATick(policy, draws[t], h.heads[t], h.dispatches[t], h.heads[t + 1], i);
  }

  /** In every run the priority number of a thread kept waiting for some ticks falls by as many, but not below zero. */
  lemma {:induction false} WaitingAges(policy: Policy, draws: seq<seq<Interrupt>>, h: History, i: int, t: nat, u: nat)
    requires IsHistory(policy, draws, h) && t <= u <= |h.dispatches|
    requires 0 <= i < |h.heads[t].threads| && h.heads[t].threads[i].priority >= 0 && KeptWaiting(h, i, t, u)
    ensures |h.heads[u].threads| == |h.heads[t].threads|
    ensures var p := h.heads[t].threads[i].priority;
            h.heads[u].threads[i].priority == if p < u - t then 0 else p - (u - t)
  {
    if t < u {
      WaitingAges(policy, draws, h, i, t, u - 1);
      PriorityNext(policy, draws, h, i, u - 1);
    }
  }

  /** Under the priority policy a thread ready for as many ticks as its priority number is outranked by nobody: if it is
      passed over once more, everybody running has a priority number of at most 0. */
  lemma AgedIsOutrankedByNobody(draws: seq<seq<Interrupt>>, h: History, i: int, t: nat, u: nat, c: nat)
    requires IsHistory(HighestPriority, draws, h) && Good(h.heads[0], h.ios[0]) && t <= u < |h.dispatches|
    requires 0 <= i < |h.heads[t].threads| && 0 <= h.heads[t].threads[i].priority <= u - t
    requires KeptWaiting(h, i, t, u) && i in h.dispatches[u].ready
    requires c < |h.dispatches[u].core| && h.dispatches[u].core[c] != -1
    ensures 0 <= h.dispatches[u].core[c] < |h.dispatches[u].threads|
    ensures h.dispatches[u].threads[h.dispatches[u].core[c]].priority <= 0
  {
    WaitingAges(HighestPriority, draws, h, i, t, u);
    PriorityNext(HighestPriority, draws, h, i, u);
    BestPriorityFirst(draws, h, u, c, i);
  }
}
