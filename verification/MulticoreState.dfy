/** The multicore tick simulator as values: where each thread is, what each
    stage of a tick does, and the time accounting that every tick preserves. */
module MulticoreState {

  datatype State = New | Ready | Running | Waiting | Finished

  datatype Thread = Thread(tid: int, arrival: int, burst: int, remaining: int, state: State, unblockedAt: int,
                           startTime: int, finishTime: int, waitTime: int, quantaRem: int, priority: int)

  /** Queues and cores hold indices into the thread table; an idle core holds -1. */
  datatype Sim = Sim(threads: seq<Thread>, core: seq<int>, workload: seq<int>, ready: seq<int>,
                     waiting: seq<int>, finished: seq<int>, now: int)

  // ----- Everyone is somewhere, once

  ghost function OnCores(core: seq<int>): multiset<int>
  {
    multiset(core)[-1 := 0]
  }

  ghost function Everyone(s: Sim): multiset<int>
  {
    multiset(s.workload) + multiset(s.ready) + multiset(s.waiting) + multiset(s.finished) + OnCores(s.core)
  }

  ghost predicate EachOnce(s: Sim)
  {
    forall i :: Everyone(s)[i] == if 0 <= i < |s.threads| then 1 else 0
  }

  lemma CoreChange(core: seq<int>, c: nat, x: int)
    requires c < |core| && x >= 0
    ensures core[c] == -1 ==> OnCores(core[c := x]) == OnCores(core) + multiset{x}
    ensures core[c] >= 0 ==> OnCores(core[c := -1]) == OnCores(core) - multiset{core[c]}
    ensures core[c] >= 0 ==> OnCores(core)[core[c]] >= 1
  {
    MultisetChange(core, c, x);
    MultisetChange(core, c, -1);
  }

  lemma MultisetChange(core: seq<int>, c: nat, x: int)
    requires c < |core|
    ensures multiset(core[c := x]) + multiset{core[c]} == multiset(core) + multiset{x}
  {
    var front, back := core[..c], core[c + 1..];
    assert core == front + [core[c]] + back;
    assert core[c := x] == front + [x] + back;
  }

  /** In exactly one place. */
  lemma PlacedOnce(s: Sim, i: int)
    requires EachOnce(s)
    ensures i in s.ready || i in s.waiting || i in s.finished || i in s.workload ==> 0 <= i < |s.threads|
    ensures i in s.core && i != -1 ==> 0 <= i < |s.threads|
    ensures i in s.ready ==>
      multiset(s.ready)[i] == 1 && i !in s.waiting && i !in s.finished && i !in s.workload && i !in s.core
    ensures i in s.waiting ==>
      multiset(s.waiting)[i] == 1 && i !in s.ready && i !in s.finished && i !in s.workload && i !in s.core
    ensures i in s.core && i != -1 ==>
      OnCores(s.core)[i] == 1 && i !in s.ready && i !in s.waiting && i !in s.finished && i !in s.workload
    ensures i in s.finished ==> i !in s.ready && i !in s.waiting && i !in s.workload && i !in s.core
    ensures i in s.workload ==>
      multiset(s.workload)[i] == 1 && i !in s.ready && i !in s.waiting && i !in s.finished && i !in s.core
  {
    assert Everyone(s)[i] == multiset(s.workload)[i] + multiset(s.ready)[i] + multiset(s.waiting)[i]
                             + multiset(s.finished)[i] + OnCores(s.core)[i];
    if i != -1 {
      assert OnCores(s.core)[i] == multiset(s.core)[i];
    } else {
      assert Everyone(s)[i] == 0;
    }
  }

  // ----- Accounting

  /** Time since arrival is time spent ready, running or waiting for I/O. */
  ghost predicate Balanced(t: Thread, ioTicks: int, now: int)
  {
    t.remaining >= 1 && now - t.arrival == t.waitTime + (t.burst - t.remaining) + ioTicks
  }

  ghost predicate Untouched(t: Thread, ioTicks: int)
  {
    t.waitTime == 0 && t.remaining == t.burst >= 1 && ioTicks == 0 && t.finishTime < 0
  }

  ghost predicate Settled(t: Thread, ioTicks: int)
  {
    t.remaining == 0 && t.finishTime - t.arrival == t.burst + t.waitTime + ioTicks
  }

  ghost predicate Active(s: Sim, i: int)
  {
    i in s.ready || i in s.waiting || (i in s.core && i != -1)
  }

  /** The account of thread `i`, wherever it is. */
  ghost predicate Accounted(s: Sim, io: seq<int>, i: int)
    requires 0 <= i < |s.threads| == |io|
  {
    && (i in s.workload ==> Untouched(s.threads[i], io[i]))
    && (Active(s, i) ==> Balanced(s.threads[i], io[i], s.now) && s.threads[i].finishTime < 0)
    && (i in s.finished ==> Settled(s.threads[i], io[i]))
  }

  ghost predicate AllAccounted(s: Sim, io: seq<int>)
  {
    |io| == |s.threads| && forall i :: 0 <= i < |s.threads| ==> Accounted(s, io, i)
  }

  ghost predicate Good(s: Sim, io: seq<int>)
  {
    EachOnce(s) && AllAccounted(s, io)
  }

  // ----- Filtering a queue

  function Filter(q: seq<int>, keep: int -> bool): seq<int>
  {
    if q == [] then []
    else Filter(q[..|q| - 1], keep) + if keep(q[|q| - 1]) then [q[|q| - 1]] else []
  }

  /** What `Filter` leaves behind. */
  function Others(q: seq<int>, keep: int -> bool): seq<int>
  {
    if q == [] then []
    else Others(q[..|q| - 1], keep) + if keep(q[|q| - 1]) then [] else [q[|q| - 1]]
  }

  lemma CountLast(q: seq<int>, y: int, x: int)
    ensures multiset(q + [y])[x] == multiset(q)[x] + if x == y then 1 else 0
  {
  }

  lemma FilterLast(q: seq<int>, y: int, keep: int -> bool)
    ensures Filter(q + [y], keep) == if keep(y) then Filter(q, keep) + [y] else Filter(q, keep)
    ensures Others(q + [y], keep) == if keep(y) then Others(q, keep) else Others(q, keep) + [y]
  {
    assert (q + [y])[..|q|] == q;
  }

  /** What happens to the occurrences of `x`. */
  lemma {:induction false} FilterCounts(q: seq<int>, keep: int -> bool, x: int)
    ensures multiset(Filter(q, keep))[x] == if keep(x) then multiset(q)[x] else 0
    ensures multiset(Others(q, keep))[x] == if keep(x) then 0 else multiset(q)[x]
  {
    if q != [] {
      var most, y := q[..|q| - 1], q[|q| - 1];
      assert q == most + [y];
      FilterCounts(most, keep, x);
      FilterLast(most, y, keep);
      CountLast(most, y, x);
      CountLast(Filter(most, keep), y, x);
      CountLast(Others(most, keep), y, x);
    }
  }

  lemma FilterSplits(q: seq<int>, keep: int -> bool)
    ensures multiset(Filter(q, keep)) + multiset(Others(q, keep)) == multiset(q)
    ensures forall x :: x in Filter(q, keep) <==> x in q && keep(x)
    ensures forall x :: x in Others(q, keep) <==> x in q && !keep(x)
  {
    forall x: int
      ensures multiset(Filter(q, keep))[x] + multiset(Others(q, keep))[x] == multiset(q)[x]
      ensures x in Filter(q, keep) <==> x in q && keep(x)
      ensures x in Others(q, keep) <==> x in q && !keep(x)
    {
      FilterCounts(q, keep, x);
      assert x in q <==> multiset(q)[x] > 0;
      assert x in Filter(q, keep) <==> multiset(Filter(q, keep))[x] > 0;
      assert x in Others(q, keep) <==> multiset(Others(q, keep))[x] > 0;
    }
    assert multiset(Filter(q, keep)) + multiset(Others(q, keep)) == multiset(q);
  }

  // ----- Stages

  function IsDue(threads: seq<Thread>, now: int): int -> bool
  {
    i => 0 <= i < |threads| && threads[i].arrival == now
  }

  function IsUnblocked(threads: seq<Thread>, now: int): int -> bool
  {
    i => 0 <= i < |threads| && threads[i].unblockedAt <= now
  }

  function Marked(threads: seq<Thread>, q: seq<int>, state: State): (r: seq<Thread>)
    ensures |r| == |threads|
    ensures forall i :: 0 <= i < |threads| ==> r[i] == if i in q then threads[i].(state := state) else threads[i]
  {
    seq(|threads|, i requires 0 <= i < |threads| => if i in q then threads[i].(state := state) else threads[i])
  }

  /** Threads whose arrival time is now join the ready queue. */
  function Admit(s: Sim): Sim
  {
    var due := Filter(s.workload, IsDue(s.threads, s.now));
    s.(workload := Others(s.workload, IsDue(s.threads, s.now)), ready := s.ready + due,
       threads := Marked(s.threads, due, Ready))
  }

  /** Threads whose I/O is over rejoin the ready queue. */
  function Resolve(s: Sim): Sim
  {
    var back := Filter(s.waiting, IsUnblocked(s.threads, s.now));
    s.(waiting := Others(s.waiting, IsUnblocked(s.threads, s.now)), ready := s.ready + back,
       threads := Marked(s.threads, back, Ready))
  }

  /** The thread on core `c` starts I/O. */
  function Block(s: Sim, c: nat, unblockAt: int): Sim
    requires c < |s.core| && 0 <= s.core[c] < |s.threads|
  {
    var i := s.core[c];
    s.(core := s.core[c := -1], waiting := s.waiting + [i],
       threads := s.threads[i := s.threads[i].(state := Waiting, unblockedAt := unblockAt, quantaRem := 0)])
  }

  function Bumped(threads: seq<Thread>, q: seq<int>): (r: seq<Thread>)
    ensures |r| == |threads|
    ensures forall i :: 0 <= i < |threads| ==>
            r[i] == if i in q then threads[i].(waitTime := threads[i].waitTime + 1) else threads[i]
  {
    seq(|threads|, i requires 0 <= i < |threads| =>
      if i in q then threads[i].(waitTime := threads[i].waitTime + 1) else threads[i])
  }

  function Bump(s: Sim): Sim
  {
    s.(threads := Bumped(s.threads, s.ready))
  }

  function Worked(t: Thread): Thread
  {
    t.(remaining := if t.remaining > 0 then t.remaining - 1 else t.remaining,
       quantaRem := if t.quantaRem > 0 then t.quantaRem - 1 else t.quantaRem)
  }

  function WorkedAll(threads: seq<Thread>, core: seq<int>): (r: seq<Thread>)
    ensures |r| == |threads|
    ensures forall i :: 0 <= i < |threads| ==> r[i] == if i in core then Worked(threads[i]) else threads[i]
  {
    seq(|threads|, i requires 0 <= i < |threads| => if i in core then Worked(threads[i]) else threads[i])
  }

  /** One tick of work on every busy core. */
  function CpuStep(s: Sim): Sim
  {
    s.(threads := WorkedAll(s.threads, s.core), now := s.now + 1)
  }

  function Decayed(t: Thread): Thread
  {
    t.(priority := if t.priority > 0 then t.priority - 1 else t.priority)
  }

  function DecayedAll(threads: seq<Thread>, a: seq<int>, b: seq<int>): (r: seq<Thread>)
    ensures |r| == |threads|
    ensures forall i :: 0 <= i < |threads| ==> r[i] == if i in a || i in b then Decayed(threads[i]) else threads[i]
  {
    seq(|threads|, i requires 0 <= i < |threads| => if i in a || i in b then Decayed(threads[i]) else threads[i])
  }

  function Decay(s: Sim): Sim
  {
    s.(threads := DecayedAll(s.threads, s.ready, s.waiting))
  }

  function Ended(t: Thread, now: int): Thread
  {
    t.(state := Finished, finishTime := if t.finishTime < 0 then now else t.finishTime)
  }

  /** The finished thread on core `c`, if any, leaves it. */
  function CollectCore(s: Sim, c: nat): Sim
    requires c < |s.core|
  {
    var i := s.core[c];
    if 0 <= i < |s.threads| && s.threads[i].remaining == 0 then
      s.(core := s.core[c := -1], finished := s.finished + [i], threads := s.threads[i := Ended(s.threads[i], s.now)])
    else s
  }

  /** The finished threads on cores before `c` have left, in order. */
  function Collect(s: Sim, c: nat): (s': Sim)
    requires c <= |s.core|
    ensures |s'.core| == |s.core| && |s'.threads| == |s.threads| && s'.now == s.now
    ensures s'.ready == s.ready && s'.waiting == s.waiting && s'.workload == s.workload
  {
    if c == 0 then s else CollectCore(Collect(s, c - 1), c - 1)
  }

  /** From a dispatch to the end of its tick. */
  function TickWork(s: Sim): Sim
  {
    Collect(Decay(CpuStep(Bump(s))), |s.core|)
  }

  /** What every dispatch policy may do: permute threads between the ready queue
      and the cores, changing only their state, start time and time slice. */
  ghost predicate Dispatched(s: Sim, s': Sim)
  {
    && s' == s.(threads := s'.threads, core := s'.core, ready := s'.ready)
    && |s'.core| == |s.core| && |s'.threads| == |s.threads|
    && multiset(s'.ready) + OnCores(s'.core) == multiset(s.ready) + OnCores(s.core)
    && (forall i :: 0 <= i < |s.threads| ==> SameWork(s.threads[i], s'.threads[i]))
  }

  ghost predicate SameWork(t: Thread, t': Thread)
  {
    t' == t.(state := t'.state, startTime := t'.startTime, quantaRem := t'.quantaRem)
  }

  // ----- Each stage keeps the accounts

  lemma AdmitKeeps(s: Sim, io: seq<int>)
    requires Good(s, io)
    ensures Good(Admit(s), io)
  {
    var s' := Admit(s);
    FilterSplits(s.workload, IsDue(s.threads, s.now));
    assert Everyone(s') == Everyone(s);
    forall i | 0 <= i < |s.threads|
      ensures Accounted(s', io, i)
    {
      PlacedOnce(s, i);
      assert Accounted(s, io, i);
    }
  }

  lemma ResolveKeeps(s: Sim, io: seq<int>)
    requires Good(s, io)
    ensures Good(Resolve(s), io)
  {
    var s' := Resolve(s);
    FilterSplits(s.waiting, IsUnblocked(s.threads, s.now));
    assert Everyone(s') == Everyone(s);
    forall i | 0 <= i < |s.threads|
      ensures Accounted(s', io, i)
    {
      PlacedOnce(s, i);
      assert Accounted(s, io, i);
    }
  }

  lemma BlockKeeps(s: Sim, io: seq<int>, c: nat, unblockAt: int)
    requires Good(s, io) && c < |s.core| && 0 <= s.core[c] < |s.threads|
    ensures Good(Block(s, c, unblockAt), io)
  {
    var s' := Block(s, c, unblockAt);
    CoreChange(s.core, c, 0);
    assert Everyone(s') == Everyone(s);
    forall i | 0 <= i < |s.threads|
      ensures Accounted(s', io, i)
    {
      PlacedOnce(s, i);
      PlacedOnce(s', i);
      assert Accounted(s, io, i);
      assert i in s'.core && i != -1 ==> i in s.core;
    }
  }

  lemma DispatchKeeps(s: Sim, s': Sim, io: seq<int>)
    requires Good(s, io) && Dispatched(s, s')
    ensures Good(s', io)
  {
    var rest := multiset(s.workload) + multiset(s.waiting) + multiset(s.finished);
    assert Everyone(s) == rest + (multiset(s.ready) + OnCores(s.core));
    assert Everyone(s') == rest + (multiset(s'.ready) + OnCores(s'.core));
    forall i | 0 <= i < |s.threads|
      ensures Accounted(s', io, i)
    {
      PlacedOnce(s, i);
      PlacedOnce(s', i);
      assert Accounted(s, io, i) && SameWork(s.threads[i], s'.threads[i]);
      assert (multiset(s'.ready) + OnCores(s'.core))[i] == (multiset(s.ready) + OnCores(s.core))[i];
    }
  }

  /** Ticks spent waiting for I/O, after one more tick. */
  ghost function IoAfter(s: Sim, io: seq<int>): (r: seq<int>)
    requires |io| == |s.threads|
    ensures |r| == |io| && forall i :: 0 <= i < |io| ==> r[i] == io[i] + if i in s.waiting then 1 else 0
  {
    seq(|io|, i requires 0 <= i < |io| => io[i] + if i in s.waiting then 1 else 0)
  }

  /** Between the clock tick and the collection of completions a running thread may have nothing left. */
  ghost predicate Ticked(s: Sim, io: seq<int>, i: int)
    requires 0 <= i < |s.threads| == |io|
  {
    && (i in s.workload ==> Untouched(s.threads[i], io[i]))
    && (Active(s, i) ==>
          s.threads[i].remaining >= 0 && s.threads[i].finishTime < 0
          && s.now - s.threads[i].arrival
              == s.threads[i].waitTime + (s.threads[i].burst - s.threads[i].remaining) + io[i]
          && (s.threads[i].remaining == 0 ==> i in s.core))
    && (i in s.finished ==> Settled(s.threads[i], io[i]))
  }

  ghost predicate AllTicked(s: Sim, io: seq<int>)
  {
    EachOnce(s) && |io| == |s.threads| && forall i :: 0 <= i < |s.threads| ==> Ticked(s, io, i)
  }

  lemma TickKeeps(s: Sim, io: seq<int>)
    requires Good(s, io)
    ensures AllTicked(CpuStep(Bump(s)), IoAfter(s, io))
  {
    var s' := CpuStep(Bump(s));
    assert Everyone(s') == Everyone(s);
    forall i | 0 <= i < |s.threads|
      ensures Ticked(s', IoAfter(s, io), i)
    {
      PlacedOnce(s, i);
      assert Accounted(s, io, i);
    }
  }

  lemma DecayKeeps(s: Sim, io: seq<int>)
    requires AllTicked(s, io)
    ensures AllTicked(Decay(s), io)
  {
    var s' := Decay(s);
    assert Everyone(s') == Everyone(s);
    forall i | 0 <= i < |s.threads|
      ensures Ticked(s', io, i)
    {
      assert Ticked(s, io, i);
    }
  }

  lemma CollectKeeps(s: Sim, io: seq<int>, c: nat, s': Sim)
    requires AllTicked(s, io) && c < |s.core| && s' == CollectCore(s, c)
    ensures AllTicked(s', io)
  {
    if s' != s {
      CollectMoves(s, c);
      forall i | 0 <= i < |s.threads|
        ensures Ticked(s', io, i)
      {
        assert Ticked(s, io, i);
        PlacedOnce(s, i);
        PlacedOnce(s', i);
        OthersStayOn(s.core, c, i);
      }
    }
  }

  lemma CollectMoves(s: Sim, c: nat)
    requires EachOnce(s) && c < |s.core| && CollectCore(s, c) != s
    ensures EachOnce(CollectCore(s, c))
  {
    CoreChange(s.core, c, 0);
    assert Everyone(CollectCore(s, c)) == Everyone(s);
  }

  /** Freeing core `c` takes nobody else off a core. */
  lemma OthersStayOn(core: seq<int>, c: nat, i: int)
    requires c < |core| && i != -1
    ensures i in core[c := -1] ==> i in core
    ensures i in core && i != core[c] ==> i in core[c := -1]
  {
    if i in core && i != core[c] {
      var d :| 0 <= d < |core| && core[d] == i;
      assert core[c := -1][d] == i;
    }
  }

  lemma {:induction false} CollectedKeeps(s: Sim, io: seq<int>, c: nat)
    requires AllTicked(s, io) && c <= |s.core|
    ensures AllTicked(Collect(s, c), io)
  {
    if c > 0 {
      CollectedKeeps(s, io, c - 1);
      CollectedNext(s, io, c, Collect(s, c - 1));
    }
  }

  lemma CollectedNext(s: Sim, io: seq<int>, c: nat, p: Sim)
    requires 0 < c <= |s.core| && p == Collect(s, c - 1) && AllTicked(p, io)
    ensures AllTicked(Collect(s, c), io)
  {
    CollectKeeps(p, io, c - 1, Collect(s, c));
  }

  /** What collecting does to a core: it is freed exactly if its thread has nothing left to do. */
  lemma {:induction false} CollectedCore(s: Sim, c: nat, d: nat)
    requires c <= |s.core| && d < |s.core|
    ensures var s' := Collect(s, c);
            && |s'.threads| == |s.threads|
            && (forall i :: 0 <= i < |s.threads| ==>
                 s'.threads[i] == s.threads[i].(state := s'.threads[i].state, finishTime := s'.threads[i].finishTime))
            && s'.core[d] == (if d < c && 0 <= s.core[d] < |s.threads| && s.threads[s.core[d]].remaining == 0 then -1
                else s.core[d])
            && s' == s.(threads := s'.threads, core := s'.core, finished := s'.finished)
  {
    if c > 0 {
      CollectedCore(s, c - 1, d);
      if d != c - 1 {
        CollectedCore(s, c - 1, c - 1);
      }
    }
  }

  /** From a dispatch to the next loop head the accounts are kept. */
  lemma TickWorkKeeps(s: Sim, io: seq<int>)
    requires Good(s, io)
    ensures Good(TickWork(s), IoAfter(s, io))
  {
    TickKeeps(s, io);
    var b := Decay(CpuStep(Bump(s)));
    DecayKeeps(CpuStep(Bump(s)), IoAfter(s, io));
    CollectedKeeps(b, IoAfter(s, io), |s.core|);
    var s' := Collect(b, |s.core|);
    forall c | 0 <= c < |s'.core| && s'.core[c] >= 0
      ensures s'.core[c] < |s'.threads| && s'.threads[s'.core[c]].remaining != 0
    {
      CollectedCore(b, |s.core|, c);
      PlacedOnce(s', s'.core[c]);
    }
    CollectedIsGood(s', IoAfter(s, io));
  }

  /** Once every core has been checked no active thread is out of work: the accounts hold at the next loop head. */
  lemma CollectedIsGood(s: Sim, io: seq<int>)
    requires AllTicked(s, io)
    requires forall c :: 0 <= c < |s.core| && s.core[c] >= 0 ==>
             s.core[c] < |s.threads| && s.threads[s.core[c]].remaining != 0
    ensures Good(s, io)
  {
    forall i | 0 <= i < |s.threads|
      ensures Accounted(s, io, i)
    {
      assert Ticked(s, io, i);
      if i in s.core {
        var c :| 0 <= c < |s.core| && s.core[c] == i;
      }
    }
  }
}
