/** The multicore simulator: thread table, cores and queues updated in place. */
module MulticoreSimulator {
  import opened Distinctness
  import opened MulticoreState
  import opened MulticoreDispatch
  import opened MulticoreRoundRobin
  import opened MulticoreStamps
  import opened MulticoreRuns
  import opened MulticoreEnds
  import opened MulticoreHistory
  import RR = RoundRobin

  class Simulator {
    const threads: array<Thread>
    const core: array<int>
    var workload: seq<int>
    var ready: seq<int>
    var waiting: seq<int>
    var finished: seq<int>
    var now: int

    /** Ticks each thread has spent waiting for I/O. */
    ghost var io: seq<int>

    ghost function State(): Sim
      reads this, threads, core
    {
      Sim(threads[..], core[..], workload, ready, waiting, finished, now)
    }

    constructor (jobs: seq<Job>, cores: nat)
      requires forall i :: 0 <= i < |jobs| ==> jobs[i].burst >= 1
      ensures fresh(threads) && fresh(core) && core.Length == cores && threads.Length == |jobs|
      ensures State() == Start(jobs, cores) && io == seq(|jobs|, i => 0)
      ensures Good(State(), io) && StillToCome(State(), 0)
    {
      threads := new Thread[|jobs|](i requires 0 <= i < |jobs| => MakeThread(i + 1, jobs[i]));
      core := new int[cores](c => -1);
      workload := Naturals(|jobs|);
      ready, waiting, finished := [], [], [];
      now := 0;
      io := seq(|jobs|, i => 0);
      new;
      assert State() == Start(jobs, cores);
      StartIsGood(jobs, cores, io);
    }

    // ----- Cores

    method FirstIdle() returns (c: int)
      ensures c == -1 ==> -1 !in core[..]
      ensures c != -1 ==> 0 <= c < core.Length && core[c] == -1 && -1 !in core[..c]
    {
      c := 0;
      while c < core.Length
        invariant 0 <= c <= core.Length && -1 !in core[..c]
      {
        if core[c] == -1 {
          return;
        }
        c := c + 1;
      }
      c := -1;
    }

    method BindCore(c: nat, i: int)
      requires c < core.Length && core[c] == -1 && 0 <= i < threads.Length
      modifies threads, core
      ensures State() == Bind(old(State()), c, i)
    {
      core[c] := i;
      threads[i] := threads[i].(state := Running);
      if threads[i].startTime < 0 {
        threads[i] := threads[i].(startTime := now);
      }
      assert threads[..] == old(threads[..])[i := Bound(old(threads[i]), now)];
    }

    method PreemptToReady(c: nat)
      requires c < core.Length && 0 <= core[c] < threads.Length
      modifies this`ready, threads, core
      ensures State() == Unbind(old(State()), c)
    {
      var i := core[c];
      core[c] := -1;
      threads[i] := threads[i].(state := Ready);
      ready := ready + [i];
    }

    method BlockToWaiting(c: nat, unblockAt: int)
      requires c < core.Length && 0 <= core[c] < threads.Length
      modifies this`waiting, threads, core
      ensures State() == Block(old(State()), c, unblockAt)
    {
      var i := core[c];
      core[c] := -1;
      threads[i] := threads[i].(state := Waiting, unblockedAt := unblockAt, quantaRem := 0);
      waiting := waiting + [i];
    }

    // ----- The ready queue

    /** Takes the first thread, or the first of those with the smallest key, out of the ready queue; -1 when it is
        empty. */
    method PopSelected(select: Select) returns (i: int, ghost k: int)
      requires Indexed(State())
      modifies this`ready
      ensures old(ready) == [] ==> i == -1 && ready == []
      ensures old(ready) != [] ==>
        Selected(threads[..], old(ready), select, k) && i == old(ready)[k]
            && ready == old(ready)[..k] + old(ready)[k + 1..]
      ensures i == -1 <==> old(ready) == []
      ensures i != -1 ==> 0 <= i < threads.Length && AllInTable(threads[..], old(ready))
      ensures i != -1 && select == First ==> i == old(ready)[0]
      ensures i != -1 && select == Smallest(Burst) ==>
        forall j :: j in old(ready) ==> threads[..][i].burst <= threads[..][j].burst
      ensures i != -1 && select == Smallest(Remaining) ==>
        forall j :: j in old(ready) ==> threads[..][i].remaining <= threads[..][j].remaining
      ensures i != -1 && select == Smallest(Priority) ==>
        forall j :: j in old(ready) ==> threads[..][i].priority <= threads[..][j].priority
    {
      if ready == [] {
        return -1, 0;
      }
      var best := 0;
      assert forall h :: 0 <= h < |ready| ==> ready[h] in State().ready;
      if select.Smallest? {
        var j := 1;
        while j < |ready|
          invariant 1 <= j <= |ready| && 0 <= best < j
          invariant forall h :: 0 <= h < j ==>
            RunKey(threads[..], ready[best], select.key) <= RunKey(threads[..], ready[h], select.key)
          invariant forall h :: 0 <= h < best ==>
            RunKey(threads[..], ready[best], select.key) < RunKey(threads[..], ready[h], select.key)
        {
          if KeyOf(threads[ready[j]], select.key) < KeyOf(threads[ready[best]], select.key) {
            best := j;
          }
          j := j + 1;
        }
      }
      i, k := ready[best], best;
      assert i != -1;
      SelectedIsLeast(threads[..], ready, select, k);
      ready := ready[..best] + ready[best + 1..];
    }

    /** A running thread whose key is above both `threshold` and -1, and largest; -1 if there is none. */
    method Victim(threshold: int, key: Key) returns (v: int)
      requires forall c :: 0 <= c < core.Length ==> -1 <= core[c] < threads.Length
      ensures v == -1 <==> forall c :: 0 <= c < core.Length && core[c] != -1 ==>
        RunKey(threads[..], core[c], key) <= threshold || RunKey(threads[..], core[c], key) <= -1
      ensures v != -1 ==> 0 <= v < core.Length && core[v] != -1
      ensures v != -1 ==> RunKey(threads[..], core[v], key) > threshold && RunKey(threads[..], core[v], key) > -1
      ensures v != -1 ==> forall c :: 0 <= c < core.Length && core[c] != -1 ==>
        RunKey(threads[..], core[c], key) <= RunKey(threads[..], core[v], key)
    {
      v := -1;
      var worst := -1;
      var c := 0;
      while c < core.Length
        invariant 0 <= c <= core.Length && -1 <= v < c
        invariant v == -1 ==> worst == -1
        invariant v != -1 ==> core[v] != -1 && worst == RunKey(threads[..], core[v], key) > threshold && worst > -1
        invariant forall d :: 0 <= d < c && core[d] != -1 ==>
          RunKey(threads[..], core[d], key) <= threshold || RunKey(threads[..], core[d], key) <= worst
      {
        if core[c] != -1 {
          var k := KeyOf(threads[core[c]], key);
          if k > threshold && k > worst {
            worst, v := k, c;
          }
        }
        c := c + 1;
      }
    }

    // ----- Dispatch

    /** One round of the loop that fills idle cores; `placed` tells whether there was a core and a thread. */
    method PlaceNext(select: Select) returns (placed: bool, ghost k: int, ghost c: int)
      requires Indexed(State())
      modifies this`ready, threads, core
      ensures placed ==> Placed(old(State()), State(), select, k, c)
      ensures !placed ==> State() == old(State()) && (-1 !in core[..] || ready == [])
    {
      ghost var s := State();
      var idle := FirstIdle();
      if idle == -1 {
        return false, 0, 0;
      }
      var i;
      i, k := PopSelected(select);
      if i == -1 {
        return false, 0, 0;
      }
      assert s.ready[k] in s.ready;
      BindCore(idle, i);
      placed, c := true, idle;
    }

    method FillIdle(select: Select)
      requires Indexed(State()) && EachOnce(State())
      modifies this`ready, threads, core
      ensures Filling(old(State()), State(), select) && Indexed(State()) && AllStamped(old(State()), State())
      ensures -1 !in core[..] || ready == []
      ensures forall c, j :: 0 <= c < core.Length && old(core[..])[c] == -1 && core[..][c] != -1 && j in ready ==>
        0 <= core[..][c] < threads.Length && 0 <= j < threads.Length
        && (select == Smallest(Burst) ==> threads[..][core[..][c]].burst <= threads[..][j].burst)
        && (select == Smallest(Remaining) ==> threads[..][core[..][c]].remaining <= threads[..][j].remaining)
        && (select == Smallest(Priority) ==> threads[..][core[..][c]].priority <= threads[..][j].priority)
    {
      ghost var s0 := State();
      Fill(select);
      forall c, j | 0 <= c < core.Length && s0.core[c] == -1 && core[..][c] != -1 && j in ready
        ensures 0 <= core[..][c] < threads.Length && 0 <= j < threads.Length
        ensures select == Smallest(Burst) ==> threads[..][core[..][c]].burst <= threads[..][j].burst
        ensures select == Smallest(Remaining) ==> threads[..][core[..][c]].remaining <= threads[..][j].remaining
        ensures select == Smallest(Priority) ==> threads[..][core[..][c]].priority <= threads[..][j].priority
      {
        FilledWithLeast(s0, State(), select, c, j);
      }
    }

    /** Selected threads go to idle cores until there is none of either. */
    method Fill(select: Select)
      requires Indexed(State()) && EachOnce(State())
      modifies this`ready, threads, core
      ensures Filling(old(State()), State(), select) && Indexed(State()) && AllStamped(old(State()), State())
      ensures -1 !in core[..] || ready == []
    {
      ghost var s0 := State();
      var placed := true;
      while placed
        invariant Filling(s0, State(), select) && Indexed(State()) && AllStamped(s0, State())
        invariant placed || -1 !in core[..] || ready == []
        decreases placed, IdleCount(State().core)
      {
        ghost var s := State();
        ghost var k, c;
        placed, k, c := PlaceNext(select);
        if placed {
          FillingGoesOn(s0, s, State(), select, k, c);
          PlacedStamps(s0, s, State(), select, k, c);
        }
      }
    }

    /** `best`, just taken from the ready queue, replaces the worst running thread if that one's key is larger, or goes
        back. */
    method PreemptOrPutBack(best: int, key: Key) returns (c: int)
      requires 0 <= best < threads.Length
      requires forall c :: 0 <= c < core.Length ==> -1 <= core[c] < threads.Length
      modifies this`ready, threads, core
      ensures c != -1 ==> 0 <= c < core.Length && 0 <= old(core[c]) < threads.Length
      ensures c != -1 ==> RunKey(old(threads[..]), best, key) < RunKey(old(threads[..]), old(core[c]), key)
      ensures c != -1 ==> -1 < RunKey(old(threads[..]), old(core[c]), key)
      ensures c != -1 ==> State() == Replace(old(State()), c, best)
      ensures c == -1 ==> forall d :: 0 <= d < core.Length && core[d] != -1 ==>
        RunKey(threads[..], core[d], key) <= RunKey(threads[..], best, key) || RunKey(threads[..], core[d], key) <= -1
      ensures c == -1 ==> State() == old(State()).(ready := old(ready) + [best])
    {
      c := Victim(KeyOf(threads[best], key), key);
      if c >= 0 {
        PreemptToReady(c);
        BindCore(c, best);
      } else {
        ready := ready + [best];
      }
    }

    /** One round of `dispatch_srtcf`'s second loop. */
    method SrtcfRound() returns (more: bool, ghost k: int, ghost c: int)
      requires Indexed(State())
      modifies this`ready, threads, core
      ensures more && -1 in old(core[..]) ==> Placed(old(State()), State(), Smallest(Remaining), k, c)
      ensures more && -1 !in old(core[..]) ==> Replaced(old(State()), State(), Remaining, k, c)
      ensures !more && old(ready) == [] ==> State() == old(State())
      ensures !more && old(ready) != [] ==> PutBack(old(State()), State(), Remaining, k) && -1 !in core[..]
    {
      ghost var s := State();
      var best;
      best, k := PopSelected(Smallest(Remaining));
      more, c := false, 0;
      if best == -1 {
        return;
      }
      assert s.ready[k] in s.ready && s.core == core[..] && s.threads == threads[..];
      var idle := FirstIdle();
      if idle >= 0 {
        BindCore(idle, best);
        more, c := true, idle;
      } else {
        var victim := PreemptOrPutBack(best, Remaining);
        more, c := victim != -1, victim;
      }
    }

    /** One round of `dispatch_priority`'s second loop, which does not look for idle cores. */
    method PriorityRound() returns (more: bool, ghost k: int, ghost c: int)
      requires Indexed(State())
      modifies this`ready, threads, core
      ensures more ==> Replaced(old(State()), State(), Priority, k, c)
      ensures !more && old(ready) == [] ==> State() == old(State())
      ensures !more && old(ready) != [] ==> PutBack(old(State()), State(), Priority, k)
    {
      ghost var s := State();
      var best;
      best, k := PopSelected(Smallest(Priority));
      more, c := false, 0;
      if best == -1 {
        return;
      }
      assert s.ready[k] in s.ready && s.core == core[..] && s.threads == threads[..];
      var victim := PreemptOrPutBack(best, Priority);
      more, c := victim != -1, victim;
    }

    method DispatchSrtcf()
      requires Indexed(State()) && EachOnce(State())
      modifies this`ready, threads, core
      ensures Dispatched(old(State()), State()) && NothingToPreempt(State(), Remaining)
      ensures AllStamped(old(State()), State())
      ensures -1 !in core[..] || ready == []
    {
      ghost var s0 := State();
      FillIdle(Smallest(Remaining));
      FilledNewcomers(s0, State(), Remaining);
      var more := true;
      while more
        invariant Indexed(State()) && Dispatched(s0, State())
        invariant AllStamped(s0, State()) && (more ==> Newcomers(s0, State(), Remaining))
        invariant more || ((-1 !in core[..] || ready == []) && NothingToPreempt(State(), Remaining))
        decreases more, IdleCount(State().core), CoreWeight(State().threads, State().core, Remaining)
      {
        ghost var s := State();
        ghost var k, c;
        more, k, c := SrtcfRound();
        if more {
          if -1 in s.core {
            PlacedStep(s0, s, State(), Smallest(Remaining), k, c);
            PlacedStamps(s0, s, State(), Smallest(Remaining), k, c);
            PlacedNewcomers(s0, s, State(), Remaining, k, c);
          } else {
            ReplacedStep(s0, s, State(), Remaining, k, c);
            ReplacedStamps(s0, s, State(), Remaining, k, c);
            ReplacedNewcomers(s0, s, State(), Remaining, k, c);
          }
        } else if s.ready != [] {
          PutBackStep(s0, s, State(), Remaining, k);
          PutBackStamps(s0, s, State(), Remaining, k);
        }
      }
    }

    method DispatchPriority()
      requires Indexed(State()) && EachOnce(State())
      modifies this`ready, threads, core
      ensures DispatchedBy(HighestPriority, old(State()), State())
    {
      ghost var s0 := State();
      FillIdle(Smallest(Priority));
      FilledBestFirst(s0, State(), Priority);
      FilledNewcomers(s0, State(), Priority);
      var more := true;
      while more
        invariant Preempting(s0, State())
        invariant if more then Newcomers(s0, State(), Priority) else NothingToPreempt(State(), Priority)
        decreases more, CoreWeight(State().threads, State().core, Priority)
      {
        ghost var s := State();
        ghost var k, c;
        more, k, c := PriorityRound();
        if more {
          PreemptingGoesOn(s0, s, State(), k, c);
        } else if s.ready != [] {
          PreemptingStops(s0, s, State(), k);
        }
      }
    }

    method PreemptIfExpired(c: nat)
      requires Indexed(State()) && c < core.Length
      modifies this`ready, threads, core
      ensures State() == WithoutExpired(old(State()), c)
    {
      if core[c] != -1 && threads[core[c]].quantaRem == 0 {
        PreemptToReady(c);
      }
    }

    method PreemptExpired()
      requires Indexed(State()) && EachOnce(State())
      modifies this`ready, threads, core
      ensures Dispatched(old(State()), State()) && Indexed(State())
      ensures View(State()) == RR.Preempt(View(old(State())), core.Length)
      ensures AllStamped(old(State()), State())
    {
      ghost var s0 := State();
      var c := 0;
      while c < core.Length
        invariant 0 <= c <= core.Length && State() == WithoutExpiredBefore(s0, c)
      {
        PreemptedIndexed(s0, c);
        PreemptIfExpired(c);
        c := c + 1;
      }
      AllPreempted(s0, c);
      PreemptedStamps(s0, c);
    }

    method BindHead(c: nat, quantum: int)
      requires Indexed(State()) && ready != [] && c < core.Length && core[c] == -1
      requires 0 <= ready[0] < threads.Length
      modifies this`ready, threads, core
      ensures State() == BindFresh(old(State()), c, quantum)
    {
      var i, k := PopSelected(First);
      threads[i] := threads[i].(quantaRem := quantum);
      BindCore(c, i);
    }

    /** False when core `c` is idle and nobody is ready. */
    method FillCore(c: nat, quantum: int) returns (more: bool)
      requires Indexed(State()) && c < core.Length
      modifies this`ready, threads, core
      ensures State() == FilledCore(old(State()), c, quantum)
      ensures more <==> old(core[c]) != -1 || old(ready) != []
    {
      more := core[c] != -1 || ready != [];
      if core[c] == -1 && ready != [] {
        assert ready[0] in State().ready;
        BindHead(c, quantum);
      }
    }

    /** Idle cores take threads from the head of the queue, each with a full slice, until either runs out. */
    method FillWithSlices(quantum: int, ghost start: Sim)
      requires Indexed(State()) && EachOnce(State()) && AllStamped(start, State())
      modifies this`ready, threads, core
      ensures Dispatched(old(State()), State()) && Indexed(State()) && AllStamped(start, State())
      ensures View(State()) == RR.Fill(View(old(State())), core.Length, quantum)
      ensures -1 !in core[..] || ready == []
    {
      ghost var s0 := State();
      var c := 0;
      while c < core.Length
        invariant 0 <= c <= core.Length && State() == FilledCores(s0, c, quantum)
      {
        FilledIndexed(s0, c, quantum);
        var more := FillCore(c, quantum);
        if !more {
          FillStops(s0, c, quantum);
          break;
        }
        c := c + 1;
      }
      AllFilled(s0, quantum);
      FillingStamps(start, s0, core.Length, quantum);
    }

    method DispatchRr(quantum: int)
      requires Indexed(State()) && EachOnce(State())
      modifies this`ready, threads, core
      ensures DispatchedBy(RoundRobin(quantum), old(State()), State())
    {
      ghost var s0 := State();
      PreemptExpired();
      ghost var s1 := State();
      DispatchOnce(s0, s1);
      FillWithSlices(if quantum < 1 then 1 else quantum, s0);
      DispatchedTwice(s0, s1, State());
    }

    method Dispatch(policy: Policy)
      requires Indexed(State()) && EachOnce(State())
      modifies this`ready, threads, core
      ensures DispatchedBy(policy, old(State()), State())
      ensures policy == Sjf ==>
        forall c, j :: 0 <= c < core.Length && old(core[..])[c] == -1 && core[..][c] != -1 && j in ready ==>
          0 <= core[..][c] < threads.Length && 0 <= j < threads.Length
          && threads[..][core[..][c]].burst <= threads[..][j].burst
    {
      match policy
      case Fifo => FillIdle(First);
      case Sjf => FillIdle(Smallest(Burst));
      case Srtcf => DispatchSrtcf();
      case RoundRobin(quantum) => DispatchRr(quantum);
      case HighestPriority => DispatchPriority();
    }

    // ----- The stages of a tick

    method ReadyIf(i: int, now: bool)
      requires 0 <= i < threads.Length
      modifies this`ready, threads
      ensures State() == if now then MadeReady(old(State()), i) else old(State())
    {
      if now {
        threads[i] := threads[i].(state := Ready);
        ready := ready + [i];
      }
    }

    /** Takes the head of the workload: due now, or to be kept. */
    method AdmitHead(ghost s0: Sim, ghost n: nat) returns (i: int, arrived: bool)
      requires Indexed(s0) && n < |s0.workload|
      requires State() == Moved(s0, s0.workload, IsDue(s0.threads, s0.now), n).(workload := s0.workload[n..])
      modifies this`workload, this`ready, threads
      ensures i == s0.workload[n] && arrived == IsDue(s0.threads, s0.now)(i)
      ensures State() == Moved(s0, s0.workload, IsDue(s0.threads, s0.now), n + 1).(workload := s0.workload[n + 1..])
    {
      ghost var due := IsDue(s0.threads, s0.now);
      i := workload[0];
      assert i == s0.workload[n] && i in s0.workload;
      MovedNext(s0, s0.workload, due, n);
      MovedThread(s0, s0.workload, due, n, i);
      workload := workload[1..];
      arrived := threads[i].arrival == now;
      ReadyIf(i, arrived);
    }

    method WorkloadAdmitTick()
      requires Indexed(State())
      modifies this`workload, this`ready, threads
      ensures State() == Admit(old(State()))
    {
      ghost var s0 := State();
      ghost var due := IsDue(s0.threads, s0.now);
      var keep: seq<int> := [];
      ghost var n := 0;
      while workload != []
        invariant 0 <= n <= |s0.workload|
        invariant State() == Moved(s0, s0.workload, due, n).(workload := s0.workload[n..])
        invariant keep == Others(s0.workload[..n], due)
        decreases |workload|
      {
        OthersNext(s0.workload, due, n);
        var i, arrived := AdmitHead(s0, n);
        if !arrived {
          keep := keep + [i];
        }
        n := n + 1;
      }
      assert s0.workload[..n] == s0.workload;
      workload := keep;
    }

    /** Takes the head of the waiting queue: unblocked by now, or to be kept. */
    method ResolveHead(ghost s0: Sim, ghost n: nat) returns (i: int, unblocked: bool)
      requires Indexed(s0) && n < |s0.waiting|
      requires State() == Moved(s0, s0.waiting, IsUnblocked(s0.threads, s0.now), n).(waiting := s0.waiting[n..])
      modifies this`waiting, this`ready, threads
      ensures i == s0.waiting[n] && unblocked == IsUnblocked(s0.threads, s0.now)(i)
      ensures State() == Moved(s0, s0.waiting, IsUnblocked(s0.threads, s0.now), n + 1).(waiting := s0.waiting[n + 1..])
    {
      ghost var back := IsUnblocked(s0.threads, s0.now);
      i := waiting[0];
      assert i == s0.waiting[n] && i in s0.waiting;
      MovedNext(s0, s0.waiting, back, n);
      MovedThread(s0, s0.waiting, back, n, i);
      waiting := waiting[1..];
      unblocked := threads[i].unblockedAt <= now;
      ReadyIf(i, unblocked);
    }

    method WaitingResolve()
      requires Indexed(State())
      modifies this`waiting, this`ready, threads
      ensures State() == Resolve(old(State()))
    {
      ghost var s0 := State();
      ghost var back := IsUnblocked(s0.threads, s0.now);
      var keep: seq<int> := [];
      ghost var n := 0;
      while waiting != []
        invariant 0 <= n <= |s0.waiting|
        invariant State() == Moved(s0, s0.waiting, back, n).(waiting := s0.waiting[n..])
        invariant keep == Others(s0.waiting[..n], back)
        decreases |waiting|
      {
        OthersNext(s0.waiting, back, n);
        var i, unblocked := ResolveHead(s0, n);
        if !unblocked {
          keep := keep + [i];
        }
        n := n + 1;
      }
      assert s0.waiting[..n] == s0.waiting;
      waiting := keep;
    }

    method InterruptOne(c: nat, draw: Interrupt)
      requires Indexed(State()) && c < core.Length
      modifies this`waiting, threads, core
      ensures State() == InterruptCore(old(State()), draw, c)
    {
      if core[c] != -1 {
        if draw.Io? {
          BlockToWaiting(c, now + draw.duration);
        }
      }
    }

    method RandomInterrupts(draws: seq<Interrupt>)
      requires Good(State(), io) && |draws| == core.Length
      modifies this`waiting, threads, core
      ensures State() == Interrupted(old(State()), draws, core.Length)
      ensures Good(State(), io)
    {
      ghost var s0 := State();
      var c := 0;
      while c < core.Length
        invariant 0 <= c <= core.Length
        invariant Good(State(), io) && State() == Interrupted(s0, draws, c)
      {
        GoodIsIndexed(State());
        InterruptKeeps(State(), io, draws[c], c, InterruptCore(State(), draws[c], c));
        InterruptOne(c, draws[c]);
        c := c + 1;
      }
    }

    method BumpQueueWait()
      requires Indexed(State()) && Distinct(ready)
      modifies threads
      ensures State() == Bump(old(State()))
    {
      ghost var before := threads[..];
      var k := 0;
      while k < |ready|
        invariant 0 <= k <= |ready|
        invariant threads[..] == Bumped(before, ready[..k])
      {
        assert ready[k] in State().ready;
        var i := ready[k];
        assert i !in ready[..k];
        threads[i] := threads[i].(waitTime := threads[i].waitTime + 1);
        assert ready[..k + 1] == ready[..k] + [i];
        assert threads[..] == Bumped(before, ready[..k + 1]);
        k := k + 1;
      }
      assert ready[..k] == ready;
    }

    method StepThread(i: int)
      requires 0 <= i < threads.Length
      modifies threads
      ensures threads[..] == old(threads[..])[i := Worked(old(threads[i]))]
    {
      if threads[i].remaining > 0 {
        threads[i] := threads[i].(remaining := threads[i].remaining - 1);
      }
      if threads[i].quantaRem > 0 {
        threads[i] := threads[i].(quantaRem := threads[i].quantaRem - 1);
      }
    }

    method CpuStep()
      requires Indexed(State())
      requires forall c, d :: 0 <= c < d < core.Length && core[c] != -1 ==> core[c] != core[d]
      modifies this`now, threads
      ensures State() == MulticoreState.CpuStep(old(State()))
    {
      ghost var s0 := State();
      ghost var before := threads[..];
      var c := 0;
      while c < core.Length
        invariant 0 <= c <= core.Length
        invariant now == old(now) && threads[..] == WorkedAll(before, core[..c])
      {
        var i := core[c];
        ghost var so := core[..c];
        assert i != -1 ==> i !in so;
        if i != -1 {
          StepThread(i);
        }
        assert core[..c + 1] == so + [i];
        assert threads[..] == WorkedAll(before, core[..c + 1]);
        c := c + 1;
      }
      assert core[..c] == core[..] && s0.threads == before;
      now := now + 1;
    }

    method DecayQueue(q: seq<int>)
      requires Distinct(q) && forall i :: i in q ==> 0 <= i < threads.Length
      modifies threads
      ensures threads[..] == DecayedAll(old(threads[..]), q, [])
    {
      ghost var before := threads[..];
      var k := 0;
      while k < |q|
        invariant 0 <= k <= |q|
        invariant threads[..] == DecayedAll(before, q[..k], [])
      {
        var i := q[k];
        assert i in q && i !in q[..k];
        if threads[i].priority > 0 {
          threads[i] := threads[i].(priority := threads[i].priority - 1);
        }
        assert q[..k + 1] == q[..k] + [i];
        assert threads[..] == DecayedAll(before, q[..k + 1], []);
        k := k + 1;
      }
      assert q[..k] == q;
    }

    method DecayPriority()
      requires Indexed(State()) && Distinct(ready) && Distinct(waiting)
      requires forall i :: i in ready ==> i !in waiting
      modifies threads
      ensures State() == Decay(old(State()))
    {
      ghost var before := threads[..];
      DecayQueue(ready);
      DecayQueue(waiting);
      assert threads[..] == DecayedAll(before, ready, waiting);
    }

    method CollectCompletions()
      requires Indexed(State())
      modifies this`finished, threads, core
      ensures State() == Collect(old(State()), core.Length)
    {
      ghost var s0 := State();
      var c := 0;
      while c < core.Length
        invariant 0 <= c <= core.Length
        invariant Indexed(State()) && State() == Collect(s0, c)
      {
        CollectOne(c);
        c := c + 1;
      }
    }

    method CollectOne(c: nat)
      requires Indexed(State()) && c < core.Length
      modifies this`finished, threads, core
      ensures State() == CollectCore(old(State()), c) && Indexed(State())
    {
      var i := core[c];
      if i != -1 && threads[i].remaining == 0 {
        core[c] := -1;
        threads[i] := threads[i].(state := Finished,
                                  finishTime := if threads[i].finishTime < 0 then now else threads[i].finishTime);
        finished := finished + [i];
      }
    }

    method AllDone() returns (done: bool)
      ensures done <==> Drained(State())
    {
      if ready != [] || waiting != [] {
        return false;
      }
      var c := 0;
      while c < core.Length
        invariant 0 <= c <= core.Length && forall d :: 0 <= d < c ==> core[d] == -1
      {
        if core[c] != -1 {
          return false;
        }
        c := c + 1;
      }
      done := true;
    }

    // ----- The tick loop

    /** One tick of the main loop. `dispatched` is the state just after dispatch. */
    method Tick(policy: Policy, draws: seq<Interrupt>) returns (ghost dispatched: Sim)
      requires Good(State(), io) && |draws| == core.Length
      modifies this, threads, core
      ensures Good(State(), io)
      ensures Ticks(policy, draws, old(State()), dispatched, State())
      ensures Good(dispatched, old(io)) && io == IoAfter(dispatched, old(io))
    {
      ghost var s0 := State();
      GoodIsIndexed(s0);
      AdmitKeeps(s0, io);
      GoodIsIndexed(Admit(s0));
      ResolveKeeps(Admit(s0), io);
      WorkloadAdmitTick();
      WaitingResolve();
      RandomInterrupts(draws);
      ghost var ready1 := State();
      GoodIsIndexed(ready1);
      Dispatch(policy);
      dispatched := State();
      DispatchKeeps(ready1, dispatched, io);
      FinishTick(dispatched);
      io := IoAfter(dispatched, io);
    }

    method FinishTick(ghost s: Sim)
      requires s == State() && Good(s, io)
      modifies this`now, this`finished, threads, core
      ensures State() == TickWork(s) && Good(State(), IoAfter(s, io))
    {
      GoodIsIndexed(s);
      NoThreadTwice(s);
      QueuesApart(s);
      TickWorkKeeps(s, io);
      BumpQueueWait();
      CpuStep();
      DecayPriority();
      CollectCompletions();
    }

    /** As many ticks as there are rows of draws, or fewer if everything drains first. */
    method RunInterrupted(policy: Policy, draws: seq<seq<Interrupt>>) returns (ticks: nat, ghost h: History)
      requires Good(State(), io) && forall n :: 0 <= n < |draws| ==> |draws[n]| == core.Length
      modifies this, threads, core
      ensures Good(State(), io) && IsHistory(policy, draws, h) && |h.dispatches| == ticks
      ensures h.heads[0] == Admit(old(State())) && h.ios[0] == old(io)
      ensures h.heads[ticks] == State() && h.ios[ticks] == io
      ensures ticks <= |draws| && (ticks < |draws| ==> ticks >= 1 && Drained(State()))
      ensures NoneDrained(h)
      ensures SameJobs(old(threads[..]), threads[..])
      ensures old(now) == 0 && old(StillToCome(State(), 0)) && ticks >= 1 ==> StillToCome(State(), now)
    {
      ghost var s0 := State();
      GoodIsIndexed(s0);
      AdmitKeeps(s0, io);
      WorkloadAdmitTick();
      h := History([State()], [], [io]);
      ticks := 0;
      var done := false;
      while ticks < |draws| && !done
        invariant RunWith(policy, draws, s0, old(io), State(), io, h, done) && |h.dispatches| == ticks
      {
        ghost var s, i := State(), io;
        ghost var d := Tick(policy, draws[ticks]);
        RunWithGoesOn(policy, draws, s0, old(io), s, i, h, d, State());
        h := Extended(h, d, State(), io);
        ticks := ticks + 1;
        done := AllDone();
      }
      RunWithEnds(policy, draws, s0, old(io), State(), io, h, done);
    }

    /** The main loop without interrupts. It ends, whatever the policy: at the first tick that leaves nothing active,
        which is not before the last arrival if the arrivals keep the cores busy until then. */
    method Run(policy: Policy) returns (ghost trace: seq<Sim>)
      requires Good(State(), io) && core.Length >= 1 && now == 0 && waiting == []
      requires StillToCome(State(), 0) && forall c :: 0 <= c < core.Length ==> core[c] == -1
      modifies this, threads, core
      ensures Good(State(), io) && io == old(io) && Drained(State()) && StillToCome(State(), now)
      ensures Chain(policy, trace) && |trace| == now && now >= 1 && FairStart(policy, trace[0])
      ensures DispatchedBy(policy, Resolve(Admit(old(State()))), trace[0])
      ensures State() == TickWork(trace[|trace| - 1])
      ensures NoneWasLast(trace)
      ensures SameJobs(old(threads[..]), threads[..])
      ensures StaysBusy(old(threads[..]), core.Length) ==> EverybodyFinished(State())
      ensures EverybodyFinished(State()) ==> StaysBusy(old(threads[..]), 1)
      ensures core.Length == 1 ==> (EverybodyFinished(State()) <==> StaysBusy(old(threads[..]), 1))
    {
      ghost var s0 := State();
      GoodIsIndexed(s0);
      RunFromStart(policy, s0, io);
      WorkloadAdmitTick();
      trace := RunLoop(policy, s0);
      RunFromEnds(policy, s0, State(), io, trace);
    }

    method RunLoop(policy: Policy, ghost s0: Sim) returns (ghost trace: seq<Sim>)
      requires RunFrom(policy, s0, State(), io, [], false)
      modifies this, threads, core
      ensures RunFrom(policy, s0, State(), io, trace, true) && io == old(io)
    {
      trace := [];
      var done := false;
      while !done
        invariant RunFrom(policy, s0, State(), io, trace, done) && io == old(io)
        decreases !done, WorkLeft(State().threads)
      {
        ghost var s := State();
        ghost var d := Tick(policy, NoInterrupts(core.Length));
        RunFromGoesOn(policy, s0, s, old(io), trace, d, State());
        trace := trace + [d];
        done := AllDone();
      }
    }
  }
}
