/** Runs of the Windows-like scheduler, stage by stage: the level of every process
    at every time, who is served before whom, and how long the slices are. */
module PriorityHistory {
  import opened ArrivalOrder
  import opened Timeline
  import opened PriorityBooks

  datatype Event = Admits(i: int) | Ends | Picks(level: nat) | Clock

  /** What the stages of the event loop do to the state. */
  ghost predicate Happens(jobs: seq<Job>, csCost: int, s: Win, s': Win, e: Event)
  {
    && |s.procs| == |jobs| == |s'.procs| && |s.queues| == LEVELS
    && match e
       case Admits(i) =>
         && 0 <= i < |jobs| && i !in s.admitted && i != s.running && jobs[i].arrival == s.now
         && s' == AdmittedOne(s, i)
       case Ends => 0 <= s.running < |jobs| && s.now == s.sliceEnd && s' == SliceEnded(s)
       case Picks(level) =>
         && s.running == -1 && level < LEVELS && s.queues[level] != [] && 0 <= s.queues[level][0] < |jobs|
         && (forall l :: level < l < LEVELS ==> s.queues[l] == [])
         && s' == Picked(jobs, s, level, csCost)
       case Clock => NextEvent(jobs, s, s'.now) && s' == s.(now := s'.now)
  }

  /** The clock moves only while somebody runs or nobody is ready: to the end of the slice or to an arrival, whichever
      is first. */
  ghost predicate NextEvent(jobs: seq<Job>, s: Win, now: int)
  {
    && (s.running != -1 || s.ready == {})
    && ((s.running != -1 && now == s.sliceEnd) || SomebodyComes(jobs, s.admitted, now))
    && (s.running != -1 ==> now <= s.sliceEnd)
    && forall i :: 0 <= i < |jobs| && i !in s.admitted ==> now <= jobs[i].arrival
  }

  ghost predicate SomebodyComes(jobs: seq<Job>, admitted: set<int>, t: int)
  {
    exists i :: 0 <= i < |jobs| && i !in admitted && jobs[i].arrival == t
  }

  lemma NextArrival(jobs: seq<Job>, arrivals: seq<Arrival>, ai: nat, admitted: set<int>)
    requires Lists(arrivals, Times(jobs)) && ai <= |arrivals| && Coming(arrivals, ai, admitted)
    ensures ai < |arrivals| ==> SomebodyComes(jobs, admitted, arrivals[ai].t)
    ensures forall i :: 0 <= i < |jobs| && i !in admitted ==> ai < |arrivals| && arrivals[ai].t <= jobs[i].arrival
  {
    if ai < |arrivals| {
      assert arrivals[ai].idx !in admitted && jobs[arrivals[ai].idx].arrival == arrivals[ai].t;
    }
    forall i | 0 <= i < |jobs| && i !in admitted
      ensures ai < |arrivals| && arrivals[ai].t <= jobs[i].arrival
    {
      assert Arrival(Times(jobs)[i], i) in arrivals;
      var k :| 0 <= k < |arrivals| && arrivals[k] == Arrival(Times(jobs)[i], i);
      assert k >= ai;
    }
  }

  // ----- Levels

  /** Everybody queued is in the queue of its own level, and not running. */
  ghost predicate LevelsOk(s: Win)
  {
    var natural := forall i :: 0 <= i < |s.procs| ==> 0 <= s.procs[i].dynPrio < LEVELS;
    var queued := |s.queues| == LEVELS
                  && forall l, k :: 0 <= l < LEVELS && 0 <= k < |s.queues[l]| ==> QueuedRight(s, l, s.queues[l][k]);
    natural && queued
  }

  ghost predicate QueuedRight(s: Win, l: int, x: int)
  {
    0 <= x < |s.procs| && x in s.ready && s.procs[x].dynPrio == l
  }

  /** An unfinished process is put last in the queue one level below its own, or in the lowest; nothing else moves. */
  ghost predicate DropsLevel(s: Win, s': Win, i: int)
  {
    && 0 <= i < |s.procs| == |s'.procs| && |s.queues| == LEVELS && s'.running == -1
    && s'.procs[i].remaining == s.procs[i].remaining - (s.sliceEnd - s.sliceStart)
    && (forall j :: 0 <= j < |s.procs| && j != i ==> s'.procs[j] == s.procs[j])
    && var was, level := s.procs[i].dynPrio, s'.procs[i].dynPrio;
       if s'.procs[i].remaining <= 0 then
         s'.procs[i].completion == s.sliceEnd && s'.queues == s.queues && level == was
       else
         && level == (if was == 0 then 0 else was - 1) && 0 <= level < LEVELS
         && s'.procs[i].lastEnq == s.now
         && s'.queues == s.queues[level := s.queues[level] + [i]]
  }

  lemma SliceEndDrops(s: Win)
    requires 0 <= s.running < |s.procs| && LevelsOk(s) && s.sliceStart <= s.sliceEnd
    ensures DropsLevel(s, SliceEnded(s), s.running)
  {
  }

  /** The head of the highest queue with anybody in it runs after any switching cost: to its end, or for 6 ticks and one
      more for every two levels. It gains a level if it has waited for more than 10 ticks, unless it is at the top. */
  ghost predicate StartsHead(jobs: seq<Job>, csCost: int, s: Win, s': Win, level: nat)
  {
    && |s.procs| == |s'.procs| && level < LEVELS == |s.queues| && s.queues[level] != []
    && (forall l :: level < l < LEVELS ==> s.queues[l] == [])
    && var i := s.queues[level][0];
       && 0 <= i < |s.procs| && s'.running == i && s.procs[i].dynPrio == level
       && s'.queues == s.queues[level := s.queues[level][1..]]
       && (forall j :: 0 <= j < |s.procs| && j != i ==> s'.procs[j] == s.procs[j])
       && s'.procs[i].remaining == s.procs[i].remaining
       && s'.now == s'.sliceStart == s.now + (if csCost > 0 then csCost else 0)
       && SliceLength(level, s.procs[i].remaining, s'.sliceEnd - s'.sliceStart)
       && s'.procs[i].dynPrio == if s.now - s.procs[i].lastEnq > 10 && level < 15 then level + 1 else level
  }

  ghost predicate SliceLength(level: int, left: int, run: int)
  {
    && run <= left && 2 * run <= 12 + level
    && (run < left ==> 2 * run >= 11 + level)
  }

  lemma QuantumLength(level: int, left: int)
    requires level >= 0
    ensures SliceLength(level, left, if left < Quantum(level) then left else Quantum(level))
  {
  }

  lemma PickStarts(jobs: seq<Job>, csCost: int, s: Win, level: nat)
    requires BooksOk(jobs, s) && LevelsOk(s) && s.running == -1 && level < LEVELS && s.queues[level] != []
    requires forall l :: level < l < LEVELS ==> s.queues[l] == []
    ensures 0 <= s.queues[level][0] < |s.procs|
    ensures StartsHead(jobs, csCost, s, Picked(jobs, s, level, csCost), level)
  {
    assert QueuedRight(s, level, s.queues[level][0]);
    assert BookAt(jobs, s, s.queues[level][0]);
    QuantumLength(level, s.procs[s.queues[level][0]].remaining);
  }

  // ----- Every stage keeps everybody at its level

  lemma QueuedAreReady(s: Win)
    requires QueuesHold(s.queues, s.ready)
    ensures forall l, k :: 0 <= l < LEVELS && 0 <= k < |s.queues[l]| ==> s.queues[l][k] in s.ready
  {
    forall l, k | 0 <= l < LEVELS && 0 <= k < |s.queues[l]|
      ensures s.queues[l][k] in s.ready
    {
      QueuedIsReady(s.queues, l, LEVELS, s.queues[l][k]);
    }
  }

  /** Process `i` joins the queue of its level; nobody else's level or place has changed. */
  lemma JoinKeepsLevels(s: Win, s': Win, i: int, level: nat)
    requires LevelsOk(s) && 0 <= i < |s.procs| == |s'.procs| && i !in s.ready && level < LEVELS
    requires s'.procs[i].dynPrio == level && s'.queues == s.queues[level := s.queues[level] + [i]]
    requires s'.ready == s.ready + {i} && forall j :: 0 <= j < |s.procs| && j != i ==> s'.procs[j] == s.procs[j]
    ensures LevelsOk(s')
  {
    forall l, k | 0 <= l < LEVELS && 0 <= k < |s'.queues[l]|
      ensures QueuedRight(s', l, s'.queues[l][k])
    {
      assert k < |s.queues[l]| ==> QueuedRight(s, l, s.queues[l][k]);
    }
  }

  lemma PickKeepsLevels(jobs: seq<Job>, csCost: int, s: Win, s': Win, level: nat)
    requires BooksOk(jobs, s) && LevelsOk(s) && StartsHead(jobs, csCost, s, s', level)
    requires s'.ready == s.ready - {s.queues[level][0]}
    ensures LevelsOk(s')
  {
    PopHolds(s.queues, s.ready, level);
    QueuedAreReady(s');
    forall l, k | 0 <= l < LEVELS && 0 <= k < |s'.queues[l]|
      ensures QueuedRight(s', l, s'.queues[l][k])
    {
      assert QueuedRight(s, l, s.queues[l][if l == level then k + 1 else k]);
    }
  }

  lemma LevelsKept(jobs: seq<Job>, csCost: int, s: Win, s': Win, e: Event)
    requires BooksOk(jobs, s) && LevelsOk(s) && Happens(jobs, csCost, s, s', e)
    ensures LevelsOk(s')
  {
    match e
    case Admits(i) => JoinKeepsLevels(s, s', i, s.procs[i].dynPrio);
    case Ends =>
      EndedBook(jobs, s);
      SliceEndDrops(s);
      if s'.procs[s.running].remaining > 0 {
        JoinKeepsLevels(s, s', s.running, s'.procs[s.running].dynPrio);
      } else {
        SameQueuesKeepLevels(s, s');
      }
    case Picks(level) =>
      PickStarts(jobs, csCost, s, level);
      PickKeepsLevels(jobs, csCost, s, s', level);
    case Clock => SameQueuesKeepLevels(s, s');
  }

  lemma EndedBook(jobs: seq<Job>, s: Win)
    requires BooksOk(jobs, s) && s.running != -1
    ensures 0 <= s.running < |s.procs| && s.sliceStart <= s.sliceEnd && s.running !in s.ready
  {
    assert BookAt(jobs, s, s.running);
  }

  lemma SameQueuesKeepLevels(s: Win, s': Win)
    requires LevelsOk(s) && s'.queues == s.queues && s'.ready == s.ready && |s'.procs| == |s.procs|
    requires forall i :: 0 <= i < |s.procs| ==> s'.procs[i].dynPrio == s.procs[i].dynPrio
    ensures LevelsOk(s')
  {
    forall l, k | 0 <= l < LEVELS && 0 <= k < |s'.queues[l]|
      ensures QueuedRight(s', l, s'.queues[l][k])
    {
      assert QueuedRight(s, l, s.queues[l][k]);
    }
  }

  // ----- The level of a process

  /** Read off two states in a row: one down, but not below 0, when a slice of `i` has ended and left something to do;
      one up, but not above 15, when it starts after more than 10 ticks in its queue. */
  ghost function NextLevel(s: Win, s': Win, i: int, level: int): int
    requires 0 <= i < |s.procs| == |s'.procs|
  {
    if s.running == i && s'.running != i && s'.procs[i].remaining > 0 then if level == 0 then 0 else level - 1
    else if s.running != i && s'.running == i && s.now - s.procs[i].lastEnq > 10 then
      if level == 15 then 15 else level + 1
    else level
  }

  lemma LevelMoves(jobs: seq<Job>, csCost: int, s: Win, s': Win, e: Event, i: int)
    requires BooksOk(jobs, s) && LevelsOk(s) && Happens(jobs, csCost, s, s', e) && 0 <= i < |jobs|
    ensures s'.procs[i].dynPrio == NextLevel(s, s', i, s.procs[i].dynPrio)
  {
    match e
    case Admits(_) =>
    case Ends =>
      EndedBook(jobs, s);
      SliceEndDrops(s);
    case Picks(level) => PickStarts(jobs, csCost, s, level);
    case Clock =>
  }

  // ----- Runs

  ghost predicate HappensAt(jobs: seq<Job>, csCost: int, states: seq<Win>, events: seq<Event>, t: nat)
    requires t < |events| == |states| - 1
  {
    && BooksOk(jobs, states[t]) && BooksOk(jobs, states[t + 1])
    && Happens(jobs, csCost, states[t], states[t + 1], events[t])
  }

  /** Everybody at the level of its base priority, brought into the range from 0 to 15; nobody queued. */
  ghost predicate AtBase(jobs: seq<Job>, s: Win)
  {
    && |s.procs| == |jobs| && |s.queues| == LEVELS && (forall l :: 0 <= l < LEVELS ==> s.queues[l] == [])
    && forall i :: 0 <= i < |jobs| ==> s.procs[i].dynPrio == BaseLevel(jobs[i].priority)
  }

  function BaseLevel(priority: int): (level: int)
    ensures 0 <= level <= 15 && (0 <= priority <= 15 ==> level == priority)
    ensures (priority <= 0 ==> level == 0) && (priority >= 15 ==> level == 15)
  {
    Clamp(priority)
  }

  ghost predicate IsRun(jobs: seq<Job>, csCost: int, states: seq<Win>, events: seq<Event>)
  {
    && |states| == |events| + 1 && AtBase(jobs, states[0])
    && forall t :: 0 <= t < |events| ==> HappensAt(jobs, csCost, states, events, t)
  }

  /** Nothing has happened yet. */
  ghost predicate Fresh(jobs: seq<Job>, s: Win)
  {
    && |s.procs| == |jobs| && s.queues == seq(LEVELS, l => []) && s.gantt == [] && s.owners == []
    && s.admitted == s.ready == {} && s.running == -1 && s.now == s.busy == 0
    && forall i :: 0 <= i < |jobs| ==>
         s.procs[i] == Proc(jobs[i].burst, -1, -1, 0, -1, BaseLevel(jobs[i].priority), 0.0)
  }

  lemma FreshStarts(jobs: seq<Job>, csCost: int, s: Win)
    requires JobsOk(jobs) && Fresh(jobs, s)
    ensures BooksOk(jobs, s) && IsRun(jobs, csCost, [s], [])
  {
    NothingDone(s.procs, Bursts(jobs));
    EmptyQueues(s.queues, LEVELS);
  }

  lemma RunGoesOn(jobs: seq<Job>, csCost: int, states: seq<Win>, events: seq<Event>, s': Win, e: Event)
    requires IsRun(jobs, csCost, states, events) && BooksOk(jobs, states[|events|]) && BooksOk(jobs, s')
    requires Happens(jobs, csCost, states[|events|], s', e)
    ensures IsRun(jobs, csCost, states + [s'], events + [e])
  {
    forall t | 0 <= t < |events| + 1
      ensures HappensAt(jobs, csCost, states + [s'], events + [e], t)
    {
      assert t < |events| ==> HappensAt(jobs, csCost, states, events, t);
    }
  }

  lemma {:induction false} LevelsAlwaysOk(jobs: seq<Job>, csCost: int, states: seq<Win>, events: seq<Event>, t: nat)
    requires IsRun(jobs, csCost, states, events) && t < |states|
    ensures LevelsOk(states[t]) && |states[t].procs| == |jobs|
  {
    if t > 0 {
      LevelsAlwaysOk(jobs, csCost, states, events, t - 1);
      assert HappensAt(jobs, csCost, states, events, t - 1);
      LevelsKept(jobs, csCost, states[t - 1], states[t], events[t - 1]);
    }
  }

  lemma LevelMovesAt(jobs: seq<Job>, csCost: int, states: seq<Win>, events: seq<Event>, i: int, t: nat)
    requires IsRun(jobs, csCost, states, events) && t < |events| && 0 <= i < |jobs|
    ensures |states[t].procs| == |states[t + 1].procs| == |jobs|
    ensures states[t + 1].procs[i].dynPrio == NextLevel(states[t], states[t + 1], i, states[t].procs[i].dynPrio)
  {
    LevelsAlwaysOk(jobs, csCost, states, events, t);
    assert HappensAt(jobs, csCost, states, events, t);
    LevelMoves(jobs, csCost, states[t], states[t + 1], events[t], i);
  }

  /** The base level, moved by every expired slice and every start after a long wait so far. */
  ghost function LevelAfter(jobs: seq<Job>, states: seq<Win>, i: int, t: nat): int
    requires t < |states| && 0 <= i < |jobs| && forall u :: 0 <= u <= t ==> |states[u].procs| == |jobs|
  {
    if t == 0 then BaseLevel(jobs[i].priority)
    else NextLevel(states[t - 1], states[t], i, LevelAfter(jobs, states, i, t - 1))
  }

  /** In every run, at every time, the level of a process is its base level less the slices that have expired plus the
      agings, kept between 0 and 15 at every step. */
  lemma {:induction false} LevelsTell(jobs: seq<Job>, csCost: int, states: seq<Win>, events: seq<Event>, i: int, t: nat)
    requires IsRun(jobs, csCost, states, events) && t < |states| && 0 <= i < |jobs|
    ensures forall u :: 0 <= u <= t ==> |states[u].procs| == |jobs|
    ensures states[t].procs[i].dynPrio == LevelAfter(jobs, states, i, t)
  {
    if t > 0 {
      LevelsTell(jobs, csCost, states, events, i, t - 1);
      LevelMovesAt(jobs, csCost, states, events, i, t - 1);
    }
  }

  /** In every run the clock moves with nobody running only when everybody admitted has finished. */
  lemma IdleMeansFinished(jobs: seq<Job>, csCost: int, states: seq<Win>, events: seq<Event>, t: nat, i: int)
    requires IsRun(jobs, csCost, states, events) && t < |events| && events[t] == Clock && states[t].running == -1
    requires i in states[t].admitted
    ensures 0 <= i < |states[t].procs| && states[t].procs[i].remaining == 0
  {
    assert HappensAt(jobs, csCost, states, events, t);
    assert BookAt(jobs, states[t], i);
  }

  // ----- Who is served before whom

  ghost predicate At(s: Win, l: int, k: int, x: int)
  {
    0 <= l < |s.queues| && 0 <= k < |s.queues[l]| && s.queues[l][k] == x
  }

  /** `x` is queued in a higher level than `y`, or in the same one before it. */
  ghost predicate Ahead(s: Win, x: int, y: int)
  {
    exists l, k, m, n :: At(s, l, k, x) && At(s, m, n, y) && (l > m || (l == m && k < n))
  }

  lemma AddedBehind(s: Win, s': Win, level: nat, i: int, x: int, y: int)
    requires level < |s.queues| && s'.queues == s.queues[level := s.queues[level] + [i]] && Ahead(s, x, y)
    ensures Ahead(s', x, y)
  {
    var l, k, m, n :| At(s, l, k, x) && At(s, m, n, y) && (l > m || (l == m && k < n));
    assert At(s', l, k, x) && At(s', m, n, y);
  }

  lemma TakenBefore(s: Win, s': Win, level: nat, x: int, y: int)
    requires level < |s.queues| && s.queues[level] != [] && forall l :: level < l < |s.queues| ==> s.queues[l] == []
    requires s'.queues == s.queues[level := s.queues[level][1..]] && Ahead(s, x, y) && s.queues[level][0] != x
    ensures Ahead(s', x, y)
  {
    var l, k, m, n :| At(s, l, k, x) && At(s, m, n, y) && (l > m || (l == m && k < n));
    assert At(s', l, if l == level then k - 1 else k, x);
    assert At(s', m, if m == level then n - 1 else n, y);
  }

  /** Whoever is ahead stays ahead until it is served. */
  lemma StaysAhead(jobs: seq<Job>, csCost: int, s: Win, s': Win, e: Event, x: int, y: int)
    requires BooksOk(jobs, s) && LevelsOk(s) && Happens(jobs, csCost, s, s', e)
    requires Ahead(s, x, y) && s'.running != x
    ensures Ahead(s', x, y)
  {
    match e
    case Admits(i) => AddedBehind(s, s', Clamp(s.procs[i].dynPrio), i, x, y);
    case Ends =>
      EndedBook(jobs, s);
      SliceEndDrops(s);
      if s'.procs[s.running].remaining > 0 {
        AddedBehind(s, s', s'.procs[s.running].dynPrio, s.running, x, y);
      } else {
        SameQueuesSameOrder(s, s', x, y);
      }
    case Picks(level) => TakenBefore(s, s', level, x, y);
    case Clock => SameQueuesSameOrder(s, s', x, y);
  }

  lemma SameQueuesSameOrder(s: Win, s': Win, x: int, y: int)
    requires s'.queues == s.queues && Ahead(s, x, y)
    ensures Ahead(s', x, y)
  {
    var l, k, m, n :| At(s, l, k, x) && At(s, m, n, y) && (l > m || (l == m && k < n));
    assert At(s', l, k, x) && At(s', m, n, y);
  }

  ghost predicate ServedIn(states: seq<Win>, x: int, t: int, u: int)
  {
    exists v :: t < v < u && 0 <= v < |states| && states[v].running == x
  }

  lemma StaysAheadAt(jobs: seq<Job>, csCost: int, states: seq<Win>, events: seq<Event>, x: int, y: int, t: nat)
    requires IsRun(jobs, csCost, states, events) && t < |events| && Ahead(states[t], x, y) && states[t + 1].running != x
    ensures Ahead(states[t + 1], x, y)
  {
    LevelsAlwaysOk(jobs, csCost, states, events, t);
    assert HappensAt(jobs, csCost, states, events, t);
    StaysAhead(jobs, csCost, states[t], states[t + 1], events[t], x, y);
  }

  lemma {:induction false} AheadUntilServed(jobs: seq<Job>, csCost: int, states: seq<Win>, events: seq<Event>,
                                            x: int, y: int, t: nat, u: nat)
    requires IsRun(jobs, csCost, states, events) && t <= u < |states| && Ahead(states[t], x, y)
    requires forall v :: t < v <= u ==> states[v].running != x
    ensures Ahead(states[u], x, y)
  {
    if t < u {
      AheadUntilServed(jobs, csCost, states, events, x, y, t, u - 1);
      StaysAheadAt(jobs, csCost, states, events, x, y, u - 1);
    }
  }

  lemma NotRunningWhileBehind(jobs: seq<Job>, s: Win, x: int, y: int)
    requires BooksOk(jobs, s) && LevelsOk(s) && Ahead(s, x, y)
    ensures s.running != y && y in s.ready && x in s.ready
  {
    var l, k, m, n :| At(s, l, k, x) && At(s, m, n, y) && (l > m || (l == m && k < n));
    assert QueuedRight(s, l, x) && QueuedRight(s, m, y);
  }

  /** In every run a process is served only after everybody who was ahead of it. */
  lemma ServedInOrder(jobs: seq<Job>, csCost: int, states: seq<Win>, events: seq<Event>, x: int, y: int, t: nat, u: nat)
    requires IsRun(jobs, csCost, states, events) && t < u < |states| && Ahead(states[t], x, y)
    requires states[u].running == y && x != y
    ensures ServedIn(states, x, t, u)
  {
    if !ServedIn(states, x, t, u) {
      AheadUntilServed(jobs, csCost, states, events, x, y, t, u - 1);
      StaysAheadAt(jobs, csCost, states, events, x, y, u - 1);
      NotRunningAt(jobs, csCost, states, events, x, y, u);
    }
  }

  lemma NotRunningAt(jobs: seq<Job>, csCost: int, states: seq<Win>, events: seq<Event>, x: int, y: int, u: nat)
    requires IsRun(jobs, csCost, states, events) && 0 < u < |states| && Ahead(states[u], x, y)
    ensures states[u].running != y
  {
    LevelsAlwaysOk(jobs, csCost, states, events, u);
    assert HappensAt(jobs, csCost, states, events, u - 1);
    NotRunningWhileBehind(jobs, states[u], x, y);
  }

  /** An unfinished process whose slice has expired queues behind everybody at its old level, at the next one below and
      higher up, and in front of everybody lower down. */
  lemma ExpiredQueuesBehind(jobs: seq<Job>, s: Win, s': Win, l: int, k: int, x: int)
    requires BooksOk(jobs, s) && LevelsOk(s) && 0 <= s.running < |jobs| && s' == SliceEnded(s)
    requires s'.procs[s.running].remaining > 0 && At(s, l, k, x)
    ensures l >= s.procs[s.running].dynPrio - 1 ==> Ahead(s', x, s.running)
    ensures l < s.procs[s.running].dynPrio - 1 ==> Ahead(s', s.running, x)
  {
    EndedBook(jobs, s);
    SliceEndDrops(s);
    var i := s.running;
    var level := s'.procs[i].dynPrio;
    assert At(s', l, k, x) && At(s', level, |s.queues[level]|, i);
  }

  /** In every run, after its slice has expired at time `t` a process is not served again before everybody who was then
      queued at its level, at the next one below or higher up. */
  lemma ExpiredWaitsItsTurn(jobs: seq<Job>, csCost: int, states: seq<Win>, events: seq<Event>, t: nat, u: nat,
                            l: int, k: int, x: int)
    requires IsRun(jobs, csCost, states, events) && t + 1 < u < |states| && events[t] == Ends
    requires |states[t].procs| == |states[t + 1].procs| == |jobs| && 0 <= states[t].running < |jobs|
    requires states[t + 1].procs[states[t].running].remaining > 0 && states[u].running == states[t].running
    requires At(states[t], l, k, x) && l >= states[t].procs[states[t].running].dynPrio - 1
    ensures ServedIn(states, x, t + 1, u)
  {
    ExpiredBehindAt(jobs, csCost, states, events, t, l, k, x);
    ServedInOrder(jobs, csCost, states, events, x, states[t].running, t + 1, u);
  }

  lemma ExpiredBehindAt(jobs: seq<Job>, csCost: int, states: seq<Win>, events: seq<Event>, t: nat, l: int, k: int,
                        x: int)
    requires IsRun(jobs, csCost, states, events) && t < |events| && events[t] == Ends
    requires |states[t].procs| == |states[t + 1].procs| == |jobs| && 0 <= states[t].running < |jobs|
    requires states[t + 1].procs[states[t].running].remaining > 0
    requires At(states[t], l, k, x) && l >= states[t].procs[states[t].running].dynPrio - 1
    ensures Ahead(states[t + 1], x, states[t].running) && x != states[t].running
  {
    LevelsAlwaysOk(jobs, csCost, states, events, t);
    assert HappensAt(jobs, csCost, states, events, t);
    ExpiredQueuesBehind(jobs, states[t], states[t + 1], l, k, x);
    assert QueuedRight(states[t], l, x);
  }

  /** Waiting alone lifts nobody: as long as a process stays queued it stays at its level. */
  lemma {:induction false} QueuedStaysAtLevel(jobs: seq<Job>, csCost: int, states: seq<Win>, events: seq<Event>, i: int,
                                              t: nat, u: nat)
    requires IsRun(jobs, csCost, states, events) && t <= u < |states| && 0 <= i < |jobs|
    requires forall v: nat :: t <= v <= u ==> states[v].running != i && i in states[v].ready
    ensures |states[t].procs| == |states[u].procs| == |jobs|
    ensures states[u].procs[i].dynPrio == states[t].procs[i].dynPrio
  {
    LevelsAlwaysOk(jobs, csCost, states, events, t);
    if t < u {
      QueuedStaysAtLevel(jobs, csCost, states, events, i, t, u - 1);
      LevelMovesAt(jobs, csCost, states, events, i, u - 1);
    }
  }

  /** What a pick does, its books and what it says of levels and slices. */
  lemma PickFacts(jobs: seq<Job>, csCost: int, states: seq<Win>, events: seq<Event>, s: Win, level: nat)
    requires IsRun(jobs, csCost, states, events) && states[|events|] == s && BooksOk(jobs, s)
    requires s.running == -1 && level < LEVELS && s.queues[level] != []
    requires forall l :: level < l < LEVELS ==> s.queues[l] == []
    ensures 0 <= s.queues[level][0] < |s.procs| && s.queues[level][0] in s.ready
    ensures var s' := Picked(jobs, s, level, csCost);
            BooksOk(jobs, s') && StartsHead(jobs, csCost, s, s', level) && ToDo(jobs, s') == ToDo(jobs, s)
            && Happens(jobs, csCost, s, s', Picks(level))
  {
    LevelsAlwaysOk(jobs, csCost, states, events, |events|);
    PickKeeps(jobs, s, level, csCost);
    PickStarts(jobs, csCost, s, level);
    TakenCount(jobs, s, level, csCost);
  }

  lemma SliceEndFacts(jobs: seq<Job>, csCost: int, states: seq<Win>, events: seq<Event>, s: Win)
    requires IsRun(jobs, csCost, states, events) && states[|events|] == s && BooksOk(jobs, s)
    requires s.running != -1 && s.now == s.sliceEnd
    ensures 0 <= s.running < |s.procs| && s.running !in s.ready
    ensures var s' := SliceEnded(s);
            BooksOk(jobs, s') && DropsLevel(s, s', s.running) && ToDo(jobs, s') < ToDo(jobs, s)
            && Happens(jobs, csCost, s, s', Ends)
  {
    LevelsAlwaysOk(jobs, csCost, states, events, |events|);
    EndedBook(jobs, s);
    SliceEndKeeps(jobs, s);
    SliceEndDrops(s);
    SliceEndProgress(jobs, s);
  }
}
