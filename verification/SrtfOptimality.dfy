/** One CPU, unit ticks, preemption at every tick: running the job with the
    shortest remaining time minimises the sum of completion times. */
module SrtfOptimality {
  import opened Arithmetic

  datatype Job = Job(arrival: int, burst: int)

  const INT_MAX := 2147483647

  // ----- Schedules

  /** `sched[u]` is the index of the job that runs in tick `u`; any other number is an idle tick. */
  function Running(sched: seq<int>, u: nat): int
  {
    if u < |sched| then sched[u] else -1
  }

  /** Work left for job `i` at the start of tick `t`. */
  function Rem(jobs: seq<Job>, sched: seq<int>, i: nat, t: nat): int
    requires i < |jobs|
  {
    if t == 0 then jobs[i].burst
    else
      var r := Rem(jobs, sched, i, t - 1);
      if Running(sched, t - 1) == i && r > 0 then r - 1 else r
  }

  /** No job runs before it arrives. */
  ghost predicate Respects(jobs: seq<Job>, sched: seq<int>)
  {
    forall u :: 0 <= u < |sched| && 0 <= sched[u] < |jobs| ==> jobs[sched[u]].arrival <= u
  }

  /** Job `i` has work left until tick `c` and none from then on. */
  ghost predicate CompletesAt(jobs: seq<Job>, sched: seq<int>, i: nat, c: nat)
    requires i < |jobs|
  {
    c > 0 && Rem(jobs, sched, i, c - 1) > 0 && Rem(jobs, sched, i, c) == 0
  }

  ghost predicate CompletionTimes(jobs: seq<Job>, sched: seq<int>, times: seq<nat>)
  {
    |times| == |jobs| && forall i :: 0 <= i < |jobs| ==> CompletesAt(jobs, sched, i, times[i])
  }

  // ----- The choice made at each tick

  ghost predicate Ready(jobs: seq<Job>, rem: seq<int>, t: int, i: int)
    requires |rem| == |jobs|
  {
    0 <= i < |jobs| && jobs[i].arrival <= t && 0 < rem[i] < INT_MAX
  }

  ghost predicate Shortest(jobs: seq<Job>, rem: seq<int>, t: int, choice: int)
    requires |rem| == |jobs|
  {
    if choice == -1 then forall i :: !Ready(jobs, rem, t, i)
    else Ready(jobs, rem, t, choice) && forall i :: Ready(jobs, rem, t, i) ==> rem[choice] <= rem[i]
  }

  function Rems(jobs: seq<Job>, sched: seq<int>, t: nat): (rem: seq<int>)
    ensures |rem| == |jobs| && forall i :: 0 <= i < |jobs| ==> rem[i] == Rem(jobs, sched, i, t)
  {
    seq(|jobs|, i requires 0 <= i < |jobs| => Rem(jobs, sched, i, t))
  }

  ghost predicate ShortestAt(jobs: seq<Job>, sched: seq<int>, u: nat)
    requires u < |sched|
  {
    Shortest(jobs, Rems(jobs, sched, u), u, sched[u])
  }

  /** Every tick goes to an arrived job with the least remaining time. */
  ghost predicate Greedy(jobs: seq<Job>, sched: seq<int>)
  {
    forall u :: 0 <= u < |sched| ==> ShortestAt(jobs, sched, u)
  }

  // ----- Slack: how far the arrived jobs have got below a threshold

  function Below(live: bool, r: int, h: int): int
  {
    if live && r < h then h - r else 0
  }

  /** Sum over the arrived jobs of how much less than `h` they have left. */
  ghost function Slack(live: seq<bool>, rem: seq<int>, h: int): int
    requires |live| == |rem|
  {
    if rem == [] then 0
    else
      var n := |rem| - 1;
      Slack(live[..n], rem[..n], h) + Below(live[n], rem[n], h)
  }

  /** The number of arrived jobs with at most `h` left. */
  ghost function AtMost(live: seq<bool>, rem: seq<int>, h: int): int
    requires |live| == |rem|
  {
    if rem == [] then 0
    else
      var n := |rem| - 1;
      AtMost(live[..n], rem[..n], h) + if live[n] && rem[n] <= h then 1 else 0
  }

  lemma {:induction false} SlackGrows(live: seq<bool>, rem: seq<int>, h: int)
    requires |live| == |rem|
    ensures Slack(live, rem, h + 1) == Slack(live, rem, h) + AtMost(live, rem, h)
  {
    if rem != [] {
      var n := |rem| - 1;
      SlackGrows(live[..n], rem[..n], h);
    }
  }

  lemma {:induction false} SlackAfterTick(live: seq<bool>, rem: seq<int>, i: nat, h: int)
    requires |live| == |rem| && i < |rem| && live[i]
    ensures Slack(live, rem[i := rem[i] - 1], h) == Slack(live, rem, h) + if rem[i] <= h then 1 else 0
  {
    var n := |rem| - 1;
    var rem' := rem[i := rem[i] - 1];
    if i == n {
      assert rem'[..n] == rem[..n];
    } else {
      SlackAfterTick(live[..n], rem[..n], i, h);
      assert rem'[..n] == rem[..n][i := rem[i] - 1];
    }
  }

  /** `h` times the number of jobs at or below `h` bounds the slack, with room for any one job's remainder. */
  lemma {:induction false} SlackBound(live: seq<bool>, rem: seq<int>, h: int)
    requires |live| == |rem| && h >= 0 && forall i :: 0 <= i < |rem| ==> rem[i] >= 0
    ensures Slack(live, rem, h) <= h * AtMost(live, rem, h)
    ensures forall i :: 0 <= i < |rem| && live[i] && rem[i] <= h ==>
            Slack(live, rem, h) + rem[i] <= h * AtMost(live, rem, h)
  {
    if rem != [] {
      var n := |rem| - 1;
      SlackBound(live[..n], rem[..n], h);
      var a := AtMost(live[..n], rem[..n], h);
      assert h * (a + 1) == h * a + h;
      forall i | 0 <= i < |rem| && live[i] && rem[i] <= h
        ensures Slack(live, rem, h) + rem[i] <= h * AtMost(live, rem, h)
      {
        assert i < n ==> live[..n][i] && rem[..n][i] <= h;
      }
    }
  }

  /** With every unfinished job at `h` or above, the slack counts the finished ones. */
  lemma {:induction false} SlackOfFinished(live: seq<bool>, rem: seq<int>, h: int)
    requires |live| == |rem| && h >= 0
    requires forall i :: 0 <= i < |rem| && live[i] ==> rem[i] == 0 || rem[i] >= h
    ensures Slack(live, rem, h) == h * AtMost(live, rem, 0)
  {
    if rem != [] {
      var n := |rem| - 1;
      SlackOfFinished(live[..n], rem[..n], h);
      var a := AtMost(live[..n], rem[..n], 0);
      assert h * (a + 1) == h * a + h;
    }
  }

  lemma {:induction false} MoreAtMost(live: seq<bool>, rem: seq<int>, rem': seq<int>, h: int)
    requires |live| == |rem| == |rem'|
    requires forall i :: 0 <= i < |rem| && live[i] ==> rem[i] == 0
    requires h >= 0
    ensures AtMost(live, rem', h) <= AtMost(live, rem, 0)
  {
    if rem != [] {
      var n := |rem| - 1;
      MoreAtMost(live[..n], rem[..n], rem'[..n], h);
    }
  }

  // ----- One tick

  ghost predicate Ahead(live: seq<bool>, s: seq<int>, o: seq<int>)
    requires |live| == |s| == |o|
  {
    forall h :: h >= 0 ==> Slack(live, o, h) <= Slack(live, s, h)
  }

  function Tick(rem: seq<int>, i: int): seq<int>
  {
    if 0 <= i < |rem| && rem[i] > 0 then rem[i := rem[i] - 1] else rem
  }

  ghost predicate Natural(rem: seq<int>)
  {
    forall i :: 0 <= i < |rem| ==> rem[i] >= 0
  }

  lemma Squeeze(h: int, a: int, z: int, slackO: int, slackS: int, left: int)
    requires h >= 0 && left >= 1
    requires slackO + left <= h * a
    requires slackS == h * z
    requires slackO + a <= (h + 1) * z
    ensures slackO + 1 <= slackS
  {
    if a <= z {
      assert h * a <= h * z;
    } else {
      assert (h + 1) * z == h * z + z;
    }
  }

  /** Where all of `s` is finished or still above `h`, `o` cannot overtake by finishing one more unit. */
  lemma TickBelowShortest(live: seq<bool>, s: seq<int>, o: seq<int>, h: int, j: nat)
    requires |live| == |s| == |o| && Ahead(live, s, o) && Natural(o) && h >= 0
    requires forall i :: 0 <= i < |s| && live[i] ==> s[i] == 0 || s[i] > h
    requires j < |o| && live[j] && 0 < o[j] <= h
    ensures Slack(live, o, h) + 1 <= Slack(live, s, h)
  {
    var z, a := AtMost(live, s, 0), AtMost(live, o, h);
    SlackOfFinished(live, s, h);
    SlackOfFinished(live, s, h + 1);
    SlackGrows(live, o, h);
    SlackBound(live, o, h);
    assert Slack(live, o, h + 1) <= Slack(live, s, h + 1);
    Squeeze(h, a, z, Slack(live, o, h), Slack(live, s, h), o[j]);
  }

  lemma TickStaysAhead(live: seq<bool>, s: seq<int>, o: seq<int>, choice: int, j: int)
    requires |live| == |s| == |o| && Ahead(live, s, o) && Natural(s) && Natural(o)
    requires if choice == -1 then forall i :: 0 <= i < |s| && live[i] ==> s[i] == 0
             else 0 <= choice < |s| && live[choice] && s[choice] > 0
                  && forall i :: 0 <= i < |s| && live[i] && s[i] > 0 ==> s[choice] <= s[i]
    requires 0 <= j < |o| ==> live[j]
    ensures Ahead(live, Tick(s, choice), Tick(o, j))
  {
    var s', o' := Tick(s, choice), Tick(o, j);
    forall h | h >= 0
      ensures Slack(live, o', h) <= Slack(live, s', h)
    {
      if choice != -1 {
        SlackAfterTick(live, s, choice, h);
      }
      if 0 <= j < |o| && o[j] > 0 {
        SlackAfterTick(live, o, j, h);
        if o[j] <= h && (choice == -1 || s[choice] > h) {
          TickBelowShortest(live, s, o, h, j);
        }
      }
    }
  }

  // ----- Arrivals

  /** Newly arrived jobs are untouched in both schedules. */
  lemma {:induction false} ArrivalsStayAhead(live: seq<bool>, live': seq<bool>, s: seq<int>, o: seq<int>, h: int)
    requires |live| == |live'| == |s| == |o| 
    requires forall i :: 0 <= i < |s| && live[i] ==> live'[i]
    requires forall i :: 0 <= i < |s| && live'[i] && !live[i] ==> s[i] == o[i]
    ensures Slack(live', s, h) - Slack(live, s, h) == Slack(live', o, h) - Slack(live, o, h)
  {
    if s != [] {
      var n := |s| - 1;
      ArrivalsStayAhead(live[..n], live'[..n], s[..n], o[..n], h);
    }
  }

  // ----- Whole schedules

  ghost predicate GoodJobs(jobs: seq<Job>)
  {
    forall i :: 0 <= i < |jobs| ==> 1 <= jobs[i].burst < INT_MAX
  }

  ghost function Arrived(jobs: seq<Job>, t: int): (live: seq<bool>)
    ensures |live| == |jobs| && forall i :: 0 <= i < |jobs| ==> live[i] == (jobs[i].arrival <= t)
  {
    seq(|jobs|, i requires 0 <= i < |jobs| => jobs[i].arrival <= t)
  }

  lemma {:induction false} RemRange(jobs: seq<Job>, sched: seq<int>, i: nat, t: nat)
    requires i < |jobs| && jobs[i].burst >= 0
    ensures 0 <= Rem(jobs, sched, i, t) <= jobs[i].burst
  {
    if t > 0 {
      RemRange(jobs, sched, i, t - 1);
    }
  }

  /** A job that has not arrived has not run. */
  lemma {:induction false} RemBeforeArrival(jobs: seq<Job>, sched: seq<int>, i: nat, t: nat)
    requires i < |jobs| && Respects(jobs, sched) && jobs[i].arrival >= t
    ensures Rem(jobs, sched, i, t) == jobs[i].burst
  {
    if t > 0 {
      RemBeforeArrival(jobs, sched, i, t - 1);
    }
  }

  lemma RemsTick(jobs: seq<Job>, sched: seq<int>, t: nat)
    ensures Rems(jobs, sched, t + 1) == Tick(Rems(jobs, sched, t), Running(sched, t))
  {
  }

  lemma RemsNatural(jobs: seq<Job>, sched: seq<int>, t: nat)
    requires GoodJobs(jobs)
    ensures Natural(Rems(jobs, sched, t))
    ensures forall i :: 0 <= i < |jobs| ==> Rems(jobs, sched, t)[i] < INT_MAX
  {
    forall i | 0 <= i < |jobs|
      ensures 0 <= Rems(jobs, sched, t)[i] < INT_MAX
    {
      RemRange(jobs, sched, i, t);
    }
  }

  lemma GreedyRespects(jobs: seq<Job>, sched: seq<int>)
    requires Greedy(jobs, sched)
    ensures Respects(jobs, sched)
  {
    forall u | 0 <= u < |sched| && 0 <= sched[u] < |jobs|
      ensures jobs[sched[u]].arrival <= u
    {
      assert ShortestAt(jobs, sched, u);
    }
  }

  /** Once a schedule has finished every job it stays finished. */
  lemma {:induction false} StaysFinished(jobs: seq<Job>, sched: seq<int>, i: nat, c: nat, t: nat)
    requires i < |jobs| && Rem(jobs, sched, i, c) == 0 && c <= t
    ensures Rem(jobs, sched, i, t) == 0
  {
    if c < t {
      StaysFinished(jobs, sched, i, c, t - 1);
    }
  }

  lemma GreedyChoice(jobs: seq<Job>, sched: seq<int>, t: nat)
    requires GoodJobs(jobs) && Greedy(jobs, sched)
    requires t >= |sched| ==> forall i :: 0 <= i < |jobs| ==> Rem(jobs, sched, i, |sched|) == 0
    ensures var live, s, choice := Arrived(jobs, t), Rems(jobs, sched, t), Running(sched, t);
            if choice == -1 then forall i :: 0 <= i < |s| && live[i] ==> s[i] == 0
            else 0 <= choice < |s| && live[choice] && s[choice] > 0
                 && forall i :: 0 <= i < |s| && live[i] && s[i] > 0 ==> s[choice] <= s[i]
  {
    var s := Rems(jobs, sched, t);
    RemsNatural(jobs, sched, t);
    if t < |sched| {
      assert ShortestAt(jobs, sched, t);
      assert forall i :: 0 <= i < |jobs| && jobs[i].arrival <= t && s[i] > 0 ==> Ready(jobs, s, t, i);
    } else {
      forall i | 0 <= i < |s|
        ensures s[i] == 0
      {
        StaysFinished(jobs, sched, i, |sched|, t);
      }
    }
  }

  lemma AheadThroughArrivals(jobs: seq<Job>, sched: seq<int>, other: seq<int>, t: nat)
    requires Respects(jobs, sched) && Respects(jobs, other)
    requires Ahead(Arrived(jobs, t), Rems(jobs, sched, t + 1), Rems(jobs, other, t + 1))
    ensures Ahead(Arrived(jobs, t + 1), Rems(jobs, sched, t + 1), Rems(jobs, other, t + 1))
  {
    var live, live', s, o := Arrived(jobs, t), Arrived(jobs, t + 1), Rems(jobs, sched, t + 1), Rems(jobs, other, t + 1);
    forall i | 0 <= i < |jobs| && live'[i] && !live[i]
      ensures s[i] == o[i]
    {
      RemBeforeArrival(jobs, sched, i, t + 1);
      RemBeforeArrival(jobs, other, i, t + 1);
    }
    forall h | h >= 0
      ensures Slack(live', o, h) <= Slack(live', s, h)
    {
      ArrivalsStayAhead(live, live', s, o, h);
    }
  }

  lemma GreedyTick(jobs: seq<Job>, sched: seq<int>, other: seq<int>, t: nat)
    requires GoodJobs(jobs) && Greedy(jobs, sched) && Respects(jobs, other)
    requires forall i :: 0 <= i < |jobs| ==> Rem(jobs, sched, i, |sched|) == 0
    requires Ahead(Arrived(jobs, t), Rems(jobs, sched, t), Rems(jobs, other, t))
    ensures Ahead(Arrived(jobs, t), Rems(jobs, sched, t + 1), Rems(jobs, other, t + 1))
  {
    GreedyChoice(jobs, sched, t);
    RemsNatural(jobs, sched, t);
    RemsNatural(jobs, other, t);
    RemsTick(jobs, sched, t);
    RemsTick(jobs, other, t);
    TickStaysAhead(Arrived(jobs, t), Rems(jobs, sched, t), Rems(jobs, other, t),
                   Running(sched, t), Running(other, t));
  }

  lemma {:induction false} GreedyStaysAhead(jobs: seq<Job>, sched: seq<int>, other: seq<int>, t: nat)
    requires GoodJobs(jobs) && Greedy(jobs, sched) && Respects(jobs, other)
    requires forall i :: 0 <= i < |jobs| ==> Rem(jobs, sched, i, |sched|) == 0
    ensures Ahead(Arrived(jobs, t), Rems(jobs, sched, t), Rems(jobs, other, t))
  {
    GreedyRespects(jobs, sched);
    if t == 0 {
      assert Rems(jobs, sched, 0) == Rems(jobs, other, 0);
    } else {
      GreedyStaysAhead(jobs, sched, other, t - 1);
      GreedyTick(jobs, sched, other, t - 1);
      AheadThroughArrivals(jobs, sched, other, t - 1);
    }
  }

  // ----- Completion times

  ghost function Unfinished(rem: seq<int>): int
  {
    if rem == [] then 0 else Unfinished(rem[..|rem| - 1]) + if rem[|rem| - 1] > 0 then 1 else 0
  }

  lemma {:induction false} SlackCountsFinished(live: seq<bool>, rem: seq<int>)
    requires |live| == |rem| && Natural(rem)
    requires forall i :: 0 <= i < |rem| && !live[i] ==> rem[i] > 0
    ensures Slack(live, rem, 1) + Unfinished(rem) == |rem|
  {
    if rem != [] {
      var n := |rem| - 1;
      SlackCountsFinished(live[..n], rem[..n]);
    }
  }

  /** At every time the greedy schedule has at most as many unfinished jobs. */
  lemma FewestUnfinished(jobs: seq<Job>, sched: seq<int>, other: seq<int>, t: nat)
    requires GoodJobs(jobs) && Greedy(jobs, sched) && Respects(jobs, other)
    requires forall i :: 0 <= i < |jobs| ==> Rem(jobs, sched, i, |sched|) == 0
    ensures Unfinished(Rems(jobs, sched, t)) <= Unfinished(Rems(jobs, other, t))
  {
    GreedyRespects(jobs, sched);
    GreedyStaysAhead(jobs, sched, other, t);
    var live := Arrived(jobs, t);
    forall i | 0 <= i < |jobs| && !live[i]
      ensures Rems(jobs, sched, t)[i] > 0 && Rems(jobs, other, t)[i] > 0
    {
      RemBeforeArrival(jobs, sched, i, t);
      RemBeforeArrival(jobs, other, i, t);
    }
    RemsNatural(jobs, sched, t);
    RemsNatural(jobs, other, t);
    SlackCountsFinished(live, Rems(jobs, sched, t));
    SlackCountsFinished(live, Rems(jobs, other, t));
    assert Slack(live, Rems(jobs, other, t), 1) <= Slack(live, Rems(jobs, sched, t), 1);
  }

  /** Job-ticks spent unfinished before `t`, tick by tick. */
  ghost function Backlog(jobs: seq<Job>, sched: seq<int>, t: nat): int
  {
    if t == 0 then 0 else Backlog(jobs, sched, t - 1) + Unfinished(Rems(jobs, sched, t - 1))
  }

  function Min(a: int, b: int): int
  {
    if a <= b then a else b
  }

  function Capped(times: seq<nat>, t: nat): (r: seq<int>)
    ensures |r| == |times| && forall i :: 0 <= i < |times| ==> r[i] == Min(times[i], t)
  {
    seq(|times|, i requires 0 <= i < |times| => Min(times[i], t))
  }

  lemma {:induction false} SumOfZeros(s: seq<int>)
    requires forall i :: 0 <= i < |s| ==> s[i] == 0
    ensures Sum(s) == 0
  {
    if s != [] {
      SumOfZeros(s[..|s| - 1]);
    }
  }

  lemma {:induction false} CappedStep(rem: seq<int>, before: seq<int>, after: seq<int>)
    requires |rem| == |before| == |after|
    requires forall i :: 0 <= i < |rem| ==> after[i] == before[i] + if rem[i] > 0 then 1 else 0
    ensures Sum(after) == Sum(before) + Unfinished(rem)
  {
    if rem != [] {
      var n := |rem| - 1;
      CappedStep(rem[..n], before[..n], after[..n]);
    }
  }

  lemma {:induction false} RemDecreases(jobs: seq<Job>, sched: seq<int>, i: nat, t: nat, t': nat)
    requires i < |jobs| && t <= t'
    ensures Rem(jobs, sched, i, t') <= Rem(jobs, sched, i, t)
  {
    if t < t' {
      RemDecreases(jobs, sched, i, t, t' - 1);
    }
  }

  lemma {:induction false} BacklogIsCapped(jobs: seq<Job>, sched: seq<int>, times: seq<nat>, t: nat)
    requires CompletionTimes(jobs, sched, times)
    ensures Backlog(jobs, sched, t) == Sum(Capped(times, t))
  {
    if t == 0 {
      SumOfZeros(Capped(times, 0));
    } else {
      BacklogIsCapped(jobs, sched, times, t - 1);
      var rem := Rems(jobs, sched, t - 1);
      forall i | 0 <= i < |jobs|
        ensures Capped(times, t)[i] == Capped(times, t - 1)[i] + if rem[i] > 0 then 1 else 0
      {
        assert CompletesAt(jobs, sched, i, times[i]);
        if times[i] <= t - 1 {
          StaysFinished(jobs, sched, i, times[i], t - 1);
        } else {
          RemDecreases(jobs, sched, i, t - 1, times[i] - 1);
        }
      }
      CappedStep(rem, Capped(times, t - 1), Capped(times, t));
    }
  }

  lemma {:induction false} LeastBacklog(jobs: seq<Job>, sched: seq<int>, other: seq<int>, t: nat)
    requires GoodJobs(jobs) && Greedy(jobs, sched) && Respects(jobs, other)
    requires forall i :: 0 <= i < |jobs| ==> Rem(jobs, sched, i, |sched|) == 0
    ensures Backlog(jobs, sched, t) <= Backlog(jobs, other, t)
  {
    if t > 0 {
      LeastBacklog(jobs, sched, other, t - 1);
      FewestUnfinished(jobs, sched, other, t - 1);
    }
  }

  function Latest(times: seq<nat>): (m: nat)
    ensures forall i :: 0 <= i < |times| ==> times[i] <= m
  {
    if times == [] then 0
    else
      var n := |times| - 1;
      var m := Latest(times[..n]);
      assert forall i :: 0 <= i < n ==> times[i] == times[..n][i];
      if times[n] > m then times[n] else m
  }

  /** No schedule that respects arrivals has a smaller sum of completion times. */
  lemma GreedyIsOptimal(jobs: seq<Job>, sched: seq<int>, times: seq<nat>, other: seq<int>, otherTimes: seq<nat>)
    requires GoodJobs(jobs) && Greedy(jobs, sched) && CompletionTimes(jobs, sched, times)
    requires forall i :: 0 <= i < |times| ==> times[i] <= |sched|
    requires Respects(jobs, other) && CompletionTimes(jobs, other, otherTimes)
    ensures Sum(times) <= Sum(otherTimes)
  {
    forall i | 0 <= i < |jobs|
      ensures Rem(jobs, sched, i, |sched|) == 0
    {
      assert CompletesAt(jobs, sched, i, times[i]);
      StaysFinished(jobs, sched, i, times[i], |sched|);
    }
    var end := Latest(times) + Latest(otherTimes);
    LeastBacklog(jobs, sched, other, end);
    BacklogIsCapped(jobs, sched, times, end);
    BacklogIsCapped(jobs, other, otherTimes, end);
    assert Capped(times, end) == times;
    assert Capped(otherTimes, end) == otherTimes;
  }

  // ----- Bursts the selection never serves

  /** A burst outside 1 .. INT_MAX - 1 is never selected, however long the run:
      its job never completes and the scheduling loop never ends. */
  lemma {:induction false} NeverServed(jobs: seq<Job>, sched: seq<int>, i: nat, t: nat)
    requires Greedy(jobs, sched) && i < |jobs| && t <= |sched|
    requires jobs[i].burst <= 0 || jobs[i].burst >= INT_MAX
    ensures Rem(jobs, sched, i, t) == jobs[i].burst
    ensures t < |sched| ==> sched[t] != i
  {
    if t > 0 {
      NeverServed(jobs, sched, i, t - 1);
    }
    if t < |sched| {
      assert ShortestAt(jobs, sched, t);
    }
  }
}
