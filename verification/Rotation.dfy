/** The round-robin policy's rotation: job ids in service order, kept in step
    with a ready queue that it does not own. */
module Rotation {
  import opened Distinctness

  // ----- What synchronizing does

  /** The members of `xs` that `keep` has, in order. */
  function Kept(xs: seq<int>, keep: seq<int>): seq<int>
  {
    if xs == [] then []
    else Kept(xs[..|xs| - 1], keep) + if xs[|xs| - 1] in keep then [xs[|xs| - 1]] else []
  }

  /** `rotation` followed by the ids of `ready` it lacks, in order. */
  function Appended(rotation: seq<int>, ready: seq<int>): seq<int>
  {
    if ready == [] then rotation
    else
      var most := Appended(rotation, ready[..|ready| - 1]);
      if ready[|ready| - 1] in most then most else most + [ready[|ready| - 1]]
  }

  /** The order in which the ready ids will be served if nothing else happens. */
  function ServiceOrder(rotation: seq<int>, ready: seq<int>): seq<int>
  {
    Appended(Kept(rotation, ready), ready)
  }

  lemma {:induction false} KeptFacts(xs: seq<int>, keep: seq<int>)
    ensures forall x :: x in Kept(xs, keep) <==> x in xs && x in keep
    ensures Distinct(xs) ==> Distinct(Kept(xs, keep))
  {
    if xs != [] {
      var most := xs[..|xs| - 1];
      KeptFacts(most, keep);
      assert xs == most + [xs[|xs| - 1]];
      assert Distinct(xs) ==> xs[|xs| - 1] !in most;
      assert forall x :: x in most ==> x in xs;
      assert xs[|xs| - 1] in xs;
    }
  }

  lemma {:induction false} KeptAll(xs: seq<int>, keep: seq<int>)
    requires forall k :: 0 <= k < |xs| ==> xs[k] in keep
    ensures Kept(xs, keep) == xs
  {
    if xs == [] {
    } else {
      var n := |xs| - 1;
      KeptAll(xs[..n], keep);
      assert xs[n] in keep && xs == xs[..n] + [xs[n]];
    }
  }

  lemma {:induction false} AppendedFacts(rotation: seq<int>, ready: seq<int>)
    ensures rotation <= Appended(rotation, ready)
    ensures forall x :: x in Appended(rotation, ready) <==> x in rotation || x in ready
    ensures Distinct(rotation) ==> Distinct(Appended(rotation, ready))
    ensures ready != [] ==> Appended(rotation, ready) != []
  {
    if ready != [] {
      var most := ready[..|ready| - 1];
      AppendedFacts(rotation, most);
      assert ready == most + [ready[|ready| - 1]];
    }
  }

  /** The rotation agrees with the ready queue: it repeats nothing and has only ready ids. */
  ghost predicate Agrees(rotation: seq<int>, ready: seq<int>)
  {
    Distinct(rotation) && Distinct(ready) && forall x :: x in rotation ==> x in ready
  }

  /** Whatever the rotation, the service order has exactly the ready ids. */
  lemma OrderHasReady(rotation: seq<int>, ready: seq<int>)
    ensures forall x :: x in ServiceOrder(rotation, ready) <==> x in ready
    ensures ready != [] ==> ServiceOrder(rotation, ready) != []
  {
    KeptFacts(rotation, ready);
    AppendedFacts(Kept(rotation, ready), ready);
  }

  lemma HeadIsReady(rotation: seq<int>, ready: seq<int>)
    requires ready != []
    ensures ServiceOrder(rotation, ready) != [] && ServiceOrder(rotation, ready)[0] in ready
  {
    OrderHasReady(rotation, ready);
    var head := ServiceOrder(rotation, ready)[0];
    assert head in ServiceOrder(rotation, ready);
  }

  /** The service order is everybody ready, once, with the rotation first. */
  lemma OrderFacts(rotation: seq<int>, ready: seq<int>)
    requires Agrees(rotation, ready)
    ensures rotation <= ServiceOrder(rotation, ready) && Distinct(ServiceOrder(rotation, ready))
    ensures forall x :: x in ServiceOrder(rotation, ready) <==> x in ready
    ensures ready != [] ==> ServiceOrder(rotation, ready) != []
  {
    KeptFacts(rotation, ready);
    KeptAll(rotation, ready);
    AppendedFacts(rotation, ready);
  }

  // ----- First in, first out

  lemma {:induction false} AppendedPrefix(ready: seq<int>, k: nat)
    requires Distinct(ready) && k <= |ready|
    ensures Appended(ready[..k], ready) == ready
    decreases |ready|
  {
    if k < |ready| {
      var most := ready[..|ready| - 1];
      assert most[..k] == ready[..k];
      AppendedPrefix(most, k);
      assert ready == most + [ready[|ready| - 1]];
    } else {
      assert ready[..k] == ready;
      AppendsNothing(ready, ready);
    }
  }

  lemma {:induction false} AppendsNothing(rotation: seq<int>, ready: seq<int>)
    requires forall k :: 0 <= k < |ready| ==> ready[k] in rotation
    ensures Appended(rotation, ready) == rotation
  {
    if ready == [] {
    } else {
      var n := |ready| - 1;
      AppendsNothing(rotation, ready[..n]);
      assert ready[n] in rotation;
    }
  }

  /** Ready ids are served in the order in which they entered the ready queue exactly when the rotation is a prefix of
      it. */
  lemma FirstInFirstServedIff(rotation: seq<int>, ready: seq<int>)
    requires Agrees(rotation, ready)
    ensures ServiceOrder(rotation, ready) == ready <==> rotation <= ready
  {
    OrderFacts(rotation, ready);
    KeptAll(rotation, ready);
    if rotation <= ready {
      assert rotation == ready[..|rotation|];
      AppendedPrefix(ready, |rotation|);
    }
  }

  // ----- The three things that happen

  function Without(xs: seq<int>, x: int): seq<int>
  {
    if xs == [] then [] else Without(xs[..|xs| - 1], x) + if xs[|xs| - 1] == x then [] else [xs[|xs| - 1]]
  }

  lemma {:induction false} WithoutFacts(xs: seq<int>, x: int)
    ensures forall y :: y in Without(xs, x) <==> y in xs && y != x
    ensures Distinct(xs) ==> Distinct(Without(xs, x))
    ensures x !in xs ==> Without(xs, x) == xs
  {
    if xs != [] {
      var most := xs[..|xs| - 1];
      WithoutFacts(most, x);
      assert xs == most + [xs[|xs| - 1]];
      assert Distinct(xs) ==> xs[|xs| - 1] !in most;
    }
  }

  lemma {:induction false} WithoutHead(xs: seq<int>)
    requires xs != [] && Distinct(xs)
    ensures Without(xs, xs[0]) == xs[1..]
  {
    var n := |xs| - 1;
    if n > 0 {
      WithoutHead(xs[..n]);
      assert xs[..n][0] == xs[0] && xs[..n][1..] + [xs[n]] == xs[1..];
    } else {
      assert xs[..n] == [];
    }
  }

  /** What the policy and its ready queue hold: ids in rotation, and ids in order of entering the ready queue. */
  datatype Queues = Queues(rotation: seq<int>, ready: seq<int>)

  datatype Event = Arrives(id: int) | Served | Requeued(id: int)

  ghost predicate Possible(q: Queues, e: Event)
  {
    match e
    case Arrives(id) => id !in q.ready
    case Served => q.ready != []
    case Requeued(id) => id !in q.ready
  }

  /** Who is served next. */
  function Next(q: Queues): int
    requires ServiceOrder(q.rotation, q.ready) != []
  {
    ServiceOrder(q.rotation, q.ready)[0]
  }

  /** An arrival joins the ready queue only; the policy learns of it at the next service. A requeued job joins both. */
  function After(q: Queues, e: Event): Queues
  {
    match e
    case Arrives(id) => Queues(q.rotation, q.ready + [id])
    case Served =>
      var order := ServiceOrder(q.rotation, q.ready);
      if order == [] then q else Queues(order[1..], Without(q.ready, order[0]))
    case Requeued(id) => Queues(Without(q.rotation, id) + [id], q.ready + [id])
  }

  lemma EventKeepsAgreement(q: Queues, e: Event)
    requires Agrees(q.rotation, q.ready) && Possible(q, e)
    ensures Agrees(After(q, e).rotation, After(q, e).ready)
    ensures e.Served? ==> forall x :: x in After(q, e).rotation <==> x in After(q, e).ready
  {
    OrderFacts(q.rotation, q.ready);
    match e
    case Arrives(id) =>
    case Served =>
      var order := ServiceOrder(q.rotation, q.ready);
      WithoutFacts(q.ready, order[0]);
      assert forall x :: x in order[1..] <==> x in order && x != order[0];
    case Requeued(id) =>
      WithoutFacts(q.rotation, id);
  }

  function Services(events: seq<Event>): nat
  {
    if events == [] then 0 else Services(events[..|events| - 1]) + if events[|events| - 1].Served? then 1 else 0
  }

  function AfterAll(q: Queues, events: seq<Event>): Queues
  {
    if events == [] then q else After(AfterAll(q, events[..|events| - 1]), events[|events| - 1])
  }

  ghost predicate AllPossible(q: Queues, events: seq<Event>)
  {
    forall n :: 0 <= n < |events| ==> Possible(AfterAll(q, events[..n]), events[n])
  }

  lemma PossibleBefore(q: Queues, events: seq<Event>)
    requires AllPossible(q, events) && events != []
    ensures AllPossible(q, events[..|events| - 1])
    ensures Possible(AfterAll(q, events[..|events| - 1]), events[|events| - 1])
  {
    var most := events[..|events| - 1];
    forall n | 0 <= n < |most|
      ensures Possible(AfterAll(q, most[..n]), most[n])
    {
      assert most[..n] == events[..n];
    }
  }

  /** In every reachable state the rotation repeats nothing and has only ready ids. */
  lemma {:induction false} AlwaysAgrees(q: Queues, events: seq<Event>)
    requires Agrees(q.rotation, q.ready) && AllPossible(q, events)
    ensures Agrees(AfterAll(q, events).rotation, AfterAll(q, events).ready)
  {
    if events != [] {
      PossibleBefore(q, events);
      AlwaysAgrees(q, events[..|events| - 1]);
      EventKeepsAgreement(AfterAll(q, events[..|events| - 1]), events[|events| - 1]);
    }
  }

  lemma MovesUp(q: Queues, e: Event, k: nat)
    requires Agrees(q.rotation, q.ready) && Possible(q, e) && k < |q.rotation| && (e.Served? ==> k > 0)
    ensures var k' := if e.Served? then k - 1 else k;
            k' < |After(q, e).rotation| && After(q, e).rotation[k'] == q.rotation[k]
  {
    OrderFacts(q.rotation, q.ready);
    if e.Requeued? {
      WithoutFacts(q.rotation, e.id);
    }
  }

  /** Whoever is at position `k` of the rotation is there, moved up by the number of services, until its own:
      the service after `k` others, whatever arrives or is requeued meanwhile. */
  lemma {:induction false} ServedInTurn(q: Queues, events: seq<Event>, k: nat)
    requires Agrees(q.rotation, q.ready) && AllPossible(q, events)
    requires k < |q.rotation| && Services(events) <= k
    ensures var s, left := AfterAll(q, events), k - Services(events);
            left < |s.rotation| && s.rotation[left] == q.rotation[k]
  {
    if events != [] {
      var most := events[..|events| - 1];
      PossibleBefore(q, events);
      ServedInTurn(q, most, k);
      AlwaysAgrees(q, most);
      var e := events[|events| - 1];
      assert Services(events) == Services(most) + if e.Served? then 1 else 0;
      MovesUp(AfterAll(q, most), e, k - Services(most));
    }
  }

  /** The head of the rotation is served next. */
  lemma HeadIsNext(q: Queues)
    requires Agrees(q.rotation, q.ready) && q.rotation != []
    ensures ServiceOrder(q.rotation, q.ready) != [] && Next(q) == q.rotation[0]
  {
    OrderFacts(q.rotation, q.ready);
  }

  /** A requeued job keeps the first-in order exactly when everybody ready is in rotation already. */
  lemma RequeueKeepsOrderIff(q: Queues, id: int)
    requires Agrees(q.rotation, q.ready) && id !in q.ready && q.rotation <= q.ready
    ensures var q' := After(q, Requeued(id));
            ServiceOrder(q'.rotation, q'.ready) == q'.ready <==> q.rotation == q.ready
  {
    var q' := After(q, Requeued(id));
    WithoutFacts(q.rotation, id);
    EventKeepsAgreement(q, Requeued(id));
    FirstInFirstServedIff(q'.rotation, q'.ready);
    assert q'.rotation == q.rotation + [id];
    if q.rotation != q.ready {
      assert q'.ready[|q.rotation|] in q.ready;
      assert q'.rotation[|q.rotation|] == id;
    }
  }

  // ----- First in, first out through a whole run

  /** Somebody has arrived since the last service. */
  predicate ArrivedSince(events: seq<Event>)
  {
    events != [] &&
    match events[|events| - 1]
    case Arrives(_) => true
    case Served => false
    case Requeued(_) => ArrivedSince(events[..|events| - 1])
  }

  /** A job is requeued only if nobody has arrived since the last service. */
  ghost predicate NobodyOvertakes(events: seq<Event>)
  {
    forall n :: 0 <= n < |events| && events[n].Requeued? ==> !ArrivedSince(events[..n])
  }

  ghost predicate InOrder(q: Queues)
  {
    ServiceOrder(q.rotation, q.ready) == q.ready
  }

  /** At every point of the run ready ids would be served in the order in which they entered the ready queue. */
  ghost predicate InOrderThroughout(q: Queues, events: seq<Event>)
  {
    forall n :: 0 <= n <= |events| ==> InOrder(AfterAll(q, events[..n]))
  }

  /** While order is kept, the rotation lacks exactly those who have arrived since the last service. */
  ghost predicate Tracks(q: Queues, arrived: bool)
  {
    Agrees(q.rotation, q.ready) && q.rotation <= q.ready && (arrived <==> q.rotation != q.ready)
  }

  lemma EventTracks(q: Queues, e: Event, arrived: bool)
    requires Tracks(q, arrived) && Possible(q, e) && !(e.Requeued? && arrived)
    ensures Tracks(After(q, e), e.Arrives?)
  {
    EventKeepsAgreement(q, e);
    if e.Served? {
      FirstInFirstServedIff(q.rotation, q.ready);
      WithoutHead(q.ready);
    } else if e.Requeued? {
      WithoutFacts(q.rotation, e.id);
    }
  }

  lemma {:induction false} RunTracks(q: Queues, events: seq<Event>)
    requires Tracks(q, false) && AllPossible(q, events) && NobodyOvertakes(events)
    ensures Tracks(AfterAll(q, events), ArrivedSince(events))
  {
    if events != [] {
      var most, e := events[..|events| - 1], events[|events| - 1];
      PossibleBefore(q, events);
      assert NobodyOvertakes(most) by {
        forall n | 0 <= n < |most| && most[n].Requeued?
          ensures !ArrivedSince(most[..n])
        {
          assert most[..n] == events[..n];
        }
      }
      RunTracks(q, most);
      EventTracks(AfterAll(q, most), e, ArrivedSince(most));
    }
  }

  lemma PossibleUpTo(q: Queues, events: seq<Event>, n: nat)
    requires AllPossible(q, events) && n <= |events|
    ensures AllPossible(q, events[..n])
  {
    forall k | 0 <= k < n
      ensures Possible(AfterAll(q, events[..n][..k]), events[..n][k])
    {
      assert events[..n][..k] == events[..k];
    }
  }

  lemma NobodyOvertakesUpTo(events: seq<Event>, n: nat)
    requires n <= |events| && forall k :: 0 <= k < n && events[k].Requeued? ==> !ArrivedSince(events[..k])
    ensures NobodyOvertakes(events[..n])
  {
    forall k | 0 <= k < n && events[k].Requeued?
      ensures !ArrivedSince(events[..n][..k])
    {
      assert events[..n][..k] == events[..k];
    }
  }

  /** The first job to be requeued after an arrival is put before it. */
  lemma {:induction false} FirstOvertaking(q: Queues, events: seq<Event>, n: nat)
    requires Tracks(q, false) && AllPossible(q, events)
    requires n < |events| && events[n].Requeued? && ArrivedSince(events[..n])
    requires forall k :: 0 <= k < n && events[k].Requeued? ==> !ArrivedSince(events[..k])
    ensures !InOrder(AfterAll(q, events[..n + 1]))
  {
    var s := AfterAll(q, events[..n]);
    NobodyOvertakesUpTo(events, n);
    PossibleUpTo(q, events, n);
    RunTracks(q, events[..n]);
    assert Possible(s, events[n]);
    RequeueKeepsOrderIff(s, events[n].id);
    assert events[..n + 1][..n] == events[..n];
  }

  /** From a state with nobody still to be added to the rotation, such as the empty one: jobs are served in first-in
      order through a run exactly if none is requeued when somebody has arrived since the last service. */
  lemma InOrderThroughoutIff(q: Queues, events: seq<Event>)
    requires Agrees(q.rotation, q.ready) && q.rotation == q.ready && AllPossible(q, events)
    ensures InOrderThroughout(q, events) <==> NobodyOvertakes(events)
  {
    if NobodyOvertakes(events) {
      forall n | 0 <= n <= |events|
        ensures InOrder(AfterAll(q, events[..n]))
      {
        NobodyOvertakesUpTo(events, n);
        PossibleUpTo(q, events, n);
        RunTracks(q, events[..n]);
        var s := AfterAll(q, events[..n]);
        FirstInFirstServedIff(s.rotation, s.ready);
      }
    } else {
      var n := FirstRequeueAfterArrival(events);
      FirstOvertaking(q, events, n);
    }
  }

  lemma FirstRequeueAfterArrival(events: seq<Event>) returns (n: nat)
    requires !NobodyOvertakes(events)
    ensures n < |events| && events[n].Requeued? && ArrivedSince(events[..n])
    ensures forall k :: 0 <= k < n && events[k].Requeued? ==> !ArrivedSince(events[..k])
  {
    n := 0;
    while !(events[n].Requeued? && ArrivedSince(events[..n]))
      invariant n < |events|
      invariant exists m :: n <= m < |events| && events[m].Requeued? && ArrivedSince(events[..m])
      invariant forall k :: 0 <= k < n && events[k].Requeued? ==> !ArrivedSince(events[..k])
      decreases |events| - n
    {
      n := n + 1;
    }
  }

  // ----- A job that overtakes

  lemma OneServed(id: int)
    ensures After(Queues([], [id]), Served) == Queues([], [])
  {
    assert [id][..0] == [];
    assert Kept([], [id]) == [] && Appended([], []) == [] && Appended([], [id]) == [id];
    assert Without([id], id) == [];
  }

  lemma OvertakenOrder(id: int, late: int)
    requires id != late
    ensures ServiceOrder([late], [id, late]) == [late, id]
  {
    assert [late][..0] == [] && [id][..0] == [] && [id, late][..1] == [id];
    assert Kept([late], [id, late]) == [late];
    assert Appended([late], [id]) == [late, id];
    assert Appended([late], [id, late]) == [late, id];
  }

  lemma AfterAllNext(q: Queues, events: seq<Event>, e: Event, s: Queues, longer: seq<Event>)
    requires AfterAll(q, events) == s && longer == events + [e]
    ensures AfterAll(q, longer) == After(s, e)
  {
    assert longer[..|events|] == events;
  }

  lemma OvertakingStates()
    ensures var a := After(After(Queues([], []), Arrives(7)), Served);
            After(After(a, Arrives(5)), Requeued(7)) == Queues([7], [5, 7])
  {
    OneServed(7);
    assert Without([], 7) == [];
  }

  /** Job 7 is requeued just after job 5 has arrived, and is served before it. */
  lemma RequeuedOvertakes()
    ensures var q := AfterAll(Queues([], []), [Arrives(7), Served, Arrives(5), Requeued(7)]);
            q.ready == [5, 7] && ServiceOrder(q.rotation, q.ready) == [7, 5]
  {
    FourEvents(Queues([], []), Arrives(7), Served, Arrives(5), Requeued(7));
    OvertakingStates();
    OvertakenOrder(5, 7);
  }

  lemma FourEvents(q: Queues, a: Event, b: Event, c: Event, d: Event)
    ensures AfterAll(q, [a, b, c, d]) == After(After(After(After(q, a), b), c), d)
  {
    var one := After(q, a);
    AfterAllNext(q, [], a, q, [a]);
    var two := After(one, b);
    AfterAllNext(q, [a], b, one, [a, b]);
    var three := After(two, c);
    AfterAllNext(q, [a, b], c, two, [a, b, c]);
    AfterAllNext(q, [a, b, c], d, three, [a, b, c, d]);
  }
}
