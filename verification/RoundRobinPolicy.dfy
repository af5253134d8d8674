/** The round-robin policy object of the concurrent scheduler. */
module RoundRobinPolicy {
  import opened Rotation

  class Policy {
    const quantum: int
    var rotation: seq<int>

    constructor (quantum: int)
      requires quantum > 0
      ensures this.quantum == quantum && rotation == []
    {
      this.quantum := quantum;
      rotation := [];
    }

    /** Null stands for the exception: a quantum that is not positive is refused. */
    static method Make(quantum: int) returns (p: Policy?)
      ensures p == null <==> quantum <= 0
      ensures p != null ==> fresh(p) && p.quantum == quantum && p.rotation == []
    {
      if quantum <= 0 {
        return null;
      }
      p := new Policy(quantum);
    }

    /** Drops ids that are no longer ready, then appends the ready ids that are missing. */
    method Sync(ready: seq<int>)
      modifies this
      ensures rotation == ServiceOrder(old(rotation), ready)
    {
      var kept: seq<int> := [];
      var n := 0;
      while n < |rotation|
        invariant 0 <= n <= |rotation| && rotation == old(rotation) && kept == Kept(rotation[..n], ready)
      {
        assert rotation[..n + 1][..n] == rotation[..n];
        if rotation[n] in ready {
          kept := kept + [rotation[n]];
        }
        n := n + 1;
      }
      assert rotation[..n] == rotation;
      rotation := kept;
      n := 0;
      while n < |ready|
        invariant 0 <= n <= |ready| && rotation == Appended(kept, ready[..n])
      {
        assert ready[..n + 1][..n] == ready[..n];
        if ready[n] !in rotation {
          rotation := rotation + [ready[n]];
        }
        n := n + 1;
      }
      assert ready[..n] == ready;
    }

    /** On a non-empty queue the head of the service order is served; the rest of the order is the new rotation. */
    method GetNextJob(ready: seq<int>) returns (found: bool, id: int)
      modifies this
      ensures found == (ready != [])
      ensures !found ==> rotation == []
      ensures found ==> id in ready && [id] + rotation == ServiceOrder(old(rotation), ready)
    {
      if ready == [] {
        rotation := [];
        return false, 0;
      }
      ghost var order, skipped: seq<int> := ServiceOrder(rotation, ready), [];
      Sync(ready);
      while rotation != []
        invariant order == skipped + rotation && forall k :: 0 <= k < |skipped| ==> order[k] !in ready
        decreases |rotation|
      {
        id := rotation[0];
        rotation := rotation[1..];
        if id in ready {
          assert order == skipped + ([id] + rotation);
          HeadIsReady(old(rotation), ready);
          assert skipped == [];
          return true, id;
        }
        skipped := skipped + [id];
      }
      HeadIsReady(old(rotation), ready);
      assert false;
    }

    /** A job with work left goes to the end of the rotation; a finished one leaves it. */
    method OnJobCompletion(id: int, unfinished: bool)
      modifies this
      ensures rotation == Without(old(rotation), id) + if unfinished then [id] else []
    {
      var rest: seq<int> := [];
      var n := 0;
      while n < |rotation|
        invariant 0 <= n <= |rotation| && rotation == old(rotation) && rest == Without(rotation[..n], id)
      {
        assert rotation[..n + 1][..n] == rotation[..n];
        if rotation[n] != id {
          rest := rest + [rotation[n]];
        }
        n := n + 1;
      }
      assert rotation[..n] == rotation;
      rotation := rest;
      if unfinished {
        rotation := rotation + [id];
      }
    }
  }
}
