/** A binary min-heap in two parallel arrays: process indices and their keys. */
module MinHeap {

  datatype Entry = Entry(idx: int, key: real)

  function Parent(k: int): int
    requires k >= 1
  {
    (k - 1) / 2
  }

  ghost predicate InOrderAt(h: seq<Entry>, k: int)
    requires 1 <= k < |h|
  {
    h[Parent(k)].key <= h[k].key
  }

  ghost predicate Ordered(h: seq<Entry>)
  {
    forall k :: 1 <= k < |h| ==> InOrderAt(h, k)
  }

  /** The root's key is least. */
  lemma {:induction false} RootIsLeast(h: seq<Entry>, k: nat)
    requires Ordered(h) && k < |h|
    ensures h[0].key <= h[k].key
  {
    if k > 0 {
      RootIsLeast(h, Parent(k));
      assert InOrderAt(h, k);
    }
  }

  // ----- Moving up and down

  /** In order except that the entry at `i` may be smaller than its parent. */
  ghost predicate Rising(h: seq<Entry>, i: int)
  {
    && 0 <= i < |h|
    && (forall k :: 1 <= k < |h| && k != i ==> InOrderAt(h, k))
    && (forall k :: 1 <= k < |h| && Parent(k) == i && i >= 1 ==> h[Parent(i)].key <= h[k].key)
  }

  /** In order except that the entry at `i` may be larger than its children. */
  ghost predicate Sinking(h: seq<Entry>, i: int)
  {
    && 0 <= i < |h|
    && (forall k :: 1 <= k < |h| && Parent(k) != i ==> InOrderAt(h, k))
    && (forall k :: 1 <= k < |h| && Parent(k) == i && i >= 1 ==> h[Parent(i)].key <= h[k].key)
  }

  function Swapped(h: seq<Entry>, i: int, j: int): seq<Entry>
    requires 0 <= i < |h| && 0 <= j < |h|
  {
    h[i := h[j]][j := h[i]]
  }

  lemma SwapKeepsEntries(h: seq<Entry>, i: int, j: int)
    requires 0 <= i < |h| && 0 <= j < |h|
    ensures multiset(Swapped(h, i, j)) == multiset(h)
  {
    assert multiset(h[i := h[j]]) == multiset(h) - multiset{h[i]} + multiset{h[j]};
  }

  lemma RiseStep(h: seq<Entry>, i: int)
    requires Rising(h, i) && i >= 1 && h[Parent(i)].key > h[i].key
    ensures Rising(Swapped(h, i, Parent(i)), Parent(i))
  {
    var p, g := Parent(i), Swapped(h, i, Parent(i));
    forall k | 1 <= k < |g| && k != p
      ensures InOrderAt(g, k)
    {
      if k != i {
        assert InOrderAt(h, k);
      }
    }
    forall k | 1 <= k < |g| && Parent(k) == p && p >= 1
      ensures g[Parent(p)].key <= g[k].key
    {
      assert InOrderAt(h, p);
      if k != i {
        assert InOrderAt(h, k);
      }
    }
  }

  lemma RiseEnds(h: seq<Entry>, i: int)
    requires Rising(h, i) && (i == 0 || h[Parent(i)].key <= h[i].key)
    ensures Ordered(h)
  {
    forall k | 1 <= k < |h|
      ensures InOrderAt(h, k)
    {
    }
  }

  /** `m` is the smaller child of `i`, and smaller than `i`. */
  ghost predicate SmallerChild(h: seq<Entry>, i: int, m: int)
    requires 0 <= i < |h|
  {
    && 1 <= m < |h| && Parent(m) == i && h[m].key < h[i].key
    && (forall k :: 1 <= k < |h| && Parent(k) == i ==> h[m].key <= h[k].key)
  }

  lemma SinkStep(h: seq<Entry>, i: int, m: int)
    requires Sinking(h, i) && SmallerChild(h, i, m)
    ensures Sinking(Swapped(h, i, m), m)
  {
    var g := Swapped(h, i, m);
    forall k | 1 <= k < |g| && Parent(k) != m
      ensures InOrderAt(g, k)
    {
      if Parent(k) != i {
        assert InOrderAt(h, k);
      }
    }
    forall k | 1 <= k < |g| && Parent(k) == m
      ensures g[Parent(m)].key <= g[k].key
    {
      assert InOrderAt(h, k);
    }
  }

  lemma SinkEnds(h: seq<Entry>, i: int)
    requires Sinking(h, i) && forall k :: 1 <= k < |h| && Parent(k) == i ==> h[i].key <= h[k].key
    ensures Ordered(h)
  {
    forall k | 1 <= k < |h|
      ensures InOrderAt(h, k)
    {
    }
  }

  lemma PushedIsRising(h: seq<Entry>, e: Entry)
    requires Ordered(h)
    ensures Rising(h + [e], |h|)
  {
    forall k | 1 <= k < |h|
      ensures InOrderAt(h + [e], k)
    {
      assert InOrderAt(h, k);
    }
  }

  /** The last entry moved to the root of the others. */
  function Rooted(h: seq<Entry>): seq<Entry>
    requires |h| >= 2
  {
    h[..|h| - 1][0 := h[|h| - 1]]
  }

  lemma RootedIsSinking(h: seq<Entry>)
    requires Ordered(h) && |h| >= 2
    ensures Sinking(Rooted(h), 0) && multiset(Rooted(h)) + multiset{h[0]} == multiset(h)
  {
    var g := Rooted(h);
    forall k | 1 <= k < |g| && Parent(k) != 0
      ensures InOrderAt(g, k)
    {
      assert InOrderAt(h, k);
    }
    var last := h[|h| - 1];
    assert h == h[..|h| - 1] + [last];
    assert h[..|h| - 1] == [h[0]] + h[1..|h| - 1];
    assert g == [last] + h[1..|h| - 1];
  }

  class Heap {
    const idx: array<int>
    const key: array<real>
    var n: nat

    ghost predicate Valid()
      reads this
    {
      n <= idx.Length == key.Length
    }

    ghost function Entries(): (h: seq<Entry>)
      requires Valid()
      reads this, idx, key
      ensures |h| == n && forall k :: 0 <= k < n ==> h[k] == Entry(idx[k], key[k])
    {
      seq(n, k requires 0 <= k < n <= idx.Length == key.Length reads this, idx, key => Entry(idx[k], key[k]))
    }

    constructor (capacity: nat)
      ensures Valid() && fresh(idx) && fresh(key) && idx.Length == capacity && Entries() == []
    {
      idx, key := new int[capacity], new real[capacity];
      n := 0;
    }

    method Swap(i: nat, j: nat)
      requires Valid() && i < n && j < n
      modifies idx, key
      ensures Valid() && Entries() == Swapped(old(Entries()), i, j)
    {
      idx[i], idx[j] := idx[j], idx[i];
      key[i], key[j] := key[j], key[i];
    }

    method Push(id: int, k: real)
      requires Valid() && Ordered(Entries()) && n < idx.Length
      modifies this`n, idx, key
      ensures Valid() && Ordered(Entries())
      ensures multiset(Entries()) == multiset(old(Entries())) + multiset{Entry(id, k)}
    {
      ghost var h := Entries();
      PushedIsRising(h, Entry(id, k));
      var i := n;
      n := n + 1;
      idx[i], key[i] := id, k;
      assert Entries() == h + [Entry(id, k)];
      while i > 0
        invariant Valid() && n == old(n) + 1
        invariant Rising(Entries(), i) && multiset(Entries()) == multiset(h) + multiset{Entry(id, k)}
      {
        var p := (i - 1) / 2;
        if key[p] <= key[i] {
          break;
        }
        RiseStep(Entries(), i);
        SwapKeepsEntries(Entries(), i, p);
        Swap(i, p);
        i := p;
      }
      RiseEnds(Entries(), i);
    }

    /** The smallest of `i` and its children. */
    method Smallest(i: nat) returns (m: nat)
      requires Valid() && i < n
      ensures m != i ==> SmallerChild(Entries(), i, m)
      ensures m == i ==> forall k :: 1 <= k < n && Parent(k) == i ==> key[i] <= key[k]
      ensures m != i ==> i < m < n
    {
      var l, r := 2 * i + 1, 2 * i + 2;
      m := i;
      if l < n && key[l] < key[m] {
        m := l;
      }
      if r < n && key[r] < key[m] {
        m := r;
      }
      assert forall k :: 1 <= k < n && Parent(k) == i ==> k == l || k == r;
    }

    /** Swaps the entry at `i` with its smaller child, if that is smaller than it; returns where the entry is now. */
    method SinkOnce(i: nat) returns (m: nat)
      requires Valid() && Sinking(Entries(), i)
      modifies idx, key
      ensures Valid() && multiset(Entries()) == multiset(old(Entries()))
      ensures m != i ==> i < m < n && Sinking(Entries(), m)
      ensures m == i ==> Ordered(Entries())
    {
      ghost var h := Entries();
      m := Smallest(i);
      if m != i {
        SinkStep(h, i, m);
        SwapKeepsEntries(h, i, m);
        Swap(i, m);
      } else {
        SinkEnds(h, i);
      }
    }

    method SinkRoot()
      requires Valid() && Sinking(Entries(), 0)
      modifies idx, key
      ensures Valid() && Ordered(Entries()) && multiset(Entries()) == multiset(old(Entries()))
    {
      ghost var all := multiset(Entries());
      var i, m := 0, 0;
      var sinking := true;
      while sinking
        invariant Valid() && i <= n && multiset(Entries()) == all
        invariant if sinking then Sinking(Entries(), i) else Ordered(Entries())
        decreases sinking, n - i
      {
        m := SinkOnce(i);
        sinking := m != i;
        i := m;
      }
    }

    /** Takes out an entry with the least key; false when there is none. */
    method Pop() returns (ok: bool, id: int, k: real)
      requires Valid() && Ordered(Entries())
      modifies this`n, idx, key
      ensures Valid() && Ordered(Entries()) && ok == (old(n) > 0)
      ensures !ok ==> Entries() == old(Entries())
      ensures ok ==> multiset(Entries()) + multiset{Entry(id, k)} == multiset(old(Entries()))
      ensures ok ==> forall e :: e in old(Entries()) ==> k <= e.key
    {
      ghost var h := Entries();
      if n == 0 {
        return false, 0, 0.0;
      }
      ok, id, k := true, idx[0], key[0];
      forall e | e in h
        ensures k <= e.key
      {
        var at :| 0 <= at < |h| && h[at] == e;
        RootIsLeast(h, at);
      }
      n := n - 1;
      if n > 0 {
        RootedIsSinking(h);
        idx[0], key[0] := idx[n], key[n];
        assert Entries() == Rooted(h);
        SinkRoot();
      } else {
        assert h == [Entry(id, k)];
      }
    }
  }
}
