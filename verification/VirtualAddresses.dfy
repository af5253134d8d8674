/** Address arithmetic of the memory manager, and when an eviction changes what pages hold. */
module VirtualAddresses {
  import opened Arithmetic
  import opened VirtualMemory

  // ----- Translation

  predicate PowerOfTwo(n: nat)
  {
    n == 1 || (n >= 2 && n % 2 == 0 && PowerOfTwo(n / 2))
  }

  lemma Halve(a: int, m: nat)
    requires m >= 1
    ensures a % (2 * m) == a % 2 + 2 * ((a / 2) % m)
  {
    var h := a / 2;
    var q, r := h / m, h % m;
    assert a == 2 * m * q + (2 * r + a % 2) by {
      assert h == m * q + r;
    }
    Remainder(a, 2 * m, q, 2 * r + a % 2);
  }

  lemma SameQuotientAndRemainder(a: int, b: int, n: nat)
    requires n >= 1 && a / n == b / n && a % n == b % n
    ensures a == b
  {
    var q := a / n;
    assert a == n * q + a % n && b == n * q + b % n;
  }

  lemma {:induction false} MaskIsRemainder(a: int, n: nat)
    requires PowerOfTwo(n)
    ensures BitAnd(a, n - 1) == a % n
    decreases n
  {
    if n > 1 {
      var m := n / 2;
      assert (n - 1) % 2 == 1 && (n - 1) / 2 == m - 1;
      MaskIsRemainder(a / 2, m);
      Halve(a, m);
    }
  }

  lemma {:induction false} MaskIdempotent(a: int, mask: nat)
    ensures BitAnd(BitAnd(a, mask), mask) == BitAnd(a, mask)
    decreases mask
  {
    if mask > 0 {
      var c := BitAnd(a, mask);
      assert c / 2 == BitAnd(a / 2, mask / 2);
      MaskIdempotent(a / 2, mask / 2);
    }
  }

  /** A mask with a zero below its top bit drops that bit. */
  lemma {:induction false} MaskDropsBit(mask: nat) returns (a: nat)
    requires !PowerOfTwo(mask + 1)
    ensures a <= mask && BitAnd(a, mask) != a
    decreases mask
  {
    if mask % 2 == 0 {
      a := 1;
      assert BitAnd(1, mask) == 2 * BitAnd(0, mask / 2);
    } else {
      var half := MaskDropsBit(mask / 2);
      a := 2 * half + 1;
    }
  }

  ghost predicate SameCell(a: int, b: int, pageSize: nat)
    requires pageSize >= 1
  {
    PageOf(a, pageSize) == PageOf(b, pageSize) && OffsetOf(a, pageSize) == OffsetOf(b, pageSize)
  }

  ghost predicate Injective(pageSize: nat)
    requires pageSize >= 1
  {
    forall a: nat, b: nat :: SameCell(a, b, pageSize) ==> a == b
  }

  lemma PowerOfTwoSeparates(pageSize: nat, a: nat, b: nat)
    requires PowerOfTwo(pageSize) && SameCell(a, b, pageSize)
    ensures a == b
  {
    MaskIsRemainder(a, pageSize);
    MaskIsRemainder(b, pageSize);
    SameQuotientAndRemainder(a, b, pageSize);
  }

  /** Distinct addresses name distinct bytes exactly when the page size is a power of two. */
  lemma InjectiveIffPowerOfTwo(pageSize: nat)
    requires pageSize >= 1
    ensures Injective(pageSize) <==> PowerOfTwo(pageSize)
  {
    if PowerOfTwo(pageSize) {
      forall a: nat, b: nat | SameCell(a, b, pageSize)
        ensures a == b
      {
        PowerOfTwoSeparates(pageSize, a, b);
      }
    } else {
      var a := MaskDropsBit(pageSize - 1);
      var c := OffsetOf(a, pageSize);
      MaskIdempotent(a, pageSize - 1);
      SmallQuotient(a, pageSize);
      SmallQuotient(c, pageSize);
      assert SameCell(a, c, pageSize);
    }
  }

  /** The bytes of the page an allocation returned are those at consecutive addresses from there. */
  lemma CellsOfPage(pageSize: nat, v: nat, off: nat)
    requires PowerOfTwo(pageSize) && off < pageSize
    ensures PageOf(v * pageSize + off, pageSize) == v && OffsetOf(v * pageSize + off, pageSize) == off
  {
    CellAt(pageSize, v, off, v * pageSize + off);
  }

  lemma CellAt(pageSize: nat, v: nat, off: nat, addr: nat)
    requires PowerOfTwo(pageSize) && off < pageSize && addr == pageSize * v + off
    ensures PageOf(addr, pageSize) == v && OffsetOf(addr, pageSize) == off
  {
    Remainder(addr, pageSize, v, off);
    MaskIsRemainder(addr, pageSize);
  }

  /** Exactly the addresses from `-pageSize` downwards are rejected as negative. */
  lemma NegativeIsRejectedIff(pageSize: nat, a: int)
    requires pageSize >= 1
    ensures PageOf(a, pageSize) < 0 <==> a + pageSize <= 0
    ensures a < 0 < a + pageSize ==> PageOf(a, pageSize) == 0
  {
    if a < 0 {
      QuotientSign(-a, pageSize);
    } else {
      QuotientSign(a, pageSize);
    }
  }

  /** The others are not rejected: with a power of two, such an address aliases a byte of the first page. */
  lemma NegativeAddressAliases(pageSize: nat, a: int)
    requires PowerOfTwo(pageSize) && a < 0 < a + pageSize
    ensures SameCell(a, a + pageSize, pageSize) && PageOf(a, pageSize) == 0
  {
    SmallQuotient(-a, pageSize);
    SmallQuotient(a + pageSize, pageSize);
    Remainder(a, pageSize, -1, a + pageSize);
    Remainder(a + pageSize, pageSize, 0, a + pageSize);
    MaskIsRemainder(a, pageSize);
    MaskIsRemainder(a + pageSize, pageSize);
  }

  // ----- When an eviction shows

  lemma EvictedElsewhere(m: Memory, m': Memory, v: nat)
    requires Evicted(m, m', v) && TableOk(m')
    ensures SameElsewhere(m, m', v)
  {
    forall u: nat | u < |m.pages| && u != v
      ensures m'.pages[u].valid == m.pages[u].valid && Data(m', u) == Data(m, u)
    {
      assert SameButReferenced(m.pages[u], m'.pages[u]);
    }
  }

  lemma EvictedViewIff(m: Memory, m': Memory, v: nat)
    requires Evicted(m, m', v) && TableOk(m')
    ensures View(m') == View(m) <==> m'.disk[v] == m.frames[m.pages[v].frame]
  {
    EvictedElsewhere(m, m', v);
    assert v in View(m) && View(m)[v] == m.frames[m.pages[v].frame];
    assert v in View(m') && View(m')[v] == m'.disk[v];
    ViewWith(m, m', v);
    if m'.disk[v] == m.frames[m.pages[v].frame] {
      assert View(m)[v as int := Data(m', v)] == View(m);
    }
  }

  /** An eviction keeps what every page holds exactly when its victim was dirty
      or still equal to its disk slice. */
  lemma EvictionIsInvisibleIff(m: Memory)
    requires TableOk(m) && SomePresent(m.pages)
    ensures TableOk(Evict(m))
    ensures var v := Victim(m.pages, m.clock);
            View(Evict(m)) == View(m) <==> m.pages[v].modified || m.frames[m.pages[v].frame] == m.disk[v]
  {
    var m', v := Evict(m), Victim(m.pages, m.clock);
    EvictIsEviction(m);
    EvictedTable(m, m', v);
    EvictedViewIff(m, m', v);
  }
}
