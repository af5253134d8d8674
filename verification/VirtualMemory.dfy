/** Demand-paged memory with CLOCK eviction and dirty-only write-back, as state
    transitions: when it behaves as one flat memory, and when it does not. */
module VirtualMemory {

  type byte = x: int | 0 <= x < 256

  datatype Entry = Entry(valid: bool, present: bool, referenced: bool, modified: bool, frame: int)

  /** `frames[f]` is the content of physical frame `f`, `disk[v]` the disk slice of page `v`. */
  datatype Memory = Memory(pageSize: nat, pages: seq<Entry>, frames: seq<seq<byte>>, free: seq<bool>,
                           disk: seq<seq<byte>>, clock: nat)

  datatype Error = OutOfBounds | SegmentationFault | NoFreePage | NotAllocated

  datatype Op = Allocate | Write(addr: int, data: byte) | Read(addr: int) | Delete(addr: int)

  datatype Out = Address(addr: int) | Done | Value(data: byte) | Failed(error: Error)

  function Zeros(n: nat): (z: seq<byte>)
    ensures |z| == n && forall i :: 0 <= i < n ==> z[i] == 0
  {
    seq(n, _ => 0)
  }

  // ----- Addresses

  /** Two's complement bitwise and with a non-negative mask. */
  function BitAnd(a: int, mask: nat): (r: nat)
    ensures r <= mask
    decreases mask
  {
    if mask == 0 then 0 else (if mask % 2 == 1 then a % 2 else 0) + 2 * BitAnd(a / 2, mask / 2)
  }

  /** C++ division, which truncates toward zero. */
  function Quotient(a: int, b: nat): int
    requires b > 0
  {
    if a >= 0 then a / b else -((-a) / b)
  }

  function PageOf(addr: int, pageSize: nat): int
    requires pageSize > 0
  {
    Quotient(addr, pageSize)
  }

  function OffsetOf(addr: int, pageSize: nat): (off: nat)
    requires pageSize > 0
    ensures off < pageSize
  {
    BitAnd(addr, pageSize - 1)
  }

  // ----- CLOCK

  /** The `k`-th page the clock hand looks at. */
  function Slot(n: nat, clock: nat, k: nat): (v: nat)
    requires clock <= n && k < n
    ensures v < n
  {
    var c := if clock == n then 0 else clock;
    if c + k < n then c + k else c + k - n
  }

  /** How many pages the hand passes before it reaches page `v`. */
  function Distance(n: nat, clock: nat, v: nat): (k: nat)
    requires clock <= n && v < n
    ensures k < n && Slot(n, clock, k) == v
  {
    var c := if clock == n then 0 else clock;
    if v >= c then v - c else v + n - c
  }

  predicate Idle(e: Entry)
  {
    e.present && !e.referenced
  }

  /** Steps until the hand meets a page that is present and unreferenced; `|pages|` if there is none. */
  function ToIdle(pages: seq<Entry>, clock: nat, k: nat): (j: nat)
    requires clock <= |pages| && k <= |pages|
    ensures k <= j <= |pages|
    ensures forall i :: k <= i < j ==> !Idle(pages[Slot(|pages|, clock, i)])
    ensures j < |pages| ==> Idle(pages[Slot(|pages|, clock, j)])
    decreases |pages| - k
  {
    if k == |pages| || Idle(pages[Slot(|pages|, clock, k)]) then k else ToIdle(pages, clock, k + 1)
  }

  function ToPresent(pages: seq<Entry>, clock: nat, k: nat): (j: nat)
    requires clock <= |pages| && k <= |pages|
    ensures k <= j <= |pages|
    ensures forall i :: k <= i < j ==> !pages[Slot(|pages|, clock, i)].present
    ensures j < |pages| ==> pages[Slot(|pages|, clock, j)].present
    decreases |pages| - k
  {
    if k == |pages| || pages[Slot(|pages|, clock, k)].present then k else ToPresent(pages, clock, k + 1)
  }

  predicate SomePresent(pages: seq<Entry>)
  {
    exists v :: 0 <= v < |pages| && pages[v].present
  }

  lemma PresentIsReached(pages: seq<Entry>, clock: nat)
    requires clock <= |pages| && SomePresent(pages)
    ensures ToPresent(pages, clock, 0) < |pages|
  {
    var v :| 0 <= v < |pages| && pages[v].present;
    assert Slot(|pages|, clock, Distance(|pages|, clock, v)) == v;
  }

  /** The first unreferenced page in clock order, or the first present one when all are referenced. */
  function Victim(pages: seq<Entry>, clock: nat): (v: nat)
    requires clock <= |pages| && SomePresent(pages)
    ensures v < |pages| && pages[v].present
  {
    PresentIsReached(pages, clock);
    var j := ToIdle(pages, clock, 0);
    if j < |pages| then Slot(|pages|, clock, j) else Slot(|pages|, clock, ToPresent(pages, clock, 0))
  }

  function Swept(e: Entry, passed: bool): Entry
  {
    if passed && e.present then e.(referenced := false) else e
  }

  /** The table after the hand has passed `k` pages: their reference bits are cleared, nothing else changes. */
  function Sweep(pages: seq<Entry>, clock: nat, k: nat): (r: seq<Entry>)
    requires clock <= |pages|
    ensures |r| == |pages|
    ensures forall v :: 0 <= v < |pages| ==> r[v] == Swept(pages[v], Distance(|pages|, clock, v) < k)
  {
    seq(|pages|, v requires 0 <= v < |pages| => Swept(pages[v], Distance(|pages|, clock, v) < k))
  }

  // ----- Transitions

  /** Sizes agree; at least one frame. */
  ghost predicate Shape(m: Memory)
  {
    && m.pageSize >= 1
    && |m.frames| == |m.free| >= 1
    && |m.disk| == |m.pages|
    && m.clock <= |m.pages|
    && (forall f :: 0 <= f < |m.frames| ==> |m.frames[f]| == m.pageSize)
    && (forall v :: 0 <= v < |m.disk| ==> |m.disk[v]| == m.pageSize)
  }

  /** Present pages and occupied frames correspond one to one, all other frames
      are free and hold zeros, and an unallocated page has a blank entry. */
  ghost predicate TableOk(m: Memory)
  {
    && Shape(m)
    && (forall v :: 0 <= v < |m.pages| && m.pages[v].present ==>
          m.pages[v].valid && 0 <= m.pages[v].frame < |m.free| && !m.free[m.pages[v].frame])
    && (forall u, v :: 0 <= u < v < |m.pages| && m.pages[u].present && m.pages[v].present ==>
          m.pages[u].frame != m.pages[v].frame)
    && (forall f :: 0 <= f < |m.free| && !m.free[f] ==> Occupied(m, f))
    && (forall f :: 0 <= f < |m.free| && m.free[f] ==> m.frames[f] == Zeros(m.pageSize))
    && (forall v :: 0 <= v < |m.pages| && !m.pages[v].present ==> m.pages[v].frame == -1)
    && (forall v :: 0 <= v < |m.pages| && !m.pages[v].valid ==> !m.pages[v].referenced && !m.pages[v].modified)
  }

  ghost predicate Occupied(m: Memory, f: int)
  {
    exists v :: 0 <= v < |m.pages| && m.pages[v].present && m.pages[v].frame == f
  }

  /** Clean resident pages equal their disk slices, and unallocated pages have blank slices. */
  ghost predicate Coherent(m: Memory)
    requires TableOk(m)
  {
    && (forall v :: 0 <= v < |m.pages| && m.pages[v].present && !m.pages[v].modified ==>
          m.frames[m.pages[v].frame] == m.disk[v])
    && (forall v :: 0 <= v < |m.pages| && !m.pages[v].valid ==> m.disk[v] == Zeros(m.pageSize))
  }

  ghost predicate Good(m: Memory)
  {
    TableOk(m) && Coherent(m)
  }

  function FirstFree(free: seq<bool>, k: nat): (f: nat)
    requires k <= |free|
    ensures k <= f <= |free|
    ensures forall i :: k <= i < f ==> !free[i]
    ensures f < |free| ==> free[f]
    decreases |free| - k
  {
    if k == |free| || free[k] then k else FirstFree(free, k + 1)
  }

  function FirstInvalid(pages: seq<Entry>, k: nat): (v: nat)
    requires k <= |pages|
    ensures k <= v <= |pages|
    ensures forall i :: k <= i < v ==> pages[i].valid
    ensures v < |pages| ==> !pages[v].valid
    decreases |pages| - k
  {
    if k == |pages| || !pages[k].valid then k else FirstInvalid(pages, k + 1)
  }

  lemma FullHasPresent(m: Memory)
    requires TableOk(m) && FirstFree(m.free, 0) == |m.free|
    ensures SomePresent(m.pages)
  {
    assert Occupied(m, 0);
  }

  /** Steps the clock hand takes, at most two sweeps of the table. */
  function HandSteps(pages: seq<Entry>, clock: nat): (k: nat)
    requires clock <= |pages|
  {
    var j := ToIdle(pages, clock, 0);
    if j < |pages| then j else |pages| + ToPresent(pages, clock, 0)
  }

  /** The page under the hand after `k` steps, in its first or second sweep. */
  function HandAt(n: nat, clock: nat, k: nat): (v: nat)
    requires clock <= n && k < 2 * n
    ensures v < n
  {
    Slot(n, clock, if k < n then k else k - n)
  }

  /** The hand stops within two sweeps. */
  lemma HandStops(pages: seq<Entry>, clock: nat)
    requires clock <= |pages| && SomePresent(pages)
    ensures HandSteps(pages, clock) < 2 * |pages|
  {
    PresentIsReached(pages, clock);
  }

  lemma SweepMore(pages: seq<Entry>, clock: nat, k: nat)
    requires clock <= |pages| && k < 2 * |pages|
    ensures var v := HandAt(|pages|, clock, k);
            Sweep(pages, clock, k + 1) == Sweep(pages, clock, k)[v := Swept(Sweep(pages, clock, k)[v], true)]
  {
    var n, v := |pages|, HandAt(|pages|, clock, k);
    forall u | 0 <= u < n && u != v
      ensures Distance(n, clock, u) < k + 1 <==> Distance(n, clock, u) < k
    {
    }
  }

  lemma HandMoves(n: nat, clock: nat, k: nat)
    requires clock <= n && k + 1 < 2 * n
    ensures var v := HandAt(n, clock, k);
            HandAt(n, clock, k + 1) == if v + 1 == n then 0 else v + 1
  {
  }

  /** One look of the clock hand: it goes on past an absent or a referenced page, and stops at the victim. */
  lemma HandLooks(pages: seq<Entry>, clock: nat, k: nat)
    requires clock <= |pages| && SomePresent(pages) && k <= HandSteps(pages, clock)
    ensures k < 2 * |pages|
    ensures var v := HandAt(|pages|, clock, k); var e := Sweep(pages, clock, k)[v];
            if Idle(e) then k == HandSteps(pages, clock) && v == Victim(pages, clock)
            else k < HandSteps(pages, clock)
                 && Sweep(pages, clock, k + 1) == Sweep(pages, clock, k)[v := Swept(e, true)]
  {
    var n := |pages|;
    HandStops(pages, clock);
    PresentIsReached(pages, clock);
    SweepMore(pages, clock, k);
    var v := HandAt(n, clock, k);
    if k < n {
      assert Distance(n, clock, v) == k;
    } else {
      assert forall i :: 0 <= i < n ==> !Idle(pages[Slot(n, clock, i)]);
      assert Slot(n, clock, Distance(n, clock, v)) == v;
    }
  }

  /** CLOCK eviction: write the victim back if it is dirty, wipe and free its frame. */
  function Evict(m: Memory): (r: Memory)
    requires Shape(m) && SomePresent(m.pages)
    requires 0 <= m.pages[Victim(m.pages, m.clock)].frame < |m.frames|
  {
    var v := Victim(m.pages, m.clock);
    var e := m.pages[v];
    var swept := Sweep(m.pages, m.clock, HandSteps(m.pages, m.clock));
    m.(pages := swept[v := swept[v].(present := false, frame := -1)],
       disk := if e.modified then m.disk[v := m.frames[e.frame]] else m.disk,
       frames := m.frames[e.frame := Zeros(m.pageSize)],
       free := m.free[e.frame := true],
       clock := v + 1)
  }

  /** A state with a free frame: the present one if it has any, else the one after an eviction. */
  function MakeRoom(m: Memory): Memory
    requires TableOk(m)
  {
    if FirstFree(m.free, 0) < |m.free| then m
    else
      FullHasPresent(m);
      Evict(m)
  }

  function RoomFrame(m: Memory): nat
    requires TableOk(m)
  {
    var f := FirstFree(m.free, 0);
    if f < |m.free| then f
    else
      FullHasPresent(m);
      m.pages[Victim(m.pages, m.clock)].frame
  }

  function LoadPage(m: Memory, v: nat, f: nat): Memory
    requires v < |m.pages| && v < |m.disk| && f < |m.frames| && f < |m.free|
  {
    m.(frames := m.frames[f := m.disk[v]], free := m.free[f := false],
       pages := m.pages[v := m.pages[v].(present := true, frame := f)])
  }

  function Fault(m: Memory, v: nat): Memory
    requires TableOk(m) && v < |m.pages|
  {
    var room := MakeRoom(m);
    LoadPage(room, v, RoomFrame(m))
  }

  function Touch(m: Memory, v: nat, write: bool): Memory
    requires v < |m.pages|
  {
    var e := m.pages[v];
    m.(pages := m.pages[v := e.(referenced := true, modified := e.modified || write)])
  }

  /** The page at `v` made resident and marked as used. */
  function Access(m: Memory, v: nat, write: bool): Memory
    requires TableOk(m) && v < |m.pages|
  {
    Touch(if m.pages[v].present then m else Fault(m, v), v, write)
  }

  function AddressError(m: Memory, addr: int): (e: Out)
    requires m.pageSize >= 1
  {
    var v := PageOf(addr, m.pageSize);
    if v < 0 || v >= |m.pages| then Failed(OutOfBounds)
    else if !m.pages[v].valid then Failed(SegmentationFault)
    else Done
  }

  function Poke(block: seq<byte>, off: nat, data: byte): (r: seq<byte>)
    requires off < |block|
  {
    block[off := data]
  }

  function SetByte(m: Memory, f: nat, off: nat, data: byte): Memory
    requires f < |m.frames| && off < |m.frames[f]|
  {
    m.(frames := m.frames[f := Poke(m.frames[f], off, data)])
  }

  // ----- The flat view

  /** What page `v` holds, wherever it is. */
  function Data(m: Memory, v: nat): seq<byte>
    requires TableOk(m) && v < |m.pages|
  {
    if m.pages[v].present then m.frames[m.pages[v].frame] else m.disk[v]
  }

  /** The allocated pages and their contents. */
  function View(m: Memory): (view: map<int, seq<byte>>)
    requires TableOk(m)
  {
    map v: int | 0 <= v < |m.pages| && m.pages[v].valid :: Data(m, v)
  }

  ghost predicate SameView(m: Memory, m': Memory)
    requires TableOk(m) && TableOk(m')
  {
    |m.pages| == |m'.pages| && m.pageSize == m'.pageSize && View(m) == View(m')
  }

  ghost predicate SameElsewhere(m: Memory, m': Memory, v: nat)
    requires TableOk(m) && TableOk(m')
  {
    && |m'.pages| == |m.pages|
    && forall u: nat :: u < |m.pages| && u != v ==> m'.pages[u].valid == m.pages[u].valid && Data(m', u) == Data(m, u)
  }

  lemma ViewWithout(m: Memory, m': Memory, v: nat)
    requires TableOk(m) && TableOk(m') && v < |m.pages| && SameElsewhere(m, m', v) && !m'.pages[v].valid
    ensures View(m') == View(m) - {v as int}
  {
    assert View(m').Keys == View(m).Keys - {v as int};
  }

  lemma ViewWith(m: Memory, m': Memory, v: nat)
    requires TableOk(m) && TableOk(m') && v < |m.pages| && SameElsewhere(m, m', v) && m'.pages[v].valid
    ensures View(m') == View(m)[v as int := Data(m', v)]
  {
  }

  // ----- Eviction

  ghost predicate SameButReferenced(e: Entry, e': Entry)
  {
    e' == e.(referenced := e'.referenced) && (e'.referenced ==> e.referenced)
  }

  /** What matters about an eviction of page `v`, whichever reference bits it clears. */
  ghost predicate Evicted(m: Memory, m': Memory, v: nat)
  {
    && TableOk(m)
    && v < |m.pages| == |m'.pages| && m.pages[v].present
    && m'.pageSize == m.pageSize && m'.clock <= |m.pages|
    && SameButReferenced(m.pages[v].(present := false, frame := -1), m'.pages[v])
    && (forall u :: 0 <= u < |m.pages| && u != v ==> SameButReferenced(m.pages[u], m'.pages[u]))
    && m'.disk == (if m.pages[v].modified then m.disk[v := m.frames[m.pages[v].frame]] else m.disk)
    && m'.frames == m.frames[m.pages[v].frame := Zeros(m.pageSize)]
    && m'.free == m.free[m.pages[v].frame := true]
  }

  lemma EvictIsEviction(m: Memory)
    requires TableOk(m) && SomePresent(m.pages)
    ensures Evicted(m, Evict(m), Victim(m.pages, m.clock))
  {
    var v, k := Victim(m.pages, m.clock), HandSteps(m.pages, m.clock);
    forall u | 0 <= u < |m.pages|
      ensures SameButReferenced(m.pages[u], Sweep(m.pages, m.clock, k)[u])
    {
    }
    assert SameButReferenced(m.pages[v].(present := false, frame := -1), Evict(m).pages[v]);
  }

  /** The hand has stopped at the victim and marked it absent. */
  function HandStopped(m: Memory): Memory
    requires TableOk(m) && SomePresent(m.pages)
  {
    var v := Victim(m.pages, m.clock);
    var swept := Sweep(m.pages, m.clock, HandSteps(m.pages, m.clock));
    m.(pages := swept[v := swept[v].(present := false)], clock := v + 1)
  }

  /** Page `v` written back if dirty and unmapped, its frame blank and free. */
  function Reclaimed(m: Memory, v: nat): Memory
    requires v < |m.pages| == |m.disk| && 0 <= m.pages[v].frame < |m.frames| == |m.free|
  {
    var e := m.pages[v];
    m.(pages := m.pages[v := e.(frame := -1)],
       disk := if e.modified then m.disk[v := m.frames[e.frame]] else m.disk,
       frames := m.frames[e.frame := Zeros(m.pageSize)],
       free := m.free[e.frame := true])
  }

  lemma EvictInSteps(m: Memory)
    requires TableOk(m) && SomePresent(m.pages)
    ensures var s, v := HandStopped(m), Victim(m.pages, m.clock);
            s.pages[v].frame == m.pages[v].frame && Reclaimed(s, v) == Evict(m)
  {
    var s, v := HandStopped(m), Victim(m.pages, m.clock);
    assert Reclaimed(s, v).pages == Evict(m).pages;
  }

  lemma EvictedTable(m: Memory, m': Memory, v: nat)
    requires Evicted(m, m', v)
    ensures TableOk(m')
  {
    forall f | 0 <= f < |m'.free| && !m'.free[f]
      ensures Occupied(m', f)
    {
      assert Occupied(m, f);
      var u :| 0 <= u < |m.pages| && m.pages[u].present && m.pages[u].frame == f;
      assert SameButReferenced(m.pages[u], m'.pages[u]);
    }
    assert forall u :: 0 <= u < |m.pages| && u != v ==> SameButReferenced(m.pages[u], m'.pages[u]);
  }

  lemma EvictedData(m: Memory, m': Memory, v: nat, u: nat)
    requires Evicted(m, m', v) && TableOk(m') && Coherent(m) && u < |m.pages|
    ensures Data(m', u) == Data(m, u)
  {
    if u != v {
      assert SameButReferenced(m.pages[u], m'.pages[u]);
    }
  }

  lemma EvictedKeeps(m: Memory, m': Memory, v: nat)
    requires Evicted(m, m', v) && Coherent(m)
    ensures Good(m') && SameView(m, m')
  {
    EvictedTable(m, m', v);
    forall u: int | 0 <= u < |m.pages|
      ensures m'.pages[u].valid == m.pages[u].valid && Data(m', u) == Data(m, u)
    {
      EvictedData(m, m', v, u);
      assert u != v ==> SameButReferenced(m.pages[u], m'.pages[u]);
    }
    forall u: int | 0 <= u < |m.pages|
      ensures m'.pages[u].present && !m'.pages[u].modified ==> m'.frames[m'.pages[u].frame] == m'.disk[u]
      ensures !m'.pages[u].valid ==> m'.disk[u] == Zeros(m.pageSize)
    {
      assert u != v ==> SameButReferenced(m.pages[u], m'.pages[u]);
    }
  }

  /** Room for one more page, obtained without changing what any page holds. */
  lemma RoomTable(m: Memory)
    requires TableOk(m)
    ensures var m', f := MakeRoom(m), RoomFrame(m);
            TableOk(m') && f < |m'.free| && m'.free[f] && |m'.pages| == |m.pages| && m'.pageSize == m.pageSize
            && (forall u :: 0 <= u < |m.pages| ==>
                m'.pages[u].valid == m.pages[u].valid && (m'.pages[u].present ==> m.pages[u].present))
  {
    if FirstFree(m.free, 0) == |m.free| {
      FullHasPresent(m);
      var m', v := Evict(m), Victim(m.pages, m.clock);
      EvictIsEviction(m);
      EvictedTable(m, m', v);
      assert forall u :: 0 <= u < |m.pages| && u != v ==> SameButReferenced(m.pages[u], m'.pages[u]);
    }
  }

  lemma RoomKeeps(m: Memory)
    requires Good(m)
    ensures Good(MakeRoom(m)) && SameView(m, MakeRoom(m))
  {
    if FirstFree(m.free, 0) == |m.free| {
      FullHasPresent(m);
      EvictIsEviction(m);
      EvictedKeeps(m, Evict(m), Victim(m.pages, m.clock));
    }
  }

  // ----- Paging in

  lemma LoadTable(m: Memory, v: nat, f: nat)
    requires TableOk(m) && v < |m.pages| && m.pages[v].valid && !m.pages[v].present
    requires f < |m.free| && m.free[f]
    ensures TableOk(LoadPage(m, v, f))
  {
    var m' := LoadPage(m, v, f);
    forall g | 0 <= g < |m'.free| && !m'.free[g]
      ensures Occupied(m', g)
    {
      if g == f {
        assert m'.pages[v].present && m'.pages[v].frame == f;
      } else {
        assert Occupied(m, g);
        var u :| 0 <= u < |m.pages| && m.pages[u].present && m.pages[u].frame == g;
        assert m'.pages[u] == m.pages[u];
      }
    }
  }

  lemma LoadKeeps(m: Memory, v: nat, f: nat)
    requires Good(m) && v < |m.pages| && m.pages[v].valid && !m.pages[v].present
    requires f < |m.free| && m.free[f]
    ensures Good(LoadPage(m, v, f)) && SameView(m, LoadPage(m, v, f))
  {
    var m' := LoadPage(m, v, f);
    LoadTable(m, v, f);
    forall u: int | 0 <= u < |m.pages|
      ensures m'.pages[u].valid == m.pages[u].valid && Data(m', u) == Data(m, u)
    {
      assert u != v ==> m'.pages[u] == m.pages[u];
    }
  }

  lemma TouchTable(m: Memory, v: nat, write: bool)
    requires TableOk(m) && v < |m.pages| && m.pages[v].valid
    ensures TableOk(Touch(m, v, write))
  {
    var m' := Touch(m, v, write);
    forall g | 0 <= g < |m'.free| && !m'.free[g]
      ensures Occupied(m', g)
    {
      assert Occupied(m, g);
      var u :| 0 <= u < |m.pages| && m.pages[u].present && m.pages[u].frame == g;
      assert m'.pages[u].present && m'.pages[u].frame == g;
    }
  }

  lemma TouchKeeps(m: Memory, v: nat, write: bool)
    requires Good(m) && v < |m.pages| && m.pages[v].valid
    ensures Good(Touch(m, v, write)) && SameView(m, Touch(m, v, write))
  {
    var m' := Touch(m, v, write);
    TouchTable(m, v, write);
    assert forall u: nat :: u < |m.pages| ==> Data(m', u) == Data(m, u);
  }

  lemma FaultTable(m: Memory, v: nat)
    requires TableOk(m) && v < |m.pages| && m.pages[v].valid && !m.pages[v].present
    ensures TableOk(Fault(m, v))
    ensures Fault(m, v).pages[v].present && Fault(m, v).pages[v].valid
    ensures |Fault(m, v).pages| == |m.pages| && Fault(m, v).pageSize == m.pageSize
  {
    RoomTable(m);
    LoadTable(MakeRoom(m), v, RoomFrame(m));
  }

  lemma AccessTable(m: Memory, v: nat, write: bool)
    requires TableOk(m) && v < |m.pages| && m.pages[v].valid
    ensures var m' := Access(m, v, write);
            TableOk(m') && |m'.pages| == |m.pages| && m'.pageSize == m.pageSize
            && m'.pages[v].present && (write ==> m'.pages[v].modified)
  {
    if !m.pages[v].present {
      FaultTable(m, v);
      TouchTable(Fault(m, v), v, write);
    } else {
      TouchTable(m, v, write);
    }
  }

  lemma AccessKeeps(m: Memory, v: nat, write: bool)
    requires Good(m) && v < |m.pages| && m.pages[v].valid
    ensures var m' := Access(m, v, write);
            Good(m') && SameView(m, m') && m'.pages[v].present && m'.pages[v].valid && (write ==> m'.pages[v].modified)
  {
    if !m.pages[v].present {
      RoomTable(m);
      RoomKeeps(m);
      FaultTable(m, v);
      LoadKeeps(MakeRoom(m), v, RoomFrame(m));
      TouchKeeps(Fault(m, v), v, write);
    } else {
      TouchKeeps(m, v, write);
    }
  }

  // ----- Writing a byte

  lemma SetByteTable(m: Memory, v: nat, off: nat, data: byte)
    requires TableOk(m) && v < |m.pages| && m.pages[v].present && off < m.pageSize
    ensures TableOk(SetByte(m, m.pages[v].frame, off, data))
  {
    var m' := SetByte(m, m.pages[v].frame, off, data);
    forall g | 0 <= g < |m'.free| && !m'.free[g]
      ensures Occupied(m', g)
    {
      assert Occupied(m, g);
    }
  }

  lemma SetByteKeeps(m: Memory, v: nat, off: nat, data: byte)
    requires Good(m) && v < |m.pages| && m.pages[v].present && m.pages[v].modified && off < m.pageSize
    ensures var m' := SetByte(m, m.pages[v].frame, off, data);
            Good(m') && View(m') == View(m)[v as int := Poke(Data(m, v), off, data)]
  {
    var m' := SetByte(m, m.pages[v].frame, off, data);
    SetByteTable(m, v, off, data);
    assert SameElsewhere(m, m', v);
    ViewWith(m, m', v);
  }

  // ----- Allocating and deleting

  function Place(m: Memory, v: nat, f: nat): Memory
    requires v < |m.pages| && f < |m.free|
  {
    m.(pages := m.pages[v := m.pages[v].(valid := true, present := true, frame := f)], free := m.free[f := false])
  }

  lemma PlaceTable(m: Memory, v: nat, f: nat)
    requires TableOk(m) && v < |m.pages| && !m.pages[v].valid && f < |m.free| && m.free[f]
    ensures TableOk(Place(m, v, f))
  {
    var m' := Place(m, v, f);
    forall g | 0 <= g < |m'.free| && !m'.free[g]
      ensures Occupied(m', g)
    {
      if g == f {
        assert m'.pages[v].present && m'.pages[v].frame == f;
      } else {
        assert Occupied(m, g);
        var u :| 0 <= u < |m.pages| && m.pages[u].present && m.pages[u].frame == g;
        assert m'.pages[u] == m.pages[u];
      }
    }
  }

  lemma PlaceKeeps(m: Memory, v: nat, f: nat)
    requires Good(m) && v < |m.pages| && !m.pages[v].valid && f < |m.free| && m.free[f]
    ensures Good(Place(m, v, f)) && View(Place(m, v, f)) == View(m)[v as int := Zeros(m.pageSize)]
  {
    var m' := Place(m, v, f);
    PlaceTable(m, v, f);
    assert SameElsewhere(m, m', v);
    ViewWith(m, m', v);
  }

  function Blank(): Entry
  {
    Entry(false, false, false, false, -1)
  }

  /** Deleting a resident page wipes its frame; deleting a swapped-out one wipes its disk slice. */
  function Drop(m: Memory, v: nat): Memory
    requires TableOk(m) && v < |m.pages|
  {
    var e := m.pages[v];
    var blank := m.(pages := m.pages[v := Blank()]);
    if e.present then blank.(frames := m.frames[e.frame := Zeros(m.pageSize)], free := m.free[e.frame := true])
    else blank.(disk := m.disk[v := Zeros(m.pageSize)])
  }

  lemma DropOccupied(m: Memory, v: nat, g: nat)
    requires TableOk(m) && v < |m.pages| && g < |m.free| && !Drop(m, v).free[g]
    ensures Occupied(Drop(m, v), g)
  {
    assert Occupied(m, g);
    var u :| 0 <= u < |m.pages| && m.pages[u].present && m.pages[u].frame == g;
    assert Drop(m, v).pages[u] == m.pages[u];
  }

  lemma DropTable(m: Memory, v: nat)
    requires TableOk(m) && v < |m.pages|
    ensures TableOk(Drop(m, v))
  {
    var m' := Drop(m, v);
    DropEntries(m, v);
    forall g | 0 <= g < |m'.free| && !m'.free[g]
      ensures Occupied(m', g)
    {
      DropOccupied(m, v, g);
    }
  }

  /** The entries left are as they were, and no two share a frame. */
  lemma DropEntries(m: Memory, v: nat)
    requires TableOk(m) && v < |m.pages|
    ensures var m' := Drop(m, v);
            && Shape(m')
            && (forall u :: 0 <= u < |m'.pages| && m'.pages[u].present ==>
                  m'.pages[u].valid && 0 <= m'.pages[u].frame < |m'.free| && !m'.free[m'.pages[u].frame])
            && (forall f :: 0 <= f < |m'.free| && m'.free[f] ==> m'.frames[f] == Zeros(m'.pageSize))
  {
  }

  lemma DropOthers(m: Memory, v: nat, u: nat)
    requires TableOk(m) && v < |m.pages| && m.pages[v].valid && u < |m.pages| && u != v
    ensures TableOk(Drop(m, v))
    ensures var m' := Drop(m, v);
            m'.pages[u] == m.pages[u] && m'.disk[u] == m.disk[u] && Data(m', u) == Data(m, u)
            && (m.pages[u].present ==> m'.frames[m.pages[u].frame] == m.frames[m.pages[u].frame])
  {
    DropTable(m, v);
  }

  lemma DropView(m: Memory, v: nat)
    requires TableOk(m) && v < |m.pages| && m.pages[v].valid
    ensures TableOk(Drop(m, v)) && View(Drop(m, v)) == View(m) - {v as int}
  {
    DropTable(m, v);
    forall u: nat | u < |m.pages| && u != v
      ensures Drop(m, v).pages[u].valid == m.pages[u].valid && Data(Drop(m, v), u) == Data(m, u)
    {
      DropOthers(m, v, u);
    }
    ViewWithout(m, Drop(m, v), v);
  }

  /** Deleting keeps unallocated disk slices blank exactly when the page was
      swapped out or its slice was blank already. */
  lemma DropKeeps(m: Memory, v: nat)
    requires Good(m) && v < |m.pages| && m.pages[v].valid
    ensures Good(Drop(m, v)) <==> (m.pages[v].present ==> m.disk[v] == Zeros(m.pageSize))
  {
    var m' := Drop(m, v);
    DropTable(m, v);
    assert m'.pages[v] == Blank();
    forall u: nat | u < |m.pages| && u != v
      ensures m'.pages[u] == m.pages[u] && m'.disk[u] == m.disk[u]
      ensures m.pages[u].present ==> m'.frames[m.pages[u].frame] == m.frames[m.pages[u].frame]
    {
      DropOthers(m, v, u);
    }
    assert m'.disk[v] == if m.pages[v].present then m.disk[v] else Zeros(m.pageSize);
  }

  // ----- The public operations

  function AllocateStep(m: Memory): (Memory, Out)
    requires TableOk(m)
  {
    var v := FirstInvalid(m.pages, 0);
    if v == |m.pages| then (m, Failed(NoFreePage))
    else
      RoomTable(m);
      (Place(MakeRoom(m), v, RoomFrame(m)), Address(v * m.pageSize))
  }

  function WriteStep(m: Memory, addr: int, data: byte): (Memory, Out)
    requires TableOk(m)
  {
    var e := AddressError(m, addr);
    if e.Failed? then (m, e)
    else
      var v := PageOf(addr, m.pageSize);
      AccessTable(m, v, true);
      var m' := Access(m, v, true);
      (SetByte(m', m'.pages[v].frame, OffsetOf(addr, m.pageSize), data), Done)
  }

  function ReadStep(m: Memory, addr: int): (Memory, Out)
    requires TableOk(m)
  {
    var e := AddressError(m, addr);
    if e.Failed? then (m, e)
    else
      var v := PageOf(addr, m.pageSize);
      AccessTable(m, v, false);
      var m' := Access(m, v, false);
      (m', Value(m'.frames[m'.pages[v].frame][OffsetOf(addr, m.pageSize)]))
  }

  function DeleteStep(m: Memory, addr: int): (Memory, Out)
    requires TableOk(m)
  {
    var v := PageOf(addr, m.pageSize);
    if v < 0 || v >= |m.pages| then (m, Failed(OutOfBounds))
    else if !m.pages[v].valid then (m, Failed(NotAllocated))
    else (Drop(m, v), Done)
  }

  function Step(m: Memory, op: Op): (Memory, Out)
    requires TableOk(m)
  {
    match op
    case Allocate => AllocateStep(m)
    case Write(addr, data) => WriteStep(m, addr, data)
    case Read(addr) => ReadStep(m, addr)
    case Delete(addr) => DeleteStep(m, addr)
  }

  lemma AllocateKeepsTable(m: Memory)
    requires TableOk(m)
    ensures var m' := AllocateStep(m).0;
            TableOk(m') && |m'.pages| == |m.pages| && m'.pageSize == m.pageSize
  {
    var v := FirstInvalid(m.pages, 0);
    RoomTable(m);
    if v < |m.pages| {
      PlaceTable(MakeRoom(m), v, RoomFrame(m));
    }
  }

  lemma WriteKeepsTable(m: Memory, addr: int, data: byte)
    requires TableOk(m)
    ensures var m' := WriteStep(m, addr, data).0;
            TableOk(m') && |m'.pages| == |m.pages| && m'.pageSize == m.pageSize
  {
    if AddressError(m, addr).Done? {
      var v := PageOf(addr, m.pageSize);
      AccessTable(m, v, true);
      SetByteTable(Access(m, v, true), v, OffsetOf(addr, m.pageSize), data);
    }
  }

  lemma DeleteKeepsTable(m: Memory, addr: int)
    requires TableOk(m)
    ensures var m' := DeleteStep(m, addr).0;
            TableOk(m') && |m'.pages| == |m.pages| && m'.pageSize == m.pageSize
  {
    var v := PageOf(addr, m.pageSize);
    if 0 <= v < |m.pages| && m.pages[v].valid {
      DropTable(m, v);
    }
  }

  /** The page-table invariant holds in every reachable state. */
  lemma StepKeepsTable(m: Memory, op: Op)
    requires TableOk(m)
    ensures TableOk(Step(m, op).0)
    ensures |Step(m, op).0.pages| == |m.pages| && Step(m, op).0.pageSize == m.pageSize
  {
    match op
    case Allocate => AllocateKeepsTable(m);
    case Write(addr, data) => WriteKeepsTable(m, addr, data);
    case Read(addr) =>
      if AddressError(m, addr).Done? {
        AccessTable(m, PageOf(addr, m.pageSize), false);
      }
    case Delete(addr) => DeleteKeepsTable(m, addr);
  }

  lemma StepKeepsFrames(m: Memory, op: Op)
    requires TableOk(m)
    ensures |Step(m, op).0.frames| == |m.frames|
  {
    match op
    case Allocate =>
    case Write(addr, data) =>
      if AddressError(m, addr).Done? {
        AccessTable(m, PageOf(addr, m.pageSize), true);
      }
    case Read(addr) =>
      if AddressError(m, addr).Done? {
        AccessTable(m, PageOf(addr, m.pageSize), false);
      }
    case Delete(addr) =>
  }

  // ----- Flat memory

  /** The specification: allocated pages of plain bytes, with no frames, disk or eviction. */
  datatype Flat = Flat(pageSize: nat, pageCount: nat, pages: map<int, seq<byte>>)

  ghost predicate WellFormed(flat: Flat)
  {
    flat.pageSize >= 1 && forall v :: v in flat.pages ==> 0 <= v < flat.pageCount && |flat.pages[v]| == flat.pageSize
  }

  function FirstUnallocated(flat: Flat, k: nat): (v: nat)
    requires k <= flat.pageCount
    ensures k <= v <= flat.pageCount && (v < flat.pageCount ==> v !in flat.pages)
    decreases flat.pageCount - k
  {
    if k == flat.pageCount || k !in flat.pages then k else FirstUnallocated(flat, k + 1)
  }

  function FlatStep(flat: Flat, op: Op): (Flat, Out)
    requires WellFormed(flat)
  {
    match op
    case Allocate =>
      var v := FirstUnallocated(flat, 0);
      if v == flat.pageCount then (flat, Failed(NoFreePage))
      else (flat.(pages := flat.pages[v as int := Zeros(flat.pageSize)]), Address(v * flat.pageSize))
    case Write(addr, data) =>
      var v, off := PageOf(addr, flat.pageSize), OffsetOf(addr, flat.pageSize);
      if v < 0 || v >= flat.pageCount then (flat, Failed(OutOfBounds))
      else if v !in flat.pages then (flat, Failed(SegmentationFault))
      else (flat.(pages := flat.pages[v := Poke(flat.pages[v], off, data)]), Done)
    case Read(addr) =>
      var v, off := PageOf(addr, flat.pageSize), OffsetOf(addr, flat.pageSize);
      if v < 0 || v >= flat.pageCount then (flat, Failed(OutOfBounds))
      else if v !in flat.pages then (flat, Failed(SegmentationFault))
      else (flat, Value(flat.pages[v][off]))
    case Delete(addr) =>
      var v := PageOf(addr, flat.pageSize);
      if v < 0 || v >= flat.pageCount then (flat, Failed(OutOfBounds))
      else if v !in flat.pages then (flat, Failed(NotAllocated))
      else (flat.(pages := flat.pages - {v}), Done)
  }

  function FlatOf(m: Memory): (flat: Flat)
    requires TableOk(m)
    ensures WellFormed(flat)
  {
    Flat(m.pageSize, |m.pages|, View(m))
  }

  lemma {:induction false} SameFirst(m: Memory, k: nat)
    requires TableOk(m) && k <= |m.pages|
    ensures FirstUnallocated(FlatOf(m), k) == FirstInvalid(m.pages, k)
    decreases |m.pages| - k
  {
    if k < |m.pages| && m.pages[k].valid {
      SameFirst(m, k + 1);
    }
  }

  lemma AllocateRefines(m: Memory)
    requires Good(m)
    ensures Good(AllocateStep(m).0)
    ensures FlatStep(FlatOf(m), Allocate) == (FlatOf(AllocateStep(m).0), AllocateStep(m).1)
  {
    var v := FirstInvalid(m.pages, 0);
    SameFirst(m, 0);
    if v < |m.pages| {
      RoomTable(m);
      RoomKeeps(m);
      PlaceKeeps(MakeRoom(m), v, RoomFrame(m));
    }
  }

  lemma WriteInPlace(m: Memory, v: nat, off: nat, data: byte)
    requires Good(m) && v < |m.pages| && m.pages[v].valid && off < m.pageSize
    ensures var m' := Access(m, v, true);
            && TableOk(m') && |m'.pages| == |m.pages| && m'.pageSize == m.pageSize && m'.pages[v].present
            && v as int in View(m)
            && var w := SetByte(m', m'.pages[v].frame, off, data);
               Good(w) && View(w) == View(m)[v as int := Poke(View(m)[v], off, data)]
  {
    AccessTable(m, v, true);
    AccessKeeps(m, v, true);
    assert v in View(m) && View(m)[v] == Data(m, v);
    assert v in View(Access(m, v, true));
    SetByteKeeps(Access(m, v, true), v, off, data);
  }

  lemma WriteRefines(m: Memory, addr: int, data: byte)
    requires Good(m)
    ensures Good(WriteStep(m, addr, data).0)
    ensures FlatStep(FlatOf(m), Write(addr, data)) == (FlatOf(WriteStep(m, addr, data).0), WriteStep(m, addr, data).1)
  {
    if AddressError(m, addr).Done? {
      WriteInPlace(m, PageOf(addr, m.pageSize), OffsetOf(addr, m.pageSize), data);
    }
  }

  lemma ReadInPlace(m: Memory, v: nat)
    requires Good(m) && v < |m.pages| && m.pages[v].valid
    ensures var m' := Access(m, v, false);
            && Good(m') && |m'.pages| == |m.pages| && m'.pageSize == m.pageSize && View(m') == View(m)
            && m'.pages[v].present && v as int in View(m) && m'.frames[m'.pages[v].frame] == View(m)[v]
  {
    AccessTable(m, v, false);
    AccessKeeps(m, v, false);
    assert v in View(m) && View(m)[v] == Data(m, v);
    assert v in View(Access(m, v, false));
  }

  lemma ReadRefines(m: Memory, addr: int)
    requires Good(m)
    ensures Good(ReadStep(m, addr).0)
    ensures FlatStep(FlatOf(m), Read(addr)) == (FlatOf(ReadStep(m, addr).0), ReadStep(m, addr).1)
  {
    if AddressError(m, addr).Done? {
      ReadAnswer(m, addr);
      var v := PageOf(addr, m.pageSize);
      assert v in View(m);
    }
  }

  lemma ReadAnswer(m: Memory, addr: int)
    requires Good(m) && AddressError(m, addr).Done?
    ensures var v, off := PageOf(addr, m.pageSize), OffsetOf(addr, m.pageSize);
            && v in View(m) && ReadStep(m, addr).1 == Value(View(m)[v][off])
            && Good(ReadStep(m, addr).0) && FlatOf(ReadStep(m, addr).0) == FlatOf(m)
  {
    ReadInPlace(m, PageOf(addr, m.pageSize));
  }

  /** The one call that can go wrong: deleting a resident page whose disk slice is not blank. */
  predicate CleanDelete(m: Memory, op: Op)
    requires TableOk(m)
  {
    op.Delete? && (var v := PageOf(op.addr, m.pageSize);
      0 <= v < |m.pages| && m.pages[v].valid && m.pages[v].present) ==>
        m.disk[PageOf(op.addr, m.pageSize)] == Zeros(m.pageSize)
  }

  lemma DeleteRefines(m: Memory, addr: int)
    requires Good(m)
    ensures TableOk(DeleteStep(m, addr).0)
    ensures Good(DeleteStep(m, addr).0) <==> CleanDelete(m, Delete(addr))
    ensures FlatStep(FlatOf(m), Delete(addr)) == (FlatOf(DeleteStep(m, addr).0), DeleteStep(m, addr).1)
  {
    var v := PageOf(addr, m.pageSize);
    if 0 <= v < |m.pages| && m.pages[v].valid {
      assert v in View(m);
      DropView(m, v);
      DropKeeps(m, v);
    }
  }

  /** From a good state every operation answers as flat memory would, and the
      next state is good exactly when the operation was not an unclean delete. */
  lemma StepRefines(m: Memory, op: Op)
    requires Good(m)
    ensures TableOk(Step(m, op).0)
    ensures FlatStep(FlatOf(m), op) == (FlatOf(Step(m, op).0), Step(m, op).1)
    ensures Good(Step(m, op).0) <==> CleanDelete(m, op)
  {
    match op
    case Allocate => AllocateRefines(m);
    case Write(addr, data) => WriteRefines(m, addr, data);
    case Read(addr) => ReadRefines(m, addr);
    case Delete(addr) => DeleteRefines(m, addr);
  }

  // ----- Runs

  /** The answers of a run. */
  function Answers(m: Memory, ops: seq<Op>): seq<Out>
    requires TableOk(m)
    decreases |ops|
  {
    if ops == [] then []
    else
      StepKeepsTable(m, ops[0]);
      [Step(m, ops[0]).1] + Answers(Step(m, ops[0]).0, ops[1..])
  }

  lemma AnswersNext(m: Memory, ops: seq<Op>, i: nat)
    requires TableOk(m) && i < |ops|
    ensures TableOk(Step(m, ops[i]).0)
    ensures Answers(m, ops[i..]) == [Step(m, ops[i]).1] + Answers(Step(m, ops[i]).0, ops[i + 1..])
    ensures After(m, ops[i..]) == After(Step(m, ops[i]).0, ops[i + 1..])
  {
    StepKeepsTable(m, ops[i]);
    assert ops[i..][1..] == ops[i + 1..];
  }

  /** The state a run ends in. */
  function After(m: Memory, ops: seq<Op>): (r: Memory)
    requires TableOk(m)
    ensures TableOk(r) && |r.pages| == |m.pages| && r.pageSize == m.pageSize && |r.frames| == |m.frames|
    decreases |ops|
  {
    if ops == [] then m
    else
      StepKeepsTable(m, ops[0]);
      StepKeepsFrames(m, ops[0]);
      After(Step(m, ops[0]).0, ops[1..])
  }

  /** Each answer is that of the operation in the state it finds. */
  lemma {:induction false} AnswerAt(m: Memory, ops: seq<Op>, i: nat)
    requires TableOk(m) && i < |ops|
    ensures |Answers(m, ops)| == |ops| && Answers(m, ops)[i] == Step(After(m, ops[..i]), ops[i]).1
    decreases |ops|
  {
    AnswersFirst(m, ops);
    var m' := Step(m, ops[0]).0;
    if i > 0 {
      AnswerAt(m', ops[1..], i - 1);
      AfterFirst(m, ops, i);
    } else if |ops| > 1 {
      AnswerAt(m', ops[1..], 0);
    }
  }

  lemma AnswersFirst(m: Memory, ops: seq<Op>)
    requires TableOk(m) && ops != []
    ensures TableOk(Step(m, ops[0]).0)
    ensures Answers(m, ops) == [Step(m, ops[0]).1] + Answers(Step(m, ops[0]).0, ops[1..])
  {
    StepKeepsTable(m, ops[0]);
  }

  lemma AfterFirst(m: Memory, ops: seq<Op>, i: nat)
    requires TableOk(m) && 0 < i <= |ops|
    ensures TableOk(Step(m, ops[0]).0)
    ensures After(m, ops[..i]) == After(Step(m, ops[0]).0, ops[1..][..i - 1])
  {
    StepKeepsTable(m, ops[0]);
    assert ops[..i][0] == ops[0] && ops[..i][1..] == ops[1..][..i - 1];
  }

  function FlatAnswers(flat: Flat, ops: seq<Op>): seq<Out>
    requires WellFormed(flat)
    decreases |ops|
  {
    if ops == [] then [] else [FlatStep(flat, ops[0]).1] + FlatAnswers(FlatStep(flat, ops[0]).0, ops[1..])
  }

  function FlatAfter(flat: Flat, ops: seq<Op>): (r: Flat)
    requires WellFormed(flat)
    ensures WellFormed(r) && r.pageSize == flat.pageSize && r.pageCount == flat.pageCount
  {
    if ops == [] then flat else FlatStep(FlatAfter(flat, ops[..|ops| - 1]), ops[|ops| - 1]).0
  }

  lemma {:induction false} FlatAfterFirst(flat: Flat, ops: seq<Op>)
    requires WellFormed(flat) && ops != []
    ensures FlatAfter(flat, ops) == FlatAfter(FlatStep(flat, ops[0]).0, ops[1..])
    decreases |ops|
  {
    var n := |ops| - 1;
    if n > 0 {
      FlatAfterFirst(flat, ops[..n]);
      assert ops[..n][1..] == ops[1..][..n - 1];
    } else {
      assert ops[..0] == [] && ops[1..] == [];
    }
  }

  lemma FlatAnswersFirst(flat: Flat, ops: seq<Op>)
    requires WellFormed(flat) && ops != []
    ensures FlatAnswers(flat, ops) == [FlatStep(flat, ops[0]).1] + FlatAnswers(FlatStep(flat, ops[0]).0, ops[1..])
  {
  }

  lemma {:induction false} FlatAnswerAt(flat: Flat, ops: seq<Op>, i: nat)
    requires WellFormed(flat) && i < |ops|
    ensures |FlatAnswers(flat, ops)| == |ops|
            && FlatAnswers(flat, ops)[i] == FlatStep(FlatAfter(flat, ops[..i]), ops[i]).1
    decreases |ops|
  {
    var flat', rest := FlatStep(flat, ops[0]).0, ops[1..];
    FlatAnswersFirst(flat, ops);
    if i > 0 {
      FlatAnswerAt(flat', rest, i - 1);
      FlatAfterFirst(flat, ops[..i]);
      assert ops[..i][1..] == rest[..i - 1];
    } else if |ops| > 1 {
      FlatAnswerAt(flat', rest, 0);
    }
  }

  /** Read off the history alone: the last byte written to this cell since its page was last allocated, else 0. */
  function LastByte(flat: Flat, ops: seq<Op>, v: int, off: nat): byte
    requires WellFormed(flat)
  {
    if ops == [] then 0
    else
      var before := ops[..|ops| - 1];
      match ops[|ops| - 1]
      case Allocate =>
        if FlatStep(FlatAfter(flat, before), Allocate).1 == Address(v * flat.pageSize) then 0
            else LastByte(flat, before, v, off)
      case Write(addr, data) =>
        if PageOf(addr, flat.pageSize) == v && OffsetOf(addr, flat.pageSize) == off then data
        else LastByte(flat, before, v, off)
      case Read(_) => LastByte(flat, before, v, off)
      case Delete(_) => LastByte(flat, before, v, off)
  }

  lemma ScaleInjective(a: int, b: int, size: nat)
    requires size >= 1 && a != b
    ensures a * size != b * size
  {
    assert (a - b) * size == a * size - b * size;
  }

  /** What one operation does to one byte of an allocated page. */
  lemma FlatStepByte(flat: Flat, op: Op, v: int, off: nat)
    requires WellFormed(flat) && off < flat.pageSize && v in FlatStep(flat, op).0.pages
    ensures var after := FlatStep(flat, op).0.pages[v][off];
            if op.Allocate? && FlatStep(flat, op).1 == Address(v * flat.pageSize) then after == 0
            else v in flat.pages
                 && after == if op.Write? && PageOf(op.addr, flat.pageSize) == v
                     && OffsetOf(op.addr, flat.pageSize) == off
                             then op.data else flat.pages[v][off]
  {
    var first := FirstUnallocated(flat, 0);
    if op.Allocate? && first != v {
      ScaleInjective(first, v, flat.pageSize);
    }
  }

  lemma {:induction false} FlatHoldsLastByte(flat: Flat, ops: seq<Op>, v: int, off: nat)
    requires WellFormed(flat) && flat.pages == map[] && off < flat.pageSize && v in FlatAfter(flat, ops).pages
    ensures FlatAfter(flat, ops).pages[v][off] == LastByte(flat, ops, v, off)
  {
    if ops != [] {
      var before, op := ops[..|ops| - 1], ops[|ops| - 1];
      FlatStepByte(FlatAfter(flat, before), op, v, off);
      if !(op.Allocate? && FlatStep(FlatAfter(flat, before), op).1 == Address(v * flat.pageSize)) {
        FlatHoldsLastByte(flat, before, v, off);
      }
    }
  }

  /** No operation but the last deletes a resident page whose disk slice is not blank. */
  ghost predicate CleanRun(m: Memory, ops: seq<Op>)
    requires TableOk(m)
    decreases |ops|
  {
    |ops| <= 1 ||
    (StepKeepsTable(m, ops[0]);
     CleanDelete(m, ops[0]) && CleanRun(Step(m, ops[0]).0, ops[1..]))
  }

  /** Demand paging is invisible: over every such run each read returns what flat memory holds. */
  lemma {:induction false} RunRefines(m: Memory, ops: seq<Op>)
    requires Good(m) && CleanRun(m, ops)
    ensures Answers(m, ops) == FlatAnswers(FlatOf(m), ops)
    decreases |ops|
  {
    if ops != [] {
      StepRefines(m, ops[0]);
      if |ops| > 1 {
        RunRefines(Step(m, ops[0]).0, ops[1..]);
      } else {
        assert ops[1..] == [];
      }
    }
  }

  /** What the `i`-th operation of a run from an empty memory answers if it is a read: an error for a page that is not
      allocated, else the last byte written to that cell since its page was allocated, or 0. */
  ghost predicate ReadsLastByte(flat: Flat, ops: seq<Op>, outs: seq<Out>, i: nat)
    requires WellFormed(flat) && i < |ops| == |outs|
  {
    ops[i].Read? ==>
      var v, off := PageOf(ops[i].addr, flat.pageSize), OffsetOf(ops[i].addr, flat.pageSize);
      outs[i] == if v < 0 || v >= flat.pageCount then Failed(OutOfBounds)
                 else if v !in FlatAfter(flat, ops[..i]).pages then Failed(SegmentationFault)
                 else Value(LastByte(flat, ops[..i], v, off))
  }

  /** Through any number of evictions, clean drops and reloads, every read of such a run finds the last byte written. */
  lemma RunReadsLastByte(m: Memory, ops: seq<Op>, i: nat)
    requires Good(m) && View(m) == map[] && CleanRun(m, ops) && i < |ops|
    ensures |Answers(m, ops)| == |ops| && ReadsLastByte(FlatOf(m), ops, Answers(m, ops), i)
  {
    var flat := FlatOf(m);
    RunRefines(m, ops);
    FlatAnswerAt(flat, ops, i);
    if ops[i].Read? {
      var v, off := PageOf(ops[i].addr, flat.pageSize), OffsetOf(ops[i].addr, flat.pageSize);
      if v in FlatAfter(flat, ops[..i]).pages {
        FlatHoldsLastByte(flat, ops[..i], v, off);
      }
    }
  }

  /** A freshly built memory. */
  function Initial(pageSize: nat, pageCount: nat, frameCount: nat): Memory
  {
    Memory(pageSize, seq(pageCount, _ => Blank()), seq(frameCount, _ => Zeros(pageSize)), seq(frameCount, _ => true),
           seq(pageCount, _ => Zeros(pageSize)), 0)
  }

  lemma InitialIsGood(pageSize: nat, pageCount: nat, frameCount: nat)
    requires pageSize >= 1 && frameCount >= 1
    ensures Good(Initial(pageSize, pageCount, frameCount))
    ensures FlatOf(Initial(pageSize, pageCount, frameCount)) == Flat(pageSize, pageCount, map[])
  {
  }
}
