/** The memory manager: byte arrays, page table and clock hand updated in place,
    each operation proved to make the transition that VirtualMemory describes. */
module MemoryManager {
  import opened VirtualMemory
  import opened SecondChance

  // ----- A byte array as equally sized blocks

  lemma NextBlock(n: nat, size: nat)
    ensures (n + 1) * size == n * size + size
  {
  }

  lemma {:induction false} BlockFits(k: nat, n: nat, size: nat)
    requires k < n
    ensures k * size + size <= n * size
  {
    NextBlock(n - 1, size);
    if k < n - 1 {
      BlockFits(k, n - 1, size);
    }
  }

  lemma BlocksApart(j: nat, k: nat, size: nat)
    requires j != k
    ensures j * size + size <= k * size || k * size + size <= j * size
  {
    if j < k {
      BlockFits(j, k, size);
    } else {
      BlockFits(k, j, size);
    }
  }

  ghost function Block(s: seq<byte>, size: nat, k: nat): (b: seq<byte>)
    requires k * size + size <= |s|
    ensures |b| == size && forall i :: 0 <= i < size ==> b[i] == s[k * size + i]
  {
    s[k * size..k * size + size]
  }

  ghost function Blocks(s: seq<byte>, size: nat, n: nat): (r: seq<seq<byte>>)
    requires |s| == n * size
    ensures |r| == n
    ensures forall k :: 0 <= k < n ==> k * size + size <= |s| && r[k] == Block(s, size, k)
  {
    forall k: nat | k < n
      ensures k * size + size <= |s|
    {
      BlockFits(k, n, size);
    }
    seq(n, k requires 0 <= k < n => Block(s, size, k))
  }

  /** Byte `j` after `data` has been copied to position `at`. */
  ghost function Spliced(s: seq<byte>, at: nat, data: seq<byte>, j: nat): byte
    requires j < |s|
  {
    if at <= j < at + |data| then data[j - at] else s[j]
  }

  lemma BlockElsewhere(s: seq<byte>, s': seq<byte>, size: nat, b: nat, k: nat, data: seq<byte>)
    requires |s| == |s'| && b != k && |data| == size && b * size + size <= |s|
    requires forall j :: 0 <= j < |s| ==> s'[j] == Spliced(s, k * size, data, j)
    ensures Block(s', size, b) == Block(s, size, b)
  {
    BlocksApart(b, k, size);
  }

  lemma BlockWritten(s: seq<byte>, s': seq<byte>, size: nat, k: nat, data: seq<byte>)
    requires |s| == |s'| && |data| == size && k * size + size <= |s|
    requires forall j :: 0 <= j < |s| ==> s'[j] == Spliced(s, k * size, data, j)
    ensures Block(s', size, k) == data
  {
  }

  /** Writing block `k` and nothing else. */
  lemma BlocksAfter(s: seq<byte>, s': seq<byte>, size: nat, n: nat, k: nat, data: seq<byte>)
    requires |s| == |s'| == n * size && k < n && |data| == size
    requires forall j :: 0 <= j < |s| ==> s'[j] == Spliced(s, k * size, data, j)
    ensures Blocks(s', size, n) == Blocks(s, size, n)[k := data]
  {
    forall b: nat | b < n
      ensures Blocks(s', size, n)[b] == Blocks(s, size, n)[k := data][b]
    {
      BlockFits(b, n, size);
      if b != k {
        BlockElsewhere(s, s', size, b, k, data);
      } else {
        BlockWritten(s, s', size, k, data);
      }
    }
  }

  lemma ZeroBlocks(s: seq<byte>, size: nat, n: nat)
    requires |s| == n * size && forall j :: 0 <= j < |s| ==> s[j] == 0
    ensures Blocks(s, size, n) == seq(n, _ => Zeros(size))
  {
    forall b: nat | b < n
      ensures Blocks(s, size, n)[b] == Zeros(size)
    {
      BlockFits(b, n, size);
    }
  }

  method CopyBytes(source: array<byte>, from: nat, target: array<byte>, to: nat, count: nat)
    requires source != target && from + count <= source.Length && to + count <= target.Length
    modifies target
    ensures forall j :: 0 <= j < target.Length ==>
              target[..][j] == Spliced(old(target[..]), to, source[from..from + count], j)
  {
    for i := 0 to count
      invariant forall j :: 0 <= j < target.Length ==>
                  target[j] == if to <= j < to + i then source[from + (j - to)] else old(target[j])
    {
      target[to + i] := source[from + i];
    }
  }

  method FillZero(target: array<byte>, to: nat, count: nat)
    requires to + count <= target.Length
    modifies target
    ensures forall j :: 0 <= j < target.Length ==> target[..][j] == Spliced(old(target[..]), to, Zeros(count), j)
  {
    for i := 0 to count
      invariant forall j :: 0 <= j < target.Length ==>
                  target[j] == if to <= j < to + i then 0 else old(target[j])
    {
      target[to + i] := 0;
    }
  }

  class MemoryManager {
    const PAGE_SIZE: nat
    const PAGE_COUNT: nat
    const PHYSICAL_SIZE: nat
    ghost const FRAME_COUNT: nat
    const pageTable: array<Entry>
    const physicalMemory: array<byte>
    const freeFrames: array<bool>
    const diskStorage: array<byte>
    var clockPointer: nat

    ghost predicate Sized()
      reads this
    {
      && PAGE_SIZE >= 1 && FRAME_COUNT >= 1
      && physicalMemory != diskStorage
      && pageTable.Length == PAGE_COUNT
      && freeFrames.Length == FRAME_COUNT
      && PHYSICAL_SIZE == FRAME_COUNT * PAGE_SIZE
      && physicalMemory.Length == FRAME_COUNT * PAGE_SIZE
      && diskStorage.Length == PAGE_COUNT * PAGE_SIZE
    }

    ghost function State(): Memory
      requires Sized()
      reads this, pageTable, physicalMemory, freeFrames, diskStorage
    {
      Memory(PAGE_SIZE, pageTable[..], Blocks(physicalMemory[..], PAGE_SIZE, FRAME_COUNT), freeFrames[..],
             Blocks(diskStorage[..], PAGE_SIZE, PAGE_COUNT), clockPointer)
    }

    ghost predicate Valid()
      reads this, pageTable, physicalMemory, freeFrames, diskStorage
    {
      Sized() && TableOk(State())
    }

    constructor (pageSize: nat, numPages: nat, numFrames: nat)
      requires pageSize >= 1 && numFrames >= 1
      ensures Valid() && State() == Initial(pageSize, numPages, numFrames)
      ensures fresh(pageTable) && fresh(physicalMemory) && fresh(freeFrames) && fresh(diskStorage)
    {
      PAGE_SIZE := pageSize;
      PAGE_COUNT := numPages;
      PHYSICAL_SIZE := numFrames * pageSize;
      FRAME_COUNT := numFrames;
      pageTable := new Entry[numPages](_ => Entry(false, false, false, false, -1));
      physicalMemory := new byte[numFrames * pageSize](_ => 0);
      freeFrames := new bool[numFrames](_ => true);
      diskStorage := new byte[numPages * pageSize](_ => 0);
      clockPointer := 0;
      new;
      InitialIsGood(pageSize, numPages, numFrames);
      ZeroBlocks(physicalMemory[..], PAGE_SIZE, FRAME_COUNT);
      ZeroBlocks(diskStorage[..], PAGE_SIZE, PAGE_COUNT);
      assert State() == Initial(pageSize, numPages, numFrames);
    }

    // ----- Frames and disk slices

    method WipeMemoryFrame(f: nat)
      requires Sized() && f < FRAME_COUNT
      modifies physicalMemory
      ensures State() == old(State()).(frames := old(State()).frames[f := Zeros(PAGE_SIZE)])
    {
      BlockFits(f, FRAME_COUNT, PAGE_SIZE);
      FillZero(physicalMemory, f * PAGE_SIZE, PAGE_SIZE);
      BlocksAfter(old(physicalMemory[..]), physicalMemory[..], PAGE_SIZE, FRAME_COUNT, f, Zeros(PAGE_SIZE));
    }

    method WritePageToDisk(v: nat)
      requires Sized() && v < PAGE_COUNT && 0 <= pageTable[v].frame < FRAME_COUNT
      modifies diskStorage
      ensures State() == old(State()).(disk := old(State()).disk[v := old(State()).frames[pageTable[v].frame]])
    {
      var f := pageTable[v].frame;
      BlockFits(v, PAGE_COUNT, PAGE_SIZE);
      BlockFits(f, FRAME_COUNT, PAGE_SIZE);
      CopyBytes(physicalMemory, f * PAGE_SIZE, diskStorage, v * PAGE_SIZE, PAGE_SIZE);
      BlocksAfter(old(diskStorage[..]), diskStorage[..], PAGE_SIZE, PAGE_COUNT, v,
          Block(physicalMemory[..], PAGE_SIZE, f));
    }

    method ReadPageFromDisk(v: nat, f: nat)
      requires Sized() && v < PAGE_COUNT && f < FRAME_COUNT
      modifies physicalMemory
      ensures State() == old(State()).(frames := old(State()).frames[f := old(State()).disk[v]])
    {
      BlockFits(v, PAGE_COUNT, PAGE_SIZE);
      BlockFits(f, FRAME_COUNT, PAGE_SIZE);
      CopyBytes(diskStorage, v * PAGE_SIZE, physicalMemory, f * PAGE_SIZE, PAGE_SIZE);
      BlocksAfter(old(physicalMemory[..]), physicalMemory[..], PAGE_SIZE, FRAME_COUNT, f,
          Block(diskStorage[..], PAGE_SIZE, v));
    }

    method DeletePageFromDisk(v: nat)
      requires Sized() && v < PAGE_COUNT
      modifies diskStorage
      ensures State() == old(State()).(disk := old(State()).disk[v := Zeros(PAGE_SIZE)])
    {
      BlockFits(v, PAGE_COUNT, PAGE_SIZE);
      FillZero(diskStorage, v * PAGE_SIZE, PAGE_SIZE);
      BlocksAfter(old(diskStorage[..]), diskStorage[..], PAGE_SIZE, PAGE_COUNT, v, Zeros(PAGE_SIZE));
    }

    // ----- CLOCK

    /** The hand has taken `k` steps over `pages` from `clock` without finding a victim. */
    ghost predicate Ticking(pages: seq<Entry>, clock: nat, k: nat)
      reads this, pageTable
    {
      && |pages| == pageTable.Length == PAGE_COUNT && clock <= PAGE_COUNT && clockPointer <= PAGE_COUNT
      && k <= HandSteps(pages, clock) && k < 2 * PAGE_COUNT
      && pageTable[..] == Sweep(pages, clock, k)
      && HandAt(PAGE_COUNT, clock, k) == if clockPointer == PAGE_COUNT then 0 else clockPointer
    }

    ghost predicate Stopped(pages: seq<Entry>, clock: nat)
      reads this, pageTable
    {
      && |pages| == PAGE_COUNT && clock <= PAGE_COUNT && SomePresent(pages)
      && var v, swept := Victim(pages, clock), Sweep(pages, clock, HandSteps(pages, clock));
         clockPointer == v + 1 && pageTable[..] == swept[v := swept[v].(present := false)]
    }

    /** One look of the clock hand at the page under it. */
    method Look(ghost pages: seq<Entry>, ghost clock: nat, ghost k: nat) returns (found: bool)
      requires Ticking(pages, clock, k) && SomePresent(pages)
      modifies this`clockPointer, pageTable
      ensures found ==> Stopped(pages, clock)
      ensures !found ==> Ticking(pages, clock, k + 1)
    {
      HandLooks(pages, clock, k);
      HandStops(pages, clock);
      if k + 1 < 2 * |pages| {
        HandMoves(|pages|, clock, k);
      }
      if clockPointer == PAGE_COUNT {
        clockPointer := 0;
      }
      var e := pageTable[clockPointer];
      found := e.present && !e.referenced;
      if found {
        pageTable[clockPointer] := e.(present := false);
      } else if e.present {
        pageTable[clockPointer] := e.(referenced := false);
      }
      clockPointer := clockPointer + 1;
    }

    /** Moves the clock hand to its victim, clearing the reference bits it passes. */
    method AdvanceClock() returns (v: nat)
      requires Sized() && clockPointer <= PAGE_COUNT && SomePresent(pageTable[..])
      modifies this`clockPointer, pageTable
      ensures Stopped(old(pageTable[..]), old(clockPointer)) && v == Victim(old(pageTable[..]), old(clockPointer))
    {
      ghost var pages, clock := pageTable[..], clockPointer;
      ghost var k := 0;
      var ticking := true;
      assert pageTable[..] == Sweep(pages, clock, 0);
      while ticking
        invariant if ticking then Ticking(pages, clock, k) else Stopped(pages, clock)
        decreases ticking, 2 * PAGE_COUNT - k
      {
        var found := Look(pages, clock, k);
        ticking := !found;
        k := k + 1;
      }
      v := clockPointer - 1;
    }

    /** Writes the page back if it is dirty, then unmaps it and blanks its frame. */
    method Reclaim(v: nat) returns (f: nat)
      requires Sized() && v < PAGE_COUNT && 0 <= pageTable[v].frame < FRAME_COUNT
      modifies pageTable, physicalMemory, freeFrames, diskStorage
      ensures f == old(pageTable[v]).frame
      ensures State() == Reclaimed(old(State()), v)
    {
      f := pageTable[v].frame;
      if pageTable[v].modified {
        WritePageToDisk(v);
      }
      freeFrames[f] := true;
      pageTable[v] := pageTable[v].(frame := -1);
      WipeMemoryFrame(f);
    }

    method ReplacePage() returns (f: nat)
      requires Valid() && SomePresent(pageTable[..])
      modifies this`clockPointer, pageTable, physicalMemory, freeFrames, diskStorage
      ensures State() == Evict(old(State()))
      ensures TakenInTurn(old(State()), State(), f)
      ensures f == old(State()).pages[Victim(old(pageTable[..]), old(clockPointer))].frame
      ensures f < FRAME_COUNT
    {
      EvictInSteps(State());
      EvictInTurn(State());
      var v := StopHand();
      f := Reclaim(v);
    }

    /** The hand stops at the victim, which is then absent. */
    method StopHand() returns (v: nat)
      requires Valid() && SomePresent(pageTable[..])
      modifies this`clockPointer, pageTable
      ensures State() == HandStopped(old(State())) && v == Victim(old(pageTable[..]), old(clockPointer))
    {
      v := AdvanceClock();
    }

    /** A free frame, obtained by eviction if there is none. */
    method FindFrame() returns (f: nat)
      requires Valid()
      modifies this`clockPointer, pageTable, physicalMemory, freeFrames, diskStorage
      ensures State() == MakeRoom(old(State())) && f == RoomFrame(old(State())) && f < FRAME_COUNT
    {
      RoomTable(State());
      var freeFrame := -1;
      var i := 0;
      while i < freeFrames.Length
        invariant 0 <= i <= freeFrames.Length && freeFrame == -1
        invariant FirstFree(freeFrames[..], 0) == FirstFree(freeFrames[..], i)
      {
        if freeFrames[i] {
          freeFrame := i;
          break;
        }
        i := i + 1;
      }
      if freeFrame == -1 {
        FullHasPresent(State());
        f := ReplacePage();
      } else {
        f := freeFrame;
      }
    }

    /** Fills frame `f` with page `v` and maps it. */
    method MapPage(v: nat, f: nat)
      requires Sized() && v < PAGE_COUNT && f < FRAME_COUNT
      modifies pageTable, physicalMemory, freeFrames
      ensures State() == LoadPage(old(State()), v, f)
    {
      pageTable[v] := pageTable[v].(frame := f);
      ReadPageFromDisk(v, f);
      freeFrames[f] := false;
      pageTable[v] := pageTable[v].(present := true);
    }

    method HandlePageFault(v: nat)
      requires Valid() && v < PAGE_COUNT && pageTable[v].valid && !pageTable[v].present
      modifies this`clockPointer, pageTable, physicalMemory, freeFrames, diskStorage
      ensures Valid() && State() == Fault(old(State()), v)
    {
      FaultTable(State(), v);
      var f := FindFrame();
      MapPage(v, f);
    }

    // ----- Translation

    /** Marks page `v` as used. */
    method MarkUsed(v: nat, write: bool)
      requires Sized() && v < PAGE_COUNT
      modifies pageTable
      ensures State() == Touch(old(State()), v, write)
    {
      pageTable[v] := pageTable[v].(referenced := true);
      if write {
        pageTable[v] := pageTable[v].(modified := true);
      }
    }

    /** Brings page `v` in if it is swapped out, and marks it as used. */
    method MakeResident(v: nat, write: bool)
      requires Valid() && v < PAGE_COUNT && pageTable[v].valid
      modifies this`clockPointer, pageTable, physicalMemory, freeFrames, diskStorage
      ensures Valid() && State() == Access(old(State()), v, write)
      ensures pageTable[v].present
    {
      AccessTable(State(), v, write);
      if !pageTable[v].present {
        HandlePageFault(v);
      }
      MarkUsed(v, write);
    }

    method PhysicalAddress(v: nat, offset: nat) returns (physical: nat)
      requires Sized() && v < PAGE_COUNT && 0 <= pageTable[v].frame < FRAME_COUNT && offset < PAGE_SIZE
      ensures physical == pageTable[v].frame * PAGE_SIZE + offset && physical < PHYSICAL_SIZE
    {
      var f := pageTable[v].frame;
      BlockFits(f, FRAME_COUNT, PAGE_SIZE);
      physical := f * PAGE_SIZE + offset;
    }

    /** Translates an address to a physical one, bringing its page in if
        necessary; a physical address so obtained is always in range. */
    method VirtualToPhysical(addr: int, write: bool) returns (error: Out, physical: nat)
      requires Valid()
      modifies this`clockPointer, pageTable, physicalMemory, freeFrames, diskStorage
      ensures Valid() && error == AddressError(old(State()), addr)
      ensures error.Failed? ==> State() == old(State())
      ensures error.Done? ==> Marked(old(State()).pages, State().pages, PageOf(addr, PAGE_SIZE), write)
      ensures error.Done? ==>
                var v := PageOf(addr, PAGE_SIZE);
                && State() == Access(old(State()), v, write)
                && State().pages[v].present
                && physical == State().pages[v].frame * PAGE_SIZE + OffsetOf(addr, PAGE_SIZE)
                && physical < PHYSICAL_SIZE
    {
      var offset := OffsetOf(addr, PAGE_SIZE);
      var v := PageOf(addr, PAGE_SIZE);
      if v >= PAGE_COUNT || v < 0 {
        return Failed(OutOfBounds), 0;
      }
      if !pageTable[v].valid {
        return Failed(SegmentationFault), 0;
      }
      UseMarksOnly(State(), if write then Write(addr, 0) else Read(addr), v);
      MakeResident(v, write);
      physical := PhysicalAddress(v, offset);
      error := Done;
    }

    // ----- Public operations

    method WriteVirtualMemory(addr: int, data: byte) returns (result: Out)
      requires Valid()
      modifies this`clockPointer, pageTable, physicalMemory, freeFrames, diskStorage
      ensures Valid() && (State(), result) == Step(old(State()), Write(addr, data))
      ensures result.Done? ==> Marked(old(State()).pages, State().pages, PageOf(addr, PAGE_SIZE), true)
    {
      StepKeepsTable(State(), Write(addr, data));
      var physical;
      result, physical := VirtualToPhysical(addr, true);
      if result.Done? {
        StoreByte(PageOf(addr, PAGE_SIZE), OffsetOf(addr, PAGE_SIZE), physical, data);
      }
    }

    /** Stores a byte of resident page `v`. */
    method StoreByte(ghost v: nat, ghost offset: nat, physical: nat, data: byte)
      requires Valid() && v < PAGE_COUNT && pageTable[v].present && offset < PAGE_SIZE
      requires physical == pageTable[v].frame * PAGE_SIZE + offset && physical < PHYSICAL_SIZE
      modifies physicalMemory
      ensures State() == SetByte(old(State()), old(pageTable[v]).frame, offset, data)
    {
      ghost var f, before := pageTable[v].frame, physicalMemory[..];
      BlockFits(f, FRAME_COUNT, PAGE_SIZE);
      physicalMemory[physical] := data;
      BlocksAfter(before, physicalMemory[..], PAGE_SIZE, FRAME_COUNT, f,
          Poke(Block(before, PAGE_SIZE, f), offset, data));
    }

    method ReadVirtualMemory(addr: int) returns (result: Out)
      requires Valid()
      modifies this`clockPointer, pageTable, physicalMemory, freeFrames, diskStorage
      ensures Valid() && (State(), result) == Step(old(State()), Read(addr))
      ensures result.Value? ==> Marked(old(State()).pages, State().pages, PageOf(addr, PAGE_SIZE), false)
    {
      StepKeepsTable(State(), Read(addr));
      var physical;
      result, physical := VirtualToPhysical(addr, false);
      if result.Done? {
        var data := LoadByte(PageOf(addr, PAGE_SIZE), OffsetOf(addr, PAGE_SIZE), physical);
        result := Value(data);
      }
    }

    /** Loads a byte of resident page `v`. */
    method LoadByte(ghost v: nat, ghost offset: nat, physical: nat) returns (data: byte)
      requires Valid() && v < PAGE_COUNT && pageTable[v].present && offset < PAGE_SIZE
      requires physical == pageTable[v].frame * PAGE_SIZE + offset && physical < PHYSICAL_SIZE
      ensures data == State().frames[pageTable[v].frame][offset]
    {
      ghost var f := pageTable[v].frame;
      BlockFits(f, FRAME_COUNT, PAGE_SIZE);
      assert Block(physicalMemory[..], PAGE_SIZE, f)[offset] == physicalMemory[physical];
      data := physicalMemory[physical];
    }

    method AllocateAnyPage() returns (result: Out)
      requires Valid()
      modifies this`clockPointer, pageTable, physicalMemory, freeFrames, diskStorage
      ensures Valid() && (State(), result) == Step(old(State()), Allocate)
    {
      StepKeepsTable(State(), Allocate);
      RoomTable(State());
      var v := -1;
      var i := 0;
      while i < PAGE_COUNT
        invariant 0 <= i <= PAGE_COUNT && v == -1
        invariant FirstInvalid(pageTable[..], 0) == FirstInvalid(pageTable[..], i)
      {
        if !pageTable[i].valid {
          v := i;
          break;
        }
        i := i + 1;
      }
      if v == -1 {
        return Failed(NoFreePage);
      }
      var f := FindFrame();
      pageTable[v] := pageTable[v].(valid := true, frame := f, present := true);
      freeFrames[f] := false;
      result := Address(v * PAGE_SIZE);
    }

    method DropResident(v: nat)
      requires Valid() && v < PAGE_COUNT && pageTable[v].present
      modifies pageTable, physicalMemory, freeFrames
      ensures State() == Drop(old(State()), v)
    {
      var f := pageTable[v].frame;
      pageTable[v] := pageTable[v].(valid := false);
      WipeMemoryFrame(f);
      pageTable[v] := pageTable[v].(present := false);
      freeFrames[f] := true;
      pageTable[v] := pageTable[v].(frame := -1);
      pageTable[v] := pageTable[v].(modified := false, referenced := false);
    }

    method DropSwappedOut(v: nat)
      requires Valid() && v < PAGE_COUNT && !pageTable[v].present
      modifies pageTable, diskStorage
      ensures State() == Drop(old(State()), v)
    {
      pageTable[v] := pageTable[v].(valid := false);
      DeletePageFromDisk(v);
      pageTable[v] := pageTable[v].(modified := false, referenced := false);
    }

    method DeletePageTableEntry(addr: int) returns (result: Out)
      requires Valid()
      modifies pageTable, physicalMemory, freeFrames, diskStorage
      ensures Valid() && (State(), result) == Step(old(State()), Delete(addr))
    {
      StepKeepsTable(State(), Delete(addr));
      var v := PageOf(addr, PAGE_SIZE);
      if v >= PAGE_COUNT || v < 0 {
        return Failed(OutOfBounds);
      }
      if !pageTable[v].valid {
        return Failed(NotAllocated);
      }
      if pageTable[v].present {
        DropResident(v);
      } else {
        DropSwappedOut(v);
      }
      result := Done;
    }

    method PerformOne(op: Op) returns (out: Out)
      requires Valid()
      modifies this`clockPointer, pageTable, physicalMemory, freeFrames, diskStorage
      ensures Valid() && (State(), out) == Step(old(State()), op)
    {
      match op {
        case Allocate => out := AllocateAnyPage();
        case Write(addr, data) => out := WriteVirtualMemory(addr, data);
        case Read(addr) => out := ReadVirtualMemory(addr);
        case Delete(addr) => out := DeletePageTableEntry(addr);
      }
    }

    /** Performs operations one after another. */
    method PerformAll(ops: seq<Op>) returns (outs: seq<Out>)
      requires Valid()
      modifies this`clockPointer, pageTable, physicalMemory, freeFrames, diskStorage
      ensures Valid() && State() == After(old(State()), ops) && outs == Answers(old(State()), ops)
    {
      ghost var start := State();
      outs := [];
      for i := 0 to |ops|
        invariant Valid() && Performed(start, ops, i, State(), outs)
      {
        ghost var m := State();
        var out := PerformOne(ops[i]);
        PerformedNext(start, ops, i, m, outs, out);
        outs := outs + [out];
      }
    }

    /** Performs operations one after another: unless a resident page with a non-blank disk slice is deleted on the
        way, every answer is flat memory's, and each read from a memory that starts empty finds the last byte written
        there since its page was allocated. */
    method Perform(ops: seq<Op>) returns (outs: seq<Out>)
      requires Valid()
      modifies this`clockPointer, pageTable, physicalMemory, freeFrames, diskStorage
      ensures Valid() && State() == After(old(State()), ops) && outs == Answers(old(State()), ops) && |outs| == |ops|
      ensures old(Good(State()) && CleanRun(State(), ops)) ==> outs == FlatAnswers(FlatOf(old(State())), ops)
      ensures old(Good(State()) && CleanRun(State(), ops) && VirtualMemory.View(State()) == map[]) ==>
        forall i :: 0 <= i < |ops| ==> ReadsLastByte(FlatOf(old(State())), ops, outs, i)
    {
      PerformedRefines(State(), ops);
      outs := PerformAll(ops);
    }
  }

  /** The first `i` operations of a run from `start` have led to `m` and answered `outs`. */
  ghost predicate Performed(start: Memory, ops: seq<Op>, i: nat, m: Memory, outs: seq<Out>)
    requires i <= |ops|
  {
    && TableOk(start) && TableOk(m)
    && After(m, ops[i..]) == After(start, ops) && outs + Answers(m, ops[i..]) == Answers(start, ops)
  }

  lemma PerformedNext(start: Memory, ops: seq<Op>, i: nat, m: Memory, outs: seq<Out>, out: Out)
    requires i < |ops| && Performed(start, ops, i, m, outs) && out == Step(m, ops[i]).1
    ensures Performed(start, ops, i + 1, Step(m, ops[i]).0, outs + [out])
  {
    AnswersNext(m, ops, i);
  }

  lemma PerformedRefines(m: Memory, ops: seq<Op>)
    requires TableOk(m)
    ensures Good(m) && CleanRun(m, ops) ==> Answers(m, ops) == FlatAnswers(FlatOf(m), ops)
    ensures |Answers(m, ops)| == |ops|
    ensures Good(m) && CleanRun(m, ops) && VirtualMemory.View(m) == map[] ==>
              forall i :: 0 <= i < |ops| ==> ReadsLastByte(FlatOf(m), ops, Answers(m, ops), i)
  {
    if ops != [] {
      AnswerAt(m, ops, 0);
    }
    if Good(m) && CleanRun(m, ops) {
      RunRefines(m, ops);
      if VirtualMemory.View(m) == map[] {
        forall i | 0 <= i < |ops|
          ensures ReadsLastByte(FlatOf(m), ops, Answers(m, ops), i)
        {
          RunReadsLastByte(m, ops, i);
        }
      }
    }
  }
}
