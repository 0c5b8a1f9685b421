/** The kernel's one bump allocator and its four clients. The counter and all roundings are 32-bit. */
module Allocator {
  import opened Words

  const FIRST_ADDRESS: u32 := 0xA000_0000
  const GAP := 0x1000
  const GRANULARITY := 0x1_0000
  const LARGEST_PHYSICAL := 0x2000_0000
  const STACK_BYTES := 0x4_0000
  const TLS_BYTES := 0x1_0000
  const SYSTEM_BUFFER_BYTES := 65536

  datatype Block = Block(start: u32, size: nat)

  datatype Request = Virtual(size: u32) | Physical(size: u32, alignment: u32) | NewThread | SystemBuffer

  /** The counter, the system command buffer once it exists, and every block handed out, in order. */
  datatype Arena = Arena(next: u32, systemBuffer: u32, blocks: seq<Block>)

  const EMPTY_ARENA := Arena(FIRST_ADDRESS, 0, [])

  /** `(size + 0xFFFF) & ~0xFFFF`. */
  function RoundUp(size: u32): u32 {
    Add32(size, GRANULARITY - 1) / GRANULARITY * GRANULARITY
  }

  function PhysicalSize(size: u32): u32 {
    var rounded := RoundUp(size);
    if rounded < GRANULARITY || rounded > LARGEST_PHYSICAL then GRANULARITY else rounded
  }

  /** `a > 1 && (a & (a - 1)) == 0`. */
  predicate IsAlignment(a: nat) {
    a > 1 && a % 2 == 0 && (a == 2 || IsAlignment(a / 2))
  }

  lemma Remainder(x: nat, a: nat)
    requires a > 0
    ensures 0 <= x % a < a && x % a <= x && x == x / a * a + x % a
  {
    if x < a {
      Split(x, a, 0, x);
    }
  }

  /** `x & ~(alignment - 1)` for a power of two. */
  function ClearLow(x: u32, alignment: nat): (r: u32)
    requires alignment > 0
    ensures r % alignment == 0 && r <= x < r + alignment
  {
    Remainder(x, alignment);
    Split(x / alignment * alignment, alignment, x / alignment, 0);
    x - x % alignment
  }

  /** A power of two alignment moves the address up; other alignments are ignored. */
  function Aligned(address: u32, alignment: u32): u32 {
    if IsAlignment(alignment) then ClearLow(Add32(address, alignment - 1), alignment) else address
  }

  function Take(a: Arena, start: u32, size: nat): Arena {
    a.(next := Add32(start, size + GAP), blocks := a.blocks + [Block(start, size)])
  }

  function Allocate(a: Arena, r: Request): Arena {
    match r
    case Virtual(size) => Take(a, a.next, RoundUp(size))
    case Physical(size, alignment) => Take(a, Aligned(a.next, alignment), PhysicalSize(size))
    case NewThread =>
      var stack := Take(a, a.next, STACK_BYTES);
      Take(stack, stack.next, TLS_BYTES)
    case SystemBuffer =>
      if a.systemBuffer != 0 then a else Take(a, a.next, SYSTEM_BUFFER_BYTES).(systemBuffer := a.next)
  }

  /** No sum on the way to the block's address wraps, and the block and its gap end below 2^32. */
  predicate Room(a: Arena, r: Request) {
    match r
    case Virtual(size) => a.next + RoundUp(size) + GAP < TWO32
    case Physical(size, alignment) =>
      && (IsAlignment(alignment) ==> a.next + alignment - 1 < TWO32)
      && Aligned(a.next, alignment) + PhysicalSize(size) + GAP < TWO32
    case NewThread => a.next + STACK_BYTES + TLS_BYTES + 2 * GAP < TWO32
    case SystemBuffer => a.systemBuffer != 0 || a.next + SYSTEM_BUFFER_BYTES + GAP < TWO32
  }

  function AfterRequests(rs: seq<Request>): Arena {
    if rs == [] then EMPTY_ARENA else Allocate(AfterRequests(rs[..|rs| - 1]), rs[|rs| - 1])
  }

  predicate RoomForAll(rs: seq<Request>) {
    rs == [] || (RoomForAll(rs[..|rs| - 1]) && Room(AfterRequests(rs[..|rs| - 1]), rs[|rs| - 1]))
  }

  // ---------------------------------------------------------------- rounding and alignment

  /** The least multiple of 64 KiB that holds the request, unless the rounding sum wraps; then it holds too little. */
  lemma RoundUpIsLeast(size: u32)
    ensures size <= RoundUp(size) <==> size + GRANULARITY - 1 < TWO32
    ensures RoundUp(size) % GRANULARITY == 0
    ensures size <= RoundUp(size) ==> forall k: nat :: size <= k * GRANULARITY ==> RoundUp(size) <= k * GRANULARITY
  {
    Split(RoundUp(size), GRANULARITY, Add32(size, GRANULARITY - 1) / GRANULARITY, 0);
  }

  /** A power of two alignment gives the least aligned address at or above the counter. */
  lemma AlignedIsLeast(address: u32, alignment: u32)
    requires IsAlignment(alignment) && address + alignment - 1 < TWO32
    ensures var start := Aligned(address, alignment); start % alignment == 0 && address <= start < address + alignment
  {
    hide ClearLow;
    assert Add32(address, alignment - 1) == address + alignment - 1;
  }

  lemma {:induction false} AlignmentIsPowerOfTwo(a: nat) returns (n: nat)
    requires IsAlignment(a)
    ensures n >= 1 && a == Pow2(n)
    decreases a
  {
    if a == 2 {
      n := 1;
      assert Pow2(1) == 2 * Pow2(0);
    } else {
      n := AlignmentIsPowerOfTwo(a / 2);
      n := n + 1;
    }
  }

  lemma {:induction false} PowerOfTwoIsAlignment(n: nat)
    requires n >= 1
    ensures IsAlignment(Pow2(n))
    decreases n
  {
    if n > 1 {
      PowerOfTwoIsAlignment(n - 1);
    } else {
      assert Pow2(1) == 2 * Pow2(0);
    }
  }

  // ---------------------------------------------------------------- disjointness

  /** Blocks increase in address with at least the gap between neighbours, all below the counter. */
  ghost predicate Spaced(a: Arena) {
    && a.next >= FIRST_ADDRESS
    && (forall i :: 0 <= i < |a.blocks| ==> FIRST_ADDRESS <= a.blocks[i].start && EndOf(a.blocks[i]) + GAP <= a.next)
    && (forall i, j :: 0 <= i < j < |a.blocks| ==> EndOf(a.blocks[i]) + GAP <= a.blocks[j].start)
  }

  function EndOf(b: Block): nat {
    b.start + b.size
  }

  /** What the clients are promised of the blocks themselves: in place, increasing, and the gap between any two. */
  ghost predicate InPlace(blocks: seq<Block>) {
    && (forall i :: 0 <= i < |blocks| ==> FIRST_ADDRESS <= blocks[i].start && EndOf(blocks[i]) + GAP < TWO32)
    && (forall i, j :: 0 <= i < j < |blocks| ==> EndOf(blocks[i]) + GAP <= blocks[j].start)
  }

  /** Some block lies below the arena, or ends, gap included, past it; no later request repairs that. */
  ghost predicate Broken(a: Arena) {
    exists i :: 0 <= i < |a.blocks| && OutOfPlace(a.blocks[i])
  }

  predicate OutOfPlace(b: Block) {
    b.start < FIRST_ADDRESS || EndOf(b) + GAP >= TWO32
  }

  lemma TakeEither(a: Arena, start: u32, size: nat)
    requires Spaced(a) && (a.next <= start || start < FIRST_ADDRESS)
    ensures a.next <= start && start + size + GAP < TWO32 ==> Spaced(Take(a, start, size))
    ensures start < FIRST_ADDRESS || start + size + GAP >= TWO32 ==> Broken(Take(a, start, size))
  {
    assert Take(a, start, size).blocks[|a.blocks|] == Block(start, size);
  }

  /** Aligning goes up, or wraps and lands below every block. */
  lemma AlignedOrBelow(address: u32, alignment: u32)
    requires address >= FIRST_ADDRESS
    ensures IsAlignment(alignment) && address + alignment - 1 >= TWO32 ==> Aligned(address, alignment) < FIRST_ADDRESS
    ensures !IsAlignment(alignment) || address + alignment - 1 < TWO32 ==> address <= Aligned(address, alignment)
  {
    hide ClearLow;
    if IsAlignment(alignment) {
      AlignmentAtMost(alignment);
    }
  }

  /** The greatest power of two in 32 bits. */
  lemma AlignmentAtMost(alignment: u32)
    requires IsAlignment(alignment)
    ensures alignment <= 0x8000_0000
  {
    var n := AlignmentIsPowerOfTwo(alignment);
    assert Pow2(8) == 0x100 && Pow2(16) == 0x1_0000 && Pow2(24) == 0x100_0000 && Pow2(32) == 0x1_0000_0000;
    if n >= 32 {
      Pow2Grows(32, n);
    } else {
      assert Pow2(31) == 0x8000_0000;
      Pow2Grows(n, 31);
    }
  }

  lemma BrokenStays(a: Arena, start: u32, size: nat)
    requires Broken(a)
    ensures Broken(Take(a, start, size))
  {
    var i :| 0 <= i < |a.blocks| && OutOfPlace(a.blocks[i]);
    assert OutOfPlace(Take(a, start, size).blocks[i]);
  }

  /** One request keeps the arena in order exactly when there is room for it; otherwise it breaks it for good. */
  lemma RoomDecides(a: Arena, r: Request)
    requires Spaced(a)
    ensures if Room(a, r) then Spaced(Allocate(a, r)) else Broken(Allocate(a, r))
    ensures Spaced(Allocate(a, r)) <==> Room(a, r)
  {
    hide RoundUp;
    hide PhysicalSize;
    hide Aligned;
    match r
    case Virtual(size) => TakeEither(a, a.next, RoundUp(size));
    case Physical(size, alignment) =>
      AlignedOrBelow(a.next, alignment);
      TakeEither(a, Aligned(a.next, alignment), PhysicalSize(size));
    case NewThread =>
      TakeEither(a, a.next, STACK_BYTES);
      var stack := Take(a, a.next, STACK_BYTES);
      if Spaced(stack) {
        TakeEither(stack, stack.next, TLS_BYTES);
      } else {
        BrokenStays(stack, stack.next, TLS_BYTES);
      }
    case SystemBuffer => TakeEither(a, a.next, SYSTEM_BUFFER_BYTES);
    BrokenIsNotSpaced(Allocate(a, r));
  }

  lemma BrokenIsNotSpaced(a: Arena)
    ensures Broken(a) ==> !Spaced(a) && !InPlace(a.blocks)
    ensures Spaced(a) ==> InPlace(a.blocks)
  {
  }

  lemma AllocateStaysBroken(a: Arena, r: Request)
    requires Broken(a)
    ensures Broken(Allocate(a, r))
  {
    hide Broken;
    match r
    case Virtual(size) => BrokenStays(a, a.next, RoundUp(size));
    case Physical(size, alignment) => BrokenStays(a, Aligned(a.next, alignment), PhysicalSize(size));
    case NewThread =>
      BrokenStays(a, a.next, STACK_BYTES);
      var stack := Take(a, a.next, STACK_BYTES);
      BrokenStays(stack, stack.next, TLS_BYTES);
    case SystemBuffer => SystemStaysBroken(a);
  }

  lemma SystemStaysBroken(a: Arena)
    requires Broken(a)
    ensures Broken(Allocate(a, SystemBuffer))
  {
    BrokenStays(a, a.next, SYSTEM_BUFFER_BYTES);
    assert Broken(Take(a, a.next, SYSTEM_BUFFER_BYTES).(systemBuffer := a.next)) by {
      var taken := Take(a, a.next, SYSTEM_BUFFER_BYTES);
      var i :| 0 <= i < |taken.blocks| && OutOfPlace(taken.blocks[i]);
      assert OutOfPlace(taken.(systemBuffer := a.next).blocks[i]);
    }
  }

  lemma {:induction false} RunDecides(rs: seq<Request>)
    ensures if RoomForAll(rs) then Spaced(AfterRequests(rs)) else Broken(AfterRequests(rs))
    decreases |rs|
  {
    hide Room;
    hide Allocate;
    hide Spaced;
    hide Broken;
    if rs == [] {
      EmptyIsSpaced();
    } else {
      RunDecides(rs[..|rs| - 1]);
      var before := AfterRequests(rs[..|rs| - 1]);
      if RoomForAll(rs[..|rs| - 1]) {
        RoomDecides(before, rs[|rs| - 1]);
      } else {
        AllocateStaysBroken(before, rs[|rs| - 1]);
      }
    }
  }

  lemma EmptyIsSpaced()
    ensures Spaced(EMPTY_ARENA)
  {
  }

  /**
   * Whatever the mix of clients: the blocks handed out lie in the arena, increase in address and keep at least 4 KiB
   * between any two if and only if there was room for every single request.
   */
  lemma BlocksStayApartExactly(rs: seq<Request>)
    ensures InPlace(AfterRequests(rs).blocks) <==> RoomForAll(rs)
  {
    hide Spaced;
    hide Broken;
    hide InPlace;
    RunDecides(rs);
    BrokenIsNotSpaced(AfterRequests(rs));
  }

  /** Past 2^32 the counter wraps and a block can cover an earlier one: three requests are enough. */
  lemma WrappedBlocksOverlap()
    ensures var a1 := Allocate(EMPTY_ARENA, Virtual(0x5000_0000));
      var a2 := Allocate(a1, Virtual(0x5000_0000));
      var a3 := Allocate(a2, Virtual(0x7000_0000));
      && Room(EMPTY_ARENA, Virtual(0x5000_0000)) && !Room(a1, Virtual(0x5000_0000))
      && a3.blocks[2].start < a3.blocks[0].start < EndOf(a3.blocks[2])
  {
    assert RoundUp(0x5000_0000) == 0x5000_0000 && RoundUp(0x7000_0000) == 0x7000_0000;
  }

  // ---------------------------------------------------------------- a block holds what was asked for

  ghost predicate PowerOfTwo(alignment: nat) {
    exists n :: n >= 1 && alignment == Pow2(n)
  }

  lemma AlignmentsArePowers(alignment: nat)
    ensures IsAlignment(alignment) <==> PowerOfTwo(alignment)
  {
    if IsAlignment(alignment) {
      var n := AlignmentIsPowerOfTwo(alignment);
    }
    if n :| n >= 1 && alignment == Pow2(n) {
      PowerOfTwoIsAlignment(n);
    }
  }

  /** `n` is the least multiple of 64 KiB that holds `size` bytes. */
  predicate LeastHolding(n: nat, size: nat) {
    n % 0x1_0000 == 0 && size <= n < size + 0x1_0000
  }

  /** One block at the counter, the least that holds the request; a request whose rounding wraps gets no bytes. */
  lemma VirtualHolds(a: Arena, size: u32)
    ensures var a1 := Allocate(a, Virtual(size));
      && |a1.blocks| == |a.blocks| + 1 && a1.blocks[..|a.blocks|] == a.blocks
      && var b := a1.blocks[|a.blocks|];
         && b.start == a.next && a1.next == (b.start + b.size + 0x1000) % 0x1_0000_0000
         && (if size <= 0xFFFF_0000 then LeastHolding(b.size, size) else b.size == 0)
  {
    RoundUpIsLeast(size);
  }

  /**
   * One block, aligned if the request names a power of two, and the least that holds the request when that is not
   * zero and at most 512 MiB; zero and larger requests get 64 KiB.
   */
  lemma PhysicalHolds(a: Arena, size: u32, alignment: u32)
    ensures var a1 := Allocate(a, Physical(size, alignment));
      && |a1.blocks| == |a.blocks| + 1 && a1.blocks[..|a.blocks|] == a.blocks
      && var b := a1.blocks[|a.blocks|];
         && a1.next == (b.start + b.size + 0x1000) % 0x1_0000_0000
         && (if 0 < size <= 0x2000_0000 then LeastHolding(b.size, size) else b.size == 0x1_0000)
         && (PowerOfTwo(alignment) ==> b.start % alignment == 0)
         && (PowerOfTwo(alignment) && a.next + alignment - 1 < TWO32 ==> a.next <= b.start < a.next + alignment)
         && (!PowerOfTwo(alignment) ==> b.start == a.next)
  {
    RoundUpIsLeast(size);
    AlignmentsArePowers(alignment);
    if IsAlignment(alignment) && a.next + alignment - 1 < TWO32 {
      AlignedIsLeast(a.next, alignment);
    }
  }

  /** A thread gets 256 KiB of stack and 64 KiB of its own, in that order. */
  lemma ThreadHolds(a: Arena)
    ensures Allocate(a, NewThread).blocks ==
      a.blocks + [Block(a.next, 0x4_0000), Block(Add32(a.next, 0x4_1000), 0x1_0000)]
    ensures Allocate(a, NewThread).next == (a.next + 0x5_2000) % 0x1_0000_0000
  {
    assert a.blocks + [Block(a.next, 0x4_0000)] + [Block(Add32(a.next, 0x4_1000), 0x1_0000)]
        == a.blocks + [Block(a.next, 0x4_0000), Block(Add32(a.next, 0x4_1000), 0x1_0000)];
  }

  /** The system command buffer is 64 KiB, and there is one for the whole run. */
  lemma SystemBufferHolds(a: Arena)
    ensures var a1 := Allocate(a, SystemBuffer);
      if a.systemBuffer != 0 then a1 == a
      else
        && a1.blocks == a.blocks + [Block(a.next, 65536)] && a1.systemBuffer == a.next
        && a1.next == (a.next + 0x1_1000) % 0x1_0000_0000
  {
  }

  /** Bytes request `r` asks for in its block number `k`. */
  function Asked(r: Request, k: nat): nat {
    match r
    case Virtual(size) => size
    case Physical(size, _) => size
    case NewThread => if k == 0 then 0x4_0000 else 0x1_0000
    case SystemBuffer => 65536
  }

  /** The sizes each client honours; beyond them a block is smaller than what was asked for. */
  predicate Honoured(r: Request) {
    match r
    case Virtual(size) => size <= 0xFFFF_0000
    case Physical(size, _) => size <= 0x2000_0000
    case _ => true
  }

  /** The blocks request number `i` of a run was given. */
  function Given(rs: seq<Request>, i: nat): seq<Block>
    requires i < |rs|
  {
    BlocksOnlyGrow(AfterRequests(rs[..i]), rs[i]);
    assert rs[..i + 1][..i] == rs[..i];
    AfterRequests(rs[..i + 1]).blocks[|AfterRequests(rs[..i]).blocks|..]
  }

  lemma BlocksOnlyGrow(a: Arena, r: Request)
    ensures a.blocks <= Allocate(a, r).blocks
  {
  }

  lemma GivenIs(rs: seq<Request>, i: nat)
    requires i < |rs|
    ensures var a := AfterRequests(rs[..i]);
      a.blocks <= Allocate(a, rs[i]).blocks && Given(rs, i) == Allocate(a, rs[i]).blocks[|a.blocks|..]
  {
    hide Allocate;
    assert rs[..i + 1][..i] == rs[..i];
    BlocksOnlyGrow(AfterRequests(rs[..i]), rs[i]);
  }

  /** Every request for memory or a thread gets its blocks; the system buffer is given out once. */
  lemma GivenCount(rs: seq<Request>, i: nat)
    requires i < |rs|
    ensures |Given(rs, i)| == match rs[i]
                              case Virtual(_) => 1
                              case Physical(_, _) => 1
                              case NewThread => 2
                              case SystemBuffer => if AfterRequests(rs[..i]).systemBuffer == 0 then 1 else 0
  {
    GivenIs(rs, i);
    hide Given;
    hide AfterRequests;
  }

  lemma AllocateHolds(a: Arena, r: Request, k: nat)
    requires |a.blocks| + k < |Allocate(a, r).blocks|
    ensures Asked(r, k) <= Allocate(a, r).blocks[|a.blocks| + k].size <==> Honoured(r)
  {
    hide RoundUp;
    hide PhysicalSize;
    hide Aligned;
    match r
    case Virtual(size) => VirtualHolds(a, size);
    case Physical(size, alignment) => PhysicalHolds(a, size, alignment);
    case NewThread => ThreadHolds(a);
    case SystemBuffer => SystemBufferHolds(a);
  }

  /** A request is given at least what it asks for exactly when its size is one its client honours. */
  lemma GivenHolds(rs: seq<Request>, i: nat, k: nat)
    requires i < |rs| && k < |Given(rs, i)|
    ensures Asked(rs[i], k) <= Given(rs, i)[k].size <==> Honoured(rs[i])
  {
    GivenIs(rs, i);
    hide Given;
    hide AfterRequests;
    hide Allocate;
    AllocateHolds(AfterRequests(rs[..i]), rs[i], k);
  }

  lemma {:induction false} RunBlocksGrow(rs: seq<Request>, n: nat)
    requires n <= |rs|
    ensures AfterRequests(rs[..n]).blocks <= AfterRequests(rs).blocks
    decreases |rs|
  {
    hide Allocate;
    if n == |rs| {
      assert rs[..n] == rs;
    } else {
      var front := rs[..|rs| - 1];
      assert front[..n] == rs[..n];
      RunBlocksGrow(front, n);
      BlocksOnlyGrow(AfterRequests(front), rs[|rs| - 1]);
    }
  }

  /**
   * Over any run with room for every request: the bytes two requests asked for lie in the arena, and at least 4 KiB
   * apart, the earlier request's below the later one's.
   */
  lemma AskedBytesApart(rs: seq<Request>, i: nat, k: nat, j: nat, l: nat)
    requires RoomForAll(rs) && i < j < |rs| && k < |Given(rs, i)| && l < |Given(rs, j)|
    requires Honoured(rs[i]) && Honoured(rs[j])
    ensures var b, c := Given(rs, i)[k], Given(rs, j)[l];
      && 0xA000_0000 <= b.start && b.start + Asked(rs[i], k) + 0x1000 <= c.start
      && c.start + Asked(rs[j], l) + 0x1000 < 0x1_0000_0000
  {
    hide RoomForAll;
    hide Allocate;
    hide AfterRequests;
    BlocksStayApartExactly(rs);
    GivenHolds(rs, i, k);
    GivenHolds(rs, j, l);
    GivenAt(rs, i, k);
    GivenAt(rs, j, l);
    var a, c := |AfterRequests(rs[..i]).blocks| + k, |AfterRequests(rs[..j]).blocks| + l;
    RunBlocksGrow(rs[..j], i + 1);
    assert rs[..j][..i + 1] == rs[..i + 1];
    assert a < c;
  }

  lemma GivenAt(rs: seq<Request>, i: nat, k: nat)
    requires i < |rs| && k < |Given(rs, i)|
    ensures var at := |AfterRequests(rs[..i]).blocks| + k;
      && at < |AfterRequests(rs[..i + 1]).blocks| <= |AfterRequests(rs).blocks|
      && AfterRequests(rs).blocks[at] == Given(rs, i)[k]
  {
    hide Allocate;
    hide AfterRequests;
    RunBlocksGrow(rs, i + 1);
    RunBlocksGrow(rs[..i + 1], i);
    assert rs[..i + 1][..i] == rs[..i];
  }

  // ---------------------------------------------------------------- the allocator

  class BumpAllocator {
    var next: u32
    var systemBuffer: u32
    ghost var blocks: seq<Block>

    ghost function State(): Arena
      reads this
    {
      Arena(next, systemBuffer, blocks)
    }

    constructor ()
      ensures State() == EMPTY_ARENA
    {
      next, systemBuffer, blocks := FIRST_ADDRESS, 0, [];
    }

    method NtAllocateVirtualMemory(regionSize: u32) returns (address: u32, alignedSize: u32)
      modifies this
      ensures State() == Allocate(old(State()), Virtual(regionSize))
      ensures blocks == old(blocks) + [Block(address, alignedSize)] && address == old(next)
      ensures regionSize <= 0xFFFF_0000 ==> LeastHolding(alignedSize, regionSize)
    {
      VirtualHolds(State(), regionSize);
      var x := Add32(regionSize, GRANULARITY - 1);
      alignedSize := x / GRANULARITY * GRANULARITY;
      address := next;
      next := Add32(next, alignedSize + GAP);
      blocks := blocks + [Block(address, alignedSize)];
    }

    method MmAllocatePhysicalMemoryEx(requestedSize: u32, alignment: u32) returns (address: u32)
      modifies this
      ensures State() == Allocate(old(State()), Physical(requestedSize, alignment))
      ensures |blocks| == |old(blocks)| + 1 && blocks[|old(blocks)|].start == address
      ensures var size := blocks[|old(blocks)|].size;
        if 0 < requestedSize <= 0x2000_0000 then LeastHolding(size, requestedSize) else size == 0x1_0000
      ensures PowerOfTwo(alignment) ==> address % alignment == 0
    {
      PhysicalHolds(State(), requestedSize, alignment);
      var x := Add32(requestedSize, GRANULARITY - 1);
      var alignedSize := x / GRANULARITY * GRANULARITY;
      if alignedSize < GRANULARITY || alignedSize > LARGEST_PHYSICAL {
        alignedSize := GRANULARITY;
      }
      address := next;
      if IsAlignment(alignment) {
        address := ClearLow(Add32(address, alignment - 1), alignment);
      }
      next := Add32(address, alignedSize + GAP);
      blocks := blocks + [Block(address, alignedSize)];
    }

    /** The two blocks ExCreateThread takes for a new thread. */
    method TakeThreadBlocks() returns (stack: u32, tls: u32)
      modifies this
      ensures State() == Allocate(old(State()), NewThread)
      ensures blocks == old(blocks) + [Block(stack, STACK_BYTES), Block(tls, TLS_BYTES)]
    {
      stack := next;
      next := Add32(next, STACK_BYTES + GAP);
      tls := next;
      next := Add32(next, TLS_BYTES + GAP);
      blocks := blocks + [Block(stack, STACK_BYTES)] + [Block(tls, TLS_BYTES)];
    }

    /** One buffer for the whole run. */
    method VdGetSystemCommandBuffer() returns (address: u32)
      modifies this
      ensures State() == Allocate(old(State()), SystemBuffer)
      ensures address == systemBuffer && (old(systemBuffer) != 0 ==> address == old(systemBuffer))
    {
      if systemBuffer == 0 {
        systemBuffer := next;
        next := Add32(next, SYSTEM_BUFFER_BYTES + GAP);
        blocks := blocks + [Block(systemBuffer, SYSTEM_BUFFER_BYTES)];
      }
      address := systemBuffer;
    }
  }
}
