/** What one frame does to a tracer whose buffers hold command lists: count, ring, system buffer, report. */
module FrameEffects {
  import opened Words
  import opened GuestMemory
  import opened DrawResolve
  import opened ShaderCache
  import opened GpuTrace
  import opened FrameTrace
  import opened ScanTheorems
  import opened PacketRoundTrip
  import opened PacketCalls

  /** The vertical blank counter moves by one, modulo 2^32, whatever the frame scans. */
  lemma FrameCounts(t: Tracer)
    ensures Frame(t).machine.vblank == (t.machine.vblank + 1) % 0x1_0000_0000
  {
    hide Scan;
    hide StoreU32;
    var m := Tick(t.machine);
    var tail := Scan(m, t.ringBase, t.lastOffset, ScanBound(t), 0);
    ScanExtends(m, t.ringBase, t.lastOffset, ScanBound(t), 0);
    if WrapPending(t) {
      ScanExtends(tail.machine, t.ringBase, 0, t.wptrDwords * 4, 0);
    }
    var ring := ScanRing(t, m);
    if t.sysAddr != 0 {
      ScanExtends(ring.machine, t.sysAddr, t.sysOffset, t.sysSize, 0);
    }
  }

  /** How far the ring is scanned while the write pointer has not wrapped: to it, or to the end without a usable one. */
  function Bound(t: Tracer): nat {
    if t.wptrObserved && 4 * t.wptrDwords <= t.ringSize then 4 * t.wptrDwords else t.ringSize
  }

  predicate NotWrapped(t: Tracer) {
    t.wptrObserved ==> t.lastOffset <= 4 * t.wptrDwords
  }

  /** The rest of a buffer from an offset on is a command list and nothing else. */
  ghost predicate Holds(m: Memory, buffer: u32, offset: u32, size: nat, ss: seq<Step>, stores: set<int>) {
    && buffer + size < TWO32 && offset + 4 * |LaidSteps(ss)| == size < TWO32 - 4 && Targets(ss) <= stores
    && Stands(m, buffer + offset, 0, ss, stores)
  }

  lemma ListConsumed(m: Machine, buffer: u32, offset: u32, size: u32, ss: seq<Step>, stores: set<int>)
    requires Holds(m.memory, buffer, offset, size, ss, stores) && m.fault.None?
    ensures Scan(m, buffer, offset, size, 0) == Scanned(Meant(m, buffer, offset, 0, ss), size)
  {
    hide Stands;
    hide Scan;
    hide LaidSteps;
    hide Meant;
    ScanSteps(m, buffer, offset, size, 0, ss, stores);
    MeantDiffers(m, buffer, offset, 0, ss);
    NothingBehind(Meant(m, buffer, offset, 0, ss), buffer, size, 0);
  }

  /** A list in the system buffer is untouched by the list in the ring. */
  lemma OtherListStands(m: Machine, ring: u32, at: u32, rs: seq<Step>, buffer: u32, offset: u32, size: nat,
                        ss: seq<Step>, stores: set<int>)
    requires Targets(rs) <= stores && Holds(m.memory, buffer, offset, size, ss, stores)
    ensures Holds(Meant(m, ring, at, 0, rs).memory, buffer, offset, size, ss, stores)
  {
    hide Stands;
    hide LaidSteps;
    hide Meant;
    hide DifferOnly;
    MeantDiffers(m, ring, at, 0, rs);
    DifferMore(m.memory, Meant(m, ring, at, 0, rs).memory, Targets(rs), stores);
    StandsOn(m.memory, Meant(m, ring, at, 0, rs).memory, buffer + offset, 0, ss, stores);
  }

  /** What a frame leaves of two lists, the ring's and then the system buffer's. */
  function AfterLists(t: Tracer, rs: seq<Step>, ss: seq<Step>): Machine {
    var ticked := t.machine.(vblank := (t.machine.vblank + 1) % TWO32);
    var ring := Meant(ticked, t.ringBase, t.lastOffset, 0, rs);
    if t.sysAddr == 0 then ring else Meant(ring, t.sysAddr, t.sysOffset, 0, ss)
  }

  /**
   * A frame whose ring holds a list up to the write pointer, or up to its end while there is none, and whose system
   * buffer holds another: it counts, executes the first and then the second, and reports the ring's new offset, in
   * dwords, where the guest asked for it.
   */
  lemma FrameRunsLists(t: Tracer, rs: seq<Step>, ss: seq<Step>, stores: set<int>)
    requires t.machine.fault.None? && NotWrapped(t)
    requires Holds(t.machine.memory, t.ringBase, t.lastOffset, Bound(t), rs, stores)
    requires t.sysAddr != 0 ==> Holds(t.machine.memory, t.sysAddr, t.sysOffset, t.sysSize, ss, stores)
    ensures var m := AfterLists(t, rs, ss);
      Frame(t) == t.(
        machine := if t.rptrAddr == 0 then m else m.(memory := StoreU32(m.memory, t.rptrAddr, Bound(t) / 4)),
        lastOffset := Bound(t),
        sysOffset := if t.sysAddr == 0 then t.sysOffset else t.sysSize)
  {
    hide Holds;
    hide Scan;
    hide Meant;
    hide StoreU32;
    var ticked := Tick(t.machine);
    assert BoundFits(t) by { HoldsFits(t.machine.memory, t.ringBase, t.lastOffset, Bound(t), rs, stores); }
    ListConsumed(ticked, t.ringBase, t.lastOffset, Bound(t), rs, stores);
    var ring := Meant(ticked, t.ringBase, t.lastOffset, 0, rs);
    MeantDiffers(ticked, t.ringBase, t.lastOffset, 0, rs);
    assert ScanBound(t) == Bound(t) && !WrapPending(t);
    if t.sysAddr != 0 {
      HoldsTargets(t.machine.memory, t.ringBase, t.lastOffset, Bound(t), rs, stores);
      OtherListStands(ticked, t.ringBase, t.lastOffset, rs, t.sysAddr, t.sysOffset, t.sysSize, ss, stores);
      ListConsumed(ring, t.sysAddr, t.sysOffset, t.sysSize, ss, stores);
    }
  }

  predicate BoundFits(t: Tracer) {
    t.lastOffset <= Bound(t) < TWO32
  }

  lemma HoldsFits(m: Memory, buffer: u32, offset: u32, size: nat, ss: seq<Step>, stores: set<int>)
    requires Holds(m, buffer, offset, size, ss, stores)
    ensures offset <= size < TWO32
  {
  }

  lemma HoldsTargets(m: Memory, buffer: u32, offset: u32, size: nat, ss: seq<Step>, stores: set<int>)
    requires Holds(m, buffer, offset, size, ss, stores)
    ensures Targets(ss) <= stores
  {
  }
}
