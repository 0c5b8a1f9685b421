/** The tracer's own state and its per-frame work: following the ring to the write pointer, and around its end. */
module FrameTrace {
  import opened Words
  import opened GuestMemory
  import opened GpuTrace

  datatype Tracer = Tracer(
    machine: Machine, ringBase: u32, ringSize: u32, rptrAddr: u32, lastOffset: u32,
    wptrDwords: u32, wptrObserved: bool, sysAddr: u32, sysSize: u32, sysOffset: u32)

  /** The ring holds 2^(sizeLog2Raw + 3) bytes; the write pointer observed so far is kept. */
  function WithRing(t: Tracer, physAddr: u32, sizeLog2Raw: nat): Tracer
    requires sizeLog2Raw + 3 < 32
  {
    RingSizeFits(sizeLog2Raw + 3);
    t.(ringBase := physAddr, ringSize := Pow2(sizeLog2Raw + 3), lastOffset := 0)
  }

  lemma {:induction false} RingSizeFits(n: nat)
    requires n < 32
    ensures Pow2(n) <= 0x8000_0000
  {
    Pow2Grows(n, 31);
    assert Pow2(8) == 0x100 && Pow2(16) == 0x1_0000 && Pow2(24) == 0x100_0000;
    assert Pow2(31) == 0x8000_0000;
  }

  /** A registered ring is a whole number of dwords and leaves the 32-bit offsets room. */
  lemma RegisteredRing(t: Tracer, physAddr: u32, sizeLog2Raw: nat)
    requires sizeLog2Raw + 3 < 32
    ensures var r := WithRing(t, physAddr, sizeLog2Raw);
      && r.ringBase == physAddr && r.ringSize == 8 * Pow2(sizeLog2Raw) && r.lastOffset == 0
      && r.ringSize % 4 == 0 && 8 <= r.ringSize <= 0x8000_0000
  {
    RingSizeFits(sizeLog2Raw + 3);
    Pow2Grows(3, sizeLog2Raw + 3);
    assert Pow2(3) == 8;
    assert Pow2(sizeLog2Raw + 3) == 2 * (2 * Pow2(sizeLog2Raw + 1));
  }

  /** Only the first system command buffer is kept. */
  function WithSystemBuffer(t: Tracer, addr: u32, size: u32): Tracer {
    if t.sysAddr != 0 then t else t.(sysAddr := addr, sysSize := size, sysOffset := 0)
  }

  function Observed(t: Tracer, dwordIndex: u32): Tracer {
    t.(wptrDwords := dwordIndex, wptrObserved := true)
  }

  /** How far this frame may scan the ring: to the write pointer when it lies ahead, else to the ring's end. */
  function ScanBound(t: Tracer): u32 {
    if t.wptrObserved && t.lastOffset <= t.wptrDwords * 4 <= t.ringSize then t.wptrDwords * 4 else t.ringSize
  }

  /** The write pointer lies behind what was already parsed: it has wrapped. */
  predicate WrapPending(t: Tracer) {
    t.wptrObserved && t.wptrDwords * 4 < t.lastOffset
  }

  /** The ring part of a frame: the rest of the ring, and from its start again once the tail yields nothing new. */
  function ScanRing(t: Tracer, m: Machine): Scanned {
    var tail := Scan(m, t.ringBase, t.lastOffset, ScanBound(t), 0);
    if WrapPending(t) && tail.offset == t.lastOffset
    then Scan(tail.machine, t.ringBase, 0, t.wptrDwords * 4, 0)
    else tail
  }

  function ScanSystem(t: Tracer, m: Machine): Scanned {
    if t.sysAddr != 0 then Scan(m, t.sysAddr, t.sysOffset, t.sysSize, 0) else Scanned(m, t.sysOffset)
  }

  function ReportOffset(t: Tracer, m: Machine, offset: u32): Machine {
    if t.rptrAddr != 0 then m.(memory := StoreU32(m.memory, t.rptrAddr, offset / 4)) else m
  }

  function Tick(m: Machine): Machine {
    m.(vblank := Add32(m.vblank, 1))
  }

  /** One frame: count it, scan the ring, scan the system command buffer, report the ring offset consumed. */
  function Frame(t: Tracer): Tracer {
    var ring := ScanRing(t, Tick(t.machine));
    var sys := ScanSystem(t, ring.machine);
    t.(machine := ReportOffset(t, sys.machine, ring.offset), lastOffset := ring.offset, sysOffset := sys.offset)
  }
}
