/** A run that follows the ring protocol all the way around the ring's end, from any fresh ring large enough. */
module RingExample {
  import opened Words
  import opened GuestMemory
  import opened DrawResolve
  import opened ShaderCache
  import opened GpuTrace
  import opened FrameTrace
  import opened ScanTheorems
  import opened ScanFrames
  import opened ScanReplay
  import opened RingProtocol

  const FILLER: u32 := 0x8000_0000

  /** Registering a ring makes it fresh, given a write-back address outside it that holds zero and a healthy tracer. */
  lemma RegisteredIsFresh(t: Tracer, physAddr: u32, sizeLog2Raw: nat)
    requires sizeLog2Raw + 3 < 32 && physAddr + Pow2(sizeLog2Raw + 3) < TWO32
    requires t.rptrAddr != 0 && Apart(t.rptrAddr, physAddr, physAddr + Pow2(sizeLog2Raw + 3))
    requires LoadU32(t.machine.memory, t.rptrAddr) == 0 && t.sysAddr == 0 && physAddr != 0 && t.wptrDwords == 0
    requires Healthy(t.machine) && TopLevel(t.machine.log, physAddr) == []
    ensures Fresh(System(WithRing(t, physAddr, sizeLog2Raw), 0, 0, 0, []))
  {
    hide TopLevel;
    hide LoadU32;
    hide Healthy;
    RegisteredRing(t, physAddr, sizeLog2Raw);
  }

  lemma OneMoreStep(start: System, actions: seq<Action>, a: Action) returns (longer: seq<Action>, s: System)
    requires Behaves(start, actions) && Allowed(AfterActions(start, actions), a)
    ensures longer == actions + [a] && Behaves(start, longer)
    ensures s == AfterActions(start, longer) == Perform(AfterActions(start, actions), a)
  {
    hide Allowed;
    hide Perform;
    longer := actions + [a];
    assert longer[..|actions|] == actions;
    s := AfterActions(start, longer);
  }

  /** The tracer's machine after a frame that executed one filler at `at` and nothing else. */
  function FillerExecuted(t: Tracer, at: u32): Machine
    requires at + 4 < TWO32
  {
    var m := Tick(t.machine);
    ReportOffset(t, m.(log := m.log + [Executed(0, t.ringBase, at, [FILLER])]), at + 4)
  }

  lemma FillerScan(m: Machine, base: u32, at: u32)
    requires m.fault.None? && base + at + 4 < TWO32 && at + 8 < TWO32 && LoadU32(m.memory, base + at) == FILLER
    ensures Scan(m, base, at, at + 4, 0) == Scanned(m.(log := m.log + [Executed(0, base, at, [FILLER])]), at + 4)
  {
    hide LoadU32;
    hide Effect;
    assert Add32(base, at) == base + at;
    assert ReadWords(m.memory, base + at, 1) == [FILLER] by { assert Add32(base + at, 0) == base + at; }
    assert PacketAt(m.memory, base, at, at + 4) == Packet([FILLER]);
    FillerDoesNothing(Logged(m, base, at, [FILLER], 0));
    var m1 := Execute(m, base, at, [FILLER], 0);
    assert PacketAt(m1.memory, base, at + 4, at + 4) == Nothing;
  }

  lemma FillerDoesNothing(m: Machine)
    ensures Effect(m, [FILLER]) == m
  {
    hide ResolveDraw;
    hide Load;
  }

  /** A frame over a ring that holds one filler packet up to the observed write pointer. */
  lemma FillerFrame(t: Tracer)
    requires t.machine.fault.None? && t.wptrObserved && t.wptrDwords * 4 == t.lastOffset + 4 <= t.ringSize
    requires t.ringSize <= 0x8000_0000 && t.ringBase + t.ringSize < TWO32 && t.sysAddr == 0
    requires LoadU32(t.machine.memory, t.ringBase + t.lastOffset) == FILLER
    ensures Frame(t) == t.(machine := FillerExecuted(t, t.lastOffset), lastOffset := t.lastOffset + 4)
  {
    hide Scan;
    hide LoadU32;
    hide StoreU32;
    FillerScan(Tick(t.machine), t.ringBase, t.lastOffset);
  }

  /** A frame that finds a zero dword where it left off and the write pointer behind it. */
  lemma TurningFillerFrame(t: Tracer)
    requires t.machine.fault.None? && t.wptrObserved && t.wptrDwords == 1 && 4 < t.lastOffset
    requires t.lastOffset + 4 <= t.ringSize <= 0x8000_0000 && t.ringBase + t.ringSize < TWO32 && t.sysAddr == 0
    requires LoadU32(t.machine.memory, t.ringBase + t.lastOffset) == 0
    requires LoadU32(t.machine.memory, t.ringBase) == FILLER
    ensures Frame(t) == t.(machine := FillerExecuted(t, 0), lastOffset := 4)
  {
    hide LoadU32;
    hide StoreU32;
    hide Execute;
    var m := Tick(t.machine);
    assert Add32(t.ringBase, t.lastOffset) == t.ringBase + t.lastOffset;
    assert PacketAt(m.memory, t.ringBase, t.lastOffset, t.ringSize) == Nothing;
    assert Scan(m, t.ringBase, t.lastOffset, t.ringSize, 0) == Scanned(m, t.lastOffset);
    hide Scan;
    FillerScan(m, t.ringBase, 0);
  }

  /** Guest and pump are level: everything published was executed, and all offsets agree. */
  ghost predicate Level(s: System) {
    var t := s.tracer;
    && Layout(t) && Sane(t) && t.sysAddr == 0
    && s.cursor == t.lastOffset && s.cursor % 4 == 0
    && LoadU32(t.machine.memory, t.rptrAddr) * 4 == t.lastOffset
    && TopLevel(t.machine.log, t.ringBase) == s.published
  }

  /** The guest writes and publishes one filler, and the pump sees the doorbell. */
  lemma Offer(start: System, actions: seq<Action>) returns (longer: seq<Action>, s: System)
    requires Behaves(start, actions)
    requires var b := AfterActions(start, actions);
      Layout(b.tracer) && b.cursor % 4 == 0 && b.cursor + 4 <= b.tracer.ringSize && Room(b, b.cursor + 4)
    ensures Behaves(start, longer) && s == AfterActions(start, longer)
    ensures var b := AfterActions(start, actions);
      var t := b.tracer;
      && s.cursor == b.cursor + 4 && s.seen == b.seen
      && s.published == b.published + [Executed(0, t.ringBase, b.cursor, [FILLER])]
      && s.tracer == t.(machine := t.machine.(memory := StoreU32(t.machine.memory, t.ringBase + b.cursor, FILLER)),
                        wptrDwords := (b.cursor + 4) / 4, wptrObserved := true)
  {
    hide Behaves;
    hide AfterActions;
    hide StoreU32;
    hide LoadU32;
    hide Frame;
    hide Modest;
    hide MissFrom;
    hide Ended;
    var b := AfterActions(start, actions);
    var at := b.tracer.ringBase + b.cursor;
    StoreThenLoad(b.tracer.machine.memory, at, FILLER, at);
    longer, s := OneMoreStep(start, actions, StoreDword(at, FILLER));
    assert ReadWords(s.tracer.machine.memory, at, 1) == [FILLER] by { assert Add32(at, 0) == at; }
    longer, s := OneMoreStep(start, longer, Publish([FILLER]));
    longer, s := OneMoreStep(start, longer, RingDoorbell);
    longer, s := OneMoreStep(start, longer, ObserveDoorbell);
  }

  /** A frame that executes one filler is allowed and leaves the pump level with what was published. */
  lemma TakeFiller(start: System, actions: seq<Action>, at: u32) returns (longer: seq<Action>, s: System)
    requires Behaves(start, actions) && at + 8 < TWO32 && at % 4 == 0
    requires var b := AfterActions(start, actions);
      var t := b.tracer;
      && Layout(t) && Sane(t) && t.wptrObserved && t.sysAddr == 0 && at + 4 <= t.ringSize && b.cursor == at + 4
      && Frame(t) == t.(machine := FillerExecuted(t, at), lastOffset := at + 4)
      && b.published == TopLevel(t.machine.log, t.ringBase) + [Executed(0, t.ringBase, at, [FILLER])]
    ensures Behaves(start, longer) && s == AfterActions(start, longer) && Level(s)
    ensures var b := AfterActions(start, actions);
      && s.seen == b.seen && s.published == b.published && s.cursor == b.cursor
      && s.tracer == b.tracer.(machine := FillerExecuted(b.tracer, at), lastOffset := at + 4)
  {
    hide Behaves;
    hide AfterActions;
    hide StoreU32;
    hide LoadU32;
    hide Frame;
    hide Sane;
    var b := AfterActions(start, actions);
    var t := b.tracer;
    var e := Executed(0, t.ringBase, at, [FILLER]);
    assert Frame(t).machine.log == t.machine.log + [e];
    OneFillerModest(t.machine.log, e);
    OneFillerMisses(t.machine.log, e, t.ringBase, t.ringBase + t.ringSize);
    FrameSane(t);
    longer, s := OneMoreStep(start, actions, PumpFrame);
    StoreThenLoad(Tick(t.machine).memory, t.rptrAddr, (at + 4) / 4, t.rptrAddr);
    assert (t.machine.log + [e])[..|t.machine.log|] == t.machine.log;
  }

  lemma OneFillerModest(log: seq<Executed>, e: Executed)
    requires e.words == [FILLER]
    ensures Modest(log + [e], |log|)
  {
    hide ShortStride;
  }

  lemma OneFillerMisses(log: seq<Executed>, e: Executed, lo: int, hi: int)
    requires e.words == [FILLER]
    ensures MissFrom(log + [e], |log|, lo, hi)
  {
  }

  /** One filler, straight ahead. */
  lemma Advance(start: System, actions: seq<Action>) returns (longer: seq<Action>, s: System)
    requires Behaves(start, actions)
    requires var b := AfterActions(start, actions);
      Level(b) && b.cursor + 4 <= b.tracer.ringSize && b.seen <= b.cursor
    ensures Behaves(start, longer) && s == AfterActions(start, longer) && Level(s)
    ensures var b := AfterActions(start, actions);
      && s.seen == b.seen && s.cursor == b.cursor + 4
      && s.tracer.ringBase == b.tracer.ringBase && s.tracer.ringSize == b.tracer.ringSize
      && s.published == b.published + [Executed(0, b.tracer.ringBase, b.cursor, [FILLER])]
  {
    hide Behaves;
    hide AfterActions;
    hide StoreU32;
    hide LoadU32;
    var b := AfterActions(start, actions);
    longer, s := Offer(start, actions);
    StoreThenLoad(b.tracer.machine.memory, b.tracer.ringBase + b.cursor, FILLER, b.tracer.ringBase + b.cursor);
    FillerFrame(s.tracer);
    longer, s := TakeFiller(start, longer, b.cursor);
  }

  /** The guest reads what was consumed, ends the ring with a zero dword and turns back to its start. */
  lemma Turn(start: System, actions: seq<Action>) returns (longer: seq<Action>, s: System)
    requires Behaves(start, actions)
    requires var b := AfterActions(start, actions);
      Level(b) && 0 < b.cursor && b.cursor + 4 <= b.tracer.ringSize && b.seen <= b.cursor
    ensures Behaves(start, longer) && s == AfterActions(start, longer)
    ensures var b := AfterActions(start, actions);
      var t := b.tracer;
      && s.cursor == 0 && s.seen == b.cursor && s.published == b.published
      && s.tracer == t.(machine := t.machine.(memory := StoreU32(t.machine.memory, t.ringBase + b.cursor, 0)))
      && LoadU32(s.tracer.machine.memory, t.ringBase + b.cursor) == 0
  {
    hide Behaves;
    hide AfterActions;
    hide StoreU32;
    hide LoadU32;
    hide Frame;
    hide Modest;
    hide MissFrom;
    hide TopLevel;
    hide Sane;
    var b := AfterActions(start, actions);
    var at := b.tracer.ringBase + b.cursor;
    longer, s := OneMoreStep(start, actions, ReadConsumed);
    StoreThenLoad(b.tracer.machine.memory, at, 0, at);
    longer, s := OneMoreStep(start, longer, StoreDword(at, 0));
    assert Add32(b.tracer.ringBase, b.cursor) == at;
    longer, s := OneMoreStep(start, longer, TurnBack);
  }

  /**
   * From any fresh ring with room for four dwords and no system command buffer there is a run that keeps to the
   * protocol, publishes a packet, a second one behind it and a third at the ring's start again, and executes all
   * three, the third by a frame that turned around the ring's end.
   */
  lemma AroundTheEnd(start: System) returns (actions: seq<Action>, s: System)
    requires Fresh(start) && start.tracer.ringSize >= 16 && start.tracer.sysAddr == 0
    ensures Behaves(start, actions) && s == AfterActions(start, actions)
    ensures var base := start.tracer.ringBase;
      s.published == [Executed(0, base, 0, [FILLER]), Executed(0, base, 4, [FILLER]), Executed(0, base, 0, [FILLER])]
    ensures TopLevel(s.tracer.machine.log, s.tracer.ringBase) == s.published
  {
    hide Behaves;
    hide AfterActions;
    hide StoreU32;
    hide LoadU32;
    hide Frame;
    hide TopLevel;
    var base := start.tracer.ringBase;
    assert Behaves(start, []) && AfterActions(start, []) == start by { NoActions(start); }
    actions, s := Advance(start, []);
    actions, s := Advance(start, actions);
    actions, s := Turn(start, actions);
    var m := s.tracer.machine.memory;
    actions, s := Offer(start, actions);
    StoreThenLoad(m, base, FILLER, base);
    StoreThenLoad(m, base, FILLER, base + 8);
    TurningFillerFrame(s.tracer);
    actions, s := TakeFiller(start, actions, 0);
  }

  lemma NoActions(start: System)
    ensures Behaves(start, []) && AfterActions(start, []) == start
  {
  }
}
