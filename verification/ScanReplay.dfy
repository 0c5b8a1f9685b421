/**
 * A scan, with all its indirect buffers, is its flat list of packets executed in order; what follows for the shader
 * cache over any run of frames.
 */
module ScanReplay {
  import opened Words
  import opened GuestMemory
  import opened DrawResolve
  import opened ShaderTranslate
  import opened ShaderCache
  import opened GpuTrace
  import opened FrameTrace
  import opened ScanTheorems

  /** One logged packet on its own: a followed indirect buffer does nothing itself. */
  function ReplayOne(m: Machine, e: Executed): Machine {
    var logged := m.(log := m.log + [e]);
    if IsFollowed(e.words, e.depth) then logged else Effect(logged, e.words)
  }

  function Replay(m: Machine, es: seq<Executed>): Machine {
    if es == [] then m else ReplayOne(Replay(m, es[..|es| - 1]), es[|es| - 1])
  }

  lemma {:induction false} ReplayJoin(m: Machine, a: seq<Executed>, b: seq<Executed>)
    ensures Replay(m, a + b) == Replay(Replay(m, a), b)
    decreases |b|
  {
    hide ReplayOne;
    if b == [] {
      assert a + b == a;
    } else {
      assert (a + b)[..|a| + |b| - 1] == a + b[..|b| - 1];
      ReplayJoin(m, a, b[..|b| - 1]);
    }
  }

  lemma ReplaySingle(m: Machine, e: Executed)
    ensures Replay(m, [e]) == ReplayOne(m, e)
  {
    hide ReplayOne;
    assert [e][..0] == [];
  }

  /** The packets added to a log. */
  function Added(before: Machine, after: Machine): seq<Executed>
    requires before.log <= after.log
  {
    after.log[|before.log|..]
  }

  /** `after` is `before` with the packets it logged replayed, but for a wrapped offset, which no packet causes. */
  ghost predicate IsReplay(before: Machine, after: Machine) {
    && before.log <= after.log
    && after == Replay(before, Added(before, after)).(fault := after.fault)
    && (after.fault != Some(OffsetWrap) ==> after == Replay(before, Added(before, after)))
  }

  lemma ReplayChain(a: Machine, b: Machine, c: Machine)
    requires IsReplay(a, b) && IsReplay(b, c) && b.fault.None?
    ensures IsReplay(a, c)
  {
    hide Replay;
    assert Added(a, b) + Added(b, c) == Added(a, c);
    ReplayJoin(a, Added(a, b), Added(b, c));
  }

  lemma {:induction false} ExecuteIsReplay(m: Machine, buffer: u32, offset: u32, words: seq<u32>, depth: nat)
    requires depth <= MAX_INDIRECT_DEPTH && m.fault.None?
    ensures IsReplay(m, Execute(m, buffer, offset, words, depth))
    decreases MAX_INDIRECT_DEPTH - depth, 0, 0
  {
    hide Effect;
    var logged, after := Logged(m, buffer, offset, words, depth), Execute(m, buffer, offset, words, depth);
    var e := Executed(depth, buffer, offset, words);
    ReplaySingle(m, e);
    if IsFollowed(words, depth) {
      assert Added(m, logged) == [e];
      ScanIsReplay(logged, DirectMap(words[1]), 0, TargetSize(words), depth + 1);
      ReplayChain(m, logged, after);
    } else {
      EffectExtends(logged, words);
      assert Added(m, after) == [e];
    }
  }

  /**
   * Flattening: whatever indirect buffers it follows, and even if packets overwrite what is scanned later, a scan
   * leaves the machine that executing the packets of its log one by one leaves.
   */
  lemma {:induction false} ScanIsReplay(m: Machine, buffer: u32, offset: u32, size: u32, depth: nat)
    requires depth <= MAX_INDIRECT_DEPTH && m.fault.None?
    ensures IsReplay(m, Scan(m, buffer, offset, size, depth).machine)
    decreases MAX_INDIRECT_DEPTH - depth, 1, TWO32 - offset
  {
    hide Execute;
    hide PacketAt;
    hide IsReplay;
    var found := PacketAt(m.memory, buffer, offset, size);
    match found
    case Nothing => NothingReplayed(m);
    case Wraps => WrapReplayed(m);
    case Packet(words) =>
      var m1 := Execute(m, buffer, offset, words, depth);
      ExecuteIsReplay(m, buffer, offset, words, depth);
      if m1.fault.None? {
        ScanIsReplay(m1, buffer, offset + 4 * |words|, size, depth);
        ReplayChain(m, m1, Scan(m1, buffer, offset + 4 * |words|, size, depth).machine);
      }
  }

  lemma NothingReplayed(m: Machine)
    ensures IsReplay(m, m)
  {
    hide ReplayOne;
    assert Added(m, m) == [];
  }

  lemma WrapReplayed(m: Machine)
    ensures IsReplay(m, m.(fault := Some(OffsetWrap)))
  {
    hide ReplayOne;
    assert Added(m, m.(fault := Some(OffsetWrap))) == [];
  }

  // ---------------------------------------------------------------- what keeps a frame free of faults

  /** No vertex microcode loaded from entry `k` of the log on has records shorter than a position. */
  ghost predicate LoadsLong(log: seq<Executed>, k: nat) {
    forall i :: k <= i < |log| && IsLoad(log[i].words) && log[i].words[1] == 0 ==>
      !ShortStride(Translate(Microcode(log[i].words), 0))
  }

  /** The packets executed from entry `k` on name small enough buffers and load long enough vertex records. */
  ghost predicate Modest(log: seq<Executed>, k: nat) {
    FollowsFit(log, k, WRAP_FREE_SIZE - 1) && LoadsLong(log, k)
  }

  predicate Healthy(m: Machine) {
    m.fault.None? && !ShortStride(m.cache.vertex.result)
  }

  lemma ReplayOneHealthy(m: Machine, e: Executed)
    requires Healthy(m) && LoadsLong([e], 0)
    ensures Healthy(ReplayOne(m, e))
  {
    hide ResolveDraw;
    hide Translate;
    hide ShortStride;
    assert e == [e][0];
    var logged := m.(log := m.log + [e]);
    ShortRecordExactly(m.memory, RegistersAfter(m.regs, e.words), m.cache.vertex.result, e.words);
  }

  lemma {:induction false} ReplayHealthy(m: Machine, es: seq<Executed>)
    requires Healthy(m) && LoadsLong(es, 0)
    ensures Healthy(Replay(m, es))
    decreases |es|
  {
    hide ReplayOne;
    hide Healthy;
    if es == [] {
    } else {
      ReplayHealthy(m, es[..|es| - 1]);
      ReplayOneHealthy(Replay(m, es[..|es| - 1]), es[|es| - 1]);
    }
  }

  /** A buffer of whole dwords below the wrapping size, of which whole dwords were scanned. */
  predicate Scannable(offset: u32, size: u32) {
    offset % 4 == 0 && size % 4 == 0 && offset <= size < WRAP_FREE_SIZE
  }

  lemma ScanHealthy(m: Machine, buffer: u32, offset: u32, size: u32)
    requires Healthy(m) && Scannable(offset, size)
    requires Modest(Scan(m, buffer, offset, size, 0).machine.log, |m.log|)
    ensures var r := Scan(m, buffer, offset, size, 0); Healthy(r.machine) && Scannable(r.offset, size)
  {
    hide Scan;
    hide Replay;
    var after := Scan(m, buffer, offset, size, 0).machine;
    ScanNeverWraps(m, buffer, offset, size, 0);
    ScanStaysInside(m, buffer, offset, size, 0);
    ScanIsReplay(m, buffer, offset, size, 0);
    ReplayHealthy(m, Added(m, after));
  }

  lemma ModestPart(log: seq<Executed>, longer: seq<Executed>, k: nat, k': nat)
    requires log <= longer && Modest(longer, k) && k <= k'
    ensures Modest(log, k) && Modest(longer, k')
  {
    hide Translate;
    hide ShortStride;
  }

  /** What is asked of the buffers and of the machine before a frame, and kept by it. */
  predicate Sane(t: Tracer) {
    && Healthy(t.machine) && Scannable(t.lastOffset, t.ringSize)
    && (t.sysAddr != 0 ==> Scannable(t.sysOffset, t.sysSize))
  }

  lemma RingGrows(t: Tracer)
    ensures Extends(Tick(t.machine), ScanRing(t, Tick(t.machine)).machine)
  {
    hide Scan;
    var m := Tick(t.machine);
    var tail := Scan(m, t.ringBase, t.lastOffset, ScanBound(t), 0);
    ScanExtends(m, t.ringBase, t.lastOffset, ScanBound(t), 0);
    if WrapPending(t) {
      ScanExtends(tail.machine, t.ringBase, 0, t.wptrDwords * 4, 0);
    }
  }

  lemma RingSane(t: Tracer)
    requires Sane(t) && Modest(ScanRing(t, Tick(t.machine)).machine.log, |t.machine.log|)
    ensures var ring := ScanRing(t, Tick(t.machine));
      Healthy(ring.machine) && Scannable(ring.offset, t.ringSize) && t.machine.log <= ring.machine.log
  {
    hide Scan;
    hide Modest;
    var m := Tick(t.machine);
    var tail := Scan(m, t.ringBase, t.lastOffset, ScanBound(t), 0);
    var ring := ScanRing(t, m);
    ScanExtends(m, t.ringBase, t.lastOffset, ScanBound(t), 0);
    if WrapPending(t) && tail.offset == t.lastOffset {
      ScanExtends(tail.machine, t.ringBase, 0, t.wptrDwords * 4, 0);
    }
    ModestPart(tail.machine.log, ring.machine.log, |m.log|, |tail.machine.log|);
    ScanHealthy(m, t.ringBase, t.lastOffset, ScanBound(t));
    if WrapPending(t) && tail.offset == t.lastOffset {
      ScanHealthy(tail.machine, t.ringBase, 0, t.wptrDwords * 4);
    }
  }

  /** A frame that executes only modest packets ends without a fault, and leaves everything fit for the next. */
  lemma FrameSane(t: Tracer)
    requires Sane(t) && Modest(Frame(t).machine.log, |t.machine.log|)
    ensures Sane(Frame(t))
  {
    hide Scan;
    hide ScanRing;
    hide Modest;
    hide StoreU32;
    var ring := ScanRing(t, Tick(t.machine));
    var sys := ScanSystem(t, ring.machine);
    RingGrows(t);
    if t.sysAddr != 0 {
      ScanExtends(ring.machine, t.sysAddr, t.sysOffset, t.sysSize, 0);
    }
    ModestPart(ring.machine.log, sys.machine.log, |t.machine.log|, |ring.machine.log|);
    RingSane(t);
    if t.sysAddr != 0 {
      ScanHealthy(ring.machine, t.sysAddr, t.sysOffset, t.sysSize);
    }
  }

  // ---------------------------------------------------------------- the shader cache over a whole run

  /** The microcode loads among executed packets, in order. */
  function LoadsIn(log: seq<Executed>): seq<Request> {
    if log == [] then []
    else
      var words := log[|log| - 1].words;
      LoadsIn(log[..|log| - 1]) + if IsLoad(words) then [Request(words[1], Microcode(words))] else []
  }

  /** The cache is what the loads executed so far left. */
  ghost predicate CacheFromLog(m: Machine) {
    m.cache == AfterLoads(LoadsIn(m.log))
  }

  lemma ReplayOneCache(m: Machine, e: Executed)
    requires CacheFromLog(m)
    ensures CacheFromLog(ReplayOne(m, e))
    ensures ReplayOne(m, e).log == m.log + [e]
  {
    hide ResolveDraw;
    hide Load;
    hide LoadsIn;
    hide AfterLoads;
    hide RegistersAfter;
    LoadsGrow(m.log, e);
  }

  lemma LoadsGrow(log: seq<Executed>, e: Executed)
    ensures !IsLoad(e.words) ==> LoadsIn(log + [e]) == LoadsIn(log)
    ensures IsLoad(e.words) ==>
              AfterLoads(LoadsIn(log + [e])) == Load(AfterLoads(LoadsIn(log)), e.words[1], Microcode(e.words))
  {
    hide Load;
    assert (log + [e])[..|log|] == log;
    if IsLoad(e.words) {
      var loads, r := LoadsIn(log), Request(e.words[1], Microcode(e.words));
      assert (loads + [r])[..|loads|] == loads;
    }
  }

  lemma {:induction false} ReplayCache(m: Machine, es: seq<Executed>)
    requires CacheFromLog(m)
    ensures CacheFromLog(Replay(m, es))
    decreases |es|
  {
    hide ReplayOne;
    hide CacheFromLog;
    if es == [] {
    } else {
      ReplayCache(m, es[..|es| - 1]);
      ReplayOneCache(Replay(m, es[..|es| - 1]), es[|es| - 1]);
    }
  }

  lemma ScanCache(m: Machine, buffer: u32, offset: u32, size: u32)
    requires CacheFromLog(m)
    ensures CacheFromLog(Scan(m, buffer, offset, size, 0).machine)
  {
    hide Scan;
    hide Replay;
    if m.fault.None? {
      var after := Scan(m, buffer, offset, size, 0).machine;
      ScanIsReplay(m, buffer, offset, size, 0);
      ReplayCache(m, Added(m, after));
    } else {
      FaultyScan(m, buffer, offset, size);
    }
  }

  lemma FaultyScan(m: Machine, buffer: u32, offset: u32, size: u32)
    requires m.fault.Some?
    ensures Scan(m, buffer, offset, size, 0).machine == m
  {
    hide Execute;
  }

  lemma FrameCache(t: Tracer)
    requires CacheFromLog(t.machine)
    ensures CacheFromLog(Frame(t).machine)
  {
    hide Scan;
    hide StoreU32;
    hide AfterLoads;
    hide LoadsIn;
    var m := Tick(t.machine);
    var tail := Scan(m, t.ringBase, t.lastOffset, ScanBound(t), 0);
    ScanCache(m, t.ringBase, t.lastOffset, ScanBound(t));
    if WrapPending(t) {
      ScanCache(tail.machine, t.ringBase, 0, t.wptrDwords * 4);
    }
    var ring := ScanRing(t, m).machine;
    assert CacheFromLog(ring);
    if t.sysAddr != 0 {
      ScanCache(ring, t.sysAddr, t.sysOffset, t.sysSize);
    }
  }

  function Frames(t: Tracer, n: nat): Tracer {
    if n == 0 then t else Frame(Frames(t, n - 1))
  }

  /**
   * The hash gate is transparent over any number of frames: as long as hashes tell apart the microcodes loaded for
   * a stage, the stage's cached result is the translation of the last microcode any executed packet loaded for it.
   */
  lemma {:induction false} CacheServesLatest(t: Tracer, n: nat, stage: Stage)
    requires CacheFromLog(t.machine)
    requires HashesTell(LoadsIn(Frames(t, n).machine.log))
    ensures var m := Frames(t, n).machine;
      Transparent(StageOf(m.cache, stage), Latest(LoadsIn(m.log), stage), stage)
  {
    hide Frame;
    hide HashesTell;
    hide Transparent;
    hide Translate;
    FramesCache(t, n);
    CacheIsTransparent(LoadsIn(Frames(t, n).machine.log), stage);
  }

  lemma {:induction false} FramesCache(t: Tracer, n: nat)
    requires CacheFromLog(t.machine)
    ensures CacheFromLog(Frames(t, n).machine)
    decreases n
  {
    hide Frame;
    hide CacheFromLog;
    if n == 0 {
    } else {
      FramesCache(t, n - 1);
      FrameCache(Frames(t, n - 1));
    }
  }
}
