/** What a scan leaves alone, and what it makes of a buffer that its own packets do not write to. */
module ScanFrames {
  import opened Words
  import opened GuestMemory
  import opened DrawResolve
  import opened ShaderCache
  import opened GpuTrace
  import opened ScanTheorems

  // ---------------------------------------------------------------- stores

  /** The packet stores nothing into the bytes [lo, hi). */
  predicate Misses(words: seq<u32>, lo: int, hi: int) {
    IsStore(words) ==> StoreAddress(words) + 4 <= lo || hi <= StoreAddress(words)
  }

  ghost predicate MissFrom(log: seq<Executed>, k: nat, lo: int, hi: int) {
    forall i :: k <= i < |log| ==> Misses(log[i].words, lo, hi)
  }

  lemma EffectKeepsBytes(m: Machine, words: seq<u32>, lo: int, hi: int)
    requires Misses(words, lo, hi)
    ensures SameBytes(m.memory, Effect(m, words).memory, lo, hi)
  {
    hide ResolveDraw;
    hide Load;
    hide RegistersAfter;
    if IsStore(words) {
      StoreKeepsRange(m.memory, StoreAddress(words), StoreValue(words, m.vblank), lo, hi);
    }
  }

  lemma {:induction false} ExecuteKeepsBytes(m: Machine, buffer: u32, offset: u32, words: seq<u32>, depth: nat,
                                             lo: int, hi: int)
    requires depth <= MAX_INDIRECT_DEPTH && m.fault.None?
    requires MissFrom(Execute(m, buffer, offset, words, depth).log, |m.log|, lo, hi)
    ensures SameBytes(m.memory, Execute(m, buffer, offset, words, depth).memory, lo, hi)
    decreases MAX_INDIRECT_DEPTH - depth, 0, 0
  {
    hide Effect;
    hide Misses;
    hide SameBytes;
    var logged := Logged(m, buffer, offset, words, depth);
    ExecuteExtends(m, buffer, offset, words, depth);
    assert Execute(m, buffer, offset, words, depth).log[|m.log|] == Executed(depth, buffer, offset, words);
    if IsFollowed(words, depth) {
      ScanKeepsBytes(logged, DirectMap(words[1]), 0, TargetSize(words), depth + 1, lo, hi);
    } else {
      EffectKeepsBytes(logged, words, lo, hi);
    }
  }

  /** Memory changes only where a packet in the log stores. */
  lemma {:induction false} ScanKeepsBytes(m: Machine, buffer: u32, offset: u32, size: u32, depth: nat, lo: int, hi: int)
    requires depth <= MAX_INDIRECT_DEPTH
    requires MissFrom(Scan(m, buffer, offset, size, depth).machine.log, |m.log|, lo, hi)
    ensures SameBytes(m.memory, Scan(m, buffer, offset, size, depth).machine.memory, lo, hi)
    decreases MAX_INDIRECT_DEPTH - depth, 1, TWO32 - offset
  {
    hide Execute;
    hide Misses;
    hide PacketAt;
    var found := PacketAt(m.memory, buffer, offset, size);
    if m.fault.Some? || !found.Packet? {
    } else {
      var m1 := Execute(m, buffer, offset, found.words, depth);
      ExecuteExtends(m, buffer, offset, found.words, depth);
      ScanExtends(m1, buffer, offset + 4 * |found.words|, size, depth);
      ExecuteKeepsBytes(m, buffer, offset, found.words, depth, lo, hi);
      ScanKeepsBytes(m1, buffer, offset + 4 * |found.words|, size, depth, lo, hi);
    }
  }

  // ---------------------------------------------------------------- what a packet reads

  /** A packet is found by reading its own words and nothing else. */
  lemma PacketReadsItself(m: Memory, m': Memory, buffer: u32, offset: u32, size: u32)
    requires buffer + size <= TWO32
    requires var f := PacketAt(m, buffer, offset, size);
      f.Packet? && SameBytes(m, m', buffer + offset, buffer + offset + 4 * |f.words|)
    ensures PacketAt(m', buffer, offset, size) == PacketAt(m, buffer, offset, size)
  {
    var words := PacketAt(m, buffer, offset, size).words;
    assert Add32(buffer, offset) == buffer + offset;
    assert LoadU32(m, buffer + offset) == LoadU32(m', buffer + offset);
    SameBytesSameWords(m, m', buffer + offset, buffer + offset + 4 * |words|, buffer + offset, |words|);
  }

  lemma SamePacket(m: Memory, m': Memory, buffer: u32, offset: u32, size: u32)
    requires buffer + size <= TWO32 && SameBytes(m, m', buffer, buffer + size)
    ensures PacketAt(m', buffer, offset, size) == PacketAt(m, buffer, offset, size)
  {
    if PacketAt(m, buffer, offset, size).Packet? {
      PacketReadsItself(m, m', buffer, offset, size);
    } else if offset + 4 <= size {
      assert Add32(buffer, offset) == buffer + offset;
    }
  }

  // ---------------------------------------------------------------- parsing a buffer

  /** The packets of a buffer that nothing changes, from `offset` on, and where they end. */
  datatype Parsed = Parsed(packets: seq<Executed>, end: u32, wraps: bool)

  function Parse(m: Memory, buffer: u32, offset: u32, size: u32): Parsed
    decreases TWO32 - offset
  {
    match PacketAt(m, buffer, offset, size)
    case Nothing => Parsed([], offset, false)
    case Wraps => Parsed([], offset, true)
    case Packet(words) =>
      var rest := Parse(m, buffer, offset + 4 * |words|, size);
      Parsed([Executed(0, buffer, offset, words)] + rest.packets, rest.end, rest.wraps)
  }

  lemma {:induction false} SameParse(m: Memory, m': Memory, buffer: u32, offset: u32, size: u32)
    requires buffer + size <= TWO32 && SameBytes(m, m', buffer, buffer + size)
    ensures Parse(m', buffer, offset, size) == Parse(m, buffer, offset, size)
    decreases TWO32 - offset
  {
    hide PacketAt;
    SamePacket(m, m', buffer, offset, size);
    var found := PacketAt(m, buffer, offset, size);
    if !found.Packet? {
    } else {
      SameParse(m, m', buffer, offset + 4 * |found.words|, size);
    }
  }

  // ---------------------------------------------------------------- the top level of the log

  /** The packets of `buffer` executed at depth zero, in order. */
  function TopLevel(log: seq<Executed>, buffer: u32): seq<Executed> {
    if log == [] then []
    else
      var e := log[|log| - 1];
      TopLevel(log[..|log| - 1], buffer) + if e.depth == 0 && e.buffer == buffer then [e] else []
  }

  ghost predicate DeeperFrom(log: seq<Executed>, k: nat) {
    forall i :: k <= i < |log| ==> log[i].depth > 0
  }

  lemma {:induction false} DeeperIsNotTop(log: seq<Executed>, k: nat, buffer: u32)
    requires k <= |log| && DeeperFrom(log, k)
    ensures TopLevel(log, buffer) == TopLevel(log[..k], buffer)
    decreases |log|
  {
    if k < |log| {
      var shorter := log[..|log| - 1];
      assert shorter[..k] == log[..k];
      DeeperIsNotTop(shorter, k, buffer);
    } else {
      assert log[..k] == log;
    }
  }

  lemma {:induction false} ExecuteDeeper(m: Machine, buffer: u32, offset: u32, words: seq<u32>, depth: nat)
    requires depth <= MAX_INDIRECT_DEPTH && m.fault.None?
    ensures DeeperFrom(Execute(m, buffer, offset, words, depth).log, |m.log| + 1)
    decreases MAX_INDIRECT_DEPTH - depth, 0, 0
  {
    hide Effect;
    var logged := Logged(m, buffer, offset, words, depth);
    if IsFollowed(words, depth) {
      ScanDeeper(logged, DirectMap(words[1]), 0, TargetSize(words), depth + 1);
    } else {
      EffectExtends(logged, words);
    }
  }

  lemma {:induction false} ScanDeeper(m: Machine, buffer: u32, offset: u32, size: u32, depth: nat)
    requires 0 < depth <= MAX_INDIRECT_DEPTH
    ensures DeeperFrom(Scan(m, buffer, offset, size, depth).machine.log, |m.log|)
    decreases MAX_INDIRECT_DEPTH - depth, 1, TWO32 - offset
  {
    hide Execute;
    hide PacketAt;
    var found := PacketAt(m.memory, buffer, offset, size);
    if m.fault.Some? || !found.Packet? {
    } else {
      var m1 := Execute(m, buffer, offset, found.words, depth);
      ExecuteExtends(m, buffer, offset, found.words, depth);
      assert m1.log[|m.log|] == Executed(depth, buffer, offset, found.words);
      ExecuteDeeper(m, buffer, offset, found.words, depth);
      ScanExtends(m1, buffer, offset + 4 * |found.words|, size, depth);
      ScanDeeper(m1, buffer, offset + 4 * |found.words|, size, depth);
    }
  }

  lemma ExecuteTop(m: Machine, buffer: u32, offset: u32, words: seq<u32>, top: u32)
    requires m.fault.None?
    ensures TopLevel(Execute(m, buffer, offset, words, 0).log, top)
         == TopLevel(m.log, top) + if buffer == top then [Executed(0, buffer, offset, words)] else []
  {
    hide Execute;
    var log, logged := Execute(m, buffer, offset, words, 0).log, Logged(m, buffer, offset, words, 0).log;
    ExecuteExtends(m, buffer, offset, words, 0);
    ExecuteDeeper(m, buffer, offset, words, 0);
    DeeperIsNotTop(log, |logged|, top);
    assert log[..|logged|] == logged;
    assert logged[..|m.log|] == m.log;
  }

  /** Executing one packet of a scan that stores nothing into [lo, hi): what is left to scan stores nothing there. */
  lemma FirstPacketMisses(m: Machine, buffer: u32, offset: u32, size: u32, words: seq<u32>, lo: int, hi: int)
    requires m.fault.None? && PacketAt(m.memory, buffer, offset, size) == Packet(words)
    requires MissFrom(Scan(m, buffer, offset, size, 0).machine.log, |m.log|, lo, hi)
    ensures var m1 := Execute(m, buffer, offset, words, 0);
      && Scan(m, buffer, offset, size, 0) == Scan(m1, buffer, offset + 4 * |words|, size, 0)
      && MissFrom(Scan(m1, buffer, offset + 4 * |words|, size, 0).machine.log, |m1.log|, lo, hi)
      && SameBytes(m.memory, m1.memory, lo, hi)
  {
    hide Execute;
    hide PacketAt;
    hide Misses;
    hide SameBytes;
    var m1 := Execute(m, buffer, offset, words, 0);
    ExecuteExtends(m, buffer, offset, words, 0);
    ScanExtends(m1, buffer, offset + 4 * |words|, size, 0);
    ExecuteKeepsBytes(m, buffer, offset, words, 0, lo, hi);
  }

  lemma JoinThree(a: seq<Executed>, b: seq<Executed>, c: seq<Executed>)
    ensures a + b + c == a + (b + c)
  {
  }

  /**
   * A scan whose packets store nothing into its own buffer executes, at the top level, exactly the packets a plain
   * parse of that buffer finds, once each and in order, and ends where the parse ends.
   */
  lemma {:induction false} ScanIsParse(m: Machine, buffer: u32, offset: u32, size: u32)
    requires buffer + size <= TWO32
    requires Scan(m, buffer, offset, size, 0).machine.fault.None?
    requires MissFrom(Scan(m, buffer, offset, size, 0).machine.log, |m.log|, buffer, buffer + size)
    ensures var r, p := Scan(m, buffer, offset, size, 0), Parse(m.memory, buffer, offset, size);
      && TopLevel(r.machine.log, buffer) == TopLevel(m.log, buffer) + p.packets
      && r.offset == p.end && !p.wraps
    decreases TWO32 - offset
  {
    hide Execute;
    hide PacketAt;
    hide MissFrom;
    hide SameBytes;
    hide TopLevel;
    ScanExtends(m, buffer, offset, size, 0);
    var found := PacketAt(m.memory, buffer, offset, size);
    if !found.Packet? {
    } else {
      var m1, next := Execute(m, buffer, offset, found.words, 0), offset + 4 * |found.words|;
      FirstPacketMisses(m, buffer, offset, size, found.words, buffer, buffer + size);
      SameParse(m.memory, m1.memory, buffer, next, size);
      ScanIsParse(m1, buffer, next, size);
      ExecuteTop(m, buffer, offset, found.words, buffer);
      JoinThree(TopLevel(m.log, buffer), [Executed(0, buffer, offset, found.words)],
                Parse(m.memory, buffer, next, size).packets);
    }
  }

  /** A scan of one buffer leaves no top-level trace in another. */
  lemma {:induction false} OtherBufferQuiet(m: Machine, buffer: u32, offset: u32, size: u32, top: u32)
    requires buffer != top
    ensures TopLevel(Scan(m, buffer, offset, size, 0).machine.log, top) == TopLevel(m.log, top)
    decreases TWO32 - offset
  {
    hide Execute;
    hide PacketAt;
    var found := PacketAt(m.memory, buffer, offset, size);
    if m.fault.Some? || !found.Packet? {
    } else {
      ExecuteTop(m, buffer, offset, found.words, top);
      OtherBufferQuiet(Execute(m, buffer, offset, found.words, 0), buffer, offset + 4 * |found.words|, size, top);
    }
  }
}
