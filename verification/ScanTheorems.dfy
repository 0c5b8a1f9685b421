/** What holds of every scan, whatever the memory: packets may overwrite the buffers they are read from. */
module ScanTheorems {
  import opened Words
  import opened GuestMemory
  import opened GpuState
  import opened DrawList
  import opened DrawResolve
  import opened ShaderCache
  import opened GpuTrace

  // ---------------------------------------------------------------- resumption

  /** A larger bound finds the same packet; only the end of the packets can turn into something else. */
  lemma FoundAgain(m: Memory, buffer: u32, offset: u32, size1: u32, size2: u32)
    requires size1 <= size2
    ensures PacketAt(m, buffer, offset, size1) in {Nothing, PacketAt(m, buffer, offset, size2)}
  {
    hide LengthOf;
    hide TypeOf;
  }

  /**
   * Stopping at one bound and resuming from the offset reached is the same as scanning to the larger bound at once:
   * the same machine, the same offset, whether the first scan ended at its bound, at a truncated packet or anywhere.
   */
  lemma {:induction false} ScanResumes(m: Machine, buffer: u32, offset: u32, size1: u32, size2: u32, depth: nat)
    requires size1 <= size2 && depth <= MAX_INDIRECT_DEPTH
    ensures var first := Scan(m, buffer, offset, size1, depth);
      Scan(first.machine, buffer, first.offset, size2, depth) == Scan(m, buffer, offset, size2, depth)
    decreases TWO32 - offset
  {
    hide Execute;
    hide PacketAt;
    if m.fault.Some? {
    } else {
      FoundAgain(m.memory, buffer, offset, size1, size2);
      var found := PacketAt(m.memory, buffer, offset, size1);
      if found.Packet? {
        ScanResumes(Execute(m, buffer, offset, found.words, depth), buffer, offset + 4 * |found.words|, size1, size2,
                    depth);
      }
    }
  }

  // ---------------------------------------------------------------- progress

  /** The offset returned lies between the start and the bound, whole dwords on from the start. */
  lemma {:induction false} ScanStaysInside(m: Machine, buffer: u32, offset: u32, size: u32, depth: nat)
    requires depth <= MAX_INDIRECT_DEPTH
    ensures var end := Scan(m, buffer, offset, size, depth).offset;
      offset <= end <= (if offset < size then size else offset) && (end - offset) % 4 == 0
    decreases TWO32 - offset
  {
    hide Execute;
    hide PacketAt;
    if m.fault.Some? {
    } else {
      var found := PacketAt(m.memory, buffer, offset, size);
      if found.Packet? {
        ScanStaysInside(Execute(m, buffer, offset, found.words, depth), buffer, offset + 4 * |found.words|, size,
                        depth);
      }
    }
  }

  /** What one packet or one scan leaves behind: the records only grow, the interrupt settings stay. */
  ghost predicate Extends(m: Machine, m': Machine) {
    && m.log <= m'.log && m.draws <= m'.draws && m.interrupts <= m'.interrupts
    && m'.vblank == m.vblank && m'.callback == m.callback && m'.context == m.context
    && (m.fault.Some? ==> m'.fault == m.fault)
  }

  lemma EffectExtends(m: Machine, words: seq<u32>)
    ensures Extends(m, Effect(m, words)) || m.fault.Some?
    ensures Effect(m, words).log == m.log
  {
    hide ResolveDraw;
    hide Load;
  }

  lemma {:induction false} ExecuteExtends(m: Machine, buffer: u32, offset: u32, words: seq<u32>, depth: nat)
    requires depth <= MAX_INDIRECT_DEPTH && m.fault.None?
    ensures Extends(m, Execute(m, buffer, offset, words, depth))
    ensures Logged(m, buffer, offset, words, depth).log <= Execute(m, buffer, offset, words, depth).log
    decreases MAX_INDIRECT_DEPTH - depth, 0, 0
  {
    hide Effect;
    var logged := Logged(m, buffer, offset, words, depth);
    if IsFollowed(words, depth) {
      ScanExtends(logged, DirectMap(words[1]), 0, TargetSize(words), depth + 1);
    } else {
      EffectExtends(logged, words);
    }
  }

  lemma {:induction false} ScanExtends(m: Machine, buffer: u32, offset: u32, size: u32, depth: nat)
    requires depth <= MAX_INDIRECT_DEPTH
    ensures Extends(m, Scan(m, buffer, offset, size, depth).machine)
    decreases MAX_INDIRECT_DEPTH - depth, 1, TWO32 - offset
  {
    hide Execute;
    if m.fault.Some? {
    } else {
      var found := PacketAt(m.memory, buffer, offset, size);
      if found.Packet? {
        ExecuteExtends(m, buffer, offset, found.words, depth);
        ScanExtends(Execute(m, buffer, offset, found.words, depth), buffer, offset + 4 * |found.words|, size, depth);
      }
    }
  }

  // ---------------------------------------------------------------- the 32-bit offset

  const WRAP_FREE_SIZE := 0xFFFF_0000

  /** No packet, whatever the memory holds, makes an offset sum of a buffer of this size wrap. */
  ghost predicate NeverWraps(size: u32) {
    forall m: Memory, buffer: u32, offset: u32 :: offset % 4 == 0 && offset <= size ==>
      PacketAt(m, buffer, offset, size) != Wraps
  }

  /** A memory that makes a large buffer wrap: one no-op packet of the greatest length in its last dword. */
  function WrappingMemory(size: u32): Memory {
    StoreU32(map[], Add32(0, size - 4), 0xFFFF_0000)
  }

  /** For buffers of whole dwords the bound is exact, and a sum that wraps takes the source's offset backwards. */
  lemma NeverWrapsExactly(size: u32)
    requires size % 4 == 0
    ensures NeverWraps(size) <==> size < WRAP_FREE_SIZE
    ensures size >= WRAP_FREE_SIZE ==>
      && PacketAt(WrappingMemory(size), 0, size - 4, size) == Wraps
      && Add32(size - 4, 4 * LengthOf(0xFFFF_0000)) < size - 4
  {
    if size >= WRAP_FREE_SIZE {
      StoreThenLoad(map[], size - 4, 0xFFFF_0000, size - 4);
      assert Add32(0, size - 4) == size - 4;
      assert LoadU32(WrappingMemory(size), Add32(0, size - 4)) == 0xFFFF_0000;
      assert PacketAt(WrappingMemory(size), 0, size - 4, size) == Wraps;
    }
  }

  /** Every indirect buffer followed from entry `k` of the log on is small enough. */
  ghost predicate FollowsFit(log: seq<Executed>, k: nat, bytes: nat) {
    forall i :: k <= i < |log| && IsFollowed(log[i].words, log[i].depth) ==> TargetSize(log[i].words) <= bytes
  }

  /** With every buffer below the bound, no scan ends in a wrap. */
  lemma {:induction false} ScanNeverWraps(m: Machine, buffer: u32, offset: u32, size: u32, depth: nat)
    requires depth <= MAX_INDIRECT_DEPTH && m.fault.None?
    requires offset % 4 == 0 && offset <= size < WRAP_FREE_SIZE && size % 4 == 0
    requires FollowsFit(Scan(m, buffer, offset, size, depth).machine.log, |m.log|, WRAP_FREE_SIZE - 1)
    ensures Scan(m, buffer, offset, size, depth).machine.fault != Some(OffsetWrap)
    decreases MAX_INDIRECT_DEPTH - depth, TWO32 - offset
  {
    hide Execute;
    hide PacketAt;
    NeverWrapsExactly(size);
    var found := PacketAt(m.memory, buffer, offset, size);
    if !found.Packet? {
    } else {
      var m1 := Execute(m, buffer, offset, found.words, depth);
      ExecuteExtends(m, buffer, offset, found.words, depth);
      ScanExtends(m1, buffer, offset + 4 * |found.words|, size, depth);
      ExecuteNeverWraps(m, buffer, offset, found.words, depth);
      if m1.fault.None? {
        ScanNeverWraps(m1, buffer, offset + 4 * |found.words|, size, depth);
      }
    }
  }

  lemma {:induction false} ExecuteNeverWraps(m: Machine, buffer: u32, offset: u32, words: seq<u32>, depth: nat)
    requires depth <= MAX_INDIRECT_DEPTH && m.fault.None?
    requires FollowsFit(Execute(m, buffer, offset, words, depth).log, |m.log|, WRAP_FREE_SIZE - 1)
    ensures Execute(m, buffer, offset, words, depth).fault != Some(OffsetWrap)
    decreases MAX_INDIRECT_DEPTH - depth, 0
  {
    hide Effect;
    var logged := Logged(m, buffer, offset, words, depth);
    if IsFollowed(words, depth) {
      ScanExtends(logged, DirectMap(words[1]), 0, TargetSize(words), depth + 1);
      assert Execute(m, buffer, offset, words, depth).log[|m.log|] == Executed(depth, buffer, offset, words);
      ScanNeverWraps(logged, DirectMap(words[1]), 0, TargetSize(words), depth + 1);
    } else {
      EffectFault(logged, words);
    }
  }

  lemma EffectFault(m: Machine, words: seq<u32>)
    requires m.fault.None?
    ensures Effect(m, words).fault in {None, Some(RecordTooShort)}
  {
    hide ResolveDraw;
    hide Load;
  }

  // ---------------------------------------------------------------- work

  /** An upper bound on the packets executed at one depth and below, every buffer holding at most `n` dwords. */
  function Work(n: nat, depth: nat): nat
    requires depth <= MAX_INDIRECT_DEPTH
    decreases MAX_INDIRECT_DEPTH - depth
  {
    if depth == MAX_INDIRECT_DEPTH then n else n + n / 3 * Work(n, depth + 1)
  }

  /** The same with `left` dwords of the buffer still to be scanned: a followed packet takes three of them. */
  function WorkFor(n: nat, depth: nat, left: nat): nat
    requires depth <= MAX_INDIRECT_DEPTH
  {
    if depth == MAX_INDIRECT_DEPTH then left else left + left / 3 * Work(n, depth + 1)
  }

  lemma ShrinkingWork(n: nat, depth: nat, left: nat, used: nat)
    requires depth <= MAX_INDIRECT_DEPTH && 1 <= used <= left
    ensures 1 + WorkFor(n, depth, left - used) <= WorkFor(n, depth, left)
    ensures used >= 3 && depth < MAX_INDIRECT_DEPTH ==>
              1 + Work(n, depth + 1) + WorkFor(n, depth, left - used) <= WorkFor(n, depth, left)
  {
    hide Work;
    if depth < MAX_INDIRECT_DEPTH {
      var w := Work(n, depth + 1);
      var few, many := (left - used) / 3, left / 3;
      assert many * w == few * w + (many - few) * w;
      if used >= 3 {
        MulMore(many - few, w);
      }
    }
  }

  lemma MulMore(k: nat, w: nat)
    requires k >= 1
    ensures k * w >= w
  {
    assert k * w == w + (k - 1) * w;
  }

  lemma MulMonotone(k: nat, k': nat, w: nat)
    requires k <= k'
    ensures k * w <= k' * w
  {
    assert k' * w == k * w + (k' - k) * w;
  }

  function Left(offset: nat, size: nat): nat {
    if offset < size then (size - offset) / 4 else 0
  }

  /**
   * Cyclic chains of indirect buffers and buffers that rewrite themselves included, a scan executes no more than
   * `Work` packets: the depth limit and the buffer sizes bound it.
   */
  lemma {:induction false} ScanWork(m: Machine, buffer: u32, offset: u32, size: u32, depth: nat, n: nat)
    requires depth <= MAX_INDIRECT_DEPTH && m.fault.None?
    requires FollowsFit(Scan(m, buffer, offset, size, depth).machine.log, |m.log|, 4 * n)
    ensures |Scan(m, buffer, offset, size, depth).machine.log| <= |m.log| + WorkFor(n, depth, Left(offset, size))
    decreases MAX_INDIRECT_DEPTH - depth, 1, TWO32 - offset
  {
    hide Execute;
    hide PacketAt;
    hide WorkFor;
    var found := PacketAt(m.memory, buffer, offset, size);
    if !found.Packet? {
    } else {
      var m1 := Execute(m, buffer, offset, found.words, depth);
      var next := offset + 4 * |found.words|;
      ExecuteExtends(m, buffer, offset, found.words, depth);
      ScanExtends(m1, buffer, next, size, depth);
      ExecuteWork(m, buffer, offset, found.words, depth, n);
      ShrinkingWork(n, depth, Left(offset, size), |found.words|);
      assert Left(next, size) == Left(offset, size) - |found.words|;
      if m1.fault.None? {
        ScanWork(m1, buffer, next, size, depth, n);
      }
    }
  }

  lemma {:induction false} ExecuteWork(m: Machine, buffer: u32, offset: u32, words: seq<u32>, depth: nat, n: nat)
    requires depth <= MAX_INDIRECT_DEPTH && m.fault.None?
    requires FollowsFit(Execute(m, buffer, offset, words, depth).log, |m.log|, 4 * n)
    ensures |Execute(m, buffer, offset, words, depth).log| <= |m.log| + 1
              + if IsFollowed(words, depth) then Work(n, depth + 1) else 0
    decreases MAX_INDIRECT_DEPTH - depth, 0, 0
  {
    hide Effect;
    var logged := Logged(m, buffer, offset, words, depth);
    if IsFollowed(words, depth) {
      ScanExtends(logged, DirectMap(words[1]), 0, TargetSize(words), depth + 1);
      assert Execute(m, buffer, offset, words, depth).log[|m.log|] == Executed(depth, buffer, offset, words);
      ScanWork(logged, DirectMap(words[1]), 0, TargetSize(words), depth + 1, n);
      MoreDwordsMoreWork(n, depth + 1, Left(0, TargetSize(words)), n);
    } else {
      EffectExtends(logged, words);
    }
  }

  lemma MoreDwordsMoreWork(n: nat, depth: nat, left: nat, left': nat)
    requires depth <= MAX_INDIRECT_DEPTH && left <= left'
    ensures WorkFor(n, depth, left) <= WorkFor(n, depth, left')
  {
    if depth < MAX_INDIRECT_DEPTH {
      MulMonotone(left / 3, left' / 3, Work(n, depth + 1));
    }
  }

  /** With every buffer at most `n` dwords: T(3) = n and T(d) = n + n / 3 * T(d + 1) bound the packets executed. */
  lemma ScanWorkBound(m: Machine, buffer: u32, offset: u32, size: u32, depth: nat, n: nat)
    requires depth <= MAX_INDIRECT_DEPTH && m.fault.None? && size <= 4 * n
    requires FollowsFit(Scan(m, buffer, offset, size, depth).machine.log, |m.log|, 4 * n)
    ensures |Scan(m, buffer, offset, size, depth).machine.log| <= |m.log| + Work(n, depth)
  {
    hide Scan;
    ScanWork(m, buffer, offset, size, depth, n);
    MoreDwordsMoreWork(n, depth, Left(offset, size), n);
  }

  // ---------------------------------------------------------------- draws

  ghost predicate AllGood(draws: Batch) {
    forall i :: 0 <= i < |draws| ==> GoodCommand(draws[i])
  }

  lemma EffectDrawsGood(m: Machine, words: seq<u32>)
    requires AllGood(m.draws)
    ensures AllGood(Effect(m, words).draws)
  {
    hide GoodCommand;
    DrawIsGood(m.memory, RegistersAfter(m.regs, words), m.cache.vertex.result, words);
    hide ResolveDraw;
    hide Load;
    hide RegistersAfter;
  }

  lemma {:induction false} ExecuteDrawsGood(m: Machine, buffer: u32, offset: u32, words: seq<u32>, depth: nat)
    requires depth <= MAX_INDIRECT_DEPTH && AllGood(m.draws)
    ensures AllGood(Execute(m, buffer, offset, words, depth).draws)
    decreases MAX_INDIRECT_DEPTH - depth, 0, 0
  {
    hide Effect;
    hide AllGood;
    var logged := Logged(m, buffer, offset, words, depth);
    if IsFollowed(words, depth) {
      ScanDrawsGood(logged, DirectMap(words[1]), 0, TargetSize(words), depth + 1);
    } else {
      EffectDrawsGood(logged, words);
    }
  }

  /** Every command a scan adds, at any depth, can be drawn without reading past its own data. */
  lemma {:induction false} ScanDrawsGood(m: Machine, buffer: u32, offset: u32, size: u32, depth: nat)
    requires depth <= MAX_INDIRECT_DEPTH && AllGood(m.draws)
    ensures AllGood(Scan(m, buffer, offset, size, depth).machine.draws)
    decreases MAX_INDIRECT_DEPTH - depth, 1, TWO32 - offset
  {
    hide Execute;
    hide AllGood;
    hide PacketAt;
    var found := PacketAt(m.memory, buffer, offset, size);
    if m.fault.Some? || !found.Packet? {
    } else {
      ExecuteDrawsGood(m, buffer, offset, found.words, depth);
      ScanDrawsGood(Execute(m, buffer, offset, found.words, depth), buffer, offset + 4 * |found.words|, size, depth);
    }
  }
}
