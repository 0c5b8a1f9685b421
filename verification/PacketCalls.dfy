/**
 * Command lists that call other lists through indirect buffers, to any shape: scanning the outermost buffer is the
 * lists' meanings in order. And the packets that do nothing.
 */
module PacketCalls {
  import opened Words
  import opened GuestMemory
  import opened GpuState
  import opened DrawResolve
  import opened ShaderCache
  import opened GpuTrace
  import opened PacketRoundTrip

  type Packable = c: Command | Encodable(c) witness Filler(0)

  /** A command, or a call of another list, which lies at a physical address. */
  datatype Step = Do(c: Packable) | Call(address: u32, body: seq<Step>)

  function WordsOfStep(s: Step): (ws: seq<u32>)
    ensures |ws| >= 1
    decreases s, 1
  {
    match s
    case Do(c) => WordsOf(c)
    case Call(address, body) => [Type3Header(0x3F, 2), address, |LaidSteps(body)| % TWO32]
  }

  function LaidSteps(ss: seq<Step>): seq<u32>
    decreases ss, 0
  {
    if ss == [] then [] else WordsOfStep(ss[0]) + LaidSteps(ss[1..])
  }

  /** Calls are followed three levels down. */
  predicate Followed(s: Step, depth: nat) {
    s.Call? && depth < 3
  }

  /** What a list means at its depth: each packet logged where it lies, a call the meaning of the list it names. */
  function Meant(m: Machine, buffer: u32, offset: nat, depth: nat, ss: seq<Step>): Machine
    decreases ss, 0
  {
    if ss == [] then m
    else Meant(MeantOne(m, buffer, offset, depth, ss[0]), buffer, offset + 4 * |WordsOfStep(ss[0])|, depth, ss[1..])
  }

  function MeantOne(m: Machine, buffer: u32, offset: nat, depth: nat, s: Step): Machine
    decreases s, 1
  {
    var logged := Logged(m, buffer, offset % TWO32, WordsOfStep(s), depth);
    match s
    case Do(c) => Meaning(logged, c)
    case Call(address, body) => if depth < 3 then Meant(logged, DirectMap(address), 0, depth + 1, body) else logged
  }

  /** Where the list and everything it calls stores. */
  function Targets(ss: seq<Step>): set<int>
    decreases ss, 0
  {
    if ss == [] then {} else TargetsOne(ss[0]) + Targets(ss[1..])
  }

  function TargetsOne(s: Step): set<int>
    decreases s, 1
  {
    match s
    case Do(c) => if c.StoreShared? then {Target(c)} else {}
    case Call(_, body) => Targets(body)
  }

  /** The list lies at `at`, what it calls lies where its calls say, and nothing in `stores` hits any of it. */
  ghost predicate Stands(m: Memory, at: nat, depth: nat, ss: seq<Step>, stores: set<int>)
    decreases ss
  {
    && at + 4 * |LaidSteps(ss)| < TWO32 - 4
    && ReadWords(m, at, |LaidSteps(ss)|) == LaidSteps(ss)
    && (forall t :: t in stores ==> t + 4 <= at || at + 4 * |LaidSteps(ss)| <= t)
    && forall i :: 0 <= i < |ss| && Followed(ss[i], depth) ==>
         Stands(m, DirectMap(ss[i].address), depth + 1, ss[i].body, stores)
  }

  /** Two memories differ only where a store of `stores` went. */
  ghost predicate DifferOnly(m: Memory, m': Memory, stores: set<int>) {
    forall x :: ByteAt(m, x) != ByteAt(m', x) ==> exists t :: t in stores && t <= x < t + 4
  }

  lemma DifferChain(m: Memory, m': Memory, m'': Memory, a: set<int>, b: set<int>)
    requires DifferOnly(m, m', a) && DifferOnly(m', m'', b)
    ensures DifferOnly(m, m'', a + b)
  {
    forall x | ByteAt(m, x) != ByteAt(m'', x) ensures exists t :: t in a + b && t <= x < t + 4 {
      if ByteAt(m, x) != ByteAt(m', x) {
        var t :| t in a && t <= x < t + 4;
        assert t in a + b;
      } else {
        var t :| t in b && t <= x < t + 4;
        assert t in a + b;
      }
    }
  }

  lemma MeaningDiffers(m: Machine, c: Packable)
    ensures DifferOnly(m.memory, Meaning(m, c).memory, TargetsOne(Do(c))) && Meaning(m, c).fault == m.fault
  {
    if c.StoreShared? {
      var v := if c.initiator / 0x8000_0000 == 1 then m.vblank else c.value;
      forall x | !(Target(c) <= x < Target(c) + 4)
        ensures ByteAt(m.memory, x) == ByteAt(StoreU32(m.memory, Target(c), v), x)
      {
      }
      assert Target(c) in TargetsOne(Do(c));
    }
  }

  lemma {:induction false} MeantDiffers(m: Machine, buffer: u32, offset: nat, depth: nat, ss: seq<Step>)
    ensures var after := Meant(m, buffer, offset, depth, ss);
      DifferOnly(m.memory, after.memory, Targets(ss)) && after.fault == m.fault
    decreases ss, 0
  {
    hide DifferOnly;
    hide Meaning;
    if ss == [] {
      Unchanged(m.memory);
    } else {
      var m1 := MeantOne(m, buffer, offset, depth, ss[0]);
      MeantOneDiffers(m, buffer, offset, depth, ss[0]);
      MeantDiffers(m1, buffer, offset + 4 * |WordsOfStep(ss[0])|, depth, ss[1..]);
      DifferChain(m.memory, m1.memory, Meant(m, buffer, offset, depth, ss).memory, TargetsOne(ss[0]), Targets(ss[1..]));
    }
  }

  lemma Unchanged(m: Memory)
    ensures forall stores :: DifferOnly(m, m, stores)
  {
  }

  lemma {:induction false} MeantOneDiffers(m: Machine, buffer: u32, offset: nat, depth: nat, s: Step)
    ensures var after := MeantOne(m, buffer, offset, depth, s);
      DifferOnly(m.memory, after.memory, TargetsOne(s)) && after.fault == m.fault
    decreases s, 1
  {
    hide DifferOnly;
    hide Meaning;
    var logged := Logged(m, buffer, offset % TWO32, WordsOfStep(s), depth);
    match s
    case Do(c) => MeaningDiffers(logged, c);
    case Call(address, body) =>
      Unchanged(m.memory);
      if depth < 3 {
        MeantDiffers(logged, DirectMap(address), 0, depth + 1, body);
      }
  }

  lemma RangeMissed(m: Memory, m': Memory, stores: set<int>, lo: int, hi: int)
    requires DifferOnly(m, m', stores) && forall t :: t in stores ==> t + 4 <= lo || hi <= t
    ensures SameBytes(m, m', lo, hi)
  {
  }

  /** What stands keeps standing when only its own stores happen. */
  lemma {:induction false} StandsOn(m: Memory, m': Memory, at: nat, depth: nat, ss: seq<Step>, stores: set<int>)
    requires Stands(m, at, depth, ss, stores) && DifferOnly(m, m', stores)
    ensures Stands(m', at, depth, ss, stores)
    decreases ss
  {
    hide LaidSteps;
    hide ReadWords;
    var n := |LaidSteps(ss)|;
    RangeMissed(m, m', stores, at, at + 4 * n);
    SameBytesSameWords(m, m', at, at + 4 * n, at, n);
    forall i | 0 <= i < |ss| && Followed(ss[i], depth)
      ensures Stands(m', DirectMap(ss[i].address), depth + 1, ss[i].body, stores)
    {
      StandsOn(m, m', DirectMap(ss[i].address), depth + 1, ss[i].body, stores);
    }
  }

  /** The rest of a list stands behind its first step. */
  lemma RestStands(m: Memory, at: nat, depth: nat, ss: seq<Step>, stores: set<int>)
    requires ss != [] && Stands(m, at, depth, ss, stores)
    ensures ReadWords(m, at, |WordsOfStep(ss[0])|) == WordsOfStep(ss[0])
    ensures Stands(m, at + 4 * |WordsOfStep(ss[0])|, depth, ss[1..], stores)
  {
    hide WordsOfStep;
    hide ReadWords;
    ReadPart(m, at, WordsOfStep(ss[0]), LaidSteps(ss[1..]));
    forall i | 0 <= i < |ss[1..]| && Followed(ss[1..][i], depth)
      ensures Stands(m, DirectMap(ss[1..][i].address), depth + 1, ss[1..][i].body, stores)
    {
      assert ss[1..][i] == ss[i + 1];
    }
  }

  // ---------------------------------------------------------------- scanning

  /** A call packet in memory, found by the scanner. */
  lemma CallFound(m: Memory, buffer: u32, offset: u32, size: u32, words: seq<u32>)
    requires |words| == 3 && words[0] == Type3Header(0x3F, 2)
    requires buffer + size < TWO32 && offset + 12 <= size && ReadWords(m, buffer + offset, 3) == words
    ensures PacketAt(m, buffer, offset, size) == Packet(words)
    ensures IsType3(words, 0x3F)
  {
    Type3Fields(0x3F, 2);
    assert Add32(buffer, offset) == buffer + offset;
    assert ReadWords(m, buffer + offset, 3)[0] == LoadU32(m, Add32(buffer + offset, 0));
  }

  /** Three levels down a call is only logged. */
  lemma CallIgnored(m: Machine, words: seq<u32>)
    requires IsType3(words, 0x3F) && |words| == 3
    ensures Effect(m, words) == m
  {
    hide ResolveDraw;
    hide Load;
  }

  lemma CallFields(s: Step, m: Memory, depth: nat, stores: set<int>)
    requires s.Call? && (depth < 3 ==> Stands(m, DirectMap(s.address), depth + 1, s.body, stores))
    ensures var words := WordsOfStep(s);
      |words| == 3 && words[1] == s.address && (depth < 3 ==> TargetSize(words) == 4 * |LaidSteps(s.body)|)
  {
    hide LaidSteps;
    if depth < 3 {
      BodySize(m, DirectMap(s.address), depth + 1, s.body, stores);
    }
  }

  lemma {:induction false} BodyScanned(m: Machine, target: u32, depth: nat, body: seq<Step>, stores: set<int>)
    requires depth <= MAX_INDIRECT_DEPTH && m.fault.None? && Targets(body) <= stores
    requires Stands(m.memory, target, depth, body, stores)
    ensures 4 * |LaidSteps(body)| < TWO32
    ensures Scan(m, target, 0, 4 * |LaidSteps(body)|, depth).machine == Meant(m, target, 0, depth, body)
    decreases body, 1
  {
    hide Stands;
    hide Scan;
    hide LaidSteps;
    hide Meant;
    BodySize(m.memory, target, depth, body, stores);
    ScanSteps(m, target, 0, 4 * |LaidSteps(body)|, depth, body, stores);
    NothingBehind(Meant(m, target, 0, depth, body), target, 4 * |LaidSteps(body)|, depth);
  }

  /** Executing a call is its meaning. */
  lemma {:induction false} ExecuteCall(m: Machine, buffer: u32, offset: u32, depth: nat, s: Step, stores: set<int>)
    requires depth <= MAX_INDIRECT_DEPTH && m.fault.None? && s.Call? && Targets(s.body) <= stores
    requires IsType3(WordsOfStep(s), 0x3F)
    requires depth < 3 ==> Stands(m.memory, DirectMap(s.address), depth + 1, s.body, stores)
    ensures Execute(m, buffer, offset, WordsOfStep(s), depth) == MeantOne(m, buffer, offset, depth, s)
    decreases s, 1
  {
    hide Stands;
    hide Scan;
    hide Effect;
    hide LaidSteps;
    hide Meant;
    hide WordsOfStep;
    hide IsType3;
    hide TargetSize;
    var words := WordsOfStep(s);
    var logged := Logged(m, buffer, offset, words, depth);
    CallFields(s, m.memory, depth, stores);
    if depth < 3 {
      BodyScanned(logged, DirectMap(s.address), depth + 1, s.body, stores);
    } else {
      CallIgnored(logged, words);
    }
  }

  lemma PacketExecuted(m: Machine, buffer: u32, offset: u32, size: u32, depth: nat, words: seq<u32>)
    requires depth <= MAX_INDIRECT_DEPTH && m.fault.None? && PacketAt(m.memory, buffer, offset, size) == Packet(words)
    ensures offset + 4 * |words| < TWO32
    ensures Scan(m, buffer, offset, size, depth)
         == Scan(Execute(m, buffer, offset, words, depth), buffer, offset + 4 * |words|, size, depth)
  {
    hide PacketAt;
    hide Execute;
  }

  lemma CallWords(s: Step)
    requires s.Call?
    ensures |WordsOfStep(s)| == 3 && WordsOfStep(s)[0] == Type3Header(0x3F, 2) && TargetsOne(s) == Targets(s.body)
  {
  }

  lemma {:induction false} ScanStep(m: Machine, buffer: u32, offset: u32, size: u32, depth: nat, s: Step,
                                    stores: set<int>)
    requires depth <= MAX_INDIRECT_DEPTH && m.fault.None? && TargetsOne(s) <= stores
    requires buffer + size < TWO32 && offset + 4 * |WordsOfStep(s)| <= size
    requires ReadWords(m.memory, buffer + offset, |WordsOfStep(s)|) == WordsOfStep(s)
    requires Followed(s, depth) ==> Stands(m.memory, DirectMap(s.address), depth + 1, s.body, stores)
    ensures Scan(m, buffer, offset, size, depth)
         == Scan(MeantOne(m, buffer, offset, depth, s), buffer, offset + 4 * |WordsOfStep(s)|, size, depth)
    decreases s, 2
  {
    hide Stands;
    hide Scan;
    hide Meaning;
    if s.Do? {
      ScanOne(m, buffer, offset, size, depth, s.c);
    } else {
      hide WordsOfStep;
      hide MeantOne;
      hide TargetsOne;
      CallWords(s);
      CallFound(m.memory, buffer, offset, size, WordsOfStep(s));
      ExecuteCall(m, buffer, offset, depth, s, stores);
      PacketExecuted(m, buffer, offset, size, depth, WordsOfStep(s));
    }
  }

  lemma BodySize(m: Memory, at: nat, depth: nat, body: seq<Step>, stores: set<int>)
    requires Stands(m, at, depth, body, stores)
    ensures at + 4 * |LaidSteps(body)| < TWO32 - 4
  {
  }

  lemma NothingBehind(m: Machine, buffer: u32, size: u32, depth: nat)
    requires depth <= MAX_INDIRECT_DEPTH && size < TWO32 - 4
    ensures Scan(m, buffer, size, size, depth) == Scanned(m, size)
  {
  }

  /**
   * Call round trip: a list and everything it calls, lying where its own stores do not hit it, is consumed packet by
   * packet with exactly its meaning: calls are followed through the direct-mapped segment three levels down and only
   * logged below that, and the scan goes on behind the list.
   */
  lemma {:induction false} ScanSteps(m: Machine, buffer: u32, offset: u32, size: u32, depth: nat, ss: seq<Step>,
                                     stores: set<int>)
    requires depth <= MAX_INDIRECT_DEPTH && m.fault.None? && Targets(ss) <= stores
    requires buffer + size < TWO32 && offset + 4 * |LaidSteps(ss)| <= size
    requires Stands(m.memory, buffer + offset, depth, ss, stores)
    ensures Scan(m, buffer, offset, size, depth)
         == Scan(Meant(m, buffer, offset, depth, ss), buffer, offset + 4 * |LaidSteps(ss)|, size, depth)
    decreases ss, 0
  {
    hide Stands;
    hide Scan;
    hide WordsOfStep;
    hide MeantOne;
    hide TargetsOne;
    if ss == [] {
    } else {
      var s, k := ss[0], 4 * |WordsOfStep(ss[0])|;
      var m1 := MeantOne(m, buffer, offset, depth, s);
      RestStands(m.memory, buffer + offset, depth, ss, stores);
      FirstStands(m.memory, buffer + offset, depth, ss, stores);
      ScanStep(m, buffer, offset, size, depth, s, stores);
      MeantOneDiffers(m, buffer, offset, depth, s);
      DifferMore(m.memory, m1.memory, TargetsOne(s), stores);
      StandsOn(m.memory, m1.memory, buffer + offset + k, depth, ss[1..], stores);
      ScanSteps(m1, buffer, offset + k, size, depth, ss[1..], stores);
    }
  }

  lemma FirstStands(m: Memory, at: nat, depth: nat, ss: seq<Step>, stores: set<int>)
    requires ss != [] && Stands(m, at, depth, ss, stores)
    ensures Followed(ss[0], depth) ==> Stands(m, DirectMap(ss[0].address), depth + 1, ss[0].body, stores)
  {
  }

  lemma DifferMore(m: Memory, m': Memory, some: set<int>, stores: set<int>)
    requires DifferOnly(m, m', some) && some <= stores
    ensures DifferOnly(m, m', stores)
  {
  }

  // ---------------------------------------------------------------- packets that do nothing

  /**
   * Filler, calls not followed, stores and interrupts of the wrong length, constants of an unknown bank, draws and
   * loads cut short, loads with a start, with more microcode than the packet has, or for an unknown stage, and every
   * opcode not named here.
   */
  predicate Idle(words: seq<u32>) {
    || words == []
    || words[0] / 0x4000_0000 in {1, 2}
    || |words| == 1
    || (words[0] / 0x4000_0000 == 3
        && match words[0] / 0x100 % 0x80
           case 0x54 => |words| != 2 || words[1] == 0
           case 0x58 => |words| != 4
           case 0x2D => words[1] / 0x1_0000 % 0x100 >= 5
           case 0x22 => |words| == 2
           case 0x36 => false
           case 0x2B => |words| == 2 || words[2] > |words| - 3 || words[2] >= 0x1_0000 || words[1] > 1
           case _ => true)
  }

  lemma IdleDoesNothing(m: Machine, words: seq<u32>)
    requires Idle(words)
    ensures Effect(m, words) == m
  {
    hide ResolveDraw;
    hide Load;
    hide WriteRun;
  }

  /** An interrupt with nobody to call is not recorded either. */
  lemma NobodyToInterrupt(m: Machine, cpuMask: u32)
    requires m.callback == 0
    ensures Effect(m, [Type3Header(0x54, 1), cpuMask]) == m
  {
    EffectIsMeaning(m, RaiseInterrupt(cpuMask));
  }

  // ---------------------------------------------------------------- what the scanner takes for a packet

  /** Dwords of a packet by its header: filler is one dword, others have a count of at least one behind theirs. */
  function PacketDwords(header: u32): nat {
    if 0x8000_0000 <= header < 0xC000_0000 then 1 else 2 + header / 0x1_0000 % 0x4000
  }

  /**
   * With four bytes left in a buffer too small for its offsets to wrap, the scanner finds a packet there exactly if
   * the header is neither zero nor of type 1 and the whole packet lies in the buffer, and it is the words that lie
   * there; otherwise it stops.
   */
  lemma FoundExactly(m: Memory, buffer: u32, offset: u32, size: u32)
    requires offset + 4 <= size < 0xFFFF_0000
    ensures var header := LoadU32(m, (buffer + offset) % TWO32);
      var n := PacketDwords(header);
      PacketAt(m, buffer, offset, size) ==
        if header == 0 || 0x4000_0000 <= header < 0x8000_0000 || offset + 4 * n > size then Nothing
        else Packet(seq(n, i requires 0 <= i < n => LoadU32(m, (buffer + offset + 4 * i) % TWO32)))
  {
    hide LoadU32;
    var header, at := LoadU32(m, (buffer + offset) % TWO32), (buffer + offset) % TWO32;
    var n := PacketDwords(header);
    var here := ReadWords(m, at, n);
    var there := seq(n, i requires 0 <= i < n => LoadU32(m, (buffer + offset + 4 * i) % TWO32));
    forall i | 0 <= i < n ensures here[i] == there[i] {
      assert (at + 4 * i) % TWO32 == (buffer + offset + 4 * i) % TWO32;
    }
    assert here == there;
  }

  /** A draw packet writes its initiator first and resolves against the registers as they then are. */
  lemma DrawPacket(m: Machine, words: seq<u32>)
    requires IsType3(words, 0x36)
    ensures var regs := Write(m.regs, 0x21FC, words[1]);
      Effect(m, words) == match ResolveDraw(m.memory, regs, m.cache.vertex.result, words)
                          case NoDraw => m.(regs := regs)
                          case Draw(cmd) => m.(regs := regs, draws := m.draws + [cmd])
                          case ShortRecord => m.(regs := regs, fault := Some(RecordTooShort))
  {
    hide ResolveDraw;
    hide Load;
  }
}
