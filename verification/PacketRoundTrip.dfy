/**
 * Laying abstract packets out as dwords and scanning them gives back their meaning; the block the kernel writes for
 * a frame swap is one such list.
 */
module PacketRoundTrip {
  import opened Words
  import opened GuestMemory
  import opened GpuState
  import opened DrawResolve
  import opened ShaderCache
  import opened GpuTrace

  /** Every packet but indirect buffers and DRAW_INDX_2, as its author thinks of it. */
  datatype Command =
    | RegisterRun(base: nat, oneRegister: bool, values: seq<u32>)
    | Filler(payload: nat)
    | SetConstant(bank: nat, subIndex: nat, values: seq<u32>)
    | StoreShared(initiator: u32, address: u32, value: u32)
    | RaiseInterrupt(cpuMask: u32)
    | SetInitiator(vizQuery: u32, draw: DrawInitiator)
    | LoadShader(stage: nat, microcode: seq<u32>, padding: seq<u32>)

  /** What the fields of a packet have room for, and no header that reads as padding. */
  predicate Encodable(c: Command) {
    match c
    case RegisterRun(base, oneRegister, values) =>
      base < 0x8000 && 1 <= |values| <= 0x4000 && (base != 0 || oneRegister || |values| > 1)
    case Filler(payload) => payload < 0x4000_0000
    case SetConstant(bank, subIndex, values) => bank < 0x100 && subIndex < 0x800 && |values| < 0x4000
    case SetInitiator(_, di) =>
      di.primType < 0x40 && di.sourceSelect < 4 && di.indexSize < 2 && di.numIndices < 0x1_0000
    case LoadShader(stage, microcode, padding) => stage < 2 && |microcode| + |padding| <= 0x3FFE
    case StoreShared(_, _, _) => true
    case RaiseInterrupt(_) => true
  }

  function Type3Header(opcode: nat, count: nat): u32
    requires opcode < 0x80 && 1 <= count <= 0x4000
  {
    0xC000_0000 + (count - 1) * 0x1_0000 + opcode * 0x100
  }

  function WordsOf(c: Command): (ws: seq<u32>)
    requires Encodable(c)
    ensures |ws| >= 1
  {
    match c
    case RegisterRun(base, oneRegister, values) =>
      [(|values| - 1) * 0x1_0000 + (if oneRegister then 0x8000 else 0) + base] + values
    case Filler(payload) => [0x8000_0000 + payload]
    case SetConstant(bank, subIndex, values) =>
      [Type3Header(0x2D, |values| + 1), bank * 0x1_0000 + subIndex] + values
    case StoreShared(initiator, address, value) => [Type3Header(0x58, 3), initiator, address, value]
    case RaiseInterrupt(cpuMask) => [Type3Header(0x54, 1), cpuMask]
    case SetInitiator(vizQuery, di) => [Type3Header(0x22, 2), vizQuery, PackInitiator(di)]
    case LoadShader(stage, microcode, padding) =>
      [Type3Header(0x2B, |microcode| + |padding| + 2), stage, |microcode|] + microcode + padding
  }

  function PackInitiator(di: DrawInitiator): u32
    requires di.primType < 0x40 && di.sourceSelect < 4 && di.indexSize < 2 && di.numIndices < 0x1_0000
  {
    di.primType + di.sourceSelect * 0x40 + di.indexSize * 0x800 + di.numIndices * 0x1_0000
  }

  const BANK_BASES: seq<nat> := [0x4000, 0x4800, 0x4900, 0x4908, 0x2000]

  function Target(c: Command): u32
    requires c.StoreShared?
  {
    DirectMap(c.address / 4 * 4)
  }

  /** What a command means for the machine, without looking at its encoding. */
  function Meaning(m: Machine, c: Command): Machine
    requires Encodable(c)
  {
    match c
    case RegisterRun(base, oneRegister, values) => m.(regs := WriteRun(m.regs, base, values, oneRegister))
    case Filler(_) => m
    case SetConstant(bank, subIndex, values) =>
      if bank < |BANK_BASES| then m.(regs := WriteRun(m.regs, BANK_BASES[bank] + subIndex, values, false)) else m
    case StoreShared(initiator, _, value) =>
      m.(memory := StoreU32(m.memory, Target(c), if initiator / 0x8000_0000 == 1 then m.vblank else value))
    case RaiseInterrupt(cpuMask) =>
      if cpuMask != 0 && m.callback != 0 then m.(interrupts := m.interrupts + [m.context]) else m
    case SetInitiator(_, di) => m.(regs := Write(m.regs, 0x21FC, PackInitiator(di)))
    case LoadShader(stage, microcode, _) => m.(cache := Load(m.cache, stage, microcode))
  }

  // ---------------------------------------------------------------- one packet

  /** A type 3 header whatever its unused bits hold: bit 15 and the low byte. */
  lemma HeaderFields(opcode: nat, count: nat, bit15: nat, low: nat)
    requires opcode < 0x80 && 1 <= count <= 0x4000 && bit15 < 2 && low < 0x100
    ensures var h := 0xC000_0000 + (count - 1) * 0x1_0000 + bit15 * 0x8000 + opcode * 0x100 + low;
      TypeOf(h) == 3 && CountOf(h) == count && OpcodeOf(h) == opcode
  {
    var rest := bit15 * 0x8000 + opcode * 0x100 + low;
    var h := 0xC000_0000 + (count - 1) * 0x1_0000 + rest;
    Split(h, 0x4000_0000, 3, (count - 1) * 0x1_0000 + rest);
    Split(h, 0x1_0000, 0xC000 + count - 1, rest);
    Split(0xC000 + count - 1, 0x4000, 3, count - 1);
    Split(h, 0x100, 0xC0_0000 + (count - 1) * 0x100 + bit15 * 0x80 + opcode, low);
    Split(0xC0_0000 + (count - 1) * 0x100 + bit15 * 0x80 + opcode, 0x80, 0x1_8000 + (count - 1) * 2 + bit15, opcode);
  }

  lemma Type3Fields(opcode: nat, count: nat)
    requires opcode < 0x80 && 1 <= count <= 0x4000
    ensures var h := Type3Header(opcode, count); TypeOf(h) == 3 && CountOf(h) == count && OpcodeOf(h) == opcode
  {
    HeaderFields(opcode, count, 0, 0);
  }

  lemma RunFields(base: nat, oneRegister: bool, count: nat)
    requires base < 0x8000 && 1 <= count <= 0x4000
    ensures var h := (count - 1) * 0x1_0000 + (if oneRegister then 0x8000 else 0) + base;
      TypeOf(h) == 0 && CountOf(h) == count && h % 0x8000 == base && (h / 0x8000 % 2 == 1 <==> oneRegister)
  {
    var bit := if oneRegister then 1 else 0;
    var h := (count - 1) * 0x1_0000 + bit * 0x8000 + base;
    Split(h, 0x1_0000, count - 1, bit * 0x8000 + base);
    Split(h, 0x8000, (count - 1) * 2 + bit, base);
  }

  /** The bank and index of a constant, whatever the unused bits of the word hold. */
  lemma BankFields(bank: nat, subIndex: nat, high: nat, middle: nat)
    requires bank < 0x100 && subIndex < 0x800 && high < 0x100 && middle < 0x20
    ensures ConstantBase(high * 0x100_0000 + bank * 0x1_0000 + middle * 0x800 + subIndex)
         == if bank < |BANK_BASES| then Some(subIndex + BANK_BASES[bank]) else None
  {
    var w := high * 0x100_0000 + bank * 0x1_0000 + middle * 0x800 + subIndex;
    Split(w, 0x800, high * 0x2000 + bank * 0x20 + middle, subIndex);
    Split(w, 0x1_0000, high * 0x100 + bank, middle * 0x800 + subIndex);
    Split(high * 0x100 + bank, 0x100, high, bank);
  }

  /** The header of a command is that of a whole packet of its length, and no indirect buffer. */
  lemma HeaderOf(c: Command, depth: nat)
    requires Encodable(c)
    ensures var ws := WordsOf(c); ws[0] != 0 && TypeOf(ws[0]) != 1 && LengthOf(ws[0]) == |ws| && !IsFollowed(ws, depth)
  {
    hide CountOf;
    hide OpcodeOf;
    match c
    case RegisterRun(base, oneRegister, values) => RunFields(base, oneRegister, |values|);
    case Filler(payload) => Split(0x8000_0000 + payload, 0x4000_0000, 2, payload);
    case SetConstant(_, _, values) => Type3Fields(OP_SET_CONSTANT, |values| + 1);
    case StoreShared(_, _, _) => Type3Fields(OP_EVENT_WRITE_SHD, 3);
    case RaiseInterrupt(_) => Type3Fields(OP_INTERRUPT, 1);
    case SetInitiator(_, _) => Type3Fields(OP_DRAW_INDX, 2);
    case LoadShader(_, microcode, padding) => Type3Fields(OP_IM_LOAD_IMMEDIATE, |microcode| + |padding| + 2);
  }

  lemma RegisterEffect(m: Machine, c: Command)
    requires Encodable(c) && (c.RegisterRun? || c.Filler? || c.SetConstant?)
    ensures Effect(m, WordsOf(c)) == Meaning(m, c)
  {
    hide ResolveDraw;
    hide Load;
    hide StoreU32;
    hide WriteRun;
    var ws := WordsOf(c);
    match c
    case RegisterRun(base, oneRegister, values) =>
      RunFields(base, oneRegister, |values|);
      assert ws[1..] == values;
    case Filler(payload) => Split(0x8000_0000 + payload, 0x4000_0000, 2, payload);
    case SetConstant(bank, subIndex, values) =>
      Type3Fields(OP_SET_CONSTANT, |values| + 1);
      BankFields(bank, subIndex, 0, 0);
      assert ws[2..] == values;
  }

  lemma LoadWords(c: Command)
    requires Encodable(c) && c.LoadShader?
    ensures var ws := WordsOf(c);
      IsType3(ws, OP_IM_LOAD_IMMEDIATE) && IsLoad(ws) && ws[1] == c.stage && Microcode(ws) == c.microcode
  {
    var n, ws := |c.microcode|, WordsOf(c);
    Type3Fields(OP_IM_LOAD_IMMEDIATE, n + |c.padding| + 2);
    assert ws[2] == n;
    Split(n, 0x1_0000, 0, n);
    assert ws[3..3 + n] == c.microcode;
  }

  lemma LoadEffect(m: Machine, ws: seq<u32>)
    requires IsType3(ws, OP_IM_LOAD_IMMEDIATE) && IsLoad(ws)
    ensures Effect(m, ws) == m.(cache := Load(m.cache, ws[1], Microcode(ws)))
  {
    hide ResolveDraw;
    hide Load;
    hide StoreU32;
    hide WriteRun;
  }

  /** Executing the words of a command is its meaning. */
  lemma EffectIsMeaning(m: Machine, c: Command)
    requires Encodable(c)
    ensures Effect(m, WordsOf(c)) == Meaning(m, c)
  {
    hide ResolveDraw;
    hide Load;
    hide StoreU32;
    hide WriteRun;
    match c
    case StoreShared(_, _, _) => Type3Fields(OP_EVENT_WRITE_SHD, 3);
    case RaiseInterrupt(_) => Type3Fields(OP_INTERRUPT, 1);
    case SetInitiator(_, _) => Type3Fields(OP_DRAW_INDX, 2);
    case LoadShader(_, _, _) =>
      LoadWords(c);
      LoadEffect(m, WordsOf(c));
    case _ => RegisterEffect(m, c);
  }

  // ---------------------------------------------------------------- a list of packets

  function Laid(cs: seq<Command>): seq<u32>
    requires forall i :: 0 <= i < |cs| ==> Encodable(cs[i])
  {
    if cs == [] then [] else WordsOf(cs[0]) + Laid(cs[1..])
  }

  /** The commands' meanings one after the other, each entered in the log at its place. */
  function Folded(m: Machine, buffer: u32, offset: nat, depth: nat, cs: seq<Command>): Machine
    requires forall i :: 0 <= i < |cs| ==> Encodable(cs[i])
    requires offset + 4 * |Laid(cs)| < TWO32
    decreases |cs|
  {
    if cs == [] then m
    else Folded(Meaning(Logged(m, buffer, offset, WordsOf(cs[0]), depth), cs[0]), buffer,
                offset + 4 * |WordsOf(cs[0])|, depth, cs[1..])
  }

  ghost predicate StoresMiss(cs: seq<Command>, lo: int, hi: int) {
    forall i :: 0 <= i < |cs| && cs[i].StoreShared? ==> Target(cs[i]) + 4 <= lo || hi <= Target(cs[i])
  }

  lemma MeaningKeeps(m: Machine, c: Command, lo: int, hi: int)
    requires Encodable(c) && StoresMiss([c], lo, hi)
    ensures SameBytes(m.memory, Meaning(m, c).memory, lo, hi)
    ensures Meaning(m, c).fault == m.fault
  {
    assert [c][0] == c;
    if c.StoreShared? {
      StoreKeepsRange(m.memory, Target(c), if c.initiator / 0x8000_0000 == 1 then m.vblank else c.value, lo, hi);
    }
  }

  lemma ReadPart(m: Memory, a: nat, front: seq<u32>, back: seq<u32>)
    requires a + 4 * (|front| + |back|) < TWO32 && ReadWords(m, a, |front| + |back|) == front + back
    ensures ReadWords(m, a, |front|) == front
    ensures ReadWords(m, a + 4 * |front|, |back|) == back
  {
    var all := ReadWords(m, a, |front| + |back|);
    forall i | 0 <= i < |front| ensures ReadWords(m, a, |front|)[i] == front[i] {
      assert all[i] == front[i];
    }
    forall i | 0 <= i < |back| ensures ReadWords(m, a + 4 * |front|, |back|)[i] == back[i] {
      assert all[|front| + i] == back[i];
      assert a + 4 * |front| + 4 * i == a + 4 * (|front| + i);
    }
  }

  /** One command in memory is one step of the scan. */
  lemma ScanOne(m: Machine, buffer: u32, offset: u32, size: u32, depth: nat, c: Command)
    requires Encodable(c) && depth <= MAX_INDIRECT_DEPTH && m.fault.None?
    requires buffer + size < TWO32 && offset + 4 * |WordsOf(c)| <= size
    requires ReadWords(m.memory, buffer + offset, |WordsOf(c)|) == WordsOf(c)
    ensures Scan(m, buffer, offset, size, depth)
         == Scan(Meaning(Logged(m, buffer, offset, WordsOf(c), depth), c), buffer, offset + 4 * |WordsOf(c)|, size,
                 depth)
  {
    hide WordsOf;
    hide Encodable;
    hide Effect;
    hide Meaning;
    hide IsFollowed;
    hide LengthOf;
    hide TypeOf;
    var ws := WordsOf(c);
    HeaderOf(c, depth);
    EffectIsMeaning(Logged(m, buffer, offset, ws, depth), c);
    assert Add32(buffer, offset) == buffer + offset;
    assert ReadWords(m.memory, buffer + offset, |ws|)[0] == LoadU32(m.memory, Add32(buffer + offset, 0));
    assert PacketAt(m.memory, buffer, offset, size) == Packet(ws);
  }

  /**
   * Round trip: a list of commands laid out in a buffer its stores do not touch is consumed packet by packet, with
   * exactly the effect of the commands' meanings in order; the scan goes on behind it.
   */
  lemma {:induction false} ScanLaid(m: Machine, buffer: u32, offset: u32, size: u32, depth: nat, cs: seq<Command>)
    requires forall i :: 0 <= i < |cs| ==> Encodable(cs[i])
    requires depth <= MAX_INDIRECT_DEPTH && m.fault.None?
    requires buffer + size < TWO32 && offset + 4 * |Laid(cs)| <= size
    requires ReadWords(m.memory, buffer + offset, |Laid(cs)|) == Laid(cs)
    requires StoresMiss(cs, buffer + offset, buffer + offset + 4 * |Laid(cs)|)
    ensures Scan(m, buffer, offset, size, depth)
         == Scan(Folded(m, buffer, offset, depth, cs), buffer, offset + 4 * |Laid(cs)|, size, depth)
    decreases |cs|
  {
    hide ReadWords;
    hide Scan;
    hide WordsOf;
    hide Encodable;
    hide Meaning;
    hide SameBytes;
    if cs == [] {
    } else {
      var ws, rest := WordsOf(cs[0]), cs[1..];
      var lo, hi := buffer + offset + 4 * |ws|, buffer + offset + 4 * |Laid(cs)|;
      ReadPart(m.memory, buffer + offset, ws, Laid(rest));
      ScanOne(m, buffer, offset, size, depth, cs[0]);
      var m1 := Meaning(Logged(m, buffer, offset, ws, depth), cs[0]);
      assert StoresMiss([cs[0]], lo, hi);
      MeaningKeeps(Logged(m, buffer, offset, ws, depth), cs[0], lo, hi);
      SameBytesSameWords(m.memory, m1.memory, lo, hi, lo, |Laid(rest)|);
      ScanLaid(m1, buffer, offset + 4 * |ws|, size, depth, rest);
    }
  }

  /** A buffer that holds the list and nothing behind it is consumed whole. */
  lemma ScanLaidWhole(m: Machine, buffer: u32, size: u32, depth: nat, cs: seq<Command>)
    requires forall i :: 0 <= i < |cs| ==> Encodable(cs[i])
    requires depth <= MAX_INDIRECT_DEPTH && m.fault.None?
    requires buffer + size < TWO32 && 4 * |Laid(cs)| == size < TWO32 - 4
    requires ReadWords(m.memory, buffer, |Laid(cs)|) == Laid(cs)
    requires StoresMiss(cs, buffer, buffer + size)
    ensures Scan(m, buffer, 0, size, depth) == Scanned(Folded(m, buffer, 0, depth, cs), size)
  {
    hide StoresMiss;
    hide Encodable;
    hide Execute;
    hide Folded;
    hide WordsOf;
    ScanLaid(m, buffer, 0, size, depth, cs);
    assert PacketAt(Folded(m, buffer, 0, depth, cs).memory, buffer, size, size) == Nothing;
  }

  // ---------------------------------------------------------------- the frame-swap block

  const SWAP_DWORDS := 64
  const FETCH_DWORDS := 6
  const NO_OP: u32 := 0x8000_0000
  const FETCH_CONSTANT_0 := 0x4800

  /** Words `from` up to `until` of a block set to `v`. */
  function Fill(m: Memory, p: u32, from: nat, until: nat, v: u32): Memory
    decreases until
  {
    if until <= from then m else StoreU32(Fill(m, p, from, until - 1, v), Add32(p, (until - 1) * 4), v)
  }

  /** The first `n` fetch dwords copied behind the header, each read just before it is written. */
  function CopyFetch(m: Memory, p: u32, fetch: u32, n: nat): Memory {
    if n == 0 then m
    else
      var before := CopyFetch(m, p, fetch, n - 1);
      StoreU32(before, Add32(p, 4 + (n - 1) * 4), FetchDword(before, fetch, n - 1))
  }

  function FetchDword(m: Memory, fetch: u32, i: nat): u32 {
    if fetch != 0 then LoadU32(m, Add32(fetch, i * 4)) else 0
  }

  function SwapHeader(): u32 {
    (FETCH_DWORDS - 1) * 0x1_0000 + FETCH_CONSTANT_0
  }

  function SwapMemory(m: Memory, p: u32, fetch: u32): Memory {
    if p == 0 then m
    else
      Fill(CopyFetch(StoreU32(Fill(m, p, 0, SWAP_DWORDS, 0), p, SwapHeader()), p, fetch, FETCH_DWORDS),
           p, 1 + FETCH_DWORDS, SWAP_DWORDS, NO_OP)
  }

  /** The part of the kernel's `VdSwap` that writes command dwords into the caller's block. */
  method WriteSwapBlock(m: Memory, p: u32, fetch: u32) returns (m': Memory)
    ensures m' == SwapMemory(m, p, fetch)
  {
    hide StoreU32;
    hide LoadU32;
    m' := m;
    if p != 0 {
      for i := 0 to SWAP_DWORDS
        invariant m' == Fill(m, p, 0, i, 0)
      {
        m' := StoreU32(m', Add32(p, i * 4), 0);
      }
      m' := StoreU32(m', p, SwapHeader());
      ghost var m1 := m';
      for i := 0 to FETCH_DWORDS
        invariant m' == CopyFetch(m1, p, fetch, i)
      {
        var value := if fetch != 0 then LoadU32(m', Add32(fetch, i * 4)) else 0;
        m' := StoreU32(m', Add32(p, 4 + i * 4), value);
      }
      ghost var m2 := m';
      for i := 1 + FETCH_DWORDS to SWAP_DWORDS
        invariant m' == Fill(m2, p, 1 + FETCH_DWORDS, i, NO_OP)
      {
        m' := StoreU32(m', Add32(p, i * 4), NO_OP);
      }
    }
  }

  function Fillers(n: nat): (cs: seq<Command>)
    ensures |cs| == n && forall i :: 0 <= i < n ==> cs[i] == Filler(0)
  {
    seq(n, i => Filler(0))
  }

  /** The block as a list of commands. */
  function SwapCommands(m: Memory, fetch: u32): (cs: seq<Command>)
    ensures forall i :: 0 <= i < |cs| ==> Encodable(cs[i])
  {
    [RegisterRun(FETCH_CONSTANT_0, false,
                 seq(FETCH_DWORDS, i requires 0 <= i < FETCH_DWORDS => FetchDword(m, fetch, i)))]
    + Fillers(SWAP_DWORDS - 1 - FETCH_DWORDS)
  }

  lemma {:induction false} LaidFillers(n: nat)
    ensures |Laid(Fillers(n))| == n
    ensures forall i :: 0 <= i < n ==> Laid(Fillers(n))[i] == NO_OP
    decreases n
  {
    if n == 0 {
    } else {
      LaidFillers(n - 1);
      assert Fillers(n)[1..] == Fillers(n - 1);
      assert Laid(Fillers(n)) == [NO_OP] + Laid(Fillers(n - 1));
    }
  }

  lemma {:induction false} FillReads(m: Memory, p: u32, from: nat, until: nat, v: u32, k: nat)
    requires p + 4 * SWAP_DWORDS <= TWO32 && until <= SWAP_DWORDS && k < SWAP_DWORDS
    ensures LoadU32(Fill(m, p, from, until, v), p + 4 * k) == if from <= k < until then v else LoadU32(m, p + 4 * k)
    decreases until
  {
    hide StoreU32;
    hide LoadU32;
    if from >= until {
    } else {
      FillReads(m, p, from, until - 1, v, k);
      StoreThenLoad(Fill(m, p, from, until - 1, v), p + 4 * (until - 1), v, p + 4 * k);
    }
  }

  lemma {:induction false} FillKeeps(m: Memory, p: u32, from: nat, until: nat, v: u32, lo: int, hi: int)
    requires p + 4 * SWAP_DWORDS <= TWO32 && until <= SWAP_DWORDS && (hi <= p || p + 4 * SWAP_DWORDS <= lo)
    ensures SameBytes(m, Fill(m, p, from, until, v), lo, hi)
    decreases until
  {
    hide StoreU32;
    hide LoadU32;
    hide SameBytes;
    if from < until {
      var before := Fill(m, p, from, until - 1, v);
      FillKeeps(m, p, from, until - 1, v, lo, hi);
      StoreKeepsRange(before, p + 4 * (until - 1), v, lo, hi);
      SameBytesJoin(m, before, Fill(m, p, from, until, v), lo, hi);
    } else {
      SameBytesRefl(m, lo, hi);
    }
  }

  /** The fetch constant neither null-wraps nor overlaps the block. */
  predicate FetchApart(p: u32, fetch: u32) {
    fetch == 0 || (fetch + 4 * FETCH_DWORDS <= TWO32
                   && (fetch + 4 * FETCH_DWORDS <= p || p + 4 * SWAP_DWORDS <= fetch))
  }

  lemma SameFetch(m: Memory, m': Memory, fetch: u32, i: nat)
    requires i < FETCH_DWORDS
    requires fetch == 0 || (fetch + 4 * FETCH_DWORDS <= TWO32 && SameBytes(m, m', fetch, fetch + 4 * FETCH_DWORDS))
    ensures FetchDword(m, fetch, i) == FetchDword(m', fetch, i)
  {
    if fetch != 0 {
      assert Add32(fetch, i * 4) == fetch + i * 4;
    }
  }

  lemma {:induction false} CopyReads(m: Memory, p: u32, fetch: u32, n: nat, k: nat)
    requires p + 4 * SWAP_DWORDS <= TWO32 && FetchApart(p, fetch) && n <= FETCH_DWORDS && k < SWAP_DWORDS
    ensures LoadU32(CopyFetch(m, p, fetch, n), p + 4 * k)
         == if 1 <= k <= n then FetchDword(m, fetch, k - 1) else LoadU32(m, p + 4 * k)
    ensures fetch != 0 ==> SameBytes(m, CopyFetch(m, p, fetch, n), fetch, fetch + 4 * FETCH_DWORDS)
    decreases n
  {
    hide StoreU32;
    hide LoadU32;
    hide FetchDword;
    if n == 0 {
    } else {
      CopyReads(m, p, fetch, n - 1, k);
      var before := CopyFetch(m, p, fetch, n - 1);
      var v := FetchDword(before, fetch, n - 1);
      SameFetch(m, before, fetch, n - 1);
      StoreThenLoad(before, p + 4 * n, v, p + 4 * k);
      assert Add32(p, 4 + (n - 1) * 4) == p + 4 * n;
      if fetch != 0 {
        StoreKeepsRange(before, p + 4 * n, v, fetch, fetch + 4 * FETCH_DWORDS);
      }
    }
  }

  lemma FetchSurvives(m: Memory, p: u32, fetch: u32, i: nat)
    requires p + 4 * SWAP_DWORDS <= TWO32 && FetchApart(p, fetch) && i < FETCH_DWORDS
    ensures FetchDword(StoreU32(Fill(m, p, 0, SWAP_DWORDS, 0), p, SwapHeader()), fetch, i) == FetchDword(m, fetch, i)
  {
    hide StoreU32;
    hide FetchDword;
    var m0 := Fill(m, p, 0, SWAP_DWORDS, 0);
    if fetch != 0 {
      FillKeeps(m, p, 0, SWAP_DWORDS, 0, fetch, fetch + 4 * FETCH_DWORDS);
      StoreKeepsRange(m0, p, SwapHeader(), fetch, fetch + 4 * FETCH_DWORDS);
    }
    SameFetch(m, StoreU32(m0, p, SwapHeader()), fetch, i);
  }

  lemma SwapWord(m: Memory, p: u32, fetch: u32, k: nat)
    requires p != 0 && p + 4 * SWAP_DWORDS <= TWO32 && FetchApart(p, fetch) && k < SWAP_DWORDS
    ensures LoadU32(SwapMemory(m, p, fetch), p + 4 * k)
         == if k == 0 then SwapHeader() else if k <= FETCH_DWORDS then FetchDword(m, fetch, k - 1) else NO_OP
  {
    hide StoreU32;
    hide LoadU32;
    hide FetchDword;
    hide FetchApart;
    hide Fill;
    hide CopyFetch;
    var m0 := Fill(m, p, 0, SWAP_DWORDS, 0);
    var m1 := StoreU32(m0, p, SwapHeader());
    FillReads(CopyFetch(m1, p, fetch, FETCH_DWORDS), p, 1 + FETCH_DWORDS, SWAP_DWORDS, NO_OP, k);
    CopyReads(m1, p, fetch, FETCH_DWORDS, k);
    StoreThenLoad(m0, p, SwapHeader(), p + 4 * k);
    if 1 <= k <= FETCH_DWORDS {
      FetchSurvives(m, p, fetch, k - 1);
    }
  }

  /** The block in memory is the command list, word for word. */
  lemma SwapBlockHolds(m: Memory, p: u32, fetch: u32)
    requires p != 0 && p + 4 * SWAP_DWORDS <= TWO32 && FetchApart(p, fetch)
    ensures ReadWords(SwapMemory(m, p, fetch), p, SWAP_DWORDS) == Laid(SwapCommands(m, fetch))
  {
    hide SwapMemory;
    hide LoadU32;
    hide FetchDword;
    var fillers := Fillers(SWAP_DWORDS - 1 - FETCH_DWORDS);
    var block, laid := ReadWords(SwapMemory(m, p, fetch), p, SWAP_DWORDS), Laid(SwapCommands(m, fetch));
    LaidFillers(SWAP_DWORDS - 1 - FETCH_DWORDS);
    assert SwapCommands(m, fetch)[1..] == fillers;
    assert laid == WordsOf(SwapCommands(m, fetch)[0]) + Laid(fillers);
    forall k | 0 <= k < SWAP_DWORDS ensures block[k] == laid[k] {
      assert Add32(p, 4 * k) == p + 4 * k;
      SwapWord(m, p, fetch, k);
    }
  }

  lemma {:induction false} FoldedFillers(m: Machine, buffer: u32, offset: nat, depth: nat, n: nat)
    requires offset + 4 * |Laid(Fillers(n))| < TWO32
    ensures var r := Folded(m, buffer, offset, depth, Fillers(n)); r == m.(log := r.log)
    decreases n
  {
    LaidFillers(n);
    if n == 0 {
    } else {
      LaidFillers(n - 1);
      assert Fillers(n)[1..] == Fillers(n - 1);
      var m1 := Meaning(Logged(m, buffer, offset, WordsOf(Filler(0)), depth), Filler(0));
      FoldedFillers(m1, buffer, offset + 4, depth, n - 1);
    }
  }

  /** Scanning the block the kernel wrote consumes it whole and sets the six fetch registers, nothing else. */
  lemma SwapBlockScans(m: Machine, before: Memory, p: u32, fetch: u32, depth: nat)
    requires p != 0 && p + 4 * SWAP_DWORDS < TWO32 && FetchApart(p, fetch) && depth <= MAX_INDIRECT_DEPTH
    requires m.memory == SwapMemory(before, p, fetch) && m.fault.None?
    ensures var r := Scan(m, p, 0, 4 * SWAP_DWORDS, depth);
      && r.offset == 4 * SWAP_DWORDS
      && r.machine == m.(regs := r.machine.regs, log := r.machine.log)
      && forall i: nat :: Read(r.machine.regs, i) ==
           if FETCH_CONSTANT_0 <= i < FETCH_CONSTANT_0 + FETCH_DWORDS
           then FetchDword(before, fetch, i - FETCH_CONSTANT_0)
           else Read(m.regs, i)
  {
    hide Scan;
    hide SwapMemory;
    hide WordsOf;
    var cs := SwapCommands(before, fetch);
    SwapBlockHolds(before, p, fetch);
    ScanLaidWhole(m, p, 4 * SWAP_DWORDS, depth, cs);
    var first, rest := cs[0], Fillers(SWAP_DWORDS - 1 - FETCH_DWORDS);
    assert cs[1..] == rest;
    var m1 := Meaning(Logged(m, p, 0, WordsOf(first), depth), first);
    assert Laid(cs) == WordsOf(first) + Laid(rest);
    FoldedFillers(m1, p, 4 * |WordsOf(first)|, depth, SWAP_DWORDS - 1 - FETCH_DWORDS);
    forall i: nat
      ensures Read(m1.regs, i) ==
        if FETCH_CONSTANT_0 <= i < FETCH_CONSTANT_0 + FETCH_DWORDS then FetchDword(before, fetch, i - FETCH_CONSTANT_0)
        else Read(m.regs, i)
    {
      WriteRunReads(m.regs, FETCH_CONSTANT_0, first.values, false, i);
    }
  }
}
