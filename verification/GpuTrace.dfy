/**
 * The PM4 command stream: what one packet does, and what scanning a buffer of packets does, as functions of the
 * whole machine the tracer acts on.
 */
module GpuTrace {
  import opened Words
  import opened GuestMemory
  import opened GpuState
  import opened DrawList
  import opened DrawResolve
  import opened ShaderCache

  const MAX_INDIRECT_DEPTH := 3
  const OP_INDIRECT_BUFFER := 0x3F
  const OP_INTERRUPT := 0x54
  const OP_EVENT_WRITE_SHD := 0x58
  const OP_SET_CONSTANT := 0x2D
  const OP_DRAW_INDX := 0x22
  const OP_DRAW_INDX_2 := 0x36
  const OP_IM_LOAD_IMMEDIATE := 0x2B

  /** One packet that was executed: where it lay and the words it had at that moment, header first. */
  datatype Executed = Executed(depth: nat, buffer: u32, offset: nat, words: seq<u32>)

  /**
   * Where the source's behaviour ends: a 32-bit offset sum that wraps, after which the source's loop goes backwards,
   * or a position read past the end of a vertex record. A machine with a fault executes nothing more.
   */
  datatype Fault = OffsetWrap | RecordTooShort

  /**
   * Everything a packet can read or change. `interrupts` lists the contexts the graphics interrupt callback was
   * invoked with; `log` lists the packets executed, which the source only counts.
   */
  datatype Machine = Machine(
    memory: Memory, regs: Registers, draws: Batch, cache: CacheState, interrupts: seq<u32>,
    vblank: u32, callback: u32, context: u32, log: seq<Executed>, fault: Option<Fault>)

  // ---------------------------------------------------------------- headers

  function TypeOf(header: u32): nat {
    header / 0x4000_0000
  }

  function CountOf(header: u32): (count: nat)
    ensures 1 <= count <= 0x4000
  {
    header / 0x1_0000 % 0x4000 + 1
  }

  function OpcodeOf(header: u32): nat {
    header / 0x100 % 0x80
  }

  /** Dwords of a whole packet. */
  function LengthOf(header: u32): (n: nat)
    ensures 1 <= n <= 0x4001
  {
    if TypeOf(header) == 2 then 1 else 1 + CountOf(header)
  }

  /** What the scanner finds at an offset: the end of the packets, an offset sum that wraps, or a whole packet. */
  datatype Found = Nothing | Wraps | Packet(words: seq<u32>)

  function PacketAt(m: Memory, buffer: u32, offset: u32, size: u32): (f: Found)
    ensures f.Packet? ==> |f.words| >= 1 && offset + 4 * |f.words| <= size
  {
    if offset + 4 >= TWO32 then Wraps
    else if offset + 4 > size then Nothing
    else
      var header := LoadU32(m, Add32(buffer, offset));
      if header == 0 || TypeOf(header) == 1 then Nothing
      else if offset + 4 * LengthOf(header) >= TWO32 then Wraps
      else if offset + 4 * LengthOf(header) > size then Nothing
      else Packet(ReadWords(m, Add32(buffer, offset), LengthOf(header)))
  }

  // ---------------------------------------------------------------- one packet

  predicate IsType3(words: seq<u32>, opcode: nat) {
    |words| >= 2 && TypeOf(words[0]) == 3 && OpcodeOf(words[0]) == opcode
  }

  /** An indirect buffer shallow enough to be followed. */
  predicate IsFollowed(words: seq<u32>, depth: nat) {
    IsType3(words, OP_INDIRECT_BUFFER) && |words| == 3 && depth < MAX_INDIRECT_DEPTH
  }

  predicate IsStore(words: seq<u32>) {
    IsType3(words, OP_EVENT_WRITE_SHD) && |words| == 4
  }

  function StoreAddress(words: seq<u32>): u32
    requires IsStore(words)
  {
    DirectMap(ClearLowTwo(words[2]))
  }

  /** Bit 31 of the initiator selects the vertical blank counter instead of the value in the packet. */
  function StoreValue(words: seq<u32>, vblank: u32): u32
    requires IsStore(words)
  {
    if words[1] >= 0x8000_0000 then vblank else words[3]
  }

  /** The first register of a SET_CONSTANT sub-bank; other sub-bank types are skipped. */
  function ConstantBase(offsetType: u32): Option<nat> {
    var subIndex := offsetType % 0x800;
    match offsetType / 0x1_0000 % 0x100
    case 0 => Some(subIndex + 0x4000)
    case 1 => Some(subIndex + 0x4800)
    case 2 => Some(subIndex + 0x4900)
    case 3 => Some(subIndex + 0x4908)
    case 4 => Some(subIndex + 0x2000)
    case _ => None
  }

  function RegistersAfter(regs: Registers, words: seq<u32>): Registers {
    if |words| >= 2 && TypeOf(words[0]) == 0 then
      WriteRun(regs, words[0] % 0x8000, words[1..], words[0] / 0x8000 % 2 == 1)
    else if IsType3(words, OP_SET_CONSTANT) && ConstantBase(words[1]).Some? then
      WriteRun(regs, ConstantBase(words[1]).value, words[2..], false)
    else if IsType3(words, OP_DRAW_INDX_2) then
      Write(regs, DRAW_INITIATOR_REGISTER, words[1])
    else if IsType3(words, OP_DRAW_INDX) && |words| >= 3 then
      Write(regs, DRAW_INITIATOR_REGISTER, words[2])
    else regs
  }

  /** A well-formed IM_LOAD_IMMEDIATE: start zero, all its microcode present, a known stage. */
  predicate IsLoad(words: seq<u32>) {
    && IsType3(words, OP_IM_LOAD_IMMEDIATE) && |words| >= 3
    && words[2] / 0x1_0000 == 0
    && words[2] % 0x1_0000 <= |words| - 3
    && words[1] < 2
  }

  function Microcode(words: seq<u32>): seq<u32>
    requires IsLoad(words)
  {
    words[3..3 + words[2] % 0x1_0000]
  }

  /** What a packet other than a followed indirect buffer does. */
  function Effect(m: Machine, words: seq<u32>): Machine {
    var regs := RegistersAfter(m.regs, words);
    if IsStore(words) then
      m.(memory := StoreU32(m.memory, StoreAddress(words), StoreValue(words, m.vblank)))
    else if IsType3(words, OP_INTERRUPT) && |words| == 2 && words[1] != 0 && m.callback != 0 then
      m.(interrupts := m.interrupts + [m.context])
    else if IsLoad(words) then
      m.(cache := Load(m.cache, words[1], Microcode(words)))
    else if IsType3(words, OP_DRAW_INDX_2) then
      match ResolveDraw(m.memory, regs, m.cache.vertex.result, words)
      case NoDraw => m.(regs := regs)
      case Draw(cmd) => m.(regs := regs, draws := m.draws + [cmd])
      case ShortRecord => m.(regs := regs, fault := Some(RecordTooShort))
    else m.(regs := regs)
  }

  // ---------------------------------------------------------------- a buffer

  function Logged(m: Machine, buffer: u32, offset: u32, words: seq<u32>, depth: nat): Machine {
    m.(log := m.log + [Executed(depth, buffer, offset, words)])
  }

  /** Bytes of the buffer an indirect packet names, in 32-bit arithmetic. */
  function TargetSize(words: seq<u32>): u32
    requires |words| == 3
  {
    words[2] * 4 % TWO32
  }

  function Execute(m: Machine, buffer: u32, offset: u32, words: seq<u32>, depth: nat): Machine
    requires depth <= MAX_INDIRECT_DEPTH
    decreases MAX_INDIRECT_DEPTH - depth, 0, 0
  {
    var logged := Logged(m, buffer, offset, words, depth);
    if IsFollowed(words, depth) then Scan(logged, DirectMap(words[1]), 0, TargetSize(words), depth + 1).machine
    else Effect(logged, words)
  }

  datatype Scanned = Scanned(machine: Machine, offset: u32)

  /** Executes whole packets from `offset` on until there is nothing to execute before `size`. */
  function Scan(m: Machine, buffer: u32, offset: u32, size: u32, depth: nat): Scanned
    requires depth <= MAX_INDIRECT_DEPTH
    decreases MAX_INDIRECT_DEPTH - depth, 1, TWO32 - offset
  {
    if m.fault.Some? then Scanned(m, offset)
    else match PacketAt(m.memory, buffer, offset, size)
      case Nothing => Scanned(m, offset)
      case Wraps => Scanned(m.(fault := Some(OffsetWrap)), offset)
      case Packet(words) => Scan(Execute(m, buffer, offset, words, depth), buffer, offset + 4 * |words|, size, depth)
  }
}
