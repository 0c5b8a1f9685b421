/** The GPU register file and the two views of it that draws use. */
module GpuState {
  import opened Words

  const REGISTER_COUNT := 0x5003
  const DRAW_INITIATOR_REGISTER := 0x21FC
  const VERTEX_FETCH_CONSTANT_BASE := 0x4800
  const VERTEX_FETCH_CONSTANT_SLOTS := 96

  type Registers = r: seq<u32> | |r| == REGISTER_COUNT witness seq(REGISTER_COUNT, _ => 0)

  /** Out-of-range indices are ignored. */
  function Write(regs: Registers, index: nat, value: u32): Registers {
    if index < REGISTER_COUNT then regs[index := value] else regs
  }

  /** Out-of-range indices read as zero. */
  function Read(regs: Registers, index: nat): u32 {
    if index < REGISTER_COUNT then regs[index] else 0
  }

  datatype DrawInitiator = DrawInitiator(primType: nat, sourceSelect: nat, indexSize: nat, numIndices: nat)

  datatype VertexFetchConstant = VertexFetchConstant(fetchType: nat, address: nat, endian: nat, size: nat)

  function DrawInitiatorOf(regs: Registers): DrawInitiator {
    var value := Read(regs, DRAW_INITIATOR_REGISTER);
    DrawInitiator(value % 0x40, value / 0x40 % 4, value / 0x800 % 2, value / 0x1_0000)
  }

  function VertexFetchConstantOf(regs: Registers, slot: nat): (c: VertexFetchConstant)
    ensures c.address < 0x4000_0000 && c.size < 0x100_0000
  {
    if slot >= VERTEX_FETCH_CONSTANT_SLOTS then VertexFetchConstant(0, 0, 0, 0)
    else
      var dword0 := Read(regs, VERTEX_FETCH_CONSTANT_BASE + slot * 2);
      var dword1 := Read(regs, VERTEX_FETCH_CONSTANT_BASE + slot * 2 + 1);
      VertexFetchConstant(dword0 % 4, dword0 / 4, dword1 % 4, dword1 / 4 % 0x100_0000)
  }

  lemma {:induction false} FieldsOf(a: nat, b: nat, c: nat, d: nat)
    requires a < 0x40 && b < 4 && c < 0x20 && d < 0x1_0000
    ensures var w := a + b * 0x40 + c * 0x800 + d * 0x1_0000;
      w % 0x40 == a && w / 0x40 % 4 == b && w / 0x800 % 0x20 == c && w / 0x1_0000 == d
  {
    var w := a + b * 0x40 + c * 0x800 + d * 0x1_0000;
    Split(w, 0x40, b + c * 0x20 + d * 0x400, a);
    Split(b + c * 0x20 + d * 0x400, 4, c * 8 + d * 0x100, b);
    Split(w, 0x800, c + d * 0x20, a + b * 0x40);
    Split(c + d * 0x20, 0x20, d, c);
    Split(w, 0x1_0000, d, a + b * 0x40 + c * 0x800);
  }

  /** A draw initiator packed by its author and written to its register reads back field by field. */
  lemma DrawInitiatorRoundTrip(regs: Registers, di: DrawInitiator)
    requires di.primType < 0x40 && di.sourceSelect < 4 && di.indexSize < 2 && di.numIndices < 0x1_0000
    ensures var packed := di.primType + di.sourceSelect * 0x40 + di.indexSize * 0x800 + di.numIndices * 0x1_0000;
      DrawInitiatorOf(Write(regs, DRAW_INITIATOR_REGISTER, packed)) == di
  {
    FieldsOf(di.primType, di.sourceSelect, di.indexSize, di.numIndices);
    var packed := di.primType + di.sourceSelect * 0x40 + di.indexSize * 0x800 + di.numIndices * 0x1_0000;
    Split(packed / 0x800, 2, di.numIndices * 0x10, di.indexSize);
  }

  /** So does a fetch constant, from the two registers of its slot. */
  lemma FetchConstantRoundTrip(regs: Registers, slot: nat, c: VertexFetchConstant)
    requires slot < VERTEX_FETCH_CONSTANT_SLOTS
    requires c.fetchType < 4 && c.address < 0x4000_0000 && c.endian < 4 && c.size < 0x100_0000
    ensures var packed := [c.fetchType + c.address * 4, c.endian + c.size * 4];
      VertexFetchConstantOf(WriteRun(regs, VERTEX_FETCH_CONSTANT_BASE + 2 * slot, packed, false), slot) == c
  {
    var base, packed := VERTEX_FETCH_CONSTANT_BASE + 2 * slot, [c.fetchType + c.address * 4, c.endian + c.size * 4];
    WriteRunReads(regs, base, packed, false, base);
    WriteRunReads(regs, base, packed, false, base + 1);
    Split(packed[0], 4, c.address, c.fetchType);
    Split(packed[1], 4, c.size, c.endian);
  }

  /** `values` written to consecutive registers from `base`, or all to `base` itself; the last write wins. */
  function WriteRun(regs: Registers, base: nat, values: seq<u32>, oneRegister: bool): Registers {
    if values == [] then regs
    else
      var n := |values| - 1;
      Write(WriteRun(regs, base, values[..n], oneRegister), if oneRegister then base else base + n, values[n])
  }

  /** What a run of writes leaves in each register. */
  lemma {:induction false} WriteRunReads(regs: Registers, base: nat, values: seq<u32>, oneRegister: bool, index: nat)
    ensures Read(WriteRun(regs, base, values, oneRegister), index) ==
      if index >= 0x5003 then 0
      else if oneRegister && index == base && values != [] then values[|values| - 1]
      else if !oneRegister && base <= index < base + |values| then values[index - base]
      else Read(regs, index)
    decreases |values|
  {
    if values == [] {
    } else {
      WriteRunReads(regs, base, values[..|values| - 1], oneRegister, index);
    }
  }

  class GpuRegisterState {
    const regs: array<u32>

    ghost predicate Valid()
      reads this
    {
      regs.Length == REGISTER_COUNT
    }

    ghost function State(): Registers
      reads this, regs
      requires Valid()
    {
      regs[..]
    }

    constructor ()
      ensures Valid() && fresh(regs)
      ensures State() == seq(REGISTER_COUNT, _ => 0)
    {
      regs := new u32[REGISTER_COUNT](_ => 0);
    }

    method WriteRegister(index: nat, value: u32)
      requires Valid()
      modifies regs
      ensures State() == Write(old(State()), index, value)
    {
      if index >= REGISTER_COUNT {
        return;
      }
      regs[index] := value;
    }

    method ReadRegister(index: nat) returns (value: u32)
      requires Valid()
      ensures value == Read(State(), index)
    {
      if index >= REGISTER_COUNT {
        return 0;
      }
      value := regs[index];
    }

    method GetDrawInitiator() returns (di: DrawInitiator)
      requires Valid()
      ensures di == DrawInitiatorOf(State())
    {
      var value := ReadRegister(DRAW_INITIATOR_REGISTER);
      di := DrawInitiator(value % 0x40, value / 0x40 % 4, value / 0x800 % 2, value / 0x1_0000 % 0x1_0000);
    }

    method GetVertexFetchConstant(slot: nat) returns (c: VertexFetchConstant)
      requires Valid()
      ensures c == VertexFetchConstantOf(State(), slot)
    {
      if slot >= VERTEX_FETCH_CONSTANT_SLOTS {
        return VertexFetchConstant(0, 0, 0, 0);
      }
      var baseIndex := VERTEX_FETCH_CONSTANT_BASE + slot * 2;
      var dword0 := ReadRegister(baseIndex);
      var dword1 := ReadRegister(baseIndex + 1);
      c := VertexFetchConstant(dword0 % 4, dword0 / 4, dword1 % 4, dword1 / 4 % 0x100_0000);
    }
  }
}
