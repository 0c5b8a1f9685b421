/**
 * The bit layouts as tables: every decoded field is the bits of its word from one position on, whatever the other
 * bits hold.
 */
module BitFields {
  import opened Words
  import opened ShaderDecode
  import opened GpuState

  /** Bit `i` of a word. */
  function BitOf(w: nat, i: nat): nat {
    High(w, i) % 2
  }

  /** The number bits `lo` to `lo + n - 1` of a word spell, lowest first. */
  function Bits(w: nat, lo: nat, n: nat): nat
    decreases n
  {
    if n == 0 then 0 else BitOf(w, lo) + 2 * Bits(w, lo + 1, n - 1)
  }

  lemma {:induction false} BitsValue(w: nat, lo: nat, n: nat)
    ensures Bits(w, lo, n) == w / Pow2(lo) % Pow2(n)
    decreases n
  {
    HighValue(w, lo);
    if n == 0 {
    } else {
      BitsValue(w, lo + 1, n - 1);
      Halve(w, Pow2(lo));
      NextBit(w, Pow2(lo));
      Halve(w / Pow2(lo), Pow2(n - 1));
    }
  }

  lemma NextBit(w: nat, p: nat)
    requires p > 0
    ensures w / (2 * p) == w / p / 2
  {
    var q, r := w / p, w % p;
    Split(w, 2 * p, q / 2, q % 2 * p + r);
  }

  lemma Powers()
    ensures Pow2(0) == 1 && Pow2(1) == 2 && Pow2(2) == 4 && Pow2(3) == 8 && Pow2(4) == 0x10 && Pow2(5) == 0x20
    ensures Pow2(6) == 0x40 && Pow2(8) == 0x100 && Pow2(11) == 0x800 && Pow2(12) == 0x1000 && Pow2(16) == 0x1_0000
    ensures Pow2(20) == 0x10_0000 && Pow2(23) == 0x80_0000 && Pow2(24) == 0x100_0000 && Pow2(25) == 0x200_0000
    ensures Pow2(26) == 0x400_0000 && Pow2(28) == 0x1000_0000 && Pow2(29) == 0x2000_0000 && Pow2(30) == 0x4000_0000
    ensures Pow2(31) == 0x8000_0000
  {
    assert Pow2(5) == 0x20 && Pow2(10) == 0x400 && Pow2(15) == 0x8000 && Pow2(20) == 0x10_0000;
    assert Pow2(25) == 0x200_0000 && Pow2(30) == 0x4000_0000;
  }

  /** A control-flow instruction: 12 bits of address, 3 of count and 12 of sequence; the opcode tops the high word. */
  lemma FlowBits(word0: u32, word1: u16)
    ensures var cf := DecodeControlFlow(word0, word1);
      && cf.address == Bits(word0, 0, 12) && cf.count == Bits(word0, 12, 3) && cf.sequence == Bits(word0, 16, 12)
      && Bits(word1, 12, 4) < 16 && cf.opcode == OPCODES[Bits(word1, 12, 4)]
  {
    hide Pow2;
    hide Bits;
    Powers();
    BitsValue(word0, 0, 12);
    BitsValue(word0, 12, 3);
    BitsValue(word0, 16, 12);
    BitsValue(word1, 12, 4);
  }

  /** The opcodes that start a block of instructions. */
  lemma ExecOpcodes(code: nat)
    requires code < 16
    ensures IsExecFamily(OPCODES[code]) <==> code in {1, 2, 3, 4, 5, 6, 13, 14}
  {
  }

  lemma AluBits0(w0: u32, w1: u32, w2: u32)
    ensures var f := DecodeAlu(w0, w1, w2);
      && f.vectorDest == Bits(w0, 0, 6) && f.scalarDest == Bits(w0, 8, 6)
      && f.vectorWriteMask == Bits(w0, 16, 4) && f.scalarWriteMask == Bits(w0, 20, 4)
      && f.scalarOpcode == Bits(w0, 26, 6)
  {
    hide Pow2;
    hide Bits;
    Powers();
    BitsValue(w0, 0, 6);
    BitsValue(w0, 8, 6);
    BitsValue(w0, 16, 4);
    BitsValue(w0, 20, 4);
    BitsValue(w0, 26, 6);
  }

  lemma AluBits1(w0: u32, w1: u32, w2: u32)
    ensures var f := DecodeAlu(w0, w1, w2);
      && f.src3Swizzle == Bits(w1, 0, 8) && f.src2Swizzle == Bits(w1, 8, 8) && f.src1Swizzle == Bits(w1, 16, 8)
      && (f.src3Negate <==> Bits(w1, 24, 1) == 1) && (f.src2Negate <==> Bits(w1, 25, 1) == 1)
      && (f.src1Negate <==> Bits(w1, 26, 1) == 1) && (f.isPredicated <==> Bits(w1, 28, 1) == 1)
  {
    hide Pow2;
    hide Bits;
    Powers();
    BitsValue(w1, 0, 8);
    BitsValue(w1, 8, 8);
    BitsValue(w1, 16, 8);
    BitsValue(w1, 24, 1);
    BitsValue(w1, 25, 1);
    BitsValue(w1, 26, 1);
    BitsValue(w1, 28, 1);
  }

  lemma AluBits2(w0: u32, w1: u32, w2: u32)
    ensures var f := DecodeAlu(w0, w1, w2);
      && f.src3Reg == Bits(w2, 0, 8) && f.src2Reg == Bits(w2, 8, 8) && f.src1Reg == Bits(w2, 16, 8)
      && f.vectorOpcode == Bits(w2, 24, 5) && (f.src3Sel <==> Bits(w2, 29, 1) == 1)
      && (f.src2Sel <==> Bits(w2, 30, 1) == 1) && (f.src1Sel <==> Bits(w2, 31, 1) == 1)
  {
    hide Pow2;
    hide Bits;
    Powers();
    BitsValue(w2, 0, 8);
    BitsValue(w2, 8, 8);
    BitsValue(w2, 16, 8);
    BitsValue(w2, 24, 5);
    BitsValue(w2, 29, 1);
    BitsValue(w2, 30, 1);
    BitsValue(w2, 31, 1);
  }

  /** The ALU layout, all three words. */
  lemma AluBits(w0: u32, w1: u32, w2: u32)
    ensures DecodeAlu(w0, w1, w2) == AluInstruction(
      Bits(w0, 0, 6), Bits(w0, 8, 6), Bits(w0, 16, 4), Bits(w0, 20, 4), Bits(w0, 26, 6),
      Bits(w2, 24, 5), Bits(w2, 16, 8), Bits(w2, 8, 8), Bits(w2, 0, 8),
      Bits(w2, 31, 1) == 1, Bits(w2, 30, 1) == 1, Bits(w2, 29, 1) == 1,
      Bits(w1, 16, 8), Bits(w1, 8, 8), Bits(w1, 0, 8),
      Bits(w1, 26, 1) == 1, Bits(w1, 25, 1) == 1, Bits(w1, 24, 1) == 1, Bits(w1, 28, 1) == 1)
  {
    AluBits0(w0, w1, w2);
    AluBits1(w0, w1, w2);
    AluBits2(w0, w1, w2);
  }

  /** The vertex fetch layout; the 23-bit offset is in two's complement, its sign in bit 30. */
  lemma FetchBits(w0: u32, w1: u32, w2: u32)
    ensures var f := DecodeVertexFetch(w0, w1, w2);
      && FetchOpcode(w0) == Bits(w0, 0, 5) && f.srcReg == Bits(w0, 5, 6) && f.destReg == Bits(w0, 12, 6)
      && f.fetchConstantIndex == 3 * Bits(w0, 20, 5) + Bits(w0, 25, 2)
      && f.destSwizzle == Bits(w1, 0, 12) && f.format == Bits(w1, 16, 6) && (f.isMiniFetch <==> Bits(w1, 30, 1) == 1)
      && f.stride == Bits(w2, 0, 8)
      && f.offset == Bits(w2, 8, 23) - (if Bits(w2, 8, 23) >= 0x40_0000 then 0x80_0000 else 0)
  {
    hide Pow2;
    hide Bits;
    Powers();
    BitsValue(w0, 0, 5);
    BitsValue(w0, 5, 6);
    BitsValue(w0, 12, 6);
    BitsValue(w0, 20, 5);
    BitsValue(w0, 25, 2);
    BitsValue(w1, 0, 12);
    BitsValue(w1, 16, 6);
    BitsValue(w1, 30, 1);
    BitsValue(w2, 0, 8);
    BitsValue(w2, 8, 23);
  }

  /** Bit 2j of a block's sequence tells whether its instruction j is a fetch. */
  lemma SequenceBits(cf: ControlFlow, j: nat)
    ensures IsFetchSlot(cf, j) <==> BitOf(cf.sequence, 2 * j) == 1
  {
    HighValue(cf.sequence, 2 * j);
  }

  /** The draw initiator's layout. */
  lemma InitiatorBits(regs: Registers)
    ensures var w, di := Read(regs, 0x21FC), DrawInitiatorOf(regs);
      && di.primType == Bits(w, 0, 6) && di.sourceSelect == Bits(w, 6, 2) && di.indexSize == Bits(w, 11, 1)
      && di.numIndices == Bits(w, 16, 16)
  {
    hide Pow2;
    hide Bits;
    Powers();
    var w := Read(regs, 0x21FC);
    BitsValue(w, 0, 6);
    BitsValue(w, 6, 2);
    BitsValue(w, 11, 1);
    BitsValue(w, 16, 16);
  }

  /** A vertex fetch constant's layout, two registers to a slot and 96 slots. */
  lemma ConstantBits(regs: Registers, slot: nat)
    ensures var c, w0, w1 := VertexFetchConstantOf(regs, slot), Read(regs, 0x4800 + 2 * slot),
                             Read(regs, 0x4801 + 2 * slot);
      if slot < 96 then
        && c.fetchType == Bits(w0, 0, 2) && c.address == Bits(w0, 2, 30) && c.endian == Bits(w1, 0, 2)
        && c.size == Bits(w1, 2, 24)
      else c == VertexFetchConstant(0, 0, 0, 0)
  {
    hide Pow2;
    hide Bits;
    Powers();
    var w0, w1 := Read(regs, 0x4800 + 2 * slot), Read(regs, 0x4801 + 2 * slot);
    BitsValue(w0, 0, 2);
    BitsValue(w0, 2, 30);
    BitsValue(w1, 0, 2);
    BitsValue(w1, 2, 24);
  }
}
