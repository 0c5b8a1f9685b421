/**
 * Assembling a shader program and walking it: the fields come back, in the order the control flow names them.
 */
module MicrocodeRoundTrip {
  import opened Words
  import opened ShaderDecode

  // ---------------------------------------------------------------- one instruction

  function Bit(b: bool): nat {
    if b then 1 else 0
  }

  ghost predicate ValidFlow(cf: ControlFlow) {
    cf.address < 0x1000 && cf.count < 8 && cf.sequence < 0x1000
  }

  function OpcodeCode(op: ControlFlowOpcode): (n: nat)
    ensures n < 16 && OPCODES[n] == op
  {
    match op
    case Nop => 0
    case Exec => 1
    case ExecEnd => 2
    case CondExec => 3
    case CondExecEnd => 4
    case CondExecPred => 5
    case CondExecPredEnd => 6
    case LoopStart => 7
    case LoopEnd => 8
    case CondCall => 9
    case Return => 10
    case CondJmp => 11
    case Alloc => 12
    case CondExecPredClean => 13
    case CondExecPredCleanEnd => 14
    case MarkVsFetchDone => 15
  }

  /** Low 32 and high 16 bits of a control-flow instruction. */
  function FlowLow(cf: ControlFlow): u32
    requires ValidFlow(cf)
  {
    cf.address + cf.count * 0x1000 + cf.sequence * 0x1_0000
  }

  function FlowHigh(cf: ControlFlow): u16 {
    OpcodeCode(cf.opcode) * 0x1000
  }

  /** Two control-flow instructions packed into one slot. */
  function EncodePair(a: ControlFlow, b: ControlFlow): (ws: seq<u32>)
    requires ValidFlow(a) && ValidFlow(b)
    ensures |ws| == 3
  {
    [FlowLow(a), FlowHigh(a) + FlowLow(b) % 0x1_0000 * 0x1_0000, FlowLow(b) / 0x1_0000 + FlowHigh(b) * 0x1_0000]
  }

  lemma FlowRoundTrip(cf: ControlFlow)
    requires ValidFlow(cf)
    ensures DecodeControlFlow(FlowLow(cf), FlowHigh(cf)) == cf
  {
    ThreeFields(cf.address, cf.count, cf.sequence);
    Split(FlowHigh(cf), 0x1000, OpcodeCode(cf.opcode), 0);
  }

  lemma ThreeFields(address: nat, count: nat, sequence: nat)
    requires address < 0x1000 && count < 8 && sequence < 0x1000
    ensures var w := address + count * 0x1000 + sequence * 0x1_0000;
      w % 0x1000 == address && w / 0x1000 % 8 == count && w / 0x1_0000 == sequence
  {
    var w := address + count * 0x1000 + sequence * 0x1_0000;
    Split(w, 0x1000, count + sequence * 0x10, address);
    Split(count + sequence * 0x10, 8, sequence * 2, count);
    Split(w, 0x1_0000, sequence, address + count * 0x1000);
  }

  /** A word cut in halves and packed between two 16-bit fields comes back whole. */
  lemma HalvesRejoin(high: u16, low: u32, high': u16)
    ensures var w1, w2 := high + low % 0x1_0000 * 0x1_0000, low / 0x1_0000 + high' * 0x1_0000;
      w1 % 0x1_0000 == high && w2 / 0x1_0000 == high' && w1 / 0x1_0000 + w2 % 0x1_0000 * 0x1_0000 == low
  {
    Split(high + low % 0x1_0000 * 0x1_0000, 0x1_0000, low % 0x1_0000, high);
    Split(low / 0x1_0000 + high' * 0x1_0000, 0x1_0000, high', low / 0x1_0000);
  }

  lemma UnpackHalves(lowA: u32, highA: u16, lowB: u32, highB: u16)
    ensures UnpackControlFlowPair(lowA, highA + lowB % 0x1_0000 * 0x1_0000, lowB / 0x1_0000 + highB * 0x1_0000)
         == [DecodeControlFlow(lowA, highA), DecodeControlFlow(lowB, highB)]
  {
    hide DecodeControlFlow;
    HalvesRejoin(highA, lowB, highB);
  }

  lemma PairRoundTrip(a: ControlFlow, b: ControlFlow)
    requires ValidFlow(a) && ValidFlow(b)
    ensures var ws := EncodePair(a, b); UnpackControlFlowPair(ws[0], ws[1], ws[2]) == [a, b]
  {
    hide UnpackControlFlowPair;
    hide DecodeControlFlow;
    hide FlowLow;
    hide FlowHigh;
    FlowRoundTrip(a);
    FlowRoundTrip(b);
    UnpackHalves(FlowLow(a), FlowHigh(a), FlowLow(b), FlowHigh(b));
  }

  ghost predicate ValidAlu(f: AluInstruction) {
    && f.vectorDest < 0x40 && f.scalarDest < 0x40 && f.vectorWriteMask < 0x10 && f.scalarWriteMask < 0x10
    && f.scalarOpcode < 0x40 && f.vectorOpcode < 0x20
    && f.src1Reg < 0x100 && f.src2Reg < 0x100 && f.src3Reg < 0x100
    && f.src1Swizzle < 0x100 && f.src2Swizzle < 0x100 && f.src3Swizzle < 0x100
  }

  function EncodeAlu(f: AluInstruction): (ws: seq<u32>)
    requires ValidAlu(f)
    ensures |ws| == 3
  {
    [f.vectorDest + f.scalarDest * 0x100 + f.vectorWriteMask * 0x1_0000 + f.scalarWriteMask * 0x10_0000
       + f.scalarOpcode * 0x400_0000,
     f.src3Swizzle + f.src2Swizzle * 0x100 + f.src1Swizzle * 0x1_0000 + Bit(f.src3Negate) * 0x100_0000
       + Bit(f.src2Negate) * 0x200_0000 + Bit(f.src1Negate) * 0x400_0000 + Bit(f.isPredicated) * 0x1000_0000,
     f.src3Reg + f.src2Reg * 0x100 + f.src1Reg * 0x1_0000 + f.vectorOpcode * 0x100_0000
       + Bit(f.src3Sel) * 0x2000_0000 + Bit(f.src2Sel) * 0x4000_0000 + Bit(f.src1Sel) * 0x8000_0000]
  }

  lemma AluRoundTrip(f: AluInstruction)
    requires ValidAlu(f)
    ensures var ws := EncodeAlu(f); DecodeAlu(ws[0], ws[1], ws[2]) == f
  {
    AluWord0(f);
    AluWord1(f);
    AluWord2(f);
  }

  lemma AluWord0(f: AluInstruction)
    requires ValidAlu(f)
    ensures var w := EncodeAlu(f)[0];
      && w % 0x40 == f.vectorDest && w / 0x100 % 0x40 == f.scalarDest && w / 0x1_0000 % 0x10 == f.vectorWriteMask
      && w / 0x10_0000 % 0x10 == f.scalarWriteMask && w / 0x400_0000 == f.scalarOpcode
  {
    var w := EncodeAlu(f)[0];
    var from20 := f.scalarWriteMask + f.scalarOpcode * 0x40;
    var from16 := f.vectorWriteMask + from20 * 0x10;
    var from8 := f.scalarDest + from16 * 0x100;
    Split(w, 0x40, from8 * 4, f.vectorDest);
    Split(w, 0x100, from8, f.vectorDest);
    Split(from8, 0x40, from16 * 4, f.scalarDest);
    Split(w, 0x1_0000, from16, f.vectorDest + f.scalarDest * 0x100);
    Split(from16, 0x10, from20, f.vectorWriteMask);
    Split(w, 0x10_0000, from20, f.vectorDest + f.scalarDest * 0x100 + f.vectorWriteMask * 0x1_0000);
    Split(from20, 0x10, f.scalarOpcode * 4, f.scalarWriteMask);
    Split(w, 0x400_0000, f.scalarOpcode,
          f.vectorDest + f.scalarDest * 0x100 + f.vectorWriteMask * 0x1_0000 + f.scalarWriteMask * 0x10_0000);
  }

  lemma AluWord1(f: AluInstruction)
    requires ValidAlu(f)
    ensures var w := EncodeAlu(f)[1];
      && w % 0x100 == f.src3Swizzle && w / 0x100 % 0x100 == f.src2Swizzle && w / 0x1_0000 % 0x100 == f.src1Swizzle
      && w / 0x100_0000 % 2 == Bit(f.src3Negate) && w / 0x200_0000 % 2 == Bit(f.src2Negate)
      && w / 0x400_0000 % 2 == Bit(f.src1Negate) && w / 0x1000_0000 % 2 == Bit(f.isPredicated)
  {
    var w := EncodeAlu(f)[1];
    var low := f.src3Swizzle + f.src2Swizzle * 0x100 + f.src1Swizzle * 0x1_0000;
    var from26 := Bit(f.src1Negate) + Bit(f.isPredicated) * 4;
    var from25 := Bit(f.src2Negate) + from26 * 2;
    var from24 := Bit(f.src3Negate) + from25 * 2;
    var from16 := f.src1Swizzle + from24 * 0x100;
    Split(w, 0x100, f.src2Swizzle + from16 * 0x100, f.src3Swizzle);
    Split(f.src2Swizzle + from16 * 0x100, 0x100, from16, f.src2Swizzle);
    Split(w, 0x1_0000, from16, f.src3Swizzle + f.src2Swizzle * 0x100);
    Split(from16, 0x100, from24, f.src1Swizzle);
    Split(w, 0x100_0000, from24, low);
    Split(w, 0x200_0000, from25, low + Bit(f.src3Negate) * 0x100_0000);
    Split(w, 0x400_0000, from26, low + Bit(f.src3Negate) * 0x100_0000 + Bit(f.src2Negate) * 0x200_0000);
    Split(w, 0x1000_0000, Bit(f.isPredicated), low + Bit(f.src3Negate) * 0x100_0000
          + Bit(f.src2Negate) * 0x200_0000 + Bit(f.src1Negate) * 0x400_0000);
  }

  lemma AluWord2(f: AluInstruction)
    requires ValidAlu(f)
    ensures var w := EncodeAlu(f)[2];
      && w % 0x100 == f.src3Reg && w / 0x100 % 0x100 == f.src2Reg && w / 0x1_0000 % 0x100 == f.src1Reg
      && w / 0x100_0000 % 0x20 == f.vectorOpcode && w / 0x2000_0000 % 2 == Bit(f.src3Sel)
      && w / 0x4000_0000 % 2 == Bit(f.src2Sel) && w / 0x8000_0000 == Bit(f.src1Sel)
  {
    var w := EncodeAlu(f)[2];
    var regs := f.src3Reg + f.src2Reg * 0x100 + f.src1Reg * 0x1_0000;
    var low := regs + f.vectorOpcode * 0x100_0000;
    var from29 := Bit(f.src3Sel) + Bit(f.src2Sel) * 2 + Bit(f.src1Sel) * 4;
    var from24 := f.vectorOpcode + from29 * 0x20;
    var from16 := f.src1Reg + from24 * 0x100;
    Split(w, 0x100, f.src2Reg + from16 * 0x100, f.src3Reg);
    Split(f.src2Reg + from16 * 0x100, 0x100, from16, f.src2Reg);
    Split(w, 0x1_0000, from16, f.src3Reg + f.src2Reg * 0x100);
    Split(from16, 0x100, from24, f.src1Reg);
    Split(w, 0x100_0000, from24, regs);
    Split(from24, 0x20, from29, f.vectorOpcode);
    Split(w, 0x2000_0000, from29, low);
    Split(w, 0x4000_0000, Bit(f.src2Sel) + Bit(f.src1Sel) * 2, low + Bit(f.src3Sel) * 0x2000_0000);
    Split(w, 0x8000_0000, Bit(f.src1Sel), low + Bit(f.src3Sel) * 0x2000_0000 + Bit(f.src2Sel) * 0x4000_0000);
  }

  ghost predicate ValidFetch(f: VertexFetch) {
    && f.fetchConstantIndex < 96 && f.srcReg < 0x40 && f.destReg < 0x40 && f.format < 0x40 && f.stride < 0x100
    && -0x40_0000 <= f.offset < 0x40_0000 && f.destSwizzle < 0x1000
  }

  function EncodeOffset(offset: int): nat
    requires -0x40_0000 <= offset < 0x40_0000
  {
    if offset < 0 then offset + 0x80_0000 else offset
  }

  function EncodeFetch(f: VertexFetch): (ws: seq<u32>)
    requires ValidFetch(f)
    ensures |ws| == 3
  {
    [f.srcReg * 0x20 + f.destReg * 0x1000
     + f.fetchConstantIndex / 3 * 0x10_0000 + f.fetchConstantIndex % 3 * 0x200_0000,
     f.destSwizzle + f.format * 0x1_0000 + Bit(f.isMiniFetch) * 0x4000_0000,
     f.stride + EncodeOffset(f.offset) * 0x100]
  }

  lemma FetchWord0(f: VertexFetch)
    requires ValidFetch(f)
    ensures var w := EncodeFetch(f)[0];
      && w % 0x20 == 0 && w / 0x20 % 0x40 == f.srcReg && w / 0x1000 % 0x40 == f.destReg
      && w / 0x10_0000 % 0x20 * 3 + w / 0x200_0000 % 4 == f.fetchConstantIndex
  {
    var w := EncodeFetch(f)[0];
    var index, sel := f.fetchConstantIndex / 3, f.fetchConstantIndex % 3;
    var low := f.srcReg * 0x20 + f.destReg * 0x1000;
    var from20 := index + sel * 0x20;
    var from12 := f.destReg + from20 * 0x100;
    Split(w, 0x20, f.srcReg + from12 * 0x80, 0);
    Split(f.srcReg + from12 * 0x80, 0x40, from12 * 2, f.srcReg);
    Split(w, 0x1000, from12, f.srcReg * 0x20);
    Split(from12, 0x40, from20 * 4, f.destReg);
    Split(w, 0x10_0000, from20, low);
    Split(from20, 0x20, sel, index);
    Split(w, 0x200_0000, sel, low + index * 0x10_0000);
  }

  lemma FetchWords12(f: VertexFetch)
    requires ValidFetch(f)
    ensures var w1, w2 := EncodeFetch(f)[1], EncodeFetch(f)[2];
      && w1 % 0x1000 == f.destSwizzle && w1 / 0x1_0000 % 0x40 == f.format && w1 / 0x4000_0000 % 2 == Bit(f.isMiniFetch)
      && w2 % 0x100 == f.stride && SignExtend23(w2 / 0x100 % 0x80_0000) == f.offset
  {
    var w1, w2 := EncodeFetch(f)[1], EncodeFetch(f)[2];
    var from16 := f.format + Bit(f.isMiniFetch) * 0x4000;
    Split(w1, 0x1000, from16 * 0x10, f.destSwizzle);
    Split(w1, 0x1_0000, from16, f.destSwizzle);
    Split(from16, 0x40, Bit(f.isMiniFetch) * 0x100, f.format);
    Split(w1, 0x4000_0000, Bit(f.isMiniFetch), f.destSwizzle + f.format * 0x1_0000);
    Split(w2, 0x100, EncodeOffset(f.offset), f.stride);
  }

  /** Every field returns, the signed offset included, and the opcode bits say vertex fetch. */
  lemma FetchRoundTrip(f: VertexFetch)
    requires ValidFetch(f)
    ensures var ws := EncodeFetch(f); DecodeVertexFetch(ws[0], ws[1], ws[2]) == f && FetchOpcode(ws[0]) == 0
  {
    FetchWord0(f);
    FetchWords12(f);
  }

  // ---------------------------------------------------------------- whole programs

  /** A control-flow list, two instructions to a slot, and the instruction slots that follow it. */
  datatype Program = Program(flow: seq<(ControlFlow, ControlFlow)>, ops: seq<Instruction>)

  /** Slot number `slot` of an EXEC block is instruction `OpIndex` of the program. */
  function OpIndex(p: Program, slot: nat): int {
    slot - |p.flow|
  }

  ghost predicate ValidOp(op: Instruction) {
    match op
    case TextureFetch(opcode) => 0 < opcode < 0x20
    case Fetch(fetch) => ValidFetch(fetch)
    case Alu(alu) => ValidAlu(alu)
  }

  /** The sequence bits of a block tell each of its instructions for what it is. */
  ghost predicate TypesMatch(p: Program, cf: ControlFlow) {
    forall j :: 0 <= j < cf.count && 0 <= OpIndex(p, cf.address + j) < |p.ops| ==>
      (IsFetchSlot(cf, j) <==> !p.ops[OpIndex(p, cf.address + j)].Alu?)
  }

  /** An EXEC block lies at or past the control-flow section. */
  ghost predicate ValidBlock(p: Program, cf: ControlFlow) {
    IsExecFamily(cf.opcode) ==> cf.address >= |p.flow| && TypesMatch(p, cf)
  }

  ghost predicate ValidBlocks(p: Program) {
    forall i :: 0 <= i < |p.flow| ==> ValidBlock(p, p.flow[i].0) && ValidBlock(p, p.flow[i].1)
  }

  ghost predicate ValidFields(p: Program) {
    && (forall i :: 0 <= i < |p.flow| ==> ValidFlow(p.flow[i].0) && ValidFlow(p.flow[i].1))
    && (forall k :: 0 <= k < |p.ops| ==> ValidOp(p.ops[k]))
  }

  ghost predicate AtEnd(p: Program, cf: ControlFlow) {
    IsExecFamily(cf.opcode) && cf.address == |p.flow|
  }

  /** One of the first `n` slots names the end of the control-flow section. */
  ghost predicate EndNamed(p: Program, n: nat)
    requires n <= |p.flow|
  {
    exists i :: 0 <= i < n && (AtEnd(p, p.flow[i].0) || AtEnd(p, p.flow[i].1))
  }

  /** A texture fetch is known by its opcode alone; its other fields are not decoded. */
  function EncodeOp(op: Instruction): (ws: seq<u32>)
    requires ValidOp(op)
    ensures |ws| == 3
  {
    match op
    case TextureFetch(opcode) => [opcode, 0, 0]
    case Fetch(fetch) => EncodeFetch(fetch)
    case Alu(alu) => EncodeAlu(alu)
  }

  lemma OpRoundTrip(op: Instruction)
    requires ValidOp(op)
    ensures var ws := EncodeOp(op); DecodeInstruction(!op.Alu?, ws[0], ws[1], ws[2]) == op
  {
    match op
    case TextureFetch(opcode) =>
    case Fetch(fetch) => FetchRoundTrip(fetch);
    case Alu(alu) => AluRoundTrip(alu);
  }

  /** The three dwords of slot `s`. */
  function SlotDwords(p: Program, s: nat): (ws: seq<u32>)
    requires ValidFields(p) && s < |p.flow| + |p.ops|
    ensures |ws| == 3
  {
    if s < |p.flow| then EncodePair(p.flow[s].0, p.flow[s].1) else EncodeOp(p.ops[OpIndex(p, s)])
  }

  function Assemble(p: Program): (d: seq<u32>)
    requires ValidFields(p)
    ensures |d| == 3 * (|p.flow| + |p.ops|)
  {
    seq(3 * (|p.flow| + |p.ops|), x requires 0 <= x < 3 * (|p.flow| + |p.ops|) => SlotDwords(p, x / 3)[x % 3])
  }

  /** `slots` decodes to the program `p`, slot by slot. */
  ghost predicate Carries(p: Program, slots: seq<SlotView>) {
    && |slots| == |p.flow| + |p.ops|
    && (forall i :: 0 <= i < |p.flow| ==> slots[i].pair == [p.flow[i].0, p.flow[i].1])
    && (forall s :: |p.flow| <= s < |slots| ==>
          p.ops[OpIndex(p, s)] == if p.ops[OpIndex(p, s)].Alu? then slots[s].asAlu else slots[s].asFetch)
  }

  lemma AssembledSlot(p: Program, s: nat)
    requires ValidFields(p) && s < |p.flow| + |p.ops|
    ensures var d, ws := Assemble(p), SlotDwords(p, s);
            d[s * 3] == ws[0] && d[s * 3 + 1] == ws[1] && d[s * 3 + 2] == ws[2]
  {
    hide SlotDwords;
    Split(s * 3, 3, s, 0);
    Split(s * 3 + 1, 3, s, 1);
    Split(s * 3 + 2, 3, s, 2);
  }

  lemma AssembledView(p: Program, s: nat)
    requires ValidFields(p) && s < |p.flow| + |p.ops|
    ensures s < |p.flow| ==> ViewSlot(Assemble(p), s).pair == [p.flow[s].0, p.flow[s].1]
    ensures s >= |p.flow| ==>
              var op, view := p.ops[OpIndex(p, s)], ViewSlot(Assemble(p), s);
              op == if op.Alu? then view.asAlu else view.asFetch
  {
    AssembledSlot(p, s);
    if s < |p.flow| {
      PairRoundTrip(p.flow[s].0, p.flow[s].1);
    } else {
      OpRoundTrip(p.ops[OpIndex(p, s)]);
    }
  }

  lemma AssembleCarries(p: Program)
    requires ValidFields(p)
    ensures Carries(p, ViewOf(Assemble(p)))
  {
    var slots := ViewOf(Assemble(p));
    Split(|Assemble(p)|, 3, |p.flow| + |p.ops|, 0);
    forall s | 0 <= s < |slots|
      ensures s < |p.flow| ==> slots[s].pair == [p.flow[s].0, p.flow[s].1]
      ensures s >= |p.flow| ==>
                p.ops[OpIndex(p, s)] == if p.ops[OpIndex(p, s)].Alu? then slots[s].asAlu else slots[s].asFetch
    {
      AssembledView(p, s);
    }
  }

  // What the program says a walk over it should list.

  function OpLine(p: Program, j: nat, slot: nat): Line {
    if !(0 <= OpIndex(p, slot) < |p.ops|) then OutOfRangeLine(j, slot)
    else
      match p.ops[OpIndex(p, slot)]
      case TextureFetch(opcode) => TextureFetchLine(j, opcode)
      case Fetch(fetch) => FetchLine(j, fetch)
      case Alu(alu) => AluLine(j, alu)
  }

  function BlockListing(p: Program, address: nat, n: nat): seq<Line> {
    if n == 0 then [] else BlockListing(p, address, n - 1) + [OpLine(p, n - 1, address + n - 1)]
  }

  function ItemListing(p: Program, i: nat, which: nat, cf: ControlFlow): seq<Line> {
    [FlowLine(i, which, cf)] + if IsExecFamily(cf.opcode) then BlockListing(p, cf.address, cf.count) else []
  }

  /** The lines of the first `n` control-flow slots, each instruction followed by its block. */
  function Listing(p: Program, n: nat): seq<Line>
    requires n <= |p.flow|
  {
    if n == 0 then []
    else
      Listing(p, n - 1) + (ItemListing(p, n - 1, 0, p.flow[n - 1].0) + ItemListing(p, n - 1, 1, p.flow[n - 1].1))
  }

  lemma SlotLine(p: Program, slots: seq<SlotView>, cf: ControlFlow, j: nat)
    requires Carries(p, slots) && cf.address >= |p.flow| && TypesMatch(p, cf) && j < cf.count
    ensures LineOf(VisitSlot(slots, cf, j)) == OpLine(p, j, cf.address + j)
  {
  }

  lemma LinesSnoc(vs: seq<Visit>, v: Visit)
    ensures Lines(vs + [v]) == Lines(vs) + [LineOf(v)]
  {
    assert (vs + [v])[..|vs|] == vs;
  }

  lemma {:induction false} BlockLines(p: Program, slots: seq<SlotView>, cf: ControlFlow, n: nat)
    requires Carries(p, slots) && cf.address >= |p.flow| && TypesMatch(p, cf) && n <= cf.count
    ensures Lines(SlotVisits(slots, cf, n)) == BlockListing(p, cf.address, n)
    decreases n
  {
    if n == 0 {
    } else {
      BlockLines(p, slots, cf, n - 1);
      SlotLine(p, slots, cf, n - 1);
      LinesSnoc(SlotVisits(slots, cf, n - 1), VisitSlot(slots, cf, n - 1));
    }
  }

  lemma ItemLines(p: Program, slots: seq<SlotView>, i: nat, which: nat, cf: ControlFlow)
    requires Carries(p, slots) && ValidBlock(p, cf)
    ensures Lines(ItemVisits(slots, i, which, cf)) == ItemListing(p, i, which, cf)
  {
    var flow := [Flow(i, which, cf)];
    assert Lines(flow) == [FlowLine(i, which, cf)];
    if IsExecFamily(cf.opcode) {
      BlockLines(p, slots, cf, cf.count);
      LinesAppend(flow, SlotVisits(slots, cf, cf.count));
    } else {
      assert ItemVisits(slots, i, which, cf) == flow;
    }
  }

  lemma PairLines(p: Program, slots: seq<SlotView>, i: nat, a: ControlFlow, b: ControlFlow)
    requires Carries(p, slots) && ValidBlock(p, a) && ValidBlock(p, b)
    ensures Lines(PairVisits(slots, i, [a, b], |[a, b]|)) == ItemListing(p, i, 0, a) + ItemListing(p, i, 1, b)
  {
    ItemLines(p, slots, i, 0, a);
    ItemLines(p, slots, i, 1, b);
    assert PairVisits(slots, i, [a, b], 1) == ItemVisits(slots, i, 0, a);
    LinesAppend(ItemVisits(slots, i, 0, a), ItemVisits(slots, i, 1, b));
  }

  lemma BoundStep(p: Program, end: nat, a: ControlFlow, b: ControlFlow)
    requires ValidBlock(p, a) && ValidBlock(p, b) && end >= |p.flow|
    ensures var end' := PairEnd(end, [a, b], |[a, b]|);
            && end' >= |p.flow|
            && (end == |p.flow| || AtEnd(p, a) || AtEnd(p, b) ==> end' == |p.flow|)
  {
    assert PairEnd(end, [a, b], 1) == Shrink(end, a);
    assert PairEnd(end, [a, b], 2) == Shrink(PairEnd(end, [a, b], 1), b);
  }

  /** The end bound before slot `i`: past the section until some block at its end has been seen. */
  lemma {:induction false} WalkBound(p: Program, slots: seq<SlotView>, i: nat)
    requires Carries(p, slots) && ValidBlocks(p) && i <= |p.flow|
    ensures WalkTo(slots, i).end >= |p.flow|
    ensures EndNamed(p, i) ==> WalkTo(slots, i).end == |p.flow|
    decreases i
  {
    if i == 0 {
    } else {
      WalkBound(p, slots, i - 1);
      BoundStep(p, WalkTo(slots, i - 1).end, p.flow[i - 1].0, p.flow[i - 1].1);
    }
  }

  lemma WalkStep(slots: seq<SlotView>, i: nat)
    requires i < WalkTo(slots, i).end
    ensures var pair := slots[i].pair;
      WalkTo(slots, i + 1).visits == WalkTo(slots, i).visits + PairVisits(slots, i, pair, |pair|)
  {
  }

  lemma {:induction false} WalkListing(p: Program, slots: seq<SlotView>, i: nat)
    requires Carries(p, slots) && ValidBlocks(p) && i <= |p.flow|
    ensures Lines(WalkTo(slots, i).visits) == Listing(p, i)
    decreases i
  {
    if i == 0 {
    } else {
      WalkListing(p, slots, i - 1);
      WalkBound(p, slots, i - 1);
      WalkStep(slots, i - 1);
      PairListing(p, slots, i - 1);
      var pair := slots[i - 1].pair;
      LinesAppend(WalkTo(slots, i - 1).visits, PairVisits(slots, i - 1, pair, |pair|));
    }
  }

  lemma PairListing(p: Program, slots: seq<SlotView>, i: nat)
    requires Carries(p, slots) && ValidBlocks(p) && i < |p.flow|
    ensures var pair := slots[i].pair;
      Listing(p, i + 1) == Listing(p, i) + Lines(PairVisits(slots, i, pair, |pair|))
  {
    PairLines(p, slots, i, p.flow[i].0, p.flow[i].1);
  }

  /**
   * Program round trip: walking an assembled program lists exactly its control-flow instructions, each with the
   * instructions of its block and all their fields, and stops at the end of the control-flow section.
   */
  lemma ProgramRoundTrip(p: Program)
    requires ValidFields(p) && ValidBlocks(p) && (p.ops != [] ==> EndNamed(p, |p.flow|))
    ensures Lines(Walk(Assemble(p))) == Listing(p, |p.flow|)
  {
    var slots := ViewOf(Assemble(p));
    AssembleCarries(p);
    WalkBound(p, slots, |p.flow|);
    WalkListing(p, slots, |p.flow|);
    WalkStops(slots, |p.flow|, |slots|);
  }
}
