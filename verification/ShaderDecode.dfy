/**
 * Xenos shader microcode: the bit layout of its instructions and the walk over its control-flow
 * section. A microcode program is a flat sequence of dwords in which slot k is dwords 3k..3k+2.
 * The control-flow section comes first, two instructions to a slot; it ends at the lowest address
 * any EXEC-family instruction has named so far, a bound that shrinks while the walk runs.
 */
module ShaderDecode {
  import opened Words

  datatype ControlFlowOpcode =
    | Nop | Exec | ExecEnd | CondExec | CondExecEnd | CondExecPred | CondExecPredEnd
    | LoopStart | LoopEnd | CondCall | Return | CondJmp | Alloc
    | CondExecPredClean | CondExecPredCleanEnd | MarkVsFetchDone

  const OPCODES: seq<ControlFlowOpcode> :=
    [Nop, Exec, ExecEnd, CondExec, CondExecEnd, CondExecPred, CondExecPredEnd,
     LoopStart, LoopEnd, CondCall, Return, CondJmp, Alloc,
     CondExecPredClean, CondExecPredCleanEnd, MarkVsFetchDone]

  predicate IsExecFamily(op: ControlFlowOpcode) {
    op.Exec? || op.ExecEnd? || op.CondExec? || op.CondExecEnd? || op.CondExecPred? || op.CondExecPredEnd?
    || op.CondExecPredClean? || op.CondExecPredCleanEnd?
  }

  /** `address`, `count` and `sequence` mean something only for the EXEC family, but are always decoded. */
  datatype ControlFlow = ControlFlow(opcode: ControlFlowOpcode, address: nat, count: nat, sequence: nat)

  datatype AluInstruction = AluInstruction(
    vectorDest: nat, scalarDest: nat, vectorWriteMask: nat, scalarWriteMask: nat, scalarOpcode: nat,
    vectorOpcode: nat, src1Reg: nat, src2Reg: nat, src3Reg: nat,
    src1Sel: bool, src2Sel: bool, src3Sel: bool,
    src1Swizzle: nat, src2Swizzle: nat, src3Swizzle: nat,
    src1Negate: bool, src2Negate: bool, src3Negate: bool, isPredicated: bool)

  type i23 = x: int | -0x40_0000 <= x < 0x40_0000

  datatype VertexFetch = VertexFetch(
    fetchConstantIndex: nat, srcReg: nat, destReg: nat, format: nat, stride: nat, offset: i23,
    isMiniFetch: bool, destSwizzle: nat)

  function DecodeControlFlow(word0: u32, word1: u16): ControlFlow {
    ControlFlow(OPCODES[word1 / 0x1000], word0 % 0x1000, word0 / 0x1000 % 8, word0 / 0x1_0000 % 0x1000)
  }

  /** The two 48-bit control-flow instructions of one slot. */
  function UnpackControlFlowPair(d0: u32, d1: u32, d2: u32): (pair: seq<ControlFlow>)
    ensures |pair| == 2
  {
    [DecodeControlFlow(d0, d1 % 0x1_0000),
     DecodeControlFlow(d1 / 0x1_0000 + d2 % 0x1_0000 * 0x1_0000, d2 / 0x1_0000)]
  }

  function DecodeAlu(w0: u32, w1: u32, w2: u32): AluInstruction {
    AluInstruction(
      w0 % 0x40, w0 / 0x100 % 0x40, w0 / 0x1_0000 % 0x10, w0 / 0x10_0000 % 0x10, w0 / 0x400_0000,
      w2 / 0x100_0000 % 0x20, w2 / 0x1_0000 % 0x100, w2 / 0x100 % 0x100, w2 % 0x100,
      w2 / 0x8000_0000 == 1, w2 / 0x4000_0000 % 2 == 1, w2 / 0x2000_0000 % 2 == 1,
      w1 / 0x1_0000 % 0x100, w1 / 0x100 % 0x100, w1 % 0x100,
      w1 / 0x400_0000 % 2 == 1, w1 / 0x200_0000 % 2 == 1, w1 / 0x100_0000 % 2 == 1,
      w1 / 0x1000_0000 % 2 == 1)
  }

  /** Two's complement reading of a 23-bit field. */
  function SignExtend23(raw: nat): i23
    requires raw < 0x80_0000
  {
    if raw < 0x40_0000 then raw else raw - 0x80_0000
  }

  function DecodeVertexFetch(w0: u32, w1: u32, w2: u32): VertexFetch {
    VertexFetch(
      w0 / 0x10_0000 % 0x20 * 3 + w0 / 0x200_0000 % 4, w0 / 0x20 % 0x40, w0 / 0x1000 % 0x40,
      w1 / 0x1_0000 % 0x40, w2 % 0x100, SignExtend23(w2 / 0x100 % 0x80_0000),
      w1 / 0x4000_0000 % 2 == 1, w1 % 0x1000)
  }

  /** Zero for a vertex fetch; anything else is a texture fetch. */
  function FetchOpcode(w0: u32): nat {
    w0 % 0x20
  }

  /** Source component feeding destination component `c`; ALU swizzles are relative to `c`. */
  function ResolveAluSwizzle(raw: nat, c: nat): nat {
    (raw / Pow2(2 * c) + c) % 4
  }

  /** Fetch swizzles are absolute: 0..3 a source component, 4 and 5 the constants 0 and 1, 7 keep. */
  function FetchSwizzle(raw: nat, c: nat): nat {
    raw / Pow2(3 * c) % 8
  }

  // ---------------------------------------------------------------- the walk

  /** What an instruction slot holds, once the control flow has told fetch from ALU. */
  datatype Instruction = TextureFetch(opcode: nat) | Fetch(fetch: VertexFetch) | Alu(alu: AluInstruction)

  function DecodeInstruction(isFetch: bool, w0: u32, w1: u32, w2: u32): Instruction {
    if !isFetch then Alu(DecodeAlu(w0, w1, w2))
    else if FetchOpcode(w0) != 0 then TextureFetch(FetchOpcode(w0))
    else Fetch(DecodeVertexFetch(w0, w1, w2))
  }

  /** A slot as each of the three things it can be read as: a control-flow pair, a fetch, an ALU instruction. */
  datatype SlotView = SlotView(pair: seq<ControlFlow>, asFetch: Instruction, asAlu: Instruction)

  function ViewSlot(d: seq<u32>, s: nat): (v: SlotView)
    requires s * 3 + 2 < |d|
    ensures |v.pair| == 2
  {
    var w0, w1, w2 := d[s * 3], d[s * 3 + 1], d[s * 3 + 2];
    SlotView(UnpackControlFlowPair(w0, w1, w2),
             DecodeInstruction(true, w0, w1, w2), DecodeInstruction(false, w0, w1, w2))
  }

  /** Every whole slot of a program. */
  function ViewOf(d: seq<u32>): (slots: seq<SlotView>)
    ensures |slots| == |d| / 3
  {
    seq(|d| / 3, s requires 0 <= s < |d| / 3 => ViewSlot(d, s))
  }

  /** `slots` is the program, each whole slot of it read each way. */
  ghost predicate IsView(d: seq<u32>, slots: seq<SlotView>) {
    && 3 * |slots| <= |d| < 3 * |slots| + 3
    && forall s {:trigger ViewSlot(d, s)} :: 0 <= s < |slots| ==> slots[s] == ViewSlot(d, s)
  }

  lemma ViewOfIsView(d: seq<u32>)
    ensures IsView(d, ViewOf(d))
  {
  }

  /** One thing the walk comes across: a control-flow instruction, or slot `index` of an EXEC block. */
  datatype Visit =
    | Flow(pair: nat, which: nat, cf: ControlFlow)
    | Slot(index: nat, op: Instruction)
    | OutOfRange(index: nat, slot: nat)

  /** Bit 2j of the block's sequence field tells fetch from ALU. */
  predicate IsFetchSlot(cf: ControlFlow, j: nat) {
    cf.sequence / Pow2(2 * j) % 2 == 1
  }

  function VisitSlot(slots: seq<SlotView>, cf: ControlFlow, j: nat): Visit {
    var s := cf.address + j;
    if s >= |slots| then OutOfRange(j, s)
    else Slot(j, if IsFetchSlot(cf, j) then slots[s].asFetch else slots[s].asAlu)
  }

  /** The first `n` slots of an EXEC block. */
  function SlotVisits(slots: seq<SlotView>, cf: ControlFlow, n: nat): seq<Visit> {
    if n == 0 then [] else SlotVisits(slots, cf, n - 1) + [VisitSlot(slots, cf, n - 1)]
  }

  function ItemVisits(slots: seq<SlotView>, pair: nat, which: nat, cf: ControlFlow): seq<Visit> {
    [Flow(pair, which, cf)] + if IsExecFamily(cf.opcode) then SlotVisits(slots, cf, cf.count) else []
  }

  /** The control-flow section cannot extend past the first slot some EXEC block starts at. */
  function Shrink(end: nat, cf: ControlFlow): nat {
    if IsExecFamily(cf.opcode) && cf.address < end then cf.address else end
  }

  /** The visits of the first `which` instructions of pair `i`. */
  function PairVisits(slots: seq<SlotView>, i: nat, pair: seq<ControlFlow>, which: nat): seq<Visit>
    requires which <= |pair|
  {
    if which == 0 then []
    else PairVisits(slots, i, pair, which - 1) + ItemVisits(slots, i, which - 1, pair[which - 1])
  }

  function PairEnd(end: nat, pair: seq<ControlFlow>, which: nat): (r: nat)
    requires which <= |pair|
    ensures r <= end
  {
    if which == 0 then end else Shrink(PairEnd(end, pair, which - 1), pair[which - 1])
  }

  /** Where the walk stands: its end bound, in slots, and what it has visited. */
  datatype WalkState = WalkState(end: nat, visits: seq<Visit>)

  function WalkPair(slots: seq<SlotView>, i: nat, st: WalkState): (r: WalkState)
    requires st.end <= |slots|
    ensures r.end <= |slots|
  {
    if i < st.end then
      var pair := slots[i].pair;
      WalkState(PairEnd(st.end, pair, |pair|), st.visits + PairVisits(slots, i, pair, |pair|))
    else st
  }

  /** The walk after control-flow slots 0..n-1; a slot at or past the end bound contributes nothing. */
  function WalkTo(slots: seq<SlotView>, n: nat): (r: WalkState)
    ensures r.end <= |slots|
  {
    if n == 0 then WalkState(|slots|, []) else WalkPair(slots, n - 1, WalkTo(slots, n - 1))
  }

  function WalkSlots(slots: seq<SlotView>): seq<Visit> {
    WalkTo(slots, |slots|).visits
  }

  function Walk(d: seq<u32>): seq<Visit> {
    WalkSlots(ViewOf(d))
  }

  lemma {:induction false} WalkStops(slots: seq<SlotView>, i: nat, n: nat)
    requires WalkTo(slots, i).end <= i && i <= n
    ensures WalkTo(slots, n) == WalkTo(slots, i)
    decreases n
  {
    if i == n {
    } else {
      WalkStops(slots, i, n - 1);
    }
  }

  /** No EXEC-family instruction of `pair` starts its block at or before slot `i`. */
  predicate StartsAfter(pair: seq<ControlFlow>, i: nat) {
    forall which :: 0 <= which < |pair| && IsExecFamily(pair[which].opcode) ==> i < pair[which].address
  }

  /** Slot `i` is still control flow by what the first `n` pairs say. */
  predicate FlowAfter(slots: seq<SlotView>, n: nat, i: nat)
    requires n <= |slots|
  {
    i < |slots| && forall m :: 0 <= m < n ==> StartsAfter(slots[m].pair, i)
  }

  /** The visits of pairs 0..n-1, each with its blocks. */
  function FirstPairs(slots: seq<SlotView>, n: nat): seq<Visit>
    requires n <= |slots|
  {
    if n == 0 then [] else FirstPairs(slots, n - 1) + PairVisits(slots, n - 1, slots[n - 1].pair, |slots[n - 1].pair|)
  }

  lemma {:induction false} PairBound(end: nat, pair: seq<ControlFlow>, which: nat, i: nat)
    requires which <= |pair|
    ensures i < PairEnd(end, pair, which) <==> i < end && StartsAfter(pair[..which], i)
    decreases which
  {
    if which == 0 {
    } else {
      PairBound(end, pair, which - 1, i);
      assert pair[..which] == pair[..which - 1] + [pair[which - 1]];
      assert StartsAfter(pair[..which], i) <==> StartsAfter(pair[..which - 1], i) && StartsAfter([pair[which - 1]], i);
    }
  }

  /** While every pair so far was control flow, the walk has visited all of them and its bound is exact. */
  lemma {:induction false} BoundAfter(slots: seq<SlotView>, n: nat, i: nat)
    requires n <= |slots| && forall m :: 0 <= m < n ==> FlowAfter(slots, m, m)
    ensures WalkTo(slots, n).visits == FirstPairs(slots, n)
    ensures i < WalkTo(slots, n).end <==> FlowAfter(slots, n, i)
    decreases n
  {
    hide StartsAfter;
    hide PairVisits;
    hide PairEnd;
    if n == 0 {
    } else {
      var pair := slots[n - 1].pair;
      BoundAfter(slots, n - 1, i);
      BoundAfter(slots, n - 1, n - 1);
      PairBound(WalkTo(slots, n - 1).end, pair, |pair|, i);
      assert pair[..|pair|] == pair;
    }
  }

  /**
   * The walk visits pairs 0..n-1, each once, in order and each followed by its own block, where pair `i` is among
   * them exactly when no EXEC-family instruction of an earlier pair starts its block at or before slot `i`.
   */
  lemma WalkVisits(slots: seq<SlotView>) returns (n: nat)
    ensures n <= |slots| && WalkSlots(slots) == FirstPairs(slots, n)
    ensures forall i: nat :: i < |slots| ==> (i < n <==> FlowAfter(slots, i, i))
  {
    hide WalkTo;
    hide StartsAfter;
    n := 0;
    while n < |slots| && FlowAfter(slots, n, n)
      invariant n <= |slots| && forall m :: 0 <= m < n ==> FlowAfter(slots, m, m)
    {
      n := n + 1;
    }
    BoundAfter(slots, n, n);
    WalkStops(slots, n, |slots|);
    forall i: nat | n <= i < |slots| ensures !FlowAfter(slots, i, i) {
      FlowStops(slots, n, i);
    }
  }

  /** Once a slot is no longer control flow, none behind it is. */
  lemma FlowStops(slots: seq<SlotView>, n: nat, i: nat)
    requires n <= i < |slots| && !FlowAfter(slots, n, n)
    ensures !FlowAfter(slots, i, i)
  {
    var m :| 0 <= m < n && !StartsAfter(slots[m].pair, n);
    assert !StartsAfter(slots[m].pair, i);
  }

  // ---------------------------------------------------------------- the disassembler

  /** One line of the listing, by its fields rather than its characters. */
  datatype Line =
    | FlowLine(pair: nat, which: nat, cf: ControlFlow)
    | OutOfRangeLine(index: nat, slot: nat)
    | TextureFetchLine(index: nat, opcode: nat)
    | FetchLine(index: nat, fetch: VertexFetch)
    | AluLine(index: nat, alu: AluInstruction)

  function LineOf(v: Visit): Line {
    match v
    case Flow(pair, which, cf) => FlowLine(pair, which, cf)
    case OutOfRange(j, slot) => OutOfRangeLine(j, slot)
    case Slot(j, TextureFetch(opcode)) => TextureFetchLine(j, opcode)
    case Slot(j, Fetch(fetch)) => FetchLine(j, fetch)
    case Slot(j, Alu(alu)) => AluLine(j, alu)
  }

  function Lines(vs: seq<Visit>): seq<Line> {
    if vs == [] then [] else Lines(vs[..|vs| - 1]) + [LineOf(vs[|vs| - 1])]
  }

  lemma {:induction false} LinesAppend(a: seq<Visit>, b: seq<Visit>)
    ensures Lines(a + b) == Lines(a) + Lines(b)
    decreases |b|
  {
    if b == [] {
      assert a + b == a;
    } else {
      var front := b[..|b| - 1];
      assert (a + b)[..|a + b| - 1] == a + front;
      LinesAppend(a, front);
    }
  }

  /** The instructions of one EXEC block, one line each; a slot past the end is reported, not read. */
  method DisassembleBlock(dwords: seq<u32>, cf: ControlFlow, ghost slots: seq<SlotView>) returns (lines: seq<Line>)
    requires IsView(dwords, slots)
    ensures lines == Lines(SlotVisits(slots, cf, cf.count))
  {
    lines := [];
    for j := 0 to cf.count
      invariant lines == Lines(SlotVisits(slots, cf, j))
    {
      var line := DisassembleSlot(dwords, cf, j, slots);
      lines := lines + [line];
    }
  }

  method DisassembleSlot(dwords: seq<u32>, cf: ControlFlow, j: nat, ghost slots: seq<SlotView>) returns (line: Line)
    requires IsView(dwords, slots)
    ensures line == LineOf(VisitSlot(slots, cf, j))
  {
    var slot := cf.address + j;
    var slotDwordStart := slot * 3;
    if slotDwordStart + 2 >= |dwords| {
      return OutOfRangeLine(j, slot);
    }
    assert slots[slot] == ViewSlot(dwords, slot);
    var iw0, iw1, iw2 := dwords[slotDwordStart], dwords[slotDwordStart + 1], dwords[slotDwordStart + 2];
    if IsFetchSlot(cf, j) {
      if FetchOpcode(iw0) != 0 {
        line := TextureFetchLine(j, FetchOpcode(iw0));
      } else {
        line := FetchLine(j, DecodeVertexFetch(iw0, iw1, iw2));
      }
    } else {
      line := AluLine(j, DecodeAlu(iw0, iw1, iw2));
    }
  }

  /** Both instructions of control-flow slot `i`, tightening the end bound on the way. */
  method DisassemblePair(dwords: seq<u32>, i: nat, pair: seq<ControlFlow>, end: nat, ghost slots: seq<SlotView>,
                         ghost endSlot: nat)
    returns (lines: seq<Line>, cfEndDword: nat)
    requires IsView(dwords, slots) && end == 3 * endSlot
    ensures cfEndDword == 3 * PairEnd(endSlot, pair, |pair|)
    ensures lines == Lines(PairVisits(slots, i, pair, |pair|))
  {
    hide IsView;
    hide SlotVisits;
    hide Shrink;
    lines, cfEndDword := [], end;
    for which := 0 to |pair|
      invariant lines == Lines(PairVisits(slots, i, pair, which))
      invariant cfEndDword == 3 * PairEnd(endSlot, pair, which)
    {
      var cf := pair[which];
      LinesAppend(PairVisits(slots, i, pair, which), ItemVisits(slots, i, which, cf));
      cfEndDword := TightenEnd(cfEndDword, cf, PairEnd(endSlot, pair, which));
      lines := lines + [FlowLine(i, which, cf)];
      if IsExecFamily(cf.opcode) {
        LinesAppend([Flow(i, which, cf)], SlotVisits(slots, cf, cf.count));
        var block := DisassembleBlock(dwords, cf, slots);
        lines := lines + block;
      }
    }
  }

  /** The end bound in dwords, after one more control-flow instruction. */
  method TightenEnd(end: nat, cf: ControlFlow, ghost endSlot: nat) returns (cfEndDword: nat)
    requires end == 3 * endSlot
    ensures cfEndDword == 3 * Shrink(endSlot, cf)
  {
    cfEndDword := end;
    if IsExecFamily(cf.opcode) {
      var candidateEnd := cf.address * 3;
      if candidateEnd < cfEndDword {
        cfEndDword := candidateEnd;
      }
    }
  }

  method DisassembleWalk(dwords: seq<u32>, ghost slots: seq<SlotView>) returns (lines: seq<Line>)
    requires IsView(dwords, slots)
    ensures lines == Lines(WalkSlots(slots))
  {
    lines := [];
    var cfEndDword: nat := |dwords| / 3 * 3;
    var i: nat := 0;
    while i * 3 < cfEndDword
      invariant i <= |slots|
      invariant cfEndDword == 3 * WalkTo(slots, i).end
      invariant lines == Lines(WalkTo(slots, i).visits)
      decreases |slots| - i
    {
      lines, cfEndDword := DisassembleAt(dwords, i, cfEndDword, lines, slots);
      i := i + 1;
    }
    WalkStops(slots, i, |slots|);
  }

  /** Control-flow slot `i`, which the walk reaches. */
  method DisassembleAt(dwords: seq<u32>, i: nat, end: nat, before: seq<Line>, ghost slots: seq<SlotView>)
    returns (lines: seq<Line>, cfEndDword: nat)
    requires IsView(dwords, slots) && end == 3 * WalkTo(slots, i).end && i * 3 < end
    requires before == Lines(WalkTo(slots, i).visits)
    ensures cfEndDword == 3 * WalkTo(slots, i + 1).end
    ensures lines == Lines(WalkTo(slots, i + 1).visits)
  {
    var pair := PairOf(dwords, i, slots);
    LinesAppend(WalkTo(slots, i).visits, PairVisits(slots, i, pair, |pair|));
    lines, cfEndDword := DisassemblePair(dwords, i, pair, end, slots, WalkTo(slots, i).end);
    lines := before + lines;
  }

  method PairOf(dwords: seq<u32>, i: nat, ghost slots: seq<SlotView>) returns (pair: seq<ControlFlow>)
    requires IsView(dwords, slots) && i < |slots|
    ensures pair == slots[i].pair
  {
    assert slots[i] == ViewSlot(dwords, i);
    pair := UnpackControlFlowPair(dwords[i * 3], dwords[i * 3 + 1], dwords[i * 3 + 2]);
  }

  /** The static disassembly lists exactly what the walk visits, in order, for any dword count. */
  method DecodeShaderMicrocode(dwords: seq<u32>) returns (lines: seq<Line>)
    ensures lines == Lines(Walk(dwords))
  {
    ViewOfIsView(dwords);
    lines := DisassembleWalk(dwords, ViewOf(dwords));
  }
}
