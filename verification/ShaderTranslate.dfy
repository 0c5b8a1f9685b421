/**
 * The fail-closed translator from microcode to an attribute list and a list of export assignments.
 * `Translate` says declaratively what a translation is; `TranslateShader` is the one-pass loop that
 * computes it.
 */
module ShaderTranslate {
  import opened Words
  import opened ShaderDecode

  datatype VertexFormat = Float3 | Float4

  datatype Attribute = Attribute(fetchConstantIndex: nat, destReg: nat, format: VertexFormat, byteOffset: u32)

  datatype Export = Export(exportRegister: nat, sourceRegister: nat)

  datatype Failure =
    | ConditionalFlow | UnsupportedFlow | SlotPastEnd
    | TextureFetchOp | UnknownFormat | FetchSwizzleNotIdentity | MiniFetchFirst
    | ScalarOp | PredicatedOrNegated | NotSelfMov | UnknownVertexExport | SourceNotFetched
    | UnknownPixelExport | AluSwizzleNotIdentity
    | NothingRecognized | NoPixelExports | PixelSourceNotZero

  /** The generated vertex function: its `[[attribute(i)]]` fields and its assignments, in order. */
  datatype Field = Field(format: VertexFormat, register: nat, attribute: nat)
  datatype Assignment = AssignPosition(register: nat) | AssignInterpolator(index: nat, register: nat)
  datatype VertexProgram = VertexProgram(fields: seq<Field>, assignments: seq<Assignment>)

  type WholeDwords = n: nat | n % 4 == 0

  datatype TranslationResult = TranslationResult(
    success: bool, failure: Option<Failure>, attributes: seq<Attribute>,
    vertexExports: seq<Export>, pixelExports: seq<Export>, vertexStrideBytes: WholeDwords,
    vertexSource: Option<VertexProgram>, hasFragmentSource: bool)

  const NO_TRANSLATION := TranslationResult(false, None, [], [], [], 0, None, false)

  function Failed(f: Failure): TranslationResult {
    NO_TRANSLATION.(failure := Some(f))
  }

  // ---------------------------------------------------------------- what one instruction contributes

  function FormatOf(raw: nat): Option<VertexFormat> {
    if raw == 57 then Some(Float3) else if raw == 38 then Some(Float4) else None
  }

  /** Every component comes from itself, except that a Float3's w may be filled with the constant 0 or 1. */
  predicate FetchSwizzleOk(raw: nat, format: VertexFormat) {
    forall c :: 0 <= c < 4 ==>
      FetchSwizzle(raw, c) == c
      || (format.Float3? && c == 3 && (FetchSwizzle(raw, c) == 4 || FetchSwizzle(raw, c) == 5))
  }

  predicate AluSwizzleOk(alu: AluInstruction) {
    forall c :: 0 <= c < 4 ==> ResolveAluSwizzle(alu.src1Swizzle, c) == c && ResolveAluSwizzle(alu.src2Swizzle, c) == c
  }

  predicate IsSelfMov(alu: AluInstruction) {
    alu.vectorOpcode == 2 && alu.src1Reg == alu.src2Reg && alu.src1Sel && alu.src2Sel
  }

  predicate IsFetch(v: Visit) {
    v.Slot? && v.op.Fetch?
  }

  function FetchOf(v: Visit): VertexFetch
    requires IsFetch(v)
  {
    v.op.fetch
  }

  predicate IsFullFetch(v: Visit) {
    IsFetch(v) && !FetchOf(v).isMiniFetch
  }

  predicate IsAlu(v: Visit) {
    v.Slot? && v.op.Alu?
  }

  function AluOf(v: Visit): AluInstruction
    requires IsAlu(v)
  {
    v.op.alu
  }

  /** An ALU instruction whose vector half writes something. */
  predicate IsLiveAlu(v: Visit) {
    IsAlu(v) && AluOf(v).vectorWriteMask != 0
  }

  // ---------------------------------------------------------------- the declarative translation

  function LastFullFetch(vs: seq<Visit>): Option<VertexFetch> {
    if vs == [] then None
    else if IsFullFetch(vs[|vs| - 1]) then Some(FetchOf(vs[|vs| - 1]))
    else LastFullFetch(vs[..|vs| - 1])
  }

  /** The constant of the nearest full fetch at or before the end of `vs`. */
  function EffectiveConstant(vs: seq<Visit>): nat {
    match LastFullFetch(vs) case Some(f) => f.fetchConstantIndex case None => 0
  }

  function StrideBytes(vs: seq<Visit>): WholeDwords {
    match LastFullFetch(vs) case Some(f) => f.stride * 4 case None => 0
  }

  function AttributeOf(vs: seq<Visit>): Attribute
    requires vs != [] && IsFetch(vs[|vs| - 1])
  {
    var f := FetchOf(vs[|vs| - 1]);
    Attribute(EffectiveConstant(vs), f.destReg, if f.format == 57 then Float3 else Float4, f.offset * 4 % TWO32)
  }

  function Attributes(vs: seq<Visit>): seq<Attribute> {
    if vs == [] then []
    else Attributes(vs[..|vs| - 1]) + if IsFetch(vs[|vs| - 1]) then [AttributeOf(vs)] else []
  }

  function Exports(vs: seq<Visit>): seq<Export> {
    if vs == [] then []
    else
      var v := vs[|vs| - 1];
      Exports(vs[..|vs| - 1]) + if IsLiveAlu(v) then [Export(AluOf(v).vectorDest, AluOf(v).src1Reg)] else []
  }

  predicate WasFetched(attributes: seq<Attribute>, register: nat) {
    exists k :: 0 <= k < |attributes| && attributes[k].destReg == register
  }

  function FlowVerdict(cf: ControlFlow): Option<Failure> {
    if IsExecFamily(cf.opcode) && !cf.opcode.Exec? && !cf.opcode.ExecEnd? then Some(ConditionalFlow)
    else if !IsExecFamily(cf.opcode) && !cf.opcode.Nop? && !cf.opcode.Alloc? then Some(UnsupportedFlow)
    else None
  }

  function FetchVerdict(before: seq<Visit>, f: VertexFetch): Option<Failure> {
    if FormatOf(f.format).None? then Some(UnknownFormat)
    else if !FetchSwizzleOk(f.destSwizzle, FormatOf(f.format).value) then Some(FetchSwizzleNotIdentity)
    else if f.isMiniFetch && LastFullFetch(before).None? then Some(MiniFetchFirst)
    else None
  }

  function AluVerdict(before: seq<Visit>, alu: AluInstruction, shaderType: int): Option<Failure> {
    if alu.scalarWriteMask != 0 && alu.scalarOpcode != 50 then Some(ScalarOp)
    else if alu.vectorWriteMask == 0 then None
    else if alu.isPredicated || alu.src1Negate || alu.src2Negate then Some(PredicatedOrNegated)
    else if !IsSelfMov(alu) then Some(NotSelfMov)
    else if shaderType == 0 && alu.vectorDest != 0 && alu.vectorDest != 62 then Some(UnknownVertexExport)
    else if shaderType == 0 && !WasFetched(Attributes(before), alu.src1Reg) then Some(SourceNotFetched)
    else if shaderType != 0 && alu.vectorDest != 0 then Some(UnknownPixelExport)
    else if !AluSwizzleOk(alu) then Some(AluSwizzleNotIdentity)
    else None
  }

  /** Why `v` cannot be translated after `before`, if it cannot. */
  function Verdict(before: seq<Visit>, v: Visit, shaderType: int): Option<Failure> {
    match v
    case Flow(_, _, cf) => FlowVerdict(cf)
    case OutOfRange(_, _) => Some(SlotPastEnd)
    case Slot(_, TextureFetch(_)) => Some(TextureFetchOp)
    case Slot(_, Fetch(fetch)) => FetchVerdict(before, fetch)
    case Slot(_, Alu(alu)) => AluVerdict(before, alu, shaderType)
  }

  /** The failure of the first visit that cannot be translated. */
  function FirstFailure(vs: seq<Visit>, shaderType: int): Option<Failure> {
    if vs == [] then None
    else
      var front := vs[..|vs| - 1];
      var f := FirstFailure(front, shaderType);
      if f.Some? then f else Verdict(front, vs[|vs| - 1], shaderType)
  }

  /** The lists gathered from a stream of accepted visits. */
  function Collected(vs: seq<Visit>, shaderType: int): TranslationResult {
    TranslationResult(true, None, Attributes(vs),
                      if shaderType == 1 then [] else Exports(vs),
                      if shaderType == 1 then Exports(vs) else [],
                      StrideBytes(vs), None, false)
  }

  function FieldsOf(attributes: seq<Attribute>): seq<Field> {
    seq(|attributes|, i requires 0 <= i < |attributes| => Field(attributes[i].format, attributes[i].destReg, i))
  }

  function AssignmentOf(e: Export): Assignment {
    if e.exportRegister == 62 then AssignPosition(e.sourceRegister)
    else AssignInterpolator(e.exportRegister, e.sourceRegister)
  }

  function AssignmentsOf(exports: seq<Export>): seq<Assignment> {
    seq(|exports|, i requires 0 <= i < |exports| => AssignmentOf(exports[i]))
  }

  /** The checks and the emission that follow the walk. */
  function Finish(r: TranslationResult, shaderType: int): TranslationResult {
    if shaderType == 0 then
      if r.attributes == [] || r.vertexExports == [] then Failed(NothingRecognized)
      else r.(vertexSource := Some(VertexProgram(FieldsOf(r.attributes), AssignmentsOf(r.vertexExports))))
    else if r.pixelExports == [] then Failed(NoPixelExports)
    else if r.pixelExports[0].sourceRegister != 0 then Failed(PixelSourceNotZero)
    else r.(hasFragmentSource := true)
  }

  function Translate(d: seq<u32>, shaderType: int): TranslationResult {
    match FirstFailure(Walk(d), shaderType)
    case Some(f) => Failed(f)
    case None => Finish(Collected(Walk(d), shaderType), shaderType)
  }

  // ---------------------------------------------------------------- the one-pass loop

  /** What the loop carries: the lists so far, the last full fetch's constant, and the failure that stopped it. */
  datatype Progress = Progress(
    result: TranslationResult, sawFullFetch: bool, lastFullFetchConstantIndex: nat, failure: Option<Failure>)

  const START := Progress(NO_TRANSLATION.(success := true), false, 0, None)

  function FetchStep(p: Progress, vf: VertexFetch): Progress {
    var format := FormatOf(vf.format);
    if format.None? then p.(failure := Some(UnknownFormat))
    else if !FetchSwizzleOk(vf.destSwizzle, format.value) then p.(failure := Some(FetchSwizzleNotIdentity))
    else if vf.isMiniFetch && !p.sawFullFetch then p.(failure := Some(MiniFetchFirst))
    else
      var p' := if vf.isMiniFetch then p
                else Progress(p.result.(vertexStrideBytes := vf.stride * 4), true, vf.fetchConstantIndex, None);
      var a := Attribute(p'.lastFullFetchConstantIndex, vf.destReg, format.value, vf.offset * 4 % TWO32);
      p'.(result := p'.result.(attributes := p'.result.attributes + [a]))
  }

  function AluStep(p: Progress, alu: AluInstruction, shaderType: int): Progress {
    if alu.scalarWriteMask != 0 && alu.scalarOpcode != 50 then p.(failure := Some(ScalarOp))
    else if alu.vectorWriteMask == 0 then p
    else if alu.isPredicated || alu.src1Negate || alu.src2Negate then p.(failure := Some(PredicatedOrNegated))
    else if !IsSelfMov(alu) then p.(failure := Some(NotSelfMov))
    else if shaderType == 0 && alu.vectorDest != 0 && alu.vectorDest != 62 then
      p.(failure := Some(UnknownVertexExport))
    else if shaderType == 0 && !WasFetched(p.result.attributes, alu.src1Reg) then p.(failure := Some(SourceNotFetched))
    else if shaderType != 0 && alu.vectorDest != 0 then p.(failure := Some(UnknownPixelExport))
    else if !AluSwizzleOk(alu) then p.(failure := Some(AluSwizzleNotIdentity))
    else
      var e := Export(alu.vectorDest, alu.src1Reg);
      p.(result := if shaderType == 1
                   then p.result.(pixelExports := p.result.pixelExports + [e])
                   else p.result.(vertexExports := p.result.vertexExports + [e]))
  }

  function Step(p: Progress, v: Visit, shaderType: int): Progress {
    match v
    case Flow(_, _, cf) => if FlowVerdict(cf).Some? then p.(failure := FlowVerdict(cf)) else p
    case OutOfRange(_, _) => p.(failure := Some(SlotPastEnd))
    case Slot(_, TextureFetch(_)) => p.(failure := Some(TextureFetchOp))
    case Slot(_, Fetch(fetch)) => FetchStep(p, fetch)
    case Slot(_, Alu(alu)) => AluStep(p, alu, shaderType)
  }

  /** The loop's state after a stream of visits; nothing is looked at after a failure. */
  function Run(vs: seq<Visit>, shaderType: int): Progress {
    if vs == [] then START
    else
      var p := Run(vs[..|vs| - 1], shaderType);
      if p.failure.Some? then p else Step(p, vs[|vs| - 1], shaderType)
  }

  /** What the running state says about the visits behind it. */
  ghost predicate Tracks(p: Progress, done: seq<Visit>, shaderType: int) {
    && p.result == Collected(done, shaderType)
    && p.sawFullFetch == LastFullFetch(done).Some?
    && (p.sawFullFetch ==> p.lastFullFetchConstantIndex == EffectiveConstant(done))
  }

  lemma FetchStepRefines(p: Progress, done: seq<Visit>, v: Visit, shaderType: int)
    requires IsFetch(v) && p.failure.None? && Tracks(p, done, shaderType)
    ensures Step(p, v, shaderType).failure == Verdict(done, v, shaderType)
    ensures Verdict(done, v, shaderType).None? ==> Tracks(Step(p, v, shaderType), done + [v], shaderType)
  {
    assert (done + [v])[..|done|] == done;
  }

  lemma AluStepRefines(p: Progress, done: seq<Visit>, v: Visit, shaderType: int)
    requires IsAlu(v) && p.failure.None? && Tracks(p, done, shaderType)
    ensures Step(p, v, shaderType).failure == Verdict(done, v, shaderType)
    ensures Verdict(done, v, shaderType).None? ==> Tracks(Step(p, v, shaderType), done + [v], shaderType)
  {
    hide AluSwizzleOk;
    hide IsSelfMov;
    assert (done + [v])[..|done|] == done;
  }

  lemma StepRefines(p: Progress, done: seq<Visit>, v: Visit, shaderType: int)
    requires p.failure.None? && Tracks(p, done, shaderType)
    ensures Step(p, v, shaderType).failure == Verdict(done, v, shaderType)
    ensures Verdict(done, v, shaderType).None? ==> Tracks(Step(p, v, shaderType), done + [v], shaderType)
  {
    if IsFetch(v) {
      FetchStepRefines(p, done, v, shaderType);
    } else if IsAlu(v) {
      AluStepRefines(p, done, v, shaderType);
    } else {
      assert (done + [v])[..|done|] == done;
    }
  }

  /** The running state is the declarative one: same first failure, and same lists while there is none. */
  lemma {:induction false} RunRefines(vs: seq<Visit>, shaderType: int)
    ensures Run(vs, shaderType).failure == FirstFailure(vs, shaderType)
    ensures FirstFailure(vs, shaderType).None? ==> Tracks(Run(vs, shaderType), vs, shaderType)
    decreases |vs|
  {
    if vs == [] {
    } else {
      var front, v := vs[..|vs| - 1], vs[|vs| - 1];
      assert vs == front + [v];
      RunRefines(front, shaderType);
      if FirstFailure(front, shaderType).None? {
        StepRefines(Run(front, shaderType), front, v, shaderType);
      }
    }
  }

  lemma RunAppend(vs: seq<Visit>, v: Visit, shaderType: int)
    ensures Run(vs + [v], shaderType)
         == var p := Run(vs, shaderType); if p.failure.Some? then p else Step(p, v, shaderType)
  {
    assert (vs + [v])[..|vs|] == vs;
  }

  /** What follows a failure cannot change it. */
  lemma {:induction false} RunStuck(a: seq<Visit>, b: seq<Visit>, shaderType: int)
    requires a <= b && Run(a, shaderType).failure.Some?
    ensures Run(b, shaderType) == Run(a, shaderType)
    decreases |b|
  {
    if |a| == |b| {
      assert a == b;
    } else {
      RunStuck(a, b[..|b| - 1], shaderType);
    }
  }

  lemma {:induction false} SlotsPrefix(slots: seq<SlotView>, cf: ControlFlow, n: nat, m: nat)
    requires n <= m
    ensures SlotVisits(slots, cf, n) <= SlotVisits(slots, cf, m)
    decreases m
  {
    if n == m {
    } else {
      SlotsPrefix(slots, cf, n, m - 1);
    }
  }

  /** A block, a pair or a walk that has failed ends in that failure. */
  lemma BlockStuck(slots: seq<SlotView>, cf: ControlFlow, done: seq<Visit>, n: nat, m: nat, shaderType: int)
    requires n <= m && Run(done + SlotVisits(slots, cf, n), shaderType).failure.Some?
    ensures Run(done + SlotVisits(slots, cf, m), shaderType) == Run(done + SlotVisits(slots, cf, n), shaderType)
  {
    SlotsPrefix(slots, cf, n, m);
    PrefixStuck(done, SlotVisits(slots, cf, n), SlotVisits(slots, cf, m), shaderType);
  }

  lemma PrefixStuck(done: seq<Visit>, a: seq<Visit>, b: seq<Visit>, shaderType: int)
    requires a <= b && Run(done + a, shaderType).failure.Some?
    ensures Run(done + b, shaderType) == Run(done + a, shaderType)
  {
    RunStuck(done + a, done + b, shaderType);
  }

  lemma {:induction false} PairStuck(slots: seq<SlotView>, i: nat, pair: seq<ControlFlow>, done: seq<Visit>, n: nat,
                                     m: nat, shaderType: int)
    requires n <= m <= |pair| && Run(done + PairVisits(slots, i, pair, n), shaderType).failure.Some?
    ensures Run(done + PairVisits(slots, i, pair, m), shaderType)
         == Run(done + PairVisits(slots, i, pair, n), shaderType)
    decreases m
  {
    if n == m {
    } else {
      PairStuck(slots, i, pair, done, n, m - 1, shaderType);
      var before, item := done + PairVisits(slots, i, pair, m - 1), ItemVisits(slots, i, m - 1, pair[m - 1]);
      assert done + PairVisits(slots, i, pair, m) == before + item;
      RunStuck(before, before + item, shaderType);
    }
  }

  lemma {:induction false} WalkStuck(slots: seq<SlotView>, n: nat, m: nat, shaderType: int)
    requires n <= m && Run(WalkTo(slots, n).visits, shaderType).failure.Some?
    ensures Run(WalkTo(slots, m).visits, shaderType) == Run(WalkTo(slots, n).visits, shaderType)
    decreases m
  {
    hide Step;
    hide PairVisits;
    if n == m {
    } else {
      WalkStuck(slots, n, m - 1, shaderType);
      RunStuck(WalkTo(slots, m - 1).visits, WalkTo(slots, m).visits, shaderType);
    }
  }

  method TranslateFetch(p: Progress, vf: VertexFetch) returns (p': Progress)
    requires p.failure.None?
    ensures p' == FetchStep(p, vf)
  {
    p' := p;
    var format: VertexFormat;
    if vf.format == 57 {
      format := Float3;
    } else if vf.format == 38 {
      format := Float4;
    } else {
      return p.(failure := Some(UnknownFormat));
    }
    if !FetchSwizzleOk(vf.destSwizzle, format) {
      return p.(failure := Some(FetchSwizzleNotIdentity));
    }
    if vf.isMiniFetch {
      if !p.sawFullFetch {
        return p.(failure := Some(MiniFetchFirst));
      }
    } else {
      p' := Progress(p.result.(vertexStrideBytes := vf.stride * 4), true, vf.fetchConstantIndex, None);
    }
    var attribute := Attribute(p'.lastFullFetchConstantIndex, vf.destReg, format, vf.offset * 4 % TWO32);
    p' := p'.(result := p'.result.(attributes := p'.result.attributes + [attribute]));
  }

  method TranslateAlu(p: Progress, alu: AluInstruction, shaderType: int) returns (p': Progress)
    requires p.failure.None?
    ensures p' == AluStep(p, alu, shaderType)
  {
    p' := p;
    if alu.scalarWriteMask != 0 && alu.scalarOpcode != 50 {
      return p.(failure := Some(ScalarOp));
    }
    if alu.vectorWriteMask == 0 {
      return;
    }
    if alu.isPredicated || alu.src1Negate || alu.src2Negate {
      return p.(failure := Some(PredicatedOrNegated));
    }
    if !IsSelfMov(alu) {
      return p.(failure := Some(NotSelfMov));
    }
    if shaderType == 0 {
      if alu.vectorDest != 0 && alu.vectorDest != 62 {
        return p.(failure := Some(UnknownVertexExport));
      }
      if !WasFetched(p.result.attributes, alu.src1Reg) {
        return p.(failure := Some(SourceNotFetched));
      }
    } else if alu.vectorDest != 0 {
      return p.(failure := Some(UnknownPixelExport));
    }
    if !AluSwizzleOk(alu) {
      return p.(failure := Some(AluSwizzleNotIdentity));
    }
    var e := Export(alu.vectorDest, alu.src1Reg);
    if shaderType == 1 {
      p' := p.(result := p.result.(pixelExports := p.result.pixelExports + [e]));
    } else {
      p' := p.(result := p.result.(vertexExports := p.result.vertexExports + [e]));
    }
  }

  /** Slot `j` of an EXEC block. */
  method TranslateSlot(dwords: seq<u32>, cf: ControlFlow, j: nat, p: Progress, shaderType: int,
                       ghost slots: seq<SlotView>, ghost done: seq<Visit>)
    returns (p': Progress)
    requires IsView(dwords, slots)
    requires p == Run(done + SlotVisits(slots, cf, j), shaderType) && p.failure.None?
    ensures p' == Run(done + SlotVisits(slots, cf, j + 1), shaderType)
  {
    RunSlot(slots, cf, done, j, shaderType);
    p' := TranslateInstruction(dwords, cf, j, p, shaderType, slots);
  }

  lemma RunSlot(slots: seq<SlotView>, cf: ControlFlow, done: seq<Visit>, j: nat, shaderType: int)
    requires Run(done + SlotVisits(slots, cf, j), shaderType).failure.None?
    ensures Run(done + SlotVisits(slots, cf, j + 1), shaderType)
         == Step(Run(done + SlotVisits(slots, cf, j), shaderType), VisitSlot(slots, cf, j), shaderType)
  {
    var before, v := done + SlotVisits(slots, cf, j), VisitSlot(slots, cf, j);
    RunAppend(before, v, shaderType);
    assert done + SlotVisits(slots, cf, j + 1) == before + [v];
  }

  method TranslateInstruction(dwords: seq<u32>, cf: ControlFlow, j: nat, p: Progress, shaderType: int,
                              ghost slots: seq<SlotView>)
    returns (p': Progress)
    requires IsView(dwords, slots) && p.failure.None?
    ensures p' == Step(p, VisitSlot(slots, cf, j), shaderType)
  {
    hide FetchStep;
    hide AluStep;
    hide DecodeAlu;
    hide DecodeVertexFetch;
    var slot := cf.address + j;
    var slotDwordStart := slot * 3;
    if slotDwordStart + 2 >= |dwords| {
      return p.(failure := Some(SlotPastEnd));
    }
    assert slots[slot] == ViewSlot(dwords, slot);
    var iw0, iw1, iw2 := dwords[slotDwordStart], dwords[slotDwordStart + 1], dwords[slotDwordStart + 2];
    if IsFetchSlot(cf, j) {
      if FetchOpcode(iw0) != 0 {
        return p.(failure := Some(TextureFetchOp));
      }
      p' := TranslateFetch(p, DecodeVertexFetch(iw0, iw1, iw2));
    } else {
      p' := TranslateAlu(p, DecodeAlu(iw0, iw1, iw2), shaderType);
    }
  }

  method TranslateBlock(dwords: seq<u32>, cf: ControlFlow, p: Progress, shaderType: int,
                        ghost slots: seq<SlotView>, ghost done: seq<Visit>)
    returns (p': Progress)
    requires IsView(dwords, slots) && p == Run(done, shaderType) && p.failure.None?
    ensures p' == Run(done + SlotVisits(slots, cf, cf.count), shaderType)
  {
    p' := p;
    assert done + SlotVisits(slots, cf, 0) == done;
    for j := 0 to cf.count
      invariant p' == Run(done + SlotVisits(slots, cf, j), shaderType) && p'.failure.None?
    {
      p' := TranslateSlot(dwords, cf, j, p', shaderType, slots, done);
      if p'.failure.Some? {
        BlockStuck(slots, cf, done, j + 1, cf.count, shaderType);
        return;
      }
    }
  }

  /** Instruction `which` of a pair, with its block. */
  method TranslateFlow(dwords: seq<u32>, i: nat, pair: seq<ControlFlow>, which: nat, p: Progress, shaderType: int,
                       ghost slots: seq<SlotView>, ghost start: seq<Visit>)
    returns (p': Progress)
    requires IsView(dwords, slots) && which < |pair|
    requires p == Run(start + PairVisits(slots, i, pair, which), shaderType) && p.failure.None?
    ensures p' == Run(start + PairVisits(slots, i, pair, which + 1), shaderType)
  {
    var cf := pair[which];
    ghost var done := start + PairVisits(slots, i, pair, which);
    ghost var seen := done + [Flow(i, which, cf)];
    ghost var all := done + ItemVisits(slots, i, which, cf);
    assert all == start + PairVisits(slots, i, pair, which + 1);
    RunAppend(done, Flow(i, which, cf), shaderType);
    var isExecFamily := IsExecFamily(cf.opcode);
    var isUnconditionalExec := cf.opcode.Exec? || cf.opcode.ExecEnd?;
    if isExecFamily && !isUnconditionalExec {
      RunStuck(seen, all, shaderType);
      return p.(failure := Some(ConditionalFlow));
    }
    if !isExecFamily {
      if !cf.opcode.Nop? && !cf.opcode.Alloc? {
        return p.(failure := Some(UnsupportedFlow));
      }
      return p;
    }
    assert all == seen + SlotVisits(slots, cf, cf.count);
    p' := TranslateBlock(dwords, cf, p, shaderType, slots, seen);
  }

  method TranslatePair(dwords: seq<u32>, i: nat, pair: seq<ControlFlow>, end: nat, p: Progress, shaderType: int,
                       ghost slots: seq<SlotView>, ghost endSlot: nat, ghost start: seq<Visit>)
    returns (p': Progress, cfEndDword: nat)
    requires IsView(dwords, slots) && end == 3 * endSlot && p == Run(start, shaderType) && p.failure.None?
    ensures p' == Run(start + PairVisits(slots, i, pair, |pair|), shaderType)
    ensures p'.failure.None? ==> cfEndDword == 3 * PairEnd(endSlot, pair, |pair|)
  {
    p', cfEndDword := p, end;
    assert start + PairVisits(slots, i, pair, 0) == start;
    for which := 0 to |pair|
      invariant p' == Run(start + PairVisits(slots, i, pair, which), shaderType) && p'.failure.None?
      invariant cfEndDword == 3 * PairEnd(endSlot, pair, which)
    {
      p' := TranslateFlow(dwords, i, pair, which, p', shaderType, slots, start);
      if p'.failure.Some? {
        PairStuck(slots, i, pair, start, which + 1, |pair|, shaderType);
        return;
      }
      cfEndDword := TightenEnd(cfEndDword, pair[which], PairEnd(endSlot, pair, which));
    }
  }

  /** Control-flow slot `i`, which the walk reaches. */
  method TranslateAt(dwords: seq<u32>, i: nat, end: nat, p: Progress, shaderType: int, ghost slots: seq<SlotView>)
    returns (p': Progress, cfEndDword: nat)
    requires IsView(dwords, slots) && end == 3 * WalkTo(slots, i).end && i * 3 < end
    requires p == Run(WalkTo(slots, i).visits, shaderType) && p.failure.None?
    ensures p' == Run(WalkTo(slots, i + 1).visits, shaderType)
    ensures p'.failure.None? ==> cfEndDword == 3 * WalkTo(slots, i + 1).end
  {
    var pair := PairOf(dwords, i, slots);
    p', cfEndDword := TranslatePair(dwords, i, pair, end, p, shaderType, slots, WalkTo(slots, i).end,
                                   WalkTo(slots, i).visits);
  }

  method WalkAndCollect(dwords: seq<u32>, shaderType: int, ghost slots: seq<SlotView>) returns (p: Progress)
    requires IsView(dwords, slots)
    ensures p == Run(WalkSlots(slots), shaderType)
  {
    p := START;
    var cfEndDword: nat := |dwords| / 3 * 3;
    var i: nat := 0;
    while i * 3 < cfEndDword
      invariant i <= |slots|
      invariant cfEndDword == 3 * WalkTo(slots, i).end
      invariant p == Run(WalkTo(slots, i).visits, shaderType) && p.failure.None?
      decreases |slots| - i
    {
      p, cfEndDword := TranslateAt(dwords, i, cfEndDword, p, shaderType, slots);
      i := i + 1;
      if p.failure.Some? {
        WalkStuck(slots, i, |slots|, shaderType);
        return;
      }
    }
    WalkStops(slots, i, |slots|);
  }

  method EmitVertexProgram(r: TranslationResult) returns (program: VertexProgram)
    ensures program == VertexProgram(FieldsOf(r.attributes), AssignmentsOf(r.vertexExports))
  {
    var fields: seq<Field> := [];
    for i := 0 to |r.attributes|
      invariant fields == FieldsOf(r.attributes)[..i]
    {
      fields := fields + [Field(r.attributes[i].format, r.attributes[i].destReg, i)];
    }
    var assignments: seq<Assignment> := [];
    for i := 0 to |r.vertexExports|
      invariant assignments == AssignmentsOf(r.vertexExports)[..i]
    {
      var e := r.vertexExports[i];
      if e.exportRegister == 62 {
        assignments := assignments + [AssignPosition(e.sourceRegister)];
      } else {
        assignments := assignments + [AssignInterpolator(e.exportRegister, e.sourceRegister)];
      }
    }
    program := VertexProgram(fields, assignments);
  }

  /** The loop, its early exits and its final checks compute the declarative translation. */
  method TranslateShader(dwords: seq<u32>, shaderType: int) returns (r: TranslationResult)
    ensures r == Translate(dwords, shaderType)
  {
    ViewOfIsView(dwords);
    var p := WalkAndCollect(dwords, shaderType, ViewOf(dwords));
    RunRefines(Walk(dwords), shaderType);
    if p.failure.Some? {
      return Failed(p.failure.value);
    }
    r := p.result;
    if shaderType == 0 {
      if r.attributes == [] || r.vertexExports == [] {
        return Failed(NothingRecognized);
      }
      var program := EmitVertexProgram(r);
      r := r.(vertexSource := Some(program));
    } else {
      if r.pixelExports == [] {
        return Failed(NoPixelExports);
      }
      if r.pixelExports[0].sourceRegister != 0 {
        return Failed(PixelSourceNotZero);
      }
      r := r.(hasFragmentSource := true);
    }
  }
}
