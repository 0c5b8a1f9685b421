/**
 * What an accepted vertex program means. A reference interpreter executes the decoded fetch and max
 * instructions one by one; the translated program reads each attribute from the vertex record and runs
 * its assignments. Vertex components are reals.
 */
module ShaderMeaning {
  import opened Words
  import opened ShaderDecode
  import opened ShaderTranslate
  import opened TranslatorSpec

  type Vec4 = v: seq<real> | |v| == 4 witness [0.0, 0.0, 0.0, 0.0]

  const ZERO: Vec4 := [0.0, 0.0, 0.0, 0.0]

  /** Vertex memory: the value of dword `i` of the buffer behind a fetch constant. */
  type VertexData = (nat, int) -> real

  /** The shader constants, which an ALU source reads when its select bit is clear. */
  type Constants = nat -> Vec4

  function Width(format: VertexFormat): nat {
    if format.Float3? then 3 else 4
  }

  function ReadOr(m: map<nat, Vec4>, register: nat): Vec4 {
    if register in m then m[register] else ZERO
  }

  // ---------------------------------------------------------------- the reference interpreter

  /** Register file, export registers, and the constant and stride (in dwords) of the last full fetch. */
  datatype Shader = Shader(regs: map<nat, Vec4>, exports: map<nat, Vec4>, constant: nat, stride: nat)

  /** Component `c` of a fetch: a source component, a constant, or the register's old component. */
  function FetchComponent(f: VertexFetch, width: nat, old_: Vec4, data: VertexData, constant: nat, base: int,
                          c: nat): real
    requires c < 4
  {
    var s := FetchSwizzle(f.destSwizzle, c);
    if s < width then data(constant, base + s)
    else if s < 4 then 0.0
    else if s == 4 then 0.0
    else if s == 5 then 1.0
    else old_[c]
  }

  function ExecFetch(s: Shader, f: VertexFetch, data: VertexData, vertex: nat): Shader {
    var s' := if f.isMiniFetch then s else s.(constant := f.fetchConstantIndex, stride := f.stride);
    var width := if f.format == 57 then 3 else 4;
    var base := vertex * s'.stride + f.offset;
    var old_ := ReadOr(s.regs, f.destReg);
    var v := seq(4, c requires 0 <= c < 4 => FetchComponent(f, width, old_, data, s'.constant, base, c));
    s'.(regs := s'.regs[f.destReg := v])
  }

  function Negated(x: real, negate: bool): real {
    if negate then -x else x
  }

  function Max(x: real, y: real): real {
    if x >= y then x else y
  }

  /** Component `c` of a max of two swizzled, possibly negated, registers. */
  function MaxComponent(alu: AluInstruction, a: Vec4, b: Vec4, c: nat): real {
    Max(Negated(a[ResolveAluSwizzle(alu.src1Swizzle, c)], alu.src1Negate),
        Negated(b[ResolveAluSwizzle(alu.src2Swizzle, c)], alu.src2Negate))
  }

  /** An ALU source: a temporary register if its select bit is set, else a constant. */
  function SourceOf(s: Shader, constants: Constants, isRegister: bool, index: nat): Vec4 {
    if isRegister then ReadOr(s.regs, index) else constants(index)
  }

  /** The vector half of an ALU instruction; opcodes other than max never survive translation. */
  function ExecAlu(s: Shader, alu: AluInstruction, constants: Constants): Shader {
    if alu.vectorWriteMask == 0 || alu.vectorOpcode != 2 then s
    else
      var old_ := ReadOr(s.exports, alu.vectorDest);
      var a := SourceOf(s, constants, alu.src1Sel, alu.src1Reg);
      var b := SourceOf(s, constants, alu.src2Sel, alu.src2Reg);
      var v := seq(4, c requires 0 <= c < 4 =>
        if alu.vectorWriteMask / Pow2(c) % 2 == 1 then MaxComponent(alu, a, b, c) else old_[c]);
      s.(exports := s.exports[alu.vectorDest := v])
  }

  const BLANK := Shader(map[], map[], 0, 0)

  /** The reference run over the visits of the walk; control-flow items execute nothing themselves. */
  function InterpretFrom(start: Shader, vs: seq<Visit>, data: VertexData, constants: Constants, vertex: nat): Shader {
    if vs == [] then start
    else
      var s := InterpretFrom(start, vs[..|vs| - 1], data, constants, vertex);
      var v := vs[|vs| - 1];
      if IsFetch(v) then ExecFetch(s, FetchOf(v), data, vertex)
      else if IsAlu(v) then ExecAlu(s, AluOf(v), constants)
      else s
  }

  function Interpret(vs: seq<Visit>, data: VertexData, constants: Constants, vertex: nat): Shader {
    InterpretFrom(BLANK, vs, data, constants, vertex)
  }

  // ---------------------------------------------------------------- the translated program

  /** What the host's vertex descriptor feeds to attribute `a` for one vertex. */
  function ReadAttribute(a: Attribute, strideBytes: nat, data: VertexData, vertex: nat): Vec4 {
    var base := (vertex * strideBytes + a.byteOffset) / 4;
    seq(4, c requires 0 <= c < 4 => if c < Width(a.format) then data(a.fetchConstantIndex, base + c) else 0.0)
  }

  /** The attribute behind the field named after `register`. */
  function FieldAttribute(fields: seq<Field>, register: nat): Option<nat> {
    if fields == [] then None
    else if fields[|fields| - 1].register == register then Some(fields[|fields| - 1].attribute)
    else FieldAttribute(fields[..|fields| - 1], register)
  }

  datatype Output = Output(position: Option<Vec4>, interpolators: map<nat, Vec4>)

  /** The value of `in.rN`. */
  function InputOf(r: TranslationResult, program: VertexProgram, register: nat, data: VertexData, vertex: nat): Vec4 {
    match FieldAttribute(program.fields, register)
    case Some(i) =>
      if i < |r.attributes| then ReadAttribute(r.attributes[i], r.vertexStrideBytes, data, vertex) else ZERO
    case None => ZERO
  }

  /** The first `n` assignments of the translated program, in order. */
  function Evaluate(r: TranslationResult, program: VertexProgram, n: nat, data: VertexData, vertex: nat): Output
    requires n <= |program.assignments|
  {
    if n == 0 then Output(None, map[])
    else
      var out := Evaluate(r, program, n - 1, data, vertex);
      match program.assignments[n - 1]
      case AssignPosition(register) =>
        var v := InputOf(r, program, register, data, vertex);
        out.(position := Some([v[0], v[1], v[2], 1.0]))
      case AssignInterpolator(index, register) =>
        out.(interpolators := out.interpolators[index := InputOf(r, program, register, data, vertex)])
  }

  // ---------------------------------------------------------------- the programs the theorem is about

  /** Live exports write all four components. */
  ghost predicate FullMasks(vs: seq<Visit>) {
    forall k :: 0 <= k < |vs| && IsLiveAlu(vs[k]) ==> AluOf(vs[k]).vectorWriteMask == 15
  }

  ghost predicate DistinctDestinations(vs: seq<Visit>) {
    forall j, k :: 0 <= j < k < |vs| && IsFetch(vs[j]) && IsFetch(vs[k]) ==>
      FetchOf(vs[j]).destReg != FetchOf(vs[k]).destReg
  }

  ghost predicate OffsetsNonNegative(vs: seq<Visit>) {
    forall k :: 0 <= k < |vs| && IsFetch(vs[k]) ==> FetchOf(vs[k]).offset >= 0
  }

  ghost predicate OneStream(vs: seq<Visit>, constant: nat, stride: nat) {
    forall k :: 0 <= k < |vs| && IsFullFetch(vs[k]) ==>
      FetchOf(vs[k]).fetchConstantIndex == constant && FetchOf(vs[k]).stride == stride
  }

  ghost predicate Translatable(vs: seq<Visit>, constant: nat, stride: nat) {
    && FirstFailure(vs, 0).None?
    && FullMasks(vs) && DistinctDestinations(vs) && OffsetsNonNegative(vs) && OneStream(vs, constant, stride)
  }

  lemma TranslatablePrefix(vs: seq<Visit>, constant: nat, stride: nat)
    requires vs != [] && Translatable(vs, constant, stride)
    ensures Translatable(vs[..|vs| - 1], constant, stride)
    ensures Verdict(vs[..|vs| - 1], vs[|vs| - 1], 0).None?
  {
  }

  // ---------------------------------------------------------------- register contents

  ghost predicate SameIn(v: Vec4, w: Vec4, format: VertexFormat) {
    forall c :: 0 <= c < Width(format) ==> v[c] == w[c]
  }

  /** Every attribute gathered so far sits in its register, as far as its format goes. */
  ghost predicate RegistersHold(s: Shader, attributes: seq<Attribute>, stride: nat, data: VertexData, vertex: nat) {
    forall i :: 0 <= i < |attributes| ==>
      && attributes[i].destReg in s.regs
      && SameIn(s.regs[attributes[i].destReg], ReadAttribute(attributes[i], stride * 4, data, vertex),
                attributes[i].format)
  }

  ghost predicate StreamKnown(s: Shader, vs: seq<Visit>, constant: nat, stride: nat) {
    LastFullFetch(vs).Some? ==> s.constant == constant && s.stride == stride && EffectiveConstant(vs) == constant
  }

  lemma FetchIsIdentity(f: VertexFetch, format: VertexFormat, old_: Vec4, data: VertexData, constant: nat, base: int,
                        c: nat)
    requires FetchSwizzleOk(f.destSwizzle, format) && c < Width(format)
    ensures FetchComponent(f, Width(format), old_, data, constant, base, c) == data(constant, base + c)
  {
    assert FetchSwizzle(f.destSwizzle, c) == c;
  }

  /** A fetch leaves in its register what the attribute it becomes reads from the vertex record. */
  lemma FetchMatchesAttribute(s: Shader, vs: seq<Visit>, constant: nat, stride: nat, data: VertexData, vertex: nat)
    requires vs != [] && Translatable(vs, constant, stride) && IsFetch(vs[|vs| - 1])
    requires StreamKnown(s, vs[..|vs| - 1], constant, stride)
    ensures var f := FetchOf(vs[|vs| - 1]);
            var s' := ExecFetch(s, f, data, vertex);
            && StreamKnown(s', vs, constant, stride)
            && f.destReg in s'.regs
            && SameIn(s'.regs[f.destReg], ReadAttribute(AttributeOf(vs), stride * 4, data, vertex),
                      AttributeOf(vs).format)
  {
    hide FetchSwizzleOk;
    hide FetchComponent;
    var front, v := vs[..|vs| - 1], vs[|vs| - 1];
    var f := FetchOf(v);
    var s' := ExecFetch(s, f, data, vertex);
    TranslatablePrefix(vs, constant, stride);
    assert FetchVerdict(front, f).None?;
    var a := AttributeOf(vs);
    assert s'.constant == constant && s'.stride == stride && a.fetchConstantIndex == constant;
    var old_ := ReadOr(s.regs, f.destReg);
    var base := vertex * stride + f.offset;
    AttributeBase(a, f, stride, vertex);
    forall c | 0 <= c < Width(a.format)
      ensures s'.regs[f.destReg][c] == ReadAttribute(a, stride * 4, data, vertex)[c]
    {
      FetchIsIdentity(f, a.format, old_, data, constant, base, c);
    }
  }

  /** The 23-bit offset is small, so the attribute's byte offset is exactly four times it. */
  lemma AttributeBase(a: Attribute, f: VertexFetch, stride: nat, vertex: nat)
    requires 0 <= f.offset < 0x40_0000 && a.byteOffset == f.offset * 4 % TWO32
    ensures (vertex * (stride * 4) + a.byteOffset) / 4 == vertex * stride + f.offset
  {
    assert vertex * (stride * 4) == 4 * (vertex * stride);
  }

  /** Attributes come from fetches of the stream, so distinct destinations give distinct attributes. */
  lemma {:induction false} AttributesDistinct(vs: seq<Visit>, i: nat, j: nat)
    requires DistinctDestinations(vs) && i < j < |Attributes(vs)|
    ensures Attributes(vs)[i].destReg != Attributes(vs)[j].destReg
    decreases |vs|
  {
    var front := vs[..|vs| - 1];
    if j < |Attributes(front)| {
      AttributesDistinct(front, i, j);
    } else {
      var k := FetchBehind(front, i);
      assert front[k] == vs[k];
    }
  }

  lemma FetchKeepsRegisters(s: Shader, vs: seq<Visit>, constant: nat, stride: nat, data: VertexData, vertex: nat)
    requires vs != [] && Translatable(vs, constant, stride) && IsFetch(vs[|vs| - 1])
    requires StreamKnown(s, vs[..|vs| - 1], constant, stride)
    requires RegistersHold(s, Attributes(vs[..|vs| - 1]), stride, data, vertex)
    ensures RegistersHold(ExecFetch(s, FetchOf(vs[|vs| - 1]), data, vertex), Attributes(vs), stride, data, vertex)
  {
    var before, f := Attributes(vs[..|vs| - 1]), FetchOf(vs[|vs| - 1]);
    var s' := ExecFetch(s, f, data, vertex);
    FetchMatchesAttribute(s, vs, constant, stride, data, vertex);
    forall i | 0 <= i < |before|
      ensures before[i].destReg in s'.regs && s'.regs[before[i].destReg] == s.regs[before[i].destReg]
    {
      var k := FetchBehind(vs[..|vs| - 1], i);
      assert vs[..|vs| - 1][k] == vs[k];
    }
  }

  // ---------------------------------------------------------------- exports

  /** The export that decides the final value of an export register. */
  function LastExport(exports: seq<Export>, register: nat): Option<Export> {
    if exports == [] then None
    else if exports[|exports| - 1].exportRegister == register then Some(exports[|exports| - 1])
    else LastExport(exports[..|exports| - 1], register)
  }

  /** `v` is what attribute `i` reads, as far as its format goes, and that attribute feeds `register`. */
  ghost predicate ComesFrom(v: Vec4, register: nat, attributes: seq<Attribute>, i: nat, stride: nat, data: VertexData,
                            vertex: nat) {
    && i < |attributes| && attributes[i].destReg == register
    && SameIn(v, ReadAttribute(attributes[i], stride * 4, data, vertex), attributes[i].format)
  }

  /** An export register was written iff some export names it, and the last one's source decides its value. */
  ghost predicate ExportHolds(s: Shader, attributes: seq<Attribute>, exports: seq<Export>, register: nat,
                              stride: nat, data: VertexData, vertex: nat) {
    && (register in s.exports <==> LastExport(exports, register).Some?)
    && (register in s.exports ==>
         exists i :: ComesFrom(s.exports[register], LastExport(exports, register).value.sourceRegister,
                               attributes, i, stride, data, vertex))
  }

  lemma ExportSurvives(s: Shader, s': Shader, attributes: seq<Attribute>, attributes': seq<Attribute>,
                       exports: seq<Export>, register: nat, stride: nat, data: VertexData, vertex: nat)
    requires ExportHolds(s, attributes, exports, register, stride, data, vertex)
    requires attributes <= attributes' && s'.exports == s.exports
    ensures ExportHolds(s', attributes', exports, register, stride, data, vertex)
  {
    if register in s.exports {
      var source := LastExport(exports, register).value.sourceRegister;
      var i :| ComesFrom(s.exports[register], source, attributes, i, stride, data, vertex);
      assert ComesFrom(s'.exports[register], source, attributes', i, stride, data, vertex);
    }
  }

  /** What one visit adds to the two lists. */
  lemma ListsStep(vs: seq<Visit>)
    requires vs != []
    ensures var front, v := vs[..|vs| - 1], vs[|vs| - 1];
            && Attributes(vs) == (if IsFetch(v) then Attributes(front) + [AttributeOf(vs)] else Attributes(front))
            && Exports(vs) == (if IsLiveAlu(v) then Exports(front) + [Export(AluOf(v).vectorDest, AluOf(v).src1Reg)]
                               else Exports(front))
  {
  }

  /** The components the mask selects from `v`, the others from `old_`. */
  function Masked(mask: nat, v: Vec4, old_: Vec4): Vec4 {
    [if mask % 2 == 1 then v[0] else old_[0], if mask / 2 % 2 == 1 then v[1] else old_[1],
     if mask / 4 % 2 == 1 then v[2] else old_[2], if mask / 8 % 2 == 1 then v[3] else old_[3]]
  }

  lemma AcceptedFields(before: seq<Visit>, alu: AluInstruction, shaderType: int)
    requires alu.vectorWriteMask != 0 && AluVerdict(before, alu, shaderType).None?
    ensures alu.vectorOpcode == 2 && alu.src1Reg == alu.src2Reg && alu.src1Sel && alu.src2Sel
    ensures !alu.src1Negate && !alu.src2Negate && AluSwizzleOk(alu)
  {
  }

  lemma MaxOfSame(alu: AluInstruction, a: Vec4, c: nat)
    requires c < 4 && AluSwizzleOk(alu) && !alu.src1Negate && !alu.src2Negate
    ensures MaxComponent(alu, a, a, c) == a[c]
  {
    hide ResolveAluSwizzle;
    assert ResolveAluSwizzle(alu.src1Swizzle, c) == c && ResolveAluSwizzle(alu.src2Swizzle, c) == c;
  }

  /**
   * An accepted live instruction, of a vertex or a pixel shader, copies the temporary register it names, component
   * by component under its mask and whatever the constants, to the export register it names.
   */
  lemma AcceptedCopies(s: Shader, before: seq<Visit>, alu: AluInstruction, shaderType: int, constants: Constants)
    requires alu.vectorWriteMask != 0 && AluVerdict(before, alu, shaderType).None?
    ensures ExecAlu(s, alu, constants) == s.(exports := s.exports[alu.vectorDest :=
              Masked(alu.vectorWriteMask, ReadOr(s.regs, alu.src1Reg), ReadOr(s.exports, alu.vectorDest))])
  {
    hide AluVerdict;
    hide AluSwizzleOk;
    hide MaxComponent;
    hide ReadOr;
    AcceptedFields(before, alu, shaderType);
    var v := ExecAlu(s, alu, constants).exports[alu.vectorDest];
    var a, old_ := ReadOr(s.regs, alu.src1Reg), ReadOr(s.exports, alu.vectorDest);
    assert Pow2(0) == 1 && Pow2(1) == 2 && Pow2(2) == 4 && Pow2(3) == 8;
    forall c | 0 <= c < 4
      ensures v[c] == if alu.vectorWriteMask / Pow2(c) % 2 == 1 then a[c] else old_[c]
    {
      MaxOfSame(alu, a, c);
    }
    assert v == Masked(alu.vectorWriteMask, a, old_);
  }

  /** Max of a temporary register with itself, unswizzled and unnegated, under a full mask, is a copy. */
  lemma SelfMovCopies(s: Shader, before: seq<Visit>, alu: AluInstruction, shaderType: int, constants: Constants)
    requires alu.vectorWriteMask == 15 && AluVerdict(before, alu, shaderType).None?
    ensures ExecAlu(s, alu, constants) == s.(exports := s.exports[alu.vectorDest := ReadOr(s.regs, alu.src1Reg)])
  {
    hide AluVerdict;
    hide ExecAlu;
    hide Masked;
    AcceptedCopies(s, before, alu, shaderType, constants);
    FullMask(ReadOr(s.regs, alu.src1Reg), ReadOr(s.exports, alu.vectorDest));
  }

  lemma FullMask(v: Vec4, old_: Vec4)
    ensures Masked(15, v, old_) == v
  {
  }

  /** A live export writes its register with a value its source attribute feeds. */
  lemma ExportWrites(s: Shader, attributes: seq<Attribute>, exports: seq<Export>, e: Export, register: nat,
                     stride: nat, data: VertexData, vertex: nat)
    requires RegistersHold(s, attributes, stride, data, vertex) && WasFetched(attributes, e.sourceRegister)
    requires ExportHolds(s, attributes, exports, register, stride, data, vertex)
    ensures ExportHolds(s.(exports := s.exports[e.exportRegister := ReadOr(s.regs, e.sourceRegister)]),
                        attributes, exports + [e], register, stride, data, vertex)
  {
    assert (exports + [e])[..|exports|] == exports;
    var s' := s.(exports := s.exports[e.exportRegister := ReadOr(s.regs, e.sourceRegister)]);
    if register == e.exportRegister {
      var i :| 0 <= i < |attributes| && attributes[i].destReg == e.sourceRegister;
      assert ComesFrom(s'.exports[register], e.sourceRegister, attributes, i, stride, data, vertex);
    }
  }

  lemma AluExports(s: Shader, vs: seq<Visit>, register: nat, constant: nat, stride: nat, data: VertexData,
                   constants: Constants, vertex: nat)
    requires vs != [] && Translatable(vs, constant, stride) && IsAlu(vs[|vs| - 1])
    requires RegistersHold(s, Attributes(vs[..|vs| - 1]), stride, data, vertex)
    requires ExportHolds(s, Attributes(vs[..|vs| - 1]), Exports(vs[..|vs| - 1]), register, stride, data, vertex)
    ensures ExportHolds(ExecAlu(s, AluOf(vs[|vs| - 1]), constants), Attributes(vs), Exports(vs), register, stride, data,
                        vertex)
  {
    var front, alu := vs[..|vs| - 1], AluOf(vs[|vs| - 1]);
    TranslatablePrefix(vs, constant, stride);
    ListsStep(vs);
    assert AluVerdict(front, alu, 0).None?;
    if alu.vectorWriteMask != 0 {
      SelfMovCopies(s, front, alu, 0, constants);
      var e := Export(alu.vectorDest, alu.src1Reg);
      ExportWrites(s, Attributes(front), Exports(front), e, register, stride, data, vertex);
    }
  }

  ghost predicate Agrees(s: Shader, vs: seq<Visit>, constant: nat, stride: nat, data: VertexData, vertex: nat) {
    && StreamKnown(s, vs, constant, stride)
    && RegistersHold(s, Attributes(vs), stride, data, vertex)
    && ExportHolds(s, Attributes(vs), Exports(vs), 0, stride, data, vertex)
    && ExportHolds(s, Attributes(vs), Exports(vs), 62, stride, data, vertex)
  }

  /** The reference run agrees with the gathered attributes and exports after every prefix of the stream. */
  lemma {:induction false} InterpreterAgrees(vs: seq<Visit>, constant: nat, stride: nat, data: VertexData,
                                             constants: Constants, vertex: nat)
    requires Translatable(vs, constant, stride)
    ensures Agrees(Interpret(vs, data, constants, vertex), vs, constant, stride, data, vertex)
    decreases |vs|
  {
    if vs == [] {
    } else {
      var front, v := vs[..|vs| - 1], vs[|vs| - 1];
      TranslatablePrefix(vs, constant, stride);
      InterpreterAgrees(front, constant, stride, data, constants, vertex);
      StepAgrees(Interpret(front, data, constants, vertex), vs, constant, stride, data, constants, vertex);
    }
  }

  lemma FetchKeepsExports(s: Shader, f: VertexFetch, data: VertexData, vertex: nat)
    ensures ExecFetch(s, f, data, vertex).exports == s.exports
  {
  }

  lemma AluKeepsRegisters(s: Shader, alu: AluInstruction, constants: Constants)
    ensures ExecAlu(s, alu, constants) == s.(exports := ExecAlu(s, alu, constants).exports)
  {
  }

  lemma StepAgrees(s: Shader, vs: seq<Visit>, constant: nat, stride: nat, data: VertexData, constants: Constants,
                   vertex: nat)
    requires vs != [] && Translatable(vs, constant, stride)
    requires Agrees(s, vs[..|vs| - 1], constant, stride, data, vertex)
    ensures IsFetch(vs[|vs| - 1]) ==>
              Agrees(ExecFetch(s, FetchOf(vs[|vs| - 1]), data, vertex), vs, constant, stride, data, vertex)
    ensures IsAlu(vs[|vs| - 1]) ==>
              Agrees(ExecAlu(s, AluOf(vs[|vs| - 1]), constants), vs, constant, stride, data, vertex)
    ensures !vs[|vs| - 1].Slot? ==> Agrees(s, vs, constant, stride, data, vertex)
  {
    hide ExecFetch;
    hide ExecAlu;
    hide ExportHolds;
    hide Translatable;
    hide Attributes;
    hide Exports;
    hide ReadAttribute;
    hide SameIn;
    var front, v := vs[..|vs| - 1], vs[|vs| - 1];
    ListsStep(vs);
    if IsFetch(v) {
      var s' := ExecFetch(s, FetchOf(v), data, vertex);
      FetchKeepsExports(s, FetchOf(v), data, vertex);
      FetchMatchesAttribute(s, vs, constant, stride, data, vertex);
      FetchKeepsRegisters(s, vs, constant, stride, data, vertex);
      ExportSurvives(s, s', Attributes(front), Attributes(vs), Exports(vs), 0, stride, data, vertex);
      ExportSurvives(s, s', Attributes(front), Attributes(vs), Exports(vs), 62, stride, data, vertex);
    } else if IsAlu(v) {
      AluKeepsRegisters(s, AluOf(v), constants);
      AluExports(s, vs, 0, constant, stride, data, constants, vertex);
      AluExports(s, vs, 62, constant, stride, data, constants, vertex);
    }
  }

  // ---------------------------------------------------------------- the emitted assignments

  lemma {:induction false} FieldFinds(attributes: seq<Attribute>, n: nat, i: nat)
    requires i < n <= |attributes|
    requires forall j, k :: 0 <= j < k < |attributes| ==> attributes[j].destReg != attributes[k].destReg
    ensures FieldAttribute(FieldsOf(attributes)[..n], attributes[i].destReg) == Some(i)
    decreases n
  {
    var fields := FieldsOf(attributes)[..n];
    assert fields[..n - 1] == FieldsOf(attributes)[..n - 1];
    if i == n - 1 {
    } else {
      FieldFinds(attributes, n - 1, i);
    }
  }

  /** After `n` assignments each output holds the source of the last export to its register. */
  lemma {:induction false} EvaluateLast(r: TranslationResult, n: nat, data: VertexData, vertex: nat)
    requires n <= |r.vertexExports|
    ensures var program := VertexProgram(FieldsOf(r.attributes), AssignmentsOf(r.vertexExports));
            var out := Evaluate(r, program, n, data, vertex);
            var position, interpolator := LastExport(r.vertexExports[..n], 62), LastExport(r.vertexExports[..n], 0);
            && (out.position.Some? <==> position.Some?)
            && (0 in out.interpolators <==> interpolator.Some?)
            && (position.Some? ==>
                 var v := InputOf(r, program, position.value.sourceRegister, data, vertex);
                 out.position.value == [v[0], v[1], v[2], 1.0])
            && (interpolator.Some? ==>
                 out.interpolators[0] == InputOf(r, program, interpolator.value.sourceRegister, data, vertex))
    decreases n
  {
    if n == 0 {
    } else {
      assert r.vertexExports[..n][..n - 1] == r.vertexExports[..n - 1];
      EvaluateLast(r, n - 1, data, vertex);
    }
  }

  lemma InputIsAttribute(r: TranslationResult, i: nat, data: VertexData, vertex: nat)
    requires i < |r.attributes|
    requires forall j, k :: 0 <= j < k < |r.attributes| ==> r.attributes[j].destReg != r.attributes[k].destReg
    ensures var program := VertexProgram(FieldsOf(r.attributes), AssignmentsOf(r.vertexExports));
            InputOf(r, program, r.attributes[i].destReg, data, vertex)
              == ReadAttribute(r.attributes[i], r.vertexStrideBytes, data, vertex)
  {
    FieldFinds(r.attributes, |r.attributes|, i);
    assert FieldsOf(r.attributes)[..|r.attributes|] == FieldsOf(r.attributes);
  }

  /** Which format the value in an export register has: that of the attribute its last export reads. */
  ghost predicate SourceIsFloat4(r: TranslationResult, register: nat) {
    exists i, e :: 0 <= i < |r.attributes| && LastExport(r.vertexExports, register) == Some(e)
      && r.attributes[i].destReg == e.sourceRegister && r.attributes[i].format.Float4?
  }

  ghost predicate SameOutputs(s: Shader, out: Output, r: TranslationResult) {
    && (62 in s.exports <==> out.position.Some?)
    && (out.position.Some? ==> forall c :: 0 <= c < 3 ==> s.exports[62][c] == out.position.value[c])
    && (0 in s.exports <==> 0 in out.interpolators)
    && (0 in s.exports ==> forall c :: 0 <= c < 3 ==> s.exports[0][c] == out.interpolators[0][c])
    && (0 in s.exports && SourceIsFloat4(r, 0) ==> s.exports[0] == out.interpolators[0])
  }

  /** The reference value of an export register against what the program reads for its last export. */
  lemma ExportMeets(s: Shader, r: TranslationResult, register: nat, stride: nat, data: VertexData, vertex: nat)
    requires register in s.exports && r.vertexStrideBytes == stride * 4
    requires ExportHolds(s, r.attributes, r.vertexExports, register, stride, data, vertex)
    requires forall j, k :: 0 <= j < k < |r.attributes| ==> r.attributes[j].destReg != r.attributes[k].destReg
    ensures var program := VertexProgram(FieldsOf(r.attributes), AssignmentsOf(r.vertexExports));
            var v := InputOf(r, program, LastExport(r.vertexExports, register).value.sourceRegister, data, vertex);
            && (forall c :: 0 <= c < 3 ==> s.exports[register][c] == v[c])
            && (SourceIsFloat4(r, register) ==> s.exports[register] == v)
  {
    var source := LastExport(r.vertexExports, register).value.sourceRegister;
    var i :| ComesFrom(s.exports[register], source, r.attributes, i, stride, data, vertex);
    InputIsAttribute(r, i, data, vertex);
  }

  lemma AllAttributesDistinct(vs: seq<Visit>, constant: nat, stride: nat)
    requires Translatable(vs, constant, stride)
    ensures forall j, k :: 0 <= j < k < |Attributes(vs)| ==> Attributes(vs)[j].destReg != Attributes(vs)[k].destReg
  {
    forall j, k | 0 <= j < k < |Attributes(vs)| ensures Attributes(vs)[j].destReg != Attributes(vs)[k].destReg {
      AttributesDistinct(vs, j, k);
    }
  }

  lemma OutputsFollow(s: Shader, vs: seq<Visit>, constant: nat, stride: nat, data: VertexData, vertex: nat)
    requires Translatable(vs, constant, stride) && Agrees(s, vs, constant, stride, data, vertex)
    requires Finish(Collected(vs, 0), 0).success
    ensures var r := Finish(Collected(vs, 0), 0);
            SameOutputs(s, Evaluate(r, r.vertexSource.value, |r.vertexExports|, data, vertex), r)
  {
    hide Translatable;
    hide RegistersHold;
    hide StreamKnown;
    hide SourceIsFloat4;
    hide InputOf;
    hide Attributes;
    hide Exports;
    hide LastFullFetch;
    var r := Finish(Collected(vs, 0), 0);
    EvaluateLast(r, |r.vertexExports|, data, vertex);
    assert r.vertexExports[..|r.vertexExports|] == r.vertexExports;
    AllAttributesDistinct(vs, constant, stride);
    StrideKnown(vs, constant, stride);
    hide Evaluate;
    if 0 in s.exports {
      ExportMeets(s, r, 0, stride, data, vertex);
    }
    if 62 in s.exports {
      ExportMeets(s, r, 62, stride, data, vertex);
    }
  }

  lemma {:induction false} StrideKnown(vs: seq<Visit>, constant: nat, stride: nat)
    requires Translatable(vs, constant, stride)
    ensures Attributes(vs) != [] ==> LastFullFetch(vs).Some?
    ensures LastFullFetch(vs).Some? ==> StrideBytes(vs) == stride * 4
    decreases |vs|
  {
    if vs == [] {
    } else {
      TranslatablePrefix(vs, constant, stride);
      StrideKnown(vs[..|vs| - 1], constant, stride);
    }
  }

  /**
   * Meaning preservation. For accepted vertex microcode whose live exports write every component, whose
   * fetches have distinct destinations and non-negative offsets, and whose full fetches agree on constant
   * and stride, for every vertex record and all shader constants: the translated program writes the same
   * outputs as the reference run, with the same position xyz, and the same interpolator 0 when its source is
   * a Float4 attribute.
   */
  lemma TranslationPreservesMeaning(d: seq<u32>, constant: nat, stride: nat, data: VertexData, constants: Constants,
                                    vertex: nat)
    requires Translate(d, 0).success
    requires var vs := Walk(d);
             FullMasks(vs) && DistinctDestinations(vs) && OffsetsNonNegative(vs) && OneStream(vs, constant, stride)
    ensures var r := Translate(d, 0);
            r.vertexSource.Some?
            && |r.vertexSource.value.assignments| == |r.vertexExports|
            && SameOutputs(Interpret(Walk(d), data, constants, vertex),
                           Evaluate(r, r.vertexSource.value, |r.vertexExports|, data, vertex), r)
  {
    var vs := Walk(d);
    InterpreterAgrees(vs, constant, stride, data, constants, vertex);
    OutputsFollow(Interpret(vs, data, constants, vertex), vs, constant, stride, data, vertex);
  }

  // ---------------------------------------------------------------- pixel shaders

  ghost predicate NoFetches(vs: seq<Visit>) {
    forall k :: 0 <= k < |vs| ==> !IsFetch(vs[k])
  }

  /** An accepted pixel stream leaves in colour 0 the register its last live instruction names. */
  lemma {:induction false} PixelRun(vs: seq<Visit>, regs: map<nat, Vec4>, data: VertexData, constants: Constants)
    requires FirstFailure(vs, 1).None? && FullMasks(vs) && NoFetches(vs)
    ensures var s := InterpretFrom(Shader(regs, map[], 0, 0), vs, data, constants, 0);
      && s.regs == regs && (0 in s.exports <==> Exports(vs) != [])
      && (Exports(vs) != [] ==> s.exports[0] == ReadOr(regs, Exports(vs)[|Exports(vs)| - 1].sourceRegister))
    decreases |vs|
  {
    hide ExecAlu;
    hide ReadOr;
    if vs == [] {
    } else {
      var front, v := vs[..|vs| - 1], vs[|vs| - 1];
      PixelPrefix(vs);
      PixelRun(front, regs, data, constants);
      ListsStep(vs);
      if IsAlu(v) {
        PixelStep(InterpretFrom(Shader(regs, map[], 0, 0), front, data, constants, 0), front, AluOf(v), constants);
      }
    }
  }

  lemma PixelPrefix(vs: seq<Visit>)
    requires vs != [] && FirstFailure(vs, 1).None? && FullMasks(vs) && NoFetches(vs)
    ensures var front, v := vs[..|vs| - 1], vs[|vs| - 1];
      && FirstFailure(front, 1).None? && FullMasks(front) && NoFetches(front) && !IsFetch(v)
      && Verdict(front, v, 1).None? && (IsLiveAlu(v) ==> AluOf(v).vectorWriteMask == 15)
  {
  }

  lemma PixelStep(s: Shader, before: seq<Visit>, alu: AluInstruction, constants: Constants)
    requires AluVerdict(before, alu, 1).None? && (alu.vectorWriteMask != 0 ==> alu.vectorWriteMask == 15)
    ensures ExecAlu(s, alu, constants) ==
      if alu.vectorWriteMask == 0 then s else s.(exports := s.exports[0 := ReadOr(s.regs, alu.src1Reg)])
  {
    if alu.vectorWriteMask != 0 {
      SelfMovCopies(s, before, alu, 1, constants);
    }
  }

  /** The colour of the reference run is the interpolated value in register 0, whatever the other registers hold. */
  ghost predicate ReturnsInterpolator(d: seq<u32>, data: VertexData, constants: Constants) {
    forall regs: map<nat, Vec4> :: Colour(d, regs, data, constants) == Some(ReadOr(regs, 0))
  }

  function Colour(d: seq<u32>, regs: map<nat, Vec4>, data: VertexData, constants: Constants): Option<Vec4> {
    var s := InterpretFrom(Shader(regs, map[], 0, 0), Walk(d), data, constants, 0);
    if 0 in s.exports then Some(s.exports[0]) else None
  }

  lemma ColourIs(d: seq<u32>, regs: map<nat, Vec4>, data: VertexData, constants: Constants)
    requires Translate(d, 1).success && FullMasks(Walk(d)) && NoFetches(Walk(d))
    ensures var exports := Translate(d, 1).pixelExports;
      && exports != [] && exports[0].sourceRegister == 0
      && Colour(d, regs, data, constants) == Some(ReadOr(regs, exports[|exports| - 1].sourceRegister))
  {
    hide Walk;
    hide FullMasks;
    hide NoFetches;
    hide InterpretFrom;
    hide ReadOr;
    TranslationCharacterized(d, 1);
    PixelRun(Walk(d), regs, data, constants);
  }

  /** A register file in which two registers differ. */
  lemma Apart(source: nat) returns (regs: map<nat, Vec4>)
    requires source != 0
    ensures ReadOr(regs, source) != ReadOr(regs, 0)
  {
    var one: Vec4 := [1.0, 1.0, 1.0, 1.0];
    regs := map[source := one];
    assert ReadOr(regs, source)[0] == 1.0 && ReadOr(regs, 0)[0] == 0.0;
  }

  /**
   * The fragment function returns interpolator 0. The translator looks at the first export only: for an accepted
   * pixel shader without fetches whose exports write every component, that is the shader's meaning if and only if
   * its last export reads register 0 too.
   */
  lemma PixelMeaningExactly(d: seq<u32>, data: VertexData, constants: Constants)
    requires Translate(d, 1).success && FullMasks(Walk(d)) && NoFetches(Walk(d))
    ensures var exports := Translate(d, 1).pixelExports;
      && exports != []
      && (ReturnsInterpolator(d, data, constants) <==> exports[|exports| - 1].sourceRegister == 0)
      && (|exports| == 1 ==> ReturnsInterpolator(d, data, constants))
  {
    hide Walk;
    hide Translate;
    hide FullMasks;
    hide NoFetches;
    hide Colour;
    hide ReadOr;
    ColourIs(d, map[], data, constants);
    var exports := Translate(d, 1).pixelExports;
    var source := exports[|exports| - 1].sourceRegister;
    forall regs: map<nat, Vec4> ensures Colour(d, regs, data, constants) == Some(ReadOr(regs, source)) {
      ColourIs(d, regs, data, constants);
    }
    if source != 0 {
      var regs := Apart(source);
      assert Colour(d, regs, data, constants) != Some(ReadOr(regs, 0));
    }
  }
}
