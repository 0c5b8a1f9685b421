/**
 * What a successful or failed translation says about the whole instruction stream, stated on positions of
 * the stream rather than on the loop.
 */
module TranslatorSpec {
  import opened Words
  import opened ShaderDecode
  import opened ShaderTranslate

  lemma {:induction false} FirstFailureIff(vs: seq<Visit>, shaderType: int)
    ensures FirstFailure(vs, shaderType).None? <==>
              forall k :: 0 <= k < |vs| ==> Verdict(vs[..k], vs[k], shaderType).None?
    decreases |vs|
  {
    if vs == [] {
    } else {
      var front := vs[..|vs| - 1];
      FirstFailureIff(front, shaderType);
      forall k | 0 <= k < |front| ensures front[..k] == vs[..k] && front[k] == vs[k] {
      }
      if FirstFailure(vs, shaderType).None? {
        forall k | 0 <= k < |vs| ensures Verdict(vs[..k], vs[k], shaderType).None? {
          if k < |front| {
            assert Verdict(front[..k], front[k], shaderType).None?;
          }
        }
      }
      if forall k :: 0 <= k < |vs| ==> Verdict(vs[..k], vs[k], shaderType).None? {
        forall k | 0 <= k < |front| ensures Verdict(front[..k], front[k], shaderType).None? {
          assert Verdict(vs[..k], vs[k], shaderType).None?;
        }
        assert Verdict(vs[..|front|], vs[|front|], shaderType).None?;
      }
    }
  }

  /** The reported reason is that of the first visit that cannot be translated. */
  lemma {:induction false} FailureNamesFirst(vs: seq<Visit>, shaderType: int) returns (k: nat)
    requires FirstFailure(vs, shaderType).Some?
    ensures k < |vs| && Verdict(vs[..k], vs[k], shaderType) == FirstFailure(vs, shaderType)
    ensures FirstFailure(vs[..k], shaderType).None?
    decreases |vs|
  {
    var front := vs[..|vs| - 1];
    if FirstFailure(front, shaderType).Some? {
      k := FailureNamesFirst(front, shaderType);
      assert front[..k] == vs[..k];
    } else {
      k := |front|;
    }
  }

  function CountFetches(vs: seq<Visit>): nat {
    if vs == [] then 0 else CountFetches(vs[..|vs| - 1]) + if IsFetch(vs[|vs| - 1]) then 1 else 0
  }

  function CountExports(vs: seq<Visit>): nat {
    if vs == [] then 0 else CountExports(vs[..|vs| - 1]) + if IsLiveAlu(vs[|vs| - 1]) then 1 else 0
  }

  /** The lists are the stream's fetches and live ALU instructions, in order, one entry for each. */
  lemma {:induction false} ListsAreInOrder(vs: seq<Visit>, k: nat)
    requires k < |vs|
    ensures IsFetch(vs[k]) ==>
              && CountFetches(vs[..k]) < CountFetches(vs) == |Attributes(vs)|
              && Attributes(vs)[CountFetches(vs[..k])] == AttributeOf(vs[..k + 1])
    ensures IsLiveAlu(vs[k]) ==>
              && CountExports(vs[..k]) < CountExports(vs) == |Exports(vs)|
              && Exports(vs)[CountExports(vs[..k])] == Export(AluOf(vs[k]).vectorDest, AluOf(vs[k]).src1Reg)
    decreases |vs|
  {
    var front := vs[..|vs| - 1];
    LengthsMatch(front);
    LengthsMatch(vs);
    if k < |front| {
      ListsAreInOrder(front, k);
      assert front[..k] == vs[..k] && front[..k + 1] == vs[..k + 1];
    } else {
      assert vs[..k] == front && vs[..k + 1] == vs;
    }
  }

  lemma {:induction false} LengthsMatch(vs: seq<Visit>)
    ensures |Attributes(vs)| == CountFetches(vs) && |Exports(vs)| == CountExports(vs)
    decreases |vs|
  {
    if vs == [] {
    } else {
      LengthsMatch(vs[..|vs| - 1]);
    }
  }

  /** An attribute's constant, and the stride, are those of the nearest full fetch at or before it. */
  lemma {:induction false} NearestFullFetch(vs: seq<Visit>) returns (j: nat)
    requires LastFullFetch(vs).Some?
    ensures j < |vs| && IsFullFetch(vs[j]) && LastFullFetch(vs) == Some(FetchOf(vs[j]))
    ensures forall k :: j < k < |vs| ==> !IsFullFetch(vs[k])
    ensures EffectiveConstant(vs) == FetchOf(vs[j]).fetchConstantIndex
    ensures StrideBytes(vs) == FetchOf(vs[j]).stride * 4
    decreases |vs|
  {
    if IsFullFetch(vs[|vs| - 1]) {
      j := |vs| - 1;
    } else {
      j := NearestFullFetch(vs[..|vs| - 1]);
    }
  }

  /** In an accepted stream every fetch has a known format, and a full fetch at or before it. */
  lemma FetchHasFullFetch(vs: seq<Visit>, shaderType: int, k: nat)
    requires FirstFailure(vs, shaderType).None? && k < |vs| && IsFetch(vs[k])
    ensures LastFullFetch(vs[..k + 1]).Some? && FormatOf(FetchOf(vs[k]).format).Some?
  {
    FirstFailureIff(vs, shaderType);
    var upTo := vs[..k + 1];
    assert upTo[..k] == vs[..k] && upTo[k] == vs[k];
    assert Verdict(vs[..k], vs[k], shaderType).None?;
    assert FetchVerdict(vs[..k], FetchOf(vs[k])).None?;
  }

  lemma {:induction false} FetchNumber(vs: seq<Visit>, i: nat) returns (k: nat)
    requires i < CountFetches(vs)
    ensures k < |vs| && IsFetch(vs[k]) && CountFetches(vs[..k]) == i
    decreases |vs|
  {
    var front := vs[..|vs| - 1];
    if i < CountFetches(front) {
      k := FetchNumber(front, i);
      assert front[..k] == vs[..k];
    } else {
      k := |front|;
    }
  }

  /**
   * Every attribute of a successful translation comes from one fetch: the i-th attribute from the i-th fetch, at `k`,
   * which gives its register, format and offset; its constant is that of the nearest full fetch, at `j`, at or
   * before `k`.
   */
  lemma AttributeTraced(d: seq<u32>, shaderType: int, i: nat) returns (k: nat, j: nat)
    requires Translate(d, shaderType).success
    requires i < |Translate(d, shaderType).attributes|
    ensures var vs, a := Walk(d), Translate(d, shaderType).attributes[i];
      && j <= k < |vs| && IsFetch(vs[k]) && CountFetches(vs[..k]) == i
      && IsFullFetch(vs[j]) && (forall m :: j < m <= k ==> !IsFullFetch(vs[m]))
      && a.fetchConstantIndex == FetchOf(vs[j]).fetchConstantIndex
      && FormatOf(FetchOf(vs[k]).format) == Some(a.format)
      && a.destReg == FetchOf(vs[k]).destReg && a.byteOffset == FetchOf(vs[k]).offset * 4 % TWO32
  {
    var vs := Walk(d);
    LengthsMatch(vs);
    k := FetchNumber(vs, i);
    ListsAreInOrder(vs, k);
    FetchHasFullFetch(vs, shaderType, k);
    var upTo := vs[..k + 1];
    j := NearestFullFetch(upTo);
    assert upTo[k] == vs[k] && forall m :: 0 <= m <= k ==> upTo[m] == vs[m];
  }

  /** The stride of a successful translation is that of the last full fetch of the shader, in bytes. */
  lemma StrideTraced(d: seq<u32>, shaderType: int) returns (j: nat)
    requires Translate(d, shaderType).success && Translate(d, shaderType).attributes != []
    ensures var vs := Walk(d);
      && j < |vs| && IsFullFetch(vs[j]) && (forall m :: j < m < |vs| ==> !IsFullFetch(vs[m]))
      && Translate(d, shaderType).vertexStrideBytes == FetchOf(vs[j]).stride * 4
  {
    var vs := Walk(d);
    var k, j0 := AttributeTraced(d, shaderType, 0);
    LastIsThere(vs, j0);
    j := NearestFullFetch(vs);
  }

  lemma {:induction false} LastIsThere(vs: seq<Visit>, j: nat)
    requires j < |vs| && IsFullFetch(vs[j])
    ensures LastFullFetch(vs).Some?
    decreases |vs|
  {
    if j == |vs| - 1 {
    } else {
      LastIsThere(vs[..|vs| - 1], j);
    }
  }

  /** In an accepted vertex stream every export reads a register some earlier fetch wrote. */
  lemma ExportSourceFetched(vs: seq<Visit>, k: nat) returns (j: nat)
    requires FirstFailure(vs, 0).None? && k < |vs| && IsLiveAlu(vs[k])
    ensures j < k && IsFetch(vs[j]) && FetchOf(vs[j]).destReg == AluOf(vs[k]).src1Reg
  {
    FirstFailureIff(vs, 0);
    assert Verdict(vs[..k], vs[k], 0).None?;
    assert AluVerdict(vs[..k], AluOf(vs[k]), 0).None?;
    var i :| 0 <= i < |Attributes(vs[..k])| && Attributes(vs[..k])[i].destReg == AluOf(vs[k]).src1Reg;
    j := FetchBehind(vs[..k], i);
  }

  lemma {:induction false} FetchBehind(vs: seq<Visit>, i: nat) returns (k: nat)
    requires i < |Attributes(vs)|
    ensures k < |vs| && IsFetch(vs[k]) && FetchOf(vs[k]).destReg == Attributes(vs)[i].destReg
    decreases |vs|
  {
    if i < |Attributes(vs[..|vs| - 1])| {
      k := FetchBehind(vs[..|vs| - 1], i);
    } else {
      k := |vs| - 1;
    }
  }

  /** The lists are empty exactly when the stream has nothing for them. */
  lemma {:induction false} FetchesIff(vs: seq<Visit>)
    ensures Attributes(vs) != [] <==> exists k :: 0 <= k < |vs| && IsFetch(vs[k])
    decreases |vs|
  {
    if vs == [] {
    } else {
      var front := vs[..|vs| - 1];
      FetchesIff(front);
      if IsFetch(vs[|vs| - 1]) {
        assert Attributes(vs) == Attributes(front) + [AttributeOf(vs)];
      } else {
        assert Attributes(vs) == Attributes(front);
        assert forall k :: 0 <= k < |front| ==> front[k] == vs[k];
      }
    }
  }

  lemma {:induction false} ExportsIff(vs: seq<Visit>)
    ensures Exports(vs) != [] <==> exists k :: 0 <= k < |vs| && IsLiveAlu(vs[k])
    decreases |vs|
  {
    if vs == [] {
    } else {
      var front, v := vs[..|vs| - 1], vs[|vs| - 1];
      ExportsIff(front);
      if IsLiveAlu(v) {
        assert Exports(vs) == Exports(front) + [Export(AluOf(v).vectorDest, AluOf(v).src1Reg)];
      } else {
        assert Exports(vs) == Exports(front);
        assert forall k :: 0 <= k < |front| ==> front[k] == vs[k];
      }
    }
  }

  /**
   * Acceptance. A translation succeeds exactly when nothing in the stream is rejected and the final checks hold:
   * a vertex shader needs a fetch and a live export; a pixel shader needs a live export and its first one must read
   * register 0. A success carries the stream's lists and one field and assignment for each; a failure carries a
   * reason and nothing else.
   */
  lemma TranslationCharacterized(d: seq<u32>, shaderType: int)
    ensures var vs, r := Walk(d), Translate(d, shaderType);
      && (r.success <==>
           && (forall k :: 0 <= k < |vs| ==> Verdict(vs[..k], vs[k], shaderType).None?)
           && (exists k :: 0 <= k < |vs| && IsLiveAlu(vs[k]))
           && (if shaderType == 0 then exists k :: 0 <= k < |vs| && IsFetch(vs[k])
               else shaderType == 1 && Exports(vs) != [] && Exports(vs)[0].sourceRegister == 0))
      && (r.success ==>
           && r.attributes == Attributes(vs) && r.vertexStrideBytes == StrideBytes(vs) && r.failure.None?
           && r.vertexExports == (if shaderType == 0 then Exports(vs) else [])
           && r.pixelExports == (if shaderType == 1 then Exports(vs) else [])
           && r.vertexSource == (if shaderType != 0 then None
                                 else Some(VertexProgram(FieldsOf(r.attributes), AssignmentsOf(r.vertexExports))))
           && r.hasFragmentSource == (shaderType != 0))
      && (!r.success ==>
           && r.failure.Some? && r == Failed(r.failure.value)
           && r.attributes == [] && r.vertexExports == [] && r.pixelExports == []
           && r.vertexSource.None? && !r.hasFragmentSource && r.vertexStrideBytes == 0)
  {
    var vs := Walk(d);
    FirstFailureIff(vs, shaderType);
    FetchesIff(vs);
    ExportsIff(vs);
  }

  /**
   * The vertex function of a successful translation: field i is attribute i, in its format and named after its
   * register, and statement i writes export i, the position for register 62 and an interpolator otherwise.
   */
  lemma EmittedExactly(d: seq<u32>)
    requires Translate(d, 0).success
    ensures var r := Translate(d, 0);
      && r.vertexSource.Some?
      && var fields, statements := r.vertexSource.value.fields, r.vertexSource.value.assignments;
         && |fields| == |r.attributes| && |statements| == |r.vertexExports|
         && (forall i :: 0 <= i < |fields| ==>
               && fields[i].attribute == i && fields[i].register == r.attributes[i].destReg
               && fields[i].format == r.attributes[i].format)
         && (forall i :: 0 <= i < |statements| ==>
               && statements[i].register == r.vertexExports[i].sourceRegister
               && (statements[i].AssignPosition? <==> r.vertexExports[i].exportRegister == 62)
               && (statements[i].AssignInterpolator? ==> statements[i].index == r.vertexExports[i].exportRegister))
  {
    TranslationCharacterized(d, 0);
    hide Translate;
    hide Attributes;
    hide Exports;
  }

  // ---------------------------------------------------------------- what is accepted, field by field

  /** Each component of an ALU swizzle counts from its own position, so all four fields of the identity are zero. */
  predicate AluIdentity(raw: nat) {
    raw % 4 == 0 && raw / 4 % 4 == 0 && raw / 16 % 4 == 0 && raw / 64 % 4 == 0
  }

  lemma AluIdentityIff(alu: AluInstruction)
    ensures AluSwizzleOk(alu) <==> AluIdentity(alu.src1Swizzle) && AluIdentity(alu.src2Swizzle)
  {
    IdentityFields(alu.src1Swizzle);
    IdentityFields(alu.src2Swizzle);
    hide ResolveAluSwizzle;
    if AluIdentity(alu.src1Swizzle) && AluIdentity(alu.src2Swizzle) {
      forall c | 0 <= c < 4
        ensures ResolveAluSwizzle(alu.src1Swizzle, c) == c && ResolveAluSwizzle(alu.src2Swizzle, c) == c
      {
      }
    }
  }

  lemma IdentityFields(raw: nat)
    ensures ResolveAluSwizzle(raw, 0) == 0 <==> raw % 4 == 0
    ensures ResolveAluSwizzle(raw, 1) == 1 <==> raw / 4 % 4 == 0
    ensures ResolveAluSwizzle(raw, 2) == 2 <==> raw / 16 % 4 == 0
    ensures ResolveAluSwizzle(raw, 3) == 3 <==> raw / 64 % 4 == 0
  {
    assert Pow2(0) == 1 && Pow2(2) == 4 && Pow2(4) == 16 && Pow2(6) == 64;
    RelativeField(raw / 4, 1);
    RelativeField(raw / 16, 2);
    RelativeField(raw / 64, 3);
  }

  lemma RelativeField(x: nat, c: nat)
    requires c < 4
    ensures (x + c) % 4 == c <==> x % 4 == 0
  {
  }

  /** A fetch swizzle names components absolutely; a Float3's w may also be the constant 0 or 1. */
  predicate FetchIdentity(raw: nat, format: nat) {
    && raw % 8 == 0 && raw / 8 % 8 == 1 && raw / 64 % 8 == 2
    && (raw / 512 % 8 == 3 || (format == 57 && (raw / 512 % 8 == 4 || raw / 512 % 8 == 5)))
  }

  lemma FetchIdentityIff(raw: nat, format: VertexFormat)
    ensures FetchSwizzleOk(raw, format) <==> FetchIdentity(raw, if format.Float3? then 57 else 38)
  {
    FetchFields(raw);
    hide FetchSwizzle;
    if FetchIdentity(raw, if format.Float3? then 57 else 38) {
      forall c | 0 <= c < 4
        ensures FetchSwizzle(raw, c) == c
             || (format.Float3? && c == 3 && (FetchSwizzle(raw, c) == 4 || FetchSwizzle(raw, c) == 5))
      {
      }
    }
    if FetchSwizzleOk(raw, format) {
      assert FetchSwizzle(raw, 0) == 0 && FetchSwizzle(raw, 1) == 1 && FetchSwizzle(raw, 2) == 2;
      assert FetchSwizzle(raw, 3) == 3 || (format.Float3? && (FetchSwizzle(raw, 3) == 4 || FetchSwizzle(raw, 3) == 5));
    }
  }

  lemma FetchFields(raw: nat)
    ensures FetchSwizzle(raw, 0) == raw % 8 && FetchSwizzle(raw, 1) == raw / 8 % 8
    ensures FetchSwizzle(raw, 2) == raw / 64 % 8 && FetchSwizzle(raw, 3) == raw / 512 % 8
  {
    assert Pow2(0) == 1 && Pow2(3) == 8 && Pow2(6) == 64 && Pow2(8) == 256 && Pow2(9) == 512;
  }

  /** Some fetch of the stream so far wrote the register. */
  ghost predicate FetchedInto(before: seq<Visit>, register: nat) {
    exists k :: 0 <= k < |before| && IsFetch(before[k]) && before[k].op.fetch.destReg == register
  }

  lemma WasFetchedIff(before: seq<Visit>, register: nat)
    ensures WasFetched(Attributes(before), register) <==> FetchedInto(before, register)
  {
    if WasFetched(Attributes(before), register) {
      var i :| 0 <= i < |Attributes(before)| && Attributes(before)[i].destReg == register;
      var k := FetchBehind(before, i);
    }
    if FetchedInto(before, register) {
      var k :| 0 <= k < |before| && IsFetch(before[k]) && before[k].op.fetch.destReg == register;
      ListsAreInOrder(before, k);
      assert before[..k + 1][|before[..k + 1]| - 1] == before[k];
      assert Attributes(before)[CountFetches(before[..k])].destReg == register;
    }
  }

  lemma FullFetchIff(before: seq<Visit>)
    ensures LastFullFetch(before).Some? <==> exists k :: 0 <= k < |before| && IsFullFetch(before[k])
  {
    if LastFullFetch(before).Some? {
      var k := NearestFullFetch(before);
    }
    if k :| 0 <= k < |before| && IsFullFetch(before[k]) {
      LastIsThere(before, k);
    }
  }

  /** The control flow the translator knows. */
  predicate PlainFlow(op: ControlFlowOpcode) {
    op in {Nop, Exec, ExecEnd, Alloc}
  }

  /** A vertex fetch of one of two formats, unswizzled, and after a full one if it is none itself. */
  ghost predicate PlainFetch(before: seq<Visit>, f: VertexFetch) {
    && (f.format == 57 || f.format == 38) && FetchIdentity(f.destSwizzle, f.format)
    && (f.isMiniFetch ==> exists k :: 0 <= k < |before| && IsFullFetch(before[k]))
  }

  /**
   * An ALU instruction that keeps its previous scalar, if it has one, and whose vector half either writes nothing or
   * is the max of one temporary register with itself, as it is, into an export the stage has; a vertex shader's
   * register must have been fetched.
   */
  ghost predicate PlainAlu(before: seq<Visit>, f: AluInstruction, shaderType: int) {
    && (f.scalarWriteMask == 0 || f.scalarOpcode == 50)
    && (f.vectorWriteMask == 0 ||
         (&& f.vectorOpcode == 2 && f.src1Reg == f.src2Reg && f.src1Sel && f.src2Sel
          && !f.isPredicated && !f.src1Negate && !f.src2Negate
          && AluIdentity(f.src1Swizzle) && AluIdentity(f.src2Swizzle)
          && (if shaderType == 0 then (f.vectorDest == 0 || f.vectorDest == 62) && FetchedInto(before, f.src1Reg)
              else f.vectorDest == 0)))
  }

  /** Exactly what the translator accepts, instruction by instruction and in the fields of the instruction. */
  lemma AcceptedExactly(before: seq<Visit>, v: Visit, shaderType: int)
    ensures Verdict(before, v, shaderType).None? <==>
              match v
              case Flow(_, _, cf) => PlainFlow(cf.opcode)
              case OutOfRange(_, _) => false
              case Slot(_, TextureFetch(_)) => false
              case Slot(_, Fetch(fetch)) => PlainFetch(before, fetch)
              case Slot(_, Alu(alu)) => PlainAlu(before, alu, shaderType)
  {
    hide Attributes;
    hide AluSwizzleOk;
    hide AluIdentity;
    hide FetchSwizzleOk;
    hide FetchIdentity;
    hide WasFetched;
    hide FetchedInto;
    match v
    case Flow(_, _, cf) =>
    case OutOfRange(_, _) =>
    case Slot(_, TextureFetch(_)) =>
    case Slot(_, Fetch(fetch)) =>
      FullFetchIff(before);
      FetchIdentityIff(fetch.destSwizzle, Float3);
      FetchIdentityIff(fetch.destSwizzle, Float4);
    case Slot(_, Alu(alu)) =>
      AluIdentityIff(alu);
      WasFetchedIff(before, alu.src1Reg);
  }

  // ---------------------------------------------------------------- agreement with the disassembler

  /** The vertex fetches of a listing: destination register and offset of each. */
  function ListedFetches(lines: seq<Line>): seq<(nat, int)> {
    if lines == [] then []
    else
      var l := lines[|lines| - 1];
      ListedFetches(lines[..|lines| - 1]) + if l.FetchLine? then [(l.fetch.destReg, l.fetch.offset)] else []
  }

  predicate SkippedLine(l: Line) {
    l.OutOfRangeLine? || l.TextureFetchLine?
  }

  /** An accepted visit is listed, and listed as a vertex fetch exactly when it becomes an attribute. */
  lemma AcceptedLine(before: seq<Visit>, v: Visit, shaderType: int)
    requires Verdict(before, v, shaderType).None?
    ensures !SkippedLine(LineOf(v)) && (LineOf(v).FetchLine? <==> IsFetch(v))
    ensures IsFetch(v) ==> LineOf(v).fetch == FetchOf(v)
  {
  }

  /** Attribute `a` and listed fetch `l` name the same register and offset. */
  predicate SameFetch(a: Attribute, l: (nat, int)) {
    a.destReg == l.0 && a.byteOffset == l.1 * 4 % TWO32
  }

  predicate SameFetches(attributes: seq<Attribute>, listed: seq<(nat, int)>) {
    |listed| == |attributes| && forall i :: 0 <= i < |attributes| ==> SameFetch(attributes[i], listed[i])
  }

  lemma {:induction false} ListingFetches(vs: seq<Visit>, shaderType: int)
    requires FirstFailure(vs, shaderType).None?
    ensures SameFetches(Attributes(vs), ListedFetches(Lines(vs)))
    decreases |vs|
  {
    if vs == [] {
    } else {
      var front, v := vs[..|vs| - 1], vs[|vs| - 1];
      ListingFetches(front, shaderType);
      AcceptedLine(front, v, shaderType);
      ListingStep(Lines(front), LineOf(v));
      AttributesStep(vs);
    }
  }

  lemma {:induction false} NothingSkipped(vs: seq<Visit>, shaderType: int)
    requires FirstFailure(vs, shaderType).None?
    ensures |Lines(vs)| == |vs| && forall i :: 0 <= i < |vs| ==> !SkippedLine(Lines(vs)[i])
    decreases |vs|
  {
    if vs == [] {
    } else {
      NothingSkipped(vs[..|vs| - 1], shaderType);
      AcceptedLine(vs[..|vs| - 1], vs[|vs| - 1], shaderType);
    }
  }

  lemma ListingStep(lines: seq<Line>, line: Line)
    ensures ListedFetches(lines + [line])
         == ListedFetches(lines) + if line.FetchLine? then [(line.fetch.destReg, line.fetch.offset)] else []
  {
    assert (lines + [line])[..|lines|] == lines;
  }

  lemma AttributesStep(vs: seq<Visit>)
    requires vs != []
    ensures var v := vs[|vs| - 1];
      if IsFetch(v) then exists a :: Attributes(vs) == Attributes(vs[..|vs| - 1]) + [a]
                                     && SameFetch(a, (FetchOf(v).destReg, FetchOf(v).offset))
      else Attributes(vs) == Attributes(vs[..|vs| - 1])
  {
    if IsFetch(vs[|vs| - 1]) {
      assert Attributes(vs) == Attributes(vs[..|vs| - 1]) + [AttributeOf(vs)];
    }
  }

  /** Where the block of the last control-flow instruction starts. */
  function BlockStart(vs: seq<Visit>): nat {
    if vs == [] then 0
    else if vs[|vs| - 1].Flow? then vs[|vs| - 1].cf.address
    else BlockStart(vs[..|vs| - 1])
  }

  /** The program slots a stream of visits reads instructions from, in order. */
  function SlotsRead(vs: seq<Visit>): seq<nat> {
    if vs == [] then []
    else
      var front, v := vs[..|vs| - 1], vs[|vs| - 1];
      SlotsRead(front) + match v
                         case Flow(_, _, _) => []
                         case OutOfRange(_, slot) => [slot]
                         case Slot(j, _) => [BlockStart(front) + j]
  }

  /** The address the last control-flow line of a listing shows. */
  function ListedStart(lines: seq<Line>): nat {
    if lines == [] then 0
    else if lines[|lines| - 1].FlowLine? then lines[|lines| - 1].cf.address
    else ListedStart(lines[..|lines| - 1])
  }

  /** The program slots a listing shows, in order: an instruction's index counts from its block's address. */
  function ListedSlots(lines: seq<Line>): seq<nat> {
    if lines == [] then []
    else
      var front, l := lines[..|lines| - 1], lines[|lines| - 1];
      ListedSlots(front) + if l.FlowLine? then []
                           else if l.OutOfRangeLine? then [l.slot] else [ListedStart(front) + l.index]
  }

  lemma {:induction false} ListingSlots(vs: seq<Visit>)
    ensures ListedStart(Lines(vs)) == BlockStart(vs) && ListedSlots(Lines(vs)) == SlotsRead(vs)
    decreases |vs|
  {
    if vs == [] {
    } else {
      ListingSlots(vs[..|vs| - 1]);
      assert Lines(vs)[..|Lines(vs)| - 1] == Lines(vs[..|vs| - 1]);
    }
  }

  /**
   * The two walks agree: whenever a shader translates, the disassembler lists the slots the translator read, in the
   * same order, skips none of them, and its vertex fetches are the attributes, one for one and in order.
   */
  lemma WalksAgree(d: seq<u32>, shaderType: int)
    requires Translate(d, shaderType).success
    ensures var lines, r := Lines(Walk(d)), Translate(d, shaderType);
      && |lines| == |Walk(d)| && ListedSlots(lines) == SlotsRead(Walk(d))
      && (forall i :: 0 <= i < |lines| ==> !SkippedLine(lines[i]))
      && SameFetches(r.attributes, ListedFetches(lines))
  {
    ListingSlots(Walk(d));
    NothingSkipped(Walk(d), shaderType);
    ListingFetches(Walk(d), shaderType);
  }
}
