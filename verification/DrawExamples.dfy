/** Three packets that make a fresh machine read a position past a vertex record. */
module DrawExamples {
  import opened Words
  import opened GuestMemory
  import opened GpuState
  import opened DrawResolve
  import opened ShaderTranslate
  import opened ShaderCache
  import opened GpuTrace
  import opened PacketRoundTrip
  import opened ShaderExamples

  /** A rectangle list of three automatic vertices. */
  const THREE_VERTICES := DrawInitiator(8, 2, 0, 3)

  /** Fetch constant 0 names three dwords at physical address 0. */
  const SET_FETCH := SetConstant(1, 0, [0, 12])

  const LOAD_COPY := LoadShader(0, COPY_SHADER, [])

  const DRAW: seq<u32> := [Type3Header(OP_DRAW_INDX_2, 1), PackInitiator(THREE_VERTICES)]

  lemma {:induction false} DrawIsDraw()
    ensures IsType3(DRAW, OP_DRAW_INDX_2)
  {
    Type3Fields(OP_DRAW_INDX_2, 1);
  }

  /** The registers after the constant and the initiator. */
  lemma {:induction false} DrawRegisters(regs: Registers)
    ensures var r := Write(WriteRun(regs, 0x4800, [0, 12], false), DRAW_INITIATOR_REGISTER,
                           PackInitiator(THREE_VERTICES));
      DrawInitiatorOf(r) == THREE_VERTICES && VertexFetchConstantOf(r, 0).size == 3
  {
    hide WriteRun;
    var before := WriteRun(regs, 0x4800, [0, 12], false);
    DrawInitiatorRoundTrip(before, THREE_VERTICES);
    FetchConstantRoundTrip(regs, 0, VertexFetchConstant(0, 0, 0, 3));
  }

  /** With such registers, records of one dword and any memory, the draw reads past a record. */
  lemma {:induction false} ShortDraw(m: Memory, regs: Registers, shader: TranslationResult)
    requires DrawInitiatorOf(regs) == THREE_VERTICES && VertexFetchConstantOf(regs, 0).size == 3
    requires shader.success && shader.vertexStrideBytes == 4
    ensures ResolveDraw(m, regs, shader, DRAW) == ShortRecord
  {
    hide ResolveDraw;
    hide DrawInitiatorOf;
    hide VertexFetchConstantOf;
    ShortRecordExactly(m, regs, shader, DRAW);
    var vertices := SourceVertices(m, regs, shader, DRAW);
    assert vertices == [0, 1, 2];
    assert InRange(vertices, 3, 0);
  }

  /** From a fresh machine, whatever its memory and registers: set the constant, load the shader, draw. */
  lemma {:induction false} ShortRecordReached(m: Machine)
    requires m.cache == EMPTY && m.fault.None?
    ensures Effect(Effect(Effect(m, WordsOf(SET_FETCH)), WordsOf(LOAD_COPY)), DRAW).fault == Some(RecordTooShort)
  {
    hide WordsOf;
    hide MicrocodeHash;
    hide Translate;
    hide WriteRun;
    hide ResolveDraw;
    hide PackInitiator;
    EffectIsMeaning(m, SET_FETCH);
    var m1 := Meaning(m, SET_FETCH);
    assert m1 == m.(regs := WriteRun(m.regs, 0x4800, [0, 12], false));
    EffectIsMeaning(m1, LOAD_COPY);
    var m2 := Meaning(m1, LOAD_COPY);
    CopyHash();
    CopyAccepted([]);
    assert COPY_SHADER + [] == COPY_SHADER;
    assert m2.cache.vertex.result == Translate(COPY_SHADER, 0) && m2.regs == m1.regs;
    DrawIsDraw();
    DrawRegisters(m.regs);
    DrawEffect(m2);
  }

  lemma {:induction false} DrawEffect(m: Machine)
    requires IsType3(DRAW, OP_DRAW_INDX_2)
    requires m.cache.vertex.result.success && m.cache.vertex.result.vertexStrideBytes == 4
    requires var regs := Write(m.regs, DRAW_INITIATOR_REGISTER, PackInitiator(THREE_VERTICES));
      DrawInitiatorOf(regs) == THREE_VERTICES && VertexFetchConstantOf(regs, 0).size == 3
    ensures Effect(m, DRAW).fault == Some(RecordTooShort)
  {
    hide ResolveDraw;
    hide Load;
    hide PackInitiator;
    hide DrawInitiatorOf;
    hide VertexFetchConstantOf;
    hide WriteRun;
    var regs := Write(m.regs, DRAW_INITIATOR_REGISTER, PackInitiator(THREE_VERTICES));
    assert RegistersAfter(m.regs, DRAW) == regs;
    ShortDraw(m.memory, regs, m.cache.vertex.result);
  }
}
