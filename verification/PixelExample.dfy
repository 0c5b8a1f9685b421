/** A pixel shader the translator accepts although its colour is not the interpolated value. */
module PixelExample {
  import opened Words
  import opened ShaderDecode
  import opened ShaderTranslate
  import opened TranslatorSpec
  import opened ShaderMeaning

  /** EXEC of slots 1 and 2: export register 0 as colour 0, then register 1. */
  const TWO_COLOURS: seq<u32> := [0x2001, 0x1000, 0, 0xF_0000, 0, 0xC200_0000, 0xF_0000, 0, 0xC201_0100]

  const EXEC_BOTH := ControlFlow(Exec, 1, 2, 0)
  const NO_FLOW := ControlFlow(Nop, 0, 0, 0)

  function ColourOf(register: nat): AluInstruction {
    AluInstruction(0, 0, 15, 0, 0, 2, register, register, 0, true, true, false, 0, 0, 0, false, false, false, false)
  }

  const FIRST := Alu(ColourOf(0))
  const SECOND := Alu(ColourOf(1))

  const PIXEL_VISITS: seq<Visit> := [Flow(0, 0, EXEC_BOTH), Slot(0, FIRST), Slot(1, SECOND), Flow(0, 1, NO_FLOW)]

  lemma {:induction false} FlowDecoded()
    ensures UnpackControlFlowPair(0x2001, 0x1000, 0) == [EXEC_BOTH, NO_FLOW]
  {
    assert OPCODES[1] == Exec && OPCODES[0] == Nop;
  }

  lemma {:induction false} FirstDecoded()
    ensures DecodeInstruction(false, 0xF_0000, 0, 0xC200_0000) == FIRST
  {
  }

  lemma {:induction false} SecondDecoded()
    ensures DecodeInstruction(false, 0xF_0000, 0, 0xC201_0100) == SECOND
  {
  }

  lemma {:induction false} PixelSlots()
    ensures var slots := ViewOf(TWO_COLOURS);
      && |slots| == 3 && slots[0].pair == [EXEC_BOTH, NO_FLOW] && slots[1].asAlu == FIRST && slots[2].asAlu == SECOND
  {
    hide DecodeInstruction;
    hide UnpackControlFlowPair;
    FlowDecoded();
    FirstDecoded();
    SecondDecoded();
    var d := TWO_COLOURS;
    assert ViewOf(d)[0] == ViewSlot(d, 0) && ViewOf(d)[1] == ViewSlot(d, 1) && ViewOf(d)[2] == ViewSlot(d, 2);
  }

  lemma {:induction false} PixelBlock(slots: seq<SlotView>)
    requires |slots| == 3 && slots[1].asAlu == FIRST && slots[2].asAlu == SECOND
    ensures SlotVisits(slots, EXEC_BOTH, 2) == [Slot(0, FIRST), Slot(1, SECOND)]
  {
    assert Pow2(0) == 1 && Pow2(2) == 4;
    assert VisitSlot(slots, EXEC_BOTH, 0) == Slot(0, FIRST) && VisitSlot(slots, EXEC_BOTH, 1) == Slot(1, SECOND);
    assert SlotVisits(slots, EXEC_BOTH, 0) == [];
    assert SlotVisits(slots, EXEC_BOTH, 1) == SlotVisits(slots, EXEC_BOTH, 0) + [VisitSlot(slots, EXEC_BOTH, 0)];
  }

  lemma {:induction false} PixelPair(slots: seq<SlotView>)
    requires |slots| == 3 && slots[0].pair == [EXEC_BOTH, NO_FLOW]
    requires SlotVisits(slots, EXEC_BOTH, 2) == [Slot(0, FIRST), Slot(1, SECOND)]
    ensures WalkPair(slots, 0, WalkState(3, [])) == WalkState(1, PIXEL_VISITS)
  {
    hide SlotVisits;
    var pair := slots[0].pair;
    assert PairEnd(3, pair, 0) == 3 && PairEnd(3, pair, 1) == 1 && PairEnd(3, pair, 2) == 1;
    assert PairVisits(slots, 0, pair, 0) == [];
    assert PairVisits(slots, 0, pair, 1) == PairVisits(slots, 0, pair, 0) + ItemVisits(slots, 0, 0, EXEC_BOTH);
    assert PairVisits(slots, 0, pair, 2) == PairVisits(slots, 0, pair, 1) + ItemVisits(slots, 0, 1, NO_FLOW);
  }

  lemma {:induction false} PixelWalk()
    ensures Walk(TWO_COLOURS) == PIXEL_VISITS
  {
    hide ViewOf;
    PixelSlots();
    var slots := ViewOf(TWO_COLOURS);
    PixelBlock(slots);
    assert WalkTo(slots, 0) == WalkState(3, []);
    assert WalkTo(slots, 1) == WalkPair(slots, 0, WalkTo(slots, 0));
    PixelPair(slots);
    WalkStops(slots, 1, 3);
  }

  lemma {:induction false} PixelVerdict(before: seq<Visit>, register: nat)
    ensures AluVerdict(before, ColourOf(register), 1).None?
  {
    assert Pow2(0) == 1 && Pow2(2) == 4 && Pow2(4) == 16 && Pow2(6) == 64;
  }

  lemma {:induction false} PixelLists()
    ensures FirstFailure(PIXEL_VISITS, 1).None? && Exports(PIXEL_VISITS) == [Export(0, 0), Export(0, 1)]
  {
    hide AluVerdict;
    var vs := PIXEL_VISITS;
    PixelVerdict(vs[..1], 0);
    PixelVerdict(vs[..2], 1);
    assert vs[..1][..0] == [] && vs[..2][..1] == vs[..1] && vs[..3][..2] == vs[..2];
    assert FirstFailure(vs[..1], 1).None? && Exports(vs[..1]) == [];
    assert FirstFailure(vs[..2], 1).None? && Exports(vs[..2]) == [Export(0, 0)];
    assert FirstFailure(vs[..3], 1).None? && Exports(vs[..3]) == [Export(0, 0), Export(0, 1)];
  }

  /** The shader is accepted, and translated as if it returned the interpolated value, which it does not. */
  lemma {:induction false} AcceptedWithOtherColour(data: VertexData, constants: Constants)
    ensures Translate(TWO_COLOURS, 1).success && Translate(TWO_COLOURS, 1).hasFragmentSource
    ensures !ReturnsInterpolator(TWO_COLOURS, data, constants)
  {
    hide Walk;
    hide FirstFailure;
    hide Exports;
    hide ReturnsInterpolator;
    PixelWalk();
    PixelLists();
    assert FullMasks(PIXEL_VISITS) && NoFetches(PIXEL_VISITS);
    PixelMeaningExactly(TWO_COLOURS, data, constants);
  }
}
