/** One accepted shader, and what a stray dword behind it does to the cache. */
module ShaderExamples {
  import opened Words
  import opened ShaderDecode
  import opened ShaderTranslate
  import opened ShaderCache
  import Fnv

  /**
   * EXEC of slots 1 and 2; a Float4 fetch into register 1 with a stride of one dword; and an export of register 1
   * as the position.
   */
  const COPY_SHADER: seq<u32> :=
    [0x1_2001, 0x1000, 0, 0x1040, 0x26_0688, 1, 0xF_003E, 0, 0xC201_0100]

  const EXEC_TWO := ControlFlow(Exec, 1, 2, 1)
  const NO_FLOW := ControlFlow(Nop, 0, 0, 0)
  const COPY_FETCH := VertexFetch(0, 2, 1, 38, 1, 0, false, 0x688)
  const COPY_EXPORT := AluInstruction(
    62, 0, 15, 0, 0, 2, 1, 1, 0, true, true, false, 0, 0, 0, false, false, false, false)

  const COPY_VISITS: seq<Visit> :=
    [Flow(0, 0, EXEC_TWO), Slot(0, Fetch(COPY_FETCH)), Slot(1, Alu(COPY_EXPORT)), Flow(0, 1, NO_FLOW)]

  lemma {:induction false} ExecDecoded()
    ensures DecodeControlFlow(0x1_2001, 0x1000) == EXEC_TWO
  {
    assert OPCODES[1] == Exec;
  }

  lemma {:induction false} NopDecoded()
    ensures DecodeControlFlow(0, 0) == NO_FLOW
  {
    assert OPCODES[0] == Nop;
  }

  lemma {:induction false} CopyFlow()
    ensures UnpackControlFlowPair(0x1_2001, 0x1000, 0) == [EXEC_TWO, NO_FLOW]
  {
    hide DecodeControlFlow;
    ExecDecoded();
    NopDecoded();
  }

  lemma {:induction false} FetchDecoded()
    ensures DecodeVertexFetch(0x1040, 0x26_0688, 1) == COPY_FETCH
  {
  }

  lemma {:induction false} ExportDecoded()
    ensures DecodeAlu(0xF_003E, 0, 0xC201_0100) == COPY_EXPORT
  {
  }

  lemma {:induction false} CopyOps()
    ensures DecodeInstruction(true, 0x1040, 0x26_0688, 1) == Fetch(COPY_FETCH)
    ensures DecodeInstruction(false, 0xF_003E, 0, 0xC201_0100) == Alu(COPY_EXPORT)
  {
    hide DecodeVertexFetch;
    hide DecodeAlu;
    FetchDecoded();
    ExportDecoded();
  }

  lemma {:induction false} CopySlots(tail: seq<u32>)
    requires |tail| <= 2
    ensures var slots := ViewOf(COPY_SHADER + tail);
      && |slots| == 3 && slots[0].pair == [EXEC_TWO, NO_FLOW]
      && slots[1].asFetch == Fetch(COPY_FETCH) && slots[2].asAlu == Alu(COPY_EXPORT)
  {
    hide DecodeInstruction;
    hide UnpackControlFlowPair;
    CopyFlow();
    CopyOps();
    var d := COPY_SHADER + tail;
    assert d[..9] == COPY_SHADER;
    assert ViewOf(d)[0] == ViewSlot(d, 0) && ViewOf(d)[1] == ViewSlot(d, 1) && ViewOf(d)[2] == ViewSlot(d, 2);
  }

  /** Up to two dwords behind the last whole slot are never looked at. */
  lemma {:induction false} CopyWalk(tail: seq<u32>)
    requires |tail| <= 2
    ensures Walk(COPY_SHADER + tail) == COPY_VISITS
  {
    hide ViewOf;
    CopySlots(tail);
    var slots := ViewOf(COPY_SHADER + tail);
    var pair := slots[0].pair;
    CopyBlock(slots);
    assert WalkTo(slots, 0) == WalkState(3, []);
    assert WalkTo(slots, 1) == WalkPair(slots, 0, WalkTo(slots, 0));
    CopyPair(slots);
    WalkStops(slots, 1, 3);
  }

  lemma {:induction false} CopyBlock(slots: seq<SlotView>)
    requires |slots| == 3 && slots[1].asFetch == Fetch(COPY_FETCH) && slots[2].asAlu == Alu(COPY_EXPORT)
    ensures SlotVisits(slots, EXEC_TWO, 2) == [Slot(0, Fetch(COPY_FETCH)), Slot(1, Alu(COPY_EXPORT))]
  {
    assert Pow2(0) == 1 && Pow2(2) == 4;
    assert VisitSlot(slots, EXEC_TWO, 0) == Slot(0, Fetch(COPY_FETCH));
    assert VisitSlot(slots, EXEC_TWO, 1) == Slot(1, Alu(COPY_EXPORT));
    assert SlotVisits(slots, EXEC_TWO, 0) == [];
    assert SlotVisits(slots, EXEC_TWO, 1) == SlotVisits(slots, EXEC_TWO, 0) + [VisitSlot(slots, EXEC_TWO, 0)];
  }

  lemma {:induction false} CopyPair(slots: seq<SlotView>)
    requires |slots| == 3 && slots[0].pair == [EXEC_TWO, NO_FLOW]
    requires SlotVisits(slots, EXEC_TWO, 2) == [Slot(0, Fetch(COPY_FETCH)), Slot(1, Alu(COPY_EXPORT))]
    ensures WalkPair(slots, 0, WalkState(3, [])) == WalkState(1, COPY_VISITS)
  {
    hide SlotVisits;
    var pair := slots[0].pair;
    assert PairEnd(3, pair, 0) == 3 && PairEnd(3, pair, 1) == 1 && PairEnd(3, pair, 2) == 1;
    assert PairVisits(slots, 0, pair, 0) == [];
    assert PairVisits(slots, 0, pair, 1) == PairVisits(slots, 0, pair, 0) + ItemVisits(slots, 0, 0, EXEC_TWO);
    assert PairVisits(slots, 0, pair, 2) == PairVisits(slots, 0, pair, 1) + ItemVisits(slots, 0, 1, NO_FLOW);
  }

  lemma {:induction false} CopySwizzles()
    ensures FetchSwizzleOk(0x688, Float4) && AluSwizzleOk(COPY_EXPORT)
  {
    assert Pow2(0) == 1 && Pow2(2) == 4 && Pow2(3) == 8 && Pow2(4) == 16 && Pow2(6) == 64 && Pow2(9) == 512;
  }

  lemma {:induction false} CopyPrefixes()
    ensures COPY_VISITS[..1] == [COPY_VISITS[0]] && COPY_VISITS[..2] == [COPY_VISITS[0], COPY_VISITS[1]]
    ensures COPY_VISITS[..3] == [COPY_VISITS[0], COPY_VISITS[1], COPY_VISITS[2]]
    ensures COPY_VISITS[..3][..2] == COPY_VISITS[..2] && COPY_VISITS[..2][..1] == COPY_VISITS[..1]
    ensures COPY_VISITS[..1][..0] == []
  {
  }

  /** The lists gathered after the fetch, and after each visit behind it. */
  lemma {:induction false} CopyLists()
    ensures Attributes(COPY_VISITS[..1]) == [] && Exports(COPY_VISITS[..1]) == []
    ensures LastFullFetch(COPY_VISITS[..2]) == Some(COPY_FETCH)
    ensures Attributes(COPY_VISITS[..2]) == [Attribute(0, 1, Float4, 0)] && Exports(COPY_VISITS[..2]) == []
    ensures Attributes(COPY_VISITS) == [Attribute(0, 1, Float4, 0)] && Exports(COPY_VISITS) == [Export(62, 1)]
    ensures LastFullFetch(COPY_VISITS) == Some(COPY_FETCH)
  {
    CopyPrefixes();
    var vs := COPY_VISITS;
    assert Attributes(vs[..0]) == [] && Exports(vs[..0]) == [] && LastFullFetch(vs[..0]) == None;
    assert Attributes(vs[..3]) == Attributes(vs[..2]) && LastFullFetch(vs[..3]) == Some(COPY_FETCH);
    assert Exports(vs[..3]) == Exports(vs[..2]) + [Export(62, 1)];
  }

  lemma {:induction false} CopyVerdicts()
    ensures FirstFailure(COPY_VISITS, 0).None?
  {
    hide FetchSwizzleOk;
    hide AluSwizzleOk;
    hide Attributes;
    hide LastFullFetch;
    CopySwizzles();
    CopyPrefixes();
    CopyLists();
    var vs := COPY_VISITS;
    assert FirstFailure(vs[..0], 0).None?;
    assert FirstFailure(vs[..1], 0).None?;
    assert FirstFailure(vs[..2], 0).None?;
    assert WasFetched(Attributes(vs[..2]), 1) by { assert Attributes(vs[..2])[0].destReg == 1; }
    assert AluVerdict(vs[..2], COPY_EXPORT, 0).None?;
    assert FirstFailure(vs[..3], 0).None?;
  }

  /** The shader is accepted, with vertex records of a single dword. */
  lemma {:induction false} CopyAccepted(tail: seq<u32>)
    requires |tail| <= 2
    ensures var r := Translate(COPY_SHADER + tail, 0);
      r.success && r.vertexStrideBytes == 4 && r.attributes == [Attribute(0, 1, Float4, 0)]
  {
    hide Walk;
    hide FirstFailure;
    hide Attributes;
    hide Exports;
    hide LastFullFetch;
    CopyWalk(tail);
    CopyVerdicts();
    CopyLists();
  }

  // ---------------------------------------------------------------- an accepted shader whose hash is zero

  /** The hash after four more bytes. */
  function AfterWord(h: u32, w: u32): u32 {
    var h2 := Fnv.HashStep(Fnv.HashStep(h, w % 0x100), w / 0x100 % 0x100);
    Fnv.HashStep(Fnv.HashStep(h2, w / 0x1_0000 % 0x100), w / 0x100_0000)
  }

  lemma {:induction false} HashOneMore(data: seq<u8>, b: u8)
    ensures Fnv.Hash(data + [b]) == Fnv.HashStep(Fnv.Hash(data), b)
  {
    hide Fnv.HashStep;
    assert (data + [b])[..|data|] == data;
  }

  lemma {:induction false} HashWord(m: seq<u32>, w: u32)
    ensures MicrocodeHash(m + [w]) == AfterWord(MicrocodeHash(m), w)
  {
    hide Fnv.HashStep;
    hide Fnv.Hash;
    assert (m + [w])[..|m|] == m;
    var bs, le := Bytes(m), LittleEndian(w);
    HashOneMore(bs, le[0]);
    HashOneMore(bs + [le[0]], le[1]);
    HashOneMore(bs + [le[0]] + [le[1]], le[2]);
    HashOneMore(bs + [le[0]] + [le[1]] + [le[2]], le[3]);
    assert bs + le == bs + [le[0]] + [le[1]] + [le[2]] + [le[3]];
  }

  /** Bit `p` (a power of two) of `x` is the exclusive or of those of `a` and `b`. */
  predicate XorBit(a: nat, b: nat, x: nat, p: nat)
    requires p > 0
  {
    x / p % 2 == if a / p % 2 == b / p % 2 then 0 else 1
  }

  lemma {:induction false} XorHalf(a: nat, b: nat, x: nat, n: nat)
    requires n > 0 && XorBit(a, b, x, 1) && Fnv.Xor(a / 2, b / 2, n - 1) == x / 2
    ensures Fnv.Xor(a, b, n) == x
  {
  }

  lemma {:induction false} Halves(a: u8)
    ensures a / 2 / 2 == a / 4 && a / 4 / 2 == a / 8 && a / 8 / 2 == a / 0x10 && a / 0x10 / 2 == a / 0x20
    ensures a / 0x20 / 2 == a / 0x40 && a / 0x40 / 2 == a / 0x80 && a / 0x80 / 2 == 0
  {
  }

  lemma {:induction false} XorBitDown(a: u8, b: u8, x: u8, p: nat)
    requires p > 0 && XorBit(a, b, x, p)
    ensures XorBit(a / p, b / p, x / p, 1)
  {
  }

  lemma {:induction false} XorBits(a: u8, b: u8, x: u8)
    requires XorBit(a, b, x, 1) && XorBit(a, b, x, 2) && XorBit(a, b, x, 4) && XorBit(a, b, x, 8)
    requires XorBit(a, b, x, 16) && XorBit(a, b, x, 32) && XorBit(a, b, x, 64) && XorBit(a, b, x, 128)
    ensures Fnv.XorByte(a, b) == x
  {
    hide Fnv.Xor;
    hide XorBit;
    XorBitDown(a, b, x, 0x80);
    XorBitDown(a, b, x, 0x40);
    XorBitDown(a, b, x, 0x20);
    XorBitDown(a, b, x, 0x10);
    XorBitDown(a, b, x, 8);
    XorBitDown(a, b, x, 4);
    XorBitDown(a, b, x, 2);
    Halves(a);
    Halves(b);
    Halves(x);
    NoBits(0, 0);
    XorHalf(a / 0x80, b / 0x80, x / 0x80, 1);
    XorHalf(a / 0x40, b / 0x40, x / 0x40, 2);
    XorHalf(a / 0x20, b / 0x20, x / 0x20, 3);
    XorHalf(a / 0x10, b / 0x10, x / 0x10, 4);
    XorHalf(a / 8, b / 8, x / 8, 5);
    XorHalf(a / 4, b / 4, x / 4, 6);
    XorHalf(a / 2, b / 2, x / 2, 7);
    XorHalf(a, b, x, 8);
  }

  lemma {:induction false} NoBits(a: nat, b: nat)
    ensures Fnv.Xor(a, b, 0) == 0
  {
  }

  /**
   * One step of the hash: `high` and `low` are the state's high part and low byte, `x` is the low byte's xor, and
   * `over` what the multiplication carries past 32 bits.
   */
  lemma {:induction false} ByteStep(h: u32, high: nat, low: u8, b: u8, x: u8, over: nat, h': u32)
    requires h == high * 0x100 + low && (high * 0x100 + x) * 16777619 == over * 0x1_0000_0000 + h'
    requires XorBit(low, b, x, 1) && XorBit(low, b, x, 2) && XorBit(low, b, x, 4) && XorBit(low, b, x, 8)
    requires XorBit(low, b, x, 16) && XorBit(low, b, x, 32) && XorBit(low, b, x, 64) && XorBit(low, b, x, 128)
    ensures Fnv.HashStep(h, b) == h'
  {
    hide Fnv.XorByte;
    hide XorBit;
    XorBits(low, b, x);
    Split(h, 0x100, high, low);
    Split((high * 0x100 + x) * 16777619, 0x1_0000_0000, over, h');
  }

  /** A zero byte only multiplies. */
  lemma {:induction false} ZeroStep(h: u32, over: nat, h': u32)
    requires h * 16777619 == over * 0x1_0000_0000 + h'
    ensures Fnv.HashStep(h, 0) == h'
  {
    XorZero(h % 0x100, 8);
    hide Fnv.Xor;
    Split(h * 16777619, 0x1_0000_0000, over, h');
  }

  lemma {:induction false} XorZero(a: nat, n: nat)
    requires a < Pow2(n)
    ensures Fnv.Xor(a, 0, n) == a
    decreases n
  {
    if n == 0 {
    } else {
      XorZero(a / 2, n - 1);
    }
  }

  lemma {:induction false} FourBytes(h: u32, w: u32, b0: u8, b1: u8, b2: u8, b3: u8)
    requires w == b0 + b1 * 0x100 + b2 * 0x1_0000 + b3 * 0x100_0000
    ensures AfterWord(h, w) == Fnv.HashStep(Fnv.HashStep(Fnv.HashStep(Fnv.HashStep(h, b0), b1), b2), b3)
  {
    hide Fnv.HashStep;
    Split(w, 0x100, b1 + b2 * 0x100 + b3 * 0x1_0000, b0);
    Split(w, 0x1_0000, b2 + b3 * 0x100, b0 + b1 * 0x100);
    Split(w, 0x100_0000, b3, b0 + b1 * 0x100 + b2 * 0x1_0000);
    Split(b1 + b2 * 0x100 + b3 * 0x1_0000, 0x100, b2 + b3 * 0x100, b1);
    Split(b2 + b3 * 0x100, 0x100, b3, b2);
  }

  lemma {:induction false} HashWord0()
    ensures AfterWord(0x811C_9DC5, 0x1_2001) == 0xFE42_99CD
  {
    hide Fnv.HashStep;
    hide AfterWord;
    hide Fnv.XorByte;
    hide Fnv.Xor;
    FourBytes(0x811C_9DC5, 0x1_2001, 0x1, 0x20, 0x1, 0);
    ByteStep(0x811C_9DC5, 0x81_1C9D, 0xC5, 0x1, 0xC4, 0x81_1D69, 0x40C_5B8C);
    ByteStep(0x40C_5B8C, 0x4_0C5B, 0x8C, 0x20, 0xAC, 0x4_0C62, 0xB74_4FC4);
    ByteStep(0xB74_4FC4, 0xB_744F, 0xC4, 0x1, 0xC5, 0xB_7461, 0xCD19_931F);
    ZeroStep(0xCD19_931F, 0xCD_1AD5, 0xFE42_99CD);
  }

  lemma {:induction false} HashWord1()
    ensures AfterWord(0xFE42_99CD, 0x1000) == 0xD716_74ED
  {
    hide Fnv.HashStep;
    hide AfterWord;
    hide Fnv.XorByte;
    hide Fnv.Xor;
    FourBytes(0xFE42_99CD, 0x1000, 0, 0x10, 0, 0);
    ZeroStep(0xFE42_99CD, 0xFE_442A, 0xFD8_1DB7);
    ByteStep(0xFD8_1DB7, 0xF_D81D, 0xB7, 0x10, 0xA7, 0xF_D836, 0x9836_ADE5);
    ZeroStep(0x9836_ADE5, 0x98_379D, 0x8313_BF7F);
    ZeroStep(0x8313_BF7F, 0x83_148D, 0xD716_74ED);
  }

  lemma {:induction false} HashWord2()
    ensures AfterWord(0xD716_74ED, 0) == 0xF800_16BD
  {
    hide Fnv.HashStep;
    hide AfterWord;
    hide Fnv.XorByte;
    hide Fnv.Xor;
    FourBytes(0xD716_74ED, 0, 0, 0, 0, 0);
    ZeroStep(0xD716_74ED, 0xD7_17C7, 0x855A_1117);
    ZeroStep(0x855A_1117, 0x85_5AE3, 0x3C8_E735);
    ZeroStep(0x3C8_E735, 0x3_C8ED, 0x2A43_F86F);
    ZeroStep(0x2A43_F86F, 0x2A_443A, 0xF800_16BD);
  }

  lemma {:induction false} HashWord3()
    ensures AfterWord(0xF800_16BD, 0x1040) == 0x6F90_FE7D
  {
    hide Fnv.HashStep;
    hide AfterWord;
    hide Fnv.XorByte;
    hide Fnv.Xor;
    FourBytes(0xF800_16BD, 0x1040, 0x40, 0x10, 0, 0);
    ByteStep(0xF800_16BD, 0xF8_0016, 0xBD, 0x40, 0xFD, 0xF8_019D, 0x6524_3047);
    ByteStep(0x6524_3047, 0x65_2430, 0x47, 0x10, 0x57, 0x65_24CF, 0x8EF8_18F5);
    ZeroStep(0x8EF8_18F5, 0x8E_F8FA, 0x58F_49AF);
    ZeroStep(0x58F_49AF, 0x5_8F52, 0x6F90_FE7D);
  }

  lemma {:induction false} HashWord4()
    ensures AfterWord(0x6F90_FE7D, 0x26_0688) == 0xC67_4775
  {
    hide Fnv.HashStep;
    hide AfterWord;
    hide Fnv.XorByte;
    hide Fnv.Xor;
    FourBytes(0x6F90_FE7D, 0x26_0688, 0x88, 0x6, 0x26, 0);
    ByteStep(0x6F90_FE7D, 0x6F_90FE, 0x7D, 0x88, 0xF5, 0x6F_91AE, 0x9641_5BAF);
    ByteStep(0x9641_5BAF, 0x96_415B, 0xAF, 0x6, 0xA9, 0x96_4248, 0x31E3_4B0B);
    ByteStep(0x31E3_4B0B, 0x31_E34B, 0xB, 0x26, 0x2D, 0x31_E399, 0xB5CF_57D7);
    ZeroStep(0xB5CF_57D7, 0xB5_D076, 0xC67_4775);
  }

  lemma {:induction false} HashWord5()
    ensures AfterWord(0xC67_4775, 0x1) == 0xC561_4AB4
  {
    hide Fnv.HashStep;
    hide AfterWord;
    hide Fnv.XorByte;
    hide Fnv.Xor;
    FourBytes(0xC67_4775, 0x1, 0x1, 0, 0, 0);
    ByteStep(0xC67_4775, 0xC_6747, 0x75, 0x1, 0x74, 0xC_675A, 0xFA95_7B9C);
    ZeroStep(0xFA95_7B9C, 0xFA_9706, 0x1551_9694);
    ZeroStep(0x1551_9694, 0x15_51B8, 0x2370_0AFC);
    ZeroStep(0x2370_0AFC, 0x23_7042, 0xC561_4AB4);
  }

  lemma {:induction false} HashWord6()
    ensures AfterWord(0xC561_4AB4, 0xF_003E) == 0x3E79_851D
  {
    hide Fnv.HashStep;
    hide AfterWord;
    hide Fnv.XorByte;
    hide Fnv.Xor;
    FourBytes(0xC561_4AB4, 0xF_003E, 0x3E, 0, 0xF, 0);
    ByteStep(0xC561_4AB4, 0xC5_614A, 0xB4, 0x3E, 0x8A, 0xC5_6281, 0x4228_573E);
    ZeroStep(0x4228_573E, 0x42_28BF, 0x6381_569A);
    ByteStep(0x6381_569A, 0x63_8156, 0x9A, 0xF, 0x95, 0x63_81F3, 0x399B_4C8F);
    ZeroStep(0x399B_4C8F, 0x39_9BA7, 0x3E79_851D);
  }

  lemma {:induction false} HashWord7()
    ensures AfterWord(0x3E79_851D, 0) == 0xFECF_F9ED
  {
    hide Fnv.HashStep;
    hide AfterWord;
    hide Fnv.XorByte;
    hide Fnv.Xor;
    FourBytes(0x3E79_851D, 0, 0, 0, 0, 0);
    ZeroStep(0x3E79_851D, 0x3E_79E7, 0x764C_8CA7);
    ZeroStep(0x764C_8CA7, 0x76_4D46, 0xE181_6AE5);
    ZeroStep(0xE181_6AE5, 0xE1_82CD, 0xE3BB_467F);
    ZeroStep(0xE3BB_467F, 0xE3_BCAC, 0xFECF_F9ED);
  }

  lemma {:induction false} HashWord8()
    ensures AfterWord(0xFECF_F9ED, 0xC201_0100) == 0xC828_5141
  {
    hide Fnv.HashStep;
    hide AfterWord;
    hide Fnv.XorByte;
    hide Fnv.Xor;
    FourBytes(0xFECF_F9ED, 0xC201_0100, 0, 0x1, 0x1, 0xC2);
    ZeroStep(0xFECF_F9ED, 0xFE_D18B, 0xE66_7017);
    ByteStep(0xE66_7017, 0xE_6670, 0x17, 0x1, 0x16, 0xE_6686, 0xC142_72A2);
    ByteStep(0xC142_72A2, 0xC1_4272, 0xA2, 0x1, 0xA3, 0xC1_43A2, 0xDE9A_7699);
    ByteStep(0xDE9A_7699, 0xDE_9A76, 0x99, 0xC2, 0x5B, 0xDE_9BD4, 0xC828_5141);
  }

  lemma {:induction false} HashWord9()
    ensures AfterWord(0xC828_5141, 0x917_E8CD) == 0
  {
    hide Fnv.HashStep;
    hide AfterWord;
    hide Fnv.XorByte;
    hide Fnv.Xor;
    FourBytes(0xC828_5141, 0x917_E8CD, 0xCD, 0xE8, 0x17, 0x9);
    ByteStep(0xC828_5141, 0xC8_2851, 0x41, 0xCD, 0x8C, 0xC8_298C, 0xA378_5F64);
    ByteStep(0xA378_5F64, 0xA3_785F, 0x64, 0xE8, 0x8C, 0xA3_7960, 0xE27E_6964);
    ByteStep(0xE27E_6964, 0xE2_7E69, 0x64, 0x17, 0x73, 0xE2_7FCE, 0x9);
    ByteStep(0x9, 0, 0x9, 0x9, 0, 0x0, 0);
  }

  const ZERO_HASH_TAIL: u32 := 0x917_E8CD

  /** The hash of every prefix, one word at a time. */
  lemma {:induction false} CopyHash()
    ensures MicrocodeHash(COPY_SHADER) == 0xC828_5141
  {
    hide AfterWord;
    hide MicrocodeHash;
    var m := COPY_SHADER;
    EmptyHash();
    assert m[..1] == m[..0] + [m[0]];
    HashWord(m[..0], m[0]);
    HashWord0();
    assert m[..2] == m[..1] + [m[1]];
    HashWord(m[..1], m[1]);
    HashWord1();
    assert m[..3] == m[..2] + [m[2]];
    HashWord(m[..2], m[2]);
    HashWord2();
    assert m[..4] == m[..3] + [m[3]];
    HashWord(m[..3], m[3]);
    HashWord3();
    assert m[..5] == m[..4] + [m[4]];
    HashWord(m[..4], m[4]);
    HashWord4();
    assert m[..6] == m[..5] + [m[5]];
    HashWord(m[..5], m[5]);
    HashWord5();
    assert m[..7] == m[..6] + [m[6]];
    HashWord(m[..6], m[6]);
    HashWord6();
    assert m[..8] == m[..7] + [m[7]];
    HashWord(m[..7], m[7]);
    HashWord7();
    assert m[..9] == m[..8] + [m[8]];
    HashWord(m[..8], m[8]);
    HashWord8();
    assert m[..0] == [] && m[..9] == m;
  }

  lemma {:induction false} ZeroHash()
    ensures MicrocodeHash(COPY_SHADER + [ZERO_HASH_TAIL]) == 0
  {
    hide AfterWord;
    hide MicrocodeHash;
    CopyHash();
    HashWord(COPY_SHADER, ZERO_HASH_TAIL);
    HashWord9();
  }

  lemma {:induction false} EmptyHash()
    ensures MicrocodeHash([]) == Fnv.OFFSET_BASIS
  {
    assert Bytes([]) == [];
  }

  /**
   * The gate can serve the wrong result: an accepted shader that follows nothing is never translated, because its
   * hash is the one the empty cache starts with.
   */
  lemma {:induction false} AcceptedShaderNeverTranslated()
    ensures var m := COPY_SHADER + [ZERO_HASH_TAIL];
      && Translate(m, 0).success
      && !Serves([Request(0, m)], 0) && StageOf(AfterLoads([Request(0, m)]), 0).result == NO_TRANSLATION
  {
    hide MicrocodeHash;
    hide Translate;
    var m := COPY_SHADER + [ZERO_HASH_TAIL];
    CopyAccepted([ZERO_HASH_TAIL]);
    ZeroHash();
    var loads := [Request(0, m)];
    assert loads[..0] == [];
    assert AfterLoads(loads) == Load(EMPTY, 0, m) == EMPTY;
    assert LatestTranslation(loads, 0) == Translate(m, 0);
  }
}
