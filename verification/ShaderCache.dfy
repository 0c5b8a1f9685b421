/** The FNV-1a hash that decides whether microcode changed (section 2 of draft-eastlake-fnv). */
module Fnv {
  import opened Words

  const OFFSET_BASIS: u32 := 2166136261
  const PRIME := 16777619
  const PRIME_INVERSE := 899433627

  /** Exclusive or of the low `n` bits of two naturals, bit by bit. */
  function Xor(a: nat, b: nat, n: nat): (r: nat)
    ensures r < Pow2(n)
  {
    if n == 0 then 0 else 2 * Xor(a / 2, b / 2, n - 1) + (if a % 2 == b % 2 then 0 else 1)
  }

  function XorByte(a: u8, b: u8): u8 {
    assert Pow2(8) == 0x100;
    Xor(a, b, 8)
  }

  /** `h ^ b`: only the low byte changes. */
  function XorLow(h: u32, b: u8): u32 {
    h / 0x100 * 0x100 + XorByte(h % 0x100, b)
  }

  function HashStep(h: u32, b: u8): u32 {
    XorLow(h, b) * PRIME % TWO32
  }

  function Hash(data: seq<u8>): u32 {
    if data == [] then OFFSET_BASIS else HashStep(Hash(data[..|data| - 1]), data[|data| - 1])
  }

  method Fnv1aHash(data: seq<u8>) returns (hash: u32)
    ensures hash == Hash(data)
  {
    hash := OFFSET_BASIS;
    for i := 0 to |data|
      invariant hash == Hash(data[..i])
    {
      assert data[..i + 1][..i] == data[..i];
      hash := XorLow(hash, data[i]);
      hash := hash * PRIME % TWO32;
    }
    assert data[..|data|] == data;
  }

  /** Multiplying by the odd prime is undone by its inverse modulo 2^32. */
  lemma MultiplyUndone(x: u32)
    ensures x * PRIME % TWO32 * PRIME_INVERSE % TWO32 == x
  {
    var t, r := x * PRIME / TWO32, x * PRIME % TWO32;
    assert PRIME * PRIME_INVERSE == 3513497 * TWO32 + 1;
    Split(r * PRIME_INVERSE, TWO32, x * 3513497 - t * PRIME_INVERSE, x);
  }

  lemma {:induction false} XorTwice(a: nat, b: nat, n: nat)
    requires a < Pow2(n) && b < Pow2(n)
    ensures Xor(Xor(a, b, n), b, n) == a && Xor(Xor(a, b, n), a, n) == b
    decreases n
  {
    if n == 0 {
    } else {
      XorTwice(a / 2, b / 2, n - 1);
      Split(Xor(a, b, n), 2, Xor(a / 2, b / 2, n - 1), if a % 2 == b % 2 then 0 else 1);
    }
  }

  lemma XorInjective(h: u32, h': u32, b: u8, b': u8)
    requires XorLow(h, b) == XorLow(h', b')
    ensures h == h' <==> b == b'
  {
    Split(XorLow(h, b), 0x100, h / 0x100, XorByte(h % 0x100, b));
    Split(XorLow(h', b'), 0x100, h' / 0x100, XorByte(h' % 0x100, b'));
    assert Pow2(8) == 0x100;
    XorTwice(h % 0x100, b, 8);
    XorTwice(h' % 0x100, b', 8);
  }

  lemma StepInjective(h: u32, h': u32, b: u8, b': u8)
    requires HashStep(h, b) == HashStep(h', b')
    ensures h == h' <==> b == b'
  {
    MultiplyUndone(XorLow(h, b));
    MultiplyUndone(XorLow(h', b'));
    XorInjective(h, h', b, b');
  }

  /** Two inputs of the same length that differ in exactly one byte have different hashes. */
  lemma {:induction false} SingleByteSensitivity(a: seq<u8>, b: seq<u8>, k: nat)
    requires |a| == |b| && k < |a| && a[k] != b[k]
    requires forall i :: 0 <= i < |a| && i != k ==> a[i] == b[i]
    ensures Hash(a) != Hash(b)
    decreases |a|
  {
    var n := |a| - 1;
    if k < n {
      SingleByteSensitivity(a[..n], b[..n], k);
    } else {
      assert a[..n] == b[..n];
    }
    if Hash(a) == Hash(b) {
      StepInjective(Hash(a[..n]), Hash(b[..n]), a[n], b[n]);
    }
  }
}

/** The hash-gated cache of the latest translation attempt for each of the two shader stages. */
module ShaderCache {
  import opened Words
  import opened ShaderTranslate
  import Fnv

  /** What the cache holds for one stage: the hash it was filled under and the attempt's result. */
  datatype StageCache = StageCache(hash: u32, result: TranslationResult)

  datatype CacheState = CacheState(vertex: StageCache, pixel: StageCache)

  const EMPTY := CacheState(StageCache(0, NO_TRANSLATION), StageCache(0, NO_TRANSLATION))

  /** The bytes hashed: the dwords as they lie in host memory. */
  function Bytes(microcode: seq<u32>): seq<u8> {
    if microcode == [] then []
    else Bytes(microcode[..|microcode| - 1]) + LittleEndian(microcode[|microcode| - 1])
  }

  function MicrocodeHash(microcode: seq<u32>): u32 {
    Fnv.Hash(Bytes(microcode))
  }

  function StageOf(c: CacheState, shaderType: nat): StageCache {
    if shaderType == 0 then c.vertex else c.pixel
  }

  function WithStage(c: CacheState, shaderType: nat, stage: StageCache): CacheState {
    if shaderType == 0 then c.(vertex := stage) else c.(pixel := stage)
  }

  /** One accepted load: translate and overwrite, unless the stage's hash says nothing changed. */
  function Load(c: CacheState, shaderType: nat, microcode: seq<u32>): CacheState {
    var hash := MicrocodeHash(microcode);
    if hash != StageOf(c, shaderType).hash
    then WithStage(c, shaderType, StageCache(hash, Translate(microcode, shaderType)))
    else c
  }

  class ShaderTranslationCache {
    var vertexHash: u32
    var vertexResult: TranslationResult
    var pixelHash: u32
    var pixelResult: TranslationResult

    ghost function State(): CacheState
      reads this
    {
      CacheState(StageCache(vertexHash, vertexResult), StageCache(pixelHash, pixelResult))
    }

    constructor ()
      ensures State() == EMPTY
    {
      vertexHash, vertexResult := 0, NO_TRANSLATION;
      pixelHash, pixelResult := 0, NO_TRANSLATION;
    }

    method UpdateVertexShader(hash: u32, result: TranslationResult)
      modifies this
      ensures State() == old(State()).(vertex := StageCache(hash, result))
    {
      vertexHash, vertexResult := hash, result;
    }

    method UpdatePixelShader(hash: u32, result: TranslationResult)
      modifies this
      ensures State() == old(State()).(pixel := StageCache(hash, result))
    {
      pixelHash, pixelResult := hash, result;
    }

    /** The IM_LOAD_IMMEDIATE gate: hash the microcode, and translate only when the hash moved. */
    method LoadImmediate(shaderType: nat, microcode: seq<u32>) returns (translated: bool)
      requires shaderType < 2
      modifies this
      ensures State() == Load(old(State()), shaderType, microcode)
      ensures translated == (MicrocodeHash(microcode) != StageOf(old(State()), shaderType).hash)
    {
      var bytes := [];
      for i := 0 to |microcode|
        invariant bytes == Bytes(microcode[..i])
        invariant State() == old(State())
      {
        assert microcode[..i + 1][..i] == microcode[..i];
        bytes := bytes + LittleEndian(microcode[i]);
      }
      assert microcode[..|microcode|] == microcode;
      var hash := Fnv.Fnv1aHash(bytes);
      var cachedHash := if shaderType == 0 then vertexHash else pixelHash;
      translated := hash != cachedHash;
      if translated {
        var translation := TranslateShader(microcode, shaderType);
        if shaderType == 0 {
          UpdateVertexShader(hash, translation);
        } else {
          UpdatePixelShader(hash, translation);
        }
      }
    }
  }

  // ---------------------------------------------------------------- runs of loads

  type Stage = s: nat | s < 2

  datatype Request = Request(stage: Stage, microcode: seq<u32>)

  function AfterLoads(loads: seq<Request>): CacheState {
    if loads == [] then EMPTY
    else
      var r := loads[|loads| - 1];
      Load(AfterLoads(loads[..|loads| - 1]), r.stage, r.microcode)
  }

  /** The microcode a stage was last asked to load. */
  function Latest(loads: seq<Request>, stage: Stage): Option<seq<u32>> {
    if loads == [] then None
    else if loads[|loads| - 1].stage == stage then Some(loads[|loads| - 1].microcode)
    else Latest(loads[..|loads| - 1], stage)
  }

  function LatestHash(loads: seq<Request>, stage: Stage): u32 {
    match Latest(loads, stage) case Some(m) => MicrocodeHash(m) case None => 0
  }

  /** What the stage ought to serve. */
  function LatestTranslation(loads: seq<Request>, stage: Stage): TranslationResult {
    match Latest(loads, stage) case Some(m) => Translate(m, stage) case None => NO_TRANSLATION
  }

  /** Whatever was loaded, the hash a stage holds is that of its latest microcode. */
  lemma {:induction false} StageHoldsLatestHash(loads: seq<Request>, stage: Stage)
    ensures StageOf(AfterLoads(loads), stage).hash == LatestHash(loads, stage)
    decreases |loads|
  {
    hide MicrocodeHash;
    hide Translate;
    if loads == [] {
    } else {
      StageHoldsLatestHash(loads[..|loads| - 1], stage);
    }
  }

  // ---------------------------------------------------------------- when the right result is served

  predicate Serves(loads: seq<Request>, stage: Stage) {
    StageOf(AfterLoads(loads), stage).result == LatestTranslation(loads, stage)
  }

  /** A load whose hash is that of its stage's previous microcode (zero at the start), with another translation. */
  predicate Mistaken(before: seq<Request>, r: Request) {
    MicrocodeHash(r.microcode) == LatestHash(before, r.stage)
    && Translate(r.microcode, r.stage) != LatestTranslation(before, r.stage)
  }

  lemma LoadServes(before: seq<Request>, r: Request, stage: Stage)
    requires Serves(before, stage)
    ensures Serves(before + [r], stage) <==> !(r.stage == stage && Mistaken(before, r))
  {
    hide MicrocodeHash;
    hide Translate;
    assert (before + [r])[..|before|] == before;
    StageHoldsLatestHash(before, stage);
  }

  /** After every load of a run the stage serves the translation of its latest microcode. */
  predicate AlwaysServes(loads: seq<Request>, stage: Stage) {
    Serves(loads, stage) && (loads == [] || AlwaysServes(loads[..|loads| - 1], stage))
  }

  predicate NeverMistaken(loads: seq<Request>, stage: Stage) {
    loads == [] ||
    (NeverMistaken(loads[..|loads| - 1], stage)
     && !(loads[|loads| - 1].stage == stage && Mistaken(loads[..|loads| - 1], loads[|loads| - 1])))
  }

  /**
   * A stage always serves the translation of its latest microcode if and only if none of its loads is mistaken for
   * the microcode right before it; microcodes further back do not matter.
   */
  lemma {:induction false} ServesExactly(loads: seq<Request>, stage: Stage)
    ensures AlwaysServes(loads, stage) <==> NeverMistaken(loads, stage)
    decreases |loads|
  {
    hide Serves;
    hide Mistaken;
    if loads == [] {
      NothingServed(stage);
    } else {
      var front, last := loads[..|loads| - 1], loads[|loads| - 1];
      ServesExactly(front, stage);
      assert front + [last] == loads;
      if AlwaysServes(front, stage) {
        LoadServes(front, last, stage);
      }
    }
  }

  lemma NothingServed(stage: Stage)
    ensures Serves([], stage)
  {
  }

  // ---------------------------------------------------------------- telling hashes

  /** No load has the hash of its stage's previous microcode, zero at the start, without being that microcode. */
  predicate HashesTell(loads: seq<Request>) {
    loads == [] ||
    (var before, r := loads[..|loads| - 1], loads[|loads| - 1];
     HashesTell(before)
     && (MicrocodeHash(r.microcode) == LatestHash(before, r.stage) ==> Latest(before, r.stage) == Some(r.microcode)))
  }

  /** Distinct microcodes of one stage have distinct hashes, none of them zero. */
  ghost predicate DistinctHashes(loads: seq<Request>) {
    && (forall i :: 0 <= i < |loads| ==> MicrocodeHash(loads[i].microcode) != 0)
    && (forall i, j :: 0 <= i < |loads| && 0 <= j < |loads| && loads[i].stage == loads[j].stage
          && MicrocodeHash(loads[i].microcode) == MicrocodeHash(loads[j].microcode)
          ==> loads[i].microcode == loads[j].microcode)
  }

  lemma {:induction false} LatestIsLoaded(loads: seq<Request>, stage: Stage) returns (k: nat)
    requires Latest(loads, stage).Some?
    ensures k < |loads| && loads[k] == Request(stage, Latest(loads, stage).value)
    decreases |loads|
  {
    if loads[|loads| - 1].stage == stage {
      k := |loads| - 1;
    } else {
      k := LatestIsLoaded(loads[..|loads| - 1], stage);
    }
  }

  /** Hashes that are distinct over the whole run tell more than enough. */
  lemma {:induction false} DistinctHashesTell(loads: seq<Request>)
    requires DistinctHashes(loads)
    ensures HashesTell(loads)
    decreases |loads|
  {
    hide MicrocodeHash;
    if loads == [] {
    } else {
      var before, r := loads[..|loads| - 1], loads[|loads| - 1];
      DistinctHashesTell(before);
      if Latest(before, r.stage).Some? {
        var k := LatestIsLoaded(before, r.stage);
        assert before[k] == loads[k] && loads[|loads| - 1] == r;
      }
    }
  }

  /** What a stage holds says exactly which microcode it was last given. */
  ghost predicate Transparent(c: StageCache, latest: Option<seq<u32>>, stage: Stage) {
    match latest
    case None => c == StageCache(0, NO_TRANSLATION)
    case Some(m) => c == StageCache(MicrocodeHash(m), Translate(m, stage))
  }

  /**
   * The gate is transparent: as long as hashes tell each microcode of a stage from the one before it, each stage
   * always holds the translation of the microcode it was last given, and a load translates exactly when that
   * microcode changes.
   */
  lemma {:induction false} CacheIsTransparent(loads: seq<Request>, stage: Stage)
    requires HashesTell(loads)
    ensures Transparent(StageOf(AfterLoads(loads), stage), Latest(loads, stage), stage)
    ensures loads != [] ==>
              var r, before := loads[|loads| - 1], loads[..|loads| - 1];
              (MicrocodeHash(r.microcode) != StageOf(AfterLoads(before), r.stage).hash
               <==> Latest(before, r.stage) != Some(r.microcode))
    decreases |loads|
  {
    hide MicrocodeHash;
    hide Translate;
    if loads == [] {
    } else {
      var r, before := loads[|loads| - 1], loads[..|loads| - 1];
      CacheIsTransparent(before, stage);
      CacheIsTransparent(before, r.stage);
    }
  }
}
