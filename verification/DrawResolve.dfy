/**
 * Turning a DRAW_INDX_2 packet into a draw command: the vertex buffer of fetch constant 0, the index buffer named
 * in the packet, and the expansion of rectangle lists into triangles. Positions are reals; `FloatValue` reads a
 * finite IEEE-754 single.
 */
module DrawResolve {
  import opened Words
  import opened GuestMemory
  import opened GpuState
  import opened DrawList
  import opened ShaderTranslate

  const MAX_VERTEX_BUFFER_BYTES := 16 * 1024 * 1024
  const DEFAULT_STRIDE_BYTES := 12
  const VTE_CONTROL_REGISTER := 0x2206

  // ---------------------------------------------------------------- coordinates

  function Pow2Real(n: int): real {
    if n >= 0 then Pow2(n) as real else 1.0 / Pow2(-n) as real
  }

  /** The value of a finite single; infinities and NaNs, which have none, read as zero. */
  function FloatValue(w: u32): real {
    var exponent, mantissa := w / 0x80_0000 % 0x100, w % 0x80_0000;
    var magnitude :=
      if exponent == 0xFF then 0.0
      else if exponent == 0 then mantissa as real * Pow2Real(-149)
      else (0x80_0000 + mantissa) as real * Pow2Real(exponent - 150);
    if w / 0x8000_0000 == 1 then -magnitude else magnitude
  }

  function Coordinate(c: Component): real {
    match c
    case Bits(word) => FloatValue(word)
    case Value(x) => x
  }

  /** Window pixel coordinates to normalized device coordinates for the 1280x720 target. */
  function NdcX(x: real): real {
    (x + 0.5) * 2.0 / 1280.0 - 1.0
  }

  function NdcY(y: real): real {
    1.0 - (y + 0.5) * 2.0 / 720.0
  }

  // ---------------------------------------------------------------- index and vertex buffers

  function IndexWidth(is32Bit: bool): nat {
    if is32Bit then 4 else 2
  }

  /** The index buffer as the host stores it: each big-endian index turned little-endian. */
  function IndexBytes(m: Memory, addr: u32, n: nat, is32Bit: bool): seq<u8> {
    if n == 0 then []
    else
      IndexBytes(m, addr, n - 1, is32Bit) +
      if is32Bit then LittleEndian(LoadU32(m, Add32(addr, 4 * (n - 1))))
      else
        var v := LoadU16(m, addr + 2 * (n - 1));
        [v % 0x100, v / 0x100]
  }

  function FromLittleEndian(b0: int, b1: int, b2: int, b3: int): int {
    b0 + b1 * 0x100 + b2 * 0x1_0000 + b3 * 0x100_0000
  }

  function IndexAt(bytes: seq<u8>, k: nat, is32Bit: bool): u32
    requires (k + 1) * IndexWidth(is32Bit) <= |bytes|
  {
    if is32Bit then FromLittleEndian(bytes[4 * k], bytes[4 * k + 1], bytes[4 * k + 2], bytes[4 * k + 3])
    else FromLittleEndian(bytes[2 * k], bytes[2 * k + 1], 0, 0)
  }

  datatype IndexBuffer = IndexBuffer(bytes: seq<u8>, count: nat)

  /** The packet's index buffer, or none when it is missing, empty or too large. */
  function ResolveIndices(m: Memory, packet: seq<u32>, di: DrawInitiator): Option<IndexBuffer> {
    if |packet| < 4 then None
    else
      var numWords := packet[3] % 0x100_0000;
      var is32Bit := di.indexSize == 1;
      var size := numWords * IndexWidth(is32Bit);
      if size == 0 || size > MAX_VERTEX_BUFFER_BYTES then None
      else Some(IndexBuffer(IndexBytes(m, DirectMap(packet[2]), numWords, is32Bit), Min(numWords, di.numIndices)))
  }

  function VertexWords(m: Memory, addr: u32, n: nat): (ws: seq<Component>)
    ensures |ws| == n
  {
    seq(n, i requires 0 <= i < n => Bits(LoadU32(m, Add32(addr, 4 * i))))
  }

  function StrideBytesOf(shader: TranslationResult): (n: WholeDwords)
    ensures n > 0
  {
    if shader.success && shader.vertexStrideBytes != 0 then shader.vertexStrideBytes else DEFAULT_STRIDE_BYTES
  }

  // ---------------------------------------------------------------- rectangle lists

  /** Dwords per vertex record. Strides are whole dwords. */
  function Record(data: seq<Component>, stride: nat, idx: nat): (r: seq<Component>)
    requires (idx + 1) * stride <= |data|
    ensures |r| == stride
  {
    RecordBounds(stride, idx);
    data[idx * stride..(idx + 1) * stride]
  }

  lemma RecordBounds(stride: nat, idx: nat)
    ensures 0 <= idx * stride && idx * stride + stride == (idx + 1) * stride
  {
  }

  /** A record with its position mapped when the viewport transform is off. */
  function Placed(r: seq<Component>, viewportOff: bool): (p: seq<Component>)
    requires |r| >= 3
    ensures |p| == |r|
  {
    if viewportOff then [Value(NdcX(Coordinate(r[0]))), Value(NdcY(Coordinate(r[1])))] + r[2..] else r
  }

  /** The record of the fourth corner A + C - B; everything past the position is B's. */
  function FourthCorner(a: seq<Component>, b: seq<Component>, c: seq<Component>): (d: seq<Component>)
    requires |a| == |b| == |c| >= 3
    ensures |d| == |b|
  {
    [Value(Coordinate(a[0]) + Coordinate(c[0]) - Coordinate(b[0])),
     Value(Coordinate(a[1]) + Coordinate(c[1]) - Coordinate(b[1])),
     Value(Coordinate(a[2]) + Coordinate(c[2]) - Coordinate(b[2]))] + b[3..]
  }

  /** Triangles A, B, C and A, C, D. */
  function TwoTriangles(a: seq<Component>, b: seq<Component>, c: seq<Component>, viewportOff: bool): (t: seq<Component>)
    requires |a| == |b| == |c| >= 3
    ensures |t| == 6 * |a|
  {
    var pa, pb, pc := Placed(a, viewportOff), Placed(b, viewportOff), Placed(c, viewportOff);
    var pd := Placed(FourthCorner(a, b, c), viewportOff);
    pa + pb + pc + pa + pc + pd
  }

  /** Rectangle `r` can be drawn: its three indices lie in the vertex buffer. */
  predicate InRange(indices: seq<u32>, capacity: nat, r: nat)
    requires 3 * r + 2 < |indices|
  {
    indices[3 * r] < capacity && indices[3 * r + 1] < capacity && indices[3 * r + 2] < capacity
  }

  function CountInRange(indices: seq<u32>, capacity: nat, n: nat): nat
    requires 3 * n <= |indices|
  {
    if n == 0 then 0
    else CountInRange(indices, capacity, n - 1) + if InRange(indices, capacity, n - 1) then 1 else 0
  }

  /** Every index below `capacity` has a whole record. */
  ghost predicate Holds(data: seq<Component>, stride: nat, capacity: nat) {
    capacity * stride <= |data|
  }

  lemma RecordFits(data: seq<Component>, stride: nat, capacity: nat, idx: nat)
    requires Holds(data, stride, capacity) && idx < capacity
    ensures (idx + 1) * stride <= |data|
  {
    assert (capacity - idx - 1) * stride >= 0;
    assert (idx + 1) * stride + (capacity - idx - 1) * stride == capacity * stride;
  }

  function RectangleTriangles(data: seq<Component>, stride: nat, capacity: nat, indices: seq<u32>, r: nat,
                              viewportOff: bool)
    : (t: seq<Component>)
    requires Holds(data, stride, capacity) && stride >= 3 && 3 * r + 2 < |indices| && InRange(indices, capacity, r)
    ensures |t| == 6 * stride
  {
    RecordFits(data, stride, capacity, indices[3 * r]);
    RecordFits(data, stride, capacity, indices[3 * r + 1]);
    RecordFits(data, stride, capacity, indices[3 * r + 2]);
    TwoTriangles(Record(data, stride, indices[3 * r]), Record(data, stride, indices[3 * r + 1]),
                 Record(data, stride, indices[3 * r + 2]), viewportOff)
  }

  lemma OneMore(n: nat, k: nat)
    ensures (n + 1) * k == n * k + k
  {
  }

  /** The first `n` rectangles; one with an index out of range is skipped. */
  function Expanded(data: seq<Component>, stride: nat, capacity: nat, indices: seq<u32>, n: nat, viewportOff: bool)
    : (e: seq<Component>)
    requires Holds(data, stride, capacity) && stride >= 3 && 3 * n <= |indices|
    ensures |e| == CountInRange(indices, capacity, n) * (6 * stride)
  {
    if n == 0 then []
    else
      OneMore(CountInRange(indices, capacity, n - 1), 6 * stride);
      Expanded(data, stride, capacity, indices, n - 1, viewportOff) +
      if InRange(indices, capacity, n - 1)
      then RectangleTriangles(data, stride, capacity, indices, n - 1, viewportOff)
      else []
  }

  /** The vertices of a rectangle list in order, cut to whole rectangles. */
  function RectangleIndices(indices: Option<IndexBuffer>, di: DrawInitiator, capacity: nat): (s: seq<u32>)
    requires indices.Some? ==> indices.value.count * IndexWidth(di.indexSize == 1) <= |indices.value.bytes|
    requires di.numIndices < 0x1_0000
    ensures |s| % 3 == 0
  {
    match indices
    case Some(buffer) =>
      var n := buffer.count - buffer.count % 3;
      seq(n, k requires 0 <= k < n =>
        assert (k + 1) * IndexWidth(di.indexSize == 1) <= buffer.count * IndexWidth(di.indexSize == 1) by {
          IndexFits(k, buffer.count, IndexWidth(di.indexSize == 1));
        }
        IndexAt(buffer.bytes, k, di.indexSize == 1))
    case None =>
      var n := Min(capacity, di.numIndices);
      seq(n - n % 3, k requires 0 <= k < n - n % 3 => k)
  }

  lemma IndexFits(k: nat, count: nat, width: nat)
    requires k < count
    ensures (k + 1) * width <= count * width
  {
    assert count * width == (k + 1) * width + (count - k - 1) * width;
  }

  // ---------------------------------------------------------------- the packet

  function PrimitiveOf(primType: nat): Option<Primitive> {
    match primType
    case 1 => Some(Point)
    case 2 => Some(Line)
    case 3 => Some(LineStrip)
    case 4 => Some(Triangle)
    case 6 => Some(TriangleStrip)
    case 8 => Some(Triangle)
    case _ => None
  }

  /** A draw, nothing, or a position read past a record shorter than three dwords, which has no defined result. */
  datatype Outcome = NoDraw | Draw(cmd: DrawCommand) | ShortRecord

  function RectangleDraw(data: seq<Component>, stride: nat, capacity: nat, indices: seq<u32>,
                         viewportOff: bool): Outcome
    requires Holds(data, stride, capacity) && stride > 0
  {
    var n := |indices| / 3;
    if stride < 3 && CountInRange(indices, capacity, n) > 0 then ShortRecord
    else
      var triangles := if stride < 3 then [] else Expanded(data, stride, capacity, indices, n, viewportOff);
      Draw(DrawCommand(Triangle, triangles, |triangles| / stride, [], 0, false, stride * 4, false))
  }

  lemma CapacityHolds(size: nat, stride: nat)
    requires stride > 0
    ensures size / stride * stride <= size
  {
  }

  lemma {:induction false} IndexBytesLength(m: Memory, addr: u32, n: nat, is32Bit: bool)
    ensures |IndexBytes(m, addr, n, is32Bit)| == n * IndexWidth(is32Bit)
    decreases n
  {
    if n == 0 {
    } else {
      IndexBytesLength(m, addr, n - 1, is32Bit);
    }
  }

  lemma IndicesFit(m: Memory, packet: seq<u32>, di: DrawInitiator)
    ensures var found := ResolveIndices(m, packet, di);
      found.Some? ==>
        0 < |found.value.bytes| && found.value.count * IndexWidth(di.indexSize == 1) <= |found.value.bytes|
  {
    if ResolveIndices(m, packet, di).Some? {
      IndexBytesLength(m, DirectMap(packet[2]), packet[3] % 0x100_0000, di.indexSize == 1);
    }
  }

  /** The draw once both buffers are known: `capacity` whole records of `stride` dwords. */
  function Resolved(data: seq<Component>, stride: nat, indices: Option<IndexBuffer>, di: DrawInitiator,
                    primitive: Primitive, viewportOff: bool): Outcome
    requires stride > 0 && di.numIndices < 0x1_0000
    requires indices.Some? ==> indices.value.count * IndexWidth(di.indexSize == 1) <= |indices.value.bytes|
  {
    var capacity := |data| / stride;
    CapacityHolds(|data|, stride);
    if di.primType == 8 then
      RectangleDraw(data, stride, capacity, RectangleIndices(indices, di, capacity), viewportOff)
    else match indices
      case Some(buffer) =>
        Draw(DrawCommand(primitive, data, capacity, buffer.bytes, buffer.count, di.indexSize == 1, stride * 4, true))
      case None =>
        Draw(DrawCommand(primitive, data, Min(capacity, di.numIndices), [], 0, false, stride * 4, false))
  }

  predicate ViewportOff(regs: Registers) {
    Read(regs, VTE_CONTROL_REGISTER) % 0x40 == 0
  }

  /** The command a DRAW_INDX_2 packet adds; its draw initiator is already in the register file. */
  function ResolveDraw(m: Memory, regs: Registers, shader: TranslationResult, packet: seq<u32>): Outcome {
    var di := DrawInitiatorOf(regs);
    var primitive := PrimitiveOf(di.primType);
    if primitive.None? || di.sourceSelect == 1 || di.sourceSelect == 3 then NoDraw
    else
      var vfc := VertexFetchConstantOf(regs, 0);
      var isIndexed := di.sourceSelect == 0;
      var indices := if isIndexed then ResolveIndices(m, packet, di) else None;
      if vfc.size == 0 || vfc.size * 4 > MAX_VERTEX_BUFFER_BYTES || (isIndexed && indices.None?) then NoDraw
      else
        IndicesFit(m, packet, di);
        Resolved(VertexWords(m, DirectMap(vfc.address * 4), vfc.size), StrideBytesOf(shader) / 4,
                 indices, di, primitive.value, ViewportOff(regs))
  }

  // ---------------------------------------------------------------- the resolving loops

  method ReadIndices(m: Memory, addr: u32, n: nat, is32Bit: bool) returns (bytes: seq<u8>)
    ensures bytes == IndexBytes(m, addr, n, is32Bit)
  {
    bytes := [];
    for i := 0 to n
      invariant bytes == IndexBytes(m, addr, i, is32Bit)
    {
      if is32Bit {
        bytes := bytes + LittleEndian(LoadU32(m, Add32(addr, 4 * i)));
      } else {
        var v := LoadU16(m, addr + 2 * i);
        bytes := bytes + [v % 0x100, v / 0x100];
      }
    }
  }

  method CopyVertices(m: Memory, addr: u32, n: nat) returns (data: seq<Component>)
    ensures data == VertexWords(m, addr, n)
  {
    data := [];
    for i := 0 to n
      invariant |data| == i
      invariant forall k :: 0 <= k < i ==> data[k] == Bits(LoadU32(m, Add32(addr, 4 * k)))
    {
      data := data + [Bits(LoadU32(m, Add32(addr, 4 * i)))];
    }
  }

  /** The source vertices of a rectangle list: through the index buffer, or in buffer order. */
  method CollectIndices(indices: Option<IndexBuffer>, di: DrawInitiator, capacity: nat) returns (s: seq<u32>)
    requires indices.Some? ==> indices.value.count * IndexWidth(di.indexSize == 1) <= |indices.value.bytes|
    requires di.numIndices < 0x1_0000
    ensures s == RectangleIndices(indices, di, capacity)
  {
    s := [];
    if indices.Some? {
      var buffer, is32Bit := indices.value, di.indexSize == 1;
      for k := 0 to buffer.count
        invariant |s| == k
        invariant forall j :: 0 <= j < k ==>
                    (j + 1) * IndexWidth(is32Bit) <= |buffer.bytes| && s[j] == IndexAt(buffer.bytes, j, is32Bit)
      {
        IndexFits(k, buffer.count, IndexWidth(is32Bit));
        s := s + [IndexAt(buffer.bytes, k, is32Bit)];
      }
    } else {
      for k := 0 to Min(capacity, di.numIndices)
        invariant |s| == k
        invariant forall j :: 0 <= j < k ==> s[j] == j
      {
        s := s + [k];
      }
    }
    s := s[..|s| - |s| % 3];
  }

  /** The record of vertex `idx`, if the buffer has one. */
  method Gather(data: seq<Component>, stride: nat, capacity: nat, idx: u32) returns (rec: Option<seq<Component>>)
    requires Holds(data, stride, capacity)
    ensures idx >= capacity ==> rec == None
    ensures idx < capacity ==> (idx + 1) * stride <= |data| && rec == Some(Record(data, stride, idx))
  {
    if idx >= capacity {
      return None;
    }
    RecordFits(data, stride, capacity, idx);
    rec := Some(Record(data, stride, idx));
  }

  method PlaceCorners(a: seq<Component>, b: seq<Component>, c: seq<Component>, viewportOff: bool)
      returns (t: seq<Component>)
    requires |a| == |b| == |c| >= 3
    ensures t == TwoTriangles(a, b, c, viewportOff)
  {
    var pd := FourthCorner(a, b, c);
    var pa, pb, pc := a, b, c;
    if viewportOff {
      pa := [Value(NdcX(Coordinate(pa[0]))), Value(NdcY(Coordinate(pa[1])))] + pa[2..];
      pb := [Value(NdcX(Coordinate(pb[0]))), Value(NdcY(Coordinate(pb[1])))] + pb[2..];
      pc := [Value(NdcX(Coordinate(pc[0]))), Value(NdcY(Coordinate(pc[1])))] + pc[2..];
      pd := [Value(NdcX(Coordinate(pd[0]))), Value(NdcY(Coordinate(pd[1])))] + pd[2..];
    }
    t := pa + pb + pc;
    t := t + pa + pc + pd;
    assert t == pa + pb + pc + pa + pc + pd;
  }

  /** One rectangle: nothing if it is out of range, None if it is in range but its records are too short. */
  method ExpandOne(data: seq<Component>, stride: nat, capacity: nat, indices: seq<u32>, r: nat, viewportOff: bool)
      returns (t: Option<seq<Component>>)
    requires Holds(data, stride, capacity) && 3 * r + 2 < |indices|
    ensures !InRange(indices, capacity, r) ==> t == Some([])
    ensures InRange(indices, capacity, r) ==>
              t == if stride < 3 then None
                   else Some(RectangleTriangles(data, stride, capacity, indices, r, viewportOff))
  {
    var a := Gather(data, stride, capacity, indices[3 * r]);
    var b := Gather(data, stride, capacity, indices[3 * r + 1]);
    var c := Gather(data, stride, capacity, indices[3 * r + 2]);
    if a.None? || b.None? || c.None? {
      return Some([]);
    }
    if stride < 3 {
      return None;
    }
    var triangles := PlaceCorners(a.value, b.value, c.value, viewportOff);
    t := Some(triangles);
  }

  /** None when some rectangle in range has records too short to hold a position. */
  method ExpandRectangles(data: seq<Component>, stride: nat, capacity: nat, indices: seq<u32>, viewportOff: bool)
      returns (expanded: Option<seq<Component>>)
    requires Holds(data, stride, capacity) && |indices| % 3 == 0
    ensures stride >= 3 ==> expanded == Some(Expanded(data, stride, capacity, indices, |indices| / 3, viewportOff))
    ensures stride < 3 ==>
              expanded == if CountInRange(indices, capacity, |indices| / 3) > 0 then None else Some([])
  {
    hide RectangleTriangles;
    hide InRange;
    hide Holds;
    var out, r := [], 0;
    while 3 * r + 2 < |indices|
      invariant 3 * r <= |indices|
      invariant stride >= 3 ==> out == Expanded(data, stride, capacity, indices, r, viewportOff)
      invariant stride < 3 ==> out == [] && CountInRange(indices, capacity, r) == 0
    {
      var t := ExpandOne(data, stride, capacity, indices, r, viewportOff);
      if t.None? {
        CountGrows(indices, capacity, r + 1, |indices| / 3);
        return None;
      }
      out := out + t.value;
      r := r + 1;
    }
    return Some(out);
  }

  lemma {:induction false} CountGrows(indices: seq<u32>, capacity: nat, n: nat, n': nat)
    requires n <= n' && 3 * n' <= |indices|
    ensures CountInRange(indices, capacity, n) <= CountInRange(indices, capacity, n')
    decreases n'
  {
    if n == n' {
    } else {
      CountGrows(indices, capacity, n, n' - 1);
    }
  }

  /** The body of DRAW_INDX_2 once its draw initiator is in the register file. */
  method ResolveDrawIndx2(m: Memory, gpu: GpuRegisterState, shader: TranslationResult, packet: seq<u32>)
      returns (r: Outcome)
    requires gpu.Valid()
    ensures r == ResolveDraw(m, gpu.State(), shader, packet)
  {
    var di := gpu.GetDrawInitiator();
    var primitive := PrimitiveOf(di.primType);
    if primitive.None? || (di.sourceSelect != 0 && di.sourceSelect != 2) {
      return NoDraw;
    }
    var vfc := gpu.GetVertexFetchConstant(0);
    var isIndexed, is32Bit := di.sourceSelect == 0, di.indexSize == 1;
    var indices: Option<IndexBuffer> := None;
    IndicesFit(m, packet, di);
    if isIndexed && |packet| >= 4 {
      var numWords := packet[3] % 0x100_0000;
      var size := numWords * IndexWidth(is32Bit);
      if size != 0 && size <= MAX_VERTEX_BUFFER_BYTES {
        var bytes := ReadIndices(m, DirectMap(packet[2]), numWords, is32Bit);
        indices := Some(IndexBuffer(bytes, if numWords < di.numIndices then numWords else di.numIndices));
      }
    }
    if vfc.size == 0 || vfc.size * 4 > MAX_VERTEX_BUFFER_BYTES || (isIndexed && indices.None?) {
      return NoDraw;
    }
    var data := CopyVertices(m, DirectMap(vfc.address * 4), vfc.size);
    var stride := StrideBytesOf(shader) / 4;
    var vte := gpu.ReadRegister(VTE_CONTROL_REGISTER);
    r := BuildCommand(data, stride, indices, di, primitive.value, vte % 0x40 == 0);
  }

  method BuildRectangles(data: seq<Component>, stride: nat, capacity: nat, indices: seq<u32>, viewportOff: bool)
      returns (r: Outcome)
    requires Holds(data, stride, capacity) && stride > 0 && |indices| % 3 == 0
    ensures r == RectangleDraw(data, stride, capacity, indices, viewportOff)
  {
    var expanded := ExpandRectangles(data, stride, capacity, indices, viewportOff);
    if expanded.None? {
      return ShortRecord;
    }
    r := Draw(DrawCommand(Triangle, expanded.value, |expanded.value| / stride, [], 0, false, stride * 4, false));
  }

  method BuildCommand(data: seq<Component>, stride: nat, indices: Option<IndexBuffer>, di: DrawInitiator,
                      primitive: Primitive, viewportOff: bool) returns (r: Outcome)
    requires stride > 0 && di.numIndices < 0x1_0000
    requires indices.Some? ==> indices.value.count * IndexWidth(di.indexSize == 1) <= |indices.value.bytes|
    ensures r == Resolved(data, stride, indices, di, primitive, viewportOff)
  {
    var capacity := |data| / stride;
    CapacityHolds(|data|, stride);
    if di.primType == 8 {
      var srcIdx := CollectIndices(indices, di, capacity);
      r := BuildRectangles(data, stride, capacity, srcIdx, viewportOff);
    } else if indices.Some? {
      r := Draw(DrawCommand(primitive, data, capacity, indices.value.bytes, indices.value.count, di.indexSize == 1,
                            stride * 4, true));
    } else {
      var vertexCount := if capacity < di.numIndices then capacity else di.numIndices;
      r := Draw(DrawCommand(primitive, data, vertexCount, [], 0, false, stride * 4, false));
    }
  }

  // ---------------------------------------------------------------- what a draw command satisfies

  /**
   * Everything the render thread relies on: the vertices drawn lie in the vertex data, the indices drawn lie in the
   * index data, and there is index data exactly when the draw is indexed.
   */
  ghost predicate GoodCommand(cmd: DrawCommand) {
    && cmd.vertexCount * cmd.strideBytes <= 4 * |cmd.vertexData|
    && cmd.indexCount * IndexWidth(cmd.indexIs32Bit) <= |cmd.indexData|
    && (cmd.indexData != [] <==> cmd.indexed)
  }

  lemma FourTimes(count: nat, stride: nat, length: nat)
    requires count * stride <= length
    ensures count * (stride * 4) <= 4 * length
  {
    assert count * (stride * 4) == count * stride * 4;
  }

  lemma FewerFit(few: nat, capacity: nat, stride: nat, length: nat)
    requires few <= capacity && capacity * stride <= length
    ensures few * stride <= length
  {
    assert capacity * stride == few * stride + (capacity - few) * stride;
  }

  lemma ResolvedGood(data: seq<Component>, stride: nat, indices: Option<IndexBuffer>, di: DrawInitiator,
                     primitive: Primitive, viewportOff: bool)
    requires stride > 0 && di.numIndices < 0x1_0000
    requires indices.Some? ==> indices.value.count * IndexWidth(di.indexSize == 1) <= |indices.value.bytes|
    requires indices.Some? ==> indices.value.bytes != []
    ensures var r := Resolved(data, stride, indices, di, primitive, viewportOff); r.Draw? ==> GoodCommand(r.cmd)
  {
    var r := Resolved(data, stride, indices, di, primitive, viewportOff);
    if r.Draw? {
      CapacityHolds(|r.cmd.vertexData|, stride);
      FewerFit(r.cmd.vertexCount, |r.cmd.vertexData| / stride, stride, |r.cmd.vertexData|);
      FourTimes(r.cmd.vertexCount, stride, |r.cmd.vertexData|);
    }
  }

  /** Whatever the memory, the registers, the shader and the packet, a command added is a good one. */
  lemma DrawIsGood(m: Memory, regs: Registers, shader: TranslationResult, packet: seq<u32>)
    ensures var r := ResolveDraw(m, regs, shader, packet); r.Draw? ==> GoodCommand(r.cmd)
    ensures var r, di := ResolveDraw(m, regs, shader, packet), DrawInitiatorOf(regs);
      r.Draw? ==> (r.cmd.indexed <==> di.sourceSelect == 0 && di.primType != 8)
  {
    if ResolveDraw(m, regs, shader, packet).Draw? {
      var di := DrawInitiatorOf(regs);
      var vfc := VertexFetchConstantOf(regs, 0);
      var indices := if di.sourceSelect == 0 then ResolveIndices(m, packet, di) else None;
      IndicesFit(m, packet, di);
      ResolvedGood(VertexWords(m, DirectMap(vfc.address * 4), vfc.size), StrideBytesOf(shader) / 4, indices, di,
                   PrimitiveOf(di.primType).value, ViewportOff(regs));
    }
  }

  // ---------------------------------------------------------------- what the index bytes hold

  lemma {:induction false} IndexBytesAt(m: Memory, addr: u32, n: nat, is32Bit: bool, k: nat)
    requires k < n
    ensures |IndexBytes(m, addr, n, is32Bit)| == n * IndexWidth(is32Bit)
    ensures (k + 1) * IndexWidth(is32Bit) <= n * IndexWidth(is32Bit)
    ensures IndexAt(IndexBytes(m, addr, n, is32Bit), k, is32Bit) ==
      if is32Bit then LoadU32(m, Add32(addr, 4 * k)) else LoadU16(m, addr + 2 * k)
    decreases n
  {
    IndexFits(k, n, IndexWidth(is32Bit));
    IndexBytesLength(m, addr, n - 1, is32Bit);
    if k < n - 1 {
      IndexBytesAt(m, addr, n - 1, is32Bit, k);
    } else if is32Bit {
      LittleEndianRead(LoadU32(m, Add32(addr, 4 * k)));
    }
  }

  lemma LittleEndianRead(w: u32)
    ensures var b := LittleEndian(w); FromLittleEndian(b[0], b[1], b[2], b[3]) == w
  {
    assert w / 0x100 / 0x100 == w / 0x1_0000 && w / 0x1_0000 / 0x100 == w / 0x100_0000;
  }

  // ---------------------------------------------------------------- what a rectangle list becomes

  /**
   * The six records of a rectangle are A, B, C, A, C, D where D completes the parallelogram, D = A + C - B on every
   * coordinate drawn and B's attributes elsewhere, whether or not the window mapping was applied.
   */
  lemma FourthCornerCompletes(a: seq<Component>, b: seq<Component>, c: seq<Component>, viewportOff: bool)
    requires |a| == |b| == |c| >= 3
    ensures var t, s := TwoTriangles(a, b, c, viewportOff), |a|;
      && t[0..s] == t[3 * s..4 * s] == Placed(a, viewportOff)
      && t[s..2 * s] == Placed(b, viewportOff)
      && t[2 * s..3 * s] == t[4 * s..5 * s] == Placed(c, viewportOff)
      && Parallelogram(t[0..s], t[s..2 * s], t[2 * s..3 * s], t[5 * s..6 * s])
  {
    var pa, pb, pc := Placed(a, viewportOff), Placed(b, viewportOff), Placed(c, viewportOff);
    var pd := Placed(FourthCorner(a, b, c), viewportOff);
    SixPieces(pa, pb, pc, pd, |a|);
  }

  ghost predicate Parallelogram(a: seq<Component>, b: seq<Component>, c: seq<Component>, d: seq<Component>) {
    && |a| == |b| == |c| == |d| >= 3
    && Coordinate(d[0]) == Coordinate(a[0]) + Coordinate(c[0]) - Coordinate(b[0])
    && Coordinate(d[1]) == Coordinate(a[1]) + Coordinate(c[1]) - Coordinate(b[1])
    && Coordinate(d[2]) == Coordinate(a[2]) + Coordinate(c[2]) - Coordinate(b[2])
    && d[3..] == b[3..]
  }

  lemma SixPieces(a: seq<Component>, b: seq<Component>, c: seq<Component>, d: seq<Component>, s: nat)
    requires |a| == |b| == |c| == |d| == s
    ensures var t := a + b + c + a + c + d;
      t[0..s] == a && t[s..2 * s] == b && t[2 * s..3 * s] == c && t[3 * s..4 * s] == a
      && t[4 * s..5 * s] == c && t[5 * s..6 * s] == d
  {
  }

  /** Every rectangle in range has its own two triangles, right after those of the rectangles before it. */
  lemma {:induction false} RectanglePlaced(data: seq<Component>, stride: nat, capacity: nat, indices: seq<u32>, n: nat,
                                           viewportOff: bool, r: nat)
    requires Holds(data, stride, capacity) && stride >= 3 && 3 * n <= |indices|
    requires r < n && InRange(indices, capacity, r)
    ensures Expanded(data, stride, capacity, indices, r, viewportOff)
              + RectangleTriangles(data, stride, capacity, indices, r, viewportOff)
         <= Expanded(data, stride, capacity, indices, n, viewportOff)
    decreases n
  {
    hide RectangleTriangles;
    if r == n - 1 {
    } else {
      RectanglePlaced(data, stride, capacity, indices, n - 1, viewportOff, r);
    }
  }

  /**
   * A rectangle list drawn with records of at least a position becomes a plain triangle list: no index buffer, and
   * exactly six records for each rectangle whose three indices are in range.
   */
  lemma RectangleListDraw(data: seq<Component>, stride: nat, capacity: nat, indices: seq<u32>, viewportOff: bool)
    requires Holds(data, stride, capacity) && stride >= 3
    ensures var r := RectangleDraw(data, stride, capacity, indices, viewportOff);
      && r.Draw? && r.cmd.primitive == Triangle && r.cmd.indexData == [] && r.cmd.indexCount == 0
      && r.cmd.vertexCount == 6 * CountInRange(indices, capacity, |indices| / 3)
      && r.cmd.vertexData == Expanded(data, stride, capacity, indices, |indices| / 3, viewportOff)
  {
    var k := CountInRange(indices, capacity, |indices| / 3);
    assert k * (6 * stride) == 6 * k * stride + 0;
    Split(k * (6 * stride), stride, 6 * k, 0);
  }

  /** The index buffer a draw uses: that of its packet, or none. */
  function IndicesOf(m: Memory, packet: seq<u32>, di: DrawInitiator): Option<IndexBuffer> {
    if di.sourceSelect == 0 then ResolveIndices(m, packet, di) else None
  }

  /** The packet reaches the vertex data: automatic indices, or an index buffer in range, and vertices in range. */
  predicate BuffersResolve(m: Memory, regs: Registers, packet: seq<u32>) {
    var di, vfc := DrawInitiatorOf(regs), VertexFetchConstantOf(regs, 0);
    && (di.sourceSelect == 2 || (di.sourceSelect == 0 && ResolveIndices(m, packet, di).Some?))
    && 0 < vfc.size <= MAX_VERTEX_BUFFER_BYTES / 4
  }

  /** The translated stride of the vertex shader is that of records too short for a position. */
  predicate ShortStride(shader: TranslationResult) {
    shader.success && 0 < shader.vertexStrideBytes < 12
  }

  /** The source vertices of a rectangle list drawn with this shader. */
  function SourceVertices(m: Memory, regs: Registers, shader: TranslationResult, packet: seq<u32>): seq<u32> {
    var di, vfc := DrawInitiatorOf(regs), VertexFetchConstantOf(regs, 0);
    IndicesFit(m, packet, di);
    RectangleIndices(IndicesOf(m, packet, di), di, vfc.size / (StrideBytesOf(shader) / 4))
  }

  /**
   * A DRAW_INDX_2 packet reads a position past a vertex record if and only if it is a rectangle list with both
   * buffers resolved, the shader's records are shorter than a position, and some rectangle lies in the buffer.
   */
  lemma ShortRecordExactly(m: Memory, regs: Registers, shader: TranslationResult, packet: seq<u32>)
    ensures var vertices := SourceVertices(m, regs, shader, packet);
      ResolveDraw(m, regs, shader, packet) == ShortRecord <==>
        && DrawInitiatorOf(regs).primType == 8
        && BuffersResolve(m, regs, packet)
        && ShortStride(shader)
        && exists r :: 0 <= r < |vertices| / 3
             && InRange(vertices, VertexFetchConstantOf(regs, 0).size / (shader.vertexStrideBytes / 4), r)
  {
    hide ResolveIndices;
    hide RectangleIndices;
    hide VertexWords;
    hide Expanded;
    hide InRange;
    var di, vfc := DrawInitiatorOf(regs), VertexFetchConstantOf(regs, 0);
    var vertices := SourceVertices(m, regs, shader, packet);
    CountPositive(vertices, vfc.size / (StrideBytesOf(shader) / 4), |vertices| / 3);
    IndicesFit(m, packet, di);
    hide DrawInitiatorOf;
    hide VertexFetchConstantOf;
  }

  lemma {:induction false} CountPositive(indices: seq<u32>, capacity: nat, n: nat)
    requires 3 * n <= |indices|
    ensures CountInRange(indices, capacity, n) > 0 <==> exists r :: 0 <= r < n && InRange(indices, capacity, r)
    decreases n
  {
    if n == 0 {
    } else {
      CountPositive(indices, capacity, n - 1);
    }
  }
}
