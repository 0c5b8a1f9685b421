/**
 * What a DRAW_INDX_2 packet draws, in the bits of two registers and one fetch constant and in the words of guest
 * memory: when it draws at all, which primitive, which vertices, how many, and which indices.
 */
module DrawMeaning {
  import opened Words
  import opened GuestMemory
  import opened GpuState
  import opened DrawList
  import opened ShaderTranslate
  import opened DrawResolve

  // ---------------------------------------------------------------- the inputs, bit by bit

  function Initiator(regs: Registers): u32 {
    Read(regs, 0x21FC)
  }

  function PrimitiveCode(regs: Registers): nat {
    Initiator(regs) % 64
  }

  function Source(regs: Registers): nat {
    Initiator(regs) / 64 % 4
  }

  predicate Wide(regs: Registers) {
    Initiator(regs) / 2048 % 2 == 1
  }

  function AskedFor(regs: Registers): nat {
    Initiator(regs) / 65536
  }

  /** Dwords of vertex data, and where they lie. */
  function VertexDwords(regs: Registers): nat {
    Read(regs, 0x4801) / 4 % 0x100_0000
  }

  function VertexAddress(regs: Registers): u32 {
    DirectMap(Read(regs, 0x4800) - Read(regs, 0x4800) % 4)
  }

  /** Bytes of one vertex. */
  function Stride(shader: TranslationResult): (n: nat)
    ensures n > 0
  {
    if shader.success && shader.vertexStrideBytes > 0 then shader.vertexStrideBytes else 12
  }

  /** Whole vertices the buffer holds. */
  function Capacity(regs: Registers, shader: TranslationResult): nat {
    VertexDwords(regs) * 4 / Stride(shader)
  }

  function IndexBytesEach(regs: Registers): nat {
    if Wide(regs) then 4 else 2
  }

  function IndicesStored(packet: seq<u32>): nat {
    if |packet| < 4 then 0 else packet[3] % 0x100_0000
  }

  /** Index `k` of the packet's index buffer, as the guest stored it. */
  function GuestIndex(m: Memory, regs: Registers, packet: seq<u32>, k: nat): u32
    requires |packet| >= 4
  {
    if Wide(regs) then LoadU32(m, (DirectMap(packet[2]) + 4 * k) % TWO32) else LoadU16(m, DirectMap(packet[2]) + 2 * k)
  }

  predicate BufferOk(bytes: nat) {
    0 < bytes <= 16777216
  }

  /** Points, lines, line strips, triangles, triangle strips and rectangles, by index or in order, from sane buffers. */
  predicate Drawable(regs: Registers, packet: seq<u32>) {
    && PrimitiveCode(regs) in {1, 2, 3, 4, 6, 8}
    && (Source(regs) == 2 || (Source(regs) == 0 && BufferOk(IndicesStored(packet) * IndexBytesEach(regs))))
    && BufferOk(VertexDwords(regs) * 4)
  }

  // ---------------------------------------------------------------- when it draws

  lemma DrawsExactly(m: Memory, regs: Registers, shader: TranslationResult, packet: seq<u32>)
    ensures ResolveDraw(m, regs, shader, packet) != NoDraw <==> Drawable(regs, packet)
  {
    hide IndexBytes;
    hide RectangleIndices;
    hide Expanded;
  }

  // ---------------------------------------------------------------- plain primitives

  /** The primitive each code stands for; rectangles become triangles. */
  predicate Stands(code: nat, p: Primitive) {
    || (code == 1 && p == Point)
    || (code == 2 && p == Line)
    || (code == 3 && p == LineStrip)
    || (code in {4, 8} && p == Triangle)
    || (code == 6 && p == TriangleStrip)
  }

  lemma WholeVertices(dwords: nat, stride: WholeDwords)
    requires stride > 0
    ensures dwords / (stride / 4) == dwords * 4 / stride
  {
    var k, q := stride / 4, dwords / (stride / 4);
    var rest := dwords - q * k;
    assert 0 <= rest < k;
    assert stride == 4 * k;
    assert q * stride == 4 * (q * k);
    Split(dwords * 4, stride, q, 4 * rest);
  }

  /**
   * A draw that is no rectangle list: its own primitive, the vertex words of guest memory in order, and either the
   * guest's indices or the first vertices, never more than asked for nor than the buffers hold.
   */
  lemma PlainDraw(m: Memory, regs: Registers, shader: TranslationResult, packet: seq<u32>)
    requires Drawable(regs, packet) && PrimitiveCode(regs) != 8
    ensures var r := ResolveDraw(m, regs, shader, packet);
      && r.Draw? && Stands(PrimitiveCode(regs), r.cmd.primitive) && r.cmd.strideBytes == Stride(shader)
      && |r.cmd.vertexData| == VertexDwords(regs)
      && (forall k :: 0 <= k < VertexDwords(regs) ==>
            r.cmd.vertexData[k] == Bits(LoadU32(m, (VertexAddress(regs) + 4 * k) % TWO32)))
      && (Source(regs) == 2 ==>
            && r.cmd.vertexCount == (if Capacity(regs, shader) < AskedFor(regs) then Capacity(regs, shader)
                                     else AskedFor(regs))
            && r.cmd.indexCount == 0 && r.cmd.indexData == [] && !r.cmd.indexIs32Bit)
      && (Source(regs) == 0 ==>
            && r.cmd.vertexCount == Capacity(regs, shader)
            && r.cmd.indexCount == (if IndicesStored(packet) < AskedFor(regs) then IndicesStored(packet)
                                    else AskedFor(regs))
            && (r.cmd.indexIs32Bit <==> Wide(regs))
            && |r.cmd.indexData| == IndicesStored(packet) * IndexBytesEach(regs))
  {
    hide IndexBytes;
    hide RectangleIndices;
    hide Expanded;
    assert Read(regs, 0x4800) / 4 * 4 == Read(regs, 0x4800) - Read(regs, 0x4800) % 4;
    WholeVertices(VertexDwords(regs), StrideBytesOf(shader));
    if Source(regs) == 0 {
      IndexBytesLength(m, DirectMap(packet[2]), IndicesStored(packet), Wide(regs));
    }
  }

  lemma IndexedBytes(m: Memory, regs: Registers, shader: TranslationResult, packet: seq<u32>)
    requires Drawable(regs, packet) && PrimitiveCode(regs) != 8 && Source(regs) == 0
    ensures ResolveDraw(m, regs, shader, packet).Draw?
    ensures ResolveDraw(m, regs, shader, packet).cmd.indexData
         == IndexBytes(m, DirectMap(packet[2]), IndicesStored(packet), Wide(regs))
  {
    hide IndexBytes;
    hide RectangleIndices;
    hide Expanded;
  }

  /** The bytes of an index buffer, `k`-th index, are those of `v` turned little-endian. */
  ghost predicate HoldsIndex(bytes: seq<u8>, wide: bool, k: nat, v: u32) {
    if wide then 4 * k + 4 <= |bytes| && bytes[4 * k..4 * k + 4] == LittleEndian(v)
    else 2 * k + 2 <= |bytes| && bytes[2 * k..2 * k + 2] == LittleEndian(v)[..2] && v < 0x1_0000
  }

  /** Index `k` of an indexed draw is the guest's. */
  lemma IndexDrawn(m: Memory, regs: Registers, shader: TranslationResult, packet: seq<u32>, k: nat)
    requires Drawable(regs, packet) && PrimitiveCode(regs) != 8 && Source(regs) == 0 && k < IndicesStored(packet)
    ensures ResolveDraw(m, regs, shader, packet).Draw?
    ensures HoldsIndex(ResolveDraw(m, regs, shader, packet).cmd.indexData, Wide(regs), k,
                       GuestIndex(m, regs, packet, k))
  {
    hide ResolveDraw;
    hide IndexBytes;
    hide HoldsIndex;
    hide Drawable;
    hide PrimitiveCode;
    hide LoadU32;
    hide LoadU16;
    hide DirectMap;
    hide Wide;
    IndexedBytes(m, regs, shader, packet);
    IndexPiece(m, DirectMap(packet[2]), IndicesStored(packet), Wide(regs), k);
  }

  lemma IndexPiece(m: Memory, addr: u32, n: nat, wide: bool, k: nat)
    requires k < n
    ensures HoldsIndex(IndexBytes(m, addr, n, wide), wide, k,
                       if wide then LoadU32(m, (addr + 4 * k) % TWO32) else LoadU16(m, addr + 2 * k))
  {
    hide LoadU32;
    hide LoadU16;
    hide IndexBytes;
    if wide {
      WidePiece(m, addr, n, k);
    } else {
      NarrowPiece(m, addr, n, k);
    }
  }

  lemma {:induction false} WidePiece(m: Memory, addr: u32, n: nat, k: nat)
    requires k < n
    ensures |IndexBytes(m, addr, n, true)| == 4 * n
    ensures IndexBytes(m, addr, n, true)[4 * k..4 * k + 4] == LittleEndian(LoadU32(m, (addr + 4 * k) % TWO32))
    decreases n
  {
    hide LoadU32;
    hide LittleEndian;
    IndexBytesLength(m, addr, n, true);
    IndexBytesLength(m, addr, n - 1, true);
    assert |IndexBytes(m, addr, n - 1, true)| == 4 * (n - 1);
    if k == n - 1 {
    } else {
      WidePiece(m, addr, n - 1, k);
    }
  }

  lemma {:induction false} NarrowPiece(m: Memory, addr: u32, n: nat, k: nat)
    requires k < n
    ensures |IndexBytes(m, addr, n, false)| == 2 * n
    ensures IndexBytes(m, addr, n, false)[2 * k..2 * k + 2] == LittleEndian(LoadU16(m, addr + 2 * k))[..2]
    decreases n
  {
    hide LoadU16;
    IndexBytesLength(m, addr, n, false);
    IndexBytesLength(m, addr, n - 1, false);
    assert |IndexBytes(m, addr, n - 1, false)| == 2 * (n - 1);
    if k == n - 1 {
    } else {
      NarrowPiece(m, addr, n - 1, k);
    }
  }

  // ---------------------------------------------------------------- rectangle lists

  /** How many source vertices a rectangle list uses: whole rectangles only. */
  function RectangleVertices(regs: Registers, shader: TranslationResult, packet: seq<u32>): nat {
    var held := if Source(regs) == 0 then IndicesStored(packet) else Capacity(regs, shader);
    var n := if held < AskedFor(regs) then held else AskedFor(regs);
    n - n % 3
  }

  /** Source vertex `k` of a rectangle list: the guest's index, or the next one. */
  function RectangleVertex(m: Memory, regs: Registers, packet: seq<u32>, k: nat): u32
    requires Source(regs) == 0 ==> |packet| >= 4
    requires k < TWO32
  {
    if Source(regs) == 0 then GuestIndex(m, regs, packet, k) else k
  }

  lemma SourcesInOrder(m: Memory, regs: Registers, shader: TranslationResult, packet: seq<u32>)
    requires Drawable(regs, packet) && Source(regs) == 2
    ensures var vertices := SourceVertices(m, regs, shader, packet);
      && |vertices| == RectangleVertices(regs, shader, packet)
      && forall k :: 0 <= k < |vertices| ==> vertices[k] == k
  {
    WholeVertices(VertexDwords(regs), StrideBytesOf(shader));
  }

  lemma SourcesByIndex(m: Memory, regs: Registers, shader: TranslationResult, packet: seq<u32>)
    requires Drawable(regs, packet) && Source(regs) == 0
    ensures var vertices := SourceVertices(m, regs, shader, packet);
      && |vertices| == RectangleVertices(regs, shader, packet)
      && forall k :: 0 <= k < |vertices| ==> vertices[k] == GuestIndex(m, regs, packet, k)
  {
    hide IndexBytes;
    hide IndexAt;
    hide LoadU32;
    hide LoadU16;
    hide DirectMap;
    var vertices := SourceVertices(m, regs, shader, packet);
    IndicesFit(m, packet, DrawInitiatorOf(regs));
    forall k | 0 <= k < |vertices| ensures vertices[k] == GuestIndex(m, regs, packet, k) {
      IndexBytesAt(m, DirectMap(packet[2]), IndicesStored(packet), Wide(regs), k);
    }
  }

  /** The source vertices of a rectangle list, in order. */
  lemma RectangleSources(m: Memory, regs: Registers, shader: TranslationResult, packet: seq<u32>)
    requires Drawable(regs, packet)
    ensures var vertices := SourceVertices(m, regs, shader, packet);
      && |vertices| == RectangleVertices(regs, shader, packet)
      && forall k :: 0 <= k < |vertices| ==> vertices[k] == RectangleVertex(m, regs, packet, k)
  {
    hide SourceVertices;
    if Source(regs) == 0 {
      SourcesByIndex(m, regs, shader, packet);
    } else {
      SourcesInOrder(m, regs, shader, packet);
    }
  }

  lemma RectangleResolved(m: Memory, regs: Registers, shader: TranslationResult, packet: seq<u32>)
    requires Drawable(regs, packet) && PrimitiveCode(regs) == 8 && Stride(shader) >= 12
    ensures var k, data, vertices := Stride(shader) / 4, VertexWords(m, VertexAddress(regs), VertexDwords(regs)),
                                     SourceVertices(m, regs, shader, packet);
      && k >= 3 && Capacity(regs, shader) == |data| / k && Holds(data, k, |data| / k)
      && ResolveDraw(m, regs, shader, packet)
           == RectangleDraw(data, k, |data| / k, vertices, Read(regs, 0x2206) % 64 == 0)
  {
    hide IndexBytes;
    hide RectangleIndices;
    hide RectangleDraw;
    hide VertexWords;
    assert Read(regs, 0x4800) / 4 * 4 == Read(regs, 0x4800) - Read(regs, 0x4800) % 4;
    WholeVertices(VertexDwords(regs), StrideBytesOf(shader));
    IndicesFit(m, packet, DrawInitiatorOf(regs));
  }

  /** All three corners of rectangle `r` lie below the capacity. */
  predicate AllBelow(vertices: seq<u32>, capacity: nat, r: nat) {
    && 3 * r + 2 < |vertices|
    && vertices[3 * r] < capacity && vertices[3 * r + 1] < capacity && vertices[3 * r + 2] < capacity
  }

  function RectanglesBelow(vertices: seq<u32>, capacity: nat): set<nat> {
    set r: nat | r < |vertices| && AllBelow(vertices, capacity, r)
  }

  lemma {:induction false} CountBelow(vertices: seq<u32>, capacity: nat, n: nat)
    requires 3 * n <= |vertices|
    ensures CountInRange(vertices, capacity, n) == |set r: nat | r < n && AllBelow(vertices, capacity, r)|
    decreases n
  {
    var before, now := (set r: nat | r < n - 1 && AllBelow(vertices, capacity, r)),
                       (set r: nat | r < n && AllBelow(vertices, capacity, r));
    if n == 0 {
      assert now == {};
    } else {
      CountBelow(vertices, capacity, n - 1);
      BelowIsInRange(vertices, capacity, n - 1);
      assert now == if AllBelow(vertices, capacity, n - 1) then before + {n - 1} else before;
    }
  }

  lemma BelowIsInRange(vertices: seq<u32>, capacity: nat, r: nat)
    requires 3 * r + 2 < |vertices|
    ensures AllBelow(vertices, capacity, r) <==> InRange(vertices, capacity, r)
  {
  }

  lemma CountAll(vertices: seq<u32>, capacity: nat)
    ensures CountInRange(vertices, capacity, |vertices| / 3) == |RectanglesBelow(vertices, capacity)|
  {
    CountBelow(vertices, capacity, |vertices| / 3);
    assert RectanglesBelow(vertices, capacity)
        == set r: nat | r < |vertices| / 3 && AllBelow(vertices, capacity, r);
  }

  /** A rectangle list draws triangles without indices, six vertices for each rectangle in range. */
  lemma RectanglesDrawn(m: Memory, regs: Registers, shader: TranslationResult, packet: seq<u32>)
    requires Drawable(regs, packet) && PrimitiveCode(regs) == 8 && Stride(shader) >= 12
    ensures var r, vertices := ResolveDraw(m, regs, shader, packet), SourceVertices(m, regs, shader, packet);
      && r.Draw? && r.cmd.primitive == Triangle && r.cmd.strideBytes == Stride(shader)
      && r.cmd.indexCount == 0 && r.cmd.indexData == [] && !r.cmd.indexIs32Bit
      && r.cmd.vertexCount == 6 * |RectanglesBelow(vertices, Capacity(regs, shader))|
  {
    CountAll(SourceVertices(m, regs, shader, packet), Capacity(regs, shader));
    RectangleResolved(m, regs, shader, packet);
    hide ResolveDraw;
    hide SourceVertices;
    hide VertexWords;
    hide Expanded;
    hide CountInRange;
    hide RectanglesBelow;
    var k, data := Stride(shader) / 4, VertexWords(m, VertexAddress(regs), VertexDwords(regs));
    RectangleListDraw(data, k, |data| / k, SourceVertices(m, regs, shader, packet), Read(regs, 0x2206) % 64 == 0);
  }

  // ---------------------------------------------------------------- where a rectangle's corners end up

  /** Word `j` of vertex `v` in guest memory. */
  function GuestVertexWord(m: Memory, regs: Registers, shader: TranslationResult, v: nat, j: nat): u32 {
    LoadU32(m, (VertexAddress(regs) + v * Stride(shader) + 4 * j) % TWO32)
  }

  /** Window coordinates span the 1280 by 720 target, y downwards, when all viewport transforms are off. */
  function Mapped(regs: Registers, j: nat, x: real): real {
    if Read(regs, 0x2206) % 64 != 0 || j > 1 then x
    else if j == 0 then (x + 0.5) / 640.0 - 1.0
    else 1.0 - (x + 0.5) / 360.0
  }

  lemma WordPlace(v: nat, k: nat, j: nat, stride: nat)
    requires stride == 4 * k && j < k
    ensures 4 * (v * k + j) == v * stride + 4 * j && 0 <= v * k && (v + 1) * k == v * k + k
  {
    assert v * (4 * k) == 4 * (v * k);
  }

  lemma RecordWord(m: Memory, regs: Registers, shader: TranslationResult, v: nat, j: nat)
    requires var k, n := Stride(shader) / 4, VertexDwords(regs); k >= 3 && j < k && v < n / k && (v + 1) * k <= n
    ensures var k, data := Stride(shader) / 4, VertexWords(m, VertexAddress(regs), VertexDwords(regs));
      Record(data, k, v)[j] == Bits(GuestVertexWord(m, regs, shader, v, j))
  {
    hide LoadU32;
    hide VertexAddress;
    hide VertexDwords;
    var k, data := Stride(shader) / 4, VertexWords(m, VertexAddress(regs), VertexDwords(regs));
    WordPlace(v, k, j, Stride(shader));
    hide Stride;
    var at := v * k;
    assert Record(data, k, v) == data[at..at + k];
    assert Record(data, k, v)[j] == data[at + j];
  }

  /** A record mapped or not shows the mapped coordinates, and every word past them as it is. */
  lemma PlacedShows(r: seq<Component>, off: bool, regs: Registers, j: nat, w: u32)
    requires |r| >= 3 && j < |r| && r[j] == Bits(w) && (off <==> Read(regs, 0x2206) % 64 == 0)
    ensures Coordinate(Placed(r, off)[j]) == Mapped(regs, j, FloatValue(w))
    ensures j > 1 || !off ==> Placed(r, off)[j] == Bits(w)
  {
    hide FloatValue;
  }

  /** Record `p` is guest vertex `v`, its first two coordinates mapped where they are to be. */
  ghost predicate Shows(m: Memory, regs: Registers, shader: TranslationResult, v: nat, p: seq<Component>) {
    && |p| == Stride(shader) / 4
    && forall j :: 0 <= j < |p| ==>
         && Coordinate(p[j]) == Mapped(regs, j, FloatValue(GuestVertexWord(m, regs, shader, v, j)))
         && (j > 1 || Read(regs, 0x2206) % 64 != 0 ==> p[j] == Bits(GuestVertexWord(m, regs, shader, v, j)))
  }

  lemma RecordShows(m: Memory, regs: Registers, shader: TranslationResult, v: nat)
    requires var k, n := Stride(shader) / 4, VertexDwords(regs); k >= 3 && v < n / k && (v + 1) * k <= n
    ensures var k, data := Stride(shader) / 4, VertexWords(m, VertexAddress(regs), VertexDwords(regs));
      Shows(m, regs, shader, v, Placed(Record(data, k, v), Read(regs, 0x2206) % 64 == 0))
  {
    hide VertexWords;
    hide Placed;
    hide Record;
    hide Mapped;
    hide FloatValue;
    hide GuestVertexWord;
    hide VertexDwords;
    hide VertexAddress;
    var k, data := Stride(shader) / 4, VertexWords(m, VertexAddress(regs), VertexDwords(regs));
    var r, off := Record(data, k, v), Read(regs, 0x2206) % 64 == 0;
    forall j | 0 <= j < k
      ensures r[j] == Bits(GuestVertexWord(m, regs, shader, v, j))
      ensures Coordinate(Placed(r, off)[j]) == Mapped(regs, j, FloatValue(GuestVertexWord(m, regs, shader, v, j)))
      ensures j > 1 || !off ==> Placed(r, off)[j] == Bits(GuestVertexWord(m, regs, shader, v, j))
    {
      RecordWord(m, regs, shader, v, j);
      PlacedShows(r, off, regs, j, GuestVertexWord(m, regs, shader, v, j));
    }
  }

  lemma FourthPlaced(a: seq<Component>, b: seq<Component>, c: seq<Component>, off: bool)
    requires |a| == |b| == |c| >= 3
    ensures Parallelogram(Placed(a, off), Placed(b, off), Placed(c, off), Placed(FourthCorner(a, b, c), off))
  {
    var xa, xb, xc := Coordinate(a[0]), Coordinate(b[0]), Coordinate(c[0]);
    var ya, yb, yc := Coordinate(a[1]), Coordinate(b[1]), Coordinate(c[1]);
    NdcIsAffine(xa, xb, xc);
    NdcIsAffine(ya, yb, yc);
    hide NdcX;
    hide NdcY;
    hide FloatValue;
    var d := FourthCorner(a, b, c);
    assert d[3..] == b[3..];
    PlacedTail(a, off);
    PlacedTail(b, off);
    PlacedTail(c, off);
    PlacedTail(d, off);
    hide Placed;
    assert Coordinate(d[0]) == xa + xc - xb && Coordinate(d[1]) == ya + yc - yb;
  }

  lemma PlacedTail(r: seq<Component>, off: bool)
    requires |r| >= 3
    ensures Placed(r, off)[2] == r[2] && Placed(r, off)[3..] == r[3..]
    ensures if off then Coordinate(Placed(r, off)[0]) == NdcX(Coordinate(r[0]))
                        && Coordinate(Placed(r, off)[1]) == NdcY(Coordinate(r[1]))
            else Placed(r, off) == r
  {
    hide NdcX;
    hide NdcY;
    hide FloatValue;
  }

  lemma NdcIsAffine(x: real, y: real, z: real)
    ensures NdcX(x + z - y) == NdcX(x) + NdcX(z) - NdcX(y)
    ensures NdcY(x + z - y) == NdcY(x) + NdcY(z) - NdcY(y)
  {
  }

  ghost predicate LiesAt(all: seq<Component>, at: int, piece: seq<Component>) {
    0 <= at <= at + |piece| <= |all| && all[at..at + |piece|] == piece
  }

  /** Where the vertices of rectangle `r` lie in the draw: right behind those of the rectangles in range before it. */
  lemma RectangleSlice(data: seq<Component>, k: nat, capacity: nat, vertices: seq<u32>, off: bool, r: nat)
    requires Holds(data, k, capacity) && k >= 3 && 3 * r + 2 < |vertices| && InRange(vertices, capacity, r)
    ensures var d, at := RectangleDraw(data, k, capacity, vertices, off),
                         CountInRange(vertices, capacity, r) * (6 * k);
      d.Draw? && LiesAt(d.cmd.vertexData, at, RectangleTriangles(data, k, capacity, vertices, r, off))
  {
    hide Expanded;
    hide CountInRange;
    hide RectangleTriangles;
    hide Holds;
    hide InRange;
    hide RectangleDraw;
    var n := |vertices| / 3;
    RectanglePlaced(data, k, capacity, vertices, n, off, r);
    RectangleListDraw(data, k, capacity, vertices, off);
    TailSlice(Expanded(data, k, capacity, vertices, r, off), RectangleTriangles(data, k, capacity, vertices, r, off),
              Expanded(data, k, capacity, vertices, n, off));
  }

  lemma TailSlice(front: seq<Component>, piece: seq<Component>, all: seq<Component>)
    requires front + piece <= all
    ensures LiesAt(all, |front|, piece)
  {
    assert all[..|front| + |piece|] == front + piece;
  }

  lemma CornersFit(data: seq<Component>, k: nat, capacity: nat, vertices: seq<u32>, r: nat)
    requires Holds(data, k, capacity) && 3 * r + 2 < |vertices| && InRange(vertices, capacity, r)
    ensures (vertices[3 * r] + 1) * k <= |data| && (vertices[3 * r + 1] + 1) * k <= |data|
    ensures (vertices[3 * r + 2] + 1) * k <= |data|
  {
    RecordFits(data, k, capacity, vertices[3 * r]);
    RecordFits(data, k, capacity, vertices[3 * r + 1]);
    RecordFits(data, k, capacity, vertices[3 * r + 2]);
  }

  /** The vertices a draw reads: `data` is guest memory, in records of `k` dwords, `capacity` of them. */
  ghost predicate VertexBuffer(m: Memory, regs: Registers, shader: TranslationResult, data: seq<Component>, k: nat,
                               capacity: nat) {
    && data == VertexWords(m, VertexAddress(regs), VertexDwords(regs)) && k == Stride(shader) / 4 && k >= 3
    && capacity == |data| / k && Holds(data, k, capacity)
  }

  lemma CornerShows(m: Memory, regs: Registers, shader: TranslationResult, data: seq<Component>, k: nat, capacity: nat,
                    v: nat)
    requires VertexBuffer(m, regs, shader, data, k, capacity) && k >= 3 && v < capacity && (v + 1) * k <= |data|
    ensures Shows(m, regs, shader, v, Placed(Record(data, k, v), Read(regs, 0x2206) % 64 == 0))
  {
    hide Placed;
    hide Shows;
    hide Record;
    RecordShows(m, regs, shader, v);
  }

  lemma CornersOf(m: Memory, regs: Registers, shader: TranslationResult, data: seq<Component>, k: nat, capacity: nat,
                  vertices: seq<u32>, r: nat)
    returns (a: seq<Component>, b: seq<Component>, c: seq<Component>, d: seq<Component>)
    requires VertexBuffer(m, regs, shader, data, k, capacity) && Holds(data, k, capacity) && k >= 3
    requires 3 * r + 2 < |vertices| && InRange(vertices, capacity, r)
    ensures RectangleTriangles(data, k, capacity, vertices, r, Read(regs, 0x2206) % 64 == 0) == a + b + c + a + c + d
    ensures Shows(m, regs, shader, vertices[3 * r], a) && Shows(m, regs, shader, vertices[3 * r + 1], b)
    ensures Shows(m, regs, shader, vertices[3 * r + 2], c) && Parallelogram(a, b, c, d)
  {
    hide VertexBuffer;
    hide Holds;
    hide Shows;
    hide Placed;
    hide Record;
    hide FourthCorner;
    hide Parallelogram;
    var off, va, vb, vc := Read(regs, 0x2206) % 64 == 0, vertices[3 * r], vertices[3 * r + 1], vertices[3 * r + 2];
    CornersFit(data, k, capacity, vertices, r);
    CornerShows(m, regs, shader, data, k, capacity, va);
    CornerShows(m, regs, shader, data, k, capacity, vb);
    CornerShows(m, regs, shader, data, k, capacity, vc);
    var ra, rb, rc := Record(data, k, va), Record(data, k, vb), Record(data, k, vc);
    FourthPlaced(ra, rb, rc, off);
    a, b, c, d := Placed(ra, off), Placed(rb, off), Placed(rc, off), Placed(FourthCorner(ra, rb, rc), off);
  }

  lemma RectangleBuffer(m: Memory, regs: Registers, shader: TranslationResult, packet: seq<u32>)
    returns (data: seq<Component>, k: nat)
    requires Drawable(regs, packet) && PrimitiveCode(regs) == 8 && Stride(shader) >= 12
    ensures k == Stride(shader) / 4 && k >= 3 && Holds(data, k, Capacity(regs, shader))
    ensures VertexBuffer(m, regs, shader, data, k, Capacity(regs, shader))
    ensures ResolveDraw(m, regs, shader, packet)
         == RectangleDraw(data, k, Capacity(regs, shader), SourceVertices(m, regs, shader, packet),
                          Read(regs, 0x2206) % 64 == 0)
  {
    RectangleResolved(m, regs, shader, packet);
    hide ResolveDraw;
    hide SourceVertices;
    hide VertexWords;
    hide RectangleDraw;
    data, k := VertexWords(m, VertexAddress(regs), VertexDwords(regs)), Stride(shader) / 4;
  }

  /**
   * The vertices of a rectangle in range are its corners A, B, C, A, C as they lie in guest memory, their first two
   * coordinates mapped to the target when the viewport transforms are off, and then D = A + C - B, with B's
   * attributes; they come right behind those of the rectangles in range before it.
   */
  lemma RectangleCorners(m: Memory, regs: Registers, shader: TranslationResult, packet: seq<u32>, r: nat)
    returns (k: nat, a: seq<Component>, b: seq<Component>, c: seq<Component>, d: seq<Component>)
    requires Drawable(regs, packet) && PrimitiveCode(regs) == 8 && Stride(shader) >= 12
    requires var vertices := SourceVertices(m, regs, shader, packet);
      AllBelow(vertices, Capacity(regs, shader), r)
    ensures k == Stride(shader) / 4
    ensures var vertices, drawn := SourceVertices(m, regs, shader, packet), ResolveDraw(m, regs, shader, packet);
      var at := CountInRange(vertices, Capacity(regs, shader), r) * (6 * k);
      && drawn.Draw?
      && LiesAt(drawn.cmd.vertexData, at, a + b + c + a + c + d)
      && Shows(m, regs, shader, vertices[3 * r], a)
      && Shows(m, regs, shader, vertices[3 * r + 1], b)
      && Shows(m, regs, shader, vertices[3 * r + 2], c)
      && Parallelogram(a, b, c, d)
  {
    hide ResolveDraw;
    hide SourceVertices;
    hide CountInRange;
    hide RectangleDraw;
    hide RectangleTriangles;
    hide Holds;
    hide InRange;
    hide Shows;
    hide Parallelogram;
    hide VertexBuffer;
    hide Capacity;
    hide Drawable;
    hide Stride;
    hide LiesAt;
    BelowIsInRange(SourceVertices(m, regs, shader, packet), Capacity(regs, shader), r);
    hide AllBelow;
    var data;
    data, k := RectangleBuffer(m, regs, shader, packet);
    var vertices := SourceVertices(m, regs, shader, packet);
    RectangleSlice(data, k, Capacity(regs, shader), vertices, Read(regs, 0x2206) % 64 == 0, r);
    a, b, c, d := CornersOf(m, regs, shader, data, k, Capacity(regs, shader), vertices, r);
  }

  // ---------------------------------------------------------------- single-precision values

  /** A single's sign, exponent and mantissa. */
  lemma FloatFields(negative: bool, exponent: nat, mantissa: nat)
    requires exponent < 255 && mantissa < 0x80_0000
    ensures var w := (if negative then 0x8000_0000 else 0) + exponent * 0x80_0000 + mantissa;
      var magnitude := if exponent == 0 then mantissa as real * Pow2Real(-149)
                       else (0x80_0000 + mantissa) as real * Pow2Real(exponent - 150);
      FloatValue(w) == if negative then -magnitude else magnitude
  {
    hide Pow2Real;
    var sign := if negative then 1 else 0;
    var w := sign * 0x8000_0000 + exponent * 0x80_0000 + mantissa;
    Split(w, 0x80_0000, sign * 0x100 + exponent, mantissa);
    Split(sign * 0x100 + exponent, 0x100, sign, exponent);
    Split(w, 0x8000_0000, sign, exponent * 0x80_0000 + mantissa);
  }
}
