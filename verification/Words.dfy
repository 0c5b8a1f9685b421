/** Machine words of the host and the few word operations the core files use. */
module Words {

  const TWO32 := 0x1_0000_0000

  type u8 = x: int | 0 <= x < 0x100
  type u16 = x: int | 0 <= x < 0x1_0000
  type u32 = x: int | 0 <= x < 0x1_0000_0000

  datatype Option<+T> = None | Some(value: T)

  /** 32-bit addition with the wrap-around of `uint32_t`. */
  function Add32(a: int, b: int): u32 {
    (a + b) % TWO32
  }

  /** `a | 0xA0000000`: a physical address seen through the direct-mapped segment (bits 31 and 29 set). */
  function DirectMap(a: u32): u32 {
    a % 0x2000_0000 + (a / 0x4000_0000 % 2) * 0x4000_0000 + 0xA000_0000
  }

  /** Inclusive or of the low `n` bits of two naturals, bit by bit. */
  function Or(a: nat, b: nat, n: nat): nat {
    if n == 0 then 0 else 2 * Or(a / 2, b / 2, n - 1) + (if a % 2 == 1 || b % 2 == 1 then 1 else 0)
  }

  function Shift(b: nat, k: nat): nat {
    if k == 0 then b else 2 * Shift(b, k - 1)
  }

  function High(a: nat, k: nat): nat {
    if k == 0 then a else High(a / 2, k - 1)
  }

  /** `x` above the low `k` bits of `a`. */
  function Join(x: nat, a: nat, k: nat): nat {
    if k == 0 then x else 2 * Join(x, a / 2, k - 1) + a % 2
  }

  lemma {:induction false} OrHigh(a: nat, b: nat, n: nat, k: nat)
    ensures Or(a, Shift(b, k), n + k) == Join(Or(High(a, k), b, n), a, k)
    decreases k
  {
    if k == 0 {
    } else {
      OrHigh(a / 2, b, n, k - 1);
    }
  }

  lemma {:induction false} HighValue(a: nat, k: nat)
    ensures High(a, k) == a / Pow2(k)
    decreases k
  {
    if k == 0 {
    } else {
      HighValue(a / 2, k - 1);
      Halve(a, Pow2(k - 1));
    }
  }

  lemma {:induction false} JoinValue(x: nat, a: nat, k: nat)
    ensures Join(x, a, k) == x * Pow2(k) + a % Pow2(k)
    decreases k
  {
    if k == 0 {
    } else {
      JoinValue(x, a / 2, k - 1);
      Halve(a, Pow2(k - 1));
      assert x * (2 * Pow2(k - 1)) == 2 * (x * Pow2(k - 1));
    }
  }

  lemma Halve(a: nat, p: nat)
    requires p > 0
    ensures a / 2 / p == a / (2 * p) && a % (2 * p) == 2 * (a / 2 % p) + a % 2
  {
    var q, r := a / 2 / p, a / 2 % p;
    assert q * (2 * p) == 2 * (q * p);
    Split(a, 2 * p, q, 2 * r + a % 2);
  }

  /** The arithmetic form of `a | 0xA0000000` is the bitwise or. */
  lemma DirectMapIsOr(a: u32)
    ensures DirectMap(a) == Or(a, 0xA000_0000, 32)
  {
    assert Pow2(8) == 0x100 && Pow2(16) == 0x1_0000 && Pow2(24) == 0x100_0000;
    assert Pow2(29) == 0x2000_0000;
    hide Or;
    var top := a / 0x2000_0000;
    OrHigh(a, 5, 3, 29);
    ShiftedFive();
    HighValue(a, 29);
    JoinValue(Or(top, 5, 3), a, 29);
    OrFive(top);
    assert a / 0x4000_0000 == top / 2;
  }

  lemma OrFive(top: nat)
    ensures Or(top, 5, 3) == 5 + 2 * (top / 2 % 2)
  {
    assert Or(top / 4, 1, 1) == 2 * Or(top / 4 / 2, 0, 0) + 1;
    assert Or(top / 2, 2, 2) == 2 * Or(top / 2 / 2, 1, 1) + top / 2 % 2;
    assert Or(top, 5, 3) == 2 * Or(top / 2, 2, 2) + 1;
  }

  lemma ShiftedFive()
    ensures Shift(5, 29) == 0xA000_0000
  {
    assert Shift(5, 8) == 0x500 && Shift(5, 16) == 0x5_0000 && Shift(5, 24) == 0x500_0000;
  }

  /** `a & ~3`. */
  function ClearLowTwo(a: u32): u32 {
    a - a % 4
  }

  function Min(a: int, b: int): int {
    if a < b then a else b
  }

  function Pow2(n: nat): (p: nat)
    ensures p > 0
  {
    if n == 0 then 1 else 2 * Pow2(n - 1)
  }

  lemma {:induction false} Pow2Grows(n: nat, n': nat)
    requires n <= n'
    ensures Pow2(n) <= Pow2(n')
    decreases n'
  {
    if n == n' {
    } else {
      Pow2Grows(n, n' - 1);
    }
  }

  lemma MulAtLeast(a: int, k: int)
    requires a >= 1 && k > 0
    ensures a * k >= k
  {
    assert a * k == (a - 1) * k + k;
  }

  /** Splitting a packed word at a field boundary. */
  lemma Split(w: int, k: int, hi: int, lo: int)
    requires w == hi * k + lo && 0 <= lo < k
    ensures w / k == hi && w % k == lo
  {
    var q, r := w / k, w % k;
    assert (hi - q) * k == r - lo;
    if q < hi {
      MulAtLeast(hi - q, k);
    } else if q > hi {
      MulAtLeast(q - hi, k);
    }
  }

  /** The four bytes of a word as a little-endian host stores them. */
  function LittleEndian(w: u32): (bs: seq<u8>) {
    [w % 0x100, w / 0x100 % 0x100, w / 0x1_0000 % 0x100, w / 0x100_0000]
  }
}

/**
 * The guest's flat memory, by byte. Guest code is big-endian, so a 32-bit access assembles or
 * spreads four bytes, most significant first. Bytes never written read as zero.
 */
module GuestMemory {
  import opened Words

  type Memory = map<int, u8>

  function ByteAt(m: Memory, a: int): u8 {
    if a in m then m[a] else 0
  }

  function LoadU32(m: Memory, a: int): u32 {
    ByteAt(m, a) * 0x100_0000 + ByteAt(m, a + 1) * 0x1_0000 + ByteAt(m, a + 2) * 0x100 + ByteAt(m, a + 3)
  }

  function LoadU16(m: Memory, a: int): u16 {
    ByteAt(m, a) * 0x100 + ByteAt(m, a + 1)
  }

  function StoreU32(m: Memory, a: int, v: u32): Memory {
    m[a := v / 0x100_0000][a + 1 := v / 0x1_0000 % 0x100][a + 2 := v / 0x100 % 0x100][a + 3 := v % 0x100]
  }

  /** Every byte of [lo, hi) reads the same in both memories. */
  ghost predicate SameBytes(m: Memory, m': Memory, lo: int, hi: int) {
    forall x :: lo <= x < hi ==> ByteAt(m, x) == ByteAt(m', x)
  }

  lemma SameBytesJoin(m: Memory, m': Memory, m'': Memory, lo: int, hi: int)
    requires SameBytes(m, m', lo, hi) && SameBytes(m', m'', lo, hi)
    ensures SameBytes(m, m'', lo, hi)
  {
  }

  lemma SameBytesRefl(m: Memory, lo: int, hi: int)
    ensures SameBytes(m, m, lo, hi)
  {
  }

  lemma SameBytesSub(m: Memory, m': Memory, lo: int, hi: int, hi': int)
    requires SameBytes(m, m', lo, hi) && hi' <= hi
    ensures SameBytes(m, m', lo, hi')
  {
  }

  /** A 32-bit store is read back whole, and no access four or more bytes away notices it. */
  lemma StoreThenLoad(m: Memory, a: int, v: u32, b: int)
    requires b == a || b + 4 <= a || a + 4 <= b
    ensures LoadU32(StoreU32(m, a, v), b) == if b == a then v else LoadU32(m, b)
  {
    if b == a {
      var m' := StoreU32(m, a, v);
      assert ByteAt(m', a) == v / 0x100_0000 && ByteAt(m', a + 1) == v / 0x1_0000 % 0x100;
      assert ByteAt(m', a + 2) == v / 0x100 % 0x100 && ByteAt(m', a + 3) == v % 0x100;
      BytesOfWord(v);
    } else {
      StoreKeepsRange(m, a, v, b, b + 4);
    }
  }

  lemma BytesOfWord(v: u32)
    ensures v / 0x100_0000 * 0x100_0000 + v / 0x1_0000 % 0x100 * 0x1_0000 + v / 0x100 % 0x100 * 0x100 + v % 0x100 == v
  {
    assert v / 0x100 / 0x100 == v / 0x1_0000 && v / 0x1_0000 / 0x100 == v / 0x100_0000;
  }

  lemma StoreKeepsRange(m: Memory, a: int, v: u32, lo: int, hi: int)
    requires hi <= a || a + 4 <= lo
    ensures SameBytes(m, StoreU32(m, a, v), lo, hi)
  {
  }

  /** `n` consecutive words from guest address `a`, each address taken modulo 2^32. */
  function ReadWords(m: Memory, a: u32, n: nat): (ws: seq<u32>)
    ensures |ws| == n
  {
    seq(n, i requires 0 <= i < n => LoadU32(m, Add32(a, 4 * i)))
  }

  function StoreWords(m: Memory, a: int, ws: seq<u32>): Memory
    decreases |ws|
  {
    if ws == [] then m else StoreWords(StoreU32(m, a, ws[0]), a + 4, ws[1..])
  }

  /** Storing words at an address changes only their own bytes, and reading them back returns them. */
  lemma {:induction false} StoreWordsThenRead(m: Memory, a: u32, ws: seq<u32>)
    requires a + 4 * |ws| <= TWO32
    ensures ReadWords(StoreWords(m, a, ws), a, |ws|) == ws
    ensures forall x :: x < a || a + 4 * |ws| <= x ==> ByteAt(StoreWords(m, a, ws), x) == ByteAt(m, x)
    decreases |ws|
  {
    StoreWordsAt(m, a, ws);
    var after := StoreWords(m, a, ws);
    forall i | 0 <= i < |ws| ensures ReadWords(after, a, |ws|)[i] == ws[i] {
      assert Add32(a, 4 * i) == a + 4 * i;
    }
  }

  lemma {:induction false} StoreWordsAt(m: Memory, a: int, ws: seq<u32>)
    ensures forall i :: 0 <= i < |ws| ==> LoadU32(StoreWords(m, a, ws), a + 4 * i) == ws[i]
    ensures forall x :: x < a || a + 4 * |ws| <= x ==> ByteAt(StoreWords(m, a, ws), x) == ByteAt(m, x)
    decreases |ws|
  {
    if ws == [] {
    } else {
      var m1 := StoreU32(m, a, ws[0]);
      StoreWordsAt(m1, a + 4, ws[1..]);
      var after := StoreWords(m, a, ws);
      forall i | 0 <= i < |ws| ensures LoadU32(after, a + 4 * i) == ws[i] {
        if i == 0 {
          StoreThenLoad(m, a, ws[0], a);
        } else {
          assert a + 4 * i == a + 4 + 4 * (i - 1);
          assert ws[i] == ws[1..][i - 1];
        }
      }
    }
  }

  /** Memories that agree on a range of bytes agree on the words read inside it. */
  lemma SameBytesSameWords(m: Memory, m': Memory, lo: int, hi: int, a: u32, n: nat)
    requires SameBytes(m, m', lo, hi)
    requires lo <= a && a + 4 * n <= hi <= TWO32
    ensures ReadWords(m, a, n) == ReadWords(m', a, n)
  {
    forall i | 0 <= i < n ensures ReadWords(m, a, n)[i] == ReadWords(m', a, n)[i] {
      assert Add32(a, 4 * i) == a + 4 * i;
    }
  }
}
