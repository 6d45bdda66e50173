/** Little-endian decoding of the integers stored in bundle and index files
    (utils.go `bytesToInt64`). */
module Bytes {
  import opened GoInt

  type byte = b: int | 0 <= b < 256

  function Pow256(k: nat): (r: nat)
    ensures r > 0
  {
    if k == 0 then 1 else 256 * Pow256(k - 1)
  }

  /** The value of `s` read low-order byte first: byte i weighs 256^i. */
  function LittleEndian(s: seq<byte>): (v: nat)
    ensures v < Pow256(|s|)
  {
    if |s| == 0 then 0 else s[0] + 256 * LittleEndian(s[1..])
  }

  /** The `width`-byte little-endian representation of `v`: the writer's side
      of the format, inverse of `LittleEndian`. */
  function EncodeLittleEndian(v: nat, width: nat): (s: seq<byte>)
    requires v < Pow256(width)
    ensures |s| == width
    ensures LittleEndian(s) == v
  {
    if width == 0 then [] else [v % 256] + EncodeLittleEndian(v / 256, width - 1)
  }

  /** Appending a byte adds it at the next power of 256. */
  lemma {:induction false} LittleEndianAppend(s: seq<byte>, b: byte)
    ensures LittleEndian(s + [b]) == LittleEndian(s) + b * Pow256(|s|)
    decreases |s|
  {
    if |s| == 0 {
      assert s + [b] == [b];
      assert [b][1..] == [];
    } else {
      var t := s[1..];
      assert (s + [b])[1..] == t + [b];
      LittleEndianAppend(t, b);
      var p := Pow256(|t|);
      assert LittleEndian(s + [b]) == s[0] + 256 * (LittleEndian(t) + b * p);
      assert Pow256(|s|) == 256 * p;
      ScaleByte(b, p);
    }
  }

  lemma ScaleByte(b: byte, p: nat)
    ensures 256 * (b * p) == b * (256 * p)
  {
  }

  /** Decoding is injective at a fixed width, so encoding a decoded slice gives it back. */
  lemma {:induction false} EncodeDecode(s: seq<byte>)
    ensures EncodeLittleEndian(LittleEndian(s), |s|) == s
    decreases |s|
  {
    if |s| > 0 {
      var v := LittleEndian(s);
      assert v % 256 == s[0] && v / 256 == LittleEndian(s[1..]);
      EncodeDecode(s[1..]);
    }
  }

  lemma FourAndFiveBytePowers()
    ensures Pow256(4) == 0x1_0000_0000
    ensures Pow256(5) == 0x100_0000_0000
  {
    assert Pow256(1) == 0x100;
    assert Pow256(2) == 0x1_0000;
    assert Pow256(3) == 0x100_0000;
  }

  /** The two widths the readers decode: a 4-byte value is below 2^32 and a
      5-byte value below 2^40, so neither can come out negative as an int64. */
  lemma DecodedWidthsFitInt64(s: seq<byte>)
    requires |s| == 4 || |s| == 5
    ensures 0 <= LittleEndian(s) < 0x100_0000_0000
    ensures |s| == 4 ==> LittleEndian(s) < 0x1_0000_0000
  {
    FourAndFiveBytePowers();
  }

  function Pow2(k: nat): (r: nat)
    ensures r > 0
  {
    if k == 0 then 1 else 2 * Pow2(k - 1)
  }

  lemma {:induction false} Pow2Add(a: nat, b: nat)
    ensures Pow2(a + b) == Pow2(a) * Pow2(b)
    decreases a
  {
    if a > 0 {
      Pow2Add(a - 1, b);
    }
  }

  lemma {:induction false} Pow2Bytes(i: nat)
    ensures Pow2(8 * i) == Pow256(i)
  {
    if i > 0 {
      Pow2Bytes(i - 1);
      Pow2Add(8, 8 * (i - 1));
      assert Pow2(8) == 256 by {
        assert Pow2(4) == 16;
      }
    }
  }

  /** Bitwise OR of two bit patterns, written as non-negative integers. */
  function BitOr(a: nat, b: nat): nat
    decreases a + b
  {
    if a == 0 then b
    else if b == 0 then a
    else 2 * BitOr(a / 2, b / 2) + (if a % 2 == 1 || b % 2 == 1 then 1 else 0)
  }

  /** OR of two patterns whose set bits do not overlap (`a` below bit k,
      `b` a multiple of 2^k) is their sum. */
  lemma {:induction false} DisjointOrIsAdd(a: nat, b: nat, m: nat, k: nat)
    requires a < Pow2(k)
    requires b == m * Pow2(k)
    ensures BitOr(a, b) == a + b
    decreases k
  {
    if a != 0 && b != 0 {
      var x := m * Pow2(k - 1);
      assert b == 2 * x;
      assert a / 2 < Pow2(k - 1);
      DisjointOrIsAdd(a / 2, x, m, k - 1);
    }
  }

  /** The int64 bit pattern as an unsigned 64-bit number. */
  function Unsigned(x: int64): (u: nat)
    ensures u < TwoTo64
    ensures u == x || u == x + TwoTo64
  {
    if x < 0 then x + TwoTo64 else x
  }

  lemma UnsignedWrap(y: int)
    requires 0 <= y < TwoTo64
    ensures Unsigned(Wrap(y)) == y
  {
  }

  /** Go's `x << s` on an int64: bits shifted past bit 63 are lost, and a shift
      of 64 or more yields 0. */
  function ShiftLeft(x: int64, s: nat): int64 {
    if s >= 64 then 0 else Wrap(x * Pow2(s))
  }

  /** Go's `|` on two int64 values. */
  function Or(a: int64, b: int64): int64 {
    Wrap(BitOr(Unsigned(a), Unsigned(b)))
  }

  /** One step of `bytesToInt64`: OR-ing byte i of a slice into the value of
      the bytes before it extends the little-endian value by that byte. */
  lemma OrStep(acc: int64, b: byte, i: nat)
    requires i < 8
    requires 0 <= acc < Pow256(i)
    ensures Unsigned(Or(acc, ShiftLeft(b, 8 * i))) == acc + b * Pow256(i)
  {
    Pow2Bytes(i);
    ShiftedByteBound(b, i);
    ShiftedOr(acc, b, 8 * i, b * Pow256(i));
  }

  /** `Or` with a byte shifted above every bit of `acc` adds the two. */
  lemma ShiftedOr(acc: int64, b: byte, s: nat, y: nat)
    requires s < 64 && y == b * Pow2(s)
    requires 0 <= acc < Pow2(s) && acc + y < TwoTo64
    ensures Unsigned(Or(acc, ShiftLeft(b, s))) == acc + y
  {
    DisjointOrIsAdd(acc, y, b, s);
    OrOfPatterns(acc, y);
  }

  lemma ShiftedByteBound(b: byte, i: nat)
    requires i < 8
    ensures b * Pow256(i) + Pow256(i) <= TwoTo64
  {
    var p := Pow256(i);
    PowBelowBit56(i);
    MulMonotone(b, 255, p);
    MulMonotone(p, 0x100_0000_0000_0000, 256);
  }

  /** `Or` on two int64 values whose patterns OR to their sum. */
  lemma OrOfPatterns(acc: int64, y: nat)
    requires 0 <= acc && acc + y < TwoTo64
    requires BitOr(acc, y) == acc + y
    ensures Unsigned(Or(acc, Wrap(y))) == acc + y
  {
    UnsignedWrap(y);
    UnsignedWrap(acc + y);
  }

  lemma PowBelowBit56(i: nat)
    requires i < 8
    ensures Pow256(i) <= 0x100_0000_0000_0000
  {
    PowMonotone(i, 7);
    FourAndFiveBytePowers();
    assert Pow256(6) == 0x1_0000_0000_0000;
  }

  /** `bytesToInt64`: ORs byte i shifted left by 8*i into an int64. Go yields 0
      for a shift of 64 bits or more, so bytes past the eighth are dropped, and
      an eighth byte of 0x80 or more makes the result negative. */
  method BytesToInt64(bytes: seq<byte>) returns (r: int64)
    ensures r == Wrap(LittleEndian(bytes[..Min(|bytes|, 8)]))
  {
    r := 0;
    var i := 0;
    while i < |bytes|
      invariant 0 <= i <= |bytes|
      invariant Unsigned(r) == LittleEndian(bytes[..Min(i, 8)])
    {
      var b := bytes[i];
      if i < 8 {
        LittleEndianAppend(bytes[..i], b);
        assert bytes[..i + 1] == bytes[..i] + [b];
        LittleEndianBelowInt64(bytes[..i]);
        OrStep(r, b, i);
      } else {
        assert Unsigned(ShiftLeft(b, 8 * i)) == 0;
      }
      r := Or(r, ShiftLeft(b, 8 * i));
      i := i + 1;
    }
    assert bytes[..Min(|bytes|, 8)] == bytes[..Min(i, 8)];
  }

  /** Fewer than 8 bytes decode to their exact little-endian value: no bit
      reaches the sign bit. */
  lemma ShortFieldExact(bytes: seq<byte>)
    requires |bytes| < 8
    ensures Wrap(LittleEndian(bytes[..Min(|bytes|, 8)])) == LittleEndian(bytes)
  {
    assert bytes[..|bytes|] == bytes;
    LittleEndianBelowInt64(bytes);
  }

  lemma LittleEndianBelowInt64(s: seq<byte>)
    requires |s| < 8
    ensures LittleEndian(s) < TwoTo63
  {
    PowBelowBit56(|s|);
  }

  lemma {:induction false} PowMonotone(j: nat, k: nat)
    requires j <= k
    ensures Pow256(j) <= Pow256(k)
    decreases k
  {
    if j < k {
      PowMonotone(j, k - 1);
    }
  }

  /** `file` holds `v` at `at`, little-endian in `width` bytes. */
  predicate HoldsValue(file: seq<byte>, at: nat, width: nat, v: nat) {
    v < Pow256(width) && at + width <= |file| && file[at..at + width] == EncodeLittleEndian(v, width)
  }

  /** `file` holds a record at `o`: the length of `payload` in 4
      little-endian bytes, then `payload`. */
  predicate HoldsRecord(file: seq<byte>, o: nat, payload: seq<byte>) {
    HoldsValue(file, o, 4, |payload|) && o + 4 + |payload| <= |file| && file[o + 4..o + 4 + |payload|] == payload
  }
}
