/**
  The padding of SHA-256.  The program never builds the padded message: it finds its length by
  counting and computes each byte on demand.  Section 5.1.1 of FIPS 180-4 says what those bytes
  are, in bits.
*/
module Sha256Padding {
  newtype byte = x: int | 0 <= x < 0x100

  type Bytes = seq<byte>

  /** No string is longer than the largest pointer difference. */
  const MaxSize: nat := 0x7fff_ffff_ffff_ffff

  const Wrap64: nat := 0x1_0000_0000_0000_0000

  // ----- unsigned shifts -----

  function ShiftRight(x: nat, bits: nat): nat {
    if bits == 0 then x else ShiftRight(x / 2, bits - 1)
  }

  /** The `count` lowest bytes of a number, the most significant first. */
  function BigEndian(n: nat, count: nat): (bytes: Bytes)
    ensures |bytes| == count
  {
    if count == 0 then [] else BigEndian(n / 256, count - 1) + [(n % 256) as byte]
  }

  lemma {:induction false} ShiftByByte(x: nat, bits: nat)
    ensures ShiftRight(x, bits + 8) == ShiftRight(x / 256, bits)
  {
    if bits == 0 {
      var y := x / 2 / 2 / 2 / 2;
      assert ShiftRight(x, 8) == ShiftRight(x / 2, 7) == ShiftRight(x / 2 / 2, 6) == ShiftRight(x / 2 / 2 / 2, 5)
          == ShiftRight(y, 4);
      assert ShiftRight(y, 4) == ShiftRight(y / 2, 3) == ShiftRight(y / 2 / 2, 2) == ShiftRight(y / 2 / 2 / 2, 1)
          == y / 2 / 2 / 2 / 2;
    } else {
      ShiftByByte(x / 2, bits - 1);
      assert x / 2 / 256 == x / 256 / 2;
    }
  }

  lemma {:induction false} BigEndianByte(n: nat, count: nat, i: nat)
    requires i < count
    ensures BigEndian(n, count)[i] as int == ShiftRight(n, 8 * (count - 1 - i)) % 256
  {
    if i < count - 1 {
      BigEndianByte(n / 256, count - 1, i);
      ShiftByByte(n, 8 * (count - 2 - i));
    }
  }

  function Pow2(k: nat): nat { if k == 0 then 1 else 2 * Pow2(k - 1) }

  /** The bytes tell the number, as far as they go. */
  lemma {:induction false} BigEndianOneToOne(n: nat, m: nat, count: nat)
    requires n < Pow2(8 * count) && m < Pow2(8 * count) && BigEndian(n, count) == BigEndian(m, count)
    ensures n == m
  {
    if count > 0 {
      assert BigEndian(n, count)[count - 1] == BigEndian(m, count)[count - 1];
      assert BigEndian(n, count)[..count - 1] == BigEndian(m, count)[..count - 1];
      Pow2Byte(count - 1);
      BigEndianOneToOne(n / 256, m / 256, count - 1);
    }
  }

  lemma Pow2Byte(k: nat)
    ensures Pow2(8 * (k + 1)) == 256 * Pow2(8 * k)
  {
    var w := 8 * k;
    assert Pow2(w + 8) == 2 * Pow2(w + 7) == 4 * Pow2(w + 6) == 8 * Pow2(w + 5) == 16 * Pow2(w + 4);
    assert Pow2(w + 4) == 2 * Pow2(w + 3) == 4 * Pow2(w + 2) == 8 * Pow2(w + 1) == 16 * Pow2(w);
  }

  // ----- the padded message -----

  /** The least number of whole blocks that holds the message, its mark and its length. */
  function Total(len: nat): (total: nat)
    ensures total % 64 == 0 && len + 9 <= total < len + 9 + 64
  {
    (len + 9 + 63) / 64 * 64
  }

  function Blank(count: nat): (bytes: Bytes)
    ensures |bytes| == count
  {
    seq(count, _ => 0)
  }

  /** The padded message in one piece. */
  function Padded(data: Bytes): (padded: Bytes)
    ensures |padded| == Total(|data|)
  {
    data + [0x80] + Blank(Total(|data|) - |data| - 9) + BigEndian(8 * |data| % Wrap64, 8)
  }

  /** The counting loop at the head of `sha256`. */
  method CountTotal(len: nat) returns (total: nat)
    ensures total == Total(len)
  {
    total := len + 1;
    while total % 64 != 56
      invariant len + 1 <= total <= Total(len) - 8
      decreases Total(len) - total
    {
      total := total + 1;
    }
    total := total + 8;
  }

  /** `padded`: one byte, computed on demand from the message and its two lengths. */
  function PaddedAt(data: Bytes, total: nat, i: nat): byte
    requires total == Total(|data|) && i < total
  {
    if i < |data| then data[i]
    else if i == |data| then 0x80
    else if i >= total - 8 then
      var shift := (total - 1 - i) * 8;
      (ShiftRight(8 * |data| % Wrap64, shift) % 0x100) as byte
    else 0
  }

  /** It is that byte of the padded message. */
  lemma PaddedAtIs(data: Bytes, i: nat)
    requires i < Total(|data|)
    ensures PaddedAt(data, Total(|data|), i) == Padded(data)[i]
  {
    var total := Total(|data|);
    if i >= total - 8 {
      BigEndianByte(8 * |data| % Wrap64, 8, i - (total - 8));
    }
  }

  // ----- section 5.1.1, in bits -----

  type Bits = seq<bool>

  /** The `width` lowest bits of a number, the most significant first. */
  function BitsOf(n: nat, width: nat): (bits: Bits)
    ensures |bits| == width
  {
    if width == 0 then [] else BitsOf(n / 2, width - 1) + [n % 2 == 1]
  }

  function BitString(bytes: Bytes): (bits: Bits)
    ensures |bits| == 8 * |bytes|
  {
    if bytes == [] then [] else BitString(bytes[..|bytes| - 1]) + BitsOf(bytes[|bytes| - 1] as nat, 8)
  }

  function Zeros(k: nat): Bits { seq(k, _ => false) }

  /** The padding: a one, then `k` zeros, then the length in bits on 64 bits. */
  function BitPadded(message: Bits, k: nat): Bits {
    message + [true] + Zeros(k) + BitsOf(|message|, 64)
  }

  /** `k` is the smallest number that solves the equation of the standard. */
  ghost predicate IsPadLength(l: nat, k: nat) {
    Solves(l, k) && forall j: nat :: j < k ==> !Solves(l, j)
  }

  predicate Solves(l: nat, k: nat) { (l + 1 + k) % 512 == 448 }

  lemma {:induction false} BitStringAppends(x: Bytes, y: Bytes)
    ensures BitString(x + y) == BitString(x) + BitString(y)
  {
    if y == [] {
      assert x + y == x;
    } else {
      var n := |y| - 1;
      BitStringAppends(x, y[..n]);
      assert (x + y)[..|x + y| - 1] == x + y[..n];
    }
  }

  lemma {:induction false} LowBits(n: nat, width: nat, low: nat)
    ensures BitsOf(n, width + low) == BitsOf(ShiftRight(n, low), width) + BitsOf(n, low)
  {
    if low > 0 { LowBits(n / 2, width, low - 1); }
  }

  lemma {:induction false} Periodic(n: nat, q: nat, width: nat)
    ensures BitsOf(n + Pow2(width) * q, width) == BitsOf(n, width)
  {
    if width > 0 {
      assert Pow2(width) * q == 2 * (Pow2(width - 1) * q);
      Periodic(n / 2, q, width - 1);
    }
  }

  lemma BitsOfByte(n: nat, width: nat)
    ensures BitsOf(n, width + 8) == BitsOf(n / 256, width) + BitsOf(n % 256, 8)
  {
    LowBits(n, width, 8);
    ShiftByByte(n, 0);
    assert Pow2(8) == 256;
    Periodic(n % 256, n / 256, 8);
  }

  /** A number's bytes spell its bits. */
  lemma {:induction false} BigEndianBits(n: nat, count: nat)
    ensures BitString(BigEndian(n, count)) == BitsOf(n, 8 * count)
  {
    if count > 0 {
      BigEndianBits(n / 256, count - 1);
      BitsOfByte(n, 8 * (count - 1));
      assert BigEndian(n, count)[..count - 1] == BigEndian(n / 256, count - 1);
    }
  }

  lemma {:induction false} ZeroBits(width: nat)
    ensures BitsOf(0, width) == Zeros(width)
  {
    if width > 0 { ZeroBits(width - 1); }
  }

  lemma {:induction false} ZeroBytes(count: nat)
    ensures BitString(Blank(count)) == Zeros(8 * count)
  {
    if count > 0 {
      ZeroBytes(count - 1);
      ZeroBits(8);
      assert Blank(count)[..count - 1] == Blank(count - 1);
    }
  }

  lemma MarkBits()
    ensures BitString([0x80]) == [true] + Zeros(7)
  {
    assert BitsOf(0x80, 8) == BitsOf(1, 1) + Zeros(7) by {
      LowBits(0x80, 1, 7);
      assert ShiftRight(0x80, 7) == 1;
      Periodic(0, 1, 7);
      assert Pow2(7) == 0x80;
      ZeroBits(7);
    }
    assert BitsOf(1, 1) == [true];
    var bytes: Bytes := [0x80];
    assert bytes[..0] == [];
    assert BitString(bytes) == BitString([]) + BitsOf(0x80, 8);
  }

  /** The number of zero bits after the mark. */
  function PadLength(len: nat): nat { 8 * (Total(len) - len - 9) + 7 }

  lemma LeastSolution(l: nat, k: nat, m: int)
    requires l + 1 + k == 512 * m + 448 && k < 512
    ensures IsPadLength(l, k)
  {
    forall j: nat | j < k ensures !Solves(l, j) {
      assert l + 1 + j == 512 * m + 448 - (k - j);
    }
  }

  lemma PadLengthIsLeast(len: nat)
    ensures IsPadLength(8 * len, PadLength(len))
  {
    var k, m := PadLength(len), Total(len) / 64;
    assert 8 * len + 1 + k == 512 * (m - 1) + 448;
    LeastSolution(8 * len, k, m - 1);
  }

  lemma PaddedBits(data: Bytes)
    requires |data| < 0x2000_0000_0000_0000
    ensures BitString(Padded(data))
         == BitString(data) + ([true] + Zeros(7)) + Zeros(8 * (Total(|data|) - |data| - 9)) + BitsOf(8 * |data|, 64)
  {
    hide *;
    var k := Total(|data|) - |data| - 9;
    BitStringAppends(data + [0x80] + Blank(k), BigEndian(8 * |data|, 8));
    BitStringAppends(data + [0x80], Blank(k));
    BitStringAppends(data, [0x80]);
    MarkBits();
    ZeroBytes(k);
    BigEndianBits(8 * |data|, 8);
    PaddedInPieces(data);
  }

  /**
    While the bit length fits in 64 bits, which is as far as the standard goes, the padded bytes
    are the padding of the standard.
  */
  lemma PaddedIsStandard(data: Bytes)
    requires |data| < 0x2000_0000_0000_0000
    ensures IsPadLength(8 * |data|, PadLength(|data|))
    ensures BitString(Padded(data)) == BitPadded(BitString(data), PadLength(|data|))
  {
    hide *;
    var k := Total(|data|) - |data| - 9;
    PadLengthIsLeast(|data|);
    PaddedBits(data);
    PadLengthIs(|data|);
    ZerosJoin(7, 8 * k);
    BitPaddedInPieces(BitString(data), Zeros(7), Zeros(8 * k), PadLength(|data|));
  }

  lemma PaddedInPieces(data: Bytes)
    requires |data| < 0x2000_0000_0000_0000
    ensures Padded(data) == data + [0x80] + Blank(Total(|data|) - |data| - 9) + BigEndian(8 * |data|, 8)
  {
    hide BigEndian, Blank, Total;
    LengthFieldWraps(|data|);
  }

  lemma PadLengthIs(len: nat)
    ensures PadLength(len) == 8 * (Total(len) - len - 9) + 7
  {
  }

  lemma ZerosJoin(a: nat, b: nat)
    ensures Zeros(a + b) == Zeros(a) + Zeros(b)
  {
  }

  lemma BitPaddedIs(message: Bits, k: nat)
    ensures BitPadded(message, k) == message + [true] + Zeros(k) + BitsOf(|message|, 64)
  {
  }

  lemma Regroup(a: Bits, b: Bits, c: Bits, d: Bits, e: Bits)
    ensures a + b + (c + d) + e == a + (b + c) + d + e
  {
  }

  lemma BitPaddedInPieces(message: Bits, a: Bits, b: Bits, k: nat)
    requires Zeros(k) == a + b
    ensures BitPadded(message, k) == message + ([true] + a) + b + BitsOf(|message|, 64)
  {
    hide *;
    BitPaddedIs(message, k);
    Regroup(message, [true], a, b, BitsOf(|message|, 64));
  }

  /** No two messages, of whatever lengths, pad to the same bytes. */
  lemma PaddingIsOneToOne(x: Bytes, y: Bytes)
    requires |x| <= MaxSize && |y| <= MaxSize && Padded(x) == Padded(y)
    ensures x == y
  {
    hide Padded, BigEndian, Total, Pow2;
    Pow2OfWord();
    PaddedEnds(x);
    PaddedEnds(y);
    BigEndianOneToOne(8 * |x| % Wrap64, 8 * |y| % Wrap64, 8);
    SameLength(|x|, |y|);
  }

  lemma SameLength(n: nat, m: nat)
    requires n <= MaxSize && m <= MaxSize && Total(n) == Total(m) && 8 * n % Wrap64 == 8 * m % Wrap64
    ensures n == m
  {
    hide Total;
    assert -72 < n - m < 72;
  }

  lemma PaddedEnds(data: Bytes)
    ensures var padded := Padded(data);
            && padded[..|data|] == data
            && padded[|padded| - 8..] == BigEndian(8 * |data| % Wrap64, 8)
  {
    hide BigEndian, Total;
  }

  lemma Pow2OfWord()
    ensures Pow2(64) == Wrap64
  {
    hide Pow2;
    Pow2OfZero();
    Pow2Byte(0);
    Pow2Byte(1);
    Pow2Byte(2);
    Pow2Byte(3);
    Pow2Byte(4);
    Pow2Byte(5);
    Pow2Byte(6);
    Pow2Byte(7);
  }

  lemma Pow2OfZero()
    ensures Pow2(0) == 1
  {
  }

  /** Beyond that the program's length field wraps: the field no longer tells the bit length. */
  lemma LengthFieldWraps(len: nat)
    ensures 8 * len % Wrap64 == 8 * len <==> len < 0x2000_0000_0000_0000
  {
  }
}
