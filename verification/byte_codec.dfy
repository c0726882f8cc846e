/**
 * Fixed-width integer images as produced by `memcpy` of a C++ integer into a
 * byte buffer.  `memcpy` copies the host's native layout; this model chooses
 * little-endian byte order and two's-complement signed integers.
 */
module ByteCodec {

  /** An `unsigned char`: the value `memcpy` and `memcmp` see in one byte. */
  type byte = b: int | 0 <= b < 256
  type ByteString = seq<byte>

  const TWO_31: int := 0x8000_0000
  const TWO_32: int := 0x1_0000_0000
  const TWO_63: int := 0x8000_0000_0000_0000
  const TWO_64: int := 0x1_0000_0000_0000_0000

  /** C++ `int` */
  type Int32 = x: int | -0x8000_0000 <= x < 0x8000_0000
  /** C++ `long long` */
  type Int64 = x: int | -0x8000_0000_0000_0000 <= x < 0x8000_0000_0000_0000
  /** `std::mt19937_64::result_type` */
  type UInt64 = x: int | 0 <= x < 0x1_0000_0000_0000_0000

  const MIN_INT64: Int64 := -0x8000_0000_0000_0000
  const MAX_INT64: Int64 := 0x7fff_ffff_ffff_ffff

  function Pow256(n: nat): (p: nat)
    ensures p > 0
  {
    if n == 0 then 1 else 256 * Pow256(n - 1)
  }

  lemma Pow256Values()
    ensures Pow256(4) == TWO_32
    ensures Pow256(8) == TWO_64
  {
    assert Pow256(2) == 0x1_0000;
    assert Pow256(4) == 0x1_0000_0000;
    assert Pow256(6) == 0x1_0000_0000_0000;
  }

  /** The `width` low-order bytes of `u`, least significant byte first. */
  function LittleEndian(u: nat, width: nat): (bs: ByteString)
    requires u < Pow256(width)
    ensures |bs| == width
  {
    if width == 0 then []
    else
      DivBound(u, Pow256(width - 1));
      [u % 256] + LittleEndian(u / 256, width - 1)
  }

  /** The first byte of a little-endian image is the number's lowest byte. */
  lemma LittleEndianFirstByte(u: nat, width: nat)
    requires 0 < width && u < Pow256(width)
    ensures LittleEndian(u, width)[0] == u % 256
  {
  }

  lemma DivBound(u: nat, p: nat)
    requires u < 256 * p
    ensures u / 256 < p
  {
    var q := u / 256;
    assert u == 256 * q + u % 256;
    assert 256 * q <= u;
  }

  /** The unsigned number whose little-endian image is `bs`. */
  function FromLittleEndian(bs: ByteString): (u: nat)
    ensures u < Pow256(|bs|)
  {
    if |bs| == 0 then 0
    else
      var rest := FromLittleEndian(bs[1..]);
      assert rest <= Pow256(|bs| - 1) - 1;
      assert 256 * rest <= 256 * Pow256(|bs| - 1) - 256;
      bs[0] + 256 * rest
  }

  lemma {:induction false} LittleEndianRoundTrip(u: nat, width: nat)
    requires u < Pow256(width)
    ensures FromLittleEndian(LittleEndian(u, width)) == u
  {
    if width > 0 {
      var bs := LittleEndian(u, width);
      assert bs[1..] == LittleEndian(u / 256, width - 1);
      LittleEndianRoundTrip(u / 256, width - 1);
      FromLittleEndianCons(bs);
      LittleEndianFirstByte(u, width);
      assert u == u % 256 + 256 * (u / 256);
    }
  }

  lemma DigitSplit(low: nat, high: nat)
    requires low < 256
    ensures (low + 256 * high) % 256 == low
    ensures (low + 256 * high) / 256 == high
  {
  }

  lemma LittleEndianCons(low: byte, high: nat, width: nat)
    requires high < Pow256(width)
    ensures low + 256 * high < Pow256(width + 1)
    ensures LittleEndian(low + 256 * high, width + 1) == [low] + LittleEndian(high, width)
  {
    DigitSplit(low, high);
  }

  lemma FromLittleEndianCons(bs: ByteString)
    requires |bs| > 0
    ensures FromLittleEndian(bs) == bs[0] + 256 * FromLittleEndian(bs[1..])
  {
  }

  lemma ReencodeHead(bs: ByteString, rest: nat)
    requires |bs| > 0
    requires rest < Pow256(|bs| - 1)
    requires LittleEndian(rest, |bs| - 1) == bs[1..]
    ensures LittleEndian(bs[0] + 256 * rest, |bs|) == bs
  {
    LittleEndianCons(bs[0], rest, |bs| - 1);
    assert bs == [bs[0]] + bs[1..];
  }

  lemma {:induction false} FromLittleEndianRoundTrip(bs: ByteString)
    ensures LittleEndian(FromLittleEndian(bs), |bs|) == bs
  {
    if |bs| > 0 {
      FromLittleEndianCons(bs);
      FromLittleEndianRoundTrip(bs[1..]);
      ReencodeHead(bs, FromLittleEndian(bs[1..]));
    }
  }

  /** Half the range of a `width`-byte integer: the magnitude of its most negative value. */
  function Half(width: nat): (h: int)
    ensures width > 0 ==> 2 * h == Pow256(width)
  {
    if width == 0 then 0 else 128 * Pow256(width - 1)
  }

  /** Two's complement image of a signed `v` in `width` bytes, as an unsigned number. */
  function TwosComplement(v: int, width: nat): (u: nat)
    requires 0 < width
    requires -Half(width) <= v < Half(width)
    ensures u < Pow256(width)
    ensures v >= 0 ==> u == v
    ensures v < 0 ==> u >= Half(width)
  {
    if v < 0 then v + Pow256(width) else v
  }

  /** The signed number whose `width`-byte two's complement image is `u`. */
  function FromTwosComplement(u: nat, width: nat): (v: int)
    requires 0 < width
    requires u < Pow256(width)
    ensures -Half(width) <= v < Half(width)
    ensures TwosComplement(v, width) == u
  {
    if u >= Half(width) then u - Pow256(width) else u
  }

  lemma TwosComplementRoundTrip(v: int, width: nat)
    requires 0 < width
    requires -Half(width) <= v < Half(width)
    ensures FromTwosComplement(TwosComplement(v, width), width) == v
  {
  }

  /** `memcpy(&s[0], &v, 4)` for an `int v` */
  function EncodeInt32(v: Int32): (bs: ByteString)
    ensures |bs| == 4
    ensures DecodeInt32(bs) == v
  {
    Pow256Values();
    var bs := LittleEndian(TwosComplement(v, 4), 4);
    LittleEndianRoundTrip(TwosComplement(v, 4), 4);
    TwosComplementRoundTrip(v, 4);
    bs
  }

  /** The first byte of an `int`'s image is its low byte, whatever its sign. */
  lemma Int32FirstByte(v: Int32)
    ensures EncodeInt32(v)[0] == v % 256
  {
    Pow256Values();
    LittleEndianFirstByte(TwosComplement(v, 4), 4);
    if v < 0 {
      assert TwosComplement(v, 4) == v + 256 * 0x100_0000;
    }
  }

  /** `memcpy(&v, p, 4)` into an `int v` */
  function DecodeInt32(bs: ByteString): (v: Int32)
    requires |bs| == 4
  {
    Pow256Values();
    FromTwosComplement(FromLittleEndian(bs), 4)
  }

  /** `memcpy(&s[0], &v, 8)` for a `long long v` */
  function EncodeInt64(v: Int64): (bs: ByteString)
    ensures |bs| == 8
    ensures DecodeInt64(bs) == v
  {
    Pow256Values();
    var bs := LittleEndian(TwosComplement(v, 8), 8);
    LittleEndianRoundTrip(TwosComplement(v, 8), 8);
    TwosComplementRoundTrip(v, 8);
    bs
  }

  /** `memcpy(&v, p, 8)` into a `long long v` */
  function DecodeInt64(bs: ByteString): (v: Int64)
    requires |bs| == 8
  {
    Pow256Values();
    FromTwosComplement(FromLittleEndian(bs), 8)
  }

  /** Every 4-byte string is the image of exactly one `int`. */
  lemma DecodeInt32RoundTrip(bs: ByteString)
    requires |bs| == 4
    ensures EncodeInt32(DecodeInt32(bs)) == bs
  {
    Pow256Values();
    FromLittleEndianRoundTrip(bs);
  }

  /** Every 8-byte string is the image of exactly one `long long`. */
  lemma DecodeInt64RoundTrip(bs: ByteString)
    requires |bs| == 8
    ensures EncodeInt64(DecodeInt64(bs)) == bs
  {
    Pow256Values();
    FromLittleEndianRoundTrip(bs);
  }

  /**
   * Conversion of an integer to `long long` modulo 2^64, as a C++20
   * conversion from an unsigned 64-bit value does; the model also takes it
   * for the overflow of `oldRow + 1`.
   */
  function WrapInt64(x: int): Int64
  {
    var m := x % TWO_64;
    if m >= TWO_63 then m - TWO_64 else m
  }

  /** The wrapped value is `x` itself when `x` fits, and always agrees with `x` modulo 2^64. */
  lemma WrapInt64Congruent(x: int)
    ensures MIN_INT64 <= x <= MAX_INT64 ==> WrapInt64(x) == x
    ensures (WrapInt64(x) - x) % TWO_64 == 0
  {
  }
}
