/**
 Clipping and saturating arithmetic: `av_clipl_int32_c`, the 32-bit `av_sat_*` functions,
 and the portable paths of `av_sat_add64_c` and `av_sat_sub64_c`.

 Signed values are integers in their type's range; `Raw64` and `Signed64` are the two's
 complement views of one 64-bit word, on which the bit operations act.
 */
module Saturate {
  import opened Bits

  type Int32 = v: int | -0x8000_0000 <= v < 0x8000_0000
  type Int64 = v: int | -0x8000_0000_0000_0000 <= v < 0x8000_0000_0000_0000

  const INT64_MAX: int := 0x7FFF_FFFF_FFFF_FFFF
  const INT64_MIN: int := -0x8000_0000_0000_0000

  function Distance(v: int, w: int): nat {
    if v < w then w - v else v - w
  }

  /** What saturation means: the nearest value of the range. */
  function Clamp(v: int, lo: int, hi: int): int {
    if v < lo then lo else if v > hi then hi else v
  }

  function Clamp32(v: int): Int32 {
    Clamp(v, -0x8000_0000, 0x7FFF_FFFF)
  }

  function Clamp64(v: int): Int64 {
    Clamp(v, -0x8000_0000_0000_0000, 0x7FFF_FFFF_FFFF_FFFF)
  }

  /** Of the values of the range, it is the nearest one. */
  lemma Clamp32IsNearest(v: int, w: Int32)
    ensures w != Clamp32(v) ==> Distance(v, w) > Distance(v, Clamp32(v))
  {
  }

  lemma Clamp64IsNearest(v: int, w: Int64)
    ensures w != Clamp64(v) ==> Distance(v, w) > Distance(v, Clamp64(v))
  {
  }

  /** The word of a signed value, or of any result modulo 2^64. */
  function Raw64(v: int): (w: nat)
    ensures w < 0x1_0000_0000_0000_0000
  {
    v % 0x1_0000_0000_0000_0000
  }

  function Signed64(w: nat): Int64
    requires w < 0x1_0000_0000_0000_0000
  {
    if w < 0x8000_0000_0000_0000 then w else w - 0x1_0000_0000_0000_0000
  }

  /** `(int32_t)` of a 64-bit value. */
  function ToInt32(v: int): Int32 {
    var w := v % 0x1_0000_0000;
    if w < 0x8000_0000 then w else w - 0x1_0000_0000
  }

  /** `v >> 63` of a signed value: minus one or zero. */
  function SignMask(v: Int64): int {
    if v < 0 then -1 else 0
  }

  lemma Limit64()
    ensures Shl(1, 64) == 0x1_0000_0000_0000_0000
    ensures Shl(1, 63) == 0x8000_0000_0000_0000
    ensures Shl(1, 32) == 0x1_0000_0000
  {
    WordLimit();
    ShlShl(1, 32, 31);
    ShlShl(1, 31, 32);
    ShlSix(0x1_0000_0000);
    ShlShl(0x1_0000_0000, 6, 6);
    ShlSix(0x40_0000_0000);
    ShlShl(0x1_0000_0000, 12, 6);
    ShlSix(0x1000_0000_0000);
    ShlShl(0x1_0000_0000, 18, 6);
    ShlSix(0x4_0000_0000_0000);
    ShlShl(0x1_0000_0000, 24, 6);
    ShlSix(0x100_0000_0000_0000);
    assert Shl(0x1_0000_0000, 31) == 2 * Shl(0x1_0000_0000, 30);
    assert Shl(1, 64) == 2 * Shl(1, 63);
  }

  lemma UpperHalf(w: nat)
    ensures Shr(w, 32) == w / 0x1_0000_0000
  {
    WordLimit();
    ShrIsDiv(w, 32);
  }

  lemma AllOfHalf(h: nat, k: nat)
    requires h < Shl(1, k)
    ensures And(h, Shl(1, k) - 1) == h
  {
    AndMask(h, k);
    LowIsMod(h, k);
    DivModIs(h, Shl(1, k), 0, h);
  }

  /** The bits above the low 32 of a word: `w & ~UINT64_C(0xFFFFFFFF)`. */
  lemma HighBits(w: nat)
    requires w < 0x1_0000_0000_0000_0000
    ensures And(w, 0xFFFF_FFFF_0000_0000) != 0 <==> w >= 0x1_0000_0000
  {
    var h := Shr(w, 32);
    UpperHalf(w);
    ShlMul(0xFFFF_FFFF);
    AndShifted(w, 0xFFFF_FFFF, 32);
    WordLimit();
    AllOfHalf(h, 32);
    if h == 0 {
      ShlZero(32);
    } else {
      ShlPositive(h, 32);
    }
  }

  lemma ShlMul(a: nat)
    ensures Shl(a, 32) == 0x1_0000_0000 * a
  {
    ShlSix(a);
    ShlShl(a, 6, 6);
    ShlSix(64 * a);
    ShlShl(a, 12, 6);
    ShlSix(0x1000 * a);
    ShlShl(a, 18, 6);
    ShlSix(0x4_0000 * a);
    ShlShl(a, 24, 6);
    ShlSix(0x100_0000 * a);
    assert Shl(a, 31) == 2 * Shl(a, 30);
    assert Shl(a, 32) == 2 * Shl(a, 31);
  }

  /** `(a >> 63) ^ max`: `max` for a positive `a`, its complement for a negative one. */
  lemma FlipMax(a: Int64, max: nat)
    requires max < 0x8000_0000_0000_0000
    ensures Xor(Raw64(SignMask(a)), max) < 0x1_0000_0000_0000_0000
    ensures Signed64(Xor(Raw64(SignMask(a)), max)) == if a < 0 then -1 - max else max
  {
    if a < 0 {
      Limit64();
      XorOnes(max, 64);
    }
  }

  /** The biased value leaves the low 32 bits exactly when `a` is out of range. */
  lemma BiasTest(a: Int64)
    ensures Raw64(Raw64(a) + 0x8000_0000) >= 0x1_0000_0000 <==> !(-0x8000_0000 <= a < 0x8000_0000)
  {
  }

  lemma Narrow(v: int)
    requires -0x8000_0000 <= v < 0x8000_0000
    ensures ToInt32(v) == v
  {
  }

  /** `av_clipl_int32_c` clamps to the 32-bit range. */
  method ClipInt32(a: Int64) returns (r: Int32)
    ensures r == Clamp32(a)
  {
    var shifted := Raw64(Raw64(a) + 0x8000_0000);
    HighBits(shifted);
    BiasTest(a);
    if And(shifted, 0xFFFF_FFFF_0000_0000) != 0 {
      r := ClipSign(a);
    } else {
      Narrow(a);
      r := ToInt32(a);
    }
  }

  /** `(a >> 63) ^ max`, as a signed value. */
  function Flipped(a: Int64, max: nat): (r: int)
    requires max < 0x8000_0000_0000_0000
    ensures r == if a < 0 then -1 - max else max
  {
    FlipMax(a, max);
    Signed64(Xor(Raw64(SignMask(a)), max))
  }

  /** The out-of-range result: `(int32_t)((a >> 63) ^ 0x7FFFFFFF)`. */
  function ClipSign(a: Int64): (r: Int32)
    ensures r == if a < 0 then -0x8000_0000 else 0x7FFF_FFFF
  {
    ToInt32(Flipped(a, 0x7FFF_FFFF))
  }

  method SatAdd32(a: Int32, b: Int32) returns (r: Int32)
    ensures r == Clamp32(a as int + b as int)
  {
    r := ClipInt32(a as int + b as int);
  }

  method SatSub32(a: Int32, b: Int32) returns (r: Int32)
    ensures r == Clamp32(a as int - b as int)
  {
    r := ClipInt32(a as int - b as int);
  }

  /** Both stages saturate. */
  method SatDAdd32(a: Int32, b: Int32) returns (r: Int32)
    ensures r == Clamp32(a as int + Clamp32(2 * (b as int)))
  {
    var twice := SatAdd32(b, b);
    r := SatAdd32(a, twice);
  }

  method SatDSub32(a: Int32, b: Int32) returns (r: Int32)
    ensures r == Clamp32(a as int - Clamp32(2 * (b as int)))
  {
    var twice := SatAdd32(b, b);
    r := SatSub32(a, twice);
  }

  /** The top bit of a word is the sign of its value. */
  lemma SignBit(w: nat)
    requires w < 0x1_0000_0000_0000_0000
    ensures Signed64(w) < 0 <==> Shr(w, 63) % 2 == 1
  {
    Limit64();
    ShrIsDiv(w, 63);
  }

  /** `(int64_t)(a^b | ~s^b)` */
  function OverflowWord(a: Int64, b: Int64, s: Int64): (w: nat)
    ensures w < 0x1_0000_0000_0000_0000
  {
    Limit64();
    XorBound(Raw64(a), Raw64(b), 64);
    XorBound(0xFFFF_FFFF_FFFF_FFFF, Raw64(s), 64);
    XorBound(Xor(0xFFFF_FFFF_FFFF_FFFF, Raw64(s)), Raw64(b), 64);
    XorBound(Xor(Raw64(a), Raw64(b)), Xor(Xor(0xFFFF_FFFF_FFFF_FFFF, Raw64(s)), Raw64(b)), 64);
    Or(Xor(Raw64(a), Raw64(b)), Xor(Xor(0xFFFF_FFFF_FFFF_FFFF, Raw64(s)), Raw64(b)))
  }

  lemma SignOfRaw(v: Int64)
    ensures Signed64(Raw64(v)) == v
    ensures v < 0 <==> Shr(Raw64(v), 63) % 2 == 1
  {
    SignBit(Raw64(v));
  }

  lemma TopBitOfOnes()
    ensures Shr(0xFFFF_FFFF_FFFF_FFFF, 63) % 2 == 1
  {
    SignBit(0xFFFF_FFFF_FFFF_FFFF);
  }

  /** The word is non-negative exactly when `a` and `b` agree in sign and `s` does not. */
  lemma OverflowSign(a: Int64, b: Int64, s: Int64)
    ensures Signed64(OverflowWord(a, b, s)) >= 0 <==> ((a < 0) == (b < 0)) && ((s < 0) != (b < 0))
  {
    var x, n := Xor(Raw64(a), Raw64(b)), Xor(0xFFFF_FFFF_FFFF_FFFF, Raw64(s));
    SignBit(OverflowWord(a, b, s));
    SignOfRaw(a);
    SignOfRaw(b);
    SignOfRaw(s);
    TopBitOfOnes();
    XorBit(Raw64(a), Raw64(b), 63);
    XorBit(0xFFFF_FFFF_FFFF_FFFF, Raw64(s), 63);
    XorBit(n, Raw64(b), 63);
    OrBit(x, Xor(n, Raw64(b)), 63);
  }

  /** The wrapped sum changes sign exactly when the sum does not fit. */
  lemma WrappedSum(a: Int64, b: Int64, s: Int64)
    requires s == Signed64(Raw64(Raw64(a) + Raw64(b)))
    ensures ((a < 0) == (b < 0)) && ((s < 0) != (b < 0)) <==> !(INT64_MIN <= a as int + b as int <= INT64_MAX)
    ensures INT64_MIN <= a as int + b as int <= INT64_MAX ==> s == a as int + b as int
  {
  }

  /** `av_sat_add64_c` without the compiler's overflow builtin. */
  method SatAdd64(a: Int64, b: Int64) returns (r: Int64)
    ensures r == Clamp64(a as int + b as int)
  {
    var s := Signed64(Raw64(Raw64(a) + Raw64(b)));
    OverflowSign(a, b, s);
    WrappedSum(a, b, s);
    if Signed64(OverflowWord(a, b, s)) >= 0 {
      r := SaturatedSign(b);
    } else {
      r := s;
    }
  }

  /** `INT64_MAX ^ (b >> 63)` */
  function SaturatedSign(b: Int64): (r: Int64)
    ensures r == if b < 0 then INT64_MIN else INT64_MAX
  {
    Flipped(b, 0x7FFF_FFFF_FFFF_FFFF)
  }

  /** `av_sat_sub64_c` without the builtin; the two tests do not overflow themselves. */
  method SatSub64(a: Int64, b: Int64) returns (r: Int64)
    ensures r == Clamp64(a as int - b as int)
  {
    if b <= 0 {
      var limit: Int64 := INT64_MAX + b as int;
      if a >= limit {
        return INT64_MAX;
      }
    }
    if b >= 0 {
      var limit: Int64 := INT64_MIN + b as int;
      if a <= limit {
        return INT64_MIN;
      }
    }
    return a as int - b as int;
  }
}
