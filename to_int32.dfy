/** to_int32_t (src/detail/JSUtil.cpp:85-125): the ToInt32 operation of
    section 9.5 of ECMA-262 5.1, computed with integer operations on the
    64-bit IEEE-754 pattern of a double. The pattern is the input here; the
    int32 result is kept as the low 32 bits of a bv64 (AsInt32 reads it as a
    signed number, and read unsigned it is ToUint32). */
module NumberConversion {

  const Mask32: bv64 := 0xFFFF_FFFF
  const SignBit: bv64 := 0x8000_0000_0000_0000
  const MantissaMask: bv64 := 0x000F_FFFF_FFFF_FFFF
  const ImplicitOne: bv64 := 0x0010_0000_0000_0000
  const Bias: bv64 := 0x3ff

  /** The biased exponent field, bits 52..62. */
  function ExpField(bits: bv64): bv64
  {
    (bits >> 52) & 0x7ff
  }

  /** `>>` on a signed 64-bit integer: an arithmetic shift that fills with
      copies of the sign bit. */
  function Asr(x: bv64, k: bv64): bv64
    requires k < 64
  {
    (x >> k) | (if x & SignBit == 0 then 0 else !(0xFFFF_FFFF_FFFF_FFFF >> k))
  }

  /** Two's-complement negation of a 32-bit value. */
  function Negate32(r: bv64): bv64
  {
    (0 - r) & Mask32
  }

  /** to_int32_t as written. The C++ int32 arithmetic wraps modulo 2^32
      (`1 << 31`, `missingOne - 1` for exp == 31 and `-INT32_MIN` are
      undefined in C++; the usual wrap-around is what is modelled). */
  function ToInt32(bits: bv64): (r: bv64)
    ensures r <= Mask32
  {
    var e := ExpField(bits);
    if e < Bias || e > Bias + 83 then 0
    else
      var exp := e - Bias;
      var shifted: bv64 := if exp > 52 then bits << (exp - 52) else Asr(bits, 52 - exp);
      var result: bv64 := shifted & Mask32;
      var fixed: bv64 := if exp < 32 then ReinsertImplicitOne(result, exp) else result;
      if bits & SignBit != 0 then Negate32(fixed) else fixed
  }

  /** The `exp < 32` step of to_int32_t: keep the `exp` bits below the
      binary point's image, clear everything above them and put the implicit
      leading one of the significand back at bit `exp`. */
  function ReinsertImplicitOne(result: bv64, exp: bv64): bv64
    requires exp < 32
  {
    var missingOne: bv64 := 1 << exp;
    ((result & (missingOne - 1)) + missingOne) & Mask32
  }

  lemma KeepsBitsBelowExp(result: bv64, exp: bv64)
    requires exp < 32
    ensures ReinsertImplicitOne(result, exp) & ((1 << exp) - 1) == result & ((1 << exp) - 1)
  {
  }

  lemma SetsBitExp(result: bv64, exp: bv64)
    requires exp < 32
    ensures ReinsertImplicitOne(result, exp) & (1 << exp) == 1 << exp
  {
  }

  lemma ClearsBitsAboveExp(result: bv64, exp: bv64)
    requires exp < 32
    ensures ReinsertImplicitOne(result, exp) < (1 << exp) + (1 << exp)
  {
  }

  /** The result of the `exp < 32` step lies in [2^exp, 2^(exp+1)) and
      agrees with its input below bit exp. */
  lemma ReinsertsImplicitOne(result: bv64, exp: bv64)
    requires exp < 32
    ensures var r := ReinsertImplicitOne(result, exp);
            && r & ((1 << exp) - 1) == result & ((1 << exp) - 1)
            && r & (1 << exp) == 1 << exp
            && r < (1 << exp) + (1 << exp)
  {
    KeepsBitsBelowExp(result, exp);
    SetsBitExp(result, exp);
    ClearsBitsAboveExp(result, exp);
  }

  /** The 53-bit significand 1.f of a normal double. */
  function Significand(bits: bv64): bv64
  {
    (bits & MantissaMask) | ImplicitOne
  }

  /** The low 32 bits of the integer part of |x| for a finite x with
      |x| >= 1, whose value is 1.f * 2^x with x the unbiased exponent. For
      x <= 52 the integer part is 2^x plus the top x bits of the fraction;
      for x > 52 it is the significand times 2^(x - 52), a multiple of 2^32
      once x - 52 >= 32. */
  function IntegerPartLow32(bits: bv64): (m: bv64)
    requires Bias <= ExpField(bits)
    ensures m <= Mask32
  {
    var x := ExpField(bits) - Bias;
    if x <= 52 then ((1 << x) | ((bits & MantissaMask) >> (52 - x))) & Mask32
    else if x - 52 < 32 then (Significand(bits) << (x - 52)) & Mask32
    else 0
  }

  /** Section 9.5 of ECMA-262 5.1, stated on the decoded double: NaN, the
      infinities (exponent field all ones), the zeros and denormals
      (exponent field 0) and every magnitude below 1 give 0; otherwise the
      integer part of |x| modulo 2^32, negated when x is negative. */
  function EcmaToInt32(bits: bv64): (r: bv64)
    ensures r <= Mask32
  {
    var e := ExpField(bits);
    if e == 0x7ff || e < Bias then 0
    else if bits & SignBit != 0 then Negate32(IntegerPartLow32(bits))
    else IntegerPartLow32(bits)
  }

  /** The signed reading of a 32-bit result. */
  function AsInt32(r: bv64): int
    requires r <= Mask32
  {
    if r < 0x8000_0000 then r as int else r as int - 0x1_0000_0000
  }

  /** Doubles with 1 <= |x| < 2 convert to 1 or -1. */
  lemma UnitRange(bits: bv64)
    requires ExpField(bits) == Bias
    ensures ToInt32(bits) == EcmaToInt32(bits)
    ensures AsInt32(ToInt32(bits)) == if bits & SignBit == 0 then 1 else -1
  {
  }

  /** Doubles in [2^52, 2^53), whose fraction bits are exactly the integer,
      need no shift. */
  lemma NoShiftRange(bits: bv64)
    requires ExpField(bits) == Bias + 52
    ensures ToInt32(bits) == EcmaToInt32(bits)
  {
  }

  /** The largest exponent that still reaches the low 32 bits. */
  lemma TopRange(bits: bv64)
    requires ExpField(bits) == Bias + 83
    ensures ToInt32(bits) == EcmaToInt32(bits)
  {
  }

  /** Out of range gives 0: a biased exponent below 0x3ff (the zeros, the
      denormals, every magnitude below 1) or above 0x3ff + 83 (NaN, the
      infinities and magnitudes of 2^84 or more). */
  lemma OutOfRangeIsZero(bits: bv64)
    ensures ExpField(bits) < Bias ==> ToInt32(bits) == 0
    ensures ExpField(bits) > Bias + 83 ==> ToInt32(bits) == 0
    ensures ExpField(bits) == 0x7ff ==> ToInt32(bits) == 0
    ensures ToInt32(0) == 0 && ToInt32(SignBit) == 0
  {
    assert ExpField(0) == 0 && ExpField(SignBit) == 0;
  }

  /** Truncation toward zero on the patterns of 123, 123.4, -123 and 21/7,
      in agreement with the reference. */
  lemma TruncatesTowardZero()
    ensures ToInt32(0x405E_D999_9999_999A) == EcmaToInt32(0x405E_D999_9999_999A)
    ensures ToInt32(0xC05E_C000_0000_0000) == EcmaToInt32(0xC05E_C000_0000_0000)
    ensures AsInt32(ToInt32(0x405E_C000_0000_0000)) == 123
    ensures AsInt32(ToInt32(0x405E_D999_9999_999A)) == 123
    ensures AsInt32(ToInt32(0xC05E_C000_0000_0000)) == -123
    ensures AsInt32(ToInt32(0x4008_0000_0000_0000)) == 3
  {
  }
}
