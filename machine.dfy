// The machine values the C# source computes with: 32-bit two's-complement
// integers (unchecked, so arithmetic wraps), bytes, and IEEE-754 single
// precision floats, the latter represented by their bit patterns.
module Machine {

  const TWO_8: int := 0x100
  const TWO_16: int := 0x1_0000
  const TWO_24: int := 0x100_0000
  const TWO_31: int := 0x8000_0000
  const TWO_32: int := 0x1_0000_0000

  type Int32 = x: int | -0x8000_0000 <= x < 0x8000_0000
  type UInt32 = x: int | 0 <= x < 0x1_0000_0000
  type Byte = x: int | 0 <= x < 0x100

  const INT_MAX: Int32 := 0x7fff_ffff
  const INT_MIN: Int32 := -0x8000_0000

  /** The value an unchecked C# int expression yields for the mathematical value x. */
  function Wrap32(x: int): (r: Int32)
    ensures -TWO_31 <= x < TWO_31 ==> r == x
  {
    (x + TWO_31) % TWO_32 - TWO_31
  }

  /** The value an unchecked C# uint expression yields for the mathematical value x. */
  function WrapU32(x: int): (r: UInt32)
    ensures (r - x) % TWO_32 == 0
    ensures 0 <= x < TWO_32 ==> r == x
  {
    x % TWO_32
  }

  /** `(uint)v`: the unsigned reading of the same 32 bits. */
  function Unsigned(v: Int32): (u: UInt32)
    ensures (u - v) % TWO_32 == 0
    ensures 0 <= v ==> u == v
  {
    if v < 0 then v + TWO_32 else v
  }

  /** `(int)u`: the signed reading of the same 32 bits. */
  function Signed(u: UInt32): (v: Int32)
    ensures Unsigned(v) == u
  {
    if u >= TWO_31 then u - TWO_32 else u
  }

  lemma SignedUnsigned(v: Int32)
    ensures Signed(Unsigned(v)) == v
  {
  }

  /** Two wrapped values agree exactly when their arguments are congruent modulo 2^32. */
  lemma Wrap32Congruent(x: int, y: int)
    requires (x - y) % TWO_32 == 0
    ensures Wrap32(x) == Wrap32(y)
  {
    var k := (x - y) / TWO_32;
    assert x == y + k * TWO_32;
    assert (x + TWO_31) % TWO_32 == (y + TWO_31 + k * TWO_32) % TWO_32;
    ModMultiple(y + TWO_31, k);
  }

  /** Wrap32 subtracts the multiple of 2^32 that brings x into range. */
  lemma Wrap32Shift(x: int, k: int)
    requires -TWO_31 <= x - k * TWO_32 < TWO_31
    ensures Wrap32(x) == x - k * TWO_32
  {
    DivUnique(x + TWO_31, TWO_32, k, x + TWO_31 - k * TWO_32);
  }

  /** Unchecked subtraction is undone by unchecked addition of the same value. */
  lemma WrapSubAdd(a: Int32, b: Int32)
    ensures Wrap32(Wrap32(a - b) + b) == a
  {
    Wrap32Congruent(Wrap32(a - b) + b, a);
  }

  /** Unchecked addition is undone by unchecked subtraction of the same value. */
  lemma WrapAddSub(d: Int32, b: Int32)
    ensures Wrap32(Wrap32(d + b) - b) == d
  {
    Wrap32Congruent(Wrap32(d + b) - b, d);
  }

  lemma ModMultiple(a: int, k: int)
    ensures (a + k * TWO_32) % TWO_32 == a % TWO_32
  {
  }

  /** Byte k (0 = least significant) of the 32-bit pattern of v. */
  function ByteOf(v: Int32, k: nat): Byte
    requires k < 4
  {
    var u := Unsigned(v);
    if k == 0 then u % TWO_8
    else if k == 1 then (u / TWO_8) % TWO_8
    else if k == 2 then (u / TWO_16) % TWO_8
    else u / TWO_24
  }

  /** The int whose bytes, least significant first, are b0..b3. */
  function Assemble(b0: Byte, b1: Byte, b2: Byte, b3: Byte): Int32
  {
    Signed(b0 + TWO_8 * b1 + TWO_16 * b2 + TWO_24 * b3)
  }

  lemma UnsignedDigits(u: UInt32)
    ensures u == u % TWO_8 + TWO_8 * ((u / TWO_8) % TWO_8)
                 + TWO_16 * ((u / TWO_16) % TWO_8) + TWO_24 * (u / TWO_24)
    ensures u / TWO_24 < TWO_8
  {
    var q1 := u / TWO_8;
    var q2 := q1 / TWO_8;
    var q3 := q2 / TWO_8;
    var r0, r1, r2 := u % TWO_8, q1 % TWO_8, q2 % TWO_8;
    assert u == r0 + TWO_8 * q1;
    assert q1 == r1 + TWO_8 * q2;
    assert q2 == r2 + TWO_8 * q3;
    DivUnique(u, TWO_16, q2, r0 + TWO_8 * r1);
    DivUnique(u, TWO_24, q3, r0 + TWO_8 * r1 + TWO_16 * r2);
  }

  lemma DivUnique(u: int, d: nat, q: int, r: int)
    requires 0 < d && 0 <= r < d && u == d * q + r
    ensures u / d == q && u % d == r
  {
    var q0, r0 := u / d, u % d;
    assert d * (q0 - q) == r - r0;
    SmallMultipleIsZero(d, q0 - q);
  }

  /** The only multiple of d strictly between -d and d is 0. */
  lemma SmallMultipleIsZero(d: nat, k: int)
    requires 0 - d < d * k < d
    ensures k == 0
  {
  }

  /** Cancelling a non-negative factor from a strict product inequality. */
  lemma MulCancelLess(a: int, b: int, c: nat)
    requires a * c < b * c
    ensures a < b
  {
  }

  /** Splitting an int into bytes and assembling them again gives the int back. */
  lemma AssembleBytes(v: Int32)
    ensures Assemble(ByteOf(v, 0), ByteOf(v, 1), ByteOf(v, 2), ByteOf(v, 3)) == v
  {
    UnsignedDigits(Unsigned(v));
  }

  /** Assembling bytes and splitting the result gives the bytes back. */
  lemma BytesOfAssemble(b0: Byte, b1: Byte, b2: Byte, b3: Byte)
    ensures var v := Assemble(b0, b1, b2, b3);
      ByteOf(v, 0) == b0 && ByteOf(v, 1) == b1 && ByteOf(v, 2) == b2 && ByteOf(v, 3) == b3
  {
    var u := b0 + TWO_8 * b1 + TWO_16 * b2 + TWO_24 * b3;
    assert Unsigned(Signed(u)) == u;
    DivUnique(u, TWO_8, b1 + TWO_8 * b2 + TWO_16 * b3, b0);
    DivUnique(u, TWO_16, b2 + TWO_8 * b3, b0 + TWO_8 * b1);
    DivUnique(u, TWO_24, b3, b0 + TWO_8 * b1 + TWO_16 * b2);
    DivUnique(b1 + TWO_8 * b2 + TWO_16 * b3, TWO_8, b2 + TWO_8 * b3, b1);
    DivUnique(b2 + TWO_8 * b3, TWO_8, b3, b2);
  }

  function Abs(x: int): nat { if x < 0 then -x else x }

  /** C# `a / b` on ints: the quotient truncated toward zero (Dafny's `/` is Euclidean). */
  function TDiv(a: int, b: int): (q: int)
    requires b != 0
    ensures Abs(a - q * b) < Abs(b)
    ensures a == 0 || a - q * b == 0 || (a < 0 <==> a - q * b < 0)
  {
    if (a >= 0) == (b > 0) then Abs(a) / Abs(b) else -(Abs(a) / Abs(b))
  }

  // ---------------------------------------------------------------------
  // IEEE-754 single precision, as a bit pattern

  /** A C# `float`, represented by the bits `BitConverter` reinterprets. */
  datatype Float32 = Float32(bits: Int32)

  /** The bits below the sign bit: exponent and mantissa. */
  function Magnitude(f: Float32): (m: nat)
    ensures m < TWO_31
  {
    if f.bits >= 0 then f.bits else f.bits + TWO_31
  }

  const EXPONENT_ALL_ONES: int := 0x7f80_0000

  predicate IsNaN(f: Float32) { Magnitude(f) > EXPONENT_ALL_ONES }

  /** Neither NaN nor an infinity (`float.IsNaN(x) || float.IsInfinity(x)` is false). */
  predicate IsFinite(f: Float32) { Magnitude(f) < EXPONENT_ALL_ONES }

  /** A position on the real line for a non-NaN float; +0 and -0 share position 0. */
  function OrderKey(f: Float32): int
  {
    if f.bits >= 0 then f.bits else -(Magnitude(f) as int)
  }

  /** The C# comparison `a < b`; false when either side is NaN. */
  predicate Less(a: Float32, b: Float32)
  {
    !IsNaN(a) && !IsNaN(b) && OrderKey(a) < OrderKey(b)
  }

  /** The C# comparison `a == b`; false when either side is NaN, true for +0 == -0. */
  predicate NumEq(a: Float32, b: Float32)
  {
    !IsNaN(a) && !IsNaN(b) && OrderKey(a) == OrderKey(b)
  }

  /** `Single.Equals`: `==`, except that NaN equals NaN. */
  predicate FloatEquals(a: Float32, b: Float32)
  {
    NumEq(a, b) || (IsNaN(a) && IsNaN(b))
  }

  /** `x > 0f`. */
  predicate Positive(f: Float32) { Less(Float32(0), f) }

  /** `x <= 0f`. */
  predicate AtMostZero(f: Float32) { Less(f, Float32(0)) || NumEq(f, Float32(0)) }

  lemma PositiveBits(f: Float32)
    ensures Positive(f) <==> 0 < f.bits <= EXPONENT_ALL_ONES
  {
  }

  /** A NaN is neither positive nor at most zero: the two precision tests of the source differ on it. */
  lemma NaNNeitherSign(f: Float32)
    requires IsNaN(f)
    ensures !Positive(f) && !AtMostZero(f)
  {
  }

  lemma AtMostZeroIsNotPositive(f: Float32)
    requires !IsNaN(f)
    ensures AtMostZero(f) <==> !Positive(f)
  {
  }

  /** Powers of two 2^-e for small e, as floats: exponent field 127 - e, mantissa 0. */
  function PowerOfTwoInverse(e: nat): (f: Float32)
    requires 0 < e < 127
    ensures IsFinite(f) && Positive(f)
  {
    Float32((127 - e) * 0x80_0000)
  }
}
