// The float arithmetic of the MG2 codec. Comparisons, `Math.Min`/`Math.Max`
// and the value an int takes when C# converts it to float are exact here, on
// the bit patterns and on the integers. The arithmetic itself (+, -, *, /,
// `Math.Floor` with the cast to int, and the `Math.Pow`/`Math.Ceiling` grid
// sizing) is carried by an `Arith` value: every MG2 operation takes one, so
// what is proved holds whatever IEEE rounding those operations perform.
module FloatArith {
  import opened Machine

  datatype Arith = Arith(
    add: (Float32, Float32) -> Float32,
    sub: (Float32, Float32) -> Float32,
    mul: (Float32, Float32) -> Float32,
    div: (Float32, Float32) -> Float32,
    /** `(float)i`, as a float operand. */
    ofInt: Int32 -> Float32,
    /** `(int)Math.Floor(x)`. */
    floorToInt: Float32 -> Int32,
    /** `(int)Math.Ceiling(Math.Pow(100f * vc, 1f / 3f) * factor)`: the grid resolution along an
        axis that has the share `factor` of the bounding box's extent. */
    wantedDivision: (int, Float32) -> Int32,
    /** `(float)Math.Sqrt(x)`. */
    sqrt: Float32 -> Float32)

  /** Three floats: a normal, or the three coordinates of a vertex. */
  type Vec3 = (Float32, Float32, Float32)

  /** The angular normal coding of MG2, per vertex, past the smooth normal it is relative to.
      `toInts(n, s, precision)` is the magnitude, phi and theta `makeNormalDeltas` stores for
      the normal n of a vertex whose smooth normal is s; `toNormal(d, s, precision)` is the
      normal `restoreNormals` rebuilds from those three ints. Both go through
      `makeNormalCoordSys`, `Math.Acos`, `Math.Atan2`, `Math.Sin` and `Math.Cos` in double
      precision. */
  datatype Angular = Angular(
    toInts: (Vec3, Vec3, Float32) -> (Int32, Int32, Int32),
    toNormal: ((Int32, Int32, Int32), Vec3, Float32) -> Vec3)

  const ONE: Float32 := Float32(0x3F80_0000)
  const HALF: Float32 := Float32(0x3F00_0000)
  const TWO: Float32 := Float32(0x4000_0000)
  /** `1e-10f`. */
  const EPS_10: Float32 := Float32(0x2EDB_E6FF)
  /** `1e-20f`. */
  const EPS_20: Float32 := Float32(0x1E3C_E508)
  /** `1e-30f`. */
  const TINY: Float32 := Float32(0x0DA2_4260)

  /** Unary minus: the sign bit flipped, exact for every float. */
  function Negate(f: Float32): (r: Float32)
    ensures IsNaN(r) <==> IsNaN(f)
    ensures !IsNaN(f) ==> OrderKey(r) == -OrderKey(f)
  {
    Float32(if f.bits >= 0 then f.bits as int - TWO_31 else f.bits as int + TWO_31)
  }

  /** Negating twice gives back the same bits. */
  lemma NegateNegate(f: Float32)
    ensures Negate(Negate(f)) == f
  {
  }

  /** `(int)Math.Floor(scale * x + 0.5f)`: x in fixed point with step 1/scale. */
  function Quantize(arith: Arith, scale: Float32, x: Float32): Int32
  {
    arith.floorToInt(arith.add(arith.mul(scale, x), HALF))
  }

  /** `Math.Min(a, b)` on floats: the smaller one, and NaN when either is NaN. */
  function FloatMin(a: Float32, b: Float32): (r: Float32)
    ensures r == a || r == b
    ensures IsNaN(a) || IsNaN(b) <==> IsNaN(r)
    ensures !IsNaN(r) ==> !Less(a, r) && !Less(b, r)
  {
    if Less(a, b) then a else if IsNaN(a) then a else b
  }

  /** `Math.Max(a, b)` on floats: the larger one, and NaN when either is NaN. */
  function FloatMax(a: Float32, b: Float32): (r: Float32)
    ensures r == a || r == b
    ensures IsNaN(a) || IsNaN(b) <==> IsNaN(r)
    ensures !IsNaN(r) ==> !Less(r, a) && !Less(r, b)
  {
    if Less(b, a) then a else if IsNaN(a) then a else b
  }

  // ---------------------------------------------------------------------
  // The int-to-float conversion, as the integer the float stands for

  function Pow2(k: nat): (r: nat)
    ensures r >= 1
  {
    if k == 0 then 1 else 2 * Pow2(k - 1)
  }

  /** How many low bits of v do not fit in a float's 24-bit significand. */
  function DroppedBits(v: nat): nat
  {
    if v <= TWO_24 then 0 else 1 + DroppedBits(v / 2)
  }

  /** v rounded to a multiple of unit, halfway cases to the even multiple. */
  function RoundToMultiple(v: nat, unit: nat): nat
    requires unit >= 1
  {
    var q := v / unit;
    var rem := v % unit;
    if 2 * rem < unit || (2 * rem == unit && q % 2 == 0) then q * unit else (q + 1) * unit
  }

  /** The value of `(float)v` for an int v: v rounded to nearest-even at 24 significant bits. */
  function SingleOf(v: int): int
  {
    if v >= 0 then RoundToMultiple(v, Pow2(DroppedBits(v))) as int
    else -(RoundToMultiple(-v, Pow2(DroppedBits(-v))) as int)
  }

  /** Every int of magnitude at most 2^24 converts to float exactly. */
  lemma SingleOfSmall(v: int)
    requires -TWO_24 <= v <= TWO_24
    ensures SingleOf(v) == v
  {
  }

  /** 2^24 + 1 is the first int the conversion does not keep: it rounds to 2^24. */
  lemma SingleOfFirstInexact()
    ensures SingleOf(TWO_24 + 1) == TWO_24 == SingleOf(TWO_24)
  {
    assert DroppedBits(TWO_24 + 1) == 1 by {
      assert DroppedBits((TWO_24 + 1) / 2) == 0;
    }
  }

  /** int.MaxValue converts to 2^31, a value no int has. */
  lemma SingleOfIntMax()
    ensures SingleOf(INT_MAX as int) == TWO_31
  {
    var v := INT_MAX as int;
    assert DroppedBits(v / 128) == 0;
    assert DroppedBits(v) == 7 by {
      assert v / 2 / 2 / 2 / 2 / 2 / 2 / 2 == v / 128;
    }
    assert Pow2(7) == 128;
  }
}
