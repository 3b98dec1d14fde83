// Grid: the space subdivision the MG2 codec quantises vertices against, an
// axis-aligned box (min, max) cut into division[i] cells along axis i. Its
// arrays are readonly, so a grid is a value here.
module Grids {
  import opened Machine
  import opened Wrappers
  import opened ByteCoding
  import opened CtmInput
  import opened CtmOutput
  import opened FloatArith

  datatype Grid = Grid(min: seq<Float32>, max: seq<Float32>, division: seq<Int32>)

  /** Three entries in each array. */
  predicate Shaped(g: Grid)
  {
    |g.min| == 3 && |g.max| == 3 && |g.division| == 3
  }

  /** The divisions from index i on are all at least 1. */
  function DivisionsFrom(d: seq<Int32>, i: nat): bool
    requires i <= |d|
    decreases |d| - i
  {
    i == |d| || (d[i] >= 1 && DivisionsFrom(d, i + 1))
  }

  /** No axis from index i on has its maximum below its minimum. */
  function BoundsFrom(g: Grid, i: nat): bool
    requires Shaped(g) && i <= 3
    decreases 3 - i
  {
    i == 3 || (!Less(g.max[i], g.min[i]) && BoundsFrom(g, i + 1))
  }

  lemma {:induction false} DivisionsFromAll(d: seq<Int32>, i: nat)
    requires i <= |d|
    ensures DivisionsFrom(d, i) <==> forall k :: i <= k < |d| ==> d[k] >= 1
    decreases |d| - i
  {
    if i < |d| {
      DivisionsFromAll(d, i + 1);
    }
  }

  lemma {:induction false} BoundsFromAll(g: Grid, i: nat)
    requires Shaped(g) && i <= 3
    ensures BoundsFrom(g, i) <==> forall k :: i <= k < 3 ==> !Less(g.max[k], g.min[k])
    decreases 3 - i
  {
    if i < 3 {
      BoundsFromAll(g, i + 1);
    }
  }

  /** `checkIntegrity`: three entries per array, every division at least 1, and no maximum below
      its minimum (a NaN bound compares false, so it passes). */
  function CheckIntegrity(g: Grid): (r: bool)
    ensures r <==> Shaped(g)
                   && (forall i :: 0 <= i < 3 ==> g.division[i] >= 1)
                   && (forall i :: 0 <= i < 3 ==> !Less(g.max[i], g.min[i]))
  {
    if |g.min| != 3 then false
    else if |g.max| != 3 then false
    else if |g.division| != 3 then false
    else
      DivisionsFromAll(g.division, 0);
      BoundsFromAll(g, 0);
      DivisionsFrom(g.division, 0) && BoundsFrom(g, 0)
  }

  /** `fromStream`: three floats of min, three of max, three ints of division. */
  function GridAt(data: seq<Byte>, pos: nat): Result<Read<Grid>>
  {
    var min :- FloatsAt(data, pos, 3);
    var max :- FloatsAt(data, min.next, 3);
    var division :- IntsAt(data, max.next, 3);
    Success(Read(Grid(min.value, max.value, division.value), division.next))
  }

  /** `writeToStream`: min, max and division in that order. */
  function GridBytes(g: Grid): seq<Byte>
  {
    LittleEndianInts(FloatBits(g.min)) + LittleEndianInts(FloatBits(g.max)) + LittleEndianInts(g.division)
  }

  method FromStream(input: CtmInputStream) returns (r: Result<Grid>)
    modifies input
    ensures Tracks(r, GridAt(input.data, old(input.pos)), input.pos)
  {
    var min :- input.ReadLittleFloatArray(3);
    var max :- input.ReadLittleFloatArray(3);
    var division :- input.ReadLittleIntArray(3);
    return Success(Grid(min, max, division));
  }

  method WriteToStream(g: Grid, output: CtmOutputStream)
    modifies output
    ensures output.written == old(output.written) + GridBytes(g)
  {
    ghost var w0 := output.written;
    output.WriteLittleFloatArray(g.min);
    output.WriteLittleFloatArray(g.max);
    output.WriteLittleIntArray(g.division);
    ghost var a, b := LittleEndianInts(FloatBits(g.min)), LittleEndianInts(FloatBits(g.max));
    Associative(w0, a, b);
    Associative(w0, a + b, LittleEndianInts(g.division));
  }

  /** A grid written by `writeToStream` is read back by `fromStream`, and the stream ends up just
      after its 36 bytes. */
  lemma GridRoundTrip(data: seq<Byte>, pos: nat, g: Grid)
    requires Shaped(g)
    requires At(data, pos, GridBytes(g))
    ensures GridAt(data, pos) == Success(Read(g, pos + 36))
  {
    var a, b, c := LittleEndianInts(FloatBits(g.min)), LittleEndianInts(FloatBits(g.max)), LittleEndianInts(g.division);
    assert GridBytes(g) == a + (b + c);
    AtSplit(data, pos, a, b + c);
    AtSplit(data, pos + |a|, b, c);
    ReadLittleFloatArrayWritten(data, pos, g.min);
    ReadLittleFloatArrayWritten(data, pos + 12, g.max);
    ReadLittleIntArrayWritten(data, pos + 24, g.division);
  }

  /** `getSize`: the extent of each axis divided by its number of cells. */
  function GetSize(g: Grid, arith: Arith): (size: seq<Float32>)
    requires Shaped(g)
    ensures |size| == 3
  {
    seq(3, i requires 0 <= i < 3 =>
      arith.div(arith.sub(g.max[i], g.min[i]), arith.ofInt(g.division[i])))
  }
}
