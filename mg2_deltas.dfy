// The integer layer of the MG2 codec, shared by its encoder and decoder:
//  - per-component delta coding (grid indices with stride 1, UV coordinates
//    with stride 2, attributes with stride 4) and the running sums that
//    undo it;
//  - the vertex X rule: X is stored relative to the previous vertex's X when
//    both lie in the same grid cell, and relative to the cell origin
//    otherwise;
//  - the flattening of a grid cell (x, y, z) to one int and its
//    decomposition back.
// All arithmetic is unchecked C# int arithmetic.
module Mg2Deltas {
  import opened Machine
  import opened Wrappers
  import opened FloatArith

  // ---------------------------------------------------------------------
  // Delta coding per component

  /** Each value minus the value k places before it; the first k values stay as they are. */
  function StrideDeltas(q: seq<Int32>, k: nat): (r: seq<Int32>)
    requires k >= 1
    ensures |r| == |q|
  {
    seq(|q|, p requires 0 <= p < |q| => if p < k then q[p] else Wrap32(q[p] as int - q[p - k] as int))
  }

  /** The running sums per component: each value plus the sum k places before it. */
  function StrideSums(d: seq<Int32>, k: nat): (r: seq<Int32>)
    requires k >= 1
    ensures |r| == |d|
    decreases |d|
  {
    if d == [] then []
    else
      var p := |d| - 1;
      var init := StrideSums(d[..p], k);
      init + [if p < k then d[p] else Wrap32(d[p] as int + init[p - k] as int)]
  }

  /** The sum at position p, in terms of the sums before it. */
  lemma {:induction false} StrideSumsAt(d: seq<Int32>, k: nat, p: nat)
    requires k >= 1 && p < |d|
    ensures StrideSums(d, k)[p] == if p < k then d[p] else Wrap32(d[p] as int + StrideSums(d, k)[p - k] as int)
    decreases |d|
  {
    if p < |d| - 1 {
      var m := |d| - 1;
      StrideSumsAt(d[..m], k, p);
      assert d[..m][p] == d[p];
      if p >= k {
        assert StrideSums(d, k)[p - k] == StrideSums(d[..m], k)[p - k];
      }
    }
  }

  /** A running sum kept per component (zero before the first row) gives the next sum when the
      next delta is added to it with wrap-around. */
  lemma RunningSum(d: seq<Int32>, k: nat, p: nat, prev: Int32)
    requires k >= 1 && p < |d|
    requires prev == if p < k then 0 else StrideSums(d, k)[p - k]
    ensures Wrap32(d[p] as int + prev as int) == StrideSums(d, k)[p]
  {
    StrideSumsAt(d, k, p);
  }

  /** The running sums undo the deltas: the decoder recovers exactly what the encoder had, under
      wrap-around too. */
  lemma StrideSumsDeltas(q: seq<Int32>, k: nat)
    requires k >= 1
    ensures StrideSums(StrideDeltas(q, k), k) == q
  {
    var d := StrideDeltas(q, k);
    var s := StrideSums(d, k);
    forall p | 0 <= p < |q| ensures s[p] == q[p] {
      SumsAgree(q, k, p);
    }
  }

  lemma {:induction false} SumsAgree(q: seq<Int32>, k: nat, p: nat)
    requires k >= 1 && p < |q|
    ensures StrideSums(StrideDeltas(q, k), k)[p] == q[p]
    decreases p
  {
    var d := StrideDeltas(q, k);
    StrideSumsAt(d, k, p);
    if p >= k {
      SumsAgree(q, k, p - k);
      WrapSubAdd(q[p], q[p - k]);
    }
  }

  /** And the deltas undo the running sums. */
  lemma StrideDeltasSums(d: seq<Int32>, k: nat)
    requires k >= 1
    ensures StrideDeltas(StrideSums(d, k), k) == d
  {
    var s := StrideSums(d, k);
    forall p | 0 <= p < |d| ensures StrideDeltas(s, k)[p] == d[p] {
      StrideSumsAt(d, k, p);
      if p >= k {
        WrapAddSub(d[p], s[p - k]);
      }
    }
  }

  // ---------------------------------------------------------------------
  // The vertex X rule

  /** The grid index vertex i is compared with: the previous vertex's, or 0x7fffffff for the first. */
  function PrevGrid(gs: seq<Int32>, i: nat): Int32
    requires i < |gs|
  {
    if i == 0 then INT_MAX else gs[i - 1]
  }

  /** The cell test of `makeVertexDeltas` as written: `prevGridIndex` is a float, so both grid
      indices are compared after conversion to float. */
  predicate SameCellAsWritten(g: Int32, prev: Int32)
  {
    SingleOf(g) == SingleOf(prev)
  }

  /** The cell test `restoreVertices` makes, and `makeVertexDeltas` evidently intends. */
  predicate SameCell(g: Int32, prev: Int32)
  {
    g == prev
  }

  /** Vertex n's stored X: its offset minus the previous vertex's offset when `same` says the
      previous vertex lies in its cell, and the offset itself otherwise. */
  function StoredX(gs: seq<Int32>, o: seq<Int32>, same: (Int32, Int32) -> bool, n: nat): Int32
    requires |o| == 3 * |gs| && n < |gs|
  {
    if same(gs[n], PrevGrid(gs, n)) then Wrap32(o[3 * n] as int - (if n == 0 then 0 else o[3 * n - 3]) as int)
    else o[3 * n]
  }

  /** The integer vertex table `makeVertexDeltas` fills: per vertex (in sorted order) its X, Y
      and Z offsets o from the cell origin, with X coded by `StoredX`. */
  function VertexDeltas(gs: seq<Int32>, o: seq<Int32>, same: (Int32, Int32) -> bool): (r: seq<Int32>)
    requires |o| == 3 * |gs|
    ensures |r| == |o|
    decreases |gs|
  {
    if gs == [] then []
    else
      var n := |gs| - 1;
      VertexDeltas(gs[..n], o[..3 * n], same) + [StoredX(gs, o, same, n), o[3 * n + 1], o[3 * n + 2]]
  }

  /** The offsets `restoreVertices` recovers from a stored table: X accumulates onto the previous
      vertex's X exactly when the grid index repeats; Y and Z are taken as stored. */
  function RestoredOffsets(gs: seq<Int32>, ints: seq<Int32>): (r: seq<Int32>)
    requires |ints| == 3 * |gs|
    ensures |r| == |ints|
    decreases |gs|
  {
    if gs == [] then []
    else
      var n := |gs| - 1;
      var init := RestoredOffsets(gs[..n], ints[..3 * n]);
      var x := if gs[n] == PrevGrid(gs, n) then Wrap32(ints[3 * n] as int + (if n == 0 then 0 else init[3 * n - 3]) as int)
               else ints[3 * n];
      init + [x, ints[3 * n + 1], ints[3 * n + 2]]
  }

  /** Decoding the table the corrected cell test produces gives back every offset. */
  lemma {:induction false} RestoredVertexDeltas(gs: seq<Int32>, o: seq<Int32>)
    requires |o| == 3 * |gs|
    ensures RestoredOffsets(gs, VertexDeltas(gs, o, SameCell)) == o
    decreases |gs|
  {
    if gs != [] {
      var n := |gs| - 1;
      var d := VertexDeltas(gs, o, SameCell);
      assert d[..3 * n] == VertexDeltas(gs[..n], o[..3 * n], SameCell);
      RestoredVertexDeltas(gs[..n], o[..3 * n]);
      assert gs[..n] == gs[..|gs| - 1];
      if n > 0 {
        assert PrevGrid(gs, n) == gs[n - 1];
      }
      if gs[n] == PrevGrid(gs, n) {
        WrapSubAdd(o[3 * n], if n == 0 then 0 else o[3 * n - 3]);
      }
      assert o == o[..3 * n] + [o[3 * n], o[3 * n + 1], o[3 * n + 2]];
    }
  }

  /** Grid indices of magnitude at most 2^24 convert to float exactly, and then the written cell
      test is the intended one. */
  predicate SmallGridIndices(gs: seq<Int32>)
  {
    forall i :: 0 <= i < |gs| ==> -TWO_24 <= gs[i] <= TWO_24
  }

  lemma {:induction false} VertexDeltasSmall(gs: seq<Int32>, o: seq<Int32>)
    requires |o| == 3 * |gs| && SmallGridIndices(gs)
    ensures VertexDeltas(gs, o, SameCellAsWritten) == VertexDeltas(gs, o, SameCell)
    decreases |gs|
  {
    if gs != [] {
      var n := |gs| - 1;
      assert SmallGridIndices(gs[..n]);
      VertexDeltasSmall(gs[..n], o[..3 * n]);
      StoredXSmall(gs, o, n);
    }
  }

  /** On small grid indices both cell tests store the same X. */
  lemma StoredXSmall(gs: seq<Int32>, o: seq<Int32>, n: nat)
    requires |o| == 3 * |gs| && n < |gs| && SmallGridIndices(gs)
    ensures StoredX(gs, o, SameCellAsWritten, n) == StoredX(gs, o, SameCell, n)
  {
    SingleOfSmall(gs[n]);
    if n == 0 {
      SingleOfIntMax();
    } else {
      SingleOfSmall(gs[n - 1]);
    }
    assert SameCellAsWritten(gs[n], PrevGrid(gs, n)) == SameCell(gs[n], PrevGrid(gs, n));
  }

  /** Two vertices in the adjacent cells 2^24 and 2^24 + 1, with X offsets 5 and 7: the written
      test finds the cells equal and stores 7 - 5, and the decoder, which compares the ints, reads
      X back as 2 instead of 7. */
  lemma VertexDeltasAsWrittenLosesX()
    ensures var gs, o := [TWO_24 as Int32, (TWO_24 + 1) as Int32], [5, 0, 0, 7, 0, 0];
      RestoredOffsets(gs, VertexDeltas(gs, o, SameCellAsWritten)) == [5, 0, 0, 2, 0, 0] != o
  {
    var gs: seq<Int32>, o: seq<Int32> := [TWO_24 as Int32, (TWO_24 + 1) as Int32], [5, 0, 0, 7, 0, 0];
    SingleOfFirstInexact();
    SingleOfIntMax();
    assert gs[..1] == [TWO_24 as Int32] && o[..3] == [5, 0, 0];
    assert VertexDeltas(gs, o, SameCellAsWritten) == [5, 0, 0, 2, 0, 0];
    var d: seq<Int32> := [5, 0, 0, 2, 0, 0];
    assert d[..3] == [5, 0, 0];
  }

  // ---------------------------------------------------------------------
  // Grid cells

  /** The flat index `pointToGridIdx` computes for cell (x, y, z): x + dx*(y + dy*z), wrapping. */
  function FlatIndex(x: Int32, y: Int32, z: Int32, dx: Int32, dy: Int32): Int32
  {
    Wrap32(x as int + Wrap32(dx as int * Wrap32(y as int + Wrap32(dy as int * z as int) as int) as int) as int)
  }

  /** The cell `gridIdxToPoint` decomposes idx into: z = idx / (dx*dy), then y and x from the
      remainder, with C# division (truncating; by zero or int.MinValue by -1 throws). */
  function CellOf(idx: Int32, dx: Int32, dy: Int32): Result<(Int32, Int32, Int32)>
  {
    var zdiv := Wrap32(dx as int * dy as int);
    if zdiv == 0 then Failure(DivideByZero)
    else if idx == INT_MIN && zdiv == -1 then Failure(Overflow)
    else
      var z := TDivInt(idx, zdiv);
      var rest := Wrap32(idx as int - Wrap32(z as int * zdiv as int) as int);
      if dx == 0 then Failure(DivideByZero)
      else if rest == INT_MIN && dx == -1 then Failure(Overflow)
      else
        var y := TDivInt(rest, dx);
        Success((Wrap32(rest as int - Wrap32(y as int * dx as int) as int), y, z))
  }

  /** C# int division where it does not throw. */
  function TDivInt(a: Int32, b: Int32): (q: Int32)
    requires b != 0 && !(a == INT_MIN && b == -1)
    ensures q == TDiv(a, b)
  {
    QuotientBound(Abs(a), Abs(b));
    TDiv(a, b)
  }

  lemma QuotientBound(n: nat, d: nat)
    requires d >= 1
    ensures n / d <= n
    ensures d >= 2 ==> 2 * (n / d) <= n
  {
    assert d * (n / d) <= n;
    if d >= 2 {
      assert 2 * (n / d) <= d * (n / d);
    }
  }

  /** Every non-negative index decomposes into a cell with 0 <= x < dx and 0 <= y < dy from which
      x + dx*(y + dy*z) gives it back, when the grid's x-y layer has fewer than 2^31 cells. */
  lemma CellOfInRange(idx: Int32, dx: Int32, dy: Int32)
    requires 0 <= idx && 1 <= dx && 1 <= dy && dx as int * dy as int < TWO_31
    ensures CellOf(idx, dx, dy).Success?
    ensures var c := CellOf(idx, dx, dy).value;
      0 <= c.0 < dx && 0 <= c.1 < dy && 0 <= c.2 &&
      idx == c.0 as int + dx as int * (c.1 as int + dy as int * c.2 as int)
  {
    var x, y, z, py, pz := Decompose(idx, dx as int, dy as int);
    CellOfSteps(idx, dx, dy, x, y, z, py, pz);
  }

  /** The decomposition on unbounded integers, with the products py = y*dx and pz = z*dx*dy it
      subtracts. */
  lemma Decompose(idx: int, dx: int, dy: int) returns (x: int, y: int, z: int, py: int, pz: int)
    requires 0 <= idx && 1 <= dx && 1 <= dy
    ensures 1 <= dx * dy
    ensures z == TDiv(idx, dx * dy) && pz == z * (dx * dy)
    ensures y == TDiv(idx - pz, dx) && py == y * dx
    ensures idx == pz + py + x
    ensures 0 <= x < dx && 0 <= y < dy && 0 <= z && idx == x + dx * (y + dy * z)
  {
    var zdiv := dx * dy;
    PositiveProduct(dx, dy);
    var rest;
    z, pz, rest := DivStep(idx, zdiv);
    y, py, x := DivStep(rest, dx);
    BelowLayer(y, dx, dy, py, rest);
    Regroup(x, y, z, dx, dy, py, pz);
  }

  lemma PositiveProduct(a: int, b: int)
    requires 1 <= a && 1 <= b
    ensures 1 <= a * b
  {
    assert a * b >= 1 * b;
  }

  /** One truncating division of a non-negative number: quotient q, product p = q*d, remainder r. */
  lemma DivStep(n: int, d: int) returns (q: int, p: int, r: int)
    requires 0 <= n && 1 <= d
    ensures q == TDiv(n, d) && p == q * d && n == p + r
    ensures 0 <= r < d && 0 <= q
  {
    q, r := n / d, n % d;
    p := q * d;
    assert Abs(n) == n && Abs(d) == d;
    assert TDiv(n, d) == q;
    assert n == d * q + r;
    assert p == d * q;
    assert (-1) * d < q * d;
    MulCancelLess(-1, q, d);
  }

  lemma Regroup(x: int, y: int, z: int, dx: int, dy: int, py: int, pz: int)
    requires py == y * dx && pz == z * (dx * dy)
    ensures x + dx * (y + dy * z) == x + py + pz
  {
  }

  lemma BelowLayer(y: int, dx: int, dy: int, py: int, rest: int)
    requires 1 <= dx && py == y * dx && py <= rest < dx * dy
    ensures y < dy
  {
    MulCancelLess(y, dy, dx);
  }

  /** The steps of `CellOf` on a non-negative index: no product or difference wraps. */
  lemma CellOfSteps(idx: Int32, dx: Int32, dy: Int32, x: int, y: int, z: int, py: int, pz: int)
    requires 0 <= idx && 1 <= dx && 1 <= dy && 1 <= dx as int * dy as int < TWO_31
    requires z == TDiv(idx, dx as int * dy as int) && pz == z * (dx as int * dy as int)
    requires y == TDiv(idx - pz, dx) && py == y * dx as int
    requires idx == pz + py + x
    requires 0 <= x < dx && 0 <= y < dy && 0 <= z
    ensures CellOf(idx, dx, dy) == Success((x as Int32, y as Int32, z as Int32))
  {
  }

  /** Decomposition inverts flattening: a cell inside the grid, whose flat index fits in an int,
      comes back from `CellOf`. */
  lemma CellOfFlatIndex(x: Int32, y: Int32, z: Int32, dx: Int32, dy: Int32)
    requires 0 <= x < dx && 0 <= y < dy && 0 <= z
    requires dx as int * dy as int < TWO_31
    requires x as int + dx as int * (y as int + dy as int * z as int) < TWO_31
    ensures CellOf(FlatIndex(x, y, z, dx, dy), dx, dy) == Success((x, y, z))
  {
    var idx := x as int + dx as int * (y as int + dy as int * z as int);
    FlatIndexExact(x, y, z, dx, dy);
    ScaledAtLeast(dy as int, z as int);
    ScaledAtLeast(dx as int, y as int + dy as int * z as int);
    CellOfInRange(idx as Int32, dx, dy);
    var c := CellOf(idx as Int32, dx, dy).value;
    CellUnique(x, y, z, c.0, c.1, c.2, dx, dy);
  }

  /** Without overflow, `FlatIndex` is the exact x + dx*(y + dy*z). */
  lemma FlatIndexExact(x: Int32, y: Int32, z: Int32, dx: Int32, dy: Int32)
    requires 0 <= x && 1 <= dx && 0 <= y && 0 <= z && 1 <= dy
    requires x as int + dx as int * (y as int + dy as int * z as int) < TWO_31
    ensures FlatIndex(x, y, z, dx, dy) == x as int + dx as int * (y as int + dy as int * z as int)
  {
    var a := dy as int * z as int;
    var b := y as int + a;
    var c := dx as int * b;
    ScaledAtLeast(dy as int, z as int);
    ScaledAtLeast(dx as int, b);
    assert Wrap32(a) == a;
    assert Wrap32(b) == b;
    assert Wrap32(c) == c;
  }

  lemma ScaledAtLeast(k: int, n: int)
    requires 1 <= k && 0 <= n
    ensures n <= k * n
  {
    assert k * n >= 1 * n;
  }

  /** Two cells inside the x and y ranges with the same flat value are the same cell. */
  lemma CellUnique(x: int, y: int, z: int, x': int, y': int, z': int, dx: int, dy: int)
    requires 0 <= x < dx && 0 <= y < dy && 0 <= z
    requires 0 <= x' < dx && 0 <= y' < dy && 0 <= z'
    requires x + dx * (y + dy * z) == x' + dx * (y' + dy * z')
    ensures x == x' && y == y' && z == z'
  {
    DivUnique(x + dx * (y + dy * z), dx, y + dy * z, x);
    DivUnique(x' + dx * (y' + dy * z'), dx, y' + dy * z', x');
    DivUnique(y + dy * z, dy, z, y);
    DivUnique(y' + dy * z', dy, z', y');
  }
}
