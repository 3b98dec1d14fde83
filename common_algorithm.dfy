// CommonAlgorithm: the steps the MG2 encoder and decoder share. Placing
// vertices back from their grid cell and integer offsets, the origin of a
// grid cell, the smooth normals of a mesh, and the coordinate system built
// around a normal. Integer steps are exact; float steps go through `Arith`.
module CommonAlgorithm {
  import opened Machine
  import opened Wrappers
  import opened FloatArith
  import opened Grids
  import opened Mg2Deltas

  // ---------------------------------------------------------------------
  // Grid cell origins

  /** The lowest corner of cell (x, y, z): each cell coordinate times the cell size, plus the
      grid minimum. */
  function CellOrigin(grid: Grid, cell: (Int32, Int32, Int32), arith: Arith): (p: seq<Float32>)
    requires Shaped(grid)
    ensures |p| == 3
  {
    var size := GetSize(grid, arith);
    var c := [cell.0, cell.1, cell.2];
    seq(3, k requires 0 <= k < 3 => arith.add(arith.mul(arith.ofInt(c[k]), size[k]), grid.min[k]))
  }

  /** `gridIdxToPoint(grid, idx)`: the origin of the cell idx decomposes into; the decomposition
      throws where C# division does. */
  function GridPoint(grid: Grid, idx: Int32, arith: Arith): (r: Result<seq<Float32>>)
    requires Shaped(grid)
    ensures r.Success? <==> CellOf(idx, grid.division[0], grid.division[1]).Success?
    ensures r.Success? ==> |r.value| == 3
  {
    var c :- CellOf(idx, grid.division[0], grid.division[1]);
    Success(CellOrigin(grid, c, arith))
  }

  /** The point of a flattened cell is that cell's origin: `gridIdxToPoint` undoes the
      flattening of `pointToGridIdx` for every cell inside the grid whose index fits an int. */
  lemma GridPointFlatIndex(grid: Grid, x: Int32, y: Int32, z: Int32, arith: Arith)
    requires Shaped(grid)
    requires 0 <= x < grid.division[0] && 0 <= y < grid.division[1] && 0 <= z
    requires grid.division[0] as int * grid.division[1] as int < TWO_31
    requires x as int + grid.division[0] as int * (y as int + grid.division[1] as int * z as int) < TWO_31
    ensures GridPoint(grid, FlatIndex(x, y, z, grid.division[0], grid.division[1]), arith)
         == Success(CellOrigin(grid, (x, y, z), arith))
  {
    CellOfFlatIndex(x, y, z, grid.division[0], grid.division[1]);
  }

  /** `gridIdxToPoint`: the cell idx decomposes into, then its origin coordinate by coordinate. */
  method GridIdxToPoint(grid: Grid, idx: Int32, arith: Arith) returns (r: Result<seq<Float32>>)
    requires Shaped(grid)
    ensures r == GridPoint(grid, idx, arith)
  {
    var cell := CellOf(idx, grid.division[0], grid.division[1]);
    if cell.Failure? {
      return Failure(cell.error);
    }
    var point := CellPoint(grid, cell.value, arith);
    return Success(point);
  }

  /** The loop at the end of `gridIdxToPoint`: the cell origin, coordinate by coordinate. */
  method CellPoint(grid: Grid, cell: (Int32, Int32, Int32), arith: Arith) returns (point: seq<Float32>)
    requires Shaped(grid)
    ensures point == CellOrigin(grid, cell, arith)
  {
    var c := [cell.0, cell.1, cell.2];
    var size := GetSize(grid, arith);
    point := [];
    for i := 0 to 3
      invariant |point| == i
      invariant forall k :: 0 <= k < i ==> point[k] == arith.add(arith.mul(arith.ofInt(c[k]), size[k]), grid.min[k])
    {
      point := point + [arith.add(arith.mul(arith.ofInt(c[i]), size[i]), grid.min[i])];
    }
  }

  // ---------------------------------------------------------------------
  // Restoring vertices

  /** The cell origins of the grid indices gs, in order; the first index that fails decides. */
  function Origins(grid: Grid, gs: seq<Int32>, arith: Arith): (r: Result<seq<seq<Float32>>>)
    requires Shaped(grid)
    ensures r.Success? ==> |r.value| == |gs| && forall k :: 0 <= k < |gs| ==> |r.value[k]| == 3
    decreases |gs|
  {
    if gs == [] then Success([])
    else
      var n := |gs| - 1;
      var init :- Origins(grid, gs[..n], arith);
      var p :- GridPoint(grid, gs[n], arith);
      Success(init + [p])
  }

  /** Once the origins of a prefix fail, the origins of the whole sequence fail the same way. */
  lemma {:induction false} OriginsFails(grid: Grid, gs: seq<Int32>, j: nat, arith: Arith)
    requires Shaped(grid) && j <= |gs| && Origins(grid, gs[..j], arith).Failure?
    ensures Origins(grid, gs, arith) == Failure(Origins(grid, gs[..j], arith).error)
    decreases |gs|
  {
    if j < |gs| {
      var n := |gs| - 1;
      assert gs[..n][..j] == gs[..j];
      OriginsFails(grid, gs[..n], j, arith);
    } else {
      assert gs[..j] == gs;
    }
  }

  /** One vertex: precision * offset + origin on each of the three axes. */
  function PlaceOne(a: Int32, b: Int32, c: Int32, origin: seq<Float32>, precision: Float32, arith: Arith)
    : (r: seq<Float32>)
    requires |origin| == 3
    ensures |r| == 3
  {
    [arith.add(arith.mul(precision, arith.ofInt(a)), origin[0]),
     arith.add(arith.mul(precision, arith.ofInt(b)), origin[1]),
     arith.add(arith.mul(precision, arith.ofInt(c)), origin[2])]
  }

  /** Vertex coordinates from integer offsets and cell origins: precision * offset + origin for
      each of the three axes. */
  function Placed(offsets: seq<Int32>, origins: seq<seq<Float32>>, precision: Float32, arith: Arith)
    : (r: seq<Float32>)
    requires |offsets| == 3 * |origins| && forall k :: 0 <= k < |origins| ==> |origins[k]| == 3
    ensures |r| == |offsets|
    decreases |origins|
  {
    if origins == [] then []
    else
      var n := |origins| - 1;
      Placed(offsets[..3 * n], origins[..n], precision, arith) +
        PlaceOne(offsets[3 * n], offsets[3 * n + 1], offsets[3 * n + 2], origins[n], precision, arith)
  }

  /** `restoreVertices(intVertices, gridIndices, grid, precision)`: vc = intVertices.Length / 3
      vertices, each placed at its restored offsets from its cell origin. Too few grid indices
      fail once the loop reaches the missing one. */
  function RestoredVertices(ints: seq<Int32>, gs: seq<Int32>, grid: Grid, precision: Float32, arith: Arith)
    : (r: Result<seq<Float32>>)
    requires Shaped(grid)
    ensures r.Success? <==> |gs| >= |ints| / 3 && Origins(grid, gs[..|ints| / 3], arith).Success?
    ensures r.Success? ==> |r.value| == 3 * (|ints| / 3)
  {
    var vc := |ints| / 3;
    if |gs| < vc then
      var os :- Origins(grid, gs, arith);
      Failure(IndexOutOfRange)
    else
      var os :- Origins(grid, gs[..vc], arith);
      Success(Placed(RestoredOffsets(gs[..vc], ints[..3 * vc]), os, precision, arith))
  }

  /** Restoring a prefix of the vertices restores a prefix of the offsets. */
  lemma RestoredOffsetsStep(gs: seq<Int32>, ints: seq<Int32>, i: nat, prev: seq<Int32>)
    requires i < |gs| && 3 * i + 3 <= |ints| && prev == RestoredOffsets(gs[..i], ints[..3 * i])
    ensures RestoredOffsets(gs[..i + 1], ints[..3 * (i + 1)]) ==
        prev + [if gs[i] == PrevGrid(gs, i) then Wrap32(ints[3 * i] as int + (if i == 0 then 0 else prev[3 * i - 3]) as int)
                else ints[3 * i], ints[3 * i + 1], ints[3 * i + 2]]
  {
    assert gs[..i + 1][..i] == gs[..i];
    assert ints[..3 * (i + 1)][..3 * i] == ints[..3 * i];
  }

  /** The restored offsets of the first i vertices do not depend on the vertices after them. */
  lemma {:induction false} RestoredOffsetsPrefix(gs: seq<Int32>, ints: seq<Int32>, i: nat)
    requires |ints| == 3 * |gs| && i <= |gs|
    ensures RestoredOffsets(gs[..i], ints[..3 * i]) == RestoredOffsets(gs, ints)[..3 * i]
    decreases |gs|
  {
    if i < |gs| {
      var n := |gs| - 1;
      RestoredOffsetsPrefix(gs[..n], ints[..3 * n], i);
      assert gs[..n][..i] == gs[..i];
      assert ints[..3 * n][..3 * i] == ints[..3 * i];
    } else {
      assert gs[..i] == gs && ints[..3 * i] == ints;
    }
  }

  /** The first vertex's X is taken as stored: even when its grid index is int.MaxValue and
      matches the initial `prevGridIndex`, it is added to the initial `prevDeltaX` of 0. */
  lemma RestoredFirstX(gs: seq<Int32>, ints: seq<Int32>)
    requires |ints| == 3 * |gs| && gs != []
    ensures RestoredOffsets(gs, ints)[0] == ints[0]
  {
    RestoredOffsetsPrefix(gs, ints, 1);
    RestoredOffsetsStep(gs, ints, 0, []);
    assert gs[..0] == [] && ints[..0] == [];
  }

  lemma PlacedStep(offsets: seq<Int32>, origins: seq<seq<Float32>>, precision: Float32, arith: Arith,
                   a: Int32, b: Int32, c: Int32, p: seq<Float32>)
    requires |offsets| == 3 * |origins| && forall k :: 0 <= k < |origins| ==> |origins[k]| == 3
    requires |p| == 3
    ensures Placed(offsets + [a, b, c], origins + [p], precision, arith) ==
      Placed(offsets, origins, precision, arith) + PlaceOne(a, b, c, p, precision, arith)
  {
    var o := offsets + [a, b, c];
    var os := origins + [p];
    assert o[..3 * |origins|] == offsets;
    assert os[..|origins|] == origins;
  }

  lemma OriginsStep(grid: Grid, gs: seq<Int32>, i: nat, arith: Arith, init: seq<seq<Float32>>)
    requires Shaped(grid) && i < |gs| && Origins(grid, gs[..i], arith) == Success(init)
    ensures GridPoint(grid, gs[i], arith).Success? ==>
      Origins(grid, gs[..i + 1], arith) == Success(init + [GridPoint(grid, gs[i], arith).value])
    ensures GridPoint(grid, gs[i], arith).Failure? ==>
      Origins(grid, gs[..i + 1], arith) == Failure(GridPoint(grid, gs[i], arith).error)
  {
    assert gs[..i + 1][..i] == gs[..i];
  }

  /** When the origins of the first j grid indices fail, restoring fails the same way. */
  lemma RestoredVerticesFails(ints: seq<Int32>, gs: seq<Int32>, grid: Grid, precision: Float32, arith: Arith, j: nat)
    requires Shaped(grid) && j <= |gs| && j <= |ints| / 3
    requires Origins(grid, gs[..j], arith).Failure?
    ensures RestoredVertices(ints, gs, grid, precision, arith) == Failure(Origins(grid, gs[..j], arith).error)
  {
    var vc := |ints| / 3;
    if |gs| < vc {
      OriginsFails(grid, gs, j, arith);
    } else {
      assert gs[..vc][..j] == gs[..j];
      OriginsFails(grid, gs[..vc], j, arith);
    }
  }

  /** What the `restoreVertices` loop has built after i vertices: their restored offsets and cell
      origins, the placed vertices, and the grid index and X offset of vertex i-1. */
  ghost predicate RestoredUpTo(ints: seq<Int32>, gs: seq<Int32>, grid: Grid, precision: Float32, arith: Arith,
                               i: nat, offs: seq<Int32>, os: seq<seq<Float32>>, vertices: seq<Float32>,
                               prevGridIndex: Int32, prevDeltaX: Int32)
    requires Shaped(grid)
  {
    i <= |gs| && 3 * i <= |ints| &&
    offs == RestoredOffsets(gs[..i], ints[..3 * i]) && |offs| == 3 * i &&
    Origins(grid, gs[..i], arith) == Success(os) &&
    vertices == Placed(offs, os, precision, arith) &&
    prevGridIndex == (if i == 0 then INT_MAX else gs[i - 1]) &&
    prevDeltaX == (if i == 0 then 0 else offs[3 * i - 3])
  }

  /** The offsets of vertex i follow from the loop's `prevGridIndex` and `prevDeltaX`. */
  lemma RestoredOffsetsNext(gs: seq<Int32>, ints: seq<Int32>, i: nat, offs: seq<Int32>,
                            prevGridIndex: Int32, prevDeltaX: Int32, x: Int32)
    requires i < |gs| && 3 * i + 3 <= |ints| && offs == RestoredOffsets(gs[..i], ints[..3 * i])
    requires prevGridIndex == (if i == 0 then INT_MAX else gs[i - 1])
    requires prevDeltaX == (if i == 0 then 0 else offs[3 * i - 3])
    requires x == if gs[i] == prevGridIndex then Wrap32(ints[3 * i] as int + prevDeltaX as int) else ints[3 * i]
    ensures RestoredOffsets(gs[..i + 1], ints[..3 * (i + 1)]) == offs + [x, ints[3 * i + 1], ints[3 * i + 2]]
  {
    assert PrevGrid(gs, i) == prevGridIndex;
    RestoredOffsetsStep(gs, ints, i, offs);
  }

  /** One turn of the `restoreVertices` loop: vertex i, at cell origin o with X offset x, extends
      what the loop has built. */
  lemma RestoreStep(ints: seq<Int32>, gs: seq<Int32>, grid: Grid, precision: Float32, arith: Arith,
                    i: nat, offs: seq<Int32>, os: seq<seq<Float32>>, vertices: seq<Float32>,
                    prevGridIndex: Int32, prevDeltaX: Int32, o: seq<Float32>, x: Int32)
    requires Shaped(grid) && i < |gs| && 3 * i + 3 <= |ints|
    requires RestoredUpTo(ints, gs, grid, precision, arith, i, offs, os, vertices, prevGridIndex, prevDeltaX)
    requires GridPoint(grid, gs[i], arith) == Success(o)
    requires x == if gs[i] == prevGridIndex then Wrap32(ints[3 * i] as int + prevDeltaX as int) else ints[3 * i]
    ensures RestoredUpTo(ints, gs, grid, precision, arith, i + 1, offs + [x, ints[3 * i + 1], ints[3 * i + 2]],
                         os + [o], vertices + PlaceOne(x, ints[3 * i + 1], ints[3 * i + 2], o, precision, arith),
                         gs[i], x)
  {
    RestoredOffsetsNext(gs, ints, i, offs, prevGridIndex, prevDeltaX, x);
    OriginsStep(grid, gs, i, arith, os);
    PlacedStep(offs, os, precision, arith, x, ints[3 * i + 1], ints[3 * i + 2], o);
  }

  /** The loop's end: all vc vertices restored. */
  lemma RestoreDone(ints: seq<Int32>, gs: seq<Int32>, grid: Grid, precision: Float32, arith: Arith,
                    offs: seq<Int32>, os: seq<seq<Float32>>, vertices: seq<Float32>,
                    prevGridIndex: Int32, prevDeltaX: Int32)
    requires Shaped(grid)
    requires RestoredUpTo(ints, gs, grid, precision, arith, |ints| / 3, offs, os, vertices, prevGridIndex, prevDeltaX)
    ensures RestoredVertices(ints, gs, grid, precision, arith) == Success(vertices)
  {
  }

  /** Before the first vertex nothing is restored, and the loop's previous-index sentinel holds. */
  lemma RestoreStart(ints: seq<Int32>, gs: seq<Int32>, grid: Grid, precision: Float32, arith: Arith)
    requires Shaped(grid)
    ensures RestoredUpTo(ints, gs, grid, precision, arith, 0, [], [], [], INT_MAX, 0)
  {
    assert gs[..0] == [] && ints[..0] == [];
  }

  /** `restoreVertices`, with the loop carrying `prevGridIndex` and `prevDeltaX`. */
  method RestoreVertices(ints: seq<Int32>, gs: seq<Int32>, grid: Grid, precision: Float32, arith: Arith)
    returns (r: Result<seq<Float32>>)
    requires Shaped(grid)
    ensures r == RestoredVertices(ints, gs, grid, precision, arith)
  {
    var vc := |ints| / 3;
    var prevGridIndex: Int32 := INT_MAX;
    var prevDeltaX: Int32 := 0;
    var vertices: seq<Float32> := [];
    ghost var os: seq<seq<Float32>> := [];
    ghost var offs: seq<Int32> := [];
    RestoreStart(ints, gs, grid, precision, arith);
    var i := 0;
    while i < vc
      invariant i <= vc
      invariant RestoredUpTo(ints, gs, grid, precision, arith, i, offs, os, vertices, prevGridIndex, prevDeltaX)
      decreases vc - i
    {
      var failure;
      failure, vertices, prevGridIndex, prevDeltaX, offs, os :=
        RestoreNext(ints, gs, grid, precision, arith, i, offs, os, vertices, prevGridIndex, prevDeltaX);
      if failure.Some? {
        r := Failure(failure.value);
        return;
      }
      i := i + 1;
    }
    RestoreDone(ints, gs, grid, precision, arith, offs, os, vertices, prevGridIndex, prevDeltaX);
    return Success(vertices);
  }

  /** One turn of the `restoreVertices` loop: vertex i restored, or the error that ends the
      restore (a missing grid index, or one without a cell origin). */
  method RestoreNext(ints: seq<Int32>, gs: seq<Int32>, grid: Grid, precision: Float32, arith: Arith, i: nat,
                     ghost offs: seq<Int32>, ghost os: seq<seq<Float32>>, vertices: seq<Float32>,
                     prevGridIndex: Int32, prevDeltaX: Int32)
    returns (failure: Option<Error>, vertices': seq<Float32>, prevGridIndex': Int32, prevDeltaX': Int32,
             ghost offs': seq<Int32>, ghost os': seq<seq<Float32>>)
    requires Shaped(grid) && i < |ints| / 3
    requires RestoredUpTo(ints, gs, grid, precision, arith, i, offs, os, vertices, prevGridIndex, prevDeltaX)
    ensures failure.Some? ==> RestoredVertices(ints, gs, grid, precision, arith) == Failure(failure.value)
    ensures failure.None? ==>
              RestoredUpTo(ints, gs, grid, precision, arith, i + 1, offs', os', vertices', prevGridIndex', prevDeltaX')
  {
    vertices', prevGridIndex', prevDeltaX', offs', os' := vertices, prevGridIndex, prevDeltaX, offs, os;
    if i == |gs| {
      assert gs[..i] == gs;
      return Some(IndexOutOfRange), vertices', prevGridIndex', prevDeltaX', offs', os';
    }
    var gridIdx := gs[i];
    var gridOrigin := GridIdxToPoint(grid, gridIdx, arith);
    if gridOrigin.Failure? {
      OriginsStep(grid, gs, i, arith, os);
      RestoredVerticesFails(ints, gs, grid, precision, arith, i + 1);
      return Some(gridOrigin.error), vertices', prevGridIndex', prevDeltaX', offs', os';
    }
    var deltaX := ints[3 * i];
    if gridIdx == prevGridIndex {
      deltaX := Wrap32(deltaX as int + prevDeltaX as int);
    }
    var o := gridOrigin.value;
    RestoreStep(ints, gs, grid, precision, arith, i, offs, os, vertices, prevGridIndex, prevDeltaX, o, deltaX);
    vertices' := vertices + PlaceOne(deltaX, ints[3 * i + 1], ints[3 * i + 2], o, precision, arith);
    offs' := offs + [deltaX, ints[3 * i + 1], ints[3 * i + 2]];
    prevGridIndex', prevDeltaX' := gridIdx, deltaX;
    os' := os + [o];
    failure := None;
  }

  // ---------------------------------------------------------------------
  // Smooth normals

  /** The array slot of component j of vertex t: t*3 + j, wrapping. */
  function Slot(t: Int32, j: int): Int32
  {
    Wrap32(Wrap32(t as int * 3) as int + j)
  }

  /** The first slot of vertex t, t*3 wrapped once into the int range; t*3 is at most one
      wrap away from it. */
  function Base(t: Int32): int
  {
    var m := t as int * 3;
    if m >= TWO_31 then m - TWO_32 else if m < -TWO_31 then m + TWO_32 else m
  }

  /** Base(t) is the int t*3 evaluates to. */
  lemma BaseWraps(t: Int32)
    ensures Base(t) == Wrap32(t as int * 3)
  {
    var m := t as int * 3;
    if m >= TWO_31 {
      Wrap32Shift(m, 1);
    } else if m < -TWO_31 {
      Wrap32Shift(m, -1);
    }
  }

  /** All three slots of vertex t lie inside an array of vc vertices: the first is not negative,
      the last is below 3*vc and adding 2 to the first does not wrap. */
  predicate CornerInRange(t: Int32, vc: nat)
  {
    0 <= Base(t) && Base(t) + 3 <= 3 * vc && Base(t) + 3 <= TWO_31
  }

  /** CornerInRange is exactly the condition under which none of the three slot expressions
      the loop evaluates leaves the array; then slot j is Base(t) + j. */
  lemma CornerInRangeExact(t: Int32, vc: nat)
    ensures CornerInRange(t, vc) <==> 0 <= Slot(t, 0) < 3 * vc && 0 <= Slot(t, 1) < 3 * vc && 0 <= Slot(t, 2) < 3 * vc
    ensures CornerInRange(t, vc) ==> Slot(t, 0) == Base(t) && Slot(t, 1) == Base(t) + 1 && Slot(t, 2) == Base(t) + 2
  {
    BaseWraps(t);
    var b := Base(t);
    assert Slot(t, 0) == b;
    if b + 2 >= TWO_31 {
      assert Slot(t, 2) == b + 2 - TWO_32;
    }
  }

  /** A corner inside the mesh has its three slots inside the array. */
  lemma CornerInRangeOfIndex(t: Int32, vc: nat)
    requires 0 <= t < vc && 3 * vc < TWO_31
    ensures CornerInRange(t, vc)
  {
  }

  /** Triangle i: indices 3i, 3i+1 and 3i+2. */
  function Triangle(indices: seq<Int32>, i: nat): (tri: seq<Int32>)
    requires 3 * i + 3 <= |indices|
    ensures |tri| == 3
  {
    indices[3 * i..3 * i + 3]
  }

  /** All three corners of a triangle have their slots inside an array of vc vertices. */
  predicate TriangleInRange(tri: seq<Int32>, vc: nat)
    requires |tri| == 3
  {
    CornerInRange(tri[0], vc) && CornerInRange(tri[1], vc) && CornerInRange(tri[2], vc)
  }

  /** The first n triangles are all in range. */
  predicate TrianglesInRange(indices: seq<Int32>, n: nat, vc: nat)
    requires 3 * n <= |indices|
  {
    forall i :: 0 <= i < n ==> TriangleInRange(Triangle(indices, i), vc)
  }

  /** One more triangle in range extends the triangles in range. */
  lemma TrianglesInRangeStep(indices: seq<Int32>, i: nat, vc: nat)
    requires 3 * i + 3 <= |indices| && TrianglesInRange(indices, i, vc) && TriangleInRange(Triangle(indices, i), vc)
    ensures TrianglesInRange(indices, i + 1, vc)
  {
  }

  /** The unit normal of a triangle in range: the cross product of its two edges from corner 0,
      scaled by 1/length when the length exceeds 1e-10. */
  function FlatNormal(vertices: seq<Float32>, vc: nat, tri: seq<Int32>, arith: Arith): (n: seq<Float32>)
    requires 3 * vc <= |vertices| && |tri| == 3 && TriangleInRange(tri, vc)
    ensures |n| == 3
  {
    var v1 := [arith.sub(vertices[Base(tri[1]) + 0], vertices[Base(tri[0]) + 0]),
               arith.sub(vertices[Base(tri[1]) + 1], vertices[Base(tri[0]) + 1]),
               arith.sub(vertices[Base(tri[1]) + 2], vertices[Base(tri[0]) + 2])];
    var v2 := [arith.sub(vertices[Base(tri[2]) + 0], vertices[Base(tri[0]) + 0]),
               arith.sub(vertices[Base(tri[2]) + 1], vertices[Base(tri[0]) + 1]),
               arith.sub(vertices[Base(tri[2]) + 2], vertices[Base(tri[0]) + 2])];
    var c := [arith.sub(arith.mul(v1[1], v2[2]), arith.mul(v1[2], v2[1])),
              arith.sub(arith.mul(v1[2], v2[0]), arith.mul(v1[0], v2[2])),
              arith.sub(arith.mul(v1[0], v2[1]), arith.mul(v1[1], v2[0]))];
    var len := arith.sqrt(arith.add(arith.add(arith.mul(c[0], c[0]), arith.mul(c[1], c[1])), arith.mul(c[2], c[2])));
    var scale := if Less(EPS_10, len) then arith.div(ONE, len) else ONE;
    [arith.mul(c[0], scale), arith.mul(c[1], scale), arith.mul(c[2], scale)]
  }

  /** Slot p after corner t has added the first lim components of n: component d lands on slot
      t*3 + d, so p receives n[d] when it is that slot. */
  function CornerStep(x: Float32, p: int, t: Int32, n: seq<Float32>, lim: nat, arith: Arith): Float32
    requires |n| == 3 && lim <= 3
  {
    var d := p - Base(t);
    if 0 <= d < lim then arith.add(x, n[d]) else x
  }

  /** How many components corner c has added once the loop has done k whole corners and j
      components of corner k. */
  function Limit(c: nat, k: nat, j: nat): (r: nat)
    requires j <= 3
    ensures r <= 3
  {
    if c < k then 3 else if c == k then j else 0
  }

  /** The normal sums after a triangle has added its flat normal n to its first k corners and
      to the first j components of corner k; a slot receives the additions of its corners in
      corner order. */
  function AddCorners(acc: seq<Float32>, tri: seq<Int32>, n: seq<Float32>, k: nat, j: nat, arith: Arith)
    : (r: seq<Float32>)
    requires |tri| == 3 && |n| == 3 && j <= 3
    ensures |r| == |acc|
  {
    seq(|acc|, p requires 0 <= p < |acc| =>
      CornerStep(CornerStep(CornerStep(acc[p], p, tri[0], n, Limit(0, k, j), arith),
                            p, tri[1], n, Limit(1, k, j), arith),
                 p, tri[2], n, Limit(2, k, j), arith))
  }

  /** Slot p of the partial sums: the additions of its corners, in corner order. */
  lemma AddCornersAt(acc: seq<Float32>, tri: seq<Int32>, n: seq<Float32>, k: nat, j: nat, arith: Arith, p: nat)
    requires |tri| == 3 && |n| == 3 && j <= 3 && p < |acc|
    ensures AddCorners(acc, tri, n, k, j, arith)[p] ==
      CornerStep(CornerStep(CornerStep(acc[p], p, tri[0], n, Limit(0, k, j), arith),
                            p, tri[1], n, Limit(1, k, j), arith),
                 p, tri[2], n, Limit(2, k, j), arith)
  {
  }

  /** The additions of a whole triangle: all three corners. */
  function AddTriangle(acc: seq<Float32>, tri: seq<Int32>, n: seq<Float32>, arith: Arith): (r: seq<Float32>)
    requires |tri| == 3 && |n| == 3
    ensures |r| == |acc|
  {
    AddCorners(acc, tri, n, 3, 0, arith)
  }

  /** n zero floats: a fresh C# float array. */
  function Zeros(n: nat): (r: seq<Float32>)
    ensures |r| == n && forall p :: 0 <= p < n ==> r[p] == Float32(0)
  {
    seq(n, _ => Float32(0))
  }

  /** Every normal in the sequence has three components. */
  predicate ThreeEach(normals: seq<seq<Float32>>)
  {
    forall c :: 0 <= c < |normals| ==> |normals[c]| == 3
  }

  /** The flat normals of the first n triangles, one per triangle. */
  function FlatNormals(vertices: seq<Float32>, vc: nat, indices: seq<Int32>, n: nat, arith: Arith)
    : (r: seq<seq<Float32>>)
    requires 3 * vc <= |vertices| && 3 * n <= |indices| && TrianglesInRange(indices, n, vc)
    ensures |r| == n && ThreeEach(r)
  {
    seq(n, c requires 0 <= c < n => FlatNormal(vertices, vc, Triangle(indices, c), arith))
  }

  /** The normal sums of an array of vc vertex normals once the first i triangles have added
      their normals, triangle after triangle, to a zeroed array. */
  function SumsOf(vc: nat, indices: seq<Int32>, normals: seq<seq<Float32>>, i: nat, arith: Arith): (r: seq<Float32>)
    requires 3 * i <= |indices| && i <= |normals| && ThreeEach(normals)
    ensures |r| == 3 * vc
  {
    if i == 0 then Zeros(3 * vc)
    else AddTriangle(SumsOf(vc, indices, normals, i - 1, arith), Triangle(indices, i - 1), normals[i - 1], arith)
  }

  /** The sums of the first i triangles depend on the first i normals only. */
  lemma {:induction false} SumsOfPrefix(vc: nat, indices: seq<Int32>, a: seq<seq<Float32>>, b: seq<seq<Float32>>,
                                        i: nat, arith: Arith)
    requires 3 * i <= |indices| && i <= |a| && i <= |b| && ThreeEach(a) && ThreeEach(b) && a[..i] == b[..i]
    ensures SumsOf(vc, indices, a, i, arith) == SumsOf(vc, indices, b, i, arith)
  {
    if i > 0 {
      assert a[..i - 1] == a[..i][..i - 1] && b[..i - 1] == b[..i][..i - 1];
      assert a[i - 1] == a[..i][i - 1] && b[i - 1] == b[..i][i - 1];
      SumsOfPrefix(vc, indices, a, b, i - 1, arith);
    }
  }

  /** The sums of the flat normals of the first i triangles, per slot of an array of vc vertex
      normals, added in the order `calcSmoothNormals` adds them. */
  function NormalSums(vertices: seq<Float32>, vc: nat, indices: seq<Int32>, i: nat, arith: Arith): (r: seq<Float32>)
    requires 3 * vc <= |vertices| && 3 * i <= |indices| && TrianglesInRange(indices, i, vc)
    ensures |r| == 3 * vc
  {
    SumsOf(vc, indices, FlatNormals(vertices, vc, indices, i, arith), i, arith)
  }

  /** One more triangle in range adds its flat normal to the sums of the triangles before it. */
  lemma NormalSumsStep(vertices: seq<Float32>, vc: nat, indices: seq<Int32>, i: nat, arith: Arith)
    requires 3 * vc <= |vertices| && 3 * i + 3 <= |indices| && TrianglesInRange(indices, i + 1, vc)
    ensures TrianglesInRange(indices, i, vc)
    ensures NormalSums(vertices, vc, indices, i + 1, arith) ==
      AddTriangle(NormalSums(vertices, vc, indices, i, arith), Triangle(indices, i),
                  FlatNormal(vertices, vc, Triangle(indices, i), arith), arith)
  {
    var a, b := FlatNormals(vertices, vc, indices, i + 1, arith), FlatNormals(vertices, vc, indices, i, arith);
    assert a[..i] == b;
    SumsOfPrefix(vc, indices, a, b, i, arith);
  }

  /** The factor vertex t's normal sum is scaled by: 1/length when the length exceeds 1e-10,
      1 otherwise. */
  function VertexScale(s: seq<Float32>, t: nat, arith: Arith): Float32
    requires 3 * t + 3 <= |s|
  {
    var a, b, c := s[3 * t], s[3 * t + 1], s[3 * t + 2];
    var len := arith.sqrt(arith.add(arith.add(arith.mul(a, a), arith.mul(b, b)), arith.mul(c, c)));
    if Less(EPS_10, len) then arith.div(ONE, len) else ONE
  }

  /** The normal of vertex t: its three sums times its factor. */
  function ScaledVertex(s: seq<Float32>, t: nat, arith: Arith): (r: seq<Float32>)
    requires 3 * t + 3 <= |s|
    ensures |r| == 3
  {
    var scale := VertexScale(s, t, arith);
    [arith.mul(s[3 * t], scale), arith.mul(s[3 * t + 1], scale), arith.mul(s[3 * t + 2], scale)]
  }

  /** The normal sums of vc vertices, each vertex scaled by its factor. */
  function Normalised(s: seq<Float32>, vc: nat, arith: Arith): (r: seq<Float32>)
    requires |s| == 3 * vc
    ensures |r| == |s|
  {
    if vc == 0 then []
    else Normalised(s[..3 * vc - 3], vc - 1, arith) + ScaledVertex(s, vc - 1, arith)
  }

  /** Three times the whole vertices of a coordinate array stay inside it. */
  lemma WholeVertices(n: nat)
    ensures 3 * (n / 3) <= n
  {
  }

  /** `calcSmoothNormals(vertices, indices)`: one normal per whole vertex, the normalised sum of
      the flat normals of the triangles around it. It throws exactly when some corner of a
      whole triangle has a slot outside the normal array. */
  function SmoothNormals(vertices: seq<Float32>, indices: seq<Int32>, arith: Arith): (r: Result<seq<Float32>>)
    ensures r.Success? <==> TrianglesInRange(indices, |indices| / 3, |vertices| / 3)
    ensures r.Success? ==> |r.value| == 3 * (|vertices| / 3)
    ensures r.Failure? ==> r.error == IndexOutOfRange
  {
    var vc, tc := |vertices| / 3, |indices| / 3;
    WholeVertices(|vertices|);
    WholeVertices(|indices|);
    if TrianglesInRange(indices, tc, vc) then
      Success(Normalised(NormalSums(vertices, vc, indices, tc, arith), vc, arith))
    else Failure(IndexOutOfRange)
  }

  /** The corners of tri are vertices of the mesh other than t. */
  predicate Avoids(tri: seq<Int32>, t: nat, vc: nat)
    requires |tri| == 3
  {
    0 <= tri[0] < vc && tri[0] != t as int && 0 <= tri[1] < vc && tri[1] != t as int &&
    0 <= tri[2] < vc && tri[2] != t as int
  }

  /** A triangle's additions leave every slot of a vertex that is none of its corners alone. */
  lemma AddTriangleUntouched(acc: seq<Float32>, tri: seq<Int32>, n: seq<Float32>, vc: nat, arith: Arith,
                             t: nat, i: nat)
    requires |acc| == 3 * vc && |tri| == 3 && |n| == 3 && 3 * vc < TWO_31 && Avoids(tri, t, vc)
    requires t < vc && i < 3
    ensures AddTriangle(acc, tri, n, arith)[3 * t + i] == acc[3 * t + i]
  {
    AddCornersAt(acc, tri, n, 3, 0, arith, 3 * t + i);
  }

  /** Corners inside the mesh have their slots inside the normal array. */
  lemma TrianglesInRangeOfIndices(indices: seq<Int32>, n: nat, vc: nat)
    requires 3 * n <= |indices| && 3 * vc < TWO_31
    requires forall k :: 0 <= k < 3 * n ==> 0 <= indices[k] < vc
    ensures TrianglesInRange(indices, n, vc)
  {
    forall i | 0 <= i < n ensures TriangleInRange(Triangle(indices, i), vc) {
      var tri := Triangle(indices, i);
      assert tri[0] == indices[3 * i] && tri[1] == indices[3 * i + 1] && tri[2] == indices[3 * i + 2];
      CornerInRangeOfIndex(tri[0], vc);
      CornerInRangeOfIndex(tri[1], vc);
      CornerInRangeOfIndex(tri[2], vc);
    }
  }

  /** A vertex that is no corner of the first i triangles keeps a zero sum, whatever their
      normals. */
  lemma {:induction false} UntouchedSumsZero(vc: nat, indices: seq<Int32>, normals: seq<seq<Float32>>, i: nat,
                                             arith: Arith, t: nat, j: nat)
    requires 3 * i <= |indices| && i <= |normals| && ThreeEach(normals) && 3 * vc < TWO_31
    requires forall c :: 0 <= c < i ==> Avoids(Triangle(indices, c), t, vc)
    requires t < vc && j < 3
    ensures SumsOf(vc, indices, normals, i, arith)[3 * t + j] == Float32(0)
  {
    if i > 0 {
      UntouchedSumsZero(vc, indices, normals, i - 1, arith, t, j);
      AddTriangleUntouched(SumsOf(vc, indices, normals, i - 1, arith), Triangle(indices, i - 1), normals[i - 1],
                           vc, arith, t, j);
    }
  }

  /** A vertex that is no corner of the first i triangles has a zero normal sum. */
  lemma UntouchedVertexSumsZero(vertices: seq<Float32>, vc: nat, indices: seq<Int32>, i: nat,
                                arith: Arith, t: nat, j: nat)
    requires 3 * vc <= |vertices| && 3 * i <= |indices| && 3 * vc < TWO_31 && TrianglesInRange(indices, i, vc)
    requires forall c :: 0 <= c < i ==> Avoids(Triangle(indices, c), t, vc)
    requires t < vc && j < 3
    ensures NormalSums(vertices, vc, indices, i, arith)[3 * t + j] == Float32(0)
  {
    UntouchedSumsZero(vc, indices, FlatNormals(vertices, vc, indices, i, arith), i, arith, t, j);
  }

  /** One more component of corner k: slot Base(tri[k]) + j receives n[j], and no other slot
      changes. */
  lemma AddCornersNext(acc: seq<Float32>, tri: seq<Int32>, n: seq<Float32>, k: nat, j: nat, arith: Arith)
    requires |tri| == 3 && |n| == 3 && k < 3 && j < 3 && 0 <= Base(tri[k]) && Base(tri[k]) + 3 <= |acc|
    ensures var s, q := AddCorners(acc, tri, n, k, j, arith), Base(tri[k]) + j;
      AddCorners(acc, tri, n, k, j + 1, arith) == s[q := arith.add(s[q], n[j])]
  {
    var s, q := AddCorners(acc, tri, n, k, j, arith), Base(tri[k]) + j;
    var u := s[q := arith.add(s[q], n[j])];
    forall p | 0 <= p < |acc| ensures AddCorners(acc, tri, n, k, j + 1, arith)[p] == u[p] {
      AddCornersAt(acc, tri, n, k, j, arith, p);
      AddCornersAt(acc, tri, n, k, j + 1, arith, p);
    }
  }

  /** Adds the flat normal n of the triangle tri to the normal sums, corner by corner. */
  method AddFlatNormal(smoothNormals: array<Float32>, tri: seq<Int32>, n: seq<Float32>, vc: nat, arith: Arith)
    requires smoothNormals.Length == 3 * vc && |tri| == 3 && |n| == 3 && TriangleInRange(tri, vc)
    modifies smoothNormals
    ensures smoothNormals[..] == AddTriangle(old(smoothNormals[..]), tri, n, arith)
  {
    ghost var acc := smoothNormals[..];
    for k := 0 to 3
      invariant smoothNormals[..] == AddCorners(acc, tri, n, k, 0, arith)
    {
      for j := 0 to 3
        invariant smoothNormals[..] == AddCorners(acc, tri, n, k, j, arith)
      {
        assert CornerInRange(tri[k], vc);
        CornerInRangeExact(tri[k], vc);
        var p := Slot(tri[k], j);
        AddCornersNext(acc, tri, n, k, j, arith);
        smoothNormals[p] := arith.add(smoothNormals[p], n[j]);
      }
      assert AddCorners(acc, tri, n, k, 3, arith) == AddCorners(acc, tri, n, k + 1, 0, arith);
    }
  }

  /** Normalising one more vertex extends the normalised prefix. */
  lemma NormalisedStep(s: seq<Float32>, i: nat, arith: Arith)
    requires 3 * i + 3 <= |s|
    ensures Normalised(s[..3 * i + 3], i + 1, arith) == Normalised(s[..3 * i], i, arith) + ScaledVertex(s, i, arith)
  {
    assert s[..3 * i + 3][..3 * i] == s[..3 * i];
  }

  /** Scales the three normal components of vertex i by scale. */
  method ScaleVertex(smoothNormals: array<Float32>, i: nat, scale: Float32, arith: Arith)
    requires 3 * i + 3 <= smoothNormals.Length
    modifies smoothNormals
    ensures smoothNormals[..3 * i] == old(smoothNormals[..3 * i])
    ensures smoothNormals[3 * i + 3..] == old(smoothNormals[3 * i + 3..])
    ensures smoothNormals[3 * i..3 * i + 3] ==
      [arith.mul(old(smoothNormals[3 * i]), scale), arith.mul(old(smoothNormals[3 * i + 1]), scale),
       arith.mul(old(smoothNormals[3 * i + 2]), scale)]
  {
    for j := 0 to 3
      invariant forall p :: 0 <= p < smoothNormals.Length && !(3 * i <= p < 3 * i + j) ==>
        smoothNormals[p] == old(smoothNormals[p])
      invariant forall p :: 3 * i <= p < 3 * i + j ==> smoothNormals[p] == arith.mul(old(smoothNormals[p]), scale)
    {
      smoothNormals[3 * i + j] := arith.mul(smoothNormals[3 * i + j], scale);
    }
  }

  /** Scaling vertex i of a partly normalised array normalises one more vertex. */
  lemma NormaliseStep(sums: seq<Float32>, before: seq<Float32>, after: seq<Float32>, i: nat, arith: Arith)
    requires 3 * i + 3 <= |sums| == |before| == |after|
    requires before[..3 * i] == Normalised(sums[..3 * i], i, arith) && before[3 * i..] == sums[3 * i..]
    requires after[..3 * i] == before[..3 * i] && after[3 * i + 3..] == before[3 * i + 3..]
    requires after[3 * i..3 * i + 3] == [arith.mul(before[3 * i], VertexScale(sums, i, arith)),
                                         arith.mul(before[3 * i + 1], VertexScale(sums, i, arith)),
                                         arith.mul(before[3 * i + 2], VertexScale(sums, i, arith))]
    ensures after[..3 * i + 3] == Normalised(sums[..3 * i + 3], i + 1, arith)
    ensures after[3 * i + 3..] == sums[3 * i + 3..]
  {
    assert before[3 * i] == sums[3 * i] && before[3 * i + 1] == sums[3 * i + 1] && before[3 * i + 2] == sums[3 * i + 2] by {
      assert before[3 * i..][0] == sums[3 * i..][0] && before[3 * i..][1] == sums[3 * i..][1];
      assert before[3 * i..][2] == sums[3 * i..][2];
    }
    NormalisedStep(sums, i, arith);
    assert after[..3 * i + 3] == after[..3 * i] + after[3 * i..3 * i + 3];
    assert after[3 * i + 3..] == before[3 * i..][3..];
  }

  /** Scales every vertex's normal sum to unit length. */
  method NormaliseInPlace(smoothNormals: array<Float32>, vc: nat, arith: Arith)
    requires smoothNormals.Length == 3 * vc
    modifies smoothNormals
    ensures smoothNormals[..] == Normalised(old(smoothNormals[..]), vc, arith)
  {
    ghost var sums := smoothNormals[..];
    for i := 0 to vc
      invariant smoothNormals[..3 * i] == Normalised(sums[..3 * i], i, arith)
      invariant smoothNormals[3 * i..] == sums[3 * i..]
    {
      NormaliseVertex(smoothNormals, vc, i, sums, arith);
    }
    assert sums[..3 * vc] == sums;
  }

  /** One turn of the normalising loop: vertex i's sum scaled to unit length. */
  method NormaliseVertex(smoothNormals: array<Float32>, vc: nat, i: nat, ghost sums: seq<Float32>, arith: Arith)
    requires smoothNormals.Length == 3 * vc == |sums| && i < vc
    requires smoothNormals[..3 * i] == Normalised(sums[..3 * i], i, arith)
    requires smoothNormals[3 * i..] == sums[3 * i..]
    modifies smoothNormals
    ensures smoothNormals[..3 * i + 3] == Normalised(sums[..3 * i + 3], i + 1, arith)
    ensures smoothNormals[3 * i + 3..] == sums[3 * i + 3..]
  {
    var a, b, c := smoothNormals[3 * i], smoothNormals[3 * i + 1], smoothNormals[3 * i + 2];
    assert a == sums[3 * i] && b == sums[3 * i + 1] && c == sums[3 * i + 2] by {
      assert smoothNormals[3 * i..][0] == sums[3 * i..][0] && smoothNormals[3 * i..][1] == sums[3 * i..][1];
      assert smoothNormals[3 * i..][2] == sums[3 * i..][2];
    }
    var len := arith.sqrt(arith.add(arith.add(arith.mul(a, a), arith.mul(b, b)), arith.mul(c, c)));
    var scale := if Less(EPS_10, len) then arith.div(ONE, len) else ONE;
    ghost var before := smoothNormals[..];
    ScaleVertex(smoothNormals, i, scale, arith);
    NormaliseStep(sums, before, smoothNormals[..], i, arith);
  }

  /** The triangle loop of `calcSmoothNormals`: adds the flat normal of each of the first tc
      triangles to the sums of its corners, and stops at the first corner out of range. */
  method SumFlatNormals(vertices: seq<Float32>, vc: nat, indices: seq<Int32>, tc: nat, smoothNormals: array<Float32>,
                        arith: Arith) returns (ok: bool)
    requires 3 * vc <= |vertices| && 3 * tc <= |indices| && smoothNormals.Length == 3 * vc
    requires forall p :: 0 <= p < 3 * vc ==> smoothNormals[p] == Float32(0)
    modifies smoothNormals
    ensures ok <==> TrianglesInRange(indices, tc, vc)
    ensures ok ==> smoothNormals[..] == NormalSums(vertices, vc, indices, tc, arith)
  {
    assert smoothNormals[..] == NormalSums(vertices, vc, indices, 0, arith);
    for i := 0 to tc
      invariant TrianglesInRange(indices, i, vc)
      invariant smoothNormals[..] == NormalSums(vertices, vc, indices, i, arith)
    {
      var tri := indices[3 * i..3 * i + 3];
      assert Triangle(indices, i) == tri;
      if !TriangleInRange(tri, vc) {
        return false;
      }
      TrianglesInRangeStep(indices, i, vc);
      var n := FlatNormal(vertices, vc, tri, arith);
      AddFlatNormal(smoothNormals, tri, n, vc, arith);
      NormalSumsStep(vertices, vc, indices, i, arith);
    }
    return true;
  }

  /** `calcSmoothNormals`, on a fresh array: the triangle loop, then the normalising loop. */
  method CalcSmoothNormals(vertices: seq<Float32>, indices: seq<Int32>, arith: Arith) returns (r: Result<seq<Float32>>)
    ensures r == SmoothNormals(vertices, indices, arith)
  {
    var vc := |vertices| / 3;
    var tc := |indices| / 3;
    WholeVertices(|vertices|);
    WholeVertices(|indices|);
    var smoothNormals := new Float32[3 * vc](_ => Float32(0));
    var ok := SumFlatNormals(vertices, vc, indices, tc, smoothNormals, arith);
    if !ok {
      return Failure(IndexOutOfRange);
    }
    NormaliseInPlace(smoothNormals, vc, arith);
    return Success(smoothNormals[..]);
  }

  // ---------------------------------------------------------------------
  // The normal coordinate system

  /** `makeNormalCoordSys(normals, offset)`: a 3x3 basis, row by row X, Y, Z, whose Z row is the
      normal at offset. X = (0,0,1) x n + (1,0,0) x n = (-n.y, n.x - n.z, n.y), normalised when
      its length exceeds 1e-20; Y = Z x X. A normal not wholly inside the array throws. */
  function MakeNormalCoordSys(normals: seq<Float32>, offset: Int32, arith: Arith): (r: Result<seq<Float32>>)
    ensures r.Success? <==> 0 <= offset && offset as int + 3 <= |normals|
    ensures r.Failure? ==> r.error == IndexOutOfRange
    ensures r.Success? ==> |r.value| == 9 && r.value[6..] == normals[offset..offset as int + 3]
    ensures r.Success? ==> var n := normals[offset..offset as int + 3];
      var len := arith.sqrt(arith.add(arith.mul(arith.mul(TWO, Negate(n[1])), Negate(n[1])),
                                      arith.mul(arith.sub(n[0], n[2]), arith.sub(n[0], n[2]))));
      !Less(EPS_20, len) ==> r.value[..3] == [Negate(n[1]), arith.sub(n[0], n[2]), n[1]]
  {
    if offset < 0 || offset as int + 3 > |normals| then Failure(IndexOutOfRange)
    else
      var n0, n1, n2 := normals[offset], normals[offset as int + 1], normals[offset as int + 2];
      var x0, x1, x2 := Negate(n1), arith.sub(n0, n2), n1;
      var len := arith.sqrt(arith.add(arith.mul(arith.mul(TWO, x0), x0), arith.mul(x1, x1)));
      var inv := arith.div(ONE, len);
      var x := if Less(EPS_20, len) then (arith.mul(x0, inv), arith.mul(x1, inv), arith.mul(x2, inv))
               else (x0, x1, x2);
      var m0, m1, m2 := x.0, x.1, x.2;
      Success([m0, m1, m2,
               arith.sub(arith.mul(n1, m2), arith.mul(n2, m1)),
               arith.sub(arith.mul(n2, m0), arith.mul(n0, m2)),
               arith.sub(arith.mul(n0, m1), arith.mul(n1, m0)),
               n0, n1, n2])
  }
}
