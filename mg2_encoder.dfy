// MG2Encoder: the MG2 body as the encoder produces it. The vertices are
// quantised against a grid laid over their bounding box, sorted by grid
// cell and X, and stored as offsets from their cell origin (X relative to
// the previous vertex of the same cell); the grid indices, the UV
// coordinates and the attributes are delta-coded per component in sorted
// order; the indices are renumbered to the sorted order and MG1-coded; the
// normals are stored relative to the smooth normals of the mesh the decoder
// will rebuild.
module Mg2Encoder {
  import opened Machine
  import opened Wrappers
  import opened Tags
  import opened Lzma
  import opened ByteCoding
  import opened MeshData
  import opened CtmOutput
  import opened FloatArith
  import opened Grids
  import opened Mg2Deltas
  import opened CommonAlgorithm
  import opened SortableVertices
  import Sorting
  import Mg1Indices
  import RawCodec
  import Mg2Decoder

  /** `STANDARD_NORMAL_PRECISION`, 1/256. */
  const STANDARD_NORMAL_PRECISION: Float32 := PowerOfTwoInverse(8)
  /** `STANDARD_VERTEX_PRECISION`, 1/1024. */
  const STANDARD_VERTEX_PRECISION: Float32 := PowerOfTwoInverse(10)

  // ---------------------------------------------------------------------
  // setupGrid

  /** `Math.Min` of coordinate j over the first n vertices. */
  function BoxMin(v: seq<Float32>, n: nat, j: nat): Float32
    requires 1 <= n && 3 * n <= |v| && j < 3
  {
    if n == 1 then v[j] else FloatMin(BoxMin(v, n - 1, j), v[3 * (n - 1) + j])
  }

  /** `Math.Max` of coordinate j over the first n vertices. */
  function BoxMax(v: seq<Float32>, n: nat, j: nat): Float32
    requires 1 <= n && 3 * n <= |v| && j < 3
  {
    if n == 1 then v[j] else FloatMax(BoxMax(v, n - 1, j), v[3 * (n - 1) + j])
  }

  /** A bound that is a number has no vertex below it, and no vertex coordinate is NaN then. */
  lemma {:induction false} BoxMinBelow(v: seq<Float32>, n: nat, j: nat)
    requires 1 <= n && 3 * n <= |v| && j < 3 && !IsNaN(BoxMin(v, n, j))
    ensures forall i :: 0 <= i < n ==> !IsNaN(v[3 * i + j]) && !Less(v[3 * i + j], BoxMin(v, n, j))
  {
    if n > 1 {
      BoxMinBelow(v, n - 1, j);
    }
  }

  /** A bound that is a number has no vertex above it. */
  lemma {:induction false} BoxMaxAbove(v: seq<Float32>, n: nat, j: nat)
    requires 1 <= n && 3 * n <= |v| && j < 3 && !IsNaN(BoxMax(v, n, j))
    ensures forall i :: 0 <= i < n ==> !IsNaN(v[3 * i + j]) && !Less(BoxMax(v, n, j), v[3 * i + j])
  {
    if n > 1 {
      BoxMaxAbove(v, n - 1, j);
    }
  }

  /** The lower corner of the box around the first n vertices. */
  function BoxMins(v: seq<Float32>, n: nat): (r: seq<Float32>)
    requires 1 <= n && 3 * n <= |v|
    ensures |r| == 3
  {
    [BoxMin(v, n, 0), BoxMin(v, n, 1), BoxMin(v, n, 2)]
  }

  /** The upper corner of the box around the first n vertices. */
  function BoxMaxs(v: seq<Float32>, n: nat): (r: seq<Float32>)
    requires 1 <= n && 3 * n <= |v|
    ensures |r| == 3
  {
    [BoxMax(v, n, 0), BoxMax(v, n, 1), BoxMax(v, n, 2)]
  }

  /** A division raised to one cell when it comes out lower. */
  function AtLeastOne(w: Int32): (r: Int32)
    ensures r >= 1 && (w >= 1 ==> r == w)
  {
    if w < 1 then 1 else w
  }

  /** The extents of the box along the three axes. */
  function Extents(min: seq<Float32>, max: seq<Float32>, arith: Arith): (f: seq<Float32>)
    requires |min| == 3 && |max| == 3
    ensures |f| == 3
  {
    seq(3, i requires 0 <= i < 3 => arith.sub(max[i], min[i]))
  }

  /** Each extent multiplied by inv. */
  function Shares(f: seq<Float32>, inv: Float32, arith: Arith): (r: seq<Float32>)
    ensures |r| == |f|
  {
    seq(|f|, i requires 0 <= i < |f| => arith.mul(f[i], inv))
  }

  /** The cells each share is given, at least one. */
  function CellCounts(vc: int, f: seq<Float32>, arith: Arith): (r: seq<Int32>)
    ensures |r| == |f|
    ensures forall i :: 0 <= i < |r| ==> r[i] >= 1
  {
    var r := seq<Int32>(|f|, i requires 0 <= i < |f| => AtLeastOne(arith.wantedDivision(vc, f[i])));
    assert forall i :: 0 <= i < |r| ==> r[i] == AtLeastOne(arith.wantedDivision(vc, f[i]));
    r
  }

  /** The divisions `setupGrid` picks: the extents' sum above 1e-30 shares the wanted number of
      cells out by extent, with at least one cell per axis; otherwise 4 x 4 x 4. */
  function Divisions(vc: int, min: seq<Float32>, max: seq<Float32>, arith: Arith): (d: seq<Int32>)
    requires |min| == 3 && |max| == 3
    ensures |d| == 3
  {
    var f := Extents(min, max, arith);
    var sum := arith.add(arith.add(f[0], f[1]), f[2]);
    if Less(TINY, sum) then CellCounts(vc, Shares(f, arith.div(ONE, sum), arith), arith)
    else [4, 4, 4]
  }

  /** `setupGrid(vertices)`: the bounding box of the whole vertices and the divisions; fewer than
      three floats throw at the first read. */
  function GridOf(v: seq<Float32>, arith: Arith): (r: Result<Grid>)
    ensures r.Failure? <==> |v| < 3
    ensures r.Failure? ==> r.error == IndexOutOfRange
    ensures r.Success? ==> Shaped(r.value)
  {
    if |v| < 3 then Failure(IndexOutOfRange)
    else
      var vc := |v| / 3;
      var min, max := BoxMins(v, vc), BoxMaxs(v, vc);
      Success(Grid(min, max, Divisions(vc, min, max, arith)))
  }

  /** The grid encloses every vertex, has at least one cell per axis, 4 x 4 x 4 when the box is
      flat, and so passes `checkIntegrity`: the decoder accepts every grid the encoder sets up. */
  lemma SetupGridValid(v: seq<Float32>, arith: Arith)
    requires |v| >= 3
    ensures var g := GridOf(v, arith).value;
      Grids.CheckIntegrity(g) &&
      (forall i, j :: 0 <= i < |v| / 3 && 0 <= j < 3 ==>
         !Less(Point(v, i)[j], g.min[j]) && !Less(g.max[j], Point(v, i)[j])) &&
      (forall j :: 0 <= j < 3 ==> g.division[j] >= 1) &&
      (var f0, f1, f2 := arith.sub(g.max[0], g.min[0]), arith.sub(g.max[1], g.min[1]), arith.sub(g.max[2], g.min[2]);
       !Less(TINY, arith.add(arith.add(f0, f1), f2)) ==> g.division == [4, 4, 4])
  {
    var g := GridOf(v, arith).value;
    var vc := |v| / 3;
    forall j | 0 <= j < 3
      ensures !Less(g.max[j], g.min[j])
      ensures forall i :: 0 <= i < vc ==> !Less(v[3 * i + j], g.min[j]) && !Less(g.max[j], v[3 * i + j])
    {
      if !IsNaN(g.min[j]) {
        BoxMinBelow(v, vc, j);
      }
      if !IsNaN(g.max[j]) {
        BoxMaxAbove(v, vc, j);
      }
    }
    Grids.DivisionsFromAll(g.division, 0);
    assert Grids.BoundsFrom(g, 3);
    assert Grids.BoundsFrom(g, 0);
  }

  /** One turn of the min/max loop: vertex i taken into the bounds of every axis. */
  method TakeVertex(min: array<Float32>, max: array<Float32>, vertices: seq<Float32>, i: nat)
    requires min.Length == 3 && max.Length == 3 && min != max
    requires 1 <= i && 3 * i + 3 <= |vertices|
    requires min[..] == BoxMins(vertices, i) && max[..] == BoxMaxs(vertices, i)
    modifies min, max
    ensures min[..] == BoxMins(vertices, i + 1) && max[..] == BoxMaxs(vertices, i + 1)
  {
    ghost var lo, hi := BoxMins(vertices, i + 1), BoxMaxs(vertices, i + 1);
    ghost var lo0, hi0 := min[..], max[..];
    BoxStep(vertices, i);
    for j := 0 to 3
      invariant forall c :: 0 <= c < j ==> min[c] == lo[c] && max[c] == hi[c]
      invariant forall c :: j <= c < 3 ==> min[c] == lo0[c] && max[c] == hi0[c]
    {
      min[j] := FloatMin(min[j], vertices[3 * i + j]);
      max[j] := FloatMax(max[j], vertices[3 * i + j]);
    }
  }

  /** Taking vertex i into the box works coordinate by coordinate. */
  lemma BoxStep(v: seq<Float32>, i: nat)
    requires 1 <= i && 3 * i + 3 <= |v|
    ensures forall c :: 0 <= c < 3 ==> BoxMins(v, i + 1)[c] == FloatMin(BoxMins(v, i)[c], v[3 * i + c])
    ensures forall c :: 0 <= c < 3 ==> BoxMaxs(v, i + 1)[c] == FloatMax(BoxMaxs(v, i)[c], v[3 * i + c])
  {
  }

  /** The bounding box loops of `setupGrid`. */
  method BoundingBox(vertices: seq<Float32>) returns (min: array<Float32>, max: array<Float32>)
    requires |vertices| >= 3
    ensures fresh(min) && fresh(max) && min != max
    ensures min[..] == BoxMins(vertices, |vertices| / 3) && max[..] == BoxMaxs(vertices, |vertices| / 3)
  {
    var vc := |vertices| / 3;
    min := new Float32[3](_ => Float32(0));
    max := new Float32[3](_ => Float32(0));
    for i := 0 to 3
      invariant forall c :: 0 <= c < i ==> min[c] == vertices[c] && max[c] == vertices[c]
    {
      min[i] := vertices[i];
      max[i] := vertices[i];
    }
    assert min[..] == BoxMins(vertices, 1) && max[..] == BoxMaxs(vertices, 1);
    for i := 1 to vc
      invariant min[..] == BoxMins(vertices, i) && max[..] == BoxMaxs(vertices, i)
    {
      TakeVertex(min, max, vertices, i);
    }
  }

  /** The loop of `setupGrid` that takes the extents. */
  method ComputeExtents(min: array<Float32>, max: array<Float32>, arith: Arith) returns (factor: array<Float32>)
    requires min.Length == 3 && max.Length == 3
    ensures fresh(factor) && factor[..] == Extents(min[..], max[..], arith)
  {
    factor := new Float32[3](_ => Float32(0));
    for i := 0 to 3
      invariant forall c :: 0 <= c < i ==> factor[c] == arith.sub(max[c], min[c])
    {
      factor[i] := arith.sub(max[i], min[i]);
    }
  }

  /** The loop of `setupGrid` that turns the extents into shares of their sum. */
  method ScaleExtents(factor: array<Float32>, inv: Float32, arith: Arith)
    modifies factor
    ensures factor[..] == Shares(old(factor[..]), inv, arith)
  {
    ghost var f := factor[..];
    for i := 0 to factor.Length
      invariant forall c :: 0 <= c < i ==> factor[c] == arith.mul(f[c], inv)
      invariant forall c :: i <= c < factor.Length ==> factor[c] == f[c]
    {
      factor[i] := arith.mul(factor[i], inv);
    }
  }

  /** The loop of `setupGrid` that gives each axis its cells. */
  method DivideExtents(vc: int, factor: array<Float32>, arith: Arith) returns (division: array<Int32>)
    ensures fresh(division) && division[..] == CellCounts(vc, factor[..], arith)
  {
    division := new Int32[factor.Length](_ => 0);
    for i := 0 to factor.Length
      invariant forall c :: 0 <= c < i ==> division[c] == AtLeastOne(arith.wantedDivision(vc, factor[c]))
    {
      division[i] := arith.wantedDivision(vc, factor[i]);
      if division[i] < 1 {
        division[i] := 1;
      }
    }
  }

  /** `setupGrid`. */
  method SetupGrid(vertices: seq<Float32>, arith: Arith) returns (r: Result<Grid>)
    ensures r == GridOf(vertices, arith)
  {
    if |vertices| < 3 {
      return Failure(IndexOutOfRange);
    }
    var vc := |vertices| / 3;
    var min, max := BoundingBox(vertices);
    var factor := ComputeExtents(min, max, arith);
    var sum := arith.add(arith.add(factor[0], factor[1]), factor[2]);
    var division;
    if Less(TINY, sum) {
      sum := arith.div(ONE, sum);
      ScaleExtents(factor, sum, arith);
      division := DivideExtents(vc, factor, arith);
    } else {
      division := new Int32[3](_ => 4);
      assert division[..] == [4, 4, 4];
    }
    return Success(Grid(min[..], max[..], division[..]));
  }

  // ---------------------------------------------------------------------
  // pointToGridIdx

  /** The cell of a point along axis i: `Math.Floor((point[i] - min[i]) / size[i])`, lowered to
      the last cell when it is at or past the division count. */
  function AxisCell(grid: Grid, point: seq<Float32>, i: nat, arith: Arith): (c: Int32)
    requires Shaped(grid) && |point| == 3 && i < 3
    ensures grid.division[i] >= 1 ==> c < grid.division[i]
  {
    var size := GetSize(grid, arith);
    var c := arith.floorToInt(arith.div(arith.sub(point[i], grid.min[i]), size[i]));
    if c >= grid.division[i] then Wrap32(grid.division[i] as int - 1) else c
  }

  /** `pointToGridIdx(grid, point)`: the three axis cells, flattened as x + dx*(y + dy*z). */
  function GridIndexOf(grid: Grid, point: seq<Float32>, arith: Arith): Int32
    requires Shaped(grid) && |point| == 3
  {
    FlatIndex(AxisCell(grid, point, 0, arith), AxisCell(grid, point, 1, arith), AxisCell(grid, point, 2, arith),
              grid.division[0], grid.division[1])
  }

  /** A point whose axis cells are not below the grid, in a grid whose cells are numbered within
      an int, gets a grid index whose origin (as `gridIdxToPoint` finds it) is that of its own
      cell. */
  lemma GridIndexOfOrigin(grid: Grid, point: seq<Float32>, arith: Arith)
    requires Shaped(grid) && |point| == 3 && Grids.CheckIntegrity(grid)
    requires forall i :: 0 <= i < 3 ==> 0 <= AxisCell(grid, point, i, arith)
    requires grid.division[0] as int * grid.division[1] as int < TWO_31
    requires var x, y, z := AxisCell(grid, point, 0, arith), AxisCell(grid, point, 1, arith), AxisCell(grid, point, 2, arith);
      x as int + grid.division[0] as int * (y as int + grid.division[1] as int * z as int) < TWO_31
    ensures var c := (AxisCell(grid, point, 0, arith), AxisCell(grid, point, 1, arith), AxisCell(grid, point, 2, arith));
      GridPoint(grid, GridIndexOf(grid, point, arith), arith) == Success(CellOrigin(grid, c, arith))
  {
    Grids.DivisionsFromAll(grid.division, 0);
    GridPointFlatIndex(grid, AxisCell(grid, point, 0, arith), AxisCell(grid, point, 1, arith),
                       AxisCell(grid, point, 2, arith), arith);
  }

  /** One turn of the per-axis loop of `pointToGridIdx`. */
  method StoreAxisCell(idx: array<Int32>, grid: Grid, point: seq<Float32>, size: seq<Float32>, i: nat, arith: Arith)
    requires Shaped(grid) && |point| == 3 && size == GetSize(grid, arith) && i < 3 && idx.Length == 3
    modifies idx
    ensures idx[..] == old(idx[..])[i := AxisCell(grid, point, i, arith)]
  {
    idx[i] := arith.floorToInt(arith.div(arith.sub(point[i], grid.min[i]), size[i]));
    if idx[i] >= grid.division[i] {
      idx[i] := Wrap32(grid.division[i] as int - 1);
    }
  }

  /** `pointToGridIdx`, with its per-axis loop. */
  method PointToGridIdx(grid: Grid, point: seq<Float32>, arith: Arith) returns (r: Int32)
    requires Shaped(grid) && |point| == 3
    ensures r == GridIndexOf(grid, point, arith)
  {
    var idx := new Int32[3](_ => 0);
    var size := GetSize(grid, arith);
    for i := 0 to 3
      invariant forall c :: 0 <= c < i ==> idx[c] == AxisCell(grid, point, c, arith)
    {
      StoreAxisCell(idx, grid, point, size, i, arith);
    }
    return FlatIndex(idx[0], idx[1], idx[2], grid.division[0], grid.division[1]);
  }

  // ---------------------------------------------------------------------
  // sortVertices

  /** The three coordinates of vertex i. */
  function Point(v: seq<Float32>, i: nat): (p: seq<Float32>)
    requires 3 * i + 3 <= |v|
    ensures |p| == 3
  {
    [v[3 * i], v[3 * i + 1], v[3 * i + 2]]
  }

  /** The sortable vertices before sorting: vertex i with its X, its grid index and i. */
  function Unsorted(grid: Grid, v: seq<Float32>, arith: Arith): (r: seq<SortableVertex>)
    requires Shaped(grid) && |v| < TWO_31
    ensures |r| == |v| / 3
    ensures forall i :: 0 <= i < |r| ==> r[i].originalIndex == i && r[i].x == v[3 * i]
  {
    UnsortedUpTo(grid, v, |v| / 3, arith)
  }

  /** The first n sortable vertices. */
  function UnsortedUpTo(grid: Grid, v: seq<Float32>, n: nat, arith: Arith): (r: seq<SortableVertex>)
    requires Shaped(grid) && |v| < TWO_31 && n <= |v| / 3
    ensures |r| == n
    ensures forall i :: 0 <= i < n ==> r[i].originalIndex == i && r[i].x == v[3 * i]
  {
    if n == 0 then [] else UnsortedUpTo(grid, v, n - 1, arith) + [SortableAt(grid, v, n - 1, arith)]
  }

  /** Vertex i as the fill loop of `sortVertices` makes it sortable. */
  function SortableAt(grid: Grid, v: seq<Float32>, i: nat, arith: Arith): SortableVertex
    requires Shaped(grid) && |v| < TWO_31 && i < |v| / 3
  {
    SortableVertex(v[3 * i], GridIndexOf(grid, Point(v, i), arith), i as Int32)
  }

  /** `sortVertices(grid, v)`: the sortable vertices ordered by grid index, then x, by a stable
      insertion sort; ties keep their first order. */
  function SortedVertices(grid: Grid, v: seq<Float32>, arith: Arith): (r: seq<SortableVertex>)
    requires Shaped(grid) && |v| < TWO_31
    ensures |r| == |v| / 3
  {
    Sorting.InsertionSort(Unsorted(grid, v, arith), Le)
  }

  /** The original indices the sorted vertices carry. */
  function Originals(sorted: seq<SortableVertex>): set<int>
  {
    set i | 0 <= i < |sorted| :: sorted[i].originalIndex as int
  }

  /** Every vertex number below n is the original index of some sorted vertex. */
  predicate Covers(sorted: seq<SortableVertex>, n: nat)
  {
    forall k :: 0 <= k < n ==> k in Originals(sorted)
  }

  /** Every original index names one of the vertices. */
  predicate OriginalsInRange(sorted: seq<SortableVertex>)
  {
    forall i :: 0 <= i < |sorted| ==> 0 <= sorted[i].originalIndex < |sorted|
  }

  /** A rearrangement of vertices numbered 0, 1, 2, ... in order carries every number once. */
  lemma PermutedOriginals(s: seq<SortableVertex>, u: seq<SortableVertex>)
    requires multiset(s) == multiset(u)
    requires forall i :: 0 <= i < |u| ==> u[i].originalIndex == i
    ensures OriginalsInRange(s) && Covers(s, |s|)
  {
    assert |s| == |multiset(s)| == |u|;
    forall i | 0 <= i < |s| ensures 0 <= s[i].originalIndex < |s| {
      assert s[i] in multiset(u);
      var m :| 0 <= m < |u| && u[m] == s[i];
    }
    forall k | 0 <= k < |s| ensures k in Originals(s) {
      assert u[k] in multiset(s);
      var i :| 0 <= i < |s| && s[i] == u[k];
      assert s[i].originalIndex == k;
    }
  }

  /** The sorted vertices are in grid-cell-then-X order, are the vertices of the mesh each as
      often as before, and so number every vertex exactly by its original index. */
  lemma SortedVerticesCorrect(grid: Grid, v: seq<Float32>, arith: Arith)
    requires Shaped(grid) && |v| < TWO_31
    ensures var s := SortedVertices(grid, v, arith);
      Sorting.Sorted(s, Le) && multiset(s) == multiset(Unsorted(grid, v, arith)) &&
      OriginalsInRange(s) && Covers(s, |s|)
  {
    var u := Unsorted(grid, v, arith);
    LeTotalPreorder();
    Sorting.InsertionSortCorrect(u, Le);
    PermutedOriginals(Sorting.InsertionSort(u, Le), u);
  }

  /** The body of the fill loop of `sortVertices`. */
  method MakeSortable(grid: Grid, v: seq<Float32>, i: nat, arith: Arith) returns (s: SortableVertex)
    requires Shaped(grid) && |v| < TWO_31 && i < |v| / 3
    ensures s == SortableAt(grid, v, i, arith)
  {
    var p2g := PointToGridIdx(grid, Point(v, i), arith);
    s := SortableVertex(v[3 * i], p2g, i as Int32);
  }

  /** The loop of `sortVertices` that fills the sortable vertices. */
  method FillSortable(grid: Grid, v: seq<Float32>, arith: Arith) returns (sv: array<SortableVertex>)
    requires Shaped(grid) && |v| < TWO_31
    ensures fresh(sv) && sv[..] == Unsorted(grid, v, arith)
  {
    var vc := |v| / 3;
    sv := new SortableVertex[vc](_ => SortableVertex(Float32(0), 0, 0));
    for i := 0 to vc
      invariant sv[..i] == UnsortedUpTo(grid, v, i, arith)
    {
      sv[i] := MakeSortable(grid, v, i, arith);
      assert sv[..i + 1] == sv[..i] + [sv[i]];
    }
    assert sv[..] == sv[..vc];
  }

  /** `sortVertices`: the sortable vertices filled in, then sorted by grid index and x. */
  method SortVertices(grid: Grid, v: seq<Float32>, arith: Arith) returns (sorted: seq<SortableVertex>)
    requires Shaped(grid) && |v| < TWO_31
    ensures sorted == SortedVertices(grid, v, arith)
  {
    var sv := FillSortable(grid, v, arith);
    sorted := Sorting.InsertionSort(sv[..], Le);
  }

  // ---------------------------------------------------------------------
  // reIndexIndices

  /** The last sorted position whose original index is k, if any. */
  function LookUp(sorted: seq<SortableVertex>, k: int): (r: Option<nat>)
    ensures r.Some? ==> r.value < |sorted| && sorted[r.value].originalIndex == k
    ensures r.None? ==> forall i :: 0 <= i < |sorted| ==> sorted[i].originalIndex != k
  {
    if sorted == [] then None
    else if sorted[|sorted| - 1].originalIndex == k then Some(|sorted| - 1)
    else LookUp(sorted[..|sorted| - 1], k)
  }

  /** The entry of `indexLUT` for vertex k: the position the loop wrote last for it, or the
      array's initial 0. */
  function LutEntry(sorted: seq<SortableVertex>, k: int): Int32
    requires |sorted| < TWO_31
  {
    match LookUp(sorted, k)
    case Some(i) => i as Int32
    case None => 0
  }

  /** `indexLUT` after the loop over the first sorted vertices, for n vertices. */
  function Lut(sorted: seq<SortableVertex>, n: nat): (r: seq<Int32>)
    requires |sorted| < TWO_31
    ensures |r| == n
  {
    seq(n, k requires 0 <= k < n => LutEntry(sorted, k))
  }

  /** One more turn of the loop writes that vertex's position over its entry. */
  lemma LutStep(sorted: seq<SortableVertex>, i: nat, n: nat)
    requires i < |sorted| < TWO_31 && 0 <= sorted[i].originalIndex < n
    ensures Lut(sorted[..i + 1], n) == Lut(sorted[..i], n)[sorted[i].originalIndex := i as Int32]
  {
    assert sorted[..i + 1][..i] == sorted[..i];
  }

  /** `reIndexIndices(sorted, indices)`: every index replaced by the sorted position of its vertex;
      an index that is not a vertex number throws on the table. */
  function ReIndexed(sorted: seq<SortableVertex>, indices: seq<Int32>): (r: Result<seq<Int32>>)
    requires |sorted| < TWO_31
    ensures r.Failure? <==> exists i :: 0 <= i < |indices| && !(0 <= indices[i] < |sorted|)
    ensures r.Failure? ==> r.error == IndexOutOfRange
    ensures r.Success? ==> |r.value| == |indices|
  {
    if exists i :: 0 <= i < |indices| && !(0 <= indices[i] < |sorted|) then Failure(IndexOutOfRange)
    else Success(seq(|indices|, i requires 0 <= i < |indices| => LutEntry(sorted, indices[i])))
  }

  /** The renumbering is the inverse of the sort: the sorted vertex at an index's new number is
      the vertex the index named. */
  lemma ReIndexedInverse(sorted: seq<SortableVertex>, indices: seq<Int32>)
    requires |sorted| < TWO_31 && Covers(sorted, |sorted|) && ReIndexed(sorted, indices).Success?
    ensures forall i :: 0 <= i < |indices| ==>
      0 <= ReIndexed(sorted, indices).value[i] < |sorted| &&
      sorted[ReIndexed(sorted, indices).value[i]].originalIndex == indices[i]
  {
    forall i | 0 <= i < |indices|
      ensures LookUp(sorted, indices[i]).Some?
    {
      var k := indices[i];
      assert 0 <= k < |sorted|;
      assert k in Originals(sorted);
    }
  }

  /** `reIndexIndices`, with its lookup table and its renumbering loop. */
  method ReIndexIndices(sorted: seq<SortableVertex>, indices: seq<Int32>) returns (r: Result<seq<Int32>>)
    requires |sorted| < TWO_31 && OriginalsInRange(sorted)
    ensures r == ReIndexed(sorted, indices)
  {
    var n := |sorted|;
    var indexLUT := new Int32[n](_ => 0);
    var newIndices := new Int32[|indices|](_ => 0);
    assert indexLUT[..] == Lut(sorted[..0], n);
    for i := 0 to n
      invariant indexLUT[..] == Lut(sorted[..i], n)
    {
      LutStep(sorted, i, n);
      indexLUT[sorted[i].originalIndex] := i as Int32;
    }
    assert sorted[..n] == sorted;
    for i := 0 to |indices|
      invariant indexLUT[..] == Lut(sorted, n)
      invariant forall c :: 0 <= c < i ==> 0 <= indices[c] < n && newIndices[c] == LutEntry(sorted, indices[c])
    {
      if !(0 <= indices[i] < n) {
        return Failure(IndexOutOfRange);
      }
      assert indexLUT[indices[i]] == Lut(sorted, n)[indices[i]];
      newIndices[i] := indexLUT[indices[i]];
    }
    assert newIndices[..] == seq(|indices|, i requires 0 <= i < |indices| => LutEntry(sorted, indices[i]));
    return Success(newIndices[..]);
  }

  // ---------------------------------------------------------------------
  // The grid index deltas of `encode`

  /** The grid indices of the sorted vertices, in sorted order. */
  function GridIndices(sorted: seq<SortableVertex>): (gs: seq<Int32>)
    ensures |gs| == |sorted|
  {
    seq(|sorted|, i requires 0 <= i < |sorted| => sorted[i].gridIndex)
  }

  /** The loop of `encode` that stores each grid index as its difference from the one before. */
  method GridIndexDeltas(sorted: seq<SortableVertex>) returns (gridIndices: array<Int32>)
    requires |sorted| >= 1
    ensures fresh(gridIndices) && gridIndices[..] == StrideDeltas(GridIndices(sorted), 1)
  {
    ghost var gs := GridIndices(sorted);
    gridIndices := new Int32[|sorted|](_ => 0);
    gridIndices[0] := sorted[0].gridIndex;
    for i := 1 to |sorted|
      invariant forall c :: 0 <= c < i ==> gridIndices[c] == StrideDeltas(gs, 1)[c]
    {
      gridIndices[i] := Wrap32(sorted[i].gridIndex as int - sorted[i - 1].gridIndex as int);
    }
  }

  // ---------------------------------------------------------------------
  // makeVertexDeltas

  /** Every sorted vertex has its row of k values in the table. */
  predicate RowsWithin(values: seq<Float32>, sorted: seq<SortableVertex>, k: nat)
  {
    forall i :: 0 <= i < |sorted| ==> 0 <= sorted[i].originalIndex && k * sorted[i].originalIndex as int + k <= |values|
  }

  /** The sorted vertices carry indices of vertices of the table. */
  lemma VerticesWithin(vertices: seq<Float32>, sorted: seq<SortableVertex>)
    requires OriginalsInRange(sorted) && 3 * |sorted| <= |vertices|
    ensures RowsWithin(vertices, sorted, 3)
  {
    forall i | 0 <= i < |sorted| ensures 3 * sorted[i].originalIndex as int + 3 <= |vertices| {
      assert sorted[i].originalIndex as int + 1 <= |sorted|;
    }
  }

  /** The offsets of vertex orig from a cell origin, in fixed point with step 1/scale. */
  function OffsetRow(vertices: seq<Float32>, orig: nat, origin: seq<Float32>, scale: Float32, arith: Arith)
    : (r: seq<Int32>)
    requires 3 * orig + 3 <= |vertices| && |origin| == 3
    ensures |r| == 3
  {
    [Quantize(arith, scale, arith.sub(vertices[3 * orig], origin[0])),
     Quantize(arith, scale, arith.sub(vertices[3 * orig + 1], origin[1])),
     Quantize(arith, scale, arith.sub(vertices[3 * orig + 2], origin[2]))]
  }

  /** The offsets of the sorted vertices from their cell origins, row by row. */
  function Offsets(vertices: seq<Float32>, sorted: seq<SortableVertex>, origins: seq<seq<Float32>>,
                   scale: Float32, arith: Arith): (r: seq<Int32>)
    requires RowsWithin(vertices, sorted, 3) && |origins| == |sorted| && ThreeEach(origins)
    ensures |r| == 3 * |sorted|
    decreases |sorted|
  {
    if sorted == [] then []
    else
      var n := |sorted| - 1;
      Offsets(vertices, sorted[..n], origins[..n], scale, arith) +
        OffsetRow(vertices, sorted[n].originalIndex as nat, origins[n], scale, arith)
  }

  /** `makeVertexDeltas(vertices, sorted, grid)`: each sorted vertex as its offsets from the
      origin of its grid cell, X coded relative to the previous vertex of the same cell; a grid
      index that does not decompose fails. `prevGridIndex` is a float, so the cell test compares
      the grid indices after conversion to float. */
  function VertexTable(vertices: seq<Float32>, sorted: seq<SortableVertex>, grid: Grid, precision: Float32,
                       arith: Arith): (r: Result<seq<Int32>>)
    requires Shaped(grid) && RowsWithin(vertices, sorted, 3)
    ensures r.Success? <==> Origins(grid, GridIndices(sorted), arith).Success?
    ensures r.Success? ==> |r.value| == 3 * |sorted|
  {
    var os :- Origins(grid, GridIndices(sorted), arith);
    Success(VertexDeltas(GridIndices(sorted), Offsets(vertices, sorted, os, arith.div(ONE, precision), arith), SameCellAsWritten))
  }

  /** The decoder puts every sorted vertex back at its fixed-point offsets from its cell origin:
      `restoreVertices` undoes `makeVertexDeltas` on the grid indices the encoder writes, as
      long as they are at most 2^24, where the float comparison is exact. */
  lemma VertexTableRestores(vertices: seq<Float32>, sorted: seq<SortableVertex>, grid: Grid, precision: Float32,
                            arith: Arith)
    requires Shaped(grid) && RowsWithin(vertices, sorted, 3) && SmallGridIndices(GridIndices(sorted))
    requires VertexTable(vertices, sorted, grid, precision, arith).Success?
    ensures var os := Origins(grid, GridIndices(sorted), arith).value;
      RestoredVertices(VertexTable(vertices, sorted, grid, precision, arith).value, GridIndices(sorted), grid,
                       precision, arith)
      == Success(Placed(Offsets(vertices, sorted, os, arith.div(ONE, precision), arith), os, precision, arith))
  {
    var gs := GridIndices(sorted);
    var os := Origins(grid, gs, arith).value;
    var o := Offsets(vertices, sorted, os, arith.div(ONE, precision), arith);
    VertexDeltasSmall(gs, o);
    var t := VertexDeltas(gs, o, SameCell);
    assert gs[..|t| / 3] == gs;
    assert t[..3 * (|t| / 3)] == t;
    RestoredVertexDeltas(gs, o);
  }

  /** What the `makeVertexDeltas` loop has built after i vertices, whose grid indices gs lists:
      the cell origins, the offsets and the table of the first i, and the grid index and X offset
      of vertex i-1. */
  ghost predicate DeltasUpTo(vertices: seq<Float32>, sorted: seq<SortableVertex>, gs: seq<Int32>, grid: Grid,
                             scale: Float32, arith: Arith, i: nat, os: seq<seq<Float32>>, offs: seq<Int32>,
                             table: seq<Int32>, prevGridIndex: int, prevDeltaX: Int32)
    requires Shaped(grid) && RowsWithin(vertices, sorted, 3)
  {
    i <= |sorted| && i <= |gs| && Origins(grid, gs[..i], arith) == Success(os) &&
    offs == Offsets(vertices, sorted[..i], os, scale, arith) &&
    table == VertexDeltas(gs[..i], offs, SameCellAsWritten) &&
    (i == 0 ==> prevGridIndex == SingleOf(INT_MAX as int)) && (i > 0 ==> prevGridIndex == SingleOf(gs[i - 1] as int)) &&
    prevDeltaX == (if i == 0 then 0 else offs[3 * i - 3])
  }

  /** The offsets of one more vertex extend the offsets of those before it. */
  lemma OffsetsStep(vertices: seq<Float32>, sorted: seq<SortableVertex>, i: nat, os: seq<seq<Float32>>,
                    o: seq<Float32>, scale: Float32, arith: Arith)
    requires RowsWithin(vertices, sorted, 3) && i < |sorted| && |os| == i && ThreeEach(os) && |o| == 3
    ensures Offsets(vertices, sorted[..i + 1], os + [o], scale, arith) ==
      Offsets(vertices, sorted[..i], os, scale, arith) + OffsetRow(vertices, sorted[i].originalIndex as nat, o, scale, arith)
  {
    assert sorted[..i + 1][..i] == sorted[..i];
    assert (os + [o])[..i] == os;
  }

  /** The table of one more vertex extends the table of those before it. */
  lemma VertexDeltasStep(gs: seq<Int32>, i: nat, offs: seq<Int32>, row: seq<Int32>)
    requires i < |gs| && |offs| == 3 * i && |row| == 3
    ensures VertexDeltas(gs[..i + 1], offs + row, SameCellAsWritten) ==
      VertexDeltas(gs[..i], offs, SameCellAsWritten) + [StoredX(gs[..i + 1], offs + row, SameCellAsWritten, i), row[1], row[2]]
  {
    assert gs[..i + 1][..i] == gs[..i];
    assert (offs + row)[..3 * i] == offs;
  }

  /** The stored X of one more vertex, from the grid index and X offset of the vertex before. */
  lemma StoredXStep(gs: seq<Int32>, i: nat, offs: seq<Int32>, row: seq<Int32>, prevGridIndex: int,
                    prevDeltaX: Int32)
    requires i < |gs| && |offs| == 3 * i && |row| == 3
    requires prevGridIndex == SingleOf(if i == 0 then INT_MAX as int else gs[i - 1] as int)
    requires prevDeltaX == (if i == 0 then 0 else offs[3 * i - 3])
    ensures StoredX(gs[..i + 1], offs + row, SameCellAsWritten, i) ==
      if SingleOf(gs[i] as int) == prevGridIndex then Wrap32(row[0] as int - prevDeltaX as int) else row[0]
  {
    var g, o := gs[..i + 1], offs + row;
    assert o[3 * i] == row[0];
    assert SingleOf(PrevGrid(g, i) as int) == prevGridIndex;
    assert (if i == 0 then 0 else o[3 * i - 3]) == prevDeltaX;
  }

  /** One turn of the `makeVertexDeltas` loop: vertex i, whose cell origin is o, extends what
      the loop has built. */
  lemma DeltasStep(vertices: seq<Float32>, sorted: seq<SortableVertex>, gs: seq<Int32>, grid: Grid, scale: Float32,
                   arith: Arith, i: nat, os: seq<seq<Float32>>, offs: seq<Int32>, table: seq<Int32>,
                   prevGridIndex: int, prevDeltaX: Int32, o: seq<Float32>, row: seq<Int32>, x: Int32)
    requires Shaped(grid) && RowsWithin(vertices, sorted, 3) && i < |sorted| && i < |gs|
    requires DeltasUpTo(vertices, sorted, gs, grid, scale, arith, i, os, offs, table, prevGridIndex, prevDeltaX)
    requires GridPoint(grid, gs[i], arith) == Success(o)
    requires row == OffsetRow(vertices, sorted[i].originalIndex as nat, o, scale, arith)
    requires x == if SingleOf(gs[i] as int) == prevGridIndex then Wrap32(row[0] as int - prevDeltaX as int) else row[0]
    ensures DeltasUpTo(vertices, sorted, gs, grid, scale, arith, i + 1, os + [o], offs + row,
                       table + [x, row[1], row[2]], SingleOf(gs[i] as int), row[0])
  {
    assert |offs| == 3 * i && |os| == i;
    OriginsStep(grid, gs, i, arith, os);
    OffsetsStep(vertices, sorted, i, os, o, scale, arith);
    VertexDeltasStep(gs, i, offs, row);
    StoredXStep(gs, i, offs, row, prevGridIndex, prevDeltaX);
    assert (offs + row)[3 * i] == row[0];
  }

  /** The three offsets of vertex orig from the cell origin o, as `makeVertexDeltas` computes them. */
  method VertexOffsets(vertices: seq<Float32>, orig: nat, o: seq<Float32>, scale: Float32, arith: Arith)
    returns (row: seq<Int32>)
    requires 3 * orig + 3 <= |vertices| && |o| == 3
    ensures row == OffsetRow(vertices, orig, o, scale, arith)
  {
    var deltaX := Quantize(arith, scale, arith.sub(vertices[orig * 3], o[0]));
    var deltaY := Quantize(arith, scale, arith.sub(vertices[orig * 3 + 1], o[1]));
    var deltaZ := Quantize(arith, scale, arith.sub(vertices[orig * 3 + 2], o[2]));
    row := [deltaX, deltaY, deltaZ];
  }

  /** One turn of the `makeVertexDeltas` loop: the origin of vertex i's cell, its three
      offsets, and its X relative to the previous vertex when both lie in one cell. */
  method VertexStep(vertices: seq<Float32>, sorted: seq<SortableVertex>, grid: Grid, scale: Float32, arith: Arith,
                    i: nat, ghost os: seq<seq<Float32>>, ghost offs: seq<Int32>, table: seq<Int32>,
                    prevGridIndex: int, prevDeltaX: Int32)
    returns (r: Result<seq<Int32>>, ghost os': seq<seq<Float32>>, ghost offs': seq<Int32>, deltaX: Int32)
    requires Shaped(grid) && RowsWithin(vertices, sorted, 3) && i < |sorted|
    requires DeltasUpTo(vertices, sorted, GridIndices(sorted), grid, scale, arith, i, os, offs, table, prevGridIndex,
                        prevDeltaX)
    ensures r.Failure? ==> Origins(grid, GridIndices(sorted)[..i + 1], arith) == Failure(r.error)
    ensures r.Success? ==> DeltasUpTo(vertices, sorted, GridIndices(sorted), grid, scale, arith, i + 1, os', offs',
                                      r.value, SingleOf(sorted[i].gridIndex as int), deltaX)
  {
    ghost var gs := GridIndices(sorted);
    assert gs[i] == sorted[i].gridIndex;
    var gridIdx := sorted[i].gridIndex;
    var gridOrigin := GridIdxToPoint(grid, gridIdx, arith);
    OriginsStep(grid, gs, i, arith, os);
    if gridOrigin.Failure? {
      return Failure(gridOrigin.error), os, offs, 0;
    }
    var o := gridOrigin.value;
    var row := VertexOffsets(vertices, sorted[i].originalIndex as nat, o, scale, arith);
    deltaX := row[0];
    var x := deltaX;
    if SingleOf(gridIdx as int) == prevGridIndex {
      x := Wrap32(deltaX as int - prevDeltaX as int);
    }
    DeltasStep(vertices, sorted, gs, grid, scale, arith, i, os, offs, table, prevGridIndex, prevDeltaX, o, row, x);
    r, os', offs' := Success(table + [x, row[1], row[2]]), os + [o], offs + row;
  }

  /** `makeVertexDeltas`, with the loop carrying `prevGridIndex` and `prevDeltaX`. */
  method MakeVertexDeltas(vertices: seq<Float32>, sorted: seq<SortableVertex>, grid: Grid, precision: Float32,
                          arith: Arith) returns (r: Result<seq<Int32>>)
    requires Shaped(grid) && RowsWithin(vertices, sorted, 3)
    ensures r == VertexTable(vertices, sorted, grid, precision, arith)
  {
    var vc := |sorted|;
    var scale := arith.div(ONE, precision);
    ghost var gs := GridIndices(sorted);
    // `(float)0x7fffffff` is 2^31, a value no grid index converts to
    var prevGridIndex: int := TWO_31;
    SingleOfIntMax();
    var prevDeltaX: Int32 := 0;
    var intVertices: seq<Int32> := [];
    ghost var os: seq<seq<Float32>> := [];
    ghost var offs: seq<Int32> := [];
    assert sorted[..0] == [] && gs[..0] == [];
    for i := 0 to vc
      invariant DeltasUpTo(vertices, sorted, gs, grid, scale, arith, i, os, offs, intVertices, prevGridIndex,
                           prevDeltaX)
    {
      var step, deltaX;
      step, os, offs, deltaX := VertexStep(vertices, sorted, grid, scale, arith, i, os, offs, intVertices,
                                           prevGridIndex, prevDeltaX);
      if step.Failure? {
        OriginsFails(grid, gs, i + 1, arith);
        return Failure(step.error);
      }
      intVertices := step.value;
      prevGridIndex := SingleOf(sorted[i].gridIndex as int);
      prevDeltaX := deltaX;
    }
    assert sorted[..vc] == sorted && gs[..vc] == gs;
    return Success(intVertices);
  }

  // ---------------------------------------------------------------------
  // makeNormalDeltas

  /** The sorted vertex at position i has a row of k values in the table. */
  predicate RowAt(values: seq<Float32>, sorted: seq<SortableVertex>, k: nat, i: nat)
    requires i < |sorted|
  {
    0 <= sorted[i].originalIndex && k * sorted[i].originalIndex as int + k <= |values|
  }

  /** The first n sorted vertices have their rows of k values in the table. */
  predicate RowsUpTo(values: seq<Float32>, sorted: seq<SortableVertex>, k: nat, n: nat)
  {
    n <= |sorted| && forall i :: 0 <= i < n ==> RowAt(values, sorted, k, i)
  }

  /** The three ints of a triple, in order. */
  function IntsOf(t: (Int32, Int32, Int32)): (r: seq<Int32>)
    ensures |r| == 3 && r[0] == t.0 && r[1] == t.1 && r[2] == t.2
  {
    [t.0, t.1, t.2]
  }

  /** The angular codes of the first n sorted vertices' normals: the normal of the vertex's
      original index, relative to the smooth normal at its sorted position. */
  function NormalRows(normals: seq<Float32>, smooth: seq<Float32>, sorted: seq<SortableVertex>, n: nat,
                      precision: Float32, angular: Angular): (r: seq<Int32>)
    requires RowsUpTo(normals, sorted, 3, n) && 3 * n <= |smooth|
    ensures |r| == 3 * n
  {
    if n == 0 then []
    else
      assert RowAt(normals, sorted, 3, n - 1);
      NormalRows(normals, smooth, sorted, n - 1, precision, angular) +
        IntsOf(angular.toInts(Mg2Decoder.Triple(normals, sorted[n - 1].originalIndex as nat), Mg2Decoder.Triple(smooth, n - 1), precision))
  }

  /** The loop of `makeNormalDeltas` past the smooth normals: the codes of every sorted vertex's
      normal, failing on a vertex whose normal row is missing. */
  function NormalCodes(normals: seq<Float32>, smooth: seq<Float32>, sorted: seq<SortableVertex>,
                       precision: Float32, angular: Angular): (r: Result<seq<Int32>>)
    requires 3 * |sorted| <= |smooth|
    ensures r.Success? <==> RowsUpTo(normals, sorted, 3, |sorted|)
    ensures r.Failure? ==> r.error == IndexOutOfRange
    ensures r.Success? ==> |r.value| == 3 * |sorted|
  {
    if !RowsUpTo(normals, sorted, 3, |sorted|) then Failure(IndexOutOfRange)
    else Success(NormalRows(normals, smooth, sorted, |sorted|, precision, angular))
  }

  /** `makeNormalDeltas(vertices, normals, indices, sorted)`: the smooth normals of the restored
      vertices and renumbered triangles (which fail on an index outside them), then the codes of
      every sorted vertex's normal. */
  function NormalTable(vertices: seq<Float32>, normals: seq<Float32>, indices: seq<Int32>,
                       sorted: seq<SortableVertex>, precision: Float32, arith: Arith, angular: Angular)
    : (r: Result<seq<Int32>>)
    requires |vertices| == 3 * |sorted|
    ensures r.Success? <==> SmoothNormals(vertices, indices, arith).Success? && RowsUpTo(normals, sorted, 3, |sorted|)
    ensures r.Failure? ==> r.error == IndexOutOfRange
    ensures r.Success? ==> |r.value| == |vertices|
  {
    DivUnique(|vertices|, 3, |sorted|, 0);
    var smooth :- SmoothNormals(vertices, indices, arith);
    NormalCodes(normals, smooth, sorted, precision, angular)
  }

  /** The normals the decoder rebuilds for the first n sorted vertices: each normal coded and
      decoded against the same smooth normal. */
  function RecodedNormals(normals: seq<Float32>, smooth: seq<Float32>, sorted: seq<SortableVertex>, n: nat,
                          precision: Float32, angular: Angular): (r: seq<Float32>)
    requires RowsUpTo(normals, sorted, 3, n) && 3 * n <= |smooth|
    ensures |r| == 3 * n
  {
    if n == 0 then []
    else
      assert RowAt(normals, sorted, 3, n - 1);
      var s := Mg2Decoder.Triple(smooth, n - 1);
      RecodedNormals(normals, smooth, sorted, n - 1, precision, angular) +
        Mg2Decoder.Flat(angular.toNormal(angular.toInts(Mg2Decoder.Triple(normals, sorted[n - 1].originalIndex as nat), s, precision),
                              s, precision))
  }

  /** The first n sorted vertices' normals, in sorted order. */
  function SortedNormals(normals: seq<Float32>, sorted: seq<SortableVertex>, n: nat): (r: seq<Float32>)
    requires RowsUpTo(normals, sorted, 3, n)
    ensures |r| == 3 * n
  {
    if n == 0 then []
    else
      assert RowAt(normals, sorted, 3, n - 1);
      SortedNormals(normals, sorted, n - 1) + Mg2Decoder.Flat(Mg2Decoder.Triple(normals, sorted[n - 1].originalIndex as nat))
  }

  /** Row i of the codes of n normals is the code of the normal of sorted vertex i. */
  lemma {:induction false} NormalRowsAt(normals: seq<Float32>, smooth: seq<Float32>, sorted: seq<SortableVertex>,
                                        n: nat, i: nat, precision: Float32, angular: Angular)
    requires RowsUpTo(normals, sorted, 3, n) && 3 * n <= |smooth| && i < n
    ensures RowAt(normals, sorted, 3, i)
    ensures Mg2Decoder.IntTriple(NormalRows(normals, smooth, sorted, n, precision, angular), i) ==
      angular.toInts(Mg2Decoder.Triple(normals, sorted[i].originalIndex as nat), Mg2Decoder.Triple(smooth, i), precision)
  {
    assert RowAt(normals, sorted, 3, i);
    if i < n - 1 {
      NormalRowsAt(normals, smooth, sorted, n - 1, i, precision, angular);
    }
  }

  /** Decoding the first m of the n codes gives the first m normals recoded. */
  lemma {:induction false} AngularNormalsOfRows(normals: seq<Float32>, smooth: seq<Float32>,
                                                sorted: seq<SortableVertex>, n: nat, m: nat, precision: Float32,
                                                angular: Angular)
    requires RowsUpTo(normals, sorted, 3, n) && 3 * n <= |smooth| && m <= n
    ensures Mg2Decoder.AngularNormals(NormalRows(normals, smooth, sorted, n, precision, angular), smooth, m,
                                      precision, angular)
         == RecodedNormals(normals, smooth, sorted, m, precision, angular)
  {
    if m > 0 {
      AngularNormalsOfRows(normals, smooth, sorted, n, m - 1, precision, angular);
      NormalRowsAt(normals, smooth, sorted, n, m - 1, precision, angular);
    }
  }

  /** `restoreNormals` on the codes `makeNormalDeltas` writes, with the vertices and triangles
      the encoder coded them against, rebuilds every sorted vertex's normal recoded against the
      same smooth normal. */
  lemma NormalTableRestores(vertices: seq<Float32>, normals: seq<Float32>, indices: seq<Int32>,
                            sorted: seq<SortableVertex>, precision: Float32, arith: Arith, angular: Angular,
                            smooth: seq<Float32>)
    requires |vertices| == 3 * |sorted| == |smooth| && SmoothNormals(vertices, indices, arith) == Success(smooth)
    requires RowsUpTo(normals, sorted, 3, |sorted|)
    ensures var t := NormalRows(normals, smooth, sorted, |sorted|, precision, angular);
      NormalTable(vertices, normals, indices, sorted, precision, arith, angular) == Success(t) &&
      Mg2Decoder.RestoredNormals(t, vertices, indices, precision, arith, angular)
        == Success(RecodedNormals(normals, smooth, sorted, |sorted|, precision, angular))
  {
    DivUnique(|vertices|, 3, |sorted|, 0);
    var t := NormalRows(normals, smooth, sorted, |sorted|, precision, angular);
    assert NormalTable(vertices, normals, indices, sorted, precision, arith, angular) == Success(t);
    AngularNormalsOfRows(normals, smooth, sorted, |sorted|, |sorted|, precision, angular);
    var decoded := Mg2Decoder.AngularNormals(t, smooth, |sorted|, precision, angular);
    assert decoded + Zeros(0) == decoded;
    assert Mg2Decoder.RestoredNormals(t, vertices, indices, precision, arith, angular) == Success(decoded + Zeros(0));
  }

  /** The angular coding gives back the normal of sorted vertex i exactly. */
  predicate ExactAt(normals: seq<Float32>, smooth: seq<Float32>, sorted: seq<SortableVertex>, i: nat,
                    precision: Float32, angular: Angular)
    requires i < |sorted| && 3 * i + 3 <= |smooth|
  {
    RowAt(normals, sorted, 3, i) &&
    var n, s := Mg2Decoder.Triple(normals, sorted[i].originalIndex as nat), Mg2Decoder.Triple(smooth, i);
    angular.toNormal(angular.toInts(n, s, precision), s, precision) == n
  }

  /** Where the angular coding of each normal is exact against its smooth normal, the decoder
      gives back every normal, in sorted order. */
  lemma {:induction false} RecodedNormalsExact(normals: seq<Float32>, smooth: seq<Float32>,
                                               sorted: seq<SortableVertex>, n: nat, precision: Float32,
                                               angular: Angular)
    requires RowsUpTo(normals, sorted, 3, n) && 3 * n <= |smooth|
    requires forall i :: 0 <= i < n ==> ExactAt(normals, smooth, sorted, i, precision, angular)
    ensures RecodedNormals(normals, smooth, sorted, n, precision, angular) == SortedNormals(normals, sorted, n)
  {
    if n > 0 {
      assert ExactAt(normals, smooth, sorted, n - 1, precision, angular);
      RecodedNormalsExact(normals, smooth, sorted, n - 1, precision, angular);
    }
  }

  /** The loop of `makeNormalDeltas`: one code per sorted vertex, against the smooth normal at
      its sorted position. */
  method CodeNormals(normals: seq<Float32>, smooth: seq<Float32>, sorted: seq<SortableVertex>, precision: Float32,
                     angular: Angular) returns (r: Result<seq<Int32>>)
    requires 3 * |sorted| <= |smooth|
    ensures r == NormalCodes(normals, smooth, sorted, precision, angular)
  {
    var intNormals: seq<Int32> := [];
    for i := 0 to |sorted|
      invariant RowsUpTo(normals, sorted, 3, i)
      invariant intNormals == NormalRows(normals, smooth, sorted, i, precision, angular)
    {
      var oldIdx := sorted[i].originalIndex;
      if oldIdx < 0 || oldIdx as int * 3 + 2 >= |normals| {
        assert !RowAt(normals, sorted, 3, i);
        return Failure(IndexOutOfRange);
      }
      var code := angular.toInts(Mg2Decoder.Triple(normals, oldIdx as nat), Mg2Decoder.Triple(smooth, i), precision);
      intNormals := intNormals + [code.0, code.1, code.2];
    }
    return Success(intNormals);
  }

  /** `makeNormalDeltas`: the smooth normals, then one code per sorted vertex. */
  method MakeNormalDeltas(vertices: seq<Float32>, normals: seq<Float32>, indices: seq<Int32>,
                          sorted: seq<SortableVertex>, precision: Float32, arith: Arith, angular: Angular)
    returns (r: Result<seq<Int32>>)
    requires |vertices| == 3 * |sorted|
    ensures r == NormalTable(vertices, normals, indices, sorted, precision, arith, angular)
  {
    DivUnique(|vertices|, 3, |sorted|, 0);
    var smooth :- CalcSmoothNormals(vertices, indices, arith);
    r := CodeNormals(normals, smooth, sorted, precision, angular);
  }
  // ---------------------------------------------------------------------
  // makeUVCoordDeltas and makeAttribDeltas

  /** k rows of n values: a product that grows by k with each row. */
  lemma RowsGrow(k: nat, n: nat)
    requires n >= 1
    ensures k * (n - 1) + k == k * n && k * n >= k
  {
  }

  /** A whole number of rows of k leaves no remainder. */
  lemma WholeRowsOf(k: nat, n: nat)
    requires k >= 1
    ensures (k * n) % k == 0
  {
    DivUnique(k * n, k, n, 0);
  }

  /** The k values of vertex orig, in fixed point with step 1/scale. */
  function QuantRow(values: seq<Float32>, orig: nat, k: nat, scale: Float32, arith: Arith): (r: seq<Int32>)
    requires k * orig + k <= |values|
    ensures |r| == k
  {
    seq<Int32>(k, j requires 0 <= j < k => Quantize(arith, scale, values[k * orig + j]))
  }

  /** The rows of the first n sorted vertices, in fixed point, one after another. */
  function Gathered(values: seq<Float32>, sorted: seq<SortableVertex>, k: nat, n: nat, scale: Float32, arith: Arith)
    : (r: seq<Int32>)
    requires RowsUpTo(values, sorted, k, n)
    ensures |r| == k * n
  {
    if n == 0 then []
    else
      assert RowAt(values, sorted, k, n - 1);
      RowsGrow(k, n);
      Gathered(values, sorted, k, n - 1, scale, arith) +
        QuantRow(values, sorted[n - 1].originalIndex as nat, k, scale, arith)
  }

  /** The row the delta of sorted vertex n is taken against: zeros for the first vertex, the
      previous vertex's row after it. */
  function PrevRow(values: seq<Float32>, sorted: seq<SortableVertex>, k: nat, n: nat, scale: Float32, arith: Arith)
    : (r: seq<Int32>)
    requires RowsUpTo(values, sorted, k, n)
    ensures |r| == k
  {
    if n == 0 then seq(k, _ => 0)
    else
      assert RowAt(values, sorted, k, n - 1);
      QuantRow(values, sorted[n - 1].originalIndex as nat, k, scale, arith)
  }

  /** `makeUVCoordDeltas` (k = 2) and `makeAttribDeltas` (k = 4): every sorted vertex's row of
      the map in fixed point, each component minus the same component of the vertex before; a
      vertex whose row is missing fails. */
  function MapTable(a: AttributeData, sorted: seq<SortableVertex>, k: nat, arith: Arith): (r: Result<seq<Int32>>)
    requires k >= 1
    ensures r.Success? <==> RowsUpTo(a.values, sorted, k, |sorted|)
    ensures r.Failure? ==> r.error == IndexOutOfRange
    ensures r.Success? ==> |r.value| == k * |sorted|
  {
    if !RowsUpTo(a.values, sorted, k, |sorted|) then Failure(IndexOutOfRange)
    else Success(StrideDeltas(Gathered(a.values, sorted, k, |sorted|, arith.div(ONE, a.precision), arith), k))
  }

  /** `restoreUVCoords` and `restoreAttribs` undo the deltas: every sorted vertex's row comes
      back as its fixed-point values times the precision. */
  lemma MapTableRestores(a: AttributeData, sorted: seq<SortableVertex>, k: nat, arith: Arith)
    requires k >= 1 && MapTable(a, sorted, k, arith).Success?
    ensures Mg2Decoder.RestoredValues(MapTable(a, sorted, k, arith).value, k, a.precision, arith)
         == Mg2Decoder.Scaled(Gathered(a.values, sorted, k, |sorted|, arith.div(ONE, a.precision), arith),
                              a.precision, arith)
  {
    WholeRowsOf(k, |sorted|);
    Mg2Decoder.RestoredValuesOfDeltas(Gathered(a.values, sorted, k, |sorted|, arith.div(ONE, a.precision), arith),
                                      k, a.precision, arith);
  }

  /** Each component of row minus the same component of prev, with C# int wrapping. */
  function RowDeltas(row: seq<Int32>, prev: seq<Int32>): (r: seq<Int32>)
    requires |prev| == |row|
    ensures |r| == |row|
  {
    seq(|row|, j requires 0 <= j < |row| => Wrap32(row[j] as int - prev[j] as int))
  }

  /** Delta coding one more row appends that row minus the row before it (zeros at the start). */
  lemma StrideDeltasStep(q: seq<Int32>, row: seq<Int32>, prev: seq<Int32>, k: nat)
    requires k >= 1 && |row| == k && |prev| == k
    requires (|q| == 0 && forall j :: 0 <= j < k ==> prev[j] == 0) || (|q| >= k && prev == q[|q| - k..])
    ensures StrideDeltas(q + row, k) == StrideDeltas(q, k) + RowDeltas(row, prev)
  {
    var a := StrideDeltas(q + row, k);
    var b := StrideDeltas(q, k) + RowDeltas(row, prev);
    forall p | 0 <= p < |a| ensures a[p] == b[p] {
      if p >= |q| {
        var j := p - |q|;
        if |q| == 0 {
          assert a[p] == row[j];
        } else {
          assert (q + row)[p - k] == prev[j];
        }
      }
    }
  }

  /** One more sorted vertex: its deltas against the previous row, and its row becomes the
      previous one. */
  lemma MapStep(values: seq<Float32>, sorted: seq<SortableVertex>, k: nat, i: nat, scale: Float32, arith: Arith)
    requires k >= 1 && RowsUpTo(values, sorted, k, i + 1)
    ensures RowAt(values, sorted, k, i)
    ensures var row := QuantRow(values, sorted[i].originalIndex as nat, k, scale, arith);
      var prev := PrevRow(values, sorted, k, i, scale, arith);
      StrideDeltas(Gathered(values, sorted, k, i + 1, scale, arith), k) ==
        StrideDeltas(Gathered(values, sorted, k, i, scale, arith), k) + RowDeltas(row, prev) &&
      PrevRow(values, sorted, k, i + 1, scale, arith) == row
  {
    assert RowAt(values, sorted, k, i);
    var q := Gathered(values, sorted, k, i, scale, arith);
    var row := QuantRow(values, sorted[i].originalIndex as nat, k, scale, arith);
    var prev := PrevRow(values, sorted, k, i, scale, arith);
    assert RowsUpTo(values, sorted, k, i);
    if i > 0 {
      RowsGrow(k, i);
      var init := Gathered(values, sorted, k, i - 1, scale, arith);
      assert q == init + prev;
      assert q[|q| - k..] == prev;
    }
    StrideDeltasStep(q, row, prev, k);
  }

  /** The body of `makeUVCoordDeltas`' loop for one vertex: its fixed-point u and v and their
      deltas against the previous vertex's. */
  method UVRow(values: seq<Float32>, orig: nat, scale: Float32, prevU: Int32, prevV: Int32, arith: Arith)
    returns (deltas: seq<Int32>, u: Int32, v: Int32)
    requires 2 * orig + 2 <= |values|
    ensures [u, v] == QuantRow(values, orig, 2, scale, arith)
    ensures deltas == RowDeltas([u, v], [prevU, prevV])
  {
    u := Quantize(arith, scale, values[orig * 2]);
    v := Quantize(arith, scale, values[orig * 2 + 1]);
    deltas := [Wrap32(u as int - prevU as int), Wrap32(v as int - prevV as int)];
  }

  /** `makeUVCoordDeltas`, with the loop carrying `prevU` and `prevV`. */
  method MakeUVCoordDeltas(a: AttributeData, sorted: seq<SortableVertex>, arith: Arith) returns (r: Result<seq<Int32>>)
    ensures r == MapTable(a, sorted, 2, arith)
  {
    var scale := arith.div(ONE, a.precision);
    var vc := |sorted|;
    var prevU: Int32, prevV: Int32 := 0, 0;
    var intUVCoords: seq<Int32> := [];
    for i := 0 to vc
      invariant RowsUpTo(a.values, sorted, 2, i)
      invariant intUVCoords == StrideDeltas(Gathered(a.values, sorted, 2, i, scale, arith), 2)
      invariant [prevU, prevV] == PrevRow(a.values, sorted, 2, i, scale, arith)
    {
      var oldIdx := sorted[i].originalIndex;
      if oldIdx < 0 || oldIdx as int * 2 + 1 >= |a.values| {
        assert !RowAt(a.values, sorted, 2, i);
        return Failure(IndexOutOfRange);
      }
      var deltas, u, v := UVRow(a.values, oldIdx as nat, scale, prevU, prevV, arith);
      MapStep(a.values, sorted, 2, i, scale, arith);
      intUVCoords := intUVCoords + deltas;
      prevU, prevV := u, v;
    }
    return Success(intUVCoords);
  }

  /** The inner loop of `makeAttribDeltas` for one vertex: each component's fixed-point value
      minus the previous vertex's, which prev holds and then receives the new value. */
  method AttribRow(values: seq<Float32>, orig: nat, scale: Float32, prev: array<Int32>, arith: Arith)
    returns (deltas: seq<Int32>)
    requires prev.Length == 4 && 4 * orig + 4 <= |values|
    modifies prev
    ensures prev[..] == QuantRow(values, orig, 4, scale, arith)
    ensures deltas == RowDeltas(prev[..], old(prev[..]))
  {
    ghost var row := QuantRow(values, orig, 4, scale, arith);
    ghost var before := prev[..];
    deltas := [];
    for j := 0 to 4
      invariant |deltas| == j
      invariant forall c :: 0 <= c < j ==> prev[c] == row[c] && deltas[c] == Wrap32(row[c] as int - before[c] as int)
      invariant forall c :: j <= c < 4 ==> prev[c] == before[c]
    {
      var value := Quantize(arith, scale, values[orig * 4 + j]);
      deltas := deltas + [Wrap32(value as int - prev[j] as int)];
      prev[j] := value;
    }
  }

  /** `makeAttribDeltas`, with the array `prev` carrying the previous vertex's values. */
  method MakeAttribDeltas(a: AttributeData, sorted: seq<SortableVertex>, arith: Arith) returns (r: Result<seq<Int32>>)
    ensures r == MapTable(a, sorted, 4, arith)
  {
    var scale := arith.div(ONE, a.precision);
    var prev := new Int32[4](_ => 0);
    var vc := |sorted|;
    var intAttribs: seq<Int32> := [];
    for i := 0 to vc
      invariant RowsUpTo(a.values, sorted, 4, i)
      invariant intAttribs == StrideDeltas(Gathered(a.values, sorted, 4, i, scale, arith), 4)
      invariant prev[..] == PrevRow(a.values, sorted, 4, i, scale, arith)
    {
      var oldIdx := sorted[i].originalIndex;
      if oldIdx < 0 || oldIdx as int * 4 + 3 >= |a.values| {
        assert !RowAt(a.values, sorted, 4, i);
        return Failure(IndexOutOfRange);
      }
      ghost var before := prev[..];
      var deltas := AttribRow(a.values, oldIdx as nat, scale, prev, arith);
      MapStep(a.values, sorted, 4, i, scale, arith);
      intAttribs := intAttribs + deltas;
    }
    return Success(intAttribs);
  }
}
