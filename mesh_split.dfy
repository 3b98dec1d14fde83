// The part of CtmFileReader that cuts a decoded mesh with more than 50000 vertices into
// shards of at most about 50000 vertices each, the most a 16-bit Unity index buffer holds.
module MeshSplit {
  import opened Machine
  import opened Wrappers
  import opened MeshData
  import opened FloatArith
  import Mg2Decoder

  /** `maxNumVerticesPerMesh`. */
  const MAX_VERTICES_PER_MESH: Int32 := 50000

  /** The number of floats above which `decode(ref list)` splits a mesh. */
  const SPLIT_FLOATS: int := 150000

  /** `Mathf.CeilToInt(len / 150000f)`: the number of shards, taken as the exact ceiling. */
  function ShardCount(len: nat): (n: nat)
    ensures len > 0 ==> n >= 1 && (n - 1) * SPLIT_FLOATS < len <= n * SPLIT_FLOATS
  {
    (len + SPLIT_FLOATS - 1) / SPLIT_FLOATS
  }

  /** `Array.IndexOf` from position k on: the first position at or after k holding v, or -1. */
  function IndexFrom(s: seq<Int32>, v: int, k: nat): (r: int)
    requires k <= |s|
    ensures -1 <= r < |s|
    ensures r == -1 <==> forall j :: k <= j < |s| ==> s[j] != v
    ensures r >= 0 ==> k <= r && s[r] == v && forall j :: k <= j < r ==> s[j] != v
    decreases |s| - k
  {
    if k == |s| then -1
    else if s[k] == v then k
    else IndexFrom(s, v, k + 1)
  }

  /** `Array.IndexOf`: the first position holding v, or -1. */
  function IndexOf(s: seq<Int32>, v: int): (r: int)
    ensures -1 <= r < |s|
    ensures r == -1 <==> forall j :: 0 <= j < |s| ==> s[j] != v
    ensures r >= 0 ==> s[r] == v && forall j :: 0 <= j < r ==> s[j] != v
  {
    IndexFrom(s, v, 0)
  }

  /** `newIndicesCount -= newIndicesCount % 3` with C#'s truncating remainder: p rounded
      toward zero to a multiple of three, so the -1 of a missing value becomes 0. */
  function RoundedToTriangles(p: int): (r: int)
    ensures r % 3 == 0 && (p >= 0 ==> 0 <= r <= p) && (p == -1 ==> r == 0)
  {
    3 * TDiv(p, 3)
  }

  /** A position at or after k of a smallest entry from k on. */
  function MinAt(s: seq<Int32>, k: nat): (p: nat)
    requires k < |s|
    ensures k <= p < |s| && forall j :: k <= j < |s| ==> s[p] <= s[j]
    decreases |s| - k
  {
    if k == |s| - 1 then k
    else
      var p := MinAt(s, k + 1);
      if s[k] <= s[p] then k else p
  }

  /** A position at or after k of a largest entry from k on. */
  function MaxAt(s: seq<Int32>, k: nat): (p: nat)
    requires k < |s|
    ensures k <= p < |s| && forall j :: k <= j < |s| ==> s[j] <= s[p]
    decreases |s| - k
  {
    if k == |s| - 1 then k
    else
      var p := MaxAt(s, k + 1);
      if s[k] >= s[p] then k else p
  }

  /** The smallest entry: the first one after `Array.Sort`. */
  function SeqMin(s: seq<Int32>): Int32
    requires |s| > 0
  {
    s[MinAt(s, 0)]
  }

  /** The largest entry: the last one after `Array.Sort`. */
  function SeqMax(s: seq<Int32>): Int32
    requires |s| > 0
  {
    s[MaxAt(s, 0)]
  }

  /** Each index minus lo in 32-bit arithmetic, the loop `splitMeshIndicesArray[k] -=
      startVerticeCount`: an index at or above a non-negative lo becomes its distance from lo. */
  function Shifted(s: seq<Int32>, lo: Int32): (r: seq<Int32>)
    ensures |r| == |s| && forall j :: 0 <= j < |s| ==> r[j] == Wrap32(s[j] as int - lo as int)
    ensures forall j :: 0 <= j < |s| && 0 <= lo <= s[j] ==> r[j] as int == s[j] as int - lo as int
  {
    seq(|s|, j requires 0 <= j < |s| => Wrap32(s[j] as int - lo as int))
  }

  /** What the split needs of a mesh to keep its triangles: whole triangles whose indices
      name its vertices, and a vertex array of .NET size. */
  predicate Splittable(m: Mesh)
  {
    IndicesInRange(m) && |m.indices| % 3 == 0 && |m.vertices| < TWO_31
  }

  /** `(endVerticeCount - startVerticeCount + 1) * k` in 32-bit arithmetic: the length of the
      range [lo, hi] of rows of k values. */
  function RangeLength(lo: Int32, hi: Int32, k: nat): Int32
  {
    Wrap32(Wrap32(Wrap32(hi as int - lo as int) + 1) * k)
  }

  /** `Array.Copy(src, start, dst, 0, count)` into a fresh array of count elements: a negative
      count has already failed in `new float[count]`; a negative start or a range past the end
      of src fails. */
  function CopyRange<T>(src: seq<T>, start: Int32, count: Int32): (r: Result<seq<T>>)
    ensures r.Success? <==> 0 <= count && 0 <= start && start as int + count as int <= |src|
    ensures r.Success? ==> r.value == src[start..start as int + count as int]
    ensures count < 0 ==> r == Failure(Overflow)
  {
    if count < 0 then Failure(Overflow)
    else if start < 0 || start as int + count as int > |src| then Failure(Argument)
    else Success(src[start..start as int + count as int])
  }

  /** Within the range the arithmetic is exact: rows lo..hi of a table of rows of k values
      start at k * lo and take k * (hi - lo + 1) values. */
  lemma RangeExact(lo: Int32, hi: Int32, k: nat, size: nat)
    requires 0 <= lo <= hi && k * hi as int + k <= size < TWO_31 && 1 <= k
    ensures RangeLength(lo, hi, k) as int == k * (hi as int - lo as int + 1)
    ensures Wrap32(lo as int * k) as int == k * lo as int
  {
    assert k * (hi as int - lo as int + 1) <= k * hi as int + k;
    assert lo as int * k <= hi as int * k;
  }

  /** Where the indices of shard i end: for every shard but the last, the first position of
      the index 50000 * (i + 1) rounded down to a whole triangle; the last takes the rest. */
  function ShardEnd(m: Mesh, n: nat, i: nat): (e: int)
    requires i < n
    ensures 0 <= e <= |m.indices|
    ensures i != n - 1 ==> e % 3 == 0
    ensures i == n - 1 ==> e == |m.indices|
  {
    if i != n - 1 then RoundedToTriangles(IndexOf(m.indices, MAX_VERTICES_PER_MESH as int * (i + 1)))
    else |m.indices|
  }

  /** The first UV map cut to the vertex range [lo, hi] with `Array.Copy`, the other maps
      dropped; a mesh without UV maps gives a shard without any. */
  function ShardUvs(m: Mesh, lo: Int32, hi: Int32): (r: Result<seq<AttributeData>>)
    ensures r.Success? ==> |r.value| == if |m.texcoordinates| == 0 then 0 else 1
    ensures |m.texcoordinates| > 0 ==>
      (r.Success? <==> CopyRange(m.texcoordinates[0].values, Wrap32(lo as int * 2), RangeLength(lo, hi, 2)).Success?)
  {
    if |m.texcoordinates| == 0 then Success([])
    else
      var uv := m.texcoordinates[0];
      var values :- CopyRange(uv.values, Wrap32(lo as int * 2), RangeLength(lo, hi, 2));
      Success([AttributeData(uv.name, uv.materialName, uv.precision, values)])
  }

  /** For a range inside the vertices, a UV map fails exactly when it is too short for it. */
  lemma ShardUvsInRange(m: Mesh, lo: Int32, hi: Int32)
    requires 0 <= lo <= hi && 3 * hi as int + 3 <= |m.vertices| < TWO_31
    ensures |m.texcoordinates| > 0 ==>
      (ShardUvs(m, lo, hi).Failure? <==> |m.texcoordinates[0].values| < 2 * hi as int + 2)
    ensures |m.texcoordinates| > 0 && ShardUvs(m, lo, hi).Success? ==>
      ShardUvs(m, lo, hi).value[0].values == m.texcoordinates[0].values[2 * lo as int..2 * hi as int + 2]
  {
    RangeExact(lo, hi, 2, |m.vertices|);
  }

  /** The smallest and the largest entry of indices below a bound are indices below it. */
  lemma SliceBounds(slice: seq<Int32>, bound: nat)
    requires |slice| > 0 && forall j :: 0 <= j < |slice| ==> 0 <= slice[j] < bound
    ensures 0 <= SeqMin(slice) <= SeqMax(slice) < bound
  {
    var a, b := MinAt(slice, 0), MaxAt(slice, 0);
    assert slice[a] <= slice[b];
  }

  /** The shard cut from a non-empty slice of indices: the vertices between the smallest and
      the largest index of the slice, the first UV map's values for them, the indices shifted
      to that range, no normals and a null attribute list. The 32-bit arithmetic and
      `Array.Copy`'s bounds decide which slices succeed: `checkIntegrity` lets through
      negative indices and indices past the last vertex. */
  function ShardFrom(m: Mesh, slice: seq<Int32>): (r: Result<Mesh>)
    requires |slice| > 0
    ensures r.Success? ==> |r.value.indices| == |slice| && r.value.normals.None? && r.value.attributs.None?
    ensures var c := CopyRange(m.vertices, Wrap32(SeqMin(slice) as int * 3), RangeLength(SeqMin(slice), SeqMax(slice), 3));
      (c.Failure? ==> r == Failure(c.error)) && (r.Success? ==> c.Success? && r.value.vertices == c.value)
  {
    var lo, hi := SeqMin(slice), SeqMax(slice);
    var vertices :- CopyRange(m.vertices, Wrap32(lo as int * 3), RangeLength(lo, hi, 3));
    var tex :- ShardUvs(m, lo, hi);
    Success(Mesh(vertices, None, Shifted(slice, lo), tex, None))
  }

  /** A slice with an index below zero fails when its vertex range starts below zero: with
      -1 the smallest index, `Array.Copy` is asked to start at -3. */
  lemma ShardFromNegativeFails(m: Mesh, slice: seq<Int32>)
    requires |slice| > 0 && SeqMin(slice) == -1
    ensures ShardFrom(m, slice) == Failure(Argument) || ShardFrom(m, slice) == Failure(Overflow)
  {
  }

  /** One shard: the indices at [from, from + len). An empty slice has no first element. */
  function ShardOf(m: Mesh, from: nat, len: nat): (r: Result<Mesh>)
    requires from + len <= |m.indices|
    ensures len == 0 ==> r == Failure(IndexOutOfRange)
    ensures r.Success? ==> |r.value.indices| == len && r.value.normals.None? && r.value.attributs.None?
  {
    if len == 0 then Failure(IndexOutOfRange)
    else ShardFrom(m, m.indices[from..from + len])
  }

  /** What makes a shard from a start position and a length; the split below is stated for
      any such maker, and `Cutter` is the reader's. */
  type Cut = (nat, nat) -> Result<Mesh>

  /** The shard the reader makes at [from, from + len); a range past the end of the indices
      fails in `Array.Copy`. */
  function ShardAt(m: Mesh, from: nat, len: nat): (r: Result<Mesh>)
    ensures from + len > |m.indices| ==> r == Failure(Argument)
  {
    if from + len <= |m.indices| then ShardOf(m, from, len) else Failure(Argument)
  }

  /** The reader's shard maker. */
  function Cutter(m: Mesh): Cut
  {
    (from: nat, len: nat) => ShardAt(m, from, len)
  }

  /** A shard maker that makes the reader's shards; the split loop is proved for any such
      maker, so that the shards' own definition stays out of its proof. */
  ghost predicate MakesReaderShards(m: Mesh, cut: Cut)
  {
    forall from: nat, len: nat {:trigger ShardAt(m, from, len)} :: cut(from, len) == ShardAt(m, from, len)
  }

  /** The number of indices in shard i when it starts at index position from. */
  function ShardLen(m: Mesh, n: nat, i: nat, from: nat): (len: int)
    requires i < n && from <= |m.indices|
    ensures from + len <= |m.indices|
  {
    ShardEnd(m, n, i) - from
  }

  /** What gives the length of shard i from a start position; the split below is stated for
      any such plan, and `ReaderLens` is the reader's. */
  type Lens = (nat, nat) -> int

  /** The reader's plan of shard lengths. */
  function ReaderLens(m: Mesh, n: nat): Lens
  {
    (i: nat, from: nat) => if i < n && from <= |m.indices| then ShardLen(m, n, i, from) else -1
  }

  /** A plan that gives the reader's shard lengths; the split loop is proved for any such
      plan, so that the search for the boundary indices stays out of its proof. */
  ghost predicate PlansReaderShards(m: Mesh, n: nat, lens: Lens)
  {
    forall i: nat, from: nat {:trigger ShardLen(m, n, i, from)} ::
      i < n && from <= |m.indices| ==> lens(i, from) == ShardLen(m, n, i, from)
  }

  /** The reader's plan gives the reader's shard lengths. */
  lemma ReaderLensPlans(m: Mesh, n: nat)
    ensures PlansReaderShards(m, n, ReaderLens(m, n))
  {
  }

  /** The shards from shard i on, the first starting at index position from: a negative
      length cannot size an array; the shards made before a failure stay in the list, and the
      failure ends the split. */
  function SplitFrom(n: nat, i: nat, from: nat, lens: Lens, cut: Cut): (r: (seq<Mesh>, Outcome))
    requires i <= n
    ensures r.1.Pass? ==> |r.0| == n - i
    decreases n - i
  {
    if i == n then ([], Pass)
    else if lens(i, from) < 0 then ([], Fail(Overflow))
    else
      var s := cut(from, lens(i, from));
      if s.Failure? then ([], Fail(s.error))
      else
        var rest := SplitFrom(n, i + 1, from + lens(i, from), lens, cut);
        ([s.value] + rest.0, rest.1)
  }

  /** `SplitMesh(m, ref list)`: ceil(floats / 150000) shards, appended in order. */
  function Split(m: Mesh): (r: (seq<Mesh>, Outcome))
    ensures r.1.Pass? ==> |r.0| == ShardCount(|m.vertices|)
  {
    SplitFrom(ShardCount(|m.vertices|), 0, 0, ReaderLens(m, ShardCount(|m.vertices|)), Cutter(m))
  }

  /** What `decode(ref list)` adds to the list: the mesh itself when it has at most 150000
      floats, its shards otherwise. */
  function Added(m: Mesh): (r: (seq<Mesh>, Outcome))
    ensures |m.vertices| <= SPLIT_FLOATS ==> r == ([m], Pass)
  {
    if |m.vertices| > SPLIT_FLOATS then Split(m) else ([m], Pass)
  }

  // ---------------------------------------------------------------------
  // What a shard keeps

  /** Every index names a vertex of the flat vertex table v. */
  predicate NamesVertices(ix: seq<Int32>, v: seq<Float32>)
  {
    forall j :: 0 <= j < |ix| ==> 0 <= ix[j] && 3 * ix[j] as int + 3 <= |v|
  }

  /** The corners of triangles given by indices ix into a flat vertex table: each index
      replaced by its vertex's coordinates. */
  function CornersOf(v: seq<Float32>, ix: seq<Int32>): (r: seq<Vec3>)
    requires NamesVertices(ix, v)
    ensures |r| == |ix| && forall j :: 0 <= j < |ix| ==> r[j] == Mg2Decoder.Triple(v, ix[j] as nat)
  {
    seq(|ix|, j requires 0 <= j < |ix| => Mg2Decoder.Triple(v, ix[j] as nat))
  }

  /** The triangles of a mesh as coordinates. */
  function Corners(m: Mesh): (r: seq<Vec3>)
    requires IndicesInRange(m)
    ensures |r| == |m.indices|
  {
    CornersOf(m.vertices, m.indices)
  }

  /** Vertex k of the vertex range starting at vertex lo is vertex lo + k. */
  lemma TripleOfRange(v: seq<Float32>, lo: nat, hi: nat, k: nat)
    requires lo + k <= hi && 3 * hi + 3 <= |v|
    ensures 3 * k + 3 <= |v[3 * lo..3 * hi + 3]|
    ensures Mg2Decoder.Triple(v[3 * lo..3 * hi + 3], k) == Mg2Decoder.Triple(v, lo + k)
  {
  }

  /** Indices between lo and hi, shifted down by lo, name in the vertex range [lo, hi] the
      corners they named in the whole table. */
  lemma ShiftedCorners(v: seq<Float32>, slice: seq<Int32>, lo: Int32, hi: Int32)
    requires 0 <= lo <= hi && 3 * hi as int + 3 <= |v|
    requires forall j :: 0 <= j < |slice| ==> lo <= slice[j] <= hi
    ensures NamesVertices(Shifted(slice, lo), v[3 * lo as int..3 * hi as int + 3])
    ensures CornersOf(v[3 * lo as int..3 * hi as int + 3], Shifted(slice, lo)) == CornersOf(v, slice)
  {
    var sh := Shifted(slice, lo);
    var w := v[3 * lo as int..3 * hi as int + 3];
    forall j | 0 <= j < |slice| ensures 0 <= sh[j] && 3 * sh[j] + 3 <= |w| {
      TripleOfRange(v, lo as nat, hi as nat, sh[j] as nat);
    }
    var c := CornersOf(w, sh);
    forall j | 0 <= j < |slice| ensures c[j] == CornersOf(v, slice)[j] {
      TripleOfRange(v, lo as nat, hi as nat, sh[j] as nat);
    }
  }

  /** The parts of a shard: the vertex range between the smallest and the largest index, and
      the indices shifted down by the smallest. */
  lemma ShardFromParts(m: Mesh, slice: seq<Int32>)
    requires |slice| > 0 && forall j :: 0 <= j < |slice| ==> 0 <= slice[j] < VertexCount(m)
    requires |m.vertices| < TWO_31 && ShardFrom(m, slice).Success?
    ensures 0 <= SeqMin(slice) <= SeqMax(slice) < VertexCount(m)
    ensures forall j :: 0 <= j < |slice| ==> SeqMin(slice) <= slice[j] <= SeqMax(slice)
    ensures ShardFrom(m, slice).value.vertices == m.vertices[3 * SeqMin(slice) as int..3 * SeqMax(slice) as int + 3]
    ensures ShardFrom(m, slice).value.indices == Shifted(slice, SeqMin(slice))
  {
    SliceBounds(slice, VertexCount(m));
    RangeExact(SeqMin(slice), SeqMax(slice), 3, |m.vertices|);
    MinMaxBetween(slice);
  }

  /** Every entry lies between the smallest and the largest. */
  lemma MinMaxBetween(slice: seq<Int32>)
    requires |slice| > 0
    ensures forall j :: 0 <= j < |slice| ==> SeqMin(slice) <= slice[j] <= SeqMax(slice)
  {
  }

  /** For a slice of indices that name vertices of a mesh of .NET size, the shard fails
      exactly when the first UV map is too short for the slice's vertex range. */
  lemma ShardFromInRangeFails(m: Mesh, slice: seq<Int32>)
    requires |slice| > 0 && forall j :: 0 <= j < |slice| ==> 0 <= slice[j] < VertexCount(m)
    requires |m.vertices| < TWO_31
    ensures ShardFrom(m, slice).Failure? <==>
      |m.texcoordinates| > 0 && |m.texcoordinates[0].values| < 2 * SeqMax(slice) as int + 2
  {
    SliceBounds(slice, VertexCount(m));
    RangeExact(SeqMin(slice), SeqMax(slice), 3, |m.vertices|);
    ShardUvsInRange(m, SeqMin(slice), SeqMax(slice));
  }

  /** A shard is a mesh whose indices all name its own vertices... */
  lemma ShardFromInRange(m: Mesh, slice: seq<Int32>)
    requires |slice| > 0 && forall j :: 0 <= j < |slice| ==> 0 <= slice[j] < VertexCount(m)
    requires |m.vertices| < TWO_31 && ShardFrom(m, slice).Success?
    ensures IndicesInRange(ShardFrom(m, slice).value)
  {
    var s := ShardFrom(m, slice).value;
    ShardFromParts(m, slice);
    forall j | 0 <= j < |s.indices| ensures 0 <= s.indices[j] < VertexCount(s) {
      assert s.indices[j] as int == slice[j] as int - SeqMin(slice) as int;
    }
  }

  /** ...and its corners are those the slice names in the mesh. */
  lemma ShardFromCorners(m: Mesh, slice: seq<Int32>)
    requires |slice| > 0 && forall j :: 0 <= j < |slice| ==> 0 <= slice[j] < VertexCount(m)
    requires |m.vertices| < TWO_31 && ShardFrom(m, slice).Success?
    ensures IndicesInRange(ShardFrom(m, slice).value) && NamesVertices(slice, m.vertices)
    ensures Corners(ShardFrom(m, slice).value) == CornersOf(m.vertices, slice)
  {
    ShardFromInRange(m, slice);
    ShardFromParts(m, slice);
    ShiftedCorners(m.vertices, slice, SeqMin(slice), SeqMax(slice));
    var s := ShardFrom(m, slice).value;
    SameFieldsSameCorners(s, m.vertices[3 * SeqMin(slice) as int..3 * SeqMax(slice) as int + 3],
      Shifted(slice, SeqMin(slice)), CornersOf(m.vertices, slice));
  }

  /** The corners of a mesh depend on its vertices and indices only. */
  lemma SameFieldsSameCorners(s: Mesh, v: seq<Float32>, ix: seq<Int32>, c: seq<Vec3>)
    requires IndicesInRange(s) && s.vertices == v && s.indices == ix && NamesVertices(ix, v)
    requires CornersOf(v, ix) == c
    ensures Corners(s) == c
  {
  }

  /** The corners a slice of the indices names are that slice of the corners. */
  lemma CornersOfSlice(m: Mesh, from: nat, len: nat)
    requires IndicesInRange(m) && from + len <= |m.indices|
    ensures CornersOf(m.vertices, m.indices[from..from + len]) == Corners(m)[from..from + len]
  {
    var c := CornersOf(m.vertices, m.indices[from..from + len]);
    forall j | 0 <= j < len ensures c[j] == Corners(m)[from..from + len][j] {
      assert m.indices[from..from + len][j] == m.indices[from + j];
    }
  }

  /** A shard maker keeps corners when each shard it makes names its own vertices, holds
      the requested number of indices, and has the corners of the slice it was cut from. */
  ghost predicate KeepsCorners(m: Mesh, cut: Cut)
    requires IndicesInRange(m)
  {
    forall from: nat, len: nat ::
      from + len <= |m.indices| && cut(from, len).Success? ==>
        IndicesInRange(cut(from, len).value) && |cut(from, len).value.indices| == len &&
        Corners(cut(from, len).value) == Corners(m)[from..from + len]
  }

  /** A shard the reader makes names its own vertices, holds the requested number of indices
      and has the corners of the slice it was cut from. */
  lemma ShardAtKeepsCorners(m: Mesh, from: nat, len: nat)
    requires IndicesInRange(m) && |m.vertices| < TWO_31
    requires from + len <= |m.indices| && ShardAt(m, from, len).Success?
    ensures IndicesInRange(ShardAt(m, from, len).value) && |ShardAt(m, from, len).value.indices| == len
    ensures Corners(ShardAt(m, from, len).value) == Corners(m)[from..from + len]
  {
    ShardFromCorners(m, m.indices[from..from + len]);
    CornersOfSlice(m, from, len);
  }

  /** The reader's shard maker keeps corners. */
  lemma CutterKeepsCorners(m: Mesh)
    requires IndicesInRange(m) && |m.vertices| < TWO_31
    ensures KeepsCorners(m, Cutter(m))
  {
    forall from: nat, len: nat | from + len <= |m.indices| && Cutter(m)(from, len).Success?
      ensures IndicesInRange(Cutter(m)(from, len).value) && |Cutter(m)(from, len).value.indices| == len &&
        Corners(Cutter(m)(from, len).value) == Corners(m)[from..from + len]
    {
      ShardAtKeepsCorners(m, from, len);
    }
  }

  /** Every shard holds whole triangles whose indices name its own vertices. */
  predicate WholeShards(shards: seq<Mesh>)
  {
    forall k :: 0 <= k < |shards| ==> IndicesInRange(shards[k]) && |shards[k].indices| % 3 == 0
  }

  /** Corners of a list of shards, one after the other. */
  function AllCorners(shards: seq<Mesh>): seq<Vec3>
    requires WholeShards(shards)
  {
    if shards == [] then [] else Corners(shards[0]) + AllCorners(shards[1..])
  }

  /** A shard put in front of a list of shards. */
  lemma AllCornersCons(s: Mesh, rest: seq<Mesh>)
    requires IndicesInRange(s) && |s.indices| % 3 == 0 && WholeShards(rest)
    ensures WholeShards([s] + rest)
    ensures AllCorners([s] + rest) == Corners(s) + AllCorners(rest)
  {
    assert ([s] + rest)[1..] == rest;
  }

  /** A suffix of a sequence is the slice up to j followed by the suffix from j. */
  lemma SuffixSplit<T>(a: seq<T>, i: nat, j: nat)
    requires i <= j <= |a|
    ensures a[i..] == a[i..j] + a[j..]
  {
  }

  /** One step of a split that succeeds: a shard of non-negative length, then the rest, which
      succeeds too. */
  lemma SplitFromStep(n: nat, i: nat, from: nat, lens: Lens, cut: Cut) returns (len: nat, s: Mesh, rest: seq<Mesh>)
    requires i < n && SplitFrom(n, i, from, lens, cut).1.Pass?
    ensures len == lens(i, from) && cut(from, len) == Success(s)
    ensures SplitFrom(n, i + 1, from + len, lens, cut).1.Pass? && rest == SplitFrom(n, i + 1, from + len, lens, cut).0
    ensures SplitFrom(n, i, from, lens, cut).0 == [s] + rest
  {
    len := lens(i, from);
    s := cut(from, len).value;
    rest := SplitFrom(n, i + 1, from + len, lens, cut).0;
  }

  /** One unfolding of `SplitFrom` at a shard that is not past the last. */
  lemma SplitFromUnfold(n: nat, i: nat, from: nat, lens: Lens, cut: Cut, len: int)
    requires i < n && len == lens(i, from)
    ensures len < 0 ==> SplitFrom(n, i, from, lens, cut) == ([], Fail(Overflow))
    ensures len >= 0 && cut(from, len).Failure? ==> SplitFrom(n, i, from, lens, cut) == ([], Fail(cut(from, len).error))
    ensures len >= 0 && cut(from, len).Success? ==>
      SplitFrom(n, i, from, lens, cut).0 == [cut(from, len).value] + SplitFrom(n, i + 1, from + len, lens, cut).0 &&
      SplitFrom(n, i, from, lens, cut).1 == SplitFrom(n, i + 1, from + len, lens, cut).1
  {
  }

  /** Every shard but the last ends on a whole triangle, and the last ends with the indices,
      so a shard that starts on a whole triangle holds whole triangles. */
  lemma ShardLenWhole(m: Mesh, n: nat, i: nat, from: nat)
    requires Splittable(m) && i < n && from <= |m.indices| && from % 3 == 0
    ensures ShardLen(m, n, i, from) % 3 == 0
  {
    var e := ShardEnd(m, n, i);
    assert e % 3 == 0;
    ModDifference(e, from);
  }

  /** The sum of two multiples of three is one. */
  lemma ModSum(a: int, b: int)
    requires a % 3 == 0 && b % 3 == 0
    ensures (a + b) % 3 == 0
  {
    assert a == 3 * (a / 3) && b == 3 * (b / 3);
    assert a + b == 3 * (a / 3 + b / 3);
  }

  /** The difference of two multiples of three is one. */
  lemma ModDifference(a: int, b: int)
    requires a % 3 == 0 && b % 3 == 0
    ensures (a - b) % 3 == 0
  {
    assert a == 3 * (a / 3) && b == 3 * (b / 3);
    assert a - b == 3 * (a / 3 - b / 3);
  }

  /** A split that succeeds keeps the mesh's triangles: the shards' triangles, one after the
      other, are the mesh's triangles from the starting position on, each at the same
      coordinates; and every shard holds whole triangles. */
  lemma {:induction false} SplitFromKeepsCorners(m: Mesh, n: nat, i: nat, from: nat, lens: Lens, cut: Cut)
    requires Splittable(m) && PlansReaderShards(m, n, lens) && KeepsCorners(m, cut)
    requires i < n && from <= |m.indices| && from % 3 == 0
    requires SplitFrom(n, i, from, lens, cut).1.Pass?
    ensures WholeShards(SplitFrom(n, i, from, lens, cut).0)
    ensures AllCorners(SplitFrom(n, i, from, lens, cut).0) == Corners(m)[from..]
    decreases n - i
  {
    var len, s, rest := SplitFromStep(n, i, from, lens, cut);
    ShardLenWhole(m, n, i, from);
    KeepsCornersAt(m, cut, from, len, s);
    if i + 1 < n {
      ModSum(from, len);
      SplitFromKeepsCorners(m, n, i + 1, from + len, lens, cut);
    } else {
      SplitFromLast(m, n, i, from, lens, cut, len);
    }
    ShardThenRest(Corners(m), from, len, s, rest);
  }

  /** A shard holding the corners from `from` for `len`, followed by shards holding the corners
      from there on, holds the corners from `from` on. */
  lemma ShardThenRest(all: seq<Vec3>, from: nat, len: nat, s: Mesh, rest: seq<Mesh>)
    requires from + len <= |all| && len % 3 == 0
    requires IndicesInRange(s) && |s.indices| == len && Corners(s) == all[from..from + len]
    requires WholeShards(rest) && AllCorners(rest) == all[from + len..]
    ensures WholeShards([s] + rest) && AllCorners([s] + rest) == all[from..]
  {
    AllCornersCons(s, rest);
    SuffixSplit(all, from, from + len);
  }

  /** What a shard maker that keeps corners promises about one shard it made. */
  lemma KeepsCornersAt(m: Mesh, cut: Cut, from: nat, len: nat, s: Mesh)
    requires IndicesInRange(m) && KeepsCorners(m, cut) && from + len <= |m.indices| && cut(from, len) == Success(s)
    ensures IndicesInRange(s) && |s.indices| == len && Corners(s) == Corners(m)[from..from + len]
  {
  }

  /** The last shard ends with the indices, and nothing follows it. */
  lemma SplitFromLast(m: Mesh, n: nat, i: nat, from: nat, lens: Lens, cut: Cut, len: nat)
    requires i + 1 == n && from <= |m.indices| && len == ShardLen(m, n, i, from)
    ensures from + len == |m.indices| && SplitFrom(n, i + 1, from + len, lens, cut) == ([], Pass)
    ensures WholeShards([]) && AllCorners([]) == []
  {
  }

  /** A split that succeeds keeps every triangle of the mesh, at the same coordinates, spread
      over shards of whole triangles whose indices name their own vertices. */
  lemma SplitKeepsCorners(m: Mesh)
    requires Splittable(m) && |m.vertices| > SPLIT_FLOATS && Split(m).1.Pass?
    ensures WholeShards(Split(m).0)
    ensures AllCorners(Split(m).0) == Corners(m)
  {
    var n := ShardCount(|m.vertices|);
    CutterKeepsCorners(m);
    ReaderLensPlans(m, n);
    SplitFromKeepsCorners(m, n, 0, 0, ReaderLens(m, n), Cutter(m));
    assert Corners(m)[0..] == Corners(m);
  }

  /** A shard boundary whose index value does not occur makes the next shard empty, and the
      split fails there: with 150003 floats and no index 50000, the first shard fails and
      nothing is added. */
  lemma SplitFailsWithoutBoundaryIndex(m: Mesh)
    requires |m.vertices| == 150003
    requires forall j :: 0 <= j < |m.indices| ==> m.indices[j] != 50000
    ensures Split(m).1 == Fail(IndexOutOfRange) && Split(m).0 == []
  {
    assert ShardCount(|m.vertices|) == 2;
    assert IndexOf(m.indices, 50000) == -1;
    assert ShardLen(m, 2, 0, 0) == 0;
    assert ReaderLens(m, 2)(0, 0) == 0;
    assert Cutter(m)(0, 0) == ShardOf(m, 0, 0);
  }

  // ---------------------------------------------------------------------
  // The split as the reader performs it

  /** The loop `splitMeshIndicesArray[k] -= startVerticeCount`, in place. */
  method ShiftInPlace(a: array<Int32>, lo: Int32)
    modifies a
    ensures a[..] == Shifted(old(a[..]), lo)
  {
    ghost var s := a[..];
    for k := 0 to a.Length
      invariant forall j :: 0 <= j < k ==> a[j] == Wrap32(s[j] as int - lo as int)
      invariant forall j :: k <= j < a.Length ==> a[j] == s[j]
    {
      a[k] := Wrap32(a[k] as int - lo as int);
    }
    assert a[..] == Shifted(s, lo);
  }

  /** Makes one shard: copies the slice, finds its smallest and largest index, copies the
      vertex range and the first UV map's range, and shifts the indices in place. */
  method MakeShard(m: Mesh, from: nat, len: nat) returns (r: Result<Mesh>)
    ensures r == ShardAt(m, from, len)
  {
    if from + len > |m.indices| {
      return Failure(Argument);
    }
    if len == 0 {
      return Failure(IndexOutOfRange);
    }
    var slice := m.indices[from..from + len];
    var lo, hi := SeqMin(slice), SeqMax(slice);
    var vertices :- CopyRange(m.vertices, Wrap32(lo as int * 3), RangeLength(lo, hi, 3));
    var tex := ShardUvs(m, lo, hi);
    if tex.Failure? {
      return Failure(tex.error);
    }
    var a := new Int32[len](j requires 0 <= j < len => slice[j]);
    assert a[..] == slice;
    ShiftInPlace(a, lo);
    return Success(Mesh(vertices, None, a[..], tex.value, None));
  }

  /** The first of the shards still to make, moved to the end of the list made so far. */
  lemma MovedToList<T>(total: seq<T>, list: seq<T>, todo: seq<T>, x: T, rest: seq<T>)
    requires total == list + todo && todo == [x] + rest
    ensures total == (list + [x]) + rest
  {
  }

  /** The number of indices shard `i` takes: up to the first index that names vertex
      50000 * (i + 1), rounded down to a whole triangle, or the rest for the last shard. */
  method NextShardLen(m: Mesh, n: nat, i: nat, last: nat) returns (len: int)
    requires i < n && last <= |m.indices|
    ensures len == ShardLen(m, n, i, last)
  {
    if i != n - 1 {
      var p := IndexOf(m.indices, MAX_VERTICES_PER_MESH as int * (i + 1));
      p := p - (p - 3 * TDiv(p, 3));
      len := p - last;
    } else {
      len := |m.indices| - last;
    }
  }

  /** One turn of the loop in `SplitMesh`: the length of shard `i` (a negative one is the
      OverflowException of `new int[len]`), then the shard. */
  method NextShard(m: Mesh, n: nat, i: nat, last: nat, ghost lens: Lens, ghost cut: Cut)
    returns (len: int, shard: Result<Mesh>)
    requires PlansReaderShards(m, n, lens) && MakesReaderShards(m, cut)
    requires i < n && last <= |m.indices|
    ensures len == lens(i, last)
    ensures len < 0 ==> shard == Failure(Overflow)
    ensures len >= 0 ==> last + len <= |m.indices| && shard == cut(last, len)
  {
    len := NextShardLen(m, n, i, last);
    if len < 0 {
      return len, Failure(Overflow);
    }
    shard := MakeShard(m, last, len);
  }

  /** Where the loop goes on after a turn is where `SplitFrom` goes on. */
  lemma ShardStep(n: nat, i: nat, from: nat, lens: Lens, cut: Cut, len: int, shard: Result<Mesh>)
    requires i < n && len == lens(i, from)
    requires len < 0 ==> shard == Failure(Overflow)
    requires len >= 0 ==> shard == cut(from, len)
    ensures shard.Failure? ==> SplitFrom(n, i, from, lens, cut) == ([], Fail(shard.error))
    ensures shard.Success? ==>
              len >= 0 &&
              SplitFrom(n, i, from, lens, cut).0 == [shard.value] + SplitFrom(n, i + 1, from + len, lens, cut).0 &&
              SplitFrom(n, i, from, lens, cut).1 == SplitFrom(n, i + 1, from + len, lens, cut).1
  {
    SplitFromUnfold(n, i, from, lens, cut, len);
  }

  /** The loop of `SplitMesh`, for any plan and maker of the reader's shards: the shards are
      appended one by one, so those made before a failing shard stay in the list. */
  method SplitWith(m: Mesh, meshList: seq<Mesh>, ghost lens: Lens, ghost cut: Cut) returns (list: seq<Mesh>, ok: Outcome)
    requires MakesReaderShards(m, cut)
    requires PlansReaderShards(m, ShardCount(|m.vertices|), lens)
    ensures list == meshList + SplitFrom(ShardCount(|m.vertices|), 0, 0, lens, cut).0
    ensures ok == SplitFrom(ShardCount(|m.vertices|), 0, 0, lens, cut).1
  {
    var n := ShardCount(|m.vertices|);
    ghost var whole := SplitFrom(n, 0, 0, lens, cut);
    var last: nat := 0;
    list := meshList;
    for i := 0 to n
      invariant last <= |m.indices|
      invariant meshList + whole.0 == list + SplitFrom(n, i, last, lens, cut).0
      invariant whole.1 == SplitFrom(n, i, last, lens, cut).1
    {
      var len, s := NextShard(m, n, i, last, lens, cut);
      ShardStep(n, i, last, lens, cut, len, s);
      if s.Failure? {
        assert list + [] == list;
        return list, Fail(s.error);
      }
      MovedToList(meshList + whole.0, list, SplitFrom(n, i, last, lens, cut).0, s.value,
                  SplitFrom(n, i + 1, last + len, lens, cut).0);
      list := list + [s.value];
      last := last + len;
    }
    assert list + [] == list;
    return list, Pass;
  }

  /** `SplitMesh(ctmMesh, ref splitMeshes)`. */
  method SplitMesh(m: Mesh, meshList: seq<Mesh>) returns (list: seq<Mesh>, ok: Outcome)
    ensures list == meshList + Split(m).0 && ok == Split(m).1
  {
    ghost var lens := ReaderLens(m, ShardCount(|m.vertices|));
    ghost var cut := Cutter(m);
    ReaderLensPlans(m, ShardCount(|m.vertices|));
    assert MakesReaderShards(m, cut);
    list, ok := SplitWith(m, meshList, lens, cut);
  }
}
