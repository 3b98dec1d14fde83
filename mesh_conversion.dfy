// The array conversions both tile loaders apply to a decoded OpenCTM mesh before handing it
// to the engine: positions and normals change handedness by swapping y and z, triangles
// change winding by swapping their second and third index, and the first UV map is paired
// up (the 3MXB loader also turns v into 1 - v). Point clouds are read from raw bytes.
module MeshConversion {
  import opened Machine
  import opened Wrappers
  import opened FloatArith
  import opened ByteCoding
  import opened MeshData

  /** A UV pair of the engine's mesh. */
  type UV = (Float32, Float32)

  const ZERO: Float32 := Float32(0)

  // ---------------------------------------------------------------------
  // Positions and normals

  /** The engine's vectors built from the first `count` float triples of v, y and z swapped:
      element j is (v[3j], v[3j+2], v[3j+1]). */
  function SwappedYZ(v: seq<Float32>, count: nat): (r: seq<Vec3>)
    requires 3 * count <= |v|
    ensures |r| == count
  {
    seq(count, j requires 0 <= j < count => (v[3 * j], v[3 * j + 2], v[3 * j + 1]))
  }

  /** The float array an engine's vector list comes from: each vector's x, z, y. */
  function UnswappedYZ(vs: seq<Vec3>): (r: seq<Float32>)
    ensures |r| == 3 * |vs|
  {
    seq(3 * |vs|, i requires 0 <= i < 3 * |vs| =>
      var t := vs[i / 3]; if i % 3 == 0 then t.0 else if i % 3 == 1 then t.2 else t.1)
  }

  /** Swapping y and z loses nothing: undone, it gives back the floats it read. */
  lemma SwappedYZInverse(v: seq<Float32>, count: nat)
    requires 3 * count <= |v|
    ensures UnswappedYZ(SwappedYZ(v, count)) == v[..3 * count]
  {
    var s := SwappedYZ(v, count);
    forall i | 0 <= i < 3 * count ensures UnswappedYZ(s)[i] == v[i] {
      var j := i / 3;
      assert 3 * j <= i < 3 * j + 3;
      assert s[j] == (v[3 * j], v[3 * j + 2], v[3 * j + 1]);
    }
  }

  /** ... and every vector list is the swap of some float array. */
  lemma UnswappedYZInverse(vs: seq<Vec3>)
    ensures SwappedYZ(UnswappedYZ(vs), |vs|) == vs
  {
    var u := UnswappedYZ(vs);
    forall j | 0 <= j < |vs| ensures SwappedYZ(u, |vs|)[j] == vs[j] {
      assert (3 * j) / 3 == j && (3 * j + 1) / 3 == j && (3 * j + 2) / 3 == j;
      assert u[3 * j] == vs[j].0 && u[3 * j + 1] == vs[j].2 && u[3 * j + 2] == vs[j].1;
    }
  }

  /** The vertex and normal loops of `ConstructMesh`: a `count`-element array filled from v
      with y and z swapped. An index past the end of v, which only a normal array shorter
      than the vertex array can cause, throws. */
  method ConvertVectors(v: seq<Float32>, count: nat) returns (r: Result<seq<Vec3>>)
    ensures 3 * count <= |v| ==> r == Success(SwappedYZ(v, count))
    ensures 3 * count > |v| ==> r == Failure(IndexOutOfRange)
  {
    var a := new Vec3[count](_ => (ZERO, ZERO, ZERO));
    var j := 0;
    while j < count
      invariant j <= count && 3 * j <= |v|
      invariant forall i :: 0 <= i < j ==> a[i] == (v[3 * i], v[3 * i + 2], v[3 * i + 1])
    {
      if 3 * j + 2 >= |v| {
        return Failure(IndexOutOfRange);
      }
      a[j] := (v[3 * j], v[3 * j + 2], v[3 * j + 1]);
      j := j + 1;
    }
    assert a[..] == SwappedYZ(v, count);
    r := Success(a[..]);
  }

  // ---------------------------------------------------------------------
  // Triangles

  /** The engine's triangle array: as long as the index array, each whole triangle with its
      second and third index swapped, and zeros after the last whole triangle. */
  function Rewound(idx: seq<Int32>): (r: seq<Int32>)
    ensures |r| == |idx|
  {
    seq(|idx|, i requires 0 <= i < |idx| =>
      if i >= 3 * (|idx| / 3) then 0
      else if i % 3 == 0 then idx[i] else if i % 3 == 1 then idx[i + 1] else idx[i - 1])
  }

  /** Whole triangle j of the rewound array: first corner kept, the other two swapped. */
  lemma RewoundTriangle(idx: seq<Int32>, j: nat)
    requires j < |idx| / 3
    ensures Rewound(idx)[3 * j..3 * j + 3] == [idx[3 * j], idx[3 * j + 2], idx[3 * j + 1]]
  {
    var r := Rewound(idx);
    assert (3 * j) % 3 == 0 && (3 * j + 1) % 3 == 1 && (3 * j + 2) % 3 == 2;
    assert r[3 * j] == idx[3 * j] && r[3 * j + 1] == idx[3 * j + 2] && r[3 * j + 2] == idx[3 * j + 1];
  }

  /** Each whole triangle keeps its first corner and its three indices, with the other two
      in the opposite order; past the whole triangles the array is zero. */
  lemma RewoundTriangles(idx: seq<Int32>)
    ensures forall j :: 0 <= j < |idx| / 3 ==>
              Rewound(idx)[3 * j..3 * j + 3] == [idx[3 * j], idx[3 * j + 2], idx[3 * j + 1]]
    ensures forall j :: 0 <= j < |idx| / 3 ==>
              multiset(Rewound(idx)[3 * j..3 * j + 3]) == multiset(idx[3 * j..3 * j + 3])
    ensures forall i :: 3 * (|idx| / 3) <= i < |idx| ==> Rewound(idx)[i] == 0
  {
    forall j | 0 <= j < |idx| / 3
      ensures Rewound(idx)[3 * j..3 * j + 3] == [idx[3 * j], idx[3 * j + 2], idx[3 * j + 1]]
      ensures multiset(Rewound(idx)[3 * j..3 * j + 3]) == multiset(idx[3 * j..3 * j + 3])
    {
      RewoundTriangle(idx, j);
      assert idx[3 * j..3 * j + 3] == [idx[3 * j], idx[3 * j + 1], idx[3 * j + 2]];
    }
  }

  /** Changing the winding twice gives back a whole-triangle index array. */
  lemma RewoundTwice(idx: seq<Int32>)
    requires |idx| % 3 == 0
    ensures Rewound(Rewound(idx)) == idx
  {
    var r := Rewound(idx);
    forall i | 0 <= i < |idx| ensures Rewound(r)[i] == idx[i] {
      if i % 3 == 1 {
        assert (i + 1) % 3 == 2;
      } else if i % 3 == 2 {
        assert (i - 1) % 3 == 1;
      }
    }
  }

  /** The triangle loop of `ConstructMesh`: an array as long as the indices, zero-filled,
      whose whole triangles are written with the winding changed. */
  method ConvertTriangles(idx: seq<Int32>) returns (r: seq<Int32>)
    ensures r == Rewound(idx)
  {
    var a := new Int32[|idx|](_ => 0);
    var j := 0;
    while j < |idx| / 3
      invariant j <= |idx| / 3
      invariant forall i :: 0 <= i < 3 * j ==> a[i] == Rewound(idx)[i]
      invariant forall i :: 3 * j <= i < |idx| ==> a[i] == 0
    {
      a[3 * j] := idx[3 * j];
      a[3 * j + 1] := idx[3 * j + 2];
      a[3 * j + 2] := idx[3 * j + 1];
      assert (3 * j) % 3 == 0 && (3 * j + 1) % 3 == 1 && (3 * j + 2) % 3 == 2;
      j := j + 1;
    }
    r := a[..];
  }

  // ---------------------------------------------------------------------
  // UV maps

  /** The first UV map's values in pairs, as the 3MX loader copies them: a trailing odd value
      is dropped. */
  function UVPairs(values: seq<Float32>): (r: seq<UV>)
    ensures |r| == |values| / 2
  {
    seq(|values| / 2, j requires 0 <= j < |values| / 2 => (values[2 * j], values[2 * j + 1]))
  }

  /** The pairs of the 3MXB loader: u as it is, v replaced by `1 - v`. */
  function FlippedUVPairs(arith: Arith, values: seq<Float32>): (r: seq<UV>)
    ensures |r| == |values| / 2
  {
    seq(|values| / 2, j requires 0 <= j < |values| / 2 => (values[2 * j], arith.sub(ONE, values[2 * j + 1])))
  }

  /** The float array a list of UV pairs comes from. */
  function UVValues(p: seq<UV>): (r: seq<Float32>)
    ensures |r| == 2 * |p|
  {
    seq(2 * |p|, i requires 0 <= i < 2 * |p| => if i % 2 == 0 then p[i / 2].0 else p[i / 2].1)
  }

  /** Pair j's two values in the float array. */
  lemma UVValuesAt(p: seq<UV>, j: nat)
    requires j < |p|
    ensures UVValues(p)[2 * j] == p[j].0 && UVValues(p)[2 * j + 1] == p[j].1
  {
    assert (2 * j) / 2 == j && (2 * j + 1) / 2 == j && (2 * j) % 2 == 0 && (2 * j + 1) % 2 == 1;
  }

  /** Pairing loses nothing but a trailing odd value ... */
  lemma UVPairsInverse(values: seq<Float32>)
    ensures UVValues(UVPairs(values)) == values[..2 * (|values| / 2)]
  {
    var p := UVPairs(values);
    forall i | 0 <= i < 2 * (|values| / 2) ensures UVValues(p)[i] == values[i] {
      var j := i / 2;
      assert 2 * j <= i < 2 * j + 2;
    }
  }

  /** ... and every pair list is the pairing of some float array. */
  lemma UVValuesInverse(p: seq<UV>)
    ensures UVPairs(UVValues(p)) == p
  {
    var u := UVValues(p);
    forall j | 0 <= j < |p| ensures UVPairs(u)[j] == p[j] {
      UVValuesAt(p, j);
    }
  }

  /** Flipping v twice gives back the copied pairs whenever `1 - (1 - v)` is v in the float
      arithmetic used. */
  lemma FlippedTwice(arith: Arith, values: seq<Float32>)
    requires forall v {:trigger arith.sub(ONE, arith.sub(ONE, v))} :: arith.sub(ONE, arith.sub(ONE, v)) == v
    ensures FlippedUVPairs(arith, UVValues(FlippedUVPairs(arith, values))) == UVPairs(values)
  {
    var p := FlippedUVPairs(arith, values);
    var u := UVValues(p);
    forall j | 0 <= j < |p| ensures FlippedUVPairs(arith, u)[j] == UVPairs(values)[j] {
      FlippedTwiceAt(arith, values, j);
    }
  }

  /** Pair j of the double flip, for a v that `1 - (1 - v)` gives back. */
  lemma FlippedTwiceAt(arith: Arith, values: seq<Float32>, j: nat)
    requires j < |values| / 2 && arith.sub(ONE, arith.sub(ONE, values[2 * j + 1])) == values[2 * j + 1]
    ensures j < |UVValues(FlippedUVPairs(arith, values))| / 2
    ensures FlippedUVPairs(arith, UVValues(FlippedUVPairs(arith, values)))[j] == UVPairs(values)[j]
  {
    var p := FlippedUVPairs(arith, values);
    assert p[j] == (values[2 * j], arith.sub(ONE, values[2 * j + 1]));
    FlipValuesAt(arith, p, j);
  }

  /** Flipping the pairs read back from a float array flips each pair's v. */
  lemma FlipValuesAt(arith: Arith, p: seq<UV>, j: nat)
    requires j < |p|
    ensures j < |UVValues(p)| / 2
    ensures FlippedUVPairs(arith, UVValues(p))[j] == (p[j].0, arith.sub(ONE, p[j].1))
  {
    var u := UVValues(p);
    assert |u| / 2 == |p|;
    UVValuesAt(p, j);
  }

  /** The UV loop of the 3MX loader's `ConstructMesh`. */
  method ConvertUVs(values: seq<Float32>) returns (r: seq<UV>)
    ensures r == UVPairs(values)
  {
    var a := new UV[|values| / 2](_ => (ZERO, ZERO));
    var j := 0;
    while j < |values| / 2
      invariant j <= |values| / 2
      invariant forall i :: 0 <= i < j ==> a[i] == (values[2 * i], values[2 * i + 1])
    {
      a[j] := (values[2 * j], values[2 * j + 1]);
      j := j + 1;
    }
    r := a[..];
  }

  /** The UV loop of the 3MXB loader's `ConstructMesh`. */
  method ConvertUVsFlipped(arith: Arith, values: seq<Float32>) returns (r: seq<UV>)
    ensures r == FlippedUVPairs(arith, values)
  {
    var a := new UV[|values| / 2](_ => (ZERO, ZERO));
    var j := 0;
    while j < |values| / 2
      invariant j <= |values| / 2
      invariant forall i :: 0 <= i < j ==> a[i] == (values[2 * i], arith.sub(ONE, values[2 * i + 1]))
    {
      a[j] := (values[2 * j], arith.sub(ONE, values[2 * j + 1]));
      j := j + 1;
    }
    r := a[..];
  }

  // ---------------------------------------------------------------------
  // Whole meshes

  /** The two tile formats' loaders differ in two conversion details: the 3MXB loader checks
      the mesh's integrity again and turns v into 1 - v, the 3MX loader does neither. */
  datatype Variant = Unity3MXB | Unity3mx

  /** The engine mesh `ConstructMesh` builds: vertices, triangles, the first UV map when the
      mesh has one, and its normals (none: the engine recalculates them). */
  datatype EngineMesh = EngineMesh(vertices: seq<Vec3>, triangles: seq<Int32>, uv: Option<seq<UV>>,
                                   normals: Option<seq<Vec3>>)

  /** The first UV map's pairs as the given loader converts them. */
  function UVsOf(variant: Variant, arith: Arith, values: seq<Float32>): seq<UV>
  {
    if variant == Unity3MXB then FlippedUVPairs(arith, values) else UVPairs(values)
  }

  /** The body of `ConstructMesh` after decoding: the 3MXB loader's `checkIntegrity` (which
      throws), then the conversions. Normals are read for `getVertexCount()` vertices, so a
      normal array shorter than that throws. */
  function EngineMeshOf(variant: Variant, arith: Arith, m: Mesh): (r: Result<EngineMesh>)
  {
    var check := CheckIntegrityAsWritten(m);
    if variant == Unity3MXB && check.Fail? then Failure(check.error)
    else if m.normals.Some? && 3 * VertexCount(m) > |m.normals.value| then Failure(IndexOutOfRange)
    else
      Success(EngineMesh(
        SwappedYZ(m.vertices, VertexCount(m)),
        Rewound(m.indices),
        if |m.texcoordinates| > 0 then Some(UVsOf(variant, arith, m.texcoordinates[0].values)) else None,
        if m.normals.Some? then Some(SwappedYZ(m.normals.value, VertexCount(m))) else None))
  }

  /** Rewinding keeps every index within a range that held all of them. */
  lemma RewoundInRange(idx: seq<Int32>, n: int)
    requires forall i :: 0 <= i < |idx| ==> 0 <= idx[i] < n
    requires 0 < n
    ensures forall i :: 0 <= i < |idx| ==> 0 <= Rewound(idx)[i] < n
  {
    forall i | 0 <= i < |idx| ensures 0 <= Rewound(idx)[i] < n {
      if i < 3 * (|idx| / 3) && i % 3 == 1 {
        assert i + 1 < 3 * (|idx| / 3);
      }
    }
  }

  /** A mesh the decoder accepts converts without error, and the engine mesh gives the mesh
      back: its vertices unswapped are the mesh's, its triangles rewound are the mesh's
      indices, and every triangle corner is one of its vertices. */
  lemma EngineMeshOfWellFormed(variant: Variant, arith: Arith, m: Mesh)
    requires WellFormed(m)
    requires m.normals.Some? ==> |m.normals.value| == |m.vertices|
    ensures EngineMeshOf(variant, arith, m).Success?
    ensures var e := EngineMeshOf(variant, arith, m).value;
            UnswappedYZ(e.vertices) == m.vertices[..3 * VertexCount(m)] &&
            Rewound(e.triangles) == m.indices &&
            (forall i :: 0 <= i < |e.triangles| ==> 0 <= e.triangles[i] < |e.vertices|) &&
            (e.normals.Some? <==> m.normals.Some?) && (e.uv.Some? <==> |m.texcoordinates| > 0)
  {
    CheckIntegrityStricter(m);
    assert CheckIntegrityAsWritten(m).Pass?;
    var e := EngineMeshOf(variant, arith, m).value;
    assert e.vertices == SwappedYZ(m.vertices, VertexCount(m)) && e.triangles == Rewound(m.indices);
    SwappedYZInverse(m.vertices, VertexCount(m));
    RewoundTwice(m.indices);
    assert 0 <= m.indices[0] < VertexCount(m);
    RewoundInRange(m.indices, VertexCount(m));
  }

  /** `ConstructMesh` from the decoded mesh to the engine mesh, its loops in turn. */
  method ConvertMesh(variant: Variant, arith: Arith, m: Mesh) returns (r: Result<EngineMesh>)
    ensures r == EngineMeshOf(variant, arith, m)
  {
    var check := CheckIntegrityAsWritten(m);
    if variant == Unity3MXB && check.Fail? {
      return Failure(check.error);
    }
    var vertices := ConvertVectors(m.vertices, VertexCount(m));
    var triangles := ConvertTriangles(m.indices);
    var uv := None;
    if |m.texcoordinates| > 0 {
      var pairs;
      if variant == Unity3MXB {
        pairs := ConvertUVsFlipped(arith, m.texcoordinates[0].values);
      } else {
        pairs := ConvertUVs(m.texcoordinates[0].values);
      }
      uv := Some(pairs);
    }
    var normals := None;
    if m.normals.Some? {
      var n := ConvertVectors(m.normals.value, VertexCount(m));
      if n.Failure? {
        return Failure(n.error);
      }
      normals := Some(n.value);
    }
    r := Success(EngineMesh(vertices.value, triangles, uv, normals));
  }

  // ---------------------------------------------------------------------
  // Point clouds

  /** An RGBA colour of the engine. */
  type Color = (Float32, Float32, Float32, Float32)

  /** The float 255.0f. */
  const F255: Float32 := Float32(0x437F_0000)

  /** `BitConverter.ToSingle(data, k)` on a little-endian machine. */
  function SingleAt(data: seq<Byte>, k: nat): Float32
    requires k + 4 <= |data|
  {
    Float32(ReadLittleEndian(data[k..]))
  }

  /** Point i of a point cloud: twelve bytes holding x, z and y. */
  function PointAt(vertData: seq<Byte>, i: nat): Vec3
    requires 12 * i + 12 <= |vertData|
  {
    (SingleAt(vertData, 12 * i), SingleAt(vertData, 12 * i + 8), SingleAt(vertData, 12 * i + 4))
  }

  /** A colour channel: the byte divided by 255. */
  function Channel(arith: Arith, b: Byte): Float32
  {
    arith.div(arith.ofInt(b), F255)
  }

  /** Colour i of a point cloud: four bytes r, g, b, a. */
  function ColorAt(arith: Arith, colorData: seq<Byte>, i: nat): Color
    requires 4 * i + 4 <= |colorData|
  {
    (Channel(arith, colorData[4 * i]), Channel(arith, colorData[4 * i + 1]),
     Channel(arith, colorData[4 * i + 2]), Channel(arith, colorData[4 * i + 3]))
  }

  datatype PointCloud = PointCloud(vertices: seq<Vec3>, colors: seq<Color>, indices: seq<int>)

  /** The loop of `ConstructPointCloud` over the position and colour bytes read for vertNum
      points. A negative count cannot size the arrays. Otherwise point i reads twelve position
      bytes (past the end throws an ArgumentException) and then four colour bytes (past the end
      throws an IndexOutOfRangeException), so the first point that lacks either decides. */
  function PointCloudOf(arith: Arith, vertNum: Int32, vertData: seq<Byte>, colorData: seq<Byte>): (r: Result<PointCloud>)
    ensures r.Success? <==> 0 <= vertNum && 12 * vertNum <= |vertData| && 4 * vertNum <= |colorData|
    ensures r.Success? ==>
              |r.value.vertices| == |r.value.colors| == |r.value.indices| == vertNum &&
              forall i :: 0 <= i < vertNum ==>
                r.value.vertices[i] == PointAt(vertData, i) && r.value.colors[i] == ColorAt(arith, colorData, i) &&
                r.value.indices[i] == i
  {
    if vertNum < 0 then Failure(Overflow)
    else if vertNum <= |vertData| / 12 && vertNum <= |colorData| / 4 then
      Success(PointCloud(
        seq(vertNum, i requires 0 <= i < vertNum => PointAt(vertData, i)),
        seq(vertNum, i requires 0 <= i < vertNum => ColorAt(arith, colorData, i)),
        seq(vertNum, i => i)))
    else if |vertData| / 12 <= |colorData| / 4 then Failure(Argument)
    else Failure(IndexOutOfRange)
  }

  /** The exception of the first point that lacks its bytes: an ArgumentException when its
      position bytes are missing, otherwise an IndexOutOfRangeException for its colour. */
  function PointCloudFailsAt(arith: Arith, vertNum: Int32, vertData: seq<Byte>, colorData: seq<Byte>, i: nat)
    : (r: Result<PointCloud>)
    requires i < vertNum && 12 * i <= |vertData| && 4 * i <= |colorData|
    requires 12 * i + 12 > |vertData| || 4 * i + 4 > |colorData|
    ensures r == PointCloudOf(arith, vertNum, vertData, colorData)
  {
    if 12 * i + 12 > |vertData| then
      assert i == |vertData| / 12 && i <= |colorData| / 4;
      Failure(Argument)
    else
      assert i == |colorData| / 4 && i <= |vertData| / 12;
      Failure(IndexOutOfRange)
  }

  /** `ConstructPointCloud`'s loop, filling its three arrays point by point. */
  method ConvertPointCloud(arith: Arith, vertNum: Int32, vertData: seq<Byte>, colorData: seq<Byte>)
    returns (r: Result<PointCloud>)
    ensures r == PointCloudOf(arith, vertNum, vertData, colorData)
  {
    if vertNum < 0 {
      return Failure(Overflow);
    }
    var vertices := new Vec3[vertNum](_ => (ZERO, ZERO, ZERO));
    var colors := new Color[vertNum](_ => (ZERO, ZERO, ZERO, ZERO));
    var indices := new int[vertNum](_ => 0);
    var i := 0;
    while i < vertNum
      invariant 0 <= i <= vertNum && 12 * i <= |vertData| && 4 * i <= |colorData|
      invariant forall k :: 0 <= k < i ==>
                  vertices[k] == PointAt(vertData, k) && colors[k] == ColorAt(arith, colorData, k) && indices[k] == k
    {
      if 12 * i + 12 > |vertData| || 4 * i + 4 > |colorData| {
        r := PointCloudFailsAt(arith, vertNum, vertData, colorData, i);
        return;
      }
      vertices[i] := PointAt(vertData, i);
      colors[i] := ColorAt(arith, colorData, i);
      indices[i] := i;
      i := i + 1;
    }
    r := Success(PointCloud(vertices[..], colors[..], indices[..]));
    assert r.value == PointCloudOf(arith, vertNum, vertData, colorData).value;
  }

  /** The twelve bytes a point is stored as: x, z, y, each little-endian. */
  function PointRecord(p: Vec3): (r: seq<Byte>)
    ensures |r| == 12
  {
    LittleEndian(p.0.bits) + LittleEndian(p.2.bits) + LittleEndian(p.1.bits)
  }

  /** The position bytes of a point cloud: its points' records one after the other. */
  function PointBytes(points: seq<Vec3>): (r: seq<Byte>)
    ensures |r| == 12 * |points|
  {
    seq(12 * |points|, k requires 0 <= k < 12 * |points| => PointRecord(points[k / 12])[k % 12])
  }

  /** Reading four bytes that are an int's little-endian form gives the int. */
  lemma ReadBack(data: seq<Byte>, k: nat, v: Int32)
    requires k + 4 <= |data| && data[k..k + 4] == LittleEndian(v)
    ensures SingleAt(data, k) == Float32(v)
  {
    assert data[k..] == data[k..k + 4] + data[k + 4..];
    LittleEndianRoundTrip(v, data[k + 4..]);
  }

  /** Point i's twelve bytes in a point cloud's position bytes are its record. */
  lemma PointBytesAt(points: seq<Vec3>, i: nat)
    requires i < |points|
    ensures PointBytes(points)[12 * i..12 * i + 12] == PointRecord(points[i])
  {
    var b := PointBytes(points);
    var rec := PointRecord(points[i]);
    forall j | 0 <= j < 12 ensures b[12 * i..12 * i + 12][j] == rec[j] {
      RecordIndex(i, j);
    }
  }

  lemma RecordIndex(i: nat, j: nat)
    requires j < 12
    ensures (12 * i + j) / 12 == i && (12 * i + j) % 12 == j
  {
  }

  /** The three four-byte parts of a twelve-byte run. */
  lemma RecordParts(b: seq<Byte>, k: nat, rec: seq<Byte>)
    requires k + 12 <= |b| && b[k..k + 12] == rec
    ensures b[k..k + 4] == rec[..4] && b[k + 4..k + 8] == rec[4..8] && b[k + 8..k + 12] == rec[8..]
  {
    assert b[k..k + 4] == b[k..k + 12][..4];
    var mid, midRec := b[k + 4..k + 8], b[k..k + 12][4..8];
    var last, lastRec := b[k + 8..k + 12], b[k..k + 12][8..];
    forall j | 0 <= j < 4 ensures mid[j] == midRec[j] && last[j] == lastRec[j] {
      assert mid[j] == b[k + 4 + j] && last[j] == b[k + 8 + j];
    }
  }

  /** A point's record holds x, z and y in turn. */
  lemma PointRecordParts(p: Vec3)
    ensures PointRecord(p)[..4] == LittleEndian(p.0.bits) && PointRecord(p)[4..8] == LittleEndian(p.2.bits) &&
            PointRecord(p)[8..] == LittleEndian(p.1.bits)
  {
  }

  /** Point i read back from the position bytes is point i. */
  lemma PointRoundTrip(points: seq<Vec3>, i: nat)
    requires i < |points|
    ensures PointAt(PointBytes(points), i) == points[i]
  {
    var b := PointBytes(points);
    var p := points[i];
    PointBytesAt(points, i);
    RecordParts(b, 12 * i, PointRecord(p));
    PointRecordParts(p);
    ReadBack(b, 12 * i, p.0.bits);
    ReadBack(b, 12 * i + 4, p.2.bits);
    ReadBack(b, 12 * i + 8, p.1.bits);
  }

  /** Writing a point cloud's points as records and reading them back gives the points, the
      colours read from the colour bytes and the indices 0, 1, 2, ... */
  lemma PointCloudRoundTrip(arith: Arith, points: seq<Vec3>, colorData: seq<Byte>)
    requires |points| < TWO_31 && 4 * |points| <= |colorData|
    ensures PointCloudOf(arith, |points|, PointBytes(points), colorData).Success?
    ensures PointCloudOf(arith, |points|, PointBytes(points), colorData).value.vertices == points
  {
    var r := PointCloudOf(arith, |points|, PointBytes(points), colorData).value;
    forall i | 0 <= i < |points| ensures r.vertices[i] == points[i] {
      PointRoundTrip(points, i);
    }
  }
}
