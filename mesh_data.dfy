// The OpenCTM records: the file header (MeshInfo), a UV or attribute map
// (AttributeData) and the mesh itself, with their counts, validators and
// field-wise equality. Every field of these classes is readonly, so they are
// values here; a null array or string is `None`.
module MeshData {
  import opened Machine
  import opened Wrappers

  const CTM_ATTR_ELEMENT_COUNT: Int32 := 4
  const CTM_NORMAL_ELEMENT_COUNT: Int32 := 3
  const CTM_POSITION_ELEMENT_COUNT: Int32 := 3
  const CTM_UV_ELEMENT_COUNT: Int32 := 2

  // ---------------------------------------------------------------------
  // MeshInfo: the header fields of a file

  const HAS_NORMAL_BIT: Int32 := 1

  datatype MeshInfo = MeshInfo(vertexCount: Int32, triangleCount: Int32, uvMapCount: Int32,
                               attrCount: Int32, flags: Int32)

  /** Bit k of the two's-complement pattern of v. */
  predicate BitSet(v: Int32, k: nat)
  {
    (Unsigned(v) / Pow2(k)) % 2 == 1
  }

  function Pow2(k: nat): (r: nat)
    ensures r >= 1
  {
    if k == 0 then 1 else 2 * Pow2(k - 1)
  }

  /** `hasNormals`: the test `(flags & HAS_NORMAL_BIT) > 0`, that is bit 0 of the flags. */
  function InfoHasNormals(info: MeshInfo): (r: bool)
    ensures r <==> info.flags % 2 == 1
  {
    assert Unsigned(info.flags) % 2 == info.flags % 2 by {
      if info.flags < 0 {
        ModMultiple(info.flags, TWO_31);
      }
    }
    BitSet(info.flags, 0)
  }

  /** Only bit 0 of the flags decides `hasNormals`: changing any other bit leaves it alone. */
  lemma InfoHasNormalsOtherBits(info: MeshInfo, k: int)
    ensures InfoHasNormals(info.(flags := Wrap32(info.flags + 2 * k))) == InfoHasNormals(info)
  {
    var f := info.flags + 2 * k;
    var q := (Wrap32(f) - f) / TWO_32;
    assert Wrap32(f) == f + q * TWO_32 by {
      Wrap32Congruent(f, f);
    }
    assert Wrap32(f) == f + 2 * (q * TWO_31);
    ModMultiple(f, q * TWO_31);
    ModMultiple(info.flags, k);
  }

  // ---------------------------------------------------------------------
  // AttributeData: a UV map or a custom attribute map

  /** 1/4096, the precision a RAW UV map is given. */
  const STANDARD_UV_PRECISION: Float32 := PowerOfTwoInverse(12)
  /** 1/256, the precision a RAW attribute map is given. */
  const STANDARD_PRECISION: Float32 := PowerOfTwoInverse(8)

  datatype AttributeData = AttributeData(name: Option<string>, materialName: Option<string>,
                                         precision: Float32, values: seq<Float32>)

  /** `AttributeData.checkIntegrity`: `precision > 0`, which holds for exactly the bit patterns
      with the sign bit clear, not zero and not NaN (+infinity included). */
  function AttributeIntegrity(a: AttributeData): (r: bool)
    ensures r <==> 0 < a.precision.bits <= EXPONENT_ALL_ONES
  {
    PositiveBits(a.precision);
    Positive(a.precision)
  }

  lemma StandardPrecisions()
    ensures AttributeIntegrity(AttributeData(None, None, STANDARD_UV_PRECISION, []))
    ensures AttributeIntegrity(AttributeData(None, None, STANDARD_PRECISION, []))
    ensures STANDARD_UV_PRECISION.bits == 115 * 0x80_0000 && STANDARD_PRECISION.bits == 119 * 0x80_0000
  {
  }

  /** `String.Equals(other)` called on `s`: a null receiver throws, a null argument is unequal. */
  function StringEquals(s: Option<string>, other: Option<string>): (r: Result<bool>)
    ensures s.None? <==> r.Failure?
    ensures r.Failure? ==> r.error == NullReference
    ensures r.Success? ==> (r.value <==> other == s)
  {
    match s
    case None => Failure(NullReference)
    case Some(v) => Success(other.Some? && other.value == v)
  }

  /** `AttributeData.Equals(obj)`: name, material name, precision (with the float `!=`, so a NaN
      precision is never equal) and values through `ArrayEquals`. The receiver's name and
      material name are dereferenced, so a null one throws. */
  function AttributeEquals(a: AttributeData, other: Option<AttributeData>): (r: Result<bool>)
    ensures other.None? ==> r == Success(false)
    ensures r == Success(true) <==>
      other.Some? && a.name.Some? && a.materialName.Some? &&
      other.value.name == a.name && other.value.materialName == a.materialName &&
      NumEq(a.precision, other.value.precision) &&
      ArrayEquals(Some(a.values), Some(other.value.values), FloatEquals) == Success(true)
  {
    match other
    case None => Success(false)
    case Some(o) =>
      var sameName :- StringEquals(a.name, o.name);
      if !sameName then Success(false)
      else
        var sameMaterial :- StringEquals(a.materialName, o.materialName);
        if !sameMaterial then Success(false)
        else if !NumEq(a.precision, o.precision) then Success(false)
        else ArrayEquals(Some(a.values), Some(o.values), FloatEquals)
  }

  /** Maps with equal names and a null material name, as every attribute map read from a file
      has, cannot be compared: `Equals` throws even when the map is compared with itself. */
  lemma AttributeEqualsNullMaterial(a: AttributeData, b: AttributeData)
    requires a.name.Some? && b.name == a.name && a.materialName.None?
    ensures AttributeEquals(a, Some(b)) == Failure(NullReference)
  {
  }

  // ---------------------------------------------------------------------
  // Mesh

  datatype Mesh = Mesh(vertices: seq<Float32>, normals: Option<seq<Float32>>, indices: seq<Int32>,
                       texcoordinates: seq<AttributeData>, attributs: Option<seq<AttributeData>>)

  /** `getVertexCount`: whole vertices of three floats; a trailing partial vertex is not counted. */
  function VertexCount(m: Mesh): (r: nat)
    ensures 3 * r <= |m.vertices| < 3 * r + 3
  {
    |m.vertices| / CTM_POSITION_ELEMENT_COUNT
  }

  /** `getTriangleCount`: whole triangles of three indices. */
  function TriangleCount(m: Mesh): (r: nat)
    ensures 3 * r <= |m.indices| < 3 * r + 3
  {
    |m.indices| / 3
  }

  /** `hasNormals`. */
  predicate HasNormals(m: Mesh) { m.normals.Some? }

  /** .NET arrays hold fewer than 2^31 elements; the counts a writer stores fit an `int`. */
  predicate Bounded(m: Mesh)
  {
    |m.vertices| < TWO_31 && |m.indices| < TWO_31 && |m.texcoordinates| < TWO_31 &&
    (m.attributs.Some? ==> |m.attributs.value| < TWO_31)
  }

  predicate AllFinite(s: seq<Float32>)
  {
    forall i :: 0 <= i < |s| ==> IsFinite(s[i])
  }

  predicate MapsFinite(maps: seq<AttributeData>)
  {
    forall j :: 0 <= j < |maps| ==> AllFinite(maps[j].values)
  }

  /** The checks of `checkIntegrity` that come after the index check, in their order: vertices,
      normals, UV maps, then attribute maps (whose array is dereferenced). */
  function ValuesIntegrity(m: Mesh): Outcome
  {
    if !AllFinite(m.vertices) then Fail(InvalidData)
    else if m.normals.Some? && !AllFinite(m.normals.value) then Fail(InvalidData)
    else if !MapsFinite(m.texcoordinates) then Fail(InvalidData)
    else if m.attributs.None? then Fail(NullReference)
    else if !MapsFinite(m.attributs.value) then Fail(InvalidData)
    else Pass
  }

  /** `checkIntegrity` as written: an index is out of range only when it is at least
      vertices.Length, the number of floats; negative indices are never rejected. */
  function CheckIntegrityAsWritten(m: Mesh): (r: Outcome)
    ensures r.Pass? ==> |m.vertices| >= 1 && |m.indices| >= 3 && |m.indices| % 3 == 0
    ensures r.Pass? ==> forall i :: 0 <= i < |m.indices| ==> m.indices[i] < |m.vertices|
  {
    if |m.vertices| < 1 || TriangleCount(m) < 1 then Fail(InvalidData)
    else if |m.indices| % 3 != 0 then Fail(InvalidData)
    else if exists i :: 0 <= i < |m.indices| && m.indices[i] >= |m.vertices| then Fail(InvalidData)
    else ValuesIntegrity(m)
  }

  /** Every index names one of the mesh's vertices. */
  predicate IndicesInRange(m: Mesh)
  {
    forall i :: 0 <= i < |m.indices| ==> 0 <= m.indices[i] < VertexCount(m)
  }

  /** What a mesh must satisfy to be written or returned by a reader. */
  predicate WellFormed(m: Mesh)
  {
    |m.vertices| >= 1 && |m.indices| >= 3 && |m.indices| % 3 == 0 && IndicesInRange(m) &&
    AllFinite(m.vertices) && (m.normals.Some? ==> AllFinite(m.normals.value)) &&
    MapsFinite(m.texcoordinates) && m.attributs.Some? && MapsFinite(m.attributs.value)
  }

  /** `checkIntegrity` with the index check it evidently intends: every index is a vertex
      number, 0 <= index < getVertexCount(). All other checks are as written. */
  function CheckIntegrity(m: Mesh): (r: Outcome)
    ensures r.Pass? <==> WellFormed(m)
    ensures r.Fail? ==> r.error == InvalidData || (r.error == NullReference && m.attributs.None?)
    ensures WellFormed(m) ==> VertexCount(m) >= 1 && TriangleCount(m) >= 1
  {
    if |m.vertices| < 1 || TriangleCount(m) < 1 then Fail(InvalidData)
    else if |m.indices| % 3 != 0 then Fail(InvalidData)
    else if !IndicesInRange(m) then Fail(InvalidData)
    else
      assert VertexCount(m) >= 1 by {
        assert 0 <= m.indices[0] < VertexCount(m);
      }
      ValuesIntegrity(m)
  }

  /** A mesh whose only vertex is 0 passes the written check with the triangle (0, 1, 2); the
      intended check rejects it. */
  lemma CheckIntegrityAsWrittenAcceptsMissingVertex()
    ensures var m := Mesh([Float32(0), Float32(0), Float32(0)], None, [0, 1, 2], [], Some([]));
      CheckIntegrityAsWritten(m) == Pass && CheckIntegrity(m) == Fail(InvalidData)
  {
    var m := Mesh([Float32(0), Float32(0), Float32(0)], None, [0, 1, 2], [], Some([]));
    assert m.indices[1] == 1 && VertexCount(m) == 1;
  }

  /** The written check lets a negative index through; the intended check rejects it. */
  lemma CheckIntegrityAsWrittenAcceptsNegative()
    ensures var m := Mesh([Float32(0), Float32(0), Float32(0)], None, [-1, 0, 0], [], Some([]));
      CheckIntegrityAsWritten(m) == Pass && CheckIntegrity(m) == Fail(InvalidData)
  {
    var m := Mesh([Float32(0), Float32(0), Float32(0)], None, [-1, 0, 0], [], Some([]));
    assert m.indices[0] == -1;
  }

  /** The intended check is the stricter one: whatever it accepts, the written check accepts. */
  lemma CheckIntegrityStricter(m: Mesh)
    requires CheckIntegrity(m).Pass?
    ensures CheckIntegrityAsWritten(m).Pass?
  {
    forall i | 0 <= i < |m.indices| ensures m.indices[i] < |m.vertices| {
      assert m.indices[i] < VertexCount(m);
    }
  }

  /** The two checks differ only in the index test: the intended check passes exactly the
      meshes the written one passes whose indices all name vertices. */
  lemma CheckIntegrityAgrees(m: Mesh)
    ensures CheckIntegrity(m).Pass? <==> CheckIntegrityAsWritten(m).Pass? && IndicesInRange(m)
  {
    if CheckIntegrity(m).Pass? {
      CheckIntegrityStricter(m);
    }
  }

  // ---------------------------------------------------------------------
  // Equality

  /** `ArrayEquals(a, b)`: nulls are equal only to null; otherwise the elements of a are
      compared with those of b at the same index, so b may be longer, and a shorter b that
      agrees on its whole length throws at a's next index. */
  function ArrayEquals<T>(a: Option<seq<T>>, b: Option<seq<T>>, eq: (T, T) -> bool): (r: Result<bool>)
    ensures a.None? ==> r == Success(b.None?)
    ensures a.Some? && b.None? ==> r == Success(false)
    ensures a.Some? && b.Some? ==>
      (r == Success(true) <==> |a.value| <= |b.value| && Agree(a.value, b.value, |a.value|, eq))
    ensures a.Some? && b.Some? ==>
      (r.Failure? <==> |b.value| < |a.value| && Agree(a.value, b.value, |b.value|, eq))
    ensures r.Failure? ==> r.error == IndexOutOfRange
  {
    match a
    case None => Success(b.None?)
    case Some(x) =>
      match b
      case None => Success(false)
      case Some(y) => ElementsEqualFrom(x, y, 0, eq)
  }

  /** The first n elements of a and b are pairwise equal by eq. */
  predicate Agree<T>(a: seq<T>, b: seq<T>, n: nat, eq: (T, T) -> bool)
    requires n <= |a| && n <= |b|
  {
    forall i :: 0 <= i < n ==> eq(a[i], b[i])
  }

  /** The comparison loop of `ArrayEquals` from index i on. */
  function ElementsEqualFrom<T>(a: seq<T>, b: seq<T>, i: nat, eq: (T, T) -> bool): (r: Result<bool>)
    requires i <= |a| && i <= |b| && Agree(a, b, i, eq)
    ensures r == Success(true) <==> |a| <= |b| && Agree(a, b, |a|, eq)
    ensures r.Failure? <==> |b| < |a| && Agree(a, b, |b|, eq)
    ensures r.Failure? ==> r.error == IndexOutOfRange
    decreases |a| - i
  {
    if i == |a| then Success(true)
    else if i == |b| then Failure(IndexOutOfRange)
    else if !eq(a[i], b[i]) then Success(false)
    else ElementsEqualFrom(a, b, i + 1, eq)
  }

  /** `DeepEquals(a, b)` on map arrays: both arrays are dereferenced, unequal lengths are
      unequal, and the maps are compared in order with `AttributeData.Equals`, whose exception
      ends the comparison. */
  function DeepEquals(a: Option<seq<AttributeData>>, b: Option<seq<AttributeData>>): (r: Result<bool>)
    ensures a.None? || b.None? ==> r == Failure(NullReference)
    ensures a.Some? && b.Some? && |a.value| != |b.value| ==> r == Success(false)
    ensures a.Some? && b.Some? && |a.value| == |b.value| ==>
      (r == Success(true) <==> forall i :: 0 <= i < |a.value| ==> AttributeEquals(a.value[i], Some(b.value[i])) == Success(true))
  {
    match a
    case None => Failure(NullReference)
    case Some(x) =>
      match b
      case None => Failure(NullReference)
      case Some(y) =>
        if |x| != |y| then Success(false) else MapsEqualFrom(x, y, 0)
  }

  function MapsEqualFrom(a: seq<AttributeData>, b: seq<AttributeData>, i: nat): (r: Result<bool>)
    requires |a| == |b| && i <= |a|
    requires forall k :: 0 <= k < i ==> AttributeEquals(a[k], Some(b[k])) == Success(true)
    ensures r == Success(true) <==> forall k :: 0 <= k < |a| ==> AttributeEquals(a[k], Some(b[k])) == Success(true)
    ensures r != Failure(NullReference) || exists k :: 0 <= k < |a| && AttributeEquals(a[k], Some(b[k])) == Failure(NullReference)
    decreases |a| - i
  {
    if i == |a| then Success(true)
    else
      var same :- AttributeEquals(a[i], Some(b[i]));
      if !same then Success(false) else MapsEqualFrom(a, b, i + 1)
  }

  /** `Mesh.Equals(obj)`: vertices, normals and indices through `ArrayEquals`, then both map
      arrays through `DeepEquals`; the first unequal part decides, and an exception ends it. */
  function MeshEquals(m: Mesh, other: Option<Mesh>): (r: Result<bool>)
    ensures other.None? ==> r == Success(false)
    ensures r == Success(true) <==>
      other.Some? &&
      ArrayEquals(Some(m.vertices), Some(other.value.vertices), FloatEquals) == Success(true) &&
      ArrayEquals(m.normals, other.value.normals, FloatEquals) == Success(true) &&
      ArrayEquals(Some(m.indices), Some(other.value.indices), (x: Int32, y: Int32) => x == y) == Success(true) &&
      DeepEquals(Some(m.texcoordinates), Some(other.value.texcoordinates)) == Success(true) &&
      DeepEquals(m.attributs, other.value.attributs) == Success(true)
  {
    match other
    case None => Success(false)
    case Some(o) =>
      var sameVertices :- ArrayEquals(Some(m.vertices), Some(o.vertices), FloatEquals);
      if !sameVertices then Success(false)
      else
        var sameNormals :- ArrayEquals(m.normals, o.normals, FloatEquals);
        if !sameNormals then Success(false)
        else
          var sameIndices :- ArrayEquals(Some(m.indices), Some(o.indices), (x: Int32, y: Int32) => x == y);
          if !sameIndices then Success(false)
          else
            var sameUVs :- DeepEquals(Some(m.texcoordinates), Some(o.texcoordinates));
            if !sameUVs then Success(false)
            else DeepEquals(m.attributs, o.attributs)
  }

  /** A map with names, a non-NaN precision and any values equals itself. */
  lemma AttributeEqualsReflexive(a: AttributeData)
    requires a.name.Some? && a.materialName.Some? && !IsNaN(a.precision)
    ensures AttributeEquals(a, Some(a)) == Success(true)
  {
    assert Agree(a.values, a.values, |a.values|, FloatEquals);
  }

  /** A mesh equals itself when every map has a name, a material name and a non-NaN precision. */
  lemma MeshEqualsReflexive(m: Mesh)
    requires m.attributs.Some?
    requires forall j :: 0 <= j < |m.texcoordinates| ==>
      m.texcoordinates[j].name.Some? && m.texcoordinates[j].materialName.Some? && !IsNaN(m.texcoordinates[j].precision)
    requires forall j :: 0 <= j < |m.attributs.value| ==>
      m.attributs.value[j].name.Some? && m.attributs.value[j].materialName.Some? && !IsNaN(m.attributs.value[j].precision)
    ensures MeshEquals(m, Some(m)) == Success(true)
  {
    assert Agree(m.vertices, m.vertices, |m.vertices|, FloatEquals);
    if m.normals.Some? {
      assert Agree(m.normals.value, m.normals.value, |m.normals.value|, FloatEquals);
    }
    assert Agree(m.indices, m.indices, |m.indices|, (x: Int32, y: Int32) => x == y);
    forall j | 0 <= j < |m.texcoordinates|
      ensures AttributeEquals(m.texcoordinates[j], Some(m.texcoordinates[j])) == Success(true)
    {
      AttributeEqualsReflexive(m.texcoordinates[j]);
    }
    forall j | 0 <= j < |m.attributs.value|
      ensures AttributeEquals(m.attributs.value[j], Some(m.attributs.value[j])) == Success(true)
    {
      AttributeEqualsReflexive(m.attributs.value[j]);
    }
  }

  /** A mesh with one attribute map whose material name is null, as the decoders produce, cannot
      be compared with itself: `Equals` throws. */
  lemma MeshEqualsNullMaterial(m: Mesh, a: AttributeData)
    requires m.normals.None? && m.texcoordinates == [] && m.attributs == Some([a])
    requires a.name.Some? && a.materialName.None?
    ensures MeshEquals(m, Some(m)) == Failure(NullReference)
  {
    assert Agree(m.vertices, m.vertices, |m.vertices|, FloatEquals);
    assert Agree(m.indices, m.indices, |m.indices|, (x: Int32, y: Int32) => x == y);
  }
}
