// MG2Decoder: the MG2 body. A header (tag, vertex and normal precision, the
// vertex grid), then the vertices as integer offsets from their grid cells
// with delta-coded grid indices, the MG1 index table, the normals relative
// to the smooth normals, and the UV and attribute maps delta-coded per
// component. Each section is a specification function over the stream
// content, and the stream methods are proved to read what those functions
// say.
module Mg2Decoder {
  import opened Machine
  import opened Wrappers
  import opened Tags
  import opened Lzma
  import opened MeshData
  import opened CtmInput
  import opened FloatArith
  import opened Grids
  import opened Mg2Deltas
  import opened CommonAlgorithm
  import RawCodec

  /** `isFormatSupported(tag, version)`: the MG2 tag and format version 5. */
  function IsFormatSupported(tag: Int32, version: Int32): (r: bool)
    ensures r <==> GetTagInt("MG2\0") == Success(tag) && version == RawCodec.FORMAT_VERSION
  {
    TagConstants();
    tag == MG2_TAG && version == RawCodec.FORMAT_VERSION
  }

  /** No (tag, version) pair is claimed by MG2 and by RAW or MG1. */
  lemma FormatsExclusive(tag: Int32, version: Int32)
    ensures !(IsFormatSupported(tag, version) && RawCodec.IsFormatSupported(RawCodec.Raw, tag, version))
    ensures !(IsFormatSupported(tag, version) && RawCodec.IsFormatSupported(RawCodec.Mg1, tag, version))
  {
    var r := RawCodec.Tag(RawCodec.Raw);
    var m := RawCodec.Tag(RawCodec.Mg1);
    assert r != MG2_TAG && m != MG2_TAG;
  }

  // ---------------------------------------------------------------------
  // Decoding: what each section reads at a stream position

  /** The MG2 header: the precision of the vertex offsets, that of the normals, and the grid. */
  datatype Header = Header(vertexPrecision: Float32, normalPrecision: Float32, grid: Grid)

  /** The MG2H tag, the two precisions and `Grid.fromStream`; a grid that fails
      `checkIntegrity` is corrupt data. */
  function HeaderAt(data: seq<Byte>, pos: nat): (r: Result<Read<Header>>)
    ensures r.Success? ==> Grids.CheckIntegrity(r.value.value.grid)
  {
    var t :- RawCodec.TagAt(data, pos, MG2_HEADER_TAG);
    var vp :- FloatAt(data, t);
    var np :- FloatAt(data, vp.next);
    var grid :- GridAt(data, np.next);
    if !Grids.CheckIntegrity(grid.value) then Failure(InvalidData)
    else Success(Read(Header(vp.value, np.value, grid.value), grid.next))
  }

  /** `readVertices`: the VERT tag and vcount rows of three offsets, then the GIDX tag and
      vcount grid-index deltas, summed up and handed to `restoreVertices`. A negative vcount
      cannot be allocated, and a count whose table does not fit an array fails, so a vertex
      table that is read has exactly vcount rows. */
  function VerticesAt(data: seq<Byte>, pos: nat, coder: Coder, grid: Grid, vcount: Int32,
                      precision: Float32, arith: Arith): (r: Result<Read<seq<Float32>>>)
    requires Shaped(grid)
    ensures r.Success? ==> 0 <= vcount && |r.value.value| == 3 * vcount < TWO_31
  {
    var t :- RawCodec.TagAt(data, pos, VERT);
    var ints :- PackedIntsAt(data, t, coder, vcount, CTM_POSITION_ELEMENT_COUNT, false);
    var g :- RawCodec.TagAt(data, ints.next, GIDX);
    var gs :- PackedIntsAt(data, g, coder, vcount, 1, false);
    var vertices :- RestoredVertices(ints.value, StrideSums(gs.value, 1), grid, precision, arith);
    Success(Read(vertices, gs.next))
  }

  /** The index check of `readIndices` as written: only an index above vcount is refused. */
  function IndicesCheckAsWritten(indices: seq<Int32>, vcount: Int32): (r: Outcome)
    ensures r.Pass? <==> forall k :: 0 <= k < |indices| ==> indices[k] <= vcount
    ensures r.Fail? ==> r.error == InvalidData
  {
    if exists k :: 0 <= k < |indices| && indices[k] > vcount then Fail(InvalidData) else Pass
  }

  /** The index check `readIndices` evidently intends: every index names one of the vcount
      vertices. */
  function IndicesCheck(indices: seq<Int32>, vcount: Int32): (r: Outcome)
    ensures r.Pass? <==> forall k :: 0 <= k < |indices| ==> 0 <= indices[k] < vcount
    ensures r.Fail? ==> r.error == InvalidData
  {
    if exists k :: 0 <= k < |indices| && !(0 <= indices[k] < vcount) then Fail(InvalidData) else Pass
  }

  /** `readIndices`: the INDX tag, triCount rows of three, restored as MG1 restores them, then
      checked against the vertex count as written, so no index exceeds it. */
  function IndicesAt(data: seq<Byte>, pos: nat, coder: Coder, triCount: Int32, vcount: Int32)
    : (r: Result<Read<seq<Int32>>>)
    ensures r.Success? ==> forall k :: 0 <= k < |r.value.value| ==> r.value.value[k] <= vcount
  {
    var t :- RawCodec.TagAt(data, pos, INDX);
    var ints :- PackedIntsAt(data, t, coder, triCount, 3, false);
    var indices :- RawCodec.RestoredIndices(triCount, ints.value);
    var c := IndicesCheckAsWritten(indices, vcount);
    if c.Fail? then Failure(c.error) else Success(Read(indices, ints.next))
  }

  /** The three floats of vertex i of a flat table. */
  function Triple(s: seq<Float32>, i: nat): Vec3
    requires 3 * i + 3 <= |s|
  {
    (s[3 * i], s[3 * i + 1], s[3 * i + 2])
  }

  function IntTriple(s: seq<Int32>, i: nat): (Int32, Int32, Int32)
    requires 3 * i + 3 <= |s|
  {
    (s[3 * i], s[3 * i + 1], s[3 * i + 2])
  }

  function Flat(v: Vec3): (r: seq<Float32>)
    ensures |r| == 3
  {
    [v.0, v.1, v.2]
  }

  /** The normals of the first n vertices, each rebuilt from its three stored ints relative to
      its smooth normal. */
  function AngularNormals(ints: seq<Int32>, smooth: seq<Float32>, n: nat, precision: Float32,
                          angular: Angular): (r: seq<Float32>)
    requires 3 * n <= |ints| && 3 * n <= |smooth|
    ensures |r| == 3 * n
  {
    if n == 0 then []
    else
      AngularNormals(ints, smooth, n - 1, precision, angular) +
        Flat(angular.toNormal(IntTriple(ints, n - 1), Triple(smooth, n - 1), precision))
  }

  /** `restoreNormals(intNormals, vertices, indices, normalPrecision)`: the smooth normals of
      the mesh (which fail on an index outside the vertices), then one normal per whole vertex;
      too few stored ints fail at the first one missing. */
  function RestoredNormals(ints: seq<Int32>, vertices: seq<Float32>, indices: seq<Int32>,
                           precision: Float32, arith: Arith, angular: Angular): (r: Result<seq<Float32>>)
    ensures r.Success? ==> |r.value| == |vertices|
  {
    var smooth :- SmoothNormals(vertices, indices, arith);
    var vc := |vertices| / 3;
    if |ints| < 3 * vc then Failure(IndexOutOfRange)
    else Success(AngularNormals(ints, smooth, vc, precision, angular) + Zeros(|vertices| % 3))
  }

  /** `readNormals`: the NORM tag and vcount rows of three, restored. */
  function NormalsAt(data: seq<Byte>, pos: nat, coder: Coder, vertices: seq<Float32>, indices: seq<Int32>,
                     precision: Float32, vcount: Int32, arith: Arith, angular: Angular)
    : (r: Result<Read<seq<Float32>>>)
    ensures r.Success? ==> |r.value.value| == |vertices|
  {
    var t :- RawCodec.TagAt(data, pos, NORM);
    var ints :- PackedIntsAt(data, t, coder, vcount, CTM_NORMAL_ELEMENT_COUNT, false);
    var normals :- RestoredNormals(ints.value, vertices, indices, precision, arith, angular);
    Success(Read(normals, ints.next))
  }

  /** The normals section, present when the mesh information says so. */
  function NormalsSectionAt(info: MeshInfo, data: seq<Byte>, pos: nat, coder: Coder, vertices: seq<Float32>,
                            indices: seq<Int32>, precision: Float32, arith: Arith, angular: Angular)
    : (r: Result<Read<Option<seq<Float32>>>>)
    ensures r.Success? ==> (r.value.value.Some? <==> InfoHasNormals(info))
    ensures r.Success? && r.value.value.Some? ==> |r.value.value.value| == |vertices|
  {
    if !InfoHasNormals(info) then Success(Read(None, pos))
    else
      var n :- NormalsAt(data, pos, coder, vertices, indices, precision, info.vertexCount, arith, angular);
      Success(Read(Some(n.value), n.next))
  }

  /** A whole number of rows of k never exceeds the table. */
  lemma WholeRows(n: nat, k: nat)
    requires k >= 1
    ensures 0 <= k * (n / k) <= n
  {
  }

  /** The first n sums times the precision, then zeros up to len. */
  function ScaledPrefix(s: seq<Int32>, n: nat, len: nat, precision: Float32, arith: Arith): (r: seq<Float32>)
    requires n <= |s| && n <= len
    ensures |r| == len
  {
    seq(len, p requires 0 <= p < len => if p < n then arith.mul(arith.ofInt(s[p]), precision) else Float32(0))
  }

  /** Scaling one more sum extends the prefix. */
  lemma ScaledPrefixStep(s: seq<Int32>, n: nat, len: nat, precision: Float32, arith: Arith)
    requires n < |s| && n < len
    ensures ScaledPrefix(s, n, len, precision, arith)[n := arith.mul(arith.ofInt(s[n]), precision)]
            == ScaledPrefix(s, n + 1, len, precision, arith)
  {
  }

  /** `restoreUVCoords` (k = 2) and `restoreAttribs` (k = 4): the running sums per component of
      the whole rows, each times the precision; a partial last row stays zero. */
  function RestoredValues(ints: seq<Int32>, k: nat, precision: Float32, arith: Arith): (r: seq<Float32>)
    requires k >= 1
    ensures |r| == |ints|
  {
    WholeRows(|ints|, k);
    var w := k * (|ints| / k);
    ScaledPrefix(StrideSums(ints[..w], k), w, |ints|, precision, arith)
  }

  /** Each int times the precision, as `value * precision` converts it. */
  function Scaled(q: seq<Int32>, precision: Float32, arith: Arith): (r: seq<Float32>)
    ensures |r| == |q|
  {
    seq(|q|, p requires 0 <= p < |q| => arith.mul(arith.ofInt(q[p]), precision))
  }

  /** The maps restore what per-component deltas were taken of: whole rows of quantised values
      come back as those values times the precision. */
  lemma RestoredValuesOfDeltas(q: seq<Int32>, k: nat, precision: Float32, arith: Arith)
    requires k >= 1 && |q| % k == 0
    ensures RestoredValues(StrideDeltas(q, k), k, precision, arith) == Scaled(q, precision, arith)
  {
    var d := StrideDeltas(q, k);
    assert k * (|d| / k) == |d|;
    assert d[..|d|] == d;
    StrideSumsDeltas(q, k);
  }

  /** What a map section holds before its values: the name, the material name (UV maps only)
      and the precision. */
  datatype MapHeader = MapHeader(name: string, material: Option<string>, precision: Float32)

  /** The start of `readUvData` (tag TEXC, name, material name, precision) or of
      `readAttribute` (tag ATTR, name, precision). A precision that is not above zero is
      refused; a NaN precision passes the test. */
  function MapHeaderAt(mk: RawCodec.MapKind, data: seq<Byte>, pos: nat): (r: Result<Read<MapHeader>>)
    ensures r.Success? ==> !AtMostZero(r.value.value.precision)
    ensures r.Success? ==> (r.value.value.material.Some? <==> mk == RawCodec.UvMap)
  {
    var t :- RawCodec.TagAt(data, pos, RawCodec.MapTag(mk));
    var name :- StringAt(data, t);
    var material :- match mk
      case UvMap => var m :- StringAt(data, name.next); Success(Read(Some(m.value), m.next))
      case AttrMap => Success(Read(None, name.next));
    var precision :- FloatAt(data, material.next);
    if AtMostZero(precision.value) then Failure(InvalidData)
    else Success(Read(MapHeader(name.value, material.value, precision.value), precision.next))
  }

  /** The rest of the section: vcount rows of two (UV) or four (attribute) signed ints,
      restored by `restoreUVCoords` or `restoreAttribs`. */
  function MapValuesAt(mk: RawCodec.MapKind, data: seq<Byte>, pos: nat, coder: Coder, vcount: Int32,
                       precision: Float32, arith: Arith): (r: Result<Read<seq<Float32>>>)
  {
    var size := RawCodec.MapSize(mk);
    var ints :- PackedIntsAt(data, pos, coder, vcount, size, true);
    Success(Read(RestoredValues(ints.value, size as nat, precision, arith), ints.next))
  }

  /** A map as a section of kind mk yields it: a precision above zero (or NaN), and a material
      name exactly when it is a UV map. */
  predicate HeaderShape(mk: RawCodec.MapKind, a: AttributeData)
  {
    !AtMostZero(a.precision) && (a.materialName.Some? <==> mk == RawCodec.UvMap)
  }

  /** `readUvData` or `readAttribute`: the header and the values, as an attribute map. */
  function MapAt(mk: RawCodec.MapKind, data: seq<Byte>, pos: nat, coder: Coder, vcount: Int32, arith: Arith)
    : (r: Result<Read<AttributeData>>)
    ensures r.Success? ==> HeaderShape(mk, r.value.value)
  {
    var h :- MapHeaderAt(mk, data, pos);
    var values :- MapValuesAt(mk, data, h.next, coder, vcount, h.value.precision, arith);
    Success(Read(AttributeData(Some(h.value.name), h.value.material, h.value.precision, values.value), values.next))
  }

  /** The first k map sections of one kind, one after the other. */
  function MapsAt(mk: RawCodec.MapKind, data: seq<Byte>, pos: nat, coder: Coder, vcount: Int32, k: nat,
                  arith: Arith): (r: Result<Read<seq<AttributeData>>>)
    ensures r.Success? ==> |r.value.value| == k
  {
    Repeated(p => MapAt(mk, data, p, coder, vcount, arith), pos, k)
  }

  /** A decoded mesh agrees with its mesh information: vertexCount vertices, no index above
      vertexCount, normals (one row per vertex) exactly when the flags announce them, and as many UV
      and attribute maps as announced. */
  predicate MatchesInfo(info: MeshInfo, m: Mesh)
  {
    |m.vertices| == 3 * info.vertexCount && VertexCount(m) == info.vertexCount &&
    (forall k :: 0 <= k < |m.indices| ==> m.indices[k] <= info.vertexCount) &&
    (m.normals.Some? <==> InfoHasNormals(info)) &&
    (m.normals.Some? ==> |m.normals.value| == |m.vertices|) &&
    |m.texcoordinates| == info.uvMapCount && m.attributs.Some? && |m.attributs.value| == info.attrCount
  }

  /** `decode(minfo, input)`: header, vertices, indices, normals when present, then the UV map
      array (a negative count cannot be allocated) and its sections, then the attribute map
      array and its sections. */
  function DecodeAt(info: MeshInfo, data: seq<Byte>, pos: nat, coder: Coder, arith: Arith, angular: Angular)
    : (r: Result<Read<Mesh>>)
    ensures r.Success? ==> MatchesInfo(info, r.value.value)
  {
    var vc := info.vertexCount;
    var h :- HeaderAt(data, pos);
    var vert :- VerticesAt(data, h.next, coder, h.value.grid, vc, h.value.vertexPrecision, arith);
    var ind :- IndicesAt(data, vert.next, coder, info.triangleCount, vc);
    var norm :- NormalsSectionAt(info, data, ind.next, coder, vert.value, ind.value,
                                 h.value.normalPrecision, arith, angular);
    if info.uvMapCount < 0 then Failure(Overflow)
    else
      var tex :- MapsAt(RawCodec.UvMap, data, norm.next, coder, vc, info.uvMapCount as nat, arith);
      if info.attrCount < 0 then Failure(Overflow)
      else
        var att :- MapsAt(RawCodec.AttrMap, data, tex.next, coder, vc, info.attrCount as nat, arith);
        Success(Read(Mesh(vert.value, norm.value, ind.value, tex.value, Some(att.value)), att.next))
  }

  // ---------------------------------------------------------------------
  // Properties of the decoded mesh

  /** The corrected check is the stricter one: whatever it passes, the written check passes. */
  lemma IndicesCheckStricter(indices: seq<Int32>, vcount: Int32)
    requires IndicesCheck(indices, vcount).Pass?
    ensures IndicesCheckAsWritten(indices, vcount).Pass?
  {
    forall k | 0 <= k < |indices| ensures indices[k] <= vcount {
      assert 0 <= indices[k] < vcount;
    }
  }

  /** With the corrected index check, the smooth normals of decoded vertices and indices never
      fail: every triangle corner is a vertex. */
  lemma CheckedIndicesSmooth(vertices: seq<Float32>, indices: seq<Int32>, vcount: Int32, arith: Arith)
    requires IndicesCheck(indices, vcount).Pass?
    requires 0 <= vcount && |vertices| == 3 * vcount < TWO_31
    ensures SmoothNormals(vertices, indices, arith).Success?
  {
    TrianglesInRangeOfIndices(indices, |indices| / 3, vcount as nat);
  }

  /** The written check lets through an index equal to the vertex count: for one vertex and the
      triangle (0, 0, 1) it passes, the corrected check refuses it, and the smooth normals then
      fail on the missing vertex. */
  lemma IndicesCheckAsWrittenAdmitsVertexCount(arith: Arith)
    ensures var indices: seq<Int32> := [0, 0, 1];
      IndicesCheckAsWritten(indices, 1).Pass? && IndicesCheck(indices, 1).Fail? &&
      SmoothNormals([Float32(0), Float32(0), Float32(0)], indices, arith) == Failure(IndexOutOfRange)
  {
    var indices: seq<Int32> := [0, 0, 1];
    assert indices[2] == 1;
    var vertices := [Float32(0), Float32(0), Float32(0)];
    assert !TrianglesInRange(indices, 1, 1) by {
      assert Triangle(indices, 0)[2] == 1;
    }
  }

  // ---------------------------------------------------------------------
  // The decoder's methods

  method ReadHeader(input: CtmInputStream) returns (r: Result<Header>)
    modifies input
    ensures Tracks(r, HeaderAt(input.data, old(input.pos)), input.pos)
  {
    var t :- RawCodec.ReadTag(input, MG2_HEADER_TAG);
    var vertexPrecision :- input.ReadLittleFloat();
    var normalPrecision :- input.ReadLittleFloat();
    var grid :- FromStream(input);
    if !Grids.CheckIntegrity(grid) {
      return Failure(InvalidData);
    }
    return Success(Header(vertexPrecision, normalPrecision, grid));
  }

  /** The loop of `readVertices` that sums up the grid-index deltas in place. */
  method SumGridIndices(gridIndices: array<Int32>)
    modifies gridIndices
    ensures gridIndices[..] == StrideSums(old(gridIndices[..]), 1)
  {
    ghost var d := gridIndices[..];
    if gridIndices.Length == 0 {
      return;
    }
    assert d[..1] == [d[0]];
    for i := 1 to gridIndices.Length
      invariant gridIndices[..i] == StrideSums(d[..i], 1)
      invariant gridIndices[i..] == d[i..]
    {
      assert d[..i + 1][..i] == d[..i];
      gridIndices[i] := Wrap32(gridIndices[i] as int + gridIndices[i - 1] as int);
      assert gridIndices[..i + 1] == gridIndices[..i] + [gridIndices[i]];
    }
    assert d[..gridIndices.Length] == d;
  }

  method ReadVertices(input: CtmInputStream, grid: Grid, vcount: Int32, precision: Float32, arith: Arith)
    returns (r: Result<seq<Float32>>)
    requires Shaped(grid)
    modifies input
    ensures Tracks(r, VerticesAt(input.data, old(input.pos), input.coder, grid, vcount, precision, arith), input.pos)
  {
    var t :- RawCodec.ReadTag(input, VERT);
    var intVertices :- input.ReadPackedInts(vcount, CTM_POSITION_ELEMENT_COUNT, false);
    var g :- RawCodec.ReadTag(input, GIDX);
    var deltas :- input.ReadPackedInts(vcount, 1, false);
    var gridIndices := new Int32[|deltas|](i requires 0 <= i < |deltas| => deltas[i]);
    assert gridIndices[..] == deltas;
    SumGridIndices(gridIndices);
    r := RestoreVertices(intVertices, gridIndices[..], grid, precision, arith);
  }

  method ReadIndices(input: CtmInputStream, triCount: Int32, vcount: Int32) returns (r: Result<seq<Int32>>)
    modifies input
    ensures Tracks(r, IndicesAt(input.data, old(input.pos), input.coder, triCount, vcount), input.pos)
  {
    var t :- RawCodec.ReadTag(input, INDX);
    var ints :- input.ReadPackedInts(triCount, 3, false);
    var indices :- RawCodec.RestoreDecodedIndices(triCount, ints);
    for k := 0 to |indices|
      invariant forall j :: 0 <= j < k ==> indices[j] <= vcount
    {
      if indices[k] > vcount {
        return Failure(InvalidData);
      }
    }
    return Success(indices);
  }

  /** Writing the normal of vertex i over the first three zeros after the normals of the
      vertices before it gives the normals of the first i + 1 vertices. */
  lemma AngularNormalsStep(ints: seq<Int32>, smooth: seq<Float32>, i: nat, precision: Float32,
                           angular: Angular, k: nat)
    requires 3 * i + 3 <= |ints| && 3 * i + 3 <= |smooth|
    ensures var v := angular.toNormal(IntTriple(ints, i), Triple(smooth, i), precision);
            (AngularNormals(ints, smooth, i, precision, angular) + Zeros(k + 3))[3 * i := v.0][3 * i + 1 := v.1][3 * i + 2 := v.2]
            == AngularNormals(ints, smooth, i + 1, precision, angular) + Zeros(k)
  {
    var v := angular.toNormal(IntTriple(ints, i), Triple(smooth, i), precision);
    var prefix := AngularNormals(ints, smooth, i, precision, angular);
    var a := (prefix + Zeros(k + 3))[3 * i := v.0][3 * i + 1 := v.1][3 * i + 2 := v.2];
    var b := prefix + Flat(v) + Zeros(k);
    forall p | 0 <= p < |a|
      ensures a[p] == b[p]
    {
    }
    assert a == b;
  }

  /** Stores a vector as the three floats of entry i. */
  method SetTriple(a: array<Float32>, i: nat, v: Vec3)
    requires 3 * i + 3 <= a.Length
    modifies a
    ensures a[..] == old(a[..])[3 * i := v.0][3 * i + 1 := v.1][3 * i + 2 := v.2]
  {
    a[3 * i] := v.0;
    a[3 * i + 1] := v.1;
    a[3 * i + 2] := v.2;
  }

  /** The loop of `restoreNormals`, writing three floats per whole vertex of `len` floats
      around the smooth normals; too few stored ints fail at the first one missing. */
  method RestoreAngularNormals(ints: seq<Int32>, smooth: seq<Float32>, len: nat, precision: Float32,
                               angular: Angular) returns (r: Result<seq<Float32>>)
    requires 3 * (len / 3) <= |smooth|
    ensures r.Failure? <==> |ints| < 3 * (len / 3)
    ensures r.Failure? ==> r.error == IndexOutOfRange
    ensures r.Success? ==> r.value == AngularNormals(ints, smooth, len / 3, precision, angular) + Zeros(len % 3)
  {
    var normals := new Float32[len](_ => Float32(0));
    var vc := len / 3;
    WholeVertices(len);
    for i := 0 to vc
      invariant 3 * i <= |ints|
      invariant normals[..] == AngularNormals(ints, smooth, i, precision, angular) + Zeros(len - 3 * i)
    {
      if |ints| < 3 * i + 3 {
        return Failure(IndexOutOfRange);
      }
      var n := angular.toNormal(IntTriple(ints, i), Triple(smooth, i), precision);
      AngularNormalsStep(ints, smooth, i, precision, angular, len - 3 * i - 3);
      SetTriple(normals, i, n);
    }
    return Success(normals[..]);
  }

  /** `restoreNormals`: the smooth normals, then the loop over the vertices. */
  method RestoreNormals(ints: seq<Int32>, vertices: seq<Float32>, indices: seq<Int32>, precision: Float32,
                        arith: Arith, angular: Angular) returns (r: Result<seq<Float32>>)
    ensures r == RestoredNormals(ints, vertices, indices, precision, arith, angular)
  {
    var smooth :- CalcSmoothNormals(vertices, indices, arith);
    r := RestoreAngularNormals(ints, smooth, |vertices|, precision, angular);
  }

  method ReadNormals(input: CtmInputStream, vertices: seq<Float32>, indices: seq<Int32>, precision: Float32,
                     vcount: Int32, arith: Arith, angular: Angular) returns (r: Result<seq<Float32>>)
    modifies input
    ensures Tracks(r, NormalsAt(input.data, old(input.pos), input.coder, vertices, indices, precision, vcount,
                                arith, angular), input.pos)
  {
    var t :- RawCodec.ReadTag(input, NORM);
    var intNormals :- input.ReadPackedInts(vcount, CTM_NORMAL_ELEMENT_COUNT, false);
    r := RestoreNormals(intNormals, vertices, indices, precision, arith, angular);
  }

  /** Stores sum n times the precision after the n already scaled. */
  method StoreScaled(values: array<Float32>, ghost s: seq<Int32>, n: nat, sum: Int32, precision: Float32,
                     arith: Arith)
    requires n < |s| && n < values.Length && sum == s[n]
    requires values[..] == ScaledPrefix(s, n, values.Length, precision, arith)
    modifies values
    ensures values[..] == ScaledPrefix(s, n + 1, values.Length, precision, arith)
  {
    ScaledPrefixStep(s, n, values.Length, precision, arith);
    values[n] := arith.mul(arith.ofInt(sum), precision);
    assert values[..] == old(values[..])[n := arith.mul(arith.ofInt(sum), precision)];
  }

  /** `restoreUVCoords`, with the running sums in `prevU` and `prevV`. */
  method RestoreUVCoords(precision: Float32, ints: seq<Int32>, arith: Arith) returns (r: seq<Float32>)
    ensures r == RestoredValues(ints, 2, precision, arith)
  {
    var vc := |ints| / 2;
    ghost var s := StrideSums(ints[..2 * vc], 2);
    var values := new Float32[|ints|](_ => Float32(0));
    var prevU: Int32, prevV: Int32 := 0, 0;
    for i := 0 to vc
      invariant values[..] == ScaledPrefix(s, 2 * i, |ints|, precision, arith)
      invariant prevU == if i == 0 then 0 else s[2 * i - 2]
      invariant prevV == if i == 0 then 0 else s[2 * i - 1]
    {
      RunningSum(ints[..2 * vc], 2, 2 * i, prevU);
      RunningSum(ints[..2 * vc], 2, 2 * i + 1, prevV);
      var u := Wrap32(ints[2 * i] as int + prevU as int);
      var v := Wrap32(ints[2 * i + 1] as int + prevV as int);
      StoreScaled(values, s, 2 * i, u, precision, arith);
      StoreScaled(values, s, 2 * i + 1, v, precision, arith);
      prevU, prevV := u, v;
    }
    return values[..];
  }

  /** What `prev` holds in `restoreAttribs` before component j of row i: the sums of row i
      for the components already done, those of row i - 1 (zeros before the first row) for the
      rest. */
  function Carried(s: seq<Int32>, i: nat, j: nat): (r: seq<Int32>)
    requires j <= 4 && 4 * i + j <= |s|
    ensures |r| == 4
  {
    seq(4, c requires 0 <= c < 4 => if c < j then s[4 * i + c] else if i == 0 then 0 else s[4 * i - 4 + c])
  }

  /** Carrying the sum of component j moves the boundary one to the right. */
  lemma CarriedStep(s: seq<Int32>, i: nat, j: nat)
    requires j < 4 && 4 * i + j < |s|
    ensures Carried(s, i, j)[j := s[4 * i + j]] == Carried(s, i, j + 1)
  {
  }

  /** The sums of the last row done are those the next row starts from. */
  lemma CarriedRow(s: seq<Int32>, i: nat)
    requires 4 * i + 4 <= |s|
    ensures Carried(s, i, 4) == Carried(s, i + 1, 0)
  {
  }

  /** Adding component j of row i to what `prev` carries for it gives its running sum. */
  lemma CarriedSum(ints: seq<Int32>, vc: nat, i: nat, j: nat, prev: seq<Int32>)
    requires 4 * vc <= |ints| && i < vc && j < 4
    requires prev == Carried(StrideSums(ints[..4 * vc], 4), i, j)
    ensures Wrap32(ints[4 * i + j] as int + prev[j] as int) == StrideSums(ints[..4 * vc], 4)[4 * i + j]
  {
    RunningSum(ints[..4 * vc], 4, 4 * i + j, prev[j]);
  }

  /** `restoreAttribs`, with the running sums in `prev`. */
  method RestoreAttribs(precision: Float32, ints: seq<Int32>, arith: Arith) returns (r: seq<Float32>)
    ensures r == RestoredValues(ints, 4, precision, arith)
  {
    var vc := |ints| / 4;
    ghost var s := StrideSums(ints[..4 * vc], 4);
    var values := new Float32[|ints|](_ => Float32(0));
    var prev := new Int32[4](_ => 0);
    for i := 0 to vc
      invariant values[..] == ScaledPrefix(s, 4 * i, |ints|, precision, arith)
      invariant prev[..] == Carried(s, i, 0)
    {
      for j := 0 to 4
        invariant values[..] == ScaledPrefix(s, 4 * i + j, |ints|, precision, arith)
        invariant prev[..] == Carried(s, i, j)
      {
        CarriedSum(ints, vc, i, j, prev[..]);
        var value := Wrap32(ints[4 * i + j] as int + prev[j] as int);
        StoreScaled(values, s, 4 * i + j, value, precision, arith);
        ghost var written := values[..];
        CarriedStep(s, i, j);
        ghost var carried := prev[..];
        prev[j] := value;
        assert prev[..] == carried[j := value];
        assert values[..] == written;
      }
      CarriedRow(s, i);
    }
    return values[..];
  }

  method ReadMapHeader(mk: RawCodec.MapKind, input: CtmInputStream) returns (r: Result<MapHeader>)
    modifies input
    ensures Tracks(r, MapHeaderAt(mk, input.data, old(input.pos)), input.pos)
  {
    var t :- RawCodec.ReadTag(input, RawCodec.MapTag(mk));
    var name :- input.ReadString();
    var material: Option<string> := None;
    if mk == RawCodec.UvMap {
      var m :- input.ReadString();
      material := Some(m);
    }
    var precision :- input.ReadLittleFloat();
    if AtMostZero(precision) {
      return Failure(InvalidData);
    }
    return Success(MapHeader(name, material, precision));
  }

  method ReadMapValues(mk: RawCodec.MapKind, input: CtmInputStream, vcount: Int32, precision: Float32, arith: Arith)
    returns (r: Result<seq<Float32>>)
    modifies input
    ensures Tracks(r, MapValuesAt(mk, input.data, old(input.pos), input.coder, vcount, precision, arith), input.pos)
  {
    match mk
    case UvMap =>
      var intCoords :- input.ReadPackedInts(vcount, CTM_UV_ELEMENT_COUNT, true);
      var values := RestoreUVCoords(precision, intCoords, arith);
      return Success(values);
    case AttrMap =>
      var intData :- input.ReadPackedInts(vcount, CTM_ATTR_ELEMENT_COUNT, true);
      var values := RestoreAttribs(precision, intData, arith);
      return Success(values);
  }

  /** One map section: `readUvData` or `readAttribute`. */
  method ReadMap(mk: RawCodec.MapKind, input: CtmInputStream, vcount: Int32, arith: Arith)
    returns (r: Result<AttributeData>)
    modifies input
    ensures Tracks(r, MapAt(mk, input.data, old(input.pos), input.coder, vcount, arith), input.pos)
  {
    var h :- ReadMapHeader(mk, input);
    var values :- ReadMapValues(mk, input, vcount, h.precision, arith);
    return Success(AttributeData(Some(h.name), h.material, h.precision, values));
  }

  /** The loop filling `uvData` or `attributs`: count map sections, in order. */
  method ReadMaps(mk: RawCodec.MapKind, input: CtmInputStream, vcount: Int32, count: nat, arith: Arith)
    returns (r: Result<seq<AttributeData>>)
    modifies input
    ensures Tracks(r, MapsAt(mk, input.data, old(input.pos), input.coder, vcount, count, arith), input.pos)
  {
    var maps: seq<AttributeData> := [];
    ghost var item := p => MapAt(mk, input.data, p, input.coder, vcount, arith);
    ghost var start := input.pos;
    for i := 0 to count
      invariant Repeated(item, start, i) == Success(Read(maps, input.pos))
    {
      var m := ReadMap(mk, input, vcount, arith);
      if m.Failure? {
        RepeatedFails(item, start, i + 1, count);
        return Failure(m.error);
      }
      maps := maps + [m.value];
    }
    return Success(maps);
  }

  /** `decode(minfo, input)` of MG2Decoder. */
  method Decode(info: MeshInfo, input: CtmInputStream, arith: Arith, angular: Angular) returns (r: Result<Mesh>)
    modifies input
    ensures Tracks(r, DecodeAt(info, input.data, old(input.pos), input.coder, arith, angular), input.pos)
  {
    var vc := info.vertexCount;
    var header :- ReadHeader(input);
    var vertices :- ReadVertices(input, header.grid, vc, header.vertexPrecision, arith);
    var indices :- ReadIndices(input, info.triangleCount, vc);
    var normals: Option<seq<Float32>> := None;
    if InfoHasNormals(info) {
      var n :- ReadNormals(input, vertices, indices, header.normalPrecision, vc, arith, angular);
      normals := Some(n);
    }
    if info.uvMapCount < 0 {
      return Failure(Overflow);
    }
    var uvData :- ReadMaps(RawCodec.UvMap, input, vc, info.uvMapCount as nat, arith);
    if info.attrCount < 0 {
      return Failure(Overflow);
    }
    var attributs :- ReadMaps(RawCodec.AttrMap, input, vc, info.attrCount as nat, arith);
    return Success(Mesh(vertices, normals, indices, uvData, Some(attributs)));
  }
}
