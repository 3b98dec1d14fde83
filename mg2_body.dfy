// MG2Encoder.encode: the order in which the MG2 body is written. The header
// (tag, the two precisions, the grid), VERT with the vertex table and GIDX with
// the grid-index deltas, INDX with the MG1 index words of the re-indexed and
// rearranged triangles, NORM when the mesh has normals, then a TEXC section per
// UV map and an ATTR section per attribute map. `BodyBytes` is what `encode`
// writes; the method is proved to write exactly that, and the lemmas at the end
// show what `MG2Decoder` reads back at each section.
module Mg2Body {
  import opened Machine
  import opened Wrappers
  import opened Tags
  import opened Lzma
  import opened ByteCoding
  import opened MeshData
  import opened CtmOutput
  import opened FloatArith
  import opened Grids
  import opened Mg2Deltas
  import opened CommonAlgorithm
  import opened SortableVertices
  import opened Mg2Encoder
  import RawCodec
  import Mg1Indices
  import Triangles
  import Mg2Decoder
  import CtmInput

  // ---------------------------------------------------------------------
  // What `encode` writes

  /** The MG2H tag, the vertex and normal precisions, and `grid.writeToStream`. */
  function HeaderBytes(vp: Float32, np: Float32, grid: Grid): (r: seq<Byte>)
    ensures |r| == 12 + |GridBytes(grid)|
  {
    LittleEndian(MG2_HEADER_TAG) + LittleEndian(vp.bits) + LittleEndian(np.bits) + GridBytes(grid)
  }

  /** VERT and the vertex table as vc rows of three, then GIDX and the grid indices of the sorted
      vertices as deltas, one per vertex. */
  function VerticesBytes(coder: Coder, level: Int32, table: seq<Int32>, gs: seq<Int32>): Result<seq<Byte>>
    requires |table| == 3 * |gs| < TWO_31
  {
    var vert :- RawCodec.PackedBlock(coder, level, table, |gs|, 3, false);
    var gidx :- RawCodec.PackedBlock(coder, level, StrideDeltas(gs, 1), |gs|, 1, false);
    Success(LittleEndian(VERT) + vert + LittleEndian(GIDX) + gidx)
  }

  /** `rearrangeTriangles` on the re-indexed triangles: the order the INDX section stores and the
      normals are computed from. */
  function ArrangedIndices(ix: seq<Int32>): (r: seq<Int32>)
    requires |ix| % 3 == 0
    ensures |r| == |ix|
  {
    Mg1Indices.TrisFlatten(Mg1Indices.Arranged(Mg1Indices.Tris(ix)));
    Mg1Indices.Flatten(Mg1Indices.Arranged(Mg1Indices.Tris(ix)))
  }

  /** INDX and the delta-coded words of the rearranged triangles; a length that is not a
      multiple of three fails in `rearrangeTriangles`. */
  function IndicesBytes(coder: Coder, level: Int32, ix: seq<Int32>): Result<seq<Byte>>
    requires |ix| < TWO_31
  {
    var ind :- RawCodec.IndicesBytes(RawCodec.Mg1, coder, level, ix);
    Success(LittleEndian(INDX) + ind)
  }

  /** NORM and the normal table, when the mesh has normals. The normals are coded against the
      vertices as the decoder will restore them (the grid indices summed back, then
      `restoreVertices`), so both sides compute the same smooth normals. */
  function NormalsBytes(coder: Coder, level: Int32, normals: Option<seq<Float32>>, sorted: seq<SortableVertex>,
                        grid: Grid, table: seq<Int32>, arranged: seq<Int32>, vp: Float32, np: Float32,
                        arith: Arith, angular: Angular): Result<seq<Byte>>
    requires Shaped(grid) && |table| == 3 * |sorted| < TWO_31
  {
    if normals.None? then Success([])
    else
      var restored :- RestoredVertices(table, GridIndices(sorted), grid, vp, arith);
      assert |restored| == 3 * |sorted|;
      NormalCodesBytes(coder, level, restored, normals.value, arranged, sorted, np, arith, angular)
  }

  /** NORM and the normal table coded against the restored vertices. */
  function NormalCodesBytes(coder: Coder, level: Int32, restored: seq<Float32>, normals: seq<Float32>,
                            arranged: seq<Int32>, sorted: seq<SortableVertex>, np: Float32, arith: Arith,
                            angular: Angular): Result<seq<Byte>>
    requires |restored| == 3 * |sorted| < TWO_31
  {
    var codes :- NormalTable(restored, normals, arranged, sorted, np, arith, angular);
    var block :- RawCodec.PackedBlock(coder, level, codes, |sorted|, 3, false);
    Success(LittleEndian(NORM) + block)
  }

  /** The tag, names and precision that open a TEXC section (tag, name, material name,
      precision) or an ATTR section (tag, name, precision). */
  function MapHeaderBytes(mk: RawCodec.MapKind, a: AttributeData): seq<Byte>
    requires Fits(a.name)
    requires Fits(a.materialName)
  {
    match mk
    case UvMap => LittleEndian(TEXC) + StringBytes(a.name) + StringBytes(a.materialName) + LittleEndian(a.precision.bits)
    case AttrMap => LittleEndian(ATTR) + StringBytes(a.name) + LittleEndian(a.precision.bits)
  }

  /** One TEXC or ATTR section: its header, then the deltas of `makeUVCoordDeltas` or
      `makeAttribDeltas` as vc signed rows of two or four. */
  function MapBytes(mk: RawCodec.MapKind, coder: Coder, level: Int32, a: AttributeData, sorted: seq<SortableVertex>,
                    arith: Arith): Result<seq<Byte>>
    requires |sorted| < TWO_31
    requires Fits(a.name)
    requires Fits(a.materialName)
  {
    var k := RawCodec.MapSize(mk);
    var deltas :- MapTable(a, sorted, k as nat, arith);
    var block :- RawCodec.PackedBlock(coder, level, deltas, |sorted|, k, true);
    Success(MapHeaderBytes(mk, a) + block)
  }

  /** The `foreach` over a list of maps: their sections one after the other. */
  function MapsBytes(mk: RawCodec.MapKind, coder: Coder, level: Int32, maps: seq<AttributeData>,
                     sorted: seq<SortableVertex>, arith: Arith): Result<seq<Byte>>
    requires |sorted| < TWO_31 && RawCodec.NamesFit(maps)
  {
    if maps == [] then Success([])
    else
      var init :- MapsBytes(mk, coder, level, maps[..|maps| - 1], sorted, arith);
      var last :- MapBytes(mk, coder, level, maps[|maps| - 1], sorted, arith);
      Success(init + last)
  }

  /** The sorted vertices of a mesh's vertices in their grid. */
  function Sorted(m: Mesh, grid: Grid, arith: Arith): (sorted: seq<SortableVertex>)
    requires Shaped(grid) && Bounded(m)
    ensures |sorted| == |m.vertices| / 3
    ensures OriginalsInRange(sorted) && Covers(sorted, |sorted|) && RowsWithin(m.vertices, sorted, 3)
  {
    SortedVerticesCorrect(grid, m.vertices, arith);
    var sorted := SortedVertices(grid, m.vertices, arith);
    VerticesWithin(m.vertices, sorted);
    sorted
  }

  /** The sections after the header up to and including NORM: the grid set up, the vertices
      sorted and delta-coded, the triangles re-indexed to sorted positions and rearranged. */
  function GeometryBytes(coder: Coder, level: Int32, m: Mesh, grid: Grid, vp: Float32, np: Float32, arith: Arith,
                         angular: Angular): Result<seq<Byte>>
    requires Shaped(grid) && Bounded(m)
  {
    var sorted := Sorted(m, grid, arith);
    var table :- VertexTable(m.vertices, sorted, grid, vp, arith);
    var verts :- VerticesBytes(coder, level, table, GridIndices(sorted));
    var ix :- ReIndexed(sorted, m.indices);
    var ind :- IndicesBytes(coder, level, ix);
    assert |ix| % 3 == 0;
    var norm :- NormalsBytes(coder, level, m.normals, sorted, grid, table, ArrangedIndices(ix), vp, np, arith, angular);
    Success(verts + ind + norm)
  }

  /** `encode(m, output)` with the encoder's vertex and normal precisions: the grid of the
      vertices (fewer than one vertex fails), the header, the geometry, the UV maps and the
      attribute maps; a null attribute list fails. */
  function BodyBytes(coder: Coder, level: Int32, m: Mesh, vp: Float32, np: Float32, arith: Arith,
                     angular: Angular): Result<seq<Byte>>
    requires Bounded(m) && RawCodec.NamesFit(m.texcoordinates)
    requires m.attributs.Some? ==> RawCodec.NamesFit(m.attributs.value)
  {
    var grid :- GridOf(m.vertices, arith);
    var geometry :- GeometryBytes(coder, level, m, grid, vp, np, arith, angular);
    var sorted := Sorted(m, grid, arith);
    var tex :- MapsBytes(RawCodec.UvMap, coder, level, m.texcoordinates, sorted, arith);
    if m.attributs.None? then Failure(NullReference)
    else
      var att :- MapsBytes(RawCodec.AttrMap, coder, level, m.attributs.value, sorted, arith);
      Success(HeaderBytes(vp, np, grid) + geometry + tex + att)
  }

  /** Once the first j maps fail to encode, all of them fail the same way. */
  lemma {:induction false} MapsBytesFails(mk: RawCodec.MapKind, coder: Coder, level: Int32, maps: seq<AttributeData>,
                                          sorted: seq<SortableVertex>, arith: Arith, j: nat)
    requires |sorted| < TWO_31 && RawCodec.NamesFit(maps) && j <= |maps|
    requires MapsBytes(mk, coder, level, maps[..j], sorted, arith).Failure?
    ensures MapsBytes(mk, coder, level, maps, sorted, arith) == Failure(MapsBytes(mk, coder, level, maps[..j], sorted, arith).error)
  {
    var rs := seq(|maps| + 1, i requires 0 <= i <= |maps| => MapsBytes(mk, coder, level, maps[..i], sorted, arith));
    forall i | 0 < i < |rs| && rs[i - 1].Failure?
      ensures rs[i] == Failure(rs[i - 1].error)
    {
      PrefixFails(mk, coder, level, maps, sorted, arith, i);
    }
    FailurePersists(rs, j, |maps|);
    assert maps[..|maps|] == maps;
  }

  /** A failure to encode the first i - 1 maps is the failure to encode the first i. */
  lemma PrefixFails(mk: RawCodec.MapKind, coder: Coder, level: Int32, maps: seq<AttributeData>,
                    sorted: seq<SortableVertex>, arith: Arith, i: nat)
    requires |sorted| < TWO_31 && RawCodec.NamesFit(maps) && 0 < i <= |maps|
    requires MapsBytes(mk, coder, level, maps[..i - 1], sorted, arith).Failure?
    ensures MapsBytes(mk, coder, level, maps[..i], sorted, arith) ==
      Failure(MapsBytes(mk, coder, level, maps[..i - 1], sorted, arith).error)
  {
    assert maps[..i][..i - 1] == maps[..i - 1];
    InitFails(mk, coder, level, maps[..i], sorted, arith);
  }

  /** A failure to encode all but the last map is the failure to encode all of them. */
  lemma InitFails(mk: RawCodec.MapKind, coder: Coder, level: Int32, maps: seq<AttributeData>,
                  sorted: seq<SortableVertex>, arith: Arith)
    requires |sorted| < TWO_31 && RawCodec.NamesFit(maps) && maps != []
    requires MapsBytes(mk, coder, level, maps[..|maps| - 1], sorted, arith).Failure?
    ensures MapsBytes(mk, coder, level, maps, sorted, arith) ==
      Failure(MapsBytes(mk, coder, level, maps[..|maps| - 1], sorted, arith).error)
  {
  }

  /** Encoding the first i + 1 maps is encoding the first i and then map i. */
  lemma MapsBytesStep(mk: RawCodec.MapKind, coder: Coder, level: Int32, maps: seq<AttributeData>,
                      sorted: seq<SortableVertex>, arith: Arith, i: nat)
    requires |sorted| < TWO_31 && RawCodec.NamesFit(maps) && i < |maps|
    ensures var init := MapsBytes(mk, coder, level, maps[..i], sorted, arith);
      var last := MapBytes(mk, coder, level, maps[i], sorted, arith);
      MapsBytes(mk, coder, level, maps[..i + 1], sorted, arith) ==
        if init.Failure? then init else if last.Failure? then last else Success(init.value + last.value)
  {
    assert maps[..i + 1][..i] == maps[..i];
  }

  // ---------------------------------------------------------------------
  // The encoder's methods

  /** The MG2H tag, the precisions and the grid. */
  method WriteHeader(vp: Float32, np: Float32, grid: Grid, output: CtmOutputStream)
    modifies output
    ensures output.written == old(output.written) + HeaderBytes(vp, np, grid)
  {
    ghost var w0 := output.written;
    output.WriteLittleInt(MG2_HEADER_TAG);
    output.WriteLittleFloat(vp);
    Associative(w0, LittleEndian(MG2_HEADER_TAG), LittleEndian(vp.bits));
    ghost var acc := LittleEndian(MG2_HEADER_TAG) + LittleEndian(vp.bits);
    output.WriteLittleFloat(np);
    Associative(w0, acc, LittleEndian(np.bits));
    acc := acc + LittleEndian(np.bits);
    WriteToStream(grid, output);
    Associative(w0, acc, GridBytes(grid));
  }

  /** The VERT and GIDX sections. */
  method WriteVertices(table: seq<Int32>, gridIndices: array<Int32>, ghost gs: seq<Int32>, output: CtmOutputStream)
    returns (ok: Outcome)
    requires |table| == 3 * |gs| < TWO_31 && gridIndices[..] == StrideDeltas(gs, 1)
    modifies output
    ensures var b := VerticesBytes(output.coder, output.compressionLevel, table, gs);
      (ok.Pass? <==> b.Success?) &&
      (ok.Pass? ==> output.written == old(output.written) + b.value) &&
      (ok.Fail? ==> ok.error == b.error)
  {
    ghost var w0 := output.written;
    ghost var level := output.compressionLevel;
    var vc := gridIndices.Length;
    output.WriteLittleInt(VERT);
    ok := output.WritePackedInts(table, vc, 3, false);
    if ok.Fail? {
      ok := Fail(Overflow);
      return;
    }
    ghost var vert := CompressedBlock(output.coder, level, PackedBytes(table, vc, 3, false));
    Associative(w0, LittleEndian(VERT), vert);
    ghost var acc := LittleEndian(VERT) + vert;
    output.WriteLittleInt(GIDX);
    Associative(w0, acc, LittleEndian(GIDX));
    acc := acc + LittleEndian(GIDX);
    ok := output.WritePackedInts(gridIndices[..], vc, 1, false);
    if ok.Fail? {
      ok := Fail(Overflow);
      return;
    }
    Associative(w0, acc, CompressedBlock(output.coder, level, PackedBytes(gridIndices[..], vc, 1, false)));
  }

  /** The INDX section: the mesh's indices re-indexed to sorted positions, the triangles
      rearranged in place, then a copy delta-coded and packed. The rearranged indices are
      returned for the normals. */
  method WriteIndices(sorted: seq<SortableVertex>, indices: seq<Int32>, output: CtmOutputStream)
    returns (ok: Outcome, arranged: seq<Int32>)
    requires |sorted| < TWO_31 && OriginalsInRange(sorted) && |indices| < TWO_31
    modifies output
    ensures var ix := ReIndexed(sorted, indices);
      var b := if ix.Failure? then Failure(ix.error) else IndicesBytes(output.coder, output.compressionLevel, ix.value);
      (ok.Pass? <==> b.Success?) &&
      (ok.Pass? ==> output.written == old(output.written) + b.value && arranged == ArrangedIndices(ix.value)) &&
      (ok.Fail? ==> ok.error == b.error)
  {
    ghost var w0 := output.written;
    output.WriteLittleInt(INDX);
    var r := ReIndexIndices(sorted, indices);
    if r.Failure? {
      return Fail(r.error), [];
    }
    var ix := r.value;
    ok, arranged := WriteIndexBlock(ix, output);
    if ok.Pass? {
      Associative(w0, LittleEndian(INDX), RawCodec.IndicesBytes(RawCodec.Mg1, output.coder, output.compressionLevel, ix).value);
    }
  }

  /** The re-indexed triangles rearranged in place, then a copy delta-coded and packed as MG1
      does; the rearranged indices are returned for the normals. */
  method WriteIndexBlock(ix: seq<Int32>, output: CtmOutputStream) returns (ok: Outcome, arranged: seq<Int32>)
    requires |ix| < TWO_31
    modifies output
    ensures var b := RawCodec.IndicesBytes(RawCodec.Mg1, output.coder, output.compressionLevel, ix);
      (ok.Pass? <==> b.Success?) &&
      (ok.Pass? ==> output.written == old(output.written) + b.value && arranged == ArrangedIndices(ix)) &&
      (ok.Fail? ==> ok.error == b.error)
  {
    var a := new Int32[|ix|](i requires 0 <= i < |ix| => ix[i]);
    assert a[..] == ix;
    ok := Mg1Indices.RearrangeTriangles(a);
    if ok.Fail? {
      return ok, [];
    }
    arranged := a[..];
    Mg1Indices.FlattenTris(arranged);
    var deltas := new Int32[a.Length](i requires 0 <= i < a.Length reads a => a[i]);
    assert deltas[..] == arranged;
    ok := Mg1Indices.MakeIndexDeltas(deltas);
    Mg1Indices.FlattenTris(deltas[..]);
    assert deltas[..] == RawCodec.Mg1IndexWords(ix);
    ok := output.WritePackedInts(deltas[..], a.Length / 3, 3, false);
    if ok.Fail? {
      ok := Fail(Overflow);
      return;
    }
  }

  /** The NORM section, when the mesh has normals: the grid-index deltas are summed back in
      place, the vertices restored from them, and the normals coded against those. */
  method WriteNormals(normals: Option<seq<Float32>>, sorted: seq<SortableVertex>, grid: Grid, table: seq<Int32>,
                      gridIndices: array<Int32>, arranged: seq<Int32>, vp: Float32, np: Float32, arith: Arith,
                      angular: Angular, output: CtmOutputStream) returns (ok: Outcome)
    requires Shaped(grid) && |table| == 3 * |sorted| < TWO_31
    requires gridIndices[..] == StrideDeltas(GridIndices(sorted), 1)
    modifies output, gridIndices
    ensures var b := NormalsBytes(output.coder, output.compressionLevel, normals, sorted, grid, table, arranged,
                                  vp, np, arith, angular);
      (ok.Pass? <==> b.Success?) &&
      (ok.Pass? ==> output.written == old(output.written) + b.value) &&
      (ok.Fail? ==> ok.error == b.error)
  {
    if normals.None? {
      return Pass;
    }
    ghost var gs := GridIndices(sorted);
    Mg2Decoder.SumGridIndices(gridIndices);
    StrideSumsDeltas(gs, 1);
    var restored := RestoreVertices(table, gridIndices[..], grid, vp, arith);
    if restored.Failure? {
      return Fail(restored.error);
    }
    ok := WriteNormalCodes(restored.value, normals.value, arranged, sorted, np, arith, angular, output);
  }

  /** NORM, then the normal table coded against the restored vertices. */
  method WriteNormalCodes(restored: seq<Float32>, normals: seq<Float32>, arranged: seq<Int32>,
                          sorted: seq<SortableVertex>, np: Float32, arith: Arith, angular: Angular,
                          output: CtmOutputStream) returns (ok: Outcome)
    requires |restored| == 3 * |sorted| < TWO_31
    modifies output
    ensures var b := NormalCodesBytes(output.coder, output.compressionLevel, restored, normals, arranged, sorted,
                                      np, arith, angular);
      (ok.Pass? <==> b.Success?) &&
      (ok.Pass? ==> output.written == old(output.written) + b.value) &&
      (ok.Fail? ==> ok.error == b.error)
  {
    output.WriteLittleInt(NORM);
    var codes := MakeNormalDeltas(restored, normals, arranged, sorted, np, arith, angular);
    if codes.Failure? {
      return Fail(codes.error);
    }
    ok := output.WritePackedInts(codes.value, |sorted|, 3, false);
    if ok.Fail? {
      ok := Fail(Overflow);
      return;
    }
    Associative(old(output.written), LittleEndian(NORM),
      CompressedBlock(output.coder, output.compressionLevel, PackedBytes(codes.value, |sorted|, 3, false)));
  }

  /** The header of a TEXC or ATTR section. */
  method WriteMapHeader(mk: RawCodec.MapKind, a: AttributeData, output: CtmOutputStream)
    requires Fits(a.name)
    requires Fits(a.materialName)
    modifies output
    ensures output.written == old(output.written) + MapHeaderBytes(mk, a)
  {
    ghost var w0 := output.written;
    output.WriteLittleInt(RawCodec.MapTag(mk));
    output.WriteString(a.name);
    Associative(w0, LittleEndian(RawCodec.MapTag(mk)), StringBytes(a.name));
    ghost var acc := LittleEndian(RawCodec.MapTag(mk)) + StringBytes(a.name);
    if mk == RawCodec.UvMap {
      output.WriteString(a.materialName);
      Associative(w0, acc, StringBytes(a.materialName));
      acc := acc + StringBytes(a.materialName);
    }
    output.WriteLittleFloat(a.precision);
    Associative(w0, acc, LittleEndian(a.precision.bits));
  }

  /** One TEXC or ATTR section: the header, then the deltas of the map packed signed. */
  method WriteMap(mk: RawCodec.MapKind, a: AttributeData, sorted: seq<SortableVertex>, arith: Arith,
                  output: CtmOutputStream) returns (ok: Outcome)
    requires |sorted| < TWO_31
    requires Fits(a.name)
    requires Fits(a.materialName)
    modifies output
    ensures var b := MapBytes(mk, output.coder, output.compressionLevel, a, sorted, arith);
      (ok.Pass? <==> b.Success?) &&
      (ok.Pass? ==> output.written == old(output.written) + b.value) &&
      (ok.Fail? ==> ok.error == b.error)
  {
    WriteMapHeader(mk, a, output);
    var deltas;
    if mk == RawCodec.UvMap {
      deltas := MakeUVCoordDeltas(a, sorted, arith);
    } else {
      deltas := MakeAttribDeltas(a, sorted, arith);
    }
    if deltas.Failure? {
      return Fail(deltas.error);
    }
    var k := RawCodec.MapSize(mk);
    ok := output.WritePackedInts(deltas.value, |sorted|, k, true);
    if ok.Fail? {
      ok := Fail(Overflow);
      return;
    }
    Associative(old(output.written), MapHeaderBytes(mk, a),
      CompressedBlock(output.coder, output.compressionLevel, PackedBytes(deltas.value, |sorted|, k, true)));
  }

  /** The `foreach` over the UV maps or the attribute maps. */
  method WriteMaps(mk: RawCodec.MapKind, maps: seq<AttributeData>, sorted: seq<SortableVertex>, arith: Arith,
                   output: CtmOutputStream) returns (ok: Outcome)
    requires |sorted| < TWO_31 && RawCodec.NamesFit(maps)
    modifies output
    ensures var b := MapsBytes(mk, output.coder, output.compressionLevel, maps, sorted, arith);
      (ok.Pass? <==> b.Success?) &&
      (ok.Pass? ==> output.written == old(output.written) + b.value) &&
      (ok.Fail? ==> ok.error == b.error)
  {
    for i := 0 to |maps|
      invariant MapsBytes(mk, output.coder, output.compressionLevel, maps[..i], sorted, arith).Success?
      invariant output.written ==
        old(output.written) + MapsBytes(mk, output.coder, output.compressionLevel, maps[..i], sorted, arith).value
    {
      ok := WriteMap(mk, maps[i], sorted, arith, output);
      MapsBytesStep(mk, output.coder, output.compressionLevel, maps, sorted, arith, i);
      if ok.Fail? {
        MapsBytesFails(mk, output.coder, output.compressionLevel, maps, sorted, arith, i + 1);
        return;
      }
      Associative(old(output.written), MapsBytes(mk, output.coder, output.compressionLevel, maps[..i], sorted, arith).value,
                  MapBytes(mk, output.coder, output.compressionLevel, maps[i], sorted, arith).value);
    }
    assert maps[..|maps|] == maps;
    ok := Pass;
  }

  /** VERT, GIDX, INDX and NORM, from the vertex table and grid-index deltas `encode` computed
      before writing the header. */
  method WriteGeometry(m: Mesh, grid: Grid, sorted: seq<SortableVertex>, table: seq<Int32>, gridIndices: array<Int32>,
                       vp: Float32, np: Float32, arith: Arith, angular: Angular, output: CtmOutputStream)
    returns (ok: Outcome)
    requires Shaped(grid) && Bounded(m) && sorted == Sorted(m, grid, arith)
    requires VertexTable(m.vertices, sorted, grid, vp, arith) == Success(table)
    requires gridIndices[..] == StrideDeltas(GridIndices(sorted), 1)
    modifies output, gridIndices
    ensures var b := GeometryBytes(output.coder, output.compressionLevel, m, grid, vp, np, arith, angular);
      (ok.Pass? <==> b.Success?) &&
      (ok.Pass? ==> output.written == old(output.written) + b.value) &&
      (ok.Fail? ==> ok.error == b.error)
  {
    ghost var w0 := output.written;
    ghost var c, level := output.coder, output.compressionLevel;
    ok := WriteVertices(table, gridIndices, GridIndices(sorted), output);
    if ok.Fail? {
      return;
    }
    ghost var acc := VerticesBytes(c, level, table, GridIndices(sorted)).value;
    var arranged;
    ok, arranged := WriteIndices(sorted, m.indices, output);
    if ok.Fail? {
      return;
    }
    ghost var ix := ReIndexed(sorted, m.indices).value;
    Associative(w0, acc, IndicesBytes(c, level, ix).value);
    acc := acc + IndicesBytes(c, level, ix).value;
    ok := WriteNormals(m.normals, sorted, grid, table, gridIndices, arranged, vp, np, arith, angular, output);
    if ok.Fail? {
      return;
    }
    Associative(w0, acc,
      NormalsBytes(c, level, m.normals, sorted, grid, table, arranged, vp, np, arith, angular).value);
  }

  /** `encode(m, output)` of MG2Encoder. */
  method Encode(m: Mesh, vp: Float32, np: Float32, arith: Arith, angular: Angular, output: CtmOutputStream)
    returns (ok: Outcome)
    requires Bounded(m) && RawCodec.NamesFit(m.texcoordinates)
    requires m.attributs.Some? ==> RawCodec.NamesFit(m.attributs.value)
    modifies output
    ensures var b := BodyBytes(output.coder, output.compressionLevel, m, vp, np, arith, angular);
      (ok.Pass? <==> b.Success?) &&
      (ok.Pass? ==> output.written == old(output.written) + b.value) &&
      (ok.Fail? ==> ok.error == b.error)
  {
    ghost var w0 := output.written;
    ghost var c, level := output.coder, output.compressionLevel;
    var g := SetupGrid(m.vertices, arith);
    if g.Failure? {
      return Fail(g.error);
    }
    var grid := g.value;
    var sorted := SortVertices(grid, m.vertices, arith);
    assert sorted == Sorted(m, grid, arith);
    var vd := MakeVertexDeltas(m.vertices, sorted, grid, vp, arith);
    if vd.Failure? {
      return Fail(vd.error);
    }
    var gridIndices := GridIndexDeltas(sorted);
    WriteHeader(vp, np, grid, output);
    ok := WriteGeometry(m, grid, sorted, vd.value, gridIndices, vp, np, arith, angular, output);
    if ok.Fail? {
      return;
    }
    ghost var acc := HeaderBytes(vp, np, grid) + GeometryBytes(c, level, m, grid, vp, np, arith, angular).value;
    Associative(w0, HeaderBytes(vp, np, grid), GeometryBytes(c, level, m, grid, vp, np, arith, angular).value);
    ok := WriteMaps(RawCodec.UvMap, m.texcoordinates, sorted, arith, output);
    if ok.Fail? {
      return;
    }
    ghost var tex := MapsBytes(RawCodec.UvMap, c, level, m.texcoordinates, sorted, arith).value;
    Associative(w0, acc, tex);
    if m.attributs.None? {
      return Fail(NullReference);
    }
    ok := WriteMaps(RawCodec.AttrMap, m.attributs.value, sorted, arith, output);
    if ok.Pass? {
      Associative(w0, acc + tex, MapsBytes(RawCodec.AttrMap, c, level, m.attributs.value, sorted, arith).value);
    }
  }

  // ---------------------------------------------------------------------
  // What MG2Decoder reads back, section by section

  /** A block `writePackedInts` wrote reads back as the ints packed into it, ending at next. */
  lemma PackedBlockRead(data: seq<Byte>, pos: nat, c: Coder, level: Int32, x: seq<Int32>, count: Int32, size: Int32,
                        signed: bool, blk: seq<Byte>, next: nat)
    requires Lossless(c) && 0 <= count && 1 <= size <= 4 && |x| == count * size
    requires RawCodec.PackedBlock(c, level, x, count, size, signed) == Success(blk)
    requires |blk| < TWO_31 && CtmInput.At(data, pos, blk) && next == pos + |blk|
    ensures CtmInput.PackedIntsAt(data, pos, c, count, size, signed) == Success(CtmInput.Read(x, next))
  {
    var bytes := PackedBytes(x, count, size, signed);
    assert blk == CompressedBlock(c, level, bytes) && 4 * count * size < TWO_31;
    assert |c.encode(SettingsFor(level), bytes)| < TWO_31 by {
      CompressedBlockSize(c, level, bytes);
    }
    CtmInput.ReadPackedIntsWritten(data, pos, c, level, x, count, size, signed, next);
  }

  /** The header reads back as written: the two precisions and the grid, which passes
      `checkIntegrity` when the encoder set it up. */
  lemma HeaderRead(data: seq<Byte>, pos: nat, vp: Float32, np: Float32, grid: Grid)
    requires Grids.CheckIntegrity(grid) && CtmInput.At(data, pos, HeaderBytes(vp, np, grid))
    ensures Mg2Decoder.HeaderAt(data, pos) ==
      Success(CtmInput.Read(Mg2Decoder.Header(vp, np, grid), pos + |HeaderBytes(vp, np, grid)|))
  {
    var t, a, b, g := LittleEndian(MG2_HEADER_TAG), LittleEndian(vp.bits), LittleEndian(np.bits), GridBytes(grid);
    assert HeaderBytes(vp, np, grid) == t + (a + (b + g));
    CtmInput.AtSplit(data, pos, t, a + (b + g));
    CtmInput.AtSplit(data, pos + 4, a, b + g);
    CtmInput.AtSplit(data, pos + 8, b, g);
    RawCodec.TagAtWritten(data, pos, MG2_HEADER_TAG, MG2_HEADER_TAG);
    CtmInput.ReadLittleIntWritten(data, pos + 4, vp.bits);
    CtmInput.ReadLittleIntWritten(data, pos + 8, np.bits);
    GridRoundTrip(data, pos + 12, grid);
  }

  /** A tagged block of packed ints reads back: the tag matches and the ints are the ones packed,
      ending at next. */
  lemma TaggedBlockRead(data: seq<Byte>, pos: nat, c: Coder, level: Int32, tag: Int32, x: seq<Int32>,
                        count: Int32, size: Int32, signed: bool, blk: seq<Byte>, next: nat)
    requires Lossless(c) && 0 <= count && 1 <= size <= 4 && |x| == count * size
    requires RawCodec.PackedBlock(c, level, x, count, size, signed) == Success(blk) && |blk| < TWO_31
    requires CtmInput.At(data, pos, LittleEndian(tag) + blk) && next == pos + 4 + |blk|
    ensures RawCodec.TagAt(data, pos, tag) == Success(pos + 4)
    ensures CtmInput.PackedIntsAt(data, pos + 4, c, count, size, signed) == Success(CtmInput.Read(x, next))
  {
    CtmInput.AtSplit(data, pos, LittleEndian(tag), blk);
    RawCodec.TagAtWritten(data, pos, tag, tag);
    PackedBlockRead(data, pos + 4, c, level, x, count, size, signed, blk, next);
  }

  /** The two blocks the VERT and GIDX sections are made of. */
  lemma VerticesBytesParts(c: Coder, level: Int32, table: seq<Int32>, gs: seq<Int32>, b: seq<Byte>)
    returns (vert: seq<Byte>, gidx: seq<Byte>)
    requires |table| == 3 * |gs| < TWO_31 && VerticesBytes(c, level, table, gs) == Success(b)
    ensures RawCodec.PackedBlock(c, level, table, |gs|, 3, false) == Success(vert)
    ensures RawCodec.PackedBlock(c, level, StrideDeltas(gs, 1), |gs|, 1, false) == Success(gidx)
    ensures b == (LittleEndian(VERT) + vert) + (LittleEndian(GIDX) + gidx)
  {
    vert := RawCodec.PackedBlock(c, level, table, |gs|, 3, false).value;
    gidx := RawCodec.PackedBlock(c, level, StrideDeltas(gs, 1), |gs|, 1, false).value;
  }

  /** The VERT block at pos and the GIDX block at p1 read back: both tags match, the table comes
      back and so do the grid-index deltas, which end at next. */
  lemma VertexBlocksRead(data: seq<Byte>, pos: nat, c: Coder, level: Int32, table: seq<Int32>, gs: seq<Int32>,
                         vert: seq<Byte>, gidx: seq<Byte>, p1: nat, next: nat)
    requires Lossless(c) && |table| == 3 * |gs| < TWO_31
    requires RawCodec.PackedBlock(c, level, table, |gs|, 3, false) == Success(vert) && |vert| < TWO_31
    requires RawCodec.PackedBlock(c, level, StrideDeltas(gs, 1), |gs|, 1, false) == Success(gidx) && |gidx| < TWO_31
    requires p1 == pos + 4 + |vert| && next == p1 + 4 + |gidx|
    requires CtmInput.At(data, pos, LittleEndian(VERT) + vert) && CtmInput.At(data, p1, LittleEndian(GIDX) + gidx)
    ensures RawCodec.TagAt(data, pos, VERT) == Success(pos + 4)
    ensures CtmInput.PackedIntsAt(data, pos + 4, c, |gs|, 3, false) == Success(CtmInput.Read(table, p1))
    ensures RawCodec.TagAt(data, p1, GIDX) == Success(p1 + 4)
    ensures CtmInput.PackedIntsAt(data, p1 + 4, c, |gs|, 1, false) == Success(CtmInput.Read(StrideDeltas(gs, 1), next))
  {
    TaggedBlockRead(data, pos, c, level, VERT, table, |gs|, 3, false, vert, p1);
    TaggedBlockRead(data, p1, c, level, GIDX, StrideDeltas(gs, 1), |gs|, 1, false, gidx, next);
  }

  /** The bytes `VerticesBytes` describes, found at pos, read back as the VERT and GIDX blocks;
      the GIDX tag sits at p1. */
  lemma VerticesBytesRead(data: seq<Byte>, pos: nat, c: Coder, level: Int32, table: seq<Int32>, gs: seq<Int32>,
                          b: seq<Byte>, next: nat) returns (p1: nat)
    requires Lossless(c) && |table| == 3 * |gs| < TWO_31
    requires VerticesBytes(c, level, table, gs) == Success(b) && |b| < TWO_31 && CtmInput.At(data, pos, b)
    requires next == pos + |b|
    ensures RawCodec.TagAt(data, pos, VERT) == Success(pos + 4)
    ensures CtmInput.PackedIntsAt(data, pos + 4, c, |gs|, 3, false) == Success(CtmInput.Read(table, p1))
    ensures RawCodec.TagAt(data, p1, GIDX) == Success(p1 + 4)
    ensures CtmInput.PackedIntsAt(data, p1 + 4, c, |gs|, 1, false) == Success(CtmInput.Read(StrideDeltas(gs, 1), next))
  {
    var vert, gidx := VerticesBytesParts(c, level, table, gs, b);
    p1 := pos + 4 + |vert|;
    CtmInput.AtSplit(data, pos, LittleEndian(VERT) + vert, LittleEndian(GIDX) + gidx);
    VertexBlocksRead(data, pos, c, level, table, gs, vert, gidx, p1, next);
  }

  /** The VERT and GIDX sections read back as the vertices `restoreVertices` makes of the
      table and of the grid indices summed back from their deltas. */
  lemma VertexSectionsRead(data: seq<Byte>, pos: nat, c: Coder, level: Int32, table: seq<Int32>, gs: seq<Int32>,
                           grid: Grid, vp: Float32, arith: Arith, b: seq<Byte>, restored: seq<Float32>,
                           vcount: Int32, next: nat)
    requires Lossless(c) && Shaped(grid) && |table| == 3 * |gs| < TWO_31 && vcount == |gs|
    requires VerticesBytes(c, level, table, gs) == Success(b) && |b| < TWO_31 && CtmInput.At(data, pos, b)
    requires RestoredVertices(table, gs, grid, vp, arith) == Success(restored) && next == pos + |b|
    ensures Mg2Decoder.VerticesAt(data, pos, c, grid, vcount, vp, arith) == Success(CtmInput.Read(restored, next))
  {
    var p1 := VerticesBytesRead(data, pos, c, level, table, gs, b, next);
    VerticesAtSteps(data, pos, c, grid, vcount, vp, arith, table, p1, gs, next, restored);
  }

  /** `readVertices` succeeds once each of its four reads and the restore succeed. */
  lemma VerticesAtSteps(data: seq<Byte>, pos: nat, c: Coder, grid: Grid, vcount: Int32, vp: Float32, arith: Arith,
                        table: seq<Int32>, p1: nat, gs: seq<Int32>, next: nat, restored: seq<Float32>)
    requires Shaped(grid)
    requires RawCodec.TagAt(data, pos, VERT) == Success(pos + 4)
    requires CtmInput.PackedIntsAt(data, pos + 4, c, vcount, 3, false) == Success(CtmInput.Read(table, p1))
    requires RawCodec.TagAt(data, p1, GIDX) == Success(p1 + 4)
    requires CtmInput.PackedIntsAt(data, p1 + 4, c, vcount, 1, false) == Success(CtmInput.Read(StrideDeltas(gs, 1), next))
    requires RestoredVertices(table, gs, grid, vp, arith) == Success(restored)
    ensures Mg2Decoder.VerticesAt(data, pos, c, grid, vcount, vp, arith) == Success(CtmInput.Read(restored, next))
  {
    StrideSumsDeltas(gs, 1);
  }

  /** The sorted vertices as the decoder can see them: each at its fixed-point offsets from the
      origin of its grid cell. */
  function SnappedVertices(vertices: seq<Float32>, sorted: seq<SortableVertex>, grid: Grid, vp: Float32,
                           arith: Arith): (r: Result<seq<Float32>>)
    requires Shaped(grid) && RowsWithin(vertices, sorted, 3)
    ensures r.Success? <==> Origins(grid, GridIndices(sorted), arith).Success?
    ensures r.Success? ==> |r.value| == 3 * |sorted|
  {
    var os :- Origins(grid, GridIndices(sorted), arith);
    Success(Placed(Offsets(vertices, sorted, os, arith.div(ONE, vp), arith), os, vp, arith))
  }

  /** The VERT and GIDX sections read back as the sorted vertices snapped to their cells:
      `restoreVertices` undoes `makeVertexDeltas`. */
  lemma VerticesRead(data: seq<Byte>, pos: nat, c: Coder, level: Int32, vertices: seq<Float32>,
                     sorted: seq<SortableVertex>, grid: Grid, vp: Float32, arith: Arith, table: seq<Int32>, b: seq<Byte>,
                     next: nat)
    requires Lossless(c) && Shaped(grid) && RowsWithin(vertices, sorted, 3) && 3 * |sorted| < TWO_31
    requires SmallGridIndices(GridIndices(sorted))
    requires VertexTable(vertices, sorted, grid, vp, arith) == Success(table)
    requires VerticesBytes(c, level, table, GridIndices(sorted)) == Success(b) && |b| < TWO_31 && CtmInput.At(data, pos, b)
    requires next == pos + |b|
    ensures SnappedVertices(vertices, sorted, grid, vp, arith).Success?
    ensures Mg2Decoder.VerticesAt(data, pos, c, grid, |sorted|, vp, arith) ==
      Success(CtmInput.Read(SnappedVertices(vertices, sorted, grid, vp, arith).value, next))
  {
    VertexTableRestores(vertices, sorted, grid, vp, arith);
    VertexSectionsRead(data, pos, c, level, table, GridIndices(sorted), grid, vp, arith, b,
                       SnappedVertices(vertices, sorted, grid, vp, arith).value, |sorted|, next);
  }



  /** The three corners of a triangle. */
  function Corners(t: Triangles.Triangle): set<Int32>
  {
    {t.e0, t.e1, t.e2}
  }

  /** Every entry of a flattened triangle list is a corner of one of its triangles. */
  lemma {:induction false} FlattenCorner(ts: seq<Triangles.Triangle>, k: nat) returns (i: nat)
    requires k < |Mg1Indices.Flatten(ts)|
    ensures i < |ts| && Mg1Indices.Flatten(ts)[k] in Corners(ts[i])
  {
    if k < 3 {
      i := 0;
    } else {
      assert Mg1Indices.Flatten(ts)[k] == Mg1Indices.Flatten(ts[1..])[k - 3];
      i := FlattenCorner(ts[1..], k - 3);
      i := i + 1;
    }
  }

  /** A corner of a triangle of an index array is one of its entries. */
  lemma TrisCorner(s: seq<Int32>, i: nat, v: Int32)
    requires i < |s| / 3 && v in Corners(Mg1Indices.Tris(s)[i])
    ensures v in s
  {
    Mg1Indices.TrisAt(s, i);
  }

  /** Every index of the rearranged triangles is an index of the original ones: rotating
      keeps a triangle's corners and sorting keeps the triangles. */
  lemma ArrangedEntry(ix: seq<Int32>, k: nat)
    requires |ix| % 3 == 0 && k < |ix|
    ensures ArrangedIndices(ix)[k] in ix
  {
    var ts := Mg1Indices.Tris(ix);
    var a := Mg1Indices.Arranged(ts);
    var i := FlattenCorner(a, k);
    Mg1Indices.ArrangedSortedPermutation(ts);
    assert a[i] in multiset(Mg1Indices.RotateAll(ts));
    var j :| 0 <= j < |ts| && Mg1Indices.RotateAll(ts)[j] == a[i];
    assert Corners(Mg1Indices.Rotate(ts[j])) == Corners(ts[j]);
    TrisCorner(ix, j, ArrangedIndices(ix)[k]);
  }

  /** Rearranging keeps the indices in range, so the decoder's check passes on them. */
  lemma ArrangedInRange(ix: seq<Int32>, vcount: Int32)
    requires |ix| % 3 == 0 && forall k :: 0 <= k < |ix| ==> 0 <= ix[k] < vcount
    ensures Mg2Decoder.IndicesCheck(ArrangedIndices(ix), vcount).Pass?
    ensures Mg2Decoder.IndicesCheckAsWritten(ArrangedIndices(ix), vcount).Pass?
  {
    forall k | 0 <= k < |ix| ensures 0 <= ArrangedIndices(ix)[k] < vcount {
      ArrangedEntry(ix, k);
    }
    Mg2Decoder.IndicesCheckStricter(ArrangedIndices(ix), vcount);
  }

  /** `restoreIndices` undoes the MG1 words of an index array, giving its rearranged
      triangles. */
  lemma ArrangedRestored(ix: seq<Int32>, triCount: Int32)
    requires |ix| % 3 == 0 && triCount as int == |ix| / 3
    ensures RawCodec.RestoredIndices(triCount, RawCodec.Mg1IndexWords(ix)) == Success(ArrangedIndices(ix))
  {
    var a := Mg1Indices.Arranged(Mg1Indices.Tris(ix));
    var words := RawCodec.Mg1IndexWords(ix);
    if triCount > 0 {
      assert words[..3 * triCount] == words && words[3 * triCount..] == [];
      Mg1Indices.TrisFlatten(Mg1Indices.Deltas(a));
      Mg1Indices.RestoredDeltas(a);
      var head := Mg1Indices.Flatten(Mg1Indices.Restored(Mg1Indices.Tris(words[..3 * triCount])));
      assert head == Mg1Indices.Flatten(a);
      assert head + words[3 * triCount..] == ArrangedIndices(ix);
    } else {
      assert words == [] && ArrangedIndices(ix) == [];
    }
  }

  /** The INDX section reads back as the rearranged triangles, in range and ending at next. */
  lemma IndicesRead(data: seq<Byte>, pos: nat, c: Coder, level: Int32, ix: seq<Int32>, triCount: Int32,
                    vcount: Int32, b: seq<Byte>, next: nat)
    requires Lossless(c) && |ix| < TWO_31 && |ix| % 3 == 0 && triCount as int == |ix| / 3
    requires forall k :: 0 <= k < |ix| ==> 0 <= ix[k] < vcount
    requires IndicesBytes(c, level, ix) == Success(b) && |b| < TWO_31 && CtmInput.At(data, pos, b)
    requires next == pos + |b|
    ensures Mg2Decoder.IndicesAt(data, pos, c, triCount, vcount) == Success(CtmInput.Read(ArrangedIndices(ix), next))
  {
    var words := RawCodec.Mg1IndexWords(ix);
    var blk := RawCodec.PackedBlock(c, level, words, triCount, 3, false).value;
    assert b == LittleEndian(INDX) + blk;
    TaggedBlockRead(data, pos, c, level, INDX, words, triCount, 3, false, blk, next);
    ArrangedRestored(ix, triCount);
    ArrangedInRange(ix, vcount);
  }


  /** The NORM section reads back as each normal coded and decoded against the smooth normal
      of the restored vertices and the rearranged triangles, which both sides compute alike. */
  lemma NormalsRead(data: seq<Byte>, pos: nat, c: Coder, level: Int32, normals: seq<Float32>,
                    sorted: seq<SortableVertex>, grid: Grid, table: seq<Int32>, arranged: seq<Int32>, vp: Float32,
                    np: Float32, arith: Arith, angular: Angular, restored: seq<Float32>, smooth: seq<Float32>,
                    vcount: Int32, b: seq<Byte>, next: nat)
    requires Lossless(c) && Shaped(grid) && |table| == 3 * |sorted| < TWO_31 && vcount as int == |sorted|
    requires RestoredVertices(table, GridIndices(sorted), grid, vp, arith) == Success(restored)
    requires SmoothNormals(restored, arranged, arith) == Success(smooth) && RowsUpTo(normals, sorted, 3, |sorted|)
    requires NormalsBytes(c, level, Some(normals), sorted, grid, table, arranged, vp, np, arith, angular) == Success(b)
    requires |b| < TWO_31 && CtmInput.At(data, pos, b) && next == pos + |b|
    ensures Mg2Decoder.NormalsAt(data, pos, c, restored, arranged, np, vcount, arith, angular) ==
      Success(CtmInput.Read(RecodedNormals(normals, smooth, sorted, |sorted|, np, angular), next))
  {
    NormalTableRestores(restored, normals, arranged, sorted, np, arith, angular, smooth);
    var t := NormalRows(normals, smooth, sorted, |sorted|, np, angular);
    var blk := RawCodec.PackedBlock(c, level, t, vcount, 3, false).value;
    assert b == LittleEndian(NORM) + blk;
    TaggedBlockRead(data, pos, c, level, NORM, t, vcount, 3, false, blk, next);
  }

  /** A name written with `writeString` at pos reads back as stored, ending at next. */
  lemma NameRead(data: seq<Byte>, pos: nat, text: Option<string>, rest: seq<Byte>, next: nat)
    requires Fits(text) && Counted(text)
    requires CtmInput.At(data, pos, StringBytes(text) + rest) && next == pos + |StringBytes(text)|
    ensures CtmInput.StringAt(data, pos) == Success(CtmInput.Read(CtmInput.StoredName(text), next))
    ensures CtmInput.At(data, next, rest)
  {
    CtmInput.AtSplit(data, pos, StringBytes(text), rest);
    CtmInput.ReadStringWritten(data, pos, text, next);
  }

  /** The header of a TEXC or ATTR section reads back: the names as stored, a material name
      only for a UV map, and the precision, which the decoder accepts when it is above zero. */
  lemma MapHeaderRead(mk: RawCodec.MapKind, data: seq<Byte>, pos: nat, a: AttributeData, next: nat)
    requires Fits(a.name) && Counted(a.name)
    requires Fits(a.materialName) && Counted(a.materialName)
    requires !AtMostZero(a.precision)
    requires CtmInput.At(data, pos, MapHeaderBytes(mk, a)) && next == pos + |MapHeaderBytes(mk, a)|
    ensures Mg2Decoder.MapHeaderAt(mk, data, pos) == Success(CtmInput.Read(Mg2Decoder.MapHeader(
      CtmInput.StoredName(a.name), if mk == RawCodec.UvMap then Some(CtmInput.StoredName(a.materialName)) else None, a.precision), next))
  {
    var t, n, f := LittleEndian(RawCodec.MapTag(mk)), StringBytes(a.name), LittleEndian(a.precision.bits);
    var p1 := pos + 4;
    var p2 := p1 + |n|;
    if mk == RawCodec.UvMap {
      var m := StringBytes(a.materialName);
      UvHeaderSplit(data, pos, a);
      UvHeaderRead(data, pos, a, p1, p2, p2 + |m|, next);
    } else {
      AttrHeaderSplit(data, pos, a);
      AttrHeaderRead(data, pos, a, p1, p2, next);
    }
  }

  /** A written TEXC header is its tag followed by the rest. */
  lemma UvHeaderSplit(data: seq<Byte>, pos: nat, a: AttributeData)
    requires Fits(a.name) && Fits(a.materialName)
    requires CtmInput.At(data, pos, MapHeaderBytes(RawCodec.UvMap, a))
    ensures CtmInput.At(data, pos, LittleEndian(TEXC))
    ensures CtmInput.At(data, pos + 4, StringBytes(a.name) + (StringBytes(a.materialName) + LittleEndian(a.precision.bits)))
  {
    var t, n, m, f := LittleEndian(TEXC), StringBytes(a.name), StringBytes(a.materialName), LittleEndian(a.precision.bits);
    Associative(t + n, m, f);
    Associative(t, n, m + f);
    CtmInput.AtSplit(data, pos, t, n + (m + f));
  }

  /** A written ATTR header is its tag followed by the rest. */
  lemma AttrHeaderSplit(data: seq<Byte>, pos: nat, a: AttributeData)
    requires Fits(a.name) && Fits(a.materialName)
    requires CtmInput.At(data, pos, MapHeaderBytes(RawCodec.AttrMap, a))
    ensures CtmInput.At(data, pos, LittleEndian(ATTR))
    ensures CtmInput.At(data, pos + 4, StringBytes(a.name) + LittleEndian(a.precision.bits))
  {
    var t, n, f := LittleEndian(ATTR), StringBytes(a.name), LittleEndian(a.precision.bits);
    Associative(t, n, f);
    CtmInput.AtSplit(data, pos, t, n + f);
  }

  lemma UvHeaderRead(data: seq<Byte>, pos: nat, a: AttributeData, p1: nat, p2: nat, p3: nat, next: nat)
    requires Fits(a.name) && Counted(a.name)
    requires Fits(a.materialName) && Counted(a.materialName)
    requires !AtMostZero(a.precision)
    requires p1 == pos + 4 && p2 == p1 + |StringBytes(a.name)| && p3 == p2 + |StringBytes(a.materialName)| && next == p3 + 4
    requires CtmInput.At(data, pos, LittleEndian(TEXC))
    requires CtmInput.At(data, p1, StringBytes(a.name) + (StringBytes(a.materialName) + LittleEndian(a.precision.bits)))
    ensures Mg2Decoder.MapHeaderAt(RawCodec.UvMap, data, pos) == Success(CtmInput.Read(Mg2Decoder.MapHeader(
      CtmInput.StoredName(a.name), Some(CtmInput.StoredName(a.materialName)), a.precision), next))
  {
    RawCodec.TagAtWritten(data, pos, TEXC, TEXC);
    UvNamesRead(data, a, p1, p2, p3, next);
    UvHeaderAtSteps(data, pos, a, p1, p2, p3, next);
  }

  /** The two names and the precision after a TEXC tag read back in turn. */
  lemma UvNamesRead(data: seq<Byte>, a: AttributeData, p1: nat, p2: nat, p3: nat, next: nat)
    requires Fits(a.name) && Counted(a.name)
    requires Fits(a.materialName) && Counted(a.materialName)
    requires p2 == p1 + |StringBytes(a.name)| && p3 == p2 + |StringBytes(a.materialName)| && next == p3 + 4
    requires CtmInput.At(data, p1, StringBytes(a.name) + (StringBytes(a.materialName) + LittleEndian(a.precision.bits)))
    ensures CtmInput.StringAt(data, p1) == Success(CtmInput.Read(CtmInput.StoredName(a.name), p2))
    ensures CtmInput.StringAt(data, p2) == Success(CtmInput.Read(CtmInput.StoredName(a.materialName), p3))
    ensures CtmInput.IntAt(data, p3) == Success(CtmInput.Read(a.precision.bits, next))
  {
    NameRead(data, p1, a.name, StringBytes(a.materialName) + LittleEndian(a.precision.bits), p2);
    NameRead(data, p2, a.materialName, LittleEndian(a.precision.bits), p3);
    CtmInput.ReadLittleIntWritten(data, p3, a.precision.bits);
  }

  /** `readUvData`'s header succeeds once its four reads do. */
  lemma UvHeaderAtSteps(data: seq<Byte>, pos: nat, a: AttributeData, p1: nat, p2: nat, p3: nat, next: nat)
    requires !AtMostZero(a.precision) && p1 == pos + 4 && next == p3 + 4
    requires RawCodec.TagAt(data, pos, TEXC) == Success(p1)
    requires CtmInput.StringAt(data, p1) == Success(CtmInput.Read(CtmInput.StoredName(a.name), p2))
    requires CtmInput.StringAt(data, p2) == Success(CtmInput.Read(CtmInput.StoredName(a.materialName), p3))
    requires CtmInput.IntAt(data, p3) == Success(CtmInput.Read(a.precision.bits, next))
    ensures Mg2Decoder.MapHeaderAt(RawCodec.UvMap, data, pos) == Success(CtmInput.Read(Mg2Decoder.MapHeader(
      CtmInput.StoredName(a.name), Some(CtmInput.StoredName(a.materialName)), a.precision), next))
  {
  }

  lemma AttrHeaderRead(data: seq<Byte>, pos: nat, a: AttributeData, p1: nat, p2: nat, next: nat)
    requires Fits(a.name) && Counted(a.name)
    requires !AtMostZero(a.precision)
    requires p1 == pos + 4 && p2 == p1 + |StringBytes(a.name)| && next == p2 + 4
    requires CtmInput.At(data, pos, LittleEndian(ATTR))
    requires CtmInput.At(data, p1, StringBytes(a.name) + LittleEndian(a.precision.bits))
    ensures Mg2Decoder.MapHeaderAt(RawCodec.AttrMap, data, pos) == Success(CtmInput.Read(Mg2Decoder.MapHeader(
      CtmInput.StoredName(a.name), None, a.precision), next))
  {
    RawCodec.TagAtWritten(data, pos, ATTR, ATTR);
    NameRead(data, p1, a.name, LittleEndian(a.precision.bits), p2);
    CtmInput.ReadLittleIntWritten(data, p2, a.precision.bits);
    AttrHeaderAtSteps(data, pos, a, p1, p2, next);
  }

  /** `readAttrData`'s header succeeds once its three reads do. */
  lemma AttrHeaderAtSteps(data: seq<Byte>, pos: nat, a: AttributeData, p1: nat, p2: nat, next: nat)
    requires !AtMostZero(a.precision) && p1 == pos + 4 && next == p2 + 4
    requires RawCodec.TagAt(data, pos, ATTR) == Success(p1)
    requires CtmInput.StringAt(data, p1) == Success(CtmInput.Read(CtmInput.StoredName(a.name), p2))
    requires CtmInput.IntAt(data, p2) == Success(CtmInput.Read(a.precision.bits, next))
    ensures Mg2Decoder.MapHeaderAt(RawCodec.AttrMap, data, pos) == Success(CtmInput.Read(Mg2Decoder.MapHeader(
      CtmInput.StoredName(a.name), None, a.precision), next))
  {
  }

  /** A map as the decoder gives it back: the stored names, the precision, and each sorted
      vertex's row as its fixed-point values times the precision. */
  function MapReadBack(mk: RawCodec.MapKind, a: AttributeData, sorted: seq<SortableVertex>, arith: Arith): AttributeData
    requires RowsUpTo(a.values, sorted, RawCodec.MapSize(mk) as nat, |sorted|)
  {
    var k := RawCodec.MapSize(mk) as nat;
    AttributeData(Some(CtmInput.StoredName(a.name)), if mk == RawCodec.UvMap then Some(CtmInput.StoredName(a.materialName)) else None,
                  a.precision, Mg2Decoder.Scaled(Gathered(a.values, sorted, k, |sorted|, arith.div(ONE, a.precision), arith),
                                                  a.precision, arith))
  }

  /** The header and the values of a map. */
  lemma MapBytesParts(mk: RawCodec.MapKind, c: Coder, level: Int32, a: AttributeData, sorted: seq<SortableVertex>,
                      arith: Arith, b: seq<Byte>) returns (deltas: seq<Int32>, blk: seq<Byte>)
    requires |sorted| < TWO_31
    requires Fits(a.name)
    requires Fits(a.materialName)
    requires MapBytes(mk, c, level, a, sorted, arith) == Success(b)
    ensures MapTable(a, sorted, RawCodec.MapSize(mk) as nat, arith) == Success(deltas)
    ensures RawCodec.PackedBlock(c, level, deltas, |sorted|, RawCodec.MapSize(mk), true) == Success(blk)
    ensures b == MapHeaderBytes(mk, a) + blk
  {
    deltas := MapTable(a, sorted, RawCodec.MapSize(mk) as nat, arith).value;
    blk := RawCodec.PackedBlock(c, level, deltas, |sorted|, RawCodec.MapSize(mk), true).value;
  }

  /** A TEXC or ATTR section reads back as the map restored from its deltas. */
  lemma MapRead(mk: RawCodec.MapKind, data: seq<Byte>, pos: nat, c: Coder, level: Int32, a: AttributeData,
                sorted: seq<SortableVertex>, arith: Arith, vcount: Int32, b: seq<Byte>, next: nat)
    requires Lossless(c) && |sorted| < TWO_31 && vcount as int == |sorted|
    requires Fits(a.name) && Counted(a.name)
    requires Fits(a.materialName) && Counted(a.materialName)
    requires !AtMostZero(a.precision)
    requires MapBytes(mk, c, level, a, sorted, arith) == Success(b)
    requires |b| < TWO_31 && CtmInput.At(data, pos, b) && next == pos + |b|
    ensures RowsUpTo(a.values, sorted, RawCodec.MapSize(mk) as nat, |sorted|)
    ensures Mg2Decoder.MapAt(mk, data, pos, c, vcount, arith) ==
      Success(CtmInput.Read(MapReadBack(mk, a, sorted, arith), next))
  {
    var k := RawCodec.MapSize(mk);
    var deltas, blk := MapBytesParts(mk, c, level, a, sorted, arith, b);
    var p := pos + |MapHeaderBytes(mk, a)|;
    CtmInput.AtSplit(data, pos, MapHeaderBytes(mk, a), blk);
    MapHeaderRead(mk, data, pos, a, p);
    PackedBlockRead(data, p, c, level, deltas, vcount, k, true, blk, next);
    MapTableRestores(a, sorted, k as nat, arith);
    MapAtSteps(mk, data, pos, c, vcount, arith, a, sorted, deltas, p, next);
  }

  /** `readUvData` and `readAttribute` succeed once the header and the values read back. */
  lemma MapAtSteps(mk: RawCodec.MapKind, data: seq<Byte>, pos: nat, c: Coder, vcount: Int32, arith: Arith,
                   a: AttributeData, sorted: seq<SortableVertex>, deltas: seq<Int32>, p: nat, next: nat)
    requires RowsUpTo(a.values, sorted, RawCodec.MapSize(mk) as nat, |sorted|)
    requires Mg2Decoder.MapHeaderAt(mk, data, pos) == Success(CtmInput.Read(Mg2Decoder.MapHeader(
      CtmInput.StoredName(a.name), if mk == RawCodec.UvMap then Some(CtmInput.StoredName(a.materialName)) else None,
      a.precision), p))
    requires CtmInput.PackedIntsAt(data, p, c, vcount, RawCodec.MapSize(mk), true) == Success(CtmInput.Read(deltas, next))
    requires Mg2Decoder.RestoredValues(deltas, RawCodec.MapSize(mk) as nat, a.precision, arith) ==
      MapReadBack(mk, a, sorted, arith).values
    ensures Mg2Decoder.MapAt(mk, data, pos, c, vcount, arith) ==
      Success(CtmInput.Read(MapReadBack(mk, a, sorted, arith), next))
  {
  }

}
