// The MG2 body read back whole: the section lemmas of Mg2Body put together, so
// that `MG2Decoder.decode` on the bytes `MG2Encoder.encode` wrote gives the
// mesh the encoder saw, snapped to its grid, with its triangles rearranged,
// its normals recoded and its maps quantised to their precisions.
module Mg2RoundTrip {
  import opened Machine
  import opened Wrappers
  import opened Lzma
  import opened ByteCoding
  import opened MeshData
  import opened FloatArith
  import opened Grids
  import opened Mg2Deltas
  import opened CommonAlgorithm
  import opened SortableVertices
  import opened Mg2Encoder
  import opened Mg2Body
  import RawCodec
  import Mg2Decoder
  import CtmInput
  import CtmFile

  // ---------------------------------------------------------------------
  // The map sections

  /** What the decoder needs to read a map back as it was written: names with one UTF-16 unit
      per character, and a precision above zero. */
  predicate ReadableMaps(maps: seq<AttributeData>)
  {
    forall j :: 0 <= j < |maps| ==>
      Counted(maps[j].name) && Counted(maps[j].materialName) && !AtMostZero(maps[j].precision)
  }

  /** Every map has a row for every sorted vertex. */
  predicate MapRows(mk: RawCodec.MapKind, maps: seq<AttributeData>, sorted: seq<SortableVertex>)
  {
    forall j :: 0 <= j < |maps| ==> RowsUpTo(maps[j].values, sorted, RawCodec.MapSize(mk) as nat, |sorted|)
  }

  /** The maps as the decoder gives them back, one by one. */
  function MapsReadBack(mk: RawCodec.MapKind, maps: seq<AttributeData>, sorted: seq<SortableVertex>, arith: Arith)
    : (r: seq<AttributeData>)
    requires MapRows(mk, maps, sorted)
    ensures |r| == |maps|
  {
    if maps == [] then []
    else MapsReadBack(mk, maps[..|maps| - 1], sorted, arith) + [MapReadBack(mk, maps[|maps| - 1], sorted, arith)]
  }

  /** The TEXC or ATTR sections of a list of maps read back, one map after the other. */
  lemma {:induction false} MapsRead(mk: RawCodec.MapKind, data: seq<Byte>, pos: nat, c: Coder, level: Int32,
                                    maps: seq<AttributeData>, sorted: seq<SortableVertex>, arith: Arith,
                                    vcount: Int32, b: seq<Byte>, next: nat)
    requires Lossless(c) && |sorted| < TWO_31 && vcount as int == |sorted|
    requires RawCodec.NamesFit(maps) && ReadableMaps(maps)
    requires MapsBytes(mk, c, level, maps, sorted, arith) == Success(b)
    requires |b| < TWO_31 && CtmInput.At(data, pos, b) && next == pos + |b|
    ensures MapRows(mk, maps, sorted)
    ensures Mg2Decoder.MapsAt(mk, data, pos, c, vcount, |maps|, arith) ==
      Success(CtmInput.Read(MapsReadBack(mk, maps, sorted, arith), next))
    decreases |maps|
  {
    if maps == [] {
      assert MapsReadBack(mk, maps, sorted, arith) == [];
    } else {
      var init, last := maps[..|maps| - 1], maps[|maps| - 1];
      ReadableSplit(maps, init, last);
      var bi, bl, mid := MapsSplit(mk, data, pos, c, level, maps, init, last, sorted, arith, b, next);
      MapsRead(mk, data, pos, c, level, init, sorted, arith, vcount, bi, mid);
      MapRead(mk, data, mid, c, level, last, sorted, arith, vcount, bl, next);
      RowsOfAll(RawCodec.MapSize(mk) as nat, maps, init, last, sorted);
      MapsAtStep(mk, data, pos, c, vcount, arith, maps, init, last, sorted, mid, next);
    }
  }

  /** The bytes of all maps but the last, then those of the last, and where they lie. */
  lemma MapsSplit(mk: RawCodec.MapKind, data: seq<Byte>, pos: nat, c: Coder, level: Int32, maps: seq<AttributeData>,
                  init: seq<AttributeData>, last: AttributeData, sorted: seq<SortableVertex>, arith: Arith,
                  b: seq<Byte>, next: nat) returns (bi: seq<Byte>, bl: seq<Byte>, mid: nat)
    requires maps != [] && init == maps[..|maps| - 1] && last == maps[|maps| - 1]
    requires |sorted| < TWO_31 && RawCodec.NamesFit(maps)
    requires RawCodec.NamesFit(init) && Fits(last.name) && Fits(last.materialName)
    requires MapsBytes(mk, c, level, maps, sorted, arith) == Success(b)
    requires |b| < TWO_31 && CtmInput.At(data, pos, b) && next == pos + |b|
    ensures MapsBytes(mk, c, level, init, sorted, arith) == Success(bi) && |bi| < TWO_31
    ensures MapBytes(mk, c, level, last, sorted, arith) == Success(bl) && |bl| < TWO_31
    ensures CtmInput.At(data, pos, bi) && mid == pos + |bi|
    ensures CtmInput.At(data, mid, bl) && next == mid + |bl|
  {
    bi := MapsBytes(mk, c, level, init, sorted, arith).value;
    bl := MapBytes(mk, c, level, last, sorted, arith).value;
    mid := pos + |bi|;
    assert b == bi + bl;
    CtmInput.AtSplit(data, pos, bi, bl);
  }

  /** All maps but the last, and the last, are as readable as all of them. */
  lemma ReadableSplit(maps: seq<AttributeData>, init: seq<AttributeData>, last: AttributeData)
    requires maps != [] && init == maps[..|maps| - 1] && last == maps[|maps| - 1]
    requires RawCodec.NamesFit(maps) && ReadableMaps(maps)
    ensures RawCodec.NamesFit(init) && ReadableMaps(init)
    ensures Fits(last.name) && Counted(last.name) && Fits(last.materialName) && Counted(last.materialName)
    ensures !AtMostZero(last.precision)
  {
    forall j | 0 <= j < |init| ensures init[j] == maps[j] { }
  }

  /** The rows of every map, from those of all but the last and those of the last. */
  lemma RowsOfAll(k: nat, maps: seq<AttributeData>, init: seq<AttributeData>, last: AttributeData,
                  sorted: seq<SortableVertex>)
    requires maps != [] && init == maps[..|maps| - 1] && last == maps[|maps| - 1]
    requires forall j :: 0 <= j < |init| ==> RowsUpTo(init[j].values, sorted, k, |sorted|)
    requires RowsUpTo(last.values, sorted, k, |sorted|)
    ensures forall j :: 0 <= j < |maps| ==> RowsUpTo(maps[j].values, sorted, k, |sorted|)
  {
    forall j | 0 <= j < |maps| ensures RowsUpTo(maps[j].values, sorted, k, |sorted|) {
      if j < |init| {
        assert init[j] == maps[j];
      }
    }
  }

  /** One more map section after the first ones read back. */
  lemma MapsAtStep(mk: RawCodec.MapKind, data: seq<Byte>, pos: nat, c: Coder, vcount: Int32, arith: Arith,
                   maps: seq<AttributeData>, init: seq<AttributeData>, last: AttributeData,
                   sorted: seq<SortableVertex>, mid: nat, next: nat)
    requires maps != [] && init == maps[..|maps| - 1] && last == maps[|maps| - 1]
    requires MapRows(mk, maps, sorted)
    requires Mg2Decoder.MapsAt(mk, data, pos, c, vcount, |init|, arith) ==
      Success(CtmInput.Read(MapsReadBack(mk, init, sorted, arith), mid))
    requires RowsUpTo(last.values, sorted, RawCodec.MapSize(mk) as nat, |sorted|)
    requires Mg2Decoder.MapAt(mk, data, mid, c, vcount, arith) ==
      Success(CtmInput.Read(MapReadBack(mk, last, sorted, arith), next))
    ensures Mg2Decoder.MapsAt(mk, data, pos, c, vcount, |maps|, arith) ==
      Success(CtmInput.Read(MapsReadBack(mk, maps, sorted, arith), next))
  {
    var item := p => Mg2Decoder.MapAt(mk, data, p, c, vcount, arith);
    var prev, x := MapsReadBack(mk, init, sorted, arith), MapReadBack(mk, last, sorted, arith);
    CtmInput.RepeatedAppend(item, pos, |init|, prev, mid, x, next);
  }
  /** Maps that encode have a row for every sorted vertex. */
  lemma {:induction false} MapsBytesRows(mk: RawCodec.MapKind, c: Coder, level: Int32, maps: seq<AttributeData>,
                                         sorted: seq<SortableVertex>, arith: Arith)
    requires |sorted| < TWO_31 && RawCodec.NamesFit(maps)
    requires MapsBytes(mk, c, level, maps, sorted, arith).Success?
    ensures MapRows(mk, maps, sorted)
    decreases |maps|
  {
    if maps != [] {
      var init, last := maps[..|maps| - 1], maps[|maps| - 1];
      MapsBytesRows(mk, c, level, init, sorted, arith);
      assert MapBytes(mk, c, level, last, sorted, arith).Success?;
      RowsOfAll(RawCodec.MapSize(mk) as nat, maps, init, last, sorted);
    }
  }

  // ---------------------------------------------------------------------
  // The whole body

  /** `decode` succeeds once each of its sections reads. */
  lemma DecodeAtSteps(info: MeshInfo, data: seq<Byte>, pos: nat, c: Coder, arith: Arith, angular: Angular,
                      h: Mg2Decoder.Header, p1: nat, verts: seq<Float32>, p2: nat, ix: seq<Int32>, p3: nat,
                      norms: Option<seq<Float32>>, p4: nat, tex: seq<AttributeData>, p5: nat,
                      att: seq<AttributeData>, next: nat)
    requires Mg2Decoder.HeaderAt(data, pos) == Success(CtmInput.Read(h, p1))
    requires Mg2Decoder.VerticesAt(data, p1, c, h.grid, info.vertexCount, h.vertexPrecision, arith) ==
      Success(CtmInput.Read(verts, p2))
    requires Mg2Decoder.IndicesAt(data, p2, c, info.triangleCount, info.vertexCount) == Success(CtmInput.Read(ix, p3))
    requires Mg2Decoder.NormalsSectionAt(info, data, p3, c, verts, ix, h.normalPrecision, arith, angular) ==
      Success(CtmInput.Read(norms, p4))
    requires 0 <= info.uvMapCount && 0 <= info.attrCount
    requires Mg2Decoder.MapsAt(RawCodec.UvMap, data, p4, c, info.vertexCount, info.uvMapCount as nat, arith) ==
      Success(CtmInput.Read(tex, p5))
    requires Mg2Decoder.MapsAt(RawCodec.AttrMap, data, p5, c, info.vertexCount, info.attrCount as nat, arith) ==
      Success(CtmInput.Read(att, next))
    ensures Mg2Decoder.DecodeAt(info, data, pos, c, arith, angular) ==
      Success(CtmInput.Read(Mesh(verts, norms, ix, tex, Some(att)), next))
  {
  }
  /** The normals as the decoder gives them back: none when the mesh has none, otherwise each
      sorted vertex's normal coded and decoded against the smooth normal of the vertices and
      triangles the decoder restores. */
  function NormalsReadBack(normals: Option<seq<Float32>>, sorted: seq<SortableVertex>, vertices: seq<Float32>,
                           indices: seq<Int32>, np: Float32, arith: Arith, angular: Angular): (r: Option<seq<Float32>>)
    requires |vertices| == 3 * |sorted|
    requires normals.Some? ==> SmoothNormals(vertices, indices, arith).Success? && RowsUpTo(normals.value, sorted, 3, |sorted|)
    ensures r.Some? <==> normals.Some?
    ensures r.Some? ==> |r.value| == |vertices|
  {
    DivUnique(|vertices|, 3, |sorted|, 0);
    if normals.None? then None
    else Some(RecodedNormals(normals.value, SmoothNormals(vertices, indices, arith).value, sorted, |sorted|, np, angular))
  }

  /** The sorted vertices, the vertex table, the re-indexed triangles and the three section
      byte strings `GeometryBytes` computes on its way. */
  predicate GeometryWritten(c: Coder, level: Int32, m: Mesh, grid: Grid, vp: Float32, np: Float32, arith: Arith,
                            angular: Angular, sorted: seq<SortableVertex>, table: seq<Int32>, ix: seq<Int32>,
                            verts: seq<Byte>, ind: seq<Byte>, norm: seq<Byte>)
  {
    Shaped(grid) && Bounded(m) && sorted == Sorted(m, grid, arith) &&
    VertexTable(m.vertices, sorted, grid, vp, arith) == Success(table) &&
    VerticesBytes(c, level, table, GridIndices(sorted)) == Success(verts) &&
    ReIndexed(sorted, m.indices) == Success(ix) && |ix| % 3 == 0 &&
    IndicesBytes(c, level, ix) == Success(ind) &&
    NormalsBytes(c, level, m.normals, sorted, grid, table, ArrangedIndices(ix), vp, np, arith, angular) == Success(norm)
  }

  /** The pieces `GeometryBytes` is made of. */
  lemma GeometryParts(c: Coder, level: Int32, m: Mesh, grid: Grid, vp: Float32, np: Float32, arith: Arith,
                      angular: Angular, g: seq<Byte>)
    returns (sorted: seq<SortableVertex>, table: seq<Int32>, ix: seq<Int32>, verts: seq<Byte>, ind: seq<Byte>,
             norm: seq<Byte>)
    requires Shaped(grid) && Bounded(m) && GeometryBytes(c, level, m, grid, vp, np, arith, angular) == Success(g)
    ensures GeometryWritten(c, level, m, grid, vp, np, arith, angular, sorted, table, ix, verts, ind, norm)
    ensures g == verts + ind + norm
  {
    sorted := Sorted(m, grid, arith);
    table := VertexTable(m.vertices, sorted, grid, vp, arith).value;
    verts := VerticesBytes(c, level, table, GridIndices(sorted)).value;
    ix := ReIndexed(sorted, m.indices).value;
    ind := IndicesBytes(c, level, ix).value;
    norm := NormalsBytes(c, level, m.normals, sorted, grid, table, ArrangedIndices(ix), vp, np, arith, angular).value;
  }

  /** The VERT and GIDX sections read back as the sorted vertices snapped to their cells. */
  lemma VerticesSectionRead(data: seq<Byte>, pos: nat, c: Coder, level: Int32, m: Mesh, grid: Grid, vp: Float32,
                            np: Float32, arith: Arith, angular: Angular, sorted: seq<SortableVertex>,
                            table: seq<Int32>, ix: seq<Int32>, verts: seq<Byte>, ind: seq<Byte>, norm: seq<Byte>,
                            vcount: Int32, next: nat)
    requires Lossless(c) && GeometryWritten(c, level, m, grid, vp, np, arith, angular, sorted, table, ix, verts, ind, norm)
    requires SmallGridIndices(GridIndices(sorted))
    requires |verts| < TWO_31 && CtmInput.At(data, pos, verts) && next == pos + |verts|
    requires vcount as int == |sorted|
    ensures SnappedVertices(m.vertices, sorted, grid, vp, arith).Success?
    ensures Mg2Decoder.VerticesAt(data, pos, c, grid, vcount, vp, arith) ==
      Success(CtmInput.Read(SnappedVertices(m.vertices, sorted, grid, vp, arith).value, next))
  {
    VerticesRead(data, pos, c, level, m.vertices, sorted, grid, vp, arith, table, verts, next);
  }

  /** The INDX section reads back as the re-indexed triangles rearranged. */
  lemma IndicesSectionRead(data: seq<Byte>, pos: nat, c: Coder, level: Int32, m: Mesh, grid: Grid, vp: Float32,
                           np: Float32, arith: Arith, angular: Angular, sorted: seq<SortableVertex>,
                           table: seq<Int32>, ix: seq<Int32>, verts: seq<Byte>, ind: seq<Byte>, norm: seq<Byte>,
                           vcount: Int32, triCount: Int32, next: nat)
    requires Lossless(c) && GeometryWritten(c, level, m, grid, vp, np, arith, angular, sorted, table, ix, verts, ind, norm)
    requires |ind| < TWO_31 && CtmInput.At(data, pos, ind) && next == pos + |ind|
    requires vcount as int == |sorted| && triCount as int == |ix| / 3
    ensures Mg2Decoder.IndicesAt(data, pos, c, triCount, vcount) == Success(CtmInput.Read(ArrangedIndices(ix), next))
  {
    ReIndexedInverse(sorted, m.indices);
    IndicesRead(data, pos, c, level, ix, triCount, vcount, ind, next);
  }

  /** The NORM section, when there is one, reads back as the normals recoded against the
      snapped vertices. */
  lemma NormalsWrittenRead(info: MeshInfo, data: seq<Byte>, pos: nat, c: Coder, level: Int32, m: Mesh, grid: Grid,
                           vp: Float32, np: Float32, arith: Arith, angular: Angular, sorted: seq<SortableVertex>,
                           table: seq<Int32>, ix: seq<Int32>, verts: seq<Byte>, ind: seq<Byte>, norm: seq<Byte>,
                           next: nat)
    requires Lossless(c) && GeometryWritten(c, level, m, grid, vp, np, arith, angular, sorted, table, ix, verts, ind, norm)
    requires SmallGridIndices(GridIndices(sorted))
    requires info.vertexCount as int == |sorted| && (InfoHasNormals(info) <==> m.normals.Some?)
    requires |norm| < TWO_31 && CtmInput.At(data, pos, norm) && next == pos + |norm|
    ensures SnappedVertices(m.vertices, sorted, grid, vp, arith).Success?
    ensures m.normals.Some? ==>
      SmoothNormals(SnappedVertices(m.vertices, sorted, grid, vp, arith).value, ArrangedIndices(ix), arith).Success? &&
      RowsUpTo(m.normals.value, sorted, 3, |sorted|)
    ensures var snapped := SnappedVertices(m.vertices, sorted, grid, vp, arith).value;
      Mg2Decoder.NormalsSectionAt(info, data, pos, c, snapped, ArrangedIndices(ix), np, arith, angular) ==
      Success(CtmInput.Read(NormalsReadBack(m.normals, sorted, snapped, ArrangedIndices(ix), np, arith, angular), next))
  {
    VertexTableRestores(m.vertices, sorted, grid, vp, arith);
    var snapped := SnappedVertices(m.vertices, sorted, grid, vp, arith).value;
    NormalsSectionRead(info, data, pos, c, level, m, grid, vp, np, arith, angular, sorted, table, ArrangedIndices(ix),
                       snapped, norm, next);
  }

  /** The NORM section, when there is one, reads back as the recoded normals. */
  lemma NormalsSectionRead(info: MeshInfo, data: seq<Byte>, pos: nat, c: Coder, level: Int32, m: Mesh, grid: Grid,
                           vp: Float32, np: Float32, arith: Arith, angular: Angular, sorted: seq<SortableVertex>,
                           table: seq<Int32>, arranged: seq<Int32>, snapped: seq<Float32>, norm: seq<Byte>, next: nat)
    requires Lossless(c) && Shaped(grid) && |table| == 3 * |sorted| < TWO_31
    requires info.vertexCount as int == |sorted| && (InfoHasNormals(info) <==> m.normals.Some?)
    requires RestoredVertices(table, GridIndices(sorted), grid, vp, arith) == Success(snapped)
    requires NormalsBytes(c, level, m.normals, sorted, grid, table, arranged, vp, np, arith, angular) == Success(norm)
    requires |norm| < TWO_31 && CtmInput.At(data, pos, norm) && next == pos + |norm|
    ensures |snapped| == 3 * |sorted|
    ensures m.normals.Some? ==>
      SmoothNormals(snapped, arranged, arith).Success? && RowsUpTo(m.normals.value, sorted, 3, |sorted|)
    ensures Mg2Decoder.NormalsSectionAt(info, data, pos, c, snapped, arranged, np, arith, angular) ==
      Success(CtmInput.Read(NormalsReadBack(m.normals, sorted, snapped, arranged, np, arith, angular), next))
  {
    if m.normals.Some? {
      var normals := m.normals.value;
      assert NormalCodesBytes(c, level, snapped, normals, arranged, sorted, np, arith, angular) == Success(norm);
      var smooth := SmoothNormals(snapped, arranged, arith).value;
      NormalsRead(data, pos, c, level, normals, sorted, grid, table, arranged, vp, np, arith, angular, snapped, smooth,
                  info.vertexCount, norm, next);
    }
  }
  /** Every grid index the sorted vertices fall in is at most 2^24, where `makeVertexDeltas`
      compares them exactly (see `Mg2Deltas.SmallGridIndices`). */
  predicate SnapsExactly(m: Mesh, arith: Arith)
  {
    Bounded(m) && |m.vertices| >= 3 &&
    SmallGridIndices(GridIndices(Sorted(m, GridOf(m.vertices, arith).value, arith)))
  }

  /** What the geometry sections having encoded says about their read-back. */
  lemma GeometryFacts(c: Coder, level: Int32, m: Mesh, grid: Grid, vp: Float32, np: Float32, arith: Arith,
                      angular: Angular)
    requires Shaped(grid) && Bounded(m) && GeometryBytes(c, level, m, grid, vp, np, arith, angular).Success?
    requires SmallGridIndices(GridIndices(Sorted(m, grid, arith)))
    ensures var sorted := Sorted(m, grid, arith);
      SnappedVertices(m.vertices, sorted, grid, vp, arith).Success? &&
      ReIndexed(sorted, m.indices).Success? && |ReIndexed(sorted, m.indices).value| % 3 == 0 &&
      (m.normals.Some? ==>
         SmoothNormals(SnappedVertices(m.vertices, sorted, grid, vp, arith).value,
                       ArrangedIndices(ReIndexed(sorted, m.indices).value), arith).Success? &&
         RowsUpTo(m.normals.value, sorted, 3, |sorted|))
  {
    var sorted := Sorted(m, grid, arith);
    var g := GeometryBytes(c, level, m, grid, vp, np, arith, angular).value;
    var sorted', table, ix, verts, ind, norm := GeometryParts(c, level, m, grid, vp, np, arith, angular, g);
    VertexTableRestores(m.vertices, sorted, grid, vp, arith);
    if m.normals.Some? {
      var snapped := SnappedVertices(m.vertices, sorted, grid, vp, arith).value;
      assert NormalCodesBytes(c, level, snapped, m.normals.value, ArrangedIndices(ix), sorted, np, arith, angular).Success?;
    }
  }

  /** What the body having encoded says about its read-back. */
  lemma BodyReadBackFacts(c: Coder, level: Int32, m: Mesh, vp: Float32, np: Float32, arith: Arith, angular: Angular)
    requires SnapsExactly(m, arith) && RawCodec.NamesFit(m.texcoordinates)
    requires m.attributs.Some? ==> RawCodec.NamesFit(m.attributs.value)
    requires BodyBytes(c, level, m, vp, np, arith, angular).Success?
    ensures var grid := GridOf(m.vertices, arith).value;
      var sorted := Sorted(m, grid, arith);
      m.attributs.Some? &&
      SnappedVertices(m.vertices, sorted, grid, vp, arith).Success? &&
      ReIndexed(sorted, m.indices).Success? && |ReIndexed(sorted, m.indices).value| % 3 == 0 &&
      (m.normals.Some? ==>
         SmoothNormals(SnappedVertices(m.vertices, sorted, grid, vp, arith).value,
                       ArrangedIndices(ReIndexed(sorted, m.indices).value), arith).Success? &&
         RowsUpTo(m.normals.value, sorted, 3, |sorted|)) &&
      MapRows(RawCodec.UvMap, m.texcoordinates, sorted) && MapRows(RawCodec.AttrMap, m.attributs.value, sorted)
  {
    var grid := GridOf(m.vertices, arith).value;
    var sorted := Sorted(m, grid, arith);
    GeometryFacts(c, level, m, grid, vp, np, arith, angular);
    MapsBytesRows(RawCodec.UvMap, c, level, m.texcoordinates, sorted, arith);
    MapsBytesRows(RawCodec.AttrMap, c, level, m.attributs.value, sorted, arith);
  }

  /** The mesh `decode` gives back for the body `encode` wrote: the vertices sorted and snapped
      to their grid cells, the triangles renumbered to sorted positions and rearranged, the
      normals recoded against the smooth normals of those, and each map's names as stored and
      its values quantised to its precision, in sorted order. */
  function BodyReadBack(c: Coder, level: Int32, m: Mesh, vp: Float32, np: Float32, arith: Arith,
                        angular: Angular): (r: Mesh)
    requires SnapsExactly(m, arith) && RawCodec.NamesFit(m.texcoordinates)
    requires m.attributs.Some? ==> RawCodec.NamesFit(m.attributs.value)
    requires BodyBytes(c, level, m, vp, np, arith, angular).Success?
    ensures |r.vertices| == 3 * (|m.vertices| / 3) && |r.indices| == |m.indices|
    ensures r.normals.Some? <==> m.normals.Some?
    ensures |r.texcoordinates| == |m.texcoordinates|
    ensures m.attributs.Some? && r.attributs.Some? && |r.attributs.value| == |m.attributs.value|
  {
    var grid := GridOf(m.vertices, arith).value;
    var sorted := Sorted(m, grid, arith);
    BodyReadBackFacts(c, level, m, vp, np, arith, angular);
    var snapped := SnappedVertices(m.vertices, sorted, grid, vp, arith).value;
    var arranged := ArrangedIndices(ReIndexed(sorted, m.indices).value);
    Mesh(snapped, NormalsReadBack(m.normals, sorted, snapped, arranged, np, arith, angular), arranged,
         MapsReadBack(RawCodec.UvMap, m.texcoordinates, sorted, arith),
         Some(MapsReadBack(RawCodec.AttrMap, m.attributs.value, sorted, arith)))
  }

  /** The VERT, GIDX, INDX and NORM sections read back, one after the other. */
  lemma GeometryRead(info: MeshInfo, data: seq<Byte>, pos: nat, c: Coder, level: Int32, m: Mesh, grid: Grid,
                     vp: Float32, np: Float32, arith: Arith, angular: Angular, sorted: seq<SortableVertex>,
                     table: seq<Int32>, ix: seq<Int32>, verts: seq<Byte>, ind: seq<Byte>, norm: seq<Byte>,
                     p2: nat, p3: nat, next: nat)
    requires Lossless(c) && GeometryWritten(c, level, m, grid, vp, np, arith, angular, sorted, table, ix, verts, ind, norm)
    requires SmallGridIndices(GridIndices(sorted))
    requires |verts| < TWO_31 && |ind| < TWO_31 && |norm| < TWO_31
    requires CtmInput.At(data, pos, verts) && CtmInput.At(data, p2, ind) && CtmInput.At(data, p3, norm)
    requires p2 == pos + |verts| && p3 == p2 + |ind| && next == p3 + |norm|
    requires info.vertexCount as int == |sorted| && info.triangleCount as int == |ix| / 3
    requires InfoHasNormals(info) <==> m.normals.Some?
    ensures SnappedVertices(m.vertices, sorted, grid, vp, arith).Success?
    ensures m.normals.Some? ==>
      SmoothNormals(SnappedVertices(m.vertices, sorted, grid, vp, arith).value, ArrangedIndices(ix), arith).Success? &&
      RowsUpTo(m.normals.value, sorted, 3, |sorted|)
    ensures var snapped := SnappedVertices(m.vertices, sorted, grid, vp, arith).value;
      Mg2Decoder.VerticesAt(data, pos, c, grid, info.vertexCount, vp, arith) == Success(CtmInput.Read(snapped, p2)) &&
      Mg2Decoder.IndicesAt(data, p2, c, info.triangleCount, info.vertexCount) ==
        Success(CtmInput.Read(ArrangedIndices(ix), p3)) &&
      Mg2Decoder.NormalsSectionAt(info, data, p3, c, snapped, ArrangedIndices(ix), np, arith, angular) ==
        Success(CtmInput.Read(NormalsReadBack(m.normals, sorted, snapped, ArrangedIndices(ix), np, arith, angular), next))
  {
    VerticesSectionRead(data, pos, c, level, m, grid, vp, np, arith, angular, sorted, table, ix, verts, ind, norm,
                        info.vertexCount, p2);
    IndicesSectionRead(data, p2, c, level, m, grid, vp, np, arith, angular, sorted, table, ix, verts, ind, norm,
                       info.vertexCount, info.triangleCount, p3);
    NormalsWrittenRead(info, data, p3, c, level, m, grid, vp, np, arith, angular, sorted, table, ix, verts, ind, norm,
                       next);
  }

  /** The pieces `BodyBytes` is made of. */
  lemma BodyParts(c: Coder, level: Int32, m: Mesh, vp: Float32, np: Float32, arith: Arith, angular: Angular,
                  b: seq<Byte>) returns (grid: Grid, g: seq<Byte>, tb: seq<Byte>, ab: seq<Byte>)
    requires Bounded(m) && RawCodec.NamesFit(m.texcoordinates)
    requires m.attributs.Some? ==> RawCodec.NamesFit(m.attributs.value)
    requires BodyBytes(c, level, m, vp, np, arith, angular) == Success(b)
    ensures GridOf(m.vertices, arith) == Success(grid) && Shaped(grid) && m.attributs.Some?
    ensures GeometryBytes(c, level, m, grid, vp, np, arith, angular) == Success(g)
    ensures MapsBytes(RawCodec.UvMap, c, level, m.texcoordinates, Sorted(m, grid, arith), arith) == Success(tb)
    ensures MapsBytes(RawCodec.AttrMap, c, level, m.attributs.value, Sorted(m, grid, arith), arith) == Success(ab)
    ensures b == HeaderBytes(vp, np, grid) + g + tb + ab
  {
    grid := GridOf(m.vertices, arith).value;
    var sorted := Sorted(m, grid, arith);
    g := GeometryBytes(c, level, m, grid, vp, np, arith, angular).value;
    tb := MapsBytes(RawCodec.UvMap, c, level, m.texcoordinates, sorted, arith).value;
    ab := MapsBytes(RawCodec.AttrMap, c, level, m.attributs.value, sorted, arith).value;
  }

  /** The TEXC sections and then the ATTR sections read back. */
  lemma MapsPairRead(data: seq<Byte>, pos: nat, c: Coder, level: Int32, tex: seq<AttributeData>,
                     atts: seq<AttributeData>, sorted: seq<SortableVertex>, arith: Arith, vcount: Int32,
                     tb: seq<Byte>, ab: seq<Byte>, mid: nat, next: nat)
    requires Lossless(c) && |sorted| < TWO_31 && vcount as int == |sorted|
    requires RawCodec.NamesFit(tex) && ReadableMaps(tex) && RawCodec.NamesFit(atts) && ReadableMaps(atts)
    requires MapsBytes(RawCodec.UvMap, c, level, tex, sorted, arith) == Success(tb)
    requires MapsBytes(RawCodec.AttrMap, c, level, atts, sorted, arith) == Success(ab)
    requires |tb| < TWO_31 && |ab| < TWO_31 && CtmInput.At(data, pos, tb) && CtmInput.At(data, mid, ab)
    requires mid == pos + |tb| && next == mid + |ab|
    ensures MapRows(RawCodec.UvMap, tex, sorted)
    ensures MapRows(RawCodec.AttrMap, atts, sorted)
    ensures Mg2Decoder.MapsAt(RawCodec.UvMap, data, pos, c, vcount, |tex|, arith) ==
      Success(CtmInput.Read(MapsReadBack(RawCodec.UvMap, tex, sorted, arith), mid))
    ensures Mg2Decoder.MapsAt(RawCodec.AttrMap, data, mid, c, vcount, |atts|, arith) ==
      Success(CtmInput.Read(MapsReadBack(RawCodec.AttrMap, atts, sorted, arith), next))
  {
    MapsRead(RawCodec.UvMap, data, pos, c, level, tex, sorted, arith, vcount, tb, mid);
    MapsRead(RawCodec.AttrMap, data, mid, c, level, atts, sorted, arith, vcount, ab, next);
  }

  /** Where each section of the body starts in the data. */
  lemma BodySplit(data: seq<Byte>, pos: nat, h: seq<Byte>, verts: seq<Byte>, ind: seq<Byte>, norm: seq<Byte>,
                  tb: seq<Byte>, ab: seq<Byte>) returns (p1: nat, p2: nat, p3: nat, p4: nat, p5: nat)
    requires CtmInput.At(data, pos, h + (verts + ind + norm) + tb + ab)
    ensures CtmInput.At(data, pos, h) && p1 == pos + |h|
    ensures CtmInput.At(data, p1, verts) && p2 == p1 + |verts|
    ensures CtmInput.At(data, p2, ind) && p3 == p2 + |ind|
    ensures CtmInput.At(data, p3, norm) && p4 == p3 + |norm|
    ensures CtmInput.At(data, p4, tb) && p5 == p4 + |tb|
    ensures CtmInput.At(data, p5, ab) && pos + |h + (verts + ind + norm) + tb + ab| == p5 + |ab|
  {
    var g := verts + ind + norm;
    CtmInput.AtSplit(data, pos, h + g + tb, ab);
    CtmInput.AtSplit(data, pos, h + g, tb);
    CtmInput.AtSplit(data, pos, h, g);
    CtmInput.AtSplit(data, pos + |h|, verts + ind, norm);
    CtmInput.AtSplit(data, pos + |h|, verts, ind);
    p1, p2, p3, p4, p5 := pos + |h|, pos + |h| + |verts|, pos + |h| + |verts| + |ind|, pos + |h + g|, pos + |h + g + tb|;
  }

  /** The whole body read back from its pieces. */
  lemma BodyRead(info: MeshInfo, data: seq<Byte>, pos: nat, c: Coder, level: Int32, m: Mesh, vp: Float32,
                 np: Float32, arith: Arith, angular: Angular, grid: Grid, sorted: seq<SortableVertex>,
                 table: seq<Int32>, ix: seq<Int32>, verts: seq<Byte>, ind: seq<Byte>, norm: seq<Byte>,
                 atts: seq<AttributeData>, tb: seq<Byte>, ab: seq<Byte>, p1: nat, p2: nat, p3: nat, p4: nat,
                 p5: nat, next: nat)
    requires Lossless(c) && Grids.CheckIntegrity(grid)
    requires GeometryWritten(c, level, m, grid, vp, np, arith, angular, sorted, table, ix, verts, ind, norm)
    requires SmallGridIndices(GridIndices(sorted))
    requires RawCodec.NamesFit(m.texcoordinates) && ReadableMaps(m.texcoordinates)
    requires RawCodec.NamesFit(atts) && ReadableMaps(atts)
    requires MapsBytes(RawCodec.UvMap, c, level, m.texcoordinates, sorted, arith) == Success(tb)
    requires MapsBytes(RawCodec.AttrMap, c, level, atts, sorted, arith) == Success(ab)
    requires |verts| < TWO_31 && |ind| < TWO_31 && |norm| < TWO_31 && |tb| < TWO_31 && |ab| < TWO_31
    requires CtmInput.At(data, pos, HeaderBytes(vp, np, grid)) && p1 == pos + |HeaderBytes(vp, np, grid)|
    requires CtmInput.At(data, p1, verts) && p2 == p1 + |verts|
    requires CtmInput.At(data, p2, ind) && p3 == p2 + |ind|
    requires CtmInput.At(data, p3, norm) && p4 == p3 + |norm|
    requires CtmInput.At(data, p4, tb) && p5 == p4 + |tb|
    requires CtmInput.At(data, p5, ab) && next == p5 + |ab|
    requires info.vertexCount as int == |sorted| && info.triangleCount as int == |ix| / 3
    requires InfoHasNormals(info) <==> m.normals.Some?
    requires info.uvMapCount as int == |m.texcoordinates| && info.attrCount as int == |atts|
    ensures SnappedVertices(m.vertices, sorted, grid, vp, arith).Success?
    ensures m.normals.Some? ==>
      SmoothNormals(SnappedVertices(m.vertices, sorted, grid, vp, arith).value, ArrangedIndices(ix), arith).Success? &&
      RowsUpTo(m.normals.value, sorted, 3, |sorted|)
    ensures MapRows(RawCodec.UvMap, m.texcoordinates, sorted)
    ensures MapRows(RawCodec.AttrMap, atts, sorted)
    ensures var snapped := SnappedVertices(m.vertices, sorted, grid, vp, arith).value;
      Mg2Decoder.DecodeAt(info, data, pos, c, arith, angular) ==
      Success(CtmInput.Read(Mesh(snapped, NormalsReadBack(m.normals, sorted, snapped, ArrangedIndices(ix), np, arith, angular),
                                 ArrangedIndices(ix), MapsReadBack(RawCodec.UvMap, m.texcoordinates, sorted, arith),
                                 Some(MapsReadBack(RawCodec.AttrMap, atts, sorted, arith))), next))
  {
    HeaderRead(data, pos, vp, np, grid);
    GeometryRead(info, data, p1, c, level, m, grid, vp, np, arith, angular, sorted, table, ix, verts, ind, norm,
                 p2, p3, p4);
    MapsPairRead(data, p4, c, level, m.texcoordinates, atts, sorted, arith, info.vertexCount, tb, ab, p5, next);
    var snapped := SnappedVertices(m.vertices, sorted, grid, vp, arith).value;
    DecodeAtSteps(info, data, pos, c, arith, angular, Mg2Decoder.Header(vp, np, grid), p1, snapped, p2,
                  ArrangedIndices(ix), p3,
                  NormalsReadBack(m.normals, sorted, snapped, ArrangedIndices(ix), np, arith, angular), p4,
                  MapsReadBack(RawCodec.UvMap, m.texcoordinates, sorted, arith), p5,
                  MapsReadBack(RawCodec.AttrMap, atts, sorted, arith), next);
  }

  /** `decode` reads back what `encode` wrote: the body of an MG2 file, decoded with a mesh info
      that gives the mesh's own counts, is `BodyReadBack`, and the reading ends where the body
      does. */
  lemma BodyRoundTrip(info: MeshInfo, data: seq<Byte>, pos: nat, c: Coder, level: Int32, m: Mesh, vp: Float32,
                      np: Float32, arith: Arith, angular: Angular, b: seq<Byte>, next: nat)
    requires Lossless(c) && SnapsExactly(m, arith)
    requires RawCodec.NamesFit(m.texcoordinates) && ReadableMaps(m.texcoordinates)
    requires m.attributs.Some? ==> RawCodec.NamesFit(m.attributs.value) && ReadableMaps(m.attributs.value)
    requires BodyBytes(c, level, m, vp, np, arith, angular) == Success(b)
    requires |b| < TWO_31 && CtmInput.At(data, pos, b) && next == pos + |b|
    requires info.vertexCount as int == |m.vertices| / 3 && info.triangleCount as int == |m.indices| / 3
    requires InfoHasNormals(info) <==> m.normals.Some?
    requires info.uvMapCount as int == |m.texcoordinates|
    requires m.attributs.Some? ==> info.attrCount as int == |m.attributs.value|
    ensures Mg2Decoder.DecodeAt(info, data, pos, c, arith, angular) ==
      Success(CtmInput.Read(BodyReadBack(c, level, m, vp, np, arith, angular), next))
  {
    var grid, g, tb, ab := BodyParts(c, level, m, vp, np, arith, angular, b);
    SetupGridValid(m.vertices, arith);
    var sorted, table, ix, verts, ind, norm := GeometryParts(c, level, m, grid, vp, np, arith, angular, g);
    var h := HeaderBytes(vp, np, grid);
    var p1, p2, p3, p4, p5 := BodySplit(data, pos, h, verts, ind, norm, tb, ab);
    BodyRead(info, data, pos, c, level, m, vp, np, arith, angular, grid, sorted, table, ix, verts, ind, norm,
             m.attributs.value, tb, ab, p1, p2, p3, p4, p5, next);
  }
  // ---------------------------------------------------------------------
  // The whole file

  /** The header and the body `encode(m, comment)` writes with the MG2 encoder, and where they
      lie in the data. */
  lemma FileParts(data: seq<Byte>, pos: nat, vp: Float32, np: Float32, c: Coder, level: Int32, m: Mesh,
                  comment: Option<string>, arith: Arith, angular: Angular, b: seq<Byte>, next: nat)
    returns (body: seq<Byte>, p: nat)
    requires Bounded(m) && RawCodec.NamesFit(m.texcoordinates)
    requires m.attributs.Some? ==> RawCodec.NamesFit(m.attributs.value)
    requires Fits(comment)
    requires CtmFile.FileBytes(CtmFile.Mg2Encoder(vp, np), c, level, m, comment, arith, angular) == Success(b)
    requires |b| < TWO_31 && CtmInput.At(data, pos, b) && next == pos + |b|
    ensures m.attributs.Some? && BodyBytes(c, level, m, vp, np, arith, angular) == Success(body)
    ensures CtmInput.At(data, pos, CtmFile.FileHeaderBytes(CtmFile.Mg2Encoder(vp, np), m, comment))
    ensures p == pos + |CtmFile.FileHeaderBytes(CtmFile.Mg2Encoder(vp, np), m, comment)|
    ensures |body| < TWO_31 && CtmInput.At(data, p, body) && next == p + |body|
  {
    body := FileBytesSplit(vp, np, c, level, m, comment, arith, angular, b);
    p := PartsAt(data, pos, CtmFile.FileHeaderBytes(CtmFile.Mg2Encoder(vp, np), m, comment), body, b, next);
  }

  /** Bytes made of two parts lie in the data one part after the other. */
  lemma PartsAt(data: seq<Byte>, pos: nat, x: seq<Byte>, y: seq<Byte>, b: seq<Byte>, next: nat) returns (p: nat)
    requires b == x + y && CtmInput.At(data, pos, b) && next == pos + |b|
    ensures CtmInput.At(data, pos, x) && p == pos + |x| && CtmInput.At(data, p, y) && next == p + |y|
  {
    p := pos + |x|;
    CtmInput.AtSplit(data, pos, x, y);
  }

  /** The bytes `encode(m, comment)` writes with the MG2 encoder are the header followed by
      the MG2 body, which needs an attribute list. */
  lemma FileBytesSplit(vp: Float32, np: Float32, c: Coder, level: Int32, m: Mesh, comment: Option<string>,
                       arith: Arith, angular: Angular, b: seq<Byte>)
    returns (body: seq<Byte>)
    requires Bounded(m) && RawCodec.NamesFit(m.texcoordinates)
    requires m.attributs.Some? ==> RawCodec.NamesFit(m.attributs.value)
    requires Fits(comment)
    requires CtmFile.FileBytes(CtmFile.Mg2Encoder(vp, np), c, level, m, comment, arith, angular) == Success(b)
    ensures m.attributs.Some? && BodyBytes(c, level, m, vp, np, arith, angular) == Success(body)
    ensures b == CtmFile.FileHeaderBytes(CtmFile.Mg2Encoder(vp, np), m, comment) + body
  {
    body := BodyBytes(c, level, m, vp, np, arith, angular).value;
  }

  /** The counts and flags the header gives are the mesh's own. */
  lemma HeaderInfo(m: Mesh, info: MeshInfo)
    requires Bounded(m) && m.attributs.Some?
    requires info == MeshInfo(VertexCount(m) as Int32, TriangleCount(m) as Int32, |m.texcoordinates| as Int32,
                              |m.attributs.value| as Int32, CtmFile.Flags(m))
    ensures info.vertexCount as int == |m.vertices| / 3 && info.triangleCount as int == |m.indices| / 3
    ensures InfoHasNormals(info) <==> m.normals.Some?
    ensures info.uvMapCount as int == |m.texcoordinates| && info.attrCount as int == |m.attributs.value|
  {
    CtmFile.FlagsHaveNormals(m, info);
  }

  /** `decode()` reads back what `encode(m, comment)` wrote with the MG2 encoder: the header
      selects the MG2 decoder and gives the mesh's own counts, the body reads back as
      `BodyReadBack`, and that mesh is returned unless the reader's `checkIntegrity` refuses
      it, in which case its error is. */
  lemma FileRoundTrip(data: seq<Byte>, pos: nat, vp: Float32, np: Float32, c: Coder, level: Int32, m: Mesh,
                      comment: Option<string>, arith: Arith, angular: Angular, b: seq<Byte>, next: nat)
    requires Lossless(c) && SnapsExactly(m, arith)
    requires RawCodec.NamesFit(m.texcoordinates) && ReadableMaps(m.texcoordinates)
    requires m.attributs.Some? ==> RawCodec.NamesFit(m.attributs.value) && ReadableMaps(m.attributs.value)
    requires Fits(comment) && Counted(comment)
    requires CtmFile.FileBytes(CtmFile.Mg2Encoder(vp, np), c, level, m, comment, arith, angular) == Success(b)
    requires |b| < TWO_31 && CtmInput.At(data, pos, b) && next == pos + |b|
    ensures var r := BodyReadBack(c, level, m, vp, np, arith, angular);
      CtmFile.FileAt(data, pos, c, arith, angular) ==
      if CheckIntegrityAsWritten(r).Fail? then Failure(CheckIntegrityAsWritten(r).error)
      else Success(CtmInput.Read(r, next))
  {
    var e := CtmFile.Mg2Encoder(vp, np);
    var body, p := FileParts(data, pos, vp, np, c, level, m, comment, arith, angular, b, next);
    CtmFile.HeaderRoundTrip(data, pos, e, m, comment, p);
    CtmFile.DecoderForCodecTag(CtmFile.CodecOf(e));
    var info := MeshInfo(VertexCount(m) as Int32, TriangleCount(m) as Int32, |m.texcoordinates| as Int32,
                         |m.attributs.value| as Int32, CtmFile.Flags(m));
    HeaderInfo(m, info);
    BodyRoundTrip(info, data, p, c, level, m, vp, np, arith, angular, body, next);
    var h := CtmFile.FileHeader(RawCodec.FORMAT_VERSION, CtmFile.CodecTag(CtmFile.CodecOf(e)), info,
                                CtmInput.StoredName(comment));
    assert CtmFile.CodecOf(e) == CtmFile.Mg2;
    FileAtSteps(data, pos, c, arith, angular, h, p, BodyReadBack(c, level, m, vp, np, arith, angular), next);
  }

  /** `decode()` once the header has selected the MG2 decoder and the body has been read. */
  lemma FileAtSteps(data: seq<Byte>, pos: nat, c: Coder, arith: Arith, angular: Angular, h: CtmFile.FileHeader,
                    p: nat, r: Mesh, next: nat)
    requires CtmFile.HeaderAt(data, pos) == Success(CtmInput.Read(h, p))
    requires CtmFile.DecoderFor(h.methodTag, h.version) == Some(CtmFile.Mg2)
    requires Mg2Decoder.DecodeAt(h.info, data, p, c, arith, angular) == Success(CtmInput.Read(r, next))
    ensures CtmFile.FileAt(data, pos, c, arith, angular) ==
      if CheckIntegrityAsWritten(r).Fail? then Failure(CheckIntegrityAsWritten(r).error)
      else Success(CtmInput.Read(r, next))
  {
  }
}
