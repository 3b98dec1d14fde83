// RawDecoder/RawEncoder and the MG1 codec derived from them: the sections of
// a mesh body (INDX, VERT, NORM, TEXC per UV map, ATTR per attribute map) in
// their order. MG1 overrides only the array readers and writers, which pack
// and compress instead of writing plain little-endian words, and delta-codes
// the triangles. Each section is a specification function over the stream
// content (decoding) or the mesh (encoding), and the stream methods are
// proved to read or write exactly what those functions say.
module RawCodec {
  import opened Machine
  import opened Wrappers
  import opened Tags
  import opened ByteCoding
  import opened Lzma
  import opened MeshData
  import opened CtmInput
  import opened CtmOutput
  import Mg1Indices

  const FORMAT_VERSION: Int32 := 5

  /** The two codecs of this module; MG1 derives from RAW. */
  datatype Kind = Raw | Mg1

  function TagName(kind: Kind): string
  {
    match kind
    case Raw => "RAW\0"
    case Mg1 => "MG1\0"
  }

  /** `RAW_TAG` and `MG1_TAG`: `getTagInt` of the codec's name. */
  function Tag(kind: Kind): (r: Int32)
    ensures GetTagInt(TagName(kind)) == Success(r)
  {
    TagConstants();
    match kind
    case Raw => RAW_TAG
    case Mg1 => MG1_TAG
  }

  /** `isFormatSupported(tag, version)`: the codec's own tag and format version 5. */
  function IsFormatSupported(kind: Kind, tag: Int32, version: Int32): (r: bool)
    ensures r <==> GetTagInt(TagName(kind)) == Success(tag) && version == FORMAT_VERSION
  {
    tag == Tag(kind) && version == FORMAT_VERSION
  }

  /** No (tag, version) pair is claimed by both codecs. */
  lemma FormatsExclusive(tag: Int32, version: Int32)
    ensures !(IsFormatSupported(Raw, tag, version) && IsFormatSupported(Mg1, tag, version))
  {
    var r := Tag(Raw);
    var m := Tag(Mg1);
    assert r != m;
  }

  // ---------------------------------------------------------------------
  // Decoding: what each section reads at a stream position

  /** `checkTag(readTag, expectedTag)`: a different tag fails, naming both. */
  function CheckTag(readTag: Int32, expectedTag: Int32): (r: Outcome)
    ensures r.Pass? <==> readTag == expectedTag
    ensures r.Fail? ==> r.error == BadFormat(expectedTag, readTag)
  {
    if readTag != expectedTag then Fail(BadFormat(expectedTag, readTag)) else Pass
  }

  /** `checkTag(input.readLittleInt(), expected)`: the position after the tag. */
  function TagAt(data: seq<Byte>, pos: nat, expected: Int32): Result<nat>
  {
    var t :- IntAt(data, pos);
    var c := CheckTag(t.value, expected);
    if c.Fail? then Failure(c.error) else Success(t.next)
  }

  /** The expected tag reads back where `writeLittleInt` wrote it; any other tag fails with both
      tags named. */
  lemma TagAtWritten(data: seq<Byte>, pos: nat, written: Int32, expected: Int32)
    requires At(data, pos, LittleEndian(written))
    ensures written == expected ==> TagAt(data, pos, expected) == Success(pos + 4)
    ensures written != expected ==> TagAt(data, pos, expected) == Failure(BadFormat(expected, written))
  {
    ReadLittleIntWritten(data, pos, written);
  }

  /** `readIntArray(input, count, size, signed)`. RAW reads count*size (wrapping) ints one by one,
      none when that is not positive; MG1 reads a packed table. */
  function IntArrayAt(kind: Kind, data: seq<Byte>, pos: nat, coder: Coder,
                      count: Int32, size: Int32, signed: bool): Result<Read<seq<Int32>>>
    requires 1 <= size <= 4
  {
    match kind
    case Raw =>
      var n := Wrap32(count * size);
      IntsAt(data, pos, if n < 0 then 0 else n)
    case Mg1 => PackedIntsAt(data, pos, coder, count, size, signed)
  }

  /** `readFloatArray(input, count, size)`. RAW adds each float read to a list field that is never
      created, so it always fails: with the read's error when the first read fails, and with a
      null dereference otherwise. MG1 reads a packed table. */
  function FloatArrayAt(kind: Kind, data: seq<Byte>, pos: nat, coder: Coder,
                        count: Int32, size: Int32): Result<Read<seq<Float32>>>
    requires 1 <= size <= 4
  {
    match kind
    case Raw =>
      if Wrap32(count * size) > 0 then
        var f :- FloatAt(data, pos);
        Failure(NullReference)
      else Failure(NullReference)
    case Mg1 => PackedFloatsAt(data, pos, coder, count, size)
  }

  /** The INDX section: the tag, then triangleCount rows of 3 ints. */
  function IndicesSectionAt(kind: Kind, info: MeshInfo, data: seq<Byte>, pos: nat, coder: Coder)
    : Result<Read<seq<Int32>>>
  {
    var t :- TagAt(data, pos, INDX);
    IntArrayAt(kind, data, t, coder, info.triangleCount, 3, false)
  }

  /** The VERT section: the tag, then vertexCount*3 (wrapping) floats. */
  function VerticesSectionAt(kind: Kind, info: MeshInfo, data: seq<Byte>, pos: nat, coder: Coder)
    : Result<Read<seq<Float32>>>
  {
    var t :- TagAt(data, pos, VERT);
    FloatArrayAt(kind, data, t, coder, Wrap32(info.vertexCount * CTM_POSITION_ELEMENT_COUNT), 1)
  }

  /** The NORM section, present exactly when the header's normal flag is set. */
  function NormalsSectionAt(kind: Kind, info: MeshInfo, data: seq<Byte>, pos: nat, coder: Coder)
    : Result<Read<Option<seq<Float32>>>>
  {
    if !InfoHasNormals(info) then Success(Read(None, pos))
    else
      var t :- TagAt(data, pos, NORM);
      var n :- FloatArrayAt(kind, data, t, coder, info.vertexCount, CTM_NORMAL_ELEMENT_COUNT);
      Success(Read(Some(n.value), n.next))
  }

  /** The two kinds of map section. */
  datatype MapKind = UvMap | AttrMap

  function MapTag(mk: MapKind): Int32
  {
    match mk
    case UvMap => TEXC
    case AttrMap => ATTR
  }

  /** `readUVData` after its TEXC tag: name, material name and vertCount rows of 2 floats, with
      the standard UV precision. `readAttrData` after its ATTR tag: name and vertCount rows of 4
      floats, with no material name and the standard attribute precision. */
  function MapAt(mk: MapKind, kind: Kind, data: seq<Byte>, pos: nat, coder: Coder, vc: Int32)
    : Result<Read<AttributeData>>
  {
    var t :- TagAt(data, pos, MapTag(mk));
    var name :- StringAt(data, t);
    match mk
    case UvMap =>
      var mat :- StringAt(data, name.next);
      var values :- FloatArrayAt(kind, data, mat.next, coder, vc, CTM_UV_ELEMENT_COUNT);
      Success(Read(AttributeData(Some(name.value), Some(mat.value), STANDARD_UV_PRECISION, values.value), values.next))
    case AttrMap =>
      var values :- FloatArrayAt(kind, data, name.next, coder, vc, CTM_ATTR_ELEMENT_COUNT);
      Success(Read(AttributeData(Some(name.value), None, STANDARD_PRECISION, values.value), values.next))
  }

  /** The first k map sections of one kind, one after the other. */
  function MapsAt(mk: MapKind, kind: Kind, data: seq<Byte>, pos: nat, coder: Coder, vc: Int32, k: nat)
    : (r: Result<Read<seq<AttributeData>>>)
    ensures r.Success? ==> |r.value.value| == k
  {
    Repeated(p => MapAt(mk, kind, data, p, coder, vc), pos, k)
  }

  /** `restoreIndices(triangleCount, indices)` on a decoded index array: the first triangleCount
      triangles restored, the rest kept; more triangles than the array holds fail. */
  function RestoredIndices(triangleCount: Int32, s: seq<Int32>): (r: Result<seq<Int32>>)
    ensures r.Success? ==> |r.value| == |s|
  {
    if triangleCount <= 0 then Success(s)
    else if 3 * triangleCount > |s| then Failure(IndexOutOfRange)
    else
      var n := 3 * triangleCount;
      var head := Mg1Indices.Flatten(Mg1Indices.Restored(Mg1Indices.Tris(s[..n])));
      Success(head + s[n..])
  }

  /** `decode(minfo, input)`: the map arrays are allocated first (a negative count fails before
      anything is read), then the sections are read in order; MG1 then restores the indices. */
  function DecodeAt(kind: Kind, info: MeshInfo, data: seq<Byte>, pos: nat, coder: Coder): Result<Read<Mesh>>
  {
    if info.uvMapCount < 0 || info.attrCount < 0 then Failure(Overflow)
    else
      var ind :- IndicesSectionAt(kind, info, data, pos, coder);
      var vert :- VerticesSectionAt(kind, info, data, ind.next, coder);
      var norm :- NormalsSectionAt(kind, info, data, vert.next, coder);
      var tex :- MapsAt(UvMap, kind, data, norm.next, coder, info.vertexCount, info.uvMapCount as nat);
      var att :- MapsAt(AttrMap, kind, data, tex.next, coder, info.vertexCount, info.attrCount as nat);
      var indices :- if kind == Mg1 then RestoredIndices(info.triangleCount, ind.value) else Success(ind.value);
      Success(Read(Mesh(vert.value, norm.value, indices, tex.value, Some(att.value)), att.next))
  }

  /** The RAW float reader never returns, so no stream decodes as a RAW body. */
  lemma RawDecodeFails(info: MeshInfo, data: seq<Byte>, pos: nat, coder: Coder)
    ensures DecodeAt(Raw, info, data, pos, coder).Failure?
  {
    if info.uvMapCount >= 0 && info.attrCount >= 0 {
      var ind := IndicesSectionAt(Raw, info, data, pos, coder);
      if ind.Success? {
        assert VerticesSectionAt(Raw, info, data, ind.value.next, coder).Failure?;
      }
    }
  }

  // ---------------------------------------------------------------------
  // The decoder's methods

  /** `checkTag(input.readLittleInt(), expected)`. */
  method ReadTag(input: CtmInputStream, expected: Int32) returns (r: Result<nat>)
    modifies input
    ensures r.Success? <==> TagAt(input.data, old(input.pos), expected).Success?
    ensures r.Success? ==> r.value == input.pos == TagAt(input.data, old(input.pos), expected).value
    ensures r.Failure? ==> r.error == TagAt(input.data, old(input.pos), expected).error
  {
    var t :- input.ReadLittleInt();
    var c := CheckTag(t, expected);
    if c.Fail? {
      return Failure(c.error);
    }
    return Success(input.pos);
  }

  method ReadIntArray(kind: Kind, input: CtmInputStream, count: Int32, size: Int32, signed: bool)
    returns (r: Result<seq<Int32>>)
    requires 1 <= size <= 4
    modifies input
    ensures Tracks(r, IntArrayAt(kind, input.data, old(input.pos), input.coder, count, size, signed), input.pos)
  {
    match kind
    case Raw =>
      var length := Wrap32(count * size);
      r := input.ReadLittleIntArray(if length < 0 then 0 else length);
    case Mg1 =>
      r := input.ReadPackedInts(count, size, signed);
  }

  method ReadFloatArray(kind: Kind, input: CtmInputStream, count: Int32, size: Int32)
    returns (r: Result<seq<Float32>>)
    requires 1 <= size <= 4
    modifies input
    ensures Tracks(r, FloatArrayAt(kind, input.data, old(input.pos), input.coder, count, size), input.pos)
  {
    match kind
    case Raw =>
      var length := Wrap32(count * size);
      if length > 0 {
        var f :- input.ReadLittleFloat();
      }
      r := Failure(NullReference);
    case Mg1 =>
      r := input.ReadPackedFloats(count, size);
  }

  method ReadIndicesSection(kind: Kind, info: MeshInfo, input: CtmInputStream) returns (r: Result<seq<Int32>>)
    modifies input
    ensures Tracks(r, IndicesSectionAt(kind, info, input.data, old(input.pos), input.coder), input.pos)
  {
    var t :- ReadTag(input, INDX);
    r := ReadIntArray(kind, input, info.triangleCount, 3, false);
  }

  method ReadVerticesSection(kind: Kind, info: MeshInfo, input: CtmInputStream) returns (r: Result<seq<Float32>>)
    modifies input
    ensures Tracks(r, VerticesSectionAt(kind, info, input.data, old(input.pos), input.coder), input.pos)
  {
    var t :- ReadTag(input, VERT);
    r := ReadFloatArray(kind, input, Wrap32(info.vertexCount * CTM_POSITION_ELEMENT_COUNT), 1);
  }

  method ReadNormalsSection(kind: Kind, info: MeshInfo, input: CtmInputStream)
    returns (r: Result<Option<seq<Float32>>>)
    modifies input
    ensures Tracks(r, NormalsSectionAt(kind, info, input.data, old(input.pos), input.coder), input.pos)
  {
    if !InfoHasNormals(info) {
      return Success(None);
    }
    var t :- ReadTag(input, NORM);
    var n :- ReadFloatArray(kind, input, info.vertexCount, CTM_NORMAL_ELEMENT_COUNT);
    return Success(Some(n));
  }

  /** One map section: `checkTag` and then `readUVData` or `readAttrData`. */
  method ReadMap(mk: MapKind, kind: Kind, input: CtmInputStream, vc: Int32) returns (r: Result<AttributeData>)
    modifies input
    ensures Tracks(r, MapAt(mk, kind, input.data, old(input.pos), input.coder, vc), input.pos)
  {
    var t :- ReadTag(input, MapTag(mk));
    var name :- input.ReadString();
    match mk
    case UvMap =>
      var mat :- input.ReadString();
      var values :- ReadFloatArray(kind, input, vc, CTM_UV_ELEMENT_COUNT);
      return Success(AttributeData(Some(name), Some(mat), STANDARD_UV_PRECISION, values));
    case AttrMap =>
      var values :- ReadFloatArray(kind, input, vc, CTM_ATTR_ELEMENT_COUNT);
      return Success(AttributeData(Some(name), None, STANDARD_PRECISION, values));
  }

  /** The loop filling `tex` or `att`: count map sections, in order. */
  method ReadMaps(mk: MapKind, kind: Kind, input: CtmInputStream, vc: Int32, count: nat)
    returns (r: Result<seq<AttributeData>>)
    modifies input
    ensures Tracks(r, MapsAt(mk, kind, input.data, old(input.pos), input.coder, vc, count), input.pos)
  {
    var maps: seq<AttributeData> := [];
    ghost var item := p => MapAt(mk, kind, input.data, p, input.coder, vc);
    ghost var start := input.pos;
    for i := 0 to count
      invariant Repeated(item, start, i) == Success(Read(maps, input.pos))
    {
      var m := ReadMap(mk, kind, input, vc);
      if m.Failure? {
        RepeatedFails(item, start, i + 1, count);
        return Failure(m.error);
      }
      maps := maps + [m.value];
    }
    return Success(maps);
  }

  /** MG1's `restoreIndices(minfo.getTriangleCount(), m.indices)`, run in place on the decoded
      index array. */
  method RestoreDecodedIndices(triangleCount: Int32, indices: seq<Int32>) returns (r: Result<seq<Int32>>)
    ensures r == RestoredIndices(triangleCount, indices)
  {
    if triangleCount > 0 && 3 * triangleCount > |indices| {
      return Failure(IndexOutOfRange);
    }
    var a := new Int32[|indices|](i requires 0 <= i < |indices| => indices[i]);
    assert a[..] == indices;
    Mg1Indices.RestoreIndices(triangleCount, a);
    if triangleCount > 0 {
      var n := 3 * triangleCount;
      Mg1Indices.FlattenTris(a[..n]);
      assert a[..] == a[..n] + a[n..];
    }
    return Success(a[..]);
  }

  /** `decode(minfo, input)` of RawDecoder, or of MG1Decoder (which restores the indices of what
      the RAW section reader returns). */
  method Decode(kind: Kind, info: MeshInfo, input: CtmInputStream) returns (r: Result<Mesh>)
    modifies input
    ensures Tracks(r, DecodeAt(kind, info, input.data, old(input.pos), input.coder), input.pos)
  {
    if info.uvMapCount < 0 || info.attrCount < 0 {
      return Failure(Overflow);
    }
    var indices :- ReadIndicesSection(kind, info, input);
    var vertices :- ReadVerticesSection(kind, info, input);
    var normals :- ReadNormalsSection(kind, info, input);
    var tex :- ReadMaps(UvMap, kind, input, info.vertexCount, info.uvMapCount as nat);
    var att :- ReadMaps(AttrMap, kind, input, info.vertexCount, info.attrCount as nat);
    if kind == Mg1 {
      indices :- RestoreDecodedIndices(info.triangleCount, indices);
    }
    return Success(Mesh(vertices, normals, indices, tex, Some(att)));
  }

  // ---------------------------------------------------------------------
  // Encoding: the bytes each section writes

  /** The names a writer writes fit the int length prefix (.NET strings are shorter than 2^31). */
  predicate NamesFit(maps: seq<AttributeData>)
  {
    forall j :: 0 <= j < |maps| ==>
      Fits(maps[j].name) &&
      Fits(maps[j].materialName)
  }

  /** `writePackedInts(data, count, size, signed)`: the packed table as one compressed block;
      too little data fails, and so does a buffer too large for an int length. */
  function PackedBlock(coder: Coder, level: Int32, data: seq<Int32>, count: Int32, size: Int32, signed: bool)
    : Result<seq<Byte>>
    requires 0 <= count && 1 <= size <= 4
  {
    if |data| < count * size then Failure(General)
    else if 4 * count * size >= TWO_31 then Failure(Overflow)
    else Success(CompressedBlock(coder, level, PackedBytes(data, count, size, signed)))
  }

  /** `writeFloatArray(array, output, count, size)`: RAW writes the whole array and ignores count
      and size; MG1 writes the first count rows of size floats packed. */
  function FloatArrayBytes(kind: Kind, coder: Coder, level: Int32, a: seq<Float32>, count: Int32, size: Int32)
    : Result<seq<Byte>>
    requires 0 <= count && 1 <= size <= 4
  {
    match kind
    case Raw => Success(LittleEndianInts(FloatBits(a)))
    case Mg1 => PackedBlock(coder, level, FloatBits(a), count, size, false)
  }

  /** The words MG1 packs for an index array: the triangles rearranged, then delta-coded. */
  function Mg1IndexWords(indices: seq<Int32>): (r: seq<Int32>)
    requires |indices| % 3 == 0
    ensures |r| == |indices|
  {
    Mg1Indices.Flatten(Mg1Indices.Deltas(Mg1Indices.Arranged(Mg1Indices.Tris(indices))))
  }

  /** `writeIndicies(indices, output)`: RAW writes the ints as they are; MG1 writes the packed
      delta words of its triangles, and fails on a length that is not a multiple of three. */
  function IndicesBytes(kind: Kind, coder: Coder, level: Int32, indices: seq<Int32>): Result<seq<Byte>>
    requires |indices| < TWO_31
  {
    match kind
    case Raw => Success(LittleEndianInts(indices))
    case Mg1 =>
      if |indices| % 3 != 0 then Failure(General)
      else PackedBlock(coder, level, Mg1IndexWords(indices), |indices| / 3, 3, false)
  }

  /** The number of values per vertex of a map: 2 for UV coordinates, 4 for an attribute. */
  function MapSize(mk: MapKind): Int32
  {
    match mk
    case UvMap => CTM_UV_ELEMENT_COUNT
    case AttrMap => CTM_ATTR_ELEMENT_COUNT
  }

  /** The tag and names that open a TEXC section (tag, name, material name) or an ATTR section
      (tag, name). */
  function MapHeader(mk: MapKind, a: AttributeData): seq<Byte>
    requires Fits(a.name)
    requires Fits(a.materialName)
  {
    match mk
    case UvMap => LittleEndian(TEXC) + StringBytes(a.name) + StringBytes(a.materialName)
    case AttrMap => LittleEndian(ATTR) + StringBytes(a.name)
  }

  /** One TEXC or ATTR section: its header, then vc rows of 2 or 4 values; the precision is not
      written. */
  function MapBytes(mk: MapKind, kind: Kind, coder: Coder, level: Int32, a: AttributeData, vc: Int32)
    : Result<seq<Byte>>
    requires 0 <= vc
    requires Fits(a.name)
    requires Fits(a.materialName)
  {
    var values :- FloatArrayBytes(kind, coder, level, a.values, vc, MapSize(mk));
    Success(MapHeader(mk, a) + values)
  }

  /** The map sections of a list of maps, one after the other. */
  function MapsBytes(mk: MapKind, kind: Kind, coder: Coder, level: Int32, maps: seq<AttributeData>, vc: Int32)
    : Result<seq<Byte>>
    requires 0 <= vc && NamesFit(maps)
  {
    if maps == [] then Success([])
    else
      var init :- MapsBytes(mk, kind, coder, level, maps[..|maps| - 1], vc);
      var last :- MapBytes(mk, kind, coder, level, maps[|maps| - 1], vc);
      Success(init + last)
  }

  /** The NORM section, written exactly when the mesh has normals. */
  function NormalsBytes(kind: Kind, coder: Coder, level: Int32, m: Mesh): Result<seq<Byte>>
    requires Bounded(m)
  {
    if m.normals.None? then Success([])
    else
      var n :- FloatArrayBytes(kind, coder, level, m.normals.value, VertexCount(m), CTM_NORMAL_ELEMENT_COUNT);
      Success(LittleEndian(NORM) + n)
  }

  /** `encode(m, output)`: INDX, VERT, NORM when there are normals, a TEXC section per UV map and
      an ATTR section per attribute map; a null attribute list fails. */
  function GeometryBytes(kind: Kind, coder: Coder, level: Int32, m: Mesh): Result<seq<Byte>>
    requires Bounded(m)
  {
    var ind :- IndicesBytes(kind, coder, level, m.indices);
    var vert :- FloatArrayBytes(kind, coder, level, m.vertices, VertexCount(m) * 3, 1);
    var norm :- NormalsBytes(kind, coder, level, m);
    Success(LittleEndian(INDX) + ind + LittleEndian(VERT) + vert + norm)
  }

  function BodyBytes(kind: Kind, coder: Coder, level: Int32, m: Mesh): Result<seq<Byte>>
    requires Bounded(m) && NamesFit(m.texcoordinates)
    requires m.attributs.Some? ==> NamesFit(m.attributs.value)
  {
    var vc := VertexCount(m);
    var geometry :- GeometryBytes(kind, coder, level, m);
    var tex :- MapsBytes(UvMap, kind, coder, level, m.texcoordinates, vc);
    if m.attributs.None? then Failure(NullReference)
    else
      var att :- MapsBytes(AttrMap, kind, coder, level, m.attributs.value, vc);
      Success(geometry + tex + att)
  }

  /** Once the first j maps fail to encode, all of them fail the same way. */
  lemma {:induction false} MapsBytesFails(mk: MapKind, kind: Kind, coder: Coder, level: Int32,
                                          maps: seq<AttributeData>, vc: Int32, j: nat)
    requires 0 <= vc && NamesFit(maps) && j <= |maps|
    requires MapsBytes(mk, kind, coder, level, maps[..j], vc).Failure?
    ensures MapsBytes(mk, kind, coder, level, maps, vc) == Failure(MapsBytes(mk, kind, coder, level, maps[..j], vc).error)
  {
    var rs := seq(|maps| + 1, i requires 0 <= i <= |maps| => MapsBytes(mk, kind, coder, level, maps[..i], vc));
    forall i | 0 < i < |rs| && rs[i - 1].Failure?
      ensures rs[i] == Failure(rs[i - 1].error)
    {
      PrefixFails(mk, kind, coder, level, maps, vc, i);
    }
    FailurePersists(rs, j, |maps|);
    assert maps[..|maps|] == maps;
  }

  /** A failure to encode the first i - 1 maps is the failure to encode the first i. */
  lemma PrefixFails(mk: MapKind, kind: Kind, coder: Coder, level: Int32, maps: seq<AttributeData>, vc: Int32, i: nat)
    requires 0 <= vc && NamesFit(maps) && 0 < i <= |maps|
    requires MapsBytes(mk, kind, coder, level, maps[..i - 1], vc).Failure?
    ensures MapsBytes(mk, kind, coder, level, maps[..i], vc) ==
      Failure(MapsBytes(mk, kind, coder, level, maps[..i - 1], vc).error)
  {
    assert maps[..i][..i - 1] == maps[..i - 1];
  }

  /** Encoding the first i + 1 maps is encoding the first i and then map i. */
  lemma MapsBytesStep(mk: MapKind, kind: Kind, coder: Coder, level: Int32,
                      maps: seq<AttributeData>, vc: Int32, i: nat)
    requires 0 <= vc && NamesFit(maps) && i < |maps|
    ensures var init := MapsBytes(mk, kind, coder, level, maps[..i], vc);
      var last := MapBytes(mk, kind, coder, level, maps[i], vc);
      MapsBytes(mk, kind, coder, level, maps[..i + 1], vc) ==
        if init.Failure? then init else if last.Failure? then last else Success(init.value + last.value)
  {
    assert maps[..i + 1][..i] == maps[..i];
  }

  // ---------------------------------------------------------------------
  // The encoder's methods

  method WriteFloatArray(kind: Kind, a: seq<Float32>, count: Int32, size: Int32, output: CtmOutputStream)
    returns (ok: Outcome)
    requires 0 <= count && 1 <= size <= 4
    modifies output
    ensures var b := FloatArrayBytes(kind, output.coder, output.compressionLevel, a, count, size);
      (ok.Pass? <==> b.Success?) &&
      (ok.Pass? ==> output.written == old(output.written) + b.value) &&
      (ok.Fail? ==> ok.error == b.error)
  {
    match kind
    case Raw =>
      output.WriteLittleFloatArray(a);
      ok := Pass;
    case Mg1 =>
      ok := output.WritePackedFloats(a, count, size);
      if ok.Fail? {
        ok := if |a| < count * size then Fail(General) else Fail(Overflow);
      }
  }

  /** `writeIndicies(indices, output)`. MG1 works on a copy of the array, which it rearranges
      and delta-codes in place before packing it; the mesh's own array is left as it was. */
  method WriteIndices(kind: Kind, indices: seq<Int32>, output: CtmOutputStream) returns (ok: Outcome)
    requires |indices| < TWO_31
    modifies output
    ensures var b := IndicesBytes(kind, output.coder, output.compressionLevel, indices);
      (ok.Pass? <==> b.Success?) &&
      (ok.Pass? ==> output.written == old(output.written) + b.value) &&
      (ok.Fail? ==> ok.error == b.error)
  {
    match kind
    case Raw =>
      output.WriteLittleIntArray(indices);
      ok := Pass;
    case Mg1 =>
      var tmp := new Int32[|indices|](i requires 0 <= i < |indices| => indices[i]);
      assert tmp[..] == indices;
      ok := Mg1Indices.RearrangeTriangles(tmp);
      if ok.Fail? {
        return;
      }
      ghost var arranged := tmp[..];
      ok := Mg1Indices.MakeIndexDeltas(tmp);
      assert Mg1Indices.Tris(tmp[..]) == Mg1Indices.Deltas(Mg1Indices.Arranged(Mg1Indices.Tris(indices)));
      Mg1Indices.FlattenTris(tmp[..]);
      assert tmp[..] == Mg1IndexWords(indices);
      ok := output.WritePackedInts(tmp[..], tmp.Length / 3, 3, false);
      if ok.Fail? {
        ok := Fail(Overflow);
      }
  }

  /** The tag and names that open a map section. */
  method WriteMapHeader(mk: MapKind, a: AttributeData, output: CtmOutputStream)
    requires Fits(a.name)
    requires Fits(a.materialName)
    modifies output
    ensures output.written == old(output.written) + MapHeader(mk, a)
  {
    ghost var w0 := output.written;
    output.WriteLittleInt(MapTag(mk));
    output.WriteString(a.name);
    ghost var head := LittleEndian(MapTag(mk)) + StringBytes(a.name);
    Associative(w0, LittleEndian(MapTag(mk)), StringBytes(a.name));
    if mk == UvMap {
      output.WriteString(a.materialName);
      Associative(w0, head, StringBytes(a.materialName));
    }
  }

  /** One TEXC or ATTR section. */
  method WriteMap(mk: MapKind, kind: Kind, a: AttributeData, vc: Int32, output: CtmOutputStream)
    returns (ok: Outcome)
    requires 0 <= vc
    requires Fits(a.name)
    requires Fits(a.materialName)
    modifies output
    ensures var b := MapBytes(mk, kind, output.coder, output.compressionLevel, a, vc);
      (ok.Pass? <==> b.Success?) &&
      (ok.Pass? ==> output.written == old(output.written) + b.value) &&
      (ok.Fail? ==> ok.error == b.error)
  {
    WriteMapHeader(mk, a, output);
    ghost var w1 := output.written;
    ok := WriteFloatArray(kind, a.values, vc, MapSize(mk), output);
    ghost var b := FloatArrayBytes(kind, output.coder, output.compressionLevel, a.values, vc, MapSize(mk));
    if ok.Pass? {
      Associative(old(output.written), MapHeader(mk, a), b.value);
    }
  }

  /** The `foreach` over a list of maps. */
  method WriteMaps(mk: MapKind, kind: Kind, maps: seq<AttributeData>, vc: Int32, output: CtmOutputStream)
    returns (ok: Outcome)
    requires 0 <= vc && NamesFit(maps)
    modifies output
    ensures var b := MapsBytes(mk, kind, output.coder, output.compressionLevel, maps, vc);
      (ok.Pass? <==> b.Success?) &&
      (ok.Pass? ==> output.written == old(output.written) + b.value) &&
      (ok.Fail? ==> ok.error == b.error)
  {
    for i := 0 to |maps|
      invariant MapsBytes(mk, kind, output.coder, output.compressionLevel, maps[..i], vc).Success?
      invariant output.written ==
        old(output.written) + MapsBytes(mk, kind, output.coder, output.compressionLevel, maps[..i], vc).value
    {
      ok := WriteMap(mk, kind, maps[i], vc, output);
      MapsBytesStep(mk, kind, output.coder, output.compressionLevel, maps, vc, i);
      if ok.Fail? {
        MapsBytesFails(mk, kind, output.coder, output.compressionLevel, maps, vc, i + 1);
        return;
      }
      Associative(old(output.written), MapsBytes(mk, kind, output.coder, output.compressionLevel, maps[..i], vc).value,
                  MapBytes(mk, kind, output.coder, output.compressionLevel, maps[i], vc).value);
    }
    assert maps[..|maps|] == maps;
    ok := Pass;
  }

  /** The NORM section, when the mesh has normals. */
  method WriteNormals(kind: Kind, m: Mesh, output: CtmOutputStream) returns (ok: Outcome)
    requires Bounded(m)
    modifies output
    ensures var b := NormalsBytes(kind, output.coder, output.compressionLevel, m);
      (ok.Pass? <==> b.Success?) &&
      (ok.Pass? ==> output.written == old(output.written) + b.value) &&
      (ok.Fail? ==> ok.error == b.error)
  {
    if m.normals.None? {
      return Pass;
    }
    output.WriteLittleInt(NORM);
    ok := WriteFloatArray(kind, m.normals.value, VertexCount(m), CTM_NORMAL_ELEMENT_COUNT, output);
    if ok.Pass? {
      Associative(old(output.written), LittleEndian(NORM),
        FloatArrayBytes(kind, output.coder, output.compressionLevel, m.normals.value, VertexCount(m), CTM_NORMAL_ELEMENT_COUNT).value);
    }
  }

  /** The first part of `encode`: INDX and the indices, VERT and the vertices, then the normals. */
  method WriteGeometry(kind: Kind, m: Mesh, output: CtmOutputStream) returns (ok: Outcome)
    requires Bounded(m)
    modifies output
    ensures var b := GeometryBytes(kind, output.coder, output.compressionLevel, m);
      (ok.Pass? <==> b.Success?) &&
      (ok.Pass? ==> output.written == old(output.written) + b.value) &&
      (ok.Fail? ==> ok.error == b.error)
  {
    ghost var w0 := output.written;
    ghost var level := output.compressionLevel;
    output.WriteLittleInt(INDX);
    ok := WriteIndices(kind, m.indices, output);
    if ok.Fail? {
      return;
    }
    ghost var acc := LittleEndian(INDX) + IndicesBytes(kind, output.coder, level, m.indices).value;
    Associative(w0, LittleEndian(INDX), IndicesBytes(kind, output.coder, level, m.indices).value);
    output.WriteLittleInt(VERT);
    Associative(w0, acc, LittleEndian(VERT));
    acc := acc + LittleEndian(VERT);
    ok := WriteFloatArray(kind, m.vertices, VertexCount(m) * 3, 1, output);
    if ok.Fail? {
      return;
    }
    ghost var vert := FloatArrayBytes(kind, output.coder, level, m.vertices, VertexCount(m) * 3, 1).value;
    Associative(w0, acc, vert);
    acc := acc + vert;
    ok := WriteNormals(kind, m, output);
    if ok.Pass? {
      Associative(w0, acc, NormalsBytes(kind, output.coder, level, m).value);
    }
  }

  /** `encode(m, output)` of RawEncoder, or of MG1Encoder (which overrides the array writers). */
  method Encode(kind: Kind, m: Mesh, output: CtmOutputStream) returns (ok: Outcome)
    requires Bounded(m) && NamesFit(m.texcoordinates)
    requires m.attributs.Some? ==> NamesFit(m.attributs.value)
    modifies output
    ensures var b := BodyBytes(kind, output.coder, output.compressionLevel, m);
      (ok.Pass? <==> b.Success?) &&
      (ok.Pass? ==> output.written == old(output.written) + b.value) &&
      (ok.Fail? ==> ok.error == b.error)
  {
    var vc := VertexCount(m);
    ghost var w0 := output.written;
    ghost var level := output.compressionLevel;
    ok := WriteGeometry(kind, m, output);
    if ok.Fail? {
      return;
    }
    ghost var geometry := GeometryBytes(kind, output.coder, level, m).value;
    ok := WriteMaps(UvMap, kind, m.texcoordinates, vc, output);
    if ok.Fail? {
      return;
    }
    ghost var tex := MapsBytes(UvMap, kind, output.coder, level, m.texcoordinates, vc).value;
    Associative(w0, geometry, tex);
    if m.attributs.None? {
      return Fail(NullReference);
    }
    ok := WriteMaps(AttrMap, kind, m.attributs.value, vc, output);
    if ok.Pass? {
      Associative(w0, geometry + tex, MapsBytes(AttrMap, kind, output.coder, level, m.attributs.value, vc).value);
    }
  }
}
