// Four-character section tags: `CtmFileReader.getTagInt` and `unpack`, and the
// tag constants the decoders and encoders compare against.
module Tags {
  import opened Machine
  import opened Wrappers
  import opened ByteCoding

  /** `getTagInt`: the ASCII bytes of the tag, packed little-endian; anything that does not
      encode to exactly four bytes is refused. Because the file stores ints little-endian,
      a tag written with `writeLittleInt` appears in the file as its own four characters. */
  function GetTagInt(tag: string): (r: Result<Int32>)
    ensures r.Success? <==> |tag| == 4
    ensures r.Success? ==> LittleEndian(r.value) == AsciiBytes(tag)
    ensures r.Success? ==> 0 <= r.value
  {
    var chars := AsciiBytes(tag);
    if |chars| != 4 then Failure(General)
    else
      var v := chars[0] + TWO_8 * chars[1] + TWO_16 * chars[2] + TWO_24 * chars[3];
      assert Assemble(chars[0], chars[1], chars[2], chars[3]) == v;
      BytesOfAssemble(chars[0], chars[1], chars[2], chars[3]);
      Success(v)
  }

  /** `unpack`: the four bytes of the int, least significant first, read as ASCII. */
  function Unpack(tag: Int32): (s: string)
    ensures |s| == 4
  {
    AsciiString(LittleEndian(tag))
  }

  /** `unpack` inverts `getTagInt` on four-character ASCII tags. */
  lemma UnpackGetTagInt(tag: string)
    requires |tag| == 4 && IsAscii(tag)
    ensures GetTagInt(tag).Success? && Unpack(GetTagInt(tag).value) == tag
  {
    AsciiStringBytes(tag);
  }

  /** `getTagInt` inverts `unpack` on every int whose four bytes are ASCII. */
  lemma GetTagIntUnpack(v: Int32)
    requires forall k :: 0 <= k < 4 ==> ByteOf(v, k) < 128
    ensures GetTagInt(Unpack(v)) == Success(v)
  {
    var s := Unpack(v);
    assert ByteOf(v, 0) < 128 && ByteOf(v, 1) < 128 && ByteOf(v, 2) < 128 && ByteOf(v, 3) < 128;
    assert AsciiBytes(s) == LittleEndian(v);
    var r := GetTagInt(s);
    assert LittleEndian(r.value) == LittleEndian(v);
    LittleEndianRoundTrip(r.value, []);
    LittleEndianRoundTrip(v, []);
    assert LittleEndian(r.value) + [] == LittleEndian(v) + [];
  }

  // The tags of the format (CtmFileReader, MeshDecoder, RawDecoder, MG1Decoder, MG2Decoder).
  const OCTM: Int32 := 1297367887
  const RAW_TAG: Int32 := 5718354
  const MG1_TAG: Int32 := 3229517
  const MG2_TAG: Int32 := 3295053
  const MG2_HEADER_TAG: Int32 := 1211254605
  const GIDX: Int32 := 1480870215
  const INDX: Int32 := 1480871497
  const VERT: Int32 := 1414677846
  const NORM: Int32 := 1297239886
  const TEXC: Int32 := 1129858388
  const ATTR: Int32 := 1381258305

  /** Each constant is `getTagInt` of its name. */
  lemma TagConstants()
    ensures GetTagInt("OCTM") == Success(OCTM)
    ensures GetTagInt("RAW\0") == Success(RAW_TAG)
    ensures GetTagInt("MG1\0") == Success(MG1_TAG)
    ensures GetTagInt("MG2\0") == Success(MG2_TAG)
    ensures GetTagInt("MG2H") == Success(MG2_HEADER_TAG)
    ensures GetTagInt("GIDX") == Success(GIDX)
    ensures GetTagInt("INDX") == Success(INDX)
    ensures GetTagInt("VERT") == Success(VERT)
    ensures GetTagInt("NORM") == Success(NORM)
    ensures GetTagInt("TEXC") == Success(TEXC)
    ensures GetTagInt("ATTR") == Success(ATTR)
  {
  }

  /** The section tags, in the order the sections can appear. */
  const SECTION_TAGS: seq<Int32> := [MG2_HEADER_TAG, INDX, VERT, NORM, GIDX, TEXC, ATTR]

  /** No two section tags coincide, so a tag check tells every section from every other. */
  lemma SectionTagsDistinct()
    ensures forall i, j :: 0 <= i < j < |SECTION_TAGS| ==> SECTION_TAGS[i] != SECTION_TAGS[j]
  {
  }
}
