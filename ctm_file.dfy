// CtmFileReader and CtmFileWriter: the OCTM envelope around a mesh body. The
// header is the OCTM tag, the format version, the compression method's tag,
// the vertex, triangle, UV map and attribute map counts, the flags and a
// comment; the reader picks the first decoder that supports the method and
// version, checks the decoded mesh, and splits a mesh with more than 50000
// vertices into shards a Unity mesh can hold.
module CtmFile {
  import opened Machine
  import opened Wrappers
  import opened Tags
  import opened Lzma
  import opened ByteCoding
  import opened MeshData
  import opened FloatArith
  import opened CtmInput
  import opened CtmOutput
  import RawCodec
  import Mg2Decoder
  import Mg2Body
  import opened MeshSplit

  // ---------------------------------------------------------------------
  // The decoders and encoders a file may name

  /** The compression methods, in the order the reader's DECODER array tries them. */
  datatype Codec = Raw | Mg1 | Mg2

  /** `isFormatSupported(tag, version)` of each decoder. */
  predicate Supports(codec: Codec, tag: Int32, version: Int32)
  {
    match codec
    case Raw => RawCodec.IsFormatSupported(RawCodec.Raw, tag, version)
    case Mg1 => RawCodec.IsFormatSupported(RawCodec.Mg1, tag, version)
    case Mg2 => Mg2Decoder.IsFormatSupported(tag, version)
  }

  /** The tag an encoder's `getTag` returns. */
  function CodecTag(codec: Codec): Int32
  {
    match codec
    case Raw => RawCodec.Tag(RawCodec.Raw)
    case Mg1 => RawCodec.Tag(RawCodec.Mg1)
    case Mg2 => MG2_TAG
  }

  /** The `foreach` over DECODER: the first decoder that supports the method and version, if
      any does. */
  function DecoderFor(tag: Int32, version: Int32): (r: Option<Codec>)
    ensures r.Some? ==> Supports(r.value, tag, version)
    ensures r.None? <==> !Supports(Raw, tag, version) && !Supports(Mg1, tag, version) && !Supports(Mg2, tag, version)
  {
    if Supports(Raw, tag, version) then Some(Raw)
    else if Supports(Mg1, tag, version) then Some(Mg1)
    else if Supports(Mg2, tag, version) then Some(Mg2)
    else None
  }

  /** No two decoders claim the same method and version, so the order of the search does
      not matter: a decoder that supports them is the one chosen. */
  lemma DecoderForUnique(codec: Codec, tag: Int32, version: Int32)
    requires Supports(codec, tag, version)
    ensures DecoderFor(tag, version) == Some(codec)
  {
    RawCodec.FormatsExclusive(tag, version);
    Mg2Decoder.FormatsExclusive(tag, version);
  }

  /** Every encoder's tag, with format version 5, selects the matching decoder. */
  lemma DecoderForCodecTag(codec: Codec)
    ensures DecoderFor(CodecTag(codec), RawCodec.FORMAT_VERSION) == Some(codec)
  {
    TagConstants();
    assert Supports(codec, CodecTag(codec), RawCodec.FORMAT_VERSION);
    DecoderForUnique(codec, CodecTag(codec), RawCodec.FORMAT_VERSION);
  }

  // ---------------------------------------------------------------------
  // Reading a file

  /** The header `decode` reads: version, method tag, the mesh information and the comment. */
  datatype FileHeader = FileHeader(version: Int32, methodTag: Int32, info: MeshInfo, comment: string)

  /** The OCTM tag (anything else is a BadFormatException), then eight header fields read in
      order: version, method, vertex count, triangle count, UV map count, attribute map
      count, flags, comment. */
  function HeaderAt(data: seq<Byte>, pos: nat): (r: Result<Read<FileHeader>>)
    ensures r.Success? ==> IntAt(data, pos) == Success(Read(OCTM, pos + 4))
  {
    var tag :- IntAt(data, pos);
    if tag.value != OCTM then Failure(BadFormat(OCTM, tag.value))
    else
      var version :- IntAt(data, tag.next);
      var methodTag :- IntAt(data, version.next);
      var vc :- IntAt(data, methodTag.next);
      var tc :- IntAt(data, vc.next);
      var uc :- IntAt(data, tc.next);
      var ac :- IntAt(data, uc.next);
      var flags :- IntAt(data, ac.next);
      var comment :- StringAt(data, flags.next);
      Success(Read(FileHeader(version.value, methodTag.value,
                              MeshInfo(vc.value, tc.value, uc.value, ac.value, flags.value), comment.value),
                   comment.next))
  }

  /** The mesh body, read by the decoder of the chosen method. */
  function BodyAt(codec: Codec, info: MeshInfo, data: seq<Byte>, pos: nat, coder: Coder, arith: Arith,
                  angular: Angular): Result<Read<Mesh>>
  {
    match codec
    case Raw => RawCodec.DecodeAt(RawCodec.Raw, info, data, pos, coder)
    case Mg1 => RawCodec.DecodeAt(RawCodec.Mg1, info, data, pos, coder)
    case Mg2 => Mg2Decoder.DecodeAt(info, data, pos, coder, arith, angular)
  }

  /** `decode()`: the header, the body by the first decoder that supports the method (none is
      an IOException), then `checkIntegrity` as written on the mesh. A mesh it returns has
      whole triangles, finite values and no index at or past its number of floats. */
  function FileAt(data: seq<Byte>, pos: nat, coder: Coder, arith: Arith, angular: Angular): (r: Result<Read<Mesh>>)
    ensures r.Success? ==> CheckIntegrityAsWritten(r.value.value).Pass?
    ensures r.Success? ==> |r.value.value.indices| >= 3 && |r.value.value.indices| % 3 == 0 &&
                           forall i :: 0 <= i < |r.value.value.indices| ==> r.value.value.indices[i] < |r.value.value.vertices|
    ensures r.Success? ==>
              HeaderAt(data, pos).Success? &&
              DecoderFor(HeaderAt(data, pos).value.value.methodTag, HeaderAt(data, pos).value.value.version).Some?
  {
    var h :- HeaderAt(data, pos);
    var codec := DecoderFor(h.value.methodTag, h.value.version);
    if codec.None? then Failure(IOFailure)
    else
      var m :- BodyAt(codec.value, h.value.info, data, h.next, coder, arith, angular);
      var c := CheckIntegrityAsWritten(m.value);
      if c.Fail? then Failure(c.error) else Success(m)
  }

  /** The comment field after a decode: set once the header has been read through the
      comment, left as it was when the header failed. */
  function CommentAfter(data: seq<Byte>, pos: nat, before: Option<string>): Option<string>
  {
    var h := HeaderAt(data, pos);
    if h.Success? then Some(h.value.value.comment) else before
  }

  // ---------------------------------------------------------------------
  // The reader

  /** Reads the header fields in order; the stream ends where `HeaderAt` says. */
  method ReadFileHeader(input: CtmInputStream) returns (r: Result<FileHeader>)
    modifies input
    ensures Tracks(r, HeaderAt(input.data, old(input.pos)), input.pos)
  {
    var tag :- input.ReadLittleInt();
    if tag != OCTM {
      return Failure(BadFormat(OCTM, tag));
    }
    var version :- input.ReadLittleInt();
    var methodTag :- input.ReadLittleInt();
    var vc :- input.ReadLittleInt();
    var tc :- input.ReadLittleInt();
    var uc :- input.ReadLittleInt();
    var ac :- input.ReadLittleInt();
    var flags :- input.ReadLittleInt();
    var comment :- input.ReadString();
    return Success(FileHeader(version, methodTag, MeshInfo(vc, tc, uc, ac, flags), comment));
  }

  /** `md.decode(mi, input)` of the chosen decoder. */
  method DecodeBody(codec: Codec, info: MeshInfo, input: CtmInputStream, arith: Arith, angular: Angular)
    returns (r: Result<Mesh>)
    modifies input
    ensures Tracks(r, BodyAt(codec, info, input.data, old(input.pos), input.coder, arith, angular), input.pos)
  {
    match codec
    case Raw => r := RawCodec.Decode(RawCodec.Raw, info, input);
    case Mg1 => r := RawCodec.Decode(RawCodec.Mg1, info, input);
    case Mg2 => r := Mg2Decoder.Decode(info, input, arith, angular);
  }

  class CtmFileReader {
    /** The stream the reader wraps. */
    const input: CtmInputStream
    /** The comment of the header, null until it has been read. */
    var comment: Option<string>
    var decoded: bool
    /** The float operations the MG2 decoder is modelled with. */
    const arith: Arith
    const angular: Angular

    /** `CtmFileReader(Stream)`: a fresh input stream at position 0. */
    constructor (data: seq<Byte>, coder: Coder, arith: Arith, angular: Angular)
      ensures fresh(input) && input.data == data && input.pos == 0 && input.coder == coder
      ensures comment.None? && !decoded && this.arith == arith && this.angular == angular
    {
      input := new CtmInputStream(data, coder);
      comment := None;
      decoded := false;
      this.arith := arith;
      this.angular := angular;
    }

    /** The header, the chosen decoder's body and the integrity check, after the reader has
        been marked decoded. */
    method DecodeOnce() returns (r: Result<Mesh>)
      modifies this, input
      ensures decoded
      ensures Tracks(r, FileAt(input.data, old(input.pos), input.coder, arith, angular), input.pos)
      ensures comment == CommentAfter(input.data, old(input.pos), old(comment))
    {
      decoded := true;
      var h := ReadFileHeader(input);
      if h.Failure? {
        return Failure(h.error);
      }
      comment := Some(h.value.comment);
      var codec := DecoderFor(h.value.methodTag, h.value.version);
      if codec.None? {
        return Failure(IOFailure);
      }
      var m :- DecodeBody(codec.value, h.value.info, input, arith, angular);
      var c := CheckIntegrityAsWritten(m);
      if c.Fail? {
        return Failure(c.error);
      }
      return Success(m);
    }

    /** `decode()`: a second call throws and changes nothing. */
    method Decode() returns (r: Result<Mesh>)
      modifies this, input
      ensures decoded
      ensures old(decoded) ==> r == Failure(AlreadyDecoded) && comment == old(comment) && input.pos == old(input.pos)
      ensures !old(decoded) ==> Tracks(r, FileAt(input.data, old(input.pos), input.coder, arith, angular), input.pos)
      ensures !old(decoded) ==> comment == CommentAfter(input.data, old(input.pos), old(comment))
    {
      if decoded {
        return Failure(AlreadyDecoded);
      }
      r := DecodeOnce();
    }

    /** `decode(ref meshList)`: the mesh appended, or its shards when it has more than 150000
        floats; a failure leaves the list as it was, except for the shards made before a
        failing shard. */
    method DecodeInto(meshList: seq<Mesh>) returns (list: seq<Mesh>, ok: Outcome)
      modifies this, input
      ensures decoded
      ensures old(decoded) ==> ok == Fail(AlreadyDecoded) && list == meshList && comment == old(comment)
      ensures !old(decoded) ==> comment == CommentAfter(input.data, old(input.pos), old(comment))
      ensures !old(decoded) ==>
                (var f := FileAt(input.data, old(input.pos), input.coder, arith, angular);
                 (f.Failure? ==> ok == Fail(f.error) && list == meshList) &&
                 (f.Success? ==> input.pos == f.value.next &&
                                 list == meshList + Added(f.value.value).0 && ok == Added(f.value.value).1))
    {
      if decoded {
        return meshList, Fail(AlreadyDecoded);
      }
      var r := DecodeOnce();
      if r.Failure? {
        return meshList, Fail(r.error);
      }
      var m := r.value;
      if |m.vertices| > SPLIT_FLOATS {
        list, ok := SplitMesh(m, meshList);
      } else {
        list, ok := meshList + [m], Pass;
      }
    }

    /** `getFileComment`: refused before a decode, the comment (null when it was never read)
        after it. */
    method GetFileComment() returns (r: Result<Option<string>>)
      ensures !decoded ==> r == Failure(NotDecoded)
      ensures decoded ==> r == Success(comment)
    {
      if !decoded {
        return Failure(NotDecoded);
      }
      return Success(comment);
    }
  }

  // ---------------------------------------------------------------------
  // Writing a file

  /** The encoders a writer may be given; MG2 carries its vertex and normal precisions. */
  datatype Encoder = RawEncoder | Mg1Encoder | Mg2Encoder(vertexPrecision: Float32, normalPrecision: Float32)

  /** The compression method an encoder writes. */
  function CodecOf(e: Encoder): Codec
  {
    match e
    case RawEncoder => Raw
    case Mg1Encoder => Mg1
    case Mg2Encoder(_, _) => Mg2
  }

  /** The flags field: HAS_NORMAL_BIT exactly when the mesh has normals. */
  function Flags(m: Mesh): Int32
  {
    if m.normals.Some? then HAS_NORMAL_BIT else 0
  }

  /** The eight int fields of the header, in the order `encode` writes them. */
  function HeaderFields(e: Encoder, m: Mesh): (r: seq<Int32>)
    requires Bounded(m) && m.attributs.Some?
    ensures |r| == 8
  {
    [OCTM, RawCodec.FORMAT_VERSION, CodecTag(CodecOf(e)), VertexCount(m) as Int32, TriangleCount(m) as Int32,
     |m.texcoordinates| as Int32, |m.attributs.value| as Int32, Flags(m)]
  }

  /** The header `encode` writes: the eight int fields, then the comment. */
  function FileHeaderBytes(e: Encoder, m: Mesh, comment: Option<string>): seq<Byte>
    requires Bounded(m) && m.attributs.Some? && Fits(comment)
  {
    LittleEndianInts(HeaderFields(e, m)) + StringBytes(comment)
  }

  /** What the encoder writes after the header. */
  function EncodedBody(e: Encoder, coder: Coder, level: Int32, m: Mesh, arith: Arith, angular: Angular)
    : Result<seq<Byte>>
    requires Bounded(m) && RawCodec.NamesFit(m.texcoordinates)
    requires m.attributs.Some? ==> RawCodec.NamesFit(m.attributs.value)
  {
    match e
    case RawEncoder => RawCodec.BodyBytes(RawCodec.Raw, coder, level, m)
    case Mg1Encoder => RawCodec.BodyBytes(RawCodec.Mg1, coder, level, m)
    case Mg2Encoder(vp, np) => Mg2Body.BodyBytes(coder, level, m, vp, np, arith, angular)
  }

  /** `encode(m, comment)`: a mesh that fails `checkIntegrity` as written is refused before
      anything is written; otherwise the header and the encoder's body. */
  function FileBytes(e: Encoder, coder: Coder, level: Int32, m: Mesh, comment: Option<string>, arith: Arith,
                     angular: Angular): (r: Result<seq<Byte>>)
    requires Bounded(m) && RawCodec.NamesFit(m.texcoordinates)
    requires m.attributs.Some? ==> RawCodec.NamesFit(m.attributs.value)
    requires Fits(comment)
    ensures r.Success? ==> CheckIntegrityAsWritten(m).Pass?
    ensures CheckIntegrityAsWritten(m).Fail? ==> r == Failure(CheckIntegrityAsWritten(m).error)
  {
    var c := CheckIntegrityAsWritten(m);
    if c.Fail? then Failure(c.error)
    else
      var body :- EncodedBody(e, coder, level, m, arith, angular);
      Success(FileHeaderBytes(e, m, comment) + body)
  }

  /** One more header field written after those before it. */
  lemma {:induction false} FieldAppended(w0: seq<Byte>, fields: seq<Int32>, k: nat, written: seq<Byte>)
    requires k < |fields| && written == w0 + LittleEndianInts(fields[..k]) + LittleEndian(fields[k])
    ensures written == w0 + LittleEndianInts(fields[..k + 1])
  {
    LittleEndianIntsAppend(fields[..k], [fields[k]]);
    assert LittleEndianInts([fields[k]]) == LittleEndian(fields[k]) + LittleEndianInts([]);
    assert fields[..k + 1] == fields[..k] + [fields[k]];
    Associative(w0, LittleEndianInts(fields[..k]), LittleEndian(fields[k]));
  }

  /** `output.writeLittleInt(v)` for header field k, after the fields before it. */
  method WriteField(output: CtmOutputStream, v: Int32, ghost w0: seq<Byte>, ghost fields: seq<Int32>, ghost k: nat)
    requires k < |fields| && v == fields[k] && output.written == w0 + LittleEndianInts(fields[..k])
    modifies output
    ensures output.written == w0 + LittleEndianInts(fields[..k + 1])
  {
    output.WriteLittleInt(v);
    FieldAppended(w0, fields, k, output.written);
  }

  /** The header fields, each with `writeLittleInt`, then the comment with `writeString`. */
  method WriteFileHeader(e: Encoder, m: Mesh, comment: Option<string>, output: CtmOutputStream)
    requires Bounded(m) && m.attributs.Some? && Fits(comment)
    modifies output
    ensures output.written == old(output.written) + FileHeaderBytes(e, m, comment)
  {
    ghost var w0 := output.written;
    WriteHeaderFields(e, m, output);
    output.WriteString(comment);
    Associative(w0, LittleEndianInts(HeaderFields(e, m)), StringBytes(comment));
  }

  /** The eight int fields of the header. */
  method WriteHeaderFields(e: Encoder, m: Mesh, output: CtmOutputStream)
    requires Bounded(m) && m.attributs.Some?
    modifies output
    ensures output.written == old(output.written) + LittleEndianInts(HeaderFields(e, m))
  {
    ghost var w0 := output.written;
    ghost var fields := HeaderFields(e, m);
    assert fields[..0] == [];
    WriteField(output, OCTM, w0, fields, 0);
    WriteField(output, RawCodec.FORMAT_VERSION, w0, fields, 1);
    WriteField(output, CodecTag(CodecOf(e)), w0, fields, 2);
    WriteCounts(m, output, w0, fields);
    assert fields[..8] == fields;
  }

  /** The vertex, triangle, UV map and attribute map counts, then the flags. */
  method WriteCounts(m: Mesh, output: CtmOutputStream, ghost w0: seq<Byte>, ghost fields: seq<Int32>)
    requires Bounded(m) && m.attributs.Some? && |fields| == 8
    requires fields[3..] == [VertexCount(m) as Int32, TriangleCount(m) as Int32, |m.texcoordinates| as Int32,
                             |m.attributs.value| as Int32, Flags(m)]
    requires output.written == w0 + LittleEndianInts(fields[..3])
    modifies output
    ensures output.written == w0 + LittleEndianInts(fields[..8])
  {
    var flags: Int32 := 0;
    if m.normals.Some? {
      flags := HAS_NORMAL_BIT;
    }
    assert fields[3] == VertexCount(m) as Int32 && fields[4] == TriangleCount(m) as Int32 by {
      assert fields[3..][0] == fields[3] && fields[3..][1] == fields[4];
    }
    assert fields[5] == |m.texcoordinates| as Int32 && fields[6] == |m.attributs.value| as Int32 by {
      assert fields[3..][2] == fields[5] && fields[3..][3] == fields[6];
    }
    assert fields[7] == flags by {
      assert fields[3..][4] == fields[7];
    }
    WriteField(output, VertexCount(m) as Int32, w0, fields, 3);
    WriteField(output, TriangleCount(m) as Int32, w0, fields, 4);
    WriteField(output, |m.texcoordinates| as Int32, w0, fields, 5);
    WriteField(output, |m.attributs.value| as Int32, w0, fields, 6);
    WriteField(output, flags, w0, fields, 7);
  }

  /** `encoder.encode(m, output)` of the writer's encoder. */
  method EncodeBody(e: Encoder, m: Mesh, output: CtmOutputStream, arith: Arith, angular: Angular)
    returns (ok: Outcome)
    requires Bounded(m) && RawCodec.NamesFit(m.texcoordinates)
    requires m.attributs.Some? ==> RawCodec.NamesFit(m.attributs.value)
    modifies output
    ensures var b := EncodedBody(e, output.coder, output.compressionLevel, m, arith, angular);
      (ok.Pass? <==> b.Success?) &&
      (ok.Pass? ==> output.written == old(output.written) + b.value) &&
      (ok.Fail? ==> ok.error == b.error)
  {
    match e
    case RawEncoder => ok := RawCodec.Encode(RawCodec.Raw, m, output);
    case Mg1Encoder => ok := RawCodec.Encode(RawCodec.Mg1, m, output);
    case Mg2Encoder(vp, np) => ok := Mg2Body.Encode(m, vp, np, arith, angular, output);
  }

  class CtmFileWriter {
    const output: CtmOutputStream
    const encoder: Encoder
    /** The float operations the MG2 encoder is modelled with. */
    const arith: Arith
    const angular: Angular

    /** `CtmFileWriter(Stream, MeshEncoder)`: the default compression level. */
    constructor (coder: Coder, e: Encoder, arith: Arith, angular: Angular)
      ensures fresh(output) && output.written == [] && output.compressionLevel == DEFAULT_COMPRESSION_LEVEL
      ensures output.coder == coder && encoder == e && this.arith == arith && this.angular == angular
    {
      output := new CtmOutputStream(coder);
      encoder := e;
      this.arith := arith;
      this.angular := angular;
    }

    /** `CtmFileWriter(Stream, MeshEncoder, int compressionLevel)`. */
    constructor WithLevel(coder: Coder, e: Encoder, compressionLevel: Int32, arith: Arith, angular: Angular)
      ensures fresh(output) && output.written == [] && output.compressionLevel == compressionLevel
      ensures output.coder == coder && encoder == e && this.arith == arith && this.angular == angular
    {
      output := new CtmOutputStream.WithLevel(compressionLevel, coder);
      encoder := e;
      this.arith := arith;
      this.angular := angular;
    }

    /** `encode(m, comment)`: the integrity check, then the header, then the body. A mesh the
        check refuses leaves the stream as it was. */
    method Encode(m: Mesh, comment: Option<string>) returns (ok: Outcome)
      requires Bounded(m) && RawCodec.NamesFit(m.texcoordinates)
      requires m.attributs.Some? ==> RawCodec.NamesFit(m.attributs.value)
      requires Fits(comment)
      modifies output
      ensures var f := FileBytes(encoder, output.coder, output.compressionLevel, m, comment, arith, angular);
        (ok.Pass? <==> f.Success?) &&
        (ok.Pass? ==> output.written == old(output.written) + f.value) &&
        (ok.Fail? ==> ok.error == f.error)
      ensures CheckIntegrityAsWritten(m).Fail? ==> output.written == old(output.written)
    {
      var c := CheckIntegrityAsWritten(m);
      if c.Fail? {
        return c;
      }
      ghost var w0 := output.written;
      WriteFileHeader(encoder, m, comment, output);
      ok := EncodeBody(encoder, m, output, arith, angular);
      if ok.Pass? {
        Associative(w0, FileHeaderBytes(encoder, m, comment),
          EncodedBody(encoder, output.coder, output.compressionLevel, m, arith, angular).value);
      }
    }
  }

  // ---------------------------------------------------------------------
  // Reading back what the writer wrote

  /** The header a writer writes reads back as written: format version 5, the encoder's tag,
      the mesh's counts, the normals flag and the comment (null reads back as empty). */
  lemma {:induction false} HeaderRoundTrip(data: seq<Byte>, pos: nat, e: Encoder, m: Mesh, comment: Option<string>,
                                           next: nat)
    requires Bounded(m) && m.attributs.Some? && Fits(comment) && Counted(comment)
    requires At(data, pos, FileHeaderBytes(e, m, comment)) && next == pos + |FileHeaderBytes(e, m, comment)|
    ensures HeaderAt(data, pos) ==
      Success(Read(FileHeader(RawCodec.FORMAT_VERSION, CodecTag(CodecOf(e)),
                              MeshInfo(VertexCount(m) as Int32, TriangleCount(m) as Int32, |m.texcoordinates| as Int32,
                                       |m.attributs.value| as Int32, Flags(m)),
                              StoredName(comment)),
                   next))
  {
    var fields := HeaderFields(e, m);
    AtSplit(data, pos, LittleEndianInts(fields), StringBytes(comment));
    ReadStringWritten(data, pos + 32, comment, next);
    HeaderOfFields(data, pos, fields, StoredName(comment), next);
  }

  /** Eight little-endian ints starting with the magic tag, then a string, read as a header. */
  lemma {:induction false} HeaderOfFields(data: seq<Byte>, pos: nat, fields: seq<Int32>, name: string,
                                          next: nat)
    requires At(data, pos, LittleEndianInts(fields)) && |fields| == 8 && fields[0] == OCTM
    requires StringAt(data, pos + 32) == Success(Read(name, next))
    ensures HeaderAt(data, pos) ==
      Success(Read(FileHeader(fields[1], fields[2], MeshInfo(fields[3], fields[4], fields[5], fields[6], fields[7]),
                              name),
                   next))
  {
    var p1 := pos + 4;
    var p2 := p1 + 4;
    var p3 := p2 + 4;
    var p4 := p3 + 4;
    var p5 := p4 + 4;
    var p6 := p5 + 4;
    var p7 := p6 + 4;
    IntOfArrayWritten(data, pos, fields, 0, pos);
    IntOfArrayWritten(data, pos, fields, 1, p1);
    IntOfArrayWritten(data, pos, fields, 2, p2);
    IntOfArrayWritten(data, pos, fields, 3, p3);
    IntOfArrayWritten(data, pos, fields, 4, p4);
    IntOfArrayWritten(data, pos, fields, 5, p5);
    IntOfArrayWritten(data, pos, fields, 6, p6);
    IntOfArrayWritten(data, pos, fields, 7, p7);
    assert p7 + 4 == pos + 32;
  }

  /** The flags a writer writes say whether the mesh has normals. */
  lemma FlagsHaveNormals(m: Mesh, info: MeshInfo)
    requires info.flags == Flags(m)
    ensures InfoHasNormals(info) <==> m.normals.Some?
  {
  }
}
