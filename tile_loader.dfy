// The tile loaders of both streaming components: a loaded 3MXB file (or a 3MX manifest) is
// read with a BinaryReader — a five-byte magic, a header size, a JSON header — and then its
// resources one after the other: JPEG textures, OpenCTM meshes and raw point clouds, each
// kept in a cache by id. The header's nodes then become the parent tile's committed children,
// each holding the cached meshes and point clouds it names. The 3MX loader also gives the
// component its bounds from the new tiles' boxes.
module TileLoader {
  import opened Machine
  import opened Wrappers
  import opened FloatArith
  import opened ByteCoding
  import opened Lzma
  import opened CtmInput
  import CtmFile
  import opened MeshConversion
  import opened Culling

  // ---------------------------------------------------------------------
  // Reading the loaded stream

  /** `ReadBytes(count)` at pos (and `ReadChars(count)`, one byte per character): a negative
      count throws; otherwise up to count bytes, fewer when the stream ends first. */
  function ReadBytesAt(data: seq<Byte>, pos: nat, count: int): (r: Result<Read<seq<Byte>>>)
    ensures r.Failure? <==> count < 0
    ensures r.Failure? ==> r.error == Argument
    ensures r.Success? ==> r.value.value == BytesAt(data, pos, count) && r.value.next == pos + |r.value.value|
  {
    if count < 0 then Failure(Argument)
    else
      var b := BytesAt(data, pos, count);
      Success(Read(b, pos + |b|))
  }

  // ---------------------------------------------------------------------
  // The 3MXB envelope

  datatype Resource = Resource(kind: string, format: string, id: string, size: Int32, texture: Option<string>,
                               bbMin: seq<real>, bbMax: seq<real>)
  datatype NodeEntry = NodeEntry(id: string, bbMin: seq<real>, bbMax: seq<real>, maxScreenDiameter: real,
                                 children: seq<string>, resources: seq<string>)
  /** The header's resources and nodes. */
  datatype Header = Header(resources: seq<Resource>, nodes: seq<NodeEntry>)

  /** The magic value a 3MXB file starts with. */
  const MAGIC: seq<Byte> := AsciiBytes("3MXBO")

  /** The magic value, then the header size (a `UInt32` cast back to `int`, so a size from 2^31
      up is negative and `ReadChars` throws), then that many bytes of JSON, deserialised. A
      magic other than "3MXBO" and a zero header size are only logged. */
  function EnvelopeAt(data: seq<Byte>, parse: seq<Byte> -> Result<Header>): (r: Result<Read<Header>>)
  {
    var magic := BytesAt(data, 0, 5);
    var size :- IntAt(data, |magic|);
    var json :- ReadBytesAt(data, size.next, size.value);
    var header :- parse(json.value);
    Success(Read(header, json.next))
  }

  /** The magic value does not matter: two streams that differ only in their first five bytes
      read the same header at the same position. */
  lemma EnvelopeIgnoresMagic(data: seq<Byte>, other: seq<Byte>, parse: seq<Byte> -> Result<Header>)
    requires |data| == |other| && |data| >= 5 && data[5..] == other[5..]
    ensures EnvelopeAt(data, parse) == EnvelopeAt(other, parse)
  {
    if |data| >= 9 {
      assert data[5..9] == other[5..9];
      assert data[5..] == data[5..9] + data[9..] && other[5..] == other[5..9] + other[9..];
      assert ReadLittleEndian(data[5..]) == ReadLittleEndian(other[5..]);
      var size := ReadLittleEndian(data[5..]);
      if size >= 0 {
        var end := if 9 + size <= |data| then 9 + size else |data|;
        assert data[9..end] == data[5..][4..end - 5] == other[5..][4..end - 5] == other[9..end];
      }
    }
  }

  /** Any magic, the header's length and the header give back the parsed header, with the
      stream positioned after it; an empty header is parsed like any other. */
  lemma EnvelopeRoundTrip(magic: seq<Byte>, json: seq<Byte>, rest: seq<Byte>, parse: seq<Byte> -> Result<Header>)
    requires |magic| == 5 && |json| < TWO_31
    ensures var r := EnvelopeAt(magic + LittleEndian(|json|) + json + rest, parse);
            (parse(json).Success? <==> r.Success?) &&
            (r.Success? ==> r.value == Read(parse(json).value, 9 + |json|))
  {
    var data := magic + LittleEndian(|json|) + json + rest;
    assert data[5..] == LittleEndian(|json|) + (json + rest);
    LittleEndianRoundTrip(|json|, json + rest);
    assert data[9..9 + |json|] == json;
  }

  /** A header size of 2^31 or more makes `ReadChars` throw. */
  lemma EnvelopeHugeHeader(magic: seq<Byte>, size: int, rest: seq<Byte>, parse: seq<Byte> -> Result<Header>)
    requires |magic| == 5 && TWO_31 <= size < TWO_32
    ensures EnvelopeAt(magic + LittleEndian(Signed(size)) + rest, parse) == Failure(Argument)
  {
    var data := magic + LittleEndian(Signed(size)) + rest;
    assert data[5..] == LittleEndian(Signed(size)) + rest;
    LittleEndianRoundTrip(Signed(size), rest);
  }

  // ---------------------------------------------------------------------
  // Resource kinds

  /** The resources a loader constructs; anything else is logged and skipped. */
  datatype ResourceKind = TextureBuffer | MeshBuffer | PointCloudBuffer | Unknown

  /** The dispatch on a resource's type and format. */
  function KindOf(kind: string, format: string): ResourceKind
  {
    if kind == "textureBuffer" && format == "jpg" then TextureBuffer
    else if kind == "geometryBuffer" && format == "ctm" then MeshBuffer
    else if kind == "geometryBuffer" && format == "xyz" then PointCloudBuffer
    else Unknown
  }

  /** The type and format a known kind is written with. */
  function NamesOf(k: ResourceKind): (string, string)
    requires k != Unknown
  {
    match k
    case TextureBuffer => ("textureBuffer", "jpg")
    case MeshBuffer => ("geometryBuffer", "ctm")
    case PointCloudBuffer => ("geometryBuffer", "xyz")
  }

  /** Exactly three (type, format) pairs are known, one per kind. */
  lemma KindOfNames(kind: string, format: string)
    ensures KindOf(kind, format) != Unknown ==> NamesOf(KindOf(kind, format)) == (kind, format)
    ensures forall k :: k != Unknown ==> KindOf(NamesOf(k).0, NamesOf(k).1) == k
  {
    assert "textureBuffer" != "geometryBuffer" by { assert "textureBuffer"[0] != "geometryBuffer"[0]; }
    assert "ctm" != "xyz" by { assert "ctm"[0] != "xyz"[0]; }
  }

  // ---------------------------------------------------------------------
  // Textures

  /** NanoJPEG's result: width, height and the RGB bytes, or none. */
  datatype Image = Image(width: Int32, height: Int32, pixels: Option<seq<Byte>>)

  /** A cached texture: the 3MXB loader's raw RGB24 texture, the 3MX loader's `LoadImage` of
      the encoded bytes. */
  datatype Texture = Rgb24(width: Int32, height: Int32, pixels: seq<Byte>) | Encoded(data: seq<Byte>)

  /** The texture `ConstructTexture` caches for the bytes read, if any. The 3MXB loader keeps
      only a decoded image whose byte count is width * height * 3, in `int` arithmetic. */
  function TextureOf(variant: Variant, jpeg: seq<Byte> -> Image, bytes: seq<Byte>): (r: Option<Texture>)
    ensures variant == Unity3mx ==> r == Some(Encoded(bytes))
  {
    if variant == Unity3mx then Some(Encoded(bytes))
    else
      var image := jpeg(bytes);
      if image.pixels.Some? && |image.pixels.value| > 0 &&
         |image.pixels.value| == Wrap32(Wrap32(image.width as int * image.height) * 3)
      then Some(Rgb24(image.width, image.height, image.pixels.value))
      else None
  }

  /** Without overflow, a 3MXB texture is kept exactly when the image has pixels and three
      bytes for each of them. */
  lemma TextureOfRgb(jpeg: seq<Byte> -> Image, bytes: seq<Byte>)
    requires var image := jpeg(bytes); 0 <= image.width && 0 <= image.height && image.width as int * image.height * 3 < TWO_31
    ensures var image := jpeg(bytes);
            TextureOf(Unity3MXB, jpeg, bytes).Some? <==>
              image.pixels.Some? && 0 < |image.pixels.value| == image.width as int * image.height * 3
  {
    var image := jpeg(bytes);
    var area := image.width as int * image.height;
    assert 0 <= area <= area * 3 < TWO_31;
    assert Wrap32(Wrap32(area) * 3) == area * 3;
  }

  // ---------------------------------------------------------------------
  // The resource caches

  /** A cached mesh, with the box the resource declares. The loader never applies that box:
      `um.bounds.SetMinMax` sets a copy of the `Bounds` struct, so the engine mesh keeps the
      bounds of its own vertices. A resource whose box lacks a coordinate still throws. */
  datatype Geometry = Geometry(mesh: EngineMesh, bbMin: Vector3, bbMax: Vector3)
  /** A cached point cloud, with the box the resource declares, which is never applied either. */
  datatype Cloud = Cloud(cloud: PointCloud, bbMin: Vector3, bbMax: Vector3)

  /** The reader's position and the four dictionaries of a loader. */
  datatype Caches = Caches(pos: nat, textures: map<string, Texture>, meshes: map<string, Geometry>,
                           clouds: map<string, Cloud>, meshTextureIds: map<string, Option<string>>)

  const EMPTY_CACHES := Caches(0, map[], map[], map[], map[])

  /** What the loaders use but this model does not show: the LZMA coder and the float
      arithmetic of the OpenCTM decoder, NanoJPEG, Newtonsoft's deserialisation of the 3MXB
      header and of the 3MX manifest, and `Vector3.magnitude`. */
  datatype Decoders = Decoders(coder: Coder, arith: Arith, angular: Angular, jpeg: seq<Byte> -> Image,
                               parse: seq<Byte> -> Result<Header>, parseRoot: seq<Byte> -> Result<Manifest>,
                               magnitude: Vector3 -> real)

  /** `new Vector3(b[0], b[2], b[1])` from a JSON list: y and z swapped; a list of fewer than
      three numbers throws. */
  function SwappedBox(b: seq<real>): (r: Result<Vector3>)
    ensures r.Success? <==> |b| >= 3
  {
    if |b| < 3 then Failure(Argument) else Success(Vector3(b[0], b[2], b[1]))
  }

  /** `ConstructTexture`: nothing when the id is cached; otherwise `size` bytes are read and
      their texture, if kept, is cached. */
  function TextureStep(variant: Variant, dec: Decoders, data: seq<Byte>, c: Caches, id: string, size: Int32)
    : (r: Result<Caches>)
  {
    if id in c.textures then Success(c)
    else
      var bytes :- ReadBytesAt(data, c.pos, size);
      var t := TextureOf(variant, dec.jpeg, bytes.value);
      Success(c.(pos := bytes.next, textures := if t.Some? then c.textures[id := t.value] else c.textures))
  }

  /** `ConstructMesh`: nothing when the id is cached; otherwise the OpenCTM reader decodes a
      file from the reader's position and the engine mesh is cached. */
  function MeshStep(variant: Variant, dec: Decoders, data: seq<Byte>, c: Caches, id: string,
                    bbMin: Vector3, bbMax: Vector3): (r: Result<Caches>)
  {
    if id in c.meshes then Success(c)
    else
      var m :- CtmFile.FileAt(data, c.pos, dec.coder, dec.arith, dec.angular);
      var e :- EngineMeshOf(variant, dec.arith, m.value);
      Success(c.(pos := m.next, meshes := c.meshes[id := Geometry(e, bbMin, bbMax)]))
  }

  /** `ConstructPointCloud`: nothing when the id is cached; otherwise the point count, then
      `vertNum * 3 * 4` position bytes and `vertNum * 4` colour bytes (products in `int`
      arithmetic, a negative one throws), then the point cloud is cached. */
  function CloudStep(dec: Decoders, data: seq<Byte>, c: Caches, id: string, bbMin: Vector3, bbMax: Vector3)
    : (r: Result<Caches>)
  {
    if id in c.clouds then Success(c)
    else
      var n :- IntAt(data, c.pos);
      var positions :- ReadBytesAt(data, n.next, Wrap32(Wrap32(n.value as int * 3) * 4));
      var colors :- ReadBytesAt(data, positions.next, Wrap32(n.value as int * 4));
      var p :- PointCloudOf(dec.arith, n.value, positions.value, colors.value);
      Success(c.(pos := colors.next, clouds := c.clouds[id := Cloud(p, bbMin, bbMax)]))
  }

  /** One pass of the resource loop. A mesh resource's texture id is then added to
      `_meshTextureIdCache`, which throws when the id is already there. */
  function ResourceStep(variant: Variant, dec: Decoders, data: seq<Byte>, c: Caches, res: Resource)
    : (r: Result<Caches>)
  {
    match KindOf(res.kind, res.format)
    case TextureBuffer => TextureStep(variant, dec, data, c, res.id, res.size)
    case MeshBuffer =>
      var bbMin :- SwappedBox(res.bbMin);
      var bbMax :- SwappedBox(res.bbMax);
      var c1 :- MeshStep(variant, dec, data, c, res.id, bbMin, bbMax);
      if res.id in c1.meshTextureIds then Failure(Argument)
      else Success(c1.(meshTextureIds := c1.meshTextureIds[res.id := res.texture]))
    case PointCloudBuffer =>
      var bbMin :- SwappedBox(res.bbMin);
      var bbMax :- SwappedBox(res.bbMax);
      CloudStep(dec, data, c, res.id, bbMin, bbMax)
    case Unknown => Success(c)
  }

  /** The resource loop: every resource in turn; the first exception ends the load. */
  function ResourcesFrom(variant: Variant, dec: Decoders, data: seq<Byte>, c: Caches, rs: seq<Resource>)
    : (r: Result<Caches>)
    decreases |rs|
  {
    if rs == [] then Success(c)
    else
      var c1 :- ResourceStep(variant, dec, data, c, rs[0]);
      ResourcesFrom(variant, dec, data, c1, rs[1..])
  }

  /** Cached entries are never replaced or removed. */
  ghost predicate Grows(c: Caches, d: Caches)
  {
    (forall id :: id in c.textures ==> id in d.textures && d.textures[id] == c.textures[id]) &&
    (forall id :: id in c.meshes ==> id in d.meshes && d.meshes[id] == c.meshes[id]) &&
    (forall id :: id in c.clouds ==> id in d.clouds && d.clouds[id] == c.clouds[id]) &&
    (forall id :: id in c.meshTextureIds ==> id in d.meshTextureIds && d.meshTextureIds[id] == c.meshTextureIds[id])
  }

  /** Every id with a texture id names a cached mesh. */
  ghost predicate Linked(c: Caches)
  {
    forall id :: id in c.meshTextureIds ==> id in c.meshes
  }

  lemma TextureStepGrows(variant: Variant, dec: Decoders, data: seq<Byte>, c: Caches, id: string, size: Int32)
    requires TextureStep(variant, dec, data, c, id, size).Success?
    ensures var d := TextureStep(variant, dec, data, c, id, size).value;
            Grows(c, d) && d.meshes == c.meshes && d.meshTextureIds == c.meshTextureIds
  {
  }

  lemma MeshStepGrows(variant: Variant, dec: Decoders, data: seq<Byte>, c: Caches, id: string, bbMin: Vector3, bbMax: Vector3)
    requires MeshStep(variant, dec, data, c, id, bbMin, bbMax).Success?
    ensures var d := MeshStep(variant, dec, data, c, id, bbMin, bbMax).value;
            Grows(c, d) && id in d.meshes && d.meshTextureIds == c.meshTextureIds
  {
  }

  lemma CloudStepGrows(dec: Decoders, data: seq<Byte>, c: Caches, id: string, bbMin: Vector3, bbMax: Vector3)
    requires CloudStep(dec, data, c, id, bbMin, bbMax).Success?
    ensures var d := CloudStep(dec, data, c, id, bbMin, bbMax).value;
            Grows(c, d) && d.meshes == c.meshes && d.meshTextureIds == c.meshTextureIds
  {
  }

  /** One resource adds to the caches and keeps them linked. */
  lemma ResourceStepGrows(variant: Variant, dec: Decoders, data: seq<Byte>, c: Caches, res: Resource)
    requires ResourceStep(variant, dec, data, c, res).Success?
    ensures Grows(c, ResourceStep(variant, dec, data, c, res).value)
    ensures Linked(c) ==> Linked(ResourceStep(variant, dec, data, c, res).value)
  {
    match KindOf(res.kind, res.format)
    case TextureBuffer =>
      TextureStepGrows(variant, dec, data, c, res.id, res.size);
    case MeshBuffer =>
      var bbMin, bbMax := SwappedBox(res.bbMin).value, SwappedBox(res.bbMax).value;
      MeshStepGrows(variant, dec, data, c, res.id, bbMin, bbMax);
    case PointCloudBuffer =>
      CloudStepGrows(dec, data, c, res.id, SwappedBox(res.bbMin).value, SwappedBox(res.bbMax).value);
    case Unknown =>
  }

  /** The whole resource loop adds to the caches, and keeps them linked. */
  lemma {:induction false} ResourcesGrow(variant: Variant, dec: Decoders, data: seq<Byte>, c: Caches, rs: seq<Resource>)
    requires ResourcesFrom(variant, dec, data, c, rs).Success?
    ensures Grows(c, ResourcesFrom(variant, dec, data, c, rs).value)
    ensures Linked(c) ==> Linked(ResourcesFrom(variant, dec, data, c, rs).value)
    decreases |rs|
  {
    if rs != [] {
      var c1 := ResourceStep(variant, dec, data, c, rs[0]).value;
      ResourceStepGrows(variant, dec, data, c, rs[0]);
      ResourcesGrow(variant, dec, data, c1, rs[1..]);
    }
  }

  /** A texture or point cloud whose id is cached is skipped without reading anything. */
  lemma CachedSkipped(variant: Variant, dec: Decoders, data: seq<Byte>, c: Caches, res: Resource)
    requires KindOf(res.kind, res.format) == TextureBuffer ==> res.id in c.textures
    requires KindOf(res.kind, res.format) == PointCloudBuffer ==> res.id in c.clouds && |res.bbMin| >= 3 && |res.bbMax| >= 3
    requires KindOf(res.kind, res.format) != MeshBuffer
    ensures ResourceStep(variant, dec, data, c, res) == Success(c)
  {
  }

  /** A mesh resource whose id came before in the same file throws: its construction is
      skipped, but its texture id is added a second time. */
  lemma DuplicateMeshFails(variant: Variant, dec: Decoders, data: seq<Byte>, c: Caches, res: Resource)
    requires KindOf(res.kind, res.format) == MeshBuffer && |res.bbMin| >= 3 && |res.bbMax| >= 3
    requires res.id in c.meshTextureIds && Linked(c)
    ensures ResourceStep(variant, dec, data, c, res) == Failure(Argument)
  {
  }

  /** A mesh resource is cached with the engine mesh of the decoded file. */
  lemma MeshCached(variant: Variant, dec: Decoders, data: seq<Byte>, c: Caches, res: Resource)
    requires KindOf(res.kind, res.format) == MeshBuffer && res.id !in c.meshes
    requires ResourceStep(variant, dec, data, c, res).Success?
    ensures var m := CtmFile.FileAt(data, c.pos, dec.coder, dec.arith, dec.angular);
            m.Success? && EngineMeshOf(variant, dec.arith, m.value.value).Success? &&
            var d := ResourceStep(variant, dec, data, c, res).value;
            d.pos == m.value.next && res.id in d.meshes &&
            d.meshes[res.id].mesh == EngineMeshOf(variant, dec.arith, m.value.value).value &&
            d.meshTextureIds == c.meshTextureIds[res.id := res.texture]
  {
  }

  // ---------------------------------------------------------------------
  // Tiles

  /** What a new tile holds for one of its node's resources: a cached mesh with its texture,
      a cached point cloud, or (in the 3MX loader, which makes a game object for every
      resource) an empty drawable. */
  datatype Drawable = MeshDrawable(geometry: Geometry, texture: Option<Texture>) | PointDrawable(cloud: Cloud) | EmptyDrawable

  /** A committed child as the loader builds it: its id, bounding sphere and box, the screen
      diameter from which its children are wanted, their files, and what it draws. */
  datatype Tile = Tile(id: string, sphere: TileBoundingSphere, bbMin: Vector3, bbMax: Vector3,
                       maxScreenDiameter: real, childrenFiles: seq<string>, drawables: seq<Drawable>)

  /** The texture of a cached mesh: through its texture id, when it has one and that
      texture was kept. */
  function TextureFor(c: Caches, id: string): Option<Texture>
  {
    if id in c.meshTextureIds && c.meshTextureIds[id].Some? && c.meshTextureIds[id].value in c.textures
    then Some(c.textures[c.meshTextureIds[id].value])
    else None
  }

  /** The drawables of a node's resources, a mesh first, then a point cloud. */
  function DrawablesOf(variant: Variant, c: Caches, ids: seq<string>): (r: seq<Drawable>)
    decreases |ids|
  {
    if ids == [] then []
    else
      var id := ids[0];
      var d :=
        if id in c.meshes then [MeshDrawable(c.meshes[id], TextureFor(c, id))]
        else if id in c.clouds then [PointDrawable(c.clouds[id])]
        else if variant == Unity3mx then [EmptyDrawable]
        else [];
      d + DrawablesOf(variant, c, ids[1..])
  }

  /** The number of ids with a cached mesh or point cloud. */
  function Found(c: Caches, ids: seq<string>): nat
    decreases |ids|
  {
    if ids == [] then 0
    else (if ids[0] in c.meshes || ids[0] in c.clouds then 1 else 0) + Found(c, ids[1..])
  }

  /** The 3MX loader gives a tile one drawable per resource, the 3MXB loader one per cached
      resource; every drawable of a mesh carries that cached mesh. */
  lemma {:induction false} DrawablesCount(variant: Variant, c: Caches, ids: seq<string>)
    ensures |DrawablesOf(variant, c, ids)| == if variant == Unity3mx then |ids| else Found(c, ids)
    ensures variant == Unity3MXB ==> forall d :: d in DrawablesOf(variant, c, ids) ==> !d.EmptyDrawable?
    ensures forall d :: d in DrawablesOf(variant, c, ids) && d.MeshDrawable? ==>
              exists id :: id in c.meshes && c.meshes[id] == d.geometry
    decreases |ids|
  {
    if ids != [] {
      DrawablesCount(variant, c, ids[1..]);
    }
  }

  /** The centre of a box: `(BBMax + BBMin) / 2`. */
  function Midpoint(a: Vector3, b: Vector3): Vector3
  {
    Vector3((a.x + b.x) / 2.0, (a.y + b.y) / 2.0, (a.z + b.z) / 2.0)
  }

  function Minus(a: Vector3, b: Vector3): Vector3
  {
    Vector3(a.x - b.x, a.y - b.y, a.z - b.z)
  }

  /** The tile of a header node: its box from the node's lists, y and z swapped, and the sphere
      around that box. */
  function TileOf(variant: Variant, dec: Decoders, c: Caches, node: NodeEntry): (r: Result<Tile>)
    ensures r.Success? <==> |node.bbMin| >= 3 && |node.bbMax| >= 3
  {
    var bbMin :- SwappedBox(node.bbMin);
    var bbMax :- SwappedBox(node.bbMax);
    var sphere := TileBoundingSphere(Midpoint(bbMax, bbMin), dec.magnitude(Minus(bbMax, bbMin)) / 2.0);
    Success(Tile(node.id, sphere, bbMin, bbMax, node.maxScreenDiameter, node.children,
                 DrawablesOf(variant, c, node.resources)))
  }

  /** The node loop: the tiles made before the first node that throws, and that exception. */
  function TilesFrom(variant: Variant, dec: Decoders, c: Caches, nodes: seq<NodeEntry>): (r: (seq<Tile>, Outcome))
    ensures |r.0| <= |nodes|
    ensures r.1.Pass? <==> |r.0| == |nodes|
    decreases |nodes|
  {
    if nodes == [] then ([], Pass)
    else
      var t := TileOf(variant, dec, c, nodes[0]);
      if t.Failure? then ([], Fail(t.error))
      else
        var rest := TilesFrom(variant, dec, c, nodes[1..]);
        ([t.value] + rest.0, rest.1)
  }

  /** Tile i is the tile of node i, with the node's id, files and screen diameter. */
  lemma {:induction false} TilesFromAt(variant: Variant, dec: Decoders, c: Caches, nodes: seq<NodeEntry>, i: nat)
    requires i < |TilesFrom(variant, dec, c, nodes).0|
    ensures TileOf(variant, dec, c, nodes[i]) == Success(TilesFrom(variant, dec, c, nodes).0[i])
    ensures var t := TilesFrom(variant, dec, c, nodes).0[i];
            t.id == nodes[i].id && t.childrenFiles == nodes[i].children &&
            t.maxScreenDiameter == nodes[i].maxScreenDiameter
    decreases |nodes|
  {
    if i > 0 {
      TilesFromAt(variant, dec, c, nodes[1..], i - 1);
    }
  }

  // ---------------------------------------------------------------------
  // The component's bounds

  /** Unity's `Bounds` by its corners. */
  datatype Bounds = Bounds(min: Vector3, max: Vector3)

  /** Coordinate k of a point. */
  function Axis(p: Vector3, k: nat): real
  {
    if k == 0 then p.x else if k == 1 then p.y else p.z
  }

  function Lesser(a: real, b: real): real { if a < b then a else b }
  function Greater(a: real, b: real): real { if a > b then a else b }

  /** `Bounds.Encapsulate(point)`: the corners moved out just far enough to take the point in. */
  function Encapsulate(b: Bounds, p: Vector3): (r: Bounds)
    ensures forall k :: 0 <= k < 3 ==>
              Axis(r.min, k) == Lesser(Axis(b.min, k), Axis(p, k)) && Axis(r.max, k) == Greater(Axis(b.max, k), Axis(p, k))
  {
    Bounds(Vector3(Lesser(b.min.x, p.x), Lesser(b.min.y, p.y), Lesser(b.min.z, p.z)),
           Vector3(Greater(b.max.x, p.x), Greater(b.max.y, p.y), Greater(b.max.z, p.z)))
  }

  /** `new Bounds(center, size)`: corners at center -+ size / 2. */
  function Centered(center: Vector3, size: Vector3): Bounds
  {
    Bounds(Vector3(center.x - size.x / 2.0, center.y - size.y / 2.0, center.z - size.z / 2.0),
           Vector3(center.x + size.x / 2.0, center.y + size.y / 2.0, center.z + size.z / 2.0))
  }

  /** The first child's box, built from its centre and size, is its own box. */
  lemma CenteredBox(a: Vector3, b: Vector3)
    ensures Centered(Midpoint(b, a), Minus(b, a)) == Bounds(a, b)
  {
  }

  /** The `foreach` over the committed children: both corners of each, in order. */
  function EncapsulateAll(b: Bounds, tiles: seq<Tile>): Bounds
    decreases |tiles|
  {
    if tiles == [] then b
    else EncapsulateAll(Encapsulate(Encapsulate(b, tiles[0].bbMin), tiles[0].bbMax), tiles[1..])
  }

  /** The bounds the 3MX loader gives its component: the first child's box grown by every
      child's corners. */
  function MergedBounds(tiles: seq<Tile>): Bounds
    requires |tiles| > 0
  {
    EncapsulateAll(Centered(Midpoint(tiles[0].bbMax, tiles[0].bbMin), Minus(tiles[0].bbMax, tiles[0].bbMin)), tiles)
  }

  predicate Encloses(b: Bounds, p: Vector3)
  {
    forall k :: 0 <= k < 3 ==> Axis(b.min, k) <= Axis(p, k) <= Axis(b.max, k)
  }

  /** Coordinate k of some tile's corner is v. */
  ghost predicate CornerValue(tiles: seq<Tile>, k: nat, v: real)
  {
    exists i :: 0 <= i < |tiles| && (v == Axis(tiles[i].bbMin, k) || v == Axis(tiles[i].bbMax, k))
  }

  /** Encapsulating never lets go of a point already enclosed. */
  lemma {:induction false} EncapsulateAllKeeps(b: Bounds, tiles: seq<Tile>, p: Vector3)
    requires Encloses(b, p)
    ensures Encloses(EncapsulateAll(b, tiles), p)
    decreases |tiles|
  {
    if tiles != [] {
      EncapsulateAllKeeps(Encapsulate(Encapsulate(b, tiles[0].bbMin), tiles[0].bbMax), tiles[1..], p);
    }
  }

  /** Encapsulating takes in both corners of every tile. */
  lemma {:induction false} EncapsulateAllTakesIn(b: Bounds, tiles: seq<Tile>)
    ensures forall i :: 0 <= i < |tiles| ==>
              Encloses(EncapsulateAll(b, tiles), tiles[i].bbMin) && Encloses(EncapsulateAll(b, tiles), tiles[i].bbMax)
    decreases |tiles|
  {
    if tiles != [] {
      var b1 := Encapsulate(Encapsulate(b, tiles[0].bbMin), tiles[0].bbMax);
      EncapsulateAllTakesIn(b1, tiles[1..]);
      EncapsulateAllKeeps(b1, tiles[1..], tiles[0].bbMin);
      EncapsulateAllKeeps(b1, tiles[1..], tiles[0].bbMax);
      forall i | 1 <= i < |tiles|
        ensures Encloses(EncapsulateAll(b, tiles), tiles[i].bbMin) && Encloses(EncapsulateAll(b, tiles), tiles[i].bbMax)
      {
        assert tiles[i] == tiles[1..][i - 1];
      }
    }
  }

  /** Face k of a box, its lower one or its upper one. */
  function Face(b: Bounds, k: nat, upper: bool): real
  {
    if upper then Axis(b.max, k) else Axis(b.min, k)
  }

  /** Encapsulating moves a face only to the coordinate of some tile's corner. */
  lemma {:induction false} EncapsulateAllFaces(b: Bounds, tiles: seq<Tile>, k: nat, upper: bool)
    requires k < 3
    ensures Face(EncapsulateAll(b, tiles), k, upper) == Face(b, k, upper) ||
            CornerValue(tiles, k, Face(EncapsulateAll(b, tiles), k, upper))
    decreases |tiles|
  {
    if tiles != [] {
      var b1 := Encapsulate(Encapsulate(b, tiles[0].bbMin), tiles[0].bbMax);
      var v := Face(EncapsulateAll(b, tiles), k, upper);
      EncapsulateAllFaces(b1, tiles[1..], k, upper);
      if CornerValue(tiles[1..], k, v) {
        var i :| 0 <= i < |tiles[1..]| && (v == Axis(tiles[1..][i].bbMin, k) || v == Axis(tiles[1..][i].bbMax, k));
        assert tiles[1..][i] == tiles[i + 1];
      } else if v != Face(b, k, upper) {
        assert v == Face(b1, k, upper);
        assert v == Axis(tiles[0].bbMin, k) || v == Axis(tiles[0].bbMax, k);
      }
    }
  }

  /** The merged bounds are the smallest box holding every child's corners: each corner lies
      in it, and each of its faces lies on a corner. */
  lemma MergedBoundsTightest(tiles: seq<Tile>)
    requires |tiles| > 0
    ensures forall i :: 0 <= i < |tiles| ==>
              Encloses(MergedBounds(tiles), tiles[i].bbMin) && Encloses(MergedBounds(tiles), tiles[i].bbMax)
    ensures forall k :: 0 <= k < 3 ==>
              CornerValue(tiles, k, Axis(MergedBounds(tiles).min, k)) && CornerValue(tiles, k, Axis(MergedBounds(tiles).max, k))
  {
    var b := Centered(Midpoint(tiles[0].bbMax, tiles[0].bbMin), Minus(tiles[0].bbMax, tiles[0].bbMin));
    CenteredBox(tiles[0].bbMin, tiles[0].bbMax);
    EncapsulateAllTakesIn(b, tiles);
    forall k | 0 <= k < 3
      ensures CornerValue(tiles, k, Axis(MergedBounds(tiles).min, k)) && CornerValue(tiles, k, Axis(MergedBounds(tiles).max, k))
    {
      EncapsulateAllFaces(b, tiles, k, false);
      EncapsulateAllFaces(b, tiles, k, true);
      assert Face(b, k, false) == Axis(tiles[0].bbMin, k) && Face(b, k, true) == Axis(tiles[0].bbMax, k);
    }
  }

  /** The bounds block of the 3MX loader: the first child's centre and size, then every
      child's two corners encapsulated in turn. */
  method MergeBounds(tiles: seq<Tile>) returns (b: Bounds)
    requires |tiles| > 0
    ensures b == MergedBounds(tiles)
  {
    var center := Midpoint(tiles[0].bbMax, tiles[0].bbMin);
    var size := Minus(tiles[0].bbMax, tiles[0].bbMin);
    b := Centered(center, size);
    ghost var b0 := b;
    var i := 0;
    while i < |tiles|
      invariant i <= |tiles|
      invariant EncapsulateAll(b0, tiles) == EncapsulateAll(b, tiles[i..])
    {
      assert tiles[i..][1..] == tiles[i + 1..];
      b := Encapsulate(b, tiles[i].bbMin);
      b := Encapsulate(b, tiles[i].bbMax);
      i := i + 1;
    }
  }

  // ---------------------------------------------------------------------
  // The 3MX manifest

  /** A layer of a 3MX manifest: its id and the file of its root tile. */
  datatype Layer = Layer(id: string, root: string)
  datatype Manifest = Manifest(layers: seq<Layer>)

  /** The tile a 3MX manifest adds: the first layer, no box, a sphere of radius 1e30 around
      the origin, a screen diameter of 0, and the layer's root file as its only child file. */
  function RootTile(layer: Layer): Tile
  {
    Tile(layer.id, TileBoundingSphere(Vector3(0.0, 0.0, 0.0), 1000000000000000000000000000000.0),
         Vector3(0.0, 0.0, 0.0), Vector3(0.0, 0.0, 0.0), 0.0, [layer.root], [])
  }

  function UpperAscii(c: char): char
  {
    if 'a' <= c <= 'z' then (c as int - 32) as char else c
  }

  /** `EndsWith(suffix, OrdinalIgnoreCase)` for an ASCII suffix. */
  predicate EndsWithIgnoreCase(s: string, suffix: string)
  {
    |suffix| <= |s| &&
    forall i :: 0 <= i < |suffix| ==> UpperAscii(s[|s| - |suffix| + i]) == UpperAscii(suffix[i])
  }

  // ---------------------------------------------------------------------
  // The loader

  /** What a load leaves: the parent's committed children, the bounds given to the
      component (if any), and the exception that ended the load (if any). */
  datatype LoadResult = LoadResult(committed: seq<Tile>, bounds: Option<Bounds>, outcome: Outcome)

  /** A loader's reader and dictionaries while it reads one file. */
  class Loader {
    const variant: Variant
    const dec: Decoders
    const data: seq<Byte>
    var pos: nat
    var textures: map<string, Texture>
    var meshes: map<string, Geometry>
    var clouds: map<string, Cloud>
    var meshTextureIds: map<string, Option<string>>

    function State(): Caches
      reads this
    {
      Caches(pos, textures, meshes, clouds, meshTextureIds)
    }

    /** The loader's outcome and state are those of the step's specification. */
    predicate Follows(r: Outcome, s: Result<Caches>)
      reads this
    {
      (s.Success? ==> r.Pass? && State() == s.value) && (s.Failure? ==> r == Fail(s.error))
    }

    /** A loader with empty dictionaries, reading from `pos`. */
    constructor (variant: Variant, dec: Decoders, data: seq<Byte>, pos: nat)
      ensures this.variant == variant && this.dec == dec && this.data == data
      ensures State() == EMPTY_CACHES.(pos := pos)
    {
      this.variant := variant;
      this.dec := dec;
      this.data := data;
      this.pos := pos;
      textures := map[];
      meshes := map[];
      clouds := map[];
      meshTextureIds := map[];
    }

    method ConstructTexture(id: string, size: Int32) returns (r: Outcome)
      modifies this
      ensures Follows(r, TextureStep(variant, dec, data, old(State()), id, size))
    {
      if id !in textures {
        var bytes := ReadBytesAt(data, pos, size);
        if bytes.Failure? {
          return Fail(bytes.error);
        }
        pos := bytes.value.next;
        var t := TextureOf(variant, dec.jpeg, bytes.value.value);
        if t.Some? {
          textures := textures[id := t.value];
        }
      }
      r := Pass;
    }

    method ConstructMesh(id: string, bbMin: Vector3, bbMax: Vector3) returns (r: Outcome)
      modifies this
      ensures Follows(r, MeshStep(variant, dec, data, old(State()), id, bbMin, bbMax))
    {
      if id !in meshes {
        var m := CtmFile.FileAt(data, pos, dec.coder, dec.arith, dec.angular);
        if m.Failure? {
          return Fail(m.error);
        }
        var e := ConvertMesh(variant, dec.arith, m.value.value);
        if e.Failure? {
          return Fail(e.error);
        }
        pos := m.value.next;
        meshes := meshes[id := Geometry(e.value, bbMin, bbMax)];
      }
      r := Pass;
    }

    method ConstructPointCloud(id: string, bbMin: Vector3, bbMax: Vector3) returns (r: Outcome)
      modifies this
      ensures Follows(r, CloudStep(dec, data, old(State()), id, bbMin, bbMax))
    {
      if id !in clouds {
        var n := IntAt(data, pos);
        if n.Failure? {
          return Fail(n.error);
        }
        var vertNum := n.value.value;
        var positions := ReadBytesAt(data, n.value.next, Wrap32(Wrap32(vertNum as int * 3) * 4));
        if positions.Failure? {
          return Fail(positions.error);
        }
        var colors := ReadBytesAt(data, positions.value.next, Wrap32(vertNum as int * 4));
        if colors.Failure? {
          return Fail(colors.error);
        }
        var p := ConvertPointCloud(dec.arith, vertNum, positions.value.value, colors.value.value);
        if p.Failure? {
          return Fail(p.error);
        }
        pos := colors.value.next;
        clouds := clouds[id := Cloud(p.value, bbMin, bbMax)];
      }
      r := Pass;
    }

    /** One resource: dispatched on its type and format. */
    method LoadResource(res: Resource) returns (r: Outcome)
      modifies this
      ensures Follows(r, ResourceStep(variant, dec, data, old(State()), res))
    {
      var kind := KindOf(res.kind, res.format);
      if kind == TextureBuffer {
        r := ConstructTexture(res.id, res.size);
      } else if kind == MeshBuffer || kind == PointCloudBuffer {
        var bbMin := SwappedBox(res.bbMin);
        if bbMin.Failure? {
          return Fail(bbMin.error);
        }
        var bbMax := SwappedBox(res.bbMax);
        if bbMax.Failure? {
          return Fail(bbMax.error);
        }
        if kind == MeshBuffer {
          r := ConstructMesh(res.id, bbMin.value, bbMax.value);
          if r.Pass? {
            if res.id in meshTextureIds {
              return Fail(Argument);
            }
            meshTextureIds := meshTextureIds[res.id := res.texture];
          }
        } else {
          r := ConstructPointCloud(res.id, bbMin.value, bbMax.value);
        }
      } else {
        r := Pass;
      }
    }

    /** The resource loop of `LoadStreamCo`. */
    method LoadResources(rs: seq<Resource>) returns (r: Outcome)
      modifies this
      ensures Follows(r, ResourcesFrom(variant, dec, data, old(State()), rs))
    {
      var i := 0;
      while i < |rs|
        invariant i <= |rs|
        invariant ResourcesFrom(variant, dec, data, old(State()), rs) == ResourcesFrom(variant, dec, data, State(), rs[i..])
      {
        assert rs[i..][0] == rs[i] && rs[i..][1..] == rs[i + 1..];
        r := LoadResource(rs[i]);
        if r.Fail? {
          return;
        }
        i := i + 1;
      }
      r := Pass;
    }

    /** The node loop of `LoadStreamCo`: a tile per node, added to the committed children. */
    method MakeTiles(nodes: seq<NodeEntry>, committed: seq<Tile>) returns (tiles: seq<Tile>, r: Outcome)
      ensures tiles == committed + TilesFrom(variant, dec, State(), nodes).0
      ensures r == TilesFrom(variant, dec, State(), nodes).1
    {
      var st := State();
      ghost var made: seq<Tile> := [];
      tiles := committed;
      var i := 0;
      assert nodes[0..] == nodes;
      assert made + TilesFrom(variant, dec, st, nodes).0 == TilesFrom(variant, dec, st, nodes).0;
      while i < |nodes|
        invariant i <= |nodes|
        invariant tiles == committed + made
        invariant TilesFrom(variant, dec, st, nodes) == (made + TilesFrom(variant, dec, st, nodes[i..]).0, TilesFrom(variant, dec, st, nodes[i..]).1)
      {
        assert nodes[i..][0] == nodes[i] && nodes[i..][1..] == nodes[i + 1..];
        var t := TileOf(variant, dec, st, nodes[i]);
        if t.Failure? {
          return tiles, Fail(t.error);
        }
        ghost var rest := TilesFrom(variant, dec, st, nodes[i + 1..]);
        assert TilesFrom(variant, dec, st, nodes[i..]) == ([t.value] + rest.0, rest.1);
        assert made + ([t.value] + rest.0) == (made + [t.value]) + rest.0;
        made := made + [t.value];
        tiles := tiles + [t.value];
        i := i + 1;
      }
      r := Pass;
    }
  }

  /** `LoadStreamCo` once the file's bytes are loaded. The 3MX loader does nothing for a parent
      without a game object. An empty stream adds nothing. A `.3mx` manifest (3MX loader) adds
      the root tile of its first layer. Otherwise the envelope, the resources and the nodes are
      read in turn; the 3MX loader then gives a component without bounds the merged bounds
      of the committed children. */
  method LoadStreamCo(variant: Variant, dec: Decoders, path: string, data: seq<Byte>, hasGameObject: bool,
                      hasBounds: bool, committed: seq<Tile>) returns (r: LoadResult)
    ensures variant == Unity3mx && !hasGameObject ==> r == LoadResult(committed, None, Pass)
    ensures (variant == Unity3MXB || hasGameObject) && |data| == 0 ==> r == LoadResult(committed, None, Pass)
    ensures variant == Unity3mx && hasGameObject && |data| > 0 && EndsWithIgnoreCase(path, ".3mx") ==>
              var m := dec.parseRoot(data);
              r == if m.Failure? then LoadResult(committed, None, Fail(m.error))
                   else if |m.value.layers| == 0 then LoadResult(committed, None, Fail(Argument))
                   else LoadResult(committed + [RootTile(m.value.layers[0])], None, Pass)
    ensures |committed| <= |r.committed| && r.committed[..|committed|] == committed
    ensures r.bounds.Some? ==>
              variant == Unity3mx && !hasBounds && |r.committed| > 0 && r.bounds.value == MergedBounds(r.committed)
    ensures (variant == Unity3MXB || hasGameObject) && |data| > 0 && !(variant == Unity3mx && EndsWithIgnoreCase(path, ".3mx")) ==>
              var e := EnvelopeAt(data, dec.parse);
              (e.Failure? ==> r == LoadResult(committed, None, Fail(e.error))) &&
              (e.Success? ==>
                 var c := ResourcesFrom(variant, dec, data, EMPTY_CACHES.(pos := e.value.next), e.value.value.resources);
                 (c.Failure? ==> r == LoadResult(committed, None, Fail(c.error))) &&
                 (c.Success? ==>
                    var t := TilesFrom(variant, dec, c.value, e.value.value.nodes);
                    r.committed == committed + t.0 && r.outcome == t.1 &&
                    (r.bounds.Some? <==> variant == Unity3mx && t.1.Pass? && !hasBounds && |r.committed| > 0)))
  {
    if variant == Unity3mx && !hasGameObject {
      return LoadResult(committed, None, Pass);
    }
    if |data| == 0 {
      return LoadResult(committed, None, Pass);
    }
    if variant == Unity3mx && EndsWithIgnoreCase(path, ".3mx") {
      var m := dec.parseRoot(data);
      if m.Failure? {
        return LoadResult(committed, None, Fail(m.error));
      }
      if |m.value.layers| == 0 {
        return LoadResult(committed, None, Fail(Argument));
      }
      return LoadResult(committed + [RootTile(m.value.layers[0])], None, Pass);
    }
    var e := EnvelopeAt(data, dec.parse);
    if e.Failure? {
      return LoadResult(committed, None, Fail(e.error));
    }
    var loader := new Loader(variant, dec, data, e.value.next);
    var ok := loader.LoadResources(e.value.value.resources);
    if ok.Fail? {
      return LoadResult(committed, None, ok);
    }
    var tiles, outcome := loader.MakeTiles(e.value.value.nodes, committed);
    if outcome.Fail? {
      return LoadResult(tiles, None, outcome);
    }
    var bounds := None;
    if variant == Unity3mx && !hasBounds && |tiles| > 0 {
      var b := MergeBounds(tiles);
      bounds := Some(b);
    }
    r := LoadResult(tiles, bounds, Pass);
  }
}
