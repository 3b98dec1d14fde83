// The byte-level encodings of the OpenCTM streams, as functions on sequences:
// little-endian ints, zig-zag signed ints, the element/byte-plane layout of
// packed arrays, and ASCII strings with a length prefix. CtmOutputStream and
// CtmInputStream are proved against these functions.
module ByteCoding {
  import opened Machine
  import opened Wrappers

  // ---------------------------------------------------------------------
  // Little-endian ints

  /** The four bytes `writeLittleInt` emits, least significant first. */
  function LittleEndian(v: Int32): (r: seq<Byte>)
    ensures |r| == 4
  {
    [ByteOf(v, 0), ByteOf(v, 1), ByteOf(v, 2), ByteOf(v, 3)]
  }

  /** The int `readLittleInt` assembles from the first four bytes of b. */
  function ReadLittleEndian(b: seq<Byte>): Int32
    requires |b| >= 4
  {
    Assemble(b[0], b[1], b[2], b[3])
  }

  lemma LittleEndianRoundTrip(v: Int32, rest: seq<Byte>)
    ensures ReadLittleEndian(LittleEndian(v) + rest) == v
  {
    AssembleBytes(v);
  }

  lemma ReadLittleEndianInverse(b: seq<Byte>)
    requires |b| >= 4
    ensures LittleEndian(ReadLittleEndian(b)) == b[..4]
  {
    BytesOfAssemble(b[0], b[1], b[2], b[3]);
  }

  /** `writeLittleIntArray`: every element in turn. */
  function LittleEndianInts(a: seq<Int32>): (r: seq<Byte>)
    ensures |r| == 4 * |a|
  {
    if a == [] then [] else LittleEndian(a[0]) + LittleEndianInts(a[1..])
  }

  lemma {:induction false} LittleEndianIntsAppend(a: seq<Int32>, b: seq<Int32>)
    ensures LittleEndianInts(a + b) == LittleEndianInts(a) + LittleEndianInts(b)
  {
    if a != [] {
      assert (a + b)[1..] == a[1..] + b;
      LittleEndianIntsAppend(a[1..], b);
    } else {
      assert a + b == b;
    }
  }

  /** Element i of a little-endian int array sits at bytes 4i .. 4i+3. */
  lemma {:induction false} LittleEndianIntsAt(a: seq<Int32>, i: nat)
    requires i < |a|
    ensures LittleEndianInts(a)[4 * i..4 * i + 4] == LittleEndian(a[i])
  {
    if i > 0 {
      LittleEndianIntsAt(a[1..], i - 1);
      assert LittleEndianInts(a)[4 * i..4 * i + 4] == LittleEndianInts(a[1..])[4 * (i - 1)..4 * (i - 1) + 4];
    }
  }

  /** The bit patterns of floats, which `writeLittleFloat` writes as ints. */
  function FloatBits(a: seq<Float32>): (r: seq<Int32>)
    ensures |r| == |a| && forall i :: 0 <= i < |a| ==> r[i] == a[i].bits
  {
    seq(|a|, i requires 0 <= i < |a| => a[i].bits)
  }

  function FloatsOfBits(a: seq<Int32>): (r: seq<Float32>)
    ensures |r| == |a| && forall i :: 0 <= i < |a| ==> r[i].bits == a[i]
  {
    seq(|a|, i requires 0 <= i < |a| => Float32(a[i]))
  }

  lemma FloatBitsRoundTrip(a: seq<Float32>)
    ensures FloatsOfBits(FloatBits(a)) == a
  {
  }

  // ---------------------------------------------------------------------
  // Zig-zag coding of signed ints

  /** `v < 0 ? -1 - (v << 1) : v << 1`, with the shift wrapping to 32 bits. */
  function ZigZag(v: Int32): Int32
  {
    if v < 0 then -1 - Wrap32(2 * v) else Wrap32(2 * v)
  }

  /** The signed reading in readPackedInts: x is the raw value as unsigned; odd x gives
      -((x + 1) >> 1), even x gives x >> 1, both narrowed to int. */
  function UnZigZag(raw: Int32): Int32
  {
    var x := Unsigned(raw);
    if x % 2 == 1 then Wrap32(-(Wrap32((x + 1) / 2) as int)) else x / 2
  }

  /** Zig-zag decoding inverts zig-zag encoding for every 32-bit int, int.MinValue included. */
  lemma UnZigZagZigZag(v: Int32)
    ensures UnZigZag(ZigZag(v)) == v
  {
    if v >= 0x4000_0000 {
      Wrap32Shift(2 * v, 1);
      assert Unsigned(ZigZag(v)) == 2 * v;
    } else if v >= 0 {
      assert ZigZag(v) == 2 * v;
    } else if v >= -0x4000_0000 {
      assert Unsigned(ZigZag(v)) == -1 - 2 * v;
    } else {
      Wrap32Shift(2 * v, -1);
      assert Unsigned(ZigZag(v)) == -1 - 2 * v;
      if v == INT_MIN {
        Wrap32Shift(TWO_31, 1);
      } else {
        Wrap32Shift(-v, 0);
      }
    }
  }

  /** ... and zig-zag encoding inverts decoding: the coding is a bijection of the 32-bit ints. */
  lemma ZigZagUnZigZag(raw: Int32)
    ensures ZigZag(UnZigZag(raw)) == raw
  {
    var x: int := Unsigned(raw);
    if x % 2 == 1 {
      if x == TWO_32 - 1 {
        assert UnZigZag(raw) == INT_MIN;
      } else {
        assert UnZigZag(raw) as int == 0 - (x + 1) / 2;
      }
    } else {
      assert UnZigZag(raw) == x / 2;
    }
  }

  /** Small magnitudes stay small: non-negative v < 2^30 codes to 2v, negative v >= -2^30 to -2v - 1. */
  lemma ZigZagSmall(v: Int32)
    requires -0x4000_0000 <= v < 0x4000_0000
    ensures ZigZag(v) == (if v < 0 then -2 * v - 1 else 2 * v)
  {
  }

  function ZigZagAll(a: seq<Int32>): (r: seq<Int32>)
    ensures |r| == |a| && forall i :: 0 <= i < |a| ==> r[i] == ZigZag(a[i])
  {
    seq(|a|, i requires 0 <= i < |a| => ZigZag(a[i]))
  }

  function UnZigZagAll(a: seq<Int32>): (r: seq<Int32>)
    ensures |r| == |a| && forall i :: 0 <= i < |a| ==> r[i] == UnZigZag(a[i])
  {
    seq(|a|, i requires 0 <= i < |a| => UnZigZag(a[i]))
  }

  lemma UnZigZagAllZigZagAll(a: seq<Int32>)
    ensures UnZigZagAll(ZigZagAll(a)) == a
  {
    forall i | 0 <= i < |a| ensures UnZigZagAll(ZigZagAll(a))[i] == a[i] {
      UnZigZagZigZag(a[i]);
    }
  }

  // ---------------------------------------------------------------------
  // Packed arrays: elements transposed, then split into four byte planes

  /** Element (i, k) of a count x size table sits at position i + k*count: the table is
      stored column by column. Position p therefore holds element (p % count, p / count). */
  function Transposed(data: seq<Int32>, count: nat, size: nat): (r: seq<Int32>)
    requires |data| >= count * size
    ensures |r| == count * size
  {
    seq(count * size, p requires 0 <= p < count * size =>
      TransposedIndexInRange(p, count, size);
      data[(p % count) * size + p / count])
  }

  /** Row i of a table stored column by column: its element k is read from position i + k*count. */
  function Row(words: seq<Int32>, count: nat, size: nat, i: nat): (r: seq<Int32>)
    requires |words| >= count * size && i < count
    ensures |r| == size
  {
    seq(size, k requires 0 <= k < size => CellInRange(i, k, count, size); words[i + k * count])
  }

  /** The first i rows of a table stored column by column, one after the other. */
  function Rows(words: seq<Int32>, count: nat, size: nat, i: nat): (r: seq<Int32>)
    requires |words| >= count * size && i <= count
    ensures |r| == i * size
  {
    if i == 0 then []
    else
      assert (i - 1) * size + size == i * size;
      Rows(words, count, size, i - 1) + Row(words, count, size, i - 1)
  }

  /** Undoes Transposed: the table read back row by row. */
  function Untransposed(words: seq<Int32>, count: nat, size: nat): (r: seq<Int32>)
    requires |words| >= count * size
    ensures |r| == count * size
  {
    Rows(words, count, size, count)
  }

  /** Element (r, k) of the rows read so far comes from position r + k*count. */
  lemma {:induction false} RowsAt(words: seq<Int32>, count: nat, size: nat, i: nat, r: nat, k: nat)
    requires |words| >= count * size && i <= count && r < i && k < size
    ensures r * size + k < i * size && r + k * count < count * size
    ensures Rows(words, count, size, i)[r * size + k] == words[r + k * count]
  {
    ElementInRange(r, k, i, size);
    CellInRange(r, k, count, size);
    if r < i - 1 {
      RowsAt(words, count, size, i - 1, r, k);
      ElementInRange(r, k, i - 1, size);
    } else {
      assert r * size + k == (i - 1) * size + k;
    }
  }

  lemma TransposedIndexInRange(p: nat, count: nat, size: nat)
    requires p < count * size
    ensures 0 < count && 0 < size && p / count < size
    ensures (p % count) * size + p / count < count * size
  {
    var i, k := p % count, p / count;
    assert p == k * count + i;
    MulCancelLess(k, size, count);
    assert k < size;
    MulMono(i, count - 1, size);
    assert i * size + k <= (count - 1) * size + k;
    assert (count - 1) * size + size == count * size;
  }

  lemma MulMono(a: int, b: int, c: nat)
    requires a <= b
    ensures a * c <= b * c
  {
  }

  /** Position i + k*count of a table with `count` rows names row i and column k. */
  lemma PositionOf(i: nat, k: nat, count: nat)
    requires i < count
    ensures (i + k * count) % count == i && (i + k * count) / count == k
  {
    DivUnique(i + k * count, count, k, i);
  }

  lemma UntransposedTransposed(data: seq<Int32>, count: nat, size: nat)
    requires |data| == count * size
    ensures Untransposed(Transposed(data, count, size), count, size) == data
  {
    forall m | 0 <= m < count * size
      ensures Untransposed(Transposed(data, count, size), count, size)[m] == data[m]
    {
      UntransposedTransposedAt(data, count, size, m);
    }
  }

  lemma UntransposedTransposedAt(data: seq<Int32>, count: nat, size: nat, m: nat)
    requires |data| == count * size && m < count * size
    ensures Untransposed(Transposed(data, count, size), count, size)[m] == data[m]
  {
    TransposedIndexInRange(m, size, count);
    var i, k := m / size, m % size;
    assert m == i * size + k;
    RowsAt(Transposed(data, count, size), count, size, count, i, k);
    TransposedAt(data, count, size, i, k);
  }

  lemma TransposedUntransposed(words: seq<Int32>, count: nat, size: nat)
    requires |words| == count * size
    ensures Transposed(Untransposed(words, count, size), count, size) == words
  {
    forall p | 0 <= p < count * size
      ensures Transposed(Untransposed(words, count, size), count, size)[p] == words[p]
    {
      TransposedUntransposedAt(words, count, size, p);
    }
  }

  lemma TransposedUntransposedAt(words: seq<Int32>, count: nat, size: nat, p: nat)
    requires |words| == count * size && p < count * size
    ensures Transposed(Untransposed(words, count, size), count, size)[p] == words[p]
  {
    var u := Untransposed(words, count, size);
    TransposedIndexInRange(p, count, size);
    var i, k := p % count, p / count;
    assert p == i + k * count;
    TransposedAt(u, count, size, i, k);
    RowsAt(words, count, size, count, i, k);
  }

  /** Byte b (0 = least significant) of every word, in word order. */
  function Plane(words: seq<Int32>, b: nat): (r: seq<Byte>)
    requires b < 4
    ensures |r| == |words|
    ensures forall p :: 0 <= p < |words| ==> r[p] == ByteOf(words[p], b)
  {
    seq(|words|, p requires 0 <= p < |words| => ByteOf(words[p], b))
  }

  /** The byte planes of n words laid out one after the other, most significant plane
      first: position p + t*n holds byte 3 - t of word p. */
  function Interleaved(words: seq<Int32>): (r: seq<Byte>)
    ensures |r| == 4 * |words|
  {
    Plane(words, 3) + Plane(words, 2) + Plane(words, 1) + Plane(words, 0)
  }

  /** `interleavedRetrive`: the int whose most significant byte is at offset and whose least
      significant byte is at offset + 3*stride. */
  function InterleavedRetrive(data: seq<Byte>, offset: nat, stride: nat): Int32
    requires offset + 3 * stride < |data|
  {
    Assemble(data[offset + 3 * stride], data[offset + 2 * stride], data[offset + stride], data[offset])
  }

  /** `interleavedRetrive` for every position p < n of a buffer of at least 4n bytes. */
  function Deinterleaved(bytes: seq<Byte>, n: nat): (r: seq<Int32>)
    requires |bytes| >= 4 * n
    ensures |r| == n
  {
    seq(n, p requires 0 <= p < n => InterleavedRetrive(bytes, p, n))
  }

  /** The four bytes of word p in an interleaved buffer. */
  lemma InterleavedAt(words: seq<Int32>, p: nat)
    requires p < |words|
    ensures var n, r := |words|, Interleaved(words);
      r[p] == ByteOf(words[p], 3) && r[p + n] == ByteOf(words[p], 2)
      && r[p + 2 * n] == ByteOf(words[p], 1) && r[p + 3 * n] == ByteOf(words[p], 0)
  {
  }

  lemma DeinterleavedInterleaved(words: seq<Int32>)
    ensures Deinterleaved(Interleaved(words), |words|) == words
  {
    var n := |words|;
    forall p | 0 <= p < n ensures Deinterleaved(Interleaved(words), n)[p] == words[p] {
      DeinterleavedInterleavedAt(words, p);
    }
  }

  lemma DeinterleavedInterleavedAt(words: seq<Int32>, p: nat)
    requires p < |words|
    ensures Deinterleaved(Interleaved(words), |words|)[p] == words[p]
  {
    InterleavedAt(words, p);
    AssembleBytes(words[p]);
  }

  lemma InterleavedDeinterleaved(bytes: seq<Byte>, n: nat)
    requires |bytes| == 4 * n
    ensures Interleaved(Deinterleaved(bytes, n)) == bytes
  {
    forall q | 0 <= q < 4 * n ensures Interleaved(Deinterleaved(bytes, n))[q] == bytes[q] {
      InterleavedDeinterleavedAt(bytes, n, q);
    }
  }

  lemma InterleavedDeinterleavedAt(bytes: seq<Byte>, n: nat, q: nat)
    requires |bytes| == 4 * n && q < 4 * n
    ensures Interleaved(Deinterleaved(bytes, n))[q] == bytes[q]
  {
    var w := Deinterleaved(bytes, n);
    var t := if q < n then 0 else if q < 2 * n then 1 else if q < 3 * n then 2 else 3;
    var p := q - t * n;
    var b0, b1, b2, b3 := bytes[p + 3 * n], bytes[p + 2 * n], bytes[p + n], bytes[p];
    assert w[p] == InterleavedRetrive(bytes, p, n) == Assemble(b0, b1, b2, b3);
    BytesOfAssemble(b0, b1, b2, b3);
    InterleavedAt(w, p);
  }

  /** Row i, column k of the table sits at position i + k*count of the transposed sequence. */
  lemma TransposedAt(data: seq<Int32>, count: nat, size: nat, i: nat, k: nat)
    requires |data| >= count * size && i < count && k < size
    ensures i + k * count < count * size && i * size + k < count * size
    ensures Transposed(data, count, size)[i + k * count] == data[i * size + k]
  {
    PositionOf(i, k, count);
    ElementInRange(i, k, count, size);
    MulMono(k, size - 1, count);
    assert (size - 1) * count + count == count * size;
  }

  /** The words a packed int array stores: the transposed table, zig-zagged when signed. */
  function PlaneWords(data: seq<Int32>, count: nat, size: nat, signed: bool): (r: seq<Int32>)
    requires |data| >= count * size
    ensures |r| == count * size
  {
    var t := Transposed(data, count, size);
    if signed then ZigZagAll(t) else t
  }

  /** Cell (i, k) of the table is word i + k*count, zig-zagged when signed. */
  lemma PlaneWordsAt(data: seq<Int32>, count: nat, size: nat, signed: bool, i: nat, k: nat)
    requires |data| >= count * size && i < count && k < size
    ensures i + k * count < count * size && i * size + k < count * size
    ensures PlaneWords(data, count, size, signed)[i + k * count] ==
      (if signed then ZigZag(data[i * size + k]) else data[i * size + k])
  {
    TransposedAt(data, count, size, i, k);
  }

  /** The bytes `writePackedInts` hands to the compressor for the first count*size elements. */
  function PackedBytes(data: seq<Int32>, count: nat, size: nat, signed: bool): (r: seq<Byte>)
    requires |data| >= count * size
    ensures |r| == 4 * count * size
  {
    Interleaved(PlaneWords(data, count, size, signed))
  }

  /** The elements `readPackedInts` rebuilds from a decompressed buffer of at least 4*count*size bytes. */
  function UnpackedInts(bytes: seq<Byte>, count: nat, size: nat, signed: bool): (r: seq<Int32>)
    requires |bytes| >= 4 * count * size
    ensures |r| == count * size
  {
    Untransposed(UnpackedWords(bytes, count * size, signed), count, size)
  }

  /** The n words stored in the byte planes of a buffer, zig-zag decoded when signed. */
  function UnpackedWords(bytes: seq<Byte>, n: nat, signed: bool): (r: seq<Int32>)
    requires |bytes| >= 4 * n
    ensures |r| == n
  {
    var w := Deinterleaved(bytes, n);
    if signed then UnZigZagAll(w) else w
  }

  /** Packed ints read back as written, signed or not. */
  lemma UnpackedPacked(data: seq<Int32>, count: nat, size: nat, signed: bool)
    requires |data| == count * size
    ensures UnpackedInts(PackedBytes(data, count, size, signed), count, size, signed) == data
  {
    var t := Transposed(data, count, size);
    var z := PlaneWords(data, count, size, signed);
    DeinterleavedInterleaved(z);
    if signed {
      UnZigZagAllZigZagAll(t);
    }
    UntransposedTransposed(data, count, size);
  }

  /** A packed int array stores every element in each of the four planes: element (i, k), zig-zagged
      when signed, has its most significant byte at position i + k*count and its least significant
      byte three planes further on. */
  lemma PackedBytesAt(data: seq<Int32>, count: nat, size: nat, signed: bool, i: nat, k: nat)
    requires |data| >= count * size && i < count && k < size
    ensures var n, p := count * size, i + k * count;
      var v := (ElementInRange(i, k, count, size); data[i * size + k]);
      var z := if signed then ZigZag(v) else v;
      p + 3 * n < 4 * n &&
      PackedBytes(data, count, size, signed)[p] == ByteOf(z, 3) &&
      PackedBytes(data, count, size, signed)[p + n] == ByteOf(z, 2) &&
      PackedBytes(data, count, size, signed)[p + 2 * n] == ByteOf(z, 1) &&
      PackedBytes(data, count, size, signed)[p + 3 * n] == ByteOf(z, 0)
  {
    var z := PlaneWords(data, count, size, signed);
    PlaneWordsAt(data, count, size, signed, i, k);
    InterleavedAt(z, i + k * count);
  }

  /** Position i + k*count, where column-major storage keeps cell (i, k), lies inside the table. */
  lemma CellInRange(i: nat, k: nat, count: nat, size: nat)
    requires i < count && k < size
    ensures i + k * count < count * size
  {
    MulMono(k, size - 1, count);
    assert (size - 1) * count + count == count * size;
  }

  lemma ElementInRange(i: nat, k: nat, count: nat, size: nat)
    requires i < count && k < size
    ensures i * size + k < count * size
  {
    MulMono(i, count - 1, size);
    assert (count - 1) * size + size == count * size;
  }

  // ---------------------------------------------------------------------
  // ASCII strings

  /** `ASCIIEncoding.GetBytes` for one character: non-ASCII characters become '?'. */
  function AsciiByte(c: char): Byte
  {
    if c as int < 128 then c as int else '?' as int
  }

  /** `ASCIIEncoding.GetString` for one byte: bytes above 127 become '?'. */
  function AsciiChar(b: Byte): char
  {
    if b < 128 then b as char else '?'
  }

  predicate IsAscii(s: string)
  {
    forall i :: 0 <= i < |s| ==> s[i] as int < 128
  }

  function AsciiBytes(s: string): (r: seq<Byte>)
    ensures |r| == |s| && forall i :: 0 <= i < |s| ==> r[i] == AsciiByte(s[i])
  {
    seq(|s|, i requires 0 <= i < |s| => AsciiByte(s[i]))
  }

  function AsciiString(b: seq<Byte>): (r: string)
    ensures |r| == |b| && forall i :: 0 <= i < |b| ==> r[i] == AsciiChar(b[i])
  {
    seq(|b|, i requires 0 <= i < |b| => AsciiChar(b[i]))
  }

  /** Decoding ASCII bytes inverts encoding exactly on ASCII strings. */
  lemma AsciiStringBytes(s: string)
    ensures AsciiString(AsciiBytes(s)) == s <==> IsAscii(s)
  {
    if !IsAscii(s) {
      var i :| 0 <= i < |s| && s[i] as int >= 128;
      assert AsciiString(AsciiBytes(s))[i] == '?' != s[i];
    }
  }

  /** `String.Length` counts UTF-16 code units: a character outside the Basic Multilingual
      Plane takes two. */
  function Utf16Length(s: string): (n: nat)
    ensures n >= |s|
    ensures IsAscii(s) ==> n == |s|
  {
    if s == [] then 0 else (if s[0] as int >= 0x1_0000 then 2 else 1) + Utf16Length(s[1..])
  }

  /** A string `writeString` can write: its `Length` fits the int length prefix. */
  predicate Fits(text: Option<string>)
  {
    text.Some? ==> Utf16Length(text.value) < TWO_31
  }

  /** A string whose length prefix counts exactly the bytes that follow it. */
  predicate Counted(text: Option<string>)
  {
    text.Some? ==> Utf16Length(text.value) == |text.value|
  }

  /** The bytes `writeString` emits: length 0 for null, else `text.Length` and the ASCII
      bytes. `text.Length` counts UTF-16 units, but one byte per character follows, so the
      prefix overstates the byte count of a string outside the Basic Multilingual Plane. */
  function StringBytes(text: Option<string>): (r: seq<Byte>)
    requires Fits(text)
    ensures |r| == 4 + (if text.Some? then |text.value| else 0)
    ensures text.Some? ==> ReadLittleEndian(r) == Utf16Length(text.value) && r[4..] == AsciiBytes(text.value)
    ensures text.None? ==> r == LittleEndian(0)
  {
    LittleEndianRoundTrip(if text.Some? then Utf16Length(text.value) else 0, if text.Some? then AsciiBytes(text.value) else []);
    match text
    case None => LittleEndian(0)
    case Some(s) => LittleEndian(Utf16Length(s)) + AsciiBytes(s)
  }

  /** `writeString` with the length prefix counting the bytes that follow it. */
  function StringBytesIntended(text: Option<string>): (r: seq<Byte>)
    requires text.Some? ==> |text.value| < TWO_31
    ensures |r| >= 4
    ensures text.Some? ==> ReadLittleEndian(r) == |text.value| && r[4..] == AsciiBytes(text.value)
    ensures text.None? ==> r == LittleEndian(0)
  {
    LittleEndianRoundTrip(if text.Some? then |text.value| else 0, if text.Some? then AsciiBytes(text.value) else []);
    match text
    case None => LittleEndian(0)
    case Some(s) => LittleEndian(|s|) + AsciiBytes(s)
  }

  /** The two agree on every string inside the Basic Multilingual Plane, ASCII included. */
  lemma StringBytesBmp(s: string)
    requires |s| < TWO_31 && forall i :: 0 <= i < |s| ==> s[i] as int < 0x1_0000
    ensures Counted(Some(s)) && Fits(Some(s)) && StringBytes(Some(s)) == StringBytesIntended(Some(s))
  {
    Utf16LengthBmp(s);
  }

  lemma {:induction false} Utf16LengthBmp(s: string)
    requires forall i :: 0 <= i < |s| ==> s[i] as int < 0x1_0000
    ensures Utf16Length(s) == |s|
  {
    if s != [] {
      assert forall i :: 0 <= i < |s[1..]| ==> s[1..][i] == s[i + 1];
      Utf16LengthBmp(s[1..]);
    }
  }

  /** One emoji: the prefix says 2 while a single byte '?' follows. */
  lemma StringBytesOverstates()
    ensures !Counted(Some("\U{1F600}"))
    ensures StringBytes(Some("\U{1F600}")) == LittleEndian(2) + [63]
    ensures StringBytesIntended(Some("\U{1F600}")) == LittleEndian(1) + [63]
  {
  }
}
