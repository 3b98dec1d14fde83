// CtmOutputStream: the writer every OpenCTM encoder writes through. The
// underlying stream is the sequence of bytes written so far; each method
// appends exactly the encoding ByteCoding and Lzma define for its argument.
module CtmOutput {
  import opened Machine
  import opened Wrappers
  import opened ByteCoding
  import opened Lzma

  /** Appending in two steps is appending once. */
  lemma Associative<T>(a: seq<T>, b: seq<T>, c: seq<T>)
    ensures a + b + c == a + (b + c)
  {
  }

  class CtmOutputStream {
    /** The bytes written to the underlying stream, in order. */
    var written: seq<Byte>
    const compressionLevel: Int32
    /** The LZMA encoder `writeCompressedData` creates. */
    const coder: Coder

    /** `CtmOutputStream(Stream)`: the default compression level. */
    constructor (coder: Coder)
      ensures written == [] && compressionLevel == DEFAULT_COMPRESSION_LEVEL && this.coder == coder
    {
      written := [];
      compressionLevel := DEFAULT_COMPRESSION_LEVEL;
      this.coder := coder;
    }

    constructor WithLevel(compressionLevel: Int32, coder: Coder)
      ensures written == [] && this.compressionLevel == compressionLevel && this.coder == coder
    {
      written := [];
      this.compressionLevel := compressionLevel;
      this.coder := coder;
    }

    /** `BinaryWriter.Write(byte[])`. */
    method WriteBytes(b: seq<Byte>)
      modifies this
      ensures written == old(written) + b
    {
      written := written + b;
    }

    method WriteLittleInt(v: Int32)
      modifies this
      ensures written == old(written) + LittleEndian(v)
    {
      written := written + [ByteOf(v, 0)];
      written := written + [ByteOf(v, 1)];
      written := written + [ByteOf(v, 2)];
      written := written + [ByteOf(v, 3)];
    }

    /** A null string is written as length 0; otherwise `text.Length`, which counts UTF-16
        units, and then one ASCII byte per character. */
    method WriteString(text: Option<string>)
      requires Fits(text)
      modifies this
      ensures written == old(written) + StringBytes(text)
    {
      if text.Some? {
        WriteLittleInt(Utf16Length(text.value));
        WriteBytes(AsciiBytes(text.value));
      } else {
        WriteLittleInt(0);
      }
    }

    method WriteLittleIntArray(v: seq<Int32>)
      modifies this
      ensures written == old(written) + LittleEndianInts(v)
    {
      for i := 0 to |v|
        invariant written == old(written) + LittleEndianInts(v[..i])
      {
        WriteLittleInt(v[i]);
        LittleEndianIntsAppend(v[..i], [v[i]]);
        assert v[..i + 1] == v[..i] + [v[i]];
      }
      assert v[..|v|] == v;
    }

    /** The float's bit pattern, written as an int. */
    method WriteLittleFloat(v: Float32)
      modifies this
      ensures written == old(written) + LittleEndian(v.bits)
    {
      WriteLittleInt(v.bits);
    }

    method WriteLittleFloatArray(v: seq<Float32>)
      modifies this
      ensures written == old(written) + LittleEndianInts(FloatBits(v))
    {
      for i := 0 to |v|
        invariant written == old(written) + LittleEndianInts(FloatBits(v[..i]))
      {
        WriteLittleFloat(v[i]);
        assert FloatBits(v[..i + 1]) == FloatBits(v[..i]) + [v[i].bits];
        LittleEndianIntsAppend(FloatBits(v[..i]), [v[i].bits]);
      }
      assert v[..|v|] == v;
    }

    /** Packs the first count*size ints of data (a table of count rows of size elements)
        into byte planes, zig-zagging them when signed, and writes the planes compressed.
        Too little data fails, and so does a buffer too large for an int length. */
    method WritePackedInts(data: seq<Int32>, count: Int32, size: Int32, signed: bool) returns (ok: Outcome)
      requires 0 <= count && 1 <= size <= 4
      modifies this
      ensures ok.Pass? <==> |data| >= count * size && 4 * count * size < TWO_31
      ensures ok.Pass? ==> written == old(written) + CompressedBlock(coder, compressionLevel, PackedBytes(data, count, size, signed))
      ensures ok.Fail? ==> written == old(written)
    {
      if |data| < count * size {
        return Fail(General);
      }
      if 4 * count * size >= TWO_31 {
        return Fail(Overflow);
      }
      var tmp := Interleave(data, count, size, signed);
      WriteCompressedData(tmp[..]);
      ok := Pass;
    }

    /** `writePackedFloats`: the same layout over the floats' bit patterns, never zig-zagged. */
    method WritePackedFloats(data: seq<Float32>, count: Int32, size: Int32) returns (ok: Outcome)
      requires 0 <= count && 1 <= size <= 4
      modifies this
      ensures ok.Pass? <==> |data| >= count * size && 4 * count * size < TWO_31
      ensures ok.Pass? ==> written == old(written) + CompressedBlock(coder, compressionLevel, PackedBytes(FloatBits(data), count, size, false))
      ensures ok.Fail? ==> written == old(written)
    {
      if |data| < count * size {
        return Fail(General);
      }
      if 4 * count * size >= TWO_31 {
        return Fail(Overflow);
      }
      var tmp := Interleave(FloatBits(data), count, size, false);
      WriteCompressedData(tmp[..]);
      ok := Pass;
    }

    /** The nested loops of `writePackedInts` and `writePackedFloats`: element (i, k) goes to
        position i + k*count of a zeroed buffer of 4*count*size bytes, one byte per plane. */
    static method Interleave(data: seq<Int32>, count: nat, size: nat, signed: bool) returns (tmp: array<Byte>)
      requires |data| >= count * size
      ensures fresh(tmp)
      ensures tmp[..] == PackedBytes(data, count, size, signed)
    {
      tmp := new Byte[4 * (count * size)](_ => 0);
      InterleavedZero(count * size);
      for i := 0 to count
        invariant tmp[..] == Interleaved(Filling(data, count, size, signed, i, 0))
      {
        InterleaveRow(data, count, size, signed, tmp, i);
      }
      FillingAll(data, count, size, signed);
    }

    /** One pass of the inner loop: the size elements of row i go to their cells. */
    static method InterleaveRow(data: seq<Int32>, count: nat, size: nat, signed: bool, tmp: array<Byte>, i: nat)
      requires |data| >= count * size && i < count && tmp.Length == 4 * (count * size)
      requires tmp[..] == Interleaved(Filling(data, count, size, signed, i, 0))
      modifies tmp
      ensures tmp[..] == Interleaved(Filling(data, count, size, signed, i + 1, 0))
    {
      var n := count * size;
      for k := 0 to size
        invariant tmp[..] == Interleaved(Filling(data, count, size, signed, i, k))
      {
        var v := Element(data, count, size, signed, i, k);
        var p := Cell(i, k, count, size);
        ghost var w := Filling(data, count, size, signed, i, k);
        assert Filling(data, count, size, signed, i, k + 1) == w[p := v];
        InterleavedInsert(v, tmp, p, n);
        assert tmp[..] == Interleaved(w[p := v]) by {
          InterleavedUpdate(w, p, v);
        }
      }
    }

    /** Stores the four bytes of value in four planes stride apart, the most significant at offset. */
    static method InterleavedInsert(value: Int32, data: array<Byte>, offset: nat, stride: nat)
      requires offset + 3 * stride < data.Length
      modifies data
      ensures data[..] == Inserted(old(data[..]), value, offset, stride)
    {
      data[offset + 3 * stride] := ByteOf(value, 0);
      data[offset + 2 * stride] := ByteOf(value, 1);
      data[offset + stride] := ByteOf(value, 2);
      data[offset] := ByteOf(value, 3);
    }

    /** Compresses data with the settings of the compression level and writes the block:
        payload length, coder properties, payload. */
    method WriteCompressedData(data: seq<Byte>)
      modifies this
      ensures written == old(written) + CompressedBlock(coder, compressionLevel, data)
    {
      var settings := SettingsFor(compressionLevel);
      var compressed := coder.encode(settings, data);
      WriteLittleInt(Wrap32(|compressed|));
      WriteBytes(coder.properties(settings));
      WriteBytes(compressed);
    }
  }

  // ---------------------------------------------------------------------
  // The words `Interleave` has stored part way through its loops

  /** The position of row i, column k in a table of count rows stored column by column. */
  function Cell(i: nat, k: nat, count: nat, size: nat): (p: nat)
    requires i < count && k < size
    ensures p < count * size
  {
    CellInRange(i, k, count, size);
    i + k * count
  }

  /** Two cells of the table never share a position. */
  lemma CellsDistinct(r: nat, c: nat, i: nat, k: nat, count: nat, size: nat)
    requires r < count && c < size && i < count && k < size
    requires Cell(r, c, count, size) == Cell(i, k, count, size)
    ensures r == i && c == k
  {
    var p := Cell(r, c, count, size);
    DivUnique(p, count, c, r);
    DivUnique(p, count, k, i);
  }

  /** The loops have filled cell (row, col) once they are past that row, or in that row past
      that column. */
  predicate Filled(row: int, col: int, i: nat, k: nat)
  {
    row < i || (row == i && col < k)
  }

  /** The word of cell (r, c): element r*size + c of the table, zig-zagged when signed. */
  function Element(data: seq<Int32>, count: nat, size: nat, signed: bool, r: nat, c: nat): Int32
    requires |data| >= count * size && r < count && c < size
  {
    ElementInRange(r, c, count, size);
    var v := data[r * size + c];
    if signed then ZigZag(v) else v
  }

  /** The words the nested loops have stored on reaching row i, column k: cells are filled row by
      row, each at its own position, starting from zeros. */
  function Filling(data: seq<Int32>, count: nat, size: nat, signed: bool, i: nat, k: nat): (w: seq<Int32>)
    requires |data| >= count * size && i <= count && k <= size && (k > 0 ==> i < count)
    ensures |w| == count * size
    decreases i, k
  {
    if k == 0 then
      if i == 0 then seq(count * size, _ => 0) else Filling(data, count, size, signed, i - 1, size)
    else
      Filling(data, count, size, signed, i, k - 1)[Cell(i, k - 1, count, size) := Element(data, count, size, signed, i, k - 1)]
  }

  /** Part way through, the filled cells hold their words and the others are still zero. */
  lemma {:induction false} FillingAt(data: seq<Int32>, count: nat, size: nat, signed: bool, i: nat, k: nat, r: nat, c: nat)
    requires |data| >= count * size && i <= count && k <= size && (k > 0 ==> i < count)
    requires r < count && c < size
    ensures Filling(data, count, size, signed, i, k)[Cell(r, c, count, size)] ==
      if Filled(r, c, i, k) then Element(data, count, size, signed, r, c) else 0
    decreases i, k
  {
    if k == 0 {
      if i > 0 {
        FillingAt(data, count, size, signed, i - 1, size, r, c);
      }
    } else {
      FillingAt(data, count, size, signed, i, k - 1, r, c);
      if Cell(r, c, count, size) == Cell(i, k - 1, count, size) {
        CellsDistinct(r, c, i, k - 1, count, size);
      }
    }
  }

  /** Once every row is filled, the words are those a packed array stores. */
  lemma FillingAll(data: seq<Int32>, count: nat, size: nat, signed: bool)
    requires |data| >= count * size
    ensures Filling(data, count, size, signed, count, 0) == PlaneWords(data, count, size, signed)
  {
    var w := Filling(data, count, size, signed, count, 0);
    forall p | 0 <= p < |w| ensures w[p] == PlaneWords(data, count, size, signed)[p] {
      TransposedIndexInRange(p, count, size);
      var r, c := p % count, p / count;
      assert p == Cell(r, c, count, size);
      FillingAt(data, count, size, signed, count, 0, r, c);
      PlaneWordsAt(data, count, size, signed, r, c);
    }
  }

  /** The buffer after `interleavedInsert` of value: its four bytes, stride apart, the most
      significant at offset. */
  function Inserted(s: seq<Byte>, value: Int32, offset: nat, stride: nat): (r: seq<Byte>)
    requires offset + 3 * stride < |s|
    ensures |r| == |s|
  {
    s[offset + 3 * stride := ByteOf(value, 0)][offset + 2 * stride := ByteOf(value, 1)]
     [offset + stride := ByteOf(value, 2)][offset := ByteOf(value, 3)]
  }

  /** Planes of zero words are zero bytes. */
  lemma InterleavedZero(n: nat)
    ensures Interleaved(seq(n, _ => 0)) == seq(4 * n, _ => 0)
  {
  }

  /** Changing word p changes its four bytes, at p, p + n, p + 2n and p + 3n, and nothing else. */
  lemma InterleavedUpdate(w: seq<Int32>, p: nat, x: Int32)
    requires p < |w|
    ensures var n := |w|;
      p + 3 * n < 4 * n &&
      Interleaved(w[p := x]) == Inserted(Interleaved(w), x, p, n)
  {
    var n := |w|;
    var w' := w[p := x];
    assert Plane(w', 3) == Plane(w, 3)[p := ByteOf(x, 3)];
    assert Plane(w', 2) == Plane(w, 2)[p := ByteOf(x, 2)];
    assert Plane(w', 1) == Plane(w, 1)[p := ByteOf(x, 1)];
    assert Plane(w', 0) == Plane(w, 0)[p := ByteOf(x, 0)];
  }
}
