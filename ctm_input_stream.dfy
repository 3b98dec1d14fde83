// CtmInputStream: the reader every OpenCTM decoder reads through. The stream
// is the whole byte content together with a position; each read method
// returns what a specification function says it reads at the position where
// it starts, and leaves the position where that function says the read ends.
// The round-trip lemmas at the end tie these functions to the encodings
// CtmOutputStream writes.
module CtmInput {
  import opened Machine
  import opened Wrappers
  import opened ByteCoding
  import opened Lzma

  /** A value read, and the stream position just after it. */
  datatype Read<T> = Read(value: T, next: nat)

  /** A read method's result r and final position pos agree with the specification s: the
      same value and the position after it, or the same error. */
  predicate Tracks<T(==)>(r: Result<T>, s: Result<Read<T>>, pos: nat)
  {
    match s
    case Success(rd) => r == Success(rd.value) && pos == rd.next
    case Failure(e) => r == Failure(e)
  }

  function Min(a: int, b: int): int
  {
    if a < b then a else b
  }

  /** `BinaryReader.ReadBytes(k)`: up to k bytes, fewer when the stream ends first. The
      position may lie past the end after a seek, and then nothing is read. */
  function BytesAt(data: seq<Byte>, pos: nat, k: nat): (r: seq<Byte>)
    ensures |r| <= k
    ensures pos + k <= |data| ==> r == data[pos..pos + k]
    ensures |r| < k ==> pos + |r| >= |data|
    ensures r != [] ==> pos + |r| <= |data| && r == data[pos..pos + |r|]
  {
    data[Min(pos, |data|)..Min(pos + k, |data|)]
  }

  /** `readLittleInt`: four bytes, least significant first; a stream with fewer left ends the read. */
  function IntAt(data: seq<Byte>, pos: nat): (r: Result<Read<Int32>>)
    ensures r.Success? <==> pos + 4 <= |data|
    ensures r.Failure? ==> r.error == EndOfStream
    ensures r.Success? ==> r.value.next == pos + 4
  {
    if pos + 4 > |data| then Failure(EndOfStream)
    else Success(Read(ReadLittleEndian(data[pos..]), pos + 4))
  }

  /** The int read is the one whose four bytes are there. */
  lemma IntAtBytes(data: seq<Byte>, pos: nat)
    requires IntAt(data, pos).Success?
    ensures LittleEndian(IntAt(data, pos).value.value) == data[pos..pos + 4]
  {
    ReadLittleEndianInverse(data[pos..]);
  }

  /** `readLittleIntArray`: count ints one after the other; a negative count cannot size the array. */
  function IntsAt(data: seq<Byte>, pos: nat, count: int): (r: Result<Read<seq<Int32>>>)
    ensures count < 0 ==> r == Failure(Overflow)
    ensures r.Success? ==> |r.value.value| == count && r.value.next == pos + 4 * count
    decreases count
  {
    if count < 0 then Failure(Overflow)
    else if count == 0 then Success(Read([], pos))
    else
      var prev :- IntsAt(data, pos, count - 1);
      var last :- IntAt(data, prev.next);
      Success(Read(prev.value + [last.value], last.next))
  }

  /** `readLittleFloat`: the int read, reinterpreted as a float. */
  function FloatAt(data: seq<Byte>, pos: nat): (r: Result<Read<Float32>>)
    ensures r.Success? <==> IntAt(data, pos).Success?
    ensures r.Success? ==> r.value.value.bits == IntAt(data, pos).value.value && r.value.next == pos + 4
  {
    var v :- IntAt(data, pos);
    Success(Read(Float32(v.value), v.next))
  }

  /** `readLittleFloatArray`: the ints of `readLittleIntArray`, reinterpreted. */
  function FloatsAt(data: seq<Byte>, pos: nat, count: int): (r: Result<Read<seq<Float32>>>)
    ensures r.Success? <==> IntsAt(data, pos, count).Success?
    ensures r.Success? ==> FloatBits(r.value.value) == IntsAt(data, pos, count).value.value
    ensures r.Success? ==> r.value.next == IntsAt(data, pos, count).value.next
    ensures r.Failure? ==> r.error == IntsAt(data, pos, count).error
  {
    var v :- IntsAt(data, pos, count);
    Success(Read(FloatsOfBits(v.value), v.next))
  }

  /** `readString`: a length, then that many bytes decoded as ASCII. A length of zero or less
      reads the empty string; a positive length with no byte left fails. */
  function StringAt(data: seq<Byte>, pos: nat): (r: Result<Read<string>>)
  {
    var len :- IntAt(data, pos);
    if len.value <= 0 then Success(Read("", len.next))
    else
      var values := BytesAt(data, len.next, len.value);
      if |values| == 0 then Failure(IOFailure)
      else Success(Read(AsciiString(values), len.next + |values|))
  }

  /** `readCompressedData`: the compressed size, up to five property bytes, then the decoder
      run on the rest of the stream with the expected output size; the stream then moves to
      the end of the payload as the size prefix gives it. */
  function CompressedAt(data: seq<Byte>, pos: nat, coder: Coder, size: Int32): (r: Result<Read<seq<Byte>>>)
  {
    var compressedSize :- IntAt(data, pos);
    var properties := BytesAt(data, compressedSize.next, 5);
    if |properties| == 0 then Failure(IOFailure)
    else
      var accPos := compressedSize.next + |properties|;
      match coder.decode(properties, data[accPos..], size)
      case None => Failure(CorruptData)
      case Some(out) =>
        if accPos + compressedSize.value < 0 then Failure(Argument)
        else Success(Read(out, accPos + compressedSize.value))
  }

  /** `readPackedInts` for element counts of 1 to 4 (every caller passes a constant in that
      range). The array has `count * size` elements, with the product wrapping; a negative
      one cannot be allocated. A non-positive count leaves the array zero. Otherwise every
      element is read back from its four byte planes, and a buffer too short for them fails
      at the first access past its end. */
  function PackedIntsAt(data: seq<Byte>, pos: nat, coder: Coder, count: Int32, size: Int32, signed: bool)
    : (r: Result<Read<seq<Int32>>>)
    requires 1 <= size <= 4
    ensures r.Success? ==> 0 <= Wrap32(count * size) == |r.value.value|
    ensures r.Success? && count > 0 ==> |r.value.value| == count * size && 4 * |r.value.value| < TWO_31
  {
    var n := Wrap32(count * size);
    if n < 0 then Failure(Overflow)
    else
      var tmp :- CompressedAt(data, pos, coder, Wrap32(n * 4));
      if count <= 0 then Success(Read(seq(n, _ => 0), tmp.next))
      else if n != count * size || 4 * n >= TWO_31 || |tmp.value| < 4 * n then Failure(IndexOutOfRange)
      else Success(Read(UnpackedInts(tmp.value, count, size, signed), tmp.next))
  }

  /** `readPackedFloats`: the unsigned reading of `readPackedInts`, reinterpreted as floats. */
  function PackedFloatsAt(data: seq<Byte>, pos: nat, coder: Coder, count: Int32, size: Int32)
    : (r: Result<Read<seq<Float32>>>)
    requires 1 <= size <= 4
    ensures r.Success? <==> PackedIntsAt(data, pos, coder, count, size, false).Success?
    ensures r.Success? ==> FloatBits(r.value.value) == PackedIntsAt(data, pos, coder, count, size, false).value.value
    ensures r.Failure? ==> r.error == PackedIntsAt(data, pos, coder, count, size, false).error
  {
    var v :- PackedIntsAt(data, pos, coder, count, size, false);
    Success(Read(FloatsOfBits(v.value), v.next))
  }

  /** k items one after the other, each read by item from where the one before it ended. */
  function Repeated<T>(item: nat -> Result<Read<T>>, pos: nat, k: nat): (r: Result<Read<seq<T>>>)
    ensures r.Success? ==> |r.value.value| == k
  {
    if k == 0 then Success(Read([], pos))
    else
      var prev :- Repeated(item, pos, k - 1);
      var x :- item(prev.next);
      Success(Read(prev.value + [x.value], x.next))
  }

  /** One more item read after the first k. */
  lemma RepeatedAppend<T>(item: nat -> Result<Read<T>>, pos: nat, k: nat, prev: seq<T>, mid: nat, x: T, next: nat)
    requires Repeated(item, pos, k) == Success(Read(prev, mid)) && item(mid) == Success(Read(x, next))
    ensures Repeated(item, pos, k + 1) == Success(Read(prev + [x], next))
  {
  }

  /** Once the first j items fail, reading more of them fails the same way. */
  lemma {:induction false} RepeatedFails<T>(item: nat -> Result<Read<T>>, pos: nat, j: nat, k: nat)
    requires j <= k && Repeated(item, pos, j).Failure?
    ensures Repeated(item, pos, k) == Failure(Repeated(item, pos, j).error)
    decreases k - j
  {
    if j < k {
      RepeatedFails(item, pos, j, k - 1);
    }
  }

  /** Element (i, k) of a packed table read back: the int whose bytes sit in the four planes at
      i + k*count, zig-zag decoded when signed. */
  function Retrieved(tmp: seq<Byte>, count: nat, size: nat, signed: bool, i: nat, k: nat): Int32
    requires |tmp| >= 4 * (count * size) && i < count && k < size
  {
    ElementInRange(i, k, count, size);
    CellInRange(i, k, count, size);
    var val := InterleavedRetrive(tmp, i + k * count, count * size);
    if signed then UnZigZag(val) else val
  }

  class CtmInputStream {
    /** The whole content of the underlying stream. */
    const data: seq<Byte>
    /** `BaseStream.Position`. */
    var pos: nat
    /** The LZMA decoder the stream creates once and reuses. */
    const coder: Coder

    constructor (data: seq<Byte>, coder: Coder)
      ensures this.data == data && pos == 0 && this.coder == coder
    {
      this.data := data;
      pos := 0;
      this.coder := coder;
    }

    /** `BinaryReader.ReadByte`: the end of the stream throws. */
    method ReadByte() returns (r: Result<Byte>)
      modifies this
      ensures old(pos) < |data| ==> r == Success(data[old(pos)]) && pos == old(pos) + 1
      ensures old(pos) >= |data| ==> r == Failure(EndOfStream) && pos == old(pos)
    {
      if pos >= |data| {
        return Failure(EndOfStream);
      }
      r := Success(data[pos]);
      pos := pos + 1;
    }

    /** `BinaryReader.ReadBytes`. */
    method ReadBytes(k: nat) returns (r: seq<Byte>)
      modifies this
      ensures r == BytesAt(data, old(pos), k) && pos == old(pos) + |r|
    {
      r := data[Min(pos, |data|)..Min(pos + k, |data|)];
      pos := pos + |r|;
    }

    method ReadLittleInt() returns (r: Result<Int32>)
      modifies this
      ensures Tracks(r, IntAt(data, old(pos)), pos)
    {
      var ch1 :- ReadByte();
      var ch2 :- ReadByte();
      var ch3 :- ReadByte();
      var ch4 :- ReadByte();
      return Success(Assemble(ch1, ch2, ch3, ch4));
    }

    method ReadLittleIntArray(count: Int32) returns (r: Result<seq<Int32>>)
      modifies this
      ensures Tracks(r, IntsAt(data, old(pos), count), pos)
    {
      if count < 0 {
        return Failure(Overflow);
      }
      var a := new Int32[count];
      for i := 0 to count
        invariant IntsAt(data, old(pos), i) == Success(Read(a[..i], pos))
      {
        var v := ReadLittleInt();
        if v.Failure? {
          IntsAtFails(data, old(pos), i + 1, count);
          return Failure(v.error);
        }
        a[i] := v.value;
        assert a[..i + 1] == a[..i] + [v.value];
      }
      assert a[..count] == a[..];
      return Success(a[..]);
    }

    method ReadLittleFloat() returns (r: Result<Float32>)
      modifies this
      ensures Tracks(r, FloatAt(data, old(pos)), pos)
    {
      var v :- ReadLittleInt();
      return Success(Float32(v));
    }

    method ReadLittleFloatArray(count: Int32) returns (r: Result<seq<Float32>>)
      modifies this
      ensures Tracks(r, FloatsAt(data, old(pos), count), pos)
    {
      if count < 0 {
        return Failure(Overflow);
      }
      var a := new Float32[count];
      for i := 0 to count
        invariant IntsAt(data, old(pos), i) == Success(Read(FloatBits(a[..i]), pos))
      {
        var v := ReadLittleFloat();
        if v.Failure? {
          IntsAtFails(data, old(pos), i + 1, count);
          return Failure(v.error);
        }
        a[i] := v.value;
        assert a[..i + 1] == a[..i] + [v.value];
        assert FloatBits(a[..i + 1]) == FloatBits(a[..i]) + [v.value.bits];
      }
      assert a[..count] == a[..];
      FloatBitsRoundTrip(a[..]);
      return Success(a[..]);
    }

    method ReadString() returns (r: Result<string>)
      modifies this
      ensures Tracks(r, StringAt(data, old(pos)), pos)
    {
      var len :- ReadLittleInt();
      if len > 0 {
        var values := ReadBytes(len);
        if |values| == 0 {
          return Failure(IOFailure);
        }
        return Success(AsciiString(values));
      }
      return Success("");
    }

    /** Decodes one compressed block; size is the number of bytes the decoder is asked for. */
    method ReadCompressedData(size: Int32) returns (r: Result<seq<Byte>>)
      modifies this
      ensures Tracks(r, CompressedAt(data, old(pos), coder, size), pos)
    {
      var compressedSize :- ReadLittleInt();
      var properties := ReadBytes(5);
      if |properties| == 0 {
        return Failure(IOFailure);
      }
      var accPos := pos;
      var decoded := coder.decode(properties, data[accPos..], size);
      if decoded.None? {
        return Failure(CorruptData);
      }
      if accPos + compressedSize < 0 {
        return Failure(Argument);
      }
      pos := accPos + compressedSize;
      return Success(decoded.value);
    }

    method ReadPackedInts(count: Int32, size: Int32, signed: bool) returns (r: Result<seq<Int32>>)
      requires 1 <= size <= 4
      modifies this
      ensures Tracks(r, PackedIntsAt(data, old(pos), coder, count, size, signed), pos)
    {
      var n := Wrap32(count * size);
      if n < 0 {
        return Failure(Overflow);
      }
      var a := new Int32[n](_ => 0);
      var tmp :- ReadCompressedData(Wrap32(n * 4));
      assert CompressedAt(data, old(pos), coder, Wrap32(n * 4)) == Success(Read(tmp, pos));
      if count <= 0 {
        assert a[..] == seq(n, _ => 0);
        return Success(a[..]);
      }
      if n != count * size || 4 * n >= TWO_31 || |tmp| < 4 * n {
        return Failure(IndexOutOfRange);
      }
      for i := 0 to count
        modifies a
        invariant a[..i * size] == Rows(UnpackedWords(tmp, count * size, signed), count, size, i)
      {
        ReadRow(tmp, count, size, signed, a, i);
      }
      assert a[..] == a[..count * size];
      return Success(a[..]);
    }

    method ReadPackedFloats(count: Int32, size: Int32) returns (r: Result<seq<Float32>>)
      requires 1 <= size <= 4
      modifies this
      ensures Tracks(r, PackedFloatsAt(data, old(pos), coder, count, size), pos)
    {
      var n := Wrap32(count * size);
      if n < 0 {
        return Failure(Overflow);
      }
      var a := new Float32[n](_ => Float32(0));
      var tmp :- ReadCompressedData(Wrap32(n * 4));
      assert CompressedAt(data, old(pos), coder, Wrap32(n * 4)) == Success(Read(tmp, pos));
      if count <= 0 {
        assert FloatBits(a[..]) == seq(n, _ => 0);
        FloatBitsRoundTrip(a[..]);
        return Success(a[..]);
      }
      if n != count * size || 4 * n >= TWO_31 || |tmp| < 4 * n {
        return Failure(IndexOutOfRange);
      }
      for i := 0 to count
        modifies a
        invariant FloatBits(a[..i * size]) == Rows(UnpackedWords(tmp, count * size, false), count, size, i)
      {
        ReadFloatRow(tmp, count, size, a, i);
      }
      assert a[..] == a[..count * size];
      FloatBitsRoundTrip(a[..]);
      return Success(a[..]);
    }

    /** One pass of the inner loop of `readPackedInts`: the size elements of row i, in order,
        from position i*size on. */
    static method ReadRow(tmp: seq<Byte>, count: nat, size: nat, signed: bool, a: array<Int32>, i: nat)
      requires |tmp| >= 4 * (count * size) && i < count && a.Length == count * size
      requires a[..i * size] == Rows(UnpackedWords(tmp, count * size, signed), count, size, i)
      modifies a
      ensures a[..(i + 1) * size] == Rows(UnpackedWords(tmp, count * size, signed), count, size, i + 1)
    {
      ghost var z := UnpackedWords(tmp, count * size, signed);
      ghost var done := Rows(z, count, size, i);
      ghost var row := Row(z, count, size, i);
      var base := i * size;
      assert base + size == (i + 1) * size <= a.Length by { MulMono(i + 1, count, size); }
      for k := 0 to size
        invariant a[..base + k] == done + row[..k]
      {
        var val := Retrieved(tmp, count, size, signed, i, k);
        ghost var prefix := a[..base + k];
        a[base + k] := val;
        assert a[..base + k + 1] == prefix + [val];
        assert val == row[k] by { RetrievedInRow(tmp, count, size, signed, i, k); }
        assert row[..k + 1] == row[..k] + [row[k]];
      }
      assert row[..size] == row;
    }

    /** The inner loop of `readPackedFloats`, reinterpreting each int read. */
    static method ReadFloatRow(tmp: seq<Byte>, count: nat, size: nat, a: array<Float32>, i: nat)
      requires |tmp| >= 4 * (count * size) && i < count && a.Length == count * size
      requires FloatBits(a[..i * size]) == Rows(UnpackedWords(tmp, count * size, false), count, size, i)
      modifies a
      ensures FloatBits(a[..(i + 1) * size]) == Rows(UnpackedWords(tmp, count * size, false), count, size, i + 1)
    {
      ghost var z := UnpackedWords(tmp, count * size, false);
      ghost var done := Rows(z, count, size, i);
      ghost var row := Row(z, count, size, i);
      var base := i * size;
      assert base + size == (i + 1) * size <= a.Length by { MulMono(i + 1, count, size); }
      for k := 0 to size
        invariant FloatBits(a[..base + k]) == done + row[..k]
      {
        var val := Retrieved(tmp, count, size, false, i, k);
        ghost var prefix := a[..base + k];
        a[base + k] := Float32(val);
        assert a[..base + k + 1] == prefix + [Float32(val)];
        assert FloatBits(a[..base + k + 1]) == FloatBits(prefix) + [val];
        assert val == row[k] by { RetrievedInRow(tmp, count, size, false, i, k); }
        assert row[..k + 1] == row[..k] + [row[k]];
      }
      assert row[..size] == row;
    }
  }

  /** The element the loops retrieve for row i, column k is element k of row i of the table. */
  lemma RetrievedInRow(tmp: seq<Byte>, count: nat, size: nat, signed: bool, i: nat, k: nat)
    requires |tmp| >= 4 * (count * size) && i < count && k < size
    ensures Retrieved(tmp, count, size, signed, i, k) == Row(UnpackedWords(tmp, count * size, signed), count, size, i)[k]
  {
    var n := count * size;
    var p := i + k * count;
    CellInRange(i, k, count, size);
    var z := UnpackedWords(tmp, n, signed);
    var w := Deinterleaved(tmp, n);
    assert Row(z, count, size, i)[k] == z[p];
    assert w[p] == InterleavedRetrive(tmp, p, n);
    assert z[p] == if signed then UnZigZag(w[p]) else w[p];
  }

  // ---------------------------------------------------------------------
  // Properties of the reading functions

  /** Once reading the first m ints fails, reading more of them fails the same way. */
  lemma {:induction false} IntsAtFails(data: seq<Byte>, pos: nat, m: nat, count: int)
    requires m <= count && IntsAt(data, pos, m).Failure?
    ensures IntsAt(data, pos, count) == Failure(IntsAt(data, pos, m).error)
    decreases count - m
  {
    if m < count {
      IntsAtFails(data, pos, m, count - 1);
    }
  }

  /** Reading m ints is reading m - 1 of them and then one more. */
  lemma IntsAtStep(data: seq<Byte>, pos: nat, m: nat, prev: seq<Int32>, last: Int32)
    requires 0 < m && IntsAt(data, pos, m - 1) == Success(Read(prev, pos + 4 * (m - 1)))
    requires IntAt(data, pos + 4 * (m - 1)) == Success(Read(last, pos + 4 * m))
    ensures IntsAt(data, pos, m) == Success(Read(prev + [last], pos + 4 * m))
  {
  }

  /** The bytes x sit in the stream at position pos. */
  predicate At(data: seq<Byte>, pos: nat, x: seq<Byte>)
  {
    pos + |x| <= |data| && data[pos..pos + |x|] == x
  }

  lemma AtSplit(data: seq<Byte>, pos: nat, x: seq<Byte>, y: seq<Byte>)
    requires At(data, pos, x + y)
    ensures At(data, pos, x) && At(data, pos + |x|, y)
  {
    assert data[pos..pos + |x|] == (x + y)[..|x|];
    assert data[pos + |x|..pos + |x| + |y|] == (x + y)[|x|..];
  }

  lemma AtSlice(data: seq<Byte>, pos: nat, x: seq<Byte>, i: nat, j: nat)
    requires At(data, pos, x) && i <= j <= |x|
    ensures data[pos + i..pos + j] == x[i..j]
  {
    forall k | 0 <= k < j - i
      ensures data[pos + i..pos + j][k] == x[i..j][k]
    {
      assert data[pos..pos + |x|][i + k] == x[i + k];
    }
  }

  // ---------------------------------------------------------------------
  // Reading back what CtmOutputStream writes

  /** `readLittleInt` reads back what `writeLittleInt` wrote. */
  lemma ReadLittleIntWritten(data: seq<Byte>, pos: nat, v: Int32)
    requires At(data, pos, LittleEndian(v))
    ensures IntAt(data, pos) == Success(Read(v, pos + 4))
  {
    var r := IntAt(data, pos);
    LittleEndianRoundTrip(r.value.value, []);
    LittleEndianRoundTrip(v, []);
    assert LittleEndian(r.value.value) + [] == LittleEndian(v) + [];
  }

  /** Bytes written inside a run of written bytes are at their offset from its start. */
  lemma {:induction false} AtInside(data: seq<Byte>, pos: nat, x: seq<Byte>, i: nat, y: seq<Byte>, p: nat)
    requires At(data, pos, x) && i + |y| <= |x| && x[i..i + |y|] == y && p == pos + i
    ensures At(data, p, y)
  {
    forall k | 0 <= k < |y| ensures data[p..p + |y|][k] == y[k] {
      assert data[pos..pos + |x|][i + k] == x[i + k];
      assert x[i..i + |y|][k] == x[i + k];
    }
  }

  /** An int of a written int array reads back at its offset. */
  lemma {:induction false} IntOfArrayWritten(data: seq<Byte>, pos: nat, fields: seq<Int32>, i: nat, p: nat)
    requires At(data, pos, LittleEndianInts(fields)) && i < |fields| && p == pos + 4 * i
    ensures IntAt(data, p) == Success(Read(fields[i], p + 4))
  {
    LittleEndianIntsAt(fields, i);
    AtInside(data, pos, LittleEndianInts(fields), 4 * i, LittleEndian(fields[i]), p);
    ReadLittleIntWritten(data, p, fields[i]);
  }

  /** `readLittleIntArray` reads back what `writeLittleIntArray` wrote. */
  lemma ReadLittleIntArrayWritten(data: seq<Byte>, pos: nat, v: seq<Int32>)
    requires At(data, pos, LittleEndianInts(v))
    ensures IntsAt(data, pos, |v|) == Success(Read(v, pos + 4 * |v|))
  {
    IntsPrefixWritten(data, pos, v, |v|);
  }

  lemma {:induction false} IntsPrefixWritten(data: seq<Byte>, pos: nat, v: seq<Int32>, m: nat)
    requires At(data, pos, LittleEndianInts(v)) && m <= |v|
    ensures IntsAt(data, pos, m) == Success(Read(v[..m], pos + 4 * m))
    ensures m == |v| ==> IntsAt(data, pos, |v|) == Success(Read(v, pos + 4 * |v|))
  {
    assert m == |v| ==> v[..m] == v;
    if m > 0 {
      IntOfArrayWritten(data, pos, v, m - 1, pos + 4 * (m - 1));
      IntsPrefixWritten(data, pos, v, m - 1);
      IntsAtStep(data, pos, m, v[..m - 1], v[m - 1]);
      assert v[..m] == v[..m - 1] + [v[m - 1]];
    }
  }

  /** `readLittleFloatArray` reads back what `writeLittleFloatArray` wrote. */
  lemma ReadLittleFloatArrayWritten(data: seq<Byte>, pos: nat, v: seq<Float32>)
    requires At(data, pos, LittleEndianInts(FloatBits(v)))
    ensures FloatsAt(data, pos, |v|) == Success(Read(v, pos + 4 * |v|))
  {
    ReadLittleIntArrayWritten(data, pos, FloatBits(v));
    FloatBitsRoundTrip(v);
  }

  /** The text `readString` gives back for what `writeString` wrote: the ASCII decoding of the
      encoded characters, and the empty string for null. */
  function StoredName(text: Option<string>): string
  {
    if text.Some? then AsciiString(AsciiBytes(text.value)) else ""
  }

  /** `readString` reads back what `writeString` wrote, ending at next, when the length
      prefix counts the bytes written (every string inside the Basic Multilingual Plane). */
  lemma {:induction false} ReadStringWritten(data: seq<Byte>, pos: nat, text: Option<string>, next: nat)
    requires Fits(text) && Counted(text)
    requires At(data, pos, StringBytes(text)) && next == pos + |StringBytes(text)|
    ensures StringAt(data, pos) == Success(Read(StoredName(text), next))
  {
    assert StringBytes(text) == StringBytesIntended(text);
    ReadStringIntended(data, pos, text, next);
  }

  /** With the length prefix counting bytes, every string reads back, emoji included. */
  lemma {:induction false} ReadStringIntended(data: seq<Byte>, pos: nat, text: Option<string>, next: nat)
    requires text.Some? ==> |text.value| < TWO_31
    requires At(data, pos, StringBytesIntended(text)) && next == pos + |StringBytesIntended(text)|
    ensures StringAt(data, pos) == Success(Read(StoredName(text), next))
  {
    var chars := if text.Some? then AsciiBytes(text.value) else [];
    assert StringBytesIntended(text) == LittleEndian(|chars|) + chars;
    PrefixedRead(data, pos, chars);
  }

  /** A length prefix written before the bytes it counts reads back as those bytes. */
  lemma {:induction false} PrefixedRead(data: seq<Byte>, pos: nat, chars: seq<Byte>)
    requires |chars| < TWO_31 && At(data, pos, LittleEndian(|chars|) + chars)
    ensures StringAt(data, pos) == Success(Read(AsciiString(chars), pos + 4 + |chars|))
  {
    AtSplit(data, pos, LittleEndian(|chars|), chars);
    ReadLittleIntWritten(data, pos, |chars|);
    StringAtOf(data, pos, chars);
  }

  /** A length prefix followed by that many bytes reads as those bytes decoded. */
  lemma {:induction false} StringAtOf(data: seq<Byte>, pos: nat, chars: seq<Byte>)
    requires |chars| < TWO_31 && IntAt(data, pos) == Success(Read(|chars|, pos + 4))
    requires At(data, pos + 4, chars)
    ensures StringAt(data, pos) == Success(Read(AsciiString(chars), pos + 4 + |chars|))
  {
    if |chars| == 0 {
      assert AsciiString(chars) == "";
    } else {
      assert BytesAt(data, pos + 4, |chars|) == chars;
    }
  }

  /** ... and so a string of ASCII characters comes back unchanged. */
  lemma ReadAsciiStringWritten(data: seq<Byte>, pos: nat, s: string)
    requires |s| < TWO_31 && IsAscii(s)
    requires At(data, pos, StringBytes(Some(s)))
    ensures StringAt(data, pos) == Success(Read(s, pos + 4 + |s|))
  {
    ReadStringWritten(data, pos, Some(s), pos + 4 + |s|);
    AsciiStringBytes(s);
  }

  /** With the length prefix as written, an emoji followed by the byte 'A' reads back as "?A":
      the reader takes the following byte as part of the string. */
  lemma ReadStringAsWrittenOverreads()
    ensures StringAt(StringBytes(Some("\U{1F600}")) + [65], 0) == Success(Read("?A", 6))
  {
    var data := StringBytes(Some("\U{1F600}")) + [65];
    assert data == LittleEndian(2) + [63, 65];
    ReadLittleIntWritten(data, 0, 2);
    assert BytesAt(data, 4, 2) == [63, 65];
    var r := AsciiString([63, 65]);
    assert r[0] == '?' && r[1] == 'A';
    assert r == "?A";
  }

  /** `readCompressedData` reads back a block `writeCompressedData` wrote, with any stream
      content after it, provided the coder is lossless and the payload length fits an int. */
  lemma ReadCompressedWritten(data: seq<Byte>, pos: nat, c: Coder, level: Int32, x: seq<Byte>, next: nat)
    requires Lossless(c) && |x| < TWO_31
    requires |c.encode(SettingsFor(level), x)| < TWO_31
    requires At(data, pos, CompressedBlock(c, level, x)) && next == pos + |CompressedBlock(c, level, x)|
    ensures CompressedAt(data, pos, c, |x|) == Success(Read(x, next))
  {
    var s := SettingsFor(level);
    var payload := c.encode(s, x);
    var props := c.properties(s);
    var block := CompressedBlock(c, level, x);
    assert |props| == 5;
    assert block == LittleEndian(|payload|) + (props + payload);
    AtSplit(data, pos, LittleEndian(|payload|), props + payload);
    AtSplit(data, pos + 4, props, payload);
    ReadLittleIntWritten(data, pos, |payload|);
    assert BytesAt(data, pos + 4, 5) == props;
    var rest := data[pos + |block|..];
    assert data[pos + 9..] == payload + rest;
    assert DecodedAfter(c, s, x, rest) == Some(x);
  }

  /** `readPackedInts` reads back what `writePackedInts` wrote for a table of count rows of size
      elements, signed or not. */
  lemma ReadPackedIntsWritten(data: seq<Byte>, pos: nat, c: Coder, level: Int32,
                              x: seq<Int32>, count: Int32, size: Int32, signed: bool, next: nat)
    requires Lossless(c) && 0 <= count && 1 <= size <= 4
    requires |x| == count * size && 4 * count * size < TWO_31
    requires |c.encode(SettingsFor(level), PackedBytes(x, count, size, signed))| < TWO_31
    requires At(data, pos, CompressedBlock(c, level, PackedBytes(x, count, size, signed)))
    requires next == pos + |CompressedBlock(c, level, PackedBytes(x, count, size, signed))|
    ensures PackedIntsAt(data, pos, c, count, size, signed) == Success(Read(x, next))
  {
    var bytes := PackedBytes(x, count, size, signed);
    ReadCompressedWritten(data, pos, c, level, bytes, next);
    PackedIntsFrom(data, pos, c, x, count, size, signed, next);
  }

  /** `readPackedInts` unpacks x once the compressed block has yielded x's packed bytes. */
  lemma PackedIntsFrom(data: seq<Byte>, pos: nat, c: Coder, x: seq<Int32>, count: Int32, size: Int32,
                       signed: bool, next: nat)
    requires 0 <= count && 1 <= size <= 4
    requires |x| == count * size && 4 * count * size < TWO_31
    requires CompressedAt(data, pos, c, |PackedBytes(x, count, size, signed)|) ==
      Success(Read(PackedBytes(x, count, size, signed), next))
    ensures PackedIntsAt(data, pos, c, count, size, signed) == Success(Read(x, next))
  {
    var bytes := PackedBytes(x, count, size, signed);
    var n := count * size;
    assert Wrap32(n) == n && Wrap32(n * 4) == |bytes|;
    if count == 0 {
      assert x == seq(n, _ => 0);
    } else {
      assert UnpackedInts(bytes, count, size, signed) == x by {
        UnpackedPacked(x, count, size, signed);
      }
    }
  }

  /** `readPackedFloats` reads back what `writePackedFloats` wrote. */
  lemma ReadPackedFloatsWritten(data: seq<Byte>, pos: nat, c: Coder, level: Int32,
                                x: seq<Float32>, count: Int32, size: Int32, next: nat)
    requires Lossless(c) && 0 <= count && 1 <= size <= 4
    requires |x| == count * size && 4 * count * size < TWO_31
    requires |c.encode(SettingsFor(level), PackedBytes(FloatBits(x), count, size, false))| < TWO_31
    requires At(data, pos, CompressedBlock(c, level, PackedBytes(FloatBits(x), count, size, false)))
    requires next == pos + |CompressedBlock(c, level, PackedBytes(FloatBits(x), count, size, false))|
    ensures PackedFloatsAt(data, pos, c, count, size) == Success(Read(x, next))
  {
    ReadPackedIntsWritten(data, pos, c, level, FloatBits(x), count, size, false, next);
    FloatBitsRoundTrip(x);
  }
}
