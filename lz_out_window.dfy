// OutWindow: the LZ decoder's output window. A ring buffer of windowSize bytes inside a fixed
// 16 MiB array keeps the most recent bytes decoded, so that a back-reference can copy from
// them, and hands the bytes to the output stream in batches. The static singleton accessor
// is not modelled: a window is an ordinary object.
module LzWindow {
  import opened Machine
  import opened Wrappers
  import Lzma

  /** The length of the array `_buffer`, allocated once and never replaced. */
  const BUFFER_SIZE: nat := 0x100_0000

  /** An output stream: the bytes written to it so far. */
  class ByteSink {
    var bytes: seq<Byte>

    constructor ()
      ensures bytes == []
    {
      bytes := [];
    }
  }

  /** The slot holding the byte d + 1 back, in a window of ws bytes whose next write goes to pos. */
  function Slot(pos: nat, d: nat, ws: nat): (s: nat)
    requires pos <= ws && d < ws
    ensures s < ws
  {
    if d < pos then pos - 1 - d else pos - 1 - d + ws
  }

  /** `pos = _pos - distance - 1; if (pos >= _windowSize) pos += _windowSize`, in uint arithmetic. */
  function BackIndex(pos: UInt32, d: UInt32, ws: UInt32): UInt32
  {
    var p := WrapU32(pos - d - 1);
    if p >= ws then WrapU32(p + ws) else p
  }

  /** For a distance inside the window, the uint arithmetic finds the slot d + 1 back: the
      wrap-around below zero and the added window size cancel. */
  lemma BackIndexIsSlot(pos: UInt32, d: UInt32, ws: UInt32)
    requires pos <= ws <= BUFFER_SIZE && d < ws
    ensures BackIndex(pos, d, ws) == Slot(pos, d, ws)
  {
    if d < pos {
      assert WrapU32(pos - d - 1) == pos - d - 1;
    } else {
      var p := WrapU32(pos - d - 1);
      assert p == pos - d - 1 + TWO_32 by {
        DivUnique(pos - d - 1, TWO_32, -1, pos - d - 1 + TWO_32);
      }
      assert WrapU32(p + ws) == pos - d - 1 + ws by {
        DivUnique(p + ws, TWO_32, 1, pos - d - 1 + ws);
      }
    }
  }

  /** Slot indices wrap to 0 at the end of the window, as the copy loop does with its source index. */
  function Wrapped(i: nat, ws: nat): nat
  {
    if i >= ws then 0 else i
  }

  /** One step of a copy: the source slot and the write position advance together. */
  lemma SlotStep(pos: nat, d: nat, ws: nat)
    requires pos < ws && d < ws
    ensures Wrapped(Slot(pos, d, ws) + 1, ws) == Slot(if pos + 1 == ws then 0 else pos + 1, d, ws)
  {
  }

  /** The ring invariant: every distance d within both the history and the window finds, in its
      slot, the byte d + 1 back in the history. */
  ghost predicate Ring(buf: seq<Byte>, pos: nat, ws: nat, h: seq<Byte>)
    requires pos <= ws <= |buf|
  {
    forall d :: 0 <= d < |h| && d < ws ==> buf[Slot(pos, d, ws)] == h[|h| - 1 - d]
  }

  /** Storing a byte at pos and advancing keeps the ring: the slot overwritten is the one
      windowSize bytes back, which the window no longer covers. */
  lemma {:induction false} RingPut(buf: seq<Byte>, pos: nat, ws: nat, h: seq<Byte>, b: Byte)
    requires pos < ws <= |buf| && Ring(buf, pos, ws, h)
    ensures Ring(buf[pos := b], pos + 1, ws, h + [b])
  {
    var buf', h', next := buf[pos := b], h + [b], pos + 1;
    forall d | 0 <= d < |h'| && d < ws
      ensures buf'[Slot(next, d, ws)] == h'[|h'| - 1 - d]
    {
      if d > 0 {
        assert Slot(next, d, ws) == Slot(pos, d - 1, ws) != pos;
        assert h'[|h'| - 1 - d] == h[|h| - 1 - (d - 1)];
      }
    }
  }

  /** Moving the write position from the end of the window to its start keeps the ring. */
  lemma {:induction false} RingWrap(buf: seq<Byte>, ws: nat, h: seq<Byte>)
    requires 0 < ws <= |buf| && Ring(buf, ws, ws, h)
    ensures Ring(buf, 0, ws, h)
  {
    forall d | 0 <= d < |h| && d < ws
      ensures buf[Slot(0, d, ws)] == h[|h| - 1 - d]
    {
      assert Slot(0, d, ws) == Slot(ws, d, ws);
    }
  }

  /** The bytes a window with no pending output has still to deliver are the last ones put. */
  lemma {:induction false} PendingIsRecent(buf: seq<Byte>, streamPos: nat, pos: nat, ws: nat, h: seq<Byte>)
    requires streamPos <= pos < ws <= |buf| && pos - streamPos <= |h| && Ring(buf, pos, ws, h)
    ensures buf[streamPos..pos] == h[|h| - (pos - streamPos)..]
  {
    forall k | 0 <= k < pos - streamPos
      ensures buf[streamPos..pos][k] == h[|h| - (pos - streamPos)..][k]
    {
      var d := pos - 1 - (streamPos + k);
      assert Slot(pos, d, ws) == streamPos + k;
    }
  }

  /** The bytes `CopyBlock(d, len)` appends to a history h: each one is the byte d + 1 back in the
      history as it stands when that byte is appended, so a copy may overlap what it writes. */
  function Copied(h: seq<Byte>, d: nat, len: nat): (c: seq<Byte>)
    requires d < |h|
    ensures |c| == len
  {
    if len == 0 then []
    else
      var c := Copied(h, d, len - 1);
      var g := h + c;
      c + [g[|g| - 1 - d]]
  }

  /** Every byte a copy appends equals the byte d + 1 before it in the extended history. */
  lemma {:induction false} CopiedBack(h: seq<Byte>, d: nat, len: nat)
    requires d < |h|
    ensures forall k :: |h| <= k < |h| + len ==> (h + Copied(h, d, len))[k] == (h + Copied(h, d, len))[k - 1 - d]
  {
    if len > 0 {
      var c := Copied(h, d, len - 1);
      CopiedBack(h, d, len - 1);
      var g := h + Copied(h, d, len);
      assert g == (h + c) + [(h + c)[|h + c| - 1 - d]];
      forall k | |h| <= k < |g|
        ensures g[k] == g[k - 1 - d]
      {
        if k < |h + c| {
          assert (h + c)[k] == (h + c)[k - 1 - d];
          assert g[k] == (h + c)[k] && g[k - 1 - d] == (h + c)[k - 1 - d];
        } else {
          assert k == |h + c| && g[k] == (h + c)[|h + c| - 1 - d];
        }
      }
    }
  }

  /** The ring read at distance d: the byte d + 1 back in the history. */
  lemma RingRead(buf: seq<Byte>, pos: nat, ws: nat, h: seq<Byte>, d: nat)
    requires pos <= ws <= |buf| && Ring(buf, pos, ws, h) && d < |h| && d < ws
    ensures buf[Slot(pos, d, ws)] == h[|h| - 1 - d]
  {
  }

  /** A copy one byte longer appends the byte d + 1 back in the history copied so far. */
  lemma {:induction false} CopiedStep(h0: seq<Byte>, d: nat, n: nat, h: seq<Byte>)
    requires d < |h0| && h == h0 + Copied(h0, d, n)
    ensures h0 + Copied(h0, d, n + 1) == h + [h[|h| - 1 - d]]
  {
    var c := Copied(h0, d, n);
    assert Copied(h0, d, n + 1) == c + [(h0 + c)[|h0 + c| - 1 - d]];
    assert h0 + (c + [h[|h| - 1 - d]]) == h + [h[|h| - 1 - d]];
  }

  /** Appending to a history keeps its prefix and extends its suffix. */
  lemma Extended(h0: seq<Byte>, h: seq<Byte>, x: Byte)
    requires |h0| <= |h| && h[..|h0|] == h0
    ensures (h + [x])[..|h0|] == h0 && (h + [x])[|h0|..] == h[|h0|..] + [x]
  {
    assert (h + [x])[..|h0|] == h[..|h0|];
  }

  /** One more byte put after a copy's first ones: the history keeps its prefix, and what the
      stream holds is still what it held before the copy followed by the copied bytes. */
  lemma DeliveredExtended(h0: seq<Byte>, h: seq<Byte>, x: Byte, d0: seq<Byte>, before: seq<Byte>, after: seq<Byte>)
    requires |h0| <= |h| && h[..|h0|] == h0 && before == d0 + h[|h0|..] && after == before + [x]
    ensures |h + [x]| == |h| + 1 && (h + [x])[..|h0|] == h0 && after == d0 + (h + [x])[|h0|..]
  {
    Extended(h0, h, x);
    assert after == d0 + (h[|h0|..] + [x]);
  }

  // ---------------------------------------------------------------------
  // Windows larger than the buffer

  /** Where the n-th byte put into a freshly created window of ws bytes is stored: the write
      position returns to 0 each time it reaches the end of the window. */
  function PutSlot(ws: nat, n: nat): nat
    requires 0 < ws
  {
    n % ws
  }

  /** The slot of the next byte is the position `PutByte` moves to: one on, and back to 0 at the
      end of the window. */
  lemma PutSlotStep(ws: nat, n: nat)
    requires 0 < ws
    ensures PutSlot(ws, n) < ws
    ensures PutSlot(ws, n + 1) == if PutSlot(ws, n) + 1 == ws then 0 else PutSlot(ws, n) + 1
  {
    var q, r := n / ws, n % ws;
    assert n == ws * q + r;
    if r + 1 == ws {
      DivUnique(n + 1, ws, q + 1, 0);
    } else {
      DivUnique(n + 1, ws, q, r + 1);
    }
  }

  /** `_buffer[_pos++] = b` on a buffer of bufferLength bytes: the n-th byte put into a window of
      ws bytes is stored when its slot lies inside the buffer, and throws otherwise. */
  function PutInto(bufferLength: nat, ws: nat, n: nat): Outcome
    requires 0 < ws
  {
    if PutSlot(ws, n) < bufferLength then Pass else Fail(IndexOutOfRange)
  }

  /** As written: the buffer keeps its 16 MiB whatever window `Create` is given. */
  function PutAsWritten(ws: nat, n: nat): Outcome
    requires 0 < ws
  {
    PutInto(BUFFER_SIZE, ws, n)
  }

  /** As written, a put throws exactly when the window is larger than the buffer and the write
      position has gone past the buffer's end. */
  lemma PutAsWrittenFailsIff(ws: nat, n: nat)
    requires 0 < ws
    ensures PutAsWritten(ws, n).Fail? <==> BUFFER_SIZE < ws && BUFFER_SIZE <= n % ws
    ensures PutAsWritten(ws, n).Fail? ==> PutAsWritten(ws, n).error == IndexOutOfRange
  {
  }

  /** A window of the 32 MiB dictionary the writer uses at level 6: the first 16 MiB of output are
      stored, and the byte after them throws. */
  lemma Level6WindowOverruns()
    ensures var ws := Lzma.DictionarySize(6) as nat;
      ws == 2 * BUFFER_SIZE && PutAsWritten(ws, BUFFER_SIZE) == Fail(IndexOutOfRange) &&
      forall n: nat :: n < BUFFER_SIZE ==> PutAsWritten(ws, n) == Pass
  {
    Lzma.DictionarySizeLevels();
    var ws: nat := Lzma.DictionarySize(6) as nat;
    assert ws == 2 * BUFFER_SIZE;
    BelowWindow(ws, BUFFER_SIZE);
    forall n: nat | n < BUFFER_SIZE
      ensures PutAsWritten(ws, n) == Pass
    {
      BelowWindow(ws, n);
    }
  }

  /** A byte put before the window first fills up sits at its own number. */
  lemma BelowWindow(ws: nat, n: nat)
    requires n < ws
    ensures PutSlot(ws, n) == n
  {
    DivUnique(n, ws, 0, n);
  }

  /** The buffer a window needs: the source's 16 MiB, grown to the window when the window is
      larger, as the `new byte[windowSize]` left commented out in `Create` would do. */
  function IntendedBufferLength(ws: nat): nat
  {
    if ws <= BUFFER_SIZE then BUFFER_SIZE else ws
  }

  /** A put into the buffer the window needs. */
  function PutIntended(ws: nat, n: nat): Outcome
    requires 0 < ws
  {
    PutInto(IntendedBufferLength(ws), ws, n)
  }

  /** With a buffer as large as the window no put ever throws, and for windows of at most
      16 MiB, the only ones `OutWindow.Create` takes, the buffer as written behaves the same. */
  lemma PutIntendedNeverFails(ws: nat, n: nat)
    requires 0 < ws
    ensures PutIntended(ws, n) == Pass
    ensures ws <= BUFFER_SIZE ==> PutAsWritten(ws, n) == PutIntended(ws, n)
  {
  }

  class OutWindow {
    /** `_buffer`: 16 MiB, allocated with the window and never reallocated. */
    const buffer: array<Byte>
    /** `_pos`: where the next byte goes. */
    var pos: UInt32
    /** `_windowSize`: how much of the buffer the ring uses. */
    var windowSize: UInt32
    /** `_streamPos`: the first byte not yet written to the stream. */
    var streamPos: UInt32
    /** `_stream`, null when no stream is attached. */
    var stream: ByteSink?
    /** The bytes put since the positions were last reset, oldest first. */
    ghost var history: seq<Byte>

    /** The invariant every method keeps, but for the write position, which may reach the end of
        the window for the moment between a write and the flush that follows it. */
    ghost predicate Window()
      reads this, buffer
    {
      buffer.Length == BUFFER_SIZE && 0 < windowSize <= BUFFER_SIZE &&
      streamPos <= pos <= windowSize && pos - streamPos <= |history| &&
      Ring(buffer[..], pos, windowSize, history)
    }

    /** The invariant of a window between calls: `_streamPos <= _pos < _windowSize`. */
    ghost predicate Valid()
      reads this, buffer
    {
      Window() && pos < windowSize
    }

    /** The bytes put but not yet written to the stream. */
    function Pending(): seq<Byte>
      reads this, buffer
      requires streamPos <= pos <= buffer.Length
    {
      buffer[streamPos..pos]
    }

    /** What the attached stream will hold once the window is flushed. */
    function Delivered(): seq<Byte>
      reads this, buffer, stream
      requires stream != null && streamPos <= pos <= buffer.Length
    {
      stream.bytes + Pending()
    }

    /** `new OutWindow()`: the buffer, no window yet and no stream. */
    constructor ()
      ensures buffer.Length == BUFFER_SIZE && fresh(buffer)
      ensures windowSize == 0 && pos == 0 && streamPos == 0 && stream == null && history == []
    {
      buffer := new Byte[BUFFER_SIZE](_ => 0);
      pos, windowSize, streamPos := 0, 0, 0;
      stream := null;
      history := [];
    }

    /** `Create`: a ring of `size` bytes with nothing put yet. The buffer is kept, so the ring
        is modelled only for sizes up to the buffer's; what a larger window does is stated by
        `PutAsWritten` and `Level6WindowOverruns`. */
    method Create(size: UInt32)
      requires buffer.Length == BUFFER_SIZE && 0 < size <= BUFFER_SIZE
      modifies this
      ensures Valid() && windowSize == size && pos == 0 && streamPos == 0 && history == []
      ensures stream == old(stream)
    {
      windowSize := size;
      pos := 0;
      streamPos := 0;
      history := [];
    }

    /** `Flush`: the pending bytes go to the stream, and the write position returns to the start
        once it reached the end of the window. Nothing pending, nothing happens; something pending
        and no stream throws before any field changes. */
    method Flush() returns (ok: Outcome)
      requires Window()
      modifies this, stream
      ensures Window() && stream == old(stream) && windowSize == old(windowSize) && history == old(history)
      ensures old(pos == streamPos) ==> ok == Pass && unchanged(this) && (stream != null ==> unchanged(stream))
      ensures old(pos != streamPos) && stream == null ==> ok == Fail(NullReference) && unchanged(this)
      ensures old(pos != streamPos) && stream != null ==>
        ok == Pass && stream.bytes == old(stream.bytes) + old(Pending()) && streamPos == pos &&
        pos == (if old(pos) >= old(windowSize) then 0 else old(pos))
    {
      var size := pos - streamPos;
      if size == 0 {
        return Pass;
      }
      if stream == null {
        return Fail(NullReference);
      }
      stream.bytes := stream.bytes + buffer[streamPos..pos];
      if pos >= windowSize {
        RingWrap(buffer[..], windowSize, history);
        pos := 0;
      }
      streamPos := pos;
      ok := Pass;
    }

    /** `PutByte`: store b at the write position, advance, and flush when the window is full. */
    method PutByte(b: Byte)
      requires Valid() && stream != null
      modifies this, buffer, stream
      ensures Valid() && stream == old(stream) && windowSize == old(windowSize)
      ensures history == old(history) + [b]
      ensures Delivered() == old(Delivered()) + [b]
      ensures pos == (if old(pos) + 1 == windowSize then 0 else old(pos) + 1)
    {
      ghost var before := buffer[..];
      ghost var delivered := Delivered();
      buffer[pos] := b;
      assert buffer[..] == before[pos := b];
      RingPut(before, pos, windowSize, history, b);
      pos := pos + 1;
      history := history + [b];
      assert Pending() == old(Pending()) + [b] by {
        assert buffer[streamPos..pos] == before[streamPos..pos - 1] + [b];
      }
      if pos >= windowSize {
        var _ := Flush();
      }
    }

    /** `GetByte(distance)`: the byte distance + 1 back. The index is computed in uint
        arithmetic, so a distance beyond the window can land outside the buffer. */
    function GetByte(distance: UInt32): (r: Result<Byte>)
      reads this, buffer
      requires Window()
      ensures distance < windowSize ==> r.Success?
      ensures distance < |history| && distance < windowSize ==> r == Success(history[|history| - 1 - distance])
      ensures r.Failure? ==> r.error == IndexOutOfRange
    {
      var i := BackIndex(pos, distance, windowSize);
      assert distance < windowSize ==> i == Slot(pos, distance, windowSize) by {
        if distance < windowSize {
          BackIndexIsSlot(pos, distance, windowSize);
        }
      }
      if i < buffer.Length then Success(buffer[i]) else Failure(IndexOutOfRange)
    }

    /** So `GetByte(0)` right after `PutByte(b)` is b. */
    lemma GetAfterPut(b: Byte)
      requires Window() && |history| > 0 && history[|history| - 1] == b
      ensures GetByte(0) == Success(b)
    {
    }

    /** `CopyBlock(distance, len)`: len bytes, each copied from distance + 1 back, one `PutByte`
        at a time. The source index wraps to 0 at the end of the window before every read, so
        every read is inside the buffer whatever the distance. */
    method CopyBlock(distance: UInt32, len: UInt32)
      requires Valid() && stream != null
      modifies this, buffer, stream
      ensures Valid() && stream == old(stream) && windowSize == old(windowSize)
      ensures |history| == |old(history)| + len
      ensures history[..|old(history)|] == old(history)
      ensures Delivered() == old(Delivered()) + history[|old(history)|..]
      ensures distance < |old(history)| && distance < windowSize ==>
        history == old(history) + Copied(old(history), distance, len)
    {
      ghost var h0, d0 := history, Delivered();
      var src: UInt32 := BackIndex(pos, distance, windowSize);
      if distance < windowSize {
        BackIndexIsSlot(pos, distance, windowSize);
      }
      var left: UInt32 := len;
      ghost var done: nat := 0;
      while left > 0
        invariant Valid() && stream == old(stream) && windowSize == old(windowSize)
        invariant 0 <= left <= len && done == len - left && |history| == |h0| + done && history[..|h0|] == h0
        invariant Delivered() == d0 + history[|h0|..]
        invariant distance < windowSize ==> Wrapped(src, windowSize) == Slot(pos, distance, windowSize)
        invariant distance < |h0| && distance < windowSize ==> history == h0 + Copied(h0, distance, done)
        decreases left
      {
        src := CopyByte(src, distance, h0, d0, done);
        left := left - 1;
        done := done + 1;
      }
    }

    /** One turn of the copy loop: wrap the source index, put the byte found there, and advance
        the index; the window, the delivered bytes and the copy so far stay as the loop has them. */
    method CopyByte(src: UInt32, ghost distance: UInt32, ghost h0: seq<Byte>, ghost d0: seq<Byte>, ghost done: nat)
      returns (next: UInt32)
      requires Valid() && stream != null
      requires |history| == |h0| + done && history[..|h0|] == h0 && Delivered() == d0 + history[|h0|..]
      requires distance < windowSize ==> Wrapped(src, windowSize) == Slot(pos, distance, windowSize)
      requires distance < |h0| && distance < windowSize ==> history == h0 + Copied(h0, distance, done)
      modifies this, buffer, stream
      ensures Valid() && stream == old(stream) && windowSize == old(windowSize)
      ensures |history| == |h0| + done + 1 && history[..|h0|] == h0 && Delivered() == d0 + history[|h0|..]
      ensures distance < windowSize ==> Wrapped(next, windowSize) == Slot(pos, distance, windowSize)
      ensures distance < |h0| && distance < windowSize ==> history == h0 + Copied(h0, distance, done + 1)
    {
      var i := if src >= windowSize then 0 else src;
      var x := buffer[i];
      ghost var h := history;
      if distance < windowSize {
        SlotStep(pos, distance, windowSize);
        if distance < |h0| {
          RingRead(buffer[..], pos, windowSize, h, distance);
          assert x == h[|h| - 1 - distance];
          CopiedStep(h0, distance, done, h);
        }
      }
      ghost var delivered := Delivered();
      PutByte(x);
      DeliveredExtended(h0, h, x, d0, delivered, Delivered());
      next := i + 1;
    }

    /** `ReleaseStream`: flush, then detach the stream. */
    method ReleaseStream() returns (ok: Outcome)
      requires Valid()
      modifies this, stream
      ensures Valid() && windowSize == old(windowSize) && history == old(history)
      ensures ok.Fail? <==> old(pos != streamPos) && old(stream) == null
      ensures ok.Fail? ==> ok.error == NullReference && unchanged(this)
      ensures ok.Pass? ==>
        stream == null && streamPos == pos == old(pos) &&
        (old(stream) != null ==> old(stream).bytes == old(stream.bytes) + old(Pending()))
    {
      ok := Flush();
      if ok.Fail? {
        return;
      }
      stream := null;
    }

    /** `Init(stream, solid)`: release the old stream, attach the new one, and unless the stream
        continues a solid archive start the window afresh. */
    method Init(s: ByteSink?, solid: bool) returns (ok: Outcome)
      requires Valid()
      modifies this, stream
      ensures Valid() && windowSize == old(windowSize)
      ensures ok.Fail? <==> old(pos != streamPos) && old(stream) == null
      ensures ok.Fail? ==> ok.error == NullReference && unchanged(this)
      ensures ok.Pass? ==>
        stream == s && (old(stream) != null ==> old(stream).bytes == old(stream.bytes) + old(Pending()))
      ensures ok.Pass? && solid ==> pos == streamPos == old(pos) && history == old(history)
      ensures ok.Pass? && !solid ==> pos == streamPos == 0 && history == []
    {
      ok := ReleaseStream();
      if ok.Fail? {
        return;
      }
      stream := s;
      if !solid {
        streamPos := 0;
        pos := 0;
        history := [];
      }
    }
  }
}
