// The LZMA coder behind OpenCTM's compressed blocks. The SevenZip encoder and
// decoder are not part of this model: a `Coder` supplies them as functions, and
// `Lossless` states the one property the stream layer relies on. What is
// modelled is what CtmOutputStream.writeCompressedData decides around the
// coder: the encoder settings derived from the compression level, and the
// framing of a block.
module Lzma {
  import opened Machine
  import opened Wrappers
  import opened ByteCoding

  /** The values `writeCompressedData` passes with its property ids, in the same order:
      DictionarySize, PosStateBits, LitContextBits, LitPosBits, Algorithm, NumFastBytes,
      MatchFinder, EndMarker. */
  datatype EncoderSettings = EncoderSettings(
    dictionarySize: Int32,
    posStateBits: int,
    litContextBits: int,
    litPosBits: int,
    algorithm: int,
    numFastBytes: int,
    matchFinder: string,
    endMarker: bool)

  /** An LZMA implementation: the 5 property bytes `WriteCoderProperties` emits for some
      settings, the encoder, and the decoder, which receives the property bytes read back,
      the stream from the payload start on, and the expected output size, and yields the
      decoded bytes or None when it throws. */
  datatype Coder = Coder(
    properties: EncoderSettings -> seq<Byte>,
    encode: (EncoderSettings, seq<Byte>) -> seq<Byte>,
    decode: (seq<Byte>, seq<Byte>, int) -> Option<seq<Byte>>)

  /** What the stream layer assumes of the coder: five property bytes, and a decoder that
      restores the encoder's input whatever follows the payload in the stream. */
  ghost predicate Lossless(c: Coder)
  {
    (forall s :: |c.properties(s)| == 5) &&
    (forall s, x, rest :: DecodedAfter(c, s, x, rest) == Some(x))
  }

  /** What the decoder yields for the payload of x encoded with settings s, followed by rest. */
  ghost function DecodedAfter(c: Coder, s: EncoderSettings, x: seq<Byte>, rest: seq<Byte>): Option<seq<Byte>>
  {
    c.decode(c.properties(s), c.encode(s, x) + rest, |x|)
  }

  /** `1 << n` for n = 0 .. 31, read as unsigned. */
  const POWERS_OF_TWO: seq<nat> := [0x1, 0x2, 0x4, 0x8, 0x10, 0x20, 0x40, 0x80, 0x100, 0x200, 0x400, 0x800, 0x1000, 0x2000, 0x4000, 0x8000, 0x10000, 0x20000, 0x40000, 0x80000, 0x100000, 0x200000, 0x400000, 0x800000, 0x1000000, 0x2000000, 0x4000000, 0x8000000, 0x10000000, 0x20000000, 0x40000000, 0x80000000]

  lemma PowersOfTwoDouble()
    ensures |POWERS_OF_TWO| == 32 && POWERS_OF_TWO[0] == 1
    ensures forall i :: 0 <= i < 31 ==> POWERS_OF_TWO[i + 1] == 2 * POWERS_OF_TWO[i]
  {
  }

  /** `1 << n` on int: C# masks the shift count to 5 bits, and a shift into bit 31 is negative. */
  function ShiftLeftOne(n: int): Int32
  {
    Wrap32(POWERS_OF_TWO[n % 32])
  }

  /** The dictionary size of a compression level. */
  function DictionarySize(level: Int32): Int32
  {
    if level <= 5 then ShiftLeftOne(level * 2 + 14)
    else if level == 6 then ShiftLeftOne(25)
    else ShiftLeftOne(26)
  }

  /** The full settings of a compression level. */
  function SettingsFor(level: Int32): EncoderSettings
  {
    EncoderSettings(DictionarySize(level), 2, 3, 0, 2, if level < 7 then 32 else 64, "bt4", true)
  }

  /** Levels 0 to 5 use 2^(2*level + 14) bytes of dictionary, from 16 KiB up to 16 MiB; level 6
      uses 32 MiB and higher levels 64 MiB. */
  lemma DictionarySizeLevels()
    ensures DictionarySize(0) == 0x4000 && DictionarySize(1) == 0x1_0000
    ensures DictionarySize(2) == 0x4_0000 && DictionarySize(3) == 0x10_0000
    ensures DictionarySize(4) == 0x40_0000 && DictionarySize(5) == 0x100_0000
    ensures DictionarySize(6) == 0x200_0000
  {
    assert DictionarySize(0) == ShiftLeftOne(14) == 0x4000;
    assert DictionarySize(1) == ShiftLeftOne(16) == 0x1_0000;
    assert DictionarySize(2) == ShiftLeftOne(18) == 0x4_0000;
    assert DictionarySize(3) == ShiftLeftOne(20) == 0x10_0000;
    assert DictionarySize(4) == ShiftLeftOne(22) == 0x40_0000;
    assert DictionarySize(5) == ShiftLeftOne(24) == 0x100_0000;
  }

  /** Every level from 7 up uses 64 MiB. */
  lemma DictionarySizeHigh(level: Int32)
    requires level >= 7
    ensures DictionarySize(level) == 0x400_0000
  {
  }

  /** Only levels from 7 on use 64 fast bytes; the other settings besides the dictionary size
      are the same for every level. */
  lemma SettingsForLevels(level: Int32)
    ensures SettingsFor(level).dictionarySize == DictionarySize(level)
    ensures SettingsFor(level).numFastBytes == (if level < 7 then 32 else 64)
    ensures var s := SettingsFor(level);
      s.posStateBits == 2 && s.litContextBits == 3 && s.litPosBits == 0 && s.algorithm == 2
      && s.matchFinder == "bt4" && s.endMarker
  {
  }

  /** The default compression level of `CtmOutputStream(Stream)`. */
  const DEFAULT_COMPRESSION_LEVEL: Int32 := 5

  /** A compressed block as `writeCompressedData` frames it: the payload length, the coder
      properties, then the payload. */
  function CompressedBlock(c: Coder, level: Int32, data: seq<Byte>): seq<Byte>
  {
    var s := SettingsFor(level);
    var payload := c.encode(s, data);
    LittleEndian(Wrap32(|payload|)) + c.properties(s) + payload
  }

  /** A block is the four size bytes, the five property bytes and the payload. */
  lemma CompressedBlockSize(c: Coder, level: Int32, data: seq<Byte>)
    requires Lossless(c)
    ensures |CompressedBlock(c, level, data)| == 9 + |c.encode(SettingsFor(level), data)|
  {
    assert |c.properties(SettingsFor(level))| == 5;
  }
}
