# OpenCTM codec and paged-LOD streaming, modelled in Dafny

This project models the core of a Unity package that streams 3D city models. It has two halves.

**The OpenCTM mesh codec** (`Assets/OpenCTM`) reads and writes compressed triangle meshes:

- the `OCTM` file envelope: header, decoder dispatch on the method tag, and the integrity check of the decoded mesh;
- the splitter that cuts an oversized decoded mesh into shards;
- the RAW, MG1 and MG2 body formats;
- the binary layer beneath them: little-endian ints, four-character tags, length-prefixed strings, zig-zag signed coding, the byte-plane interleaving of packed arrays, and LZMA framing;
- the LZ output window, a ring buffer with flush and back-reference copy.

MG1 canonicalises triangles and delta-codes their indices. MG2 also quantises vertices onto a grid, sorts them by cell, and delta-codes positions, normals, UV maps and attributes.

**The streaming side** (`Assets/Unity3MXB`, `Assets/Unity3mx`) covers the following:

- it culls tiles against camera frustums with a plane bitmask;
- it refines or coarsens a tree of paged levels of detail, through the per-tile `ChildrenStatus` cycle Unstaged, Staging, Staged, Commited;
- it counts the tiles being staged and the tiles committed;
- it admits stage requests through a request manager that bounds the number running at once;
- it loads tile files (3MXB and 3MX), converting the decoded meshes and point clouds to the engine's conventions.

Floats are modelled by their 32-bit patterns, compared exactly (`Machine.Float32`). The arithmetic on them (quantisation, square roots, trigonometry, `1 - v`) is a parameter: the `FloatArith.Arith` and `FloatArith.Angular` records of functions. C# `int` arithmetic wraps explicitly (`Machine.Wrap32`). The LZMA coder is a `Lzma.Coder` record of functions. The round trips assume the predicate `Lzma.Lossless` about it.

Streams are classes over a byte sequence. Each stream method is proved equal to a pure specification function on the bytes and the position, and the round trips are lemmas about those functions. The in-place algorithms keep their arrays: the MG1 index coding, the MG2 vertex and normal tables, the packed-array interleaving and the LZ ring buffer.

The tile trees are classes holding an arena of nodes: a child's id is greater than its parent's. Their methods state the new status of each tile and how the counters move. The combined effect of a traversal is stated as a step relation, composed transitively through the recursion. Every staged or staging tile is counted in the component's `stagingCount`, and every commit in `loadCount`. Stage tasks and requests are only appended, one per tile that started staging.

Where the source and its evident intent part, the model follows the source as written. The intended version is defined beside it, with the property it was meant to have proved (see "## Findings").

## Model

| member | source | states |
|---|---|---|
| Tags.GetTagInt | Assets/OpenCTM/io/CtmFileReader.cs:327-334 | a tag succeeds exactly when it has four characters, and its little-endian bytes are the tag's ASCII bytes |
| Tags.UnpackGetTagInt | Assets/OpenCTM/io/CtmFileReader.cs:301-310 | `unpack` inverts `getTagInt` on every four-character ASCII tag |
| Tags.GetTagIntUnpack | Assets/OpenCTM/io/CtmFileReader.cs:301-334 | `getTagInt` inverts `unpack` on every int whose four bytes are ASCII |
| Tags.TagConstants | Assets/OpenCTM/compression/MeshDecoder.cs:7-11 | each section and codec constant is `getTagInt` of its four-character name |
| Tags.SectionTagsDistinct | Assets/OpenCTM/compression/MG2Decoder.cs:7-9 | no two section or codec tags coincide |
| Lzma.DictionarySizeLevels | Assets/OpenCTM/io/CtmOutputStream.cs:120-127 | levels 0 to 5 use 2^(2*level+14) bytes of dictionary, level 6 uses 2^25 |
| Lzma.DictionarySizeHigh | Assets/OpenCTM/io/CtmOutputStream.cs:125-127 | every level from 7 up uses 2^26 bytes |
| Lzma.SettingsForLevels | Assets/OpenCTM/io/CtmOutputStream.cs:128-138 | the encoder properties of a level: 32 fast bytes below level 7 and 64 from 7 on, the other fixed values for every level |
| Lzma.CompressedBlockSize | Assets/OpenCTM/io/CtmOutputStream.cs:146-151 | a compressed block is four length bytes, five property bytes and the payload |
| FloatArith.FloatMin | Assets/OpenCTM/compression/MG2Encoder.cs:92-147 | `Math.Min` on floats returns one of its arguments, no larger than either, and NaN exactly when either is NaN |
| FloatArith.FloatMax | Assets/OpenCTM/compression/MG2Encoder.cs:92-147 | `Math.Max` on floats returns one of its arguments, no smaller than either, and NaN exactly when either is NaN |
| FloatArith.SingleOfSmall | Assets/OpenCTM/compression/MG2Encoder.cs:207-240 | an int of magnitude at most 2^24 converts to float exactly |
| FloatArith.SingleOfFirstInexact | Assets/OpenCTM/compression/MG2Encoder.cs:207-240 | 2^24+1 is the first int the conversion to float does not keep: it becomes 2^24 |
| ByteCoding.LittleEndianRoundTrip | Assets/OpenCTM/io/CtmInputStream.cs:36-47 | `readLittleInt` reads back the int `writeLittleInt` wrote, whatever follows it |
| ByteCoding.ReadLittleEndianInverse | Assets/OpenCTM/io/CtmOutputStream.cs:32-39 | `writeLittleInt` of the int read from four bytes writes those four bytes again |
| ByteCoding.LittleEndianIntsAt | Assets/OpenCTM/io/CtmOutputStream.cs:41-45 | element i of an int array occupies bytes 4i to 4i+3 of what `writeLittleIntArray` writes |
| ByteCoding.FloatBitsRoundTrip | Assets/OpenCTM/io/CtmInputStream.cs:58-80 | reinterpreting a float's bits as an int and back gives the same float |
| ByteCoding.UnZigZagZigZag | Assets/OpenCTM/io/CtmInputStream.cs:99-102 | the signed reading of `readPackedInts` undoes the zig-zag coding of `writePackedInts` for every 32-bit int, int.MinValue included |
| ByteCoding.ZigZagUnZigZag | Assets/OpenCTM/io/CtmOutputStream.cs:70-73 | the zig-zag coding undoes the signed reading: the coding is a bijection of the 32-bit ints |
| ByteCoding.ZigZagSmall | Assets/OpenCTM/io/CtmOutputStream.cs:72 | non-negative v below 2^30 codes to 2v, negative v from -2^30 codes to -2v-1 |
| ByteCoding.UntransposedTransposed | Assets/OpenCTM/io/CtmInputStream.cs:96-105 | reading a table back row by row undoes its column-by-column storage |
| ByteCoding.TransposedUntransposed | Assets/OpenCTM/io/CtmOutputStream.cs:67-76 | storing column by column undoes reading row by row |
| ByteCoding.DeinterleavedInterleaved | Assets/OpenCTM/io/CtmInputStream.cs:154-167 | `interleavedRetrive` recovers every word `interleavedInsert` stored in the four byte planes |
| ByteCoding.InterleavedDeinterleaved | Assets/OpenCTM/io/CtmOutputStream.cs:100-105 | re-inserting the retrieved words rebuilds the same byte planes |
| ByteCoding.TransposedAt | Assets/OpenCTM/io/CtmOutputStream.cs:74 | row i, column k of the table is stored at position i + k*count |
| ByteCoding.UnpackedPacked | Assets/OpenCTM/io/CtmInputStream.cs:91-107 | the ints `readPackedInts` rebuilds from the bytes `writePackedInts` compressed are the ints written, signed or not |
| ByteCoding.PackedBytesAt | Assets/OpenCTM/io/CtmOutputStream.cs:100-105 | the four bytes of cell (i, k) sit in the four planes at i + k*count, most significant first |
| ByteCoding.AsciiStringBytes | Assets/OpenCTM/io/CtmInputStream.cs:24-25 | decoding ASCII bytes gives back the string exactly when the string is ASCII |
| ByteCoding.Utf16Length | Assets/OpenCTM/io/CtmOutputStream.cs:24 | `String.Length` counts UTF-16 units: at least the number of characters, and equal to it on ASCII |
| ByteCoding.StringBytes | Assets/OpenCTM/io/CtmOutputStream.cs:22-30 | `writeString` as written: a null string is length 0; otherwise the UTF-16 length, then one ASCII byte per character |
| ByteCoding.StringBytesIntended | Assets/OpenCTM/io/CtmOutputStream.cs:22-30 | the corrected writer: the length prefix counts the bytes that follow it |
| ByteCoding.StringBytesBmp | Assets/OpenCTM/io/CtmOutputStream.cs:22-30 | the two writers agree on every string inside the Basic Multilingual Plane, whose prefix then counts its bytes |
| ByteCoding.StringBytesOverstates | Assets/OpenCTM/io/CtmOutputStream.cs:24-26 | for one emoji the prefix says 2 while a single '?' byte follows |
| CtmOutput.CtmOutputStream.WriteLittleInt | Assets/OpenCTM/io/CtmOutputStream.cs:32-39 | appends the four little-endian bytes of the int |
| CtmOutput.CtmOutputStream.WriteString | Assets/OpenCTM/io/CtmOutputStream.cs:22-30 | appends exactly the as-written string encoding |
| CtmOutput.CtmOutputStream.WriteLittleIntArray | Assets/OpenCTM/io/CtmOutputStream.cs:41-45 | appends every element's four bytes in turn |
| CtmOutput.CtmOutputStream.WriteLittleFloat | Assets/OpenCTM/io/CtmOutputStream.cs:47-51 | appends the float's bit pattern as a little-endian int |
| CtmOutput.CtmOutputStream.WriteLittleFloatArray | Assets/OpenCTM/io/CtmOutputStream.cs:53-57 | appends every float's bit pattern in turn |
| CtmOutput.CtmOutputStream.WritePackedInts | Assets/OpenCTM/io/CtmOutputStream.cs:59-79 | fails without writing exactly when the data is shorter than count*size (or the buffer length overflows); otherwise appends the compressed block of the interleaved, optionally zig-zagged table |
| CtmOutput.CtmOutputStream.WritePackedFloats | Assets/OpenCTM/io/CtmOutputStream.cs:81-98 | the same over the floats' bit patterns, never zig-zagged |
| CtmOutput.CtmOutputStream.Interleave | Assets/OpenCTM/io/CtmOutputStream.cs:64-76 | the nested loops leave the buffer equal to the packed bytes of the table |
| CtmOutput.CtmOutputStream.InterleavedInsert | Assets/OpenCTM/io/CtmOutputStream.cs:100-105 | stores the four bytes of the value stride apart, most significant at offset, and changes nothing else |
| CtmOutput.CtmOutputStream.WriteCompressedData | Assets/OpenCTM/io/CtmOutputStream.cs:119-152 | appends the payload length, the coder properties and the payload for the stream's compression level |
| CtmOutput.CellsDistinct | Assets/OpenCTM/io/CtmOutputStream.cs:74 | no two cells of the table share a buffer position, so no insert overwrites another |
| CtmOutput.FillingAll | Assets/OpenCTM/io/CtmOutputStream.cs:67-76 | once every row has been filled the buffer holds the words of the packed table |
| CtmInput.BytesAt | Assets/OpenCTM/io/CtmInputStream.cs:20 | `ReadBytes(k)` returns at most k bytes, exactly the k bytes at the position when there are enough, and fewer only at the end of the stream |
| CtmInput.IntAt | Assets/OpenCTM/io/CtmInputStream.cs:36-47 | `readLittleInt` succeeds exactly when four bytes remain, and then moves four bytes on |
| CtmInput.IntsAt | Assets/OpenCTM/io/CtmInputStream.cs:49-56 | a negative count fails; a success returns count ints and moves 4*count bytes on |
| CtmInput.FloatAt | Assets/OpenCTM/io/CtmInputStream.cs:76-80 | `readLittleFloat` is the int read, reinterpreted |
| CtmInput.FloatsAt | Assets/OpenCTM/io/CtmInputStream.cs:82-89 | `readLittleFloatArray` succeeds and fails as `readLittleIntArray` does, with the ints reinterpreted |
| CtmInput.PackedIntsAt | Assets/OpenCTM/io/CtmInputStream.cs:91-107 | a success returns the wrapped count*size elements |
| CtmInput.PackedFloatsAt | Assets/OpenCTM/io/CtmInputStream.cs:111-128 | `readPackedFloats` is the unsigned `readPackedInts`, reinterpreted, with the same errors |
| CtmInput.RepeatedFails | Assets/OpenCTM/io/CtmInputStream.cs:49-56 | once one of a run of reads fails, the whole run fails with that error |
| CtmInput.CtmInputStream.ReadByte | Assets/OpenCTM/io/CtmInputStream.cs:38-41 | returns the byte at the position and moves on, or fails at the end of the stream without moving |
| CtmInput.CtmInputStream.ReadBytes | Assets/OpenCTM/io/CtmInputStream.cs:20 | returns what `BytesAt` says and moves past it |
| CtmInput.CtmInputStream.ReadLittleInt | Assets/OpenCTM/io/CtmInputStream.cs:36-47 | returns and moves as `IntAt` says |
| CtmInput.CtmInputStream.ReadLittleIntArray | Assets/OpenCTM/io/CtmInputStream.cs:49-56 | returns and moves as `IntsAt` says |
| CtmInput.CtmInputStream.ReadLittleFloat | Assets/OpenCTM/io/CtmInputStream.cs:76-80 | returns and moves as `FloatAt` says |
| CtmInput.CtmInputStream.ReadLittleFloatArray | Assets/OpenCTM/io/CtmInputStream.cs:82-89 | returns and moves as `FloatsAt` says |
| CtmInput.CtmInputStream.ReadString | Assets/OpenCTM/io/CtmInputStream.cs:16-29 | returns and moves as `StringAt` says |
| CtmInput.CtmInputStream.ReadCompressedData | Assets/OpenCTM/io/CtmInputStream.cs:131-152 | returns and moves as `CompressedAt` says: past the payload by the stored length |
| CtmInput.CtmInputStream.ReadPackedInts | Assets/OpenCTM/io/CtmInputStream.cs:91-107 | returns and moves as `PackedIntsAt` says |
| CtmInput.CtmInputStream.ReadPackedFloats | Assets/OpenCTM/io/CtmInputStream.cs:111-128 | returns and moves as `PackedFloatsAt` says |
| CtmInput.CtmInputStream.ReadRow | Assets/OpenCTM/io/CtmInputStream.cs:97-104 | one inner loop appends row i of the stored table |
| CtmInput.RetrievedInRow | Assets/OpenCTM/io/CtmInputStream.cs:98-103 | the value retrieved for row i, column k is element k of row i of the stored table |
| CtmInput.ReadLittleIntWritten | Assets/OpenCTM/io/CtmInputStream.cs:36-47 | `readLittleInt` reads back what `writeLittleInt` wrote |
| CtmInput.ReadLittleIntArrayWritten | Assets/OpenCTM/io/CtmInputStream.cs:49-56 | `readLittleIntArray` reads back what `writeLittleIntArray` wrote |
| CtmInput.ReadLittleFloatArrayWritten | Assets/OpenCTM/io/CtmInputStream.cs:82-89 | `readLittleFloatArray` reads back what `writeLittleFloatArray` wrote |
| CtmInput.ReadStringWritten | Assets/OpenCTM/io/CtmInputStream.cs:16-29 | `readString` reads back what `writeString` wrote whenever the prefix counts the bytes (every string in the Basic Multilingual Plane) |
| CtmInput.ReadStringIntended | Assets/OpenCTM/io/CtmInputStream.cs:16-29 | with the corrected writer every string reads back, emoji included |
| CtmInput.ReadAsciiStringWritten | Assets/OpenCTM/io/CtmInputStream.cs:16-29 | an ASCII string comes back unchanged |
| CtmInput.ReadStringAsWrittenOverreads | Assets/OpenCTM/io/CtmInputStream.cs:18-25 | an emoji followed by 'A' reads back as "?A": the reader takes the next field's byte into the string |
| CtmInput.ReadCompressedWritten | Assets/OpenCTM/io/CtmInputStream.cs:131-152 | a block `writeCompressedData` wrote reads back, followed by anything, with a lossless coder |
| CtmInput.ReadPackedIntsWritten | Assets/OpenCTM/io/CtmInputStream.cs:91-107 | `readPackedInts` reads back what `writePackedInts` wrote, signed or not |
| CtmInput.ReadPackedFloatsWritten | Assets/OpenCTM/io/CtmInputStream.cs:111-128 | `readPackedFloats` reads back what `writePackedFloats` wrote |
| MeshData.InfoHasNormals | Assets/OpenCTM/io/MeshInfo.cs:40-43 | `hasNormals` holds exactly when bit 0 of the flags is set |
| MeshData.InfoHasNormalsOtherBits | Assets/OpenCTM/io/MeshInfo.cs:40-43 | changing any flag bit but bit 0 leaves `hasNormals` unchanged |
| MeshData.AttributeIntegrity | Assets/OpenCTM/data/AttributeData.cs:21-23 | `precision > 0` holds for exactly the float patterns with the sign bit clear, not zero and not NaN |
| MeshData.StandardPrecisions | Assets/OpenCTM/data/AttributeData.cs:7-8 | the standard UV precision 2^-12 and attribute precision 2^-8 pass the integrity check |
| MeshData.StringEquals | Assets/OpenCTM/data/AttributeData.cs:40-45 | `String.Equals` on a null receiver throws; otherwise it is equality, false for a null argument |
| MeshData.AttributeEquals | Assets/OpenCTM/data/AttributeData.cs:34-53 | two maps are equal exactly when names and material names are equal, the precisions compare equal as numbers, and the values are equal; a null name on the receiver throws |
| MeshData.AttributeEqualsNullMaterial | Assets/OpenCTM/data/AttributeData.cs:43 | a map with a null material name, as every decoded attribute map has, makes `Equals` throw even against itself |
| MeshData.VertexCount | Assets/OpenCTM/data/Mesh.cs:33-35 | the number of whole three-float vertices |
| MeshData.TriangleCount | Assets/OpenCTM/data/Mesh.cs:45-47 | the number of whole three-index triangles |
| MeshData.CheckIntegrityAsWritten | Assets/OpenCTM/data/Mesh.cs:77-130 | the integrity check as written passes only meshes with a vertex, a whole non-empty triangle list and every index below the float count (negative indices pass) |
| MeshData.CheckIntegrity | Assets/OpenCTM/data/Mesh.cs:77-130 | the intended check passes exactly the well-formed meshes (every index a vertex number, every value finite), and fails with InvalidData or, for a null attribute array, NullReference |
| MeshData.CheckIntegrityAsWrittenAcceptsMissingVertex | Assets/OpenCTM/data/Mesh.cs:90-95 | one vertex with the triangle (0, 1, 2) passes the written check and fails the intended one |
| MeshData.CheckIntegrityAsWrittenAcceptsNegative | Assets/OpenCTM/data/Mesh.cs:90-95 | the triangle (-1, 0, 0) passes the written check and fails the intended one |
| MeshData.CheckIntegrityStricter | Assets/OpenCTM/data/Mesh.cs:90-95 | whatever the intended check accepts the written one accepts |
| MeshData.CheckIntegrityAgrees | Assets/OpenCTM/data/Mesh.cs:77-130 | the intended check passes exactly the meshes the written one passes whose indices all name vertices |
| MeshData.ArrayEquals | Assets/OpenCTM/data/Mesh.cs:196-212 | null equals only null; otherwise the arrays are equal exactly when a is no longer than b and agrees with it on a's length, and a longer a that agrees throws IndexOutOfRange |
| MeshData.ElementsEqualFrom | Assets/OpenCTM/data/Mesh.cs:206-211 | the comparison loop succeeds exactly when the rest of a agrees with b and throws exactly when b runs out first |
| MeshData.DeepEquals | Assets/OpenCTM/data/Mesh.cs:214-224 | a null array throws; different lengths are unequal; equal lengths compare map by map |
| MeshData.MapsEqualFrom | Assets/OpenCTM/data/Mesh.cs:218-222 | the maps are equal exactly when every pair is, and a null dereference comes from some pair |
| MeshData.MeshEquals | Assets/OpenCTM/data/Mesh.cs:172-194 | two meshes are equal exactly when vertices, normals, indices and both map arrays are equal in that order |
| MeshData.AttributeEqualsReflexive | Assets/OpenCTM/data/AttributeData.cs:34-53 | a map with names and a non-NaN precision equals itself |
| MeshData.MeshEqualsReflexive | Assets/OpenCTM/data/Mesh.cs:172-194 | a mesh whose maps all have names and non-NaN precisions equals itself |
| MeshData.MeshEqualsNullMaterial | Assets/OpenCTM/data/Mesh.cs:187-190 | a mesh with a decoded attribute map (null material name) cannot be compared with itself: `Equals` throws |
| Grids.CheckIntegrity | Assets/OpenCTM/data/Grid.cs:34-56 | passes exactly when every array has three entries, every division is at least 1 and no maximum compares below its minimum |
| Grids.FromStream | Assets/OpenCTM/data/Grid.cs:16-20 | reads three floats of min, three of max and three ints of division |
| Grids.WriteToStream | Assets/OpenCTM/data/Grid.cs:28-32 | appends min, max and division in that order |
| Grids.GridRoundTrip | Assets/OpenCTM/data/Grid.cs:16-32 | a grid `writeToStream` wrote is read back by `fromStream`, ending 36 bytes on |
| Grids.GetSize | Assets/OpenCTM/data/Grid.cs:70-76 | one cell size per axis |
| CommonAlgorithm.GridPoint | Assets/OpenCTM/compression/CommonAlgorithm.cs:41-60 | `gridIdxToPoint` succeeds exactly when the index decomposes into a cell without a C# division fault, and then gives three coordinates |
| CommonAlgorithm.GridPointFlatIndex | Assets/OpenCTM/compression/CommonAlgorithm.cs:41-60 | the point of a flattened cell inside the grid is that cell's origin: `gridIdxToPoint` undoes `pointToGridIdx`'s flattening |
| CommonAlgorithm.GridIdxToPoint | Assets/OpenCTM/compression/CommonAlgorithm.cs:41-60 | the method's result is the cell origin `GridPoint` specifies, or its error |
| CommonAlgorithm.CellPoint | Assets/OpenCTM/compression/CommonAlgorithm.cs:54-59 | the coordinate loop computes the cell origin |
| CommonAlgorithm.Origins | Assets/OpenCTM/compression/CommonAlgorithm.cs:18-21 | one three-coordinate origin per grid index, in order |
| CommonAlgorithm.OriginsFails | Assets/OpenCTM/compression/CommonAlgorithm.cs:18-21 | once the origins of a prefix fail, the whole sequence fails the same way |
| CommonAlgorithm.RestoredVertices | Assets/OpenCTM/compression/CommonAlgorithm.cs:10-36 | restoring succeeds exactly when there is a grid index for every whole vertex and all their origins succeed, and gives three floats per whole vertex |
| CommonAlgorithm.RestoredFirstX | Assets/OpenCTM/compression/CommonAlgorithm.cs:15-27 | the first vertex's X is taken as stored, even when its grid index equals the initial 0x7fffffff |
| CommonAlgorithm.RestoredVerticesFails | Assets/OpenCTM/compression/CommonAlgorithm.cs:18-21 | when the origins of the first j grid indices fail, restoring fails with that error |
| CommonAlgorithm.RestoreStep | Assets/OpenCTM/compression/CommonAlgorithm.cs:18-34 | one turn of the loop extends the restored offsets, origins and vertices and moves `prevGridIndex` and `prevDeltaX` on |
| CommonAlgorithm.RestoreVertices | Assets/OpenCTM/compression/CommonAlgorithm.cs:10-36 | the loop with `prevGridIndex` and `prevDeltaX` returns exactly `RestoredVertices` |
| CommonAlgorithm.CornerInRangeExact | Assets/OpenCTM/compression/CommonAlgorithm.cs:83-84 | a corner is in range exactly when none of the three wrapping slot expressions `tri[k]*3 + j` leaves the array |
| CommonAlgorithm.CornerInRangeOfIndex | Assets/OpenCTM/compression/CommonAlgorithm.cs:103 | a corner that names a vertex of the mesh has its three slots inside the normal array |
| CommonAlgorithm.NormalSumsStep | Assets/OpenCTM/compression/CommonAlgorithm.cs:73-106 | one more triangle adds its flat normal to the sums of the triangles before it |
| CommonAlgorithm.SmoothNormals | Assets/OpenCTM/compression/CommonAlgorithm.cs:66-124 | `calcSmoothNormals` succeeds exactly when every corner of every whole triangle lies inside the normal array, and then gives three components per whole vertex; otherwise IndexOutOfRange |
| CommonAlgorithm.AddTriangleUntouched | Assets/OpenCTM/compression/CommonAlgorithm.cs:101-105 | a triangle's additions leave alone every slot of a vertex that is none of its corners |
| CommonAlgorithm.TrianglesInRangeOfIndices | Assets/OpenCTM/compression/CommonAlgorithm.cs:73-106 | triangles whose corners name vertices never index outside the normal array |
| CommonAlgorithm.UntouchedVertexSumsZero | Assets/OpenCTM/compression/CommonAlgorithm.cs:70-106 | a vertex that is no corner of any triangle keeps a zero normal sum |
| CommonAlgorithm.AddFlatNormal | Assets/OpenCTM/compression/CommonAlgorithm.cs:101-105 | adds the flat normal to the three corners' slots, in corner order |
| CommonAlgorithm.ScaleVertex | Assets/OpenCTM/compression/CommonAlgorithm.cs:118-120 | scales the three components of vertex i and changes no other slot |
| CommonAlgorithm.NormaliseInPlace | Assets/OpenCTM/compression/CommonAlgorithm.cs:109-121 | the normalising loop scales every vertex's sum by its factor |
| CommonAlgorithm.SumFlatNormals | Assets/OpenCTM/compression/CommonAlgorithm.cs:73-106 | the triangle loop succeeds exactly when the triangles are in range, and then leaves the normal sums |
| CommonAlgorithm.CalcSmoothNormals | Assets/OpenCTM/compression/CommonAlgorithm.cs:66-124 | the two loops on a fresh array return exactly `SmoothNormals` |
| CommonAlgorithm.MakeNormalCoordSys | Assets/OpenCTM/compression/CommonAlgorithm.cs:135-165 | succeeds exactly when the normal lies wholly inside the array (IndexOutOfRange otherwise); the Z row is that normal, and the X row is (-n.y, n.x - n.z, n.y) unless its length exceeds 1e-20 |
| Mg2Deltas.StrideSumsAt | Assets/OpenCTM/compression/MG2Decoder.cs:115-151 | the running sum at p is the delta there plus the sum k places before, wrapping |
| Mg2Deltas.RunningSum | Assets/OpenCTM/compression/MG2Decoder.cs:119-126 | the per-component `prev` the decoder keeps, starting at zero, gives the next running sum |
| Mg2Deltas.StrideSumsDeltas | Assets/OpenCTM/compression/MG2Decoder.cs:115-151 | the decoder's running sums undo the encoder's per-component deltas, under wrap-around |
| Mg2Deltas.StrideDeltasSums | Assets/OpenCTM/compression/MG2Encoder.cs:326-383 | the encoder's deltas undo the running sums |
| Mg2Deltas.VertexDeltas | Assets/OpenCTM/compression/MG2Encoder.cs:207-243 | one X, Y, Z triple per vertex, X coded by the cell test given |
| Mg2Deltas.RestoredOffsets | Assets/OpenCTM/compression/CommonAlgorithm.cs:18-34 | one offset per stored value |
| Mg2Deltas.RestoredVertexDeltas | Assets/OpenCTM/compression/CommonAlgorithm.cs:10-36 | decoding the table the int cell test produces gives back every offset |
| Mg2Deltas.VertexDeltasSmall | Assets/OpenCTM/compression/MG2Encoder.cs:214-239 | on grid indices of magnitude at most 2^24 the float cell test and the int cell test build the same table |
| Mg2Deltas.StoredXSmall | Assets/OpenCTM/compression/MG2Encoder.cs:229-233 | on small grid indices both cell tests store the same X |
| Mg2Deltas.VertexDeltasAsWrittenLosesX | Assets/OpenCTM/compression/MG2Encoder.cs:214-239 | grid indices 2^24 and 2^24+1 compare equal as floats, so X is stored as a difference and decodes as 2 instead of 7 |
| Mg2Deltas.TDivInt | Assets/OpenCTM/compression/CommonAlgorithm.cs:48-50 | C# int division truncates toward zero |
| Mg2Deltas.CellOfInRange | Assets/OpenCTM/compression/CommonAlgorithm.cs:45-52 | every non-negative index decomposes into a cell inside the x and y ranges that flattens back to it |
| Mg2Deltas.CellOfFlatIndex | Assets/OpenCTM/compression/CommonAlgorithm.cs:45-52 | decomposition inverts `pointToGridIdx`'s flattening for every cell inside the grid whose index fits an int |
| Mg2Deltas.FlatIndexExact | Assets/OpenCTM/compression/MG2Encoder.cs:161 | without overflow the flat index is exactly x + dx*(y + dy*z) |
| Mg2Deltas.CellUnique | Assets/OpenCTM/compression/MG2Encoder.cs:161 | two cells inside the x and y ranges with the same flat index are the same cell |
| SortableVertices.CompareX | Assets/OpenCTM/data/SortableVertex.cs:41-47 | -1 exactly when x is below y, 1 exactly when above, 0 when neither (NaN and signed zeros included) |
| SortableVertices.CompareToAsWritten | Assets/OpenCTM/data/SortableVertex.cs:37-48 | nonzero when the grid indices differ; the X comparison when they are the same |
| SortableVertices.Compare | Assets/OpenCTM/data/SortableVertex.cs:37-48 | the intended comparison: negative exactly when v comes before o by grid cell and then X, positive exactly when after, zero otherwise |
| SortableVertices.CompareToAsWrittenOnGridIndices | Assets/OpenCTM/data/SortableVertex.cs:39-40 | on non-negative grid indices, as `pointToGridIdx` gives, the wrapping difference has the intended sign |
| SortableVertices.CompareToObject | Assets/OpenCTM/data/SortableVertex.cs:27-35 | 1 for null, the written comparison for a sortable vertex, ArgumentException otherwise |
| SortableVertices.VertexEquals | Assets/OpenCTM/data/SortableVertex.cs:50-58 | equal exactly to a sortable vertex in the same cell whose X compares equal; the original index is ignored |
| SortableVertices.EqualsIffCompareZero | Assets/OpenCTM/data/SortableVertex.cs:37-58 | for non-NaN X, `Equals` holds exactly when `compareTo` is zero |
| SortableVertices.Le | Assets/OpenCTM/compression/MG2Encoder.cs:176-178 | on non-NaN X, v is not after o exactly when the intended comparison is at most zero |
| SortableVertices.LeTotalPreorder | Assets/OpenCTM/compression/MG2Encoder.cs:176-178 | the vertex order is total and transitive but not antisymmetric: tied vertices may end up in either order |
| Triangles.FromArray | Assets/OpenCTM/data/Triangle.cs:9-12 | the triangle holds the three indices at offset |
| Triangles.CopyBack | Assets/OpenCTM/data/Triangle.cs:14-17 | writes the three indices back at offset and changes nothing else |
| Triangles.CompareToAsWritten | Assets/OpenCTM/data/Triangle.cs:29-37 | the wrapping difference of the first unequal elements: zero exactly for equal triangles |
| Triangles.Compare | Assets/OpenCTM/data/Triangle.cs:29-37 | the intended comparison: negative, zero or positive exactly as the lexicographic order says |
| Triangles.CompareToAsWrittenOnIndices | Assets/OpenCTM/data/Triangle.cs:29-37 | on non-negative indices the written comparison has the lexicographic sign |
| Triangles.CompareToAsWrittenOverflows | Assets/OpenCTM/data/Triangle.cs:31 | (int.MinValue, 0, 0) comes first lexicographically, yet the written comparison calls it greater than (1, 0, 0) |
| Triangles.CompareToAsWrittenCycles | Assets/OpenCTM/data/Triangle.cs:29-37 | with a negative index the written comparison is cyclic, so it is no order at all |
| Triangles.CompareToObject | Assets/OpenCTM/data/Triangle.cs:19-27 | 1 for null, ArgumentException for other objects; for a triangle the written comparison, zero exactly for an equal triangle and lexicographic on non-negative indices |
| Triangles.TriangleEquals | Assets/OpenCTM/data/Triangle.cs:39-48 | equal exactly to a triangle with the same three elements |
| Triangles.Le | Assets/OpenCTM/compression/MG1Encoder.cs:27-62 | the sort order: t is not after o lexicographically |
| Triangles.LeTotalOrder | Assets/OpenCTM/compression/MG1Encoder.cs:27-62 | the triangle order is a total order, so the sorted arrangement is unique |
| Sorting.InsertionSortCorrect | Assets/OpenCTM/compression/MG2Encoder.cs:178 | the sort stand-in orders by the given total preorder and keeps exactly the same elements |
| Sorting.SortedUnique | Assets/OpenCTM/compression/MG1Encoder.cs:27-62 | under an antisymmetric order a multiset has one sorted arrangement, so any correct sort gives the same result |
| Sorting.SortSorted | Assets/OpenCTM/compression/MG1Encoder.cs:27-62 | sorting an already sorted arrangement changes nothing |
| Mg1Indices.TrisFlatten | Assets/OpenCTM/compression/MG1Encoder.cs:47-58 | copying triangles out of an index array and back gives the same triangles |
| Mg1Indices.FlattenTris | Assets/OpenCTM/compression/MG1Encoder.cs:47-58 | copying a whole-triangle index array into triangles and back gives the same array |
| Mg1Indices.Rotate | Assets/OpenCTM/compression/MG1Encoder.cs:32-44 | the triangle or one of its two cyclic shifts; a strictly smallest second or third index comes first, otherwise nothing moves |
| Mg1Indices.RotateKeepsWinding | Assets/OpenCTM/compression/MG1Encoder.cs:32-44 | rotating keeps the winding, and the first index is then the smallest unless the other two tie below it |
| Mg1Indices.RotateIdempotent | Assets/OpenCTM/compression/MG1Encoder.cs:32-44 | rotating twice is rotating once |
| Mg1Indices.ArrangedSortedPermutation | Assets/OpenCTM/compression/MG1Encoder.cs:27-59 | the rearranged triangles are in lexicographic order and are the rotated triangles, each as often as before |
| Mg1Indices.ArrangedAsWritten | Assets/OpenCTM/data/Triangle.cs:29-37 | with no negative index the rearranged list is also in the order of the written `compareTo` |
| Mg1Indices.ArrangedIdempotent | Assets/OpenCTM/compression/MG1Encoder.cs:27-59 | rearranging twice is rearranging once |
| Mg1Indices.RestoreDeltaOne | Assets/OpenCTM/compression/MG1Decoder.cs:31-52 | restoring one triangle against its predecessor undoes its deltas |
| Mg1Indices.DeltaRestoreOne | Assets/OpenCTM/compression/MG1Encoder.cs:64-87 | taking one triangle's deltas undoes its restore |
| Mg1Indices.RestoredDeltas | Assets/OpenCTM/compression/MG1Decoder.cs:31-52 | `restoreIndices` inverts `makeIndexDeltas` on every triangle list, wrap-around included |
| Mg1Indices.DeltasRestored | Assets/OpenCTM/compression/MG1Encoder.cs:64-87 | `makeIndexDeltas` inverts `restoreIndices`: every delta list comes from exactly one triangle list |
| Mg1Indices.RotateTriangle | Assets/OpenCTM/compression/MG1Encoder.cs:33-43 | one pass of step 1 rotates triangle i in place and changes no other cell |
| Mg1Indices.RearrangeTriangles | Assets/OpenCTM/compression/MG1Encoder.cs:27-59 | throws without change exactly when the length is not a multiple of 3; otherwise the array holds the rotated, sorted triangles |
| Mg1Indices.DeltaTriangle | Assets/OpenCTM/compression/MG1Encoder.cs:69-85 | one pass replaces triangle i by its deltas against the still original triangle i-1 and changes no other cell |
| Mg1Indices.MakeIndexDeltas | Assets/OpenCTM/compression/MG1Encoder.cs:64-87 | throws without change exactly when the length is not a multiple of 3; otherwise the array holds the deltas of the original triangles |
| Mg1Indices.RestoreTriangle | Assets/OpenCTM/compression/MG1Decoder.cs:33-51 | one pass restores triangle i against the already restored triangle i-1 and changes no other cell |
| Mg1Indices.RestoreIndices | Assets/OpenCTM/compression/MG1Decoder.cs:31-52 | no triangles leave the array alone; otherwise the first triangleCount triangles are restored and the rest is unchanged |
| RawCodec.Tag | Assets/OpenCTM/compression/RawDecoder.cs:10 | `RAW_TAG` and `MG1_TAG` are `getTagInt` of the names "RAW\0" and "MG1\0" |
| RawCodec.IsFormatSupported | Assets/OpenCTM/compression/RawDecoder.cs:124-127 | a codec accepts exactly its own tag with format version 5 |
| RawCodec.FormatsExclusive | Assets/OpenCTM/compression/MG1Decoder.cs:16-19 | no tag and version are accepted by both RAW and MG1 |
| RawCodec.CheckTag | Assets/OpenCTM/compression/RawDecoder.cs:54-60 | passes exactly when the read tag is the expected one; otherwise fails naming both tags |
| RawCodec.TagAtWritten | Assets/OpenCTM/compression/RawDecoder.cs:54-60 | the expected tag written little-endian reads back and advances 4 bytes; any other tag fails naming both |
| RawCodec.MapsAt | Assets/OpenCTM/compression/RawDecoder.cs:37-48 | reading k map sections that succeeds yields k maps |
| RawCodec.RestoredIndices | Assets/OpenCTM/compression/MG1Decoder.cs:9-14 | restoring keeps the array length; more triangles than the array holds fail |
| RawCodec.RawDecodeFails | Assets/OpenCTM/compression/RawDecoder.cs:81-98 | the RAW float reader appends to a list that is never created, so no RAW body decodes |
| RawCodec.ReadTag | Assets/OpenCTM/compression/RawDecoder.cs:24 | reads one int and checks it, exactly as the tag function says, and leaves the stream after it |
| RawCodec.ReadIntArray | Assets/OpenCTM/compression/RawDecoder.cs:63-79 | reads the ints RAW reads one by one, or MG1's packed table, and advances the stream past them |
| RawCodec.ReadFloatArray | Assets/OpenCTM/compression/RawDecoder.cs:83-98 | RAW fails on the missing list; MG1 reads the packed float table and advances past it |
| RawCodec.ReadIndicesSection | Assets/OpenCTM/compression/RawDecoder.cs:24-25 | the INDX tag and triangleCount rows of 3 ints |
| RawCodec.ReadVerticesSection | Assets/OpenCTM/compression/RawDecoder.cs:27-28 | the VERT tag and 3 floats per vertex |
| RawCodec.ReadNormalsSection | Assets/OpenCTM/compression/RawDecoder.cs:31-35 | the NORM section read exactly when the header says there are normals |
| RawCodec.ReadMap | Assets/OpenCTM/compression/RawDecoder.cs:105-122 | a TEXC section (name, material name, 2 floats per vertex) or an ATTR section (name, 4 floats per vertex, no material name) |
| RawCodec.ReadMaps | Assets/OpenCTM/compression/RawDecoder.cs:37-48 | the loop reads count map sections in order and stops at the first failure |
| RawCodec.RestoreDecodedIndices | Assets/OpenCTM/compression/MG1Decoder.cs:11-13 | the in-place restore of the decoded index array gives the restored triangles |
| RawCodec.Decode | Assets/OpenCTM/compression/RawDecoder.cs:15-52 | decoding a body reads the sections in the order RAW writes them and MG1 then restores the indices; the stream ends after what was read |
| RawCodec.Mg1IndexWords | Assets/OpenCTM/compression/MG1Encoder.cs:16-22 | the rearranged, delta-coded words have as many ints as the index array |
| RawCodec.MapsBytesFails | Assets/OpenCTM/compression/RawEncoder.cs:23-34 | once a map fails to encode, the whole list fails with that error |
| RawCodec.PrefixFails | Assets/OpenCTM/compression/RawEncoder.cs:23-34 | a failure among the first i - 1 maps is the failure of the first i |
| RawCodec.MapsBytesStep | Assets/OpenCTM/compression/RawEncoder.cs:23-34 | encoding i + 1 maps is encoding i maps followed by map i |
| RawCodec.WriteFloatArray | Assets/OpenCTM/compression/RawEncoder.cs:42-45 | RAW appends the whole array whatever count and size say; MG1 appends the packed block of count rows |
| RawCodec.WriteIndices | Assets/OpenCTM/compression/MG1Encoder.cs:16-22 | RAW appends the ints as they are; MG1 appends the packed deltas of the rearranged copy and leaves the mesh's array alone |
| RawCodec.WriteMapHeader | Assets/OpenCTM/compression/RawEncoder.cs:24-26 | appends the section tag and the names, nothing else |
| RawCodec.WriteMap | Assets/OpenCTM/compression/RawEncoder.cs:23-34 | appends one TEXC or ATTR section and stops at a failing array write |
| RawCodec.WriteMaps | Assets/OpenCTM/compression/RawEncoder.cs:23-34 | the loop appends the map sections in order and stops at the first failure |
| RawCodec.WriteNormals | Assets/OpenCTM/compression/RawEncoder.cs:17-21 | appends the NORM section exactly when the mesh has normals |
| RawCodec.WriteGeometry | Assets/OpenCTM/compression/RawEncoder.cs:9-21 | appends INDX and the indices, VERT and the vertices, then the normals |
| RawCodec.Encode | Assets/OpenCTM/compression/RawEncoder.cs:7-35 | appends the whole body in the order the decoder reads it; a missing attribute list fails |
| Mg2Decoder.IsFormatSupported | Assets/OpenCTM/compression/MG2Decoder.cs:11-13 | accepts exactly the tag of "MG2\0" with format version 5 |
| Mg2Decoder.FormatsExclusive | Assets/OpenCTM/compression/MG2Decoder.cs:11-13 | no tag and version are accepted by MG2 and by RAW or MG1 |
| Mg2Decoder.HeaderAt | Assets/OpenCTM/compression/MG2Decoder.cs:18-25 | a header that is read has a grid that passes `checkIntegrity`; a corrupt grid is refused |
| Mg2Decoder.VerticesAt | Assets/OpenCTM/compression/MG2Decoder.cs:49-60 | vertices that are read are 3 floats for each of the vcount vertices |
| Mg2Decoder.IndicesCheckAsWritten | Assets/OpenCTM/compression/MG2Decoder.cs:66-71 | the written check passes exactly when no index is above vcount, and fails as invalid data |
| Mg2Decoder.IndicesCheck | Assets/OpenCTM/compression/MG2Decoder.cs:66-71 | the intended check passes exactly when every index is between 0 and vcount - 1 |
| Mg2Decoder.IndicesAt | Assets/OpenCTM/compression/MG2Decoder.cs:62-73 | indices that are read are never above the vertex count |
| Mg2Decoder.AngularNormals | Assets/OpenCTM/compression/MG2Decoder.cs:165-200 | the normals of n vertices are 3n floats |
| Mg2Decoder.RestoredNormals | Assets/OpenCTM/compression/MG2Decoder.cs:156-203 | restored normals have as many floats as the vertices |
| Mg2Decoder.NormalsAt | Assets/OpenCTM/compression/MG2Decoder.cs:75-80 | normals that are read have as many floats as the vertices |
| Mg2Decoder.NormalsSectionAt | Assets/OpenCTM/compression/MG2Decoder.cs:31-34 | the normals are present exactly when the header's flag says so, and then have as many floats as the vertices |
| Mg2Decoder.ScaledPrefixStep | Assets/OpenCTM/compression/MG2Decoder.cs:120-127 | scaling one more running sum extends the scaled prefix by that value |
| Mg2Decoder.RestoredValues | Assets/OpenCTM/compression/MG2Decoder.cs:115-151 | the restored map has as many floats as ints were read |
| Mg2Decoder.Scaled | Assets/OpenCTM/compression/MG2Decoder.cs:124 | scaling keeps the length |
| Mg2Decoder.RestoredValuesOfDeltas | Assets/OpenCTM/compression/MG2Decoder.cs:115-151 | restoring the per-component deltas of whole rows gives back each quantised value times the precision |
| Mg2Decoder.MapHeaderAt | Assets/OpenCTM/compression/MG2Decoder.cs:82-110 | a map header that is read has a precision not at or below zero, and a material name exactly for a UV map |
| Mg2Decoder.MapAt | Assets/OpenCTM/compression/MG2Decoder.cs:82-110 | a map that is read has the shape of its section kind |
| Mg2Decoder.MapsAt | Assets/OpenCTM/compression/MG2Decoder.cs:36-44 | reading k map sections that succeeds yields k maps |
| Mg2Decoder.DecodeAt | Assets/OpenCTM/compression/MG2Decoder.cs:15-47 | a decoded mesh has the vertex count, triangle count, normals and map counts the header announced |
| Mg2Decoder.IndicesCheckStricter | Assets/OpenCTM/compression/MG2Decoder.cs:66-71 | whatever the intended check passes, the written check passes |
| Mg2Decoder.CheckedIndicesSmooth | Assets/OpenCTM/compression/CommonAlgorithm.cs:66-124 | with the intended check, the smooth normals of decoded vertices and indices never index past the vertices |
| Mg2Decoder.IndicesCheckAsWrittenAdmitsVertexCount | Assets/OpenCTM/compression/MG2Decoder.cs:66-71 | the index list [0, 0, 1] over one vertex passes the written check and then fails in the smooth normals |
| Mg2Decoder.ReadHeader | Assets/OpenCTM/compression/MG2Decoder.cs:18-25 | reads the header as the header function says and leaves the stream after it |
| Mg2Decoder.SumGridIndices | Assets/OpenCTM/compression/MG2Decoder.cs:55-57 | the loop turns the grid-index deltas into their running sums |
| Mg2Decoder.ReadVertices | Assets/OpenCTM/compression/MG2Decoder.cs:49-60 | reads the vertices as the vertices function says and leaves the stream after them |
| Mg2Decoder.ReadIndices | Assets/OpenCTM/compression/MG2Decoder.cs:62-73 | reads, restores and checks the indices as the indices function says |
| Mg2Decoder.AngularNormalsStep | Assets/OpenCTM/compression/MG2Decoder.cs:165-200 | one more pass of the loop writes the normal of vertex i and extends the normals of the vertices before it |
| Mg2Decoder.SetTriple | Assets/OpenCTM/compression/MG2Decoder.cs:197-199 | writes the three floats of entry i and no other cell |
| Mg2Decoder.RestoreAngularNormals | Assets/OpenCTM/compression/MG2Decoder.cs:165-200 | the loop fails exactly when fewer ints than 3 per whole vertex were stored; otherwise each vertex gets its normal rebuilt around its smooth normal |
| Mg2Decoder.RestoreNormals | Assets/OpenCTM/compression/MG2Decoder.cs:156-203 | the smooth normals then the loop, as the restored-normals function says |
| Mg2Decoder.ReadNormals | Assets/OpenCTM/compression/MG2Decoder.cs:75-80 | reads the NORM section as the normals function says |
| Mg2Decoder.StoreScaled | Assets/OpenCTM/compression/MG2Decoder.cs:124 | stores one more scaled sum after those already stored |
| Mg2Decoder.RestoreUVCoords | Assets/OpenCTM/compression/MG2Decoder.cs:134-151 | the loop gives the running sums of U and V times the precision |
| Mg2Decoder.Carried | Assets/OpenCTM/compression/MG2Decoder.cs:119-126 | the running sums carried into row i, component j, are four ints |
| Mg2Decoder.CarriedStep | Assets/OpenCTM/compression/MG2Decoder.cs:125 | carrying component j moves the boundary one to the right |
| Mg2Decoder.CarriedRow | Assets/OpenCTM/compression/MG2Decoder.cs:120-127 | the sums after a whole row are those the next row starts from |
| Mg2Decoder.CarriedSum | Assets/OpenCTM/compression/MG2Decoder.cs:123 | adding a component to what `prev` carries gives its running sum |
| Mg2Decoder.RestoreAttribs | Assets/OpenCTM/compression/MG2Decoder.cs:115-129 | the loop gives the running sums of each of the 4 components times the precision |
| Mg2Decoder.ReadMapHeader | Assets/OpenCTM/compression/MG2Decoder.cs:82-110 | reads the map header as the header function says |
| Mg2Decoder.ReadMapValues | Assets/OpenCTM/compression/MG2Decoder.cs:91-92 | reads and restores the map values as the values function says |
| Mg2Decoder.ReadMap | Assets/OpenCTM/compression/MG2Decoder.cs:82-110 | reads one map section as the map function says |
| Mg2Decoder.ReadMaps | Assets/OpenCTM/compression/MG2Decoder.cs:36-44 | the loops read count map sections in order and stop at the first failure |
| Mg2Decoder.Decode | Assets/OpenCTM/compression/MG2Decoder.cs:15-47 | decodes the MG2 body as the decode function says and leaves the stream after it |
| Mg2Encoder.BoxMinBelow | Assets/OpenCTM/compression/MG2Encoder.cs:101-110 | when the lower bound of an axis is a number, no vertex coordinate on that axis is NaN or below it |
| Mg2Encoder.BoxMaxAbove | Assets/OpenCTM/compression/MG2Encoder.cs:101-110 | when the upper bound of an axis is a number, no vertex coordinate on that axis is NaN or above it |
| Mg2Encoder.BoxMins | Assets/OpenCTM/compression/MG2Encoder.cs:101-110 | the lower corner has three coordinates |
| Mg2Encoder.BoxMaxs | Assets/OpenCTM/compression/MG2Encoder.cs:101-110 | the upper corner has three coordinates |
| Mg2Encoder.AtLeastOne | Assets/OpenCTM/compression/MG2Encoder.cs:133-135 | a division below one becomes one; one or more is kept |
| Mg2Encoder.Extents | Assets/OpenCTM/compression/MG2Encoder.cs:118-121 | one extent per axis |
| Mg2Encoder.Shares | Assets/OpenCTM/compression/MG2Encoder.cs:127-129 | one share per extent |
| Mg2Encoder.CellCounts | Assets/OpenCTM/compression/MG2Encoder.cs:130-136 | one count per axis, each at least one |
| Mg2Encoder.Divisions | Assets/OpenCTM/compression/MG2Encoder.cs:123-141 | three divisions |
| Mg2Encoder.GridOf | Assets/OpenCTM/compression/MG2Encoder.cs:92-144 | setting up the grid fails exactly when there are fewer than three floats (the first read throws); otherwise the grid has three-coordinate corners and three divisions |
| Mg2Encoder.SetupGridValid | Assets/OpenCTM/compression/MG2Encoder.cs:92-144 | the grid encloses every vertex, has at least one cell per axis and 4 x 4 x 4 cells when the box is flat, and so passes `checkIntegrity`: the decoder accepts every grid the encoder sets up |
| Mg2Encoder.TakeVertex | Assets/OpenCTM/compression/MG2Encoder.cs:106-109 | one turn of the min/max loop takes vertex i into the box on every axis |
| Mg2Encoder.BoxStep | Assets/OpenCTM/compression/MG2Encoder.cs:105-110 | taking vertex i into the box is `Math.Min`/`Math.Max` coordinate by coordinate |
| Mg2Encoder.BoundingBox | Assets/OpenCTM/compression/MG2Encoder.cs:97-110 | the loops leave the box around all the vertices in two new arrays |
| Mg2Encoder.ComputeExtents | Assets/OpenCTM/compression/MG2Encoder.cs:118-121 | the loop gives the extents of the box |
| Mg2Encoder.ScaleExtents | Assets/OpenCTM/compression/MG2Encoder.cs:126-129 | the loop multiplies each extent by the inverse of their sum |
| Mg2Encoder.DivideExtents | Assets/OpenCTM/compression/MG2Encoder.cs:130-136 | the loop gives each axis its count of cells |
| Mg2Encoder.SetupGrid | Assets/OpenCTM/compression/MG2Encoder.cs:92-144 | the method computes the grid the grid function describes |
| Mg2Encoder.AxisCell | Assets/OpenCTM/compression/MG2Encoder.cs:155-158 | an axis cell is below the division count of that axis |
| Mg2Encoder.GridIndexOfOrigin | Assets/OpenCTM/compression/MG2Encoder.cs:149-162 | a point whose cells are not below the grid gets a grid index whose origin, as `gridIdxToPoint` finds it, is that of its own cell |
| Mg2Encoder.StoreAxisCell | Assets/OpenCTM/compression/MG2Encoder.cs:154-159 | one turn of the per-axis loop stores the cell of axis i and no other |
| Mg2Encoder.PointToGridIdx | Assets/OpenCTM/compression/MG2Encoder.cs:149-162 | the method gives the flattened index x + dx*(y + dy*z) of the point's cell |
| Mg2Encoder.Point | Assets/OpenCTM/compression/MG2Encoder.cs:171 | a point has three coordinates |
| Mg2Encoder.Unsorted | Assets/OpenCTM/compression/MG2Encoder.cs:167-174 | one sortable vertex per vertex, vertex i carrying index i and its own X |
| Mg2Encoder.UnsortedUpTo | Assets/OpenCTM/compression/MG2Encoder.cs:169-174 | the first n sortable vertices carry indices 0 to n - 1 and their own X |
| Mg2Encoder.SortedVertices | Assets/OpenCTM/compression/MG2Encoder.cs:164-180 | as many sorted vertices as vertices |
| Mg2Encoder.PermutedOriginals | Assets/OpenCTM/compression/MG2Encoder.cs:178 | a rearrangement of vertices numbered 0, 1, 2, ... carries every number exactly once |
| Mg2Encoder.SortedVerticesCorrect | Assets/OpenCTM/compression/MG2Encoder.cs:164-180 | the sorted vertices are in grid-cell-then-X order, are the unsorted vertices each as often as before, and number every vertex exactly once |
| Mg2Encoder.MakeSortable | Assets/OpenCTM/compression/MG2Encoder.cs:171-173 | the loop body makes vertex i sortable with its X, grid index and i |
| Mg2Encoder.FillSortable | Assets/OpenCTM/compression/MG2Encoder.cs:167-174 | the fill loop gives the unsorted vertices |
| Mg2Encoder.SortVertices | Assets/OpenCTM/compression/MG2Encoder.cs:164-180 | the method gives the sorted vertices |
| Mg2Encoder.LookUp | Assets/OpenCTM/compression/MG2Encoder.cs:191-193 | finds a sorted position carrying original index k, or none when no sorted vertex carries it |
| Mg2Encoder.Lut | Assets/OpenCTM/compression/MG2Encoder.cs:188 | the lookup table has one entry per vertex |
| Mg2Encoder.LutStep | Assets/OpenCTM/compression/MG2Encoder.cs:191-193 | one more turn of the loop writes that vertex's position over its entry and nothing else |
| Mg2Encoder.ReIndexed | Assets/OpenCTM/compression/MG2Encoder.cs:185-202 | renumbering fails exactly when some index is not a vertex number, with the table access's error; otherwise there are as many new indices as old |
| Mg2Encoder.ReIndexedInverse | Assets/OpenCTM/compression/MG2Encoder.cs:185-202 | when every vertex is sorted, the sorted vertex at an index's new number is the vertex the index named |
| Mg2Encoder.ReIndexIndices | Assets/OpenCTM/compression/MG2Encoder.cs:185-202 | the lookup loop and the renumbering loop compute the renumbering function |
| Mg2Encoder.GridIndices | Assets/OpenCTM/compression/MG2Encoder.cs:28-32 | one grid index per sorted vertex |
| Mg2Encoder.GridIndexDeltas | Assets/OpenCTM/compression/MG2Encoder.cs:28-32 | the loop stores each grid index minus the one before, the first as it is |
| Mg2Encoder.VerticesWithin | Assets/OpenCTM/compression/MG2Encoder.cs:223 | the original indices of the sorted vertices name rows of the vertex table |
| Mg2Encoder.OffsetRow | Assets/OpenCTM/compression/MG2Encoder.cs:228-236 | three fixed-point offsets from the cell origin |
| Mg2Encoder.Offsets | Assets/OpenCTM/compression/MG2Encoder.cs:217-240 | three offsets per sorted vertex |
| Mg2Encoder.VertexTable | Assets/OpenCTM/compression/MG2Encoder.cs:207-243 | the table exists exactly when every grid index maps to a cell origin, and then has three ints per sorted vertex |
| Mg2Encoder.VertexTableRestores | Assets/OpenCTM/compression/MG2Encoder.cs:207-243 | `restoreVertices` on the written table and grid indices places every sorted vertex at its fixed-point offsets from its cell origin, for grid indices up to 2^24 |
| Mg2Encoder.OffsetsStep | Assets/OpenCTM/compression/MG2Encoder.cs:217-240 | the offsets of one more vertex extend those before it |
| Mg2Encoder.VertexDeltasStep | Assets/OpenCTM/compression/MG2Encoder.cs:229-236 | the table of one more vertex extends the table before it |
| Mg2Encoder.StoredXStep | Assets/OpenCTM/compression/MG2Encoder.cs:228-233 | the stored X of one more vertex is its X offset, less the previous X offset when the float grid indices are equal |
| Mg2Encoder.DeltasStep | Assets/OpenCTM/compression/MG2Encoder.cs:217-240 | one turn of the loop keeps the loop's account of origins, offsets, table, `prevGridIndex` and `prevDeltaX` |
| Mg2Encoder.VertexOffsets | Assets/OpenCTM/compression/MG2Encoder.cs:228-236 | the three offsets of one vertex from its cell origin |
| Mg2Encoder.VertexStep | Assets/OpenCTM/compression/MG2Encoder.cs:219-239 | one turn fails exactly where `gridIdxToPoint` fails and otherwise extends the loop's account by one vertex |
| Mg2Encoder.MakeVertexDeltas | Assets/OpenCTM/compression/MG2Encoder.cs:207-243 | the method computes the vertex table |
| Mg2Encoder.IntsOf | Assets/OpenCTM/compression/MG2Encoder.cs:317-318 | a triple as three ints in order |
| Mg2Encoder.NormalRows | Assets/OpenCTM/compression/MG2Encoder.cs:260-319 | three codes per sorted vertex |
| Mg2Encoder.NormalCodes | Assets/OpenCTM/compression/MG2Encoder.cs:260-319 | the codes exist exactly when every sorted vertex has its normal row, and are three per vertex; a missing row fails with an index error |
| Mg2Encoder.NormalTable | Assets/OpenCTM/compression/MG2Encoder.cs:249-321 | the table exists exactly when the smooth normals do and every sorted vertex has a normal row; it has as many ints as the vertices have floats |
| Mg2Encoder.RecodedNormals | Assets/OpenCTM/compression/MG2Encoder.cs:249-321 | three floats per sorted vertex |
| Mg2Encoder.SortedNormals | Assets/OpenCTM/compression/MG2Encoder.cs:262 | three floats per sorted vertex |
| Mg2Encoder.NormalRowsAt | Assets/OpenCTM/compression/MG2Encoder.cs:260-319 | row i of the codes is the code of sorted vertex i's normal against smooth normal i |
| Mg2Encoder.AngularNormalsOfRows | Assets/OpenCTM/compression/MG2Decoder.cs:165-200 | decoding the first m codes gives the first m normals recoded |
| Mg2Encoder.NormalTableRestores | Assets/OpenCTM/compression/MG2Encoder.cs:249-321 | `restoreNormals` on the codes, with the vertices and triangles they were coded against, gives every sorted vertex's normal recoded against the same smooth normal |
| Mg2Encoder.RecodedNormalsExact | Assets/OpenCTM/compression/MG2Encoder.cs:249-321 | where each angular code is exact, the decoder gives back every normal in sorted order |
| Mg2Encoder.CodeNormals | Assets/OpenCTM/compression/MG2Encoder.cs:260-319 | the loop computes the codes |
| Mg2Encoder.MakeNormalDeltas | Assets/OpenCTM/compression/MG2Encoder.cs:249-321 | the method computes the normal table |
| Mg2Encoder.RowsGrow | Assets/OpenCTM/compression/MG2Encoder.cs:332 | k rows of n values grow by k per row |
| Mg2Encoder.WholeRowsOf | Assets/OpenCTM/compression/MG2Encoder.cs:364 | a whole number of rows leaves no remainder |
| Mg2Encoder.QuantRow | Assets/OpenCTM/compression/MG2Encoder.cs:338-339 | k fixed-point values per vertex |
| Mg2Encoder.Gathered | Assets/OpenCTM/compression/MG2Encoder.cs:333-349 | k values per sorted vertex |
| Mg2Encoder.PrevRow | Assets/OpenCTM/compression/MG2Encoder.cs:331 | the previous row has k values |
| Mg2Encoder.MapTable | Assets/OpenCTM/compression/MG2Encoder.cs:326-383 | the table exists exactly when every sorted vertex has its row; a missing row fails with an index error; k ints per sorted vertex |
| Mg2Encoder.MapTableRestores | Assets/OpenCTM/compression/MG2Encoder.cs:326-383 | `restoreUVCoords` and `restoreAttribs` on the table give back every sorted vertex's fixed-point row times the precision |
| Mg2Encoder.RowDeltas | Assets/OpenCTM/compression/MG2Encoder.cs:344-345 | one delta per component |
| Mg2Encoder.StrideDeltasStep | Assets/OpenCTM/compression/MG2Encoder.cs:376-380 | delta-coding one more row appends that row minus the row before |
| Mg2Encoder.MapStep | Assets/OpenCTM/compression/MG2Encoder.cs:333-349 | one more sorted vertex appends its deltas against the previous row |
| Mg2Encoder.UVRow | Assets/OpenCTM/compression/MG2Encoder.cs:335-345 | the loop body gives a vertex's fixed-point u and v and their deltas |
| Mg2Encoder.MakeUVCoordDeltas | Assets/OpenCTM/compression/MG2Encoder.cs:326-351 | the method computes the UV table |
| Mg2Encoder.AttribRow | Assets/OpenCTM/compression/MG2Encoder.cs:376-380 | the inner loop gives the deltas of the 4 components and leaves the new values in `prev` |
| Mg2Encoder.MakeAttribDeltas | Assets/OpenCTM/compression/MG2Encoder.cs:356-383 | the method computes the attribute table |
| Mg2Body.HeaderBytes | Assets/OpenCTM/compression/MG2Encoder.cs:34-39 | the header is the tag, two precisions (12 bytes) and the grid's bytes |
| Mg2Body.ArrangedIndices | Assets/OpenCTM/compression/MG2Encoder.cs:48-49 | rearranging keeps the number of indices |
| Mg2Body.Sorted | Assets/OpenCTM/compression/MG2Encoder.cs:24-25 | one sorted vertex per vertex, every vertex numbered exactly once, each with its row of three coordinates |
| Mg2Body.MapsBytesFails | Assets/OpenCTM/compression/MG2Encoder.cs:71-86 | once a map fails to encode, the whole list fails with that error |
| Mg2Body.PrefixFails | Assets/OpenCTM/compression/MG2Encoder.cs:71-86 | a failure among the first i - 1 maps is the failure of the first i |
| Mg2Body.InitFails | Assets/OpenCTM/compression/MG2Encoder.cs:71-86 | a failure among all but the last map is the failure of all of them |
| Mg2Body.MapsBytesStep | Assets/OpenCTM/compression/MG2Encoder.cs:71-86 | encoding i + 1 maps is encoding i maps followed by map i |
| Mg2Body.WriteHeader | Assets/OpenCTM/compression/MG2Encoder.cs:34-39 | appends the header and nothing else |
| Mg2Body.WriteVertices | Assets/OpenCTM/compression/MG2Encoder.cs:41-45 | appends the VERT and GIDX sections, stopping at a failing block |
| Mg2Body.WriteIndices | Assets/OpenCTM/compression/MG2Encoder.cs:47-57 | appends INDX and the packed deltas of the re-indexed, rearranged triangles, and returns the rearranged triangles |
| Mg2Body.WriteIndexBlock | Assets/OpenCTM/compression/MG2Encoder.cs:49-57 | rearranges in place, then packs a delta-coded copy as MG1 writes indices |
| Mg2Body.WriteNormals | Assets/OpenCTM/compression/MG2Encoder.cs:59-69 | when the mesh has normals, sums the grid deltas back, restores the vertices and appends the normal codes against them; otherwise appends nothing |
| Mg2Body.WriteNormalCodes | Assets/OpenCTM/compression/MG2Encoder.cs:66-68 | appends NORM and the packed normal table |
| Mg2Body.WriteMapHeader | Assets/OpenCTM/compression/MG2Encoder.cs:72-75 | appends a map section's tag, names and precision |
| Mg2Body.WriteMap | Assets/OpenCTM/compression/MG2Encoder.cs:71-86 | appends one TEXC or ATTR section with its signed packed deltas |
| Mg2Body.WriteMaps | Assets/OpenCTM/compression/MG2Encoder.cs:71-86 | the loop appends the map sections in order and stops at the first failure |
| Mg2Body.WriteGeometry | Assets/OpenCTM/compression/MG2Encoder.cs:41-69 | appends VERT, GIDX, INDX and NORM as the geometry function says |
| Mg2Body.Encode | Assets/OpenCTM/compression/MG2Encoder.cs:22-87 | appends the whole MG2 body as the body function says; a missing attribute list fails |
| Mg2Body.PackedBlockRead | Assets/OpenCTM/io/CtmInputStream.cs:91-107 | a block `writePackedInts` wrote reads back as the ints packed into it |
| Mg2Body.HeaderRead | Assets/OpenCTM/compression/MG2Decoder.cs:18-25 | the header reads back as written: the two precisions and the grid |
| Mg2Body.TaggedBlockRead | Assets/OpenCTM/compression/MG2Decoder.cs:50-54 | a tagged block reads back: the tag matches and the packed ints come back |
| Mg2Body.VerticesBytesParts | Assets/OpenCTM/compression/MG2Encoder.cs:41-45 | the VERT and GIDX sections are two tagged packed blocks |
| Mg2Body.VertexBlocksRead | Assets/OpenCTM/compression/MG2Decoder.cs:49-54 | both blocks read back: the vertex table, then the grid-index deltas |
| Mg2Body.VerticesBytesRead | Assets/OpenCTM/compression/MG2Decoder.cs:49-54 | the written VERT and GIDX bytes read back as the table and the deltas |
| Mg2Body.VertexSectionsRead | Assets/OpenCTM/compression/MG2Decoder.cs:49-60 | the two sections read back as the vertices `restoreVertices` makes of the table and the summed deltas |
| Mg2Body.VerticesAtSteps | Assets/OpenCTM/compression/MG2Decoder.cs:49-60 | `readVertices` succeeds once its four reads and the restore succeed |
| Mg2Body.SnappedVertices | Assets/OpenCTM/compression/MG2Encoder.cs:207-243 | the snapped vertices exist exactly when every grid index maps to a cell origin, three floats per vertex |
| Mg2Body.VerticesRead | Assets/OpenCTM/compression/MG2Decoder.cs:49-60 | the VERT and GIDX sections read back as the sorted vertices snapped to their cells: `restoreVertices` undoes `makeVertexDeltas` |
| Mg2Body.FlattenCorner | Assets/OpenCTM/compression/MG2Encoder.cs:48-49 | every entry of a flattened triangle list is a corner of one of its triangles |
| Mg2Body.TrisCorner | Assets/OpenCTM/compression/MG2Encoder.cs:48-49 | a corner of a triangle of an index array is one of its entries |
| Mg2Body.ArrangedEntry | Assets/OpenCTM/compression/MG2Encoder.cs:48-49 | every rearranged index is an original index |
| Mg2Body.ArrangedInRange | Assets/OpenCTM/compression/MG2Decoder.cs:66-71 | rearranging keeps indices in range, so both the intended and the written index check pass |
| Mg2Body.ArrangedRestored | Assets/OpenCTM/compression/MG2Decoder.cs:62-65 | `restoreIndices` undoes the MG1 words, giving the rearranged triangles |
| Mg2Body.IndicesRead | Assets/OpenCTM/compression/MG2Decoder.cs:62-73 | the INDX section reads back as the rearranged triangles |
| Mg2Body.NormalsRead | Assets/OpenCTM/compression/MG2Decoder.cs:75-80 | the NORM section reads back as each normal coded and decoded against the smooth normal both sides compute from the restored vertices and the rearranged triangles |
| Mg2Body.NameRead | Assets/OpenCTM/io/CtmInputStream.cs:16-29 | a name written with `writeString` reads back as stored |
| Mg2Body.MapHeaderRead | Assets/OpenCTM/compression/MG2Decoder.cs:82-110 | a map header reads back: the names, a material name only for UV maps, and a precision above zero |
| Mg2Body.UvHeaderSplit | Assets/OpenCTM/compression/MG2Encoder.cs:72-75 | a written TEXC header is its tag then the rest |
| Mg2Body.AttrHeaderSplit | Assets/OpenCTM/compression/MG2Encoder.cs:81-83 | a written ATTR header is its tag then the rest |
| Mg2Body.UvHeaderRead | Assets/OpenCTM/compression/MG2Decoder.cs:83-89 | a written TEXC header reads back |
| Mg2Body.UvNamesRead | Assets/OpenCTM/compression/MG2Decoder.cs:84-86 | the two names and the precision after TEXC read back in turn |
| Mg2Body.UvHeaderAtSteps | Assets/OpenCTM/compression/MG2Decoder.cs:83-89 | `readUvData`'s header succeeds once its four reads do |
| Mg2Body.AttrHeaderRead | Assets/OpenCTM/compression/MG2Decoder.cs:98-104 | a written ATTR header reads back |
| Mg2Body.AttrHeaderAtSteps | Assets/OpenCTM/compression/MG2Decoder.cs:98-104 | `readAttribute`'s header succeeds once its three reads do |
| Mg2Body.MapBytesParts | Assets/OpenCTM/compression/MG2Encoder.cs:71-86 | a map section is its header then the packed deltas |
| Mg2Body.MapRead | Assets/OpenCTM/compression/MG2Decoder.cs:82-110 | a TEXC or ATTR section reads back as the map restored from its deltas |
| Mg2Body.MapAtSteps | Assets/OpenCTM/compression/MG2Decoder.cs:82-110 | `readUvData` and `readAttribute` succeed once the header and the values read back |
| Mg2RoundTrip.MapsReadBack | Assets/OpenCTM/compression/MG2Decoder.cs:36-44 | one map read back per map written |
| Mg2RoundTrip.MapsRead | Assets/OpenCTM/compression/MG2Decoder.cs:36-44 | the TEXC or ATTR sections of a list of maps read back one map after the other |
| Mg2RoundTrip.MapsSplit | Assets/OpenCTM/compression/MG2Encoder.cs:71-86 | the bytes of all maps but the last, then the last's, and where each lies |
| Mg2RoundTrip.ReadableSplit | Assets/OpenCTM/compression/MG2Decoder.cs:82-110 | all maps but the last, and the last, are as readable as all of them |
| Mg2RoundTrip.RowsOfAll | Assets/OpenCTM/compression/MG2Encoder.cs:326-383 | the rows of every map follow from those of all but the last and of the last |
| Mg2RoundTrip.MapsAtStep | Assets/OpenCTM/compression/MG2Decoder.cs:37-44 | one more map section after the first ones reads back |
| Mg2RoundTrip.MapsBytesRows | Assets/OpenCTM/compression/MG2Encoder.cs:326-383 | maps that encode have a row for every sorted vertex |
| Mg2RoundTrip.DecodeAtSteps | Assets/OpenCTM/compression/MG2Decoder.cs:15-47 | `decode` succeeds once each of its sections reads |
| Mg2RoundTrip.NormalsReadBack | Assets/OpenCTM/compression/MG2Decoder.cs:31-34 | the normals read back are present exactly when written |
| Mg2RoundTrip.GeometryParts | Assets/OpenCTM/compression/MG2Encoder.cs:24-69 | the sorted vertices, vertex table, re-indexed triangles and the section bytes the geometry is made of |
| Mg2RoundTrip.VerticesSectionRead | Assets/OpenCTM/compression/MG2Decoder.cs:49-60 | VERT and GIDX read back as the sorted vertices snapped to their cells |
| Mg2RoundTrip.IndicesSectionRead | Assets/OpenCTM/compression/MG2Decoder.cs:62-73 | INDX reads back as the re-indexed triangles rearranged |
| Mg2RoundTrip.NormalsWrittenRead | Assets/OpenCTM/compression/MG2Decoder.cs:75-80 | NORM, when written, reads back as the normals recoded against the snapped vertices |
| Mg2RoundTrip.NormalsSectionRead | Assets/OpenCTM/compression/MG2Decoder.cs:31-34 | the normals section, when there is one, reads back as the recoded normals |
| Mg2RoundTrip.GeometryFacts | Assets/OpenCTM/compression/MG2Encoder.cs:24-69 | what the geometry having encoded says about its read-back |
| Mg2RoundTrip.BodyReadBackFacts | Assets/OpenCTM/compression/MG2Encoder.cs:22-87 | what the body having encoded says about its read-back |
| Mg2RoundTrip.BodyReadBack | Assets/OpenCTM/compression/MG2Decoder.cs:15-47 | the mesh read back has the shape the header announces |
| Mg2RoundTrip.GeometryRead | Assets/OpenCTM/compression/MG2Decoder.cs:27-34 | VERT, GIDX, INDX and NORM read back one after the other |
| Mg2RoundTrip.BodyParts | Assets/OpenCTM/compression/MG2Encoder.cs:22-87 | the grid, geometry bytes and map bytes the body is made of |
| Mg2RoundTrip.MapsPairRead | Assets/OpenCTM/compression/MG2Decoder.cs:36-44 | the TEXC sections and then the ATTR sections read back |
| Mg2RoundTrip.BodySplit | Assets/OpenCTM/compression/MG2Encoder.cs:22-87 | where each section of the body starts |
| Mg2RoundTrip.BodyRead | Assets/OpenCTM/compression/MG2Decoder.cs:15-47 | the whole body reads back from its pieces |
| Mg2RoundTrip.BodyRoundTrip | Assets/OpenCTM/compression/MG2Decoder.cs:15-47 | MG2 `decode` on the bytes MG2 `encode` wrote gives the mesh snapped to its grid, triangles rearranged, normals recoded and maps quantised, ending where the body ends |
| Mg2RoundTrip.FileParts | Assets/OpenCTM/io/CtmFileWriter.cs:21-45 | the file is the header then the body, and where the body lies |
| Mg2RoundTrip.HeaderInfo | Assets/OpenCTM/io/CtmFileWriter.cs:21-45 | the counts and normal flag the header gives are the mesh's own |
| Mg2RoundTrip.FileRoundTrip | Assets/OpenCTM/io/CtmFileReader.cs:95-142 | reading a file the MG2 writer wrote gives the read-back mesh, unless the written `checkIntegrity` refuses it, in which case that error |
| Mg2RoundTrip.FileAtSteps | Assets/OpenCTM/io/CtmFileReader.cs:95-142 | `decode()` once the header has selected the MG2 decoder and the body has been read |
| CtmFile.DecoderFor | Assets/OpenCTM/io/CtmFileReader.cs:124-136 | the decoder chosen supports the method and version, and none is chosen exactly when no decoder supports them |
| CtmFile.DecoderForUnique | Assets/OpenCTM/io/CtmFileReader.cs:18-22 | no two decoders claim the same method and version, so a decoder that supports them is the one chosen |
| CtmFile.DecoderForCodecTag | Assets/OpenCTM/io/CtmFileReader.cs:124-131 | every encoder's tag with format version 5 selects the matching decoder |
| CtmFile.HeaderAt | Assets/OpenCTM/io/CtmFileReader.cs:104-119 | a header that is read starts with the OCTM tag |
| CtmFile.FileAt | Assets/OpenCTM/io/CtmFileReader.cs:95-142 | a decoded mesh passed the written `checkIntegrity` (whole triangles, no index at or past the vertex floats), and came from a header whose method a decoder supports |
| CtmFile.ReadFileHeader | Assets/OpenCTM/io/CtmFileReader.cs:104-119 | reads the header fields in order and leaves the stream after the comment |
| CtmFile.DecodeBody | Assets/OpenCTM/io/CtmFileReader.cs:128 | the chosen decoder reads the body as the body function says |
| CtmFile.CtmFileReader.DecodeOnce | Assets/OpenCTM/io/CtmFileReader.cs:102-141 | marks the reader decoded, reads the file as the file function says and sets the comment once the header's comment was read |
| CtmFile.CtmFileReader.Decode | Assets/OpenCTM/io/CtmFileReader.cs:95-142 | a second call fails and changes nothing; the first reads the file as the file function says |
| CtmFile.CtmFileReader.DecodeInto | Assets/OpenCTM/io/CtmFileReader.cs:36-93 | a second call fails and leaves the list alone; a failed read leaves the list alone; a mesh read is appended whole, or as its shards when it has more than 50000 vertices |
| CtmFile.CtmFileReader.GetFileComment | Assets/OpenCTM/io/CtmFileReader.cs:318-325 | refused before a decode; afterwards the comment, null when it was never read |
| CtmFile.HeaderFields | Assets/OpenCTM/io/CtmFileWriter.cs:32-40 | eight int fields |
| CtmFile.FileBytes | Assets/OpenCTM/io/CtmFileWriter.cs:21-45 | a mesh the written `checkIntegrity` refuses fails with that error before anything is written; a file that is written comes from a mesh that passes it |
| CtmFile.FieldAppended | Assets/OpenCTM/io/CtmFileWriter.cs:32-40 | one more field written after the fields before it |
| CtmFile.WriteField | Assets/OpenCTM/io/CtmFileWriter.cs:32-40 | appends header field k after the fields before it |
| CtmFile.WriteFileHeader | Assets/OpenCTM/io/CtmFileWriter.cs:32-41 | appends the header fields and the comment |
| CtmFile.WriteHeaderFields | Assets/OpenCTM/io/CtmFileWriter.cs:32-40 | appends the eight int fields |
| CtmFile.WriteCounts | Assets/OpenCTM/io/CtmFileWriter.cs:36-40 | appends the four counts and the flags |
| CtmFile.EncodeBody | Assets/OpenCTM/io/CtmFileWriter.cs:44 | appends the encoder's body |
| CtmFile.CtmFileWriter.constructor | Assets/OpenCTM/io/CtmFileWriter.cs:11-14 | a fresh output stream at the default compression level |
| CtmFile.CtmFileWriter.WithLevel | Assets/OpenCTM/io/CtmFileWriter.cs:16-19 | a fresh output stream at the given compression level |
| CtmFile.CtmFileWriter.Encode | Assets/OpenCTM/io/CtmFileWriter.cs:21-45 | appends the file, and leaves the stream as it was when `checkIntegrity` refuses the mesh |
| CtmFile.HeaderRoundTrip | Assets/OpenCTM/io/CtmFileReader.cs:104-119 | the header a writer writes reads back: version 5, the encoder's tag, the mesh's counts and flags, and the comment (null as empty) |
| CtmFile.HeaderOfFields | Assets/OpenCTM/io/CtmFileReader.cs:104-119 | eight ints starting with OCTM and then a string read as a header |
| CtmFile.FlagsHaveNormals | Assets/OpenCTM/io/CtmFileWriter.cs:26-29 | the flags say whether the mesh has normals |
| MeshSplit.ShardCount | Assets/OpenCTM/io/CtmFileReader.cs:160 | at least one shard for a non-empty mesh, and the fewest shards of 150000 floats that hold all the floats |
| MeshSplit.IndexFrom | Assets/OpenCTM/io/CtmFileReader.cs:192 | the first position at or after k holding v, or -1 exactly when there is none |
| MeshSplit.IndexOf | Assets/OpenCTM/io/CtmFileReader.cs:192 | `Array.IndexOf`: the first position holding v, or -1 exactly when there is none |
| MeshSplit.RoundedToTriangles | Assets/OpenCTM/io/CtmFileReader.cs:195 | a multiple of three, not above a non-negative count, and 0 for the -1 of a missing index |
| MeshSplit.MinAt | Assets/OpenCTM/io/CtmFileReader.cs:205-208 | a position of a smallest entry from k on |
| MeshSplit.MaxAt | Assets/OpenCTM/io/CtmFileReader.cs:205-210 | a position of a largest entry from k on |
| MeshSplit.Shifted | Assets/OpenCTM/io/CtmFileReader.cs:234-237 | each index minus lo with 32-bit wrap; an index at or above a non-negative lo becomes its distance from lo |
| MeshSplit.CopyRange | Assets/OpenCTM/io/CtmFileReader.cs:214 | `Array.Copy` succeeds exactly when the count and start are non-negative and the range lies in the source, and then copies that slice; a negative count is the overflow of `new float[count]` |
| MeshSplit.RangeExact | Assets/OpenCTM/io/CtmFileReader.cs:211 | within the vertices the 32-bit range arithmetic is exact |
| MeshSplit.ShardEnd | Assets/OpenCTM/io/CtmFileReader.cs:188-197 | every shard but the last ends on a whole triangle; the last ends with the indices |
| MeshSplit.ShardUvs | Assets/OpenCTM/io/CtmFileReader.cs:216-230 | a shard has the first UV map cut to its range, or no map when the mesh has none |
| MeshSplit.ShardUvsInRange | Assets/OpenCTM/io/CtmFileReader.cs:219-221 | for a range inside the vertices the UV copy fails exactly when the map is too short |
| MeshSplit.SliceBounds | Assets/OpenCTM/io/CtmFileReader.cs:205-210 | the smallest and largest of indices below a bound are below it |
| MeshSplit.ShardFrom | Assets/OpenCTM/io/CtmFileReader.cs:199-240 | a shard holds the slice's indices, no normals and no attribute maps, and its vertices are the copied range |
| MeshSplit.ShardFromNegativeFails | Assets/OpenCTM/io/CtmFileReader.cs:214 | a slice whose smallest index is -1 fails at the copy |
| MeshSplit.ShardOf | Assets/OpenCTM/io/CtmFileReader.cs:199-208 | an empty slice fails at `newIndicesArray[0]`; a shard holds len indices, no normals and no attribute maps |
| MeshSplit.ShardAt | Assets/OpenCTM/io/CtmFileReader.cs:202-203 | a range past the end of the indices fails in `Array.Copy` |
| MeshSplit.ShardLen | Assets/OpenCTM/io/CtmFileReader.cs:188-197 | a shard's indices lie within the indices |
| MeshSplit.ReaderLensPlans | Assets/OpenCTM/io/CtmFileReader.cs:188-249 | the reader's plan gives the reader's shard lengths |
| MeshSplit.SplitFrom | Assets/OpenCTM/io/CtmFileReader.cs:183-296 | a split that succeeds from shard i makes n - i shards |
| MeshSplit.Split | Assets/OpenCTM/io/CtmFileReader.cs:149-297 | a split that succeeds makes the shard count of shards |
| MeshSplit.Added | Assets/OpenCTM/io/CtmFileReader.cs:83-90 | a mesh of at most 150000 floats is added whole |
| MeshSplit.CornersOf | Assets/OpenCTM/io/CtmFileReader.cs:233-237 | each index replaced by its vertex's coordinates |
| MeshSplit.Corners | Assets/OpenCTM/io/CtmFileReader.cs:233-237 | one corner per index |
| MeshSplit.TripleOfRange | Assets/OpenCTM/io/CtmFileReader.cs:214 | vertex k of the range from vertex lo is vertex lo + k |
| MeshSplit.ShiftedCorners | Assets/OpenCTM/io/CtmFileReader.cs:234-237 | indices between lo and hi shifted by lo name, in the range [lo, hi], the corners they named before |
| MeshSplit.ShardFromParts | Assets/OpenCTM/io/CtmFileReader.cs:205-237 | a shard is the vertex range between the smallest and largest index, and the indices shifted by the smallest |
| MeshSplit.MinMaxBetween | Assets/OpenCTM/io/CtmFileReader.cs:205-210 | every entry lies between the smallest and the largest |
| MeshSplit.ShardFromInRangeFails | Assets/OpenCTM/io/CtmFileReader.cs:219-221 | for indices naming vertices, a shard fails exactly when the first UV map is too short for its range |
| MeshSplit.ShardFromInRange | Assets/OpenCTM/io/CtmFileReader.cs:233-240 | a shard's indices name its own vertices |
| MeshSplit.ShardFromCorners | Assets/OpenCTM/io/CtmFileReader.cs:233-240 | a shard's corners are those its slice names in the mesh |
| MeshSplit.SameFieldsSameCorners | Assets/OpenCTM/io/CtmFileReader.cs:240 | the corners depend on vertices and indices only |
| MeshSplit.CornersOfSlice | Assets/OpenCTM/io/CtmFileReader.cs:202 | the corners a slice names are that slice of the corners |
| MeshSplit.AllCornersCons | Assets/OpenCTM/io/CtmFileReader.cs:241 | a shard in front of a list of shards |
| MeshSplit.SuffixSplit | Assets/OpenCTM/io/CtmFileReader.cs:242 | a suffix is a slice followed by the rest |
| MeshSplit.ShardAtKeepsCorners | Assets/OpenCTM/io/CtmFileReader.cs:199-241 | a shard names its own vertices, holds the requested indices and has the corners of its slice |
| MeshSplit.CutterKeepsCorners | Assets/OpenCTM/io/CtmFileReader.cs:199-241 | the reader's shard maker keeps corners |
| MeshSplit.SplitFromStep | Assets/OpenCTM/io/CtmFileReader.cs:183-245 | one step of a split that succeeds: a shard, then the rest, which succeeds |
| MeshSplit.SplitFromUnfold | Assets/OpenCTM/io/CtmFileReader.cs:183-245 | a negative length fails with overflow, a failing shard fails the split, a shard is followed by the rest |
| MeshSplit.ShardLenWhole | Assets/OpenCTM/io/CtmFileReader.cs:195-197 | a shard starting on a whole triangle holds whole triangles |
| MeshSplit.ModSum | Assets/OpenCTM/io/CtmFileReader.cs:242 | a sum of multiples of three is one |
| MeshSplit.ModDifference | Assets/OpenCTM/io/CtmFileReader.cs:197 | a difference of multiples of three is one |
| MeshSplit.SplitFromKeepsCorners | Assets/OpenCTM/io/CtmFileReader.cs:183-296 | the shards from shard i on hold whole triangles and the corners from `from` on |
| MeshSplit.ShardThenRest | Assets/OpenCTM/io/CtmFileReader.cs:241-242 | a shard and the shards after it hold the corners from `from` on |
| MeshSplit.KeepsCornersAt | Assets/OpenCTM/io/CtmFileReader.cs:199-241 | what a corner-keeping maker promises about one shard |
| MeshSplit.SplitFromLast | Assets/OpenCTM/io/CtmFileReader.cs:246-295 | the last shard ends with the indices and nothing follows it |
| MeshSplit.SplitKeepsCorners | Assets/OpenCTM/io/CtmFileReader.cs:149-297 | a split that succeeds keeps every triangle at the same coordinates, in shards of whole triangles that name their own vertices |
| MeshSplit.SplitFailsWithoutBoundaryIndex | Assets/OpenCTM/io/CtmFileReader.cs:192-199 | a mesh of 50001 vertices none of whose indices is 50000 fails at the first shard and adds nothing |
| MeshSplit.ShiftInPlace | Assets/OpenCTM/io/CtmFileReader.cs:234-237 | the loop shifts every index in place |
| MeshSplit.MakeShard | Assets/OpenCTM/io/CtmFileReader.cs:197-240 | the method makes the shard the shard function describes |
| MeshSplit.MovedToList | Assets/OpenCTM/io/CtmFileReader.cs:241 | the first shard still to make moved to the end of the list |
| MeshSplit.NextShardLen | Assets/OpenCTM/io/CtmFileReader.cs:188-197 | the number of indices shard i takes |
| MeshSplit.NextShard | Assets/OpenCTM/io/CtmFileReader.cs:188-240 | one turn: the shard's length, a negative one failing with overflow, then the shard |
| MeshSplit.ShardStep | Assets/OpenCTM/io/CtmFileReader.cs:183-245 | where the loop goes on after a turn is where the split function goes on |
| MeshSplit.SplitWith | Assets/OpenCTM/io/CtmFileReader.cs:183-296 | the loop appends the shards one by one; those made before a failure stay |
| MeshSplit.SplitMesh | Assets/OpenCTM/io/CtmFileReader.cs:149-297 | appends the shards of the split function and reports its outcome |
| LzWindow.Slot | Assets/OpenCTM/LZ/LzOutWindow.cs:117-120 | the slot of the byte d + 1 back lies inside the window |
| LzWindow.BackIndexIsSlot | Assets/OpenCTM/LZ/LzOutWindow.cs:117-119 | for a distance inside the window the uint arithmetic finds the slot d + 1 back: the wrap below zero and the added window size cancel |
| LzWindow.SlotStep | Assets/OpenCTM/LZ/LzOutWindow.cs:96-98 | one step of a copy advances the source slot and the write position together |
| LzWindow.RingPut | Assets/OpenCTM/LZ/LzOutWindow.cs:108 | storing a byte and advancing keeps the ring: the slot overwritten is the one the window no longer covers |
| LzWindow.RingWrap | Assets/OpenCTM/LZ/LzOutWindow.cs:84-85 | moving the write position from the end of the window to its start keeps the ring |
| LzWindow.PendingIsRecent | Assets/OpenCTM/LZ/LzOutWindow.cs:79-82 | the bytes still to deliver are the last ones put |
| LzWindow.Copied | Assets/OpenCTM/LZ/LzOutWindow.cs:89-103 | a copy appends len bytes |
| LzWindow.CopiedBack | Assets/OpenCTM/LZ/LzOutWindow.cs:89-103 | every byte a copy appends equals the byte d + 1 before it, so an overlapping copy repeats its own output |
| LzWindow.RingRead | Assets/OpenCTM/LZ/LzOutWindow.cs:115-121 | the ring read at distance d is the byte d + 1 back in the history |
| LzWindow.CopiedStep | Assets/OpenCTM/LZ/LzOutWindow.cs:94-102 | a copy one byte longer appends the byte d + 1 back in what has been copied so far |
| LzWindow.Extended | Assets/OpenCTM/LZ/LzOutWindow.cs:108 | appending keeps the prefix and extends the suffix |
| LzWindow.OutWindow.constructor | Assets/OpenCTM/LZ/LzOutWindow.cs:25-30 | a buffer of 16 MiB, no window, no stream, nothing put |
| LzWindow.OutWindow.Create | Assets/OpenCTM/LZ/LzOutWindow.cs:32-56 | a ring of size bytes with nothing put yet; the stream is kept |
| LzWindow.PutSlotStep | Assets/OpenCTM/LZ/LzOutWindow.cs:105-113 | after n bytes put into a fresh window the write position is n modulo the window size: each put moves it one on, back to 0 at the end of the window |
| LzWindow.PutAsWrittenFailsIff | Assets/OpenCTM/LZ/LzOutWindow.cs:25-56 | with the fixed 16 MiB buffer, storing byte n throws IndexOutOfRange exactly when the window is larger than the buffer and n's slot lies past the buffer's end |
| LzWindow.Level6WindowOverruns | Assets/OpenCTM/io/CtmOutputStream.cs:121-128 | a window of the 32 MiB level-6 dictionary stores the first 16 MiB of output and throws on the next byte |
| LzWindow.PutIntendedNeverFails | Assets/OpenCTM/LZ/LzOutWindow.cs:32-56 | with a buffer grown to the window no put throws; for windows of at most 16 MiB the fixed buffer behaves the same |
| LzWindow.OutWindow.Flush | Assets/OpenCTM/LZ/LzOutWindow.cs:77-87 | nothing pending changes nothing; pending bytes with no stream fail with a null reference before any change; otherwise the pending bytes are written and the write position wraps at the end of the window |
| LzWindow.OutWindow.PutByte | Assets/OpenCTM/LZ/LzOutWindow.cs:105-113 | appends b to the history and to what the stream will hold, and advances the write position, wrapping at the end of the window |
| LzWindow.OutWindow.GetByte | Assets/OpenCTM/LZ/LzOutWindow.cs:115-121 | a distance inside the window never fails, and within the history gives the byte distance + 1 back |
| LzWindow.OutWindow.GetAfterPut | Assets/OpenCTM/LZ/LzOutWindow.cs:105-121 | `GetByte(0)` right after `PutByte(b)` is b |
| LzWindow.OutWindow.CopyBlock | Assets/OpenCTM/LZ/LzOutWindow.cs:89-103 | appends len bytes to the history and to what the stream will hold; within the history and window each is the byte distance + 1 before it |
| LzWindow.OutWindow.CopyByte | Assets/OpenCTM/LZ/LzOutWindow.cs:96-101 | one turn of the copy loop keeps the loop's account of the history and the delivered bytes |
| LzWindow.OutWindow.ReleaseStream | Assets/OpenCTM/LZ/LzOutWindow.cs:71-75 | fails exactly when bytes are pending and no stream is attached; otherwise flushes and detaches the stream |
| LzWindow.OutWindow.Init | Assets/OpenCTM/LZ/LzOutWindow.cs:58-67 | releases the old stream and attaches the new one; a solid stream keeps the history, otherwise the window starts afresh |
| Culling.Set | Assets/Unity3MXB/Unity3MXBBoundingVolume.cs:93-109 | Outside only sets `anyOutside` and leaves the bits; Inside marks the plane done; Intersecting marks it still to test; no other bit changes |
| Culling.SetKeepsOtherBits | Assets/Unity3MXB/Unity3MXBBoundingVolume.cs:93-109 | `Set` changes the bit of its own plane only |
| Culling.IntersectionAsWritten | Assets/Unity3MXB/Unity3MXBBoundingVolume.cs:46-66 | Outside exactly when some plane had the volume outside |
| Culling.Intersection | Assets/Unity3MXB/Unity3MXBBoundingVolume.cs:46-66 | Outside exactly when some plane had the volume outside |
| Culling.SetKeepsSixPlanes | Assets/Unity3MXB/Unity3MXBBoundingVolume.cs:72-75 | the default mask is intersecting, and `Set` with a frustum plane keeps to the six bits |
| Culling.InsideUnreachableAsWritten | Assets/Unity3MXB/Unity3MXBBoundingVolume.cs:30-31 | as written, `Intersection` never reports Inside for a mask built by the six planes |
| Culling.AllSixInsideAsWritten | Assets/Unity3MXB/Unity3MXBBoundingVolume.cs:30-31 | marking all six planes inside leaves the written mask intersecting, while the six-bit reading is Inside |
| Culling.InsideIffAllSix | Assets/Unity3MXB/Unity3MXBBoundingVolume.cs:46-66 | with the six plane bits, Inside exactly when inside all six planes and outside none |
| Culling.IntersectPlane | Assets/Unity3MXB/Unity3MXBBoundingVolume.cs:182-197 | Outside exactly when the centre is more than the radius behind the plane, Intersecting when within the radius short of it, Inside otherwise |
| Culling.DistanceTo | Assets/Unity3MXB/Unity3MXBBoundingVolume.cs:199-202 | never negative, at least the centre distance less the radius, and one of the two |
| Culling.CauchySchwarz | Assets/Unity3MXB/Unity3MXBBoundingVolume.cs:184 | the dot product is bounded by the lengths |
| Culling.SquareGrows | Assets/Unity3MXB/Unity3MXBBoundingVolume.cs:186-191 | a number beyond the radius on either side has a square above the radius's |
| Culling.PositiveProduct | Assets/Unity3MXB/Unity3MXBBoundingVolume.cs:186-191 | the product of two positive numbers is positive |
| Culling.SideWithinRadius | Assets/Unity3MXB/Unity3MXBBoundingVolume.cs:184 | a point of the ball is no further from a plane than the radius, on either side of the centre's distance |
| Culling.PolesInSphere | Assets/Unity3MXB/Unity3MXBBoundingVolume.cs:184 | the points of the ball nearest to and furthest from the plane lie along its normal |
| Culling.InsideIffContained | Assets/Unity3MXB/Unity3MXBBoundingVolume.cs:182-197 | `IntersectPlane` answers Inside exactly when the whole ball is on the inside of a unit-normal plane |
| Culling.OutsideIffExcluded | Assets/Unity3MXB/Unity3MXBBoundingVolume.cs:182-197 | `IntersectPlane` answers Outside exactly when the whole ball is strictly outside |
| Culling.IntersectingStraddles | Assets/Unity3MXB/Unity3MXBBoundingVolume.cs:182-197 | Intersecting exactly when the ball has points on both sides |
| Culling.DistanceToZeroIff | Assets/Unity3MXB/Unity3MXBBoundingVolume.cs:199-202 | the distance is zero exactly for points within the radius of the centre |
| Culling.DistanceToMonotone | Assets/Unity3MXB/Unity3MXBBoundingVolume.cs:199-202 | the distance grows with the point's distance from the centre, never faster |
| Culling.ClipFromNothingToTest | Assets/Unity3MXB/Unity3MXBBoundingVolume.cs:142-153 | a mask with no plane left to test comes back as it is |
| Culling.ClippedAgrees | Assets/Unity3MXB/Unity3MXBBoundingVolume.cs:135-155 | the written and the six-bit reading of `Intersection` give the same `IntersectPlanes`, since a mask built by the loop is never Inside at the entry test |
| Culling.IntersectPlanes | Assets/Unity3MXB/Unity3MXBBoundingVolume.cs:135-155 | the loop with its `break` computes the clip function; a mask already outside comes back unchanged |
| Culling.ClipKeepsInside | Assets/Unity3MXB/Unity3MXBBoundingVolume.cs:142-153 | a plane the volume is already inside stays so: the loop never clears a set bit |
| Culling.SetKeepsSet | Assets/Unity3MXB/Unity3MXBBoundingVolume.cs:93-109 | `Set` clears a bit only for an Intersecting answer on a plane it tests |
| Culling.ClipOutsideIff | Assets/Unity3MXB/Unity3MXBBoundingVolume.cs:142-153 | the mask ends outside exactly when some plane still to test has the ball outside |
| LodNodes.NewNode | Assets/Unity3MXB/PagedLOD.cs:44-78 | a new tile is Unstaged, has no committed children, was never traversed, and has the given depth |
| LodNodes.Count | Assets/Unity3MXB/PagedLOD.cs:15-21 | no more tiles of a status than tiles |
| LodNodes.CountUpdate | Assets/Unity3MXB/PagedLOD.cs:165-168 | replacing one tile changes each count by what the old and the new tile contribute |
| LodNodes.CountPositive | Assets/Unity3MXB/PagedLOD.cs:165-168 | a tile with a status is counted in it |
| LodNodes.HasStagingCounted | Assets/Unity3MXB/PagedLOD.cs:149-189 | a tile with staging below it means some tile is staging |
| LodNodes.DemotedTransitive | Assets/Unity3MXB/PagedLOD.cs:165-168 | turning Staged tiles Unstaged twice is doing it once |
| LodNodes.DemotedCounts | Assets/Unity3MXB/PagedLOD.cs:165-168 | turning Staged tiles Unstaged leaves the numbers of staging and committed tiles |
| LodNodes.DemotedKeepsHasStaging | Assets/Unity3MXB/PagedLOD.cs:149-189 | turning Staged tiles Unstaged does not change where staging is found |
| LodNodes.EvolvedTransitive | Assets/Unity3MXB/PagedLOD.cs:201-268 | two traversal steps along the staging cycle are one |
| LodNodes.DemotedEvolved | Assets/Unity3MXB/PagedLOD.cs:165-168 | demoting is a step along the staging cycle |
| LodNodes.EvolvedOrdered | Assets/Unity3MXB/PagedLOD.cs:201-268 | a traversal keeps the tree ordered: it does not touch the children lists |
| LodNodes.ScreenDiameterIsMax | Assets/Unity3MXB/PagedLOD.cs:212-222 | the fold is the largest screen diameter of a camera that sees the tile, or 0 when none does |
| LodNodes.Cull | Assets/Unity3MXB/PagedLOD.cs:212-222 | the loop finds whether some camera sees the tile and the largest screen diameter among those that do |
| Unity3mxbLod.LodTree.constructor | Assets/Unity3MXB/PagedLOD.cs:62-78 | the root tile: one Unstaged tile at the given depth with no children and no stage task queued |
| Unity3mxbLod.LodTree.AddChild | Assets/Unity3MXB/PagedLOD.cs:44-60 | a loader's new child: Unstaged, one level deeper than its parent, appended to the parent's committed children; the staging count it owes is unchanged |
| Unity3mxbLod.LodTree.UnloadChildren | Assets/Unity3MXB/PagedLOD.cs:191-199 | the committed children are cleared and the tile is Unstaged; the pending count falls by one exactly when the tile was Staging or Staged |
| Unity3mxbLod.LodTree.FinishStaging | Assets/Unity3MXB/PCQueue.cs:16-27 | the end of a stage task marks the tile Staged; from Staging this moves no pending count |
| Unity3mxbLod.LodTree.MarkStagingChildren | Assets/Unity3MXB/PagedLOD.cs:149-189 | with a zero count nothing changes and the answer is false; an Unstaged tile answers false, a Staging one true, a Staged one is turned back to Unstaged with the count lowered by one; the count tracks the number of tiles staging or staged and stays within 0..count; when the count is exact the answer is whether some tile below is staging; tiles only move from Staged to Unstaged |
| Unity3mxbLod.LodTree.MarkChild | Assets/Unity3MXB/PagedLOD.cs:173-183 | one turn of the children loop: a Staging child sets the flag, any other is marked recursively; the count keeps tracking the pending tiles |
| Unity3mxbLod.LodTree.SetNode | Assets/Unity3MXB/PagedLOD.cs:207 | changing a tile's own fields but not its status or children leaves every status count unchanged |
| Unity3mxbLod.LodTree.CommitStaged | Assets/Unity3MXB/PagedLOD.cs:239-245 | a Staged tile becomes Commited: one pending tile fewer and one committed tile more, Staging count unchanged |
| Unity3mxbLod.LodTree.StartStaging | Assets/Unity3MXB/PagedLOD.cs:259-265 | an Unstaged tile becomes Staging and its stage task is appended to the queue: one pending and one staging tile more |
| Unity3mxbLod.LodTree.Traverse | Assets/Unity3MXB/PagedLOD.cs:201-268 | with no camera nothing changes; otherwise the tile's frame is `frameCount`, its renderers are enabled exactly when it is visible and not committed-and-refined, an unrefined tile keeps its status unless Staged (then Unstaged when the count is non-zero), a refined one advances (Staged to Commited, Unstaged to Staging) and a committed one has all its children traversed at `time`; the staging counter tracks the pending tiles, the load counter counts commits, and stage tasks are only appended for tiles now staging |
| Unity3mxbLod.LodTree.Visit | Assets/Unity3MXB/PagedLOD.cs:207-267 | `Traverse` with at least one camera, with the same frame, renderer, status and counter guarantees |
| Unity3mxbLod.LodTree.Coarsen | Assets/Unity3MXB/PagedLOD.cs:223-235 | a culled or unrefined tile: renderers set as given, children marked; status unchanged unless Staged with a non-zero count, no frame and no commit changes |
| Unity3mxbLod.LodTree.Refine | Assets/Unity3MXB/PagedLOD.cs:237-267 | a refined tile: its status advances, its renderers are enabled exactly when it is not committed, a committed tile's children are all traversed at `time`; counters track pending tiles and commits |
| Unity3mxbLod.LodTree.Descend | Assets/Unity3MXB/PagedLOD.cs:247-255 | a committed tile: renderers disabled, everything else of the tile kept, every child traversed at `time` |
| Unity3mxbLod.LodTree.Show | Assets/Unity3MXB/PagedLOD.cs:256-266 | a refined tile neither staged nor committed: renderers enabled, an Unstaged one starts staging with the count and queue following |
| Unity3mxbLod.LodTree.TraverseChildren | Assets/Unity3MXB/PagedLOD.cs:251-254 | every committed child traversed in turn at `time`, the tile itself and those before it unchanged |
| Unity3mxbLod.LodTree.TraverseChild | Assets/Unity3MXB/PagedLOD.cs:253 | the k-th child traversed at `time`, counters tracking pending tiles and commits |
| Unity3mxLod.MinDistanceIsMin | Assets/Unity3mx/PagedLOD.cs:213-223 | the nearest distance lies in 0..`FLOAT_MAX`, is at most the distance of every camera that sees the tile, and is either `FLOAT_MAX` or the distance of one such camera |
| Unity3mxLod.CullAndMeasure | Assets/Unity3mx/PagedLOD.cs:211-224 | the culling loop: inside exactly when some camera sees the sphere, the largest screen diameter and the nearest distance over the cameras that see it |
| Unity3mxLod.WithRenderers | Assets/Unity3mx/PagedLOD.cs:83-93 | `EnableRenderer` sets the enabled flag only on a tile that has renderers and changes nothing else |
| Unity3mxLod.LodTree.constructor | Assets/Unity3mx/PagedLOD.cs:65-81 | the root tile: one Unstaged tile without renderers at the given depth, an empty commit queue, the given request manager |
| Unity3mxLod.LodTree.AddChild | Assets/Unity3mx/PagedLOD.cs:47-63 | a loader's new child: Unstaged, one level deeper than its parent, appended to the parent's committed children; no Staging count moves |
| Unity3mxLod.LodTree.AddLayerRoot | Assets/Unity3mx/Unity3mxLoader.cs:192-200 | the layer root child: origin sphere of radius 1e30, maximum screen diameter 0, the layer's root as its only child file, appended to the parent |
| Unity3mxLod.LodTree.UnloadChildren | Assets/Unity3mx/PagedLOD.cs:161-169 | the committed children are cleared and the tile is Unstaged |
| Unity3mxLod.LodTree.StagingFinished | Assets/Unity3mx/PagedLOD.cs:265-270 | the finished promise: the tile is Staged and appended to the commit queue |
| Unity3mxLod.LodTree.Commit | Assets/Unity3mx/PagedLOD.cs:189-198 | true exactly when the tile was Staged, which then becomes Commited; otherwise nothing changes |
| Unity3mxLod.LodTree.MarkStagingChildren | Assets/Unity3mx/PagedLOD.cs:124-159 | an Unstaged or Staging tile is left unchanged, a Staged one becomes Unstaged; tiles only move from Staged to Unstaged; the answer is exactly whether the tile or a tile below it is staging |
| Unity3mxLod.LodTree.MarkChild | Assets/Unity3mx/PagedLOD.cs:143-153 | one turn of the children loop: the flag becomes the old flag or whether the child's subtree is staging |
| Unity3mxLod.LodTree.Traverse | Assets/Unity3mx/PagedLOD.cs:200-283 | with no camera nothing changes; otherwise the frame is `frameCount`, a tile with renderers is enabled exactly when visible and not committed-and-refined, an unrefined tile turns Staged back to Unstaged, a refined Unstaged tile starts staging exactly when the queue is not full, a committed refined tile's children are all traversed at `time`; requests are only appended, for tiles now staging, with the tile's priority at its nearest seeing camera, and the queue never grows past `MAX_QUEUE_SIZE`; the traversal never commits |
| Unity3mxLod.LodTree.Visit | Assets/Unity3mx/PagedLOD.cs:206-282 | `Traverse` with at least one camera, with the same frame, renderer, status and request guarantees |
| Unity3mxLod.LodTree.Coarsen | Assets/Unity3mx/PagedLOD.cs:225-237 | a culled or unrefined tile: renderers set as given when it has any, Staged turned back to Unstaged, no request and no frame change |
| Unity3mxLod.LodTree.Refine | Assets/Unity3mx/PagedLOD.cs:238-282 | a refined tile: enabled exactly when not committed (given renderers), starts staging exactly when Unstaged and the queue is not full, a committed tile's children all traversed at `time` |
| Unity3mxLod.LodTree.Descend | Assets/Unity3mx/PagedLOD.cs:241-249 | a committed tile: renderers disabled and every child traversed at `time` |
| Unity3mxLod.LodTree.Show | Assets/Unity3mx/PagedLOD.cs:250-281 | a refined tile not committed: renderers enabled; an Unstaged tile with the queue not full starts staging and its request, with the tile's priority, is appended to the manager's queue; otherwise the queue is unchanged |
| Unity3mxLod.LodTree.TraverseChildren | Assets/Unity3mx/PagedLOD.cs:245-248 | every committed child traversed in turn at `time`, the tile and those before it unchanged |
| Unity3mxLod.LodTree.TraverseChild | Assets/Unity3mx/PagedLOD.cs:247 | the k-th child traversed at `time` |
| Requests.RequestManager.constructor | Assets/Unity3MXB/RequestManager.cs:68-73 | no request running, at most six at once, an empty queue, nothing started |
| Requests.RequestManager.EnqueRequest | Assets/Unity3MXB/RequestManager.cs:90-93 | the request joins the queue whether or not it is full; the counters and the started requests are unchanged |
| Requests.RequestManager.Process | Assets/Unity3MXB/RequestManager.cs:95-107 | on return the limit is reached or the queue is empty; every request that left the queue was started exactly once (the queue and the newly started requests together are the old queue as a multiset), the counter rose by the number started, and the running requests grew by exactly those; the counter never passes the limit |
| Requests.RequestManager.Finished | Assets/Unity3MXB/RequestManager.cs:101-104 | the Finished callback of a running request frees one place and removes that request from those running; queue and started list unchanged |
| TileLoader.ReadBytesAt | Assets/Unity3MXB/Unity3MXBLoader.cs:54 | a negative count throws an ArgumentException, otherwise exactly the bytes from the position up to the count (fewer at the end of the stream), the position advancing by as many as were read |
| TileLoader.EnvelopeIgnoresMagic | Assets/Unity3MXB/Unity3MXBLoader.cs:189-195 | a wrong magic value is only logged: two streams that differ only in their first five bytes read the same header at the same position |
| TileLoader.EnvelopeRoundTrip | Assets/Unity3MXB/Unity3MXBLoader.cs:189-206 | any magic, the header's length and the header bytes give back the parsed header (and fail exactly when parsing fails), the reader positioned just after it; a zero header size is only logged |
| TileLoader.EnvelopeHugeHeader | Assets/Unity3MXB/Unity3MXBLoader.cs:198-205 | a header size of 2^31 or more, cast to `int`, is negative and makes `ReadChars` throw an ArgumentException |
| TileLoader.KindOfNames | Assets/Unity3MXB/Unity3MXBLoader.cs:217-256 | exactly three (type, format) pairs are dispatched, one per kind of resource (textureBuffer/jpg, geometryBuffer/ctm, geometryBuffer/xyz) |
| TileLoader.TextureOf | Assets/Unity3mx/Unity3mxLoader.cs:50-69 | the 3MX loader keeps every texture, as its encoded bytes |
| TileLoader.TextureOfRgb | Assets/Unity3MXB/Unity3MXBLoader.cs:50-71 | without overflow, the 3MXB loader keeps a texture exactly when the decoded image has pixels, three bytes for each of width times height |
| TileLoader.SwappedBox | Assets/Unity3MXB/Unity3MXBLoader.cs:232-234 | a box corner from a JSON list succeeds exactly when the list has at least three numbers |
| TileLoader.ResourceStepGrows | Assets/Unity3MXB/Unity3MXBLoader.cs:214-257 | one resource only adds entries to the caches and keeps every mesh's texture id attached to a cached mesh |
| TileLoader.ResourcesGrow | Assets/Unity3MXB/Unity3MXBLoader.cs:214-257 | the whole resource loop only adds entries to the caches and keeps every mesh's texture id attached to a cached mesh |
| TileLoader.CachedSkipped | Assets/Unity3MXB/Unity3MXBLoader.cs:50-71 | a texture or point cloud whose id is already cached is skipped without reading anything |
| TileLoader.DuplicateMeshFails | Assets/Unity3MXB/Unity3MXBLoader.cs:227-236 | a mesh resource whose id came before in the same file throws: its construction is skipped but `_meshTextureIdCache.Add` sees the id a second time |
| TileLoader.MeshCached | Assets/Unity3MXB/Unity3MXBLoader.cs:73-135 | a new mesh resource is cached as the engine mesh of the OpenCTM file decoded at the reader's position, the reader is left after that file, and its texture id is recorded |
| TileLoader.DrawablesCount | Assets/Unity3mx/Unity3mxLoader.cs:301-330 | the 3MX loader gives a tile one drawable per resource, the 3MXB loader one per cached resource and no empty one; every mesh drawable carries a cached mesh |
| TileLoader.TileOf | Assets/Unity3MXB/Unity3MXBLoader.cs:268-276 | a node's tile succeeds exactly when both of its box lists have three numbers |
| TileLoader.TilesFrom | Assets/Unity3MXB/Unity3MXBLoader.cs:263-302 | the node loop makes at most one tile per node and finishes exactly when it made one for every node |
| TileLoader.TilesFromAt | Assets/Unity3MXB/Unity3MXBLoader.cs:268-276 | tile i is node i's tile, with the node's id, child files and screen diameter |
| TileLoader.Encapsulate | Assets/Unity3mx/Unity3mxLoader.cs:352-353 | `Bounds.Encapsulate` moves each lower face down to the point and each upper face up to it, no further |
| TileLoader.CenteredBox | Assets/Unity3mx/Unity3mxLoader.cs:342-349 | the first child's box built from its centre and size is its own box |
| TileLoader.EncapsulateAllKeeps | Assets/Unity3mx/Unity3mxLoader.cs:350-354 | encapsulating never lets go of a point already enclosed |
| TileLoader.EncapsulateAllTakesIn | Assets/Unity3mx/Unity3mxLoader.cs:350-354 | encapsulating takes in both corners of every child |
| TileLoader.EncapsulateAllFaces | Assets/Unity3mx/Unity3mxLoader.cs:350-354 | encapsulating moves a face only to the coordinate of some child's corner |
| TileLoader.MergedBoundsTightest | Assets/Unity3mx/Unity3mxLoader.cs:336-356 | the merged bounds are the smallest box holding every child's corners: each corner lies in it, and each of its faces lies on a corner |
| TileLoader.MergeBounds | Assets/Unity3mx/Unity3mxLoader.cs:338-355 | the bounds block computes the merged bounds |
| TileLoader.Loader.constructor | Assets/Unity3MXB/Unity3MXBLoader.cs:168-180 | a loader reading from the given position with empty dictionaries |
| TileLoader.Loader.ConstructTexture | Assets/Unity3MXB/Unity3MXBLoader.cs:50-71 | the texture step: nothing when the id is cached, otherwise the bytes are read and the kept texture cached |
| TileLoader.Loader.ConstructMesh | Assets/Unity3MXB/Unity3MXBLoader.cs:73-135 | the mesh step: nothing when the id is cached, otherwise the OpenCTM file is decoded and the engine mesh cached |
| TileLoader.Loader.ConstructPointCloud | Assets/Unity3MXB/Unity3MXBLoader.cs:137-166 | the point-cloud step: nothing when the id is cached, otherwise the count and both byte arrays are read and the point cloud cached |
| TileLoader.Loader.LoadResource | Assets/Unity3MXB/Unity3MXBLoader.cs:216-256 | one resource dispatched on its type and format, as the resource step specifies |
| TileLoader.Loader.LoadResources | Assets/Unity3MXB/Unity3MXBLoader.cs:214-257 | the resource loop, as the resource loop's specification says, stopping at the first exception |
| TileLoader.Loader.MakeTiles | Assets/Unity3MXB/Unity3MXBLoader.cs:263-302 | the node loop appends the tiles of the nodes to the committed children and ends with the first exception |
| TileLoader.LoadStreamCo | Assets/Unity3mx/Unity3mxLoader.cs:173-367 | a parent without a game object (3MX) or an empty stream adds nothing; a `.3mx` manifest adds the root tile of its first layer and throws when there is none; otherwise the envelope, resources and nodes are read in turn, the first exception ending the load, the committed children only grow, and bounds are set exactly when the 3MX component has none and has children, as the merged bounds of the children |
| MeshConversion.SwappedYZ | Assets/Unity3MXB/Unity3MXBLoader.cs:83-89 | the vertex loop gives one engine vector per vertex |
| MeshConversion.SwappedYZInverse | Assets/Unity3MXB/Unity3MXBLoader.cs:83-89 | swapping y and z loses nothing: undone, it gives back the floats read |
| MeshConversion.UnswappedYZInverse | Assets/Unity3MXB/Unity3MXBLoader.cs:83-89 | every engine vector list is the swap of some float array |
| MeshConversion.ConvertVectors | Assets/Unity3MXB/Unity3MXBLoader.cs:83-89 | the vertex loop gives the swapped vectors, and throws an IndexOutOfRangeException when the float array is shorter than three per vertex |
| MeshConversion.Rewound | Assets/Unity3MXB/Unity3MXBLoader.cs:94-101 | the triangle array is as long as the index array |
| MeshConversion.RewoundTriangle | Assets/Unity3MXB/Unity3MXBLoader.cs:95-100 | whole triangle j keeps its first corner and swaps the other two |
| MeshConversion.RewoundTriangles | Assets/Unity3MXB/Unity3MXBLoader.cs:94-101 | each whole triangle keeps its three indices and its first corner with the other two reversed; past the whole triangles the array is zero |
| MeshConversion.RewoundTwice | Assets/Unity3MXB/Unity3MXBLoader.cs:94-101 | changing the winding twice gives back an index array of whole triangles |
| MeshConversion.ConvertTriangles | Assets/Unity3MXB/Unity3MXBLoader.cs:94-101 | the triangle loop computes the rewound array |
| MeshConversion.UVPairs | Assets/Unity3mx/Unity3mxLoader.cs:106-113 | the 3MX loader makes one pair per two values |
| MeshConversion.FlippedUVPairs | Assets/Unity3MXB/Unity3MXBLoader.cs:106-112 | the 3MXB loader makes one pair per two values |
| MeshConversion.UVValuesAt | Assets/Unity3MXB/Unity3MXBLoader.cs:106-112 | pair j's two values sit at 2j and 2j+1 of the float array |
| MeshConversion.UVPairsInverse | Assets/Unity3mx/Unity3mxLoader.cs:106-113 | pairing loses nothing but a trailing odd value |
| MeshConversion.UVValuesInverse | Assets/Unity3mx/Unity3mxLoader.cs:106-113 | every pair list is the pairing of some float array |
| MeshConversion.FlippedTwice | Assets/Unity3MXB/Unity3MXBLoader.cs:110 | flipping v twice gives back the plain pairs whenever `1 - (1 - v)` is v in the float arithmetic used |
| MeshConversion.FlipValuesAt | Assets/Unity3MXB/Unity3MXBLoader.cs:110 | flipping the pairs read back from a float array flips each pair's v and keeps its u |
| MeshConversion.ConvertUVs | Assets/Unity3mx/Unity3mxLoader.cs:105-114 | the 3MX UV loop computes the plain pairs |
| MeshConversion.ConvertUVsFlipped | Assets/Unity3MXB/Unity3MXBLoader.cs:104-113 | the 3MXB UV loop computes the flipped pairs |
| MeshConversion.RewoundInRange | Assets/Unity3MXB/Unity3MXBLoader.cs:94-101 | rewinding keeps every index within a vertex range that held all of them |
| MeshConversion.EngineMeshOfWellFormed | Assets/Unity3MXB/Unity3MXBLoader.cs:73-135 | a well-formed decoded mesh converts without exception and the engine mesh gives it back: its vectors unswapped are the vertices, its triangles rewound are the indices, every triangle corner is one of its vertices, and normals and UVs are present exactly when the mesh has them |
| MeshConversion.ConvertMesh | Assets/Unity3MXB/Unity3MXBLoader.cs:73-135 | `ConstructMesh`'s loops, in turn, give the engine mesh of the decoded mesh |
| MeshConversion.PointCloudOf | Assets/Unity3MXB/Unity3MXBLoader.cs:137-166 | a point cloud is built exactly when the count is non-negative and both byte arrays hold the count's points and colours; it then has one vertex, colour and index per point |
| MeshConversion.PointCloudFailsAt | Assets/Unity3MXB/Unity3MXBLoader.cs:147-157 | the exception is that of the first point lacking its bytes: ArgumentException for missing position bytes, otherwise IndexOutOfRangeException for its colour |
| MeshConversion.ConvertPointCloud | Assets/Unity3MXB/Unity3MXBLoader.cs:137-166 | the point loop computes the point cloud, or its exception |
| MeshConversion.PointRecord | Assets/Unity3MXB/Unity3MXBLoader.cs:149-151 | a point is stored in twelve bytes |
| MeshConversion.PointBytes | Assets/Unity3MXB/Unity3MXBLoader.cs:142 | the position bytes are twelve per point |
| MeshConversion.ReadBack | Assets/Unity3MXB/Unity3MXBLoader.cs:149 | `ToSingle` of an int's little-endian bytes gives back that float |
| MeshConversion.PointBytesAt | Assets/Unity3MXB/Unity3MXBLoader.cs:149-151 | point i's twelve bytes are its record |
| MeshConversion.PointRecordParts | Assets/Unity3MXB/Unity3MXBLoader.cs:149-151 | a point's record holds x, z and y in turn |
| MeshConversion.PointRoundTrip | Assets/Unity3MXB/Unity3MXBLoader.cs:149-151 | point i read back from the position bytes is point i |
| MeshConversion.PointCloudRoundTrip | Assets/Unity3MXB/Unity3MXBLoader.cs:137-166 | writing points as records and reading them back gives the points, the colours read from the colour bytes and the indices 0, 1, 2, ... |
| CtmFile.CtmFileReader.constructor | Assets/OpenCTM/io/CtmFileReader.cs:31-34 | a reader over a fresh input stream at position 0, nothing decoded and no comment yet |
| CtmInput.CtmInputStream.constructor | Assets/OpenCTM/io/CtmInputStream.cs:11-14 | a stream over the given bytes at position 0 |
| CtmOutput.CtmOutputStream.constructor | Assets/OpenCTM/io/CtmOutputStream.cs:13-15 | nothing written, compression level 5 |
| CtmOutput.CtmOutputStream.WithLevel | Assets/OpenCTM/io/CtmOutputStream.cs:17-20 | nothing written, the given compression level |
| CtmOutput.CtmOutputStream.WriteBytes | Assets/OpenCTM/io/CtmOutputStream.cs:26 | the bytes are appended to what was written |

## Left out

- The LZMA encoder and decoder (SevenZip): `Lzma.Coder` is a parameter. Only the framing around them is modelled (properties, length, payload) and the level-to-settings table. Every round trip assumes `Lzma.Lossless`, which says decoding gives back what was encoded.
- Floating-point arithmetic is not modelled. This covers:
  - the quantisers and `Math.Pow` of `setupGrid`;
  - `pointToGridIdx`'s division;
  - the smooth-normal sums;
  - `makeNormalCoordSys`;
  - the normal angle coding (acos, atan2, sin, cos);
  - `Priority`, `ScreenDiameter`, `Vector3.magnitude` and `Vector3.Distance`.

  These are parameters (`FloatArith.Arith`, `FloatArith.Angular`, `Unity3mxLod.Measures`, `LodNodes.ScreenDiameter`). The MG2 round trip assumes `SnapsExactly`: the quantised values map back to the same floats.
- Culling computes on reals, so `Culling.IntersectPlane` and `Culling.DistanceTo` ignore float rounding.
- `TileBoundingSphere.Transform`, `Volume` and debug drawing are not part of this model.
- The Unity engine objects are not modelled: GameObject, MeshRenderer, materials, colliders, Texture2D and `RecalculateNormals`. A tile keeps an `enabled` flag and a `renderers` flag for them.
- Unity3mxbLod.LodTree.Traverse: the 3MXB `EnableRenderer` goes through `GetComponentsInChildren`, which also reaches the renderers of committed descendant tiles. The model sets only the tile's own flag.
- The LRU cache (`MarkUsed`, `Add`, eviction), the priority queue's ordering, the commit queue's consumer, the producer-consumer queue of stage tasks, coroutines and promises are not modelled. `Requests.RequestManager.Process` takes the order of dequeuing as a parameter. A stage task's end is `FinishStaging` or `StagingFinished`, called by whoever drives the model.
- Unity3mxbLod.LodTree.UnloadChildren: the LRU cache calls `UnloadChildren` on tiles that may be Staging or Staged without lowering `stagingCount`. The contract states that the pending count drops while the component's counter does not move. What the cache then does with the counter is not part of this model.
- NanoJPEG, `Texture2D.LoadImage`, the JSON deserialiser and `UrlUtils` are parameters or left out. The header and manifest parsers are `TileLoader.Decoders` fields, and a child's directory is not modelled.
- TileLoader.ReadBytesAt: `ReadChars` is modelled as one byte per character. BinaryReader's UTF-8 decoding of multi-byte sequences in a header is not modelled.
- Transports, the loaders' `Dispose`, component lifecycle and debug timing are not part of this model. The OutWindow static singleton is an ordinary `LzWindow.OutWindow` instance.
- LzWindow.OutWindow.Create: requires a window of 1 byte to 16 MiB. Larger windows are excluded from the class. The source accepts any `uint`, keeps its 16 MiB buffer, and throws IndexOutOfRange once 16 MiB have been put without a wrap. The level-6 and higher dictionaries (32 and 64 MiB) that `writeCompressedData` writes are such windows. `LzWindow.PutAsWritten` models them position by position, and the matching row is under "## Findings". A zero window is excluded too. The LZMA decoder that calls `Create` is not part of this model.
- TileLoader.Geometry: the loaders' `um.bounds.SetMinMax(bbMin, bbMax)` sets a copy of the mesh's `Bounds` struct, so the declared box is parsed (a short box list still throws) but never reaches the engine mesh. The model keeps the box beside the mesh and gives the engine mesh no bounds of its own.
- Mg2Encoder.SortVertices: `Array.Sort` is an unstable introsort over SortableVertex's wrapping `compareTo`, under which a NaN X compares equal to anything. The model uses a stable insertion sort by grid index, then X, with NaN ordered by its bits. For vertices tied on (grid index, X), or with NaN X, the model fixes one order where the source leaves it open. The sorted result's order and permutation are proved (`Mg2Encoder.SortedVerticesCorrect`).
- MeshSplit.ShardCount: the source computes `Mathf.CeilToInt(len / 150000f)` on a float quotient, which the model takes as the exact integer ceiling. The two agree while the quotient is exact in single precision. Above 2^24 floats the float quotient can round down to a whole number and give one shard fewer.
- Mg1Indices.Arranged: `rearrangeTriangles` sorts with Triangle's wrapping `compareTo`. The model sorts by the lexicographic order, and the two agree on triangles without negative indices (`Mg1Indices.ArrangedAsWritten`). The file reader's integrity check lets negative indices through, and on those the written comparison is not an order (`Triangles.CompareToAsWrittenCycles`), so `Array.Sort`'s result is left unmodelled.
- Mg2RoundTrip.FileRoundTrip: the file-level round trip is proved for the MG2 writer only. The RAW reader always fails on its float sections, so no RAW body reads back (`RawCodec.RawDecodeFails`). For MG1, the index coding is proved to round-trip (`Mg1Indices.RestoredDeltas`) and the packed sections read back (`CtmInput`), but no whole-body lemma composes them.
- The round trips require the following:
  - the file length is below 2^31;
  - map names fit their length prefix (`RawCodec.NamesFit`);
  - map precisions survive the float reader (`ReadableMaps`);
  - the comment is within the Basic Multilingual Plane (`ByteCoding.Counted`), see "## Findings".
- Mesh hash codes, `getAverageEdgeLength` and the RAW float-reading path are not modelled. The RAW float path appends to a list that is never assigned, so `RawCodec` models it as always failing.

## Findings

| source | as written | input that shows it | evidently intended | confidence | as-written member | corrected member |
|---|---|---|---|---|---|---|
| Assets/OpenCTM/data/Mesh.cs:90-95 | an index is refused only when it is at least `vertices.Length`, the number of floats (three per vertex), and a negative index is never refused | one vertex (three floats) with the triangle (0, 1, 2), or with (-1, 0, 0): both pass | every index names a vertex: 0 <= index < `getVertexCount()` | not executed | MeshData.CheckIntegrityAsWritten, MeshData.CheckIntegrityAsWrittenAcceptsMissingVertex, MeshData.CheckIntegrityAsWrittenAcceptsNegative | MeshData.CheckIntegrity, MeshData.CheckIntegrityAgrees |
| Assets/OpenCTM/compression/MG2Decoder.cs:66-71 | `readIndices` refuses only an index above `vcount` | one vertex and the triangle (0, 0, 1): accepted, after which the smooth normals index past the vertices | every index is below `vcount` (and not negative) | not executed | Mg2Decoder.IndicesCheckAsWritten, Mg2Decoder.IndicesCheckAsWrittenAdmitsVertexCount | Mg2Decoder.IndicesCheck, Mg2Decoder.CheckedIndicesSmooth |
| Assets/OpenCTM/compression/MG2Encoder.cs:214-238 | `prevGridIndex` is a `float`, so the encoder compares grid indices after conversion to float, while the decoder compares them as ints | two vertices in the adjacent cells 2^24 and 2^24 + 1 with X offsets 5 and 7: the encoder stores 7 - 5, the decoder reads X back as 2 | the encoder's cell test is the decoder's int comparison, so every X offset is restored | not executed | Mg2Deltas.VertexDeltasAsWrittenLosesX | Mg2Deltas.RestoredVertexDeltas, Mg2Deltas.VertexDeltasSmall |
| Assets/OpenCTM/io/CtmOutputStream.cs:22-30 | `writeString` writes `text.Length` (UTF-16 units) and then one ASCII byte per character | the comment "😀": length 2 followed by the single byte '?', so `readString` also takes the next byte of the file | the length prefix counts the bytes that follow it | not executed | ByteCoding.StringBytes, ByteCoding.StringBytesOverstates, CtmInput.ReadStringAsWrittenOverreads | ByteCoding.StringBytesIntended, CtmInput.ReadStringIntended |
| Assets/OpenCTM/data/Triangle.cs:29-37 | `compareTo` returns the wrapping `int` difference of the first unequal elements | (int.MinValue, 0, 0) against (1, 0, 0) compares greater; with (0, 0, 0) the three compare in a cycle | the sign of the lexicographic comparison | not executed | Triangles.CompareToAsWritten, Triangles.CompareToAsWrittenOverflows, Triangles.CompareToAsWrittenCycles | Triangles.Compare, Triangles.CompareToAsWrittenOnIndices |
| Assets/Unity3MXB/Unity3MXBBoundingVolume.cs:31 | `MASK_INSIDE` is `0x3F << 6`, while `Set` writes the six plane bits 0 to 5 | the default mask marked Inside for planes 0 to 5 in turn reports Intersecting | `0x3F`: inside all six planes reports Inside | not executed | Culling.IntersectionAsWritten, Culling.AllSixInsideAsWritten, Culling.InsideUnreachableAsWritten | Culling.Intersection, Culling.InsideIffAllSix, Culling.ClippedAgrees |
| Assets/OpenCTM/LZ/LzOutWindow.cs:25 | `_buffer` is always 16 MiB while `Create` accepts any window size, and the write position returns to 0 only at the end of the window | a file written at level 6 (a 32 MiB dictionary) whose body decompresses to more than 16 MiB: byte 2^24 is stored at `_buffer[2^24]` and throws IndexOutOfRange | the buffer holds the whole window, as the commented-out `new byte[windowSize]` in `Create` would | not executed | LzWindow.PutAsWrittenFailsIff, LzWindow.Level6WindowOverruns | LzWindow.PutIntendedNeverFails |
