# OFF and Hulk plug-ins of OpenSceneGraph: a Dafny model

This project models the logic at the heart of four OpenSceneGraph plug-ins and proves
what that logic promises:

- **Hulk index packing** (`hulk/CompressIndices.cpp`). `pack_inds` merges each triangle
  with the next one when the two share an edge in opposite directions, writing one
  4-entry group; otherwise it writes the triangle as a 3-entry group in a fixed rotation.
  `unpack_inds` reads the groups back, telling the two kinds apart by whether the first
  entry is below the second. The model proves the round trip. Every triangle comes back
  as a rotation of itself, so its winding is kept. The restored order is a permutation
  of the input in which only merged pairs may swap places.
- **Hulk options** (`hulk/ReaderWriterHulk.cpp`). The `key=value` option words: only
  `mode` and `bits` count, and the last word that sets a key decides it.
- **LZMA glue** (`lzma/CompressorLZMA.cpp`). The `dataStream` the codec pulls input
  from and pushes output to. The 4-byte length frame the compressed payload is stored in.
- **Geomview OFF codec** (`off/off.cpp`, `off/off.h`). This covers:
  - the `off::Model` value types and its `merge`;
  - the character-level `readline`, `trim` and the big-endian word reader and writer;
  - the text reader: a file-state machine over lines, with a per-vertex token machine;
  - the binary reader;
  - the text and binary writers.

  The model proves that both readers read back what the matching writer writes. It
  also proves that every face a reader keeps names existing vertices.
- **Second OFF reader** (`off/ReaderWriterOFF.cpp`, `off/Utils.cpp`). It covers:
  - `readLines` and `explodeString`;
  - the MagicNumber, Counters, Vertices, Polygons, Finished parsing loop of `readNode`;
  - the flattening of the polygons into one vertex array and one colour array, with one
    `DrawArrays` per polygon.
- **OFF writer decomposition** (`off/OFFWriterNodeVisitor.cpp`, `.h`). `ValueVisitor`
  picks components with a forced dimension. `OffPrimitiveIndexWriter` turns GL
  triangles, strips, quads, quad strips, fans, lines and points into faces of the
  model, directly or through an index buffer or the `begin`/`vertex`/`end` cache.

Text is `seq<char>` and byte data is `seq<byte>`. C integer widths are written out where
they matter: `unsigned int` truncation, `size_t` wrap-around, `int` reinterpretation.
The numeric text conversions the source takes from the C++ library (`istream >> float`,
`isNumber`, `sscanf("%f")`, the bits of a float) are a parameter `Conv` of given
functions. Floats are exact reals. The LZMA codec itself is a pair of function
parameters.

Modules, one per file:

- `Common`: integer widths, decimal text, `atoi`, tokenizing.
- `CompressIndices`.
- `HulkOptions`.
- `LzmaStream`.
- `OffTypes`: `Vertex`, `Face`, `Conv`.
- `OffLine`: `trim`, byte words, `readline`.
- `OffText`: line contents for the text reader and writer.
- `OffScan`: the text reader as a line machine, and the text round trip.
- `OffFile`: `readline` over a whole written file.
- `OffBinary`: the binary reader's data.
- `OffBinaryWriter`: the binary writer and the binary round trip.
- `Off`: the `Model` class with its readers, writers and `merge`.
- `OffUtils`.
- `OffReader`: `readNode`.
- `OffWriterVisitor`.

## Model

| member | source | states |
|---|---|---|
| Common.ToSizeT | src/osgPlugins/off/off.cpp:1097-1104 | an `int` stored into a `size_t` keeps values in range and sends any negative `int` above 2^64 - 2^31 |
| Common.ToU32 | src/osgPlugins/hulk/ReaderWriterHulk.cpp:140-143 | a value stored into an `unsigned int` is kept when the type holds it |
| Common.Wrap32 | src/osgPlugins/hulk/ReaderWriterHulk.cpp:144-147 | a value stored into an `int` is kept when the type holds it |
| Common.AsInt32 | src/osgPlugins/off/off.cpp:174-192 | the word read by `readInt` returned as `int`: words below 2^31 keep their value, the others lose 2^32 |
| Common.NatToDecimal | src/osgPlugins/off/off.cpp:1290 | the decimal text the writers print for a count or index is non-empty and all digits |
| Common.DecimalRoundTrip | src/osgPlugins/off/off.cpp:1290 | the digits printed for a natural number read back as that number |
| Common.AtoiOfDecimal | src/osgPlugins/hulk/ReaderWriterHulk.cpp:140-147 | `atoi` of a printed natural number gives it back |
| Common.ScanInt | src/osgPlugins/off/ReaderWriterOFF.cpp:189 | `%d` fails exactly when no integer is there, and on success reports using at least one and at most all characters |
| Common.TokensShape | src/osgPlugins/off/Utils.cpp:82-89 | every token of a text is non-empty and holds no separator |
| Common.TokensConcat | src/osgPlugins/off/Utils.cpp:68-92 | the tokens put back together are the text with its separators removed |
| Common.TokensJoin | src/osgPlugins/off/off.cpp:1297-1313 | words written with single separators between them split back into the same words when they are non-empty and separator-free |
| CompressIndices.AddDoubleTri | src/osgPlugins/hulk/CompressIndices.cpp:3-10 | appends the 4-entry group (a,b,c,d), for a caller that guarantees a < b |
| CompressIndices.AddTri | src/osgPlugins/hulk/CompressIndices.cpp:12-18 | appends the 3-entry group (a,b,c), for a caller that guarantees a >= b |
| CompressIndices.TryMergeWithNext | src/osgPlugins/hulk/CompressIndices.cpp:21-61 | the edge search merges exactly when `TryMerge` finds a group, and appends that group and nothing else |
| CompressIndices.TryMergeSpec | src/osgPlugins/hulk/CompressIndices.cpp:23-57 | nothing is merged without a next triangle or for a degenerate one; otherwise a merge happens iff some edge appears reversed in the next triangle; a group (a,b,c,d) has a < b and (a,b,c), (a,d,b) are rotations of the two triangles |
| CompressIndices.SearchNextComplete | src/osgPlugins/hulk/CompressIndices.cpp:36-58 | the nested edge loops find a match whenever one exists |
| CompressIndices.MergedGroupShape | src/osgPlugins/hulk/CompressIndices.cpp:46-53 | a < b puts the current triangle first in the group, a > b puts the next one first |
| CompressIndices.Canonical | src/osgPlugins/hulk/CompressIndices.cpp:71-81 | an unmerged triangle is written as one of its rotations whose first entry is not below its second |
| CompressIndices.PackInds | src/osgPlugins/hulk/CompressIndices.cpp:63-86 | appends the packed form of the whole index buffer |
| CompressIndices.PackStep | src/osgPlugins/hulk/CompressIndices.cpp:65-85 | one loop round moves the cursor on by 3 or 6 and appends what the packed form holds between the two cursors |
| CompressIndices.AddCanonical | src/osgPlugins/hulk/CompressIndices.cpp:71-81 | the non-merging branch appends the canonical rotation |
| CompressIndices.PackFromMerged | src/osgPlugins/hulk/CompressIndices.cpp:67-70 | a merge writes its group and continues six entries further on |
| CompressIndices.PackFromSingle | src/osgPlugins/hulk/CompressIndices.cpp:71-84 | a triangle left alone writes its canonical rotation and continues three entries further on |
| CompressIndices.PackWellFormed | src/osgPlugins/hulk/CompressIndices.cpp:3-18 | the packed stream is a run of 4-groups with first < second and 3-groups with first >= second |
| CompressIndices.PackLength | src/osgPlugins/hulk/CompressIndices.cpp:65-85 | packed length is input length minus twice the number of merges |
| CompressIndices.UnpackInds | src/osgPlugins/hulk/CompressIndices.cpp:88-103 | appends (a,b,c) for every group and also (a,d,b) for a 4-group |
| CompressIndices.UnpackGroup | src/osgPlugins/hulk/CompressIndices.cpp:90-102 | unpacking a group followed by a well-formed stream is the group's triangles followed by the rest unpacked |
| CompressIndices.RoundTripFrom | src/osgPlugins/hulk/CompressIndices.cpp:48-53 | from any cursor, unpacking the packed rest gives a rotation of each triangle in restored order |
| CompressIndices.PairRoundTrip | src/osgPlugins/hulk/CompressIndices.cpp:97-101 | a merged group unpacks to rotations of its two triangles, in restored order |
| CompressIndices.RestoredIsPermutation | src/osgPlugins/hulk/CompressIndices.cpp:48-53 | the restored order holds the same triangles as the input, as a multiset |
| CompressIndices.RoundTrip | src/osgPlugins/hulk/CompressIndices.cpp:63-103 | `unpack(pack(x))` is well formed, has |x| entries, holds triangle by triangle a rotation of the restored order, and the restored order is a permutation of x |
| HulkOptions.Split | src/osgPlugins/hulk/ReaderWriterHulk.cpp:127-136 | the key holds no `=`; a word with `=` is key, `=`, value; a word without is all key with an empty value |
| HulkOptions.SplitAtFirst | src/osgPlugins/hulk/ReaderWriterHulk.cpp:127-136 | the cut is at the first `=`, whatever follows |
| HulkOptions.SplitExample | src/osgPlugins/hulk/ReaderWriterHulk.cpp:127-136 | `mode=3=4` gives `mode` the value `3=4` |
| HulkOptions.ParseOptions | src/osgPlugins/hulk/ReaderWriterHulk.cpp:112-152 | without options the defaults (mode 0, bits -1); otherwise the defaults updated by every white-space separated word in turn |
| HulkOptions.AppliedChanges | src/osgPlugins/hulk/ReaderWriterHulk.cpp:138-147 | a word changes only the field its key names, and only with a non-empty value |
| HulkOptions.Untouched | src/osgPlugins/hulk/ReaderWriterHulk.cpp:121-149 | a field that no word sets keeps its value |
| HulkOptions.LastWins | src/osgPlugins/hulk/ReaderWriterHulk.cpp:121-149 | the last word setting a field decides it, through `atoi` and the store into its type |
| HulkOptions.OthersIgnored | src/osgPlugins/hulk/ReaderWriterHulk.cpp:138-147 | words setting neither key leave the options unchanged |
| LzmaStream.DataStream.constructor | src/osgPlugins/lzma/CompressorLZMA.cpp:15-22 | the stream starts at its input with an empty output |
| LzmaStream.DataStream.InputCallback | src/osgPlugins/lzma/CompressorLZMA.cpp:24-43 | copies min(remaining, size) bytes of the rest of the input into the buffer, advances past them, reports the count and returns 0; the input handed out stays the prefix before the pointer, all of the input once the remaining length is 0; an exhausted stream copies nothing |
| LzmaStream.DataStream.OutputCallback | src/osgPlugins/lzma/CompressorLZMA.cpp:45-59 | appends the `size` bytes to the output, grows `outLen` by `size` and returns `size`; size 0 changes nothing |
| LzmaStream.LittleEndian32RoundTrip | src/osgPlugins/lzma/CompressorLZMA.cpp:109-133 | the four bytes of a 32-bit length read back as the length |
| LzmaStream.Framed | src/osgPlugins/lzma/CompressorLZMA.cpp:109-110 | four length bytes followed by the payload |
| LzmaStream.Unframed | src/osgPlugins/lzma/CompressorLZMA.cpp:133-138 | the length read from the first four bytes, then exactly that many bytes, when the stream holds them |
| LzmaStream.FrameRoundTrip | src/osgPlugins/lzma/CompressorLZMA.cpp:109-110 | a payload under 4 GiB is read back from its frame whatever follows |
| LzmaStream.Compress | src/osgPlugins/lzma/CompressorLZMA.cpp:79-128 | fails exactly when the codec fails; otherwise the codec output behind its 4-byte length |
| LzmaStream.Decompress | src/osgPlugins/lzma/CompressorLZMA.cpp:130-164 | the framed payload handed to the codec |
| LzmaStream.CompressRoundTrip | src/osgPlugins/lzma/CompressorLZMA.cpp:79-164 | with a decoder that inverts the encoder, decompress after compress gives the input back |
| OffTypes.SameVertexIsEquality | src/osgPlugins/off/off.h:79 | component-wise equality of vertices holds exactly when the vertices are equal |
| OffLine.Trim | src/osgPlugins/off/off.cpp:44-53 | the result is a slice of the input with no space or tab at either end, and all blanks are cut off |
| OffLine.TrimIdempotent | src/osgPlugins/off/off.cpp:44-53 | trimming twice is trimming once |
| OffLine.TrimEmpty | src/osgPlugins/off/off.cpp:44-53 | a text trims to nothing exactly when it is all blanks |
| OffLine.HostWordBytes | src/osgPlugins/off/off.cpp:152-159 | the bytes of a word and the word of four bytes are inverse |
| OffLine.EndianSwap | src/osgPlugins/off/off.cpp:142-148 | the swapped word has the bytes of the word in reverse order |
| OffLine.EndianSwapInvolution | src/osgPlugins/off/off.cpp:142-148 | swapping twice gives the word back |
| OffLine.WriteInt | src/osgPlugins/off/off.cpp:152-159 | four bytes: the host bytes of the value truncated to 32 bits, in reverse order when big-endian |
| OffLine.WriteIntBigEndian | src/osgPlugins/off/off.cpp:152-159 | big-endian output puts the most significant byte first |
| OffLine.WriteFloat | src/osgPlugins/off/off.cpp:163-170 | four bytes: the host bytes of the float's bit pattern, in reverse order when big-endian |
| OffLine.WordRoundTrip | src/osgPlugins/off/off.cpp:152-192 | `readInt` after `writeInt` in the same byte order gives the value truncated to 32 bits |
| OffLine.ReadInt | src/osgPlugins/off/off.cpp:174-192 | 0 and the offset unchanged when fewer than four bytes remain before the file size; otherwise the next word and the offset moved by 4 |
| OffLine.ReadFloat | src/osgPlugins/off/off.cpp:196-214 | 0.0 and the offset unchanged past the end; otherwise the float of the next word and the offset moved by 4 |
| OffLine.ReadLine | src/osgPlugins/off/off.cpp:1166-1251 | succeeds iff the buffer holds a character; the line fits the buffer, holds no CR or LF and no tab before its end in text mode; a plain line ending in LF, CR or CR LF is read as it is, minus leading blanks and trailing spaces in text mode, and the stream stands after its ending (both bytes of a CR LF); a line continued by a backslash before a LF is read as its two parts joined by one space, the leading blanks of the second part dropped too while no text has been copied yet, and the stream stands after the ending of the second part |
| OffLine.ReadChars | src/osgPlugins/off/off.cpp:1177-1232 | the copying loop stops within the buffer; on a plain line ending in LF, CR or CR LF it copies the line and consumes its whole ending; on a line continued by a backslash and LF it copies both parts joined by a space and consumes the second ending |
| OffLine.CopyOne | src/osgPlugins/off/off.cpp:1180-1229 | one turn, branch by branch (`Turn`): at the end of the data the stream fails; a CR (with a following LF consumed too) or a LF ends the line, or after a backslash becomes one space and clears the pending join; a backslash before a CR or LF is dropped and sets the pending join; a space or tab while leading blanks are eaten is skipped; any other byte is copied and stops the eating |
| OffLine.StripTrailingSpaces | src/osgPlugins/off/off.cpp:1235-1239 | the line without its trailing spaces |
| OffLine.TabsToSpaces | src/osgPlugins/off/off.cpp:1243-1248 | every tab before the first NUL becomes a space and nothing else changes |
| OffText.CommentCut | src/osgPlugins/off/off.cpp:312-320 | the line before its first `#`; a line without `#` is kept whole |
| OffText.CleanLine | src/osgPlugins/off/off.cpp:307-325 | the buffer's text before its NUL, comment cut, trimmed: it holds no `#` and no blank at either end |
| OffText.CleanLineOfPlain | src/osgPlugins/off/off.cpp:307-325 | a line without NUL, `#` or end blanks is its own clean line |
| OffText.WriterCommentIsBlank | src/osgPlugins/off/off.cpp:1269 | the writers' first line is blank to the readers |
| OffText.ParseTextHeader | src/osgPlugins/off/off.cpp:333-392 | a line ending in "BINARY" is handed to the binary reader; one not ending in "OFF" is refused; otherwise its prefixes are the flags |
| OffText.ParseBinaryHeader | src/osgPlugins/off/off.cpp:834-893 | a descriptor is only read from a line ending in "BINARY" |
| OffText.PrefixesOfFlags | src/osgPlugins/off/off.cpp:356-372 | reading the prefixes of the written flags gives the flags back |
| OffText.DescriptorRoundTrip | src/osgPlugins/off/off.cpp:1272-1281 | the text reader reads back the descriptor line the text writer emits |
| OffText.BinaryDescriptorRoundTrip | src/osgPlugins/off/off.cpp:1352-1365 | the binary reader reads back the binary writer's descriptor, and the text reader hands that line on to it |
| OffText.ParseNDim | src/osgPlugins/off/off.cpp:400-431 | accepted exactly when the line is a number without `.` whose value plus the fourth component is at most 4; the dimension is that value, with 0 read as 3, so always between 1 and 4 |
| OffText.ParseCounts | src/osgPlugins/off/off.cpp:437-455 | at least two words, read as the vertex and face counts |
| OffText.CountsRoundTrip | src/osgPlugins/off/off.cpp:1290 | the written counts line reads back as the counts |
| OffText.NumbersOnly | src/osgPlugins/off/off.cpp:471-474 | keeps exactly the tokens that read as numbers and never adds one |
| OffText.NumbersOnlyAll | src/osgPlugins/off/off.cpp:471-474 | a line of numbers passes the filter unchanged |
| OffText.RemoveNonNumbers | src/osgPlugins/off/off.cpp:471-474 | the filter loop leaves exactly the number tokens, in order |
| OffText.NumbersFilterAsWrittenKeepsWord | src/osgPlugins/off/off.cpp:472-474 | with erase-then-increment, the second of two non-numbers survives |
| OffText.ColorChannel | src/osgPlugins/off/off.cpp:568-570 | a channel above 1 is divided by 255, others kept |
| OffText.SlotAtCursor | src/osgPlugins/off/off.cpp:485-601 | in each state the vertex machine writes the component the layout lists at its cursor |
| OffText.ReadVertex | src/osgPlugins/off/off.cpp:476-602 | value j of the line goes to component j of the layout; surplus values are ignored and missing components keep their defaults |
| OffText.TokenStep | src/osgPlugins/off/off.cpp:483-602 | one turn of the token loop stores the next token's value |
| OffText.VertexStep | src/osgPlugins/off/off.cpp:485-601 | one turn of the state switch stores the value where the layout says and moves to the next group when one is complete |
| OffText.VertexValues | src/osgPlugins/off/off.cpp:1297-1313 | the writer prints three position values, then three for a normal, four for a colour and two for a texture coordinate as the flags ask |
| OffText.VertexValuesRead | src/osgPlugins/off/off.cpp:1297-1313 | storing a vertex's written values rebuilds the vertex |
| OffText.VertexLineRoundTrip | src/osgPlugins/off/off.cpp:1297-1313 | a written vertex line reads back as its vertex through cleaning, tokenizing, the number filter and the vertex machine |
| OffText.DeclaredCount | src/osgPlugins/off/off.cpp:640-643 | the declared index count is cut down to the tokens present |
| OffText.KeptIndices | src/osgPlugins/off/off.cpp:650-660 | at most as many indices as tokens, each naming an existing vertex |
| OffText.KeptAll | src/osgPlugins/off/off.cpp:650-660 | decimal indices below the vertex count are all kept, in order |
| OffText.FaceColor | src/osgPlugins/off/off.cpp:679-690 | three or four channels, alpha 1 when missing, all four divided by 255 when any exceeds 1 |
| OffText.ColoredFace | src/osgPlugins/off/off.cpp:668-693 | the face keeps its indices; the face-colour flag is set exactly when one or at least three tokens follow them |
| OffText.FaceOf | src/osgPlugins/off/off.cpp:637-695 | no face for an empty line or fewer than three kept indices; otherwise the kept indices with their colour |
| OffText.ReadFace | src/osgPlugins/off/off.cpp:620-702 | the face branch keeps exactly the face `FaceOf` describes |
| OffText.FaceLineRoundTrip | src/osgPlugins/off/off.cpp:1318-1337 | a written face line reads back as the face, the face-colour flag set exactly when the model has face colours |
| OffText.FaceWordsKept | src/osgPlugins/off/off.cpp:1320-1326 | a written face line declares its index count and all its indices are kept |
| OffScan.DescriptionStep | src/osgPlugins/off/off.cpp:333-392 | the reader stops exactly on a "BINARY" line, with the binary flag, or on a line not ending in "OFF"; otherwise it takes the line's flags and moves to the dimension or counts line; nothing is read yet |
| OffScan.NDimensionStep | src/osgPlugins/off/off.cpp:400-431 | a refused dimension stops the reader; an accepted one is stored and the counts line follows |
| OffScan.CountsStep | src/osgPlugins/off/off.cpp:437-455 | a line of fewer than two words stops the reader; otherwise the vertex lines follow |
| OffScan.VertexLineStep | src/osgPlugins/off/off.cpp:459-610 | a vertex line appends exactly one vertex while vertices are announced, and the faces follow after the last one |
| OffScan.FaceLineStep | src/osgPlugins/off/off.cpp:620-702 | a face line keeps the vertices and appends at most one face; reading ends with no faces or vertices, or after the announced count |
| OffScan.LineStep | src/osgPlugins/off/off.cpp:328-707 | every line keeps what was read and appends at most one vertex and one face; the reader never restarts, and the end state is final |
| OffScan.TextStep | src/osgPlugins/off/off.cpp:305-325 | a line after the early return changes nothing, and any line adds at most one vertex and one face |
| OffScan.RunText | src/osgPlugins/off/off.cpp:305-709 | the reader only appends, never more vertices or faces than lines, and a stopped reader stays as it was |
| OffScan.StepKeepsFacesValid | src/osgPlugins/off/off.cpp:620-702 | each line keeps every face usable: at least three indices, each below the vertex count |
| OffScan.RunKeepsFacesValid | src/osgPlugins/off/off.cpp:305-709 | whatever the lines, the text reader keeps only usable faces |
| OffScan.WrittenLines | src/osgPlugins/off/off.cpp:1259-1340 | three header lines, then line 3 + i is the line of vertex i and the faces' lines follow the vertices' in order |
| OffScan.TextRoundTrip | src/osgPlugins/off/off.cpp:1259-1340 | for a mesh whose vertices have w = 1, whose written colour channels are at most 1 and whose numbers print exactly: reading the lines `writeOFF` writes gives back the vertices, faces (face colours included) and flags, and accepts the file |
| OffScan.VerticesRead | src/osgPlugins/off/off.cpp:459-610 | written vertex lines read in the vertex state append their vertices and move on to the faces |
| OffScan.FacesRead | src/osgPlugins/off/off.cpp:620-702 | written face lines read in the face state append their faces and end the reading |
| OffScan.HeaderRead | src/osgPlugins/off/off.cpp:1269-1290 | the three header lines of a written file lead to the vertex state with the counts and flags |
| OffFile.NextLine | src/osgPlugins/off/off.cpp:1166-1251 | `readline` over a written file hands back its next line, or fails with nothing at its end |
| OffFile.DocumentLine | src/osgPlugins/off/off.cpp:1166-1251 | line j of a file starts after the first j lines, ends with a line feed, and is copied as it is |
| OffFile.AllLinesRead | src/osgPlugins/off/off.cpp:305-309 | reading a text file to its end leaves the reader where reading its lines does |
| OffFile.WrittenLinesPlain | src/osgPlugins/off/off.cpp:1259-1340 | the file `writeOFF` writes is a text file of its lines when they fit the `readline` buffer |
| OffBinary.WordsFrom | src/osgPlugins/off/off.cpp:174-192 | the complete big-endian words of the data from a byte position; a partial last word is never read |
| OffBinary.ReadWord | src/osgPlugins/off/off.cpp:174-192 | the p-th `readInt` gives word p as an `int` and moves on one word, if there is one |
| OffBinary.ReadFloatWord | src/osgPlugins/off/off.cpp:196-214 | the p-th `readFloat` gives word p as a float and moves on one word, if there is one |
| OffBinary.NDimAsWrittenOverflows | src/osgPlugins/off/off.cpp:904-914 | the word -1 in a "4nOFF" file passes the dimension check as written with a dimension far beyond 4 |
| OffBinary.BinaryNDim | src/osgPlugins/off/off.cpp:904-914 | the corrected check: a dimension accepted only when it plus the fourth component is at most 4, 0 read as 3 |
| OffBinary.NDimChecksAgree | src/osgPlugins/off/off.cpp:907-914 | the corrected check agrees with the written one except for the largest `size_t` with the "4" flag |
| OffBinary.KeptWordsNameVertices | src/osgPlugins/off/off.cpp:1104-1112 | every index kept from a face record names a vertex |
| OffBinary.BinaryFaces | src/osgPlugins/off/off.cpp:1088-1128 | at most one face per record |
| OffBinary.BinaryFacesValid | src/osgPlugins/off/off.cpp:1088-1128 | every face read has at least three indices, each naming a vertex |
| OffBinary.BinaryDim | src/osgPlugins/off/off.cpp:871-919 | 4 with the "4" flag, 3 without, or the dimension word as the corrected check accepts it |
| OffBinary.BinaryBody | src/osgPlugins/off/off.cpp:901-1144 | keeps the descriptor, succeeds exactly with vertices and faces, reads only usable faces and a dimension from 1 to 4 |
| OffBinary.HeaderOf | src/osgPlugins/off/off.cpp:800-893 | there is no header exactly when every line is blank once cleaned |
| OffBinary.FirstContentIndex | src/osgPlugins/off/off.cpp:806-825 | the first line that is not blank once its comment is cut |
| OffBinary.BinaryRead | src/osgPlugins/off/off.cpp:741-1157 | `readOFF_binary` succeeds only with a header and a good stream, and then with vertices and faces; every face read names read vertices |
| OffBinary.ReadBinaryVertex | src/osgPlugins/off/off.cpp:949-1072 | the vertex machine stores one float per component of the layout and reads exactly that many words |
| OffBinary.BinaryVertexStep | src/osgPlugins/off/off.cpp:955-1072 | one turn reads the next float and stores it where the layout says |
| OffBinary.ReadBinaryFace | src/osgPlugins/off/off.cpp:1097-1118 | one face record: its count, its indices; names of no vertex skipped; fewer than three left drops the face |
| OffBinary.ReadFaceRecord | src/osgPlugins/off/off.cpp:1097-1127 | a kept face is appended and the reader moves past the record |
| OffBinary.ReadKeptIndex | src/osgPlugins/off/off.cpp:1106-1111 | an index word is kept when it names a vertex and skipped otherwise |
| OffBinary.ReadHeaderLines | src/osgPlugins/off/off.cpp:800-825 | the header loop stops at the first non-blank line and reports the header it makes |
| OffBinary.ReadHeaderLine | src/osgPlugins/off/off.cpp:806-825 | one turn reads a line and, unless it is blank, takes it as the descriptor |
| OffBinary.ReadCounts | src/osgPlugins/off/off.cpp:925-929 | the vertex and face counts are the next two words stored into a `size_t`, and the edge count is read past |
| OffBinary.ParseBinaryDescription | src/osgPlugins/off/off.cpp:834-892 | the sequence of tests agrees with `ParseBinaryHeader` |
| OffBinaryWriter.AsciiChars | src/osgPlugins/off/off.cpp:1350-1365 | characters that fit a byte read back as written |
| OffBinaryWriter.SerializeAt | src/osgPlugins/off/off.cpp:152-159 | each value written takes four bytes, value i at bytes 4i to 4i+4 |
| OffBinaryWriter.WordOfWriteInt | src/osgPlugins/off/off.cpp:152-192 | the word read from `writeInt`'s bytes is the value truncated to 32 bits |
| OffBinaryWriter.SerializedWords | src/osgPlugins/off/off.cpp:1369-1435 | the words after a prefix are the values written after it |
| OffBinaryWriter.BinaryHeaderBytes | src/osgPlugins/off/off.cpp:1350-1365 | the comment line then the descriptor line with the flags and "OFF BINARY" |
| OffBinaryWriter.PutWord | src/osgPlugins/off/off.cpp:152-159 | appends the four big-endian bytes of the value |
| OffBinaryWriter.PutFloat | src/osgPlugins/off/off.cpp:163-170 | appends the four big-endian bytes of the float's bits |
| OffBinaryWriter.PutFloats | src/osgPlugins/off/off.cpp:1383-1405 | a group of floats appends their words in order |
| OffBinaryWriter.PutVertex | src/osgPlugins/off/off.cpp:1381-1406 | appends the vertex's record: position, then normal, colour, texture coordinate as flagged |
| OffBinaryWriter.PutFace | src/osgPlugins/off/off.cpp:1413-1434 | appends the face's record: count, indices, then colour or colour-map index with face colours |
| OffBinaryWriter.PutVertices | src/osgPlugins/off/off.cpp:1379-1407 | the vertex loop appends every vertex record in order |
| OffBinaryWriter.PutFaces | src/osgPlugins/off/off.cpp:1411-1435 | the face loop appends every face record in order |
| OffBinaryWriter.HeaderLinesRead | src/osgPlugins/off/off.cpp:1350-1365 | the header lines are plain and the descriptor is the first non-blank one |
| OffBinaryWriter.WrittenPrefix | src/osgPlugins/off/off.cpp:1344-1365 | the written data starts with the two header lines |
| OffBinaryWriter.FacesReadBack | src/osgPlugins/off/off.cpp:1411-1435 | the written face records read back as the faces |
| OffBinaryWriter.VerticesReadBack | src/osgPlugins/off/off.cpp:1379-1407 | the written vertex records read back as the vertices |
| OffBinaryWriter.WordsReadBack | src/osgPlugins/off/off.cpp:1369-1435 | for a mesh without face colours whose vertices have w = 1 and exact floats, and whose faces carry only their indices, the written words read back as the mesh |
| OffBinaryWriter.BinaryRoundTrip | src/osgPlugins/off/off.cpp:1344-1438 | for a mesh without face colours whose vertices have w = 1 and exact floats, and whose faces carry only their indices: what `writeOFF_binary` writes, `readOFF_binary` accepts with the same vertices, faces and flags |
| OffBinaryWriter.WrittenRead | src/osgPlugins/off/off.cpp:1369-1438 | for the same meshes as `BinaryRoundTrip` (no face colours), the body after the header lines reads back as the mesh |
| OffBinaryWriter.ColouredFacesMisread | src/osgPlugins/off/off.cpp:1409-1434 | as written, two faces coloured by colour-map entry 1 are read back by the binary face reader (`off.cpp:1097-1123`) as one face: the colour word is taken for the next face's index count |
| OffBinaryWriter.CorrectedRoundTrip | src/osgPlugins/off/off.cpp:1344-1438 | with the face colours left out of the face records, what the writer writes the binary reader reads back as the mesh without its face colours, for face-coloured meshes too |
| Off.Model.constructor | src/osgPlugins/off/off.cpp:223-226 | a new model is in the state `init` leaves |
| Off.Model.Init | src/osgPlugins/off/off.cpp:237-245 | empty arrays and path, all flags false, dimension 3 |
| Off.Model.Merge | src/osgPlugins/off/off.cpp:1442-1451 | the index of the first equal stored vertex, else the vertex appended at the old size; stored vertices unchanged and never duplicated |
| Off.Model.ReadDescriptionLine | src/osgPlugins/off/off.cpp:333-392 | agrees with `OffScan.DescriptionStep` on the model's fields |
| Off.Model.ReadDimensionLine | src/osgPlugins/off/off.cpp:400-431 | agrees with `OffScan.NDimensionStep` |
| Off.Model.ReadCountsLine | src/osgPlugins/off/off.cpp:437-455 | agrees with `OffScan.CountsStep` |
| Off.Model.ReadVertexLine | src/osgPlugins/off/off.cpp:459-610 | agrees with `OffScan.VertexLineStep`, appending to the vertex array |
| Off.Model.ReadFaceLine | src/osgPlugins/off/off.cpp:620-702 | agrees with `OffScan.FaceLineStep`, appending to the face array |
| Off.Model.AddVertexLine | src/osgPlugins/off/off.cpp:468-608 | with vertices still announced, agrees with `OffScan.VertexLineStep`: one vertex appended, the faces next after the last |
| Off.Model.AddFaceLine | src/osgPlugins/off/off.cpp:630-700 | with faces announced and vertices read, agrees with `OffScan.FaceLineStep`: at most one face appended, the end after the last |
| Off.Model.ReadTextLine | src/osgPlugins/off/off.cpp:328-707 | agrees with `OffScan.LineStep` |
| Off.Model.ReadOff | src/osgPlugins/off/off.cpp:249-733 | the model ends as the line machine over the lines `readline` returned; accepted only with vertices and faces, all faces usable; on a text file the lines are the file's lines |
| Off.Model.ReadOffBinary | src/osgPlugins/off/off.cpp:741-1157 | the model ends as `BinaryRead` describes; on a file that starts with plain header lines they are what it reads |
| Off.Model.ReadBinaryHeader | src/osgPlugins/off/off.cpp:800-893 | the header loop's verdict and the flags it sets |
| Off.Model.ReadBinaryBody | src/osgPlugins/off/off.cpp:901-1144 | the body as `BinaryBody` describes it |
| Off.Model.ReadBinaryLists | src/osgPlugins/off/off.cpp:925-1128 | the counts, then the vertex list and the face list as `BinaryLists` describes them |
| Off.Model.ReadBinaryVertices | src/osgPlugins/off/off.cpp:938-1078 | appends the vertices `BinaryVertices` describes |
| Off.Model.ReadBinaryFaces | src/osgPlugins/off/off.cpp:1088-1128 | appends the faces `BinaryFaces` describes |
| Off.Model.ReadVertexAndFaceLists | src/osgPlugins/off/off.cpp:938-1128 | nothing without vertices; otherwise the vertex list, then the face list only when faces are announced |
| Off.Model.WriteOff | src/osgPlugins/off/off.cpp:1259-1340 | refuses an empty model; otherwise the file of `WrittenLines` |
| Off.Model.WriteOffBinary | src/osgPlugins/off/off.cpp:1344-1438 | refuses an empty model; otherwise the header lines and the words of the mesh |
| Off.WriteHeader | src/osgPlugins/off/off.cpp:1269-1290 | the comment, the descriptor and the counts line |
| Off.WriteVertexLines | src/osgPlugins/off/off.cpp:1297-1313 | one written line per vertex, in order |
| Off.WriteFaceLines | src/osgPlugins/off/off.cpp:1318-1337 | one written line per face, in order |
| Off.VertexText | src/osgPlugins/off/off.cpp:1299-1312 | the vertex's values joined by single spaces |
| Off.FaceText | src/osgPlugins/off/off.cpp:1320-1336 | the face's words joined by single spaces |
| Off.ParseVertexLine | src/osgPlugins/off/off.cpp:468-602 | the vertex the layout makes of the line's number tokens, in order |
| Off.ParseFaceLine | src/osgPlugins/off/off.cpp:630-695 | the face and face-colour flag `FaceOf` gives for the line's number tokens |
| OffUtils.Resize | src/osgPlugins/off/Utils.cpp:37 | `resize`: truncated or padded to the new length, the kept entries unchanged |
| OffUtils.ScanLine | src/osgPlugins/off/Utils.cpp:26-35 | stops at the first CR or LF of the chunk or its end, and tells whether it stopped at an LF |
| OffUtils.SkipBreaks | src/osgPlugins/off/Utils.cpp:41-52 | skips the whole run of CR and LF that follows, noting whether it holds an LF |
| OffUtils.AppendToLine | src/osgPlugins/off/Utils.cpp:37-38 | the open line gains the piece; finished lines stay as they were |
| OffUtils.LineStep | src/osgPlugins/off/Utils.cpp:21-56 | one pass adds the text up to the next break to the open line and finishes it when the breaks after it hold an LF; the scan of the rest of the chunk from the old open line is the lines it finished followed by the scan from the new open line |
| OffUtils.ReadChunk | src/osgPlugins/off/Utils.cpp:21-56 | a whole chunk keeps the lines-read relation for the text read so far; the lines it finishes and the line it leaves open are exactly those of `ScanText` on the chunk from the open line |
| OffUtils.ReadBlock | src/osgPlugins/off/Utils.cpp:12-57 | one read of up to 256 characters, which leaves the stream good only when it filled the buffer; the lines it finishes are those of `ScanText` on the chunk |
| OffUtils.ReadLines | src/osgPlugins/off/Utils.cpp:6-60 | the lines are exactly `StreamLines` of the stream: each 256-character chunk scanned in turn, where an LF ends the open line, the breaks right after it end no other line, a lone CR is dropped and ends nothing, and the open line carries over to the next chunk and is dropped at the end; so no line holds a line break, the lines together are the text up to the last LF without its breaks, no LF means no line, and there is at most one line per LF |
| OffUtils.ScanUnbroken | src/osgPlugins/off/Utils.cpp:26-38 | text without line breaks goes into the open line as it is |
| OffUtils.ScanCarriageReturns | src/osgPlugins/off/Utils.cpp:41-55 | a run of CRs without an LF ends no line and leaves nothing |
| OffUtils.ScanNewlineRun | src/osgPlugins/off/Utils.cpp:41-55 | a run of breaks holding an LF ends exactly one line, the open one |
| OffUtils.LineScan | src/osgPlugins/off/Utils.cpp:21-56 | one pass of the line loop agrees with `ScanText`: the piece and the breaks after it finish the open line when they hold an LF, else extend it |
| OffUtils.NextSeparator | src/osgPlugins/off/Utils.cpp:68-75 | the first separator position from `uPos` on, or none |
| OffUtils.ExplodeString | src/osgPlugins/off/Utils.cpp:63-93 | appends the tokens of the text to `out`, leaving its entries as they are |
| OffUtils.ExplodedWords | src/osgPlugins/off/Utils.cpp:63-93 | the appended words are non-empty, separator-free, and together the text without separators |
| OffReader.EnterVertices | src/osgPlugins/off/ReaderWriterOFF.cpp:120-123 | the reserves throw for a negative count; otherwise the vertex state follows |
| OffReader.MagicStep | src/osgPlugins/off/ReaderWriterOFF.cpp:115-125 | "OFF" leads to the counts; a line `sscanf` reads as "OFF %d %d %d" with a non-zero result sets the counts it read and leads to the vertices; others change nothing |
| OffReader.EmptyMagicLine | src/osgPlugins/off/ReaderWriterOFF.cpp:118 | an empty line returns EOF, which is true, and leads to the vertices |
| OffReader.CountersStep | src/osgPlugins/off/ReaderWriterOFF.cpp:126-137 | comments and empty lines skipped; the values read are stored; only three of them lead on |
| OffReader.ScanVertex | src/osgPlugins/off/ReaderWriterOFF.cpp:141 | `sscanf` reads at most seven values |
| OffReader.VertexStep | src/osgPlugins/off/ReaderWriterOFF.cpp:138-160 | 3 values add a position, 6 a position and opaque colour, 7 a position and RGBA colour, others nothing; the polygons follow once the counts are reached |
| OffReader.KeptIndices | src/osgPlugins/off/ReaderWriterOFF.cpp:188-195 | the words read by `%d` in `[0, verticesCount)`, in order |
| OffReader.AllKept | src/osgPlugins/off/ReaderWriterOFF.cpp:188-195 | every index word is kept exactly when all read and lie in range |
| OffReader.AddPolygon | src/osgPlugins/off/ReaderWriterOFF.cpp:177-217 | at most one polygon appended, its indices naming vertices; it holds all k indices unless one was out of range, and has no colour with an out-of-range index or no colour words; the parser finishes when the polygon count reaches `facesCount` |
| OffReader.FaceStep | src/osgPlugins/off/ReaderWriterOFF.cpp:161-219 | a face line is looked at only with 1+k, 1+k+3 or 1+k+4 words; it adds a polygon unless an index failed to read while none was out of range; Finished once the face count is reached |
| OffReader.StepConsistent | src/osgPlugins/off/ReaderWriterOFF.cpp:111-221 | each line keeps the reader consistent: polygon indices name vertices, colours are none or one per vertex once the polygons are read |
| OffReader.ParseAllConsistent | src/osgPlugins/off/ReaderWriterOFF.cpp:111-221 | consistency holds after any lines |
| OffReader.ThrownStays | src/osgPlugins/off/ReaderWriterOFF.cpp:120-134 | once `reserve` has thrown, no later line changes the outcome |
| OffReader.ReadIndex | src/osgPlugins/off/ReaderWriterOFF.cpp:189-195 | an index word is kept when in range, else flagged out of range |
| OffReader.ReadIndices | src/osgPlugins/off/ReaderWriterOFF.cpp:188-195 | the words after the count that read as an index below `verticesCount` are kept in order; the flag is raised exactly when one reads as an index out of range |
| OffReader.FaceLine | src/osgPlugins/off/ReaderWriterOFF.cpp:161-219 | agrees with `FaceStep` |
| OffReader.ReadPolygon | src/osgPlugins/off/ReaderWriterOFF.cpp:177-217 | the index loop, the colour loop and the keep-or-discard agree with `AddPolygon` |
| OffReader.ReadChannels | src/osgPlugins/off/ReaderWriterOFF.cpp:198-200 | each colour word that reads sets its channel |
| OffReader.ParseLine | src/osgPlugins/off/ReaderWriterOFF.cpp:113-220 | the switch on the state agrees with `Step` |
| OffReader.ParseLines | src/osgPlugins/off/ReaderWriterOFF.cpp:111-221 | the loop over the lines agrees with `ParseAll` |
| OffReader.DrawArraysOf | src/osgPlugins/off/ReaderWriterOFF.cpp:246-266 | one primitive per polygon (where each starts: `DrawArraysAt`) |
| OffReader.DrawArraysAt | src/osgPlugins/off/ReaderWriterOFF.cpp:246-266 | polygon i starts at the number of indices before it and covers its own |
| OffReader.PolygonColors | src/osgPlugins/off/ReaderWriterOFF.cpp:255-258 | a polygon's vertex colours, its own colour once per vertex with face colours, or none |
| OffReader.FlatVertices | src/osgPlugins/off/ReaderWriterOFF.cpp:252-254 | as many vertices as the polygons have indices (which: `FlatVertexAt`) |
| OffReader.FlatColors | src/osgPlugins/off/ReaderWriterOFF.cpp:250-259 | one colour per index when there are vertex or face colours, none otherwise (which: `FlatColorAt`) |
| OffReader.AppendPolygon | src/osgPlugins/off/ReaderWriterOFF.cpp:252-259 | one polygon appends its vertices and colours |
| OffReader.FlattenPolygons | src/osgPlugins/off/ReaderWriterOFF.cpp:246-266 | the flattening loop builds the flat vertex and colour arrays and the primitives; the colour array is bound iff there are vertex or face colours |
| OffReader.FlatVertexAt | src/osgPlugins/off/ReaderWriterOFF.cpp:246-266 | vertex j of polygon i lands at the polygon's start plus j |
| OffReader.FlatColorAt | src/osgPlugins/off/ReaderWriterOFF.cpp:246-266 | its colour lands at the same place |
| OffReader.Interpret | src/osgPlugins/off/ReaderWriterOFF.cpp:223-266 | `Interprets`: a length error exactly when parsing threw, a reading error exactly when the reader did not finish, otherwise the polygons flattened (vertices and colours laid end to end, one primitive per polygon, every index within the shared arrays) |
| OffReader.ReadNode | src/osgPlugins/off/ReaderWriterOFF.cpp:83-266 | a stream that is not good is not handled; otherwise the result is `Interprets` of the lines `readLines` cuts from the stream, and the first primitive starts at 0 |
| OffWriterVisitor.ShownDim | src/osgPlugins/off/OFFWriterNodeVisitor.h:89 | the forced dimension unless it is the `(size_t)-1` sentinel |
| OffWriterVisitor.Displayed | src/osgPlugins/off/OFFWriterNodeVisitor.h:90-98 | x always; y, z, w copied when the shown dimension exceeds 1, 2, 3, else 0, 0, 1 |
| OffWriterVisitor.ValueVisitor.constructor | src/osgPlugins/off/OFFWriterNodeVisitor.h:62-72 | not a normal, origin 0, no forced dimension, current value (0,0,0,1) |
| OffWriterVisitor.ValueVisitor.SetIsNormal | src/osgPlugins/off/OFFWriterNodeVisitor.h:75-82 | the current setting changes nothing; a change moves the origin to the image of 0 or back to 0 |
| OffWriterVisitor.ValueVisitor.UnforceVecX | src/osgPlugins/off/OFFWriterNodeVisitor.h:84 | restores the sentinel |
| OffWriterVisitor.ValueVisitor.ForceVecX | src/osgPlugins/off/OFFWriterNodeVisitor.h:85 | sets the forced dimension |
| OffWriterVisitor.ValueVisitor.Display | src/osgPlugins/off/OFFWriterNodeVisitor.h:87-99 | the current value becomes `Displayed` of the shown dimension |
| OffWriterVisitor.ValueVisitor.ApplyVec2 | src/osgPlugins/off/OFFWriterNodeVisitor.h:104 | shown untransformed as a two-component value |
| OffWriterVisitor.ValueVisitor.ApplyVec3 | src/osgPlugins/off/OFFWriterNodeVisitor.h:108-114 | transformed when the matrix is not the identity, less the origin, then shown as three components |
| OffWriterVisitor.ValueVisitor.ApplyVec4 | src/osgPlugins/off/OFFWriterNodeVisitor.h:132 | shown untransformed as four components |
| OffWriterVisitor.Triangles | src/osgPlugins/off/OFFWriterNodeVisitor.cpp:105-111 | triangle k is vertices 3k, 3k+1, 3k+2 from `first`; n triangles |
| OffWriterVisitor.Strip | src/osgPlugins/off/OFFWriterNodeVisitor.cpp:114-125 | one triangle per step, n in all (their vertices: `StripAt`) |
| OffWriterVisitor.Quads | src/osgPlugins/off/OFFWriterNodeVisitor.cpp:127-136 | two triangles per quad, 2n in all (their vertices: `QuadsAt`) |
| OffWriterVisitor.QuadStrip | src/osgPlugins/off/OFFWriterNodeVisitor.cpp:138-147 | two triangles per step, 2n in all (their vertices: `QuadStripAt`) |
| OffWriterVisitor.Fan | src/osgPlugins/off/OFFWriterNodeVisitor.cpp:149-157 | one triangle per step, n in all (their vertices: `FanAt`) |
| OffWriterVisitor.Lines | src/osgPlugins/off/OFFWriterNodeVisitor.cpp:159-164 | line k joins vertices 2k and 2k+1 from `first`; n lines |
| OffWriterVisitor.LineStrip | src/osgPlugins/off/OFFWriterNodeVisitor.cpp:167-172 | one line per step, n in all (their vertices: `LineStripAt`) |
| OffWriterVisitor.Points | src/osgPlugins/off/OFFWriterNodeVisitor.cpp:185-190 | point k is vertex k from `first`; n points |
| OffWriterVisitor.ArrayFaces | src/osgPlugins/off/OFFWriterNodeVisitor.cpp:100-196 | per mode, the number of faces the loop bounds give; an unknown mode gives none |
| OffWriterVisitor.StripAt | src/osgPlugins/off/OFFWriterNodeVisitor.cpp:114-125 | triangle k covers vertices k, k+1, k+2 and is wound like the next across their shared edge |
| OffWriterVisitor.FanAt | src/osgPlugins/off/OFFWriterNodeVisitor.cpp:149-157 | every triangle shares the first vertex and is wound like the next |
| OffWriterVisitor.QuadsAt | src/osgPlugins/off/OFFWriterNodeVisitor.cpp:127-136 | the two triangles of a quad are wound alike across its diagonal |
| OffWriterVisitor.QuadStripAt | src/osgPlugins/off/OFFWriterNodeVisitor.cpp:138-147 | the two triangles of a step are wound alike across their shared edge |
| OffWriterVisitor.LineStripAt | src/osgPlugins/off/OFFWriterNodeVisitor.cpp:167-172 | consecutive lines share a vertex |
| OffWriterVisitor.ArrayFacesWithin | src/osgPlugins/off/OFFWriterNodeVisitor.cpp:100-196 | every mode names only vertices first..first+count-1 |
| OffWriterVisitor.ElementFaces | src/osgPlugins/off/OFFWriterNodeVisitor.cpp:200-308 | as many faces as `drawArrays` over the buffer's length, each of the same size and naming only indices of the buffer |
| OffWriterVisitor.ArrayLinesIgnoreFirst | src/osgPlugins/off/OFFWriterNodeVisitor.cpp:159-190 | lines and points as written are numbered from 0 and can leave the range drawn |
| OffWriterVisitor.ElementLineStripSkips | src/osgPlugins/off/OFFWriterNodeVisitor.cpp:277-295 | the strip as written over 7, 8, 9 draws only 7-8 |
| OffWriterVisitor.PrimitiveIndexWriter.constructor | src/osgPlugins/off/OFFWriterNodeVisitor.h:170-182 | no primitive yet, an empty index cache, the model and the vertex source given |
| OffWriterVisitor.PrimitiveIndexWriter.NotifyNextPrimitive | src/osgPlugins/off/OFFWriterNodeVisitor.h:184 | records the primitive index and changes nothing else |
| OffWriterVisitor.PrimitiveIndexWriter.MergeVertex | src/osgPlugins/off/OFFWriterNodeVisitor.cpp:360-409 | the geometry's vertex is merged into the model: stored vertices kept, none duplicated, its index returned |
| OffWriterVisitor.PrimitiveIndexWriter.WriteTriangle | src/osgPlugins/off/OFFWriterNodeVisitor.cpp:313-326 | appends exactly one face of three merged vertices |
| OffWriterVisitor.PrimitiveIndexWriter.WriteLine | src/osgPlugins/off/OFFWriterNodeVisitor.cpp:331-342 | appends exactly one face of two merged vertices |
| OffWriterVisitor.PrimitiveIndexWriter.WritePoint | src/osgPlugins/off/OFFWriterNodeVisitor.cpp:347-356 | appends exactly one face of one merged vertex |
| OffWriterVisitor.PrimitiveIndexWriter.DrawArrayTriangles | src/osgPlugins/off/OFFWriterNodeVisitor.cpp:105-111 | appends the faces of `Triangles` |
| OffWriterVisitor.PrimitiveIndexWriter.DrawArrayStrip | src/osgPlugins/off/OFFWriterNodeVisitor.cpp:114-125 | appends the faces of `Strip` |
| OffWriterVisitor.PrimitiveIndexWriter.DrawArrayQuads | src/osgPlugins/off/OFFWriterNodeVisitor.cpp:127-136 | appends the faces of `Quads` |
| OffWriterVisitor.PrimitiveIndexWriter.DrawArrayQuadStrip | src/osgPlugins/off/OFFWriterNodeVisitor.cpp:138-147 | appends the faces of `QuadStrip` |
| OffWriterVisitor.PrimitiveIndexWriter.DrawArrayFan | src/osgPlugins/off/OFFWriterNodeVisitor.cpp:149-157 | appends the faces of `Fan` |
| OffWriterVisitor.PrimitiveIndexWriter.DrawArrayLines | src/osgPlugins/off/OFFWriterNodeVisitor.cpp:159-164 | appends one line per complete pair from `first` |
| OffWriterVisitor.PrimitiveIndexWriter.DrawArrayLineStrip | src/osgPlugins/off/OFFWriterNodeVisitor.cpp:167-172 | appends the lines of `LineStrip` |
| OffWriterVisitor.PrimitiveIndexWriter.DrawArrayLineLoop | src/osgPlugins/off/OFFWriterNodeVisitor.cpp:174-182 | the strip, then the line from the last vertex back to the first |
| OffWriterVisitor.PrimitiveIndexWriter.DrawArrayPoints | src/osgPlugins/off/OFFWriterNodeVisitor.cpp:185-190 | appends the points of `Points` |
| OffWriterVisitor.PrimitiveIndexWriter.DrawArrays | src/osgPlugins/off/OFFWriterNodeVisitor.cpp:100-196 | appends exactly the faces of `ArrayFaces`, in order, keeping the model's other fields |
| OffWriterVisitor.PrimitiveIndexWriter.DrawElementTriangles | src/osgPlugins/off/OFFWriterNodeVisitor.cpp:209-215 | one triangle per complete triple of indices |
| OffWriterVisitor.PrimitiveIndexWriter.DrawElementStrip | src/osgPlugins/off/OFFWriterNodeVisitor.cpp:217-228 | the strip over the index buffer |
| OffWriterVisitor.PrimitiveIndexWriter.DrawElementQuads | src/osgPlugins/off/OFFWriterNodeVisitor.cpp:230-239 | the quads over the index buffer |
| OffWriterVisitor.PrimitiveIndexWriter.DrawElementQuadStrip | src/osgPlugins/off/OFFWriterNodeVisitor.cpp:242-251 | the quad strip over the index buffer |
| OffWriterVisitor.PrimitiveIndexWriter.DrawElementFan | src/osgPlugins/off/OFFWriterNodeVisitor.cpp:255-264 | every triangle starts at the first index |
| OffWriterVisitor.PrimitiveIndexWriter.DrawElementLines | src/osgPlugins/off/OFFWriterNodeVisitor.cpp:267-274 | one line per complete pair of indices |
| OffWriterVisitor.PrimitiveIndexWriter.DrawElementLineStrip | src/osgPlugins/off/OFFWriterNodeVisitor.cpp:277-284 | a line between every two consecutive indices |
| OffWriterVisitor.PrimitiveIndexWriter.DrawElementLineLoop | src/osgPlugins/off/OFFWriterNodeVisitor.cpp:287-295 | the strip, then the line from the last index back to the first |
| OffWriterVisitor.PrimitiveIndexWriter.DrawElementPoints | src/osgPlugins/off/OFFWriterNodeVisitor.cpp:298-304 | one point per index |
| OffWriterVisitor.PrimitiveIndexWriter.DrawElements | src/osgPlugins/off/OFFWriterNodeVisitor.cpp:200-308 | nothing without indices or with count 0; otherwise exactly the faces of `ElementFaces` over the first `count` indices |
| OffWriterVisitor.PrimitiveIndexWriter.Begin | src/osgPlugins/off/OFFWriterNodeVisitor.cpp:413-419 | records the mode and empties the cache |
| OffWriterVisitor.PrimitiveIndexWriter.Vertex | src/osgPlugins/off/OFFWriterNodeVisitor.cpp:421-424 | appends the index to the cache |
| OffWriterVisitor.PrimitiveIndexWriter.End | src/osgPlugins/off/OFFWriterNodeVisitor.cpp:428-432 | nothing for an empty cache; otherwise the faces of `ElementFaces` over the cache with the cached mode |

## Left out

- Streams, files and `options` are not modelled as objects. A stream is the sequence of
  its bytes or characters with a position. `fileSize` is the data's length.
- Numeric text conversion and float bits are the functions of `Conv`. These cover
  `isNumber`, `parseFloat`, `parseInt`, `parseUnsignedInt` (`src/osgPlugins/off/off.cpp:91-133`),
  `sscanf("%f")` and the bits `writeFloat` stores. The round trips assume that the values
  written print and read back exactly. Floats are exact reals.
- `toUpperCase` and `toString` in `off.cpp` are not used by the core and are left out.
- The host byte order is little-endian. A big-endian host is not modelled.
- Scene-graph construction is left out. This means the `Group`/`Geode`/`Geometry`
  objects, the `Tessellator` and `TriStripVisitor` after the flattening in
  `ReaderWriterOFF.cpp`, and the traversal in `OFFWriterNodeVisitor::writeOFF`, `apply`,
  `traverse` and `processGeometry`.
- `mergeVertex` reads attribute arrays of several element types and applies the world
  matrix. Both are given as the function `vertexAt`.
- `ValueVisitor` takes the matrix as a transform function and an identity flag.
- The `Vec2b`/`Vec2s`/`Vec3b`/`Vec3s`/`Vec4b`/`Vec4s` overloads behave like the
  `Vec2`/`Vec3`/`Vec4` ones after conversion and are not modelled separately.
- `drawElements` takes a buffer of `nat` indices, whatever its element type (`GLubyte`,
  `GLushort`, `GLuint`).
- The elzma codec, `formatBytes` and the `clock()` timing of `CompressorLZMA.cpp` are
  left out. The codec is a pair of function parameters.
- Logging (`OSG_NOTICE`, `OSG_WARN`) is left out.
- OffWriterVisitor.ElementFaces: GL_TRIANGLES, GL_QUADS and GL_LINES in
  `drawElementsImplementation` read past the last index when it leaves an incomplete
  group. The model draws complete groups only.
- OffWriterVisitor.ElementFaces: GL_LINE_LOOP reads `indices[count]`, one past the
  buffer, to close the loop. The model closes from the last index.
- OffWriterVisitor.ElementFaces: the LINE_STRIP and LINE_LOOP loops step by 2. The
  model draws every segment (see Findings).
- OffWriterVisitor.PrimitiveIndexWriter.DrawElements: requires `count` to be at most
  the buffer's length. The source reads whatever memory follows the buffer.
- OffWriterVisitor.PrimitiveIndexWriter.End: requires fewer than 2^31 cached indices,
  because the count is passed as a `GLsizei`.
- CompressIndices.UnpackInds: requires a well-formed stream. On other input the source
  reads past the end of the buffer.
- CompressIndices.PackInds: requires a length that is a multiple of 3, and all indices
  are below 2^31. `pack_inds` compares indices as unsigned while the other two functions
  compare them as `int`.
- OffText.ReadFace: `mFaceArray.erase(mFaceArray.end())` (`off.cpp:664`, `off.cpp:1116`)
  is undefined behaviour. The model drops the face just pushed, which is what it is
  meant to do.
- OffText.NumbersFilterAsWritten: the filter loop as written runs past the end when it
  erases the last token. The model stops there. The reader uses `NumbersOnly`.
- LzmaStream.Unframed: `decompress` does not check that the stream holds four length
  bytes or the payload. The model returns None in those cases.
- LzmaStream.FrameRoundTrip: requires a payload shorter than 4 GiB, because the length
  is stored as an `unsigned int`.
- HulkOptions.ParseOptions: `atoi` of a value outside the `int` range is undefined
  behaviour in C. The model wraps it to 32 bits, and the stored `unsigned int` mode is
  its residue modulo 2^32.
- OffBinaryWriter.BinaryRoundTrip: holds only for meshes without face colours. The binary
  reader never reads face colours (see Findings). It also needs vertices with w = 1 and
  floats that survive their bits, because the file carries neither w nor anything but
  the float bits.
- OffBinaryWriter.WordsReadBack: holds only for meshes without face colours, with the
  same vertex conditions as `BinaryRoundTrip`.
- OffBinaryWriter.WrittenRead: holds only for meshes without face colours, with the same
  vertex conditions as `BinaryRoundTrip`.
- OffScan.TextRoundTrip: holds only for vertices with w = 1, since the text carries no w,
  and for written colour channels of at most 1, since the reader rescales channels above
  1 as 0-255 values. A colour channel above 1 does not read back as written.
- OffWriterVisitor.ArrayFaces, OffWriterVisitor.PrimitiveIndexWriter.DrawArrays and the
  `DrawArray*` methods take `first` as a `nat`. In the source it is a `GLint`. A negative
  `first` and the wrap-around of the unsigned vertex positions it then gives are not
  modelled.
- `osgDB::split` and `istream >> std::string` both become `Tokens`, splitting at the
  characters given.
- `isACommentOrEmptyLine` is the predicate `OffUtils.IsCommentOrEmptyLine`. Its
  definition is the whole property, so it has no row.

## Findings

| source | as written | input that shows it | evidently intended | confidence | as-written member | corrected member |
|---|---|---|---|---|---|---|
| src/osgPlugins/off/off.cpp:907-914 | `nbDim + 1 > 4` is computed in `size_t`, so the word -1 (nbDim = 2^64-1) with the "4" flag wraps to 0 and passes | a "4nOFF BINARY" file whose dimension word is 0xFFFFFFFF | refuse any dimension that with the fourth component exceeds 4 | not executed | OffBinary.NDimAsWrittenOverflows | OffBinary.NDimChecksAgree |
| src/osgPlugins/off/off.cpp:472-474 | `i = sl.erase(i)` already moves to the next token, and the loop's `++i` then skips it unchecked | the tokens `x y 1` keep `y` | keep only the tokens that are numbers | not executed | OffText.NumbersFilterAsWrittenKeepsWord | OffText.NumbersOnlyAll |
| src/osgPlugins/off/OFFWriterNodeVisitor.cpp:159-190 | GL_LINES, GL_LINE_STRIP, GL_LINE_LOOP and GL_POINTS number vertices from 0, ignoring `first`; GL_LINES pairs an odd last vertex with the one after the range | `drawArrays(GL_LINES, 4, 2)` writes line 0-1 | number from `first`, complete pairs only | not executed | OffWriterVisitor.ArrayLinesIgnoreFirst | OffWriterVisitor.ArrayFacesWithin |
| src/osgPlugins/off/OFFWriterNodeVisitor.cpp:277-295 | the LINE_STRIP and LINE_LOOP loops over the index buffer step by 2 and draw every other segment | indices 7, 8, 9 as GL_LINE_STRIP give only 7-8 | a line between every two consecutive indices | not executed | OffWriterVisitor.ElementLineStripSkips | OffWriterVisitor.PrimitiveIndexWriter.DrawElementLineStrip |
| src/osgPlugins/off/off.cpp:1421-1434 | `writeOFF_binary` writes each face's colour (four floats or a colour-map index) after its indices, and `readOFF_binary` (`off.cpp:1097-1123`) reads none, so it takes the colour for the next face's index count | two faces over vertices 0, 1, 2, each coloured by colour-map entry 1: the second face is lost | the binary writer writes the face records its reader reads, without face colours | not executed | OffBinaryWriter.ColouredFacesMisread | OffBinaryWriter.CorrectedRoundTrip |
