# Serialisers and packet stream of cpp-iocplib, verified

Every packet of this repository goes through FlatBuffers and is sent over a socket with a length in
front. The model covers the bytes: the FlexBuffers and FlatBuffers builders, accessors and verifiers,
the UTF-8 conversions and the JSON escaper, the length-prefixed packet stream, the client's send queue
and the loops that read the stream again.

`dafny verify dfyconfig.toml` checks the project.

## How it is built

Objects whose methods update fields are classes (`Builder`, `FlatBufferBuilder`, `VectorDownward`, both
`Verifier`s, `PacketReceiver`, `ClientSocket`, `ClientSession`), loops are loops, accessors are functions on
bytes. Bytes are integers below 256, scalars are little-endian, and bit operations are written as
arithmetic; the lemmas `WidthMask`, `PackedTypeBits`, `PaddingMask`, `RoundUpMask` and `BitForms` relate the
two on machine words.

* **FlexBuffers.** `FlexFormat` holds the reader. `FlexTree` says when a reference reads as a tree and shows
  that it reads as at most one, so reading is decoding. A builder keeps, for each value on its stack, the
  tree it means (`FlexValue`, `FlexBuilder`). `FlexSerialize` drives the builder over any tree and gets the
  tree back; maps come back in key order, a typed vector of strings as one of keys (their C strings), and
  an empty typed vector has lost its element type. `FlexMap` is the lookup by binary search, `FlexVerifier`
  the verifier, `FlexCost` what verifying costs, `FlexLimits` what it refuses.
* **FlatBuffers.** While building, a position is its distance from the buffer's end: `back` lists the bytes
  from the end, so growing the buffer appends to it and leaves alone what was laid out. The finished buffer is
  `Reversed(back)`, in which the accessors of `FlatFormat` read forward. A builder maps each distance at which
  it built something to what that is (a string, a vector of scalars, a vector of offsets, or a table with its
  fields); `Sound` in `FlatState` is what every operation keeps. `FlatVerifier` takes any schema of tables of
  scalars, strings, sub-tables, unions, and vectors of scalars, strings or tables, and `FlatWellFormed` says exactly
  what of any bytes it accepts; `ClientMessages` is the repository's own schema, and `PacketCheck` what the server
  accepts of it. A table conforms to a schema (`FlatAccepts`) if its fields hold what the schema
  says; how many tables are visited and how deep they nest is counted as the verifier counts, and decides
  (`FlatLimits`). `FlatScript` has sequences of calls, which `FlatRun` carries out in two builders that share
  differently: what they make reads alike (`FlatSharing`), in the same order where it is sorted (`FlatOrder`), and
  verifies alike (`FlatVerdict`). The byte sequences are those of a `VectorDownward`, which `MemoryRuns` carries
  through whole runs of what the builder does to them.
* **Text.** `Utf8` is stated against the grammar in section 4 of RFC 3629, `Escape` against the strings of
  section 7 of RFC 8259.
* **Stream.** `Packets` has the frames, the stream read as packets, and `PacketReceiver` (lib/iocplib/packet.h,
  whose text is not UTF-8, so the table cites the lines that use it); `SendQueue` the send
  queue as a state machine over its critical sections, which the methods of `ClientSocket` carry out, for
  every interleaving of the threads and everything the socket may do; `Sessions` the loops of both sessions
  over what they receive, and `Exchange` the server's loop over packets of the repository's schema.

## What is false of the code

* `ClientSession::OnReceivePacket` hands its receiver the start of the piece again for what remains after a
  packet. `SecondPacketLost`: of two different packets in one piece, both accepted, the session does not handle
  the two; if they are of one length it handles the first twice and the second never. `TwoConnects` runs this
  with two requests that the library's own builder made and its own verifier accepts, and that are of one length
  unless a number is the default. `SessionCorrect` says,
  for any check of the packets, when a piece is handled as the stream has it: exactly if, as long as packets
  are accepted, the bytes taken again are those that follow.
* `ClientSocket::OnSocketRead` hands over the whole piece in every round. `ReadLoopEnds` says exactly when its
  loop ends (`TwoPacketsLoop`: never on two whole packets), `ClientCorrect` exactly when it also handles the
  piece as the stream has it.
* With natural UTF-8 output `EscapeString` writes control characters as they are (`ControlIsNotJson`).
  `EscapeString` says exactly when its text is a string of RFC 8259.
* The comment on `IntToStringHex` promises a text of `xdigits` digits; `TooLargeForDigits` is a number whose text
  is longer, and `HexRoundTrip` gives the length of every text.
* A FlexBuffers typed vector of strings reads back as keys. `TypedStringsKept`: each is read from the bytes as
  the string given exactly if that has no zero byte; `TypedStringCut` is one that does not survive.
* A FlexBuffers map need not give back what it was built of: `OneKeyTwice` builds one of two values under one
  key, and looking that key up does not give both. `EveryEntryFound`: every entry's value is found under its key
  exactly if entries with equal keys have equal values. `EndMap` remembers that there were equal keys.
* The FlexBuffers verifier does not check that a key ends: `VerifyKey` looks for a byte that is not zero, instead
  of one that is. `EndlessKeyVerifies` is a buffer that verifies and whose root is a key without an end.
  `KeyCheckTellsNothing`: the check accepts every position of a buffer, and there is a key at one exactly if a
  zero byte follows.
* `KeyCompareWithValue` compares string keys by `strcmp`, which stops at a zero byte, although they are sorted as
  whole strings: `ZeroByteKeyFound` finds a table by a key it does not have. `LookupFinds` says what every lookup
  finds, and `LookupAgreesExactly` that lookups find exactly the keys there are if and only if every key, cut at
  its first zero byte, is one of them; `LookupFindsKey` is the case of keys without zero bytes.

## Model

| member | source | states |
|---|---|---|
| FlexFormat.WidthUIsLeast | examples/flatbuffers/flexbuffers.h:187-197 | `WidthU` chooses the smallest of the four widths that holds the value: it is at most b exactly if the value is below the capacity of b |
| FlexFormat.WidthIIsLeast | examples/flatbuffers/flexbuffers.h:199-202 | `WidthI` chooses the smallest width whose two's complement range holds the value |
| FlexFormat.WidthMask | examples/flatbuffers/flexbuffers.h:187-197 | the mask test of the original on 64-bit words is the comparison used in the model |
| FlexFormat.PackedTypeBits | examples/flatbuffers/flexbuffers.h:821-823 | packing a width and a type into a byte, and taking them apart again, by bits is the arithmetic of the model |
| FlexExamples.PackedTypes | examples/flatbuffers/flexbuffers.h:821-823 | the type is in the upper six bits of its byte and the width in the lower two, both ways |
| FlexExamples.MapBytes | examples/flatbuffers/flexbuffers.h:1128-1180 | 23 bytes, laid out as the builder does, whose root is a map of two keys, with values of two bytes |
| FlexExamples.VectorBytes | examples/flatbuffers/flexbuffers.h:1551-1607 | nineteen bytes whose root is a vector of a string, a number, a bool, null and a blob |
| FlexExamples.VectorTypes | examples/flatbuffers/flexbuffers.h:103-112 | the numbers of the types of typed vectors, of any length and of two to four elements |
| FlexExamples.TypedBytes | examples/flatbuffers/flexbuffers.h:103-112 | a typed vector, one of fixed length, and a number stored indirectly, byte by byte |
| FlexTree.ReadsUnique | examples/flatbuffers/flexbuffers.h:834-853 | a reference reads as at most one tree, whatever the bytes: what the accessors give determines the value |
| FlexTree.RootReadsAs | examples/flatbuffers/flexbuffers.h:884-892 | the trees that the root of a finished buffer reads as are exactly the one it was built for |
| FlexTree.RefReadsGrows | examples/flatbuffers/flexbuffers.h:372-776 | appending to the buffer changes nothing that any reference reads |
| FlexValue.ElemWidth | examples/flatbuffers/flexbuffers.h:1470-1497 | an inline value keeps its own width; for an offset the width is the least at which it can be stored where a vector of that width would put it; the loop always finds one, so the assertion after it is unreachable |
| FlexValue.MaximumIsLeast | examples/flatbuffers/flexbuffers.h:1551-1583 | the largest of the widths asked for is the least one, not below the forced one, that holds the length, the key offset and every element |
| FlexValue.LeastWidthHolds | examples/flatbuffers/flexbuffers.h:1470-1497 | the width of a value is at most b exactly if b holds the value |
| FlexValue.OffsetFitsFinalWidth | examples/flatbuffers/flexbuffers.h:1551-1594 | an offset measured at one width and one place still fits at any larger width and any earlier place: the stride-2 estimate of map vectors is safe |
| FlexValue.ElementReadsBack | examples/flatbuffers/flexbuffers.h:1509-1518 | an element written at a width that holds it reads back, through the element reference, as what its value means |
| FlexValue.TypedElementReadsBack | examples/flatbuffers/flexbuffers.h:1551-1607 | the same for an element of a typed vector, which has no width of its own and reads strings as keys |
| FlexValue.CandidatesHold | examples/flatbuffers/flexbuffers.h:1551-1583 | the largest of the candidate widths holds the length, the key offset and every element where it will be written, so the assertion of `WriteOffset` never fires |
| FlexSort.SortKeys | examples/flatbuffers/flexbuffers.h:1128-1166 | the order found is an arrangement of the keys in which none comes after a larger one, and duplicates are reported exactly if two keys are equal |
| FlexBuilder.VectorBitWidth | examples/flatbuffers/flexbuffers.h:1551-1580 | the loop over the elements gives the largest of all widths asked for, forced minimum included |
| FlexBuilder.KeyLessIsLess | examples/flatbuffers/flexbuffers.h:1623-1632 | the comparator of the key pool is the strict order of the C strings: equivalent positions hold equal keys |
| FlexBuilder.StringLessIsLess | examples/flatbuffers/flexbuffers.h:1634-1644 | the comparator of the string pool, which compares one byte more, is the strict order of the contents |
| FlexBuilder.Builder.Int | examples/flatbuffers/flexbuffers.h:967-967 | a number with sign is pushed, in the least width for it |
| FlexBuilder.Builder.UInt | examples/flatbuffers/flexbuffers.h:973-973 | a number without sign is pushed, in the least width for it |
| FlexBuilder.Builder.IndirectInt | examples/flatbuffers/flexbuffers.h:997-997 | a number is written, in the least width for it and aligned to that, and its place is pushed |
| FlexBuilder.Builder.Blob | examples/flatbuffers/flexbuffers.h:1087-1091 | padding, the length in the least width for it, and the bytes are written, and the place of the bytes is pushed |
| FlexBuilder.Builder.Key | examples/flatbuffers/flexbuffers.h:1027-1043 | the key pushed reads as the C string given; with sharing on, equal keys get equal positions and different ones different, and a hit restores the buffer; otherwise the bytes and a terminator are appended |
| FlexBuilder.Builder.String | examples/flatbuffers/flexbuffers.h:1048-1065 | the string pushed reads as the bytes given; with sharing on, equal contents get equal positions, and a hit restores the buffer, padding included; otherwise padding, length, bytes and terminator are appended |
| FlexBuilder.Builder.CreateVector | examples/flatbuffers/flexbuffers.h:1551-1607 | the value returned means the vector of every step-th value, of the kind asked for; its width is the least that holds everything in it; and what is written is exactly padding, prefix, elements and types |
| FlexBuilder.Builder.EndVector | examples/flatbuffers/flexbuffers.h:1120-1126 | the values from start on are replaced by one that means their vector, laid out in the least width that holds it |
| FlexBuilder.Builder.EndMap | examples/flatbuffers/flexbuffers.h:1128-1180 | the pairs from start on become one map of exactly these pairs, in key order, its two vectors each in the least width for it; duplicates are remembered exactly if there are some |
| FlexBuilder.Builder.ReuseValue | examples/flatbuffers/flexbuffers.h:1303-1303 | a value meaning a tree can be pushed again and means it still |
| FlexBuilder.Builder.Finish | examples/flatbuffers/flexbuffers.h:1346-1362 | the finished bytes read from their root as the one tree on the stack; the root is stored in the least width that holds it, which the last byte gives, and the byte before that its type |
| FlexMap.LookupReads | examples/flatbuffers/flexbuffers.h:855-878 | on keys in order, looking up a key gives a value paired with it, and null exactly if there is none |
| FlexMap.BuiltMapFinds | examples/flatbuffers/flexbuffers.h:862-878 | building a map of entries with different keys and looking up any key in the bytes gives the value of the entry with that key, and null if there is none |
| FlexMap.EveryEntryFound | examples/flatbuffers/flexbuffers.h:862-878 | a map gives back the value of every entry it was built of exactly if entries with equal keys have equal values |
| FlexSerialize.Build | examples/flatbuffers/flexbuffers.h:956-1303 | any tree can be built on top of the stack: what is pushed is the tree with its maps in order, in a number of bytes bounded by the tree |
| FlexSerialize.Serialize | examples/flatbuffers/flexbuffers.h:1346-1362 | round trip for every tree, whatever is pooled and whatever width is forced: the bytes read back as the tree, the verifier accepts them exactly if they nest within its limit, and building succeeds whenever the bytes can fit |
| FlexSerialize.SameDepth | examples/flatbuffers/flexbuffers.h:1735-1740 | putting maps in order changes no depth, so the limit is one on the tree that was given |
| FlexSerialize.TypedStringsKept | examples/flatbuffers/flexbuffers.h:1120-1126 | the strings of a typed vector are read from its finished bytes as keys, each equal to the string given exactly if that has no zero byte |
| FlexSerialize.TypedStringCut | examples/flatbuffers/flexbuffers.h:1120-1126 | a string with a zero byte in a typed vector is read from the finished bytes without what follows it |
| FlexSerialize.OneKeyTwice | examples/flatbuffers/flexbuffers.h:1128-1180 | a map of two values under one key, built and finished: the duplicate is remembered, and looking the key up does not give both values |
| FlexVerifier.AcceptsEncoded | examples/flatbuffers/flexbuffers.h:1801-1861 | every finished buffer that is nested within the limit and refers to nothing twice is accepted, the budget of one vector per byte included, with or without alignment checking |
| FlexLimits.VerifiedExactly | examples/flatbuffers/flexbuffers.h:1735-1861 | a finished buffer, values referred to twice included, is accepted exactly if it is nested within the limit and its vectors, counted as often as they are referred to, are no more than its bytes |
| FlexVerifier.VerifyRef | examples/flatbuffers/flexbuffers.h:1801-1851 | on any bytes, cyclic or not, verification ends after at most size + 1 vectors, never deeper than one beyond the limit, and a success leaves the depth as it was |
| FlexVerifier.VerifyVector | examples/flatbuffers/flexbuffers.h:1735-1771 | the same for entering a vector, the place where nesting and number are limited |
| FlexVerifier.Verifier.CheckVector | examples/flatbuffers/flexbuffers.h:1735-1771 | the method that updates the two counters decides and counts as the function does |
| FlexVerifier.Verifier.CheckBuffer | examples/flatbuffers/flexbuffers.h:1854-1861 | the same for a whole buffer |
| FlexWellFormed.VerifiesExactly | examples/flatbuffers/flexbuffers.h:1692-1861 | for any bytes: they verify exactly if they are well formed (a definition without counters, order or early ends, alignment as a remainder), nested within the limit, and with no more vectors than bytes |
| FlexWellFormed.MisalignedRefused | examples/flatbuffers/flexbuffers.h:1719-1723 | six bytes that are refused exactly if alignment is checked |
| FlexVerifier.VerifiedBufferIsSafe | examples/flatbuffers/flexbuffers.h:1692-1861 | in a verified buffer, whoever made it, every accessor along every path from the root reads inside the buffer, but for the characters of a key, of which only the first is known to be inside |
| FlexVerifier.KeyCheckTellsNothing | examples/flatbuffers/flexbuffers.h:1787-1792 | in a buffer that ends with its root's width the check of a key accepts every position; there is a key at one exactly if a zero byte follows |
| FlexVerifier.EndlessKeyVerifies | examples/flatbuffers/flexbuffers.h:1787-1792 | a buffer that verifies, whose root is a key without an end |
| Order.StrcmpOrders | examples/flatbuffers/flexbuffers.h:1627-1632 | the sign of `strcmp` is the order of the C strings |
| Order.LessMeans | examples/flatbuffers/flexbuffers.h:1627-1632 | the order of the keys: a proper prefix comes first, otherwise the first byte that differs decides, without sign |
| Order.StringLessThanIsLess | examples/flatbuffers/buffer.h:58-62 | comparing the common length and then the lengths is the byte order of whole strings |
| Order.PooledStringLessThanIsLess | examples/flatbuffers/flexbuffers.h:1637-1642 | comparing one byte more, terminator included, is the same order |
| Search.BinarySearchStops | examples/flatbuffers/vector.h:261-272 | on ordered elements the search stops at one equal to the key, or between its neighbours |
| Bytes.PaddingUnique | examples/flatbuffers/base.h:448-450 | the padding is the only number below the alignment that completes it |
| Bytes.PaddingMask | examples/flatbuffers/base.h:448-450 | the bit form of the original, on 64-bit words, meets that specification |
| Widths.PaddingIsPaddingBytes | examples/flatbuffers/base.h:448-450 | the padding of the model, one linear case for each width, is the padding for that width |
| Widths.TimesIsProduct | examples/flatbuffers/flatbuffer_builder.h:592-597 | the size of a body in the model, one linear case for each width, is the number of elements times their width |
| FlatState.PaddingToIsPaddingBytes | examples/flatbuffers/base.h:448-450 | the same for every alignment up to 32 |
| VectorDownward.VectorDownward.NewReserved | examples/flatbuffers/vector_downward.h:251-258 | the memory grows by what is asked for or by half, the first time by the initial size, whichever is more, and no further than the next multiple of the alignment |
| VectorDownward.RoundUpMask | examples/flatbuffers/vector_downward.h:257-257 | the bit form of rounding up, on 64-bit words, gives the next multiple of the alignment |
| VectorDownward.VectorDownward.Reallocate | examples/flatbuffers/vector_downward.h:251-266 | both sequences survive growth: the byte at each distance from its end is the same, and the room asked for is there |
| VectorDownward.VectorDownward.MemcpyDownward | examples/flatbuffers/allocator.h:56-62 | copies what is in use at each end to the same distance from that end, and nothing else |
| VectorDownward.VectorDownward.Push | examples/flatbuffers/vector_downward.h:181-184 | the data grows by these bytes, first byte on top, and the scratch space is unchanged |
| VectorDownward.VectorDownward.Fill | examples/flatbuffers/vector_downward.h:199-203 | the data grows by zeros, and the scratch space is unchanged |
| VectorDownward.VectorDownward.Pop | examples/flatbuffers/vector_downward.h:210-213 | the data loses its last bytes, and the scratch space is unchanged |
| VectorDownward.VectorDownward.ScratchPush | examples/flatbuffers/vector_downward.h:191-195 | the scratch space grows at its end, and the data is unchanged |
| VectorDownward.VectorDownward.ScratchPop | examples/flatbuffers/vector_downward.h:215-215 | the scratch space loses its last bytes, and the data is unchanged |
| VectorDownward.VectorDownward.ReadScratch | examples/flatbuffers/vector_downward.h:167-175 | what is read of the scratch space is what was pushed there |
| VectorDownward.VectorDownward.ReadAt | examples/flatbuffers/vector_downward.h:177-177 | what is read at a distance from the end is the data at that distance, however often the buffer has grown |
| VectorDownward.VectorDownward.WriteAt | examples/flatbuffers/vector_downward.h:176-178 | data overwritten in place: these bytes change and no others |
| MemoryRuns.Carry | examples/flatbuffers/vector_downward.h:135-266 | over every run of pushes, fills, pops and overwrites, at either end, from any initial size, the memory holds the two sequences that the run makes, however often it is reallocated |
| Backward.ReadForward | examples/flatbuffers/vector_downward.h:164-178 | a scalar at a distance from the end is the scalar at that position of the finished buffer |
| FlatObjects.ObjGrows | examples/flatbuffers/vector_downward.h:135-151 | whatever is built later, what was laid out at a distance from the end stays laid out there |
| FlatObjects.FieldReads | examples/flatbuffers/table.h:29-48 | a scalar field of a laid out table reads as the value stored, or as its default if it is not stored |
| FlatObjects.PointerReads | examples/flatbuffers/table.h:50-58 | an offset field leads to the object stored, or is null |
| FlatObjects.TableSizeReads | examples/flatbuffers/flatbuffer_builder.h:372-376 | in the finished buffer the second word of a table's vtable, its own or a shared one, is the number of bytes of the table |
| FlatObjects.StringReads | examples/flatbuffers/flatbuffer_builder.h:460-467 | the length and the bytes are adjacent: the string reads as its bytes, and its terminator is inside |
| FlatObjects.ScalarsRead | examples/flatbuffers/vector.h:173-175 | `Get(i)` of a vector of scalars is element i, for every i |
| FlatObjects.OffsetsRead | examples/flatbuffers/vector.h:173-175 | `Get(i)` of a vector of offsets leads to object i, for every i |
| FlatVTable.TableBuilt | examples/flatbuffers/flatbuffer_builder.h:357-419 | a first word that leads to any vtable with the right entries, its own or a shared one, makes the table of these fields |
| FlatVTable.SameVTableHolds | examples/flatbuffers/flatbuffer_builder.h:396-411 | vtables with the same bytes serve the same tables |
| FlatState.FieldRecorded | examples/flatbuffers/flatbuffer_builder.h:286-307 | adding a field keeps the builder sound: each field once, stored where its location in the scratch space says |
| FlatState.TableClosed | examples/flatbuffers/flatbuffer_builder.h:357-419 | finishing a table keeps the builder sound: all that was built stays, the table is among it, new, with its vtable the last of the data, and with sharing on throughout the remembered vtables stay pairwise different |
| FlatBuilder.FlatBufferBuilder.PreAlign | examples/flatbuffers/flatbuffer_builder.h:445-449 | zeros are added so that after len more bytes the buffer is aligned |
| FlatBuilder.FlatBufferBuilder.ReferTo | examples/flatbuffers/flatbuffer_builder.h:323-330 | the value stored next leads from where it lands to the offset given |
| FlatBuilder.FlatBufferBuilder.AddElement | examples/flatbuffers/flatbuffer_builder.h:294-298 | the open table gains the field, unless the value is its default and defaults are not forced |
| FlatBuilder.FlatBufferBuilder.AddOffset | examples/flatbuffers/flatbuffer_builder.h:304-307 | the open table gains the offset, unless it is null |
| FlatBuilder.FlatBufferBuilder.FindVTable | examples/flatbuffers/flatbuffer_builder.h:396-408 | the loop finds a remembered vtable with the same bytes exactly if there is one |
| FlatBuilder.FlatBufferBuilder.EndTable | examples/flatbuffers/flatbuffer_builder.h:357-419 | the table has exactly the fields added, all that was built before stays, no vtable in use is popped, and the table and its vtable are the last of the data; its vtable, new or shared, says how many bytes the table takes and where each field is; where the table starts and how many bytes a new vtable takes is stated exactly; without sharing a new one is always remembered |
| FlatBuilder.FlatBufferBuilder.CreateString | examples/flatbuffers/flatbuffer_builder.h:460-467 | the string is built at the offset returned, the pre-alignment leaving no padding between length and bytes |
| FlatBuilder.FlatBufferBuilder.CreateSharedString | examples/flatbuffers/flatbuffer_builder.h:523-541 | the offset returned holds the bytes given; equal contents get equal offsets and different ones different, and a hit restores the buffer |
| FlatBuilder.FlatBufferBuilder.CreateScalars | examples/flatbuffers/flatbuffer_builder.h:630-650 | the vector of these scalars is built, adjacent to its length |
| FlatBuilder.FlatBufferBuilder.CreateForcedScalars | examples/flatbuffers/flatbuffer_builder.h:603-612 | after `ForceVectorAlignment` the same vector is built with its elements at a multiple of the alignment from the end, which the padding for length and width leaves alone |
| FlatBuilder.FlatBufferBuilder.CreateOffsets | examples/flatbuffers/flatbuffer_builder.h:674-681 | the vector of these offsets is built in order, although they are pushed last to first |
| FlatBuilder.FlatBufferBuilder.CreateVectorOfStrings | examples/flatbuffers/flatbuffer_builder.h:759-778 | all strings and the vector of their offsets, in order, are built, although the offsets wait in the scratch space |
| FlatBuilder.FlatBufferBuilder.Finish | examples/flatbuffers/flatbuffer_builder.h:1124-1139 | the data is followed by padding, identifier, root offset and size prefix as asked for, and the whole is aligned to `minalign_` |
| FlatBuilder.StringOffsetLessIsLess | examples/flatbuffers/flatbuffer_builder.h:1167-1176 | the comparator of the string pool is the strict order of the contents |
| FlatTables.CreateTable | examples/message/client_message_generated.h:203-211 | the run of a generated `Create` function stores exactly the arguments that are not skipped, each in the order given behind the one before, in a number of bytes, and with an alignment, that depends on nothing else |
| FlatTables.MemberOffset | examples/flatbuffers/table.h:33-42 | in the finished buffer the vtable leads to each argument stored, where it was written |
| FlatTables.TableRoundTrip | examples/flatbuffers/table.h:29-58 | every argument is read back, stored or skipped |
| FlatTables.FieldNotGiven | examples/flatbuffers/table.h:35-48 | a field that was not given reads as its default |
| FlatSharing.CreatedAlike | examples/flatbuffers/flatbuffer_builder.h:286-307 | two tables created by the same call, in any two builders, have the same contents, all that they refer to included |
| FlatSharing.SharingIsInvisible | examples/flatbuffers/flatbuffer_builder.h:396-415 | what has the same contents reads the same through every accessor and pointer, wherever it lies in two buffers |
| FlatVerdict.TablesAgree | examples/flatbuffers/verifier.h:137-190 | and what has the same contents conforms to the same schemas, visits as many tables and nests as deep |
| FlatOrder.SortsAlike | examples/flatbuffers/flatbuffer_builder.h:1004-1009 | vectors of tables with the same contents, sorted in two builders, each by its own bytes, come in the same order |
| FlatScript.SameCallsAlike | examples/flatbuffers/flatbuffer_builder.h:286-307 | the same sequence of calls in two builders, sorted vectors included, whatever each of them shares: what the same call has made has the same contents |
| FlatRun.Run | examples/flatbuffers/flatbuffer_builder.h:286-307 | any sequence of calls is carried out as long as the assertions of the builder hold, which they do if its tables are small and it fits: each call has made what it should |
| FlatRun.RunOnce | examples/flatbuffers/flatbuffer_builder.h:1124-1139 | the buffer finished after any such sequence verifies, for every schema that its root conforms to, exactly within the limits |
| FlatRun.RunTwice | examples/flatbuffers/flatbuffer_builder.h:396-415 | the same sequence of calls in a builder that shares vtables and in one that does not, and finished: whatever a call made reads the same in both buffers, the root included, and for every schema and all limits the verifier accepts both or neither |
| FlatVerifier.VerifyTable | examples/flatbuffers/verifier.h:268-278 | on any bytes, for any schema, verification starts at most `max_tables` + 1 tables, never deeper than one beyond `max_depth`, and a success leaves the depth as it was |
| FlatVerifier.Verifier.CheckTable | examples/flatbuffers/table.h:109-114 | the method that updates the two counters decides and counts as the function does, which `VerifiesExactly` characterises |
| FlatWellFormed.TableExact | examples/flatbuffers/verifier.h:137-190 | for any bytes and any schema: a table verifies exactly if it is well formed (a definition without counters, order or early ends), nested within what is left of the limit, and its tables fit what is left of theirs |
| FlatWellFormed.VerifiesExactly | examples/flatbuffers/verifier.h:193-215 | for any bytes: a buffer verifies exactly if it has twelve bytes, the identifier asked for, a root offset that leads inside, and a well-formed root within the limits |
| FlatWellFormed.SizePrefixedExactly | examples/flatbuffers/verifier.h:240-245 | with a size prefix, exactly if that is also the number of bytes after it |
| FlatWellFormed.VerifiedIsAligned | examples/flatbuffers/verifier.h:83-90 | with alignment checking, a verified table is at a multiple of 4, its vtable of 2, each scalar of its width, and each offset, and the vector, string or table it leads to, of 4 |
| FlatVerifier.VerifiedTableIsSafe | examples/flatbuffers/table.h:109-143 | in a verified table, vtable entries, scalars, lengths, elements, characters and terminators, along every path, are inside the buffer |
| FlatVerifier.VerifiedBufferIsSafe | examples/flatbuffers/verifier.h:193-215 | the same from the root of a verified buffer, whoever made it |
| FlatAccepts.ConformsGrows | examples/flatbuffers/flatbuffer_builder.h:357-419 | building more changes no table into one of another kind |
| FlatAccepts.AcceptsTable | examples/flatbuffers/verifier.h:137-190 | every table built, of any schema it conforms to, verifies, at the cost of the tables it visits |
| FlatAccepts.FinishedVerifies | examples/flatbuffers/verifier.h:193-215 | every finished buffer verifies for every schema its root conforms to, within the limits, with or without alignment checking, identifier and size prefix |
| FlatLimits.FinishedVerifiesExactly | examples/flatbuffers/verifier.h:193-215 | a finished buffer verifies as a schema its root conforms to exactly if it visits no more tables and is nested no deeper than the verifier allows |
| FlatAccepts.FinishedIsAligned | examples/flatbuffers/flatbuffer_builder.h:1124-1139 | in the finished buffer every scalar and offset of a table, every length, every element of a vector and every table itself that was built is aligned from the start; the size is a multiple of `minalign_`, and the size prefix is the number of bytes after it |
| FlatAccepts.ForcedIsAligned | examples/flatbuffers/flatbuffer_builder.h:603-612 | and the elements of a vector whose alignment was forced, to 16 or 32 too, start at a multiple of it |
| FlatRoot.NoImpersonation | examples/flatbuffers/flatbuffers.h:42-74 | no word between the root offset and the root table, padding and identifier included, leads to the root |
| FlatRoot.GetBufferStartFromRootPointer | examples/flatbuffers/flatbuffers.h:42-74 | for every buffer whose root was built last, the loop finds the root offset within its nine words: it inverts `GetRoot` |
| FlatSorted.LessThanIsBefore | examples/flatbuffers/reflection_generated.h:268-270 | `KeyCompareLessThan` is the strict order of the keys |
| FlatSorted.CompareIsBefore | examples/flatbuffers/reflection_generated.h:271-273 | the sign of `KeyCompareWithValue`, by `strcmp`, is the order of the keys, string keys cut at their first zero byte |
| FlatSorted.StableSort | examples/flatbuffers/flatbuffer_builder.h:1004-1007 | the same tables in key order, equal keys in their given order |
| FlatSorted.CreateVectorOfSortedTables | examples/flatbuffers/flatbuffer_builder.h:1004-1009 | the vector built holds the same tables in key order, those with equal keys in the order given |
| FlatSorted.LookupFinds | examples/flatbuffers/vector.h:261-299 | looking up in a sorted vector finds a table exactly if the key of one, cut at its first zero byte, is what is sought, and then such a table |
| FlatSorted.LookupFindsKey | examples/flatbuffers/vector.h:261-299 | on keys without zero bytes it finds a table exactly if one has the key, and then one that has it |
| FlatSorted.LookupAgreesExactly | examples/flatbuffers/vector.h:261-299 | lookups find exactly the keys that tables have if and only if every key, cut at its first zero byte, is some table's key |
| FlatSorted.ZeroByteKeyFound | examples/flatbuffers/reflection_generated.h:268-273 | a key with a zero byte is found by what precedes that, which no table has for its key |
| ClientMessages.PacketConforms | examples/message/client_message_generated.h:86-127 | a packet of a type and a table of that type is what the schema asks for, two tables deep |
| ClientMessages.LoginPacket | examples/message/client_message_generated.h:203-223 | a login packet verifies, and its accessors give back the id and the password, absent ones included, at vtable offsets 4 and 6; with both, the fields and the strings are in the order of the original |
| ClientMessages.ConnectServerPacket | examples/message/client_message_generated.h:225-264 | a connect packet verifies and gives back the server's number, the default -1 included; with any other number, in a new builder, it takes 40 bytes |
| ClientMessages.LogoutPacket | examples/message/client_message_generated.h:266-293 | a logout packet verifies and reads as one |
| PacketCheck.AcceptedExactly | examples/message/client_message_generated.h:295-339 | for any bytes: the check of the server accepts exactly these, offset by offset: a root with a type and a table, of type 1 with two strings, of type 3 with a number, each absent or inside and aligned |
| PacketCheck.AcceptedIsSafe | examples/server/client_session.cpp:23-30 | for any bytes that are accepted: the type and the table can be read, and of the table the strings of a login request and the number of a request to connect |
| PacketCheck.MisalignedRefused | examples/flatbuffers/verifier.h:83-90 | twelve bytes with a misaligned root: refused, and accepted without alignment checking |
| PacketCheck.LoginBytes | examples/message/client_message_generated.h:203-223 | the 60 bytes that a new builder makes of a login request: they are accepted, and read as the id and the password |
| PacketCheck.FarPasswordRefused | examples/message/client_message_generated.h:172-178 | a login request whose password is 2 GB away is refused |
| Utf8.EncodeValue | examples/flatbuffers/util.h:479-500 | encoding the value of any character of the grammar gives the character back |
| Utf8.ValueEncode | examples/flatbuffers/util.h:479-500 | of all numbers below 2^31, encoding gives a character of the grammar exactly for the scalar values, and its value is the number |
| Utf8.Examples | examples/flatbuffers/util.h:479-500 | the examples of section 7 of RFC 3629, and the least numbers that take five and six bytes |
| Utf8.PrefixFree | examples/flatbuffers/util.h:507-548 | no character of the grammar is the start of another, so what is read at a position is unique |
| Utf8.ToUTF8 | examples/flatbuffers/util.h:479-500 | the nested loops append the encoding and return its length |
| Utf8.FromUTF8 | examples/flatbuffers/util.h:507-548 | on any string ending with a NUL the method reads the one character of the grammar that starts there, or gives -1 exactly if there is none, and never reads past the NUL |
| Utf8.BitForms | examples/flatbuffers/util.h:479-548 | the masks and shifts of the original, on machine words, are the arithmetic of the model |
| Escape.HexRoundTrip | examples/flatbuffers/util.h:188-201 | the text has the value of the number, and has `xdigits` digits exactly if they are enough |
| Escape.HexDigits | examples/flatbuffers/util.h:188-201 | the digits are 0 to 9 and A to F |
| Escape.TooLargeForDigits | examples/flatbuffers/util.h:185-201 | a number too large for the digits asked for has a text that is longer |
| Escape.EscapeString | examples/flatbuffers/util.h:579-647 | succeeds exactly if the string is UTF-8 or need not be; the text reads back as the string; it is a string of RFC 8259 exactly if the string is UTF-8 and, with natural output, has no control character without a short escape; with natural output a UTF-8 string without characters that have one is written as it is, and any other output is printable ASCII |
| Escape.PieceForms | examples/flatbuffers/util.h:584-642 | what is written for one character, case by case |
| Escape.EscapedConcat | examples/flatbuffers/util.h:579-647 | a UTF-8 string and what follows it are escaped one after the other |
| Escape.CharacterStands | examples/flatbuffers/util.h:617-642 | wherever it is, a character of more than one byte stands in the text as itself exactly with natural output |
| Escape.UnescapeEscaped | examples/flatbuffers/util.h:579-647 | reading the escaped text gives the bytes back, surrogate pairs and single bytes included |
| Escape.JsonEscaped | examples/flatbuffers/util.h:579-647 | the exact condition for the text to be a string of RFC 8259 |
| Escape.ControlIsNotJson | examples/flatbuffers/util.h:579-647 | a control character that natural output writes as it is: the text is written, and is no string of RFC 8259 |
| Packets.SocketBuffer.constructor | lib/iocplib/socket_buffer.h:7-13 | the buffer is the frame: the length in four bytes, then the payload |
| Packets.FrameBytes | lib/iocplib/socket_buffer.h:7-13 | the four bytes are the length of the payload alone, its low byte first |
| Packets.ParseFrames | lib/iocplib/socket_buffer.h:7-13 | frames one after another read as exactly these packets |
| Packets.ParseInjective | lib/iocplib/socket_buffer.h:7-13 | different streams read differently |
| Packets.CutsDoNotMatter | examples/server/client_session.cpp:18-34 | reading a stream in pieces gives the same packets however it is cut |
| Packets.PacketReceiver.OnReceive | examples/server/client_session.cpp:18-34 | takes exactly what belongs to the packet in progress, and returns how much is left |
| Packets.PacketReceiver.IsComplete | examples/server/client_session.cpp:21-22 | the 32-bit comparison holds exactly if a whole frame is there, and nothing after it |
| SendQueue.AcceptedMoves | lib/winsocklib/client_socket.h:94-114 | a partial send moves as many bytes as were accepted, of the first frame, from the queue to the wire, and changes nothing of the two together |
| SendQueue.DrainKeeps | lib/winsocklib/client_socket.h:94-114 | so does a whole drain, however it ends |
| SendQueue.DrainStops | lib/winsocklib/client_socket.h:94-114 | a drain stops exactly when nothing is queued, the socket would block, or it throws, and a throw is passed on exactly then |
| SendQueue.DrainEmpties | lib/winsocklib/client_socket.h:94-114 | if each call accepts something, as many calls as there are bytes empty the queue |
| SendQueue.RunStream | lib/winsocklib/client_socket.h:83-114 | over every run, the wire followed by the queue is the frames of the packets in the order they were queued |
| SendQueue.Delivered | lib/winsocklib/client_socket.h:83-114 | over every run and every cut of the wire, the packets read are the first of those queued, and all of them once the queue is empty |
| SendQueue.ClientSocket.Enqueue | lib/winsocklib/client_socket.h:83-88 | the critical section is the state machine's step |
| SendQueue.ClientSocket.TrySendPacket | lib/winsocklib/client_socket.h:94-114 | the loop ends whatever the socket does, and is the state machine's step |
| SendQueue.ClientSocket.SendPacket | lib/winsocklib/client_socket.h:81-91 | queueing and sending, if no other thread comes in between, are the two steps of the state machine |
| Sessions.ClientSession.OnReceivePacket | examples/server/client_session.cpp:16-35 | the loop handles the packets of the bytes it has its receiver take, up to one that is refused |
| Sessions.SessionCorrect | examples/server/client_session.cpp:16-35 | for any check of the packets, a piece is handled as the stream has it exactly if, until a packet is refused, the bytes taken again are those that follow |
| Sessions.HandlesUntilRefused | examples/server/client_session.cpp:16-35 | what should happen with a stream: of its packets those before the first that is refused are handled, and that one stays |
| Sessions.OnePacketFollows | examples/server/client_session.cpp:16-35 | so it is if no packet ends before the piece does, or the first that does is refused |
| Sessions.SecondPacketLost | examples/server/client_session.cpp:16-35 | two different packets in one piece, both accepted, are not handled as the two of them; if they are of one length, the first is handled twice and the second not at all |
| Exchange.TwoConnects | examples/server/client_session.cpp:16-35 | requests to connect to two servers, as the builder makes them and the verifier accepts them, in one piece: the session does not handle the two of them, and unless a number is the default it handles the first twice |
| Exchange.TwoPieces | examples/server/client_session.cpp:16-35 | the same requests, each in a piece of its own, are both handled |
| Sessions.ReadLoopEnds | lib/winsocklib/client_socket.h:49-66 | the client's loop over a piece ends exactly if the piece ends no later than the packet in progress, or is no longer than the packet it starts with |
| Sessions.TwoPacketsLoop | lib/winsocklib/client_socket.h:61-68 | on two whole packets in one piece the loop never ends |
| Sessions.ClientCorrect | lib/winsocklib/client_socket.h:61-68 | the client handles a piece as the stream has it exactly if the piece ends no later than the packet in progress |

## Left out

- Floating point: FlexBuffers floats and doubles, their widths and typed vectors of them, and FlatBuffers float fields.
- The FlexBuffers reuse tracker, whose early return skips `depth_--` (examples/flatbuffers/flexbuffers.h:1725-1733).
- FlexVerifier.VerifiedBufferIsSafe: does not say that a key in a verified buffer ends inside it, because that is false (`EndlessKeyVerifies`).
- Fixed typed vectors of bool or key, and the `Mutate` functions of FlexBuffers.
- FlexBuffers beyond 2^63 - 1 bytes: building reports `OutOfMemory`, where the original fails to allocate. Running out of memory earlier is not modelled.
- FlexBuilder.Builder.EndMap: with equal keys it leaves their order open, because `std::sort` does; that duplicates are remembered only if there are some takes a `std::sort` that never compares an element with a copy of itself, which the original tells from the element by its address.
- FlexBuffers vectors of scalars given as an array: `ScalarVector` and the overloads of `Vector` and `FixedTypedVector` that use it (examples/flatbuffers/flexbuffers.h:1530-1549), which write the elements without a stack.
- FlatBuilder.FlatBufferBuilder.EndTable: like every operation of this builder it requires room, a few bytes more than it uses, below the limit of 2 GB that the original asserts; and field ids up to 0xFFFC, beyond which the vtable's size does not fit its 16 bits.
- The FlatBuffers builder works on the two byte sequences that a `VectorDownward` is shown to hold over whole runs (`MemoryRuns`), not on a `VectorDownward` object.
- Vectors of structs: the length that `StartVectorOfStructs` pre-aligns is not that of the body (examples/flatbuffers/flatbuffer_builder.h:788-795).
- Structs as fields, nested FlatBuffers, `CreateUninitializedVector`, vectors of bool, and required fields while building.
- Move, swap, release and reset of builders; allocators other than one that always succeeds.
- `std::sort`, `std::stable_sort`, `std::set::find` and `std::bsearch` are modelled by what they promise.
- FlatVerifier.VerifyTable: counters are unbounded, where the original's are 32 bits wide.
- FlatRoot.GetBufferStartFromRootPointer: says nothing about a buffer whose root was not built last, for which the original promises nothing.
- Unions other than of tables, and vectors of unions.
- Big-endian machines.
- Escape.EscapeString: strings of 4 GB and more, over which the 32-bit index of the loop never ends.
- Packets.SocketBuffer.constructor: payloads of 2^32 - 4 bytes and more, for which the 32-bit size of the frame wraps.
- Packets.PacketReceiver.OnReceive: packets that take the 32-bit offset beyond 2^32 - 1, which no sender can frame.
- That `Send` throws when 2 GB and more are left to send, as their number is negative as an int: the queue is shown for whatever `Send` does.
- Sessions.ReadLoopEnds: the client's receive loop is modelled by its rounds, not run, because it need not end; `Recv` and the receive buffer are left out.
- `ClientSocket::Close`, `SocketBuffer::Slice`, `SocketIoThread`, the asynchronous session sender, the acceptor, I/O completion ports, Winsock, signals, the packet handlers and console output.
- `WordWrap`, `BufferToHexText` and the other helpers of `util.h`; `idl.h`, `reflection.h` but for two key comparators, `hash.h`, `registry.h` and the code generators.
