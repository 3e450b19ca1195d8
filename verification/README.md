# The DLIS parser, binn, and five parts of libzmq

dlis_parser reads well logs in the DLIS format of API RP66 V1 and hands them to JavaScript. This project models
the three layers that the rest of it stands on, and proves what each is for.

**The streaming parser** (`node-addon/src/dlis.cc`, `common.cc`). A file is a stream of visible records
(section 2.3.6 of API RP66 V1), tiled by logical record segments (section 2.2.2), whose bodies, put together, are
records of frame data. It arrives in chunks, and values may be cut by the end of a segment: what could not be decoded is
stashed, and overwrites the end of the next segment's header. `Rp66Values` decodes values,
and `Rp66Delivery` is what becomes of them on the way to their curve. `DlisMachine` is one turn of the loop of `parse`,
as a function on states; `DlisTape` is what a file holds, with the place of the parser on it; `DlisRecords` is what the
contiguous bodies mean. `DlisFraming` and `DlisFirstRecord` prove when the first comes to the last: how a record is cut
does not matter, and exactly when it does. `DlisCapacity`, `DlisOverrun` and `DlisTightBound` are about the room in the
buffers. `DlisReader` has `dlis_t` as a class over arrays, with its methods proved against the machine; `DlisFindings`
and `DlisLuckyFile` have a whole file read, and single files on which the parser fails, followed turn by turn with
`DlisTurns`. `DlisLists` and `DlisLinking` are the two kinds of linked lists in which channels are kept.

**binn** (`node-addon/third-parties/binn/src/binn.c`), the format in which the parser talks to JavaScript.
`BinnFormat` has headers, items, and the functions that skip and read them; `BinnEntries` the search by key and id;
`BinnReader` the functions that read a container; `BinnInts` the compression of integers; `BinnStored` what is stored
for a value in memory, and what is read back of it; `BinnWriter` the growing buffer of a container, as a class;
`BinnExamples` the structures that the format's own documentation spells out byte by byte. An `Entry` is a key with an `Item`; `SavedEntries` is the byte layout of a container,
and `Contains(buf, tag, es)` says that the memory `buf` begins with one.

**Five parts of libzmq** (`node-addon/third-parties/libzmq-4.2.5/src`): the multi-trie of subscriptions (`MtrieMap`
for what it means, `Mtrie` for its nodes), the distributor of messages (`Dist`) and the fair queue (`FairQueue`) over
the array whose items know their place (`PipeArray`), the generic decoder and encoder (`Decoder`, `Encoder`), and the
metadata of ZMTP (`Metadata`; ZeroMQ RFC 23).

Where the source updates state in place, the model is a class with the source's fields. A method of such a class states
its new state as a function of the old one; what that function is worth is proved by the lemmas beside it.

`dafny verify dfyconfig.toml` checks the whole project.

## Model

| member | source | states |
|---|---|---|
| `Rp66Values.UvariRoundTrip` | node-addon/src/common.cc:335-359 | Every number below 2^30, in its 1, 2 or 4 bytes (Appendix B of API RP66 V1), is decoded as itself, with its length, whatever follows. |
| `Rp66Values.IdentRoundTrip` | node-addon/src/common.cc:310-321 | The same for IDENT: a length byte and up to 255 bytes. |
| `Rp66Values.AsciiRoundTrip` | node-addon/src/common.cc:323-333 | The same for ASCII: a UVARI length and the bytes. |
| `Rp66Values.ObnameRoundTrip` | node-addon/src/common.cc:463-475 | The same for OBNAME: origin, copy number and name. |
| `Rp66Values.ObjrefRoundTrip` | node-addon/src/common.cc:477-484 | The same for OBJREF: a type and an OBNAME. |
| `Rp66Values.NamesRead` | node-addon/src/common.cc:310-484 | What these four look like, byte by byte: length and text; origin, copy number, length and text; type and object name. |
| `Rp66Values.IntegersRead` | node-addon/src/common.cc:361-461 | SSHORT to ULONG and STATUS are the big-endian numbers of their bytes, the signed ones in two's complement. |
| `Rp66Values.Undecoded` | node-addon/src/common.cc:7-36 | A value of a code without a decoder takes as many bytes as the single (4) or double (8) numbers it is made of, one, two or three of them, and FSHORT two; with fewer there it is not taken. |
| `Rp66Values.ValueStable` | node-addon/src/common.cc:361-461 | Every decoder of values is bounded and prefix-stable: on the first m bytes it gives the same value and length if that length is at most m, and otherwise asks for more. (Codes without a decoder give a value that was never set.) |
| `Rp66Delivery.ValueRoundTrip` | node-addon/src/common.cc:361-461 | For every code that has a decoder, a value encoded as Appendix B of API RP66 V1 says is decoded as itself, whatever follows; of a text only the first 4080 bytes are kept. |
| `Rp66Delivery.DeliveredIs` | node-addon/src/common.cc:683-752 | What serialize_list_add puts into the list of a channel is the decoded value if and only if its texts hold no zero byte, and the type of a reference is empty or what the numbers of its target spell in memory. |
| `Rp66Delivery.ArrivesIs` | node-addon/src/common.cc:683-752 | What arrives of any other value: a text ends in front of its first zero byte, or after 4080 bytes; a name in front of its first zero; and the type of a reference is replaced by what spell, up to the first zero, the four bytes of the origin, the lowest first, and the copy number. |
| `Rp66Delivery.ComesThroughIs` | node-addon/src/common.cc:82-102 | So an encoded value is delivered as it was if and only if its code is not ORIGIN, that holds, and a text has at most 4080 bytes. |
| `Rp66Values.DecodeRunCut` | node-addon/src/dlis.cc:703-791 | A run of values cut after any m bytes and resumed at the first byte not used gives the same values, together, as one that is not cut; nothing is left to resume if all its bytes were there. |
| `DlisMachine.FindFrameIs` | node-addon/src/dlis.cc:1313-1328 | A row belongs to the first frame of its name in its logical file; none is found only if there is none. |
| `DlisTape.AttributeBits` | node-addon/src/dlis.cc:813-836 | The attributes of a segment, bit by bit from the highest: EFLR, predecessor, (successor,) encryption, (its packet,) checksum, trailing length, padding. |
| `DlisTape.TrailerIs` | node-addon/src/dlis.cc:909-951 | A trailer is padding whose last byte is its length, if there is any, then a checksum and a length of two bytes each, if there are any. |
| `DlisMachine.StepProgress` | node-addon/src/dlis.cc:1675-1964 | Each turn of the loop of `parse` that goes on shrinks a measure, so the loop ends on every input. |
| `DlisMachine.StepKeepsRecordEnd` | node-addon/src/dlis.cc:1675-1964 | From one visible record header to the next no turn moves the end of the record, `byte_idx + (vr_len - vr_byte_cnt)`: not the splice that sets `byte_idx` back, nor the skip that moves it forward. |
| `DlisMachine.StepKeepsSegmentEnd` | node-addon/src/dlis.cc:1675-1964 | Inside a segment no turn moves the end of the segment, `byte_idx + (lrs_len - lrs_byte_cnt)`. |
| `DlisFirstRecord.StepAligned` | node-addon/src/dlis.cc:1624-1667 | Where segments tile a record, the parser reads each header exactly where the segment before it ends, and takes the segments in order, whatever their bodies hold; the one other outcome is that it stops. |
| `DlisRecords.RecordDecodes` | node-addon/src/dlis.cc:667-791 | The body that holds the name of a known frame, a number, and the encoded values of its channels means something unless a channel has the code ORIGIN; what, says WrittenRow. |
| `DlisRecords.WrittenRow` | node-addon/src/dlis.cc:667-791 | It means the header with that number, and then one curve per channel, in order, of which each value is what arrives of the one encoded (ArrivesIs). All curves of the row are under one index: without INDEX-TYPE the number of the row; with it the last value encoded for the first channel, if that is an integer or a floating point number, and 0 if it is a text, a name, a reference or a time. |
| `DlisRecords.RecordComesThrough` | node-addon/src/dlis.cc:703-791 | It means exactly the values that were encoded if and only if every one of them comes through as ComesThroughIs says. |
| `DlisRecords.SameBodiesSameEvents` | node-addon/src/dlis.cc:410-443 | What a file means depends on the bodies of its records alone, not on how they are cut into segments. |
| `DlisFraming.CutsDoNotMatter` | node-addon/src/dlis.cc:278-300 | The main theorem, for all frames, records, cuts into segments with or without trailers, spreads over visible records, and chunks. The parser reports what the contiguous bodies hold if and only if no record begins with an empty segment and none but the last ends with one; it ends between records if and only if none begins or ends with one; and it crashes if and only if one does that is not just the very last segment with nothing but its header. Its `requires` leaves out only what FirstRecordComesThrough is about, and bodies that mean nothing for the frames. |
| `DlisFraming.SameRecordsSameEvents` | node-addon/src/dlis.cc:793-811 | Two files with the same records, cut differently and read in different chunks, lead to the same events. |
| `DlisFirstRecord.FirstRecordComesThrough` | node-addon/src/dlis.cc:1595-1600 | The case left out above: if a channel is current before any frame data is read, as it is when the frames have been read, the first record is reported, in every chunking, if and only if its header ends in its first segment. If it does, the end is as above. |
| `DlisCapacity.ChunksFit` | node-addon/src/dlis.cc:278-300 | If no channel is ASCII, and the longest segment of m bytes, RestBound(m) - m bytes more (511 from 264 bytes on) and the longest chunk fit into 65536 bytes together, no chunk that `dlis_read` copies overruns its buffer, whatever the bodies hold. |
| `DlisTightBound.TightBound` | node-addon/src/dlis.cc:278-300 | That bound is exact: for segments of up to m bytes, from 524 on, and chunks of up to n, every file without ASCII channels fits if and only if m + 511 + n is at most 65536. |
| `DlisOverrun.LongValueOverruns` | node-addon/src/dlis.cc:278-300 | A file whose first value is longer than 65536 bytes overruns a buffer, however it is cut and in whatever chunks it is read. |
| `DlisOverrun.AsciiNeverSafe` | node-addon/src/dlis.cc:278-300 | So with an ASCII channel no bound helps: for all sizes of segments from 8 bytes on and of chunks there is a well-formed file, cut in no dangerous place, that overruns a buffer. |
| `DlisFindings.FirstRow` | node-addon/src/dlis.cc:1595-1600 | One row of five bytes in two segments, as the first after the frames, cut after k bytes: it is reported if and only if k is at least 4; with k = 5, its second segment empty, only the parser does not end between records. |
| `DlisFindings.SecondRow` | node-addon/src/dlis.cc:1640-1646 | Two such rows, cut after j and k bytes, j at least 4: both are reported if and only if j is 4 and k is not 0, and the parser crashes if and only if they are not. |
| `DlisFindings.ValuesChanged` | node-addon/src/common.cc:82-102 | The type "A" of a reference to the object (1, 0, "") is delivered as the byte 1, and the text "A", 0, "B" as "A". |
| `DlisFindings.OriginCrashes` | node-addon/src/common.cc:709-717 | A file with one ORIGIN: its header is reported, and then the program stops where it takes the number for the address of a text. |
| `DlisLuckyFile.LuckyFile` | node-addon/src/dlis.cc:1595-1600 | Why FirstRecordComesThrough is about one record: two records, the header of the first cut while a channel is current, and all their events are reported. |
| `DlisFindings.ReadFile` | node-addon/src/dlis.cc:1416-1439 | End to end on a new parser with its frames read, a channel of the last of them being current: if the first header is not cut, and no channel is ASCII, segments of at most 16384 bytes and chunks of at most 4000 overrun nothing, and the three equivalences of CutsDoNotMatter hold of the object. |
| `DlisReader.Dlis.PaddingLen` | node-addon/src/dlis.cc:909-925 | The last byte of the padding, -1 before the whole segment is there, -2 where the place lies in front of the segment. |
| `DlisReader.Dlis.TrailingLen` | node-addon/src/dlis.cc:927-951 | The length of the trailer, once known, is remembered, and nothing else changes. |
| `DlisReader.Dlis.ParseVrHeader` | node-addon/src/dlis.cc:361-408 | The length of the record, or -1 if the header is not there or lacks its 0xFF. |
| `DlisReader.Dlis.ParseLrsHeader` | node-addon/src/dlis.cc:410-443 | With a header there, the stash overwrites its end, `byte_idx` moves back to it, and the three lengths grow by it: what is unread is then the stash followed by the body. Without one nothing changes. |
| `DlisReader.Dlis.ReadValues` | node-addon/src/dlis.cc:751-780 | The loop over the values of a channel takes exactly the longest run of them that decodes in the body so far, and adds to the list what is delivered of each; the index follows the values of a first channel, as WrittenRow says of the row; it ends where an ORIGIN would be delivered. |
| `DlisReader.Dlis.TurnToChannel` | node-addon/src/dlis.cc:730-740 | With the values of the last channel complete, the current channel is loaded, or three fields are set to -1 if there is none. |
| `DlisReader.Dlis.ParseIflrData` | node-addon/src/dlis.cc:703-791 | One call of `parse_iflr_data` does what the machine does up to the callback, also where there is no channel, which then crashes in `on_iflr_data`; or it is a call that would itself read through a null pointer, read an ORIGIN, or exit on an unknown code, and the machine stops. |
| `DlisReader.Dlis.LrsSkipUnparsedBuff` | node-addon/src/dlis.cc:793-811 | The rest of the body goes to `unparsed_buff`, and the three counters pass it. |
| `DlisReader.Dlis.SwitchBuffer` | node-addon/src/dlis.cc:278-295 | The unread bytes move to the other buffer behind room for the stash, and the state that matters stays as it is. |
| `DlisReader.Dlis.OneTurn` | node-addon/src/dlis.cc:1719-1957 | One turn of the real loop, over arrays and counters, is one step of the machine. |
| `DlisReader.Dlis.Parse` | node-addon/src/dlis.cc:1675-1964 | The loop over arrays and counters is the loop of the machine, for every state. |
| `DlisReader.Dlis.Read` | node-addon/src/dlis.cc:278-300 | A chunk is appended to the unread bytes, through a change of buffers where the source has one, and parsed. |
| `DlisReader.Dlis.constructor` | node-addon/src/dlis.cc:1231-1263 | A new parser, after its frames: the last frame is current, and in it its last channel; nothing is unread. |
| `DlisReader.Dlis.ReadAll` | node-addon/src/dlis.cc:1432-1439 | All chunks, one after the other: what CutsDoNotMatter says of the machine holds of the object. |
| `DlisLists.NoCycle` | node-addon/src/dlis.cc:1217-1266 | Following the links of the lists, the places only grow: no list comes back to a channel. |
| `DlisLinking.OrderDoesNotMatter` | node-addon/src/dlis.cc:1061-1122 | Two files with the same frames, and the same channels in any order and anywhere between the events of the frames, end with the same references of every frame and the same dimension and code of every channel. |
| `DlisLinking.FileSays` | node-addon/src/dlis.cc:1061-1266 | A file that is written with these frames and references, and these channels with their attributes, in any order: each frame refers to its channels in their order, numbered from 1; the size of a channel is the product of its dimensions, its code the last that was given, or 19; a channel that never comes has one value of code 19. |
| `DlisLinking.Linker.ChannelObjectRead` | node-addon/src/dlis.cc:1085-1122 | A channel that a frame refers to already is found in the frames and put into the list of all channels; another is allocated. No channel gets lost, both kinds of lists stay acyclic. |
| `DlisLinking.Linker.ReferenceRead` | node-addon/src/dlis.cc:1225-1266 | A channel that has come is put at the end of the current frame with the next index; another is allocated for it. Same invariant. |
| `DlisLinking.Linker.FrameObjectRead` | node-addon/src/dlis.cc:1061-1081 | A new frame without channels becomes the current one, behind the others. |
| `DlisLinking.Linker.DimensionRead` | node-addon/src/dlis.cc:1217-1220 | The dimension of the current channel is multiplied, also if frames refer to it already. |
| `DlisLinking.Linker.RepCodeRead` | node-addon/src/dlis.cc:1221-1223 | The code of the current channel is replaced. |
| `DlisLinking.Linker.FindInFrames` | node-addon/src/dlis.cc:1086-1105 | The walk over all frames finds the channel of the name, if one of them has it. |
| `DlisLinking.Linker.FindInChannels` | node-addon/src/dlis.cc:1228-1244 | The walk over the list of all channels finds the channel of the name, if it has come. |
| `DlisLinking.Linker.ReadFrame` | node-addon/src/dlis.cc:1245-1266 | The walk over the channels of a frame gives its references in order, numbered from 1, with what was said of each, or the defaults 1 and 19. |
| `DlisLinking.Linker.LinkAll` | node-addon/src/dlis.cc:1061-1266 | After all objects of a file, in whatever order, the lists say what the file says; with OrderDoesNotMatter, the order is of no account. |
| `BinnFormat.HeaderRead` | node-addon/third-parties/binn/src/binn.c:1047-1120 | IsValidBinnHeader recovers type, count, size and its own length from any header in one or four byte lengths. |
| `BinnFormat.AdvanceOver` | node-addon/third-parties/binn/src/binn.c:482-546 | AdvanceDataPos skips an item as a whole, and gives 0 where that ends at or behind the limit. |
| `BinnFormat.GetOver` | node-addon/third-parties/binn/src/binn.c:1321-1432 | GetValue gives type, bytes and, for a container, the count of what was stored, whatever surrounds it. |
| `BinnEntries.LookupFinds` | node-addon/third-parties/binn/src/binn.c:550-611 | What both searches are proved against: the first entry whose key is the same (but for the case of ASCII letters, for names), if there is one. |
| `BinnEntries.SameKeyIs` | node-addon/third-parties/binn/src/binn.c:576-611 | Ids are the same if they are equal; names if they have the same length and at each place the same byte, or an ASCII letter and its other case. |
| `BinnEntries.FindIdIs` | node-addon/third-parties/binn/src/binn.c:550-572 | On a laid out map the search ends at the value of that entry, or fails if there is none. |
| `BinnEntries.FindKeyIs` | node-addon/third-parties/binn/src/binn.c:576-611 | The same for an object. |
| `BinnReader.SearchForID` | node-addon/third-parties/binn/src/binn.c:550-572 | The loop is the search FindIdIs is about, on any memory. |
| `BinnReader.SearchForKey` | node-addon/third-parties/binn/src/binn.c:576-611 | The loop is the search FindKeyIs is about, on any memory. |
| `BinnReader.ObjectGetIs` | node-addon/third-parties/binn/src/binn.c:1466-1485 | A saved object is a finite map from case-folded names: getting a name gives the value it was set to, or nothing if it was not. |
| `BinnReader.MapGetIs` | node-addon/third-parties/binn/src/binn.c:1489-1508 | A saved map is one from ids. |
| `BinnReader.HeldAfterSet` | node-addon/third-parties/binn/src/binn.c:635-700 | Setting a key that is absent changes what is held under it, and under no other key. |
| `BinnReader.ListGetValue` | node-addon/third-parties/binn/src/binn.c:1512-1539 | The loop skips to the position, counted from 1, and refuses those outside the list. |
| `BinnReader.ListGetIs` | node-addon/third-parties/binn/src/binn.c:1512-1539 | Indexing a saved list gives the values in the order in which they were added, and nothing outside of it. |
| `BinnReader.IsValidEx` | node-addon/third-parties/binn/src/binn.c:1231-1303 | The walk over the entries is the one ValidIs and KnownSizeIsALimit are about. |
| `BinnReader.ValidIs` | node-addon/third-parties/binn/src/binn.c:1231-1303 | A saved container is accepted if and only if the type and the count informed by the caller, if any, are its own, and a size informed is not smaller; its type, count and size are recovered. |
| `BinnReader.KnownSizeIsALimit` | node-addon/third-parties/binn/src/binn.c:1248-1252 | An informed size is only a limit: a container is refused if and only if it is longer. The comment in the code says that the two must be equal. |
| `BinnReader.KnownSizeMayDiffer` | node-addon/third-parties/binn/src/binn.c:1248-1252 | A container of three bytes that is accepted as one of five. |
| `BinnReader.BinnIter.Init` | node-addon/third-parties/binn/src/binn.c:1692-1712 | On a container the iterator starts in front of its first entry, if and only if the type is the expected one. |
| `BinnReader.BinnIter.ListNext` | node-addon/third-parties/binn/src/binn.c:1716-1730 | The next value, and the iterator moves in front of the one after it; nothing at the end. |
| `BinnReader.BinnIter.NextPair` | node-addon/third-parties/binn/src/binn.c:1734-1771 | The same with the key or id. |
| `BinnReader.Foreach` | node-addon/third-parties/binn/src/binn.c:1692-1771 | The loops of `binn_list_foreach` and its two siblings see every entry once, in order, with its key and value. |
| `BinnReader.ReadTree` | node-addon/third-parties/binn/src/binn.c:1692-1771 | Containers nested to any depth are read back as the tree they were put together from. |
| `BinnInts.CompressedIs` | node-addon/third-parties/binn/src/binn.c:704-788 | Compression gives an integer type that holds the value, and none that does is narrower. |
| `BinnInts.CompressedBytes` | node-addon/third-parties/binn/src/binn.c:704-788 | The low bytes that are stored are those of the value in the narrower type. |
| `BinnInts.IntRoundTrip` | node-addon/third-parties/binn/src/binn.c:2132-2217 | An integer stored with any of the eight types, compressed or not, and read as any of them is given back if and only if the wanted type can hold it. |
| `BinnWriter.DoubledIs` | node-addon/third-parties/binn/src/binn.c:424-434 | The new allocation is at least what is needed, and less than twice that if it grew. |
| `BinnWriter.CalcAllocation` | node-addon/third-parties/binn/src/binn.c:424-434 | The loop computes that size. |
| `BinnStored.StoredInt` | node-addon/third-parties/binn/src/binn.c:794-835 | An integer in the memory of a little-endian host is stored big-endian, in the narrower type if compression is on. |
| `BinnStored.RefusesIs` | node-addon/third-parties/binn/src/binn.c:794-852 | What AddValue refuses for its arguments alone: memory that is missing, but for types without bytes and empty strings and blobs; a negative size of a string or blob; a container without a size. |
| `BinnStored.StoredComes` | node-addon/third-parties/binn/src/binn.c:794-920 | What is read back of a value that was added: of a string its text up to the size given, or up to its first zero without one; of a blob and a container the bytes of the size given; of a scalar the bytes in memory, the last first; of an integer the number in memory, in any type that can hold it, and in the narrowest that can if compression is on. |
| `BinnStored.NeededIs` | node-addon/third-parties/binn/src/binn.c:815-862 | The room asked for is what the item takes, counting two bytes of type and four of a length even where it has fewer. |
| `BinnExamples.Types` | node-addon/third-parties/binn/src/binn.h:88-160 | Each basic type, of one byte, and a type of two bytes, are types, with the storage that binn documents; lists, maps and objects are the containers. |
| `BinnExamples.ListOfNumbers` | node-addon/third-parties/binn/src/binn.c:930-997 | [123, -456, 789] is saved as the eleven bytes that binn documents (NumbersKept: its integers are stored so). |
| `BinnExamples.HelloWorld` | node-addon/third-parties/binn/README.md:58-69 | {"hello": "world"} is saved as its seventeen bytes. |
| `BinnExamples.ListInMap` | node-addon/third-parties/binn/src/binn.c:930-997 | {1: "add", 2: [-12345, 6789]} is saved as its 26 bytes. |
| `BinnWriter.Binn.constructor` | node-addon/third-parties/binn/src/binn.c:253-299 | A new container has nine bytes reserved in front of its (no) entries. |
| `BinnWriter.Binn.CheckAllocation` | node-addon/third-parties/binn/src/binn.c:438-453 | With room nothing happens; without, a buffer of the caller stays and the value is refused, and one of its own becomes at least as large as needed and less than twice that, with the same bytes, if and only if that is granted. `used_size` never exceeds `alloc_size`. |
| `BinnWriter.Binn.AddValue` | node-addon/third-parties/binn/src/binn.c:794-926 | On success what GetValue reads where the value was put is what was added, as StoredComes says, and nothing in front of it changes; on refusal no byte in use changes. It is refused exactly if the type, the size or the memory does not allow it. |
| `BinnWriter.Binn.ListAddRaw` | node-addon/third-parties/binn/src/binn.c:619-631 | A value is appended to a list, and to nothing else, and read back from its last entry; a refused one leaves the contents alone. |
| `BinnWriter.Binn.ObjectSetRaw` | node-addon/third-parties/binn/src/binn.c:635-670 | A set succeeds if and only if the container is an object, the name is there, has at most 255 bytes and is not set yet in any case, and there is room; a refused set leaves the contents alone. |
| `BinnWriter.Binn.MapSetRaw` | node-addon/third-parties/binn/src/binn.c:674-700 | The same for a map and an id. |
| `BinnWriter.Binn.SaveHeader` | node-addon/third-parties/binn/src/binn.c:930-997 | The shortest header is written right in front of the entries: the bytes from there are the container of those entries. |
| `BinnWriter.SavedReads` | node-addon/third-parties/binn/src/binn.c:930-997 | So all that is proved of reading holds of what was saved, with the size in the header. |
| `BinnWriter.ListRoundTrip` | node-addon/third-parties/binn/src/binn.c:619-631 | A list that is filled, saved and iterated gives back every value that was added, in order, each as StoredComes says. |
| `BinnWriter.ObjectRoundTrip` | node-addon/third-parties/binn/src/binn.c:635-670 | An object that is filled, also with names that come twice, saved and asked for any name gives the value that was added first for it, as StoredComes says, in any case of its letters, and nothing if there was none. |
| `BinnWriter.MapRoundTrip` | node-addon/third-parties/binn/src/binn.c:674-700 | The same for a map and any id. |
| `BinnReader.HeldAfterTry` | node-addon/third-parties/binn/src/binn.c:635-700 | What a set leaves under every key, whether it succeeds or the key is there already. |
| `BinnWriter.SmallBuffersOverflow` | node-addon/third-parties/binn/src/binn.c:253-299 | The header of an empty container stays inside the allocation if and only if the size given to `binn_create` is below 3 (a buffer is refused then, and 256 bytes are allocated) or at least 9. |
| `MtrieMap.RunHolds` | node-addon/third-parties/libzmq-4.2.5/src/generic_mtrie_impl.hpp:66-166 | After any run of operations on an empty trie it holds a pair if and only if it was added and not removed since. |
| `MtrieMap.ToldOnce` | node-addon/third-parties/libzmq-4.2.5/src/generic_mtrie_impl.hpp:154-294 | What a removal of a value everywhere reports is each wanted prefix exactly once, in lexicographic order. |
| `MtrieMap.LessIs` | node-addon/third-parties/libzmq-4.2.5/src/generic_mtrie_impl.hpp:154-294 | That order: a prefix comes before what it is a prefix of; otherwise the first byte that differs decides. |
| `Mtrie.Node.Extend` | node-addon/third-parties/libzmq-4.2.5/src/generic_mtrie_impl.hpp:91-133 | The table is extended to any character, above or below its range, with no child lost. |
| `Mtrie.Node.AddHelper` | node-addon/third-parties/libzmq-4.2.5/src/generic_mtrie_impl.hpp:76-151 | The pair is added and no other changes; true if and only if the prefix had no value. The shape of every node is kept. |
| `Mtrie.Node.Compact` | node-addon/third-parties/libzmq-4.2.5/src/generic_mtrie_impl.hpp:331-396 | The table is freed, turned into a single node or cut at one end after a child is gone, which restores the shape. |
| `Mtrie.Node.Prune` | node-addon/third-parties/libzmq-4.2.5/src/generic_mtrie_impl.hpp:331-396 | The child that became redundant is taken out, the others stay, in the shape all operations rely on; none of the assertions on the way fails. |
| `Mtrie.Node.RmHelper` | node-addon/third-parties/libzmq-4.2.5/src/generic_mtrie_impl.hpp:297-399 | The pair is removed and no other changes. The result is not found if and only if the value was not at the prefix, last value removed if and only if it was and nothing is there now, values remain if and only if it was and others are. |
| `Mtrie.Node.Grow` | node-addon/third-parties/libzmq-4.2.5/src/generic_mtrie_impl.hpp:191-196 | The path buffer gets room for one more character and keeps the path. |
| `Mtrie.Node.CompactWalked` | node-addon/third-parties/libzmq-4.2.5/src/generic_mtrie_impl.hpp:253-293 | The compaction after the walk over all children restores the shape. |
| `Mtrie.Node.ClearHelper` | node-addon/third-parties/libzmq-4.2.5/src/generic_mtrie_impl.hpp:169-294 | The value is removed from this node and all below, and the prefixes reported are the path in the buffer followed by those told, whatever reallocations happen on the way. |
| `Mtrie.Node.RmAll` | node-addon/third-parties/libzmq-4.2.5/src/generic_mtrie_impl.hpp:154-166 | The value is removed everywhere; the prefixes reported are, in order, exactly those that held it, or with `call_on_uniq_` exactly those of them that hold nothing now. |
| `Mtrie.Node.Match` | node-addon/third-parties/libzmq-4.2.5/src/generic_mtrie_impl.hpp:401-445 | One call for each value of each prefix of the data, the shortest prefix first, and no other: so the values called are those held at some prefix. |
| `Mtrie.Node.RedundantIsEmpty` | node-addon/third-parties/libzmq-4.2.5/src/generic_mtrie_impl.hpp:447-450 | A node is redundant if and only if the trie below it holds nothing. |
| `Mtrie.Node.Replay` | node-addon/third-parties/libzmq-4.2.5/src/generic_mtrie_impl.hpp:66-399 | Any sequence of operations does to the nodes what RunHolds is about. |
| `PipeArray.PipeArray.Index` | node-addon/third-parties/libzmq-4.2.5/src/array.hpp:121-124 | The index kept in an item is where it is. |
| `PipeArray.PipeArray.PushBack` | node-addon/third-parties/libzmq-4.2.5/src/array.hpp:90-95 | The item is appended, with its index. |
| `PipeArray.PipeArray.Swap` | node-addon/third-parties/libzmq-4.2.5/src/array.hpp:110-119 | Two items change places, with their indices; the indices kept for other arrays stay. |
| `PipeArray.PipeArray.Erase` | node-addon/third-parties/libzmq-4.2.5/src/array.hpp:97-108 | The last item takes the place of the one that leaves, and all indices are right again. |
| `PipeArray.Pipe.Write` | node-addon/third-parties/libzmq-4.2.5/src/pipe.cpp:215-243 | A part is taken if and only if the pipe is active and open, and not as many messages ahead of its reader as its mark allows; a message counts once its last part is taken; a pipe that refuses goes on refusing until it is activated. |
| `PipeArray.Pipe.Read` | node-addon/third-parties/libzmq-4.2.5/src/pipe.cpp:177-213 | The first part that waits is taken, if the pipe is active and has one; otherwise the pipe is inactive. |
| `PipeArray.Pipe.CheckRead` | node-addon/third-parties/libzmq-4.2.5/src/pipe.cpp:151-175 | The same without taking it. |
| `Dist.GoodLogPrefix` | node-addon/third-parties/libzmq-4.2.5/src/dist.cpp:141-156 | What every method keeps of the parts a pipe was given: part k of a message is right behind parts 0 to k-1 of it. |
| `Dist.Dist.Attach` | node-addon/third-parties/libzmq-4.2.5/src/dist.cpp:46-61 | A new pipe is eligible, and active unless a message is in progress. |
| `Dist.Dist.Match` | node-addon/third-parties/libzmq-4.2.5/src/dist.cpp:63-76 | An eligible pipe joins the matching ones; another, or one that matches, changes nothing. |
| `Dist.Dist.ReverseMatch` | node-addon/third-parties/libzmq-4.2.5/src/dist.cpp:78-92 | The matching pipes are exactly the eligible ones that did not match before. |
| `Dist.Dist.Unmatch` | node-addon/third-parties/libzmq-4.2.5/src/dist.cpp:94-97 | No pipe matches. |
| `Dist.Dist.PipeTerminated` | node-addon/third-parties/libzmq-4.2.5/src/dist.cpp:99-117 | The pipe leaves all regions, and no other pipe leaves or joins any, in the middle of a message too. |
| `Dist.Dist.Activated` | node-addon/third-parties/libzmq-4.2.5/src/dist.cpp:119-133 | The pipe is eligible again, and active unless a message is in progress. |
| `Dist.Dist.Write` | node-addon/third-parties/libzmq-4.2.5/src/dist.cpp:205-219 | The pipe is offered the part. If it takes it, it has it, flushed at the end of a message, and no region changes; if and only if it refuses does it leave the three regions, and those in front of it stay. |
| `Dist.Dist.PushToMatching` | node-addon/third-parties/libzmq-4.2.5/src/dist.cpp:175-195 | The loop ends although a failed write sets its index back; each matching pipe that takes the part gets it once, and lost are exactly those that refuse it. |
| `Dist.Dist.Distribute` | node-addon/third-parties/libzmq-4.2.5/src/dist.cpp:158-198 | The same, and the references to the message are in the end those of the pipes that have it. |
| `Dist.Dist.SendToMatching` | node-addon/third-parties/libzmq-4.2.5/src/dist.cpp:141-156 | A part goes to the matching pipes that take it and to no other, and lost are exactly those that refuse; so none is if all have room. Every pipe is left with whole prefixes of messages, a pipe lost in the middle gets no more of it, and between messages active and eligible pipes are the same. |
| `Dist.Dist.SendToAll` | node-addon/third-parties/libzmq-4.2.5/src/dist.cpp:135-139 | The same for all active pipes. |
| `FairQueue.BoundedBypass` | node-addon/third-parties/libzmq-4.2.5/src/fq.cpp:84-127 | Between two messages of a pipe that is not found empty meanwhile, any other pipe delivers at most two. |
| `FairQueue.FairQueue.Attach` | node-addon/third-parties/libzmq-4.2.5/src/fq.cpp:45-50 | A new pipe is active; the pipes in front of `current` stay those served in this round. |
| `FairQueue.FairQueue.Activated` | node-addon/third-parties/libzmq-4.2.5/src/fq.cpp:72-77 | The same for a pipe that has something to read again. |
| `FairQueue.FairQueue.ReadActivated` | node-addon/third-parties/libzmq-4.2.5/src/pipe.cpp:267-273 | Whole messages come from the peer of a pipe: it is active afterwards, and the invariant stays. |
| `FairQueue.FairQueue.Deactivate` | node-addon/third-parties/libzmq-4.2.5/src/fq.cpp:115-118 | An empty pipe gives its place to the last active one, and the round ends if there is none; the invariant stays. |
| `FairQueue.FairQueue.RecvPipe` | node-addon/third-parties/libzmq-4.2.5/src/fq.cpp:84-127 | Nothing comes if and only if no active pipe has anything; what comes is the first part waiting in an active pipe, with its `more`, and no other pipe loses any. Only pipes with nothing to read are put down, every message delivered and every pipe found empty goes on record, and the record stays fair; the parts of a message come from one pipe. |
| `FairQueue.FairQueue.HasIn` | node-addon/third-parties/libzmq-4.2.5/src/fq.cpp:129-151 | True if and only if an active pipe has something to read; only pipes that have nothing are put down, and the record stays fair. |
| `Decoder.TraceSplit` | node-addon/third-parties/libzmq-4.2.5/src/decoder.hpp:103-151 | Feeding the machine of steps is independent of where the data is divided: same state, same bytes at the same destinations, same results. |
| `Decoder.Bulk` | node-addon/third-parties/libzmq-4.2.5/src/decoder.hpp:124-136 | Copying at once what a step waits for is feeding it byte by byte. |
| `Decoder.EachReturned` | node-addon/third-parties/libzmq-4.2.5/src/decoder.hpp:103-151 | Of any decoder whose state notes what its steps return: the results are exactly what they returned, once each and in order. |
| `Decoder.EachGiven` | node-addon/third-parties/libzmq-4.2.5/src/decoder.hpp:103-151 | Of any decoder whose state keeps the bytes its steps were given: together with those that wait for the next step they are exactly the data, in order. |
| `Decoder.JustEnough` | node-addon/third-parties/libzmq-4.2.5/src/decoder.hpp:103-151 | Of any decoder that knows how many bytes its next step wants: a step is taken when exactly so many are there. |
| `Decoder.Decoder.GetBuffer` | node-addon/third-parties/libzmq-4.2.5/src/decoder.hpp:75-95 | Zero-copy is offered only if what is expected fills the buffer, and no more than that. |
| `Decoder.Decoder.Decode` | node-addon/third-parties/libzmq-4.2.5/src/decoder.hpp:103-151 | One call, zero-copy or not, does what the machine does byte by byte on the bytes it says it used; it stops early only where a step returned something. |
| `Decoder.Decoder.DecodeChunks` | node-addon/third-parties/libzmq-4.2.5/src/decoder.hpp:103-151 | Any chunks, any of them zero-copy, resumed behind `bytes_used_`, give what the whole data gives. |
| `Encoder.Encoder.LoadMsg` | node-addon/third-parties/libzmq-4.2.5/src/encoder.hpp:131-136 | What is owed then is all the pieces that the steps schedule for the message. |
| `Encoder.Encoder.Encode` | node-addon/third-parties/libzmq-4.2.5/src/encoder.hpp:76-129 | What a call hands out is the next part of what is owed; the message is released only if nothing more is, and a batch is short only at its end. This holds with the zero-copy branch taken or not. |
| `Encoder.Encoder.Drain` | node-addon/third-parties/libzmq-4.2.5/src/encoder.hpp:76-129 | Batches of any positive sizes add up to the pieces of the message, and enough of them release it. |
| `Metadata.CheckIs` | node-addon/third-parties/libzmq-4.2.5/src/mechanism.cpp:290-345 | A socket type accepts a name if and only if the two are a pair that may talk. |
| `Metadata.CheckAgrees` | node-addon/third-parties/libzmq-4.2.5/src/mechanism.cpp:290-345 | The two ends of a connection agree on that. |
| `Metadata.AddProperty` | node-addon/third-parties/libzmq-4.2.5/src/mechanism.cpp:126-145 | Exactly the bytes of the property are written at the place, and no others. |
| `Metadata.BasicPropertiesLen` | node-addon/third-parties/libzmq-4.2.5/src/mechanism.cpp:184-201 | The length computed is that of the bytes that will be written. |
| `Metadata.AddBasicProperties` | node-addon/third-parties/libzmq-4.2.5/src/mechanism.cpp:155-182 | Exactly so many bytes are written, which are the properties in order; given that room, no assertion on the way fails. |
| `Metadata.Mechanism.ParseMetadata` | node-addon/third-parties/libzmq-4.2.5/src/mechanism.cpp:220-270 | The loop handles the properties in order, stops at the first that is refused, and leaves the other of the two maps alone. |
| `Metadata.RoundTrip` | node-addon/third-parties/libzmq-4.2.5/src/mechanism.cpp:155-270 | What one end writes, the other accepts if and only if the socket types fit; it then knows exactly the names and values that were written, and the routing id if it asked for it. |
| `Metadata.WrittenIsKnown` | node-addon/third-parties/libzmq-4.2.5/src/mechanism.cpp:155-270 | That is: the socket type of the sender, its routing id if it is a REQ, DEALER or ROUTER, each property of the application, and nothing else. |
| `Metadata.HandledLeaves` | node-addon/third-parties/libzmq-4.2.5/src/mechanism.cpp:220-270 | What any row of properties leaves, up to the first socket type that does not fit: the first value of each name, and what was known before stays; the last routing id, if it is asked for. |
| `Metadata.DealerBytes` | node-addon/third-parties/libzmq-4.2.5/src/mechanism.cpp:126-145 | The bytes of one property, from the first to the last. |
| `Metadata.LeftIsNone` | node-addon/third-parties/libzmq-4.2.5/src/mechanism.cpp:220-270 | Exactly which data is read without anything left: rows of properties, and such rows with a stub behind them (see Findings). |
| `Metadata.AcceptedIs` | node-addon/third-parties/libzmq-4.2.5/src/mechanism.cpp:220-270 | Data is accepted if and only if it is such a row, with no socket type in it that does not fit. |
| `Metadata.StubAccepted` | node-addon/third-parties/libzmq-4.2.5/src/mechanism.cpp:220-270 | The name "A" with no length behind it is accepted, by every receiver. |

## Findings

What the proofs show the code does not do. Each is stated for all inputs, with a concrete input where one helps.

- **An empty segment at either end of a record may crash the parser.** It is read as a header that is not there: with
  no current channel a header is expected, nothing is stashed, and so `next_state` (dlis.cc:1640-1646) goes on to frame
  data. `parse_iflr_data` finds no channel and returns 0, and `on_iflr_data` (dlis.cc:1350) reads through a null
  pointer. Segments in between may be empty. An empty last segment does no harm before something follows it, its own
  trailer or another segment. `DlisFraming.CutsDoNotMatter` has the exact conditions, `DlisFindings.SecondRow` files.
- **The first header may be read as data.** `next_state` (dlis.cc:1595-1600) expects a header only if no channel is
  current or the segment is the first of a record. Reading a FRAME object leaves its last channel current, so if
  the header of the first data record is cut by its segment, its continuation is taken for data. Later records are
  safe, because a row ends with no current channel. `DlisFirstRecord.FirstRecordComesThrough` is the exact condition
  for a file of one record, `DlisFindings.FirstRow` has the files.
- **Values change on their way to the curve.** `pack_objref` (common.cc:82-102) writes the name of a reference over its
  type; an ORIGIN is packed as a number and taken out as a text (common.cc:709-717), whose address and length are
  then arbitrary; texts and names are cut at their first zero byte. `Rp66Delivery.ComesThroughIs` and
  `DlisRecords.RecordComesThrough` have the exact condition, `DlisFindings.ValuesChanged` and `OriginCrashes` inputs.
- **`dlis_read` does not look whether a chunk fits.** Without ASCII channels `DlisTightBound.TightBound` says exactly
  when it always does; the chunks of 4000 bytes that `do_parse` reads, with segments of the size the standard allows, do.
  With an ASCII channel nothing makes it safe: `DlisOverrun.LongValueOverruns` and `AsciiNeverSafe`.
- **`binn_is_valid_ex` does not compare the informed size** (binn.c:1248-1252), although its comment says so:
  IsValidBinnHeader takes it as a limit and leaves it as it is. `BinnReader.KnownSizeIsALimit`, `KnownSizeMayDiffer`.
- **`binn_create` takes buffers of 3 to 8 bytes**, but the header is always written within the first nine.
  `BinnWriter.SmallBuffersOverflow`.
- **`parse_metadata` accepts more than the grammar of ZMTP**: data that stops right after a name that is not empty, or
  right after the length of a value that is not empty, as nothing is left there when the loop is left.
  `Metadata.AcceptedIs` is the exact condition, `StubAccepted` an input.

## Left out

Of the parser:
- The storage unit label, the tape marker mode (`nType`), encrypted and EFLR segments and EOD records: the machine
  stops at them. It also stops where the program skips more bytes than its buffer holds.
- Opening and writing files, the callbacks' messages to JavaScript, `index_min` and `index_max`: a curve written is an
  event with its values.
- Floating point values and times are kept as the bytes they were read from, also where they are delivered as numbers
  and formatted text. Codes that have a size but no decoder deliver numbers that were never set.
- What `write_to_curve_file` prints of the values it is given.
- DlisFraming.CutsDoNotMatter: requires that the bodies mean something for the frames (known names, whole rows); what
  the parser does with the others is in the machine, and StepAligned, StepProgress and ChunksFit hold for them.
- DlisFirstRecord.FirstRecordComesThrough: for one record. With more, the bytes of a header that was read as data can by
  chance be put right by the next record, as DlisLuckyFile.LuckyFile shows, so there the condition is not necessary.
- DlisTightBound.TightBound: for segments of at least 524 bytes, which the file that overruns needs; for shorter ones
  only the bound of ChunksFit itself.
- Names of frames are C strings of less than 100 bytes, as frame_t holds them; a longer one overruns it.
- DlisReader.Dlis.Read: requires the room that the program takes for granted; ChunksFit provides it, and
  LongValueOverruns is about files that do not leave it.
- DlisCapacity.ChunksFit: requires that no channel is ASCII; AsciiNeverSafe shows why.
- DlisFindings.ReadFile: the same, and that the first header is not cut.
- DlisReader.Dlis.ReadAll: requires what Read does.
- DlisLinking.Linker.ReferenceRead: requires that no frame refers to the channel yet; the source would put it into a
  list twice.
- DlisLinking.Linker.ChannelObjectRead: requires that the channel did not come before, for the same reason.
- DlisLinking.Linker.LinkAll: for a single logical file; pointers are positions in a pool; names are shorter than 100
  bytes and hold no zero, as their C strings need.

Of binn:
- Sizes above 2^30, where the arithmetic of C could overflow; whether realloc grants a size is a parameter.
- Values that are converted on the way (booleans, strings read as numbers, floats of another width); the type wrappers.
- Reading outside a malformed buffer, which finds zeros in the model.
- BinnWriter.Binn.constructor: requires a buffer of at least nine bytes, if any, because of the finding above.

Of libzmq:
- The release of trie nodes to the heap, and allocation failures, which end the program.
- Of `pipe_t`: its two ends are two objects here, one that is written to and one that holds what was flushed to it;
  credentials, delimiters and the states in which a pipe is closing, except that it is then no more written to.
  `check_hwm` and `has_out` of the distributor.
- FairQueue.FairQueue.Attach: requires a pipe that was not found empty before, and holds whole messages, as new ones do.
- Dist.Dist.Match: requires that no message is in progress, because a pipe that joins in the middle would get a part
  without those before it.
- Dist.Dist.ReverseMatch: the same.
- Dist.Dist.SendToAll: requires, in the middle of a message, that the parts before went to all active pipes, for the
  same reason.
- Dist.Dist.Activated: requires a pipe that is not eligible (or that all are), as the callers of the source pass.
- `fq_t::pipe_terminated`: it can move a pipe that was not served behind `current`, so the bound of BoundedBypass is not
  claimed with terminations. Credentials are not modelled.
- FairQueue.FairQueue.Activated: requires a pipe that is not active here but is to be read again, as
  `process_activate_read` passes.
- Decoder.Decoder.Decode: the steps are any function of a state and the bytes at their destination; the address of
  the data, which the source passes to a step, is not.
- Metadata.RoundTrip: for the default `property`, which accepts everything, and for maps that are empty before.
