# Beeline in Dafny

Beeline is an HTTP proxy: a control plane with its own HTTP/2 stack, and a data plane in eBPF. This project models the parts of
both that are easiest to get wrong and proves what they promise.

| files | what they model |
|---|---|
| `Arith`, `Common` | arithmetic on machine words, shared types |
| `RobinHood`, `HpackList`, `HpackHeader`, `HpackTable` | the HPACK encoder's dynamic table: a hash index with backward shift deletion and per-name chains over a queue of entries, and the plain list it stands for |
| `Huffman`, `HpackInt` | Huffman coding, integers and strings (section 5 of RFC 7541) |
| `HpackCursor`, `HpackDecoder`, `HpackEncoder`, `HpackLockstep` | the cursor the decoder reads through, the decoder and its resumption across fragments, the encoder and its size updates, and the two together over whole connections |
| `Frames`, `FramedWrite`, `HeaderBlock`, `FramedRead`, `HeaderTransfer` | frames on the wire, the buffered writer under partial writes, the reader's partial header blocks and what it keeps of them, and whole connections from end to end |
| `Scheduler`, `Sending`, `Windows`, `Resets`, `Popping`, `Turns`, `Draining`, `Prioritize`, `Fairness`, `Overdraft`, `Withheld` | flow control and the send scheduler: the invariant, each operation, whose turn it is, that the work comes to an end, every run, who is served when, the run that overdraws the connection window, and the capacity that is lost with a stream |
| `SlabDeque` | many linked queues in one slab |
| `PingPong` | user pings over one atomic word |
| `Base64Url`, `ConnPool`, `HeaderMutation` | the data plane: unpadded base64url, the upstream connection pool, header lines rewritten in place |

Code that changes state step by step is a class or a loop tied to a function, and the properties are proved of the functions.
`dafny verify dfyconfig.toml` checks everything.

Seven places do not do what one would expect. They are kept as they are; each has a concrete instance, and the condition under
which it happens or does not.

- A WINDOW_UPDATE that overflows the connection window is cut off, but its full increment is still handed out to the streams:
  the balance is kept if and only if the sum does not overflow or the assignment overflows with it
  (`Windows.ConnUpdateKeeps`, `Windows.OverflowLosesBalance`). In the end more is sent than the window admits
  (`Overdraft.OverflowOverdraws`), never without such an update (`Prioritize.NeverOverdrawn`).
- A stream with a scheduled reset keeps its request, so that capacity can still reach it, and what it holds is lost when it is
  removed (`Withheld.ResetLosesCapacity`). The capacities add up after a removal if and only if the stream held none
  (`Resets.ReleaseKeeps`), and after every run in which no such stream is reached (`Withheld.CarefulConserves`).
- A header literal asks for more input after octets have been taken from the buffer if and only if its name is empty and one of
  its strings is plain (`HpackDecoder.NeedMoreKeepsBuffer`, `HpackDecoder.EmptyNameLosesOctets`).
- A frame that is refused as a stream error leaves no block open, also when its block goes on. Frames out of order pass the reader
  if and only if that happened to a frame before the last (`FramedRead.OnlyInOrder`, `FramedRead.ForgottenBlock`).
- A malformed header is noticed in a block of one frame (`FramedRead.WholeRefused`), but not in a fragment that breaks off inside
  another header (`FramedRead.MalformedSlips`).
- A filter leaves the message with every listed header gone if and only if none of them has an empty value
  (`HeaderMutation.WantedExact`, `HeaderMutation.EmptyListed`).
- The captured range of a removed header is left behind. Filters of a route give the expected message if and only if no header
  with a value that is not empty is removed twice (`HeaderMutation.EditsExact`, `HeaderMutation.SecondRemoval`,
  `HeaderMutation.ListedTwice`).

The `http` crate's names, values and methods are byte strings that have already been validated; the validation and the
Huffman decoding tables are parameters. A transport is a sequence of how many octets it takes at each write. The hash of header
names is any function. A codec is a sequence of whether it is ready each time it is asked, and the peer one of whether it admits
one more stream.

## Model

| member | source | states |
|---|---|---|
| `HpackTable.Table.Index` | beeline/src/http2/src/hpack/table.rs:134-158 | Whatever the hash index went through, the answer and the table afterwards are those of `IndexHeader` on the plain list of entries, which `StaticSettles`, `StaticOnly` and `IndexMeans` determine; the index, the chains and the byte count stay consistent |
| `HpackTable.Table.IndexInTable` | beeline/src/http2/src/hpack/table.rs:160-203 | The Robin Hood search ends and leads to the same reference and the same new table as a search of the list; the bucket array may have grown before |
| `HpackTable.Table.Search` | beeline/src/http2/src/hpack/table.rs:160-203 | The probe loop ends: either at the bucket of the oldest entry of the name, or at the seat the name would take, and then no entry has that name |
| `HpackTable.Table.IndexOccupied` | beeline/src/http2/src/hpack/table.rs:205-264 | A value found along the chain is referred to; otherwise the newest entry of the name is, and the header is added unless it is sensitive |
| `HpackTable.Table.FindValue` | beeline/src/http2/src/hpack/table.rs:205-264 | Following a chain from its oldest slot finds an entry with that value or ends at the newest slot of the name, and then no entry of the whole table has that name and value |
| `HpackTable.Table.IndexVacant` | beeline/src/http2/src/hpack/table.rs:266-338 | A name not in the table: evictions may move its seat back, the entry is put there and the run behind it shifted, and the list gains the header |
| `HpackTable.Table.WalkToSeat` | beeline/src/http2/src/hpack/table.rs:283-301 | After buckets were shifted back by evictions the walk back stops at a bucket where inserting keeps the Robin Hood order |
| `HpackTable.Table.PlaceAndShift` | beeline/src/http2/src/hpack/table.rs:305-330 | Displacing a run by one bucket keeps the Robin Hood order and exactly the entries there were plus the new one |
| `HpackTable.Table.InsertAt` | beeline/src/http2/src/hpack/table.rs:340-348 | A new slot at the front with a bucket of its own keeps slots, chains and buckets consistent |
| `HpackTable.Table.AddValue` | beeline/src/http2/src/hpack/table.rs:237-264 | Making room while the insert is pending, also when that evicts the very entry the new one was to be linked from, gives the list with the header inserted |
| `HpackTable.Table.Resize` | beeline/src/http2/src/hpack/table.rs:350-365 | Resizing is evicting from the back of the list until it fits |
| `HpackTable.Table.Converge` | beeline/src/http2/src/hpack/table.rs:372-381 | Evicts exactly the entries that do not fit, and keeps the index consistent with an insert pending |
| `HpackTable.Table.EvictLast` | beeline/src/http2/src/hpack/table.rs:383-430 | The oldest slot goes; its bucket passes to the next newer entry of its name, to the pending insert, or is closed |
| `HpackTable.Table.RemovePhaseTwo` | beeline/src/http2/src/hpack/table.rs:432-451 | Backward shift deletion keeps the Robin Hood order and every other entry |
| `HpackTable.Table.ReserveOne` | beeline/src/http2/src/hpack/table.rs:453-466 | Afterwards there is a free bucket within the load limit and nothing else changed for the table |
| `HpackTable.Table.Grow` | beeline/src/http2/src/hpack/table.rs:469-501 | Reinserting in order from a cluster start, without stealing buckets, gives a consistent index of twice the size |
| `HpackTable.Table.ReinsertEntryInOrder` | beeline/src/http2/src/hpack/table.rs:503-524 | Each reinsertion extends the consistently rebuilt part by one entry |
| `HpackTable.Table.constructor` | beeline/src/http2/src/hpack/table.rs:75-97 | An empty table is consistent |
| `RobinHood.ShiftBack` | beeline/src/http2/src/hpack/table.rs:432-451 | Moving one entry back into the hole before it keeps the order and moves the hole on |
| `RobinHood.WalkBack` | beeline/src/http2/src/hpack/table.rs:160-203 | In an ordered array the buckets between an entry and its desired bucket are full, and their distances are bounded by its own |
| `RobinHood.Place` | beeline/src/http2/src/hpack/table.rs:305-330 | Writing an entry where its distance fits between its neighbours keeps the order |
| `HpackList.IndexMeans` | beeline/src/http2/src/hpack/table.rs:134-203 | Dynamic entry i is referred to exactly when it has the name and value. Otherwise a sensitive header refers to the newest entry of its name, else to the static one; any other header is added, and refers to the static entry of its name, else to the newest dynamic one, else is spelt out |
| `HpackList.StaticSettles` | beeline/src/http2/src/hpack/table.rs:144-150 | A header that a static entry with a value matches in name and value is answered with the index of that entry, and the table stays |
| `HpackList.StaticOnly` | beeline/src/http2/src/hpack/table.rs:138-157 | Any other header whose value is never indexed or that is too large for the table is answered with the first static entry of its name, and as not indexed if and only if no static entry has its name; the table stays |
| `HpackList.InsertExact` | beeline/src/http2/src/hpack/decoder.rs:525-553 | An entry larger than the table empties it; any other comes first, and behind it stay as many of the newest as fit |
| `HpackList.EvictKeepsNewest` | beeline/src/http2/src/hpack/table.rs:372-430 | Eviction keeps the newest entries, as many as fit and no fewer |
| `HpackList.EvictTwice` | beeline/src/http2/src/hpack/table.rs:350-381 | Evicting to one size and then another is evicting to the smaller |
| `HpackHeader.IndexStatic` | beeline/src/http2/src/hpack/table.rs:677-766 | The static index found names the header, and a full match has its value too |
| `HpackHeader.IndexStaticExact` | beeline/src/http2/src/hpack/table.rs:677-766 | The search finds the entry that matches name and value if there is one, else the first entry of the name, and nothing if and only if no entry has the name |
| `HpackHeader.SkippedNames` | beeline/src/http2/src/hpack/header.rs:189-208 | The names whose values are never indexed, by their places in the static table; so all of them have one |
| `Huffman.EncodeInto` | beeline/src/http2/src/hpack/huffman/mod.rs:43-66 | The 40-bit accumulator, stale high bits included, appends exactly the packed bits of the codes |
| `Huffman.PackedBits` | beeline/src/http2/src/hpack/huffman/mod.rs:43-66 | The octets are the code bits followed by fewer than eight one-bits |
| `Huffman.RoundTrip` | beeline/src/http2/src/hpack/huffman/mod.rs:43-66 | For a prefix-free code, reading bit by bit gives back every string that was encoded |
| `HpackInt.EncodeInt` | beeline/src/http2/src/hpack/encoder.rs:264-289 | The loop writes the prefixed integer of section 5.1 of RFC 7541 |
| `HpackInt.IntSpells` | beeline/src/http2/src/hpack/encoder.rs:264-289 | The first octet holds the flag bits and as much of the number as fits under them, and groups of seven bits, the least significant first, spell the rest |
| `HpackInt.EncodeStr` | beeline/src/http2/src/hpack/encoder.rs:216-261 | Encoding in place and moving the Huffman octets back by the length of their head yields head and octets |
| `HpackInt.StrFlag` | beeline/src/http2/src/hpack/encoder.rs:216-261 | A string literal carries the Huffman flag if and only if it is not empty |
| `HpackInt.ShiftBack` | beeline/src/http2/src/hpack/encoder.rs:245-255 | The backwards copying loop moves the octets without overwriting any not yet copied |
| `HpackCursor.DecodeInt` | beeline/src/http2/src/hpack/decoder.rs:390-447 | The loop over the cursor yields the integer `DecodedInt` gives, errors included, and stands right behind it; the buffer is untouched |
| `HpackCursor.Cursor.Take` | beeline/src/http2/src/hpack/decoder.rs:457-463 | The octets in front of the position are gone with those taken, and the position is 0 |
| `HpackCursor.Cursor.Consume` | beeline/src/http2/src/hpack/decoder.rs:478-485 | The octets in front of the position are gone and no others |
| `HpackInt.IntRoundTrip` | beeline/src/http2/src/hpack/decoder.rs:390-447 | Decoding undoes encoding exactly below 2^prefix - 1 + 2^28 and reports an overflow for every larger value |
| `HpackInt.IntCut` | beeline/src/http2/src/hpack/decoder.rs:390-447 | A proper prefix of an encoded integer needs more input; a longer buffer gives the same integer |
| `HpackDecoder.Decoder.Decode` | beeline/src/http2/src/hpack/decoder.rs:176-250 | Driving the cursor over the buffer, the loop hands out the headers, leaves the octets and the table, and fails as `Run` says |
| `HpackDecoder.Decoder.DecodeOne` | beeline/src/http2/src/hpack/decoder.rs:189-247 | One representation read through the cursor is the one `ReadRep` finds; what stays in the buffer after an error is what is behind the octets `ReadRep` counts as dropped; when more input is needed, the buffer is as it was if and only if no empty name was split off |
| `HpackDecoder.Decoder.DecodeLiteral` | beeline/src/http2/src/hpack/decoder.rs:275-301 | The literal and the octets left, after both strings were located and only then taken, are those of `ReadLiteral` |
| `HpackDecoder.LocateBoth` | beeline/src/http2/src/hpack/decoder.rs:287-290 | Locating name and value leaves buffer and position as they were |
| `HpackDecoder.TryDecodeString` | beeline/src/http2/src/hpack/decoder.rs:303-345 | Locating a string only moves the position, and finds the string `ReadString` finds |
| `HpackDecoder.ConsumeString` | beeline/src/http2/src/hpack/decoder.rs:465-476 | Plain text is read when it is taken, and everything in front of it leaves the buffer; decoded text leaves the buffer alone |
| `HpackDecoder.Decoder.QueueSizeUpdate` | beeline/src/http2/src/hpack/decoder.rs:166-173 | The largest queued limit counts |
| `HpackDecoder.Decoder.InsertEntry` | beeline/src/http2/src/hpack/decoder.rs:525-553 | Reserving and pushing is list insertion, an oversized entry emptying the table |
| `HpackDecoder.Decoder.SetMaxSize` | beeline/src/http2/src/hpack/decoder.rs:538-573 | Consolidating is eviction to the new size |
| `HpackDecoder.RepCut` | beeline/src/http2/src/hpack/decoder.rs:176-353 | Every proper prefix of an accepted representation needs more input and takes nothing from the buffer |
| `HpackDecoder.RunBounded` | beeline/src/http2/src/hpack/decoder.rs:252-268 | Whatever octets arrive, the table stays within its size, and its size is changed only before the first header and to no more than was allowed |
| `HpackDecoder.RunValid` | beeline/src/http2/src/hpack/header.rs:64-110 | Whatever octets arrive, every header handed out and every entry kept is a static entry, or its name and its value were checked |
| `HpackDecoder.CutRun` | beeline/src/http2/src/hpack/decoder.rs:176-250 | Decoding the first m octets of an accepted block and then the rest with what was left over is decoding the block |
| `HpackDecoder.FragmentsAgree` | beeline/src/http2/src/codec/framed_read.rs:313-345 | Every fragmentation of a block accepted whole gives the same headers in the same order and the same table |
| `HpackDecoder.FlagIrrelevant` | beeline/src/http2/src/hpack/decoder.rs:176-250 | A block accepted with size updates forbidden is accepted alike with size updates allowed |
| `HpackDecoder.NeedMoreKeepsBuffer` | beeline/src/http2/src/hpack/header.rs:64-67 | A need for more input leaves the buffer alone if and only if the input is not a literal with an empty name and a plain string |
| `HpackDecoder.EmptyNameLosesOctets` | beeline/src/http2/src/hpack/decoder.rs:275-301 | On 0x40 0x00 0x00 more input is asked for after all three octets were dropped |
| `HpackEncoder.Encoder.Encode` | beeline/src/http2/src/hpack/encoder.rs:62-97 | The block and the table afterwards are those of `BlockBytes` on the list of entries, which decodes to the list (`HpackLockstep.BlockDecodes`) with every header under its mark (`BlockMarked`) |
| `HpackEncoder.Encoder.UpdateMaxSize` | beeline/src/http2/src/hpack/encoder.rs:31-59 | The queued update becomes the one `Queued` gives; the table is untouched |
| `HpackEncoder.Encoder.EncodeSizeUpdates` | beeline/src/http2/src/hpack/encoder.rs:99-113 | Queued sizes are written and applied in order |
| `HpackEncoder.Encoder.EncodeHeader` | beeline/src/http2/src/hpack/encoder.rs:115-154 | Each kind of index is written as its representation, a sensitive value under its mark (`ItemMarked`) |
| `HpackEncoder.Encoder.EncodeHeaderWithoutName` | beeline/src/http2/src/hpack/encoder.rs:156-182 | A header without a name is written with the name the last index stands for, a sensitive value under its mark (`ItemMarked`) |
| `HpackEncoder.ItemMarked` | beeline/src/http2/src/hpack/encoder.rs:195-214 | A header with a sensitive value is written as a full index, or its first octet is in 16..31, and the table does not gain it; any other is never written so, and the table gains it exactly when its first octet is in 64..127; a full index is used only for a header that a table has, and never without a name |
| `HpackEncoder.BlockMarked` | beeline/src/http2/src/hpack/encoder.rs:62-97 | A block is its size updates followed by one piece for each header of the list, in order, every piece under the mark of its header |
| `HpackEncoder.Coalescing` | beeline/src/http2/src/hpack/encoder.rs:31-59 | At most two queued sizes leave the table that applying every size in order leaves, and the smallest and the last size are announced |
| `HpackEncoder.QueueRemembers` | beeline/src/http2/src/hpack/encoder.rs:31-59 | What is queued is the last size, preceded by the smallest if that is smaller |
| `HpackLockstep.NamedDecodes` | beeline/src/http2/src/hpack/encoder.rs:115-154 | The octets of a header are read as that header, and both tables make the same change |
| `HpackLockstep.NamelessDecodes` | beeline/src/http2/src/hpack/encoder.rs:156-182 | A header without a name is read with the name before it |
| `HpackLockstep.IndexAccepted` | beeline/src/http2/src/hpack/decoder.rs:270-273 | A full index is read as the static or the dynamic entry it names, and refused if and only if it is 0 or beyond both tables |
| `HpackLockstep.SizeAccepted` | beeline/src/http2/src/hpack/decoder.rs:252-268 | A size update is accepted if and only if it is within the last limit that was announced |
| `HpackLockstep.BlockDecodes` | beeline/src/http2/src/hpack/encoder.rs:62-97 | A block decodes to the header list, repeated names filled in, and leaves both tables equal |
| `HpackLockstep.Lockstep` | beeline/src/http2/src/hpack/decoder.rs:176-268 | Over every sequence of header lists, size changes and changes of the limit, the decoder hands out the lists sent and the tables never come apart |
| `HpackLockstep.PrefixFreeUndoes` | beeline/src/http2/src/hpack/huffman/mod.rs:20-66 | The premise that Huffman decoding undoes encoding holds for every prefix-free code |
| `Frames.CutWire` | beeline/src/http2/src/codec/mod.rs:40-60 | However many octets have arrived, cutting them by their length fields gives a beginning of the frames written, and all of them at the end |
| `Frames.CutFrame` | beeline/src/http2/src/frame/head.rs:40-75 | A frame head read back is the head written, for 31-bit stream ids and 24-bit lengths |
| `FramedWrite.EncodeBlock` | beeline/src/http2/src/frame/headers.rs:771-818 | The frame written with length 0 and patched is the frame with its length, and END_HEADERS is cleared exactly when part of the block is left |
| `FramedWrite.FramedWrite.Buffer` | beeline/src/http2/src/codec/framed_write.rs:217-301 | The item joins the items to be delivered; only an oversized DATA payload is refused, no frame exceeds the limit, and a header fragment that is to go on fills it; a DATA frame will be handed back with its payload used up |
| `FramedWrite.FramedWrite.BufferData` | beeline/src/http2/src/codec/framed_write.rs:229-260 | Copied or chained, the payload follows its head; a chained payload is never empty while the buffer is not |
| `FramedWrite.FramedWrite.BufferBlock` | beeline/src/http2/src/codec/framed_write.rs:261-272 | The first frame carries what fits, and the rest waits as a CONTINUATION |
| `FramedWrite.FramedWrite.UnsetFrame` | beeline/src/http2/src/codec/framed_write.rs:193-215 | The buffer is cleared only when all of it is written; a CONTINUATION gets shorter each time |
| `FramedWrite.FramedWrite.Flush` | beeline/src/http2/src/codec/framed_write.rs:132-171 | For every pattern of partial writes the loop ends, the octets are a beginning of the encoded frames, and on success the frames put together are the items in order and the last DATA frame is there to be taken back |
| `FramedWrite.ContinueBlock` | beeline/src/http2/src/frame/headers.rs:660-671 | A further CONTINUATION extends the open block by its payload; only the last one closes it |
| `FramedWrite.PeerSees` | beeline/src/http2/src/codec/framed_write.rs:132-171 | At any moment the peer has a beginning of the frames encoded so far |
| `FramedRead.FramedRead.DecodeFrame` | beeline/src/http2/src/codec/framed_read.rs:123-370 | The reader with its open block, its HPACK decoder and the limits its settings give does what `ReadFrame` says: order, number of CONTINUATION frames, malformed lists and lists that are too long included; what that amounts to is stated by `BlockArrives`, `WholeRefused`, `PassedWhole`, `OnlyInOrder` and `ReaderConfined` |
| `HeaderBlock.LoadBlock` | beeline/src/http2/src/frame/headers.rs:982-1075 | The loop stores, leaves out and refuses headers as `Load` says |
| `HeaderBlock.WellFormedStored` | beeline/src/http2/src/frame/headers.rs:982-1075 | A list in order and within the limit is stored as it is, in however many calls |
| `HeaderBlock.ListStored` | beeline/src/http2/src/frame/headers.rs:982-1075 | A list is malformed if and only if a header in it is about the connection, or a pseudo header behind an ordinary one or behind one of its name that was stored; of any other list the longest beginning within the limit is stored, and it is over the limit if and only if that is not all |
| `HeaderBlock.FittingLongest` | beeline/src/http2/src/frame/headers.rs:1000-1062 | That beginning is within the limit, and one header more would not be |
| `HeaderBlock.StaysWithin` | beeline/src/http2/src/frame/headers.rs:982-1075 | Whatever headers come, in however many calls, what is stored stays within the limit |
| `HeaderBlock.SizeBound` | beeline/src/http2/src/frame/headers.rs:1099-1120 | A list that is taken up again counts as large as it is if and only if `:protocol` is not in it, and never larger |
| `FramedRead.MaxContinuations` | beeline/src/http2/src/codec/framed_read.rs:111-119 | The bound is at least five and leaves room for a header list of the allowed size; above five it is at most a quarter more than such a list needs |
| `FramedRead.Load` | beeline/src/http2/src/frame/headers.rs:258-320 | What is loaded is within the payload; `LoadShape`, `LoadExact` and `LoadRefused` say what it is |
| `FramedRead.LoadShape` | beeline/src/http2/src/frame/headers.rs:258-320 | If a frame loads, its payload is the pad length if it is padded, the fixed octets (4 of PUSH_PROMISE, 5 with PRIORITY, else none), the fragment and padding of that length |
| `FramedRead.LoadExact` | beeline/src/http2/src/frame/headers.rs:258-320 | Every payload laid out so loads as exactly these octets and this fragment, unless the frame is on stream 0, makes its stream depend on itself, or is a PUSH_PROMISE frame with nothing behind the promised stream |
| `FramedRead.LoadRefused` | beeline/src/http2/src/frame/headers.rs:532-582 | Each of the four errors comes if and only if the frame is on stream 0, has no room for the octets in front, makes its stream depend on itself, or has more padding than octets left |
| `FramedRead.BlockArrives` | beeline/src/http2/src/codec/framed_read.rs:146-196 | A block accepted whole is read the same however it was cut into frames |
| `FramedRead.RestArrives` | beeline/src/http2/src/codec/framed_read.rs:280-362 | An open block is completed by its CONTINUATION frames, up to the bound |
| `FramedRead.TooManyContinuations` | beeline/src/http2/src/codec/framed_read.rs:297-312 | One unfinished CONTINUATION more than the bound closes the connection with ENHANCE_YOUR_CALM |
| `FramedRead.OnlyInOrder` | beeline/src/http2/src/codec/framed_read.rs:123-370 | For every list of frames that does not end the connection: header blocks are in order, each continued by its own CONTINUATION frames only, if and only if no frame before the last left its block unfinished and made its stream depend on itself or ended with a whole header after a malformed one; and the reader has open what the frames leave open |
| `FramedRead.ForgottenPasses` | beeline/src/http2/src/codec/framed_read.rs:146-196 | After every frame of that kind that opens a block, any frame that is no part of a block passes |
| `FramedRead.ForgottenBlock` | beeline/src/http2/src/codec/framed_read.rs:146-196 | Two such frames: a HEADERS frame that depends on its own stream, and one with the header transfer-encoding, neither of which ends its block; a DATA frame may follow |
| `FramedRead.WholeRefused` | beeline/src/http2/src/frame/headers.rs:1063-1075 | In one frame a block that decodes is refused as a stream error if and only if it has a misplaced header; otherwise the longest beginning within the limit is passed on, with the fixed octets of the frame |
| `FramedRead.PassedWhole` | beeline/src/http2/src/codec/framed_read.rs:313-362 | A list is passed on only by a frame that ends its block and after all its octets were decoded; a block that breaks off inside a header ends the connection |
| `FramedRead.FrameConfined` | beeline/src/http2/src/codec/framed_read.rs:280-330 | A CONTINUATION frame on a list that is over the limit leaves no more octets over than the limit; every frame keeps an open block within its limits |
| `FramedRead.ReaderConfined` | beeline/src/http2/src/codec/framed_read.rs:280-362 | Whatever frames arrive, an open block never has had more CONTINUATION frames than allowed, nor holds more octets than they brought, nor more headers than the list may have |
| `FramedRead.MalformedSlips` | beeline/src/http2/src/frame/headers.rs:1063-1075 | A list that is refused in one frame is passed on without its malformed header when it is cut inside the next one |
| `FramedRead.InOrderIsRead` | beeline/src/http2/src/codec/framed_read.rs:123-370 | Every list of frames in order whose openers load, whose blocks the decoder accepts and which keeps to the bound is read without ending the connection |
| `FramedRead.FullFramesFit` | beeline/src/http2/src/codec/framed_read.rs:111-119 | Full frames with at most the allowed number of octets are never more than the bound admits |
| `HeaderTransfer.BlockShape` | beeline/src/http2/src/codec/framed_read.rs:280-362 | Frames that put together are one block are an opener and CONTINUATION frames of its stream, only the last with END_HEADERS |
| `HeaderTransfer.ListArrives` | beeline/src/http2/src/codec/framed_read.rs:123-370 | Encoded, cut into frames, read and decoded, a header list arrives as it was sent, and the HPACK tables agree |
| `HeaderTransfer.PaddedArrives` | beeline/src/http2/src/codec/framed_read.rs:123-370 | So does one whose first frame is a HEADERS or PUSH_PROMISE frame with any padding, priority or promised stream, and what stands in front of the fragment arrives too |
| `HeaderTransfer.AllArrive` | beeline/src/http2/src/codec/framed_read.rs:123-370 | Over a whole connection with any number of lists, table size changes and other frames between them, every list and every other frame arrives, in order and nothing else, and the HPACK tables are equal throughout |
| `HeaderTransfer.BlocksFit` | beeline/src/http2/src/codec/framed_read.rs:111-119 | Blocks of at most the header list size, cut at the frame size, never exceed the bound on CONTINUATION frames that a reader computes from the two |
| `HeaderTransfer.ConnectionDelivers` | beeline/src/http2/src/codec/framed_write.rs:132-171 | From the items buffered in the writer, over the octets on the wire, to the steps of the reader: what was sent is what arrives |
| `Scheduler.TryAssignKeeps` | beeline/src/http2/src/proto/streams/prioritize.rs:406-505 | Capacity moves from connection to stream within request and window, and a stream is queued again only when it took all that was left |
| `Scheduler.ServeKeeps` | beeline/src/http2/src/proto/streams/prioritize.rs:367-403 | The loop ends with no spare capacity or no stream waiting, and no capacity is lost |
| `Scheduler.ReserveKeeps` | beeline/src/http2/src/proto/streams/prioritize.rs:225-283 | The request becomes what was asked plus what is buffered, and capacity over it goes back |
| `Sending.SendDataKeeps` | beeline/src/http2/src/proto/streams/prioritize.rs:146-222 | The payload joins the end of what the stream was given, with its END_STREAM flag, which ends the stream; capacity is requested, and the stream scheduled if it can send |
| `Sending.SendHeadersKeeps` | beeline/src/http2/src/proto/streams/send.rs:137-195 | The headers are queued, END_STREAM on them ends the stream, and a stream this end initiates waits to be admitted, behind those that wait already |
| `Sending.SendTrailersKeeps` | beeline/src/http2/src/proto/streams/send.rs:329-352 | Trailers are queued behind all the data and end the stream, and the request shrinks to what is buffered |
| `Sending.NewStreamKeeps` | beeline/src/http2/src/proto/streams/stream.rs:146-198 | A new stream has the window given, nothing queued and no capacity |
| `Windows.StreamUpdateKeeps` | beeline/src/http2/src/proto/streams/prioritize.rs:285-311 | The window of the stream grows by the increment, up to the largest window, unless it sends no more; no other window changes, and the invariant is kept |
| `Windows.ConnUpdateKeeps` | beeline/src/http2/src/proto/streams/flow_control.rs:114-137 | The capacities still add up to the window if and only if the sum does not overflow, or the window is full and the assignment overflows too |
| `Windows.OverflowLosesBalance` | beeline/src/http2/src/proto/streams/flow_control.rs:117-123 | With a full window, an update of one octet hands out one octet that the window does not have |
| `Overdraft.OverflowReached` | beeline/src/http2/src/proto/streams/flow_control.rs:114-137 | A run of four steps from the start leads to that state |
| `Overdraft.OverflowOverdraws` | beeline/src/http2/src/proto/streams/flow_control.rs:175-193 | One update of one octet over the limit, and then as much data as the window was: a run that ends with the assertion failing |
| `Overdraft.Drained` | beeline/src/http2/src/proto/streams/prioritize.rs:697-885 | By induction over the frames, a stream sends whatever it holds within its window, and window and capacity go down together |
| `Windows.NarrowKeepsAll` | beeline/src/http2/src/proto/streams/send.rs:520-590 | A smaller initial window takes back what exceeds the windows and hands it on; it fails only if some window would leave its range |
| `Windows.WidenKeeps` | beeline/src/http2/src/proto/streams/send.rs:591-598 | With a larger initial window the window of every stream that still sends grows so |
| `Resets.AbortKeeps` | beeline/src/http2/src/proto/streams/prioritize.rs:662-678 | Clearing a queue drops its frames, a frame in the codec included, and returns all its capacity |
| `Resets.SendResetKeeps` | beeline/src/http2/src/proto/streams/send.rs:230-294 | A reset ends with the stream closed, of an open stream nothing but RST_STREAM queued and all capacity returned; a reset already scheduled is left alone |
| `Resets.ImplicitResetKeeps` | beeline/src/http2/src/proto/streams/send.rs:296-312 | A scheduled reset keeps what is queued, leaves the request as it was, and queues the stream |
| `Turns.ImplicitResetReturns` | beeline/src/http2/src/proto/streams/send.rs:296-312 | Unless the stream waits for more capacity, it keeps just the capacity for what is buffered |
| `Resets.FailKeeps` | beeline/src/http2/src/proto/streams/state.rs:259-302 | A reset from the peer or an error leaves the stream closed with nothing queued or held; its phase stays if and only if it was reset already, or closed and not reset by the peer while queued |
| `Sending.RecvEndKeeps` | beeline/src/http2/src/proto/streams/state.rs:234-252 | When the peer ends its side, a stream that ended on this side is closed |
| `Resets.ReleaseKeeps` | beeline/src/http2/src/proto/streams/counts.rs:242-245 | Removing a closed, flushed stream keeps the invariant, and the capacities still add up if and only if it held none |
| `Popping.PopKeepsAll` | beeline/src/http2/src/proto/streams/prioritize.rs:697-885 | What is taken extends what the stream wrote and fits its capacity; END_STREAM comes with the last byte; while the capacities add up it fits the connection window; nothing taken means no stream could send |
| `Popping.WindowCheckIdle` | beeline/src/http2/src/proto/streams/prioritize.rs:771-777 | The window the peer knows is never below the capacity, so that check never holds a stream back |
| `Popping.ReclaimKeeps` | beeline/src/http2/src/proto/streams/prioritize.rs:594-660 | The frame taken back is the one in flight, and its rest, END_STREAM included, is in front of its queue again without loss or doubling; true is returned if and only if the queue has more data than before |
| `Popping.OpenNextKeeps` | beeline/src/http2/src/proto/streams/prioritize.rs:887-905 | The stream that waited longest is admitted, goes in front of all others that are to send, and may be given capacity |
| `Turns.TakeTurn` | beeline/src/http2/src/proto/streams/prioritize.rs:697-885 | The first stream in the queue that is ready is served, with the frame at its front, of data as much as frame size and capacity admit; those in front of it lose their place, those behind keep theirs, and it goes to the end if it has more; nothing is taken if and only if nobody is ready |
| `Turns.ReadyServed` | beeline/src/http2/src/proto/streams/prioritize.rs:727-790 | The loop passes over exactly the streams that have no frame to send now and no reset due |
| `Turns.ServeInTurn` | beeline/src/http2/src/proto/streams/prioritize.rs:367-403 | Streams waiting for capacity are served from the front: all that had their turn have what they can use, but for the last when nothing is left, which is queued again at the end; nobody else gets anything |
| `Turns.EarlierFirst` | beeline/src/http2/src/proto/streams/prioritize.rs:367-403 | A stream gets capacity only if every stream that was in front of it has all it can use |
| `Fairness.StepOrderly` | beeline/src/http2/src/proto/streams/store.rs:261-330 | In every operation but taking a frame, the streams queued to send keep their places and newcomers stand behind them; only a stream just admitted goes to the front, streams are admitted in the order in which they came, and in the queue for capacity those who stay keep their order |
| `Fairness.ServedSoon` | beeline/src/http2/src/proto/streams/prioritize.rs:697-885 | In every run that stays within the window, a stream that is i-th in the queue and ready at every turn is served within i + 1 turns, and one more for every stream admitted meanwhile |
| `Draining.TakeDrains` | beeline/src/http2/src/proto/streams/prioritize.rs:697-885 | Every frame taken leaves less to send, counted in frames, octets and resets due |
| `Draining.ReclaimDrains` | beeline/src/http2/src/proto/streams/prioritize.rs:594-660 | Taking back the rest of a frame adds nothing to that |
| `Prioritize.StepKeeps` | beeline/src/http2/src/proto/streams/prioritize.rs:146-905 | Every operation keeps the invariant; as long as no more is handed out than the connection window takes in, what nobody holds of the window grows by exactly what the operation loses |
| `Prioritize.RunKeeps` | beeline/src/http2/src/proto/streams/prioritize.rs:146-905 | So does every run, removals of streams included |
| `Prioritize.Safety` | beeline/src/http2/src/proto/streams/prioritize.rs:367-403 | After any run: spare capacity means no open stream could use more, a stream that can send is scheduled, bytes written are a beginning of the bytes given, capacity is within the window, and the capacities and what was lost add up to the connection window |
| `Prioritize.NeverOverdrawn` | beeline/src/http2/src/proto/streams/flow_control.rs:175-193 | In runs that hand out no more than the window takes in, the assertion that the connection window admits the data never fails, whatever was lost |
| `Prioritize.Prioritize.ReleaseStream` | beeline/src/http2/src/proto/streams/counts.rs:242-245 | A stream is removed exactly when it is closed, flushed, in no queue and not referred to, and its capacity is lost |
| `Withheld.CarefulConserves` | beeline/src/http2/src/proto/streams/send.rs:296-312 | After every run in which no window increase, admission or wait for capacity reaches a stream with a scheduled reset that requests more than it has buffered, a closed and flushed stream holds nothing, and without overflows the capacities add up |
| `Withheld.StepTidy` | beeline/src/http2/src/proto/streams/prioritize.rs:285-403 | Every operation of such a run keeps it so |
| `Withheld.ResetLosesCapacity` | beeline/src/http2/src/proto/streams/prioritize.rs:285-311 | A run in which a WINDOW_UPDATE gives five octets to an abandoned stream; they are lost when it is removed |
| `Prioritize.FramesCarryData` | beeline/src/http2/src/proto/streams/prioritize.rs:697-885 | Over any run, the DATA frames handed out for a stream carry a beginning of the data the user gave it, in order, and all of it once END_STREAM went out on them without a reset |
| `Prioritize.RunBytes` | beeline/src/http2/src/proto/streams/prioritize.rs:146-885 | Over any run, what a stream is recorded to have been given and to have written is what was accepted from the user and what the DATA frames carried |
| `Prioritize.Prioritize.TryAssignCapacity` | beeline/src/http2/src/proto/streams/prioritize.rs:406-505 | The branches on the object do what `TryAssign` says |
| `Prioritize.Prioritize.AssignConnectionCapacity` | beeline/src/http2/src/proto/streams/prioritize.rs:367-403 | The loop on the object does what `Refill` says, and ends; in what order is stated by `Turns.ServeInTurn` |
| `Prioritize.Prioritize.ReserveCapacity` | beeline/src/http2/src/proto/streams/prioritize.rs:225-283 | The object follows `Reserve` |
| `Prioritize.Prioritize.SendData` | beeline/src/http2/src/proto/streams/prioritize.rs:146-222 | Data is refused if and only if it is too large or the stream is not open for sending, and then nothing changes; otherwise the object follows `SendData` and keeps the invariant |
| `Prioritize.Prioritize.RecvConnectionWindowUpdate` | beeline/src/http2/src/proto/streams/prioritize.rs:313-324 | The object follows `ConnUpdate` and keeps the invariant |
| `Prioritize.Prioritize.RecvStreamWindowUpdate` | beeline/src/http2/src/proto/streams/prioritize.rs:285-311 | The object follows `StreamUpdate` and keeps the invariant |
| `Prioritize.Prioritize.ClearQueue` | beeline/src/http2/src/proto/streams/prioritize.rs:662-678 | The loop empties the queue and marks a frame in flight as dropped |
| `Prioritize.Prioritize.SendReset` | beeline/src/http2/src/proto/streams/send.rs:230-294 | Clearing, queueing RST_STREAM and reclaiming follow `SendReset` |
| `Prioritize.Prioritize.PopFrame` | beeline/src/http2/src/proto/streams/prioritize.rs:697-885 | The loop follows `Pop`, whose choice and order is stated by `Turns.TakeTurn`; conservation is kept and implies that the data fits the window; nothing taken means no admitted stream could send |
| `Prioritize.Prioritize.ReclaimFrame` | beeline/src/http2/src/proto/streams/prioritize.rs:594-660 | The object follows `Reclaim` and keeps the invariant; true is returned if and only if data went back to the queue |
| `Prioritize.Prioritize.GiveBackIfAny` | beeline/src/http2/src/proto/streams/prioritize.rs:572-592 | Afterwards the codec holds nothing, and nothing was added to what is to be sent |
| `Prioritize.Prioritize.OpenPending` | beeline/src/http2/src/proto/streams/prioritize.rs:533-536 | The object follows `OpenNext` and keeps the invariant |
| `Prioritize.Prioritize.PollComplete` | beeline/src/http2/src/proto/streams/prioritize.rs:507-567 | The loop is a run of the scheduler that hands out the frames returned. When it is done, no admitted stream has a frame that could be sent; it stops before only where the codec is not ready; it hands out no more frames than there is to send, and if the codec is ready two times more than that it is done |
| `Prioritize.Prioritize.LowerInitialWindow` | beeline/src/http2/src/proto/streams/send.rs:520-590 | The loop over the streams follows `Narrow` |
| `SlabDeque.Buffer.PushBack` | beeline/src/http2/src/proto/streams/buffer.rs:47-62 | The deque gains the value at its end; every other deque is as before |
| `SlabDeque.Buffer.PushFront` | beeline/src/http2/src/proto/streams/buffer.rs:64-79 | The deque gains the value at its front; every other deque is as before |
| `SlabDeque.Buffer.PopFront` | beeline/src/http2/src/proto/streams/buffer.rs:81-98 | The first value comes out, the assertion and the unwrap never fail; every other deque is as before |
| `SlabDeque.EmptyIffAllEmpty` | beeline/src/http2/src/proto/streams/buffer.rs:33-35 | The slab is empty exactly when every deque is |
| `PingPong.EveryInterleaving` | beeline/src/http2/src/proto/ping_pong.rs:162-199 | From the start, over every interleaving of load, store and the compare-and-exchanges, accepted, written, answered and reported pings differ only by the one the word names, closed stays closed, and a ping is accepted if and only if none is under way |
| `PingPong.NextKeeps` | beeline/src/http2/src/proto/ping_pong.rs:211-288 | The plain store only ever replaces a pending ping; no pong is counted before its ping is written, none reported before it came |
| `PingPong.Completes` | beeline/src/http2/src/proto/ping_pong.rs:181-199 | An accepted ping can be driven to its report |
| `Base64Url.EncodeInto` | beeline/src/bpf/base.bpf.c:22-40 | Writes exactly the encoding and nothing beyond it, or refuses a short buffer untouched |
| `Base64Url.DecodeInto` | beeline/src/bpf/base.bpf.c:42-67 | Accepts exactly the decodable strings that fit, and writes exactly their octets |
| `Base64Url.RoundTrip` | beeline/src/bpf/base.bpf.c:22-67 | Every encoding decodes to what was encoded |
| `Base64Url.RoundTripBack` | beeline/src/bpf/base.bpf.c:42-67 | Every accepted string is the encoding of what it decodes to |
| `Base64Url.SameBits` | beeline/src/bpf/base.bpf.c:22-40 | The digits, six bits each, spell the bits of the octets in order, the highest first, and zeros behind them |
| `ConnPool.RequestKeeps` | beeline/src/bpf/base.bpf.c:1192-1298 | A request is dropped if and only if its address has no queue, and redirected if and only if a connection is idle there and can be reached: to the one that waited longest, which no other request uses, and the route back leads to its client; every other request makes a U-turn, and its client is noted with the address |
| `ConnPool.ResponseKeeps` | beeline/src/bpf/base.bpf.c:641-654 | The response goes to the client whose request is under way, is dropped if and only if the route is gone, and makes a U-turn if and only if the client cannot be reached; the connection is idle again, behind all others that are, and only the oldest goes if the queue is full |
| `ConnPool.OpenKeeps` | beeline/src/proxy.rs:803-895 | A connection opened for a waiting client serves that client: its response goes there, and the client waits no more |
| `ConnPool.UTurnServed` | beeline/src/bpf/base.bpf.c:1282-1298 | In any state, a request that makes a U-turn can be followed by the opening of any fresh connection to its address and a response, which goes to its client; if no other is idle there, the next request takes this connection |
| `ConnPool.ClientServed` | beeline/src/proxy.rs:803-895 | From an empty pool every client is so served at every address that has a queue |
| `ConnPool.Safety` | beeline/src/bpf/base.bpf.c:1192-1298 | After any run from an empty pool no connection is queued twice or while a request is under way on it; its route is missing if and only if it was evicted since it was last set, and otherwise names the client of that request, which gets the response |
| `ConnPool.SafetyWithoutEviction` | beeline/src/bpf/base.bpf.c:1192-1298 | In runs without eviction the route of every connection with a request under way names the client of that request |
| `ConnPool.RouteMissing` | beeline/src/bpf/base.bpf.c:1192-1298 | Over any run from any state of the pool, routes go missing by eviction only and come back when they are set |
| `ConnPool.Maps.ProcessRequest` | beeline/src/bpf/base.bpf.c:1192-1298 | Pop, route and redirection follow `Request`, with the verdict and the wait list spelt out: dropped without a queue, redirected with an idle connection that is reached, else noted |
| `ConnPool.Maps.ProcessResponse` | beeline/src/bpf/base.bpf.c:1192-1298 | Lookup and reinsertion follow `Response`, and lead to the client under way; a response that does not reach it is noted |
| `ConnPool.Maps.FibInsertUpstream` | beeline/src/bpf/base.bpf.c:565-583 | The connection joins its queue, which drops its oldest entry when full |
| `ConnPool.Maps.FibQueryUpstream` | beeline/src/bpf/base.bpf.c:585-617 | The queue is popped, or a U-turn or a drop follows |
| `HeaderMutation.MutateMsg` | beeline/src/bpf/base.bpf.c:488-554 | Growing or shrinking the message and overwriting is replacing the octets in range, and fails if and only if the range is not in the message or there is nothing to pull |
| `HeaderMutation.CutLine` | common/src/compiler.rs:409-431 | Cutting out the line around a captured value is removing the header from the serialised list |
| `HeaderMutation.PutLine` | common/src/compiler.rs:433-463 | A line put before the final CRLF is a header at the end of the list |
| `HeaderMutation.RangeMoves` | common/src/compiler.rs:391-405 | The comparison with the start of the removed line moves exactly the ranges behind it, by its length |
| `HeaderMutation.RangeDelimits` | common/src/compiler.rs:391-405 | A corrected range delimits the value it delimited |
| `HeaderMutation.Message.Remove` | common/src/compiler.rs:409-431 | The octets cut out, the end of the header block and the ranges, with their 16-bit wrap-around, are those of `Apply`, for any key, removed before or not |
| `HeaderMutation.Message.Add` | common/src/compiler.rs:433-463 | The octets put in and the end of the header block are those of `Apply`; no range is moved |
| `HeaderMutation.Message.Mutate` | common/src/compiler.rs:385-475 | The filter follows `Edited`. From a message with its captured ranges in place it removes the lines that have a value, and adds the new ones, if and only if it removes none twice nor one that an earlier filter removed; then it is the message wanted if and only if no listed header is empty, and every range that is not in a removed line is in place |
| `HeaderMutation.EditsExact` | common/src/compiler.rs:547-553 | The same over the edits of any number of filters of a route |
| `HeaderMutation.EditsGood` | common/src/compiler.rs:385-475 | Edits that remove no line twice give the serialisation of the filtered and extended header list, and leave the ranges of captured headers and the end of the header block right |
| `HeaderMutation.WantedExact` | common/src/compiler.rs:409-416 | Then the message is the one with every listed header gone if and only if none of them was captured with an empty value |
| `HeaderMutation.EditsFollow` | common/src/compiler.rs:391-405 | Ranges in the start line and parts of values delimit, after any edits that remove no line twice, the octets they delimited before, unless their line is removed |
| `HeaderMutation.MarkDelimits` | common/src/compiler.rs:213-217 | Such a range delimits its octets in the message |
| `HeaderMutation.EditedLength` | common/src/compiler.rs:385-475 | Whatever is removed or added, the message changes by exactly the lengths concerned |
| `HeaderMutation.EmptyListed` | common/src/compiler.rs:409-416 | A filter that lists a header with an empty value, run on a message: the line stays |
| `HeaderMutation.SecondRemoval` | common/src/compiler.rs:391-428 | A second removal of a header cuts as many octets again in front of where its line was, or, if there are no more than that, drops the message |
| `HeaderMutation.ListedTwice` | common/src/compiler.rs:385-475 | A filter that lists a header twice, run on a message: six octets of the start line are lost, or the message is dropped if it has no more |

## Left out

- The Huffman decoding tables: decoding is a parameter, and a bit-by-bit decoder stands for it where a round trip is claimed.
- HpackTable.Table.Index: the position counter wraps at 2^64 as coded, but tables are assumed to hold fewer than 2^59 entries, which their size in octets enforces.
- HpackEncoder.Encoder.Encode: strings longer than a machine word can count are excluded.
- HpackLockstep.Lockstep: assumes what the two ends negotiate, that is sizes within the decoder's limit and integers within its octet limit.
- FramedWrite.FramedWrite.Buffer: the capacity of the write buffer is not modelled; the source refuses frames when it is short.
- FramedWrite.FramedWrite.Flush: flushing the transport itself after the last octet is not modelled.
- FramedRead.FramedRead.DecodeFrame: other kinds of frames than HEADERS, PUSH_PROMISE and CONTINUATION are passed through unparsed.
- Popping.Pop: PUSH_PROMISE frames and the counting of concurrent streams are not modelled; the peer's admission of a stream is an event.
- Prioritize.Safety: queues are sequences instead of links through the streams, a stream is named by its position, and a removed stream leaves a record behind that holds and requests nothing.
- Prioritize.Prioritize.PollComplete: errors of the transport and wake-ups are not modelled.
- Windows.Narrow: a window that would leave the range of its type ends the connection, and the half-changed state is not described further.
- Sending.SendHeaders: content checks of headers and priority frames are not modelled.
- PingPong.EveryInterleaving: wakers and the shutdown ping are not modelled.
- Base64Url.EncodeInto: lengths are not bounded by 32 bits.
- ConnPool.Safety: the HTTP/2 and TLS paths and races between CPUs are not modelled.
- HeaderMutation.MutateMsg: the difference of the lengths has to fit a signed 16-bit number; messages of 32768 octets and more are not covered, nor the mask on the number of octets pulled and the HTTP/2 length field.
- HeaderMutation.EditsExact: the fields of `http_match`, which is not part of this model, are taken to be 16 bits wide, as `_mutate_msg` reads them.
- HeaderTransfer.AllArrive: the decoder's limit on the table size stays the same over the connection; changes of it are covered by HpackLockstep.Lockstep.
- HeaderMutation.Message.Mutate: lines are taken to be spelt "name: value" with CRLF, as the emitted code assumes.
- Receiving data: receive windows, content length and the client and server handles would only add easy members.
- Small frames with a fixed layout, settings negotiation, statistics, routing and policy code generation, TLS offload and the kernel side.
