# A verified model of the HTTP client core

The C core of this HTTP client speaks HTTP/2 and HTTP/1.1 to servers on behalf of several language bindings. This
project models its protocol engine in Dafny and proves what the engine is for: header compression that never loses
synchronisation, frames and bodies that do not depend on how the network cuts the octets, flow-control credit that is
conserved to the octet, callback sequences that are always legal, HTTP/1.1 bodies that end exactly where they should,
connections that are shared rather than duplicated, and headers that come out in the order a caller asked for.

Code that changes state step by step is modelled imperatively: methods with loop invariants, arrays that are shifted,
compacted or grown, and classes with the source's fields. Each such method is proved against a specification function,
and the theorems are lemmas about those functions. Long-lived concurrent behaviour is a state machine over values: of a
connection, whose reader takes octets in, handles one frame at a time and flushes, while requests draw identifiers,
enter their streams, give them up and remove them between any two of these; and of requests competing for a connection,
step by step through the lock table and the pool. Its theorems quantify over all runs.

| files | what they model |
|---|---|
| `Octets`, `HuffmanTable`, `Huffman`, `HuffmanDomain`, `HuffmanTree` | bits and octets; the code table as shipped; encoding through the 32-bit accumulator; which octets the table carries; the 513-node decoding tree |
| `HpackPrimitives`, `DynamicTable`, `StaticTable`, `HeaderBlock`, `HpackSync` | integers and strings; the table with eviction, shifting and growth; the block decoder; synchronisation with any encoder of RFC 7541 |
| `RequestHeaders`, `LongName` | the request-side encoder, what a decoder makes of it, and a name that breaks it |
| `Frames`, `HeaderFraming` | the accumulation buffer and frame parser; HEADERS with CONTINUATION, padding and priority |
| `FlowControl`, `StreamLedger`, `ReaderSession` | the connection window, the per-stream credit ledger, the write queue |
| `ResponseSink` | the funnel both transports feed, with its callbacks |
| `ReaderDispatch` | one frame's handling on the objects it updates: stream, shared table, ledger and queue |
| `Connection`, `SinkTraces`, `ReaderWrites`, `Demultiplexing`, `StreamCredit`, `LedgerLeak`, `ConnectionSync`, `SyncLoss`, `StreamEnds`, `WindowGrowth` | one HTTP/2 connection, its reader and its requests interleaved, and theorems over its runs |
| `Http11Text`, `Http11Reader`, `Http11Body`, `Http11Response`, `Http11Exchange`, `Http11Message` | the buffered reader, body framings, a whole exchange, and well-formed messages |
| `EstablishLocks`, `SessionPool`, `SessionSharing`, `SessionReuse`, `FallbackRace`, `SessionRides` | the per-target lock table, the pool, interleaved requests over both, what happens beyond the table's size, and whose connection a request gets |
| `StreamRegistry` | stream identifiers and slots of a session |
| `HeaderOrder` | reordering by X-HeaderOrderKey |
| `TextLaws`, `WireExamples` | what the text routines mean, octet by octet; the worked examples of RFC 7541 |

`dafny verify dfyconfig.toml` checks everything.

## What turned out to hold only under a condition

Each of these is proved with the condition under which the code does what is meant; the code is modelled as it is.

- Five continuation octets are read at most, so an integer comes back exactly when it is below 2^n - 1 + 2^35
  (`HpackPrimitives.IntegerRoundTrip`).
- The encoder's 32-bit accumulator drops what a shift pushes out: what is written is the Huffman form exactly when no
  step pushes out a one-bit (`Huffman.EncodedIsFormIff`; "A" and a line feed lose one, `HuffmanDomain.LossInstance`,
  while "0" and a line feed overflow and lose none). Text over HTAB, SP and VCHAR never does (`Huffman.TextLosesNoBit`).
- The code table departs from Appendix B of RFC 7541 in some rows, so that the codes of eighteen octets (192, 193,
  200-205, 210-213, 218, 219, 238, 240, 242 and 243) run into shorter ones: decoding undoes encoding exactly on the
  strings without them (`HuffmanDomain.RoundTripIffNoneMisread`; 192 is read as 246 and 57,
  `HuffmanDomain.MisreadInstance`).
- The request encoder writes the length of an in-place name as a single octet: an HPACK integer exactly for lengths
  up to 254 other than 127 (`RequestHeaders.WrittenIsForm`; a name of Huffman length 127 leaves a decoder without a
  field, `LongName.LongNameBreaks`).
- A header value comes back from a decoder exactly when the accumulator loses none of its bits and it has neither NUL
  nor one of the eighteen octets (`HpackPrimitives.CodedComesBackIff`); a whole header exactly when its strings do and the
  length of its in-place name fits (`RequestHeaders.HeaderComesBackIff`).
- A header block split over CONTINUATION frames is dropped, table updates included, when its stream is already in
  error (`HeaderFraming.FramingIsTransparent`, with the instance `HeaderFraming.SplitBlockLostOnFailedStream`).
- A consumer's verdict to stop ends a stream's body: it is all of the stream's own DATA exactly when none arrived after
  such a verdict (`Demultiplexing.BodyIsWholeIff`).
- Padding of DATA frames is handed on as body: the body is the one meant exactly when no frame is padded
  (`Demultiplexing.BodyIsMeantIffUnpadded`).
- A registered stream keeps the first 64 headers of a block, so all of them exactly when there are no more
  (`HpackSync.AllHeadersIff`), and decoding stops behind the next one. Nothing of a block split on a stream that is
  unknown, removed in between or in error is decoded. The 66th header and a split block that nobody collects are
  instances of an insertion that is lost (`SyncLoss.SixtySixFields`, `SyncLoss.SplitBlockLostOnUnknownStream`,
  `SyncLoss.SplitBlockLostOnRemovedStream`); short of these every block brings its stream exactly its headers, over
  every run and for every table size the peer's encoder keeps to (`ConnectionSync.HeadersAlwaysArrive`).
- A connection's table starts at the size its profile advertises, an encoder may keep to less: its entries then stand at
  the front of the connection's table, which may hold more (`SyncLoss.SmallerEncoder`: 4096 octets against 65536). The
  two tables are the same at every step exactly when they start with the same size and what is not decoded of a block
  would have left the table as it is (`ConnectionSync.AlwaysEqualFromStartIff`); a size update makes them the same
  exactly when no further entry of the connection's fits the new size (`HpackSync.ResizeAlignsIff`).
- A live stream has been granted, or is held, exactly its own DATA if and only if the stream ledger had room each time
  it consumed (`StreamCredit.OwedSinceEntry`). Entries of streams removed while the ledger held them stay for good;
  while they and the registered streams fit the ledger nothing is lost (`StreamCredit.RoomWhileFewLeaks`), and a run of
  256 such removals loses the next stream's credit (`LedgerLeak.CreditIsLost`).
- An HTTP/1.1 exchange frees its reader, and with it whatever was read behind the response: the connection is left
  exactly at the message's end if and only if some read of the transport ended there, and counts as usable either way
  (`Http11Exchange.MessageDelivered`; `Http11Exchange.ExchangeThatLosesAnOctet` is an instance).
- A body cut short of its content-length or within its chunks is an error exactly when the connection failed or timed
  out; a plain close is taken for a normal end (`Http11Exchange.HandleHttp11Request`).
- Until-close framing reads past the reader's buffer: the body is whole exactly when nothing of it was buffered along
  with the head, that is when some read of the transport ended right behind it (`Http11Exchange.UntilCloseWholeIff`).
- A request falls back on the shared establish lock exactly when MAX_SESSIONS other targets are in flight
  (`SessionReuse.FallbackIff`), and that lock does not exclude a thread that holds the target's own: no run lets two
  threads inside for one request, and none gives a target two reusable HTTP/2 connections, if and only if there are at
  most MAX_SESSIONS threads (`FallbackRace.ExclusionIff`, `FallbackRace.SharingIff`).

## Model

| member | source | states |
|---|---|---|
| HuffmanTable.RowsCanonical | src/CompressHandler.c:19-64 | every code that can be read lies at or above the canonical start of its length and fits it: the property tree building and padding rely on |
| HuffmanDomain.CodesAscend | src/CompressHandler.c:19-64 | codes of one length ascend with their symbols, as in Appendix B of RFC 7541 |
| Huffman.HuffmanEncode | src/CompressHandler.c:80-113 | the octets written are those the 32-bit accumulator lets through, as many as the total code length rounded up; they are the codes in order padded with ones if and only if no step pushes a one-bit out; nothing behind is touched |
| Huffman.EncodedIsFormIff | src/CompressHandler.c:88-101 | a lost one-bit always shows: the output is the Huffman form if and only if none is lost |
| Huffman.TextLosesNoBit | src/CompressHandler.c:80-113 | for HTAB, SP and VCHAR the 32-bit accumulator never loses a bit |
| Huffman.TextPathIsExact | src/CompressHandler.c:191-213 | on the path of a text code the decoder meets no other symbol, and at its end exactly its own |
| Huffman.HuffmanRoundTripIff | src/CompressHandler.c:191-213 | any Huffman form of a string decodes to it if and only if each of its octets' codes meets no other symbol on its path and its own at the end |
| Huffman.EncodedRoundTripIff | src/CompressHandler.c:80-213 | what the encoder writes for a string decodes to it if and only if no step pushes a one-bit out and each of its octets is decodable |
| HuffmanDomain.DecodableIffNotMisread | src/CompressHandler.c:19-64 | with the shipped rows these are all octets but eighteen |
| HuffmanDomain.RoundTripIffNoneMisread | src/CompressHandler.c:19-213 | with the shipped rows, decoding any Huffman form of a string returns the string if and only if it has none of the eighteen octets |
| HuffmanDomain.EncodedComesBackIff | src/CompressHandler.c:19-213 | with the shipped rows: if and only if no one-bit is pushed out and none of the eighteen octets is in it |
| HuffmanDomain.MisreadInstance | src/CompressHandler.c:56-63 | an instance: octet 192 is written as its form and read as 246 and 57 |
| HuffmanDomain.LossInstance | src/CompressHandler.c:88-101 | an instance: 65 and 10 are written as 07 ff ff ff cf, which is not their form |
| HuffmanDomain.OverflowWithoutLoss | src/CompressHandler.c:88-101 | an instance: 48 and 10 need 35 bits of the accumulator and are written right |
| Huffman.PaddingYieldsNothing | src/CompressHandler.c:191-213 | up to seven one-bits of padding never complete a symbol |
| Huffman.HuffmanRoundTrip | src/CompressHandler.c:80-213 | decoding any Huffman form of any text returns the text |
| HuffmanTree.DistinctPathsFitPool | src/CompressHandler.c:122-152 | the distinct prefixes of all codes number at most 513, so the node pool suffices |
| HuffmanTree.Insert | src/CompressHandler.c:122-152 | inserting one code turns the tree of the first k codes into the tree of k + 1, and always finds room |
| HuffmanTree.BuildHuffmanTree | src/CompressHandler.c:122-189 | the finished tree has exactly the prefixes of the codes as nodes, each end labelled with its symbol |
| HuffmanTree.HuffmanDecode | src/CompressHandler.c:191-213 | walking the tree bit by bit yields what decoding by the table yields, for every input |
| HpackPrimitives.EncodeInteger | src/CompressHandler.c:247-265 | the octets written are the prefix form of section 5.1 of RFC 7541 |
| HpackPrimitives.ReadInteger | src/CompressHandler.c:275-298 | value and advance are those of the integer at the cursor, never beyond the buffer |
| HpackPrimitives.ContinuationBound | src/CompressHandler.c:275-298 | no input decodes to more than five continuation octets can say |
| HpackPrimitives.IntegerRoundTrip | src/CompressHandler.c:247-298 | an encoded integer is read back over exactly its own octets if and only if it is below 2^n - 1 + 2^35 |
| HpackPrimitives.ReadString | src/CompressHandler.c:300-328 | the string at the cursor is the raw or Huffman-decoded octets its length delimits, or an error when they are not all there |
| HpackPrimitives.StringRoundTrip | src/CompressHandler.c:300-328 | any raw or Huffman form of a text is read back as that text, over exactly its octets |
| HpackPrimitives.CodedComesBackIff | src/CompressHandler.c:226-328 | a string as the encoder writes it is read back if and only if no bit of it is lost, the table carries its octets and it has no NUL |
| DynamicTable.EvictedIsLongestPrefix | src/Http2ResponseHandler.c:941-949 | eviction keeps the longest prefix of the table that fits |
| DynamicTable.EvictedFollows | src/Http2ResponseHandler.c:941-949 | with less room, what stays of a prefix of the table is a prefix of what stays of the table |
| DynamicTable.EvictedSameIff | src/Http2ResponseHandler.c:941-949 | the same room leaves the same of both if and only if they are equal or the next entry behind the prefix does not fit |
| DynamicTable.InsertedFits | src/Http2ResponseHandler.c:951-993 | after an insertion the table fits its maximum and is the new entry before the longest old prefix that fits beside it |
| DynamicTable.RunStaysWithinMaximum | src/Http2ResponseHandler.c:927-993 | over any sequence of insertions and size updates the entry sizes never exceed the maximum |
| DynamicTable.HpackContext.UpdateMaxSize | src/Http2ResponseHandler.c:692-703 | a size update evicts at once down to the new maximum |
| DynamicTable.HpackContext.EvictFromTail | src/Http2ResponseHandler.c:941-949 | evicting drops exactly the oldest entry |
| DynamicTable.HpackContext.Add | src/Http2ResponseHandler.c:951-993 | evicting, growing and shifting in place is inserting by section 4.4 of RFC 7541 |
| HeaderBlock.LookupEntry | src/Http2ResponseHandler.c:904-925 | an index names a static entry, then a dynamic one, newest first, and otherwise nothing |
| HeaderBlock.ReadFieldAt | src/Http2ResponseHandler.c:676-880 | one representation at the cursor: its header, its effect on the table, its length, or failure |
| HeaderBlock.DecodeHeadersFrame | src/Http2ResponseHandler.c:671-902 | the in-place decode loop over a block equals decoding its representations one by one, stopping at 64 fields |
| HpackSync.RepRoundTrip | src/Http2ResponseHandler.c:676-880 | every legal representation of an encoder is read back with its header and its effect on the table, whatever follows |
| HpackSync.TableStaysValid | src/Http2ResponseHandler.c:692-703 | no representation takes the table out of its bounds |
| HpackSync.BlockRoundTrip | src/Http2ResponseHandler.c:671-902 | a block of any mixture of representations decodes to the sent headers and leaves the encoder's table, kept or decoded into the scratch stream |
| HpackSync.BlockFollows | src/Http2ResponseHandler.c:671-902 | whatever smaller table the encoder keeps: a block of it is valid on the decoder's table, stands for the same headers there, and leaves the encoder's entries at the front of the decoder's |
| HpackSync.ResizeAlignsIff | src/Http2ResponseHandler.c:692-703 | a size update makes the two tables equal if and only if no further entry of the decoder's fits the new size |
| HpackSync.ConnectionStaysInSync | src/Http2ResponseHandler.c:475-485 | over a sequence of blocks, blocks for unknown streams included, and for an encoder with any smaller table: every block gives the headers sent and the encoder's entries stay at the front of the decoder's table if and only if no block on a registered stream has more than 64 headers; from equal tables, equality of the tables included |
| HpackSync.AllHeadersIff | src/Http2ResponseHandler.c:884-892 | a registered stream gets all headers of a block if and only if there are at most 64 |
| HpackSync.BlockStopsAtLimit | src/Http2ResponseHandler.c:884-892 | of any block a registered stream gets the first 64 headers, and the table everything up to and including the next |
| HpackSync.TableFollowsIff | src/Http2ResponseHandler.c:884-892 | the table follows a block on a registered stream if and only if the rest behind that point leaves the encoder's table as it is |
| HpackSync.ReachedAllIff | src/Http2ResponseHandler.c:884-892 | nothing is left behind it if and only if there are at most 64 headers, or 65 and the last ends the block |
| ConnectionSync.DispatchFollowsIff | src/Http2ResponseHandler.c:465-544 | from equal tables, sizes included, handling a frame leaves equal tables if and only if what is not decoded of the block it ends leaves the encoder's table as it is: the part beyond a registered stream's limit, or all of a split block its stream is not collecting |
| ConnectionSync.AlwaysEqualIff | src/Http2ResponseHandler.c:465-544 | from equal tables, sizes included, over every run whose frames carry an encoder's blocks, whole or split, on any streams, with streams coming, going and failing between frames: the tables are equal at every step if and only if no undecoded part of a block changes the encoder's table |
| ConnectionSync.AlwaysEqualFromStartIff | src/Session.c:754-774 | on a new connection: if and only if, moreover, the encoder starts with the connection's table size, the advertised one or 4096 |
| ConnectionSync.TablesNeverDiffer | src/Http2ResponseHandler.c:465-544 | from equal tables, sizes included, over every run in which split blocks are collected by their streams and blocks on registered streams have at most 64 headers, the connection's table is the encoder's at every step |
| ConnectionSync.BlockReachesStream | src/Http2ResponseHandler.c:596-669 | for an encoder with any smaller table: once the last frame of a block is handled, the registered stream it came on holds exactly the block's first 64 headers |
| ConnectionSync.BlockIsTold | src/Http2ResponseHandler.c:530-537 | then its caller, when not told before, is told exactly these 64 headers before anything else |
| ConnectionSync.HeadersAlwaysArrive | src/Http2ResponseHandler.c:465-544 | over every run, for an encoder whose entries stand at the front of the connection's table: while split blocks are collected by their streams and blocks on registered streams have at most 64 headers, every block brings its registered stream exactly its headers and the encoder's entries stay at the front |
| ConnectionSync.HeadersArriveFromStart | src/Session.c:754-774 | so on every new connection, from its first octet on, for an encoder that starts with any table size up to the advertised one, or up to 4096 where none is |
| SyncLoss.ManyFieldsIff | src/Http2ResponseHandler.c:884-892 | a run from the start, for any n: the insertion behind n other headers reaches the connection's table if and only if n is at most 64 |
| SyncLoss.SixtySixFields | src/Http2ResponseHandler.c:884-892 | an instance: after a block of 66 headers the encoder's table has an entry the connection's has not |
| SyncLoss.SplitBlockLostOnUnknownStream | src/Http2ResponseHandler.c:491-497 | an instance: an insertion split over two frames on an unknown stream never reaches the table |
| SyncLoss.SplitBlockLostOnRemovedStream | src/Http2ResponseHandler.c:491-497 | an instance: nor does one whose stream is removed between its two frames |
| SyncLoss.SmallerEncoder | src/Session.c:769-771 | an instance: a profile that advertises 65536 and an encoder that keeps to 4096; all headers of a run arrive, and the encoder ends with one entry and the connection with two |
| RequestHeaders.RowsMatchStaticTable | src/Http2RequestHandler.c:82-130 | every index the encoder may send for a name is that name's entry in Appendix A of RFC 7541 |
| RequestHeaders.WriteHuffmanValue | src/CompressHandler.c:226-245 | a value is written as a length and its Huffman form |
| RequestHeaders.WrittenIsForm | src/Http2RequestHandler.c:572-607 | what is written for a header is an HPACK representation if and only if its in-place name has a Huffman length of at most 254 other than 127 |
| RequestHeaders.NameDelimitedIff | src/Http2RequestHandler.c:584-596 | a decoder takes an in-place name to end where it ends if and only if its Huffman length is at most 254 and not 127 |
| LongName.LongNameBreaks | src/Http2RequestHandler.c:584-596 | an instance: a name of 202 letters, of Huffman length 127, is not written as its representation, and a decoder finds no field there |
| RequestHeaders.WrittenIsBlock | src/Http2RequestHandler.c:436-449 | when every name length fits, what the encode loop writes is the block of its representations |
| RequestHeaders.EncodePseudoHeader | src/Http2RequestHandler.c:499-565 | each known pseudo-header becomes a representation of it; an unknown one is an error |
| RequestHeaders.KnownPseudoIff | src/Http2RequestHandler.c:499-565 | the pseudo-headers the encoder knows are the four of a request |
| RequestHeaders.EncodeHeader | src/Http2RequestHandler.c:572-607 | a regular header becomes a literal with an indexed or in-place name; connection headers vanish |
| RequestHeaders.FirstOctets | src/Http2RequestHandler.c:499-607 | the octet a header starts with: which names are indexed, which headers enter the peer's table and which do not |
| RequestHeaders.StaticNameIsFound | src/Http2RequestHandler.c:82-150 | every name from the fifteenth static entry on is sent by an index, in any letter case |
| RequestHeaders.BuildHeaderBlock | src/Http2RequestHandler.c:436-449 | the encode loop fails exactly on an unknown pseudo-header; its octets are those of the header list in order, and a decoder with any table makes of them exactly the list as received, for encodable text |
| RequestHeaders.RequestRoundTrip | src/Http2RequestHandler.c:436-449 | decoding what the encoder emits returns the header list in order, for all strings that come back by CodedComesBackIff |
| RequestHeaders.HeaderComesBackIff | src/Http2RequestHandler.c:499-607 | what is written for a header is delimited where it ends and read back as received, on any table and whatever follows, if and only if the length of its in-place name fits and its strings come back |
| RequestHeaders.TextIsWireText | src/Http2RequestHandler.c:572-607 | text over HTAB, SP and VCHAR is such a string |
| RequestHeaders.ReceivedIsSent | src/Http2RequestHandler.c:499-607 | what comes back differs from what was sent in letter case only, and in a value only for the methods GET and POST |
| Frames.ParseAppend | src/Http2ResponseHandler.c:218-254 | octets that arrive later never change the frames already found |
| Frames.KeptIsStrictPrefix | src/Http2ResponseHandler.c:218-254 | what is kept between reads is a strict prefix of one frame |
| Frames.SplitIndependence | src/Http2ResponseHandler.c:218-254 | however the stream is cut into reads, the same frames are dispatched in the same order |
| Frames.FrameReader.Feed | src/Http2ResponseHandler.c:218-254 | one read over the compacting buffer dispatches and keeps what parsing the whole stream gives |
| Frames.FormsRoundTrip | src/Http2ResponseHandler.c:232-246 | parsing written frames gives them back with nothing left over |
| HeaderFraming.HandleHeadersFrame | src/Http2ResponseHandler.c:596-652 | a HEADERS payload is stripped of padding and priority and decoded or collected, bad padding included |
| HeaderFraming.HandleContinuation | src/Http2ResponseHandler.c:487-508 | a CONTINUATION is appended, and decoded at the end of the block unless its stream is in error |
| HeaderFraming.FragmentOfDressed | src/Http2ResponseHandler.c:596-652 | any legal padding and priority block around a fragment is stripped to exactly the fragment |
| HeaderFraming.FramingIsTransparent | src/Http2ResponseHandler.c:487-669 | padding, priority and splitting give the headers and table of the whole block when the stream is not in error or the block is not split, and otherwise change nothing |
| HeaderFraming.SplitBlockLostOnFailedStream | src/Http2ResponseHandler.c:487-494 | an instance: on a stream in error the split block is lost, the whole one is not |
| FlowControl.TuneKeepsInv | src/Http2ResponseHandler.c:397-413 | consuming and tuning move the books by exactly what was consumed and what the window grew by |
| WindowGrowth.TuneGrows | src/Http2ResponseHandler.c:397-413 | consuming grows the window exactly when it brings what was consumed since the last growth to the window: it doubles, up to 2^24, the growth is owed and a flush is due |
| WindowGrowth.WindowGrowsByConsumption | src/Http2ResponseHandler.c:397-413 | at every step of any run: the window has grown some k times, and while it may still grow the octets consumed are the windows outgrown plus what counts towards the next |
| WindowGrowth.WindowReachedIff | src/Http2ResponseHandler.c:397-413 | for frames of at most 65535 octets: the window has its k-th size if and only if the sizes before it have been consumed |
| WindowGrowth.ConsumedNowIs | src/Http2ResponseHandler.c:348-378 | what counts as consumed is the payload of DATA on registered streams with a sink |
| WindowGrowth.DueIff | src/Http2ResponseHandler.c:386-413 | a flush is due exactly when a stream has ended, the window has grown, or 65535 octets are owed to the connection |
| WindowGrowth.EndedStreamFlushes | src/Http2ResponseHandler.c:379-395 | a batch in which a stream ended grants all that is owed to the connection |
| FlowControl.RunKeepsBooks | src/Http2ResponseHandler.c:379-413 | over any run of batches the connection's books balance after each |
| FlowControl.CreditIsConserved | src/Http2ResponseHandler.c:379-413 | at every step the increments queued plus owed credit equal what was consumed plus the window's growth, and the window is 65535 doubled k times up to 2^24 |
| FlowControl.PeerNeitherStallsNorOverflows | src/Http2RequestHandler.c:397-404 | increments are legal, the peer's window never exceeds 2^31 - 1, owed credit is below 65535 after a batch, and consumed traffic never leaves the peer without credit |
| StreamLedger.CreditBooks | src/Http2ResponseHandler.c:426-439 | crediting a stream conserves what it is owed if and only if the ledger has room |
| StreamLedger.LiveStep | src/Http2ResponseHandler.c:379-394 | a reading of a live stream conserves its credit if and only if nothing was consumed or there is room |
| StreamLedger.LedgerStaysSmall | src/Http2ResponseHandler.c:417-448 | over any run the ledger's ids are distinct, at most 256, each holding at most 16384 |
| StreamLedger.StreamCreditIff | src/Http2ResponseHandler.c:379-439 | over any run that leaves a stream live, its updates plus its held credit equal what it consumed if and only if the ledger had room each time, and are less otherwise |
| StreamLedger.NoUpdateAfterDeath | src/Http2ResponseHandler.c:441-448 | once gone from the ledger, a stream is never named by a WINDOW_UPDATE again |
| ReaderSession.Session.QueueControlFrame | src/Http2RequestHandler.c:365-380 | a frame's octets join the growable queue behind all others |
| ReaderSession.Session.FlushReaderWrites | src/Http2RequestHandler.c:397-417 | owed connection credit joins the queue, and all of it leaves in one write |
| ReaderSession.Session.AddStreamWindowCredit | src/Http2ResponseHandler.c:426-439 | the in-place ledger update equals its specification, the full ledger included |
| ReaderSession.Session.DiscardPendingStreamWindow | src/Http2ResponseHandler.c:441-448 | a stream's entry leaves the ledger and nothing else does |
| ReaderSession.Session.ReplenishStreamWindow | src/Http2ResponseHandler.c:379-394 | one reading's effect on ledger and queue |
| ReaderSession.WireIsTheQueuedFrames | src/Http2RequestHandler.c:397-417 | the written and waiting octets parse back to exactly the queued frames, in order and once each |
| ResponseSink.Stream.DeliverResponseHeaders | src/ResponseStream.c:56-89 | the headers call, once, with the stream's headers, and the decoder they ask for or an error |
| ResponseSink.Stream.AppendStreamPayload | src/ResponseStream.c:110-147 | a piece is collected, or decoded and handed on until the consumer stops, with the verdict on reading further |
| ResponseSink.Stream.ConsumeResponseBody | src/ResponseStream.c:149-185 | a non-zero verdict aborts the response and sets the error |
| ResponseSink.Stream.CompleteResponseSink | src/ResponseStream.c:188-201 | the sequence is completed once, with the sink's error before the stream's |
| ResponseSink.Stream.TakeResponseCancellation | src/ResponseStream.c:211-216 | a cancellation is taken at most once |
| ResponseSink.Sink.PrepareStreamRetry | src/ResponseStream.c:52-66 | a retried attempt starts from a new sink's state |
| ResponseSink.AppendedKeepsInv | src/ResponseStream.c:110-185 | no body call follows the first verdict to stop, for every consumer and every decoder |
| ResponseSink.CompletedKeepsInv | src/ResponseStream.c:188-201 | onComplete runs at most once |
| ResponseSink.HeadersChooseDecoder | src/ResponseStream.c:56-89 | a coded response readies its decoder; without one it is given up with an error |
| ResponseSink.AppendExtendsBody | src/ResponseStream.c:110-177 | passing a piece on extends the body by exactly that piece |
| ResponseSink.DecodedBody | src/ResponseStream.c:91-147 | however a coded body is cut: what is handed on is what the decoder makes of the chunks, each fed once and in order, and it ends with an error exactly when the decoder fails |
| ResponseSink.StopIsTold | src/ResponseStream.c:166-185 | a verdict to stop is the stream's error and asks for the stream's reset |
| ReaderDispatch.OpenStream.HandleStreamFrame | src/Http2ResponseHandler.c:465-544 | one frame's effect on its stream and on the shared table, END_HEADERS and END_STREAM included |
| ReaderDispatch.OpenStream.EndStreamReading | src/Http2ResponseHandler.c:348-371 | what ending a reading does to the stream and reports as owed |
| ReaderDispatch.OpenStream.Fail | src/Http2ResponseHandler.c:1110-1127 | an unfinished stream is failed with the connection's error and completed, unless only pending ones are and it has a response |
| ReaderDispatch.DispatchStreamFrame | src/Http2ResponseHandler.c:300-315 | dispatching one frame moves stream, table, ledger, queue and the session's error and going-away flag as one step of the connection |
| ReaderDispatch.Status.HandleGoAwayFrame | src/Http2ResponseHandler.c:1085-1104 | a GOAWAY of at least 8 octets sets the error its code stands for and takes the connection out of use; a shorter one does nothing |
| ReaderDispatch.AnswerConnectionFrame | src/Http2ResponseHandler.c:321-338 | the octets queued are the frame that answers a SETTINGS or PING |
| SinkTraces.EndReadingKeepsInv | src/Http2ResponseHandler.c:348-371 | ending a reading completes what is over and asks for a cancel at most once |
| SinkTraces.RunKeepsSinks | src/Http2ResponseHandler.c:293-371 | over any run of arrivals, single frames, flushes, entries and removals of streams and connection loss, every stream keeps a legal sequence of calls |
| SinkTraces.GivingUpKeepsInv | src/HttpClient.c:325-329 | a request that could not be sent ends its stream's callbacks, at most once in all, while the reader may go on with the stream |
| SinkTraces.SinkTracesAreLegal | src/Http2ResponseHandler.c:348-371 | per stream: onHeaders and onComplete at most once, no onData after a stop, at most one RST_STREAM, and every ended stream has completed |
| StreamEnds.EndedIff | src/Http2ResponseHandler.c:539-544 | over every run a registered stream is over if and only if it was before, one of its DATA, HEADERS or CONTINUATION frames with END_STREAM or an RST_STREAM was handled, it was cancelled, or it was failed by a loss or by GOAWAY before it had headers |
| StreamEnds.EndedIsCompletedOnce | src/Http2ResponseHandler.c:348-371 | such a stream has ended and its calls hold exactly one onComplete |
| StreamEnds.EndingIsTold | src/Http2ResponseHandler.c:348-371 | the frame that ends it is answered by onComplete at once, with the sink's error or else the stream's |
| StreamEnds.StoppedIsReset | src/Http2ResponseHandler.c:359-371 | over every run from the start: a registered stream that was given up is over and exactly one RST_STREAM names it; none names any other |
| StreamEnds.CancelOctets | src/Http2RequestHandler.c:333-360 | the RST_STREAM of a stream that was given up carries CANCEL |
| StreamEnds.ResetIsTold | src/Http2ResponseHandler.c:508-513 | what a reset by the peer makes of the stream, and with HTTP_1_1_REQUIRED of the connection |
| StreamEnds.GoAwayIsTold | src/Http2ResponseHandler.c:1095-1130 | GOAWAY fails exactly the open streams without headers, with the reason it gives |
| StreamEnds.LossIsTold | src/Http2ResponseHandler.c:1095-1130 | a lost connection fails exactly the open streams |
| StreamEnds.BadBlockIsTold | src/Http2ResponseHandler.c:596-669 | a block that does not fit its frame or cannot be decoded is the stream's error |
| StreamEnds.OtherFramesAreIgnored | src/Http2ResponseHandler.c:514-527 | frames of any other kind change nothing |
| StreamEnds.RunKeepsRoom | src/Session.c:819-836 | at no step of any run are more than 256 streams registered |
| StreamEnds.EntersIff | src/Session.c:811-836 | a drawn identifier enters its stream if and only if fewer than 256 streams are registered, and is spent either way |
| ReaderWrites.HandlingKeepsCredit | src/Http2ResponseHandler.c:232-246 | handling one frame of a batch keeps the books and uses up no more of the batch's bound than the frame took of the buffer |
| ReaderWrites.RunBalancesCredit | src/Http2ResponseHandler.c:379-413 | at every step of any run, within batches and between them, the connection's credit balances for what registered streams consumed |
| ReaderWrites.ReaderKeepsPeerInCredit | src/Http2ResponseHandler.c:124-126 | at every step from the first octet on: conserved credit, the window 65535 doubled k times up to 2^24, legal increments and no overflow of the peer's window; between batches little is owed and no stall |
| ReaderWrites.RunParsesBack | src/Http2RequestHandler.c:365-417 | all frames of a run are well formed, and the octets handed to the writer parse back to exactly them, in order |
| ReaderWrites.RunAnswersInOrder | src/Http2ResponseHandler.c:321-338 | one SETTINGS ACK per SETTINGS and one echo per 8-octet PING that is not an ACK, in arrival order |
| ReaderWrites.NoUpdateOnceOver | src/Http2ResponseHandler.c:348-394 | once a stream ended, was reset, cancelled or unregistered, no WINDOW_UPDATE names it |
| Connection.FramesOfRun | src/Http2ResponseHandler.c:218-254 | in every run the frames handled are the frames of the octets that arrived, in order, and what is kept is what is left of them |
| Demultiplexing.SplittingNeverMatters | src/Http2ResponseHandler.c:218-343 | streams, table, errors and what is kept do not depend on how the octets were cut into reads |
| Demultiplexing.BodyIsOwnDataInOrder | src/Http2ResponseHandler.c:546-551 | under every cut and interleaving, with other streams coming and going between frames, a stream's body is its own DATA payloads in order |
| Demultiplexing.BodyUntilStopped | src/ResponseStream.c:150-185 | for every consumer: the body grows by a prefix of the stream's own DATA, and misses exactly what arrives after a verdict to stop |
| Demultiplexing.BodyIsWholeIff | src/ResponseStream.c:150-185 | it is all of it if and only if nothing of it arrives after such a verdict |
| Demultiplexing.BodyIsMeantIffUnpadded | src/Http2ResponseHandler.c:546-551 | that body is the one meant if and only if no frame of the stream is padded |
| StreamCredit.StreamOwedIff | src/Http2ResponseHandler.c:379-439 | over any run of the connection that leaves a registered stream live, its updates plus its held credit grow by its own DATA if and only if the ledger had room each time, and by less otherwise |
| StreamCredit.OwedSinceEntry | src/Session.c:814-836 | from a stream's entry on, they are exactly its own DATA on the same condition |
| StreamCredit.HappenedLeaves | src/Session.c:867-892 | entries are left behind only by removals of streams while the ledger held an entry for them, one at a time |
| StreamCredit.RoomWhileFewLeaks | src/Http2ResponseHandler.c:417-439 | while registered streams and entries left behind fit the ledger, no stream's credit is lost |
| StreamCredit.RunBatchesCredit | src/Http2ResponseHandler.c:417-439 | over every run no window update of a stream grants 16384 octets or fewer |
| LedgerLeak.CreditIsLost | src/Http2ResponseHandler.c:426-439 | a run from the start: after 256 streams removed while the ledger held their entries, the next stream consumes an octet that is neither granted nor held |
| Http11Text.ChunkSizeOfLine | src/Http11ResponseHandler.c:258-267 | a well-formed chunk-size line is read as its hexadecimal size, whatever its extension |
| Http11Text.StrtolOfDigits | src/Http11ResponseHandler.c:222-225 | a run of digits is read as its value, saturating |
| Http11Reader.Reader.Fill | src/Http11ResponseHandler.c:346-378 | compacting, growing and reading once never change the octets still to come |
| Http11Reader.Reader.ReadLine | src/Http11ResponseHandler.c:386-414 | a line below 49152 octets is found and exactly it is taken, under any split of the transport, with no read more than it needs; the end codes say how it ended otherwise, and 65536 octets without a line are an error |
| Http11Reader.Reader.ReadBody | src/Http11ResponseHandler.c:419-437 | exactly n octets are taken and handed to the stream in order, with no read more than it needs, and 1 is returned if and only if they come; otherwise everything that came is delivered |
| Http11Reader.Reader.ReadsMade | src/Http11ResponseHandler.c:346-378 | a reader that succeeded has made exactly the reads it took to get at what was taken from it |
| Http11Reader.LeftIsRestIff | src/Http11ResponseHandler.c:346-378 | what those reads leave on the transport is the rest behind n octets if and only if some read ends there |
| Http11Body.ReadTrailers | src/Http11ResponseHandler.c:273-284 | the trailer section is consumed up to exactly its empty line |
| Http11Body.ReadChunkedBody | src/Http11ResponseHandler.c:256-300 | 1 means exactly the chunked body was delivered and exactly its end reached, and every body with short lines gives 1; one that is cut short within a line, a chunk or the trailers gives the transport's end code with all its data delivered |
| Http11Body.ReadContentLengthBody | src/Http11ResponseHandler.c:306-309 | exactly the announced octets, or everything that came with the transport's end code |
| Http11Body.ReadUntilCloseBody | src/Http11ResponseHandler.c:311-324 | the transport's octets are delivered up to its end; the body is whole if and only if nothing was buffered |
| Http11Response.StreamHeaderValue | src/Http11ResponseHandler.c:511-519 | the first field of a name, ignoring case |
| Http11Response.ReadHeaderSection | src/Http11ResponseHandler.c:175-202 | header lines are parsed and added in order, up to 64, until exactly the empty line |
| Http11Response.ReadResponseHead | src/Http11ResponseHandler.c:103-157 | status and fields of the head, or the error its failure is classified as |
| Http11Response.HeadErrorIs | src/Http11ResponseHandler.c:159-173 | which error a missing head is: a timeout after something or after nothing, a lost or closed connection, or bad text |
| Http11Response.ClassifyBodyError | src/Http11ResponseHandler.c:239-249 | 0 and 1 pass; otherwise the stream carries an error and keeps an earlier one |
| Http11Response.BodyErrorIs | src/Http11ResponseHandler.c:237-249 | which error a body is that breaks off |
| Http11Response.ReadResponseBody | src/Http11ResponseHandler.c:207-249 | the framing chosen by method, status and fields decides what is delivered and how it ends |
| Http11Exchange.CloseSessionIfSingleUse | src/Http11ResponseHandler.c:129-135 | the connection is given up exactly when the body did not leave it whole, was cancelled, or the peer announces its end |
| Http11Exchange.ReceiveHttp11Response | src/Http11ResponseHandler.c:81-100 | a response whose framing tells its end is delivered exactly, under any split, and the connection then holds the reads not made; one cut short of its content-length or within its chunks is delivered as far as it came; one until the close is what the reads behind the head's bring |
| Http11Exchange.UntilCloseWholeIff | src/Http11ResponseHandler.c:311-324 | a body until the close is whole if and only if some read of the transport ended right behind the head |
| Http11Exchange.CompletionEndsExchange | src/Http11RequestHandler.c:123-129 | the calls of an exchange are one onHeaders with the response's headers, or an error instead, then onData, then one onComplete with the stream's error |
| Http11Exchange.HandleHttp11Request | src/Http11RequestHandler.c:94-113 | every exchange has such calls, with no body call after a verdict to stop, and reports the stream's error; a body cut short of its content-length or within its chunks is an error, and gives the connection up, if and only if the transport did not simply close |
| Http11Exchange.MessageDelivered | src/Http11ResponseHandler.c:81-309 | for every well-formed chunked, content-length or bodyless message: exactly its headers and body are delivered, reuse is decided by its connection field, and the connection is left exactly at the message's end if and only if some read ended there |
| Http11Exchange.MessageIsTold | src/ResponseStream.c:70-80 | the caller of a well-formed message is told exactly its headers first and its end last |
| Http11Exchange.BufferedRestIsLost | src/Http11ResponseHandler.c:97-99 | whatever the message: when one read brings it and more, the connection holds nothing of the more and counts as usable |
| Http11Exchange.ExchangeThatLosesAnOctet | src/Http11ResponseHandler.c:81-100 | an instance, run: one read brings a response of status 204 and one octet more; the exchange succeeds, the octet is gone and the connection is usable |
| Http11Message.ChunksTaken | src/Http11ResponseHandler.c:256-300 | chunks, extensions and trailers of section 7.1 of RFC 9112 parse to exactly their data |
| Http11Message.HeadTaken | src/Http11ResponseHandler.c:103-202 | a well-formed head of at most 63 fields parses to its status and fields, blanks trimmed |
| Http11Message.NoContentIff | src/Http11ResponseHandler.c:207-254 | a response has no body exactly for HEAD and for the statuses 204, 304 and those that begin with 1 |
| Http11Message.HeadIsWhole | src/Http11ResponseHandler.c:207-254 | the head of such a response is the whole of it, whatever its fields announce |
| Http11Message.MessageTaken | src/Http11ResponseHandler.c:207-309 | a well-formed response is read as its headers and exactly its body, up to exactly its end |
| EstablishLocks.Registry.Acquire | src/Session.c:297-321 | the search in place finds the key's slot or takes the first free one and counts the caller in |
| EstablishLocks.Registry.Release | src/Session.c:336-347 | the last reference frees the slot |
| SessionPool.SharedPool.GetSessionInfo | src/Session.c:349-386 | the first pooled connection to the request's scheme, host and port, through its proxy, in its blocking mode, that is connected, not going away, not HTTP/2 when HTTP/1.1 is forced and not busy as HTTP/1.1; -1 exactly when there is none |
| SessionPool.SharedPool.RegisterSession | src/Session.c:1014-1041 | the first empty place takes the new connection, every other place and a full pool stay as they are |
| SessionPool.SharedPool.MarkProxySessionsGoingAway | src/Session.c:1063-1092 | exactly the connections through the failing proxy, or the direct ones when there is none, are given up |
| SessionSharing.MutualExclusion | src/Session.c:297-347 | two threads of one target are never both inside under its lock |
| SessionSharing.StepKeepsLocks | src/Session.c:96-131 | every step keeps: counts are users, keys are distinct, users keep their slot, holders are inside |
| SessionReuse.KeysOfSize | src/Session.c:304-320 | distinct keys fill the table if and only if every slot is in use |
| SessionReuse.FallbackIff | src/Session.c:104-110 | a request falls back on the shared lock if and only if MAX_SESSIONS other targets are in flight |
| SessionReuse.ReferredSlotStays | src/Session.c:336-347 | a slot is neither reclaimed nor re-keyed while a thread refers to it |
| SessionReuse.RegisterKeepsPool | src/Session.c:112-116 | registering never adds a second reusable HTTP/2 connection to a target |
| SessionReuse.OneThreadInside | src/Session.c:96-131 | in every run with at most MAX_SESSIONS targets in flight two requests of one identity are never both inside find-or-create |
| SessionReuse.ConnectionsAreShared | src/Session.c:104-130 | in every such run the lock table is consistent, the fallback unused, and no two reusable HTTP/2 connections lead to one target |
| FallbackRace.TwoThreadsInside | src/Session.c:104-110 | from any state with a thread due at the fallback lock, four steps take two threads with one request inside together |
| FallbackRace.TwoConnections | src/Session.c:112-116 | from there the pool gets two reusable HTTP/2 connections to one target |
| FallbackRace.RaceIsReached | src/Session.c:297-332 | a run from the start, with more threads than slots, gets there |
| FallbackRace.ExclusionIff | src/Session.c:96-131 | no run lets two threads inside for one request if and only if there are at most 1024 threads |
| FallbackRace.SharingIff | src/Session.c:104-130 | no run gives a target two reusable HTTP/2 connections if and only if there are at most 1024 threads |
| SessionRides.FindRides | src/Session.c:349-386 | a thread that finds a connection rides one of the pool that leads where its request goes and is alive and free at that moment |
| SessionRides.EveryRideLeadsThere | src/Session.c:96-131 | in every run of any number of threads, whatever connects, fails or is reaped: the connection a thread has been given leads to its request's target and is not HTTP/2 when HTTP/1.1 is forced |
| SessionRides.DoneWithoutRide | src/Session.c:112-124 | a thread is done without a connection only after a failed creation |
| SessionRides.KeyIs | src/Session.c:283-295 | an instance of the identity a lock is kept for |
| StreamRegistry.Registry.RegisterStream | src/Session.c:789-839 | a stream gets the next odd identifier and the first free slot, or none exactly when all 256 are taken; identifiers stay unique until the 32-bit counter wraps, and the count is that of occupied slots |
| StreamRegistry.Registry.UnregisterStream | src/Session.c:867-892 | the stream's slot is freed, and the count stays that of occupied slots if and only if the stream had one or nothing was counted |
| StreamRegistry.OccupiedAtMost | src/Session.c:811-822 | the count reaches the table's size if and only if no slot is free |
| HeaderOrder.ParseKeys | src/Basket.c:542-573 | the trimmed, non-empty names of the comma-separated list in order |
| HeaderOrder.Basket.CheckListed | src/Basket.c:579-599 | the error is set exactly when a header that is neither pseudo, order key nor connection is not listed |
| HeaderOrder.Basket.Arrange | src/Basket.c:610-649 | the marking loops place headers rank by rank |
| HeaderOrder.Basket.ReorderHeadersByOrderKey | src/Basket.c:521-650 | without a key nothing changes; an error leaves the list alone; otherwise it is the reordered list, which is arranged as ReorderedIsArranged says |
| HeaderOrder.ReorderedIsPermutation | src/Basket.c:610-649 | the result is the input without the order-key header, as a multiset |
| HeaderOrder.ReorderedIsStable | src/Basket.c:610-649 | pseudo headers, then by first matching key, then unlisted connection headers, ties in original order |
| HeaderOrder.ReorderedIsArranged | src/Basket.c:610-649 | said on the headers: every header but the order key's once, pseudo headers before all others, then by the first key that names them, those without a key last, ties in original order |
| HeaderOrder.PseudosComeFirst | src/Basket.c:610-617 | the result starts with the pseudo headers in their order and has none behind them |
| TextLaws.SameNameIff | src/Http11ResponseHandler.c:511-519 | two names are the same if and only if they are as long and agree, letter case apart, at every place |
| TextLaws.ContainsIff | src/Http11ResponseHandler.c:219-222 | a needle is contained if and only if it stands somewhere, letter case apart |
| TextLaws.HeaderValueIs | src/Http11ResponseHandler.c:511-519 | a lookup gives the value of the first field of the name, and none exactly when no field has it |
| TextLaws.ClosedByPeerIff | src/Http11ResponseHandler.c:129-135 | the peer announces its end if and only if its first connection field carries close |
| TextLaws.ChunkedIff | src/Http11ResponseHandler.c:219-222 | a body is chunked if and only if the first transfer-encoding field carries chunked |
| TextLaws.TrimIs | src/Http11ResponseHandler.c:175-202 | trimming takes exactly the blanks at both ends |
| TextLaws.TrailerEndIff | src/Http11ResponseHandler.c:302-306 | a head or trailer section ends at a line that is empty or starts with NUL |
| TextLaws.DigitsAre | src/Http11ResponseHandler.c:256-267 | the sixteen digits and their values, in either case |
| TextLaws.ValueFromFront | src/Http11ResponseHandler.c:256-267 | in a run of digits the first counts most |
| TextLaws.SignedDigits | src/Http11ResponseHandler.c:224-231 | a sign in front of a run of digits is its sign |
| TextLaws.NegativeLengthFails | src/Http11ResponseHandler.c:219-232 | a body announced, without chunks, by a negative number is an error |
| TextLaws.LineAddsNothing | src/Http11ResponseHandler.c:175-202 | a line without a colon adds no header, nor does any behind the 64th |
| TextLaws.OtherVersion | src/Http11ResponseHandler.c:159-161 | a status line of another version has no status |
| TextLaws.UnlistedIff | src/Basket.c:579-599 | a header had to be listed and is not: regular, neither the order key nor connection, and named by no key |
| TextLaws.OrderIndexIs | src/Basket.c:521-540 | the order key is the first regular header of its name |
| TextLaws.KeysOfList | src/Basket.c:542-573 | an instance: blanks and empty pieces of the list are dropped |
| WireExamples.Integers | src/CompressHandler.c:247-298 | the integers of Appendix C.1 of RFC 7541 |
| WireExamples.InsertedLiteral | src/Http2ResponseHandler.c:676-880 | the literal of Appendix C.2.1, to be inserted, octet by octet |
| WireExamples.PlainLiteral | src/Http2ResponseHandler.c:676-880 | the literal of Appendix C.2.2, not to be inserted |
| WireExamples.NeverLiteral | src/Http2ResponseHandler.c:676-880 | the literal of Appendix C.2.3, never to be inserted |
| WireExamples.IndexedAndUpdate | src/Http2ResponseHandler.c:676-880 | an indexed field and a size update, octet by octet |
| WireExamples.SizeOfEntry | src/Http2ResponseHandler.c:927-940 | the entry of Appendix C.2.1 has size 55 |
| WireExamples.CodedString | src/CompressHandler.c:19-113 | the status 302 of Appendix C.6.1 is coded as 64 02 |
| WireExamples.BadBlocks | src/Http2ResponseHandler.c:676-880 | index 0, an index behind the table and a literal that breaks off fail |
| WireExamples.FrameOctets | src/Http2ResponseHandler.c:321-338 | the acknowledgement of SETTINGS and a window update on the wire |
| WireExamples.StaticHead | src/Http2ResponseHandler.c:904-925 | the entries of the static table that have values |
| WireExamples.StaticValues | src/Http2ResponseHandler.c:904-925 | all other entries of the static table have no value |

## Left out

- Sockets, select, TLS, DNS, proxy CONNECT and ClientHello shaping: reads are arbitrary octets, writes an output log.
- zlib, Brotli, Zstd and base64: a decoder is an arbitrary function of what it was fed; which one is chosen is a parameter.
- Allocation failure and ownership of strings: allocation succeeds.
- Wall-clock deadlines: a timeout is a way the transport may end (HTTP/1.1) or an error from outside (HTTP/2); the two timeout labels of HTTP/1.1 are modelled, their clock is not.
- SETTINGS values and WINDOW_UPDATE from the peer: the source only logs them, so there is no sender-side flow control.
- URL and JSON parsing, browser profiles, cookies, language bindings and the building of HTTP/1.1 request text: mostly single-branch string handling.
- The TLS session cache, session reaping and the async registry: they depend on foreign reference counts; removing a pooled session is modelled as a step that may happen at any time.
- The positions of stream slots in the composed connection: there streams are a map by odd, increasing id below 2^31, at most 256 at a time; StreamRegistry models the slots by themselves.
- Scratch-buffer capacities: sequences and arrays are as long as needed. The header-name buffer of the request encoder holds 128 octets (src/Http2RequestHandler.c:585), and the Huffman buffers twice the text.
- RequestHeaders.WrittenIsForm: its condition is about the octets of an in-place name's length; Huffman names of 129 to 254 octets meet it although the source's buffer of 128 octets does not hold them.
- The reader's composition (module Connection) is on values (streams by id in a map, a step per frame), so pointers shared between the reader and requesting threads are not captured; each step (the frame buffer's read, the dispatch of a frame, the flush) is also a method over the objects it updates.
- Failed writes: a flush hands its octets over; that a failing write loses them is not modelled.
- Text routines of HTTP/1.1 (trim, case-insensitive search, strtol): functions on values; strtol assumes a 64-bit long.
- Mutexes other than the establish locks: a critical section is one step, and an HTTP/1.1 exchange runs under its connection's write lock as one call.
- The name-table search by bsearch: the sorted table is scanned instead, with the same result.
- Huffman.HuffmanEncode: OR-ing a code into cleared bits is written as addition, and its length counters are unbounded.
- Http11Message.MessageTaken: for lines below 49152 octets and lines ended by CRLF; longer lines may be refused depending on how reads are cut.
- SessionReuse.ConnectionsAreShared: for runs with at most MAX_SESSIONS targets in flight; FallbackRace says what happens beyond.
- SessionReuse.OneThreadInside: for the same runs.
- Http11Exchange.ReceiveHttp11Response: exact delivery is stated for identity coding and a consumer that never stops; the legality of the calls is stated for every consumer and decoder.
- Demultiplexing.BodyIsOwnDataInOrder: for identity coding and a consumer that never stops; BodyUntilStopped is for every consumer.
- Demultiplexing.BodyUntilStopped: for identity coding; with another, the body is the decoder's output.
- HpackSync.ConnectionStaysInSync: for text without NUL, since names and values are C strings; Huffman strings are over the octets the code table carries.
- ConnectionSync.AlwaysEqualIff: on the same terms; a HEADERS frame with malformed padding or priority is outside what a peer may send, and so is PUSH_PROMISE, whose block the source drops: the profiles turn pushing off in their SETTINGS (src/BrowserHandler.c:25, src/BrowserHandler.c:163).
- ConnectionSync.HeadersAlwaysArrive: on the same terms, and for blocks in good order as its condition says.
- RequestHeaders.RequestRoundTrip: a block of at most 64 headers whose in-place names have fitting lengths; the exact condition is stated for single headers (HeaderComesBackIff), not for whole blocks.
- RequestHeaders.HeaderComesBackIff: for strings whose Huffman forms are shorter than 32 GiB.
- RequestHeaders.BuildHeaderBlock: the frame header, flags and priority around the block (src/Http2RequestHandler.c:450-461) are not part of this model.
