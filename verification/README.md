# Boost.RPC in Dafny

Boost.RPC is a stack of codecs under a small request/response protocol. This project models the
stack and proves that its layers do what they are for.

- **JSON text.** `JsonValue` renders a value in the compact and the pretty layout; `JsonPrinter` is the
  pair of printers over an output stream with a pending field width; `JsonGrammar` is the grammar as a
  recursive-descent parser with ordered choice and a blank skipper. `JsonTokens` and `JsonRoundTrip` say
  exactly which tokens and values survive printing and reading; `JsonPretty` relates the two layouts.
  `JsonText`, `JsonStrings` and `JsonDocument` say which texts are read at all and as what, by a syntax
  of documents that does not use the parser, and `JsonLayout` which of those documents is printed.
- **JSON on a socket.** `Framer` is the byte-by-byte framing state machine and the shape of what it
  cuts out; `JsonTcp` says what the read loop makes of a stream of printed values; `TcpConnection` is
  the connection class with `Send` and `ReadLoop`, on top of the base class's tables.
- **Calls.** `Rpc` has the messages, the dispatch and the tables of one peer; `RpcProtocol` joins two
  peers, each both client and server, by two FIFO channels and proves what holds in every run, and
  `RpcProgress` that every run can be brought to an end with every call answered;
  `RpcConnection` is the connection class and the functor that calls through it, updated in place;
  `RpcSignals` adds signal subscription and emission; `RpcTransport` shows that the channels of the
  protocol are what the JSON text layer delivers; `RpcBytes` joins the two peers by byte streams, with
  a read loop at each end taking one byte at a time, and proves that its runs are the protocol's.
- **Binary codecs.** `Varint` and `Datastream` (the sizing stream, the writing stream, the reading
  stream); `RawCodec`, `RawOrder` (the element order of sets and maps), `RawRoundTrip` and `RawStream`
  for the schema-directed codec and its two-pass packing; `ProtoBuf`, `ProtoRecords`, `ProtoRoundTrip`,
  `ProtoStream` and `ProtoReader` for nested tagged messages, and `ProtoMerge` for those unpacked over one
  that already holds something; `Base64`, and `Base64Bits` for its masks and shifts. `RawWire`, `ProtoWire`
  and `Base64Text` spell the bytes out, with the numbers that stand in them.
- **Typed JSON.** `ValueIo`, `ValuePack` and `ValueRoundTrip` for the mapping between typed data and
  JSON values, and `ValueForms` for what each type's value looks like and what reading does to a target
  that already holds something.

Code that works in place is a class or a method with loops; each such method is tied to a function,
and the theorems are about the functions. Where both directions of a codec share a function, a lemma
says what that function gives with the constants written out. `JsonObject`, `Bytes` and `Wrappers` are shared.

## Properties that turned out to have a condition

- A printed JSON value reads back exactly when its numbers are whole millionths and its strings and
  keys are ASCII, free of quotes, and free of backslashes that the grammar takes as escapes; the
  printer does not escape (src/json/value.cpp:121-123) while the grammar unescapes (31-32).
- A read loop gets through a stream of clean values exactly when `on_receive` takes each object and
  array among them. An array, an object with a method and no id, or a reply whose id is not a number
  makes it raise (src/json/value.cpp:254-257, src/json/connection.cpp:118-145), and the loop ends there
  with nothing after it read (src/json/tcp/connection.cpp:72-88). No message of a protocol run is one
  of these.
- The raw codec gives a value back exactly when two things hold. No member of a reflected class is
  itself an optional: the packing visitor writes no presence byte for those
  (include/boost/rpc/raw.hpp:164-167), and the unpacking one reads it (130-134). And the value is its
  own as-read form: signed varints outside [-2^30, 2^30) with their low bit flipped, and the flipped
  set elements and map keys put back in order. Values whose signed varints are all in range are; so
  are a few others, as a set of two keys that change places.
- Reading a varint ends properly exactly when one of its first five bytes has a clear top bit.
- The protocol-buffer codec gives a message back exactly when its signed varints lie in [-2^30, 2^30).
- Base64 text is the encoding of what it decodes to exactly when it is canonical.
- Typed data with an empty byte vector leaves a null that does not unpack
  (include/boost/rpc/json/value_io.hpp:416-418).

## Model

| member | source | states |
|---|---|---|
| JsonPrinter.PrintCompact | src/json/value.cpp:119-154 | the compact visitor appends exactly the compact rendering of the value, for every nesting |
| JsonPrinter.PrintObject | src/json/value.cpp:134-143 | the loop over keys writes members with commas between them only |
| JsonPrinter.PrintArray | src/json/value.cpp:144-152 | the loop over elements writes them with commas between them only |
| JsonPrinter.PrintPretty | src/json/value.cpp:157-200 | the pretty visitor at a depth appends exactly the rendering of that depth, for every nesting; JsonLayout.LayoutsAreWritten says where each token then stands |
| JsonPrinter.PrintPrettyObject | src/json/value.cpp:173-184 | the loop over keys writes one member a line with commas between them only and spends the field width; the columns are in JsonLayout.LayoutsAreWritten |
| JsonPrinter.PrintPrettyArray | src/json/value.cpp:185-197 | elements are indented by the field width, one a line, and the width is spent |
| JsonPrinter.Write | src/json/value.cpp:205-211 | the compact or the pretty text, by the flag; both are spelled out by JsonLayout.LayoutsAreWritten |
| JsonLayout.LayoutsAreWritten | src/json/value.cpp:157-200 | the compact text is the document with no blanks at all; the pretty text is the document in which, at nesting d, a key's opening quote stands in column 4d, an element after 4d blanks, a closing bracket in column 4d - 4 or the first, and every entry and closing bracket on its own line |
| JsonLayout.NumberIsPrinted | src/json/value.cpp:127-130 | a number is printed with six decimals, no needless leading zero and a sign exactly below zero, as a numeral worth at most half a millionth more or less |
| JsonTokens.NumberRoundTrip | src/json/value.cpp:127-130 | the number rule takes all of a printed number and gives the nearest millionth |
| JsonTokens.NearestIsNearest | src/json/value.cpp:127-130 | the number read back is a whole number of millionths at most half a millionth away, no other is nearer, and of two equally near it is the even one |
| JsonTokens.WholeMillionthsMeaning | src/json/value.cpp:127-130 | the numbers that come back unchanged are the multiples of one millionth |
| JsonTokens.StringRoundTrip | src/json/value.cpp:31-32 | a quoted string without escaping reads back as itself if and only if it is printable; what escapes become is in JsonStrings |
| JsonStrings.EscapedReads | src/json/value.cpp:31-32 | every ASCII string is read back from its escaped form |
| JsonStrings.EscapeReadsAnywhere | src/json/value.cpp:31-32 | an escape anywhere in a string is there the character 13, 10 or 9 for r, n or t, and the backslash or the quote itself for those |
| JsonStrings.StringReadsExactly | src/json/value.cpp:31-32 | a string is read as given characters, leaving a rest, if and only if it is written with raw characters and escapes that mean those |
| JsonText.NumeralReads | src/json/value.cpp:36 | an optional sign, digits with or without a point, and an exponent with its own sign are read as the number they denote |
| JsonText.NumberIsSpelled | src/json/value.cpp:36 | and nothing else is read as a number |
| JsonDocument.ReadsExactlyTheDocuments | src/json/value.cpp:31-41 | the grammar takes a value and leaves a rest if and only if the text is a document denoting that value, blanks anywhere between tokens, followed by that rest, which does not go on with its number |
| JsonDocument.ReadsADocument | src/json/value.cpp:102-115 | read gives the value of the document the text starts with |
| JsonRoundTrip.RoundTrip | src/json/value.cpp:31-41 | parsing a printed value followed by anything that does not extend a number yields the value and leaves that rest, if and only if the value is clean |
| JsonRoundTrip.ReadUndoesPrint | src/json/value.cpp:102-115 | read of a whole printed text gives the value if and only if it is clean |
| JsonPretty.RenderMinifies | src/json/value.cpp:157-200 | deleting blanks outside strings turns any layout of a value without quotes into the compact one |
| JsonPretty.PrettyRefinesCompact | src/json/value.cpp:157-200 | the pretty text of a value without quotes minifies to its compact text |
| JsonObject.SetThenLookup | src/json/value.cpp:232-253 | what is assigned under a key is found under it, and every other key keeps its value |
| JsonObject.SetKeepsOrder | src/json/value.cpp:232-242 | keys keep their places, and at most one is added at the end |
| JsonObject.LookupAt | src/json/value.cpp:243-253 | the first entry with a key is the one that is found and the one that is assigned |
| JsonObject.NoKey | src/json/value.cpp:232-242 | a key that no entry has is not found, and is assigned at the end |
| JsonObject.Object.Contains | src/json/value.cpp:258-267 | true if and only if some entry has the key |
| JsonObject.Object.At | src/json/value.cpp:243-253 | the first value under the key, or the out-of-range error |
| JsonObject.Object.Assign | src/json/value.cpp:232-242 | assignment through the reference changes the first entry under the key or appends one |
| Framer.RunConsistent | src/json/tcp/connection.cpp:56-85 | after every byte a frame is open if and only if depth is positive, and the buffer is empty if and only if no frame is open |
| Framer.EveryStreamIsCut | src/json/tcp/connection.cpp:59-85 | every byte stream decomposes into dropped gaps, frames, and dropped or open text |
| Framer.CutDeterminesRun | src/json/tcp/connection.cpp:59-85 | any decomposition of that shape is the one the loop makes |
| Framer.FramesAreExactly | src/json/tcp/connection.cpp:59-85 | the loop emits given frames and keeps a given buffer if and only if the stream can be cut that way |
| Framer.PosCounts | src/json/tcp/connection.cpp:60-71 | the depth is the number of opening brackets less that of closing ones, below zero too, those after an odd number of quotes left out, and the scan is inside a string if and only if the number of quotes is odd |
| Framer.ShapesByCount | src/json/tcp/connection.cpp:59-85 | a frame is a text whose nesting is zero at its end and positive after every shorter prefix, and a gap one that never nests above zero and ends at zero outside quotes |
| JsonTcp.RenderLevel | src/json/tcp/connection.cpp:60-71 | a printed value without quotes in its strings returns to its depth and outside quotes, never going below |
| JsonTcp.StreamFrames | src/json/tcp/connection.cpp:59-85 | the concatenated texts of values frame into the texts of their objects and arrays, for strings free of quotes only |
| JsonTcp.EndToEnd | src/json/tcp/connection.cpp:35-91 | of clean values sent in turn the loop hands over the objects and arrays in order up to the first that on_receive refuses, and all of them with no exception if and only if none is refused; the framer is back in its start state |
| JsonTcp.DeliverByIndex | src/json/tcp/connection.cpp:72-91 | for any frames, every value handed over is the one its frame reads as, all but the last are taken, and the loop throws if and only if the last is not or the next frame cannot be read |
| JsonTcp.ArrayEndsTheLoop | src/json/tcp/connection.cpp:72-88 | an empty array sent before an empty object is clean and framed, but ends the loop before the object |
| TcpConnection.Connection.Send | src/json/tcp/connection.cpp:35-42 | the compact text is appended to the socket |
| TcpConnection.Connection.OnReceive | src/json/connection.cpp:118-156 | the base class's tables change as the receiving step says, and the text of what it sends is written to the socket |
| TcpConnection.Connection.ReadLoop | src/json/tcp/connection.cpp:48-92 | for any input, the frames are parsed and given to on_receive in turn, up to the first that cannot be read or is refused, which ends the loop with an exception, still connected and with no disconnect signal |
| TcpConnection.Transport | src/json/tcp/connection.cpp:35-92 | one connection sends a clean list and another reads the socket: the objects and arrays are handled in order up to the first refused one, and the loop ends in good order if and only if none is refused |
| Rpc.ReplyCarriesOutcome | src/json/connection.cpp:118-141 | the reply carries the request's id and no method, and the caller's outcome from it is that of the call on the object: a failure if and only if the method is unknown or the handler failed, even though a failed handler's reply has both result and error; the texts are in Rpc.ReplyHolds and Rpc.OutcomeSays |
| Rpc.ReplyHolds | src/json/connection.cpp:118-141 | by lookups: an unknown method gives no result and an error of code 0 with the message Unknown method and its name in quotes, a failed handler what it left as the result and an error of code 0 with its text, a successful one its result alone; only a handler that runs changes the objects |
| Rpc.OutcomeSays | include/boost/rpc/json/connection.hpp:68-80 | the caller of an unknown method or a failing handler gets an error with that text |
| Rpc.DifferentTexts | src/json/connection.cpp:133-135 | handlers that raise different texts give their callers different outcomes |
| Rpc.OutcomeOfResponse | include/boost/rpc/json/connection.hpp:68-80 | an error wins over a result, and a response with neither is an error that says so |
| Rpc.RequestAnswered | src/json/connection.cpp:118-141 | a request with params runs the named method, or else is answered with what is missing, and one reply is sent in any case |
| Rpc.ResponseTaken | src/json/connection.cpp:142-151 | a response ends the pending call whose number is the whole part of its id, changes no call with another number, and is ignored without an id |
| Rpc.RaisesIffRefused | src/json/connection.cpp:118-156 | whatever the tables hold, on_receive raises if and only if the message is not an object, names a method without an id, or is a reply whose id is not a number; then nothing changes and nothing is sent |
| Rpc.TemplateBecomesRequest | include/boost/rpc/json/connection.hpp:55-57 | the functor's reused message, with params and id stored into it, is always the request for this call |
| Rpc.RequestKeys | src/json/connection.cpp:102-104 | a request carries its id, method name and params |
| RpcProtocol.PipeInvoke | src/json/connection.cpp:102-110 | a call adds its request at the end of one direction's pipeline |
| RpcProtocol.PipeServe | src/json/connection.cpp:118-141 | a delivered request is the oldest unserved call, and its reply extends the replies to the served calls |
| RpcProtocol.PipeConsume | src/json/connection.cpp:142-151 | a delivered response is the reply to the oldest call without one |
| RpcProtocol.InvokedOk | src/json/connection.cpp:102-107 | a fresh id keeps completed, timed-out and pending calls a partition of the ids given out |
| RpcProtocol.ExpiredOk | src/json/connection.cpp:111-115 | a timeout finds its id in the table and keeps the partition |
| RpcProtocol.ResponseKeepsClient | src/json/connection.cpp:142-151 | a response completes its own call, or none if that timed out, and raises nothing |
| RpcProtocol.NextKeepsInv | src/json/connection.cpp:102-156 | every enabled step of the two peers keeps the invariant, no delivery raises, and the timeout erase finds its id |
| RpcProtocol.ReachableInv | src/json/connection.cpp:102-156 | the invariant holds in every reachable state |
| RpcProtocol.PipelineConservation | src/json/connection.cpp:102-156 | in every run, the ids of responses received, then of responses in flight, then of requests in flight, are 1 to next_id in order |
| RpcProtocol.CallsArePartitioned | src/json/connection.cpp:102-151 | in every run, completed, timed-out and pending ids partition 1 to next_id, exactly the pending ones wait, and no later step resets a promise or revives a timed-out call |
| RpcProtocol.CompletedCallsAreLocal | src/json/connection.cpp:118-151 | in every run, a completed call ended as it would have on the peer's objects after all earlier calls made directly |
| RpcProtocol.CompletedCallsSayHow | src/json/connection.cpp:118-151 | in every run, a completed call has the handler's result, or an error with the handler's text or that of the unknown method |
| RpcProtocol.QuietMeansAnswered | src/json/connection.cpp:102-151 | with nothing in flight nothing is pending, and the peer's objects are as after all calls made directly |
| RpcProgress.DeliveryIsProgress | src/json/connection.cpp:118-151 | in any state whatever, a delivery leaves less to deliver, makes no call and times none out |
| RpcProgress.DeliveriesAnswer | src/json/connection.cpp:102-151 | after any run, deliveries in any order are bounded in number, and when none is left every call that was pending is completed and the peer's objects have seen every call |
| RpcProgress.EveryCallCanBeAnswered | src/json/connection.cpp:102-151 | any run can be continued by deliveries alone so that no call waits and each that did is completed |
| RpcConnection.Connection.AddMethodHandler | src/json/connection.cpp:98-100 | the table maps the name to the handler and nothing else changes |
| RpcConnection.Connection.Begin | src/json/connection.cpp:102-109 | a new id goes into the message, whatever else that object holds, its unset promise into the table, and the message is sent |
| RpcConnection.Connection.Await | src/json/connection.cpp:110-115 | the promise's value, or else the call is taken out of the table, where it is found |
| RpcConnection.Connection.OnReceive | src/json/connection.cpp:118-156 | the new tables, what is sent and whether it raises are as the protocol's receiving step says |
| RpcConnection.Connection.OnRequest | src/json/connection.cpp:119-141 | the new state, the reply sent and whether it raises are as the protocol's receiving step says; Rpc.RequestAnswered says what the reply holds |
| RpcConnection.Connection.Dispatch | src/json/connection.cpp:123-140 | the handler acts on the state and the reply is built key by key through the catch branches, as Rpc.ReplyHolds spells it out |
| RpcConnection.Connection.OnResponse | src/json/connection.cpp:142-155 | only the promise of a pending id is set, once, and leaves the table |
| RpcConnection.SendFunctor.Begin | include/boost/rpc/json/connection.hpp:63-67 | storing params and invoking sends the request of this call and starts it in the tables |
| RpcConnection.SendFunctor.Finish | include/boost/rpc/json/connection.hpp:68-80 | an error wins over a result, and neither is an error of its own |
| RpcSignals.ReportIsCounted | include/boost/rpc/json/connection.hpp:195-206 | the delegate's report of a count is the last count of its signal |
| RpcSignals.OneCall | src/json/connection.cpp:26-40 | one dispatched call changes a signal's blocking exactly when it reports that signal, to count equal 0 |
| RpcSignals.Subscription | src/json/connection.cpp:26-40 | a call of rpc_connect_signal with a name and a number blocks that signal if and only if the number lies strictly between -1 and 1, and leaves the other signals and the objects alone |
| RpcSignals.SubscriptionRefused | src/json/connection.cpp:26-40 | with parameters of any other form nothing is blocked or unblocked and the caller gets an error |
| RpcSignals.BlockedIffNoSlots | src/json/connection.cpp:26-40 | after any calls, a connection that started blocked is blocked if and only if its last reported count is 0 |
| RpcSignals.BlockedFollowsDeliveries | src/json/connection.cpp:26-40 | in every run, the server's connection is blocked if and only if the last delivered count was 0 or none was |
| RpcSignals.SidesAgree | include/boost/rpc/json/connection.hpp:195-206 | in every run, with no subscription message in flight, blocking agrees with the count the client last reported |
| RpcSignals.NoEcho | include/boost/rpc/json/connection.hpp:144-178 | emitting under the guard sends nothing back and leaves every connection as it was |
| RpcSignals.BlockedByCount | src/json/connection.cpp:26-40 | after any reports and emissions, a connection that started blocked is blocked if and only if its last reported count is 0 |
| RpcSignals.ForwardsWhatIsHeard | include/boost/rpc/json/connection.hpp:161-178 | after any events, what was sent to the client is exactly what the server's own objects emitted while the client had slots for it, in order |
| RpcSignals.AskedMakesNoDifference | include/boost/rpc/json/connection.hpp:144-178 | leaving out the client's own emissions changes nothing that is sent to it, then or later |
| RpcSignals.SignalTable.AddSignalConnection | include/boost/rpc/json/connection.hpp:166-169 | a signal is blocked and then added |
| RpcSignals.SignalTable.ConnectSignal | src/json/connection.cpp:26-40 | a known signal is blocked if and only if the count is 0, an unknown one is ignored |
| RpcSignals.SignalTable.EmitSignal | include/boost/rpc/json/connection.hpp:166-167 | an emission calls the forwarding slot unless it is blocked |
| RpcSignals.SignalTable.HandleEmission | include/boost/rpc/json/connection.hpp:144-178 | a client's emission, with the guard's block and unblock around it, is not sent back and leaves the table as it was |
| RpcTransport.RequestIsClean | src/json/connection.cpp:102-109 | a request survives as text if and only if its name and params do |
| RpcTransport.ReplyIsClean | src/json/connection.cpp:120-141 | a reply survives as text when what the handler left does |
| RpcTransport.ChannelsTravelAsText | src/json/tcp/connection.cpp:35-91 | in every run with clean calls and handlers, framing and reading the text of the messages in flight delivers exactly those messages, none of them refused |
| RpcBytes.LoopOnBytes | src/json/tcp/connection.cpp:48-92 | taking the bytes one at a time leaves the tables, writes the replies and ends as handing over the frames of the whole stream does |
| RpcBytes.BytesRefineMessages | src/json/tcp/connection.cpp:35-92 | every run of two peers over byte streams, with clean calls and handlers, is the run of the message protocol whose deliveries are the bytes that complete a message; tables and objects are the same, no read loop has ended, and the bytes on their way are the text of the messages in flight |
| RpcBytes.MessagesRefineBytes | src/json/tcp/connection.cpp:35-92 | and every run of the message protocol is such a run, spelled out byte by byte |
| RpcBytes.CompletedCallsAreLocal | src/json/tcp/connection.cpp:35-92 | in every run over byte streams, a completed call ended as it would have on the peer's objects |
| Varint.VarintRoundTrip | include/boost/rpc/raw.hpp:60-113 | every 32-bit number decodes to itself and leaves what follows |
| Varint.VarintLength | include/boost/rpc/raw.hpp:60-68 | one group for each seven bits, five at most |
| Varint.VarintMinimal | include/boost/rpc/raw.hpp:60-113 | no byte string that decodes to a number is shorter than its encoding |
| Varint.VarintEndless | include/boost/rpc/raw.hpp:105-113 | reading a varint has no result if and only if none of its first five bytes has a clear top bit |
| RawWire.VarintByteAt | include/boost/rpc/raw.hpp:60-68 | byte i has the i-th seven bits, least significant first, and its top bit says whether more follow |
| RawWire.VarintIsRead | include/boost/rpc/raw.hpp:105-113 | up to five bytes are read as their seven-bit groups weighted by powers of 128, of the fifth only four bits |
| Varint.ZigzagMeaning | include/boost/rpc/raw.hpp:51-52 | the encoded numbers count the integers 0, -1, 1, -2 and so on |
| Varint.ZigzagIsShiftAndXor | include/boost/rpc/raw.hpp:51-52 | the encoded number is the exclusive or, bit by bit, of the 32-bit word shifted left and its sign in every bit |
| Varint.UnzigzagIsShiftAndXor | include/boost/rpc/raw.hpp:101-103 | the decoded number is computed from the exclusive or, bit by bit, of the word shifted right by 1 and, logically, by 31 |
| Varint.ZigzagRoundTrip | include/boost/rpc/raw.hpp:51-104 | the signed decoder returns its input if and only if it lies in [-2^30, 2^30), and with the low bit flipped otherwise |
| Varint.UnzigzagInverse | include/boost/rpc/raw.hpp:94-104 | below 2^31 decoding is the inverse the other way too |
| Datastream.FeedSizing | include/boost/rpc/datastream.hpp:86-112 | a sizing run counts the bytes offered modulo 2^32 |
| Datastream.FeedWriting | include/boost/rpc/datastream.hpp:45-61 | a writing run with room writes everything in order and turns no call away |
| Datastream.FeedFitting | include/boost/rpc/datastream.hpp:45-61 | whatever the room, the chunks that fit into what is left are stored whole and in order, the rest of the buffer is untouched, and the others are turned away |
| Datastream.OutStream.Write | include/boost/rpc/datastream.hpp:45-52 | a chunk is copied as a whole or dropped as a whole, and reported |
| Datastream.OutStream.Put | include/boost/rpc/datastream.hpp:54-61 | one character is stored if there is room, and reported |
| Datastream.PutVarint | include/boost/rpc/raw.hpp:60-68 | the loop offers exactly the groups of the encoding, one put each |
| Datastream.InStream.Get | include/boost/rpc/datastream.hpp:63-72 | a failed get still moves the position and leaves the character |
| Datastream.InStream.Read | include/boost/rpc/datastream.hpp:36-43 | a read that does not fit leaves position and buffer alone |
| Datastream.GetVarint | include/boost/rpc/raw.hpp:105-113 | on any stream the loop reads what the pure decoder reads, reads zero past the end, and does not end properly if and only if the decoder has no result |
| RawOrder.LessTotal | include/boost/rpc/raw.hpp:292-300 | of two values of one schema, one is below the other or they are equal |
| RawOrder.InsertAscending | include/boost/rpc/raw.hpp:292-300 | inserting what an ordered set holds, in its order, rebuilds it |
| RawOrder.SameMembersSameList | include/boost/rpc/raw.hpp:292-300 | two ordered sets with the same elements are the same list |
| RawWire.ScalarOrder | include/boost/rpc/raw.hpp:292-300 | numbers are ordered by size, false before true, and an unset optional before a set one |
| RawWire.TextOrder | include/boost/rpc/raw.hpp:292-300 | strings are ordered lexicographically by their bytes |
| RawWire.SequenceOrder | include/boost/rpc/raw.hpp:292-300 | containers and classes are ordered lexicographically by their elements |
| RawWire.PairOrder | include/boost/rpc/raw.hpp:292-300 | pairs are ordered by their first halves before their second |
| RawRoundTrip.BytesTaken | include/boost/rpc/raw.hpp:94-138 | unpacking consumes at least the full size of what it yields, presence bytes included |
| RawRoundTrip.Survives | include/boost/rpc/raw.hpp:51-370 | for every typed value with no class member directly an optional, the packed bytes followed by anything unpack to its as-read form and leave that rest |
| RawRoundTrip.AsReadInjective | include/boost/rpc/raw.hpp:51-370 | no two values of a schema have the same as-read form |
| RawRoundTrip.SwappedPairSurvives | include/boost/rpc/raw.hpp:292-300 | a set of two signed varints out of range that change places is its own as-read form |
| RawRoundTrip.RoundTrip | include/boost/rpc/raw.hpp:51-370 | for every typed value, they unpack to the value itself if and only if it is its own as-read form and no class member is directly an optional; it is whenever its signed varints are in range |
| RawRoundTrip.PrefixFree | include/boost/rpc/raw.hpp:51-370 | encodings of one schema's values with no class member directly an optional are prefix-free |
| RawRoundTrip.OptionalMemberIsLost | include/boost/rpc/raw.hpp:130-167 | a class with an unset optional member packs to bytes that run out when unpacked |
| RawWire.NumberForms | include/boost/rpc/raw.hpp:51-68 | a fixed-width number is packed least significant byte first, an unsigned varint as a varint, a signed one as the varint of 2i or -2i - 1 |
| RawWire.FixedIsRead | include/boost/rpc/raw.hpp:94-118 | one, two, four or eight bytes are read as the number with the weights 1, 256, 65536 and so on, less its range if it is signed and its top bit is set |
| RawWire.TypedNumbers | include/boost/rpc/raw.hpp:94-118 | each width holds exactly the numbers of its range, signed or not |
| RawWire.SmallForms | include/boost/rpc/raw.hpp:71-82 | a flag is packed as 1 or 0, and so is what stands before an optional; a pair as its first half and then its second |
| RawWire.SizedForms | include/boost/rpc/raw.hpp:303-350 | a string or container is packed as its size in a varint and its bytes or elements in order |
| RawWire.StructForm | include/boost/rpc/raw.hpp:151-171 | a class is packed as its members in order, of an optional one the value alone and only if it is set |
| RawWire.MarksAreRead | include/boost/rpc/raw.hpp:114-134 | any byte but 0 is read as a set flag, or as the mark of a set optional |
| RawWire.SetIsInserted | include/boost/rpc/raw.hpp:292-300 | any bytes are read as a set by reading a list and inserting its elements in turn |
| RawStream.CallsEncode | include/boost/rpc/raw.hpp:51-370 | the put and write calls of packing, joined, are the pure encoding |
| RawStream.Pack | include/boost/rpc/raw.hpp:51-367 | packing makes exactly those calls, whatever the stream does with them |
| RawStream.PackContainer | include/boost/rpc/raw.hpp:303-312 | the iterator loop writes the size and then every element |
| RawStream.PackMembers | include/boost/rpc/raw.hpp:152-171 | the visitor writes every member, and an optional one only if set |
| RawStream.SizingPass | include/boost/rpc/raw.hpp:378-380 | tellp after the sizing run is the length of the encoding |
| RawStream.WritingPass | include/boost/rpc/raw.hpp:380-384 | the writing run fills a buffer of that size with the encoding and drops nothing |
| RawStream.TooSmallDrops | include/boost/rpc/datastream.hpp:45-61 | in a smaller buffer some call is turned away |
| RawStream.PackVec | include/boost/rpc/raw.hpp:376-385 | for encodings under 2^31 bytes the two passes agree: the buffer is exactly the encoding and no call fails |
| RawStream.Unpack | include/boost/rpc/raw.hpp:94-370 | reading the stream gives what the pure decoder gives and leaves what it leaves |
| RawStream.UnpackList | include/boost/rpc/raw.hpp:314-324 | the element loop is the pure list decoder |
| RawStream.UnpackSet | include/boost/rpc/raw.hpp:292-300 | the insertion loop is the pure set decoder |
| RawStream.UnpackMap | include/boost/rpc/raw.hpp:352-361 | the key and value loop is the pure map decoder |
| RawStream.UnpackVec | include/boost/rpc/raw.hpp:387-393 | an empty buffer leaves the target, any other is unpacked |
| ProtoRecords.TagReads | include/boost/rpc/protocol_buffer.hpp:309-315 | a tag splits back into its key and wire type for every key below 2^29 |
| ProtoRecords.UnpackIsApplyAll | include/boost/rpc/protocol_buffer.hpp:302-323 | unpacking joined records is reading each into its own field in turn, leaving nothing |
| ProtoRecords.ApplyAllIsFolds | include/boost/rpc/protocol_buffer.hpp:302-323 | records end in given slots if and only if each field's own records, read alone, end in its slot and every record has a field |
| ProtoRecords.OrderDoesNotMatter | include/boost/rpc/protocol_buffer.hpp:302-323 | any two lists of records that agree on each field's own, in their order, unpack to the same message from the same target |
| ProtoRoundTrip.LengthPrefix | include/boost/rpc/protocol_buffer.hpp:434-441 | at every level the length written before a string or message is the number of bytes that follow it for that field |
| ProtoRoundTrip.ValueReads | include/boost/rpc/protocol_buffer.hpp:100-194 | each packed value is read back in full by its own field type, nested messages included |
| ProtoRoundTrip.FieldOf | include/boost/rpc/protocol_buffer.hpp:523-545 | under a field's key a packed message has exactly the records that field wrote |
| ProtoRoundTrip.MessageRoundTrip | include/boost/rpc/protocol_buffer.hpp:206-323 | a packed message of any nesting unpacks into fresh defaults as itself, up to out-of-range signed varints |
| ProtoRoundTrip.RoundTrip | include/boost/rpc/protocol_buffer.hpp:558-591 | it gives itself back if and only if its signed varints lie in [-2^30, 2^30) |
| ProtoRoundTrip.AnyOrder | include/boost/rpc/protocol_buffer.hpp:302-323 | the records of a packed message may arrive in any order that keeps each field's own |
| ProtoMerge.MessageMerges | include/boost/rpc/protocol_buffer.hpp:302-323 | a packed message of any nesting unpacked over any message object of its type is merged into it: set fields replace, sub-messages merge, repeated ones are appended, and everything else stays |
| ProtoMerge.JoinedMessages | include/boost/rpc/protocol_buffer.hpp:302-323 | the bytes of one message after those of another unpack as the second merged into the first |
| ProtoWire.FieldStarts | include/boost/rpc/protocol_buffer.hpp:22-50 | a field of key k that holds something starts with the varint 8k + 3, 8k + 4, 8k + 5 or 8k + 1 for one, two, four or eight bytes, 8k for a varint, 8k + 2 for a string or message, followed by its first value |
| ProtoWire.ScalarField | include/boost/rpc/protocol_buffer.hpp:75-87 | a record of a fixed-width field is accepted if and only if the low three bits of its tag are 3, 4, 5 or 1 by its width, and otherwise raises; it then gets the number of its bytes, if they are all there |
| ProtoWire.VarintField | include/boost/rpc/protocol_buffer.hpp:128-153 | a record of a varint field is accepted if and only if the low three bits of its tag are 0, and the field gets the number |
| ProtoWire.TextField | include/boost/rpc/protocol_buffer.hpp:155-177 | a record of a string field is accepted if and only if the low three bits are 2, and the field gets as many bytes as its length says, or unpacking is given up |
| ProtoWire.MessageField | include/boost/rpc/protocol_buffer.hpp:100-127 | so is one of a message field, which raises if its length is more than what is left, and otherwise ends as unpacking its own bytes into what the field holds does |
| ProtoWire.RepeatedField | include/boost/rpc/protocol_buffer.hpp:206-263 | so is one of a repeated field, which gets one element more, read into default values |
| ProtoWire.UnknownKey | include/boost/rpc/protocol_buffer.hpp:265-269 | a tag whose key no field has raises |
| ProtoWire.TagAtEnd | include/boost/rpc/protocol_buffer.hpp:75-263 | a tag with nothing after it leaves a fixed-width field as it is, gives a varint field zero, a string no bytes and a repeated field a default element, and unpacking is given up in all but the first case |
| ProtoWire.CompleteIffNothingMissing | include/boost/rpc/protocol_buffer.hpp:514-521 | packing raises for a required field if and only if a path through sub-messages and repeated elements leads to one that is not set |
| ProtoWire.DefaultsAreBlank | include/boost/rpc/protocol_buffer.hpp:206-238 | default values are zeros, no bytes, unset optionals and no elements, at every depth |
| ProtoStream.MessageCallsEncode | include/boost/rpc/protocol_buffer.hpp:406-554 | the put and write calls of packing, joined, are the pure encoding |
| ProtoStream.PackBase | include/boost/rpc/protocol_buffer.hpp:422-506 | a value is written by exactly its calls, a message after its own packsize |
| ProtoStream.PackField | include/boost/rpc/protocol_buffer.hpp:422-506 | the tag of key and wire type comes first; ProtoWire.FieldStarts has the numbers |
| ProtoStream.PackSize | include/boost/rpc/protocol_buffer.hpp:558-566 | the recursive sizing run gives the length of the encoding, or raises if and only if a required field is unset |
| ProtoStream.PackMessage | include/boost/rpc/protocol_buffer.hpp:465-470 | the visitor writes every field in turn, and raises if and only if a required field at any level is unset |
| ProtoStream.PackItems | include/boost/rpc/protocol_buffer.hpp:532-545 | each element of a repeated field goes under its own tag |
| ProtoStream.Pack | include/boost/rpc/protocol_buffer.hpp:580-585 | sizing, one allocation and a writing run give exactly the encoding, whose tags are in ProtoWire.FieldStarts, with no call turned away |
| ProtoReader.UnpackMessage | include/boost/rpc/protocol_buffer.hpp:302-323 | for any bytes, the tag loop on a stream fills the target, gives up, raises or never ends exactly as the pure decoder says |
| ProtoReader.UnpackField | include/boost/rpc/protocol_buffer.hpp:265-280 | the member with the key is visited, and an unknown key raises |
| ProtoReader.UnpackScalar | include/boost/rpc/protocol_buffer.hpp:75-177 | mismatched wire types raise, a short fixed read changes nothing, a short string gives up; ProtoWire.ScalarField has the numbers |
| ProtoReader.ReadNested | include/boost/rpc/protocol_buffer.hpp:100-127 | a sub-message is read from its own bytes only, and one larger than the buffer raises |
| ProtoReader.ReadMessageItem | include/boost/rpc/protocol_buffer.hpp:206-238 | a repeated message grows by one element, taken off again if it cannot be read |
| ProtoReader.ReadItem | include/boost/rpc/protocol_buffer.hpp:240-263 | a repeated string grows by the bytes its size names |
| ProtoReader.Unpack | include/boost/rpc/protocol_buffer.hpp:593-609 | an empty vector leaves the target, and giving up is not reported |
| Base64.Base64Encode | include/boost/rpc/base64.hpp:47-89 | the block loop with its padded tail computes the encoding |
| Base64.Base64Decode | include/boost/rpc/base64.hpp:92-133 | the block loop with its cut tail computes the decoding of the longest alphabet prefix |
| Base64.SextetsAreTheBlock | include/boost/rpc/base64.hpp:58-61 | the four sextets are the three bytes' 24 bits, most significant first, as section 4 of RFC 4648 asks |
| Base64Bits.SextetsAreWords | include/boost/rpc/base64.hpp:58-61 | the masks and shifts on eight-bit words give those sextets |
| Base64Bits.OctetsAreWords | include/boost/rpc/base64.hpp:108-110 | the decoder's masks, shifts and wrapping sums give the model's three octets, for any words |
| Base64.FindInverse | include/boost/rpc/base64.hpp:34-45 | the lookup inverts the alphabet and fails exactly outside it |
| Base64.JunkNeverEscapes | include/boost/rpc/base64.hpp:118-130 | what the failed lookups put in the tail's missing places never reaches the output |
| Base64.RoundTrip | include/boost/rpc/base64.hpp:47-133 | decoding undoes encoding for every byte string |
| Base64.EncodedLength | include/boost/rpc/base64.hpp:47-89 | four characters for every three bytes begun |
| Base64.EncodeAppend | include/boost/rpc/base64.hpp:55-67 | whole blocks in front encode independently of what follows |
| Base64.EncodeIsCanonical | include/boost/rpc/base64.hpp:69-85 | every encoding is canonical |
| Base64.CanonicalInverse | include/boost/rpc/base64.hpp:92-133 | encoding undoes decoding if and only if the text is correctly padded with zero spare bits |
| Base64.DecodeIgnoresTheRest | include/boost/rpc/base64.hpp:102-103 | nothing from the first character outside the alphabet on matters |
| Base64Text.AlphabetIsTable | include/boost/rpc/base64.hpp:34-41 | the alphabet is the table of RFC 4648, section 4, and the lookup finds each character at its place |
| Base64Text.EncodedAt | include/boost/rpc/base64.hpp:47-89 | character k of group g is the table's for six bits of the group's 24, or a padding sign if the bytes end before those bits |
| Base64Text.DecodedAt | include/boost/rpc/base64.hpp:92-133 | characters of the table decode to three bytes for four, two for three and one for two, each eight bits of its group's 24 |
| ValueRoundTrip.Survives | include/boost/rpc/json/value_io.hpp:104-446 | typed data packed to a JSON value and unpacked into a fresh target is itself if no byte vector in it is empty, and raises otherwise |
| ValueRoundTrip.DictKeysInOrder | include/boost/rpc/json/value_io.hpp:426-438 | a map with string keys becomes an object with those keys in the map's order |
| ValueRoundTrip.MemberLookup | include/boost/rpc/json/value_io.hpp:106-131 | a key is present if and only if a member of that name is packed, and holds that member |
| ValueRoundTrip.EncodedIsPrintable | include/boost/rpc/json/value_io.hpp:416-418 | base64 text survives printing and reading whatever the bytes |
| ValueRoundTrip.CleanIffPlain | include/boost/rpc/json/value_io.hpp:452-467 | the JSON form survives as text if and only if the typed data's reals, strings and names do |
| ValueRoundTrip.TextRoundTrip | include/boost/rpc/json/value_io.hpp:452-494 | plain typed data survives to_json and from_json in either layout |
| ValueRoundTrip.BytesSurviveText | include/boost/rpc/json/value_io.hpp:416-423 | any byte vector that is not empty survives the way through text |
| ValuePack.Pack | include/boost/rpc/json/value_io.hpp:29-64 | packing computes the JSON form for every type |
| ValuePack.PackItems | include/boost/rpc/json/value_io.hpp:294-307 | the array is resized and filled by index |
| ValuePack.PackDict | include/boost/rpc/json/value_io.hpp:426-438 | entries are assigned under their keys in turn |
| ValuePack.PackMembers | include/boost/rpc/json/value_io.hpp:104-131 | members are assigned under their names, unset optionals skipped |
| ValuePack.Unpack | include/boost/rpc/json/value_io.hpp:251-292 | unpacking leaves the target as the pure form says, or raises; ValueForms says what that is for each type and any target |
| ValuePack.UnpackList | include/boost/rpc/json/value_io.hpp:340-349 | elements are appended to what the vector holds |
| ValuePack.UnpackMap | include/boost/rpc/json/value_io.hpp:405-414 | pairs are assigned in turn, a later one replacing an earlier |
| ValuePack.UnpackDict | include/boost/rpc/json/value_io.hpp:439-446 | each key's element is unpacked in place |
| ValuePack.UnpackTuple | include/boost/rpc/json/value_io.hpp:158-185 | parts are read along the array |
| ValuePack.UnpackStruct | include/boost/rpc/json/value_io.hpp:133-145 | members whose names are keys are read, the others keep what they have, as ValueForms.StructOverTarget says of any target |
| ValueForms.StructOverTarget | include/boost/rpc/json/value_io.hpp:133-145 | for any target, by index: a class can be read if and only if each member whose name is a key can, from that key's value into what it holds; it then is that, and every other member keeps what it holds |
| ValueForms.StructOverStruct | include/boost/rpc/json/value_io.hpp:104-145 | one object of a class packed and unpacked over another: a member whose optional was not set keeps what it held, and every other is read from its own packed form into what it held |
| ValueForms.ListOverTarget | include/boost/rpc/json/value_io.hpp:340-349 | reading an array into a vector keeps the old elements in front and adds one for each of the array, read on its own |
| ValueForms.TupleOverTarget | include/boost/rpc/json/value_io.hpp:158-185 | the parts of a fusion sequence are read by position into what the target holds there |
| ValueForms.PairOverTarget | include/boost/rpc/json/value_io.hpp:374-386 | each half of a pair is read from first or second into what the target's half holds |
| ValueForms.MapOverTarget | include/boost/rpc/json/value_io.hpp:405-414 | a map is cleared, and then holds under each key the value of the last pair with it |
| ValueForms.DictOverTarget | include/boost/rpc/json/value_io.hpp:439-446 | a map with string keys is cleared, and then holds under each name what the values under it are read as, one into the other; it cannot be read if and only if one of them cannot |
| ValueForms.TargetIsReplaced | include/boost/rpc/json/value_io.hpp:251-292 | scalars, byte vectors, maps and optionals do not depend on what the target holds |
| ValueForms.WholeIsRead | include/boost/rpc/json/value_io.hpp:254-263 | a number is read as a whole number of 8, 16, 32 or 64 bits if and only if that is its whole part, cut towards zero, and in range |
| ValueForms.BlobForm | include/boost/rpc/json/value_io.hpp:416-423 | a byte vector is null if it is empty and base64 text otherwise, and is read from any string as what that decodes to |
| ValueForms.PairForm | include/boost/rpc/json/value_io.hpp:374-386 | a pair is an object with exactly the keys first and second |
| ValueForms.OptionalIsRead | include/boost/rpc/json/value_io.hpp:287-291 | an optional is set to what the value is read as into a default value |
| ValueForms.DefaultIsBlank | include/boost/rpc/json/value_io.hpp:283-291 | a default value is zero, false, empty or unset at every depth |

## Left out

- Sockets, name resolution, the acceptor, logging, the thread library, the command-line examples: input and output, and libraries whose code is not here; a socket is the sequence of its bytes.
- RawWire.TextOrder: strings, and the bytes of a byte vector likewise, are ordered as unsigned bytes; a set of byte vectors compares them as chars, which may be signed.
- Floating point: numbers are reals. The printer's rounding to millionths, ties to even, is modelled; binary rounding, and the infinity and not-a-number forms of the number rule, are not. A negative number that rounds to zero prints with its sign.
- The raw and protocol-buffer codecs take float and double as bit patterns of their width, and fixed-width values in little-endian byte order.
- JsonGrammar.Read: text after the value is ignored, as the code does not compare the iterator with the end.
- JsonTcp.EndToEnd: a scalar sent on its own never opens a frame and is dropped, so the list received is that of the objects and arrays.
- JsonPretty.PrettyRefinesCompact: asks for values whose strings and keys hold no quote; with one, inside and outside of strings are not what the printer meant.
- RpcBytes.BytesRefineMessages: the write of one message is one step, and so are reading the last byte of a message, on_receive and the write of its reply.
- RpcProtocol.NextKeepsInv: sending, dispatching, and timing out together with the erase are single steps; ids stay below 2^31; handlers act on the peer's objects and do not call back over the connection.
- RpcConnection.Connection.Await: blocking and clocks are the caller's; the method is entered when the promise is set or the time has run out. The promise lives as long as its table entry.
- RpcConnection.Connection.OnRequest: the order in which the two arguments of a handler are evaluated is unspecified; a missing params key is taken to leave a null result beside the error. A method name that is a number or a container is read as the empty name, where the code prints a number into it.
- RpcSignals.SignalTable.HandleEmission: overlapping guards on one connection, and slots that emit in turn, are not modelled. The void result of a subscription is null, and a parameter array of fewer than two elements raises.
- RawCodec.Decode: unpacking is into a fresh target, and has no result for truncated input, endless varints, varints of more than five groups, sizes of 2^31 and more, and repeated map keys, where the code loops, ignores a failed read, or merges.
- RawStream.Unpack: asks, as UnpackList, UnpackSet, UnpackMap and UnpackVec do, that the pure decoder have a result on the bytes.
- Datastream.OutStream.Write: chunks, and reads, are under 2^31 bytes, as the code compares their size as an int.
- ValueRoundTrip.TextRoundTrip: one way only for text; both ways are in Survives, for the JSON value, and CleanIffPlain, for its text.
- Required fields in the raw codec and in typed JSON: the raw unpacking takes a constant stream, and neither has a condition of its own beyond being set.
- ProtoBuf.UnpackMessage: a varint of more than five groups, which the code shifts out of its word, counts as endless; after an exception the target's contents are not described; streams are under 2^32 bytes.
- ProtoStream.Pack: strings and messages are under 2^31 bytes; what a stream holds after a missing required field has raised is not described.
- ProtoReader.Target: the message object itself is updated in place; its sub-messages are values put back after they are read.
- Protocol-buffer repeated scalars and varints, and fusion sequences as messages: packing and unpacking use different wire types (include/boost/rpc/protocol_buffer.hpp:209, 541), and the sequence helper lacks a return (353-356).
- include/boost/rpc/datastream/datastream.hpp, which protocol_buffer.hpp includes for its stream operators, is not part of this model; its varints are taken to be those of raw.hpp.
- ValueIo.FromJson: conversions of numbers out of range and arrays shorter than a fusion sequence have no result; a map is the list of its entries, so the order std::map gives entries that arrive unordered is not captured; float, sets, lists and unset optionals outside structs are not modelled.
- Template and overload dispatch, reflection and the mirror interfaces are replaced by explicit schemas.
