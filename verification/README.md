# A verified model of qbuem-stack

This project models the parts of qbuem-stack that carry its hardest promises and proves those promises for every
input, every run or every interleaving.

* **Requests on a connection.** The HTTP/1.1 parser as a function on values and as an object that is proved equal to
  it; the block scanner for the end of the headers; the read callback that accumulates bytes, parses and dispatches.
  A verdict once reached does not depend on what follows it, parsing undoes printing, and however the network cuts
  the stream, the requests taken off it are a beginning of one and the same sequence. What a handler is given of them
  is read through views into the buffer after the buffer has moved; when that is still the request is characterised
  exactly. Feeding one parser piece by piece, as the frame codec does, is another matter again: the places at which
  that works are characterised exactly too.
* **Responses.** Chunked framing, streaming while a handler runs over a socket that takes what it likes, the buffered
  form for every sequence of calls a handler can make, both read back from the first byte of the header by a client that
  follows sections 3.3.3 and 4.1 of RFC 7230; and the scatter-gather write.
* **Routing.** The radix tree as a table of nodes, proved to be a map from route shapes to handlers; the search with
  backtracking, proved to answer as a plain matcher over the inserted patterns does and to leave the parameter map in
  a closed form.
* **Reactors.** The io_uring reactor as a machine of one-shot tokens that refines a plain table of subscriptions; the
  epoll reactor's table and interest list; the wake-up protocol between posting threads and the poller.
* **Timers.** The four-level hashed timer wheel, proved to refine a flat table of firing times, with the exact set of
  delays for which it fires late; the walk along the linked list of a slot, node by node, while callbacks cancel
  and schedule timers; and whole ticks with such callbacks.
* **Channels.** The lock-free ring behind the asynchronous channel, one atomic access per step.
* **An application.** The game server's registry, with conservation laws over every run.
* **Encodings.** The base64url encoder, percent-encoding, and the comparison of secrets.

Bytes are modelled as characters where the code works on text. Kernel answers, callbacks and schedules are parameters
and range over everything possible. Loops and mutated objects of the source are methods and classes here; each is tied
by its postcondition to a function on values, about which the laws are proved.

Some promises turned out not to hold as they stand. Each has an input that shows it and the exact condition under which
it does hold:

* A timer fires at its deadline exactly if its delay is 1 to 255 ms, or at least 256 ms with a deadline that is not a
  multiple of 256; otherwise 256 ms late (`TimerWheel.FiredAtDeadlineIff`).
* A parser that is given a request in two pieces, the unconsumed rest of the first kept, gives the verdict of a fresh
  parser on both, whatever the second piece is, exactly if nothing had arrived, or the body was awaited, or a chunk-size
  line other than the one behind the last chunk (`ParserResume.ResumesIff`). The frame codec keeps no rest; it needs in
  addition that nothing was left unread but leading zeros of a chunk size (`CodecResume.CodecGoesOnIff`).
* A request is a set of views into the receive buffer, and the buffer loses its first bytes before the request is
  routed. What the router and the handler read is what was parsed exactly if each byte under a view equals the byte that
  moves there: of what arrived behind the request, the terminator, or an old one (`ErasedViews.SeenIsParsedIff`,
  `Connection.FaithfulIff`). Nothing behind the request is enough (`ErasedViews.NothingBehind`). Of two requests in one
  read, with verbs and targets of the same lengths, the first is routed to the target of the second; in reads of their
  own, to its own (`Pipelined.CutChangesPath`; `Pipelined.OneBecomesTwo` for "/one" and "/two"). So what is dispatched
  is independent of the cut where no request is disturbed (`Connection.CutsDispatchAlike`, `Connection.UnharmedIff`).
* A path without dots and percent signs, in which there is nothing to guard against, passes the path guard exactly if it
  does not have two bytes: there the unsigned length less three wraps around to the value that means "not found"
  (`Connection.PlainPathRejectedIff`).
* A read takes at most one request, so pipelined requests have all been taken exactly if no tail of the reads completes
  more requests than it has reads (`Connection.TakenUpIff`), and have been dispatched as they were sent exactly if,
  besides, none was disturbed (`Connection.CaughtUpIff`). Two well-formed requests in one read are the failing input
  (`Pipelined.OneReadDispatchesOne`); one read for each is always enough (`Pipelined.OwnReadsDispatchAll`).
* A buffered chunked response without an `end_chunks` is never sent (`BufferedBody.NeverSent`). With one, a reader of the
  chunked coding finds it malformed if anything but trailers and empty writes follows the first, waits for ever for the
  empty line if no trailer does, as in the documented use without trailers (`BufferedBody.NoTrailerWaits`), and otherwise
  has everything that was written, and nothing left over, exactly if the trailers, which nothing checks, are fields
  (`BufferedBody.BufferedReading`, `BufferedBody.WholeResponseIff`).
* A streamed response is read back whole exactly if the handler did not call `end_chunks` as well, which the end of the
  stream then repeats; if it did, the stream is malformed (`ResponseStream.StreamReadsIff`).
* A route's parameters are all delivered exactly if no name that one of them takes is erased at a later one, because the
  literal alternative there leads along the path to a parameter of that name (`RouteSearch.BindingsDeliveredIff`);
  distinct names on each path are enough (`RouteSearch.BindingsAreExact`), and two inserted routes lose a binding
  (`RouterObject.LoseBinding`).
* A callback of the epoll reactor is the one registered when it runs exactly if it is a read callback, or the read
  callback of the same event left the write entry as it was (`Epoll.WriteIsCurrentIff`, `Epoll.StaleWriteRuns`).
* Firing a slot stays on nodes in use exactly if no callback cancels the timer then next in line
  (`SlotWalk.FireSlot`, `SlotWalk.SecondCancelled`), and a whole tick does exactly if that is so at each of its instants
  (`TimerReentry.Tick`).

Where code and documentation disagree the model follows the code: the game server's special attack has a cooldown that
nothing checks (`Game.CooldownIsNotEnforced`).

## Model

| member | source | states |
|---|---|---|
| ParserProperties.VerdictIsFinal | src/http/parser.cpp:139-409 | a parser that completed, or that failed once the headers had ended, gives the same request, body, status and count on the same bytes followed by anything |
| ParserProperties.CompleteConsumes | src/http/parser.cpp:296-405 | a complete request consumes at least one byte and never more than there are |
| ParserProperties.SizeIsHexValue | src/http/parser.cpp:333-347 | a chunk size is accepted exactly if its token is hexadecimal and its value within the limit, and then it is that value: no wrap-around |
| ParserProperties.CompleteIsBounded | src/http/parser.cpp:250-284 | on completion the body is within its limit, the headers within theirs and within 32, and no header value holds a line break |
| ParserProperties.RefusalExplained | src/http/parser.cpp:139-409 | whatever the bytes are, a refusal is with 400 or 413 |
| ParserProperties.LookupIff | include/qbuem/http/request.hpp:93-99 | a header lookup finds the value of the first header with that key, and the empty text if there is none |
| ParserProperties.MethodIff | include/qbuem/http/request.hpp:49-60 | a text stands for the method of that name, letter by letter, and for none if there is no such method |
| ParserProperties.ChunksBounded | src/http/parser.cpp:314-405 | the decoded body and what is left of the current chunk never exceed the limit together, at any point of the chunk loop |
| ParserProperties.DataTaken | src/http/parser.cpp:363-383 | inside a chunk as many bytes are taken as there are and it needs; they go to the body, in order, and off what it needs |
| ParserProperties.ScanExtend | src/http/parser.cpp:164-291 | the header scan stops where it stopped when bytes are appended |
| ParserProperties.ChunksExtend | src/http/parser.cpp:314-405 | the chunk loop reaches the same verdict when bytes are appended |
| ParserResume.ResumesIff | src/http/parser.cpp:139-409 | a fresh parser without a verdict on the first piece, given the unconsumed rest and any second piece, gives the verdict of a fresh parser on both together, for all second pieces exactly if nothing had arrived, or it stopped in the body, or before a size line and not behind the one of the last chunk |
| ParserResume.ResumableResumes | src/http/parser.cpp:296-405 | at those stops the same request ends at the same byte, or the same status is reported, whatever follows |
| ParserResume.StopInData | src/http/parser.cpp:164-383 | at every stop inside the data of a chunk there is a second piece with another verdict, however much of the first is kept |
| ParserResume.StopInDataEnd | src/http/parser.cpp:164-399 | the same at every stop before the line break behind a chunk |
| ParserResume.StopBehindLast | src/http/parser.cpp:319-361 | the same behind the size line of the last chunk: the closing line break is read as another size line |
| ParserResume.StopInHeaders | src/http/parser.cpp:164-291 | the same at every stop in the headers with the empty line in the buffer |
| ParserResume.StopBeforeEmptyLine | src/http/parser.cpp:139-161 | the same before the empty line: the bytes were counted and forgotten |
| CodecResume.CodecGoesOnIff | include/qbuem/codec/http1_codec.hpp:72-90 | the codec, which drops an incomplete buffer, reports for all second buffers what a parser says of the whole exactly if the stop is one of those above and nothing was left unread but leading zeros of a chunk size |
| CodecResume.Http1Codec.Decode | include/qbuem/codec/http1_codec.hpp:72-90 | complete, incomplete or failed as the parser says; what is left of the buffer is what lies behind a complete request |
| CodecResume.DecodeTwo | include/qbuem/codec/http1_codec.hpp:72-90 | two calls of decode on two buffers report what one parse of both does, under the condition |
| HttpParser.Parse | src/http/parser.cpp:139-161 | no count is returned exactly if the parser is in its error state, from any state and for any bytes |
| HttpParser.StepChunk | src/http/parser.cpp:319-401 | one turn of the chunk loop stays inside the buffer, moves forward or changes phase, and fails exactly by error state |
| ParserObject.ParserState.Parse | src/http/parser.cpp:139-409 | the object that changes its fields byte by byte ends in the state, and returns the count, of the parsing function |
| ParserObject.ParserState.ScanHeaders | src/http/parser.cpp:164-291 | the byte loop over request line and headers computes the scan |
| ParserObject.ParserState.StepByte | src/http/parser.cpp:168-288 | one byte of the state machine |
| ParserObject.ParserState.FinishHeaders | src/http/parser.cpp:207-248 | the choice of framing at the end of the headers |
| ParserObject.ParserState.FinishValue | src/http/parser.cpp:261-284 | trimming, the line-break check and the size limit of a header value |
| ParserObject.ParserState.ReadChunkSize | src/http/parser.cpp:333-347 | the digit loop leaves the size, or the partial size and the error status, in the parser |
| ParserObject.ParserState.ReadChunks | src/http/parser.cpp:314-405 | the chunk loop computes the decoded body |
| ParserObject.ParserState.ReadBody | src/http/parser.cpp:296-409 | fixed-length, chunked and absent bodies |
| HeaderScan.FindHeaderEnd | src/http/parser.cpp:27-120 | for every input, block width and mask layout, also the one with four bits per lane, the result is the least offset of the empty line, or none if there is none |
| HeaderScan.ScanBlock | src/http/parser.cpp:28-107 | the result of one block, visited by its mask, is a match, and there is none below it in the block |
| HeaderScan.ClearsLowest | src/http/parser.cpp:28-107 | clearing the lowest set bit removes exactly the position that was found |
| RequestRoundTrip.PrintParse | src/http/parser.cpp:164-409 | a well-formed request, printed and followed by any bytes, parses back exactly and consumes exactly its length if its headers are within the charged limit (key bytes count twice), and is refused with 400 otherwise |
| RequestRoundTrip.ReadsHead | src/http/parser.cpp:164-248 | request line and headers of a printed request are read back in order |
| RequestRoundTrip.PayloadCompletes | src/http/parser.cpp:296-405 | an announced payload behind the empty line completes the request with exactly its bytes |
| HeadDecision.HeadDecides | src/http/parser.cpp:207-248 | every printed head within the limit, whatever follows, by the first header of each framing key: both announced, or a length that is no numeral, 400; a length above the limit, 413; one within it, exactly so many bytes or a wait for them; chunks if announced; otherwise a request without body |
| HeadDecision.HeadTooLong | src/http/parser.cpp:250-284 | a head beyond the charged limit is refused with 400, whatever it announces |
| ChunkCodec.HexRoundTrip | src/http/response.cpp:25-34 | the hexadecimal numeral of a length has that length as its value |
| ChunkCodec.ReadsFrames | src/http/parser.cpp:314-405 | frames add exactly their data to the body, whatever stands behind them |
| ChunkCodec.DecodesFrames | src/http/parser.cpp:314-405 | frames closed by the last chunk decode to the concatenation of the writes, and the loop stops exactly behind them |
| RequestViews.ViewsRead | src/http/parser.cpp:164-312 | the views that the byte loop makes of a complete request lie behind its first byte and within what it consumed, and read exactly the request that was parsed |
| ErasedViews.SeenIsParsedIff | src/qbuem_stack.cpp:900-918 | after the erase, the views read the request that was parsed exactly if every byte they cover equals the one that is moved there |
| ErasedViews.NothingBehind | src/qbuem_stack.cpp:900-918 | a request that ends the buffer is handed on as it was parsed |
| ErasedViews.SameBehind | src/qbuem_stack.cpp:900-918 | so is one with the same bytes once more behind it |
| ErasedViews.PathBetween | include/qbuem/http/request.hpp:248-260 | the path's view is what stands between the first two spaces |
| Connection.FaithfulIff | src/qbuem_stack.cpp:900-918 | for the server: what is dispatched on a buffer is what was parsed exactly if nothing under the views is disturbed |
| Connection.CutsAgree | src/qbuem_stack.cpp:746-920 | for any two ways of cutting the same bytes into reads, one run takes a beginning of the requests the other takes, as they were parsed, and both a beginning of what parsing the uncut stream yields |
| Connection.UnharmedIff | src/qbuem_stack.cpp:762-918 | over every run, what is dispatched is what was taken exactly if no buffer from which a request was taken disturbs it |
| Connection.CutsDispatchAlike | src/qbuem_stack.cpp:746-920 | for any two such cuts that disturb no request, one run dispatches a beginning of what the other does, and both a beginning of what the uncut stream yields |
| Connection.ReceiveFollows | src/qbuem_stack.cpp:762-920 | a read takes the next request of the stream exactly if the stream now holds it whole and it is to be served, and dispatches what is seen of it after the erase; the connection stays open exactly if the request as seen keeps it, or none is whole and the rest is not refused; a read of nothing only closes it; the buffer is the stream behind the requests taken |
| Connection.RunFollows | src/qbuem_stack.cpp:762-909 | over every sequence of reads: the requests taken are the first ones of the stream as parsed, each with one dispatched, and the buffer is what is behind them |
| Connection.RunKept | src/qbuem_stack.cpp:911-918 | nothing is dispatched behind a request that, as it was seen, ends the connection, nor more than a hundred requests |
| Connection.TakenUpIff | src/qbuem_stack.cpp:771-909 | while the connection is open, all whole requests have been taken exactly if no tail of the reads completed more requests than it has reads |
| Connection.CaughtUpIff | src/qbuem_stack.cpp:771-918 | they have been dispatched as they were parsed exactly if, besides, none was disturbed |
| Connection.AtMost | src/qbuem_stack.cpp:771-909 | the requests taken, on an open or a closed connection, never exceed those whole after any number of reads plus one for each later read |
| Connection.Backlog | src/qbuem_stack.cpp:771-909 | for some number of reads that bound is met exactly |
| Connection.PlainPathRejectedIff | src/qbuem_stack.cpp:828-838 | a path without dots and percent signs is refused exactly if it has two bytes |
| ConnectionRules.PathRejectedIff | src/qbuem_stack.cpp:828-838 | the guard refuses exactly the paths with "/../" in them, that end in their first "/..", with one of four encoded forms in them, or of two bytes |
| ConnectionRules.AloneOutcome | src/qbuem_stack.cpp:825-918 | a message in a read of its own: refused by the guard with 400; handed over exactly if its target is a WebSocket route and its first Upgrade says so in any case; otherwise dispatched, and the connection left open exactly if its first Connection, if any, is not "close", fewer than a hundred have been handled and it is let through |
| ConnectionRules.AwaitsBody | src/qbuem_stack.cpp:798-812 | a head whose announced body is not all there: the connection waits, and writes 100 exactly if the first Expect asks for it and none was written for this request |
| ConnectionRules.AsksAtFirst | src/qbuem_stack.cpp:798-812 | so it is on the first read of a connection |
| ConnectionRules.RefusedOutcome | src/qbuem_stack.cpp:781-796 | a refused head is answered with the parser's status and the connection closed |
| ConnectionRules.SaidInTurn | src/qbuem_stack.cpp:781-844 | over every run, 100 is written at most once for each request, a refusal is with 400 or 413, and nothing is written behind it |
| Connection.StaysOpen | src/qbuem_stack.cpp:762-918 | a connection is open after reads that all bring bytes, if every request is to be served and, as it is seen, keeps it, and what is behind them is never refused |
| Pipelined.OneReadDispatchesOne | src/qbuem_stack.cpp:762-909 | any number of well-formed requests in one read are all whole for the parser, and at most one is dispatched |
| Pipelined.OwnReadsDispatchAll | src/qbuem_stack.cpp:762-918 | well-formed requests that come in a read each are all dispatched, in order and as they were sent, as long as each keeps the connection |
| Pipelined.SecondTargetSeen | src/qbuem_stack.cpp:900-909 | with two requests in the buffer, verbs and targets of the same lengths, the path seen of the first is the target of the second, whatever follows |
| Pipelined.CutChangesPath | src/qbuem_stack.cpp:762-1063 | the same two in one read and in two: the first is dispatched with the second's path, and with its own |
| Pipelined.OneBecomesTwo | src/qbuem_stack.cpp:762-1063 | that is so for GET /one and GET /two, on every server |
| Pipelined.PipelineOfMessages | src/http/parser.cpp:139-409 | parsing the concatenation of any printed requests yields exactly them |
| Connection.ParserIsStable | src/qbuem_stack.cpp:775-779 | the parser made afresh for each buffer is a reader whose whole requests do not depend on later bytes |
| Connection.ConnCtx.OnReadable | src/qbuem_stack.cpp:757-918 | the read callback computes the receiving function, on the whole state of the connection and the statuses it writes, and closes it on an empty or failed read |
| Connection.ParseBuffer | src/qbuem_stack.cpp:775-816 | the verdict on the buffer: refused, incomplete with or without an expectation, or whole |
| Connection.ConnCtx.Dispatch | src/qbuem_stack.cpp:828-918 | path guard and upgrade on the request as parsed, then the erase, then the keep-alive decision and the dispatch on what the views read |
| SocketWrite.WritevResponse | src/qbuem_stack.cpp:152-188 | under any answers of the kernel, the bytes on the wire are those one plain write of header and body would put there: a beginning of both, in order, once |
| SocketWrite.WriteAll | src/qbuem_stack.cpp:86-101 | the bytes on the wire are the first ones, as many as the kernel's answers allow |
| SocketWrite.Writev | src/qbuem_stack.cpp:167-187 | after each call the vector holds exactly the unsent rest |
| SocketWrite.Advance | src/qbuem_stack.cpp:176-187 | advancing the vector drops exactly the bytes taken |
| SocketWrite.AllSentIff | include/qbuem/core/awaiters.hpp:93-128 | everything is sent exactly if enough room is offered before the first answer that stops the loop |
| SocketWrite.EndsAtFirst | src/qbuem_stack.cpp:86-101 | the first answer that is neither bytes taken, nor a signal or a drained buffer for the blocking writers, nor a full buffer for the coroutine, ends the loop: what was offered before it is sent, no more |
| SocketWrite.OfferDecides | include/qbuem/core/awaiters.hpp:93-128 | without such an answer, what is offered is sent, no more than there is |
| ResponseStream.RunTracks | src/http/response.cpp:25-115 | whatever the handler writes, ends, adds as trailers and flushes, and whatever the socket answers, the client has a beginning of the ideal stream; a live stream has sent or holds all of it |
| ResponseStream.CleanRun | src/http/response.cpp:48-82 | without failures, a finished stream is exactly one header, what the calls add and the last chunk, and the byte count is its length |
| ResponseStream.FlushesLeaveNoTrace | src/http/response.cpp:48-82 | where a handler flushes makes no difference to the bytes sent |
| ResponseStream.StreamReadsIff | include/qbuem/middleware/sse.hpp:108-118 | a reader of the chunked coding (section 4.1 of RFC 7230) has everything that was written to a finished stream and nothing left over exactly if the handler made no end_chunks call, and finds it malformed otherwise |
| ResponseStream.StreamResponse | src/http/response.cpp:48-82 | the same for a client that begins with the first byte: it finds the framing line in the head and reads on behind it |
| ResponseStream.StreamDecodes | src/http/response.cpp:25-82 | the server's own chunk loop decodes a finished stream without such a call to the concatenation of the writes and consumes all of it |
| ResponseStream.StreamedIff | src/http/response.cpp:48-82 | a response counts as streamed, and its header as sent, exactly from the first flush or end on |
| ResponseStream.LateHeader | src/http/response.cpp:48-82 | header lines set after the first flush change no byte on the wire, whatever follows |
| ResponseReader.FramesRead | src/http/response.cpp:25-34 | a reader of the chunked coding reads the frames of any writes as those writes, whatever its verdict on the rest |
| ResponseReader.FramesThenZero | src/http/response.cpp:25-44 | frames and a last chunk leave the verdict to what follows, read as a trailer |
| BufferedBody.BufferedReading | src/qbuem_stack.cpp:1003-1019 | for every sequence of chunk, end_chunks and trailer calls with an end_chunks in it, the verdict of a reader of the chunked coding: malformed if anything but trailers and empty writes follows the first end; waiting if no trailer does; otherwise everything written before it, and nothing left over, exactly if the trailers are fields |
| BufferedBody.WholeResponseIff | src/http/response.cpp:25-115 | everything written reaches the reader with nothing left over exactly if all that follows the first end_chunks is empty writes and trailers, at least one and every line of them a field |
| BufferedBody.NoTrailerWaits | include/qbuem/http/response.hpp:58-75 | the documented use without trailers leaves the reader waiting, whatever was written |
| ResponseHead.SizedRead | src/http/response.cpp:161-168 | a client that finds the first Content-Length in the head, a numeral of the body's length, has exactly the body, and nothing left over |
| ResponseHead.ChunkedHead | src/http/response.cpp:161-168 | one that finds "Transfer-Encoding: chunked" goes on with the chunked coding right behind the head |
| ResponseStream.PlainResponse | src/http/response.cpp:137-175 | without an end_chunks the client has the body that was set, by the length the header gives, and nothing left over |
| ResponseStream.ChunkedResponse | src/qbuem_stack.cpp:1003-1019 | with one, the client's verdict on the whole response is the one fixed by what follows it |
| BufferedBody.NeverSent | src/http/response.cpp:25-44 | without end_chunks nothing that was written is sent, whatever trailers were added |
| BufferedBody.BeforeEnd | src/http/response.cpp:25-100 | before end_chunks the buffer is the frames of the writes, and trailers are dropped |
| BufferedBody.TrailersRead | src/http/response.cpp:102-115 | a trailer block is read to its end exactly if every line of its trailers is a field |
| BufferedBody.TrailersProper | src/http/response.cpp:102-115 | so it is if the names are tokens and the values have one line |
| ResponseReader.FieldIff | src/http/response.cpp:102-115 | a line is a field exactly if a colon follows a name of at least one token character (section 3.2.6 of RFC 7230) |
| ResponseStream.Response.Chunk | src/http/response.cpp:25-34 | a write adds its frame, an empty one nothing, to the stream and to what is held |
| ResponseStream.Response.FlushNow | src/http/response.cpp:48-64 | a flush sends the header once and the pending frames; a socket that does not take all is dead |
| ResponseStream.Response.FlushEnd | src/http/response.cpp:66-82 | the end sends what is pending and the last chunk, and closes the stream |
| ResponseStream.Response.SendBuffered | src/qbuem_stack.cpp:1003-1019 | for every buffer and every answer of the kernel: what the socket takes of header and body, then of the trailer block |
| ResponseStream.Respond | src/qbuem_stack.cpp:1003-1019 | a buffered response from the first call to the last byte: under all calls and answers the bytes sent; if the socket takes everything, the header framed by what the calls were and the body they amount to, which a client reads back by the header's own length where no end_chunks was called |
| ResponseStream.DecimalRoundTrip | src/http/response.cpp:161-168 | the printed content length has that length as its value for the parser |
| RouteTree.LinkWalk | src/http/router.cpp:12-39 | a new node is reached by its own shape and by no other; every other shape leads where it led |
| RouteTree.EmplaceFinds | include/qbuem/http/router.hpp:118-123 | inserting a child in order makes it, and leaves every other, findable |
| RouteSearch.SearchFromRoot | src/http/router.cpp:41-80 | a handler is found exactly if some route fits; it is that of the route preferred to all others that fit; the map is in closed form |
| RouteSearch.HitIsBest | src/http/router.cpp:47-80 | below any node: the route settled on is literal where it first differs from any other route that fits |
| RouteSearch.SearchSettles | src/http/router.cpp:47-80 | the map after a success is the old one with the route's bindings less the lost names, after a failure the old one less the tried names |
| RouteSearch.TriedIff | src/http/router.cpp:47-80 | a name is tried exactly if the path, followed along some route and not yet at its end, leads to a parameter of that name |
| RouteSearch.LostIff | src/http/router.cpp:47-80 | a name is lost exactly if at some parameter of the route found the literal alternative leads along the path to a parameter of that name, and the route takes the name neither there nor later |
| RouteSearch.BoundIff | src/http/router.cpp:61-77 | a route binds exactly the names of its parameters |
| RouteSearch.BindingsAreExact | src/http/router.cpp:61-77 | with no name repeated below itself and none in the map, a failure leaves the map unchanged and a success adds exactly the route's bindings |
| RouteSearch.BindingsDeliveredIff | src/http/router.cpp:61-77 | every binding of the route found is delivered exactly if no parameter of it takes a name that is erased at a later one |
| RouteSearch.NothingLost | src/http/router.cpp:61-77 | if no name repeats below itself, no binding is lost, whatever was tried |
| RouteRules.ShadowedBindingIsLost | src/http/router.cpp:61-77 | in every tree that holds two certain routes, a path for which the outer binding of the route found is lost |
| RouterObject.LoseBinding | src/http/router.cpp:12-80 | inserting the two routes and searching gives the map without that binding |
| RouteRules.SearchIsPlain | src/http/router.cpp:12-80 | whatever routes were inserted in whatever order, the tree search returns what a plain matcher over the list of patterns returns |
| RouteSearch.KnownIffMatched | src/http/router.cpp:100-129 | a path is known exactly if some method matches it: what tells 405 from 404 |
| RouteSearch.PrefixAnswers | src/http/router.cpp:100-117 | where no route of the tree fits, the first prefix route that covers the request answers, with what the path has behind the prefix under "**" and the other names as the search left them |
| RouteSearch.NothingAnswers | src/http/router.cpp:100-117 | where none does either, there is no handler and no new name |
| RouterObject.LowerBound | include/qbuem/http/router.hpp:118-123 | the binary search finds where a key belongs |
| RouterObject.FindChild | include/qbuem/http/router.hpp:89-112 | scan and binary search find the same child |
| RouterObject.RadixTree.Insert | src/http/router.cpp:12-39 | the pattern's shape gets the handler, every other shape keeps its own, and a parameter keeps its first name |
| RouterObject.RadixTree.InsertAll | src/http/router.cpp:12-39 | after any sequence of routes, each shape has the handler it was last given, and each parameter the name it was first given |
| RouterObject.RadixTree.Lookup | src/http/router.cpp:41-45 | a search returns the answer of the plain matcher over the routes inserted so far |
| RouterObject.RadixTree.Extend | src/http/router.cpp:14-37 | following a pattern makes the missing nodes and changes no handler |
| RouterObject.RadixTree.Descend | src/http/router.cpp:20-36 | one step down, to the child there is or a new one |
| RouterObject.RadixTree.NameEnd | src/http/router.cpp:17-20 | a parameter's name ends at the next slash |
| RouterObject.Router.AddRoute | src/http/router.cpp:83-86 | a route changes one shape in the tree of its method |
| RouterObject.Router.AddPrefixRoute | src/http/router.cpp:95-98 | every request covered by a prefix route before still goes to the same one; any other goes to the new one exactly if that covers it |
| RouterObject.Router.MatchRequest | src/http/router.cpp:100-117 | the answer, in terms of the calls that built the router: the plain matcher over the routes of the method, then the first prefix route that covers the request; and the map |
| RouterObject.Router.PathExists | src/http/router.cpp:119-129 | true exactly if the path is known |
| IoUring.RunRefines | src/core/io_uring_reactor.cpp:160-392 | every run, with callbacks acting between any two completions, is a run of a plain table of persistent subscriptions |
| IoUring.StepKeeps | src/core/io_uring_reactor.cpp:160-392 | every step keeps keys and live operations in one-to-one correspondence, one completion owed to each, and never reissues a token |
| IoUring.ReactorIsSafe | src/core/io_uring_reactor.cpp:182-247 | over every run, nothing is called after its registration ended: not after an unregister, not after an error, and no timer twice |
| IoUring.NeverAfterEnd | src/core/io_uring_reactor.cpp:285-384 | the same for every trace the table allows |
| IoUring.CalledWasAdded | src/core/io_uring_reactor.cpp:285-384 | what is in the table was added, and has not ended since |
| IoUring.CompletionsReachTheirOwner | src/core/io_uring_reactor.cpp:285-384 | each live operation is owed exactly one completion, and a completion reaches the registration its token was issued to or nobody |
| IoUring.DispatchShows | src/core/io_uring_reactor.cpp:285-384 | over every run, the next completion of a live token is heard of by the registration it was issued to: called if it succeeded or is the wake-up's, dropped if not; no other completion is heard of |
| IoUring.HeardOfOnce | src/core/io_uring_reactor.cpp:285-384 | conversely every call comes from a completion of that registration that succeeded, or the wake-up's, and every drop from one that failed |
| IoUring.TimerSettles | src/core/io_uring_reactor.cpp:200-247 | a timer for which no completion is outstanding has been disarmed, or called and never again, or its operation failed |
| IoUring.WatchKeepsIff | src/core/io_uring_reactor.cpp:160-177 | registering keeps the invariant exactly if the key is free |
| IoUring.DoubleWatchFiresAfterUnwatch | src/core/io_uring_reactor.cpp:160-195 | registered twice and unregistered once, the first callback still fires |
| IoUringObject.PollKeeps | src/core/io_uring_reactor.cpp:252-392 | a poll whose callbacks register nothing twice keeps the invariant |
| IoUringObject.DrainIsPlay | src/core/io_uring_reactor.cpp:285-384 | a poll, callbacks included, is a run of the machine |
| IoUringObject.TurnRuns | src/core/io_uring_reactor.cpp:285-384 | a turn of a poll runs a callback's actions exactly if the completion's token is live and it succeeded or is the wake-up's |
| IoUringObject.Reactor.RegisterEvent | src/core/io_uring_reactor.cpp:160-177 | a fresh token for the subscription |
| IoUringObject.Reactor.UnregisterEvent | src/core/io_uring_reactor.cpp:182-195 | token and operation leave both maps together |
| IoUringObject.Reactor.RegisterTimer | src/core/io_uring_reactor.cpp:200-231 | a fresh timer number and a fresh token |
| IoUringObject.Reactor.UnregisterTimer | src/core/io_uring_reactor.cpp:236-247 | a timer that fired or never was is left alone |
| IoUringObject.Reactor.HandleEvent | src/core/io_uring_reactor.cpp:285-384 | one completion, and the callback it reaches if any |
| IoUringObject.Reactor.PollOnce | src/core/io_uring_reactor.cpp:252-392 | every collected completion is handled, in order, with the callbacks' actions in between |
| Wakeup.NoLostWakeup | src/core/io_uring_reactor.cpp:296-315 | under every interleaving, a queued task is signalled, about to be, or about to be taken; executed, taken and queued tasks together are the posted ones in order |
| Wakeup.StepKeeps | src/core/epoll_reactor.cpp:189-200 | each of push, signal, report, clear, swap, re-arm and execute keeps this |
| Wakeup.RunCounts | src/core/epoll_reactor.cpp:243-252 | over every run, what counts as posted is what was pushed, the posters under way are those that have not signalled, and a one-shot wake-up is reported once for each time it is armed |
| Wakeup.QuietMeansDone | src/core/io_uring_reactor.cpp:394-402 | when nothing but a new post can happen, every posted task has run |
| Wakeup.EverythingRuns | src/core/epoll_reactor.cpp:243-252 | under every schedule, everything posted is executed once and in order after finitely many steps |
| Wakeup.Settle | src/core/epoll_reactor.cpp:175-252 | letting the steps under way run ends, in a state where nothing is left to do |
| Epoll.PollLeavesAgreement | src/core/epoll_reactor.cpp:15-241 | when a poll has returned, whatever callbacks did: a descriptor with callbacks is watched for input exactly if it has a read callback, for output exactly if it has a write callback, one-shot and armed; timers and the wake-up descriptor for input only, always; nothing else is watched, and the timer maps are inverse |
| Epoll.StepKeeps | src/core/epoll_reactor.cpp:96-241 | every registration, event and re-arming keeps the agreement, up to descriptors whose turn is still to come |
| Epoll.DrainKeeps | src/core/epoll_reactor.cpp:183-238 | handling all events with their callbacks restores the agreement |
| Epoll.WatchKeepsIff | src/core/epoll_reactor.cpp:96-109 | registering keeps the agreement exactly if the descriptor is not a timer's or the wake-up descriptor, which the kernel refuses to add again |
| Epoll.HandleInvokes | src/core/epoll_reactor.cpp:217-237 | an event invokes exactly the callbacks registered when it is taken up, in the directions reported, reading first |
| Epoll.EventInvokes | src/core/epoll_reactor.cpp:183-238 | the same for every event: a timer's callback once, a descriptor's as registered and reported, and no other |
| Epoll.EventSets | src/core/epoll_reactor.cpp:183-238 | behind an event every callback is as the last action that names it, of what the event made run, left it |
| Epoll.EventTimers | src/core/epoll_reactor.cpp:203-215 | a timer is pending behind an event exactly if it was, the event is not its own, and nothing that runs disarms it |
| Epoll.TimerArmed | src/core/epoll_reactor.cpp:131-173 | a timer armed by an action has the next number and the kernel's descriptor, and is pending behind the rest exactly if none disarms it |
| Epoll.WaitDisarms | src/core/epoll_reactor.cpp:175-183 | the kernel's report disarms exactly the reported descriptors that are watched one-shot |
| Epoll.WriteIsCurrentIff | src/core/epoll_reactor.cpp:217-237 | the write callback invoked is the one then registered exactly if no read callback ran, or the last thing that one did to the write entry, if anything, was to register the same callback |
| Epoll.StaleWriteRuns | src/core/epoll_reactor.cpp:217-237 | both directions reported and a read callback that unregisters writing: the write callback runs all the same |
| Epoll.EntryAfter | src/core/epoll_reactor.cpp:96-129 | after any actions a table entry is as the last of them that names it left it |
| Epoll.EpollReactor.UpdateEpoll | src/core/epoll_reactor.cpp:76-94 | the kernel is told the directions that have a callback |
| Epoll.EpollReactor.RegisterEvent | src/core/epoll_reactor.cpp:96-109 | one direction of one descriptor gets the callback |
| Epoll.EpollReactor.UnregisterEvent | src/core/epoll_reactor.cpp:111-129 | the entry goes when its last callback does |
| Epoll.EpollReactor.RegisterTimer | src/core/epoll_reactor.cpp:131-160 | both timer maps and the interest list get the new timer, or the kernel failed and nothing changes |
| Epoll.EpollReactor.UnregisterTimer | src/core/epoll_reactor.cpp:162-173 | both timer maps and the interest list lose it |
| Epoll.EpollReactor.HandleDescriptor | src/core/epoll_reactor.cpp:217-237 | copies of both callbacks run and are recorded, then the descriptor is watched again if anything is left |
| Epoll.EpollReactor.HandleTimer | src/core/epoll_reactor.cpp:203-215 | a timer is unregistered before its callback runs |
| Epoll.EpollReactor.PollOnce | src/core/epoll_reactor.cpp:175-241 | all reported events, in order: wake-up, timers, descriptors |
| TimerWheel.FiredAtDeadlineIff | include/qbuem/core/timer_wheel.hpp:124-196 | a timer has fired by its deadline exactly if the delay is 1 to 255, or at least 256 with a deadline not divisible by 256; otherwise it fires 256 ms later |
| TimerWheel.ZeroDelayMissesNextTick | include/qbuem/core/timer_wheel.hpp:124-196 | a timer of no delay does not fire at the next tick |
| TimerWheel.PendingUntil | include/qbuem/core/timer_wheel.hpp:124-196 | whatever else is scheduled, cancelled or ticked, a timer is pending until its firing time and not after |
| TimerWheel.AddIff | include/qbuem/core/timer_wheel.hpp:124-145 | a new timer gets the next number exactly if the pool has room, and otherwise nothing changes |
| TimerWheel.PoolHolds | include/qbuem/core/timer_wheel.hpp:124-145 | over every sequence of calls the pool is never exceeded |
| TimerWheel.PlaceIs | include/qbuem/core/timer_wheel.hpp:274-293 | an entry goes to the highest level whose slots are no wider than the time left, and there to the slot that covers its deadline |
| TimerWheel.NeverAgain | include/qbuem/core/timer_wheel.hpp:153-196 | a timer that fired or was cancelled never comes back |
| TimerWheel.FireTracks | include/qbuem/core/timer_wheel.hpp:332-360 | the slot of an instant holds exactly the timers due then |
| TimerWheel.HandDown | include/qbuem/core/timer_wheel.hpp:369-382 | an entry handed down a level keeps its firing time |
| TimerWheel.NotVisited | include/qbuem/core/timer_wheel.hpp:186-193 | no entry's slot is passed over before its time |
| TimerWheel.Wheel.Schedule | include/qbuem/core/timer_wheel.hpp:124-145 | the table gains the timer with its firing time, or the pool is full and nothing changes |
| TimerWheel.Wheel.Cancel | include/qbuem/core/timer_wheel.hpp:153-167 | the table loses the timer, and the answer says whether it was pending |
| TimerWheel.Wheel.Tick | include/qbuem/core/timer_wheel.hpp:176-198 | the clock advances and exactly the timers due in between fire, each once, in order of time |
| TimerWheel.Wheel.Step | include/qbuem/core/timer_wheel.hpp:180-194 | one millisecond: fire level zero, then cascade |
| TimerWheel.Wheel.FireSlot | include/qbuem/core/timer_wheel.hpp:332-360 | a slot is emptied and its expired entries run |
| TimerWheel.Wheel.Cascade | include/qbuem/core/timer_wheel.hpp:369-382 | a slot of a higher level is emptied into lower ones |
| TimerWheel.Wheel.Insert | include/qbuem/core/timer_wheel.hpp:274-300 | an entry is linked once, where its deadline puts it |
| TimerWheel.Wheel.NextExpiryMs | include/qbuem/core/timer_wheel.hpp:217-245 | the cached minimum is exact: the time to the earliest deadline, or none |
| SlotWalk.FireSlot | include/qbuem/core/timer_wheel.hpp:332-360 | with callbacks that cancel and schedule, the walk goes on to a freed node exactly if some callback cancels the timer then next in line; otherwise every timer not cancelled before fires once, in order, and the slot holds what was scheduled and not cancelled |
| SlotWalk.FiresUnlessCancelled | include/qbuem/core/timer_wheel.hpp:332-360 | a timer of the slot fires unless one that fires before it cancels it |
| SlotWalk.SecondCancelled | include/qbuem/core/timer_wheel.hpp:153-167 | two timers of which the first cancels the second |
| SlotWalk.UnlinkList | include/qbuem/core/timer_wheel.hpp:312-321 | unlinking a node leaves the list linked both ways without it |
| SlotWalk.RunCallback | include/qbuem/core/timer_wheel.hpp:124-167 | cancelling and scheduling keep both lists of the slot linked, apart, and exactly the nodes in use |
| TimerReentry.Tick | include/qbuem/core/timer_wheel.hpp:176-198 | a tick with callbacks that cancel and schedule goes on to a freed node exactly if, at some instant, some callback cancels the timer then next in line; otherwise the wheel is sound and is the table, and the log the sequence, that firing the timers due at each instant one after the other amounts to |
| TimerReentry.Step | include/qbuem/core/timer_wheel.hpp:180-194 | the same for one instant, whose list holds exactly the timers due then |
| TimerReentry.FiresIff | include/qbuem/core/timer_wheel.hpp:332-360 | at one instant a timer fires exactly if it is due and none that fires before it cancels it, and at most once |
| TimerReentry.TickSettles | include/qbuem/core/timer_wheel.hpp:124-198 | over a tick, whatever its callbacks do, every timer of the wheel is still pending with its time to come, or has fired at the instant it was due, or was cancelled by a callback that ran; no other fires |
| TimerReentry.ActIsApply | include/qbuem/core/timer_wheel.hpp:124-167 | inside a callback the calls do what they do outside one, in a pool with one node less |
| TimerReentry.RunCallback | include/qbuem/core/timer_wheel.hpp:124-167 | a callback in the middle of a slot keeps the wheel linked, its cached minimum exact and every timer on course, and does to the table what its calls say; the node that is firing still counts against the pool |
| TimerReentry.FireList | include/qbuem/core/timer_wheel.hpp:332-360 | the loop over the detached list, which follows the list as callbacks leave it |
| TimerReentry.WalksAlike | include/qbuem/core/timer_wheel.hpp:332-360 | the same timers fire, and under the same condition, as on the walk along the linked nodes |
| Channel.RingIsFifo | include/qbuem/pipeline/async_channel.hpp:88-149 | over every interleaving of senders and receivers, the n-th value taken is the n-th that claimed a place, each once, none overwritten before, never more than the capacity in the ring |
| Channel.AtRest | include/qbuem/pipeline/async_channel.hpp:88-149 | with no call under way, what was sent is what was received followed by what the slots hold |
| Channel.SendAlone | include/qbuem/pipeline/async_channel.hpp:88-112 | from every reachable state, a send that is not disturbed, with the place a lap back released, leaves its value published behind the others |
| Channel.SendGivesUp | include/qbuem/pipeline/async_channel.hpp:88-112 | with that place taken or being read it gives up without a trace |
| Channel.ReceiveAlone | include/qbuem/pipeline/async_channel.hpp:121-149 | a receive that is not disturbed, with the first place published, takes the oldest value and releases the place for the next lap |
| Channel.ReceiveGivesUp | include/qbuem/pipeline/async_channel.hpp:121-149 | with the ring empty or that place being written it gives up without a trace |
| Channel.StepKeeps | include/qbuem/pipeline/async_channel.hpp:88-149 | every atomic access of every thread keeps the slots, the owners and the history consistent |
| Channel.TakeKeeps | include/qbuem/pipeline/async_channel.hpp:134-137 | a value read from a slot is the one sent at that position, and was not read before |
| Channel.ClaimFree | include/qbuem/pipeline/async_channel.hpp:97-102 | a claim of the tail succeeds only when the place a lap back was taken and released |
| Channel.FullMeansFull | include/qbuem/pipeline/async_channel.hpp:109-110 | a send gives up only when a whole lap is taken or the oldest place is still being read |
| Channel.EmptyMeansEmpty | include/qbuem/pipeline/async_channel.hpp:142-143 | a receive gives up only when the ring is empty or its first place is still being written |
| Game.EveryRoom | examples/11-advanced-apps/game_server/game_server.cpp:384-505 | in every room of every run: two different players with points left while it is played, strict alternation from the host, points lost equal to damage taken, the loser at zero, at most 99 blows |
| Game.EveryRecord | examples/11-advanced-apps/game_server/game_server.cpp:487-500 | a player's wins, losses and damage are the rooms won, the rooms lost and the damage dealt; the finished count is the number of rooms over |
| GameHistory.EveryBlow | examples/11-advanced-apps/game_server/game_server.cpp:435-505 | every action of every run: seats alternate from the host, and the damage is four or seven times the strength (five unless it is one to ten), half of that exactly if the other player has defended since it was last struck, none for a defence |
| GameHistory.EveryState | examples/11-advanced-apps/game_server/game_server.cpp:458-484 | a player is on guard exactly if it has defended since the last blow against it, and its cooldown is three less its own actions since its last special |
| GameHistory.ActEnters | examples/11-advanced-apps/game_server/game_server.cpp:435-456 | an action is taken exactly if the room is being played and it is that player's turn by the count of actions, and otherwise changes nothing |
| GameHistory.JoinOutcome | examples/11-advanced-apps/game_server/game_server.cpp:394-415 | a player is let in exactly if the room exists and the player is in it or a seat is free; then behind who was there; the second starts the game |
| GameHistory.RoomsNumbered | examples/11-advanced-apps/game_server/game_server.cpp:384-391 | rooms are numbered from one in the order of opening, and none is lost |
| GameHistory.ToldIsTrue | examples/11-advanced-apps/game_server/game_server.cpp:471-505 | what the caller is told is what then stands in the registry |
| Game.StepKeeps | examples/11-advanced-apps/game_server/game_server.cpp:384-505 | creating, joining and acting keep all this |
| Game.PlayedOk | examples/11-advanced-apps/game_server/game_server.cpp:448-501 | an accepted action keeps a room in order |
| Game.BlowHurts | examples/11-advanced-apps/game_server/game_server.cpp:619-628 | every blow takes at least two points, halved or not |
| Game.OverIsFinal | examples/11-advanced-apps/game_server/game_server.cpp:394-446 | no step changes a room that is over |
| Game.CooldownIsNotEnforced | examples/11-advanced-apps/game_server/game_server.cpp:458-471 | a special is accepted, with the same outcome, whatever the cooldown stands at |
| Game.GameRegistry.CreateRoom | examples/11-advanced-apps/game_server/game_server.cpp:384-391 | a fresh room number |
| Game.GameRegistry.JoinRoom | examples/11-advanced-apps/game_server/game_server.cpp:394-415 | a player is seated once; the second starts the game; full and finished rooms refuse |
| Game.GameRegistry.ApplyAction | examples/11-advanced-apps/game_server/game_server.cpp:435-505 | accepted exactly from the player whose turn it is in a room being played; the caller is told the points as they then stand |
| Game.GameRegistry.Exchange | examples/11-advanced-apps/game_server/game_server.cpp:458-484 | damage, defence and cooldown of one exchange |
| Base64Url.EncodeBlocks | include/qbuem/crypto.hpp:209-297 | blocks of twelve bytes with quarter-table lookups and the scalar tail give the scalar encoder's text for every length |
| Base64Url.EncodeScalar | include/qbuem/crypto.hpp:300-308 | the scalar loop computes the encoding |
| Base64Url.QuartersAgree | include/qbuem/crypto.hpp:252-280 | exactly one of the four masked lookups answers, and like the whole table |
| Base64Url.EncodedLength | include/qbuem/crypto.hpp:204 | the text has exactly the length reserved for it |
| Base64Url.DecodeEncode | include/qbuem/crypto.hpp:198-311 | decoding, as section 5 of RFC 4648 defines it, undoes encoding for every sequence of bytes |
| Base64Url.Injective | include/qbuem/crypto.hpp:198-311 | no two sequences of bytes encode alike |
| Url.DecodeEncode | include/qbuem/url.hpp:42-93 | decoding undoes percent-encoding for every string of bytes |
| Url.EncodeInjective | include/qbuem/url.hpp:78-93 | no two strings encode alike |
| Url.DecodeShortens | include/qbuem/url.hpp:42-64 | decoded text is never longer than the text decoded |
| Url.EscapeIs | include/qbuem/url.hpp:78-93 | a byte stays as it is exactly if it is unreserved (section 2.3 of RFC 3986), and otherwise becomes a percent sign and two upper-case digits of its value |
| Url.DecodeFirst | include/qbuem/url.hpp:42-64 | an escape decodes to its byte in either case of its digits, a plus sign to a space, anything else to itself |
| Url.EncodedText | include/qbuem/url.hpp:78-93 | encoded text has unreserved characters and percent signs only, and at most three times the length |
| Url.UrlEncode | include/qbuem/url.hpp:78-93 | the loop computes the encoding |
| Url.UrlDecode | include/qbuem/url.hpp:42-64 | the loop computes the decoding, malformed escapes left as they are |
| ConstantTime.ConstantTimeEqual | include/qbuem/crypto.hpp:76-155 | true exactly for equal strings, whatever their lengths and the width of the blocks |
| ConstantTime.GatherBlocks | include/qbuem/crypto.hpp:99-135 | the word gathered over the blocks is zero exactly if the blocks agree |

## Left out

- Machine integers: token, timer, sequence and size counters of 64 bits are unbounded here; none of the laws is claimed past a wrap-around. Header and chunk sizes are bounded explicitly, as in the parser.
- Weak memory: the ring's accesses interleave one at a time; the acquire and release orderings that justify this are not modelled.
- Waiting senders and receivers of the asynchronous channel, closing it, and batches: they are built on the ring modelled here.
- IoUringObject.Reactor.RegisterTimer: a full submission ring is not modelled; operations are taken to be submitted.
- IoUringObject.Reactor.HandleEvent: completions of fixed buffers and buffer rings are not modelled.
- ErasedViews.SeenIsParsedIff: the bytes move inside the storage, as the erase of a string does it; a library that gives the storage back when the string becomes empty is not modelled.
- Connection.ConnCtx.Dispatch: views are read when the request is dispatched; that a later read may append to the buffer, or move it, while an asynchronous handler is still at work is not modelled. Middleware is a function of the request, and asynchronous handlers and middleware, timers, ETag and range handling and the Unix-socket path are not modelled.
- Connection.ConnCtx.OnReadable: the idle and read timeouts, which may close a connection, are not modelled, nor that one read returns at most 8192 bytes.
- TimerWheel.Wheel.Tick: its callbacks do not touch the wheel, and the doubly linked lists are sequences of timer numbers; callbacks that do are the subject of TimerReentry, and the links that of SlotWalk.
- TimerWheel.Wheel.Step: as for Tick.
- TimerWheel.Wheel.FireSlot: as for Tick.
- TimerReentry.Tick: what a callback does is fixed by its timer's number and does not depend on what it finds; once the walk has reached a freed node nothing is claimed.
- SlotWalk.FireSlot: a node is called by its timer's id, so that a freed node is not one in use again; once the walk has reached a freed node nothing is claimed.
- ResponseReader.FramesRead: the reader is the chunked coding of section 4.1 of RFC 7230, with extensions passed over; the repository's own client is not modelled.
- ResponseStream.Response.SerializeHeader: the status line, headers and cookies are one text, since the order of the header map is unspecified; only the framing line is modelled.
- ResponseStream.Respond: the header line that announces a trailer is part of that text, and file bodies are not modelled.
- ResponseStream.Response.Chunk: the sixteen-byte buffer for the size line is taken to be large enough, as it is below 2^52 bytes.
- RouterObject.RadixTree.Insert: nodes are entries of a table and links are indices; ownership and freeing of nodes are not modelled.
- Epoll.EpollReactor.RegisterEvent: callbacks are never null, and descriptors are unregistered before they are closed.
- Epoll.EpollReactor.PollOnce: the tasks posted are what the wake-up event does; the queue they come from is the subject of Wakeup.
- The three token maps of the io_uring reactor and its wake-up token are one map whose keys say which is meant.
- ConstantTime.ConstantTimeEqual: says what is returned, not how long it takes; the lanes of a block are gathered in one word, and the NEON form is not modelled.
- The kqueue reactor, the dispatcher, TLS, HTTP/2, WebSocket framing, static files, tracing and the other pipeline stages.
