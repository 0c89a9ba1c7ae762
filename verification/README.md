# A verified model of spdylay's HTTP parser and shrpx proxy core

The repository's C and C++ core is an incremental HTTP/1.1 parser (`http_parser.c`), the `shrpx` proxy that
puts SPDY and HTTPS front ends before HTTP backends, and the URI library they share. The model follows that
code branch by branch and proves what it is for: that input may arrive in any pieces, that what the proxy
writes its own parser reads back, and that its stream machines keep credit, order and ownership.

A byte is a `char`, and `IsBytes` marks the strings whose characters are bytes, which is every string of the
source; the strict build of the parser is modelled, which is the default. Callbacks are a
datatype `Callbacks`: whether on_headers_complete asks to skip the body is a function of the parser fields,
and on_message_complete may pause. Code that updates fields or loops over buffers is written as classes and
methods; each is proved against a specification function, and the theorems are about those functions.

## Layers

- **Parser.** `HttpTypes`, `HttpSwitch` hold the fields and one pass of the switch as pure functions.
  `HttpRun` folds them over the input one byte at a time, without marks, bulk reads or buffers: this is the
  reference. `HttpCalls` says which calls are made for a buffer, exactly. `HttpExecute` is http_parser_execute as
  it is written, with four marks, bulk body reads, re-execution and early returns, and refines both. `HttpMarks`
  and `HttpInvariant` hold what every pass keeps. Every theorem about `Run` therefore holds of the code under any
  cutting (`HttpFragments`).
- **What the parser reads.** `HttpBytes`, `HttpBody`, `HttpNumbers`, `HttpChunks`, `HttpMatcher`,
  `HttpHeaders`, `HttpLines`, `HttpFolds`, `HttpResponse`, `HttpMethod`, `HttpRequest`, `HttpLenient`: each message
  part, what it is read as, and round trips with the writers of the proxy.
- **URLs.** `HttpUrl` has the two automata of http_parser_parse_url and its loops. `UrlTarget`, `UrlCuts`,
  `UrlAuthority` say over the bytes alone what the automata accept and where they cut, `UrlGrammar` says so of the
  whole function, and `UrlCompose` puts URLs together.
- **Whole streams.** `HttpPause`, `HttpPipeline`, `HttpGrammar`.
- **Proxy.** `Strings`, `StatusTable`, `HeaderAssembly`, `HeaderPrinter`, `HeaderRoundTrip` for header blocks;
  `ChunkedFlag`, `ResponseRelay`, `RelayStages`, `Rechunk`, `AnyChunks`, `EncodingCut`, `LengthRelay` for a
  response from the backend's reads to the client's callbacks; `Upload` for request bodies; `FlowControl`, `BodyShare`, `BodyBuffer`,
  `ConnectionPool` for the stream machines.
- **URIs.** `Percent`, `Uri`, `UriRoundTrip`, `UriJoin`, and `UriRfc`, `UriSegments` for RFC 3986.

## Where the code does not do what one would expect

The member named with each shows the case, and where a property fails states exactly when it holds.

- The 64-bit overflow test compares one step with the one before, so 30000000000000000000 passes it
  (`HttpNumbers.LengthOverflowMissed`); numbers are kept exactly if and only if they are below 2^64-1.
- The method matcher does not look at the third byte of most methods (`HttpMethod.MisspelledGet`); which bytes
  it takes for which method is `HttpMethod.MethodExact`.
- `chunked_response_` is set from the first piece of a header value only, so a read of the backend that ends
  inside the word `chunked` leaves the header right and the body unreadable to the client
  (`EncodingCut.HeldOrLost`); exactly when is `EncodingCut.RelayCut`.
- A backend that closes after a complete response costs a SPDY client what it has not taken yet, tunnel or not
  (`BodyBuffer.LosesBody`); exactly when is `BodyBuffer.CloseKeeps`.
- Bytes after a complete response that do not parse put an error page behind its body
  (`BodyBuffer.ResponseBody.OnParseFailure`), where in a tunnel the waiting session is not told of it.
- Window updates are sent by the backend connection's write callback, so a stream whose backend has closed counts
  what the client uploads and gives no credit back (`FlowControl.Stalls`, `CreditReturns`).
- A chunked response that breaks off with its connection is ended properly towards the client, so it looks
  complete (`Rechunk.Relay`); one with a length does not (`LengthRelay.RelayLength`).
- A status that the status table does not know is printed as an empty status, which the parser refuses
  (`HeaderRoundTrip.BlockReadable`).
- Line ends in front of a response are each reported as the beginning of a message (`HttpLenient.LineEndsRun`).
- A Content-Length that goes on in the next line starts over, while the header that is put together from the
  callbacks has all its digits (`HttpFolds.FoldedLength`).
- The answer to a HEAD without a length is read as complete, but its connection is told to close
  (`HttpResponse.KeepAliveInfo`, `BodilessResponse`).
- The version in a Via header is one character for each number (`HeaderRoundTrip.PrintedVia`).
- The HTTPS upstream gives the connection of a complete response back without asking whether it is a tunnel
  (`ConnectionPool.Live`); the SPDY upstream asks.
- http_parser_parse_url checks a CONNECT target by its set of fields, so a question mark, hash signs or an at sign
  may be left over (`UrlCompose.ConnectQuestionMark`); exactly what is accepted is `UrlGrammar.ParseUrl`.
- A URI with port 0, or with a password and no user name, does not survive construct (`UriRoundTrip.PortZero`,
  `UriRoundTrip.PasswordAlone`); every other does (`UriRoundTrip.Reparse`).
- A port text is cut to 32 bits before its limit is checked (`UriRoundTrip.PortOfDec`).
- joinUri does not follow section 5.2 of RFC 3986 for references that end in a dot segment, most that have an
  empty segment, and those without a path, with another authority or another scheme (`UriRfc.FinalDots`,
  `InnerEmptySegment`, `EmptyReference`, `NetworkPath`, `OtherScheme`). When it does, for a reference with a path,
  is `UriSegments.JoinAgreesOnSegments`, and without empty segments `UriRfc.JoinAgrees`.
- Window bits 0 are accepted and make the proxy send updates of 0 (`FlowControl.UpdatesPositive`).
- The callback that gives body bytes to the session takes a request for no bytes for the end of the response
  (`BodyBuffer.EofIsEnd`); the session asks for at least one.
- push_upload_data_chunk returns a positive byte count for chunked requests, which the body callback of the HTTPS
  upstream takes for a failure (`Upload.Request.HttpsBody`); SPDY requests are never chunked
  (`Upload.SpdyUpload`).
- A new backend connection that does not connect is neither deleted nor pooled on the SPDY side
  (`ConnectionPool.ClientHandler.OnSynStream`); the HTTPS side deletes it.
- `nread` is not cleared at the end of a chunked message (`HttpPipeline.CountAtEnd`, `AfterChunked`), so the
  parser is like a new one on every input if and only if nothing is counted (`PipelinedExact`).
- http_parser_execute reports message_complete again at each further call without bytes while a body runs to
  the end of the stream (`HttpGrammar.OpenResponseTwice`); exactly when is `HttpGrammar.EofTwice`.

## Model

| member | source | states |
|---|---|---|
| `HttpSwitch.Handle` | client/spdylay/src/http-parser/http_parser.c:655-1835 | one pass of the switch in any state on any byte: at most one notification; an error sets an error code and reports nothing; a jump to `reexecute_byte` lowers the rank of the state, so a byte is looked at finitely often; only on_message_complete can pause |
| `HttpSwitch.NewMessage` | client/spdylay/src/http-parser/http_parser.c:391-406 | after a message the parser waits for the next one if and only if the headers let the connection stay and the message has an end of its own: a request, a status from 100 to 199, 204 or 304, a body that was skipped, chunks or a length |
| `HttpSwitch.Accumulate` | client/spdylay/src/http-parser/http_parser.c:1454-1477 | a digit that passes the overflow test leaves a number that is not smaller and is below 2^64-1 |
| `HttpRun.Run` | client/spdylay/src/http-parser/http_parser.c:640-653 | the byte count never exceeds the input, and without an error it is the whole input |
| `HttpRun.FailSetsErrno` | client/spdylay/src/http-parser/http_parser.c:1837-1857 | a byte that is refused leaves an error code that is neither OK nor PAUSED |
| `HttpRun.RunConcat` | client/spdylay/src/http-parser/http_parser.c:580-1857 | running a and then b is running a++b from every parser state: same fields, same error, same events, counts added |
| `HttpRun.BytewiseMerges` | client/spdylay/src/http-parser/http_parser.c:91-112 | a data callback told byte by byte is, after merging, one callback with all the bytes |
| `HttpMarks.MarksKept` | client/spdylay/src/http-parser/http_parser.c:617-636 | in every state and on every byte the four pointer marks are set and flushed so that at most one is open, and it is the one that belongs to the state |
| `HttpExecute.HttpParser.constructor` | client/spdylay/src/http-parser/http_parser.c:1911-1919 | a new parser is in the start state of its type and satisfies the invariant |
| `HttpExecute.HttpParser.Unpause` | client/spdylay/src/http-parser/http_parser.c:2170-2182 | clears a pause and nothing else |
| `HttpExecute.HttpParser.Pass` | client/spdylay/src/http-parser/http_parser.c:68-112 | a pass with marks makes exactly the calls that the specification of the calls says, and leaves open exactly the mark that goes with the new state |
| `HttpExecute.HttpParser.ReadBody` | client/spdylay/src/http-parser/http_parser.c:1656-1697 | reading a run of body bytes at once is reading them one at a time, up to the last byte of the run |
| `HttpExecute.HttpParser.OneByte` | client/spdylay/src/http-parser/http_parser.c:640-653 | one turn of the loop, with all re-executions of its byte, is the reference on the bytes it consumes; the header limit included |
| `HttpExecute.HttpParser.AtEof` | client/spdylay/src/http-parser/http_parser.c:595-615 | a call with no bytes ends a body that runs to the end of the stream, is accepted between messages and is an error elsewhere |
| `HttpExecute.HttpParser.FlushMarks` | client/spdylay/src/http-parser/http_parser.c:1837-1849 | what the open mark has collected is delivered at the end of the buffer |
| `HttpCalls.CallsTell` | client/spdylay/src/http-parser/http_parser.c:68-112 | the calls for any buffer, data since a mark delivered when the data or the buffer ends, merge to the bytewise events of the reference |
| `HttpExecute.HttpParser.Execute` | client/spdylay/src/http-parser/http_parser.c:580-1857 | whatever bytes a call is given: fields, count and the calls, exactly as made, are those of the reference and of `CallsOf`, also when it ends in an error; merged, the calls are the events of the reference unless it ends in an error, and then they miss at most the data event being collected; the body callback never gets an empty piece nor more than the buffer |
| `HttpFragments.RunPiecesJoined` | client/spdylay/src/http-parser/http_parser.c:580-1857 | running the pieces of a stream is running the stream |
| `HttpFragments.Feed` | client/spdylay/src/http-parser/http_parser.c:580-1857 | a parser object fed any non-empty pieces ends with the fields, error, total count and (without error) merged trace of the unbroken stream, and makes exactly the calls of `PieceCalls`; the invariant and every assert hold |
| `HttpFragments.PiecesTell` | client/spdylay/src/http-parser/http_parser.c:580-1857 | the calls for any pieces merge to the events of the stream, unless the parser rejects it |
| `HttpInvariant.InitHolds` | client/spdylay/src/http-parser/http_parser.c:1911-1919 | a fresh parser satisfies the invariant |
| `HttpInvariant.PassPreserves` | client/spdylay/src/http-parser/http_parser.c:655-1835 | every pass keeps the invariant: flag chunked in the chunk states, nread 1 at a chunk start, a remaining length that is neither 0 nor 2^64-1 in body states, legal header sub-states, matcher index inside its string, header count within its limit |
| `HttpInvariant.BytePreserves` | client/spdylay/src/http-parser/http_parser.c:640-653 | a whole byte keeps the invariant and meets the asserts at every pass |
| `HttpInvariant.RunPreserves` | client/spdylay/src/http-parser/http_parser.c:580-1857 | from every resting state, over every input, all asserts of execute hold and the parser rests again, paused or not |
| `HttpInvariant.UrlCharStays` | client/spdylay/src/http-parser/http_parser.c:432-578 | the URL automaton never leaves the URL states except to dead |
| `HttpNumbers.AccumulateExact` | client/spdylay/src/http-parser/http_parser.c:1454-1477 | the wrapping step is exact below 2^64-1 and refuses 2^64-1 itself |
| `HttpNumbers.LengthRun` | client/spdylay/src/http-parser/http_parser.c:1400-1407 | a Content-Length whose digits spell a number below 2^64-1 is read as that number, blanks ignored, every byte reported |
| `HttpNumbers.LengthExact` | client/spdylay/src/http-parser/http_parser.c:1454-1477 | the number kept is the number written if and only if that is below 2^64-1 |
| `HttpNumbers.LengthBounded` | client/spdylay/src/http-parser/http_parser.c:1454-1477 | whatever is accepted is below 2^64-1 |
| `HttpNumbers.LengthMaxRejected` | client/spdylay/src/http-parser/http_parser.c:1469-1473 | 2^64-1 is refused as a Content-Length |
| `HttpNumbers.LengthOverflowMissed` | client/spdylay/src/http-parser/http_parser.c:1469-1473 | the overflow test looks at one step only: 30000000000000000000 is accepted, as 11553255926290448384 |
| `HttpNumbers.SizeRun` | client/spdylay/src/http-parser/http_parser.c:1704-1755 | an ASCII hexadecimal chunk size below 2^64-1 is read exactly and silently |
| `HttpNumbers.SizeExact` | client/spdylay/src/http-parser/http_parser.c:1720-1755 | the same if and only if for chunk sizes |
| `HttpNumbers.SizeBounded` | client/spdylay/src/http-parser/http_parser.c:1720-1755 | whatever chunk size is accepted is below 2^64-1 |
| `HttpBody.BodyRun` | client/spdylay/src/http-parser/http_parser.c:1656-1697 | body bytes that do not end the body are all reported as body and lower the remaining length by their number |
| `HttpBody.LastBodyByte` | client/spdylay/src/http-parser/http_parser.c:1656-1702 | the last announced byte is reported and then the message is complete, on that byte |
| `HttpBody.HeadersEndByte` | client/spdylay/src/http-parser/http_parser.c:1560-1654 | the last line feed of a header block reports headers_complete and what the framing decides, in one byte |
| `HttpBody.BodyConserved` | client/spdylay/src/http-parser/http_parser.c:1608-1702 | for every message with Content-Length n that is not chunked, upgraded or body-skipped, and for every prefix b of at most n bytes: b is what the body callback gets, and the message completes exactly at the n-th byte, at the end of the headers when n is 0 |
| `HttpChunks.BodyWriter.OnDownstreamBody` | client/spdylay/src/shrpx_https_upstream.cc:597-616 | a piece is written as one chunk, or bare when the response is not chunked |
| `HttpChunks.BodyWriter.OnDownstreamBodyComplete` | client/spdylay/src/shrpx_https_upstream.cc:618-626 | the end of a chunked body is the last chunk |
| `HttpChunks.BodyWriter.WriteBody` | client/spdylay/src/shrpx_https_upstream.cc:597-626 | a body given in pieces is written as its chunked coding, or as the pieces joined |
| `HttpChunks.HexOfReads` | client/spdylay/src/shrpx_https_upstream.cc:603-609 | the %X conversion spells the number it is given |
| `HttpChunks.ChunkTextRun` | client/spdylay/src/http-parser/http_parser.c:1704-1820 | a chunk however it is spelled, its size in either case and with zeros in front, with an extension or not, is read as exactly its data |
| `HttpChunks.ChunkedTextRun` | client/spdylay/src/http-parser/http_parser.c:1704-1820 | a body of any such chunks is read as exactly their data, then one message_complete, and every byte is consumed |
| `HttpChunks.ChunksRun` | client/spdylay/src/http-parser/http_parser.c:1704-1820 | chunks without the last one are read as their bytes, and the parser waits for the next chunk |
| `HttpChunks.CodedRun` | client/spdylay/src/http-parser/http_parser.c:1704-1820 | for every list of non-empty pieces shorter than 2^32, what the writer writes is read back as exactly the joined pieces, then one message_complete, and every byte is consumed |
| `HttpChunks.CodedTold` | client/spdylay/src/http-parser/http_parser.c:1704-1820 | after merging this is one body event and the completion |
| `HttpChunks.EmptyPieceEndsBody` | client/spdylay/src/shrpx_https_upstream.cc:597-616 | an empty piece would be written as the last chunk and end the body early |
| `HttpMatcher.NameRecognised` | client/spdylay/src/http-parser/http_parser.c:1231-1320 | the matcher's verdict on a header name is the case-insensitive comparison of the whole name with the names it knows |
| `HttpMatcher.NameExactly` | client/spdylay/src/http-parser/http_parser.c:150-205 | a header name is exactly a token of section 2.2 of RFC 2616: printable bytes that are no separators |
| `HttpHeaders.NameRun` | client/spdylay/src/http-parser/http_parser.c:1181-1345 | over a whole name, the matcher knows exactly what the name so far can still become, and every byte is reported |
| `HttpHeaders.ValueRun` | client/spdylay/src/http-parser/http_parser.c:1361-1558 | over a whole value, the flags and the length end as the value, compared without case and trailing blanks, says |
| `HttpHeaders.LineRun` | client/spdylay/src/http-parser/http_parser.c:1181-1558 | a well-formed header line is reported as its name and its value, is consumed to the last byte, and changes flags and length as its meaning says |
| `HttpLines.LinesRun` | client/spdylay/src/http-parser/http_parser.c:1181-1558 | the same for any list of header lines |
| `HttpLines.BlockRun` | client/spdylay/src/http-parser/http_parser.c:1181-1563 | and for the block up to its empty line |
| `HttpFolds.FoldedLineRun` | client/spdylay/src/http-parser/http_parser.c:1361-1558 | a value that goes on in any number of lines that start with blanks or tabs is reported without them as one value, and means what its first line means |
| `HttpFolds.FoldedLength` | client/spdylay/src/http-parser/http_parser.c:1400-1407 | but a Content-Length that goes on starts over: the parser goes by the last line, and the callbacks report the digits of both |
| `HttpFolds.LfLineRun` | client/spdylay/src/http-parser/http_parser.c:1361-1546 | a header line that ends in a line feed alone is reported and means the same |
| `HttpFolds.LfLinesRun` | client/spdylay/src/http-parser/http_parser.c:1181-1558 | and so does any list of them |
| `HttpFolds.LfHeadRun` | client/spdylay/src/http-parser/http_parser.c:702-1558 | a response head whose lines all end so, the status line included: the same callbacks and the same framing |
| `HttpFolds.LfEmptyLine` | client/spdylay/src/http-parser/http_parser.c:1183-1196 | a line feed alone ends the header block exactly as a carriage return and a line feed do |
| `HttpLenient.GapLineRun` | client/spdylay/src/http-parser/http_parser.c:1361-1364 | any blanks and tabs between the colon and the value, or none, are not reported and change nothing |
| `HttpLenient.BareNameRun` | client/spdylay/src/http-parser/http_parser.c:1345-1355 | a header line of a name alone is reported as the name without a value, and means nothing |
| `HttpLenient.LineEndsRun` | client/spdylay/src/http-parser/http_parser.c:702-727 | line ends in front of a message are skipped; in front of a response each is reported as a beginning |
| `HttpLenient.ClosedByte` | client/spdylay/src/http-parser/http_parser.c:655-663 | after a message that ends its connection any other byte is refused |
| `HttpLenient.KindDecided` | client/spdylay/src/http-parser/http_parser.c:665-700 | a parser for both kinds of messages goes on as a parser for responses after HT, as one for requests after HE or another first byte, and refuses every other second byte |
| `HttpLenient.SpacesRun` | client/spdylay/src/http-parser/http_parser.c:986-989 | any number of blanks in front of a URL, a version or a status is skipped |
| `HttpResponse.StatusLineRun` | client/spdylay/src/http-parser/http_parser.c:702-878 | a status line is read as the version and status it spells |
| `HttpResponse.HeadRun` | client/spdylay/src/http-parser/http_parser.c:702-1563 | a response head is read as its status line and its headers |
| `HttpResponse.LengthHeadRun` | client/spdylay/src/http-parser/http_parser.c:702-1702 | the head of a response with a length and any part of its body: exactly that part, and complete exactly if it is all of it |
| `HttpResponse.ChunkedHeadRun` | client/spdylay/src/http-parser/http_parser.c:702-1606 | after the head of a chunked response the parser is at the start of a chunk |
| `HttpResponse.LengthResponse` | client/spdylay/src/http-parser/http_parser.c:702-1702 | a whole response with Content-Length: begin, the headers, headers_complete, exactly the body, complete; every byte consumed |
| `HttpResponse.ChunkedResponse` | client/spdylay/src/http-parser/http_parser.c:702-1820 | a whole chunked response, its chunks spelled in any way, with any trailer: begin, the headers, headers_complete, exactly the data, the trailer, complete; the trailer and two bytes stay counted |
| `HttpResponse.OpenResponse` | client/spdylay/src/http-parser/http_parser.c:1608-1697 | a response that announces neither length nor chunks: all that follows is its body, and it stays open |
| `HttpResponse.BodilessResponse` | client/spdylay/src/shrpx_downstream.cc:526-548 | the answer to a HEAD, or a response with a status from 100 to 199, 204 or 304, is complete with its head, whatever length or chunks it announces, and the parser waits for the next message if and only if the headers let the connection stay; after an Upgrade header it is read to the end of the stream |
| `HttpResponse.KeepAliveInfo` | client/spdylay/src/http-parser/http_parser.c:1861-1900 | for every response head: the connection is told to stay if and only if the headers let it and the response has an end of its own, by its status, in chunks or by a length |
| `ResponseRelay.HttpsResponse.OnHeadersComplete` | client/spdylay/src/shrpx_https_upstream.cc:535-595 | the completed header is printed to the client |
| `ResponseRelay.HttpsResponse.Call` | client/spdylay/src/shrpx_downstream.cc:521-605 | each callback of the response parser changes the header list, the chunked flag, the state and the output as the hooks do |
| `ResponseRelay.HttpsResponse.CallAll` | client/spdylay/src/shrpx_downstream.cc:521-605 | the calls of any trace, one after the other |
| `ResponseRelay.HttpsResponse.OnBackendEof` | client/spdylay/src/shrpx_https_upstream.cc:415-427 | the close of the backend ends a body whose header is complete, and nothing else |
| `ResponseRelay.OnCallsWritten` | client/spdylay/src/shrpx_https_upstream.cc:597-626 | in closed form, for every trace of a response: nothing before its header is complete, then the block, the body in the pieces of the calls, in chunks if and only if the flag was set when the header was complete, and the ending |
| `HeaderRoundTrip.PrintedMeans` | client/spdylay/src/shrpx_https_upstream.cc:546-560 | the printed headers announce the same length, chunks and upgrade as the assembled ones |
| `Rechunk.Forward` | client/spdylay/src/shrpx_downstream.cc:521-605 | parser, Downstream object and printer together write what the calls for the reads say |
| `Rechunk.OutputOf` | client/spdylay/src/shrpx_https_upstream.cc:597-626 | for a response of which at least the head has arrived, in whatever reads: block, body as far as it has arrived, ending if the message is complete or the backend has closed |
| `Rechunk.ClientReads` | client/spdylay/src/http-parser/http_parser.c:702-1820 | a client reads a block and chunks as exactly their bytes, and the message is complete if and only if the last chunk is there |
| `Rechunk.ClientMisreads` | client/spdylay/src/http-parser/http_parser.c:1704-1820 | a client that was announced chunks and gets a bare body does not read that body to its end, whatever it is |
| `Rechunk.Relay` | client/spdylay/src/shrpx_https_upstream.cc:597-626 | for every response that announces chunks and is accepted, every part of it from the head on, every spelling and trailer, every cutting on both sides, with or without a close: the client gets exactly the body sent, and its end, if and only if the first piece of a Transfer-Encoding value held the word, and the backend's message was complete or the backend closed |
| `AnyChunks.ArrivedReceived` | client/spdylay/src/http-parser/http_parser.c:1704-1820 | every part, from its head on, of a chunked response with chunks spelled in any way and a trailer is received as one response |
| `AnyChunks.CodedArrives` | client/spdylay/src/shrpx_https_upstream.cc:597-626 | the spelling of the proxy is one of them |
| `EncodingCut.HeldExactly` | client/spdylay/src/shrpx_downstream.cc:446-453 | for every such response with one Transfer-Encoding header and every cutting: the first piece holds the word if and only if no read ends inside the word |
| `EncodingCut.RelayCut` | client/spdylay/src/shrpx_https_upstream.cc:597-626 | so the client gets the body and its end if and only if no read ends inside the word, and the backend's message was complete or the backend closed |
| `EncodingCut.HeldOrLost` | client/spdylay/src/shrpx_downstream.cc:446-453 | the same response is relayed if it arrives in one read and lost if the read ends inside the word |
| `EncodingCut.RelayExample` | client/spdylay/src/shrpx_https_upstream.cc:597-626 | a response, its first chunk with a leading zero, a small hexadecimal digit and an extension, and a reply, that meet all the conditions of `RelayCut` |
| `AnyChunks.EncodingName` | client/spdylay/src/util.cc:163-170 | the parser and the Downstream object agree on what a Transfer-Encoding header is |
| `LengthRelay.RelayLength` | client/spdylay/src/shrpx_https_upstream.cc:597-626 | for every response with a length and no Transfer-Encoding header, every part of it from the head on, every cutting on both sides, with or without a close: the client gets exactly the body sent, and its end if and only if that is all of it |
| `HttpMethod.MethodExact` | client/spdylay/src/http-parser/http_parser.c:879-984 | up to a blank and before any URL byte, the parser takes a byte string for method m if and only if it is, after line ends, the name of m, whose third byte may be any but NUL unless m is one of seven strict methods or the byte turns it into another method, and then blanks |
| `HttpMethod.MethodNameRun` | client/spdylay/src/http-parser/http_parser.c:879-984 | every method of the table, spelled right, is recognised as itself |
| `HttpMethod.MisspelledGet` | client/spdylay/src/http-parser/http_parser.c:969-974 | GE, any byte but NUL, and a blank are read as GET |
| `HttpRequest.UrlRun` | client/spdylay/src/http-parser/http_parser.c:986-1057 | the URL states of execute go through the states of http_parser_parse_url and report every byte |
| `HttpRequest.UrlRead` | client/spdylay/src/http-parser/http_parser.c:986-1057 | a text followed by a blank is accepted if and only if it is a request target by the grammar of `UrlTarget`, and every byte of it is reported; otherwise the error is INVALID_URL |
| `HttpRequest.RequestVersionRun` | client/spdylay/src/http-parser/http_parser.c:1059-1178 | a request version is read as the numbers it spells |
| `HttpRequest.RequestLineRun` | client/spdylay/src/http-parser/http_parser.c:879-1178 | a request line is read as its method, its URL and its version, every byte consumed |
| `HttpLenient.LooseLineRun` | client/spdylay/src/http-parser/http_parser.c:879-1178 | a request line with more blanks in front of the URL and the version is read as the same line |
| `HttpLenient.ShortLineRun` | client/spdylay/src/http-parser/http_parser.c:1030-1052 | a request line without a version, ended either way, is a request of HTTP/0.9 |
| `HttpLenient.BareStatusRun` | client/spdylay/src/http-parser/http_parser.c:829-859 | a status line without a reason, ended either way, is read as its status |
| `HttpLenient.MethodRefused` | client/spdylay/src/http-parser/http_parser.c:920-983 | the error of a method that is refused, by the method it looked like |
| `HttpRequest.RequestHeadRun` | client/spdylay/src/http-parser/http_parser.c:879-1563 | and with its headers |
| `HttpRequest.LengthRequest` | client/spdylay/src/http-parser/http_parser.c:879-1702 | a whole request with Content-Length: begin, url, headers, headers_complete, exactly the body, complete at its last byte; the parser waits for more exactly if the version and the Connection header say so |
| `HttpRequest.BareRequest` | client/spdylay/src/http-parser/http_parser.c:1608-1654 | a request that announces no body is complete at the end of its head |
| `Strings.Strieq` | client/spdylay/src/util.cc:163-170 | true exactly when the C strings agree up to case |
| `Strings.Strifind` | client/spdylay/src/util.cc:172-185 | true exactly when the second C string occurs in the first, up to case |
| `HeaderAssembly.Downstream.OnKey` | client/spdylay/src/shrpx_downstream.cc:552-564 | the key callback starts a header or continues its name |
| `HeaderAssembly.Downstream.OnValue` | client/spdylay/src/shrpx_downstream.cc:566-577 | the value callback sets or continues the last value |
| `HeaderAssembly.AssemblyIgnoresCuts` | client/spdylay/src/shrpx_downstream.cc:439-473 | the assembled list depends on the merged trace only, not on where the callbacks were cut |
| `HeaderAssembly.LinesAssembled` | client/spdylay/src/shrpx_downstream.cc:552-577 | the events of header lines assemble to those headers |
| `HeaderAssembly.ChunkedExactly` | client/spdylay/src/shrpx_downstream.cc:446-453 | for every trace of callbacks: the flag is set if and only if the first piece of some Transfer-Encoding value holds the word |
| `HeaderAssembly.FlagTraced` | client/spdylay/src/shrpx_downstream.cc:446-473 | a flag that is set comes from a Transfer-Encoding header of the assembled list, from what its value begins with |
| `ChunkedFlag.FlagExactly` | client/spdylay/src/shrpx_downstream.cc:446-453 | for every accepted stream with one Transfer-Encoding header and every cutting: after all the calls the flag is set if and only if no piece ends inside the word |
| `HeaderPrinter.PrintHeaders` | client/spdylay/src/shrpx_https_upstream.cc:546-560 | the loop prints the forwarded headers and keeps the last Via value |
| `StatusTable.TableKnows` | client/spdylay/src/shrpx_http.cc:39-85 | the table holds a phrase for exactly the listed statuses |
| `StatusTable.PhraseIsLine` | client/spdylay/src/shrpx_http.cc:39-85 | no phrase has a line end |
| `HeaderPrinter.PrintBlock` | client/spdylay/src/shrpx_https_upstream.cc:535-595 | the printed block is status line, forwarded headers, Connection, Via and an empty line |
| `HeaderRoundTrip.PrintedPersists` | client/spdylay/src/shrpx_https_upstream.cc:564-577 | read with the version of the request, the printed headers let the connection stay if and only if neither the request nor the response closes it |
| `HeaderRoundTrip.PrintedIsSilent` | client/spdylay/src/shrpx_https_upstream.cc:566-575 | a client from HTTP/1.1 on whose connection stays gets no header about the connection, whatever the backend sent |
| `HeaderRoundTrip.PrintedVia` | client/spdylay/src/shrpx_https_upstream.cc:579-586 | one Via header, the last of the block: the last value received, a comma and a blank if that is not empty, and the version of the response with the name of the proxy; the version is spelled right if and only if both its numbers are digits |
| `HeaderRoundTrip.ForwardedKeeps` | client/spdylay/src/shrpx_https_upstream.cc:546-560 | a header is forwarded exactly when it is neither hop-by-hop nor Via |
| `HeaderRoundTrip.ForwardedConcat` | client/spdylay/src/shrpx_https_upstream.cc:546-560 | order and repetitions of the forwarded headers stay |
| `HeaderRoundTrip.BlockRead` | client/spdylay/src/shrpx_https_upstream.cc:535-595 | the parser reads the printed block completely: status, version, the printed headers |
| `HeaderRoundTrip.BlockRoundTrip` | client/spdylay/src/shrpx_https_upstream.cc:535-595 | under any cutting, the callbacks assemble the printed block to the forwarded list with the added headers, in order |
| `HeaderRoundTrip.BlockReadable` | client/spdylay/src/shrpx_https_upstream.cc:535-595 | the parser accepts the block if and only if the status is one that the status table knows |
| `HeaderRoundTrip.PrintAndRead` | client/spdylay/src/shrpx_https_upstream.cc:535-595 | printer, parser and assembly together, for any pieces of the printed block |
| `HeaderRoundTrip.Replay` | client/spdylay/src/shrpx_downstream.cc:552-577 | the Downstream object, given the calls of any trace, has the header list and the flag of the specification |
| `HttpPause.RunUntilPause` | client/spdylay/src/http-parser/http_parser.c:1564-1702 | up to a pause the run is the run that never pauses |
| `HttpPause.PauseTransparent` | client/spdylay/src/http-parser/http_parser.c:2170-2182 | pausing at every message_complete and feeding the rest after un-pausing gives the trace, count and state of a run that never paused, for every stream |
| `HttpPause.RequestReader.OnRead` | client/spdylay/src/shrpx_https_upstream.cc:222-245 | a read parses the input buffer and drains what the parser consumed |
| `HttpPause.RequestReader.ResumeRead` | client/spdylay/src/shrpx_https_upstream.cc:318-327 | resuming un-pauses the parser and parses what is left |
| `HttpPause.RequestReader.ServeAll` | client/spdylay/src/shrpx_https_upstream.cc:318-327 | serving all pipelined requests of a buffer one by one equals one run without pauses |
| `HttpPipeline.SameRun` | client/spdylay/src/http-parser/http_parser.c:640-1857 | two parsers that agree in the fields the state still uses make the same calls on every input |
| `HttpPipeline.Pipelined` | client/spdylay/src/http-parser/http_parser.c:391-406 | a parser that waits for its next message behaves like a new one on every input that fits under the header limit together with what is still counted, and on every input if nothing is |
| `HttpPipeline.PipelinedExact` | client/spdylay/src/http-parser/http_parser.c:645-653 | on every input like a new one if and only if nothing is counted; otherwise as many line ends as the limit allows tell them apart |
| `HttpPipeline.AfterLength` | client/spdylay/src/http-parser/http_parser.c:391-406 | with the callbacks of the backend connection, after any response with Content-Length that keeps the connection: like new on every input |
| `HttpPipeline.AfterChunked` | client/spdylay/src/http-parser/http_parser.c:1564-1569 | after any chunked response that keeps the connection, in any spelling, its trailer and two bytes stay counted: like new on every input that leaves them room, and not on every input |
| `HttpPipeline.ChunkedExample` | client/spdylay/src/http-parser/http_parser.c:1564-1569 | there is such a response |
| `HttpPipeline.CountAtEnd` | client/spdylay/src/http-parser/http_parser.c:1564-1569 | when a message completes, bytes stay counted if and only if it ends with trailers, as every chunked message does |
| `HttpGrammar.OrderRun` | client/spdylay/src/http-parser/http_parser.c:879-1820 | in every run, errors included, the callbacks are a prefix of well-formed messages: begin, url, headers, headers_complete, body, trailers, complete |
| `HttpGrammar.OrderNew` | client/spdylay/src/http-parser/http_parser.c:665-723 | the same for every new parser of any type; one of type HTTP_BOTH has the grammar of the type it settles to |
| `HttpGrammar.OrderEof` | client/spdylay/src/http-parser/http_parser.c:595-615 | and the end of the stream keeps the order |
| `HttpGrammar.EofByPhase` | client/spdylay/src/http-parser/http_parser.c:595-615 | the end of the stream after any input that was accepted: accepted between messages, an error inside a URL, headers, a trailer or a body with a length or in chunks, and the completion of a body that runs to the end |
| `HttpGrammar.EofTwice` | client/spdylay/src/http-parser/http_parser.c:595-606 | a second call without bytes keeps the order if and only if the first did not end, without pausing, a body that runs to the end of the stream |
| `HttpGrammar.OpenResponseTwice` | client/spdylay/src/http-parser/http_parser.c:595-606 | every response without length and chunks gets there: the second call reports it complete again |
| `HttpGrammar.OpenExample` | client/spdylay/src/http-parser/http_parser.c:702-878 | the shortest such response |
| `HttpGrammar.CallsInOrder` | client/spdylay/src/http-parser/http_parser.c:879-1820 | the order holds of the calls as made, with marks, cuts and a data event lost to an error |
| `HttpGrammar.NamedAfter` | client/spdylay/src/shrpx_downstream.cc:446-473 | while a header value may follow, the header list is not empty |
| `HttpGrammar.ValueHasName` | client/spdylay/src/shrpx_downstream.cc:446-473 | no value callback ever finds an empty header list |
| `HttpUrl.StateAdvances` | client/spdylay/src/http-parser/http_parser.c:432-578 | along a URL the automaton only moves forward through scheme, server, path, query, fragment |
| `HttpUrl.HostStateAdvances` | client/spdylay/src/http-parser/http_parser.c:1933-1996 | along an authority the host automaton only moves forward |
| `HttpUrl.ParseParts` | client/spdylay/src/http-parser/http_parser.c:2083-2136 | the loop records exactly the maximal run of each field |
| `HttpUrl.ParseHost` | client/spdylay/src/http-parser/http_parser.c:1998-2068 | the same for user information, host and port inside the authority; it fails exactly in the states that cannot end an authority |
| `HttpUrl.CutInOrder` | client/spdylay/src/http-parser/http_parser.c:2071-2168 | the fields are non-empty, in bounds, disjoint and in order |
| `HttpUrl.UncoveredIsDelimiter` | client/spdylay/src/http-parser/http_parser.c:2071-2168 | bytes outside the fields are delimiters |
| `HttpUrl.PortField` | client/spdylay/src/http-parser/http_parser.c:2030-2038 | a port field is digits and ends the authority |
| `HttpUrl.CutIsComplete` | client/spdylay/src/http-parser/http_parser.c:2071-2168 | both, for the whole result |
| `HttpUrl.Strtoul` | client/spdylay/src/http-parser/http_parser.c:2156-2160 | the digits are read to the first other byte, saturating at 2^64-1 |
| `HttpUrl.ReadPort` | client/spdylay/src/http-parser/http_parser.c:2152-2165 | the port value is that of its field, and is too large exactly when the field is |
| `UrlTarget.TargetExactly` | client/spdylay/src/http-parser/http_parser.c:432-578 | the URL automaton accepts a text as a request target if and only if it is one: an origin form of printable bytes, letters with "://" and a server text behind them, or for CONNECT a server text |
| `UrlCuts.PartsBy` | client/spdylay/src/http-parser/http_parser.c:2083-2136 | scheme, authority, path, query and fragment are exactly the texts between the cuts: the letters, the first slash or question mark behind the authority, the first question mark in front of the first hash sign, the first hash sign, and what is behind the hash signs |
| `UrlCuts.SeesAtExactly` | client/spdylay/src/http-parser/http_parser.c:2104-2110 | an at sign is noticed if and only if the authority has one |
| `UrlAuthority.AuthorityExactly` | client/spdylay/src/http-parser/http_parser.c:1933-2068 | an authority is accepted if and only if it is userinfo up to the first at sign, if there is one, and then a name or an address in brackets, neither empty, and nothing or a colon and digits |
| `UrlAuthority.AuthorityBy` | client/spdylay/src/http-parser/http_parser.c:1998-2068 | userinfo, host and port are exactly the texts cut at the at sign, at the brackets and at the colon |
| `UrlGrammar.ParseUrl` | client/spdylay/src/http-parser/http_parser.c:2071-2168 | a text is accepted if and only if it is a URL by a grammar over its bytes; every field is exactly the text between its two cuts and missing if that is empty; the fields are in bounds and in order, all other bytes are delimiters, and the port is the number its text spells |
| `UrlCompose.OriginComposed` | client/spdylay/src/http-parser/http_parser.c:2071-2168 | a path, a question mark, a query, a hash sign and a fragment put together are accepted and cut where they were put together |
| `UrlCompose.AbsoluteComposed` | client/spdylay/src/http-parser/http_parser.c:2071-2168 | the same behind a scheme and an authority |
| `UrlCompose.NameAuthority` | client/spdylay/src/http-parser/http_parser.c:1998-2068 | userinfo, a name and a port put together are an authority, cut where they were put together |
| `UrlCompose.V6Authority` | client/spdylay/src/http-parser/http_parser.c:1998-2068 | the same for an address in brackets |
| `UrlCompose.ConnectQuestionMark` | client/spdylay/src/http-parser/http_parser.c:2147-2151 | a CONNECT target is accepted with a question mark behind its port, as only the set of fields is looked at |
| `Percent.PercentEncode` | client/spdylay/src/util.cc:60-79 | encodes every byte that is not unreserved |
| `Percent.PercentDecode` | client/spdylay/src/util.cc:81-101 | decodes every escape and leaves a lone percent sign |
| `Percent.DecodeEncode` | client/spdylay/src/util.cc:60-101 | decoding undoes encoding on every byte string |
| `Percent.DecodesSpelling` | client/spdylay/src/util.cc:81-101 | a text decodes to a byte string if and only if it spells it, each byte as itself or as an escape with digits of either case |
| `Percent.EncodedIsPlain` | client/spdylay/src/util.cc:53-79 | the encoding has only unreserved characters and percent signs |
| `Percent.EncodeInjective` | client/spdylay/src/util.cc:60-79 | different byte strings have different encodings |
| `Percent.EncodedExactly` | client/spdylay/src/util.cc:53-79 | a byte string is its own encoding if and only if it has only letters, digits and the four marks of section 2.3 of RFC 3986 |
| `Uri.Parse` | client/spdylay/src/uri.cc:95-244 | the iterator loops compute the parts of the URI, and fail exactly where the specification has none |
| `Uri.ParseAuthority` | client/spdylay/src/uri.cc:149-205 | user information to the last @, bracketed or plain host, port text |
| `Uri.Construct` | client/spdylay/src/uri.cc:246-286 | the text is scheme, encoded user information, host, port unless default, directory, file, query |
| `UriRoundTrip.PortOfDec` | client/spdylay/src/uri.cc:207-222 | a printed number is read as its last 32 bits, refused beyond strtol, and read as itself if and only if it is at most 65535 |
| `UriRoundTrip.UserRead` | client/spdylay/src/uri.cc:155-177 | encoded user information reads back, whatever bytes it has |
| `UriRoundTrip.HostPortRead` | client/spdylay/src/uri.cc:178-205 | a plain or bracketed host and a port text read back |
| `UriRoundTrip.DefaultPorts` | client/spdylay/src/uri.cc:129-136 | a URI without a port text has port 80 with http and port 443 with https, and any other scheme is refused |
| `UriRoundTrip.OnlyHttp` | client/spdylay/src/uri.cc:125-136 | every URI that parses starts with http:// or https://, and has that protocol |
| `UriRoundTrip.PortWritten` | client/spdylay/src/uri.cc:266-278 | a port is written if and only if it is not 0, not 80 with http and not 443 with https; then in decimal |
| `UriRoundTrip.RoundTrip` | client/spdylay/src/uri.cc:95-286 | parse(construct(us)) == us for every well-formed value |
| `UriRoundTrip.Reparse` | client/spdylay/src/uri.cc:95-286 | every URI that parses is written back as a text that parses to its normal form; to the same value if and only if its port is not 0 and it has no password without a user name |
| `UriRoundTrip.NormIsStable` | client/spdylay/src/uri.cc:95-286 | writing and reading once more changes nothing |
| `UriRoundTrip.PortZero` | client/spdylay/src/uri.cc:246-286 | a URI with port 0 is read and comes back with the default port |
| `UriRoundTrip.PasswordAlone` | client/spdylay/src/uri.cc:246-286 | a password without a user name is read and not written |
| `UriJoin.SplitInto` | client/spdylay/src/util.h:88-114 | split appends the non-empty pieces between slashes |
| `UriJoin.JoinStrings` | client/spdylay/src/util.h:116-130 | strjoin puts one slash between the elements |
| `UriJoin.SplitAtSlash` | client/spdylay/src/util.h:88-114 | a slash is a cut: splitting a/b is splitting a and splitting b |
| `UriJoin.SplitJoin` | client/spdylay/src/util.h:88-130 | split undoes strjoin on segments |
| `UriJoin.JoinPath` | client/spdylay/src/util.h:132-150 | the stack loop joins the resolved segments |
| `UriJoin.DotSegments` | client/spdylay/src/util.h:132-150 | a name and the ".." after it cancel wherever they stand; "." and a leading ".." count for nothing |
| `UriJoin.ResolveLeaves` | client/spdylay/src/util.h:132-150 | no "." or ".." is left, and what is left comes from the parts |
| `UriJoin.ResolveIsSurvivors` | client/spdylay/src/util.h:132-150 | the stack keeps exactly the parts that no ".." takes, read from the right |
| `UriJoin.JoinUri` | client/spdylay/src/uri.cc:288-327 | a reference that is a URI, or a base that is none, gives the reference; otherwise the reference is placed at the base |
| `UriJoin.JoinKeepsOrigin` | client/spdylay/src/uri.cc:288-327 | the result parses with the scheme, user, host and port of the base and the query of the reference; its path has the segments of base directory and reference with every dot segment worked off, and its file is the last of them unless the reference asks for a directory |
| `UriRfc.RemoveDotsResolves` | client/spdylay/src/util.h:132-150 | the remove-dot-segments buffers of RFC 3986 hold the resolved segments; a final dot segment leaves a slash |
| `UriRfc.JoinAgrees` | client/spdylay/src/uri.cc:288-327 | for a reference with a path and no empty segment to resolve: joinUri gives the path of RFC 3986 if and only if the reference does not end in a dot segment or nothing is left of the path |
| `UriRfc.EmptyReference` | client/spdylay/src/uri.cc:288-327 | for a reference without a path: the path agrees if and only if the base has no file and neither empty nor dot segments, the query if and only if the reference has one or the base has none |
| `UriRfc.NeverDouble` | client/spdylay/src/uri.cc:288-327 | the path of joinUri never has an empty segment inside, so it differs wherever the path of RFC 3986 has one |
| `UriSegments.JoinAgreesOnSegments` | client/spdylay/src/uri.cc:288-327 | for every reference with a path: both paths as lists of segments, empty ones kept, so that they agree if and only if the lists are the same |
| `UriSegments.RemoveDotsIs` | client/spdylay/src/util.h:132-150 | removing dot segments as RFC 3986 does resolves any list of segments, empty ones like any other |
| `UriSegments.EmptySegments` | client/spdylay/src/uri.cc:288-327 | an empty segment need not matter, and it can matter without leaving an empty segment |
| `UriRfc.InnerEmptySegment` | client/spdylay/src/uri.cc:288-327 | a reference with an empty segment inside, for which they differ |
| `UriRfc.NetworkPath` | client/spdylay/src/uri.cc:288-327 | a reference to another authority is placed at the base |
| `UriRfc.OtherScheme` | client/spdylay/src/uri.cc:288-327 | a reference with another scheme is placed at the base |
| `UriRfc.FinalDots` | client/spdylay/src/uri.cc:288-327 | for "." and ".." they agree if and only if nothing is left of the path |
| `FlowControl.Stream.OnDataChunkRecv` | client/spdylay/src/shrpx_spdy_upstream.cc:243-268 | a chunk is counted in 32 bits and answered with a reset when the count exceeds the window, or when the upload fails |
| `FlowControl.Windows` | client/spdylay/src/shrpx_spdy_upstream.cc:350-365 | the window in numbers: 65536 for the 16 bits that are the default, 1 for none, 1073741824 for the most |
| `FlowControl.Stream.WindowUpdate` | client/spdylay/src/shrpx_spdy_upstream.cc:633-645 | the update gives back the count and clears it |
| `FlowControl.Stream.DownstreamWritecb` | client/spdylay/src/shrpx_spdy_upstream.cc:491-504 | an update is sent exactly when half of the window is used |
| `FlowControl.Conservation` | client/spdylay/src/shrpx_spdy_upstream.cc:243-268 | over every run of peer, wire and proxy: credit, data in flight, counted bytes, updates in flight and lost bytes add up to the initial window until a flow-control reset |
| `FlowControl.ResetAtExcess` | client/spdylay/src/shrpx_spdy_upstream.cc:253-266 | a chunk is reset if and only if the peer would still be behind with all credit that is on its way |
| `FlowControl.DebtorIsReset` | client/spdylay/src/shrpx_spdy_upstream.cc:253-266 | a peer with a debt that nothing on its way settles has been reset once its data has arrived |
| `FlowControl.NeverFlooded` | client/spdylay/src/shrpx_spdy_upstream.cc:253-266 | a peer that respects its credit is never reset with FLOW_CONTROL_ERROR |
| `FlowControl.GuardOpens` | client/spdylay/src/shrpx_spdy_upstream.cc:491-504 | with nothing on the way the guard is open exactly when no more than half of the window is left; so an exhausted peer gets the whole window back while the backend is attached |
| `FlowControl.CreditReturns` | client/spdylay/src/shrpx_spdy_upstream.cc:491-504 | from every state of a respectful run, more than half of the window, less what was lost, can come back to the peer if and only if the backend is attached, or that much is there or on its way already |
| `FlowControl.CreditRunsOut` | client/spdylay/src/shrpx_spdy_upstream.cc:530-533 | without its backend connection a stream gives no credit any more, in no run |
| `FlowControl.Stalls` | client/spdylay/src/shrpx_spdy_upstream.cc:243-266 | a respectful run after which the peer, its whole window counted and its backend gone, has no credit for ever |
| `FlowControl.UpdatesPositive` | client/spdylay/src/shrpx_config.cc:212-220 | every update of every run, also of one that floods the stream, is 1 to 2^31-1 if and only if the window bits are not 0 |
| `FlowControl.Drive` | client/spdylay/src/shrpx_spdy_upstream.cc:243-268 | the stream and the request object, driven by any run, keep the counter of the run: chunks are pushed to the backend if it is attached, and counted if the push returns 0 |
| `Upload.Request.PushUploadDataChunk` | client/spdylay/src/shrpx_downstream.cc:381-419 | writes the bytes, framed if the request is chunked, and returns -1 or the number of framing bytes |
| `Upload.Request.HttpsBody` | client/spdylay/src/shrpx_https_upstream.cc:171-183 | with room in the buffers, the body callback writes the right bytes and fails if and only if the request is chunked |
| `Upload.HttpsUpload` | client/spdylay/src/shrpx_https_upstream.cc:94-183 | for any header callbacks and any body pieces: with room in the buffers, an upload of the HTTPS upstream fails if and only if it has a backend and a body and the first piece of a Transfer-Encoding value held the word; it fails at the first piece, which is written, and otherwise all bytes are written as they are |
| `Upload.Request.OnHeaderData` | client/spdylay/src/shrpx_https_upstream.cc:94-122 | the header callbacks of a request assemble its headers and set its flag as those of a response do |
| `Upload.SpdyUpload` | client/spdylay/src/shrpx_spdy_upstream.cc:168-195 | no upload of the SPDY upstream is chunked or fails while the buffer takes the bytes, which arrive as they are |
| `BodyShare.RunShare` | client/spdylay/src/http-parser/http_parser.c:1656-1805 | an input byte becomes at most one byte of body |
| `BodyShare.ExecuteShare` | client/spdylay/src/shrpx_downstream.cc:613-635 | one read gives the body callback no more bytes than it had |
| `BodyBuffer.IOControl.PauseRead` | client/spdylay/src/shrpx_io_control.cc:44-50 | sets the reason and stops reading |
| `BodyBuffer.IOControl.ResumeRead` | client/spdylay/src/shrpx_io_control.cc:52-63 | clears the reason and reads again exactly when none is left |
| `BodyBuffer.IOControl.ForceResumeRead` | client/spdylay/src/shrpx_io_control.cc:65-71 | clears every reason and reads |
| `BodyBuffer.ResponseBody.OnDownstreamBody` | client/spdylay/src/shrpx_spdy_upstream.cc:806-823 | appends, wakes the session, and pauses the backend above the threshold |
| `BodyBuffer.ResponseBody.OnCalls` | client/spdylay/src/shrpx_downstream.cc:521-598 | the body, completion and further header callbacks of one read, in order |
| `BodyBuffer.ResponseBody.DataReadCallback` | client/spdylay/src/shrpx_spdy_upstream.cc:647-669 | takes up to the asked length, resumes reading when the buffer runs empty, tells the end or waits |
| `BodyBuffer.ResponseBody.OnBackendEof` | client/spdylay/src/shrpx_spdy_upstream.cc:530-550 | the close of the backend completes a body that was not complete, and resets a tunnel and every response that was complete |
| `BodyBuffer.ResponseBody.OnBackendError` | client/spdylay/src/shrpx_spdy_upstream.cc:579-601 | an error or a timeout of the backend resets the stream |
| `BodyBuffer.ResponseBody.OnParseFailure` | client/spdylay/src/shrpx_spdy_upstream.cc:463-482 | a response that stops parsing is reset, and one that was complete gets an error page behind its body |
| `BodyBuffer.RunSound` | client/spdylay/src/shrpx_spdy_upstream.cc:647-669 | over every run of reads, failing reads, requests of the session, close, error and reset, with any number of response heads: the bytes handed out are an in-order prefix of those delivered, then of an error page, and the buffer is the rest; a paused connection has bytes in the buffer; the buffer stays within 64 KiB, one read of 64 KiB and the page; a waiting session of a stream that was not reset has nothing due, except an error page in a tunnel |
| `BodyBuffer.RunEndsWell` | client/spdylay/src/shrpx_spdy_upstream.cc:658-663 | over every run with one response head, the end was told only of a complete response that is no tunnel |
| `BodyBuffer.ResetExactly` | client/spdylay/src/shrpx_spdy_upstream.cc:447-608 | exactly which happenings reset the stream, and in which state |
| `BodyBuffer.CloseKeeps` | client/spdylay/src/shrpx_spdy_upstream.cc:524-550 | when the backend closes, the whole body can still be handed out if and only if the buffer is empty, or the response was not complete, is no tunnel, and no end was told before |
| `BodyBuffer.ErrorKeeps` | client/spdylay/src/shrpx_spdy_upstream.cc:579-601 | at an error or a timeout, if and only if the buffer is empty |
| `BodyBuffer.LosesBody` | client/spdylay/src/shrpx_spdy_upstream.cc:547-549 | a run that loses a whole body: one read completes the response and the backend closes before the session asks; nothing is handed out, whatever happens then |
| `BodyBuffer.EofIsEnd` | client/spdylay/src/shrpx_spdy_upstream.cc:658-663 | the end is told exactly when the response is complete, no tunnel, and the buffer empty or nothing asked for; everything was handed out then unless nothing was asked for with bytes in the buffer |
| `BodyBuffer.NeverStuck` | client/spdylay/src/shrpx_spdy_upstream.cc:647-669 | while bytes or the end are due on a stream that was not reset, the session is not waiting, and its next request gets some; an error page in a tunnel is the exception |
| `BodyBuffer.TellsEnd` | client/spdylay/src/shrpx_spdy_upstream.cc:658-664 | over every run, with any number of response heads: a complete response that was taken is ended by the next request of the session, unless it answers a CONNECT with a status from 200 to 299; that one is not told to end, and a close of its backend resets it |
| `BodyBuffer.TunnelNeverEnds` | client/spdylay/src/shrpx_downstream.cc:694-698 | over every run with one response head: a CONNECT that was answered with a status from 200 to 299 is never told to be at its end |
| `BodyBuffer.Drains` | client/spdylay/src/shrpx_downstream.cc:647-655 | however little is taken at a time, the buffer runs empty, every byte is handed out and reading resumes |
| `BodyBuffer.Drive` | client/spdylay/src/shrpx_spdy_upstream.cc:647-669 | the objects, driven by any run, are in the state of the run |
| `ConnectionPool.DownstreamConnection.AttachDownstream` | client/spdylay/src/shrpx_downstream_connection.cc:62-102 | both pointers are set, unless a new connection does not connect |
| `ConnectionPool.DownstreamConnection.Delete` | client/spdylay/src/shrpx_downstream_connection.cc:49-60 | the stream forgets the connection; it is deleted once |
| `ConnectionPool.Downstream.Delete` | client/spdylay/src/shrpx_downstream.cc:69-85 | the connection is deleted with its stream, once |
| `ConnectionPool.ClientHandler.GetDownstreamConnection` | client/spdylay/src/shrpx_client_handler.cc:254-270 | takes one out of the pool, or makes one |
| `ConnectionPool.ClientHandler.DetachDownstream` | client/spdylay/src/shrpx_downstream_connection.cc:151-167 | clears both pointers and pools the connection |
| `ConnectionPool.ClientHandler.OnSynStream` | client/spdylay/src/shrpx_spdy_upstream.cc:147-215 | keeps pointers mutual and pool unattached; a connection is left unowned exactly when a new one does not connect |
| `ConnectionPool.ClientHandler.OnStreamClose` | client/spdylay/src/shrpx_spdy_upstream.cc:92-137 | the stream is deleted; its connection is pooled if the response is complete, no tunnel and does not close, and deleted otherwise |
| `ConnectionPool.ClientHandler.OnHttpsRequest` | client/spdylay/src/shrpx_https_upstream.cc:70-168 | the same for the HTTPS upstream, which deletes a connection that does not connect |
| `ConnectionPool.ClientHandler.OnHttpsResponse` | client/spdylay/src/shrpx_https_upstream.cc:337-362 | the connection of a complete response is deleted or pooled, and the request object deleted with the request |
| `ConnectionPool.ClientHandler.OnIdleEvent` | client/spdylay/src/shrpx_downstream_connection.cc:121-148 | a pooled connection that ends leaves the pool and is deleted |
| `ConnectionPool.ClientHandler.OnBackendLost` | client/spdylay/src/shrpx_spdy_upstream.cc:507-608 | a lost connection is deleted once and its stream forgets it |
| `ConnectionPool.ClientHandler.Destroy` | client/spdylay/src/shrpx_client_handler.cc:133-153 | every stream and every owned connection is deleted exactly once |
| `ConnectionPool.NoSharing` | client/spdylay/src/shrpx_downstream.cc:87-95 | no connection serves two streams, and a pooled one serves none |
| `ConnectionPool.Live` | client/spdylay/src/shrpx_client_handler.cc:133-153 | over every run of either upstream and the destruction of the handler: each stream is deleted exactly once, each connection exactly once except those that did not connect for a SPDY stream; and every connection taken from the pool had last served a complete response that does not close it, and no tunnel unless the HTTPS upstream, which does not look, gave one back |

## Left out

- HttpExecute.HttpParser.Execute: callbacks that return an error; every data callback succeeds, on_headers_complete returns 0 or 1, and on_message_complete succeeds or pauses.
- UrlGrammar.ParseUrl: buffers longer than 65535 bytes, for which the 16-bit offsets of the source wrap around.
- HttpPipeline.Pipelined: callbacks that decide about a body from fields of an earlier message; `Blind` says that they look at what the parser tells them, as the backend's do.
- modify_location_header_value, which nothing calls, and the HTML of error pages.
- FlowControl.Conservation: several streams of one session; each stream has its own counter. Sessions without flow control, which count nothing.
- FlowControl.Drive: libspdylay's own scheduling of frames; frames arrive in order, at any time.
- BodyBuffer.RunSound: what comes before the first response header, where a backend that fails is answered with an error reply; and what the session does with a second response that is submitted on a stream, for a further response head or with the page of a failed read.
- Rechunk.Relay: trailers with a Transfer-Encoding header, which can set the flag when the body is written already; bytes after the response, such as a second one; responses that stop parsing or break off before their header is complete, after which the HTTPS upstream closes the client's connection or writes an error page; responses that end with their connection.
- ConnectionPool.ClientHandler.OnSynStream: a stream identifier that is in use, which the session refuses before the callback.
- push_request_headers, which prints requests as the modelled header printer prints responses.
- HttpsUpstream::on_read error replies and interim 1xx responses: lifecycle corners beside the parser and the pool.
- UriRfc.JoinAgrees: references with an empty segment, which `UriSegments.JoinAgreesOnSegments` has; fragments, which joinUri drops.
- libevent, OpenSSL, sockets, threads and libspdylay: buffers are byte sequences, callbacks and frames are events, whether a connection attempt succeeds is a parameter.
- client/spdylay/client/htparse: a second parser of the same language with a fixed buffer, which would repeat the theorems in weaker form.
- Command-line clients, event loops, configuration, logging, HTTP dates, and the Node, Python, AWS and JMeter material: tables, I/O and wrappers.
