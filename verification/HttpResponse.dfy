/**
 A printed response, read back: the status line, the header block, and the body.
 */
module HttpResponse {
  import opened HttpTypes
  import opened HttpSwitch
  import opened HttpRun
  import opened HttpBytes
  import opened HttpBody
  import opened HttpNumbers
  import opened HttpHeaders
  import opened HttpLines
  import opened HttpChunks
  import opened StatusTable

  // ---------------------------------------------------------------- status line

  /** The first line of a response, with a reason phrase. */
  function StatusLine(major: nat, minor: nat, status: nat, reason: string): string {
    "HTTP/" + DecOf(major) + "." + DecOf(minor) + " " + DecOf(status) + " " + reason + CRLF
  }

  lemma BeginByte(cb: Callbacks, p: Parser)
    requires p.state.StartRes? && p.errno.OK? && Room(p, 1)
    ensures Run(cb, p, ['H']) ==
            Ran(p.(nread := p.nread + 1, flags := NoFlags, contentLength := ULLONG_MAX, state := ResH), [Begin], 1)
  {
    hide Byte, Run, Handle;
    OnePass(cb, p, 'H');
    InStartPart(cb, Counted(p), 'H');
    RunOne(cb, p, 'H');
  }

  /** The parser in a status line after its first `n` bytes. */
  function InStatus(p: Parser, n: nat, s: State): Parser {
    p.(nread := p.nread + n, flags := NoFlags, contentLength := ULLONG_MAX, state := s)
  }

  lemma ProtocolFront(cb: Callbacks, p: Parser)
    requires p.state.StartRes? && p.errno.OK? && Room(p, 3)
    ensures Run(cb, p, "HTT") == Ran(InStatus(p, 3, ResHTT), [Begin], 3)
  {
    hide Run;
    BeginByte(cb, p);
    StatusByte(cb, InStatus(p, 1, ResH), 'T');
    RunConcat(cb, p, "H", "T");
    StatusByte(cb, InStatus(p, 2, ResHT), 'T');
    RunConcat(cb, p, "HT", "T");
    assert "H" + "T" == "HT" && "HT" + "T" == "HTT";
  }

  lemma ProtocolRun(cb: Callbacks, p: Parser)
    requires p.state.StartRes? && p.errno.OK? && Room(p, 5)
    ensures Run(cb, p, "HTTP/") == Ran(InStatus(p, 5, ResFirstHttpMajor), [Begin], 5)
  {
    hide Run;
    ProtocolFront(cb, p);
    StatusByte(cb, InStatus(p, 3, ResHTT), 'P');
    RunConcat(cb, p, "HTT", "P");
    StatusByte(cb, InStatus(p, 4, ResHTTP), '/');
    RunConcat(cb, p, "HTTP", "/");
    assert "HTT" + "P" == "HTTP" && "HTTP" + "/" == "HTTP/";
  }

  /** The version: both numbers and the blank after them. */
  lemma VersionRun(cb: Callbacks, p: Parser, major: nat, minor: nat)
    requires p.state.ResFirstHttpMajor? && p.errno.OK? && major <= 999 && minor <= 999
    requires Room(p, |DecOf(major) + "." + DecOf(minor) + " "|)
    ensures var w := DecOf(major) + "." + DecOf(minor) + " ";
            Run(cb, p, w) ==
              Ran(p.(nread := p.nread + |w|, httpMajor := major, httpMinor := minor, state := ResFirstStatusCode),
                  [], |w|)
  {
    hide Run, DecOf;
    var a, b := DecOf(major), DecOf(minor);
    MajorRun(cb, p, major);
    var q := p.(nread := p.nread + |a|, httpMajor := major, state := ResHttpMajor);
    StatusByte(cb, q, '.');
    RunConcat(cb, p, a, ".");
    var q1 := p.(nread := p.nread + |a| + 1, httpMajor := major, state := ResFirstHttpMinor);
    MinorRun(cb, q1, minor);
    RunConcat(cb, p, a + ".", b);
    var q2 := q1.(nread := q1.nread + |b|, httpMinor := minor, state := ResHttpMinor);
    StatusByte(cb, q2, ' ');
    RunConcat(cb, p, a + "." + b, " ");
  }

  /** The status, the reason phrase and the line end. */
  lemma ReasonLineRun(cb: Callbacks, p: Parser, status: nat, reason: string)
    requires p.state.ResFirstStatusCode? && p.errno.OK? && status <= 999
    requires forall i :: 0 <= i < |reason| ==> reason[i] != CR && reason[i] != LF
    requires Room(p, |DecOf(status) + " " + reason + CRLF|)
    ensures var w := DecOf(status) + " " + reason + CRLF;
            Run(cb, p, w) == Ran(p.(nread := p.nread + |w|, statusCode := status, state := HeaderFieldStart), [], |w|)
  {
    hide Run, DecOf;
    var a := DecOf(status);
    CodeRun(cb, p, status);
    var q := p.(nread := p.nread + |a|, statusCode := status, state := ResStatusCode);
    StatusByte(cb, q, ' ');
    RunConcat(cb, p, a, " ");
    var q1 := q.(nread := q.nread + 1, state := ResStatus);
    ReasonRun(cb, q1, reason);
    RunConcat(cb, p, a + " ", reason);
    var q2 := q1.(nread := q1.nread + |reason|);
    StatusByte(cb, q2, CR);
    RunConcat(cb, p, a + " " + reason, [CR]);
    StatusByte(cb, q2.(nread := q2.nread + 1, state := ResLineAlmostDone), LF);
    RunConcat(cb, p, a + " " + reason + [CR], [LF]);
    assert a + " " + reason + [CR] + [LF] == a + " " + reason + CRLF;
  }

  /** The parser after a status line. */
  function AfterStatusLine(p: Parser, n: nat, major: nat, minor: nat, status: nat): Parser {
    InStatus(p, n, HeaderFieldStart).(httpMajor := major, httpMinor := minor, statusCode := status)
  }

  /** A status line is read as its version and its status. */
  lemma StatusLineRun(cb: Callbacks, p: Parser, major: nat, minor: nat, status: nat, reason: string)
    requires p.state.StartRes? && p.errno.OK? && major <= 999 && minor <= 999 && status <= 999
    requires NoLineEnd(reason) && Room(p, |StatusLine(major, minor, status, reason)|)
    ensures var w := StatusLine(major, minor, status, reason);
            Run(cb, p, w) == Ran(AfterStatusLine(p, |w|, major, minor, status), [Begin], |w|)
  {
    hide Run, DecOf;
    var a := "HTTP/";
    var b := DecOf(major) + "." + DecOf(minor) + " ";
    var c := DecOf(status) + " " + reason + CRLF;
    assert StatusLine(major, minor, status, reason) == a + b + c;
    ProtocolRun(cb, p);
    var q := InStatus(p, 5, ResFirstHttpMajor);
    VersionRun(cb, q, major, minor);
    RunConcat(cb, p, a, b);
    ReasonLineRun(cb, q.(nread := q.nread + |b|, httpMajor := major, httpMinor := minor, state := ResFirstStatusCode),
                  status, reason);
    RunConcat(cb, p, a + b, c);
  }

  // ---------------------------------------------------------------- the whole header block

  /** The head of a response: status line, header lines, empty line. */
  function Head(major: nat, minor: nat, status: nat, reason: string, hs: seq<Header>): string {
    StatusLine(major, minor, status, reason) + Lines(hs) + CRLF
  }

  /** A head that the parser can read, in a parser that waits for a response. */
  predicate Readable(p: Parser, major: nat, minor: nat, status: nat, reason: string, hs: seq<Header>) {
    && p.state.StartRes? && p.errno.OK? && p.kind.Response? && p.verb.DELETE?
    && major <= 999 && minor <= 999 && status <= 999 && NoLineEnd(reason) && AreHeaders(hs)
    && Room(p, |Head(major, minor, status, reason, hs)|)
  }

  /** What the header lines of a new message mean together. */
  function FramingOfLines(hs: seq<Header>): Framing {
    MeaningAll(Framing(NoFlags, ULLONG_MAX), hs)
  }

  /** The parser when only the last line feed of the head is missing. */
  predicate HeadRead(p: Parser, q: Parser, n: nat, major: nat, minor: nat, status: nat, f: Framing) {
    q == p.(nread := p.nread + n, state := HeadersAlmostDone, httpMajor := major, httpMinor := minor,
            statusCode := status, flags := f.flags, contentLength := f.contentLength,
            headerState := q.headerState, index := q.index)
  }

  /** The head up to its last line feed. */
  lemma HeadRun(cb: Callbacks, p: Parser, major: nat, minor: nat, status: nat, reason: string, hs: seq<Header>)
    requires Readable(p, major, minor, status, reason, hs)
    ensures var w := StatusLine(major, minor, status, reason) + Lines(hs) + [CR];
            var r := Run(cb, p, w);
            && Head(major, minor, status, reason, hs) == w + [LF]
            && r == Ran(r.p, [Begin] + LinesEvents(hs), |w|)
            && HeadRead(p, r.p, |w|, major, minor, status, FramingOfLines(hs))
  {
    hide Run, StatusLine, Lines, LinesEvents, MeaningAll;
    var a := StatusLine(major, minor, status, reason);
    StatusLineRun(cb, p, major, minor, status, reason);
    var q := AfterStatusLine(p, |a|, major, minor, status);
    BlockRun(cb, q, hs);
    RunConcat(cb, p, a, Lines(hs) + [CR]);
    assert a + (Lines(hs) + [CR]) == a + Lines(hs) + [CR];
    assert [CR] + [LF] == CRLF;
  }

  /** The statuses that never have a body. */
  predicate BodilessStatus(status: nat) {
    100 <= status <= 199 || status == 204 || status == 304
  }

  /** The callbacks of the backend connection: on_headers_complete says that no body follows a HEAD
      request or one of the bodiless statuses, and nothing pauses. */
  function BackendCallbacks(head: bool): Callbacks {
    Callbacks(false, (p: Parser) => head || BodilessStatus(p.statusCode))
  }

  lemma BackendDecides(head: bool, q: Parser)
    ensures BackendCallbacks(head).noBody(q) == (head || BodilessStatus(q.statusCode))
    ensures !BackendCallbacks(head).pauses
  {
  }

  /** What on_headers_complete is told. */
  function HeadInfo(p: Parser): Event { HeadersComplete(InfoOf(AtHeadersComplete(p))) }

  // ---------------------------------------------------------------- responses with a length

  /** A head that announces `n` bytes of body. */
  predicate LengthHead(p: Parser, major: nat, minor: nat, status: nat, reason: string, hs: seq<Header>, n: nat) {
    && Readable(p, major, minor, status, reason, hs) && !BodilessStatus(status)
    && var f := FramingOfLines(hs); !f.flags.chunked && !f.flags.upgrade && f.contentLength == n < ULLONG_MAX
  }

  /** Such a head and a part of the body, or all of it. */
  lemma LengthHeadRun(p: Parser, major: nat, minor: nat, status: nat, reason: string, hs: seq<Header>, n: nat,
                      body: string)
    returns (q: Parser)
    requires LengthHead(p, major, minor, status, reason, hs, n) && |body| <= n
    ensures var cb, h := BackendCallbacks(false), Head(major, minor, status, reason, hs);
            var r := Run(cb, p, h + body);
            && r.count == |h + body| && |h| > 0
            && HeadRead(p, q, |h| - 1, major, minor, status, FramingOfLines(hs))
            && r.p == (if |body| == n then Finish(cb, InBodyWith(q, 0)).p else InBodyWith(q, n - |body|))
            && r.events == [Begin] + LinesEvents(hs) + [HeadInfo(q)]
                           + (Bytewise(Body, body) + if |body| == n then [Complete] else [])
  {
    hide Run, Head, StatusLine, Lines, LinesEvents, MeaningAll, Bytewise, InfoOf, AtHeadersComplete, Finish;
    var cb := BackendCallbacks(false);
    HeadRun(cb, p, major, minor, status, reason, hs);
    var a := StatusLine(major, minor, status, reason) + Lines(hs) + [CR];
    q := Run(cb, p, a).p;
    FramingStarts(hs);
    HeadersCompleteFrame(q);
    BackendDecides(false, AtHeadersComplete(q));
    BodyConserved(cb, q, n, body);
    RunConcat(cb, p, a, [LF] + body);
    assert a + ([LF] + body) == Head(major, minor, status, reason, hs) + body;
    var es, b, end := [Begin] + LinesEvents(hs), Bytewise(Body, body), if |body| == n then [Complete] else [];
    assert es + ([HeadInfo(q)] + b + end) == es + [HeadInfo(q)] + (b + end);
  }

  /** A response with a Content-Length: its head and its body, and nothing else, make up the
      message, which is complete exactly at its last byte. */
  lemma LengthResponse(p: Parser, major: nat, minor: nat, status: nat, reason: string, hs: seq<Header>, body: string)
    requires LengthHead(p, major, minor, status, reason, hs, |body|)
    ensures var cb := BackendCallbacks(false);
            var w := Head(major, minor, status, reason, hs) + body;
            var r := Run(cb, p, w);
            && r.count == |w| && r.p.errno.OK? && (r.p.state.StartRes? || r.p.state.Dead?)
            && (r.p.state.StartRes? <==> Persists(major, minor, FramingOfLines(hs).flags)) && r.p.nread == 0
            && exists q :: HeadRead(p, q, |w| - |body| - 1, major, minor, status, FramingOfLines(hs))
                 && r.events == [Begin] + LinesEvents(hs) + [HeadInfo(q)] + Bytewise(Body, body) + [Complete]
  {
    hide Run, Head, LinesEvents, MeaningAll, Bytewise, InfoOf;
    var q := LengthHeadRun(p, major, minor, status, reason, hs, |body|, body);
    var es := [Begin] + LinesEvents(hs) + [HeadInfo(q)];
    assert es + (Bytewise(Body, body) + [Complete]) == es + Bytewise(Body, body) + [Complete];
    FinishRests(BackendCallbacks(false), InBodyWith(q, 0));
  }

  lemma HeadersCompleteFrame(p: Parser)
    ensures var q := AtHeadersComplete(p);
            && q.statusCode == p.statusCode && q.flags == p.flags && q.kind == p.kind && q.errno == p.errno
            && q.httpMajor == p.httpMajor && q.httpMinor == p.httpMinor && q.state.HeadersDone?
            && q.contentLength == p.contentLength
            && (q.upgrade <==> p.flags.upgrade || p.verb.CONNECT?)
  {
  }

  lemma FinishRests(cb: Callbacks, p: Parser)
    requires !cb.pauses && p.kind.Response? && p.errno.OK?
    ensures var q := Finish(cb, p).p;
            && q.errno.OK? && (q.state.StartRes? || q.state.Dead?) && q.nread == p.nread
            && (q.state.StartRes? <==> ShouldKeepAlive(p))
  {
    hide ShouldKeepAlive;
  }

  /** A message with an end of its own after which the connection stays: from HTTP/1.1 on unless it says
      close, before only if it says keep-alive. */
  predicate Persists(major: nat, minor: nat, f: Flags) {
    if major > 0 && minor > 0 then !f.close else f.keepAlive
  }

  lemma MeaningKeeps(f: Framing, h: Header)
    ensures var g := Meaning(f, h); g.flags.trailing == f.flags.trailing && g.flags.skipBody == f.flags.skipBody
    ensures f.flags.chunked ==> Meaning(f, h).flags.chunked
  {
    hide DecValue, HttpMatcher.NameClass, HttpMatcher.Spells;
  }

  /** No header line sets the flags that only the body and the callbacks set. */
  lemma {:induction false} FramingKeeps(f: Framing, hs: seq<Header>)
    ensures var g := MeaningAll(f, hs); g.flags.trailing == f.flags.trailing && g.flags.skipBody == f.flags.skipBody
    ensures f.flags.chunked ==> MeaningAll(f, hs).flags.chunked
    decreases |hs|
  {
    hide Meaning;
    if hs != [] {
      MeaningKeeps(f, hs[0]);
      FramingKeeps(Meaning(f, hs[0]), hs[1..]);
    }
  }

  lemma FramingStarts(hs: seq<Header>)
    ensures !FramingOfLines(hs).flags.trailing && !FramingOfLines(hs).flags.skipBody
  {
    FramingKeeps(Framing(NoFlags, ULLONG_MAX), hs);
  }

  // ---------------------------------------------------------------- chunked responses

  lemma ChunkedHeadEnd(cb: Callbacks, q: Parser)
    requires q.state.HeadersAlmostDone? && q.errno.OK? && Room(q, 1) && !cb.noBody(AtHeadersComplete(q))
    requires q.flags.chunked && !q.flags.upgrade && !q.flags.trailing && !q.flags.skipBody && !q.verb.CONNECT?
    ensures Run(cb, q, [LF]) ==
            Ran(AtHeadersComplete(q).(nread := 0, state := ChunkSizeStart), [HeadInfo(q)], 1)
  {
    hide Run, Byte, Handle, InfoOf;
    HeadersEndByte(cb, q);
    RunOne(cb, q, LF);
  }

  /** A head that announces chunks, of a response that has a body. */
  predicate ChunkedHead(p: Parser, major: nat, minor: nat, status: nat, reason: string, hs: seq<Header>) {
    && Readable(p, major, minor, status, reason, hs) && !BodilessStatus(status)
    && FramingOfLines(hs).flags.chunked && !FramingOfLines(hs).flags.upgrade
  }

  /** After the head of a chunked response the parser is at the start of a chunk. */
  lemma ChunkedHeadRun(p: Parser, major: nat, minor: nat, status: nat, reason: string, hs: seq<Header>)
    requires ChunkedHead(p, major, minor, status, reason, hs)
    ensures var h := Head(major, minor, status, reason, hs);
            var r := Run(BackendCallbacks(false), p, h);
            && r.count == |h| > 0 && AtChunk(r.p) && !r.p.flags.skipBody && r.p.kind.Response?
            && r.p.flags == FramingOfLines(hs).flags && r.p.httpMajor == major && r.p.httpMinor == minor
            && exists q :: HeadRead(p, q, |h| - 1, major, minor, status, FramingOfLines(hs))
                 && r.events == [Begin] + LinesEvents(hs) + [HeadInfo(q)]
  {
    hide Run, Head, StatusLine, Lines, LinesEvents, MeaningAll, InfoOf, AtHeadersComplete;
    var cb := BackendCallbacks(false);
    HeadRun(cb, p, major, minor, status, reason, hs);
    var h := Head(major, minor, status, reason, hs);
    var a := StatusLine(major, minor, status, reason) + Lines(hs) + [CR];
    var q := Run(cb, p, a).p;
    FramingStarts(hs);
    HeadersCompleteFrame(q);
    BackendDecides(false, AtHeadersComplete(q));
    ChunkedHeadEnd(cb, q);
    RunConcat(cb, p, a, [LF]);
  }

  // ---------------------------------------------------------------- chunked bodies with a trailer

  /** The line feed after the trailer. */
  lemma TrailerLineFeed(cb: Callbacks, q: Parser)
    requires q.state.HeadersAlmostDone? && q.errno.OK? && q.flags.trailing && Room(q, 1)
    ensures Run(cb, q, [LF]) == Ran(Finish(cb, Counted(q)).p, [Complete], 1)
  {
    hide Byte, Run, Handle, Finish;
    OnePass(cb, q, LF);
    InHeadersEndPart(cb, Counted(q), LF);
    RunOne(cb, q, LF);
    FinishAdvances(cb, Counted(q));
    HeadersEndCases(cb, Counted(q), LF);
  }

  predicate IsTrailer(ts: seq<Header>) { AreHeaders(ts) && |Lines(ts)| + 2 <= MAX_HEADER_SIZE }

  /** The parser at rest after a chunked message, with `n` bytes counted: it waits for the next if the flags at the
      end let the connection stay. */
  predicate Rests(q: Parser, major: nat, minor: nat, f: Flags, n: nat) {
    && q.errno.OK? && (q.state.StartRes? || q.state.Dead?) && q.nread == n
    && (q.state.StartRes? <==> Persists(major, minor, f))
  }

  lemma TrailerRun(cb: Callbacks, p: Parser, ts: seq<Header>)
    requires p.state.HeaderFieldStart? && p.errno.OK? && p.flags.trailing && p.nread == 0 && IsTrailer(ts)
    ensures var w := Lines(ts) + CRLF;
            var r := Run(cb, p, w);
            && r.count == |w| && r.events == LinesEvents(ts) + [Complete]
            && (!cb.pauses && p.kind.Response? && p.flags.chunked ==>
                  Rests(r.p, p.httpMajor, p.httpMinor, MeaningAll(FramingOf(p), ts).flags, |w|))
  {
    hide Run, Lines, LinesEvents, MeaningAll, IsHeader, Finish;
    var a := Lines(ts) + [CR];
    BlockRun(cb, p, ts);
    FramingKeeps(FramingOf(p), ts);
    var q := Run(cb, p, a).p;
    TrailerLineFeed(cb, q);
    RunConcat(cb, p, a, [LF]);
    assert a + [LF] == Lines(ts) + CRLF by { assert [CR] + [LF] == CRLF; }
    if !cb.pauses && p.kind.Response? && p.flags.chunked {
      FinishRests(cb, Counted(q));
    }
  }

  /** A chunked body as a peer may write it, with a trailer. */
  function TrailedText(cs: seq<Chunk>, last: Chunk, ts: seq<Header>): string {
    if cs == [] then last.size + last.ext + CRLF + (Lines(ts) + CRLF)
    else ChunkText(cs[0]) + TrailedText(cs[1..], last, ts)
  }

  /** The flags at the end of a chunked message. */
  function FlagsAfter(f: Flags, ts: seq<Header>): Flags {
    MeaningAll(Framing(f.(trailing := true), 0), ts).flags
  }

  lemma {:induction false} TrailedRun(cb: Callbacks, p: Parser, cs: seq<Chunk>, last: Chunk, ts: seq<Header>)
    requires AtChunk(p) && AreChunks(cs, last) && IsTrailer(ts)
    ensures var w := TrailedText(cs, last, ts);
            var r := Run(cb, p, w);
            && r.count == |w| && r.events == Bytewise(Body, Payload(cs)) + (LinesEvents(ts) + [Complete])
            && (!cb.pauses && p.kind.Response? ==>
                  Rests(r.p, p.httpMajor, p.httpMinor, FlagsAfter(p.flags, ts), |Lines(ts)| + 2))
    decreases |cs|
  {
    hide Run, Bytewise, ChunkText, IsChunk, IsSizeLine, Lines, LinesEvents, IsTrailer, MeaningAll, Rests;
    var end := LinesEvents(ts) + [Complete];
    if cs == [] {
      SizeLineRun(cb, p, last.size, last.ext, 0);
      var s := p.(contentLength := 0, flags := p.flags.(trailing := true), state := HeaderFieldStart);
      TrailerRun(cb, s, ts);
      RunConcat(cb, p, last.size + last.ext + CRLF, Lines(ts) + CRLF);
      BytewiseNone(Body);
      assert [] + end == end;
    } else {
      ChunkTextRun(cb, p, cs[0]);
      TrailedRun(cb, p.(contentLength := 0), cs[1..], last, ts);
      RunConcat(cb, p, ChunkText(cs[0]), TrailedText(cs[1..], last, ts));
      var a, b := Bytewise(Body, cs[0].data), Bytewise(Body, Payload(cs[1..]));
      BytewiseConcat(Body, cs[0].data, Payload(cs[1..]));
      assert a + (b + end) == a + b + end;
    }
  }

  lemma {:induction false} TrailedPlain(cs: seq<Chunk>, last: Chunk)
    ensures TrailedText(cs, last, []) == ChunkedText(cs, last)
    decreases |cs|
  {
    hide ChunkText;
    if cs == [] {
      assert Lines([]) + CRLF == CRLF;
    } else {
      TrailedPlain(cs[1..], last);
    }
  }

  /** A chunked response, however its chunks are spelled and whatever its trailer: the data is delivered in order,
      whatever Content-Length says, then the trailer, and the message is complete at its end; the trailer stays
      counted. */
  lemma ChunkedResponse(p: Parser, major: nat, minor: nat, status: nat, reason: string, hs: seq<Header>,
                        cs: seq<Chunk>, last: Chunk, ts: seq<Header>)
    requires ChunkedHead(p, major, minor, status, reason, hs) && AreChunks(cs, last) && IsTrailer(ts)
    ensures var h := Head(major, minor, status, reason, hs);
            var w := h + TrailedText(cs, last, ts);
            var r := Run(BackendCallbacks(false), p, w);
            && r.count == |w| && r.p.errno.OK? && (r.p.state.StartRes? || r.p.state.Dead?)
            && (r.p.state.StartRes? <==> Persists(major, minor, FlagsAfter(FramingOfLines(hs).flags, ts)))
            && r.p.nread == |Lines(ts)| + 2
            && exists q :: HeadRead(p, q, |h| - 1, major, minor, status, FramingOfLines(hs))
                 && r.events == [Begin] + LinesEvents(hs) + [HeadInfo(q)] + Bytewise(Body, Payload(cs))
                                + LinesEvents(ts) + [Complete]
  {
    hide Run, Head, LinesEvents, MeaningAll, Bytewise, HeadInfo, TrailedText, Payload, HeadRead, Readable, AreChunks,
      IsTrailer, Lines;
    var cb := BackendCallbacks(false);
    var h := Head(major, minor, status, reason, hs);
    ChunkedHeadRun(p, major, minor, status, reason, hs);
    var q :| HeadRead(p, q, |h| - 1, major, minor, status, FramingOfLines(hs))
      && Run(cb, p, h).events == [Begin] + LinesEvents(hs) + [HeadInfo(q)];
    var s := Run(cb, p, h).p;
    BackendDecides(false, s);
    TrailedRun(cb, s, cs, last, ts);
    RunConcat(cb, p, h, TrailedText(cs, last, ts));
    var es, b, t := [Begin] + LinesEvents(hs) + [HeadInfo(q)], Bytewise(Body, Payload(cs)), LinesEvents(ts);
    assert es + (b + (t + [Complete])) == es + b + t + [Complete];
  }

  // ---------------------------------------------------------------- responses without a body

  /** What on_headers_complete is told of the connection: it stays if the headers say so and the response has an end
      of its own, by its status, in chunks or by a length. */
  lemma KeepAliveInfo(p: Parser, q: Parser, n: nat, major: nat, minor: nat, status: nat, hs: seq<Header>)
    requires HeadRead(p, q, n, major, minor, status, FramingOfLines(hs)) && p.kind.Response?
    ensures var info, f := InfoOf(AtHeadersComplete(q)), FramingOfLines(hs);
            && info.statusCode == status && info.httpMajor == major && info.httpMinor == minor
            && (info.keepAlive <==>
                  && Persists(major, minor, f.flags)
                  && (|| 100 <= status <= 199 || status == 204 || status == 304
                      || f.flags.chunked || f.contentLength != ULLONG_MAX))
  {
    hide MeaningAll;
    FramingStarts(hs);
  }

  lemma BodilessEnd(cb: Callbacks, q: Parser)
    requires q.state.HeadersDone? && !q.upgrade && q.flags.skipBody && q.kind.Response? && q.errno.OK? && !cb.pauses
    ensures var o := HandleHeadersEnd(cb, q, LF);
            && o.note == [Complete] && o.p.errno.OK? && (o.p.state.StartRes? || o.p.state.Dead?) && o.p.nread == 0
            && (o.p.state.StartRes? <==> Persists(q.httpMajor, q.httpMinor, q.flags))
  {
    HeadersDoneCases(cb, q);
    FinishRests(cb, q.(nread := 0));
  }

  lemma UpgradeEnd(cb: Callbacks, q: Parser)
    requires q.state.HeadersDone? && q.upgrade
    ensures HandleHeadersEnd(cb, q, LF) == Go(q.(nread := 0, state := BodyIdentityEof))
  {
  }

  /** The answer to a HEAD, or a response with a status that never has a body, is complete with its head, whatever
      length or chunks it announces, and the parser waits for the next message if and only if the connection stays.
      Only after an Upgrade header is it read on to the end of the stream. */
  lemma BodilessResponse(head: bool, p: Parser, major: nat, minor: nat, status: nat, reason: string, hs: seq<Header>)
    requires Readable(p, major, minor, status, reason, hs)
    requires head || 100 <= status <= 199 || status == 204 || status == 304
    ensures var h, f := Head(major, minor, status, reason, hs), FramingOfLines(hs);
            var r := Run(BackendCallbacks(head), p, h);
            && r.count == |h| > 0 && r.p.errno.OK? && r.p.nread == 0
            && (if f.flags.upgrade then r.p.state.BodyIdentityEof?
                else (r.p.state.StartRes? || r.p.state.Dead?)
                     && (r.p.state.StartRes? <==> Persists(major, minor, f.flags)))
            && exists q :: HeadRead(p, q, |h| - 1, major, minor, status, f)
                 && r.events == [Begin] + LinesEvents(hs) + [HeadInfo(q)] + if f.flags.upgrade then [] else [Complete]
  {
    hide Run, Byte, Head, StatusLine, Lines, LinesEvents, MeaningAll, InfoOf, AtHeadersComplete, HandleHeadersEnd,
      Persists;
    var cb := BackendCallbacks(head);
    HeadRun(cb, p, major, minor, status, reason, hs);
    var a := StatusLine(major, minor, status, reason) + Lines(hs) + [CR];
    var q := Run(cb, p, a).p;
    FramingStarts(hs);
    HeadersCompleteFrame(q);
    BackendDecides(head, AtHeadersComplete(q));
    HeadersEndByte(cb, q);
    RunOne(cb, q, LF);
    var s := AfterHeadersComplete(cb, q);
    PersistsFlags(major, minor, q.flags, s.flags);
    if s.upgrade {
      UpgradeEnd(cb, s);
    } else {
      BodilessEnd(cb, s);
    }
    RunConcat(cb, p, a, [LF]);
    var es := [Begin] + LinesEvents(hs);
    var end := if FramingOfLines(hs).flags.upgrade then [] else [Complete];
    assert es + ([HeadInfo(q)] + end) == es + [HeadInfo(q)] + end;
  }

  lemma PersistsFlags(major: nat, minor: nat, f: Flags, g: Flags)
    requires g == f.(skipBody := true)
    ensures Persists(major, minor, f) <==> Persists(major, minor, g)
  {
  }

  // ---------------------------------------------------------------- responses that end with the connection

  lemma OpenEnd(cb: Callbacks, q: Parser)
    requires q.state.HeadersDone? && !q.upgrade && !q.flags.skipBody && !q.flags.chunked && q.kind.Response?
    requires q.contentLength == ULLONG_MAX && !BodilessStatus(q.statusCode)
    ensures HandleHeadersEnd(cb, q, LF) == Go(q.(nread := 0, state := BodyIdentityEof))
  {
    hide Finish;
  }

  /** A response that announces no length and no chunks: whatever follows its head is its body, it is not
      complete before the end of the stream, and there it is. */
  lemma OpenResponse(p: Parser, major: nat, minor: nat, status: nat, reason: string, hs: seq<Header>, body: string)
    requires Readable(p, major, minor, status, reason, hs) && !BodilessStatus(status)
    requires var f := FramingOfLines(hs);
             !f.flags.chunked && !f.flags.upgrade && f.contentLength == ULLONG_MAX
    ensures var cb := BackendCallbacks(false);
            var h := Head(major, minor, status, reason, hs);
            var r := Run(cb, p, h + body);
            && r.count == |h + body| && r.p.errno.OK? && r.p.state.BodyIdentityEof?
            && exists q :: HeadRead(p, q, |h| - 1, major, minor, status, FramingOfLines(hs))
                 && r.events == [Begin] + LinesEvents(hs) + [HeadInfo(q)] + Bytewise(Body, body)
  {
    hide Run, Byte, Head, StatusLine, Lines, LinesEvents, MeaningAll, Bytewise, InfoOf, AtHeadersComplete,
      HandleHeadersEnd;
    var cb := BackendCallbacks(false);
    HeadRun(cb, p, major, minor, status, reason, hs);
    var h := Head(major, minor, status, reason, hs);
    var a := StatusLine(major, minor, status, reason) + Lines(hs) + [CR];
    var q := Run(cb, p, a).p;
    FramingStarts(hs);
    HeadersCompleteFrame(q);
    var c := AtHeadersComplete(q);
    BackendDecides(false, c);
    HeadersEndByte(cb, q);
    OpenEnd(cb, c);
    RunOne(cb, q, LF);
    RunConcat(cb, p, a, [LF]);
    var s := c.(nread := 0, state := BodyIdentityEof);
    BodyRun(cb, s, body);
    RunConcat(cb, p, h, body);
    assert [HeadInfo(q)] + [] == [HeadInfo(q)];
  }
}
