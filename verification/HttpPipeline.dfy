/**
 Pipelining: a parser that waits for its next message behaves like a new one, so nothing of the
 messages before can leak into the ones that follow.
 */
module HttpPipeline {
  import opened HttpTypes
  import opened HttpSwitch
  import opened HttpRun
  import opened HttpBody
  import opened HttpInvariant
  import opened HttpMarks
  import opened HttpHeaders
  import opened HttpMatcher
  import opened HttpChunks
  import opened HttpLines
  import opened HttpResponse

  // ---------------------------------------------------------------- which fields are live

  predicate AtStart(s: State) {
    s.StartReq? || s.StartRes? || s.Dead?
  }

  predicate BeforeMajor(s: State) {
    || AtStart(s) || s.ReqMethod? || s.ReqSpacesBeforeUrl? || InUrl(s)
    || s.ReqHttpStart? || s.ReqHttpH? || s.ReqHttpHT? || s.ReqHttpHTT? || s.ReqHttpHTTP? || s.ReqFirstHttpMajor?
    || s.ResH? || s.ResHT? || s.ResHTT? || s.ResHTTP? || s.ResFirstHttpMajor?
  }

  predicate BeforeMinor(s: State) {
    BeforeMajor(s) || s.ReqHttpMajor? || s.ReqFirstHttpMinor? || s.ResHttpMajor? || s.ResFirstHttpMinor?
  }

  predicate BeforeStatus(s: State) {
    BeforeMinor(s) || s.ResHttpMinor? || s.ResFirstStatusCode?
  }

  predicate UsesHeaderState(s: State) {
    s.HeaderField? || s.HeaderValueStart? || s.HeaderValue? || s.HeaderAlmostDone? || s.HeaderValueLws?
  }

  /** Two parsers that agree on everything that is still going to be read.  The byte count is
      compared separately. */
  predicate Similar(p: Parser, q: Parser) {
    && p.kind == q.kind && p.state == q.state && p.errno == q.errno
    && (p.kind.Response? ==> p.verb == q.verb)
    && (AtStart(p.state) || SimilarInside(p, q))
  }

  /** The fields that matter inside a message. */
  predicate SimilarInside(p: Parser, q: Parser) {
    var s := p.state;
    && p.flags == q.flags && p.contentLength == q.contentLength && p.verb == q.verb
    && if BeforeMajor(s) then s.ReqMethod? ==> p.index == q.index
       else
         && p.httpMajor == q.httpMajor
         && (BeforeMinor(s) || p.httpMinor == q.httpMinor)
         && (BeforeStatus(s) || SimilarHead(p, q))
  }

  /** The fields that matter after the first line. */
  predicate SimilarHead(p: Parser, q: Parser) {
    var s := p.state;
    && (p.kind.Response? ==> p.statusCode == q.statusCode)
    && (s.HeaderField? || s.HeaderValue? ==> p.index == q.index)
    && (UsesHeaderState(s) ==> p.headerState == q.headerState)
    && (s.HeadersDone? ==> p.upgrade == q.upgrade)
  }

  /** A parser whose type is settled, in a state that goes with its type. */
  predicate Settled(p: Parser) {
    OfType(p) && !p.state.StartReqOrRes? && !p.state.ResOrRespH?
  }

  /** For parsers of a type, the application decides about the body from what the parser tells it. */
  ghost predicate Blind(cb: Callbacks, kind: Type) {
    forall p: Parser, q: Parser ::
      p.kind == q.kind == kind && InfoOf(p) == InfoOf(q) ==> cb.noBody(p) == cb.noBody(q)
  }

  /** Two passes with the same outward effect that leave similar parsers. */
  predicate SameEffect(a: Out, b: Out) {
    && a.mark == b.mark && a.flush == b.flush && a.note == b.note && a.next == b.next
    && a.p.errno == b.p.errno
    && (!a.next.Fail? ==> Similar(a.p, b.p) && Settled(a.p) && Settled(b.p))
  }

  lemma SameStart(p: Parser, q: Parser, ch: char)
    requires (InStart(p.state)) && Similar(p, q) && Settled(p) && Settled(q)
    ensures SameEffect(HandleStart(p, ch), HandleStart(q, ch))
  {
  }

  lemma SameVersion(p: Parser, q: Parser, ch: char)
    requires p.state.ResHttpMajor? || p.state.ResFirstHttpMinor? || p.state.ResHttpMinor?
    requires Similar(p, q) && Settled(p) && Settled(q)
    ensures SameEffect(HandleStatusLine(p, ch), HandleStatusLine(q, ch))
  {
  }

  lemma SameStatusCode(p: Parser, q: Parser, ch: char)
    requires p.state.ResFirstStatusCode? || p.state.ResStatusCode?
    requires Similar(p, q) && Settled(p) && Settled(q)
    ensures SameEffect(HandleStatusLine(p, ch), HandleStatusLine(q, ch))
  {
  }

  lemma SameReason(p: Parser, q: Parser, ch: char)
    requires p.state.ResStatus? || p.state.ResLineAlmostDone?
    requires Similar(p, q) && Settled(p) && Settled(q)
    ensures SameEffect(HandleStatusLine(p, ch), HandleStatusLine(q, ch))
  {
  }

  lemma SameProtocol(p: Parser, q: Parser, ch: char)
    requires p.state.ResH? || p.state.ResHT? || p.state.ResHTT? || p.state.ResHTTP? || p.state.ResFirstHttpMajor?
    requires Similar(p, q) && Settled(p) && Settled(q)
    ensures SameEffect(HandleStatusLine(p, ch), HandleStatusLine(q, ch))
  {
  }

  lemma SameStatusLine(p: Parser, q: Parser, ch: char)
    requires InStatusLine(p.state) && Similar(p, q) && Settled(p) && Settled(q)
    ensures SameEffect(HandleStatusLine(p, ch), HandleStatusLine(q, ch))
  {
    hide HandleStatusLine, Similar, Settled, SameEffect;
    if p.state.ResHttpMajor? || p.state.ResFirstHttpMinor? || p.state.ResHttpMinor? {
      SameVersion(p, q, ch);
    } else if p.state.ResFirstStatusCode? || p.state.ResStatusCode? {
      SameStatusCode(p, q, ch);
    } else if p.state.ResStatus? || p.state.ResLineAlmostDone? {
      SameReason(p, q, ch);
    } else {
      SameProtocol(p, q, ch);
    }
  }

  lemma SameMethod(p: Parser, q: Parser, ch: char)
    requires (p.state.ReqMethod?) && Similar(p, q) && Settled(p) && Settled(q)
    ensures SameEffect(HandleMethod(p, ch), HandleMethod(q, ch))
  {
  }

  /** Agreement in the request line, before the version. */
  predicate SimilarUrl(p: Parser, q: Parser) {
    && p.kind.Request? && q.kind.Request? && p.errno == q.errno && p.flags == q.flags
    && p.contentLength == q.contentLength && p.verb == q.verb && p.state == q.state
  }

  lemma UrlSimilar(p: Parser, q: Parser)
    requires (p.state.ReqSpacesBeforeUrl? || InUrl(p.state)) && Similar(p, q) && Settled(p) && Settled(q)
    ensures SimilarUrl(p, q)
  {
  }

  lemma UrlSettled(p: Parser, q: Parser)
    requires SimilarUrl(p, q) && InUrl(p.state)
    ensures Similar(p, q) && Settled(p) && Settled(q)
  {
  }

  lemma SameUrlByte(p: Parser, q: Parser, s: State)
    requires (p.state.ReqSpacesBeforeUrl? || InUrl(p.state)) && Similar(p, q) && Settled(p) && Settled(q)
    requires s.Dead? || InUrl(s)
    ensures SameEffect(UrlByte(p, s), UrlByte(q, s))
  {
    hide Similar, Settled, InUrl;
    UrlSimilar(p, q);
    if !s.Dead? {
      UrlSettled(p.(state := s), q.(state := s));
    }
  }

  lemma SameUrlBlank(p: Parser, q: Parser)
    requires InUrl(p.state) && Similar(p, q) && Settled(p) && Settled(q)
    ensures SameEffect(HandleUrl(p, ' '), HandleUrl(q, ' '))
  {
  }

  lemma SameUrlCr(p: Parser, q: Parser)
    requires InUrl(p.state) && Similar(p, q) && Settled(p) && Settled(q)
    ensures SameEffect(HandleUrl(p, CR), HandleUrl(q, CR))
  {
    hide ParseUrlChar;
  }

  lemma SameUrlLf(p: Parser, q: Parser)
    requires InUrl(p.state) && Similar(p, q) && Settled(p) && Settled(q)
    ensures SameEffect(HandleUrl(p, LF), HandleUrl(q, LF))
  {
    hide ParseUrlChar;
  }

  lemma SameUrlLineEnd(p: Parser, q: Parser, ch: char)
    requires InUrl(p.state) && Similar(p, q) && Settled(p) && Settled(q) && (ch == CR || ch == LF)
    ensures SameEffect(HandleUrl(p, ch), HandleUrl(q, ch))
  {
    hide HandleUrl, Similar, Settled, SameEffect;
    if ch == CR {
      SameUrlCr(p, q);
    } else {
      SameUrlLf(p, q);
    }
  }

  lemma SameUrl(p: Parser, q: Parser, ch: char)
    requires (p.state.ReqSpacesBeforeUrl? || InUrl(p.state)) && Similar(p, q) && Settled(p) && Settled(q)
    ensures SameEffect(HandleUrl(p, ch), HandleUrl(q, ch))
  {
    hide ParseUrlChar, UrlByte;
    var from := if p.state.ReqSpacesBeforeUrl? && p.verb.CONNECT? then ReqServerStart else p.state;
    if InUrl(p.state) && (ch == ' ' || ch == CR || ch == LF) {
      hide HandleUrl, Similar, Settled, SameEffect;
      if ch == ' ' {
        SameUrlBlank(p, q);
      } else {
        SameUrlLineEnd(p, q, ch);
      }
    } else {
      UrlCharStays(from, ch);
      SameUrlByte(p, q, ParseUrlChar(from, ch));
    }
  }

  lemma SameRequestProtocol(p: Parser, q: Parser, ch: char)
    requires p.state.ReqHttpStart? || p.state.ReqHttpH? || p.state.ReqHttpHT? || p.state.ReqHttpHTT?
             || p.state.ReqHttpHTTP?
    requires Similar(p, q) && Settled(p) && Settled(q)
    ensures SameEffect(HandleRequestVersion(p, ch), HandleRequestVersion(q, ch))
  {
  }

  lemma SameRequestMajor(p: Parser, q: Parser, ch: char)
    requires p.state.ReqFirstHttpMajor? || p.state.ReqHttpMajor?
    requires Similar(p, q) && Settled(p) && Settled(q)
    ensures SameEffect(HandleRequestVersion(p, ch), HandleRequestVersion(q, ch))
  {
  }

  lemma SameRequestMinor(p: Parser, q: Parser, ch: char)
    requires p.state.ReqFirstHttpMinor? || p.state.ReqHttpMinor? || p.state.ReqLineAlmostDone?
    requires Similar(p, q) && Settled(p) && Settled(q)
    ensures SameEffect(HandleRequestVersion(p, ch), HandleRequestVersion(q, ch))
  {
  }

  lemma SameRequestVersion(p: Parser, q: Parser, ch: char)
    requires InRequestVersion(p.state) && Similar(p, q) && Settled(p) && Settled(q)
    ensures SameEffect(HandleRequestVersion(p, ch), HandleRequestVersion(q, ch))
  {
    hide HandleRequestVersion, Similar, Settled, SameEffect;
    if p.state.ReqFirstHttpMajor? || p.state.ReqHttpMajor? {
      SameRequestMajor(p, q, ch);
    } else if p.state.ReqFirstHttpMinor? || p.state.ReqHttpMinor? || p.state.ReqLineAlmostDone? {
      SameRequestMinor(p, q, ch);
    } else {
      SameRequestProtocol(p, q, ch);
    }
  }

  // ---------------------------------------------------------------- after the first line

  /** The states of the header block and of the body. */
  predicate InTail(s: State) {
    || s.HeaderFieldStart? || s.HeaderField? || InValue(s) || s.HeadersAlmostDone? || s.HeadersDone?
    || InBody(s) || InChunk(s)
  }

  predicate SimilarTail(p: Parser, q: Parser) {
    && p.kind == q.kind && p.state == q.state && p.errno == q.errno && p.verb == q.verb
    && p.flags == q.flags && p.contentLength == q.contentLength
    && p.httpMajor == q.httpMajor && p.httpMinor == q.httpMinor
    && SimilarHead(p, q)
  }

  predicate SameTail(a: Out, b: Out) {
    && a.mark == b.mark && a.flush == b.flush && a.note == b.note && a.next == b.next
    && a.p.errno == b.p.errno
    && (!a.next.Fail? ==> SimilarTail(a.p, b.p) && InTail(a.p.state) && !a.p.kind.Both?)
  }

  lemma TailSimilar(p: Parser, q: Parser)
    requires Similar(p, q) && InTail(p.state)
    ensures SimilarTail(p, q)
  {
  }

  lemma TailEffect(a: Out, b: Out)
    requires SameTail(a, b)
    ensures SameEffect(a, b)
  {
  }

  lemma SameMatch(p: Parser, q: Parser, c: char, literal: string, matched: HeaderState)
    requires p.index == q.index && p.headerState == q.headerState
    ensures var a := MatchLiteral(p, c, literal, matched);
            && a == p.(index := a.index, headerState := a.headerState)
            && MatchLiteral(q, c, literal, matched) == q.(index := a.index, headerState := a.headerState)
  {
  }

  lemma SameMatchField(p: Parser, q: Parser, c: char)
    requires p.index == q.index && p.headerState == q.headerState
    ensures var a := MatchField(p, c);
            && a == p.(index := a.index, headerState := a.headerState)
            && MatchField(q, c) == q.(index := a.index, headerState := a.headerState)
  {
    hide MatchLiteral;
    SameMatch(p, q, c, "connection", Connection);
    SameMatch(p, q, c, "proxy-connection", Connection);
    SameMatch(p, q, c, "content-length", ContentLength);
    SameMatch(p, q, c, "transfer-encoding", TransferEncoding);
    SameMatch(p, q, c, "upgrade", Upgrade);
  }

  lemma SameFieldStart(p: Parser, q: Parser, ch: char)
    requires p.state.HeaderFieldStart? && SimilarTail(p, q) && !p.kind.Both?
    ensures SameTail(HandleField(p, ch), HandleField(q, ch))
  {
    hide Token, FirstFieldState;
  }

  lemma SameFieldBytes(p: Parser, q: Parser, ch: char)
    requires p.state.HeaderField? && SimilarTail(p, q) && !p.kind.Both?
    ensures SameTail(HandleField(p, ch), HandleField(q, ch))
  {
    hide MatchField, Token;
    SameMatchField(p, q, Token(ch));
  }

  lemma SameFieldTail(p: Parser, q: Parser, ch: char)
    requires (p.state.HeaderFieldStart? || p.state.HeaderField?) && SimilarTail(p, q) && !p.kind.Both?
    ensures SameTail(HandleField(p, ch), HandleField(q, ch))
  {
    hide HandleField, SimilarTail, SameTail;
    if p.state.HeaderField? {
      SameFieldBytes(p, q, ch);
    } else {
      SameFieldStart(p, q, ch);
    }
  }

  /** What a pass changes in the fields that a value can change. */
  predicate SameChange(p: Parser, a: Out, q: Parser, b: Out) {
    && a == Out(a.p, None, None, [], a.next) && b == Out(b.p, None, None, [], a.next)
    && a.p == p.(index := a.p.index, headerState := a.p.headerState, flags := a.p.flags,
                 contentLength := a.p.contentLength, errno := a.p.errno)
    && b.p == q.(index := a.p.index, headerState := a.p.headerState, flags := a.p.flags,
                 contentLength := a.p.contentLength, errno := a.p.errno)
  }

  lemma SameFirstValue(p: Parser, q: Parser, ch: char)
    requires p.index == q.index && p.headerState == q.headerState && p.flags == q.flags
    requires p.contentLength == q.contentLength && p.errno == q.errno
    ensures SameChange(p, FirstValueByte(p, ch), q, FirstValueByte(q, ch))
  {
    hide Lower;
  }

  lemma SameNextValue(p: Parser, q: Parser, ch: char)
    requires p.index == q.index && p.headerState == q.headerState && p.flags == q.flags
    requires p.contentLength == q.contentLength && p.errno == q.errno
    ensures SameChange(p, NextValueByte(p, ch), q, NextValueByte(q, ch))
  {
    hide Lower, MatchLiteral, Accumulate;
    var c := Lower(ch);
    SameMatch(p, q, c, "chunked", Chunked);
    SameMatch(p, q, c, "keep-alive", KeepAlive);
    SameMatch(p, q, c, "close", Close);
  }

  predicate EndsBlank(ch: char) { ch == ' ' || ch == '\t' || ch == CR || ch == LF }

  lemma SameValueBlank(p: Parser, q: Parser, ch: char)
    requires p.state.HeaderValueStart? && SimilarTail(p, q) && !p.kind.Both? && EndsBlank(ch)
    ensures SameTail(HandleValue(p, ch), HandleValue(q, ch))
  {
    hide FirstValueByte;
  }

  lemma SameValueFirst(p: Parser, q: Parser, ch: char)
    requires p.state.HeaderValueStart? && SimilarTail(p, q) && !p.kind.Both? && !EndsBlank(ch)
    ensures SameTail(HandleValue(p, ch), HandleValue(q, ch))
  {
    hide FirstValueByte;
    SameFirstValue(p.(index := 0, state := HeaderValue), q.(index := 0, state := HeaderValue), ch);
  }

  lemma SameValueStart(p: Parser, q: Parser, ch: char)
    requires p.state.HeaderValueStart? && SimilarTail(p, q) && !p.kind.Both?
    ensures SameTail(HandleValue(p, ch), HandleValue(q, ch))
  {
    hide HandleValue, SimilarTail, SameTail;
    if EndsBlank(ch) {
      SameValueBlank(p, q, ch);
    } else {
      SameValueFirst(p, q, ch);
    }
  }

  lemma SameValueBytes(p: Parser, q: Parser, ch: char)
    requires p.state.HeaderValue? && SimilarTail(p, q) && !p.kind.Both?
    ensures SameTail(HandleValue(p, ch), HandleValue(q, ch))
  {
    hide NextValueByte;
    SameNextValue(p, q, ch);
  }

  lemma SameValueEnd(p: Parser, q: Parser, ch: char)
    requires (p.state.HeaderAlmostDone? || p.state.HeaderValueLws?) && SimilarTail(p, q) && !p.kind.Both?
    ensures SameTail(HandleValue(p, ch), HandleValue(q, ch))
  {
  }

  lemma SameValueTail(p: Parser, q: Parser, ch: char)
    requires InValue(p.state) && SimilarTail(p, q) && !p.kind.Both?
    ensures SameTail(HandleValue(p, ch), HandleValue(q, ch))
  {
    hide HandleValue, SimilarTail, SameTail;
    if p.state.HeaderValueStart? {
      SameValueStart(p, q, ch);
    } else if p.state.HeaderValue? {
      SameValueBytes(p, q, ch);
    } else {
      SameValueEnd(p, q, ch);
    }
  }

  lemma SameChunkStart(p: Parser, q: Parser, ch: char)
    requires p.state.ChunkSizeStart? || p.state.ChunkParameters?
    requires SimilarTail(p, q) && !p.kind.Both?
    ensures SameTail(HandleChunk(p, ch), HandleChunk(q, ch))
  {
    hide Unhex;
  }

  lemma SameChunkSize(p: Parser, q: Parser, ch: char)
    requires p.state.ChunkSize?
    requires SimilarTail(p, q) && !p.kind.Both?
    ensures SameTail(HandleChunk(p, ch), HandleChunk(q, ch))
  {
    hide Unhex, Accumulate;
  }

  lemma SameChunkBegin(p: Parser, q: Parser, ch: char)
    requires p.state.ChunkSizeAlmostDone?
    requires SimilarTail(p, q) && !p.kind.Both?
    ensures SameTail(HandleChunk(p, ch), HandleChunk(q, ch))
  {
  }

  lemma SameChunkData(p: Parser, q: Parser, ch: char)
    requires p.state.ChunkData? || p.state.ChunkDataAlmostDone? || p.state.ChunkDataDone?
    requires SimilarTail(p, q) && !p.kind.Both?
    ensures SameTail(HandleChunk(p, ch), HandleChunk(q, ch))
  {
    hide Decrement;
  }

  lemma SameChunkTail(p: Parser, q: Parser, ch: char)
    requires InChunk(p.state) && SimilarTail(p, q) && !p.kind.Both?
    ensures SameTail(HandleChunk(p, ch), HandleChunk(q, ch))
  {
    hide HandleChunk, SimilarTail, SameTail;
    if p.state.ChunkSizeStart? || p.state.ChunkParameters? {
      SameChunkStart(p, q, ch);
    } else if p.state.ChunkSize? {
      SameChunkSize(p, q, ch);
    } else if p.state.ChunkSizeAlmostDone? {
      SameChunkBegin(p, q, ch);
    } else {
      SameChunkData(p, q, ch);
    }
  }

  lemma SameFinish(cb: Callbacks, p: Parser, q: Parser)
    requires SimilarTail(p, q) && !p.kind.Both?
    ensures SameEffect(Finish(cb, p), Finish(cb, q)) && Finish(cb, p).next.Advance?
  {
    assert NewMessage(p) == NewMessage(q);
  }

  lemma SameHeadersAlmostDone(cb: Callbacks, p: Parser, q: Parser)
    requires p.state.HeadersAlmostDone? && SimilarTail(p, q) && !p.kind.Both? && !p.flags.trailing && Blind(cb, p.kind)
    ensures SameTail(HandleHeadersEnd(cb, p, LF), HandleHeadersEnd(cb, q, LF))
  {
    hide ShouldKeepAlive;
    var a := p.(state := HeadersDone, upgrade := p.flags.upgrade || p.verb.CONNECT?);
    var b := q.(state := HeadersDone, upgrade := q.flags.upgrade || q.verb.CONNECT?);
    assert ShouldKeepAlive(a) == ShouldKeepAlive(b) by { SameKeepAlive(a, b); }
    assert InfoOf(a) == InfoOf(b);
  }

  lemma SameKeepAlive(p: Parser, q: Parser)
    requires SimilarTail(p, q) && !p.kind.Both?
    ensures ShouldKeepAlive(p) == ShouldKeepAlive(q) && NeedsEof(p) == NeedsEof(q)
  {
  }

  lemma TailFlags(p: Parser, q: Parser)
    requires SimilarTail(p, q)
    ensures p.flags == q.flags && p.state == q.state
  {
  }

  lemma TailRecount(p: Parser, q: Parser)
    requires SimilarTail(p, q)
    ensures SimilarTail(p.(nread := 0), q.(nread := 0))
  {
  }

  lemma SameGo(p: Parser, q: Parser, s: State)
    requires p.state.HeadersDone? && SimilarTail(p, q) && !p.kind.Both?
    requires s.BodyIdentity? || s.BodyIdentityEof? || s.ChunkSizeStart?
    ensures SameEffect(Go(p.(state := s)), Go(q.(state := s)))
  {
    hide SameEffect;
    TailEffect(Go(p.(state := s)), Go(q.(state := s)));
  }

  lemma SameHeadersDone(cb: Callbacks, p: Parser, q: Parser)
    requires p.state.HeadersDone? && SimilarTail(p, q) && !p.kind.Both?
    ensures SameEffect(HandleHeadersEnd(cb, p, LF), HandleHeadersEnd(cb, q, LF))
  {
    hide HandleHeadersEnd, Finish, NeedsEof, SameEffect, Go;
    var a, b := p.(nread := 0), q.(nread := 0);
    TailRecount(p, q);
    HeadersDoneCases(cb, p);
    HeadersDoneCases(cb, q);
    SameFinish(cb, a, b);
    SameKeepAlive(a, b);
    SameGo(a, b, BodyIdentity);
    SameGo(a, b, BodyIdentityEof);
    SameGo(a, b, ChunkSizeStart);
  }

  lemma SameField(p: Parser, q: Parser, ch: char)
    requires (p.state.HeaderFieldStart? || p.state.HeaderField?) && Similar(p, q) && Settled(p)
    ensures SameEffect(HandleField(p, ch), HandleField(q, ch))
  {
    hide HandleField, SimilarTail, SameEffect, SameTail;
    TailSimilar(p, q);
    SameFieldTail(p, q, ch);
    TailEffect(HandleField(p, ch), HandleField(q, ch));
  }

  lemma SameValue(p: Parser, q: Parser, ch: char)
    requires InValue(p.state) && Similar(p, q) && Settled(p)
    ensures SameEffect(HandleValue(p, ch), HandleValue(q, ch))
  {
    hide HandleValue, SimilarTail, SameEffect, SameTail;
    TailSimilar(p, q);
    SameValueTail(p, q, ch);
    TailEffect(HandleValue(p, ch), HandleValue(q, ch));
  }

  lemma SameChunk(p: Parser, q: Parser, ch: char)
    requires InChunk(p.state) && Similar(p, q) && Settled(p)
    ensures SameEffect(HandleChunk(p, ch), HandleChunk(q, ch))
  {
    hide HandleChunk, SimilarTail, SameEffect, SameTail;
    TailSimilar(p, q);
    SameChunkTail(p, q, ch);
    TailEffect(HandleChunk(p, ch), HandleChunk(q, ch));
  }

  lemma SameBody(cb: Callbacks, p: Parser, q: Parser)
    requires InBody(p.state) && Similar(p, q) && Settled(p)
    ensures SameEffect(HandleBody(cb, p), HandleBody(cb, q))
  {
    hide Finish;
    TailSimilar(p, q);
    SameFinish(cb, p, q);
  }

  lemma SameHeadersEnd(cb: Callbacks, p: Parser, q: Parser, ch: char)
    requires (p.state.HeadersAlmostDone? || p.state.HeadersDone?) && Similar(p, q) && Settled(p) && Blind(cb, p.kind)
    ensures SameEffect(HandleHeadersEnd(cb, p, ch), HandleHeadersEnd(cb, q, ch))
  {
    hide HandleHeadersEnd, Finish, SimilarTail, SimilarInside;
    TailSimilar(p, q);
    HeadersEndCases(cb, p, ch);
    HeadersEndCases(cb, q, ch);
    TailFlags(p, q);
    if ch == LF {
      if p.state.HeadersDone? {
        SameHeadersDone(cb, p, q);
      } else if p.flags.trailing {
        SameFinish(cb, p, q);
      } else {
        SameHeadersAlmostDone(cb, p, q);
        TailEffect(HandleHeadersEnd(cb, p, LF), HandleHeadersEnd(cb, q, LF));
      }
    }
  }

  lemma SameHandle(cb: Callbacks, p: Parser, q: Parser, ch: char)
    requires Similar(p, q) && Settled(p) && Settled(q) && Blind(cb, p.kind)
    ensures SameEffect(Handle(cb, p, ch), Handle(cb, q, ch))
  {
    hide HandleStart, HandleStatusLine, HandleMethod, HandleUrl, HandleRequestVersion, HandleField,
      HandleValue, HandleHeadersEnd, HandleBody, HandleChunk, SameEffect;
    if InStart(p.state) {
      SameStart(p, q, ch);
    } else if InStatusLine(p.state) {
      SameStatusLine(p, q, ch);
    } else if p.state.ReqMethod? {
      SameMethod(p, q, ch);
    } else if p.state.ReqSpacesBeforeUrl? || InUrl(p.state) {
      SameUrl(p, q, ch);
    } else if InRequestVersion(p.state) {
      SameRequestVersion(p, q, ch);
    } else if p.state.HeaderFieldStart? || p.state.HeaderField? {
      SameField(p, q, ch);
    } else if InValue(p.state) {
      SameValue(p, q, ch);
    } else if p.state.HeadersAlmostDone? || p.state.HeadersDone? {
      SameHeadersEnd(cb, p, q, ch);
    } else if InBody(p.state) {
      SameBody(cb, p, q);
    } else {
      SameChunk(p, q, ch);
    }
  }

  // ---------------------------------------------------------------- the byte count

  /** The passes that reset the byte count. */
  predicate Resets(s: State, ch: char) {
    ch == LF && (s.HeadersDone? || s.ChunkSizeAlmostDone? || s.ChunkDataDone?)
  }

  lemma CountAfter(cb: Callbacks, p: Parser, ch: char)
    ensures Handle(cb, p, ch).p.nread == if Resets(p.state, ch) then 0 else p.nread
  {
    hide HandleStart, HandleStatusLine, HandleMethod, HandleUrl, HandleRequestVersion, HandleField,
      HandleValue, HandleBody, NeedsEof, ShouldKeepAlive, InfoOf, Unhex, Accumulate, Decrement;
  }

  // ---------------------------------------------------------------- bytes and runs

  lemma SamePasses(cb: Callbacks, p: Parser, q: Parser, ch: char)
    requires Similar(p, q) && Settled(p) && Settled(q) && Blind(cb, p.kind)
    ensures var s, t := Passes(cb, p, ch), Passes(cb, q, ch);
            && s.events == t.events && s.next == t.next && s.p.errno == t.p.errno
            && (s.next.Advance? ==> Similar(s.p, t.p) && Settled(s.p) && Settled(t.p))
            && (p.nread == q.nread ==> s.p.nread == t.p.nread)
            && s.p.kind == p.kind
    decreases Rank(p.state)
  {
    hide Handle, Similar, Settled, Blind, KeepsMarks;
    SameHandle(cb, p, q, ch);
    MarksKept(cb, p, ch);
    SettledKind(p);
    CountAfter(cb, p, ch);
    CountAfter(cb, q, ch);
    var a, b := Handle(cb, p, ch), Handle(cb, q, ch);
    SimilarStates(p, q);
    if !a.next.Fail? {
      SimilarStates(a.p, b.p);
    }
    SameEvents(p, a, b, ch);
    if a.next.Again? {
      SamePasses(cb, a.p, b.p, ch);
    }
  }

  lemma SettledKind(p: Parser)
    requires Settled(p)
    ensures !p.state.StartReqOrRes? && !p.state.ResOrRespH?
  {
  }

  lemma SimilarStates(p: Parser, q: Parser)
    requires Similar(p, q)
    ensures p.state == q.state && p.errno == q.errno && p.kind == q.kind
  {
  }

  lemma SameEvents(p: Parser, a: Out, b: Out, ch: char)
    requires SameEffect(a, b) && Orderly(p, a)
    ensures PassEvents(a, ch) == PassEvents(b, ch)
  {
  }

  lemma SameCounted(p: Parser, q: Parser)
    requires Similar(p, q) && Settled(p) && Settled(q)
    ensures Similar(Counted(p), Counted(q)) && Settled(Counted(p)) && Settled(Counted(q))
  {
  }

  /** One byte, when the header limit does not tell the two parsers apart. */
  lemma SameByte(cb: Callbacks, p: Parser, q: Parser, ch: char)
    requires Similar(p, q) && Settled(p) && Settled(q) && Blind(cb, p.kind)
    requires p.nread != q.nread ==>
               !Byte(cb, p, ch).p.errno.HeaderOverflow? && !Byte(cb, q, ch).p.errno.HeaderOverflow?
    ensures var s, t := Byte(cb, p, ch), Byte(cb, q, ch);
            && s.events == t.events && s.next == t.next && s.p.errno == t.p.errno
            && (s.next.Advance? ==> Similar(s.p, t.p) && Settled(s.p) && Settled(t.p))
            && (p.nread == q.nread ==> s.p.nread == t.p.nread)
            && s.p.kind == p.kind
  {
    hide Passes, Similar, Settled, Blind;
    SimilarStates(p, q);
    SameCounted(p, q);
    SamePasses(cb, Counted(p), Counted(q), ch);
  }

  /** Similar parsers make the same callbacks on every input, for as long as neither runs into the
      header limit; and in every case if they have counted the same number of bytes. */
  lemma {:induction false} SameRun(cb: Callbacks, p: Parser, q: Parser, data: string)
    requires Similar(p, q) && Settled(p) && Settled(q) && Blind(cb, p.kind)
    requires p.nread != q.nread ==>
               !Run(cb, p, data).p.errno.HeaderOverflow? && !Run(cb, q, data).p.errno.HeaderOverflow?
    ensures var r, s := Run(cb, p, data), Run(cb, q, data);
            r.events == s.events && r.count == s.count && r.p.errno == s.p.errno
    decreases |data|
  {
    hide Byte, Similar, Settled, Blind;
    SimilarStates(p, q);
    if data != [] && p.errno.OK? {
      var s, t := Byte(cb, p, data[0]), Byte(cb, q, data[0]);
      FailSetsErrno(cb, p, data[0]);
      FailSetsErrno(cb, q, data[0]);
      if p.nread != q.nread {
        RunOverflow(cb, p, data);
        RunOverflow(cb, q, data);
      }
      SameByte(cb, p, q, data[0]);
      if s.next.Advance? {
        SameRun(cb, s.p, t.p, data[1..]);
      }
    }
  }

  lemma RunOverflow(cb: Callbacks, p: Parser, data: string)
    requires data != [] && p.errno.OK?
    ensures Byte(cb, p, data[0]).p.errno.HeaderOverflow? ==> Run(cb, p, data).p.errno.HeaderOverflow?
  {
    hide Byte;
  }

  // ---------------------------------------------------------------- pipelining

  /** A parser that waits for its next message. */
  ghost predicate Waits(cb: Callbacks, p: Parser) {
    Inv(p) && p.state == StartState(p) && !p.kind.Both? && Blind(cb, p.kind)
  }

  /** On this input the parser does what a new one of its type does. */
  predicate LikeNew(cb: Callbacks, p: Parser, data: string) {
    var r, s := Run(cb, p, data), Run(cb, Init(p.kind), data);
    r.events == s.events && r.count == s.count && r.p.errno == s.p.errno
  }

  lemma NoOverflowPasses(cb: Callbacks, p: Parser, ch: char)
    requires p.errno.OK?
    ensures !Passes(cb, p, ch).p.errno.HeaderOverflow? && Passes(cb, p, ch).p.nread <= p.nread
    decreases Rank(p.state)
  {
    hide Handle;
    CountAfter(cb, p, ch);
    var o := Handle(cb, p, ch);
    if o.next.Again? {
      NoOverflowPasses(cb, o.p, ch);
    }
  }

  /** An input that fits under the header limit does not meet it. */
  lemma {:induction false} NoOverflow(cb: Callbacks, p: Parser, data: string)
    requires p.errno.OK? && p.nread + |data| <= MAX_HEADER_SIZE
    ensures !Run(cb, p, data).p.errno.HeaderOverflow?
    decreases |data|
  {
    hide Passes;
    if data != [] {
      var s := Byte(cb, p, data[0]);
      NoOverflowPasses(cb, Counted(p), data[0]);
      if s.next.Advance? && s.p.errno.OK? {
        NoOverflow(cb, s.p, data[1..]);
      }
    }
  }

  /** Pipelining: a parser that waits for its next message, whatever it has parsed before, treats every
      input that fits under the header limit with what it has counted as a new parser does. */
  lemma Pipelined(cb: Callbacks, p: Parser, data: string)
    requires Waits(cb, p) && (p.nread == 0 || p.nread + |data| <= MAX_HEADER_SIZE)
    ensures LikeNew(cb, p, data)
  {
    hide Run, Blind;
    if p.nread != 0 {
      NoOverflow(cb, p, data);
      NoOverflow(cb, Init(p.kind), data);
    }
    SameRun(cb, p, Init(p.kind), data);
  }

  function Crs(n: nat): string {
    if n == 0 then [] else [CR] + Crs(n - 1)
  }

  lemma CrByte(cb: Callbacks, p: Parser)
    requires p.errno.OK? && p.state == StartState(p) && !p.kind.Both?
    ensures var s := Byte(cb, p, CR);
            if p.nread + 1 <= MAX_HEADER_SIZE then
              && s.next.Advance? && s.p.errno.OK? && s.p.state == StartState(s.p) && s.p.kind == p.kind
              && s.p.nread == p.nread + 1
            else s.next.Fail? && s.p.errno.HeaderOverflow?
  {
    hide HandleStatusLine, HandleMethod, HandleUrl, HandleRequestVersion, HandleField, HandleValue,
      HandleHeadersEnd, HandleBody, HandleChunk;
  }

  /** Line ends in front of a message count towards the header limit. */
  lemma {:induction false} CrRun(cb: Callbacks, p: Parser, n: nat)
    requires p.errno.OK? && p.state == StartState(p) && !p.kind.Both? && p.nread <= MAX_HEADER_SIZE
    ensures Run(cb, p, Crs(n)).p.errno.HeaderOverflow? <==> p.nread + n > MAX_HEADER_SIZE
    decreases n
  {
    hide Byte;
    if n > 0 {
      CrByte(cb, p);
      assert Crs(n)[1..] == Crs(n - 1);
      if p.nread + 1 <= MAX_HEADER_SIZE {
        CrRun(cb, Byte(cb, p, CR).p, n - 1);
      }
    }
  }

  /** Pipelining holds of every input if and only if nothing is counted any more; otherwise as many line ends
      as the limit allows tell the parser from a new one. */
  lemma PipelinedExact(cb: Callbacks, p: Parser)
    requires Waits(cb, p)
    ensures (forall data :: LikeNew(cb, p, data)) <==> p.nread == 0
    ensures p.nread > 0 ==> !LikeNew(cb, p, Crs(MAX_HEADER_SIZE))
  {
    hide Run, Blind, Crs;
    if p.nread == 0 {
      forall data ensures LikeNew(cb, p, data) {
        Pipelined(cb, p, data);
      }
    } else {
      CrRun(cb, p, MAX_HEADER_SIZE);
      CrRun(cb, Init(p.kind), MAX_HEADER_SIZE);
      assert !LikeNew(cb, p, Crs(MAX_HEADER_SIZE));
    }
  }

  // ---------------------------------------------------------------- what is still counted

  /** When a message completes, bytes stay counted exactly if it ends with trailers, as every chunked message
      does, with or without trailer fields.  In the header states the byte itself is counted. */
  lemma CountAtEnd(cb: Callbacks, p: Parser, ch: char)
    requires Core(p) && PassStart(p) && (ParsingHeader(p.state) ==> p.nread > 0) && Complete in Handle(cb, p, ch).note
    ensures Handle(cb, p, ch).p.nread > 0 <==> p.state.HeadersAlmostDone? && p.flags.trailing
  {
    hide HandleStart, HandleStatusLine, HandleMethod, HandleUrl, HandleRequestVersion, HandleField,
      HandleValue, HandleChunk, NeedsEof, ShouldKeepAlive, InfoOf;
    CountAfter(cb, p, ch);
  }

  lemma BackendBlind(head: bool)
    ensures Blind(BackendCallbacks(head), Response)
  {
    forall p: Parser, q: Parser | p.kind == q.kind == Response && InfoOf(p) == InfoOf(q)
      ensures BackendCallbacks(head).noBody(p) == BackendCallbacks(head).noBody(q)
    {
      BackendDecides(head, p);
      BackendDecides(head, q);
    }
  }

  /** A new response parser that has read `w` and waits for the next response. */
  lemma WaitsAfter(cb: Callbacks, w: string)
    requires Blind(cb, Response)
    requires var q := Run(cb, Init(Response), w).p; q.errno.OK? && q.state.StartRes? && q.kind.Response?
    ensures Waits(cb, Run(cb, Init(Response), w).p)
  {
    hide Run, Blind;
    InitHolds(Response);
    RunPreserves(cb, Init(Response), w);
  }

  /** After a response with a Content-Length that keeps the connection, every response that follows is read
      as by a new parser. */
  lemma AfterLength(major: nat, minor: nat, status: nat, reason: string, hs: seq<Header>, body: string, data: string)
    requires Readable(Init(Response), major, minor, status, reason, hs) && !BodilessStatus(status)
    requires var f := FramingOfLines(hs);
             && !f.flags.chunked && !f.flags.upgrade && f.contentLength == |body| < ULLONG_MAX
             && Persists(major, minor, f.flags)
    ensures var cb := BackendCallbacks(false);
            var q := Run(cb, Init(Response), Head(major, minor, status, reason, hs) + body).p;
            q.state.StartRes? && LikeNew(cb, q, data)
  {
    hide Run, Blind, Head, FramingOfLines, Readable;
    var cb := BackendCallbacks(false);
    var w := Head(major, minor, status, reason, hs) + body;
    LengthResponse(Init(Response), major, minor, status, reason, hs, body);
    BackendBlind(false);
    KindOfRun(cb, Init(Response), w);
    WaitsAfter(cb, w);
    Pipelined(cb, Run(cb, Init(Response), w).p, data);
  }

  /** After a chunked one, its trailer and the two bytes after it stay counted, so two bytes at least: every input
      that leaves room for them is read as by a new parser, and as many line ends as the limit allows are not. */
  lemma AfterChunked(major: nat, minor: nat, status: nat, reason: string, hs: seq<Header>, cs: seq<Chunk>, last: Chunk,
                     ts: seq<Header>, data: string)
    requires ChunkedHead(Init(Response), major, minor, status, reason, hs) && AreChunks(cs, last) && IsTrailer(ts)
    requires Persists(major, minor, FlagsAfter(FramingOfLines(hs).flags, ts))
    ensures var cb := BackendCallbacks(false);
            var q := Run(cb, Init(Response), Head(major, minor, status, reason, hs) + TrailedText(cs, last, ts)).p;
            && q.state.StartRes? && q.nread == |Lines(ts)| + 2 && !LikeNew(cb, q, Crs(MAX_HEADER_SIZE))
            && (|Lines(ts)| + 2 + |data| <= MAX_HEADER_SIZE ==> LikeNew(cb, q, data))
  {
    hide Run, Blind, Head, FramingOfLines, Readable, Crs, TrailedText, FlagsAfter, Lines, AreChunks, LinesEvents;
    var cb := BackendCallbacks(false);
    var w := Head(major, minor, status, reason, hs) + TrailedText(cs, last, ts);
    ChunkedResponse(Init(Response), major, minor, status, reason, hs, cs, last, ts);
    BackendBlind(false);
    KindOfRun(cb, Init(Response), w);
    WaitsAfter(cb, w);
    var q := Run(cb, Init(Response), w).p;
    PipelinedExact(cb, q);
    if |Lines(ts)| + 2 + |data| <= MAX_HEADER_SIZE {
      Pipelined(cb, q, data);
    }
  }

  lemma ChunkedName()
    ensures IsName("Transfer-Encoding") && NameClass("Transfer-Encoding").TransferEncoding?
  {
    hide Low;
    assert Low("Transfer-Encoding") == TRANSFER_ENCODING;
  }

  lemma ChunkedHeader()
    ensures var h := Header("Transfer-Encoding", "chunked");
            IsHeader(h) && forall f :: Meaning(f, h) == f.(flags := f.flags.(chunked := true))
  {
    hide NameClass, IsName;
    ChunkedName();
  }

  /** There are such responses. */
  lemma ChunkedExample()
    ensures var hs := [Header("Transfer-Encoding", "chunked")];
            && Readable(Init(Response), 1, 1, 200, "OK", hs) && !BodilessStatus(200)
            && FramingOfLines(hs).flags.chunked && !FramingOfLines(hs).flags.upgrade
            && Persists(1, 1, FramingOfLines(hs).flags)
  {
    hide Low, IsHeader, Meaning;
    var h := Header("Transfer-Encoding", "chunked");
    ChunkedHeader();
    var f := Framing(NoFlags, ULLONG_MAX);
    assert [h][..0] == [] && [h][1..] == [];
    assert MeaningAll(Meaning(f, h), []) == Meaning(f, h) && MeaningAll(f, []) == f;
  }

  lemma {:induction false} KindOfRun(cb: Callbacks, p: Parser, data: string)
    requires Settled(p) && Blind(cb, p.kind)
    ensures Run(cb, p, data).p.kind == p.kind
    decreases |data|
  {
    hide Byte, Settled, Blind;
    if data != [] && p.errno.OK? {
      KindOfByte(cb, p, data[0]);
      if Byte(cb, p, data[0]).next.Advance? {
        KindOfRun(cb, Byte(cb, p, data[0]).p, data[1..]);
      }
    }
  }

  lemma KindOfByte(cb: Callbacks, p: Parser, ch: char)
    requires Settled(p) && Blind(cb, p.kind)
    ensures var s := Byte(cb, p, ch); s.p.kind == p.kind && (s.next.Advance? ==> Settled(s.p))
  {
    hide Byte, Blind;
    SameByte(cb, p, p, ch);
  }
}
