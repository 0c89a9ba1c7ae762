/**
 What holds of the parser in every state it can reach, and that every assert inside
 http_parser_execute is true whenever it is executed.
 */
module HttpInvariant {
  import opened HttpTypes
  import opened HttpSwitch
  import opened HttpRun

  /** The header matcher in s_header_field: the header states that can occur, and for each of
      them a matcher index that is inside its literal. */
  predicate FieldMatch(h: HeaderState, i: nat) {
    if h.C? then i == 0
    else if h.CO? then i == 1
    else if h.CON? then i == 2
    else if h.MatchingConnection? then 3 <= i < |"connection"| - 1
    else if h.MatchingProxyConnection? then i < |"proxy-connection"| - 1
    else if h.MatchingContentLength? then 3 <= i < |"content-length"| - 1
    else if h.MatchingTransferEncoding? then i < |"transfer-encoding"| - 1
    else if h.MatchingUpgrade? then i < |"upgrade"| - 1
    else h.General? || h.Connection? || h.ContentLength? || h.TransferEncoding? || h.Upgrade?
  }

  /** The same for s_header_value. */
  predicate ValueMatch(h: HeaderState, i: nat) {
    if h.MatchingChunked? then i < |"chunked"| - 1
    else if h.MatchingKeepAlive? then i < |"keep-alive"| - 1
    else if h.MatchingClose? then i < |"close"| - 1
    else h.General? || h.ContentLength? || h.Chunked? || h.KeepAlive? || h.Close?
  }

  /** The invariant during a pass through the switch. */
  predicate Core(p: Parser) {
    && p.errno.OK?
    && p.nread <= MAX_HEADER_SIZE
    && p.contentLength <= ULLONG_MAX
    && p.httpMajor <= 999 && p.httpMinor <= 999 && p.statusCode <= 999
    && p.index <= 17
    && InZone(p)
  }

  /** What the fields must satisfy in each part of the state space. */
  predicate InZone(p: Parser) {
    var s := p.state;
    if s.StartReqOrRes? || s.ResOrRespH? then p.kind.Both? && p.verb.DELETE?
    else
      && !p.kind.Both? && (p.kind.Response? ==> p.verb.DELETE?)
      && if s.StartReq? || s.ReqMethod? then
           p.kind.Request? && (s.ReqMethod? ==> 1 <= p.index <= |MethodString(p.verb)|)
         else if s.HeaderField? then FieldMatch(p.headerState, p.index)
         else if s.HeaderValue? then ValueMatch(p.headerState, p.index)
         else if s.HeadersDone? then !p.flags.trailing
         else if s.BodyIdentity? then 0 < p.contentLength < ULLONG_MAX && p.nread == 0
         else if s.MessageDone? then p.contentLength == 0 && p.nread == 0
         else InChunk(s) ==>
           && p.flags.chunked && !p.flags.trailing
           && (s.ChunkSize? || s.ChunkParameters? || s.ChunkSizeAlmostDone? ==> p.contentLength < ULLONG_MAX)
           && (s.ChunkData? ==> 0 < p.contentLength < ULLONG_MAX)
           && (s.ChunkDataAlmostDone? ==> p.contentLength == 0)
  }

  /** At the start of a byte's first pass, the byte is already counted. */
  predicate PassStart(p: Parser) {
    p.state.ChunkSizeStart? ==> p.nread == 1
  }

  /** The invariant between two bytes: HeadersDone and MessageDone are never left standing, and a
      chunk starts with nothing counted. */
  predicate Inv(p: Parser) {
    && Core(p)
    && !p.state.HeadersDone? && !p.state.MessageDone?
    && (p.state.ChunkSizeStart? ==> p.nread == 0)
  }

  /** The parser can also rest paused, which un-pausing turns into a state with the invariant. */
  predicate Resting(p: Parser) {
    (p.errno.OK? || p.errno.Paused?) ==> Inv(p.(errno := OK))
  }

  /** The asserts of http_parser_execute that are reached in the state of `p`. */
  predicate Asserts(p: Parser) {
    && p.errno.OK?
    && (InChunk(p.state) ==> p.flags.chunked)
    && (p.state.ChunkSizeStart? ==> p.nread == 1)
    && (p.state.BodyIdentity? || p.state.ChunkData?
        ==> p.contentLength != 0 && p.contentLength != ULLONG_MAX)
    && (p.state.ChunkDataAlmostDone? ==> p.contentLength == 0)
    && (p.state.HeaderField? ==> FieldMatch(p.headerState, p.index))
    && (p.state.HeaderValue? ==> ValueMatch(p.headerState, p.index))
    && (p.state.ReqMethod? ==> p.index <= |MethodString(p.verb)|)
  }

  predicate Preserved(o: Out) {
    match o.next
    case Fail => true
    case Again => Core(o.p) && !o.p.state.ChunkSizeStart?
    case Advance => Inv(o.p.(errno := OK))
  }

  lemma MatchLiteralKept(p: Parser, c: char, literal: string, matched: HeaderState)
    requires p.index < |literal| - 1
    ensures var q := MatchLiteral(p, c, literal, matched);
            && q == p.(index := p.index + 1, headerState := q.headerState)
            && (q.headerState.General? || q.headerState == matched
                || (q.headerState == p.headerState && q.index < |literal| - 1))
  {
  }

  lemma MatchFieldKept(p: Parser, c: char)
    requires FieldMatch(p.headerState, p.index) && p.index <= 17
    ensures var q := MatchField(p, c);
            && q == p.(index := q.index, headerState := q.headerState)
            && FieldMatch(q.headerState, q.index) && q.index <= 17
  {
    hide MatchLiteral;
    var h := p.headerState;
    if h.MatchingConnection? {
      MatchLiteralKept(p, c, "connection", Connection);
    } else if h.MatchingProxyConnection? {
      MatchLiteralKept(p, c, "proxy-connection", Connection);
    } else if h.MatchingContentLength? {
      MatchLiteralKept(p, c, "content-length", ContentLength);
    } else if h.MatchingTransferEncoding? {
      MatchLiteralKept(p, c, "transfer-encoding", TransferEncoding);
    } else if h.MatchingUpgrade? {
      MatchLiteralKept(p, c, "upgrade", Upgrade);
    }
  }

  lemma NextValueByteKept(p: Parser, ch: char)
    requires ValueMatch(p.headerState, p.index) && p.index <= 17 && p.contentLength <= ULLONG_MAX
    ensures var o := NextValueByte(p, ch);
            var q := o.p;
            && (o == Go(q) || o == Bad(p, InvalidContentLength))
            && q == p.(index := q.index, headerState := q.headerState, contentLength := q.contentLength,
               errno := q.errno)
            && (o.next.Advance? ==> q.errno == p.errno)
            && ValueMatch(q.headerState, q.index) && q.index <= 17 && q.contentLength <= ULLONG_MAX
  {
    hide MatchLiteral;
    var h := p.headerState;
    if h.MatchingChunked? {
      MatchLiteralKept(p, Lower(ch), "chunked", Chunked);
    } else if h.MatchingKeepAlive? {
      MatchLiteralKept(p, Lower(ch), "keep-alive", KeepAlive);
    } else if h.MatchingClose? {
      MatchLiteralKept(p, Lower(ch), "close", Close);
    }
  }

  lemma FirstValueByteKept(p: Parser, ch: char)
    requires p.index == 0 && p.contentLength <= ULLONG_MAX
    ensures var o := FirstValueByte(p, ch);
            var q := o.p;
            && (o == Go(q) || o == Bad(p, InvalidContentLength))
            && q == p.(flags := q.flags, headerState := q.headerState,
                       contentLength := q.contentLength, errno := q.errno)
            && (o.next.Advance? ==> q.errno == p.errno && ValueMatch(q.headerState, 0))
            && q.contentLength <= ULLONG_MAX
  {
  }

  lemma UrlCharStays(s: State, ch: char)
    ensures ParseUrlChar(s, ch).Dead? || InUrl(ParseUrlChar(s, ch))
  {
  }

  lemma SwitchMethodFits(m: Method, i: nat, ch: char)
    requires 1 <= i <= |MethodString(m)|
    ensures SwitchMethod(m, i, ch).Some? ==> i < |MethodString(SwitchMethod(m, i, ch).value)| <= 11
  {
  }

  lemma FirstLetterFits(ch: char)
    ensures FirstLetter(ch).Some? ==> 1 <= |MethodString(FirstLetter(ch).value)|
  {
  }

  lemma PreservesStart(p: Parser, ch: char)
    requires InStart(p.state)
    requires Core(p) && PassStart(p)
    ensures Preserved(HandleStart(p, ch))
  {
    hide FirstLetter;
    FirstLetterFits(ch);
  }

  lemma PreservesStatusLine(p: Parser, ch: char)
    requires InStatusLine(p.state)
    requires Core(p) && PassStart(p)
    ensures Preserved(HandleStatusLine(p, ch))
  {
    hide HandleStatusLine;
  }

  lemma PreservesMethod(p: Parser, ch: char)
    requires p.state.ReqMethod?
    requires Core(p) && PassStart(p)
    ensures Preserved(HandleMethod(p, ch))
  {
    hide SwitchMethod;
    SwitchMethodFits(p.verb, p.index, ch);
  }

  lemma UrlZone(p: Parser, s: State)
    requires p.state.ReqSpacesBeforeUrl? || InUrl(p.state)
    requires Core(p) && InUrl(s)
    ensures Inv(p.(state := s, errno := OK))
  {
  }

  lemma PreservesUrlByte(p: Parser, s: State)
    requires p.state.ReqSpacesBeforeUrl? || InUrl(p.state)
    requires Core(p) && PassStart(p) && (s.Dead? || InUrl(s))
    ensures Preserved(UrlByte(p, s)) && Preserved(UrlByte(p, s).(mark := Some(Url)))
  {
    hide Inv, Core;
    if InUrl(s) {
      UrlZone(p, s);
    }
  }

  lemma PreservesUrlFirst(p: Parser, ch: char)
    requires p.state.ReqSpacesBeforeUrl?
    requires Core(p) && PassStart(p)
    ensures Preserved(HandleUrl(p, ch))
  {
    hide ParseUrlChar, UrlByte;
    var from := if p.verb.CONNECT? then ReqServerStart else ReqSpacesBeforeUrl;
    UrlCharStays(from, ch);
    PreservesUrlByte(p, ParseUrlChar(from, ch));
  }

  lemma PreservesUrlNext(p: Parser, ch: char)
    requires InUrl(p.state)
    requires Core(p) && PassStart(p)
    ensures Preserved(HandleUrl(p, ch))
  {
    hide ParseUrlChar, UrlByte;
    UrlCharStays(p.state, ch);
    PreservesUrlByte(p, ParseUrlChar(p.state, ch));
  }

  lemma PreservesUrl(p: Parser, ch: char)
    requires p.state.ReqSpacesBeforeUrl? || InUrl(p.state)
    requires Core(p) && PassStart(p)
    ensures Preserved(HandleUrl(p, ch))
  {
    hide HandleUrl, Preserved;
    if p.state.ReqSpacesBeforeUrl? {
      PreservesUrlFirst(p, ch);
    } else {
      PreservesUrlNext(p, ch);
    }
  }

  lemma PreservesRequestVersion(p: Parser, ch: char)
    requires InRequestVersion(p.state)
    requires Core(p) && PassStart(p)
    ensures Preserved(HandleRequestVersion(p, ch))
  {
    hide HandleRequestVersion;
  }

  lemma PreservesField(p: Parser, ch: char)
    requires p.state.HeaderFieldStart? || p.state.HeaderField?
    requires Core(p) && PassStart(p)
    ensures Preserved(HandleField(p, ch))
  {
    hide MatchField, Token;
    if p.state.HeaderField? {
      MatchFieldKept(p, Token(ch));
    }
  }

  lemma PreservesValueStart(p: Parser, ch: char)
    requires p.state.HeaderValueStart?
    requires Core(p) && PassStart(p)
    ensures Preserved(HandleValue(p, ch))
  {
    hide FirstValueByte, ValueMatch, FieldMatch;
    FirstValueByteKept(p.(index := 0, state := HeaderValue), ch);
  }

  lemma PreservesValueBytes(p: Parser, ch: char)
    requires p.state.HeaderValue?
    requires Core(p) && PassStart(p)
    ensures Preserved(HandleValue(p, ch))
  {
    hide NextValueByte, ValueMatch, FieldMatch;
    NextValueByteKept(p, ch);
  }

  lemma PreservesValueEnd(p: Parser, ch: char)
    requires p.state.HeaderAlmostDone? || p.state.HeaderValueLws?
    requires Core(p) && PassStart(p)
    ensures Preserved(HandleValue(p, ch))
  {
  }

  lemma PreservesValue(p: Parser, ch: char)
    requires InValue(p.state)
    requires Core(p) && PassStart(p)
    ensures Preserved(HandleValue(p, ch))
  {
    hide HandleValue, Preserved, Core, PassStart;
    if p.state.HeaderValue? {
      PreservesValueBytes(p, ch);
    } else if p.state.HeaderValueStart? {
      PreservesValueStart(p, ch);
    } else {
      PreservesValueEnd(p, ch);
    }
  }

  lemma PreservesAlmostDone(cb: Callbacks, p: Parser, ch: char)
    requires p.state.HeadersAlmostDone? && Core(p) && PassStart(p)
    ensures Preserved(HandleHeadersEnd(cb, p, ch))
  {
    hide NewMessage, InfoOf;
  }

  lemma PreservesDone(cb: Callbacks, p: Parser, ch: char)
    requires p.state.HeadersDone? && Core(p) && PassStart(p)
    ensures Preserved(HandleHeadersEnd(cb, p, ch))
  {
    hide NewMessage, NeedsEof;
  }

  lemma PreservesHeadersEnd(cb: Callbacks, p: Parser, ch: char)
    requires p.state.HeadersAlmostDone? || p.state.HeadersDone?
    requires Core(p) && PassStart(p)
    ensures Preserved(HandleHeadersEnd(cb, p, ch))
  {
    hide HandleHeadersEnd, Core, PassStart, Preserved;
    if p.state.HeadersAlmostDone? {
      PreservesAlmostDone(cb, p, ch);
    } else {
      PreservesDone(cb, p, ch);
    }
  }

  lemma PreservesBody(cb: Callbacks, p: Parser)
    requires InBody(p.state)
    requires Core(p) && PassStart(p)
    ensures Preserved(HandleBody(cb, p))
  {
  }

  lemma PreservesChunk(p: Parser, ch: char)
    requires InChunk(p.state)
    requires Core(p) && PassStart(p)
    ensures Preserved(HandleChunk(p, ch))
  {
    hide Accumulate, Unhex;
  }

  lemma PassPreserves(cb: Callbacks, p: Parser, ch: char)
    requires Core(p) && PassStart(p)
    ensures Preserved(Handle(cb, p, ch))
  {
    hide HandleStart, HandleStatusLine, HandleMethod, HandleUrl, HandleRequestVersion, HandleField,
      HandleValue, HandleHeadersEnd, HandleBody, HandleChunk, Core, PassStart, Preserved;
    if InStart(p.state) {
      PreservesStart(p, ch);
    } else if InStatusLine(p.state) {
      PreservesStatusLine(p, ch);
    } else if p.state.ReqMethod? {
      PreservesMethod(p, ch);
    } else if p.state.ReqSpacesBeforeUrl? || InUrl(p.state) {
      PreservesUrl(p, ch);
    } else if InRequestVersion(p.state) {
      PreservesRequestVersion(p, ch);
    } else if p.state.HeaderFieldStart? || p.state.HeaderField? {
      PreservesField(p, ch);
    } else if InValue(p.state) {
      PreservesValue(p, ch);
    } else if p.state.HeadersAlmostDone? || p.state.HeadersDone? {
      PreservesHeadersEnd(cb, p, ch);
    } else if InBody(p.state) {
      PreservesBody(cb, p);
    } else {
      PreservesChunk(p, ch);
    }
  }

  /** Every pass over this byte finds the asserts true. */
  ghost predicate PassesAssert(cb: Callbacks, p: Parser, ch: char)
    decreases Rank(p.state)
  {
    && Asserts(p)
    && var o := Handle(cb, p, ch);
       (o.next.Again? ==> PassesAssert(cb, o.p, ch))
  }

  /** Every pass over every byte of the input finds the asserts true. */
  ghost predicate RunAsserts(cb: Callbacks, p: Parser, data: string)
    decreases |data|
  {
    data == [] || !p.errno.OK? ||
    (&& (Byte(cb, p, data[0]).p.errno != HeaderOverflow ==> PassesAssert(cb, Counted(p), data[0]))
     && RunAsserts(cb, Byte(cb, p, data[0]).p, data[1..]))
  }

  lemma PassesPreserve(cb: Callbacks, p: Parser, ch: char)
    requires Core(p) && PassStart(p)
    ensures PassesAssert(cb, p, ch)
    ensures var s := Passes(cb, p, ch); s.next.Advance? ==> Inv(s.p.(errno := OK))
    decreases Rank(p.state)
  {
    hide Handle;
    PassPreserves(cb, p, ch);
    var o := Handle(cb, p, ch);
    if o.next.Again? {
      PassesPreserve(cb, o.p, ch);
    }
  }

  lemma BytePreserves(cb: Callbacks, p: Parser, ch: char)
    requires Inv(p)
    ensures var s := Byte(cb, p, ch);
            && (s.p.errno != HeaderOverflow ==> PassesAssert(cb, Counted(p), ch))
            && (s.next.Advance? ==> Inv(s.p.(errno := OK)))
  {
    hide Passes, PassesAssert;
    if p.nread < MAX_HEADER_SIZE || !ParsingHeader(p.state) {
      PassesPreserve(cb, Counted(p), ch);
    }
  }

  /** The reachable-state invariant: from a state with the invariant, whatever bytes follow, every
      assert that is executed holds and the parser comes to rest with the invariant. */
  lemma {:induction false} RunPreserves(cb: Callbacks, p: Parser, data: string)
    requires Resting(p)
    ensures RunAsserts(cb, p, data)
    ensures Run(cb, p, data).count == |data| || !Run(cb, p, data).p.errno.OK?
    ensures Run(cb, p, data).p.errno.OK? || Run(cb, p, data).p.errno.Paused? ==>
              Resting(Run(cb, p, data).p)
    decreases |data|
  {
    hide Byte, Inv;
    if data != [] && p.errno.OK? {
      assert p.(errno := OK) == p;
      var s := Byte(cb, p, data[0]);
      BytePreserves(cb, p, data[0]);
      FailSetsErrno(cb, p, data[0]);
      if s.next.Advance? {
        RunPreserves(cb, s.p, data[1..]);
      } else {
      }
    }
  }

  lemma InitHolds(t: Type)
    ensures Inv(Init(t))
  {
  }
}
