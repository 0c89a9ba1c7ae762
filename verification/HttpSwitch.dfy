/**
 The switch of http_parser_execute: what one byte does in one state.

 `Handle` is a single pass through the switch.  Its result names the new fields, the mark it
 sets, the data callback it runs, the notification it makes, and how it leaves the switch: to
 the next byte, to the same byte again (`goto reexecute_byte`), or to the error label.
 */
module HttpSwitch {
  import opened HttpTypes

  datatype Next = Advance | Again | Fail

  datatype Out = Out(p: Parser, mark: Option<Kind>, flush: Option<Kind>, note: seq<Event>, next: Next)

  /** A bound on how often the same byte can still be executed again. */
  function Rank(s: State): nat {
    if s.HeaderValueLws? then 3
    else if s.HeaderFieldStart? then 2
    else if s.HeadersAlmostDone? || s.HeaderValue? || s.StartReqOrRes? || s.BodyIdentity? then 1
    else 0
  }

  /** How every pass leaves the switch: it makes at most one notification, an error sets an error code, a
      `goto reexecute_byte` lowers the rank of the state, and only on_message_complete can pause. */
  predicate Orderly(p: Parser, o: Out) {
    && (o.note != [] ==> |o.note| == 1 && !o.note[0].Data?)
    && match o.next
    case Fail =>
      && !o.p.errno.OK? && !o.p.errno.Paused? && !o.p.errno.HeaderOverflow?
      && o.mark != Some(Body) && o.flush == None && o.note == []
    case Again => Rank(o.p.state) < Rank(p.state) && o.p.errno == p.errno
    case Advance => o.p.errno == p.errno || (o.p.errno.Paused? && o.note == [Complete])
  }

  /** The data callback whose mark is open between bytes in state `s`. */
  function OpenKind(s: State): Option<Kind> {
    if s.HeaderField? then Some(Field)
    else if s.HeaderValue? then Some(Value)
    else if InUrl(s) then Some(Url)
    else None
  }

  /** The states that read a run of body bytes. */
  predicate ReadsBody(s: State) {
    s.BodyIdentity? || s.BodyIdentityEof? || s.ChunkData?
  }

  function Go(p: Parser): Out { Out(p, None, None, [], Advance) }

  function Bad(p: Parser, e: Errno): Out { Out(p.(errno := e), None, None, [], Fail) }

  function Redo(p: Parser): Out { Out(p, None, None, [], Again) }

  /** CALLBACK_DATA: run the data callback for the bytes since the mark. */
  function Flushed(p: Parser, k: Kind): Out { Out(p, None, Some(k), [], Advance) }

  /** STRICT_CHECK: anything but the wanted byte is an error. */
  function Want(p: Parser, ch: char, wanted: char, next: State): Out {
    if ch != wanted then Bad(p, Strict) else Go(p.(state := next))
  }

  // ---------------------------------------------------------------- message framing

  /** http_message_needs_eof */
  predicate NeedsEof(p: Parser) {
    !p.kind.Request?
    && !(p.statusCode / 100 == 1 || p.statusCode == 204 || p.statusCode == 304 || p.flags.skipBody)
    && !p.flags.chunked
    && p.contentLength == ULLONG_MAX
  }

  /** http_should_keep_alive */
  predicate ShouldKeepAlive(p: Parser) {
    (if p.httpMajor > 0 && p.httpMinor > 0 then !p.flags.close else p.flags.keepAlive)
    && !NeedsEof(p)
  }

  function StartState(p: Parser): State {
    if p.kind.Request? then StartReq else StartRes
  }

  /** NEW_MESSAGE() of the strict build: the next message may follow if the headers let the connection stay and this
      message had an end of its own. */
  function NewMessage(p: Parser): (s: State)
    ensures s == Dead || s == StartState(p)
    ensures s != Dead <==>
            && (if p.httpMajor > 0 && p.httpMinor > 0 then !p.flags.close else p.flags.keepAlive)
            && (|| p.kind.Request? || 100 <= p.statusCode <= 199 || p.statusCode == 204 || p.statusCode == 304
                || p.flags.skipBody || p.flags.chunked || p.contentLength != ULLONG_MAX)
  {
    if ShouldKeepAlive(p) then StartState(p) else Dead
  }

  /** End of message: move to the next message, then run on_message_complete, which may pause. */
  function Finish(cb: Callbacks, p: Parser): Out {
    var q := p.(state := NewMessage(p));
    Out(if cb.pauses then q.(errno := Paused) else q, None, None, [Complete], Advance)
  }

  function InfoOf(p: Parser): Info {
    Info(p.httpMajor, p.httpMinor, if p.kind.Request? then 0 else p.statusCode,
         p.verb, ShouldKeepAlive(p), p.upgrade)
  }

  // ---------------------------------------------------------------- start of a message

  function HandleStart(p: Parser, ch: char): (o: Out)
    requires InStart(p.state)
    ensures Orderly(p, o) && o.p.nread == p.nread && Complete !in o.note
    ensures o.next.Advance? ==> o.p.errno == p.errno
  {
    if p.state.StartReqOrRes? then
      if ch == CR || ch == LF then Go(p) else
        var q := p.(flags := NoFlags, contentLength := ULLONG_MAX);
        if ch == 'H' then Out(q.(state := ResOrRespH), None, None, [Begin], Advance)
        else Redo(q.(kind := Request, state := StartReq))
    else if p.state.ResOrRespH? then
      if ch == 'T' then Go(p.(kind := Response, state := ResHT))
      else if ch != 'E' then Bad(p, InvalidConstant)
      else Go(p.(kind := Request, verb := HEAD, index := 2, state := ReqMethod))
    else if p.state.StartRes? then
      var q := p.(flags := NoFlags, contentLength := ULLONG_MAX);
      if ch == 'H' then Out(q.(state := ResH), None, None, [Begin], Advance)
      else if ch == CR || ch == LF then Out(q, None, None, [Begin], Advance)
      else Bad(q, InvalidConstant)
    else if p.state.StartReq? then
      if ch == CR || ch == LF then Go(p) else
        var q := p.(flags := NoFlags, contentLength := ULLONG_MAX);
        if !IsAlpha(ch) then Bad(q, InvalidMethod) else
          (match FirstLetter(ch)
           case None => Bad(q.(verb := DELETE, index := 1), InvalidMethod)
           case Some(m) => Out(q.(verb := m, index := 1, state := ReqMethod), None, None, [Begin], Advance))
    else // Dead
      if ch == CR || ch == LF then Go(p) else Bad(p, ClosedConnection)
  }

  function FirstLetter(ch: char): Option<Method> {
    if ch == 'C' then Some(CONNECT)
    else if ch == 'D' then Some(DELETE)
    else if ch == 'G' then Some(GET)
    else if ch == 'H' then Some(HEAD)
    else if ch == 'L' then Some(LOCK)
    else if ch == 'M' then Some(MKCOL)
    else if ch == 'N' then Some(NOTIFY)
    else if ch == 'O' then Some(OPTIONS)
    else if ch == 'P' then Some(POST)
    else if ch == 'R' then Some(REPORT)
    else if ch == 'S' then Some(SUBSCRIBE)
    else if ch == 'T' then Some(TRACE)
    else if ch == 'U' then Some(UNLOCK)
    else None
  }

  // ---------------------------------------------------------------- status line

  /** What a byte of a status line or of a request's version can do: change the state, the version
      and the status, within their limits, and nothing else. */
  predicate LineByte(p: Parser, o: Out) {
    && o == Out(o.p, None, None, [], o.next) && !o.next.Again?
    && o.p == p.(state := o.p.state, errno := o.p.errno, httpMajor := o.p.httpMajor,
                 httpMinor := o.p.httpMinor, statusCode := o.p.statusCode)
    && (if o.next.Fail? then !o.p.errno.OK? && !o.p.errno.Paused? && !o.p.errno.HeaderOverflow? else
        && o.p.errno == p.errno
        && (o.p.httpMajor <= 999 || o.p.httpMajor == p.httpMajor)
        && (o.p.httpMinor <= 999 || o.p.httpMinor == p.httpMinor)
        && (o.p.statusCode <= 999 || o.p.statusCode == p.statusCode))
  }

  function HandleStatusLine(p: Parser, ch: char): (o: Out)
    requires InStatusLine(p.state)
    ensures LineByte(p, o)
    ensures o.next.Advance? ==> InStatusLine(o.p.state) || o.p.state.HeaderFieldStart?
  {
    if p.state.ResH? then Want(p, ch, 'T', ResHT)
    else if p.state.ResHT? then Want(p, ch, 'T', ResHTT)
    else if p.state.ResHTT? then Want(p, ch, 'P', ResHTTP)
    else if p.state.ResHTTP? then Want(p, ch, '/', ResFirstHttpMajor)
    else if p.state.ResFirstHttpMajor? then
      if !IsNum(ch) then Bad(p, InvalidVersion)
      else Go(p.(httpMajor := Digit(ch), state := ResHttpMajor))
    else if p.state.ResHttpMajor? then
      if ch == '.' then Go(p.(state := ResFirstHttpMinor)) else MoreMajor(p, ch)
    else if p.state.ResFirstHttpMinor? then
      if !IsNum(ch) then Bad(p, InvalidVersion)
      else Go(p.(httpMinor := Digit(ch), state := ResHttpMinor))
    else if p.state.ResHttpMinor? then
      if ch == ' ' then Go(p.(state := ResFirstStatusCode)) else MoreMinor(p, ch)
    else if p.state.ResFirstStatusCode? then
      if IsNum(ch) then Go(p.(statusCode := Digit(ch), state := ResStatusCode))
      else if ch == ' ' then Go(p)
      else Bad(p, InvalidStatus)
    else if p.state.ResStatusCode? then
      if ch == ' ' then Go(p.(state := ResStatus))
      else if ch == CR then Go(p.(state := ResLineAlmostDone))
      else if ch == LF then Go(p.(state := HeaderFieldStart))
      else if !IsNum(ch) then Bad(p, InvalidStatus)
      else
        var q := p.(statusCode := p.statusCode * 10 + Digit(ch));
        if q.statusCode > 999 then Bad(q, InvalidStatus) else Go(q)
    else if p.state.ResStatus? then
      if ch == CR then Go(p.(state := ResLineAlmostDone))
      else if ch == LF then Go(p.(state := HeaderFieldStart))
      else Go(p)
    else // ResLineAlmostDone
      Want(p, ch, LF, HeaderFieldStart)
  }

  function MoreMajor(p: Parser, ch: char): Out {
    if !IsNum(ch) then Bad(p, InvalidVersion) else
      var q := p.(httpMajor := p.httpMajor * 10 + Digit(ch));
      if q.httpMajor > 999 then Bad(q, InvalidVersion) else Go(q)
  }

  function MoreMinor(p: Parser, ch: char): Out {
    if !IsNum(ch) then Bad(p, InvalidVersion) else
      var q := p.(httpMinor := p.httpMinor * 10 + Digit(ch));
      if q.httpMinor > 999 then Bad(q, InvalidVersion) else Go(q)
  }

  // ---------------------------------------------------------------- request line

  /** The C string access matcher[i], whose terminator is a NUL. */
  function CharAt(s: string, i: nat): char {
    if i < |s| then s[i] else '\0'
  }

  /** What a byte that differs from the expected one does to the method being matched: another
      method, or None for an error.  At index 2 most methods accept any byte. */
  function SwitchMethod(m: Method, index: nat, ch: char): Option<Method> {
    if m.CONNECT? then
      if index == 1 && ch == 'H' then Some(CHECKOUT)
      else if index == 2 && ch == 'P' then Some(COPY)
      else None
    else if m.MKCOL? then
      if index == 1 && ch == 'O' then Some(MOVE)
      else if index == 1 && ch == 'E' then Some(MERGE)
      else if index == 1 && ch == '-' then Some(MSEARCH)
      else if index == 2 && ch == 'A' then Some(MKACTIVITY)
      else None
    else if m.SUBSCRIBE? then
      if index == 1 && ch == 'E' then Some(SEARCH) else None
    else
      if index == 1 && m.POST? then
        if ch == 'R' then Some(PROPFIND)
        else if ch == 'U' then Some(PUT)
        else if ch == 'A' then Some(PATCH)
        else None
      else if index == 2 then
        if m.PUT? && ch == 'R' then Some(PURGE)
        else if m.UNLOCK? && ch == 'S' then Some(UNSUBSCRIBE)
        else Some(m)
      else if index == 4 && m.PROPFIND? && ch == 'P' then Some(PROPPATCH)
      else None
  }

  /** The error of a method mismatch: the branches for CONNECT, MKCOL, SUBSCRIBE and POST jump
      to the error label without setting one. */
  function MethodErrno(m: Method, index: nat): Errno {
    if m.CONNECT? || m.MKCOL? || m.SUBSCRIBE? || (index == 1 && m.POST?) then Unknown
    else InvalidMethod
  }

  function HandleMethod(p: Parser, ch: char): (o: Out)
    requires p.state.ReqMethod?
    ensures Orderly(p, o) && o.p.nread == p.nread && Complete !in o.note
    ensures o.next.Advance? ==> o.p.errno == p.errno
  {
    if ch == '\0' then Bad(p, InvalidMethod) else
      var expected := CharAt(MethodString(p.verb), p.index);
      if ch == ' ' && expected == '\0' then Go(p.(state := ReqSpacesBeforeUrl, index := p.index + 1))
      else if ch == expected then Go(p.(index := p.index + 1))
      else
        match SwitchMethod(p.verb, p.index, ch)
        case Some(m) => Go(p.(verb := m, index := p.index + 1))
        case None => Bad(p, MethodErrno(p.verb, p.index))
  }

  /** parse_url_char */
  function ParseUrlChar(s: State, ch: char): State {
    if ch == ' ' || ch == CR || ch == LF || ch == '\t' || ch == '\U{000C}' then Dead
    else
      if s.ReqSpacesBeforeUrl? then
        if ch == '/' || ch == '*' then ReqPath else if IsAlpha(ch) then ReqSchema else Dead
      else if s.ReqSchema? then
        if IsAlpha(ch) then ReqSchema else if ch == ':' then ReqSchemaSlash else Dead
      else if s.ReqSchemaSlash? then if ch == '/' then ReqSchemaSlashSlash else Dead
      else if s.ReqSchemaSlashSlash? then if ch == '/' then ReqServerStart else Dead
      else if s.ReqServerWithAt? then if ch == '@' then Dead else ServerChar(ch)
      else if s.ReqServerStart? then ServerChar(ch)
      else if s.ReqServer? then ServerChar(ch)
      else if s.ReqPath? then
        if IsUrlChar(ch) then ReqPath
        else if ch == '?' then ReqQueryStringStart
        else if ch == '#' then ReqFragmentStart
        else Dead
      else if s.ReqQueryStringStart? then QueryChar(ch)
      else if s.ReqQueryString? then QueryChar(ch)
      else if s.ReqFragmentStart? then
        if IsUrlChar(ch) || ch == '?' then ReqFragment
        else if ch == '#' then ReqFragmentStart
        else Dead
      else if s.ReqFragment? then
        if IsUrlChar(ch) || ch == '?' || ch == '#' then ReqFragment else Dead
      else Dead
  }

  function ServerChar(ch: char): State {
    if ch == '/' then ReqPath
    else if ch == '?' then ReqQueryStringStart
    else if ch == '@' then ReqServerWithAt
    else if IsUserinfoChar(ch) || ch == '[' || ch == ']' then ReqServer
    else Dead
  }

  function QueryChar(ch: char): State {
    if IsUrlChar(ch) || ch == '?' then ReqQueryString
    else if ch == '#' then ReqFragmentStart
    else Dead
  }

  function UrlByte(p: Parser, s: State): Out {
    if s.Dead? then Bad(p.(state := Dead), InvalidUrl) else Go(p.(state := s))
  }

  function HandleUrl(p: Parser, ch: char): (o: Out)
    requires p.state.ReqSpacesBeforeUrl? || InUrl(p.state)
    ensures Orderly(p, o) && o.p.nread == p.nread && Complete !in o.note
    ensures o.next.Advance? ==> o.p.errno == p.errno
  {
    if p.state.ReqSpacesBeforeUrl? then
      if ch == ' ' then Go(p) else
        var from := if p.verb.CONNECT? then ReqServerStart else ReqSpacesBeforeUrl;
        UrlByte(p, ParseUrlChar(from, ch)).(mark := Some(Url))
    else if p.state.ReqSchema? then UrlByteNoBlank(p, ch)
    else if p.state.ReqSchemaSlash? then UrlByteNoBlank(p, ch)
    else if p.state.ReqSchemaSlashSlash? then UrlByteNoBlank(p, ch)
    else if p.state.ReqServerStart? then UrlByteNoBlank(p, ch)
    else
      if ch == ' ' then Flushed(p.(state := ReqHttpStart), Url)
      else if ch == CR || ch == LF then
        Flushed(p.(httpMajor := 0, httpMinor := 9,
                   state := if ch == CR then ReqLineAlmostDone else HeaderFieldStart), Url)
      else UrlByte(p, ParseUrlChar(p.state, ch))
  }

  function UrlByteNoBlank(p: Parser, ch: char): Out {
    if ch == ' ' || ch == CR || ch == LF then Bad(p, InvalidUrl)
    else UrlByte(p, ParseUrlChar(p.state, ch))
  }

  function HandleRequestVersion(p: Parser, ch: char): (o: Out)
    requires InRequestVersion(p.state)
    ensures LineByte(p, o)
    ensures o.next.Advance? ==> InRequestVersion(o.p.state) || o.p.state.HeaderFieldStart?
  {
    if p.state.ReqHttpStart? then
      if ch == 'H' then Go(p.(state := ReqHttpH))
      else if ch == ' ' then Go(p)
      else Bad(p, InvalidConstant)
    else if p.state.ReqHttpH? then Want(p, ch, 'T', ReqHttpHT)
    else if p.state.ReqHttpHT? then Want(p, ch, 'T', ReqHttpHTT)
    else if p.state.ReqHttpHTT? then Want(p, ch, 'P', ReqHttpHTTP)
    else if p.state.ReqHttpHTTP? then Want(p, ch, '/', ReqFirstHttpMajor)
    else if p.state.ReqFirstHttpMajor? then
      if ch < '1' || ch > '9' then Bad(p, InvalidVersion)
      else Go(p.(httpMajor := Digit(ch), state := ReqHttpMajor))
    else if p.state.ReqHttpMajor? then
      if ch == '.' then Go(p.(state := ReqFirstHttpMinor)) else MoreMajor(p, ch)
    else if p.state.ReqFirstHttpMinor? then
      if !IsNum(ch) then Bad(p, InvalidVersion)
      else Go(p.(httpMinor := Digit(ch), state := ReqHttpMinor))
    else if p.state.ReqHttpMinor? then
      if ch == CR then Go(p.(state := ReqLineAlmostDone))
      else if ch == LF then Go(p.(state := HeaderFieldStart))
      else MoreMinor(p, ch)
    else // ReqLineAlmostDone
      if ch != LF then Bad(p, LfExpected) else Go(p.(state := HeaderFieldStart))
  }

  // ---------------------------------------------------------------- header fields

  /** One step of matching a literal, shared by all h_matching_* cases: the byte must equal the
      next character of the literal, and the last character completes the match. */
  function MatchLiteral(p: Parser, c: char, literal: string, matched: HeaderState): Parser {
    var i := p.index + 1;
    var q := p.(index := i);
    if i > |literal| || c != CharAt(literal, i) then q.(headerState := General)
    else if i == |literal| - 1 then q.(headerState := matched)
    else q
  }

  /** The header matcher in s_header_field, on the token character `c`. */
  function MatchField(p: Parser, c: char): Parser {
    if p.headerState.General? then p
    else if p.headerState.C? then p.(index := p.index + 1, headerState := if c == 'o' then CO else General)
    else if p.headerState.CO? then p.(index := p.index + 1, headerState := if c == 'n' then CON else General)
    else if p.headerState.CON? then
      p.(index := p.index + 1,
         headerState := if c == 'n' then MatchingConnection
                        else if c == 't' then MatchingContentLength
                        else General)
    else if p.headerState.MatchingConnection? then MatchLiteral(p, c, "connection", Connection)
    else if p.headerState.MatchingProxyConnection? then MatchLiteral(p, c, "proxy-connection", Connection)
    else if p.headerState.MatchingContentLength? then MatchLiteral(p, c, "content-length", ContentLength)
    else if p.headerState.MatchingTransferEncoding? then MatchLiteral(p, c, "transfer-encoding", TransferEncoding)
    else if p.headerState.MatchingUpgrade? then MatchLiteral(p, c, "upgrade", Upgrade)
    else if p.headerState.Connection? then p.(headerState := General)
    else if p.headerState.ContentLength? then p.(headerState := General)
    else if p.headerState.TransferEncoding? then p.(headerState := General)
    else if p.headerState.Upgrade? then p.(headerState := General)
    else p
  }

  function FirstFieldState(c: char): HeaderState {
    if c == 'c' then C
    else if c == 'p' then MatchingProxyConnection
    else if c == 't' then MatchingTransferEncoding
    else if c == 'u' then MatchingUpgrade
    else General
  }

  function HandleField(p: Parser, ch: char): (o: Out)
    requires p.state.HeaderFieldStart? || p.state.HeaderField?
    ensures Orderly(p, o) && o.p.nread == p.nread && Complete !in o.note
    ensures o.next.Advance? ==> o.p.errno == p.errno
  {
    if p.state.HeaderFieldStart? then
      if ch == CR then Go(p.(state := HeadersAlmostDone))
      else if ch == LF then Redo(p.(state := HeadersAlmostDone))
      else
        var c := Token(ch);
        if c == '\0' then Bad(p, InvalidHeaderToken)
        else Go(p.(index := 0, state := HeaderField, headerState := FirstFieldState(c))).(mark := Some(Field))
    else // HeaderField
      var c := Token(ch);
      if c != '\0' then Go(MatchField(p, c))
      else if ch == ':' then Flushed(p.(state := HeaderValueStart), Field)
      else if ch == CR then Flushed(p.(state := HeaderAlmostDone), Field)
      else if ch == LF then Flushed(p.(state := HeaderFieldStart), Field)
      else Bad(p, InvalidHeaderToken)
  }

  /** The first byte of a header value, in the header state left by the name. */
  function FirstValueByte(p: Parser, ch: char): Out {
    var c := Lower(ch);
    if p.headerState.Upgrade? then Go(p.(flags := p.flags.(upgrade := true), headerState := General))
    else if p.headerState.TransferEncoding? then Go(p.(headerState := if c == 'c' then MatchingChunked else General))
    else if p.headerState.ContentLength? then
      if !IsNum(ch) then Bad(p, InvalidContentLength) else Go(p.(contentLength := Digit(ch)))
    else if p.headerState.Connection? then
      Go(p.(headerState := if c == 'k' then MatchingKeepAlive
                           else if c == 'c' then MatchingClose
                           else General))
    else Go(p.(headerState := General))
  }

  /** One more digit of a number kept in 64 bits, with the source's overflow test.
      None when the test reports an overflow. */
  function Accumulate(n: nat, base: nat, digit: nat): (r: Option<nat>)
    ensures r.Some? ==> n <= r.value < ULLONG_MAX
  {
    var t := (n * base + digit) % TWO64;
    if t < n || t == ULLONG_MAX then None else Some(t)
  }

  /** A further byte of a header value. */
  function NextValueByte(p: Parser, ch: char): Out {
    var c := Lower(ch);
    if p.headerState.General? then Go(p)
    else if p.headerState.Connection? then Go(p)
    else if p.headerState.TransferEncoding? then Go(p)
    else if p.headerState.ContentLength? then
      if ch == ' ' then Go(p)
      else if !IsNum(ch) then Bad(p, InvalidContentLength)
      else
        (match Accumulate(p.contentLength, 10, Digit(ch))
         case None => Bad(p, InvalidContentLength)
         case Some(t) => Go(p.(contentLength := t)))
    else if p.headerState.MatchingChunked? then Go(MatchLiteral(p, c, "chunked", Chunked))
    else if p.headerState.MatchingKeepAlive? then Go(MatchLiteral(p, c, "keep-alive", KeepAlive))
    else if p.headerState.MatchingClose? then Go(MatchLiteral(p, c, "close", Close))
    else if p.headerState.Chunked? then Go(if ch != ' ' then p.(headerState := General) else p)
    else if p.headerState.KeepAlive? then Go(if ch != ' ' then p.(headerState := General) else p)
    else if p.headerState.Close? then Go(if ch != ' ' then p.(headerState := General) else p)
    else Go(p.(headerState := General))
  }

  function HandleValue(p: Parser, ch: char): (o: Out)
    requires InValue(p.state)
    ensures Orderly(p, o) && o.p.nread == p.nread && Complete !in o.note
    ensures o.next.Advance? ==> o.p.errno == p.errno
  {
    if p.state.HeaderValueStart? then
      if ch == ' ' || ch == '\t' then Go(p) else
        var q := p.(index := 0);
        (if ch == CR then Flushed(q.(headerState := General, state := HeaderAlmostDone), Value)
         else if ch == LF then Flushed(q.(state := HeaderFieldStart), Value)
         else FirstValueByte(q.(state := HeaderValue), ch)).(mark := Some(Value))
    else if p.state.HeaderValue? then
      if ch == CR then Flushed(p.(state := HeaderAlmostDone), Value)
      else if ch == LF then Out(p.(state := HeaderAlmostDone), None, Some(Value), [], Again)
      else NextValueByte(p, ch)
    else if p.state.HeaderAlmostDone? then
      if ch != LF then Bad(p, Strict) else
        Go(p.(state := HeaderValueLws,
              flags := if p.headerState.KeepAlive? then p.flags.(keepAlive := true)
                       else if p.headerState.Close? then p.flags.(close := true)
                       else if p.headerState.Chunked? then p.flags.(chunked := true)
                       else p.flags))
    else // HeaderValueLws
      if ch == ' ' || ch == '\t' then Go(p.(state := HeaderValueStart))
      else Redo(p.(state := HeaderFieldStart))
  }

  // ---------------------------------------------------------------- end of the header block

  function HandleHeadersEnd(cb: Callbacks, p: Parser, ch: char): (o: Out)
    requires p.state.HeadersAlmostDone? || p.state.HeadersDone?
    ensures Orderly(p, o)
  {
    if p.state.HeadersAlmostDone? then
      if ch != LF then Bad(p, Strict)
      else if p.flags.trailing then Finish(cb, p)
      else
        var q := p.(state := HeadersDone, upgrade := p.flags.upgrade || p.verb.CONNECT?);
        var r := if cb.noBody(q) then q.(flags := q.flags.(skipBody := true)) else q;
        Out(r, None, None, [HeadersComplete(InfoOf(q))], Again)
    else // HeadersDone
      if ch != LF then Bad(p, Strict) else
        var q := p.(nread := 0);
        if q.upgrade then Go(q.(state := BodyIdentityEof))
        else if q.flags.skipBody then Finish(cb, q)
        else if q.flags.chunked then Go(q.(state := ChunkSizeStart))
        else if q.contentLength == 0 then Finish(cb, q)
        else if q.contentLength != ULLONG_MAX then Go(q.(state := BodyIdentity))
        else if q.kind.Request? || !NeedsEof(q) then Finish(cb, q)
        else Go(q.(state := BodyIdentityEof))
  }

  // ---------------------------------------------------------------- body

  /** The body states, one byte at a time.  The source reads a whole run of bytes in one pass;
      `HttpExecute` proves that the two agree. */
  function HandleBody(cb: Callbacks, p: Parser): (o: Out)
    requires InBody(p.state)
    ensures Orderly(p, o) && o.p.nread == p.nread
  {
    if p.state.BodyIdentity? then
      var q := p.(contentLength := Decrement(p.contentLength));
      if q.contentLength == 0
      then Out(q.(state := MessageDone), Some(Body), Some(Body), [], Again)
      else Out(q, Some(Body), None, [], Advance)
    else if p.state.BodyIdentityEof? then Out(p, Some(Body), None, [], Advance)
    else // MessageDone
      Finish(cb, p)
  }

  /** content_length - 1 in 64 bits. */
  function Decrement(n: nat): nat {
    if n == 0 then ULLONG_MAX else n - 1
  }

  function HandleChunk(p: Parser, ch: char): (o: Out)
    requires InChunk(p.state)
    ensures Orderly(p, o) && Complete !in o.note
    ensures o.next.Advance? ==> o.p.errno == p.errno
  {
    if p.state.ChunkSizeStart? then
      (match Unhex(ch)
       case None => Bad(p, InvalidChunkSize)
       case Some(v) => Go(p.(contentLength := v, state := ChunkSize)))
    else if p.state.ChunkSize? then
      if ch == CR then Go(p.(state := ChunkSizeAlmostDone)) else
        (match Unhex(ch)
         case None =>
           if ch == ';' || ch == ' ' then Go(p.(state := ChunkParameters)) else Bad(p, InvalidChunkSize)
         case Some(v) =>
           match Accumulate(p.contentLength, 16, v)
           case None => Bad(p, InvalidContentLength)
           case Some(t) => Go(p.(contentLength := t)))
    else if p.state.ChunkParameters? then
      if ch == CR then Go(p.(state := ChunkSizeAlmostDone)) else Go(p)
    else if p.state.ChunkSizeAlmostDone? then
      if ch != LF then Bad(p, Strict)
      else if p.contentLength == 0
      then Go(p.(nread := 0, flags := p.flags.(trailing := true), state := HeaderFieldStart))
      else Go(p.(nread := 0, state := ChunkData))
    else if p.state.ChunkData? then
      var q := p.(contentLength := Decrement(p.contentLength));
      Out(if q.contentLength == 0 then q.(state := ChunkDataAlmostDone) else q,
          Some(Body), None, [], Advance)
    else if p.state.ChunkDataAlmostDone? then
      if ch != CR then Bad(p, Strict) else Flushed(p.(state := ChunkDataDone), Body)
    else // ChunkDataDone
      if ch != LF then Bad(p, Strict) else Go(p.(nread := 0, state := ChunkSizeStart))
  }

  // ---------------------------------------------------------------- the whole switch

  predicate InStart(s: State) {
    s.Dead? || s.StartReqOrRes? || s.ResOrRespH? || s.StartRes? || s.StartReq?
  }

  predicate InStatusLine(s: State) {
    s.ResH? || s.ResHT? || s.ResHTT? || s.ResHTTP? || s.ResFirstHttpMajor? || s.ResHttpMajor?
    || s.ResFirstHttpMinor? || s.ResHttpMinor? || s.ResFirstStatusCode? || s.ResStatusCode?
    || s.ResStatus? || s.ResLineAlmostDone?
  }

  predicate InRequestVersion(s: State) {
    s.ReqHttpStart? || s.ReqHttpH? || s.ReqHttpHT? || s.ReqHttpHTT? || s.ReqHttpHTTP?
    || s.ReqFirstHttpMajor? || s.ReqHttpMajor? || s.ReqFirstHttpMinor? || s.ReqHttpMinor?
    || s.ReqLineAlmostDone?
  }

  predicate InValue(s: State) {
    s.HeaderValueStart? || s.HeaderValue? || s.HeaderAlmostDone? || s.HeaderValueLws?
  }

  predicate InBody(s: State) {
    s.BodyIdentity? || s.BodyIdentityEof? || s.MessageDone?
  }

  predicate InChunk(s: State) {
    s.ChunkSizeStart? || s.ChunkSize? || s.ChunkParameters? || s.ChunkSizeAlmostDone?
    || s.ChunkData? || s.ChunkDataAlmostDone? || s.ChunkDataDone?
  }

  function Handle(cb: Callbacks, p: Parser, ch: char): (o: Out)
    ensures Orderly(p, o)
  {
    if InStart(p.state) then HandleStart(p, ch)
    else if InStatusLine(p.state) then HandleStatusLine(p, ch)
    else if p.state.ReqMethod? then HandleMethod(p, ch)
    else if p.state.ReqSpacesBeforeUrl? || InUrl(p.state) then HandleUrl(p, ch)
    else if InRequestVersion(p.state) then HandleRequestVersion(p, ch)
    else if p.state.HeaderFieldStart? || p.state.HeaderField? then HandleField(p, ch)
    else if InValue(p.state) then HandleValue(p, ch)
    else if p.state.HeadersAlmostDone? || p.state.HeadersDone? then HandleHeadersEnd(cb, p, ch)
    else if InBody(p.state) then HandleBody(cb, p)
    else HandleChunk(p, ch)
  }
}
