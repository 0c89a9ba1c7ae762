/**
 The order of the callbacks.  For a request parser a trace is a prefix of messages of the form

     begin url+ (field | value)* headers_complete body* (field | value)* complete

 in which no value comes before the first field of its block.  A response parser has no URL, and it
 reports a begin for every line end in front of a message.
 */
module HttpGrammar {
  import opened HttpTypes
  import opened HttpSwitch
  import opened HttpRun
  import opened HttpBytes
  import opened HttpBody
  import opened HttpNumbers
  import opened HttpHeaders
  import opened HttpResponse
  import opened HttpMarks
  import opened HttpInvariant
  import opened HttpCalls
  import opened HttpExecute
  import opened HeaderAssembly

  // ---------------------------------------------------------------- the automaton

  datatype Phase = Idle | Begun | Urls | Headers | Bodies | Trailers

  /** What may come next; None if the event is out of place. */
  function Next(request: bool, ph: Phase, e: Event): Option<Phase> {
    match e
    case Begin => if ph.Idle? || (!request && ph.Begun?) then Some(Begun) else None
    case HeadersComplete(_) =>
      if ph.Headers? || (if request then ph.Urls? else ph.Begun?) then Some(Bodies) else None
    case Complete => if ph.Bodies? || ph.Trailers? then Some(Idle) else None
    case Data(k, _) =>
      match k
      case Url => if request && (ph.Begun? || ph.Urls?) then Some(Urls) else None
      case Field =>
        if ph.Headers? || (if request then ph.Urls? else ph.Begun?) then Some(Headers)
        else if ph.Bodies? || ph.Trailers? then Some(Trailers)
        else None
      case Value => if ph.Headers? || ph.Trailers? then Some(ph) else None
      case Body => if ph.Bodies? then Some(Bodies) else None
  }

  /** The phase after a trace; None if the trace is not a prefix of well-formed messages. */
  function After(request: bool, ph: Phase, es: seq<Event>): Option<Phase>
    decreases |es|
  {
    if es == [] then Some(ph)
    else
      match After(request, ph, es[..|es| - 1])
      case None => None
      case Some(ph') => Next(request, ph', es[|es| - 1])
  }

  lemma {:induction false} AfterConcat(request: bool, ph: Phase, a: seq<Event>, b: seq<Event>)
    ensures After(request, ph, a + b) ==
            match After(request, ph, a) case None => None case Some(ph') => After(request, ph', b)
    decreases |b|
  {
    hide Next;
    if b == [] {
      assert a + b == a;
    } else {
      assert (a + b)[..|a + b| - 1] == a + b[..|b| - 1];
      AfterConcat(request, ph, a, b[..|b| - 1]);
    }
  }

  lemma AfterOne(request: bool, ph: Phase, e: Event)
    ensures After(request, ph, [e]) == Next(request, ph, e)
  {
    assert [e][..0] == [];
    assert After(request, ph, [e][..0]) == Some(ph);
  }

  /** Merging two data events of a kind does not change what may come next. */
  lemma AfterEmit(request: bool, ph: Phase, t: seq<Event>, e: Event)
    ensures After(request, ph, Emit(t, e)) ==
            match After(request, ph, t) case None => None case Some(ph') => Next(request, ph', e)
  {
    if |t| > 0 && t[|t| - 1].Data? && e.Data? && t[|t| - 1].kind == e.kind {
      var t', d := t[..|t| - 1], t[|t| - 1];
      var u := t' + [Data(e.kind, d.bytes + e.bytes)];
      assert u[..|u| - 1] == t';
      assert After(request, ph, t') == After(request, ph, u[..|u| - 1]);
    } else {
      assert (t + [e])[..|t|] == t;
    }
  }

  /** A trace is well-formed exactly if its merged form is. */
  lemma {:induction false} AfterMerge(request: bool, ph: Phase, t: seq<Event>, es: seq<Event>)
    ensures After(request, ph, EmitAll(t, es)) ==
            match After(request, ph, t) case None => None case Some(ph') => After(request, ph', es)
    decreases |es|
  {
    hide Next, Emit;
    if es != [] {
      AfterMerge(request, ph, t, es[..|es| - 1]);
      AfterEmit(request, ph, EmitAll(t, es[..|es| - 1]), es[|es| - 1]);
    }
  }

  // ---------------------------------------------------------------- phases and states

  /** The phases that go with the state of a parser. */
  predicate Fits(p: Parser, ph: Phase) {
    var s := p.state;
    if s.StartReq? || s.Dead? then ph.Idle?
    else if s.StartRes? then ph.Idle? || ph.Begun?
    else if s.ReqMethod? || s.ReqSpacesBeforeUrl? || InStatusLine(s) then ph.Begun? && !p.flags.trailing
    else if InUrl(s) || InRequestVersion(s) then ph.Urls? && !p.flags.trailing
    else if s.HeaderFieldStart? || s.HeadersAlmostDone? then
      if p.flags.trailing then ph.Bodies? || ph.Trailers?
      else ph.Headers? || (if p.kind.Request? then ph.Urls? else ph.Begun?)
    else if s.HeaderField? || InValue(s) then
      if p.flags.trailing then ph.Trailers? else ph.Headers?
    else if s.StartReqOrRes? || s.ResOrRespH? then false
    else ph.Bodies?
  }

  /** The type of the parser goes with its state. */
  predicate Typed(p: Parser) {
    OfType(p) && (p.state.HeadersDone? ==> !p.flags.trailing)
  }

  /** A pass continues the trace in order. */
  predicate InOrder(p: Parser, ph: Phase, o: Out, ch: char) {
    var next := After(p.kind.Request?, ph, PassEvents(o, ch));
    && next.Some? && o.p.kind == p.kind
    && (!o.next.Fail? ==> Fits(o.p, next.value) && Typed(o.p))
  }

  /** The same, for a pass that makes at most one callback. */
  predicate InOrderBy(p: Parser, ph: Phase, o: Out, ch: char) {
    var es := PassEvents(o, ch);
    var next := if es == [] then Some(ph) else Next(p.kind.Request?, ph, es[0]);
    && |es| <= 1 && next.Some? && o.p.kind == p.kind
    && (!o.next.Fail? ==> Fits(o.p, next.value) && Typed(o.p))
  }

  lemma OneCallback(p: Parser, ph: Phase, o: Out, ch: char)
    requires InOrderBy(p, ph, o, ch)
    ensures InOrder(p, ph, o, ch)
  {
    hide Next, Fits, Typed, PassEvents;
    var es := PassEvents(o, ch);
    if es != [] {
      assert es == [es[0]];
      AfterOne(p.kind.Request?, ph, es[0]);
    }
  }

  lemma OrderFirst(p: Parser, ph: Phase, ch: char)
    requires (p.state.StartReq? || p.state.StartRes?) && Fits(p, ph) && Typed(p) && p.errno.OK?
    ensures InOrderBy(p, ph, HandleStart(p, ch), ch)
  {
  }

  lemma OrderStart(p: Parser, ph: Phase, ch: char)
    requires (InStart(p.state)) && Fits(p, ph) && Typed(p) && p.errno.OK?
    ensures InOrderBy(p, ph, HandleStart(p, ch), ch)
  {
    if p.state.StartReq? || p.state.StartRes? {
      hide HandleStart, Fits, Typed, InOrderBy;
      OrderFirst(p, ph, ch);
    }
  }

  lemma OrderProtocol(p: Parser, ph: Phase, ch: char)
    requires p.state.ResH? || p.state.ResHT? || p.state.ResHTT? || p.state.ResHTTP? || p.state.ResFirstHttpMajor?
    requires Fits(p, ph) && Typed(p) && p.errno.OK?
    ensures InOrderBy(p, ph, HandleStatusLine(p, ch), ch)
  {
  }

  lemma OrderVersion(p: Parser, ph: Phase, ch: char)
    requires p.state.ResHttpMajor? || p.state.ResFirstHttpMinor? || p.state.ResHttpMinor?
    requires Fits(p, ph) && Typed(p) && p.errno.OK?
    ensures InOrderBy(p, ph, HandleStatusLine(p, ch), ch)
  {
  }

  lemma OrderStatus(p: Parser, ph: Phase, ch: char)
    requires p.state.ResFirstStatusCode? || p.state.ResStatusCode? || p.state.ResStatus? || p.state.ResLineAlmostDone?
    requires Fits(p, ph) && Typed(p) && p.errno.OK?
    ensures InOrderBy(p, ph, HandleStatusLine(p, ch), ch)
  {
  }

  lemma OrderStatusLine(p: Parser, ph: Phase, ch: char)
    requires (InStatusLine(p.state)) && Fits(p, ph) && Typed(p) && p.errno.OK?
    ensures InOrderBy(p, ph, HandleStatusLine(p, ch), ch)
  {
    hide HandleStatusLine, Fits, Typed, InOrderBy;
    if p.state.ResHttpMajor? || p.state.ResFirstHttpMinor? || p.state.ResHttpMinor? {
      OrderVersion(p, ph, ch);
    } else if p.state.ResFirstStatusCode? || p.state.ResStatusCode? || p.state.ResStatus?
              || p.state.ResLineAlmostDone? {
      OrderStatus(p, ph, ch);
    } else {
      OrderProtocol(p, ph, ch);
    }
  }

  lemma OrderMethod(p: Parser, ph: Phase, ch: char)
    requires (p.state.ReqMethod?) && Fits(p, ph) && Typed(p) && p.errno.OK?
    ensures InOrderBy(p, ph, HandleMethod(p, ch), ch)
  {
  }

  lemma OrderUrlFirst(p: Parser, ph: Phase, ch: char)
    requires p.state.ReqSpacesBeforeUrl? && Fits(p, ph) && Typed(p) && p.errno.OK?
    ensures InOrderBy(p, ph, HandleUrl(p, ch), ch)
  {
    hide ParseUrlChar;
    UrlCharStays(if p.verb.CONNECT? then ReqServerStart else ReqSpacesBeforeUrl, ch);
  }

  lemma UrlFits(p: Parser, ph: Phase)
    requires InUrl(p.state)
    ensures Fits(p, ph) && Typed(p) <==> p.kind.Request? && ph.Urls? && !p.flags.trailing
  {
  }

  lemma OrderUrlBytes(p: Parser, ph: Phase, s: State, ch: char)
    requires InUrl(p.state) && Fits(p, ph) && Typed(p) && p.errno.OK? && (s.Dead? || InUrl(s))
    ensures InOrderBy(p, ph, UrlByte(p, s), ch) && InOrderBy(p, ph, Bad(p, InvalidUrl), ch)
  {
    hide Fits, Typed, InUrl;
    UrlFits(p, ph);
    if !s.Dead? {
      UrlFits(p.(state := s), ph);
      assert OpenKind(s) == Some(Url) by { UrlIsOpen(s); }
    }
  }

  lemma UrlIsOpen(s: State)
    requires InUrl(s)
    ensures OpenKind(s) == Some(Url)
  {
  }

  lemma OrderUrlEnd(p: Parser, ph: Phase, ch: char)
    requires InUrl(p.state) && Fits(p, ph) && Typed(p) && p.errno.OK? && (ch == ' ' || ch == CR || ch == LF)
    ensures InOrderBy(p, ph, HandleUrl(p, ch), ch)
  {
  }

  lemma OrderUrl(p: Parser, ph: Phase, ch: char)
    requires (p.state.ReqSpacesBeforeUrl? || InUrl(p.state)) && Fits(p, ph) && Typed(p) && p.errno.OK?
    ensures InOrderBy(p, ph, HandleUrl(p, ch), ch)
  {
    hide InOrderBy, Fits, Typed, UrlByte, Bad, ParseUrlChar;
    if p.state.ReqSpacesBeforeUrl? {
      OrderUrlFirst(p, ph, ch);
    } else if ch == ' ' || ch == CR || ch == LF {
      OrderUrlEnd(p, ph, ch);
    } else {
      UrlCharStays(p.state, ch);
      OrderUrlBytes(p, ph, ParseUrlChar(p.state, ch), ch);
    }
  }

  lemma OrderRequestVersion(p: Parser, ph: Phase, ch: char)
    requires (InRequestVersion(p.state)) && Fits(p, ph) && Typed(p) && p.errno.OK?
    ensures InOrderBy(p, ph, HandleRequestVersion(p, ch), ch)
  {
  }

  // ---------------------------------------------------------------- after the first line

  predicate InLine(s: State) {
    s.HeaderField? || s.HeaderValueStart? || s.HeaderValue? || s.HeaderAlmostDone? || s.HeaderValueLws?
  }

  predicate BetweenLines(s: State) {
    s.HeaderFieldStart? || s.HeadersAlmostDone?
  }

  predicate AfterHeaders(s: State) {
    s.HeadersDone? || InBody(s) || InChunk(s)
  }

  /** What `Fits` and `Typed` say about the states after the first line. */
  predicate FitsTail(p: Parser, ph: Phase) {
    && !p.kind.Both?
    && if InLine(p.state) then (if p.flags.trailing then ph.Trailers? else ph.Headers?)
       else if BetweenLines(p.state) then
         if p.flags.trailing then ph.Bodies? || ph.Trailers?
         else ph.Headers? || (if p.kind.Request? then ph.Urls? else ph.Begun?)
       else AfterHeaders(p.state) && ph.Bodies? && (p.state.HeadersDone? ==> !p.flags.trailing)
  }

  lemma TailFits(p: Parser, ph: Phase)
    requires InLine(p.state) || BetweenLines(p.state) || AfterHeaders(p.state)
    ensures FitsTail(p, ph) <==> Fits(p, ph) && Typed(p)
  {
  }

  predicate InOrderTail(p: Parser, ph: Phase, o: Out, ch: char) {
    var es := PassEvents(o, ch);
    var next := if es == [] then Some(ph) else Next(p.kind.Request?, ph, es[0]);
    && |es| <= 1 && next.Some? && o.p.kind == p.kind
    && (!o.next.Fail? ==> FitsTail(o.p, next.value))
  }

  lemma TailInOrder(p: Parser, ph: Phase, o: Out, ch: char)
    requires InOrderTail(p, ph, o, ch)
    ensures InOrderBy(p, ph, o, ch)
  {
    hide Next, Fits, Typed, PassEvents;
    if !o.next.Fail? {
      var es := PassEvents(o, ch);
      TailFits(o.p, if es == [] then ph else Next(p.kind.Request?, ph, es[0]).value);
    }
  }

  lemma OrderFieldStart(p: Parser, ph: Phase, ch: char)
    requires p.state.HeaderFieldStart? && FitsTail(p, ph)
    ensures InOrderTail(p, ph, HandleField(p, ch), ch)
  {
    hide Token, FirstFieldState;
  }

  lemma OrderFieldBytes(p: Parser, ph: Phase, ch: char)
    requires p.state.HeaderField? && FitsTail(p, ph)
    ensures InOrderTail(p, ph, HandleField(p, ch), ch)
  {
    hide Token, MatchField;
    MatchFieldFrame(p, Token(ch));
  }

  lemma OrderField(p: Parser, ph: Phase, ch: char)
    requires (p.state.HeaderFieldStart? || p.state.HeaderField?) && Fits(p, ph) && Typed(p) && p.errno.OK?
    ensures InOrderBy(p, ph, HandleField(p, ch), ch)
  {
    hide HandleField, InOrderBy, InOrderTail, Fits, Typed, FitsTail;
    TailFits(p, ph);
    if p.state.HeaderFieldStart? {
      OrderFieldStart(p, ph, ch);
    } else {
      OrderFieldBytes(p, ph, ch);
    }
    TailInOrder(p, ph, HandleField(p, ch), ch);
  }

  /** What a value byte cannot change. */
  predicate ValueFrame(p: Parser, o: Out) {
    && o == Out(o.p, None, None, [], o.next) && !o.next.Again?
    && o.p.state == p.state && o.p.kind == p.kind && o.p.flags.trailing == p.flags.trailing
  }

  lemma FirstValueFrame(p: Parser, ch: char)
    ensures ValueFrame(p, FirstValueByte(p, ch))
  {
    hide Lower;
  }

  lemma NextValueFrame(p: Parser, ch: char)
    ensures ValueFrame(p, NextValueByte(p, ch))
  {
    hide Lower, MatchLiteral, Accumulate;
    MatchLiteralFrame(p, Lower(ch), "chunked", Chunked);
    MatchLiteralFrame(p, Lower(ch), "keep-alive", KeepAlive);
    MatchLiteralFrame(p, Lower(ch), "close", Close);
  }

  lemma OrderValueStart(p: Parser, ph: Phase, ch: char)
    requires p.state.HeaderValueStart? && FitsTail(p, ph)
    ensures InOrderTail(p, ph, HandleValue(p, ch), ch)
  {
    hide FirstValueByte;
    FirstValueFrame(p.(index := 0, state := HeaderValue), ch);
  }

  lemma OrderValueBytes(p: Parser, ph: Phase, ch: char)
    requires p.state.HeaderValue? && FitsTail(p, ph)
    ensures InOrderTail(p, ph, HandleValue(p, ch), ch)
  {
    hide NextValueByte;
    NextValueFrame(p, ch);
  }

  lemma OrderValueEnd(p: Parser, ph: Phase, ch: char)
    requires (p.state.HeaderAlmostDone? || p.state.HeaderValueLws?) && FitsTail(p, ph)
    ensures InOrderTail(p, ph, HandleValue(p, ch), ch)
  {
  }

  lemma OrderValue(p: Parser, ph: Phase, ch: char)
    requires InValue(p.state) && Fits(p, ph) && Typed(p) && p.errno.OK?
    ensures InOrderBy(p, ph, HandleValue(p, ch), ch)
  {
    hide HandleValue, InOrderBy, InOrderTail, Fits, Typed, FitsTail;
    TailFits(p, ph);
    if p.state.HeaderValueStart? {
      OrderValueStart(p, ph, ch);
    } else if p.state.HeaderValue? {
      OrderValueBytes(p, ph, ch);
    } else {
      OrderValueEnd(p, ph, ch);
    }
    TailInOrder(p, ph, HandleValue(p, ch), ch);
  }

  lemma FinishedState(cb: Callbacks, p: Parser)
    requires Typed(p)
    ensures var q := Finish(cb, p).p; q.kind == p.kind && !q.kind.Both? && (q.state.Dead? || q.state == StartState(q))
  {
    hide ShouldKeepAlive;
  }

  lemma IdleFits(q: Parser)
    requires !q.kind.Both? && (q.state.Dead? || q.state == StartState(q))
    ensures Fits(q, Idle) && Typed(q)
  {
  }

  lemma OrderFinish(cb: Callbacks, p: Parser, ph: Phase, ch: char)
    requires (ph.Bodies? || ph.Trailers?) && Typed(p) && p.errno.OK?
    ensures InOrderBy(p, ph, Finish(cb, p), ch)
  {
    hide Finish, Fits, Typed;
    FinishAdvances(cb, p);
    FinishedState(cb, p);
    IdleFits(Finish(cb, p).p);
    assert [] + [Complete] == [Complete];
  }

  lemma OrderHeadersAlmostDone(cb: Callbacks, p: Parser, ph: Phase)
    requires p.state.HeadersAlmostDone? && FitsTail(p, ph) && !p.flags.trailing
    ensures InOrderTail(p, ph, HandleHeadersEnd(cb, p, LF), LF)
  {
    hide InfoOf;
  }

  lemma OrderGo(p: Parser, ph: Phase, s: State, ch: char)
    requires p.state.HeadersDone? && FitsTail(p, ph) && (s.BodyIdentity? || s.BodyIdentityEof? || s.ChunkSizeStart?)
    ensures InOrderBy(p, ph, Go(p.(state := s)), ch)
  {
    hide InOrderBy;
    TailInOrder(p, ph, Go(p.(state := s)), ch);
  }

  lemma OrderBad(p: Parser, ph: Phase, ch: char)
    ensures InOrderBy(p, ph, Bad(p, Strict), ch)
  {
  }

  lemma OrderHeadersDone(cb: Callbacks, p: Parser, ph: Phase)
    requires p.state.HeadersDone? && FitsTail(p, ph) && p.errno.OK?
    ensures InOrderBy(p, ph, HandleHeadersEnd(cb, p, LF), LF)
  {
    hide HandleHeadersEnd, NeedsEof, Finish, InOrderBy, Go;
    var q := p.(nread := 0);
    HeadersDoneCases(cb, p);
    TailFits(q, ph);
    OrderFinish(cb, q, ph, LF);
    OrderGo(q, ph, BodyIdentity, LF);
    OrderGo(q, ph, BodyIdentityEof, LF);
    OrderGo(q, ph, ChunkSizeStart, LF);
    SameOrder(q, p, ph, HandleHeadersEnd(cb, p, LF), LF);
  }

  lemma SameOrder(p: Parser, q: Parser, ph: Phase, o: Out, ch: char)
    requires InOrderBy(p, ph, o, ch) && p.kind == q.kind
    ensures InOrderBy(q, ph, o, ch)
  {
  }

  lemma OrderHeadersEnd(cb: Callbacks, p: Parser, ph: Phase, ch: char)
    requires (p.state.HeadersAlmostDone? || p.state.HeadersDone?) && Fits(p, ph) && Typed(p) && p.errno.OK?
    ensures InOrderBy(p, ph, HandleHeadersEnd(cb, p, ch), ch)
  {
    hide HandleHeadersEnd, InOrderBy, InOrderTail, Fits, Typed, Finish, Bad;
    TailFits(p, ph);
    HeadersEndCases(cb, p, ch);
    if ch != LF {
      OrderBad(p, ph, ch);
    } else if p.state.HeadersDone? {
      OrderHeadersDone(cb, p, ph);
    } else if p.flags.trailing {
      OrderFinish(cb, p, ph, ch);
    } else {
      OrderHeadersAlmostDone(cb, p, ph);
      TailInOrder(p, ph, HandleHeadersEnd(cb, p, LF), LF);
    }
  }

  lemma OrderBodyBytes(cb: Callbacks, p: Parser, ph: Phase, ch: char)
    requires (p.state.BodyIdentity? || p.state.BodyIdentityEof?) && FitsTail(p, ph)
    ensures InOrderTail(p, ph, HandleBody(cb, p), ch)
  {
    hide Decrement;
  }

  lemma OrderBody(cb: Callbacks, p: Parser, ph: Phase, ch: char)
    requires InBody(p.state) && Fits(p, ph) && Typed(p) && p.errno.OK?
    ensures InOrderBy(p, ph, HandleBody(cb, p), ch)
  {
    hide InOrderBy, InOrderTail, Finish, Decrement, Typed, Fits;
    TailFits(p, ph);
    if p.state.MessageDone? {
      OrderFinish(cb, p, ph, ch);
    } else {
      OrderBodyBytes(cb, p, ph, ch);
      TailInOrder(p, ph, HandleBody(cb, p), ch);
    }
  }

  lemma OrderChunkSize(p: Parser, ph: Phase, ch: char)
    requires p.state.ChunkSizeStart? || p.state.ChunkSize? || p.state.ChunkParameters?
    requires FitsTail(p, ph)
    ensures InOrderTail(p, ph, HandleChunk(p, ch), ch)
  {
    hide Unhex, Accumulate;
  }

  lemma OrderChunkData(p: Parser, ph: Phase, ch: char)
    requires p.state.ChunkSizeAlmostDone? || p.state.ChunkData? || p.state.ChunkDataAlmostDone?
             || p.state.ChunkDataDone?
    requires FitsTail(p, ph)
    ensures InOrderTail(p, ph, HandleChunk(p, ch), ch)
  {
    hide Decrement;
  }

  lemma OrderChunk(p: Parser, ph: Phase, ch: char)
    requires InChunk(p.state) && Fits(p, ph) && Typed(p) && p.errno.OK?
    ensures InOrderBy(p, ph, HandleChunk(p, ch), ch)
  {
    hide HandleChunk, InOrderBy, InOrderTail, Fits, Typed, FitsTail;
    TailFits(p, ph);
    if p.state.ChunkSizeStart? || p.state.ChunkSize? || p.state.ChunkParameters? {
      OrderChunkSize(p, ph, ch);
    } else {
      OrderChunkData(p, ph, ch);
    }
    TailInOrder(p, ph, HandleChunk(p, ch), ch);
  }

  lemma OrderHandle(cb: Callbacks, p: Parser, ph: Phase, ch: char)
    requires Fits(p, ph) && Typed(p) && p.errno.OK?
    ensures InOrder(p, ph, Handle(cb, p, ch), ch)
  {
    hide HandleStart, HandleStatusLine, HandleMethod, HandleUrl, HandleRequestVersion, HandleField,
      HandleValue, HandleHeadersEnd, HandleBody, HandleChunk, InOrder, InOrderBy, Fits, Typed;
    if InStart(p.state) {
      OrderStart(p, ph, ch);
      OneCallback(p, ph, HandleStart(p, ch), ch);
    } else if InStatusLine(p.state) {
      OrderStatusLine(p, ph, ch);
      OneCallback(p, ph, HandleStatusLine(p, ch), ch);
    } else if p.state.ReqMethod? {
      OrderMethod(p, ph, ch);
      OneCallback(p, ph, HandleMethod(p, ch), ch);
    } else if p.state.ReqSpacesBeforeUrl? || InUrl(p.state) {
      OrderUrl(p, ph, ch);
      OneCallback(p, ph, HandleUrl(p, ch), ch);
    } else if InRequestVersion(p.state) {
      OrderRequestVersion(p, ph, ch);
      OneCallback(p, ph, HandleRequestVersion(p, ch), ch);
    } else if p.state.HeaderFieldStart? || p.state.HeaderField? {
      OrderField(p, ph, ch);
      OneCallback(p, ph, HandleField(p, ch), ch);
    } else if InValue(p.state) {
      OrderValue(p, ph, ch);
      OneCallback(p, ph, HandleValue(p, ch), ch);
    } else if p.state.HeadersAlmostDone? || p.state.HeadersDone? {
      OrderHeadersEnd(cb, p, ph, ch);
      OneCallback(p, ph, HandleHeadersEnd(cb, p, ch), ch);
    } else if InBody(p.state) {
      OrderBody(cb, p, ph, ch);
      OneCallback(p, ph, HandleBody(cb, p), ch);
    } else {
      OrderChunk(p, ph, ch);
      OneCallback(p, ph, HandleChunk(p, ch), ch);
    }
  }

  // ---------------------------------------------------------------- bytes and runs

  lemma OrderPasses(cb: Callbacks, p: Parser, ph: Phase, ch: char)
    requires Fits(p, ph) && Typed(p) && p.errno.OK?
    ensures var s := Passes(cb, p, ch);
            var next := After(p.kind.Request?, ph, s.events);
            next.Some? && s.p.kind == p.kind && (s.next.Advance? ==> Fits(s.p, next.value) && Typed(s.p))
    decreases Rank(p.state)
  {
    hide Handle, Fits, Typed, PassEvents;
    OrderHandle(cb, p, ph, ch);
    var o := Handle(cb, p, ch);
    if o.next.Again? {
      var ph' := After(p.kind.Request?, ph, PassEvents(o, ch)).value;
      OrderPasses(cb, o.p, ph', ch);
      AfterConcat(p.kind.Request?, ph, PassEvents(o, ch), Passes(cb, o.p, ch).events);
    }
  }

  lemma OrderCounted(p: Parser, ph: Phase)
    requires Fits(p, ph) && Typed(p)
    ensures Fits(Counted(p), ph) && Typed(Counted(p)) && Counted(p).kind == p.kind && Counted(p).errno == p.errno
  {
  }

  lemma OrderByte(cb: Callbacks, p: Parser, ph: Phase, ch: char)
    requires Fits(p, ph) && Typed(p) && p.errno.OK?
    ensures var s := Byte(cb, p, ch);
            var next := After(p.kind.Request?, ph, s.events);
            next.Some? && s.p.kind == p.kind && (s.next.Advance? ==> Fits(s.p, next.value) && Typed(s.p))
  {
    hide Passes, Fits, Typed;
    OrderCounted(p, ph);
    OrderPasses(cb, Counted(p), ph, ch);
  }

  /** The callback grammar, for every run of a parser whose type is settled, errors included. */
  lemma {:induction false} OrderRun(cb: Callbacks, p: Parser, ph: Phase, data: string)
    requires Fits(p, ph) && Typed(p)
    ensures var r := Run(cb, p, data);
            var next := After(p.kind.Request?, ph, r.events);
            && next.Some? && r.p.kind == p.kind
            && (r.p.errno.OK? || r.p.errno.Paused? ==> Fits(r.p, next.value) && Typed(r.p))
    decreases |data|
  {
    hide Byte, Fits, Typed;
    if data != [] && p.errno.OK? {
      var s := Byte(cb, p, data[0]);
      OrderByte(cb, p, ph, data[0]);
      FailSetsErrno(cb, p, data[0]);
      if s.next.Advance? {
        var ph' := After(p.kind.Request?, ph, s.events).value;
        OrderRun(cb, s.p, ph', data[1..]);
        AfterConcat(p.kind.Request?, ph, s.events, Run(cb, s.p, data[1..]).events);
      }
    }
  }

  /** And for the end of the stream after it. */
  lemma OrderEof(cb: Callbacks, p: Parser, ph: Phase)
    requires Fits(p, ph) && Typed(p)
    ensures After(p.kind.Request?, ph, Eof(cb, p).events).Some?
  {
    AfterOne(p.kind.Request?, ph, Complete);
  }

  lemma EofFits(cb: Callbacks, p: Parser, ph: Phase)
    requires Fits(p, ph) && Typed(p) && p.errno.OK?
    ensures var r := Eof(cb, p);
            && (ph.Idle? ==> r == Ran(p, [], 0))
            && (ph.Urls? || ph.Headers? || ph.Trailers? || (ph.Begun? && p.kind.Request?) ==>
                  r.p.errno == InvalidEofState && r.events == [])
            && (ph.Begun? && p.kind.Response? ==> r.events == [] && (r.p.errno.OK? <==> p.state.StartRes?))
            && (ph.Bodies? ==> if p.state.BodyIdentityEof? then r.events == [Complete]
                               else r.p.errno == InvalidEofState && r.events == [])
  {
  }

  /** The end of the stream, after any input that was accepted so far, is judged by what was reported: between
      messages it is accepted; inside the URL, the headers or the trailer of a message, and in a body with a length
      or in chunks, it is an error; and a body that runs to the end of the stream is complete. */
  lemma EofByPhase(cb: Callbacks, t: Type, data: string)
    requires !t.Both? && Run(cb, Init(t), data).p.errno.OK?
    ensures var p := Run(cb, Init(t), data).p;
            var next := After(t.Request?, Idle, Run(cb, Init(t), data).events);
            var r := Eof(cb, p);
            && next.Some?
            && match next.value
               case Idle => r == Ran(p, [], 0)
               case Begun => r.events == [] && (r.p.errno.OK? <==> p.state.StartRes?)
               case Bodies => if p.state.BodyIdentityEof? then r.events == [Complete]
                              else r.p.errno == InvalidEofState && r.events == []
               case _ => r.p.errno == InvalidEofState && r.events == []
  {
    hide Run, Fits, Typed, Eof;
    OrderInit(t);
    OrderRun(cb, Init(t), Idle, data);
    var p := Run(cb, Init(t), data).p;
    var ph := After(t.Request?, Idle, Run(cb, Init(t), data).events).value;
    InitKind(t);
    EofFits(cb, p, ph);
    if ph.Begun? && p.kind.Request? {
      RequestNeverWaits(p, ph);
    }
  }

  lemma RequestNeverWaits(p: Parser, ph: Phase)
    requires Fits(p, ph) && Typed(p) && ph.Begun? && p.kind.Request?
    ensures !p.state.StartRes?
  {
  }

  lemma InitKind(t: Type)
    ensures Init(t).kind == t
  {
  }

  /** A second call without bytes keeps the order too, if and only if the first did not end a body that runs
      to the end of the stream without pausing the parser: that body is reported complete every time. */
  lemma EofTwice(cb: Callbacks, p: Parser, ph: Phase)
    requires Fits(p, ph) && Typed(p)
    ensures var first := Eof(cb, p);
            After(p.kind.Request?, ph, first.events + Eof(cb, first.p).events).Some?
            <==> !(p.state.BodyIdentityEof? && p.errno.OK? && !cb.pauses)
  {
    var first := Eof(cb, p);
    AfterOne(p.kind.Request?, ph, Complete);
    AfterOne(p.kind.Request?, Idle, Complete);
    AfterConcat(p.kind.Request?, ph, first.events, Eof(cb, first.p).events);
  }

  /** Every response that announces neither a length nor chunks gets there. */
  lemma OpenResponseTwice(major: nat, minor: nat, status: nat, reason: string, hs: seq<Header>, body: string)
    requires Readable(Init(Response), major, minor, status, reason, hs) && !BodilessStatus(status)
    requires var f := FramingOfLines(hs);
             !f.flags.chunked && !f.flags.upgrade && f.contentLength == ULLONG_MAX
    ensures var cb := BackendCallbacks(false);
            var r := Run(cb, Init(Response), Head(major, minor, status, reason, hs) + body);
            && Eof(cb, r.p) == Ran(r.p, [Complete], 0)
            && After(false, Idle, r.events + [Complete]) == Some(Idle)
            && After(false, Idle, r.events + [Complete, Complete]) == None
  {
    hide Run, Head, FramingOfLines, Readable, Next, Fits, Typed;
    var cb := BackendCallbacks(false);
    var w := Head(major, minor, status, reason, hs) + body;
    OpenResponse(Init(Response), major, minor, status, reason, hs, body);
    OrderInit(Response);
    OrderRun(cb, Init(Response), Idle, w);
    var r := Run(cb, Init(Response), w);
    var ph := After(false, Idle, r.events).value;
    OpenBody(r.p, ph);
    AfterOne(false, ph, Complete);
    AfterOne(false, Idle, Complete);
    AfterConcat(false, Idle, r.events, [Complete]);
    AfterConcat(false, Idle, r.events, [Complete, Complete]);
    AfterConcat(false, ph, [Complete], [Complete]);
    assert [Complete] + [Complete] == [Complete, Complete];
  }

  lemma OpenBody(p: Parser, ph: Phase)
    requires Fits(p, ph) && p.state.BodyIdentityEof?
    ensures ph == Bodies && Next(false, ph, Complete) == Some(Idle) && Next(false, Idle, Complete) == None
  {
  }

  /** The shortest of them: a status line and an empty line. */
  lemma OpenExample()
    ensures Readable(Init(Response), 1, 0, 200, "OK", []) && !BodilessStatus(200)
    ensures FramingOfLines([]) == Framing(NoFlags, ULLONG_MAX)
  {
    hide DecOf;
    ShortNumbers();
  }

  lemma ShortNumbers()
    ensures |DecOf(0)| == |DecOf(1)| == 1 && |DecOf(200)| == 3
  {
    assert DecOf(200) == DecOf(20) + [LastDigit(200)];
    assert DecOf(20) == DecOf(2) + [LastDigit(20)];
  }

  /** A new request or response parser is between messages. */
  lemma OrderInit(t: Type)
    requires !t.Both?
    ensures Fits(Init(t), Idle) && Typed(Init(t))
  {
  }

  // ---------------------------------------------------------------- parsers of either type

  /** A parser that does not know yet whether it reads requests or responses. */
  predicate Settling(p: Parser, ph: Phase) {
    p.kind.Both? && (if p.state.ResOrRespH? then ph.Begun? && !p.flags.trailing else p.state.StartReqOrRes? && ph.Idle?)
  }

  /** One byte of such a parser: it is settled, or goes on, or fails, and the trace is in order for the type
      it then has. */
  lemma SettlingByte(cb: Callbacks, p: Parser, ph: Phase, ch: char)
    requires Settling(p, ph) && p.errno.OK?
    ensures var s := Byte(cb, p, ch);
            var next := After(s.p.kind.Request?, ph, s.events);
            && next.Some?
            && (s.next.Advance? ==>
                  if s.p.kind.Both? then Settling(s.p, next.value) else Fits(s.p, next.value) && Typed(s.p))
            && (s.events == [] || (ph.Idle? && s.events == [Begin]))
  {
    hide Passes;
    var q := Counted(p);
    AfterOne(true, ph, Begin);
    AfterOne(false, ph, Begin);
    if !(q.nread > MAX_HEADER_SIZE) {
      SettlingPasses(cb, q, ph, ch);
    }
  }

  predicate SettlesTo(s: Step, ph: Phase) {
    && (s.events == [] || (ph.Idle? && s.events == [Begin]))
    && (s.next.Advance? ==>
          var next := if s.events == [] then ph else Begun;
          if s.p.kind.Both? then Settling(s.p, next) else Fits(s.p, next) && Typed(s.p))
  }

  lemma SettlingH(cb: Callbacks, p: Parser, ph: Phase, ch: char)
    requires Settling(p, ph) && p.errno.OK? && p.state.ResOrRespH?
    ensures SettlesTo(Passes(cb, p, ch), ph)
  {
    hide Handle;
    InStartPart(cb, p, ch);
  }

  lemma SettlingStart(cb: Callbacks, p: Parser, ph: Phase, ch: char)
    requires Settling(p, ph) && p.errno.OK? && p.state.StartReqOrRes?
    ensures SettlesTo(Passes(cb, p, ch), ph)
  {
    hide Handle, FirstLetter;
    InStartPart(cb, p, ch);
    var q := HandleStart(p, ch).p;
    if HandleStart(p, ch).next.Again? {
      InStartPart(cb, q, ch);
    }
  }

  lemma SettlingPasses(cb: Callbacks, p: Parser, ph: Phase, ch: char)
    requires Settling(p, ph) && p.errno.OK?
    ensures SettlesTo(Passes(cb, p, ch), ph)
  {
    hide Passes, SettlesTo;
    if p.state.ResOrRespH? {
      SettlingH(cb, p, ph, ch);
    } else {
      SettlingStart(cb, p, ph, ch);
    }
  }

  /** The callback grammar for every new parser, of whatever type; a parser of either type has the grammar of
      the type it is settled to. */
  lemma OrderNew(cb: Callbacks, t: Type, data: string)
    ensures var r := Run(cb, Init(t), data); After(r.p.kind.Request?, Idle, r.events).Some?
  {
    hide Run;
    if t.Both? {
      OrderSettling(cb, Init(t), Idle, data);
    } else {
      OrderInit(t);
      OrderRun(cb, Init(t), Idle, data);
    }
  }

  lemma {:induction false} OrderSettling(cb: Callbacks, p: Parser, ph: Phase, data: string)
    requires Settling(p, ph)
    ensures var r := Run(cb, p, data); After(r.p.kind.Request?, ph, r.events).Some?
    decreases |data|
  {
    hide Byte, Fits, Typed, Settling;
    if data != [] && p.errno.OK? {
      var s := Byte(cb, p, data[0]);
      SettlingByte(cb, p, ph, data[0]);
      FailSetsErrno(cb, p, data[0]);
      if s.next.Advance? {
        var r := Run(cb, s.p, data[1..]);
        if s.p.kind.Both? {
          BeginsEither(ph, s.events, r.p.kind.Request?, s.p.kind.Request?);
          OrderSettling(cb, s.p, After(s.p.kind.Request?, ph, s.events).value, data[1..]);
        } else {
          OrderRun(cb, s.p, After(s.p.kind.Request?, ph, s.events).value, data[1..]);
        }
        AfterConcat(r.p.kind.Request?, ph, s.events, r.events);
      }
    }
  }

  lemma BeginsEither(ph: Phase, es: seq<Event>, request: bool, other: bool)
    requires (es == [] || es == [Begin]) && (ph.Idle? || es == [])
    ensures After(request, ph, es) == After(other, ph, es)
  {
    AfterOne(request, ph, Begin);
    AfterOne(other, ph, Begin);
  }

  // ---------------------------------------------------------------- the callbacks as made

  lemma PendingAfter(request: bool, ph: Phase, t: seq<Event>, open: Option<Kind>, w: string)
    requires After(request, ph, Pending(t, open, w)).Some?
    ensures After(request, ph, t).Some?
  {
    hide Next;
    if open.Some? {
      AfterEmit(request, ph, t, Data(open.value, w));
    }
  }

  /** The grammar for the callbacks as http_parser_execute makes them, in whatever pieces: also after
      an error, which can cost the last data callback. */
  lemma CallsInOrder(cb: Callbacks, t: Type, data: string, calls: seq<Event>, open: Option<Kind>, w: string)
    requires Pending(Merge(calls), open, w) == EmitAll([], Run(cb, Init(t), data).events)
    ensures After(Run(cb, Init(t), data).p.kind.Request?, Idle, calls).Some?
  {
    hide Run, EmitAll, Next, Pending;
    var r := Run(cb, Init(t), data);
    var request := r.p.kind.Request?;
    OrderNew(cb, t, data);
    AfterMerge(request, Idle, [], r.events);
    PendingAfter(request, Idle, Merge(calls), open, w);
    AfterMerge(request, Idle, [], calls);
  }

  // ---------------------------------------------------------------- no value without a name

  /** A header list is in use whenever a value can come. */
  predicate Named(a: Assembly, ph: Phase) {
    ph.Headers? || ph.Trailers? ==> a.headers != []
  }

  lemma NamedNext(request: bool, a: Assembly, ph: Phase, e: Event)
    requires Named(a, ph) && Next(request, ph, e).Some?
    ensures Named(OnEvent(a, e), Next(request, ph, e).value)
    ensures e.Data? && e.kind.Value? ==> a.headers != []
  {
  }

  lemma {:induction false} NamedAfter(request: bool, calls: seq<Event>)
    requires After(request, Idle, calls).Some?
    ensures Named(OnEvents(EMPTY, calls), After(request, Idle, calls).value)
    decreases |calls|
  {
    hide Next, OnEvent;
    if calls != [] {
      var t := calls[..|calls| - 1];
      NamedAfter(request, t);
      NamedNext(request, OnEvents(EMPTY, t), After(request, Idle, t).value, calls[|calls| - 1]);
    }
  }

  /** The assembly code never sets or extends the value of a header that is not there: when a value
      callback is made, the header list is not empty. */
  lemma ValueHasName(request: bool, calls: seq<Event>, i: nat)
    requires After(request, Idle, calls).Some? && i < |calls| && calls[i].Data? && calls[i].kind.Value?
    ensures OnEvents(EMPTY, calls[..i]).headers != []
  {
    hide Next, OnEvent;
    assert calls == calls[..i] + calls[i..];
    AfterConcat(request, Idle, calls[..i], calls[i..]);
    var t := calls[..i + 1];
    assert calls == t + calls[i + 1..];
    AfterConcat(request, Idle, t, calls[i + 1..]);
    assert t[..i] == calls[..i];
    NamedAfter(request, calls[..i]);
    NamedNext(request, OnEvents(EMPTY, calls[..i]), After(request, Idle, calls[..i]).value, calls[i]);
  }
}
