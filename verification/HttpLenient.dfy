/**
 What else the parser accepts: line ends in front of messages, more or fewer blanks than usual, requests without a
 version, status lines without a reason, header lines without a colon; and how a parser for both kinds of messages
 finds out which it has.
 */
module HttpLenient {
  import opened HttpTypes
  import opened HttpSwitch
  import opened HttpRun
  import opened HttpBytes
  import opened HttpNumbers
  import opened HttpMatcher
  import opened HttpHeaders
  import opened HttpLines
  import opened HttpFolds
  import opened HttpResponse
  import opened HttpMethod
  import opened HttpRequest
  import opened UrlTarget

  // ---------------------------------------------------------------- line ends in front of a message

  predicate AreLineEnds(w: string) { forall i :: 0 <= i < |w| ==> w[i] == CR || w[i] == LF }

  lemma StartByte(cb: Callbacks, p: Parser, c: char)
    requires InStart(p.state) && p.errno.OK? && Room(p, 1) && !p.state.StartReqOrRes?
    ensures var o := HandleStart(Counted(p), c);
            && !o.next.Again?
            && (o.next.Advance? ==> Run(cb, p, [c]) == Ran(o.p, o.note, 1))
            && (o.next.Fail? ==> Run(cb, p, [c]) == Ran(o.p, o.note, 0))
  {
    hide Byte, Run, Handle;
    OnePass(cb, p, c);
    InStartPart(cb, Counted(p), c);
    RunOne(cb, p, c);
  }

  function Begins(n: nat): seq<Event> { if n == 0 then [] else [Begin] + Begins(n - 1) }

  /** The parser behind line ends at the start of a message. */
  function PastLineEnds(p: Parser, n: nat): Parser {
    if p.state.StartRes? && n > 0 then p.(nread := p.nread + n, flags := NoFlags, contentLength := ULLONG_MAX)
    else p.(nread := p.nread + n)
  }

  predicate BetweenMessages(p: Parser) { (p.state.StartReq? || p.state.StartRes? || p.state.Dead?) && p.errno.OK? }

  lemma LineEndByte(cb: Callbacks, p: Parser, c: char)
    requires BetweenMessages(p) && Room(p, 1) && (c == CR || c == LF)
    ensures Run(cb, p, [c]) == Ran(PastLineEnds(p, 1), if p.state.StartRes? then [Begin] else [], 1)
  {
    hide Run;
    StartByte(cb, p, c);
  }

  lemma PastMore(p: Parser, n: nat)
    requires BetweenMessages(p)
    ensures var q := PastLineEnds(p, 1); BetweenMessages(q) && PastLineEnds(q, n) == PastLineEnds(p, n + 1)
    ensures var q := PastLineEnds(p, 1); q.nread == p.nread + 1 && q.state == p.state
  {
  }

  /** Line ends in front of a message are skipped, but a parser for responses reports a beginning for each. */
  lemma {:induction false} LineEndsRun(cb: Callbacks, p: Parser, w: string)
    requires BetweenMessages(p) && Room(p, |w|) && AreLineEnds(w)
    ensures Run(cb, p, w) == Ran(PastLineEnds(p, |w|), if p.state.StartRes? then Begins(|w|) else [], |w|)
    decreases |w|
  {
    hide Run, PastLineEnds;
    if w == [] {
      RunStopped(cb, p, []);
      NoLineEnds(p);
    } else {
      LineEndByte(cb, p, w[0]);
      PastMore(p, |w| - 1);
      LineEndsRun(cb, PastLineEnds(p, 1), w[1..]);
      RunConcat(cb, p, [w[0]], w[1..]);
      assert w == [w[0]] + w[1..];
    }
  }

  lemma NoLineEnds(p: Parser)
    ensures PastLineEnds(p, 0) == p
  {
  }

  /** After a message that ends its connection, anything else is refused. */
  lemma ClosedByte(cb: Callbacks, p: Parser, c: char)
    requires p.state.Dead? && p.errno.OK? && Room(p, 1) && c != CR && c != LF
    ensures var r := Run(cb, p, [c]); r.p.errno == ClosedConnection && r.events == [] && r.count == 0
  {
    hide Run;
    StartByte(cb, p, c);
  }

  // ---------------------------------------------------------------- which kind of message

  lemma UndecidedByte(cb: Callbacks, p: Parser, c: char)
    requires p.state.StartReqOrRes? && p.errno.OK? && Room(p, 1) && c != CR && c != LF && c != 'H'
    ensures Run(cb, p, [c]) == Run(cb, p.(kind := Request, state := StartReq), [c])
  {
    hide Byte, Run, Handle;
    var q := p.(kind := Request, state := StartReq);
    TwoPasses(cb, p, c);
    InStartPart(cb, Counted(p), c);
    InStartPart(cb, Counted(p).(flags := NoFlags, contentLength := ULLONG_MAX, kind := Request, state := StartReq), c);
    OnePass(cb, q, c);
    InStartPart(cb, Counted(q), c);
    RunOne(cb, p, c);
    RunOne(cb, q, c);
  }

  lemma UndecidedH(cb: Callbacks, p: Parser)
    requires p.state.StartReqOrRes? && p.errno.OK? && Room(p, 1)
    ensures Run(cb, p, ['H']) ==
            Ran(p.(nread := p.nread + 1, flags := NoFlags, contentLength := ULLONG_MAX, state := ResOrRespH),
                [Begin], 1)
  {
    hide Byte, Run, Handle;
    OnePass(cb, p, 'H');
    InStartPart(cb, Counted(p), 'H');
    RunOne(cb, p, 'H');
  }

  lemma HeadOfRequest(cb: Callbacks, p: Parser)
    requires p.state.StartReq? && p.errno.OK? && Room(p, 2)
    ensures Run(cb, p, "HE") == Ran(p.(nread := p.nread + 2, flags := NoFlags, contentLength := ULLONG_MAX,
                                       verb := HEAD, index := 2, state := ReqMethod), [Begin], 2)
  {
    hide Run;
    StartByte(cb, p, 'H');
    MethodByte(cb, p.(nread := p.nread + 1, flags := NoFlags, contentLength := ULLONG_MAX, verb := HEAD, index := 1,
                      state := ReqMethod), 'E');
    RunConcat(cb, p, "H", "E");
    assert "H" + "E" == "HE";
  }

  lemma HeadOfResponse(cb: Callbacks, p: Parser)
    requires p.state.StartRes? && p.errno.OK? && Room(p, 2)
    ensures Run(cb, p, "HT") == Ran(InStatus(p, 2, ResHT), [Begin], 2)
  {
    hide Run;
    BeginByte(cb, p);
    StatusByte(cb, InStatus(p, 1, ResH), 'T');
    RunConcat(cb, p, "H", "T");
    assert "H" + "T" == "HT";
  }

  lemma UndecidedTwo(cb: Callbacks, p: Parser, c: char)
    requires p.state.StartReqOrRes? && p.errno.OK? && Room(p, 2)
    ensures var r := Run(cb, p, ['H', c]);
            if c == 'T' then r == Run(cb, p.(kind := Response, state := StartRes), "HT")
            else if c == 'E' then r == Run(cb, p.(kind := Request, state := StartReq), "HE")
            else r.p.errno == InvalidConstant && r.count == 1
  {
    hide Run;
    UndecidedH(cb, p);
    var q := p.(nread := p.nread + 1, flags := NoFlags, contentLength := ULLONG_MAX, state := ResOrRespH);
    StartByte(cb, q, c);
    RunConcat(cb, p, ['H'], [c]);
    assert ['H'] + [c] == ['H', c];
    HeadOfRequest(cb, p.(kind := Request, state := StartReq));
    HeadOfResponse(cb, p.(kind := Response, state := StartRes));
  }

  /** A parser for both kinds of messages reads what starts with HT as a parser for responses does, and what starts
      with HE or another letter as a parser for requests does; it takes the kind from there. */
  lemma KindDecided(cb: Callbacks, p: Parser, w: string)
    requires p.state.StartReqOrRes? && p.errno.OK? && Room(p, 2) && |w| >= 2 && w[0] != CR && w[0] != LF
    ensures var asResponse := Run(cb, p.(kind := Response, state := StartRes), w);
            var asRequest := Run(cb, p.(kind := Request, state := StartReq), w);
            if w[0] != 'H' || w[1] == 'E' then Run(cb, p, w) == asRequest
            else if w[1] == 'T' then Run(cb, p, w) == asResponse
            else Run(cb, p, w).p.errno == InvalidConstant
  {
    hide Run;
    var req, res := p.(kind := Request, state := StartReq), p.(kind := Response, state := StartRes);
    if w[0] != 'H' {
      UndecidedByte(cb, p, w[0]);
      assert w == [w[0]] + w[1..];
      RunConcat(cb, p, [w[0]], w[1..]);
      RunConcat(cb, req, [w[0]], w[1..]);
    } else {
      UndecidedTwo(cb, p, w[1]);
      var a, b := ['H', w[1]], w[2..];
      assert w == a + b;
      RunConcat(cb, p, a, b);
      RunConcat(cb, req, a, b);
      RunConcat(cb, res, a, b);
      if w[1] != 'E' && w[1] != 'T' {
        RunStopped(cb, Run(cb, p, a).p, b);
      }
    }
  }

  // ---------------------------------------------------------------- blanks

  predicate AreSpaces(w: string) { forall i :: 0 <= i < |w| ==> w[i] == ' ' }

  /** The states that skip blanks. */
  predicate SkipsSpaces(s: State) { s.ReqSpacesBeforeUrl? || s.ReqHttpStart? || s.ResFirstStatusCode? }

  lemma SpaceByte(cb: Callbacks, p: Parser)
    requires SkipsSpaces(p.state) && p.errno.OK? && Room(p, 1)
    ensures Run(cb, p, [' ']) == Ran(p.(nread := p.nread + 1), [], 1)
  {
    hide Run;
    if p.state.ReqSpacesBeforeUrl? {
      UrlFirstByte(cb, p, ' ');
    } else if p.state.ReqHttpStart? {
      VersionByte(cb, p, ' ');
    } else {
      StatusByte(cb, p, ' ');
    }
  }

  /** In front of a URL, a version and a status any number of blanks are skipped. */
  lemma {:induction false} SpacesRun(cb: Callbacks, p: Parser, w: string)
    requires SkipsSpaces(p.state) && p.errno.OK? && Room(p, |w|) && AreSpaces(w)
    ensures Run(cb, p, w) == Ran(p.(nread := p.nread + |w|), [], |w|)
    decreases |w|
  {
    hide Run;
    if w == [] {
      RunStopped(cb, p, []);
    } else {
      SpaceByte(cb, p);
      SpacesRun(cb, p.(nread := p.nread + 1), w[1..]);
      RunConcat(cb, p, [' '], w[1..]);
      assert w == [' '] + w[1..];
    }
  }

  // ---------------------------------------------------------------- requests without a version

  lemma ShortEnd(cb: Callbacks, p: Parser, c: char)
    requires InUrl(p.state) && EndsUrl(p.state) && p.errno.OK? && Room(p, 1) && (c == CR || c == LF)
    ensures Run(cb, p, [c]) ==
            Ran(p.(nread := p.nread + 1, httpMajor := 0, httpMinor := 9,
                   state := if c == CR then ReqLineAlmostDone else HeaderFieldStart), [], 1)
  {
    hide Byte, Run, Handle, ParseUrlChar;
    OnePass(cb, p, c);
    InUrlPart(cb, Counted(p), c);
    RunOne(cb, p, c);
  }

  predicate IsLineEnd(w: string) { w == CRLF || w == [LF] }

  lemma ShortLineEnd(cb: Callbacks, p: Parser, end: string)
    requires InUrl(p.state) && EndsUrl(p.state) && p.errno.OK? && Room(p, |end|) && IsLineEnd(end)
    ensures Run(cb, p, end) ==
            Ran(p.(nread := p.nread + |end|, httpMajor := 0, httpMinor := 9, state := HeaderFieldStart), [], |end|)
  {
    hide Run;
    ShortEnd(cb, p, end[0]);
    if end == CRLF {
      VersionByte(cb, p.(nread := p.nread + 1, httpMajor := 0, httpMinor := 9, state := ReqLineAlmostDone), LF);
      RunConcat(cb, p, [CR], [LF]);
      assert CRLF == [CR] + [LF];
    }
  }

  /** A URL with a line end behind it: a request of HTTP/0.9, whose headers may follow. */
  lemma ShortUrlRun(cb: Callbacks, p: Parser, url: string, end: string)
    requires AtUrl(p) && IsTarget(url, p.verb.CONNECT?) && IsLineEnd(end) && Room(p, |url + end|)
    ensures Run(cb, p, url + end) ==
            Ran(p.(nread := p.nread + |url + end|, httpMajor := 0, httpMinor := 9, state := HeaderFieldStart),
                Bytewise(Url, url), |url + end|)
  {
    hide Run, ParseUrlChar, Bytewise, IsTarget, NoBlank, EndsUrl;
    TargetNotEmpty(url, p.verb.CONNECT?);
    TargetNoBlank(url, p.verb.CONNECT?);
    TargetExactly(url, p.verb.CONNECT?);
    EndsInUrl(HttpUrl.StateAt(url, p.verb.CONNECT?, |url|));
    UrlRun(cb, p, url, |url|);
    assert url[..|url|] == url;
    ShortLineEnd(cb, InUrlAt(p, url, |url|), end);
    RunConcat(cb, p, url, end);
    assert Bytewise(Url, url) + [] == Bytewise(Url, url);
  }

  lemma EndsInUrl(s: State)
    requires EndsUrl(s)
    ensures InUrl(s) && !s.Dead?
  {
  }

  // ---------------------------------------------------------------- a whole request line

  /** A request line with any blanks, and with a version or none. */
  function LooseLine(m: Method, a: string, url: string, b: string, version: string): string {
    MethodString(m) + " " + a + url + b + version
  }

  /** Blanks in front of the URL and of the version change nothing. */
  lemma LooseLineRun(cb: Callbacks, p: Parser, m: Method, a: string, url: string, b: string, major: nat, minor: nat)
    requires p.state.StartReq? && p.errno.OK? && IsUrl(m, url) && 1 <= major <= 999 && minor <= 999
    requires AreSpaces(a) && AreSpaces(b) && Room(p, |LooseLine(m, a, url, " " + b, Version(major, minor))|)
    ensures var w := LooseLine(m, a, url, " " + b, Version(major, minor));
            Run(cb, p, w) == Ran(AfterRequestLine(p, |w|, m, major, minor), [Begin] + Bytewise(Url, url), |w|)
  {
    hide Run, MethodString, Version, Bytewise, NoBlank, IsTarget;
    TargetNoBlank(url, m.CONNECT?);
    TargetNotEmpty(url, m.CONNECT?);
    var w1, v := MethodString(m) + " ", Version(major, minor);
    MethodNameRun(cb, p, m);
    var q := AfterMethod(p, m);
    SpacesRun(cb, q, a);
    RunConcat(cb, p, w1, a);
    var q1 := q.(nread := q.nread + |a|);
    UrlRead(cb, q1, url);
    RunConcat(cb, p, w1 + a, url + " ");
    var q2 := q1.(nread := q1.nread + |url| + 1, state := ReqHttpStart);
    SpacesRun(cb, q2, b);
    RunConcat(cb, p, w1 + a + (url + " "), b);
    var q3 := q2.(nread := q2.nread + |b|);
    RequestVersionRun(cb, q3, major, minor);
    RunConcat(cb, p, w1 + a + (url + " ") + b, v);
    assert w1 + a + (url + " ") + b + v == LooseLine(m, a, url, " " + b, v);
    assert [Begin] + [] + Bytewise(Url, url) + [] + [] == [Begin] + Bytewise(Url, url);
  }

  /** A request line without a version is one of HTTP/0.9. */
  lemma ShortLineRun(cb: Callbacks, p: Parser, m: Method, url: string, end: string)
    requires p.state.StartReq? && p.errno.OK? && IsUrl(m, url) && IsLineEnd(end)
    requires Room(p, |LooseLine(m, [], url, [], end)|)
    ensures var w := LooseLine(m, [], url, [], end);
            Run(cb, p, w) == Ran(AfterRequestLine(p, |w|, m, 0, 9), [Begin] + Bytewise(Url, url), |w|)
  {
    hide Run, MethodString, Bytewise, IsTarget, IsLineEnd;
    var w1 := MethodString(m) + " ";
    MethodNameRun(cb, p, m);
    ShortUrlRun(cb, AfterMethod(p, m), url, end);
    RunConcat(cb, p, w1, url + end);
    assert w1 + (url + end) == LooseLine(m, [], url, [], end);
  }

  // ---------------------------------------------------------------- status lines without a reason

  lemma BareStatusByte(cb: Callbacks, q: Parser, c: char)
    requires q.state.ResStatusCode? && q.errno.OK? && Room(q, 1) && (c == CR || c == LF)
    ensures Run(cb, q, [c]) ==
            Ran(q.(nread := q.nread + 1, state := if c == CR then ResLineAlmostDone else HeaderFieldStart), [], 1)
  {
    hide Run;
    StatusByte(cb, q, c);
  }

  lemma StatusLineFeed(cb: Callbacks, q: Parser)
    requires q.state.ResLineAlmostDone? && q.errno.OK? && Room(q, 1)
    ensures Run(cb, q, [LF]) == Ran(q.(nread := q.nread + 1, state := HeaderFieldStart), [], 1)
  {
    hide Run;
    StatusByte(cb, q, LF);
  }

  lemma BareStatusEnd(cb: Callbacks, q: Parser, end: string)
    requires q.state.ResStatusCode? && q.errno.OK? && Room(q, |end|) && IsLineEnd(end)
    ensures Run(cb, q, end) == Ran(q.(nread := q.nread + |end|, state := HeaderFieldStart), [], |end|)
  {
    hide Run;
    BareStatusByte(cb, q, end[0]);
    if end == CRLF {
      StatusLineFeed(cb, q.(nread := q.nread + 1, state := ResLineAlmostDone));
      RunConcat(cb, q, [CR], [LF]);
      assert CRLF == [CR] + [LF];
    }
  }

  /** A status with a line end right behind it. */
  lemma BareStatusRun(cb: Callbacks, p: Parser, status: nat, end: string)
    requires p.state.ResFirstStatusCode? && p.errno.OK? && status <= 999 && IsLineEnd(end)
    requires Room(p, |DecOf(status) + end|)
    ensures Run(cb, p, DecOf(status) + end) ==
            Ran(p.(nread := p.nread + |DecOf(status) + end|, statusCode := status, state := HeaderFieldStart), [],
                |DecOf(status) + end|)
  {
    hide Run, DecOf, IsLineEnd;
    var a := DecOf(status);
    CodeRun(cb, p, status);
    BareStatusEnd(cb, p.(nread := p.nread + |a|, statusCode := status, state := ResStatusCode), end);
    RunConcat(cb, p, a, end);
  }

  // ---------------------------------------------------------------- header lines

  /** Any blanks and tabs, or none, between the colon and the value. */
  lemma {:induction false} GapRun(cb: Callbacks, p: Parser, w: string)
    requires p.state.HeaderValueStart? && p.errno.OK? && Room(p, |w|) && AreBlanks(w)
    ensures Run(cb, p, w) == Ran(p.(nread := p.nread + |w|), [], |w|)
    decreases |w|
  {
    hide Run;
    if w == [] {
      RunStopped(cb, p, []);
    } else {
      NextBlank(cb, p, w[0]);
      GapRun(cb, p.(nread := p.nread + 1), w[1..]);
      RunConcat(cb, p, [w[0]], w[1..]);
      assert w == [w[0]] + w[1..];
    }
  }

  function GapLine(h: Header, gap: string): string { h.name + ":" + gap + (h.value + CRLF) }

  /** They are not reported, and the line means the same. */
  lemma GapLineRun(cb: Callbacks, p: Parser, hd: Header, gap: string)
    requires AtLine(p) && IsHeader(hd) && AreBlanks(gap) && Room(p, |GapLine(hd, gap)|)
    ensures var w := GapLine(hd, gap);
            var r := Run(cb, p, w);
            r == Ran(AfterLine(p, |w|, Meaning(FramingOf(p), hd), r.p.headerState, r.p.index), LineEvents(hd), |w|)
  {
    hide Byte, Run, Bytewise, NameClass, IsValue, IsName, NameSeen, Meaning, AreBlanks;
    NameRun(cb, p, hd.name);
    var q := Run(cb, p, hd.name).p;
    NameRecognised(q.headerState, q.index, hd.name);
    ColonRun(cb, q);
    RunConcat(cb, p, hd.name, ":");
    var s := q.(nread := q.nread + 1, state := HeaderValueStart);
    GapRun(cb, s, gap);
    RunConcat(cb, p, hd.name + ":", gap);
    var t := s.(nread := s.nread + |gap|);
    ValueRun(cb, t, hd);
    RunConcat(cb, p, hd.name + ":" + gap, hd.value + CRLF);
  }

  lemma BareNameEnd(cb: Callbacks, p: Parser, c: char)
    requires p.state.HeaderField? && p.errno.OK? && Room(p, 1) && (c == CR || c == LF)
    ensures Run(cb, p, [c]) ==
            Ran(p.(nread := p.nread + 1, state := if c == CR then HeaderAlmostDone else HeaderFieldStart), [], 1)
  {
    hide Byte, Run, Handle;
    OnePass(cb, p, c);
    InFieldPart(cb, Counted(p), c);
    RunOne(cb, p, c);
  }

  lemma SeenSaysNothing(h: HeaderState, i: nat, u: string)
    requires NameSeen(h, i, u)
    ensures !h.KeepAlive? && !h.Close? && !h.Chunked?
  {
  }

  /** A header line of a name alone is reported as the name, with no value, and means nothing. */
  lemma BareNameRun(cb: Callbacks, p: Parser, name: string, end: string)
    requires AtLine(p) && IsName(name) && IsLineEnd(end) && Room(p, |name + end|)
    ensures var r := Run(cb, p, name + end);
            && r == Ran(r.p, Bytewise(Field, name), |name + end|)
            && AfterLines(p, r.p, |name + end|, FramingOf(p))
  {
    hide Byte, Run, Bytewise, IsName, NameSeen, Low;
    NameRun(cb, p, name);
    var q := Run(cb, p, name).p;
    SeenSaysNothing(q.headerState, q.index, Low(name));
    BareNameEnd(cb, q, end[0]);
    if end == CRLF {
      var s := q.(nread := q.nread + 1, state := HeaderAlmostDone);
      AlmostDoneByte(cb, s);
      RunOne(cb, s, LF);
      RunConcat(cb, q, [CR], [LF]);
      assert CRLF == [CR] + [LF];
    }
    RunConcat(cb, p, name, end);
    assert Bytewise(Field, name) + [] == Bytewise(Field, name);
  }

  // ---------------------------------------------------------------- methods that are refused

  /** A byte that fits no method is an invalid method, except that the branches for CONNECT, MKCOL and SUBSCRIBE, and
      the one for the second byte of POST, leave the error unknown. */
  lemma MethodRefused(cb: Callbacks, p: Parser, c: char)
    requires p.state.ReqMethod? && p.errno.OK? && Room(p, 1) && Run(cb, p, [c]).count == 0
    ensures var unset := p.verb in {CONNECT, MKCOL, SUBSCRIBE} || (p.verb == POST && p.index == 1);
            Run(cb, p, [c]).p.errno == if unset && c != '\0' then Unknown else InvalidMethod
  {
    hide Run, MethodString, SwitchMethod;
    MethodByte(cb, p, c);
  }
}
