/**
 Requests: what the URL states and the version states make of a request line, and whole requests.
 */
module HttpRequest {
  import opened HttpTypes
  import opened HttpSwitch
  import opened HttpRun
  import opened HttpBytes
  import opened HttpBody
  import opened HttpNumbers
  import opened HttpHeaders
  import opened HttpLines
  import opened HttpResponse
  import opened HttpMethod
  import HttpUrl
  import opened UrlTarget

  // ---------------------------------------------------------------- the URL

  predicate NoBlank(url: string) {
    forall i :: 0 <= i < |url| ==> url[i] != ' ' && url[i] != CR && url[i] != LF
  }

  predicate AtUrl(p: Parser) { p.state.ReqSpacesBeforeUrl? && p.errno.OK? }

  /** The parser after the first `k` bytes of a URL. */
  function InUrlAt(p: Parser, url: string, k: nat): Parser
    requires 1 <= k <= |url|
  {
    p.(nread := p.nread + k, state := HttpUrl.StateAt(url, p.verb.CONNECT?, k))
  }

  lemma FirstUrlByte(cb: Callbacks, p: Parser, c: char)
    requires AtUrl(p) && Room(p, 1) && c != ' '
    ensures var s := ParseUrlChar(HttpUrl.StartOf(p.verb.CONNECT?), c);
            var q := p.(nread := p.nread + 1, state := s);
            Run(cb, p, [c]) ==
              if s.Dead? then Ran(q.(errno := InvalidUrl), [], 0) else Ran(q, [Data(Url, [c])], 1)
  {
    hide Byte, Run, Handle, ParseUrlChar;
    OnePass(cb, p, c);
    InUrlPart(cb, Counted(p), c);
    HttpUrl.UrlCharAdvances(HttpUrl.StartOf(p.verb.CONNECT?), c);
    RunOne(cb, p, c);
  }

  lemma NextUrlByte(cb: Callbacks, p: Parser, c: char)
    requires InUrl(p.state) && p.errno.OK? && Room(p, 1) && c != ' ' && c != CR && c != LF
    ensures var s := ParseUrlChar(p.state, c);
            var q := p.(nread := p.nread + 1, state := s);
            Run(cb, p, [c]) ==
              if s.Dead? then Ran(q.(errno := InvalidUrl), [], 0) else Ran(q, [Data(Url, [c])], 1)
  {
    hide Byte, Run, Handle, ParseUrlChar;
    OnePass(cb, p, c);
    InUrlPart(cb, Counted(p), c);
    HttpUrl.UrlCharAdvances(p.state, c);
    RunOne(cb, p, c);
  }

  /** The URL states read a URL as http_parser_parse_url does, and report every byte of it. */
  lemma {:induction false} UrlRun(cb: Callbacks, p: Parser, url: string, k: nat)
    requires AtUrl(p) && NoBlank(url) && 1 <= k <= |url| && Room(p, k)
    ensures var s := HttpUrl.StateAt(url, p.verb.CONNECT?, k);
            var r := Run(cb, p, url[..k]);
            if s.Dead? then r.p.errno == InvalidUrl
            else InUrl(s) && r == Ran(InUrlAt(p, url, k), Bytewise(Url, url[..k]), k)
  {
    hide Run, ParseUrlChar, Bytewise;
    var connect := p.verb.CONNECT?;
    var w, c := url[..k - 1], url[k - 1];
    assert url[..k] == w + [c];
    if k == 1 {
      HttpUrl.UrlCharAdvances(HttpUrl.StartOf(connect), c);
      FirstUrlByte(cb, p, c);
      BytewiseOne(Url, c);
      assert url[..1] == [c];
    } else {
      UrlRun(cb, p, url, k - 1);
      RunConcat(cb, p, w, [c]);
      if HttpUrl.StateAt(url, connect, k - 1).Dead? {
        HttpUrl.DeadStaysDead(c);
        RunStopped(cb, Run(cb, p, w).p, [c]);
      } else {
        HttpUrl.UrlCharAdvances(HttpUrl.StateAt(url, connect, k - 1), c);
        NextUrlByte(cb, InUrlAt(p, url, k - 1), c);
        BytewiseSnoc(Url, w, c);
      }
    }
  }

  lemma UrlEndByte(cb: Callbacks, p: Parser)
    requires InUrl(p.state) && p.errno.OK? && Room(p, 1)
    ensures var r := Run(cb, p, " ");
            if EndsUrl(p.state) then r == Ran(p.(nread := p.nread + 1, state := ReqHttpStart), [], 1)
            else r.p.errno == InvalidUrl
  {
    hide Byte, Run, Handle, ParseUrlChar;
    OnePass(cb, p, ' ');
    InUrlPart(cb, Counted(p), ' ');
    RunOne(cb, p, ' ');
  }

  /** A text without blanks is accepted as a URL if and only if it is a request target; and then every byte of it is
      reported, and nothing else. */
  lemma UrlRead(cb: Callbacks, p: Parser, url: string)
    requires AtUrl(p) && url != [] && NoBlank(url) && Room(p, |url| + 1)
    ensures var r := Run(cb, p, url + " ");
            if IsTarget(url, p.verb.CONNECT?)
            then r == Ran(p.(nread := p.nread + |url| + 1, state := ReqHttpStart), Bytewise(Url, url), |url| + 1)
            else r.p.errno == InvalidUrl
  {
    hide Run, ParseUrlChar, Bytewise, IsTarget;
    var s := HttpUrl.StateAt(url, p.verb.CONNECT?, |url|);
    TargetExactly(url, p.verb.CONNECT?);
    UrlRun(cb, p, url, |url|);
    assert url[..|url|] == url;
    RunConcat(cb, p, url, " ");
    if s.Dead? {
      RunStopped(cb, Run(cb, p, url).p, " ");
    } else {
      UrlEndByte(cb, InUrlAt(p, url, |url|));
      assert Bytewise(Url, url) + [] == Bytewise(Url, url);
    }
  }

  lemma ServerNoBlank(w: string)
    requires IsServerText(w)
    ensures NoBlank(w)
  {
    var n := ServerEnd(w);
    forall i | 0 <= i < |w| ensures w[i] != ' ' && w[i] != CR && w[i] != LF {
      if i < n {
        assert IsServerChar(w[..n][i]);
      } else {
        assert '!' <= w[n..][i - n] <= '~';
      }
    }
  }

  /** A request target has no blanks. */
  lemma TargetNoBlank(url: string, connect: bool)
    requires IsTarget(url, connect)
    ensures NoBlank(url)
  {
    hide IsServerText;
    if connect {
      ServerNoBlank(url);
    } else if url[0] != '/' && url[0] != '*' {
      var k := AlphaEnd(url);
      ServerNoBlank(url[k + 3..]);
      forall i | 0 <= i < |url| ensures url[i] != ' ' && url[i] != CR && url[i] != LF {
        if i >= k + 3 {
          assert url[i] == url[k + 3..][i - k - 3];
        }
      }
    }
  }

  // ---------------------------------------------------------------- the version

  lemma VersionByte(cb: Callbacks, p: Parser, ch: char)
    requires InRequestVersion(p.state) && p.errno.OK? && Room(p, 1)
    ensures var o := HandleRequestVersion(Counted(p), ch);
            Run(cb, p, [ch]) == Ran(o.p, [], if o.next.Fail? then 0 else 1)
  {
    hide Byte, Run, Handle, HandleRequestVersion;
    OnePass(cb, p, ch);
    InRequestVersionPart(cb, Counted(p), ch);
    RunOne(cb, p, ch);
  }

  function InVersion(p: Parser, n: nat, s: State): Parser {
    p.(nread := p.nread + n, state := s)
  }

  lemma ProtocolByte(cb: Callbacks, p: Parser, ch: char, s: State)
    requires p.errno.OK? && Room(p, 1)
    requires || (p.state.ReqHttpStart? && ch == 'H' && s.ReqHttpH?)
             || (p.state.ReqHttpH? && ch == 'T' && s.ReqHttpHT?)
             || (p.state.ReqHttpHT? && ch == 'T' && s.ReqHttpHTT?)
             || (p.state.ReqHttpHTT? && ch == 'P' && s.ReqHttpHTTP?)
             || (p.state.ReqHttpHTTP? && ch == '/' && s.ReqFirstHttpMajor?)
    ensures Run(cb, p, [ch]) == Ran(InVersion(p, 1, s), [], 1)
  {
    hide Run;
    VersionByte(cb, p, ch);
  }

  lemma RequestProtocolFront(cb: Callbacks, p: Parser)
    requires p.state.ReqHttpStart? && p.errno.OK? && Room(p, 3)
    ensures Run(cb, p, "HTT") == Ran(InVersion(p, 3, ReqHttpHTT), [], 3)
  {
    hide Run;
    ProtocolByte(cb, p, 'H', ReqHttpH);
    ProtocolByte(cb, InVersion(p, 1, ReqHttpH), 'T', ReqHttpHT);
    RunConcat(cb, p, "H", "T");
    ProtocolByte(cb, InVersion(p, 2, ReqHttpHT), 'T', ReqHttpHTT);
    RunConcat(cb, p, "HT", "T");
    assert "H" + "T" == "HT" && "HT" + "T" == "HTT";
  }

  lemma RequestProtocolRun(cb: Callbacks, p: Parser)
    requires p.state.ReqHttpStart? && p.errno.OK? && Room(p, 5)
    ensures Run(cb, p, "HTTP/") == Ran(InVersion(p, 5, ReqFirstHttpMajor), [], 5)
  {
    hide Run;
    RequestProtocolFront(cb, p);
    ProtocolByte(cb, InVersion(p, 3, ReqHttpHTT), 'P', ReqHttpHTTP);
    RunConcat(cb, p, "HTT", "P");
    ProtocolByte(cb, InVersion(p, 4, ReqHttpHTTP), '/', ReqFirstHttpMajor);
    RunConcat(cb, p, "HTTP", "/");
    assert "HTT" + "P" == "HTTP" && "HTTP" + "/" == "HTTP/";
  }

  lemma {:induction false} RequestMajorRun(cb: Callbacks, p: Parser, n: nat)
    requires p.state.ReqFirstHttpMajor? && p.errno.OK? && 1 <= n <= 999 && Room(p, |DecOf(n)|)
    ensures Run(cb, p, DecOf(n)) ==
            Ran(p.(nread := p.nread + |DecOf(n)|, state := ReqHttpMajor, httpMajor := n), [], |DecOf(n)|)
    decreases n
  {
    hide Run, LastDigit;
    var d := LastDigit(n);
    if n < 10 {
      VersionByte(cb, p, d);
    } else {
      var w := DecOf(n / 10);
      RequestMajorRun(cb, p, n / 10);
      VersionByte(cb, p.(nread := p.nread + |w|, state := ReqHttpMajor, httpMajor := n / 10), d);
      RunConcat(cb, p, w, [d]);
    }
  }

  lemma {:induction false} RequestMinorRun(cb: Callbacks, p: Parser, n: nat)
    requires p.state.ReqFirstHttpMinor? && p.errno.OK? && n <= 999 && Room(p, |DecOf(n)|)
    ensures Run(cb, p, DecOf(n)) ==
            Ran(p.(nread := p.nread + |DecOf(n)|, state := ReqHttpMinor, httpMinor := n), [], |DecOf(n)|)
    decreases n
  {
    hide Run, LastDigit;
    var d := LastDigit(n);
    if n < 10 {
      VersionByte(cb, p, d);
    } else {
      var w := DecOf(n / 10);
      RequestMinorRun(cb, p, n / 10);
      VersionByte(cb, p.(nread := p.nread + |w|, state := ReqHttpMinor, httpMinor := n / 10), d);
      RunConcat(cb, p, w, [d]);
    }
  }

  lemma LineEndRun(cb: Callbacks, p: Parser)
    requires p.state.ReqHttpMinor? && p.errno.OK? && Room(p, 2)
    ensures Run(cb, p, CRLF) == Ran(InVersion(p, 2, HeaderFieldStart), [], 2)
  {
    hide Run;
    VersionByte(cb, p, CR);
    VersionByte(cb, InVersion(p, 1, ReqLineAlmostDone), LF);
    RunConcat(cb, p, [CR], [LF]);
    assert CRLF == [CR] + [LF];
  }

  function Version(major: nat, minor: nat): string {
    "HTTP/" + DecOf(major) + "." + DecOf(minor) + CRLF
  }

  lemma RequestVersionRun(cb: Callbacks, p: Parser, major: nat, minor: nat)
    requires p.state.ReqHttpStart? && p.errno.OK? && 1 <= major <= 999 && minor <= 999
    requires Room(p, |Version(major, minor)|)
    ensures var w := Version(major, minor);
            Run(cb, p, w) ==
              Ran(p.(nread := p.nread + |w|, httpMajor := major, httpMinor := minor, state := HeaderFieldStart),
                  [], |w|)
  {
    hide Run, DecOf, HandleRequestVersion;
    var a, b := DecOf(major), DecOf(minor);
    var w1, w2, w3, w4 := "HTTP/", "HTTP/" + a, "HTTP/" + a + ".", "HTTP/" + a + "." + b;
    RequestProtocolRun(cb, p);
    var p1 := InVersion(p, 5, ReqFirstHttpMajor);
    RequestMajorRun(cb, p1, major);
    RunConcat(cb, p, w1, a);
    var p2 := p1.(nread := p1.nread + |a|, state := ReqHttpMajor, httpMajor := major);
    DotRun(cb, p2);
    RunConcat(cb, p, w2, ".");
    var p3 := InVersion(p2, 1, ReqFirstHttpMinor);
    RequestMinorRun(cb, p3, minor);
    RunConcat(cb, p, w3, b);
    var p4 := p3.(nread := p3.nread + |b|, state := ReqHttpMinor, httpMinor := minor);
    LineEndRun(cb, p4);
    RunConcat(cb, p, w4, CRLF);
  }

  lemma DotRun(cb: Callbacks, p: Parser)
    requires p.state.ReqHttpMajor? && p.errno.OK? && Room(p, 1)
    ensures Run(cb, p, ".") == Ran(InVersion(p, 1, ReqFirstHttpMinor), [], 1)
  {
    hide Run;
    VersionByte(cb, p, '.');
  }

  // ---------------------------------------------------------------- the request line

  function RequestLine(m: Method, url: string, major: nat, minor: nat): string {
    MethodString(m) + " " + (url + " ") + Version(major, minor)
  }

  function AfterRequestLine(p: Parser, n: nat, m: Method, major: nat, minor: nat): Parser {
    p.(nread := p.nread + n, flags := NoFlags, contentLength := ULLONG_MAX, verb := m,
       index := |MethodString(m)| + 1, httpMajor := major, httpMinor := minor, state := HeaderFieldStart)
  }

  predicate IsUrl(m: Method, url: string) { IsTarget(url, m.CONNECT?) }

  lemma TargetNotEmpty(url: string, connect: bool)
    requires IsTarget(url, connect)
    ensures url != []
  {
  }

  /** A request line is read as the method, the URL and the version it spells. */
  lemma RequestLineRun(cb: Callbacks, p: Parser, m: Method, url: string, major: nat, minor: nat)
    requires p.state.StartReq? && p.errno.OK? && IsUrl(m, url) && 1 <= major <= 999 && minor <= 999
    requires Room(p, |RequestLine(m, url, major, minor)|)
    ensures var w := RequestLine(m, url, major, minor);
            Run(cb, p, w) == Ran(AfterRequestLine(p, |w|, m, major, minor), [Begin] + Bytewise(Url, url), |w|)
  {
    hide Run, MethodString, Version, Bytewise, NoBlank, IsTarget;
    TargetNoBlank(url, m.CONNECT?);
    TargetNotEmpty(url, m.CONNECT?);
    var a, b, c := MethodString(m) + " ", url + " ", Version(major, minor);
    MethodNameRun(cb, p, m);
    var q := AfterMethod(p, m);
    UrlRead(cb, q, url);
    RunConcat(cb, p, a, b);
    var q' := q.(nread := q.nread + |b|, state := ReqHttpStart);
    RequestVersionRun(cb, q', major, minor);
    RunConcat(cb, p, a + b, c);
    assert [Begin] + Bytewise(Url, url) + [] == [Begin] + Bytewise(Url, url);
  }

  // ---------------------------------------------------------------- whole requests

  function RequestHead(m: Method, url: string, major: nat, minor: nat, hs: seq<Header>): string {
    RequestLine(m, url, major, minor) + Lines(hs) + CRLF
  }

  predicate ReadableRequest(p: Parser, m: Method, url: string, major: nat, minor: nat, hs: seq<Header>) {
    && p.state.StartReq? && p.errno.OK? && p.kind.Request?
    && IsUrl(m, url) && 1 <= major <= 999 && minor <= 999 && AreHeaders(hs)
    && Room(p, |RequestHead(m, url, major, minor, hs)|)
  }

  /** The parser when only the last line feed of the head is missing. */
  predicate RequestRead(p: Parser, q: Parser, n: nat, m: Method, major: nat, minor: nat, f: Framing) {
    q == p.(nread := p.nread + n, state := HeadersAlmostDone, httpMajor := major, httpMinor := minor, verb := m,
            flags := f.flags, contentLength := f.contentLength, headerState := q.headerState, index := q.index)
  }

  lemma RequestHeadRun(cb: Callbacks, p: Parser, m: Method, url: string, major: nat, minor: nat, hs: seq<Header>)
    requires ReadableRequest(p, m, url, major, minor, hs)
    ensures var w := RequestLine(m, url, major, minor) + Lines(hs) + [CR];
            var r := Run(cb, p, w);
            && RequestHead(m, url, major, minor, hs) == w + [LF]
            && r == Ran(r.p, [Begin] + Bytewise(Url, url) + LinesEvents(hs), |w|)
            && RequestRead(p, r.p, |w|, m, major, minor, FramingOfLines(hs))
  {
    hide Run, RequestLine, Lines, LinesEvents, MeaningAll, IsUrl, Bytewise, MethodString;
    var a := RequestLine(m, url, major, minor);
    RequestLineRun(cb, p, m, url, major, minor);
    var q := AfterRequestLine(p, |a|, m, major, minor);
    BlockRun(cb, q, hs);
    RunConcat(cb, p, a, Lines(hs) + [CR]);
    assert a + (Lines(hs) + [CR]) == a + Lines(hs) + [CR];
    assert [CR] + [LF] == CRLF;
  }

  lemma RequestRests(cb: Callbacks, p: Parser)
    requires !cb.pauses && p.kind.Request? && p.errno.OK?
    ensures var q := Finish(cb, p).p;
            && q.errno.OK? && (q.state.StartReq? || q.state.Dead?) && q.nread == p.nread
            && (q.state.StartReq? <==> Persists(p.httpMajor, p.httpMinor, p.flags))
  {
  }

  /** A request with a Content-Length is its line, its headers and exactly its body, and is complete at its
      last byte; the next byte belongs to the next request. */
  lemma LengthRequest(cb: Callbacks, p: Parser, m: Method, url: string, major: nat, minor: nat, hs: seq<Header>,
                      body: string)
    requires ReadableRequest(p, m, url, major, minor, hs) && !m.CONNECT? && !cb.pauses && forall q :: !cb.noBody(q)
    requires var f := FramingOfLines(hs);
             !f.flags.chunked && !f.flags.upgrade && f.contentLength == |body| < ULLONG_MAX
    ensures var w := RequestHead(m, url, major, minor, hs) + body;
            var r := Run(cb, p, w);
            && r.count == |w| && r.p.errno.OK? && (r.p.state.StartReq? || r.p.state.Dead?)
            && (r.p.state.StartReq? <==> Persists(major, minor, FramingOfLines(hs).flags)) && r.p.nread == 0
            && exists q :: RequestRead(p, q, |w| - |body| - 1, m, major, minor, FramingOfLines(hs))
                 && r.events == [Begin] + Bytewise(Url, url) + LinesEvents(hs) + [HeadInfo(q)]
                                + Bytewise(Body, body) + [Complete]
  {
    hide Run, RequestHead, RequestLine, Lines, LinesEvents, MeaningAll, Bytewise, InfoOf, AtHeadersComplete, IsUrl;
    RequestHeadRun(cb, p, m, url, major, minor, hs);
    var a := RequestLine(m, url, major, minor) + Lines(hs) + [CR];
    var q := Run(cb, p, a).p;
    FramingStarts(hs);
    HeadersCompleteFrame(q);
    BodyConserved(cb, q, |body|, body);
    RunConcat(cb, p, a, [LF] + body);
    assert a + ([LF] + body) == RequestHead(m, url, major, minor, hs) + body;
    var es := [Begin] + Bytewise(Url, url) + LinesEvents(hs);
    assert es + ([HeadInfo(q)] + Bytewise(Body, body) + [Complete])
           == es + [HeadInfo(q)] + Bytewise(Body, body) + [Complete];
    RequestRests(cb, InBodyWith(q, 0));
  }

  lemma NoLengthDecides(cb: Callbacks, q: Parser)
    requires q.state.HeadersDone? && !q.upgrade && !q.flags.skipBody && !q.flags.chunked
    requires q.contentLength == ULLONG_MAX && q.kind.Request?
    ensures HandleHeadersEnd(cb, q, LF) == Finish(cb, q.(nread := 0))
  {
    hide Finish;
  }

  /** A request that announces no body has none: it is complete at the end of its head. */
  lemma BareRequest(cb: Callbacks, p: Parser, m: Method, url: string, major: nat, minor: nat, hs: seq<Header>)
    requires ReadableRequest(p, m, url, major, minor, hs) && !m.CONNECT? && !cb.pauses && forall q :: !cb.noBody(q)
    requires var f := FramingOfLines(hs);
             !f.flags.chunked && !f.flags.upgrade && f.contentLength == ULLONG_MAX
    ensures var w := RequestHead(m, url, major, minor, hs);
            var r := Run(cb, p, w);
            && r.count == |w| && r.p.errno.OK? && (r.p.state.StartReq? || r.p.state.Dead?)
            && (r.p.state.StartReq? <==> Persists(major, minor, FramingOfLines(hs).flags)) && r.p.nread == 0
            && exists q :: RequestRead(p, q, |w| - 1, m, major, minor, FramingOfLines(hs))
                 && r.events == [Begin] + Bytewise(Url, url) + LinesEvents(hs) + [HeadInfo(q), Complete]
  {
    hide Run, Byte, RequestHead, RequestLine, Lines, LinesEvents, MeaningAll, Bytewise, InfoOf, AtHeadersComplete,
      IsUrl,
      HandleHeadersEnd, Finish;
    RequestHeadRun(cb, p, m, url, major, minor, hs);
    var a := RequestLine(m, url, major, minor) + Lines(hs) + [CR];
    var q := Run(cb, p, a).p;
    FramingStarts(hs);
    HeadersCompleteFrame(q);
    var h := AtHeadersComplete(q);
    HeadersEndByte(cb, q);
    BareEnd(cb, q);
    RunOne(cb, q, LF);
    RunConcat(cb, p, a, [LF]);
    var es := [Begin] + Bytewise(Url, url) + LinesEvents(hs);
    assert [HeadInfo(q)] + [Complete] == [HeadInfo(q), Complete];
    RequestRests(cb, h.(nread := 0));
  }

  lemma BareEnd(cb: Callbacks, q: Parser)
    requires q.state.HeadersAlmostDone? && !cb.noBody(AtHeadersComplete(q)) && !q.flags.upgrade && !q.verb.CONNECT?
    requires !q.flags.skipBody && !q.flags.chunked && q.contentLength == ULLONG_MAX && q.kind.Request?
    ensures var h := AtHeadersComplete(q);
            AfterHeadersComplete(cb, q) == h && HandleHeadersEnd(cb, h, LF) == Finish(cb, h.(nread := 0))
            && Finish(cb, h.(nread := 0)).note == [Complete] && h.kind == q.kind && h.errno == q.errno
  {
    hide HandleHeadersEnd;
    NoLengthDecides(cb, AtHeadersComplete(q));
  }
}
