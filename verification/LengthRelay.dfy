/**
 A response with a Content-Length on its way through the proxy to an HTTPS client.
 */
module LengthRelay {
  import opened HttpTypes
  import opened HttpSwitch
  import opened HttpRun
  import opened HttpBody
  import opened HttpInvariant
  import opened HttpMatcher
  import opened HttpHeaders
  import opened HttpLines
  import opened HttpResponse
  import opened HttpExecute
  import opened HttpFragments
  import opened HeaderAssembly
  import opened HeaderPrinter
  import opened HeaderRoundTrip
  import opened StatusTable
  import opened BodyShare
  import opened ChunkedFlag
  import opened ResponseRelay
  import opened RelayStages
  import opened Rechunk
  import opened AnyChunks

  /** The head and a part of the body, or all of it. */
  lemma LengthRun(major: nat, minor: nat, status: nat, reason: string, hs: seq<Header>, n: nat, body: string)
    returns (q: Parser)
    requires LengthHead(Init(Response), major, minor, status, reason, hs, n) && |body| <= n
    ensures var h := Head(major, minor, status, reason, hs);
            var r := Run(BackendCallbacks(false), Init(Response), h + body);
            && r.p.errno.OK? && r.count == |h + body|
            && r.events == [Begin] + LinesEvents(hs) + [HeadInfo(q)]
                           + (Bytewise(Body, body) + if |body| == n then [Complete] else [])
            && |h| > 0 && HeadRead(Init(Response), q, |h| - 1, major, minor, status, FramingOfLines(hs))
  {
    hide Run, Head, LinesEvents, MeaningAll, Bytewise, InfoOf;
    q := LengthHeadRun(Init(Response), major, minor, status, reason, hs, n, body);
    FinishRests(BackendCallbacks(false), InBodyWith(q, 0));
  }

  lemma LengthInfo(p: Parser, q: Parser, k: nat, major: nat, minor: nat, status: nat, hs: seq<Header>)
    requires HeadRead(p, q, k, major, minor, status, FramingOfLines(hs)) && p.kind.Response?
    requires FramingOfLines(hs).contentLength < ULLONG_MAX
    ensures var info := InfoOf(AtHeadersComplete(q));
            && info.statusCode == status && info.httpMajor == major && info.httpMinor == minor
            && info.keepAlive == Persists(major, minor, FramingOfLines(hs).flags)
  {
    hide MeaningAll;
  }

  /** What the relay makes of it. */
  lemma LengthStage(ask: Ask, major: nat, minor: nat, status: nat, reason: string, hs: seq<Header>, n: nat,
                    body: string)
    returns (info: Info)
    requires LengthHead(Init(Response), major, minor, status, reason, hs, n) && |body| <= n
    ensures var h := Head(major, minor, status, reason, hs);
            var r := Run(BackendCallbacks(false), Init(Response), h + body);
            && Received(h + body) && ReplyOf(ask, info, hs) == ReplyTo(ask, major, minor, status, hs)
            && StageOf(r.events) == (if |body| == n then Over(info, hs) else Bodying(info, hs))
            && OnEvents(EMPTY, r.events) == Assembly(hs, false)
            && BodyOf(r.events) == body && (Complete in r.events <==> |body| == n)
  {
    hide Run, Head, LinesEvents, MeaningAll, Bytewise, StageOf, NextAll, OnEvents, InfoOf, Persists, IsHeader, BodyOf,
      Silent;
    var q := LengthRun(major, minor, status, reason, hs, n, body);
    var h := Head(major, minor, status, reason, hs);
    info := HeadInfo(q).info;
    LengthInfo(Init(Response), q, |h| - 1, major, minor, status, hs);
    var es, b := [Begin] + LinesEvents(hs) + [HeadInfo(q)], Bytewise(Body, body);
    var rest := b + if |body| == n then [Complete] else [];
    HeadStage(hs, q);
    NoCompleteInHead(hs, q);
    StageConcat(es, rest);
    OnEventsConcat(EMPTY, es, rest);
    var s, a := Bodying(info, hs), Assembly(hs, false);
    BytewiseNext(s, a, Body, body);
    BodyAssembles(a, body);
    NextAllConcat(s, a, b, if |body| == n then [Complete] else []);
    OnEventsConcat(a, b, if |body| == n then [Complete] else []);
    NextOne(s, a, Complete);
    OnEventsOne(a, Complete);
    OnEventsNone(a);
    BodyOfConcat(es, rest);
    BodyOfConcat(b, if |body| == n then [Complete] else []);
    BodyOfOne(Complete);
    NoBody();
    BytewiseBody(Body, body);
    BytewiseFront(Body, body, 0);
    assert [] + body == body && body + [] == body;
  }

  /** Without a Transfer-Encoding header the flag is not set, however the response is cut. */
  lemma NeverFlagged(hs: seq<Header>, calls: seq<Event>)
    requires AreHeaders(hs) && OnEvents(EMPTY, calls).headers == hs
    requires forall i :: 0 <= i < |hs| ==> !NameClass(hs[i].name).TransferEncoding?
    ensures !ChunkedAfter(EMPTY, false, calls)
  {
    hide OnEvents, ChunkedAfter, NameClass, IsTransferEncoding, IsValue, IsName;
    forall i | 0 <= i < |hs| ensures !IsTransferEncoding(hs[i].name) {
      assert IsHeader(hs[i]);
      EncodingName(hs[i].name);
    }
    FlagLostAfter(EMPTY, calls);
  }

  /** The client reads the printed block and as much of the body as was written. */
  lemma ClientReadsLength(r: Reply, n: nat, body: string)
    requires WellFormed(r) && KnownStatus(r.status) && !BodilessStatus(r.status) && |body| <= n
    requires var f := FramingOfLines(r.headers);
             !f.flags.chunked && !f.flags.upgrade && f.contentLength == n < ULLONG_MAX
    ensures var s := Run(BackendCallbacks(false), Init(Response), Block(r) + body);
            && s.p.errno.OK? && s.count == |Block(r) + body|
            && BodyOf(s.events) == body && (Complete in s.events <==> |body| == n)
  {
    hide Run, Head, PrintedHeaders, LinesEvents, MeaningAll, ViaValue, IsHeader, Phrase, NoLineEnd, BodyOf, Block,
      StageOf, OnEvents, Persists, Bytewise, HeadRead, HeadInfo;
    BlockIsHead(r);
    PrintedAreHeaders(r);
    PrintedMeans(r);
    var reason, hs := Phrase(r.status).value, PrintedHeaders(r);
    var _ := LengthStage(Ask(1, 1, false), r.requestMajor, r.requestMinor, r.status, reason, hs, n, body);
    var _ := LengthRun(r.requestMajor, r.requestMinor, r.status, reason, hs, n, body);
  }

  /** The whole way of a response with a length and no Transfer-Encoding header: however much of it has arrived
      after its head, however it was cut, and however the client's reads are cut, the client gets exactly the
      body that has arrived; and it gets the end if and only if all of the body has arrived, whether or not the
      backend closed. */
  method RelayLength(ask: Ask, ghost major: nat, ghost minor: nat, ghost status: nat, ghost reason: string,
                     ghost hs: seq<Header>, ghost n: nat, ghost body: string,
                     arrivals: seq<string>, closes: bool, lengths: seq<nat>)
    returns (client: HttpParser, consumed: nat, written: nat)
    requires LengthHead(Init(Response), major, minor, status, reason, hs, n) && |body| <= n
    requires forall i :: 0 <= i < |hs| ==> !NameClass(hs[i].name).TransferEncoding?
    requires AreReads(arrivals) && Flatten(arrivals) == Head(major, minor, status, reason, hs) + body
    requires WellFormed(ReplyTo(ask, major, minor, status, hs)) && KnownStatus(status)
    ensures BodyOf(client.calls) == body && (Complete in client.calls <==> |body| == n) && consumed == written
  {
    hide Run, PieceCalls, Output, Block, BodyOf, EmitAll, ChunkedAfter, BodyPieces, Flatten, RunAsserts, BodyCode,
      StageOf, OnEvents, Head, WellFormed, NameClass, Persists, MeaningAll, IsHeader, Longest;
    var output, limit := Forward(ask, arrivals, closes);
    ghost var cb, r := BackendCallbacks(false), ReplyTo(ask, major, minor, status, hs);
    ghost var calls := PieceCalls(cb, Init(Response), arrivals);
    ghost var sent := Run(cb, Init(Response), Flatten(arrivals)).events;
    ghost var info := LengthStage(ask, major, minor, status, reason, hs, n, body);
    OutputOf(ask, arrivals, closes);
    SameTrace(calls, sent);
    NeverFlagged(hs, calls);
    PiecesAreBody(calls, limit);
    BareCode(BodyPieces(calls));
    assert Block(r) + body + [] == Block(r) + body;
    ClientReadsLength(r, n, body);
    var cuts := Cut(output, lengths);
    client := new HttpParser(Response, BackendCallbacks(false));
    consumed := Feed(client, cuts);
    written := |output|;
    EmitAllNone([]);
    SameTrace(client.calls, Run(cb, Init(Response), output).events);
  }

  lemma BareCode(pieces: seq<string>)
    ensures BodyCode(false, pieces) == Flatten(pieces) && Ending(false) == []
  {
  }
}
