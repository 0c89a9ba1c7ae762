/**
 Chunked responses as a backend may write them: with sizes in either case and with zeros in front, extensions, and
 a trailer.  Every part of one from its head on is received as one response.
 */
module AnyChunks {
  import opened HttpTypes
  import opened HttpSwitch
  import opened HttpRun
  import opened HttpMatcher
  import opened HttpHeaders
  import opened HttpLines
  import opened HttpChunks
  import opened HttpResponse
  import opened HeaderAssembly
  import opened HeaderRoundTrip
  import opened ChunkedFlag
  import opened ResponseRelay
  import opened RelayStages
  import opened Rechunk
  import Strings

  /** The parser and the Downstream object agree on what is a Transfer-Encoding header. */
  lemma EncodingName(name: string)
    requires IsName(name)
    ensures NameClass(name).TransferEncoding? <==> IsTransferEncoding(name)
  {
    hide Low, Strings.SameNoCase, Strings.CStr, IsName;
    var key := TRANSFER_ENCODING;
    SameName(name, key);
    assert |key| == 17 && |CONNECTION| == 10 && |PROXY_CONNECTION| == 16 && |CONTENT_LENGTH| == 14;
  }

  /** A chunked response of which the head at least has arrived: its chunks spelled in any way, and a trailer
      without a Transfer-Encoding header. */
  predicate Arrived(major: nat, minor: nat, status: nat, reason: string, hs: seq<Header>, cs: seq<Chunk>, last: Chunk,
                    ts: seq<Header>, data: string) {
    && ChunkedHead(Init(Response), major, minor, status, reason, hs) && AreChunks(cs, last) && IsTrailer(ts)
    && (forall i :: 0 <= i < |ts| ==> !NameClass(ts[i].name).TransferEncoding?)
    && var h := Head(major, minor, status, reason, hs); h <= data <= h + TrailedText(cs, last, ts)
  }

  /** The events after the head, all of them. */
  lemma WholeStage(info: Info, hs: seq<Header>, body: string, ts: seq<Header>)
    requires AreHeaders(ts)
    ensures var a := Assembly(hs, false);
            var rest := Bytewise(Body, body) + LinesEvents(ts) + [Complete];
            NextAll(Bodying(info, hs), a, rest) == Over(info, hs) && OnEvents(a, rest).headers == hs + ts
  {
    hide NextAll, OnEvents, Bytewise, LinesEvents, IsHeader;
    var s, a := Bodying(info, hs), Assembly(hs, false);
    var b, t := Bytewise(Body, body), LinesEvents(ts);
    AreNamed(ts);
    BytewiseNext(s, a, Body, body);
    BodyAssembles(a, body);
    NextAllConcat(s, a, b, t);
    OnEventsConcat(a, b, t);
    LinesNext(s, a, ts);
    LinesAssembled(a, ts);
    NextAllConcat(s, a, b + t, [Complete]);
    OnEventsConcat(a, b + t, [Complete]);
    NextOne(NextAll(s, a, b + t), OnEvents(a, b + t), Complete);
    OnEventsOne(OnEvents(a, b + t), Complete);
  }

  lemma BodyAssembles(a: Assembly, w: string)
    ensures OnEvents(a, Bytewise(Body, w)) == a
  {
    hide OnEvents, Bytewise;
    if w == [] {
      BytewiseNone(Body);
      OnEventsNone(a);
    } else {
      BytewiseAssembled(a, Body, w);
    }
  }

  /** A header with a value has its name for good. */
  predicate Settled(hs: seq<Header>, all: seq<Header>) {
    |hs| <= |all| && forall i :: 0 <= i < |hs| && hs[i].value != [] ==> all[i].name == hs[i].name && all[i].value != []
  }

  lemma SettledOn(hs: seq<Header>, a: Assembly, e: Event)
    requires Settled(hs, a.headers) && Clean(a)
    ensures Settled(hs, OnEvent(a, e).headers)
  {
  }

  lemma {:induction false} NamesSettle(x: seq<Event>, y: seq<Event>)
    requires x <= y
    ensures Settled(OnEvents(EMPTY, x).headers, OnEvents(EMPTY, y).headers)
    decreases |y|
  {
    hide OnEvent, Settled;
    if |x| == |y| {
      assert x == y;
      SettledSelf(OnEvents(EMPTY, x).headers);
    } else {
      var front := y[..|y| - 1];
      NamesSettle(x, front);
      FlagTraced(EMPTY, front);
      SettledOn(OnEvents(EMPTY, x).headers, OnEvents(EMPTY, front), y[|y| - 1]);
    }
  }

  lemma SettledSelf(hs: seq<Header>)
    ensures Settled(hs, hs)
  {
  }

  lemma TrailerSilent(hs: seq<Header>, ts: seq<Header>, some: seq<Header>)
    requires Settled(some, hs + ts) && AreHeaders(ts)
    requires forall i :: 0 <= i < |ts| ==> !NameClass(ts[i].name).TransferEncoding?
    ensures forall i :: |hs| <= i < |some| ==> Silent(some[i])
  {
    hide NameClass, IsTransferEncoding;
    forall i | |hs| <= i < |some| ensures Silent(some[i]) {
      if some[i].value != [] {
        var t := ts[i - |hs|];
        assert (hs + ts)[i] == t && IsHeader(t);
        EncodingName(t.name);
      }
    }
  }

  /** The parser reads it without an error, and its events begin with those of the head and are the first of those
      of the whole response. */
  lemma ArrivedRun(major: nat, minor: nat, status: nat, reason: string, hs: seq<Header>, cs: seq<Chunk>, last: Chunk,
                   ts: seq<Header>, data: string)
    returns (q: Parser)
    requires Arrived(major, minor, status, reason, hs, cs, last, ts, data)
    ensures var head := [Begin] + LinesEvents(hs) + [HeadInfo(q)];
            && Run(BackendCallbacks(false), Init(Response), data).p.errno.OK?
            && head <= EventsOf(data) <= head + (Bytewise(Body, Payload(cs)) + LinesEvents(ts) + [Complete])
  {
    hide Run, Head, LinesEvents, MeaningAll, Bytewise, HeadInfo, TrailedText, Payload, HeadRead, Readable, AtChunk,
      IsTrailer, AreChunks, NameClass, Lines;
    var cb, p := BackendCallbacks(false), Init(Response);
    var h := Head(major, minor, status, reason, hs);
    var w := h + TrailedText(cs, last, ts);
    ChunkedHeadRun(p, major, minor, status, reason, hs);
    q :| HeadRead(p, q, |h| - 1, major, minor, status, FramingOfLines(hs))
      && Run(cb, p, h).events == [Begin] + LinesEvents(hs) + [HeadInfo(q)];
    var s := Run(cb, p, h).p;
    var x, y := data[|h|..], w[|data|..];
    assert data == h + x && x + y == TrailedText(cs, last, ts);
    RunConcat(cb, p, h, x);
    RunConcat(cb, s, x, y);
    BackendDecides(false, s);
    TrailedRun(cb, s, cs, last, ts);
    FrontAccepted(cb, s, x, TrailedText(cs, last, ts));
    var b, t := Bytewise(Body, Payload(cs)), LinesEvents(ts);
    assert b + (t + [Complete]) == b + t + [Complete];
  }

  /** Every part of a chunked response from its head on, however it is spelled, is received as one response. */
  lemma ArrivedReceived(major: nat, minor: nat, status: nat, reason: string, hs: seq<Header>, cs: seq<Chunk>,
                        last: Chunk, ts: seq<Header>, data: string)
    requires Arrived(major, minor, status, reason, hs, cs, last, ts, data)
    ensures Received(data) && StageOf(EventsOf(data)).hs == hs
  {
    hide Run, Head, LinesEvents, Bytewise, InfoOf, TrailedText, Payload, StageOf, NextAll, OnEvents, NameClass,
      IsHeader, AreChunks, Settled, Silent;
    var q := ArrivedRun(major, minor, status, reason, hs, cs, last, ts, data);
    var head, rest := [Begin] + LinesEvents(hs) + [HeadInfo(q)],
      Bytewise(Body, Payload(cs)) + LinesEvents(ts) + [Complete];
    var es := EventsOf(data);
    HeadStage(hs, q);
    WholeStage(HeadInfo(q).info, hs, Payload(cs), ts);
    StageConcat(head, rest);
    StageFront(es, head + rest);
    StageFront(head, es);
    OnEventsConcat(EMPTY, head, rest);
    NamesSettle(es, head + rest);
    TrailerSilent(hs, ts, OnEvents(EMPTY, es).headers);
  }

  /** The proxy's own spelling is one of them. */
  lemma CodedArrives(major: nat, minor: nat, status: nat, reason: string, hs: seq<Header>, pieces: seq<string>,
                     data: string)
    requires ChunkedHead(Init(Response), major, minor, status, reason, hs) && Writable(pieces)
    requires var h := Head(major, minor, status, reason, hs); h <= data <= h + Coded(pieces)
    ensures Arrived(major, minor, status, reason, hs, PrintedAll(pieces), LAST, [], data)
  {
    hide Head, ChunkedHead, Coded, ChunkedText, TrailedText, PrintedAll, AreChunks;
    CodedIsText(pieces);
    TrailedPlain(PrintedAll(pieces), LAST);
    assert Lines([]) == [];
  }
}
