/**
 A response on its way through the proxy to an HTTPS client that was announced chunks: parsed from the backend in
 whatever pieces, assembled and written again by the calls of the parser, and parsed by the client in whatever
 pieces.  The client gets the body to its end if and only if the flag of the response was set and the backend came
 to an end.
 */
module Rechunk {
  import opened HttpTypes
  import opened HttpSwitch
  import opened HttpRun
  import opened HttpInvariant
  import opened HttpHeaders
  import opened HttpLines
  import opened HttpChunks
  import opened HttpResponse
  import opened HttpCalls
  import opened HttpExecute
  import opened HttpFragments
  import opened HeaderAssembly
  import opened HeaderPrinter
  import opened HeaderRoundTrip
  import opened StatusTable
  import opened BodyShare
  import opened ChunkedFlag
  import opened ResponseRelay
  import opened RelayStages

  // ---------------------------------------------------------------- the backend's side

  /** The reply that the proxy prints for a response whose end does not depend on the connection. */
  function ReplyTo(ask: Ask, major: nat, minor: nat, status: nat, hs: seq<Header>): Reply {
    Reply(ask.major, ask.minor, status, major, minor, ask.close,
          !Persists(major, minor, FramingOfLines(hs).flags), hs)
  }

  /** The headers of the trailer are the assembled ones after those of the head; none of them can set the flag. */
  predicate NoEncodingTrails(es: seq<Event>)
    requires Past(StageOf(es))
  {
    var all, n := OnEvents(EMPTY, es).headers, |StageOf(es).hs|;
    forall i :: n <= i < |all| ==> Silent(all[i])
  }

  /** What the backend has sent is accepted, and is one response from its head on: with a body in chunks however
      they are spelled, or none of it yet, with a trailer or not. */
  predicate Received(data: string) {
    var r := Run(BackendCallbacks(false), Init(Response), data);
    r.p.errno.OK? && Past(StageOf(r.events)) && NoEncodingTrails(r.events)
  }

  function EventsOf(data: string): seq<Event> { Run(BackendCallbacks(false), Init(Response), data).events }

  /** Then the flag is that of the head. */
  lemma FlagOfHead(calls: seq<Event>)
    requires Past(StageOf(calls)) && NoEncodingTrails(calls)
    ensures ChunkedAfter(EMPTY, false, calls) == FlagAt(calls)
  {
    hide OnEvents, ChunkedAfter, StageOf, FlagAt, Silent;
    var n := HeadSplit(calls);
    var x, y, a := calls[..n], calls[n..], Assembly(StageOf(calls).hs, false);
    assert calls == x + y;
    ChunkedConcat(EMPTY, false, x, y);
    OnEventsConcat(EMPTY, x, y);
    if FlagAt(calls) {
      ChunkedStays(a, y);
    } else {
      FlagLostAfter(a, y);
    }
  }

  // ---------------------------------------------------------------- the client's side

  /** A reply to a chunked response that the client can read. */
  predicate Relayed(r: Reply) {
    && WellFormed(r) && KnownStatus(r.status) && !BodilessStatus(r.status)
    && FramingOfLines(r.headers).flags.chunked && !FramingOfLines(r.headers).flags.upgrade
  }

  /** After the printed header block, the client waits for a chunk. */
  lemma ClientHead(r: Reply)
    requires Relayed(r)
    ensures var s := Run(BackendCallbacks(false), Init(Response), Block(r));
            && AtChunk(s.p) && s.p.kind.Response? && s.count == |Block(r)|
            && BodyOf(s.events) == [] && Complete !in s.events
  {
    hide Run, Head, PrintedHeaders, LinesEvents, MeaningAll, ViaValue, IsHeader, Phrase, NoLineEnd, BodyOf, HeadInfo,
      Block, HeadRead;
    var p, hs := Init(Response), PrintedHeaders(r);
    BlockIsHead(r);
    PrintedAreHeaders(r);
    PrintedMeans(r);
    var reason := Phrase(r.status).value;
    var h := Head(r.requestMajor, r.requestMinor, r.status, reason, hs);
    ChunkedHeadRun(p, r.requestMajor, r.requestMinor, r.status, reason, hs);
    var q :| HeadRead(p, q, |h| - 1, r.requestMajor, r.requestMinor, r.status, FramingOfLines(hs))
      && Run(BackendCallbacks(false), p, h).events == [Begin] + LinesEvents(hs) + [HeadInfo(q)];
    HeadStage(hs, q);
    NoCompleteInHead(hs, q);
  }

  lemma CodedOk(cb: Callbacks, p: Parser)
    requires !cb.pauses && p.kind.Response? && p.errno.OK?
    ensures Ended(cb, p).errno.OK?
  {
    FinishRests(cb, p.(contentLength := 0, nread := 2, flags := p.flags.(trailing := true)));
  }

  /** A body in chunks is read as it is, and it is complete exactly with the last chunk. */
  lemma ClientReads(r: Reply, pieces: seq<string>, ends: bool)
    requires Relayed(r) && Writable(pieces)
    ensures var w := Block(r) + Chunks(pieces) + if ends then LAST_CHUNK else [];
            var s := Run(BackendCallbacks(false), Init(Response), w);
            s.p.errno.OK? && s.count == |w| && BodyOf(s.events) == Flatten(pieces) && (Complete in s.events <==> ends)
  {
    hide Run, Block, BodyOf, Relayed, Bytewise, Chunks, Flatten, Ended;
    var cb, p := BackendCallbacks(false), Init(Response);
    ClientHead(r);
    var a, b, body := Block(r), Chunks(pieces), Flatten(pieces);
    var s := Run(cb, p, a);
    ChunksRun(cb, s.p, pieces);
    RunConcat(cb, p, a, b);
    var t := Run(cb, p, a + b);
    BodyOfConcat(s.events, Bytewise(Body, body));
    BytewiseBody(Body, body);
    BytewiseFront(Body, body, 0);
    if ends {
      RunConcat(cb, p, a + b, LAST_CHUNK);
      LastChunkRun(cb, t.p);
      CodedOk(cb, t.p);
      BodyOfConcat(t.events, [Complete]);
      BodyOfOne(Complete);
    } else {
      assert a + b + [] == a + b;
    }
  }

  /** The first byte of a chunk is none of its data. */
  lemma SizeByteShare(cb: Callbacks, p: Parser, data: string)
    requires AtChunk(p) && data != []
    ensures |BodyOf(Run(cb, p, data).events)| < |data|
  {
    hide Run, Byte, BodyOf, Passes;
    assert data == [data[0]] + data[1..];
    RunConcat(cb, p, [data[0]], data[1..]);
    RunOne(cb, p, data[0]);
    var r := Run(cb, p, [data[0]]);
    RunShare(cb, r.p, data[1..]);
    BodyOfConcat(r.events, Run(cb, r.p, data[1..]).events);
    FirstByteShare(cb, p, data[0]);
  }

  lemma FirstByteShare(cb: Callbacks, p: Parser, ch: char)
    requires AtChunk(p)
    ensures BodyOf(Byte(cb, p, ch).events) == []
  {
    hide Passes, BodyOf;
    NoBody();
    PassesShare(cb, Counted(p), ch);
  }

  /** A body without chunks is not read as it is by a client that waits for chunks. */
  lemma ClientMisreads(r: Reply, body: string)
    requires Relayed(r)
    ensures var s := Run(BackendCallbacks(false), Init(Response), Block(r) + body);
            if body == [] then s.p.errno.OK? && Complete !in s.events else |BodyOf(s.events)| < |body|
  {
    hide Run, Block, BodyOf, Relayed;
    var cb, p := BackendCallbacks(false), Init(Response);
    ClientHead(r);
    var s := Run(cb, p, Block(r));
    if body == [] {
      assert Block(r) + body == Block(r);
    } else {
      RunConcat(cb, p, Block(r), body);
      SizeByteShare(cb, s.p, body);
      BodyOfConcat(s.events, Run(cb, s.p, body).events);
    }
  }

  // ---------------------------------------------------------------- the whole way

  lemma {:induction false} PiecesAreBody(calls: seq<Event>, limit: nat)
    requires FullBodies(calls, limit)
    ensures Flatten(BodyPieces(calls)) == BodyOf(calls)
    ensures forall i :: 0 <= i < |BodyPieces(calls)| ==> 0 < |BodyPieces(calls)[i]| <= limit
    decreases |calls|
  {
    hide BodyOf, Flatten;
    if calls == [] {
      NoBody();
      assert Flatten([]) == [] by { FlattenNone(); }
    } else {
      var front, e := calls[..|calls| - 1], calls[|calls| - 1];
      assert FullBody(e, limit) && FullBodies(front, limit);
      PiecesAreBody(front, limit);
      assert calls == front + [e];
      BodyOfConcat(front, [e]);
      BodyOfOne(e);
      if e.Data? && e.kind == Body {
        FlattenSnoc(BodyPieces(front), e.bytes);
      } else {
        assert BodyPieces(front) + [] == BodyPieces(front) && BodyOf(front) + [] == BodyOf(front);
      }
    }
  }

  lemma FlattenNone()
    ensures Flatten([]) == []
  {
  }

  lemma {:induction false} LongestBound(n: nat, pieces: seq<string>, limit: nat)
    requires n <= limit && forall i :: 0 <= i < |pieces| ==> |pieces[i]| <= limit
    ensures Longest(n, pieces) <= limit
    decreases |pieces|
  {
    if pieces != [] {
      LongestBound(n, pieces[..|pieces| - 1], limit);
    }
  }

  lemma EmitCompletes(t: seq<Event>, e: Event)
    ensures Complete in Emit(t, e) <==> Complete in t || e == Complete
  {
    if |t| > 0 {
      assert t == t[..|t| - 1] + [t[|t| - 1]];
    }
  }

  lemma {:induction false} MergeCompletes(t: seq<Event>, es: seq<Event>)
    ensures Complete in EmitAll(t, es) <==> Complete in t || Complete in es
    decreases |es|
  {
    hide Emit;
    if es != [] {
      var front := es[..|es| - 1];
      assert es == front + [es[|es| - 1]];
      MergeCompletes(t, front);
      EmitCompletes(EmitAll(t, front), es[|es| - 1]);
    }
  }

  lemma SameTrace(x: seq<Event>, y: seq<Event>)
    requires Merge(x) == Merge(y)
    ensures BodyOf(x) == BodyOf(y) && (Complete in x <==> Complete in y)
  {
    hide EmitAll, BodyOf;
    NoBody();
    BodyOfMerge([], x);
    BodyOfMerge([], y);
    MergeCompletes([], x);
    MergeCompletes([], y);
    assert [] + BodyOf(x) == BodyOf(x) && [] + BodyOf(y) == BodyOf(y);
  }

  /** What the proxy has written when the calls have been made, and the backend has closed or not. */
  function Output(ask: Ask, calls: seq<Event>, closes: bool): string {
    var s := OnCalls(ask, FRESH, calls);
    if closes then OnEof(s).output else s.output
  }

  /** The backend's bytes go through the parser, the Downstream object and the printer. */
  method Forward(ask: Ask, arrivals: seq<string>, closes: bool) returns (output: string, ghost limit: nat)
    requires AreReads(arrivals)
    ensures var calls := PieceCalls(BackendCallbacks(false), Init(Response), arrivals);
            output == Output(ask, calls, closes) && FullBodies(calls, limit) && limit == Longest(0, arrivals)
  {
    hide PieceCalls, RunPieces, OnCalls, Run, RunAsserts;
    var cb := BackendCallbacks(false);
    var backend := new HttpParser(Response, cb);
    var _ := Feed(backend, arrivals);
    var calls := backend.calls;
    limit := backend.longest;
    ghost var made := PieceCalls(cb, Init(Response), arrivals);
    assert calls == [] + made == made;
    var response := new HttpsResponse(ask);
    response.CallAll(calls);
    if closes {
      response.OnBackendEof();
    }
    output := response.writer.output;
  }

  /** The output for a response of which at least the head has arrived, in whatever pieces: its block, the body
      that has arrived, in chunks or not as the flag says, and the ending if the backend has come to its own. */
  lemma OutputOf(ask: Ask, arrivals: seq<string>, closes: bool)
    requires AreReads(arrivals) && Received(Flatten(arrivals))
    ensures var calls := PieceCalls(BackendCallbacks(false), Init(Response), arrivals);
            var sent := EventsOf(Flatten(arrivals));
            var held, done, s := ChunkedAfter(EMPTY, false, calls), Complete in sent || closes, StageOf(sent);
            && Merge(calls) == Merge(sent) && OnEvents(EMPTY, calls) == OnEvents(EMPTY, sent)
            && Output(ask, calls, closes) ==
               Block(ReplyOf(ask, s.info, s.hs)) + BodyCode(held, BodyPieces(calls)) + if done then Ending(held) else []
  {
    hide Run, PieceCalls, StageOf, OnEvents, ChunkedAfter, BodyPieces, BodyCode, Block, OnCalls, EmitAll, Told, Flatten,
      Ending, FlagAt, Silent;
    var cb, p := BackendCallbacks(false), Init(Response);
    var calls, sent := PieceCalls(cb, p, arrivals), EventsOf(Flatten(arrivals));
    InitRests();
    PiecesTell(cb, p, arrivals);
    StageSame(calls, sent);
    AssembledSame(calls, sent);
    OverIsComplete(sent);
    FlagOfHead(calls);
    OnCallsWritten(ask, calls);
    var s := StageOf(sent);
    var w := Block(ReplyOf(ask, s.info, s.hs)) + BodyCode(FlagAt(calls), BodyPieces(calls));
    assert w + [] == w;
  }

  lemma InitRests()
    ensures Inv(Init(Response)) && OpenKind(Init(Response).state) == None
  {
    hide Inv;
    InitHolds(Response);
    assert Init(Response) == Init(Response).(errno := OK);
  }

  /** What the client gets from what the proxy writes. */
  lemma ClientGets(r: Reply, held: bool, pieces: seq<string>, done: bool, calls: seq<Event>, open: Option<Kind>,
                   rest: string)
    requires Relayed(r) && Writable(pieces)
    requires var s := Run(BackendCallbacks(false), Init(Response),
                          Block(r) + BodyCode(held, pieces) + if done then Ending(held) else []);
             && (s.p.errno.OK? || s.p.errno.Paused? ==> Merge(calls) == Merge(s.events))
             && Pending(Merge(calls), open, rest) == Merge(s.events)
    ensures held ==> BodyOf(calls) == Flatten(pieces) && (Complete in calls <==> done)
    ensures !held ==> BodyOf(calls) != Flatten(pieces) || Complete !in calls
  {
    hide Run, Block, BodyOf, Relayed, EmitAll, Chunks, Flatten;
    var w := Block(r) + BodyCode(held, pieces);
    assert w + [] == w;
    var s := Run(BackendCallbacks(false), Init(Response), w + if done then Ending(held) else []);
    if held {
      ClientReads(r, pieces, done);
      SameTrace(calls, s.events);
    } else {
      ClientMisreads(r, Flatten(pieces));
      if Flatten(pieces) == [] {
        SameTrace(calls, s.events);
      } else {
        ShorterBody(calls, open, rest, s.events);
      }
    }
  }

  lemma ShorterBody(calls: seq<Event>, open: Option<Kind>, w: string, es: seq<Event>)
    requires Pending(Merge(calls), open, w) == Merge(es)
    ensures |BodyOf(calls)| <= |BodyOf(es)|
  {
    hide EmitAll, Emit, BodyOf;
    NoBody();
    BodyOfMerge([], calls);
    BodyOfMerge([], es);
    if open.Some? {
      BodyOfEmit(Merge(calls), Data(open.value, w));
    }
  }

  /** The whole way of a response that announces chunks: however much of it has arrived after its head, however its
      chunks were spelled and its bytes cut, whether or not the backend then closed, and however the client's reads
      are cut, the client gets exactly the body that the backend has sent, and the end of it, if and only if the
      flag was set, which is if the first piece of a Transfer-Encoding value held the word, and the backend's
      message was complete or the backend closed. */
  method Relay(ask: Ask, arrivals: seq<string>, closes: bool, lengths: seq<nat>) returns (client: HttpParser)
    requires AreReads(arrivals) && Received(Flatten(arrivals))
    requires forall i :: 0 <= i < |arrivals| ==> |arrivals[i]| < TWO32
    requires var s := StageOf(EventsOf(Flatten(arrivals))); Relayed(ReplyOf(ask, s.info, s.hs))
    ensures var calls := PieceCalls(BackendCallbacks(false), Init(Response), arrivals);
            var sent := EventsOf(Flatten(arrivals));
            var held, done := exists i :: FirstPieceSays(EMPTY, calls, i), Complete in sent || closes;
            && (BodyOf(client.calls) == BodyOf(sent) && Complete in client.calls <==> held && done)
            && (held ==> BodyOf(client.calls) == BodyOf(sent))
  {
    hide Run, PieceCalls, Output, Block, BodyOf, Relayed, NoEncodingTrails, EmitAll, FirstPieceSays, ChunkedAfter,
      BodyPieces, Flatten, Longest, RunAsserts, BodyCode, StageOf, OnEvents, ReplyOf;
    var output, limit := Forward(ask, arrivals, closes);
    ghost var cb := BackendCallbacks(false);
    ghost var calls := PieceCalls(cb, Init(Response), arrivals);
    ghost var sent := EventsOf(Flatten(arrivals));
    OutputOf(ask, arrivals, closes);
    ChunkedExactly(EMPTY, calls);
    SameTrace(calls, sent);
    LongestBound(0, arrivals, TWO32 - 1);
    PiecesAreBody(calls, limit);
    var cuts := Cut(output, lengths);
    client := new HttpParser(Response, BackendCallbacks(false));
    var n := Feed(client, cuts);
    ghost var s := Run(cb, Init(Response), output);
    EmitAllNone([]);
    ghost var open, w :| Pending(Merge(client.calls), open, w) == EmitAll([], s.events);
    ClientGets(ReplyOf(ask, StageOf(sent).info, StageOf(sent).hs), ChunkedAfter(EMPTY, false, calls),
               BodyPieces(calls), Complete in sent || closes, client.calls, open, w);
  }
}
