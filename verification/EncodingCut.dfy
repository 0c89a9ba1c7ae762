/**
 Where the reads of a chunked response may end: a read that ends inside the word of its Transfer-Encoding
 header costs the client the body, and no other cut does.
 */
module EncodingCut {
  import opened HttpTypes
  import opened HttpSwitch
  import opened HttpRun
  import opened HttpMatcher
  import opened HttpHeaders
  import opened HttpLines
  import HttpChunks
  import HttpPipeline
  import opened HttpResponse
  import opened HttpExecute
  import opened HttpFragments
  import opened HeaderAssembly
  import opened HeaderPrinter
  import opened HeaderRoundTrip
  import opened HttpNumbers
  import opened BodyShare
  import opened ChunkedFlag
  import opened ResponseRelay
  import opened RelayStages
  import opened Rechunk
  import opened AnyChunks
  import Strings

  // ---------------------------------------------------------------- the header among the bytes

  /** Header `j` and no other is a Transfer-Encoding header, and its value is the word. */
  predicate OnlyEncoding(hs: seq<Header>, j: nat) {
    && j < |hs| && Codes(hs[j])
    && forall i :: 0 <= i < |hs| && i != j ==> !NameClass(hs[i].name).TransferEncoding?
  }

  /** The response up to the value of header `j`. */
  function UpToValue(major: nat, minor: nat, status: nat, reason: string, hs: seq<Header>, j: nat): string
    requires j < |hs|
  {
    StatusLine(major, minor, status, reason) + Lines(hs[..j]) + hs[j].name + ": "
  }

  /** The head goes on with the value. */
  lemma UpToValueIn(major: nat, minor: nat, status: nat, reason: string, hs: seq<Header>, j: nat)
    requires j < |hs|
    ensures var x := UpToValue(major, minor, status, reason, hs, j);
            x + hs[j].value <= Head(major, minor, status, reason, hs)
  {
    hide StatusLine, Lines;
    var v, rest := hs[j].value, hs[j + 1..];
    LinesConcat(hs[..j], hs[j..]);
    assert hs == hs[..j] + hs[j..] && hs[j..][0] == hs[j] && hs[j..][1..] == rest;
    assert Lines(hs[j..]) == Line(hs[j]) + Lines(rest) by { LinesUnfold(hs[j..]); }
    var a, b := StatusLine(major, minor, status, reason), Lines(hs[..j]);
    assert Head(major, minor, status, reason, hs)
           == a + b + hs[j].name + ": " + v + (CRLF + Lines(rest) + CRLF);
  }

  lemma LinesUnfold(hs: seq<Header>)
    requires hs != []
    ensures Lines(hs) == Line(hs[0]) + Lines(hs[1..])
  {
  }

  lemma UpToValueRun(cb: Callbacks, p: Parser, major: nat, minor: nat, status: nat, reason: string, hs: seq<Header>,
                     j: nat)
    requires Readable(p, major, minor, status, reason, hs) && j < |hs|
    ensures var x := UpToValue(major, minor, status, reason, hs, j);
            var r := Run(cb, p, x);
            && r.p.state.HeaderValueStart? && r.p.errno.OK? && ClassOf(r.p.headerState) == NameClass(hs[j].name)
            && r.p.nread == p.nread + |x|
            && r.events == [Begin] + LinesEvents(hs[..j]) + Bytewise(Field, hs[j].name)
  {
    hide Run, StatusLine, Lines, LinesEvents, Bytewise, MeaningAll, NameClass, NameSeen, IsHeader;
    UpToValueIn(major, minor, status, reason, hs, j);
    var a, b, name := StatusLine(major, minor, status, reason), Lines(hs[..j]), hs[j].name;
    assert |a + b + name + ": "| <= |Head(major, minor, status, reason, hs)|;
    assert IsHeader(hs[j]) && AreHeaders(hs[..j]);
    NameOf(hs[j]);
    StatusLineRun(cb, p, major, minor, status, reason);
    var q := AfterStatusLine(p, |a|, major, minor, status);
    LinesRun(cb, q, hs[..j]);
    RunConcat(cb, p, a, b);
    var s := Run(cb, q, b).p;
    NameRun(cb, s, name);
    RunConcat(cb, p, a + b, name);
    var t := Run(cb, s, name).p;
    NameRecognised(t.headerState, t.index, name);
    SeparatorRun(cb, t);
    RunConcat(cb, p, a + b + name, ": ");
  }

  lemma NameOf(h: Header)
    requires IsHeader(h)
    ensures IsName(h.name)
  {
  }

  lemma UpToValueAssembled(hs: seq<Header>, j: nat)
    requires j < |hs| && AreHeaders(hs)
    ensures OnEvents(EMPTY, [Begin] + LinesEvents(hs[..j]) + Bytewise(Field, hs[j].name)) ==
            Assembly(hs[..j] + [Header(hs[j].name, [])], true)
  {
    hide OnEvents, LinesEvents, Bytewise, IsHeader;
    var before, name := hs[..j], hs[j].name;
    forall i | 0 <= i < |hs| ensures hs[i].name != [] {
      NameOf(hs[i]);
    }
    OnEventsOne(EMPTY, Begin);
    OnEventsConcat(EMPTY, [Begin], LinesEvents(before));
    LinesAssembled(EMPTY, before);
    OnEventsConcat(EMPTY, [Begin] + LinesEvents(before), Bytewise(Field, name));
    BytewiseAssembled(Assembly(before, false), Field, name);
    assert [] + before == before;
  }

  // ---------------------------------------------------------------- the exact condition

  lemma WordIn(v: string)
    requires Spells(v, WORD) && IsValue(v)
    ensures Spells(v[..|WORD|], WORD) && IsValue(v[..|WORD|])
  {
  }

  lemma EncodingPlace(major: nat, minor: nat, status: nat, reason: string, hs: seq<Header>, j: nat)
    requires ChunkedHead(Init(Response), major, minor, status, reason, hs) && OnlyEncoding(hs, j)
    ensures AtEncoding(BackendCallbacks(false), Init(Response), UpToValue(major, minor, status, reason, hs, j))
  {
    hide Run, StatusLine, Lines, LinesEvents, Bytewise, MeaningAll, NameClass, OnEvents, IsTransferEncoding, IsName,
      IsValue, Spells;
    var cb, p := BackendCallbacks(false), Init(Response);
    InitRests();
    UpToValueRun(cb, p, major, minor, status, reason, hs, j);
    UpToValueIn(major, minor, status, reason, hs, j);
    UpToValueAssembled(hs, j);
    assert IsHeader(hs[j]);
    EncodingName(hs[j].name);
    assert |hs[j].value| >= |WORD| by { assert Spells(hs[j].value, WORD); SpelledLength(hs[j].value); }
    ClassHolds(Run(cb, p, UpToValue(major, minor, status, reason, hs, j)).p.headerState);
  }

  lemma SpelledLength(v: string)
    requires Spells(v, WORD)
    ensures |v| >= |WORD|
  {
  }

  lemma ClassHolds(h: HeaderState)
    requires ClassOf(h).TransferEncoding?
    ensures !h.ContentLength?
  {
  }

  lemma OthersAlone(hs: seq<Header>, j: nat, all: seq<Header>)
    requires OnlyEncoding(hs, j) && AreHeaders(hs) && hs <= all && forall i :: |hs| <= i < |all| ==> Silent(all[i])
    ensures Alone(hs[..j] + [Header(hs[j].name, [])], all)
  {
    hide NameClass, IsTransferEncoding, IsValue, IsName;
    forall i | 0 <= i < |hs| && i != j ensures !IsTransferEncoding(hs[i].name) && all[i] == hs[i] {
      assert IsHeader(hs[i]);
      EncodingName(hs[i].name);
    }
  }

  /** A response of which the head at least has arrived, and what follows it is accepted as its body and trailer,
      whatever the spelling of its chunks. */
  predicate Begun(major: nat, minor: nat, status: nat, reason: string, hs: seq<Header>, data: string) {
    && ChunkedHead(Init(Response), major, minor, status, reason, hs)
    && Head(major, minor, status, reason, hs) <= data && Received(data)
  }

  /** Its header is the one that the relay prints. */
  lemma BegunStage(ask: Ask, major: nat, minor: nat, status: nat, reason: string, hs: seq<Header>, data: string)
    requires Begun(major, minor, status, reason, hs, data)
    ensures var s := StageOf(EventsOf(data));
            && s.hs == hs && ReplyOf(ask, s.info, s.hs) == ReplyTo(ask, major, minor, status, hs)
            && hs <= OnEvents(EMPTY, EventsOf(data)).headers
  {
    hide Run, Head, LinesEvents, MeaningAll, InfoOf, HeadRead, StageOf, OnEvents, Persists, IsHeader,
      HttpChunks.AtChunk, NoEncodingTrails, Readable;
    var cb, p := BackendCallbacks(false), Init(Response);
    var h := Head(major, minor, status, reason, hs);
    ChunkedHeadRun(p, major, minor, status, reason, hs);
    var q :| HeadRead(p, q, |h| - 1, major, minor, status, FramingOfLines(hs))
      && Run(cb, p, h).events == [Begin] + LinesEvents(hs) + [HeadInfo(q)];
    assert data == h + data[|h|..];
    RunConcat(cb, p, h, data[|h|..]);
    ReadableHeaders(p, major, minor, status, reason, hs);
    HeadStage(hs, q);
    StageFront(EventsOf(h), EventsOf(data));
    KeepAliveInfo(p, q, |h| - 1, major, minor, status, hs);
    StageCarries(EventsOf(data));
  }

  lemma ReadableHeaders(p: Parser, major: nat, minor: nat, status: nat, reason: string, hs: seq<Header>)
    requires Readable(p, major, minor, status, reason, hs)
    ensures AreHeaders(hs)
  {
  }

  /** For every chunked response with one Transfer-Encoding header, every part of it that has its head, however its
      chunks are spelled, and every cutting: the first piece of the value holds the word if and only if no read
      ends inside the word. */
  lemma HeldExactly(major: nat, minor: nat, status: nat, reason: string, hs: seq<Header>, arrivals: seq<string>, j: nat)
    requires AreReads(arrivals) && Begun(major, minor, status, reason, hs, Flatten(arrivals)) && OnlyEncoding(hs, j)
    ensures (exists i :: FirstPieceSays(EMPTY, PieceCalls(BackendCallbacks(false), Init(Response), arrivals), i)) <==>
            !CutInside(arrivals, |UpToValue(major, minor, status, reason, hs, j)|, |WORD|)
  {
    hide Run, Head, LinesEvents, Bytewise, MeaningAll, NameClass, OnEvents, FirstPieceSays, PieceCalls, CutInside,
      AtEncoding, Alone, ChunkedAfter, Flatten, Spells, IsValue, UpToValue, IsName, StageOf, ReplyOf, Silent;
    var cb, p, data := BackendCallbacks(false), Init(Response), Flatten(arrivals);
    var x, v := UpToValue(major, minor, status, reason, hs, j), hs[j].value;
    assert IsHeader(hs[j]);
    SpelledLength(v);
    WordIn(v);
    var w := v[..|WORD|];
    UpToValueIn(major, minor, status, reason, hs, j);
    assert x + w <= x + v <= data;
    EncodingPlace(major, minor, status, reason, hs, j);
    BegunStage(Ask(1, 1, false), major, minor, status, reason, hs, data);
    UpToValueRun(cb, p, major, minor, status, reason, hs, j);
    UpToValueAssembled(hs, j);
    OthersAlone(hs, j, OnEvents(EMPTY, EventsOf(data)).headers);
    FlagExactly(cb, p, arrivals, x, w);
    ChunkedExactly(EMPTY, PieceCalls(cb, p, arrivals));
  }

  /** The whole way, in terms of the reads alone: the client gets exactly the body that has arrived, and its
      end, if and only if no read of the backend ended inside the word of the Transfer-Encoding header, and the
      backend's message was complete or the backend closed. */
  method RelayCut(ask: Ask, ghost major: nat, ghost minor: nat, ghost status: nat, ghost reason: string,
                  ghost hs: seq<Header>, ghost j: nat, arrivals: seq<string>, closes: bool, lengths: seq<nat>)
    returns (client: HttpParser)
    requires AreReads(arrivals) && Begun(major, minor, status, reason, hs, Flatten(arrivals)) && OnlyEncoding(hs, j)
    requires forall i :: 0 <= i < |arrivals| ==> |arrivals[i]| < HttpChunks.TWO32
    requires Relayed(ReplyTo(ask, major, minor, status, hs))
    ensures var sent := EventsOf(Flatten(arrivals));
            BodyOf(client.calls) == BodyOf(sent) && Complete in client.calls <==>
              && !CutInside(arrivals, |UpToValue(major, minor, status, reason, hs, j)|, |WORD|)
              && (Complete in sent || closes)
  {
    hide Run, PieceCalls, BodyOf, Relayed, FirstPieceSays, CutInside, UpToValue, NameClass, Spells, Flatten, StageOf,
      OnEvents, ReplyOf, Received, Head, ChunkedHead;
    HeldExactly(major, minor, status, reason, hs, arrivals, j);
    BegunStage(ask, major, minor, status, reason, hs, Flatten(arrivals));
    client := Relay(ask, arrivals, closes, lengths);
  }

  /** So the same response is relayed or lost: it is relayed if it arrives at once, and lost if it arrives in two
      reads of which the first ends inside the word. */
  lemma HeldOrLost(major: nat, minor: nat, status: nat, reason: string, hs: seq<Header>, data: string, j: nat, k: nat)
    requires Begun(major, minor, status, reason, hs, data) && OnlyEncoding(hs, j) && 0 < k < |WORD|
    ensures var c := |UpToValue(major, minor, status, reason, hs, j)| + k;
            var cb, p := BackendCallbacks(false), Init(Response);
            && c < |data| && (exists i :: FirstPieceSays(EMPTY, PieceCalls(cb, p, [data]), i))
            && !exists i :: FirstPieceSays(EMPTY, PieceCalls(cb, p, [data[..c], data[c..]]), i)
  {
    hide Begun, FirstPieceSays, PieceCalls, UpToValue, NameClass, Spells;
    var x := UpToValue(major, minor, status, reason, hs, j);
    var c := |x| + k;
    WordArrived(major, minor, status, reason, hs, data, j);
    var one, two := [data], [data[..c], data[c..]];
    FlattenTwo(data[..c], data[c..]);
    FlattenOne(data);
    assert data[..c] + data[c..] == data;
    HeldExactly(major, minor, status, reason, hs, one, j);
    HeldExactly(major, minor, status, reason, hs, two, j);
    assert two[..1] == [data[..c]];
    FlattenOne(data[..c]);
    assert CutInside(two, |x|, |WORD|);
    OneIsWhole(data, |x|);
  }

  lemma OneIsWhole(data: string, c: nat)
    requires c + |WORD| <= |data|
    ensures !CutInside([data], c, |WORD|)
  {
    FlattenOne(data);
    forall k | 0 <= k <= 1 ensures !(c < |Flatten([data][..k])| < c + |WORD|) {
      if k == 0 {
        assert [data][..k] == [];
      } else {
        assert [data][..k] == [data];
      }
    }
  }

  lemma FlattenOne(a: string)
    ensures Flatten([a]) == a
  {
    assert [a][1..] == [];
    assert a + [] == a;
  }

  lemma FlattenTwo(a: string, b: string)
    ensures Flatten([a, b]) == a + b
  {
    assert [a, b][1..] == [b];
    FlattenOne(b);
  }

  lemma WordArrived(major: nat, minor: nat, status: nat, reason: string, hs: seq<Header>, data: string, j: nat)
    requires Begun(major, minor, status, reason, hs, data) && OnlyEncoding(hs, j)
    ensures |UpToValue(major, minor, status, reason, hs, j)| + |WORD| <= |data|
  {
    hide Head, UpToValue, NameClass, Spells, MeaningAll, Received;
    UpToValueIn(major, minor, status, reason, hs, j);
    SpelledLength(hs[j].value);
  }

  /** The conditions hold of every part of a chunked response in any spelling, with a trailer that has no
      Transfer-Encoding header. */
  lemma ArrivedBegun(major: nat, minor: nat, status: nat, reason: string, hs: seq<Header>, cs: seq<HttpChunks.Chunk>,
                     last: HttpChunks.Chunk, ts: seq<Header>, data: string)
    requires Arrived(major, minor, status, reason, hs, cs, last, ts, data)
    ensures Begun(major, minor, status, reason, hs, data)
  {
    hide Received, Head, TrailedText, ChunkedHead;
    ArrivedReceived(major, minor, status, reason, hs, cs, last, ts, data);
  }

  // ---------------------------------------------------------------- there are such responses

  const EXAMPLE: Header := Header("Transfer-Encoding", "chunked")

  lemma ExampleForwarded()
    ensures Forwarded([EXAMPLE]) == [EXAMPLE] && LastVia([EXAMPLE]) == []
  {
    hide Named;
    var h := EXAMPLE;
    LongerName(h, "keep-alive");
    LongerName(h, "connection");
    LongerName(h, "proxy-connection");
    LongerName(h, "via");
    assert [h][..0] == [];
  }

  lemma LongerName(h: Header, name: string)
    requires |name| < |h.name| && forall i :: 0 <= i < |h.name| ==> h.name[i] != '\0'
    ensures !Named(h, name)
  {
    Strings.CStrWhole(h.name);
  }

  /** The block that is printed for the example is far below the limit. */
  lemma ExampleBlock(r: Reply)
    requires r == Reply(1, 1, 200, 1, 1, false, false, [EXAMPLE])
    ensures |Block(r)| <= MAX_HEADER_SIZE
  {
    hide Forwarded, LastVia;
    ExampleForwarded();
    var hs := PrintedHeaders(r);
    var via := AddedVia(r);
    assert hs == [EXAMPLE, via];
    assert |via.value| == 9;
    LinesUnfold(hs);
    LinesUnfold(hs[1..]);
    assert hs[1..][1..] == [];
    assert Lines([]) == [];
    assert |Line(EXAMPLE)| <= 100 && |Line(via)| <= 100;
    assert |StatusString(r)| <= 100 && |DecOf(1)| == 1;
  }

  /** The conditions of `RelayCut` can be met, also with a size that the proxy would spell in another way. */
  lemma RelayExample()
    ensures var hs := [EXAMPLE];
            var h := Head(1, 1, 200, "OK", hs);
            && Begun(1, 1, 200, "OK", hs, h + "0a;x" + CRLF) && OnlyEncoding(hs, 0)
            && Relayed(ReplyTo(Ask(1, 1, false), 1, 1, 200, hs))
  {
    hide Head, MeaningAll, Low, IsName, NameClass, IsHeader, Block, Persists, Received;
    var hs, c := [EXAMPLE], HttpChunks.Chunk("0a", ";x", "0123456789");
    var h := Head(1, 1, 200, "OK", hs);
    HttpPipeline.ChunkedExample();
    HttpPipeline.ChunkedName();
    assert Spells("chunked", WORD);
    ExampleChunk(c);
    var data := h + "0a;x" + CRLF;
    assert data <= h + TrailedText([c], HttpChunks.LAST, []) by {
      var rest := TrailedText([c][1..], HttpChunks.LAST, []);
      assert TrailedText([c], HttpChunks.LAST, []) == HttpChunks.ChunkText(c) + rest;
    }
    assert Lines([]) == [];
    ArrivedBegun(1, 1, 200, "OK", hs, [c], HttpChunks.LAST, [], data);
    var r := ReplyTo(Ask(1, 1, false), 1, 1, 200, hs);
    ExampleBlock(r);
    assert IsValue(ViaValue(1, 1));
  }

  lemma ExampleChunk(c: HttpChunks.Chunk)
    requires c == HttpChunks.Chunk("0a", ";x", "0123456789")
    ensures HttpChunks.AreChunks([c], HttpChunks.LAST) && "0a;x" + CRLF <= HttpChunks.ChunkText(c)
  {
    HttpChunks.LastSizeLine();
    assert "0a"[..1] == "0" && "0"[..0] == [];
    assert HexValue([]) == 0 && HexValue("0") == 0;
    assert HexValue("0a") == 10;
  }
}
