/**
 A response on its way to an HTTPS client: what the callbacks of the response parser do to the Downstream
 object and to the output of the upstream, one call after the other, and what the end of the backend does.
 */
module ResponseRelay {
  import opened HttpTypes
  import opened HttpRun
  import opened HttpHeaders
  import opened HttpChunks
  import opened HeaderAssembly
  import opened HeaderPrinter

  // ---------------------------------------------------------------- specification

  datatype ResponseState = Initial | HeaderComplete | MsgComplete

  /** What the printer needs to know of the request. */
  datatype Ask = Ask(major: nat, minor: nat, close: bool)

  datatype Relaying = Relaying(assembly: Assembly, chunked: bool, state: ResponseState, output: string)

  const FRESH: Relaying := Relaying(EMPTY, false, Initial, [])

  function ReplyOf(ask: Ask, info: Info, headers: seq<Header>): Reply {
    Reply(ask.major, ask.minor, info.statusCode, info.httpMajor, info.httpMinor, ask.close, !info.keepAlive, headers)
  }

  function Ending(chunked: bool): string { if chunked then LAST_CHUNK else [] }

  /** One call of the parser. */
  function OnCall(ask: Ask, s: Relaying, e: Event): Relaying {
    match e
    case Begin => s
    case HeadersComplete(info) =>
      s.(state := HeaderComplete, output := s.output + Block(ReplyOf(ask, info, s.assembly.headers)))
    case Complete => s.(state := MsgComplete, output := s.output + Ending(s.chunked))
    case Data(kind, bytes) =>
      if kind.Body? then s.(output := s.output + if s.chunked then ChunkOf(bytes) else bytes)
      else s.(assembly := OnEvent(s.assembly, e), chunked := ChunkedOnEvent(s.assembly, s.chunked, e))
  }

  function OnCalls(ask: Ask, s: Relaying, es: seq<Event>): Relaying
    decreases |es|
  {
    if es == [] then s else OnCall(ask, OnCalls(ask, s, es[..|es| - 1]), es[|es| - 1])
  }

  /** The backend closes: after the header, that is the end of the body. */
  function OnEof(s: Relaying): Relaying {
    if s.state.HeaderComplete? then s.(state := MsgComplete, output := s.output + Ending(s.chunked)) else s
  }

  // ---------------------------------------------------------------- the objects

  class HttpsResponse {
    const ask: Ask
    const downstream: Downstream
    const writer: BodyWriter
    var state: ResponseState

    constructor (ask: Ask)
      ensures Valid() && State() == FRESH && this.ask == ask && fresh(downstream) && fresh(writer)
    {
      var d := new Downstream();
      var w := new BodyWriter();
      this.ask, downstream, writer, state := ask, d, w, Initial;
    }

    ghost predicate Valid()
      reads this, downstream
    {
      downstream.Valid()
    }

    ghost function State(): Relaying
      reads this, downstream, writer
    {
      Relaying(downstream.State(), downstream.chunkedResponse, state, writer.output)
    }

    /** htp_hdrs_completecb and on_downstream_header_complete */
    method OnHeadersComplete(info: Info)
      requires Valid()
      modifies this`state, writer
      ensures Valid() && State() == OnCall(ask, old(State()), HeadersComplete(info))
    {
      hide Block;
      state := HeaderComplete;
      var hdrs := PrintBlock(ReplyOf(ask, info, downstream.responseHeaders));
      writer.output := writer.output + hdrs;
    }

    /** One of htp_hooks */
    method Call(e: Event)
      requires Valid()
      modifies this`state, downstream, writer
      ensures Valid() && State() == OnCall(ask, old(State()), e)
    {
      hide Block, OnEvent, ChunkedOnEvent, ChunkOf;
      match e {
        case Begin =>
        case HeadersComplete(info) =>
          OnHeadersComplete(info);
        case Complete =>
          state := MsgComplete;
          writer.OnDownstreamBodyComplete(downstream.chunkedResponse);
        case Data(kind, bytes) =>
          if kind.Body? {
            writer.OnDownstreamBody(downstream.chunkedResponse, bytes);
          } else if kind.Field? {
            downstream.OnKey(bytes);
          } else if kind.Value? && downstream.responseHeaders != [] {
            downstream.OnValue(bytes);
          } else {
            IgnoredData(downstream.State(), downstream.chunkedResponse, e);
          }
      }
    }

    method CallAll(es: seq<Event>)
      requires Valid()
      modifies this`state, downstream, writer
      ensures Valid() && State() == OnCalls(ask, old(State()), es)
    {
      hide OnCall;
      for i := 0 to |es|
        invariant Valid() && State() == OnCalls(ask, old(State()), es[..i])
      {
        assert es[..i + 1][..i] == es[..i];
        Call(es[i]);
      }
      assert es[..|es|] == es;
    }

    /** https_downstream_eventcb at the end of the backend. */
    method OnBackendEof()
      requires Valid()
      modifies this`state, writer
      ensures Valid() && State() == OnEof(old(State()))
    {
      if state.HeaderComplete? {
        writer.OnDownstreamBodyComplete(downstream.chunkedResponse);
        state := MsgComplete;
      }
    }
  }

  lemma IgnoredData(a: Assembly, chunked: bool, e: Event)
    requires e.Data? && !e.kind.Field? && (e.kind.Value? ==> a.headers == [])
    ensures OnEvent(a, e) == a && ChunkedOnEvent(a, chunked, e) == chunked
  {
  }

  // ---------------------------------------------------------------- the order of the calls of one response

  /** How far a trace of one response is, from its header on with what was told and assembled by then; `Off` if
      it is none. */
  datatype Stage =
    | Heading
    | Bodying(info: Info, hs: seq<Header>)
    | Trailing(info: Info, hs: seq<Header>)
    | Over(info: Info, hs: seq<Header>)
    | Off

  /** One call further; `a` is what has been assembled before it. */
  function Onward(s: Stage, a: Assembly, e: Event): Stage {
    match s
    case Heading =>
      if e.Begin? || (e.Data? && !e.kind.Body?) then s
      else if e.HeadersComplete? && !a.keyPrev then Bodying(e.info, a.headers)
      else Off
    case Bodying(info, hs) =>
      if e.Data? && e.kind.Body? then s
      else if e.Data? && e.kind.Field? then Trailing(info, hs)
      else if e.Complete? then Over(info, hs)
      else Off
    case Trailing(info, hs) =>
      if e.Data? && (e.kind.Field? || e.kind.Value?) then s
      else if e.Complete? then Over(info, hs)
      else Off
    case Over(_, _) => Off
    case Off => Off
  }

  function StageOf(es: seq<Event>): Stage {
    if es == [] then Heading
    else
      var front := es[..|es| - 1];
      Onward(StageOf(front), OnEvents(EMPTY, front), es[|es| - 1])
  }

  lemma StageSnoc(t: seq<Event>, e: Event)
    ensures StageOf(t + [e]) == Onward(StageOf(t), OnEvents(EMPTY, t), e)
  {
    hide Onward, OnEvents;
    assert (t + [e])[..|t|] == t;
  }

  lemma OnwardTwice(s: Stage, a: Assembly, b: Assembly, k: Kind, v: string, w: string, u: string)
    ensures Onward(Onward(s, a, Data(k, v)), b, Data(k, w)) == Onward(s, a, Data(k, u))
  {
  }

  lemma StageEmit(t: seq<Event>, e: Event)
    ensures StageOf(Emit(t, e)) == Onward(StageOf(t), OnEvents(EMPTY, t), e)
  {
    hide Onward, OnEvents;
    if |t| > 0 && t[|t| - 1].Data? && e.Data? && t[|t| - 1].kind == e.kind {
      var front, d := t[..|t| - 1], t[|t| - 1];
      StageSnoc(front, Data(e.kind, d.bytes + e.bytes));
      OnwardTwice(StageOf(front), OnEvents(EMPTY, front), OnEvents(EMPTY, t), e.kind, d.bytes, e.bytes,
                  d.bytes + e.bytes);
    } else {
      StageSnoc(t, e);
    }
  }

  /** The stage does not depend on how the data is cut. */
  lemma {:induction false} StageMerge(es: seq<Event>)
    ensures StageOf(Merge(es)) == StageOf(es)
    decreases |es|
  {
    hide Emit, Onward, OnEvents;
    if es != [] {
      var front := es[..|es| - 1];
      StageMerge(front);
      StageEmit(Merge(front), es[|es| - 1]);
      AssemblyIgnoresCuts(EMPTY, [], front);
      OnEventsNone(EMPTY);
    }
  }

  lemma StageSame(x: seq<Event>, y: seq<Event>)
    requires Merge(x) == Merge(y)
    ensures StageOf(x) == StageOf(y)
  {
    hide EmitAll, StageOf;
    StageMerge(x);
    StageMerge(y);
  }

  /** The headers that the stage has are the first of the assembled list. */
  predicate Carries(s: Stage, a: Assembly) {
    match s
    case Bodying(_, hs) => a == Assembly(hs, false)
    case Trailing(_, hs) => |hs| < |a.headers| && hs <= a.headers
    case Over(_, hs) => hs <= a.headers
    case _ => true
  }

  lemma CarriesOn(s: Stage, a: Assembly, e: Event)
    requires Carries(s, a)
    ensures Carries(Onward(s, a, e), OnEvent(a, e))
  {
  }

  lemma {:induction false} StageCarries(es: seq<Event>)
    ensures Carries(StageOf(es), OnEvents(EMPTY, es))
    decreases |es|
  {
    hide Onward, OnEvent, Carries;
    if es == [] {
      assert Carries(Heading, EMPTY) by { NothingCarried(); }
    } else {
      var front := es[..|es| - 1];
      StageCarries(front);
      CarriesOn(StageOf(front), OnEvents(EMPTY, front), es[|es| - 1]);
    }
  }

  lemma NothingCarried()
    ensures Carries(Heading, EMPTY)
  {
  }

  // ---------------------------------------------------------------- what is written

  /** The pieces that the body callback is called with. */
  function BodyPieces(calls: seq<Event>): seq<string> {
    if calls == [] then []
    else
      var e := calls[|calls| - 1];
      BodyPieces(calls[..|calls| - 1]) + if e.Data? && e.kind == Body then [e.bytes] else []
  }

  function BodyCode(chunked: bool, pieces: seq<string>): string {
    if chunked then Chunks(pieces) else Flatten(pieces)
  }

  lemma BodyCodeSnoc(chunked: bool, pieces: seq<string>, piece: string)
    ensures BodyCode(chunked, pieces + [piece]) ==
            BodyCode(chunked, pieces) + if chunked then ChunkOf(piece) else piece
  {
    hide ChunkOf;
    ChunksSnoc(pieces, piece);
    FlattenSnoc(pieces, piece);
  }

  /** The flag when the header was completed; before that, the flag. */
  function FlagAt(calls: seq<Event>): bool {
    if calls == [] then false
    else if StageOf(calls[..|calls| - 1]).Heading? then ChunkedAfter(EMPTY, false, calls)
    else FlagAt(calls[..|calls| - 1])
  }

  /** What the calls of one response have written: nothing before its header is complete; then the header
      block, and the body in the calls' own pieces, chunked or not as the flag said; and the ending, if the
      message is complete, as the flag says then. */
  function Written(ask: Ask, calls: seq<Event>): string {
    var body := BodyCode(FlagAt(calls), BodyPieces(calls));
    match StageOf(calls)
    case Heading => []
    case Bodying(info, hs) => Block(ReplyOf(ask, info, hs)) + body
    case Trailing(info, hs) => Block(ReplyOf(ask, info, hs)) + body
    case Over(info, hs) => Block(ReplyOf(ask, info, hs)) + body + Ending(ChunkedAfter(EMPTY, false, calls))
    case Off => []
  }

  predicate Stands(ask: Ask, s: Relaying, calls: seq<Event>) {
    && s.assembly == OnEvents(EMPTY, calls) && s.chunked == ChunkedAfter(EMPTY, false, calls)
    && s.output == Written(ask, calls)
    && match StageOf(calls)
       case Heading => s.state.Initial? && BodyPieces(calls) == [] && FlagAt(calls) == s.chunked
       case Bodying(_, _) => s.state.HeaderComplete? && FlagAt(calls) == s.chunked
       case Trailing(_, _) => s.state.HeaderComplete?
       case Over(_, _) => s.state.MsgComplete?
       case Off => true
  }

  lemma StandsOn(ask: Ask, s: Relaying, calls: seq<Event>, e: Event)
    requires Stands(ask, s, calls) && !Onward(StageOf(calls), OnEvents(EMPTY, calls), e).Off?
    ensures Stands(ask, OnCall(ask, s, e), calls + [e])
  {
    hide Block, OnEvent, ChunkedOnEvent, ChunkOf, BodyCode, OnEvents, ChunkedAfter, BodyPieces, StageOf, FlagAt;
    StandsStep(calls, e);
    var pieces := BodyPieces(calls);
    if !e.Data? || e.kind.Body? {
      NoHeaderData(s.assembly, s.chunked, e);
    }
    if e.Data? && e.kind.Body? {
      BodyCodeSnoc(s.chunked, pieces, e.bytes);
      var stage := StageOf(calls);
      var block := Block(ReplyOf(ask, stage.info, stage.hs));
      var more := if s.chunked then ChunkOf(e.bytes) else e.bytes;
      assert block + BodyCode(s.chunked, pieces) + more == block + (BodyCode(s.chunked, pieces) + more);
    } else {
      assert pieces + [] == pieces;
      if e.HeadersComplete? {
        BodyCodeNone(s.chunked);
        var block := Block(ReplyOf(ask, e.info, s.assembly.headers));
        assert [] + block == block + [];
      }
    }
  }

  lemma BodyCodeNone(chunked: bool)
    ensures BodyCode(chunked, []) == []
  {
  }

  lemma StandsStep(calls: seq<Event>, e: Event)
    ensures var all := calls + [e];
            && OnEvents(EMPTY, all) == OnEvent(OnEvents(EMPTY, calls), e)
            && ChunkedAfter(EMPTY, false, all) ==
               ChunkedOnEvent(OnEvents(EMPTY, calls), ChunkedAfter(EMPTY, false, calls), e)
            && StageOf(all) == Onward(StageOf(calls), OnEvents(EMPTY, calls), e)
            && BodyPieces(all) == BodyPieces(calls) + (if e.Data? && e.kind == Body then [e.bytes] else [])
            && FlagAt(all) == if StageOf(calls).Heading? then ChunkedAfter(EMPTY, false, all) else FlagAt(calls)
  {
    hide OnEvent, ChunkedOnEvent, Onward;
    assert (calls + [e])[..|calls|] == calls;
  }

  lemma NoHeaderData(a: Assembly, chunked: bool, e: Event)
    requires !e.Data? || e.kind.Body?
    ensures OnEvent(a, e) == a && ChunkedOnEvent(a, chunked, e) == chunked
  {
  }

  /** The fold over the calls, in closed form. */
  lemma {:induction false} OnCallsWritten(ask: Ask, calls: seq<Event>)
    requires !StageOf(calls).Off?
    ensures Stands(ask, OnCalls(ask, FRESH, calls), calls)
    decreases |calls|
  {
    hide OnCall, Stands, Onward, OnEvents;
    if calls == [] {
      StandsFirst(ask);
    } else {
      var front, e := calls[..|calls| - 1], calls[|calls| - 1];
      OffStays(StageOf(front), OnEvents(EMPTY, front), e);
      OnCallsWritten(ask, front);
      StandsOn(ask, OnCalls(ask, FRESH, front), front, e);
      assert calls == front + [e];
    }
  }

  lemma OffStays(s: Stage, a: Assembly, e: Event)
    ensures s.Off? ==> Onward(s, a, e).Off?
  {
  }

  lemma StandsFirst(ask: Ask)
    ensures Stands(ask, FRESH, [])
  {
  }

  /** The calls up to the end of the header. */
  lemma {:induction false} HeadSplit(calls: seq<Event>) returns (n: nat)
    requires var s := StageOf(calls); s.Bodying? || s.Trailing? || s.Over?
    ensures n <= |calls| && OnEvents(EMPTY, calls[..n]) == Assembly(StageOf(calls).hs, false)
    ensures ChunkedAfter(EMPTY, false, calls[..n]) == FlagAt(calls)
    decreases |calls|
  {
    hide OnEvents, ChunkedAfter;
    var front, e := calls[..|calls| - 1], calls[|calls| - 1];
    if StageOf(front).Heading? {
      n := |calls|;
      assert calls[..n] == calls;
      StageCarries(calls);
    } else {
      n := HeadSplit(front);
      assert front[..n] == calls[..n];
    }
  }
}
