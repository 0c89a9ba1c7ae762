/**
 The header block round trip: a block printed for the client, read by the parser in any pieces and
 assembled from its callbacks, gives the headers that were meant.
 */
module HeaderRoundTrip {
  import opened HttpTypes
  import opened HttpSwitch
  import opened HttpRun
  import opened HttpBytes
  import opened HttpBody
  import opened HttpNumbers
  import opened HttpMatcher
  import opened HttpHeaders
  import opened HttpLines
  import opened HttpResponse
  import opened HttpInvariant
  import opened HttpExecute
  import opened HttpFragments
  import opened HeaderAssembly
  import opened HeaderPrinter
  import opened StatusTable
  import Strings

  /** A reply whose parts the parser could have produced, and whose block is within the limit. */
  predicate WellFormed(r: Reply) {
    && r.requestMajor <= 999 && r.requestMinor <= 999 && r.status <= 999
    && IsValue(ViaValue(r.responseMajor, r.responseMinor))
    && AreHeaders(r.headers)
    && |Block(r)| <= MAX_HEADER_SIZE
  }

  // ---------------------------------------------------------------- the printed headers

  /** The forwarded headers are those that are neither hop-by-hop nor Via; each of them was there
      before. */
  lemma {:induction false} ForwardedKeeps(hs: seq<Header>)
    ensures forall i :: 0 <= i < |Forwarded(hs)| ==>
              Forwarded(hs)[i] in hs && !HopByHop(Forwarded(hs)[i]) && !Named(Forwarded(hs)[i], "via")
    ensures forall h :: h in hs && !HopByHop(h) && !Named(h, "via") ==> h in Forwarded(hs)
    decreases |hs|
  {
    hide HopByHop, Named;
    if hs != [] {
      var hs', h := hs[..|hs| - 1], hs[|hs| - 1];
      assert hs == hs' + [h];
      ForwardedKeeps(hs');
    }
  }

  /** Every header is kept or dropped by itself: order and repetitions stay. */
  lemma {:induction false} ForwardedConcat(a: seq<Header>, b: seq<Header>)
    ensures Forwarded(a + b) == Forwarded(a) + Forwarded(b)
    decreases |b|
  {
    if b == [] {
      assert a + b == a;
    } else {
      var front := b[..|b| - 1];
      assert (a + b)[..|a + b| - 1] == a + front;
      ForwardedConcat(a, front);
    }
  }

  lemma {:induction false} LastViaIsValue(hs: seq<Header>)
    requires AreHeaders(hs)
    ensures IsValue(LastVia(hs))
    decreases |hs|
  {
    hide HopByHop, Named;
    if hs != [] {
      assert IsHeader(hs[|hs| - 1]);
      LastViaIsValue(hs[..|hs| - 1]);
    }
  }

  lemma ValuesJoin(v: string, w: string)
    requires IsValue(v) && IsValue(w) && v != []
    ensures IsValue(v + ", " + w)
  {
  }

  lemma ConnectionIsHeader(value: string)
    requires value == "close" || value == "Keep-Alive"
    ensures IsHeader(Header("Connection", value))
  {
    hide Low;
    var u := Low("Connection");
    assert u[3] == 'n' && u[0] == 'c';
    assert CONTENT_LENGTH[3] == 't';
  }

  lemma ViaIsHeader(r: Reply)
    requires WellFormed(r)
    ensures IsHeader(AddedVia(r))
  {
    hide LastVia, ViaValue, Low, Block;
    LastViaIsValue(r.headers);
    var u := Low("Via");
    assert u[0] == 'v' && CONTENT_LENGTH[0] == 'c' && CONNECTION[0] == 'c';
    var via := LastVia(r.headers);
    if via == [] {
      assert AddedVia(r).value == ViaValue(r.responseMajor, r.responseMinor);
    } else {
      ValuesJoin(via, ViaValue(r.responseMajor, r.responseMinor));
    }
  }

  /** Every printed header is one that the parser accepts. */
  lemma PrintedAreHeaders(r: Reply)
    requires WellFormed(r)
    ensures AreHeaders(PrintedHeaders(r))
  {
    hide Block, LastVia, ViaValue, IsHeader, HopByHop, Named;
    ForwardedKeeps(r.headers);
    ViaIsHeader(r);
    ConnectionIsHeader("close");
    ConnectionIsHeader("Keep-Alive");
    var f := Forwarded(r.headers);
    forall i | 0 <= i < |f| ensures IsHeader(f[i]) {
      assert f[i] in r.headers;
    }
  }

  // ---------------------------------------------------------------- what the printed headers mean

  lemma SmallLetter(c: char, k: char)
    requires Token(c) != '\0' && ('a' <= k <= 'z' || k == '-')
    ensures Token(c) == k <==> Strings.Lowcase(c) == Strings.Lowcase(k)
    ensures c != '\0'
  {
  }

  lemma SameName(name: string, key: string)
    requires IsName(name) && forall i :: 0 <= i < |key| ==> 'a' <= key[i] <= 'z' || key[i] == '-'
    ensures Low(name) == key <==> Strings.SameNoCase(Strings.CStr(name), Strings.CStr(key))
  {
    hide Token, Strings.Lowcase;
    forall i | 0 <= i < |name| ensures name[i] != '\0' {
      SmallLetter(name[i], 'a');
    }
    Strings.CStrWhole(name);
    Strings.CStrWhole(key);
    if |name| == |key| {
      forall i | 0 <= i < |name|
        ensures Low(name)[i] == key[i] <==> Strings.Lowcase(name[i]) == Strings.Lowcase(key[i])
      {
        SmallLetter(name[i], key[i]);
      }
    }
  }

  /** Two framings that announce the same body. */
  predicate SameBody(f: Framing, g: Framing) {
    f.contentLength == g.contentLength && f.flags.chunked == g.flags.chunked && f.flags.upgrade == g.flags.upgrade
  }

  /** A header that announces chunks to the parser. */
  predicate Codes(h: Header) { NameClass(h.name).TransferEncoding? && Spells(h.value, "chunked") }

  lemma MeaningParts(f: Framing, h: Header)
    ensures var g, k := Meaning(f, h), NameClass(h.name);
            && g.contentLength == (if k.ContentLength? && h.value != [] then DecValue(h.value) else f.contentLength)
            && g.flags.chunked == (f.flags.chunked || Codes(h))
            && g.flags.upgrade == (f.flags.upgrade || (k.Upgrade? && h.value != []))
  {
    hide NameClass, DecValue;
  }

  lemma SameMeaning(f: Framing, g: Framing, h: Header)
    requires SameBody(f, g)
    ensures SameBody(Meaning(f, h), Meaning(g, h))
  {
    hide NameClass, DecValue, Codes, Meaning;
    MeaningParts(f, h);
    MeaningParts(g, h);
  }

  lemma {:induction false} MeaningConcat(f: Framing, a: seq<Header>, b: seq<Header>)
    ensures MeaningAll(f, a + b) == MeaningAll(MeaningAll(f, a), b)
    decreases |a|
  {
    hide Meaning;
    if a == [] {
      assert a + b == b;
    } else {
      assert (a + b)[1..] == a[1..] + b;
      MeaningConcat(Meaning(f, a[0]), a[1..], b);
    }
  }

  /** A name that means nothing to the parser, or that the header is about the connection. */
  predicate AboutConnection(name: string) { NameClass(name).General? || NameClass(name).Connection? }

  lemma ConnectionMeans(f: Framing, h: Header)
    requires AboutConnection(h.name)
    ensures SameBody(Meaning(f, h), f)
  {
    hide NameClass, DecValue, Spells, Meaning;
    MeaningParts(f, h);
  }

  lemma DroppedNames(name: string)
    requires var u := Low(name); u == "keep-alive" || u == "connection" || u == "proxy-connection" || u == "via"
    ensures AboutConnection(name)
  {
    hide Low;
    var u := Low(name);
    assert |CONTENT_LENGTH| == 14 && |TRANSFER_ENCODING| == 17 && |UPGRADE| == 7;
  }

  lemma DroppedMeans(f: Framing, h: Header)
    requires IsHeader(h) && (HopByHop(h) || Named(h, "via"))
    ensures SameBody(Meaning(f, h), f)
  {
    hide Low, Strings.SameNoCase, Strings.CStr, IsValue, IsName, Meaning, SameBody, AboutConnection, NameClass;
    SameName(h.name, "keep-alive");
    SameName(h.name, "connection");
    SameName(h.name, "proxy-connection");
    SameName(h.name, "via");
    DroppedNames(h.name);
    ConnectionMeans(f, h);
  }

  lemma OneHeader(f: Framing, h: Header)
    ensures MeaningAll(f, [h]) == Meaning(f, h) && MeaningAll(f, []) == f
  {
    hide Meaning;
    assert [h][1..] == [];
  }

  lemma {:induction false} ForwardedMeans(f: Framing, hs: seq<Header>)
    requires AreHeaders(hs)
    ensures SameBody(MeaningAll(f, Forwarded(hs)), MeaningAll(f, hs))
    decreases |hs|
  {
    hide Meaning, MeaningAll, HopByHop, Named, IsHeader;
    if hs != [] {
      var front, h := hs[..|hs| - 1], hs[|hs| - 1];
      ForwardedMeans(f, front);
      assert hs == front + [h] && IsHeader(h);
      MeaningConcat(f, front, [h]);
      MeaningConcat(f, Forwarded(front), [h]);
      OneHeader(MeaningAll(f, front), h);
      OneHeader(MeaningAll(f, Forwarded(front)), h);
      if HopByHop(h) || Named(h, "via") {
        DroppedMeans(MeaningAll(f, front), h);
        assert Forwarded(front) + [] == Forwarded(front);
      } else {
        SameMeaning(MeaningAll(f, Forwarded(front)), MeaningAll(f, front), h);
      }
    }
  }

  /** The printed headers announce the body that the backend announced. */
  lemma PrintedMeans(r: Reply)
    requires AreHeaders(r.headers)
    ensures SameBody(FramingOfLines(PrintedHeaders(r)), FramingOfLines(r.headers))
  {
    hide Meaning, MeaningAll, Forwarded, LastVia, ViaValue, IsHeader, SameBody, AboutConnection;
    var f := Framing(NoFlags, ULLONG_MAX);
    ForwardedMeans(f, r.headers);
    var a, b := Forwarded(r.headers), AddedConnection(r);
    MeaningConcat(f, a + b, [AddedVia(r)]);
    MeaningConcat(f, a, b);
    var g := MeaningAll(f, a);
    AddedNames();
    OneHeader(g, Header("Connection", "close"));
    OneHeader(g, Header("Connection", "Keep-Alive"));
    ConnectionMeans(g, Header("Connection", "close"));
    ConnectionMeans(g, Header("Connection", "Keep-Alive"));
    var k := MeaningAll(g, b);
    OneHeader(k, AddedVia(r));
    ConnectionMeans(k, AddedVia(r));
    SameBodyChain(MeaningAll(k, [AddedVia(r)]), k, g, MeaningAll(f, r.headers));
  }

  lemma AddedNames()
    ensures AboutConnection("Connection") && AboutConnection("Via")
  {
    hide Low;
    assert |Low("Connection")| == 10 && |Low("Via")| == 3;
    assert |CONTENT_LENGTH| == 14 && |TRANSFER_ENCODING| == 17 && |UPGRADE| == 7;
  }

  lemma SameBodyChain(a: Framing, b: Framing, c: Framing, d: Framing)
    requires SameBody(a, b) && (b == c || SameBody(b, c)) && SameBody(c, d)
    ensures SameBody(a, d)
  {
  }

  // ---------------------------------------------------------------- what they say about the connection

  predicate SameConnection(f: Framing, g: Framing) {
    f.flags.close == g.flags.close && f.flags.keepAlive == g.flags.keepAlive
  }

  lemma SilentMeans(f: Framing, h: Header)
    requires !NameClass(h.name).Connection?
    ensures SameConnection(Meaning(f, h), f)
  {
    hide NameClass, DecValue, Spells;
  }

  /** A header that is forwarded, or Via, is not about the connection. */
  lemma KeptIsSilent(h: Header)
    requires IsHeader(h) && !HopByHop(h)
    ensures !NameClass(h.name).Connection?
  {
    hide Low, Strings.SameNoCase, Strings.CStr, IsValue, IsName;
    SameName(h.name, "connection");
    SameName(h.name, "proxy-connection");
  }

  lemma {:induction false} ForwardedIsSilent(f: Framing, hs: seq<Header>)
    requires AreHeaders(hs)
    ensures SameConnection(MeaningAll(f, Forwarded(hs)), f)
    decreases |hs|
  {
    hide Meaning, MeaningAll, HopByHop, Named, IsHeader;
    if hs == [] {
      OneHeader(f, Header([], []));
    } else {
      var front, h := hs[..|hs| - 1], hs[|hs| - 1];
      ForwardedIsSilent(f, front);
      assert IsHeader(h);
      MeaningConcat(f, Forwarded(front), [h]);
      OneHeader(MeaningAll(f, Forwarded(front)), h);
      assert Forwarded(front) + [] == Forwarded(front);
      if !HopByHop(h) && !Named(h, "via") {
        KeptIsSilent(h);
        SilentMeans(MeaningAll(f, Forwarded(front)), h);
      }
    }
  }

  lemma ConnectionValues(f: Framing)
    ensures Meaning(f, Header("Connection", "close")).flags == f.flags.(close := true)
    ensures Meaning(f, Header("Connection", "Keep-Alive")).flags == f.flags.(keepAlive := true)
    ensures NameClass("Connection").Connection? && !NameClass("Via").Connection?
  {
    hide Low, DecValue;
    assert Low("Connection") == CONNECTION by { LowConnection(); }
    assert |Low("Via")| == 3;
    assert Spells("close", "close") && !Spells("close", "keep-alive") && Spells("Keep-Alive", "keep-alive");
  }

  lemma SmallToken(c: char)
    ensures 'a' <= c <= 'z' ==> Token(c) == c
    ensures Token('C') == 'c'
  {
  }

  lemma LowConnection()
    ensures Low("Connection") == "connection"
  {
    hide Token, Low;
    var w, key := "Connection", "connection";
    forall i | 0 <= i < |w| ensures Low(w)[i] == key[i] {
      SmallToken(w[i]);
      assert i > 0 ==> w[i] == key[i] && 'a' <= w[i] <= 'z';
    }
  }

  /** The client keeps its connection after the reply exactly if neither the request nor the response closes it. */
  lemma PrintedPersists(r: Reply)
    requires AreHeaders(r.headers)
    ensures Persists(r.requestMajor, r.requestMinor, FramingOfLines(PrintedHeaders(r)).flags) <==>
            !r.requestClose && !r.responseClose
  {
    hide Meaning, MeaningAll, Forwarded, LastVia, ViaValue, IsHeader, NameClass;
    var f := Framing(NoFlags, ULLONG_MAX);
    ForwardedIsSilent(f, r.headers);
    var a, b := Forwarded(r.headers), AddedConnection(r);
    MeaningConcat(f, a + b, [AddedVia(r)]);
    MeaningConcat(f, a, b);
    var g := MeaningAll(f, a);
    OneHeader(g, Header("Connection", "close"));
    OneHeader(g, Header("Connection", "Keep-Alive"));
    ConnectionValues(g);
    var k := MeaningAll(g, b);
    OneHeader(k, AddedVia(r));
    SilentMeans(k, AddedVia(r));
  }

  /** Nothing is said about the connection to a client from HTTP/1.1 on whose connection stays. */
  lemma PrintedIsSilent(r: Reply)
    requires AreHeaders(r.headers) && !r.requestClose && !r.responseClose && r.requestMajor > 0 && r.requestMinor > 0
    ensures forall h :: h in PrintedHeaders(r) ==> !NameClass(h.name).Connection?
  {
    hide LastVia, ViaValue, IsHeader, NameClass, Forwarded, HopByHop, Named;
    ForwardedKeeps(r.headers);
    ConnectionValues(Framing(NoFlags, 0));
    var fs := Forwarded(r.headers);
    forall h | h in PrintedHeaders(r) ensures !NameClass(h.name).Connection? {
      if h in fs {
        var i :| 0 <= i < |fs| && fs[i] == h;
        KeptIsSilent(h);
      }
    }
  }

  // ---------------------------------------------------------------- Via

  /** The last Via header is at `i`, or there is none and `i` is -1. */
  predicate LastViaAt(hs: seq<Header>, i: int) {
    && -1 <= i < |hs| && (i >= 0 ==> Named(hs[i], "via"))
    && forall k :: i < k < |hs| ==> !Named(hs[k], "via")
  }

  lemma OtherName(h: Header, a: string, b: string)
    requires Named(h, a) && |a| != |b|
    requires forall i :: 0 <= i < |a + b| ==> (a + b)[i] != '\0'
    ensures !Named(h, b)
  {
    hide Strings.CStr;
    assert (a + b)[..|a|] == a && (a + b)[|a|..] == b;
    Strings.CStrWhole(a);
    Strings.CStrWhole(b);
  }

  lemma ViaIsNotHop(h: Header)
    requires Named(h, "via")
    ensures !HopByHop(h)
  {
    hide Named;
    OtherName(h, "via", "keep-alive");
    OtherName(h, "via", "connection");
    OtherName(h, "via", "proxy-connection");
  }

  lemma {:induction false} LastViaIs(hs: seq<Header>, i: int)
    requires LastViaAt(hs, i)
    ensures LastVia(hs) == if i < 0 then [] else hs[i].value
    decreases |hs|
  {
    hide HopByHop, Named;
    if hs != [] {
      var n := |hs| - 1;
      if i == n {
        ViaIsNotHop(hs[n]);
      } else {
        LastViaIs(hs[..n], i);
      }
    }
  }

  lemma VersionText(major: nat, minor: nat)
    ensures ViaValue(major, minor) == DecOf(major) + "." + DecOf(minor) + " shrpx" <==> major <= 9 && minor <= 9
  {
    if major > 9 {
      assert |DecOf(major)| == |DecOf(major / 10)| + 1;
    }
    if minor > 9 {
      assert |DecOf(minor)| == |DecOf(minor / 10)| + 1;
    }
  }

  /** One Via header is printed, the last header of the block: the last value received, a comma and a blank if that
      is not empty, and the version of the response with the name of the proxy.  The version is spelled right
      exactly if both its numbers are digits. */
  lemma PrintedVia(r: Reply, i: int)
    requires LastViaAt(r.headers, i)
    ensures var ps := PrintedHeaders(r);
            var was := if i >= 0 && r.headers[i].value != [] then r.headers[i].value + ", " else [];
            && ps != [] && ps[|ps| - 1].name == "Via"
            && (forall k :: 0 <= k < |ps| - 1 ==> !Named(ps[k], "via"))
            && |ps[|ps| - 1].value| == |was| + |"1.1 shrpx"| && was <= ps[|ps| - 1].value
            && (ps[|ps| - 1].value == was + (DecOf(r.responseMajor) + "." + DecOf(r.responseMinor) + " shrpx") <==>
                r.responseMajor <= 9 && r.responseMinor <= 9)
  {
    hide Named, HopByHop, DecOf, Forwarded, LastVia;
    LastViaIs(r.headers, i);
    ForwardedKeeps(r.headers);
    VersionText(r.responseMajor, r.responseMinor);
    ConnectionIsNotVia();
    var ps := PrintedHeaders(r);
    var was := if i >= 0 && r.headers[i].value != [] then r.headers[i].value + ", " else [];
    var v := ViaValue(r.responseMajor, r.responseMinor);
    assert ps[|ps| - 1].value == was + v;
    assert (was + v)[|was|..] == v;
    forall k | 0 <= k < |ps| - 1 ensures !Named(ps[k], "via") {
      assert ps[k] in Forwarded(r.headers) || ps[k] in AddedConnection(r);
    }
  }

  lemma ConnectionIsNotVia()
    ensures !Named(Header("Connection", "close"), "via") && !Named(Header("Connection", "Keep-Alive"), "via")
  {
    Strings.CStrWhole("via");
    Strings.CStrWhole("Connection");
  }

  // ---------------------------------------------------------------- reading the block

  lemma BlockIsHead(r: Reply)
    requires KnownStatus(r.status)
    ensures Phrase(r.status).Some? && NoLineEnd(Phrase(r.status).value)
    ensures Block(r) == Head(r.requestMajor, r.requestMinor, r.status, Phrase(r.status).value, PrintedHeaders(r))
  {
    hide Lines, PrintedHeaders, DecOf, Phrase, NoLineEnd;
    TableKnows(r.status);
    PhraseIsLine(r.status);
    var a := "HTTP/" + DecOf(r.requestMajor) + "." + DecOf(r.requestMinor) + " ";
    var d, s := DecOf(r.status), Phrase(r.status).value;
    assert a + (d + " " + s) + CRLF == a + d + " " + s + CRLF;
  }

  /** The callbacks after the header lines carry no header data. */
  lemma HeadEndFrame(cb: Callbacks, q: Parser)
    requires q.state.HeadersAlmostDone? && q.errno.OK? && Room(q, 1) && !q.flags.trailing
    ensures var s := Run(cb, q, [LF]);
            && s.count == 1 && (s.p.errno.OK? || s.p.errno.Paused?)
            && (s.events == [HeadInfo(q)] || s.events == [HeadInfo(q), Complete])
            && s.p.statusCode == q.statusCode && s.p.httpMajor == q.httpMajor && s.p.httpMinor == q.httpMinor
  {
    hide Run, Byte, Handle, InfoOf, HandleHeadersEnd;
    HeadersEndByte(cb, q);
    RunOne(cb, q, LF);
    DoneFrame(cb, AfterHeadersComplete(cb, q));
    var o := HandleHeadersEnd(cb, AfterHeadersComplete(cb, q), LF);
    assert [HeadInfo(q)] + [] == [HeadInfo(q)] && [HeadInfo(q)] + [Complete] == [HeadInfo(q), Complete];
  }

  lemma DoneFrame(cb: Callbacks, q: Parser)
    requires q.state.HeadersDone? && q.errno.OK?
    ensures var o := HandleHeadersEnd(cb, q, LF);
            && (o.p.errno.OK? || o.p.errno.Paused?) && (o.note == [] || o.note == [Complete])
            && o.p.statusCode == q.statusCode && o.p.httpMajor == q.httpMajor && o.p.httpMinor == q.httpMinor
  {
    hide NeedsEof, NewMessage;
  }

  /** A block for a status in the table is read completely, with its version, its status and its
      header lines. */
  lemma BlockRead(cb: Callbacks, p: Parser, r: Reply)
    requires WellFormed(r) && KnownStatus(r.status) && p == Init(Response)
    ensures var s := Run(cb, p, Block(r));
            && s.count == |Block(r)| && (s.p.errno.OK? || s.p.errno.Paused?)
            && s.p.statusCode == r.status && s.p.httpMajor == r.requestMajor && s.p.httpMinor == r.requestMinor
            && exists q, end :: (end == [] || end == [Complete])
                 && s.events == [Begin] + LinesEvents(PrintedHeaders(r)) + [HeadInfo(q)] + end
  {
    hide Run, Block, Head, PrintedHeaders, StatusLine, Lines, LinesEvents, MeaningAll, InfoOf, AtHeadersComplete,
      ViaValue, IsHeader,
      Phrase, NoLineEnd;
    BlockIsHead(r);
    var reason, hs := Phrase(r.status).value, PrintedHeaders(r);
    PrintedAreHeaders(r);
    HeadRun(cb, p, r.requestMajor, r.requestMinor, r.status, reason, hs);
    var a := StatusLine(r.requestMajor, r.requestMinor, r.status, reason) + Lines(hs) + [CR];
    var q := Run(cb, p, a).p;
    FramingStarts(hs);
    HeadEndFrame(cb, q);
    RunConcat(cb, p, a, [LF]);
    var es := [Begin] + LinesEvents(hs);
    assert es + [HeadInfo(q)] == es + [HeadInfo(q)] + [];
    assert es + [HeadInfo(q), Complete] == es + [HeadInfo(q)] + [Complete];
  }

  /** The assembled headers of such a trace. */
  lemma TraceAssembled(hs: seq<Header>, q: Parser, end: seq<Event>)
    requires AreHeaders(hs) && (end == [] || end == [Complete])
    ensures OnEvents(EMPTY, [Begin] + LinesEvents(hs) + [HeadInfo(q)] + end) == Assembly(hs, false)
  {
    hide OnEvents, LinesEvents, InfoOf, IsValue, NameClass;
    var ls := LinesEvents(hs);
    OnEventsOne(EMPTY, Begin);
    OnEventsConcat(EMPTY, [Begin], ls);
    LinesAssembled(EMPTY, hs);
    assert [] + hs == hs;
    var a := Assembly(hs, false);
    OnEventsConcat(EMPTY, [Begin] + ls, [HeadInfo(q)]);
    OnEventsOne(a, HeadInfo(q));
    OnEventsConcat(EMPTY, [Begin] + ls + [HeadInfo(q)], end);
    OnEventsOne(a, Complete);
    OnEventsNone(a);
  }

  /** The round trip: whatever the callbacks and whatever their cutting, the assembled header list
      is the printed one. */
  lemma BlockRoundTrip(cb: Callbacks, r: Reply, calls: seq<Event>)
    requires WellFormed(r) && KnownStatus(r.status)
    requires Merge(calls) == EmitAll([], Run(cb, Init(Response), Block(r)).events)
    ensures OnEvents(EMPTY, calls) == Assembly(PrintedHeaders(r), false)
  {
    hide Run, Block, PrintedHeaders, LinesEvents, EmitAll, OnEvents, ViaValue, IsHeader;
    var es := Run(cb, Init(Response), Block(r)).events;
    BlockRead(cb, Init(Response), r);
    PrintedAreHeaders(r);
    var q, end :| (end == [] || end == [Complete])
      && es == [Begin] + LinesEvents(PrintedHeaders(r)) + [HeadInfo(q)] + end;
    TraceAssembled(PrintedHeaders(r), q, end);
    OnEventsNone(EMPTY);
    AssemblyIgnoresCuts(EMPTY, [], es);
    AssemblyIgnoresCuts(EMPTY, [], calls);
  }

  // ---------------------------------------------------------------- statuses outside the table

  lemma UnknownStatusLine(cb: Callbacks, p: Parser, major: nat, minor: nat)
    requires p == Init(Response) && major <= 999 && minor <= 999
    ensures var w := "HTTP/" + DecOf(major) + "." + DecOf(minor) + " " + [CR];
            Run(cb, p, w).p.errno == InvalidStatus
  {
    hide Run, DecOf;
    var a, b := "HTTP/", DecOf(major) + "." + DecOf(minor) + " ";
    DecShort(major);
    DecShort(minor);
    ProtocolRun(cb, p);
    var q := InStatus(p, 5, ResFirstHttpMajor);
    VersionRun(cb, q, major, minor);
    RunConcat(cb, p, a, b);
    var s := q.(nread := q.nread + |b|, httpMajor := major, httpMinor := minor, state := ResFirstStatusCode);
    StatusByte(cb, s, CR);
    RunConcat(cb, p, a + b, [CR]);
    assert a + b + [CR] == "HTTP/" + DecOf(major) + "." + DecOf(minor) + " " + [CR];
  }

  lemma DecShort(n: nat)
    requires n <= 999
    ensures |DecOf(n)| <= 3
  {
    if n >= 10 {
      assert |DecOf(n)| == |DecOf(n / 10)| + 1;
      if n / 10 >= 10 {
        assert |DecOf(n / 10)| == |DecOf(n / 100)| + 1;
      }
    }
  }

  /** The printed block is readable exactly for the statuses that get_status_string knows; for any
      other the status line has no status and the parser rejects it. */
  lemma BlockReadable(cb: Callbacks, r: Reply)
    requires WellFormed(r)
    ensures var s := Run(cb, Init(Response), Block(r));
            (s.p.errno.OK? || s.p.errno.Paused?) <==> KnownStatus(r.status)
  {
    hide Run, PrintedHeaders, Lines, DecOf, Phrase;
    TableKnows(r.status);
    if KnownStatus(r.status) {
      BlockRead(cb, Init(Response), r);
    } else {
      var w := "HTTP/" + DecOf(r.requestMajor) + "." + DecOf(r.requestMinor) + " ";
      UnknownStatusLine(cb, Init(Response), r.requestMajor, r.requestMinor);
      var rest := [LF] + Lines(PrintedHeaders(r)) + CRLF;
      assert [CR] + [LF] == CRLF;
      assert Block(r) == w + [CR] + rest;
      RunConcat(cb, Init(Response), w + [CR], rest);
      RunStopped(cb, Run(cb, Init(Response), w + [CR]).p, rest);
    }
  }

  // ---------------------------------------------------------------- the objects together

  /** A block is printed, cut in whatever way, parsed and assembled: the Downstream object ends with the
      printed headers. */
  method PrintAndRead(r: Reply, lengths: seq<nat>, cb: Callbacks) returns (d: Downstream, n: nat)
    requires WellFormed(r) && KnownStatus(r.status)
    ensures d.responseHeaders == PrintedHeaders(r) && n == |Block(r)|
  {
    hide Run, Block, PrintedHeaders, LinesEvents, EmitAll, OnEvents, ViaValue, IsHeader, RunAsserts;
    var block := PrintBlock(r);
    var pieces := Cut(block, lengths);
    var parser := new HttpParser(Response, cb);
    n := Feed(parser, pieces);
    BlockRead(cb, Init(Response), r);
    EmitAllNone([]);
    d := new Downstream();
    BlockRoundTrip(cb, r, parser.calls);
    Replay(d, parser.calls);
  }

  /** Runs the header callbacks of a trace on a Downstream object. */
  method Replay(d: Downstream, calls: seq<Event>)
    requires d.Valid()
    modifies d
    ensures d.State() == OnEvents(old(d.State()), calls)
    ensures d.chunkedResponse == ChunkedAfter(old(d.State()), old(d.chunkedResponse), calls)
  {
    hide OnEvent, ChunkedOnEvent;
    for i := 0 to |calls|
      invariant d.Valid() && d.State() == OnEvents(old(d.State()), calls[..i])
      invariant d.chunkedResponse == ChunkedAfter(old(d.State()), old(d.chunkedResponse), calls[..i])
    {
      assert calls[..i + 1][..i] == calls[..i];
      ReplayOne(d, calls[i]);
    }
    assert calls[..|calls|] == calls;
  }

  method ReplayOne(d: Downstream, e: Event)
    requires d.Valid()
    modifies d
    ensures d.Valid() && d.State() == OnEvent(old(d.State()), e)
    ensures d.chunkedResponse == ChunkedOnEvent(old(d.State()), old(d.chunkedResponse), e)
  {
    if e.Data? && e.kind.Field? {
      d.OnKey(e.bytes);
    } else if e.Data? && e.kind.Value? && d.responseHeaders != [] {
      d.OnValue(e.bytes);
    }
  }
}
