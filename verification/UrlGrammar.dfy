/**
 http_parser_parse_url as a whole: exactly which texts it accepts and exactly where it cuts them, over the bytes of
 the text alone.
 */
module UrlGrammar {
  import opened HttpTypes
  import opened HttpNumbers
  import opened HttpSwitch
  import opened HttpUrl
  import opened UrlTarget
  import opened UrlCuts
  import opened UrlAuthority
  import Uri

  // ---------------------------------------------------------------- the grammar

  /** The text between the slashes of the scheme and the path. */
  function Authority(buf: string, connect: bool): string
    requires IsTarget(buf, connect)
  {
    var c := CutsOf(buf, connect);
    if c.server <= c.tail <= |buf| then buf[c.server..c.tail] else []
  }

  /** The digits at the end of an authority. */
  function PortText(a: string): string {
    if HostCutsOf(a).port <= |a| then a[HostCutsOf(a).port..] else []
  }

  /** A host and a port and nothing else: no text in front of an at sign, no path, and nothing behind a question
      mark or a hash sign. */
  predicate HostAndPortOnly(buf: string)
    requires IsTarget(buf, true)
  {
    var c := CutsOf(buf, true);
    && HostCutsOf(Authority(buf, true)).user == 0 && PortText(Authority(buf, true)) != []
    && c.query == c.tail && c.hash <= c.query + 1 && c.fragment == |buf|
  }

  /** A URL that http_parser_parse_url accepts: a target whose authority, if it needs one, is well formed and has a
      port of at most 65535; for CONNECT, only a host and a port; and the empty text, except for CONNECT. */
  predicate IsUrlText(buf: string, connect: bool) {
    if buf == [] then !connect
    else
      && IsTarget(buf, connect)
      && (!OriginForm(buf, connect) ==>
            IsAuthority(Authority(buf, connect)) && DecValue(PortText(Authority(buf, connect))) <= 0xFFFF)
      && (connect ==> HostAndPortOnly(buf))
  }

  /** Every field is the text between two cuts. */
  predicate CutAt(fields: map<UrlField, Span>, buf: string, connect: bool)
    requires IsTarget(buf, connect)
  {
    var c := CutsOf(buf, connect);
    var h := HostCutsOf(Authority(buf, connect));
    && Piece(fields, Schema, 0, c.scheme)
    && Piece(fields, Userinfo, c.server, c.server + h.user)
    && Piece(fields, Host, c.server + h.lo, c.server + h.hi)
    && Piece(fields, Port, c.server + h.port, c.tail)
    && Piece(fields, Path, c.tail, c.query)
    && Piece(fields, Query, if c.query < c.hash then c.query + 1 else c.hash, c.hash)
    && Piece(fields, Fragment, c.fragment, |buf|)
  }

  // ---------------------------------------------------------------- what is no target

  lemma FirstStage(c: char)
    ensures var s := ParseUrlChar(ReqServerStart, c); s.Dead? || Stage(s) >= 5
    ensures var s := ParseUrlChar(ReqSpacesBeforeUrl, c); s.Dead? || s.ReqSchema? || Stage(s) >= 6
  {
  }

  lemma LateEnds(s: State)
    requires UrlState(s) && Stage(s) >= 5
    ensures EndsUrl(s)
  {
  }

  /** A text that is no target, and yet not refused by the first loop, ends inside its scheme. */
  lemma NoTarget(parts: map<UrlField, Span>, buf: string, connect: bool)
    requires PartsOf(parts, buf, connect) && buf != [] && !IsTarget(buf, connect)
    ensures Schema in parts && Host !in parts
  {
    hide ParseUrlChar, Stage, StateAt, FieldOf, EndsUrl, IsTarget;
    var n := |buf|;
    TargetExactly(buf, connect);
    StateAdvances(buf, connect, 1, n);
    FirstIs(buf, connect);
    FirstStage(buf[0]);
    if Stage(StateAt(buf, connect, n)) >= 5 {
      LateEnds(StateAt(buf, connect, n));
    }
    assert Holds(parts, buf, connect, Schema, n) && Holds(parts, buf, connect, Host, n);
    SchemeLabel(StateAt(buf, connect, 1));
    LabelIs(buf, connect, 0);
    assert LabelAt(buf, connect, 0) == Some(Schema);
    if Host in parts {
      var k := parts[Host].off;
      assert Within(parts[Host], k);
      StateAdvances(buf, connect, k + 1, n);
      LabelIs(buf, connect, k);
      FieldByStage(StateAt(buf, connect, k + 1), Host);
    }
  }

  lemma FirstIs(buf: string, connect: bool)
    requires buf != []
    ensures StateAt(buf, connect, 1) == ParseUrlChar(StartOf(connect), buf[0])
  {
    hide ParseUrlChar;
    assert StateAt(buf, connect, 0) == StartOf(connect);
  }

  lemma SchemeLabel(s: State)
    ensures s.ReqSchema? ==> FieldOf(s) == Some(Schema)
  {
  }

  // ---------------------------------------------------------------- the two loops

  lemma TargetCuts(buf: string, connect: bool)
    requires IsTarget(buf, connect)
    ensures var c := CutsOf(buf, connect);
            && c.scheme <= c.server <= c.tail <= c.query <= c.hash <= c.fragment <= |buf|
            && (OriginForm(buf, connect) ==> c.scheme == c.tail == 0)
            && (!connect && !OriginForm(buf, connect) ==> 0 < c.scheme)
            && Authority(buf, connect) == buf[c.server..c.tail]
  {
    hide IsServerText, AlphaEnd, ServerEnd, Uri.Index;
    FrontIsShaped(buf, connect);
    TailIsShaped(buf, connect);
  }

  /** The authority that is divided is the text between the cuts. */
  lemma AuthorityIs(parts: map<UrlField, Span>, buf: string, connect: bool)
    requires IsTarget(buf, connect) && PartsOf(parts, buf, connect)
    ensures var sp := AuthoritySpan(parts);
            && sp.off + sp.len <= |buf| && Text(buf, sp) == Authority(buf, connect)
            && (Host in parts <==> Authority(buf, connect) != [])
            && (Host in parts ==> sp.off == CutsOf(buf, connect).server)
            && (Schema in parts <==> CutsOf(buf, connect).scheme > 0)
            && (AuthorityAccepted(parts, buf, connect) <==> IsAuthority(Authority(buf, connect)))
  {
    hide PartsOf, CutsOf, IsTarget, IsAuthority, HostStateAt, Authority, SeesAt;
    TargetCuts(buf, connect);
    PartsBy(parts, buf, connect, Schema);
    PartsBy(parts, buf, connect, Host);
    SeesAtExactly(buf, connect);
    AuthorityExactly(Authority(buf, connect));
  }

  /** Both loops accept a text that is not empty if and only if it is a target whose authority is well formed,
      where there is one. */
  lemma CutNeeds(fields: map<UrlField, Span>, parts: map<UrlField, Span>, buf: string, connect: bool)
    requires Cut(fields, parts, buf, connect) && buf != []
    ensures IsTarget(buf, connect)
    ensures !OriginForm(buf, connect) ==> IsAuthority(Authority(buf, connect)) || fields == parts
    ensures (Schema in parts || Host in parts) ==> IsAuthority(Authority(buf, connect))
  {
    hide PartsOf, CutsOf, IsTarget, IsAuthority, HostStateAt, Authority, SeesAt, HostSoFar;
    if !IsTarget(buf, connect) {
      NoTarget(parts, buf, connect);
      assert Text(buf, AuthoritySpan(parts)) == [];
      NoAuthority(SeesAt(buf, connect, |buf|));
    } else {
      AuthorityIs(parts, buf, connect);
    }
  }

  lemma NoAuthority(foundAt: bool)
    ensures !HostEnds(HostStateAt([], foundAt, 0))
  {
  }

  /** The fields are the texts between the cuts. */
  lemma CutIsAt(fields: map<UrlField, Span>, parts: map<UrlField, Span>, buf: string, connect: bool)
    requires Cut(fields, parts, buf, connect) && IsTarget(buf, connect)
    requires Authority(buf, connect) != []
    ensures IsAuthority(Authority(buf, connect)) && CutAt(fields, buf, connect)
  {
    hide PartsOf, CutsOf, IsTarget, IsAuthority, HostStateAt, Authority, SeesAt, HostSoFar, HostCutsOf, Piece;
    TargetCuts(buf, connect);
    AuthorityIs(parts, buf, connect);
    SeesAtExactly(buf, connect);
    var a := Authority(buf, connect);
    AuthorityBy(fields, parts, a, CutsOf(buf, connect).server, Userinfo);
    AuthorityBy(fields, parts, a, CutsOf(buf, connect).server, Host);
    AuthorityBy(fields, parts, a, CutsOf(buf, connect).server, Port);
    OtherPiece(fields, parts, buf, connect, Schema);
    OtherPiece(fields, parts, buf, connect, Path);
    OtherPiece(fields, parts, buf, connect, Query);
    OtherPiece(fields, parts, buf, connect, Fragment);
  }

  lemma OtherPiece(fields: map<UrlField, Span>, parts: map<UrlField, Span>, buf: string, connect: bool, f: UrlField)
    requires Cut(fields, parts, buf, connect) && IsTarget(buf, connect) && !Divided(f)
    ensures var c := CutsOf(buf, connect); Piece(fields, f, LoOf(c, f), HiOf(c, f, |buf|))
  {
    hide PartsOf, CutsOf, IsTarget, HostStateAt, Holds, HoldsHost;
    PartsBy(parts, buf, connect, f);
  }

  lemma EmptyHostCuts()
    ensures HostCutsOf([]) == HostCuts(0, 0, 0, 0)
  {
    assert [][0..] == "";
  }

  /** Without an authority there are only a path, a query and a fragment. */
  lemma PathIsAt(fields: map<UrlField, Span>, parts: map<UrlField, Span>, buf: string, connect: bool)
    requires Cut(fields, parts, buf, connect) && IsTarget(buf, connect) && Authority(buf, connect) == []
    requires CutsOf(buf, connect).scheme == 0
    ensures CutAt(fields, buf, connect) && Host !in fields && Port !in fields
  {
    hide PartsOf, CutsOf, IsTarget, IsAuthority, HostStateAt, Authority, SeesAt, HostSoFar, HostCutsOf;
    TargetCuts(buf, connect);
    AuthorityIs(parts, buf, connect);
    EmptyHostCuts();
    PartsWhole(parts, buf, connect);
    OtherPiece(fields, parts, buf, connect, Schema);
    OtherPiece(fields, parts, buf, connect, Path);
    OtherPiece(fields, parts, buf, connect, Query);
    OtherPiece(fields, parts, buf, connect, Fragment);
  }

  lemma PartsWhole(parts: map<UrlField, Span>, buf: string, connect: bool)
    requires PartsOf(parts, buf, connect)
    ensures Userinfo !in parts && Port !in parts
  {
    hide Holds, StateAt;
  }

  lemma EmptyText(fields: map<UrlField, Span>, parts: map<UrlField, Span>, connect: bool)
    requires Cut(fields, parts, [], connect)
    ensures fields == map[]
  {
    forall f: UrlField ensures f !in parts {
      if Whole(f) {
        assert Holds(parts, [], connect, f, 0);
      }
    }
  }

  // ---------------------------------------------------------------- http_parser_parse_url

  /** What the two loops refuse is no URL. */
  lemma RefusedIsNone(parts: map<UrlField, Span>, buf: string, connect: bool)
    requires || StateAt(buf, connect, |buf|).Dead?
             || (PartsOf(parts, buf, connect) && (Schema in parts || Host in parts) && InBounds(parts, |buf|)
                 && !AuthorityAccepted(parts, buf, connect))
    ensures !IsUrlText(buf, connect)
  {
    hide StateAt, PartsOf, CutsOf, IsTarget, IsAuthority, Authority, AuthorityAccepted;
    if buf == [] {
      EmptyParts(parts, connect);
      assert false;
    } else {
      TargetExactly(buf, connect);
      if !StateAt(buf, connect, |buf|).Dead? && IsTarget(buf, connect) {
        AuthorityIs(parts, buf, connect);
        TargetCuts(buf, connect);
      }
    }
  }

  lemma EmptyParts(parts: map<UrlField, Span>, connect: bool)
    ensures !StateAt([], connect, 0).Dead?
    ensures PartsOf(parts, [], connect) ==> Schema !in parts && Host !in parts
  {
    if PartsOf(parts, [], connect) {
      assert Holds(parts, [], connect, Schema, 0) && Holds(parts, [], connect, Host, 0);
    }
  }

  lemma NeedsHost()
    ensures !IsAuthority([])
  {
  }

  /** What the two loops accept, up to the conditions on the port and on CONNECT. */
  lemma AcceptedIsCut(fields: map<UrlField, Span>, parts: map<UrlField, Span>, buf: string, connect: bool)
    requires Cut(fields, parts, buf, connect) && buf != []
    ensures IsTarget(buf, connect) && CutAt(fields, buf, connect)
    ensures if Authority(buf, connect) == []
            then Host !in fields && Port !in fields && (connect || OriginForm(buf, connect))
            else IsAuthority(Authority(buf, connect)) && !OriginForm(buf, connect)
  {
    hide PartsOf, CutsOf, IsTarget, IsAuthority, Authority, CutAt, HostOf;
    CutNeeds(fields, parts, buf, connect);
    AuthorityIs(parts, buf, connect);
    TargetCuts(buf, connect);
    NeedsHost();
    if Authority(buf, connect) != [] {
      CutIsAt(fields, parts, buf, connect);
    } else {
      PathIsAt(fields, parts, buf, connect);
    }
  }

  lemma AuthorityCuts(a: string)
    requires a == [] || IsAuthority(a)
    ensures var h := HostCutsOf(a);
            && h.user <= h.lo <= h.hi <= h.port <= |a| && PortText(a) == a[h.port..] && (a != [] ==> h.lo < h.hi)
  {
    hide IsAuthority, HostCutsOf, AuthorityShaped;
    if a == [] {
      EmptyHostCuts();
    } else {
      AuthorityIsShaped(a);
      HostCutsOrdered(HostCutsOf(a), a);
    }
  }

  /** The port is the number that its text spells. */
  lemma PortIs(fields: map<UrlField, Span>, buf: string, connect: bool)
    requires IsTarget(buf, connect) && CutAt(fields, buf, connect)
    requires Authority(buf, connect) == [] || IsAuthority(Authority(buf, connect))
    ensures Port in fields ==> fields[Port].off + fields[Port].len <= |buf|
    ensures PortValue(fields, buf) == DecValue(PortText(Authority(buf, connect)))
  {
    hide IsTarget, CutsOf, IsAuthority, HostCutsOf, Authority, PortText;
    TargetCuts(buf, connect);
    var a, c := Authority(buf, connect), CutsOf(buf, connect);
    AuthorityCuts(a);
    var h := HostCutsOf(a);
    if Port in fields {
      assert Text(buf, fields[Port]) == buf[c.server + h.port..c.tail] == a[h.port..];
    } else {
      assert PortText(a) == [];
    }
  }

  /** CONNECT asks for exactly the fields host and port. */
  lemma ConnectIs(fields: map<UrlField, Span>, buf: string)
    requires IsTarget(buf, true) && CutAt(fields, buf, true) && IsAuthority(Authority(buf, true))
    ensures fields.Keys == {Host, Port} <==> HostAndPortOnly(buf)
  {
    hide IsTarget, CutsOf, IsAuthority, HostCutsOf, Authority, PortText;
    TargetCuts(buf, true);
    NeedsHost();
    var a, c := Authority(buf, true), CutsOf(buf, true);
    AuthorityCuts(a);
    ConnectScheme(buf);
    if HostAndPortOnly(buf) {
      forall f: UrlField ensures f in fields.Keys <==> f in {Host, Port} {
        assert f in fields <==> f == Host || f == Port;
      }
    }
    if fields.Keys == {Host, Port} {
      assert Userinfo !in fields && Path !in fields && Query !in fields && Fragment !in fields;
      assert Port in fields.Keys;
    }
  }

  lemma ConnectScheme(buf: string)
    requires IsTarget(buf, true)
    ensures CutsOf(buf, true).scheme == 0
  {
  }

  /** A text is accepted if and only if it is a URL by the grammar above.  Its fields are exactly the texts between
      its cuts: not empty, inside the buffer, disjoint and in order, all other bytes being delimiters; and `port` is
      the number that its text spells. */
  method ParseUrl(buf: string, connect: bool) returns (ok: bool, u: UrlResult)
    requires |buf| <= 0xFFFF
    ensures ok <==> IsUrlText(buf, connect)
    ensures ok && buf != [] ==>
              && CutAt(u.fields, buf, connect)
              && u.port == DecValue(PortText(Authority(buf, connect)))
    ensures ok && buf == [] ==> u == UrlResult(map[], 0)
    ensures ok ==> InBounds(u.fields, |buf|) && Ordered(u.fields) && HttpUrl.Complete(u.fields, buf)
  {
    hide StateAt, Cut, PartsOf, Ordered, HttpUrl.Complete, AuthorityAccepted, AllDigits, IsTarget, CutAt, Authority,
      PortText, IsAuthority, HostAndPortOnly, OriginForm;
    var fields;
    ghost var parts;
    ok, fields, parts := CutUrl(buf, connect);
    u := UrlResult(fields, 0);
    if !ok {
      RefusedIsNone(parts, buf, connect);
      return;
    }
    CutInOrder(fields, parts, buf, connect);
    CutIsComplete(fields, parts, buf, connect);
    NeedsHost();
    if buf == [] {
      EmptyText(fields, parts, connect);
    } else {
      AcceptedIsCut(fields, parts, buf, connect);
      PortIs(fields, buf, connect);
      ConnectNeedsHost(buf);
      if connect && Authority(buf, connect) != [] {
        ConnectIs(fields, buf);
      }
    }
    if connect && fields.Keys != {Host, Port} {
      return false, u;
    }
    if Port in fields {
      var v := ReadPort(buf, connect, fields, parts);
      if v > 0xFFFF {
        return false, u;
      }
      u := UrlResult(fields, v);
    }
  }

  lemma ConnectNeedsHost(buf: string)
    ensures !OriginForm(buf, true)
  {
  }
}
