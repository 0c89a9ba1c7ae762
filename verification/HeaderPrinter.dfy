/**
 The response header printer of the HTTPS upstream, and that its output is read back as the headers
 it was meant to forward.  Hop-by-hop headers (section 13.5.1 of RFC 2616) are dropped or rewritten.
 */
module HeaderPrinter {
  import opened HttpTypes
  import opened HttpNumbers
  import opened HttpHeaders
  import opened HttpLines
  import opened StatusTable
  import Strings

  // ---------------------------------------------------------------- the reply to print

  /** What on_downstream_header_complete reads off the Downstream object. */
  datatype Reply = Reply(
    requestMajor: nat, requestMinor: nat, status: nat,
    responseMajor: nat, responseMinor: nat,
    requestClose: bool, responseClose: bool,
    headers: seq<Header>)

  /** get_status_string: the empty string for a status that is not in the table. */
  function StatusString(r: Reply): string {
    match Phrase(r.status)
    case None => ""
    case Some(phrase) => DecOf(r.status) + " " + phrase
  }

  predicate Named(h: Header, name: string) {
    Strings.SameNoCase(Strings.CStr(h.name), Strings.CStr(name))
  }

  predicate HopByHop(h: Header) {
    Named(h, "keep-alive") || Named(h, "connection") || Named(h, "proxy-connection")
  }

  /** The headers that are forwarded as they are. */
  function Forwarded(hs: seq<Header>): seq<Header> {
    if hs == [] then []
    else
      var h := hs[|hs| - 1];
      Forwarded(hs[..|hs| - 1]) + if HopByHop(h) || Named(h, "via") then [] else [h]
  }

  /** The value of the last Via header, if there is one. */
  function LastVia(hs: seq<Header>): string {
    if hs == [] then []
    else
      var h := hs[|hs| - 1];
      if !HopByHop(h) && Named(h, "via") then h.value else LastVia(hs[..|hs| - 1])
  }

  /** create_via_header_value: each version number is cast to one char. */
  function ViaValue(major: nat, minor: nat): string {
    [(('0' as int + major) % 256) as char] + "." + [(('0' as int + minor) % 256) as char] + " shrpx"
  }

  /** The Connection header that the printer adds, if any. */
  function AddedConnection(r: Reply): seq<Header> {
    if r.requestClose || r.responseClose then [Header("Connection", "close")]
    else if r.requestMajor <= 0 || r.requestMinor <= 0 then [Header("Connection", "Keep-Alive")]
    else []
  }

  function AddedVia(r: Reply): Header {
    var via := LastVia(r.headers);
    Header("Via", via + (if via == [] then [] else ", ") + ViaValue(r.responseMajor, r.responseMinor))
  }

  /** The headers of the printed reply, in order. */
  function PrintedHeaders(r: Reply): seq<Header> {
    Forwarded(r.headers) + AddedConnection(r) + [AddedVia(r)]
  }

  /** The printed block. */
  function Block(r: Reply): string {
    "HTTP/" + DecOf(r.requestMajor) + "." + DecOf(r.requestMinor) + " " + StatusString(r) + CRLF
    + Lines(PrintedHeaders(r)) + CRLF
  }

  // ---------------------------------------------------------------- the printer

  lemma LinesSnoc(hs: seq<Header>, h: Header)
    ensures Lines(hs + [h]) == Lines(hs) + Line(h)
  {
    LinesConcat(hs, [h]);
    assert Lines([h]) == Line(h) + Lines([h][1..]) == Line(h);
  }

  /** The loop over the response headers: what it appends, and the Via value it keeps aside. */
  method PrintHeaders(start: string, hs: seq<Header>) returns (hdrs: string, viaValue: string)
    ensures hdrs == start + Lines(Forwarded(hs)) && viaValue == LastVia(hs)
  {
    hide Line, Lines, Strings.SameNoCase, Strings.CStr;
    hdrs, viaValue := start, "";
    assert Lines([]) == [] by { LinesNone(); }
    for i := 0 to |hs|
      invariant hdrs == start + Lines(Forwarded(hs[..i]))
      invariant viaValue == LastVia(hs[..i])
    {
      var h := hs[i];
      assert hs[..i + 1][..i] == hs[..i];
      ghost var before := Forwarded(hs[..i]);
      LinesSnoc(before, h);
      assert before + [] == before;
      var keepAlive := Strings.Strieq(h.name, "keep-alive");
      var connection := Strings.Strieq(h.name, "connection");
      var proxyConnection := Strings.Strieq(h.name, "proxy-connection");
      var via := Strings.Strieq(h.name, "via");
      if keepAlive || connection || proxyConnection {
        // not forwarded
      } else if via {
        viaValue := h.value;
      } else {
        hdrs := AppendLine(hdrs, h.name, h.value);
      }
    }
    assert hs[..|hs|] == hs;
  }

  lemma LinesNone()
    ensures Lines([]) == []
  {
  }

  /** on_downstream_header_complete */
  method PrintBlock(r: Reply) returns (hdrs: string)
    ensures hdrs == Block(r)
  {
    hide Line, Lines, Forwarded, LastVia, DecOf, StatusString, ViaValue;
    var start := "HTTP/" + DecOf(r.requestMajor) + "." + DecOf(r.requestMinor) + " ";
    start := start + StatusString(r);
    start := start + CRLF;
    var viaValue;
    hdrs, viaValue := PrintHeaders(start, r.headers);
    ghost var done := Forwarded(r.headers);
    if !r.requestClose && !r.responseClose {
      if r.requestMajor <= 0 || r.requestMinor <= 0 {
        LinesSnoc(done, Header("Connection", "Keep-Alive"));
        hdrs := AppendLine(hdrs, "Connection", "Keep-Alive");
      }
    } else {
      LinesSnoc(done, Header("Connection", "close"));
      hdrs := AppendLine(hdrs, "Connection", "close");
    }
    assert done + [] == done;
    assert hdrs == start + Lines(done + AddedConnection(r));
    LinesSnoc(done + AddedConnection(r), AddedVia(r));
    if viaValue != [] {
      viaValue := viaValue + ", ";
    }
    viaValue := viaValue + ViaValue(r.responseMajor, r.responseMinor);
    assert Header("Via", viaValue) == AddedVia(r);
    hdrs := AppendLine(hdrs, "Via", viaValue);
    hdrs := hdrs + CRLF;
  }

  /** One line, appended piece by piece. */
  method AppendLine(hdrs: string, name: string, value: string) returns (hdrs': string)
    ensures hdrs' == hdrs + Line(Header(name, value))
  {
    hdrs' := hdrs + name;
    hdrs' := hdrs' + ": ";
    hdrs' := hdrs' + value;
    hdrs' := hdrs' + CRLF;
    assert hdrs' == hdrs + (name + ": " + value + CRLF);
  }
}
