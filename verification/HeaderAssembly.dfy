/**
 How the Downstream object assembles response headers from the parser's callbacks, which may
 deliver a name or a value in any number of pieces.
 */
module HeaderAssembly {
  import opened HttpTypes
  import opened HttpRun
  import opened HttpHeaders
  import opened HttpLines
  import Strings

  // ---------------------------------------------------------------- specification

  /** The header list, and whether the last callback was for a name. */
  datatype Assembly = Assembly(headers: seq<Header>, keyPrev: bool)

  const EMPTY: Assembly := Assembly([], false)

  function LastOf(hs: seq<Header>): Header
    requires hs != []
  {
    hs[|hs| - 1]
  }

  function WithLast(hs: seq<Header>, h: Header): seq<Header>
    requires hs != []
  {
    hs[..|hs| - 1] + [h]
  }

  /** The effect of one callback. */
  function OnEvent(a: Assembly, e: Event): Assembly {
    if !e.Data? || e.kind.Url? || e.kind.Body? then a
    else if e.kind.Field? then
      if a.keyPrev && a.headers != [] then
        Assembly(WithLast(a.headers, LastOf(a.headers).(name := LastOf(a.headers).name + e.bytes)), true)
      else Assembly(a.headers + [Header(e.bytes, [])], true)
    else if a.headers == [] then a
    else if a.keyPrev then Assembly(WithLast(a.headers, LastOf(a.headers).(value := e.bytes)), false)
    else Assembly(WithLast(a.headers, LastOf(a.headers).(value := LastOf(a.headers).value + e.bytes)), false)
  }

  function OnEvents(a: Assembly, es: seq<Event>): Assembly
    decreases |es|
  {
    if es == [] then a else OnEvent(OnEvents(a, es[..|es| - 1]), es[|es| - 1])
  }

  lemma {:induction false} OnEventsConcat(a: Assembly, x: seq<Event>, y: seq<Event>)
    ensures OnEvents(a, x + y) == OnEvents(OnEvents(a, x), y)
    decreases |y|
  {
    hide OnEvent;
    if y == [] {
      assert x + y == x;
    } else {
      assert (x + y)[..|x + y| - 1] == x + y[..|y| - 1];
      OnEventsConcat(a, x, y[..|y| - 1]);
    }
  }

  lemma OnEventsOne(a: Assembly, e: Event)
    ensures OnEvents(a, [e]) == OnEvent(a, e)
  {
    assert [e][..0] == [];
    assert OnEvents(a, [e][..0]) == a;
  }

  // ---------------------------------------------------------------- pieces do not matter

  /** Two pieces of one kind have the effect of the whole. */
  lemma OnEventJoins(a: Assembly, k: Kind, v: string, w: string)
    ensures OnEvent(OnEvent(a, Data(k, v)), Data(k, w)) == OnEvent(a, Data(k, v + w))
  {
    if k.Field? || (k.Value? && a.headers != []) {
      var b := OnEvent(a, Data(k, v));
      var last := LastOf(b.headers);
      assert b.headers[..|b.headers| - 1] ==
             if k.Field? && !(a.keyPrev && a.headers != []) then a.headers else a.headers[..|a.headers| - 1];
      if a.headers != [] {
        assert LastOf(a.headers).name + v + w == LastOf(a.headers).name + (v + w);
        assert LastOf(a.headers).value + v + w == LastOf(a.headers).value + (v + w);
      }
    }
  }

  lemma OnEmitted(a: Assembly, t: seq<Event>, e: Event)
    ensures OnEvents(a, Emit(t, e)) == OnEvent(OnEvents(a, t), e)
  {
    hide OnEvent;
    if |t| > 0 && t[|t| - 1].Data? && e.Data? && t[|t| - 1].kind == e.kind {
      var t', d := t[..|t| - 1], t[|t| - 1];
      OnEventJoins(OnEvents(a, t'), e.kind, d.bytes, e.bytes);
      var u := t' + [Data(e.kind, d.bytes + e.bytes)];
      assert u[..|u| - 1] == t';
    } else {
      assert (t + [e])[..|t|] == t;
    }
  }

  /** The assembled headers depend on the merged trace only, so on the bytes and not on how they
      were cut. */
  lemma {:induction false} AssemblyIgnoresCuts(a: Assembly, t: seq<Event>, es: seq<Event>)
    ensures OnEvents(a, EmitAll(t, es)) == OnEvents(OnEvents(a, t), es)
    decreases |es|
  {
    hide OnEvent, Emit;
    if es != [] {
      var es' := es[..|es| - 1];
      AssemblyIgnoresCuts(a, t, es');
      OnEmitted(a, EmitAll(t, es'), es[|es| - 1]);
    }
  }

  // ---------------------------------------------------------------- reading header lines

  /** Data delivered byte by byte has the effect of the whole. */
  lemma BytewiseAssembled(a: Assembly, k: Kind, w: string)
    requires w != []
    ensures OnEvents(a, Bytewise(k, w)) == OnEvent(a, Data(k, w))
  {
    hide OnEvent, EmitAll, Bytewise;
    AssemblyIgnoresCuts(a, [], Bytewise(k, w));
    BytewiseMerges([], k, w);
    OnEventsOne(a, Data(k, w));
    assert Emit([], Data(k, w)) == [Data(k, w)];
    assert OnEvents(a, []) == a;
  }

  /** One header line adds one header. */
  lemma LineAssembled(a: Assembly, h: Header)
    requires !a.keyPrev && h.name != []
    ensures OnEvents(a, LineEvents(h)) == Assembly(a.headers + [h], false)
  {
    hide OnEvents, Emit, EmitAll, Bytewise;
    var x := Bytewise(Field, h.name);
    var y := if h.value == [] then [Data(Value, [])] else Bytewise(Value, h.value);
    OnEventsConcat(a, x, y);
    BytewiseAssembled(a, Field, h.name);
    var b := Assembly(a.headers + [Header(h.name, [])], true);
    assert OnEvents(a, x) == b;
    if h.value == [] {
      OnEventsOne(b, Data(Value, []));
    } else {
      BytewiseAssembled(b, Value, h.value);
    }
    assert b.headers[..|b.headers| - 1] == a.headers;
  }

  /** Header lines give back the headers they were printed from, in order. */
  lemma {:induction false} LinesAssembled(a: Assembly, hs: seq<Header>)
    requires !a.keyPrev && forall i :: 0 <= i < |hs| ==> hs[i].name != []
    ensures OnEvents(a, LinesEvents(hs)) == Assembly(a.headers + hs, false)
    decreases |hs|
  {
    hide OnEvents, LineEvents;
    if hs == [] {
      assert OnEvents(a, []) == a by { OnEventsNone(a); }
      assert a.headers + [] == a.headers;
    } else {
      var b := Assembly(a.headers + [hs[0]], false);
      LineAssembled(a, hs[0]);
      LinesAssembled(b, hs[1..]);
      OnEventsConcat(a, LineEvents(hs[0]), LinesEvents(hs[1..]));
      assert a.headers + [hs[0]] + hs[1..] == a.headers + hs;
    }
  }

  lemma OnEventsNone(a: Assembly)
    ensures OnEvents(a, []) == a
  {
  }

  // ---------------------------------------------------------------- the Downstream object

  predicate SaysChunked(h: Header) {
    && Strings.SameNoCase(Strings.CStr(h.name), Strings.CStr("transfer-encoding"))
    && Strings.OccursNoCase(Strings.CStr(h.value), Strings.CStr("chunked"))
  }

  /** How a callback changes the chunked_response_ flag: only the first piece of a value is looked
      at. */
  function ChunkedOnEvent(a: Assembly, chunked: bool, e: Event): bool {
    if e.Data? && e.kind.Value? && a.keyPrev && a.headers != []
    then chunked || SaysChunked(LastOf(a.headers).(value := e.bytes))
    else chunked
  }

  function ChunkedAfter(a: Assembly, chunked: bool, es: seq<Event>): bool
    decreases |es|
  {
    if es == [] then chunked
    else
      var front := es[..|es| - 1];
      ChunkedOnEvent(OnEvents(a, front), ChunkedAfter(a, chunked, front), es[|es| - 1])
  }

  /** The header part of a Downstream object. */
  class Downstream {
    var responseHeaders: seq<Header>
    var keyPrev: bool
    var chunkedResponse: bool

    constructor ()
      ensures Valid() && State() == EMPTY && !chunkedResponse
    {
      responseHeaders, keyPrev, chunkedResponse := [], false, false;
    }

    /** A name is never being collected while there is no header. */
    ghost predicate Valid()
      reads this
    {
      keyPrev ==> responseHeaders != []
    }

    ghost function State(): Assembly
      reads this
    {
      Assembly(responseHeaders, keyPrev)
    }

    method AddResponseHeader(name: string, value: string)
      modifies this
      ensures responseHeaders == old(responseHeaders) + [Header(name, value)] && keyPrev
      ensures chunkedResponse == old(chunkedResponse)
    {
      keyPrev := true;
      responseHeaders := responseHeaders + [Header(name, value)];
    }

    method SetLastResponseHeaderValue(value: string)
      requires responseHeaders != []
      modifies this
      ensures responseHeaders == WithLast(old(responseHeaders), LastOf(old(responseHeaders)).(value := value))
      ensures !keyPrev
      ensures chunkedResponse == (old(chunkedResponse) || SaysChunked(LastOf(responseHeaders)))
    {
      hide Strings.CStr, Strings.SameNoCase, Strings.OccursNoCase;
      keyPrev := false;
      var item := responseHeaders[|responseHeaders| - 1].(value := value);
      responseHeaders := responseHeaders[..|responseHeaders| - 1] + [item];
      var named := Strings.Strieq(item.name, "transfer-encoding");
      if named {
        var found := Strings.Strifind(item.value, "chunked");
        if found {
          chunkedResponse := true;
        }
      }
    }

    method AppendLastResponseHeaderKey(data: string)
      requires keyPrev && responseHeaders != []
      modifies this`responseHeaders
      ensures responseHeaders ==
              WithLast(old(responseHeaders),
                       LastOf(old(responseHeaders)).(name := LastOf(old(responseHeaders)).name + data))
    {
      var item := responseHeaders[|responseHeaders| - 1];
      responseHeaders := responseHeaders[..|responseHeaders| - 1] + [item.(name := item.name + data)];
    }

    method AppendLastResponseHeaderValue(data: string)
      requires !keyPrev && responseHeaders != []
      modifies this`responseHeaders
      ensures responseHeaders ==
              WithLast(old(responseHeaders),
                       LastOf(old(responseHeaders)).(value := LastOf(old(responseHeaders)).value + data))
    {
      var item := responseHeaders[|responseHeaders| - 1];
      responseHeaders := responseHeaders[..|responseHeaders| - 1] + [item.(value := item.value + data)];
    }

    /** htp_hdr_keycb */
    method OnKey(data: string)
      requires Valid()
      modifies this
      ensures Valid() && State() == OnEvent(old(State()), Data(Field, data))
      ensures chunkedResponse == ChunkedOnEvent(old(State()), old(chunkedResponse), Data(Field, data))
    {
      if keyPrev {
        AppendLastResponseHeaderKey(data);
      } else {
        AddResponseHeader(data, []);
      }
    }

    /** htp_hdr_valcb.  The caller must have delivered a name before; `HttpGrammar` proves that the
        parser always does. */
    method OnValue(data: string)
      requires Valid() && responseHeaders != []
      modifies this
      ensures Valid() && State() == OnEvent(old(State()), Data(Value, data))
      ensures chunkedResponse == ChunkedOnEvent(old(State()), old(chunkedResponse), Data(Value, data))
    {
      if keyPrev {
        SetLastResponseHeaderValue(data);
      } else {
        AppendLastResponseHeaderValue(data);
      }
    }
  }

  // ---------------------------------------------------------------- the chunked flag

  lemma {:induction false} ChunkedConcat(a: Assembly, chunked: bool, x: seq<Event>, y: seq<Event>)
    ensures ChunkedAfter(a, chunked, x + y) == ChunkedAfter(OnEvents(a, x), ChunkedAfter(a, chunked, x), y)
    decreases |y|
  {
    hide ChunkedOnEvent, OnEvents;
    if y == [] {
      assert x + y == x;
    } else {
      var front := y[..|y| - 1];
      assert (x + y)[..|x + y| - 1] == x + front;
      ChunkedConcat(a, chunked, x, front);
      OnEventsConcat(a, x, front);
    }
  }

  lemma ChunkedOne(a: Assembly, chunked: bool, e: Event)
    ensures ChunkedAfter(a, chunked, [e]) == ChunkedOnEvent(a, chunked, e)
  {
    hide ChunkedOnEvent;
    assert [e][..0] == [];
    assert ChunkedAfter(a, chunked, [e][..0]) == chunked && OnEvents(a, [e][..0]) == a;
  }

  lemma {:induction false} ChunkedStays(a: Assembly, es: seq<Event>)
    ensures ChunkedAfter(a, true, es)
    decreases |es|
  {
    if es != [] {
      ChunkedStays(a, es[..|es| - 1]);
    }
  }

  /** Call `i` brings the first piece of a Transfer-Encoding value, and the word is in it. */
  predicate FirstPieceSays(a: Assembly, es: seq<Event>, i: int) {
    && 0 <= i < |es| && es[i].Data? && es[i].kind.Value?
    && var b := OnEvents(a, es[..i]);
       b.keyPrev && b.headers != [] && SaysChunked(LastOf(b.headers).(value := es[i].bytes))
  }

  /** However names and values are cut, the flag is set if and only if the first piece of some
      Transfer-Encoding value holds the word. */
  lemma {:induction false} ChunkedExactly(a: Assembly, es: seq<Event>)
    ensures ChunkedAfter(a, false, es) <==> exists i :: FirstPieceSays(a, es, i)
    decreases |es|
  {
    hide OnEvents, SaysChunked;
    if es != [] {
      var n := |es| - 1;
      var front := es[..n];
      ChunkedExactly(a, front);
      if ChunkedAfter(a, false, front) {
        var i :| FirstPieceSays(a, front, i);
        assert front[..i] == es[..i];
        assert FirstPieceSays(a, es, i);
      }
      if exists i :: FirstPieceSays(a, es, i) {
        var i :| FirstPieceSays(a, es, i);
        if i < n {
          assert front[..i] == es[..i];
          assert FirstPieceSays(a, front, i);
        }
      }
      assert ChunkedOnEvent(OnEvents(a, front), false, es[n]) <==> FirstPieceSays(a, es, n);
    }
  }

  /** A header whose name is being collected has no value yet. */
  predicate Clean(a: Assembly) {
    a.keyPrev ==> a.headers != [] && LastOf(a.headers).value == []
  }

  /** The first header whose value is still to come. */
  function NextValue(a: Assembly): int {
    if a.keyPrev then |a.headers| - 1 else |a.headers|
  }

  /** The flag comes from a header of the assembled list, from what its value begins with. */
  ghost predicate SaidBy(hs: seq<Header>, x: int, v: string) {
    0 <= x < |hs| && v <= hs[x].value && SaysChunked(Header(hs[x].name, v))
  }

  lemma NothingSaid(h: Header)
    requires h.value == []
    ensures !SaysChunked(h)
  {
  }

  lemma SaidStays(a: Assembly, e: Event, x: int, v: string)
    requires Clean(a) && SaidBy(a.headers, x, v)
    ensures SaidBy(OnEvent(a, e).headers, x, v)
  {
    hide SaysChunked;
    var b := OnEvent(a, e);
    if x == |a.headers| - 1 && a.keyPrev {
      NothingSaid(Header(a.headers[x].name, v));
      assert false;
    }
    assert |a.headers| <= |b.headers| && b.headers[x].name == a.headers[x].name;
    assert a.headers[x].value <= b.headers[x].value;
  }

  lemma {:induction false} FlagTraced(a: Assembly, es: seq<Event>)
    requires Clean(a)
    ensures Clean(OnEvents(a, es)) && NextValue(a) <= NextValue(OnEvents(a, es))
    ensures ChunkedAfter(a, false, es) ==>
              exists x, v :: NextValue(a) <= x && SaidBy(OnEvents(a, es).headers, x, v)
    decreases |es|
  {
    hide SaysChunked, SaidBy;
    if es != [] {
      var front, e := es[..|es| - 1], es[|es| - 1];
      FlagTraced(a, front);
      var b := OnEvents(a, front);
      FlagStep(b, e);
      if ChunkedAfter(a, false, es) {
        if ChunkedAfter(a, false, front) {
          var x, v :| NextValue(a) <= x && SaidBy(b.headers, x, v);
          SaidStays(b, e, x, v);
        } else {
          assert SaidBy(OnEvent(b, e).headers, NextValue(b), e.bytes);
        }
      }
    }
  }

  lemma FlagStep(b: Assembly, e: Event)
    requires Clean(b)
    ensures Clean(OnEvent(b, e)) && NextValue(b) <= NextValue(OnEvent(b, e))
    ensures ChunkedOnEvent(b, false, e) ==> SaidBy(OnEvent(b, e).headers, NextValue(b), e.bytes)
  {
    hide SaysChunked;
  }
}
