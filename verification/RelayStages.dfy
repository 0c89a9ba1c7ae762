/**
 The stages of a response, computed from the events of the parser.
 */
module RelayStages {
  import opened HttpTypes
  import opened HttpSwitch
  import opened HttpRun
  import opened HttpHeaders
  import opened HttpLines
  import opened HttpResponse
  import opened HeaderAssembly
  import opened HeaderRoundTrip
  import opened BodyShare
  import opened ResponseRelay

  lemma {:induction false} StageConcat(x: seq<Event>, y: seq<Event>)
    ensures StageOf(x + y) == NextAll(StageOf(x), OnEvents(EMPTY, x), y)
    decreases |y|
  {
    hide Onward, OnEvents;
    if y == [] {
      assert x + y == x;
    } else {
      var front := y[..|y| - 1];
      assert (x + y)[..|x + y| - 1] == x + front;
      StageConcat(x, front);
      OnEventsConcat(EMPTY, x, front);
    }
  }

  /** The stage after more calls, of which only the order matters once the header is complete. */
  function NextAll(s: Stage, a: Assembly, es: seq<Event>): Stage
    decreases |es|
  {
    if es == [] then s
    else
      var front := es[..|es| - 1];
      Onward(NextAll(s, a, front), OnEvents(a, front), es[|es| - 1])
  }

  lemma {:induction false} NextAllConcat(s: Stage, a: Assembly, x: seq<Event>, y: seq<Event>)
    ensures NextAll(s, a, x + y) == NextAll(NextAll(s, a, x), OnEvents(a, x), y)
    decreases |y|
  {
    hide Onward, OnEvents;
    if y == [] {
      assert x + y == x;
    } else {
      var front := y[..|y| - 1];
      assert (x + y)[..|x + y| - 1] == x + front;
      NextAllConcat(s, a, x, front);
      OnEventsConcat(a, x, front);
    }
  }

  lemma NextOne(s: Stage, a: Assembly, e: Event)
    ensures NextAll(s, a, [e]) == Onward(s, a, e) && NextAll(s, a, []) == s
  {
    hide Onward;
    assert [e][..0] == [];
    assert NextAll(s, a, [e][..0]) == s && OnEvents(a, [e][..0]) == a;
  }

  lemma {:induction false} BytewiseNext(s: Stage, a: Assembly, k: Kind, w: string)
    requires match k
             case Body => s.Bodying?
             case Field => s.Heading? || s.Bodying? || s.Trailing?
             case Value => s.Heading? || s.Trailing?
             case Url => false
    ensures NextAll(s, a, Bytewise(k, w)) == if s.Bodying? && k.Field? && w != [] then Trailing(s.info, s.hs) else s
    decreases |w|
  {
    hide OnEvents;
    if w == [] {
      NextOne(s, a, Begin);
    } else {
      var d := Data(k, [w[0]]);
      NextAllConcat(s, a, [d], Bytewise(k, w[1..]));
      NextOne(s, a, d);
      BytewiseNext(Onward(s, a, d), OnEvents(a, [d]), k, w[1..]);
    }
  }

  lemma LineNext(s: Stage, a: Assembly, h: Header)
    requires (s.Heading? || s.Bodying? || s.Trailing?) && h.name != []
    ensures NextAll(s, a, LineEvents(h)) == if s.Bodying? then Trailing(s.info, s.hs) else s
  {
    hide NextAll, OnEvents, Bytewise;
    var x := Bytewise(Field, h.name);
    var y := if h.value == [] then [Data(Value, [])] else Bytewise(Value, h.value);
    NextAllConcat(s, a, x, y);
    BytewiseNext(s, a, Field, h.name);
    var t := if s.Bodying? then Trailing(s.info, s.hs) else s;
    BytewiseNext(t, OnEvents(a, x), Value, h.value);
    NextOne(t, OnEvents(a, x), Data(Value, []));
  }

  lemma {:induction false} LinesNext(s: Stage, a: Assembly, hs: seq<Header>)
    requires (s.Heading? || s.Bodying? || s.Trailing?) && forall i :: 0 <= i < |hs| ==> hs[i].name != []
    ensures NextAll(s, a, LinesEvents(hs)) == if s.Bodying? && hs != [] then Trailing(s.info, s.hs) else s
    decreases |hs|
  {
    hide NextAll, OnEvents, LineEvents;
    if hs == [] {
      NextOne(s, a, Begin);
    } else {
      NextAllConcat(s, a, LineEvents(hs[0]), LinesEvents(hs[1..]));
      LineNext(s, a, hs[0]);
      LinesNext(NextAll(s, a, LineEvents(hs[0])), OnEvents(a, LineEvents(hs[0])), hs[1..]);
    }
  }

  lemma AreNamed(hs: seq<Header>)
    requires AreHeaders(hs)
    ensures forall i :: 0 <= i < |hs| ==> hs[i].name != []
  {
    forall i | 0 <= i < |hs| ensures hs[i].name != [] {
      assert IsHeader(hs[i]);
    }
  }

  /** The head of a response, as the relay sees it. */
  lemma HeadStage(hs: seq<Header>, q: Parser)
    requires AreHeaders(hs)
    ensures var es := [Begin] + LinesEvents(hs) + [HeadInfo(q)];
            && StageOf(es) == Bodying(HeadInfo(q).info, hs) && OnEvents(EMPTY, es) == Assembly(hs, false)
            && BodyOf(es) == []
  {
    hide NextAll, LinesEvents, OnEvents, InfoOf, StageOf, BodyOf, IsHeader;
    var ls, e := LinesEvents(hs), HeadInfo(q);
    AreNamed(hs);
    StageFirst(Begin);
    OnEventsOne(EMPTY, Begin);
    StageConcat([Begin], ls);
    LinesNext(Heading, EMPTY, hs);
    OnEventsConcat(EMPTY, [Begin], ls);
    LinesAssembled(EMPTY, hs);
    assert [] + hs == hs;
    StageSnoc([Begin] + ls, e);
    TraceAssembled(hs, q, []);
    assert [Begin] + ls + [e] + [] == [Begin] + ls + [e];
    BodyOfConcat([Begin] + ls, [e]);
    BodyOfConcat([Begin], ls);
    BodyOfOne(Begin);
    BodyOfOne(e);
    LinesHaveNoBody(hs);
  }

  lemma StageFirst(e: Event)
    ensures StageOf([e]) == Onward(Heading, EMPTY, e)
  {
    hide Onward;
    assert [e][..0] == [];
    assert StageOf([e][..0]) == Heading && OnEvents(EMPTY, [e][..0]) == EMPTY;
  }

  lemma {:induction false} BytewiseBody(k: Kind, w: string)
    ensures BodyOf(Bytewise(k, w)) == if k.Body? then w else []
    decreases |w|
  {
    if w != [] {
      BytewiseBody(k, w[1..]);
      BodyOfConcat([Data(k, [w[0]])], Bytewise(k, w[1..]));
      BodyOfOne(Data(k, [w[0]]));
    }
  }

  lemma {:induction false} LinesHaveNoBody(hs: seq<Header>)
    ensures BodyOf(LinesEvents(hs)) == []
    decreases |hs|
  {
    hide BodyOf;
    if hs == [] {
      NoBody();
    } else {
      var v := hs[0].value;
      var a, b := Bytewise(Field, hs[0].name), if v == [] then [Data(Value, [])] else Bytewise(Value, v);
      BodyOfConcat(a + b, LinesEvents(hs[1..]));
      BodyOfConcat(a, b);
      BytewiseBody(Field, hs[0].name);
      BytewiseBody(Value, v);
      BodyOfOne(Data(Value, []));
      LinesHaveNoBody(hs[1..]);
    }
  }

  lemma {:induction false} BytewiseFront(k: Kind, w: string, n: nat)
    requires n <= |w|
    ensures |Bytewise(k, w)| == |w| && Bytewise(k, w)[..n] == Bytewise(k, w[..n])
    ensures Complete !in Bytewise(k, w)
    decreases |w|
  {
    if w != [] {
      BytewiseFront(k, w[1..], if n == 0 then 0 else n - 1);
      if n > 0 {
        assert w[..n][0] == w[0] && w[..n][1..] == w[1..][..n - 1];
      }
    }
  }

  lemma NoCompleteInHead(hs: seq<Header>, q: Parser)
    ensures Complete !in [Begin] + LinesEvents(hs) + [HeadInfo(q)]
  {
    hide LinesEvents, InfoOf;
    NoCompleteInLines(hs);
  }

  lemma {:induction false} NoCompleteInLines(hs: seq<Header>)
    ensures Complete !in LinesEvents(hs)
    decreases |hs|
  {
    hide Bytewise;
    if hs != [] {
      BytewiseFront(Field, hs[0].name, 0);
      BytewiseFront(Value, hs[0].value, 0);
      NoCompleteInLines(hs[1..]);
    }
  }

  // ---------------------------------------------------------------- one response

  /** The header of the response is complete. */
  predicate Past(s: Stage) { s.Bodying? || s.Trailing? || s.Over? }

  lemma PastStays(s: Stage, a: Assembly, e: Event)
    ensures Past(s) && !Onward(s, a, e).Off? ==>
              Past(Onward(s, a, e)) && Onward(s, a, e).info == s.info && Onward(s, a, e).hs == s.hs
    ensures !Onward(s, a, e).Off? ==> !s.Off? && (Onward(s, a, e).Over? <==> e == Complete)
  {
  }

  /** A part of one response is one, and it keeps its header. */
  lemma {:induction false} StageFront(x: seq<Event>, y: seq<Event>)
    requires x <= y && !StageOf(y).Off?
    ensures !StageOf(x).Off?
    ensures Past(StageOf(x)) ==>
              Past(StageOf(y)) && StageOf(y).info == StageOf(x).info && StageOf(y).hs == StageOf(x).hs
    decreases |y|
  {
    hide Onward, OnEvents;
    if |x| < |y| {
      var front := y[..|y| - 1];
      PastStays(StageOf(front), OnEvents(EMPTY, front), y[|y| - 1]);
      StageFront(x, front);
    } else {
      assert x == y;
    }
  }

  /** It is over exactly with its completion. */
  lemma {:induction false} OverIsComplete(es: seq<Event>)
    requires !StageOf(es).Off?
    ensures StageOf(es).Over? <==> Complete in es
    decreases |es|
  {
    hide Onward, OnEvents;
    if es != [] {
      var front, e := es[..|es| - 1], es[|es| - 1];
      assert es == front + [e];
      PastStays(StageOf(front), OnEvents(EMPTY, front), e);
      OverEnds(StageOf(front), OnEvents(EMPTY, front), e);
      OverIsComplete(front);
    }
  }

  lemma OverEnds(s: Stage, a: Assembly, e: Event)
    ensures s.Over? ==> Onward(s, a, e).Off?
  {
  }
}
