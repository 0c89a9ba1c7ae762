/**
 The body bytes among the callbacks: a run of the parser hands out no more of them than it was given.
 */
module BodyShare {
  import opened HttpTypes
  import opened HttpSwitch
  import opened HttpRun
  import opened HttpMarks
  import opened HttpExecute

  /** What the body callback gets over a trace. */
  function BodyOf(es: seq<Event>): string {
    if es == [] then []
    else if es[0].Data? && es[0].kind == Body then es[0].bytes + BodyOf(es[1..])
    else BodyOf(es[1..])
  }

  lemma {:induction false} BodyOfConcat(a: seq<Event>, b: seq<Event>)
    ensures BodyOf(a + b) == BodyOf(a) + BodyOf(b)
    decreases |a|
  {
    if a == [] {
      assert a + b == b;
    } else {
      assert (a + b)[1..] == a[1..] + b;
      BodyOfConcat(a[1..], b);
    }
  }

  lemma BodyOfOne(e: Event)
    ensures BodyOf([e]) == if e.Data? && e.kind == Body then e.bytes else []
  {
    assert [e][1..] == [];
  }

  /** Merging does not touch the body. */
  lemma BodyOfEmit(t: seq<Event>, e: Event)
    ensures BodyOf(Emit(t, e)) == BodyOf(t) + BodyOf([e])
  {
    BodyOfOne(e);
    BodyOfConcat(t, [e]);
    if |t| > 0 {
      var front, last := t[..|t| - 1], t[|t| - 1];
      assert t == front + [last];
      BodyOfConcat(front, [last]);
      BodyOfOne(last);
      if last.Data? && e.Data? && last.kind == e.kind {
        var d := Data(e.kind, last.bytes + e.bytes);
        BodyOfConcat(front, [d]);
        BodyOfOne(d);
      }
    }
  }

  lemma {:induction false} BodyOfMerge(t: seq<Event>, es: seq<Event>)
    ensures BodyOf(EmitAll(t, es)) == BodyOf(t) + BodyOf(es)
    decreases |es|
  {
    hide Emit;
    if es != [] {
      var front, last := es[..|es| - 1], es[|es| - 1];
      assert es == front + [last];
      BodyOfMerge(t, front);
      BodyOfEmit(EmitAll(t, front), last);
      BodyOfConcat(front, [last]);
    }
  }

  /** A body byte that is seen again is not seen again by a body state. */
  lemma BodyOnce(cb: Callbacks, p: Parser, ch: char)
    requires ReadsBody(p.state) && Handle(cb, p, ch).next.Again?
    ensures !ReadsBody(Handle(cb, p, ch).p.state)
  {
    hide HandleStart, HandleStatusLine, HandleMethod, HandleUrl, HandleRequestVersion, HandleField,
      HandleValue, HandleHeadersEnd;
  }

  lemma PassShare(o: Out, p: Parser, ch: char)
    requires Orderly(p, o) && KeepsMarks(p, o)
    ensures |BodyOf(PassEvents(o, ch))| <= if ReadsBody(p.state) then 1 else 0
  {
    hide Rank;
    var es := PassEvents(o, ch);
    if es != [] {
      assert es == [es[0]] + es[1..];
      BodyOfOne(es[0]);
      assert es[1..] == [];
    }
  }

  lemma PassesShare(cb: Callbacks, p: Parser, ch: char)
    ensures |BodyOf(Passes(cb, p, ch).events)| <= if ReadsBody(p.state) then 1 else 0
    decreases Rank(p.state)
  {
    hide Handle, PassEvents, KeepsMarks, BodyOf, ReadsBody;
    var o := Handle(cb, p, ch);
    MarksKept(cb, p, ch);
    PassShare(o, p, ch);
    if o.next.Again? {
      PassesShare(cb, o.p, ch);
      BodyOfConcat(PassEvents(o, ch), Passes(cb, o.p, ch).events);
      AgainLeavesBody(cb, p, ch);
    }
  }

  lemma AgainLeavesBody(cb: Callbacks, p: Parser, ch: char)
    requires Handle(cb, p, ch).next.Again?
    ensures !ReadsBody(Handle(cb, p, ch).p.state)
  {
    hide Handle;
    MarksKept(cb, p, ch);
    if ReadsBody(p.state) {
      BodyOnce(cb, p, ch);
    }
  }

  /** Every input byte becomes at most one byte of body. */
  lemma {:induction false} RunShare(cb: Callbacks, p: Parser, data: string)
    ensures |BodyOf(Run(cb, p, data).events)| <= |data|
    decreases |data|
  {
    hide Byte, BodyOf;
    if data != [] && p.errno.OK? {
      ByteShare(cb, p, data[0]);
      var s := Byte(cb, p, data[0]);
      if !s.next.Fail? {
        RunShare(cb, s.p, data[1..]);
        BodyOfConcat(s.events, Run(cb, s.p, data[1..]).events);
      }
    } else {
      NoBody();
    }
  }

  lemma NoBody()
    ensures BodyOf([]) == []
  {
  }

  lemma ByteShare(cb: Callbacks, p: Parser, ch: char)
    ensures |BodyOf(Byte(cb, p, ch).events)| <= 1
  {
    hide Passes;
    PassesShare(cb, Counted(p), ch);
  }

  /** One call of http_parser_execute gives the body callback no more bytes than the call was given. */
  method ExecuteShare(parser: HttpParser, data: string) returns (n: nat)
    requires parser.Valid() && data != []
    modifies parser
    ensures parser.Valid()
    ensures parser.fields.errno.OK? || parser.fields.errno.Paused? ==>
              && BodyOf(old(parser.calls)) <= BodyOf(parser.calls)
              && |BodyOf(parser.calls)| <= |BodyOf(old(parser.calls))| + |data|
  {
    hide Run, EmitAll, BodyOf;
    ghost var p, calls := parser.fields, parser.calls;
    n := parser.Execute(data);
    ghost var r := Run(parser.cb, p, data);
    RunShare(parser.cb, p, data);
    NoBody();
    BodyOfMerge([], calls);
    BodyOfMerge([], parser.calls);
    BodyOfMerge(Merge(calls), r.events);
    assert forall s: string :: [] + s == s;
  }
}
