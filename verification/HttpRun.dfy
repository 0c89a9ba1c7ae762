/**
 A bytewise reference semantics of the parser: `Run` folds the switch over the input one byte at
 a time, and reports every byte of a URL, header or body as a one-byte data event.  There are no
 marks, no bulk reads and no notion of where a buffer ends.
 */
module HttpRun {
  import opened HttpTypes
  import opened HttpSwitch

  // ---------------------------------------------------------------- merging events

  /** Appends an event to a trace, joining it to the last event when both carry data of the same
      kind.  This is what a callback that appends to a string sees. */
  function Emit(t: seq<Event>, e: Event): seq<Event> {
    if |t| > 0 && t[|t| - 1].Data? && e.Data? && t[|t| - 1].kind == e.kind
    then t[..|t| - 1] + [Data(e.kind, t[|t| - 1].bytes + e.bytes)]
    else t + [e]
  }

  function EmitAll(t: seq<Event>, es: seq<Event>): seq<Event>
    decreases |es|
  {
    if es == [] then t else Emit(EmitAll(t, es[..|es| - 1]), es[|es| - 1])
  }

  /** The merged form of a callback trace. */
  function Merge(es: seq<Event>): seq<Event> { EmitAll([], es) }

  lemma {:induction false} EmitAllConcat(t: seq<Event>, a: seq<Event>, b: seq<Event>)
    ensures EmitAll(t, a + b) == EmitAll(EmitAll(t, a), b)
    decreases |b|
  {
    if b == [] {
      assert a + b == a;
    } else {
      var b' := b[..|b| - 1];
      assert (a + b)[..|a + b| - 1] == a + b';
      EmitAllConcat(t, a, b');
    }
  }

  lemma EmitAllOne(t: seq<Event>, e: Event)
    ensures EmitAll(t, [e]) == Emit(t, e)
  {
    assert [e][..0] == [];
    assert EmitAll(t, [e][..0]) == t;
  }

  /** Two data events of one kind count as one. */
  lemma EmitJoins(t: seq<Event>, k: Kind, a: string, b: string)
    ensures Emit(Emit(t, Data(k, a)), Data(k, b)) == Emit(t, Data(k, a + b))
  {
    var u := Emit(t, Data(k, a));
    if |t| > 0 && t[|t| - 1].Data? && t[|t| - 1].kind == k {
      assert t[|t| - 1].bytes + a + b == t[|t| - 1].bytes + (a + b);
      assert u[..|u| - 1] == t[..|t| - 1];
    } else {
      assert u[..|u| - 1] == t;
    }
  }

  lemma EmitAllNone(t: seq<Event>)
    ensures EmitAll(t, []) == t
  {
  }

  /** Data reported one byte at a time. */
  function Bytewise(k: Kind, w: string): seq<Event> {
    if w == [] then [] else [Data(k, [w[0]])] + Bytewise(k, w[1..])
  }

  lemma {:induction false} BytewiseMerges(t: seq<Event>, k: Kind, w: string)
    requires w != []
    ensures EmitAll(t, Bytewise(k, w)) == Emit(t, Data(k, w))
    decreases |w|
  {
    var d := Data(k, [w[0]]);
    EmitAllConcat(t, [d], Bytewise(k, w[1..]));
    EmitAllOne(t, d);
    if |w| == 1 {
      assert w == [w[0]];
    } else {
      BytewiseMerges(Emit(t, d), k, w[1..]);
      EmitJoins(t, k, [w[0]], w[1..]);
      assert [w[0]] + w[1..] == w;
    }
  }

  lemma {:induction false} BytewiseConcat(k: Kind, a: string, b: string)
    ensures Bytewise(k, a + b) == Bytewise(k, a) + Bytewise(k, b)
    decreases |a|
  {
    if a == [] {
      assert a + b == b;
    } else {
      assert (a + b)[0] == a[0] && (a + b)[1..] == a[1..] + b;
      BytewiseConcat(k, a[1..], b);
    }
  }

  lemma BytewiseNone(k: Kind)
    ensures Bytewise(k, []) == []
  {
  }

  lemma BytewiseOne(k: Kind, c: char)
    ensures Bytewise(k, [c]) == [Data(k, [c])]
  {
    assert [c][1..] == [];
    assert [Data(k, [c])] + Bytewise(k, []) == [Data(k, [c])];
  }

  lemma BytewiseSnoc(k: Kind, w: string, c: char)
    ensures Bytewise(k, w + [c]) == Bytewise(k, w) + [Data(k, [c])]
  {
    BytewiseConcat(k, w, [c]);
    BytewiseOne(k, c);
  }

  // ---------------------------------------------------------------- one byte

  /** The events of one pass: a byte belongs to the data callback whose mark is open after it, a
      body byte to the body, and a mark that is set and flushed at once gives an empty event. */
  function PassEvents(o: Out, ch: char): seq<Event> {
    (if o.mark == Some(Body) then [Data(Body, [ch])]
     else if o.next.Advance? && OpenKind(o.p.state).Some? then [Data(OpenKind(o.p.state).value, [ch])]
     else if o.mark.Some? && o.mark == o.flush then [Data(o.mark.value, [])]
     else [])
    + o.note
  }

  datatype Step = Step(p: Parser, events: seq<Event>, next: Next)

  /** The switch, followed through all re-executions of the byte. */
  function Passes(cb: Callbacks, p: Parser, ch: char): (s: Step)
    ensures !s.next.Again?
    decreases Rank(p.state)
  {
    var o := Handle(cb, p, ch);
    if o.next.Again? then
      var s := Passes(cb, o.p, ch);
      Step(s.p, PassEvents(o, ch) + s.events, s.next)
    else
      Step(o.p, PassEvents(o, ch), o.next)
  }

  /** The byte count and limit of the header states. */
  function Counted(p: Parser): Parser {
    if ParsingHeader(p.state) then p.(nread := p.nread + 1) else p
  }

  /** One iteration of the loop over the input. */
  function Byte(cb: Callbacks, p: Parser, ch: char): (s: Step)
    ensures !s.next.Again?
  {
    var q := Counted(p);
    if q.nread > MAX_HEADER_SIZE && ParsingHeader(p.state)
    then Step(q.(errno := HeaderOverflow), [], Fail)
    else Passes(cb, q, ch)
  }

  // ---------------------------------------------------------------- a whole input

  datatype Ran = Ran(p: Parser, events: seq<Event>, count: nat)

  /** Consumes input until it ends or an error or a pause stops the parser.  The byte that causes
      an error is not consumed; the byte at which the parser is paused is. */
  function Run(cb: Callbacks, p: Parser, data: string): (r: Ran)
    ensures r.count <= |data|
    ensures r.p.errno.OK? ==> r.count == |data|
    decreases |data|
  {
    if data == [] || !p.errno.OK? then Ran(p, [], 0) else
      var s := Byte(cb, p, data[0]);
      if s.next.Fail? then
        FailSetsErrno(cb, p, data[0]);
        Ran(s.p, s.events, 0)
      else
        var r := Run(cb, s.p, data[1..]);
        Ran(r.p, s.events + r.events, 1 + r.count)
  }

  lemma PassesFail(cb: Callbacks, p: Parser, ch: char)
    ensures Passes(cb, p, ch).next.Fail? ==>
              !Passes(cb, p, ch).p.errno.OK? && !Passes(cb, p, ch).p.errno.Paused?
    decreases Rank(p.state)
  {
    hide Handle;
    var o := Handle(cb, p, ch);
    if o.next.Again? {
        PassesFail(cb, o.p, ch);
    }
  }

  lemma FailSetsErrno(cb: Callbacks, p: Parser, ch: char)
    ensures Byte(cb, p, ch).next.Fail? ==>
              !Byte(cb, p, ch).p.errno.OK? && !Byte(cb, p, ch).p.errno.Paused?
  {
    hide Passes;
    PassesFail(cb, Counted(p), ch);
  }

  /** Running a then b is running a + b: the same fields, the same count, the same events. */
  lemma {:induction false} RunConcat(cb: Callbacks, p: Parser, a: string, b: string)
    ensures var r := Run(cb, p, a);
            var s := Run(cb, r.p, b);
            Run(cb, p, a + b) == Ran(s.p, r.events + s.events, r.count + s.count)
    decreases |a|
  {
    hide Byte;
    var r := Run(cb, p, a);
    if a == [] {
      assert a + b == b;
    } else if !p.errno.OK? {
    } else {
      assert (a + b)[0] == a[0] && (a + b)[1..] == a[1..] + b;
      var s := Byte(cb, p, a[0]);
      FailSetsErrno(cb, p, a[0]);
      if !s.next.Fail? {
        RunConcat(cb, s.p, a[1..], b);
        var r' := Run(cb, s.p, a[1..]);
        var s' := Run(cb, r'.p, b);
        assert s.events + (r'.events + s'.events) == (s.events + r'.events) + s'.events;
      }
    }
  }

  lemma RunStopped(cb: Callbacks, p: Parser, data: string)
    requires data == [] || !p.errno.OK?
    ensures Run(cb, p, data) == Ran(p, [], 0)
  {
  }

  lemma RunOne(cb: Callbacks, p: Parser, ch: char)
    requires p.errno.OK?
    ensures var s := Byte(cb, p, ch);
            Run(cb, p, [ch]) == Ran(s.p, s.events, if s.next.Fail? then 0 else 1)
  {
    hide Byte;
    var s := Byte(cb, p, ch);
    assert [ch][1..] == [];
    assert Run(cb, s.p, [ch][1..]) == Ran(s.p, [], 0);
    assert s.events + [] == s.events;
  }

  lemma RunFurther(cb: Callbacks, p: Parser, data: string, i: nat)
    requires i < |data| && Run(cb, p, data[..i]).p.errno.OK?
    ensures var r := Run(cb, p, data[..i]);
            var s := Byte(cb, r.p, data[i]);
            Run(cb, p, data[..i + 1]) ==
              Ran(s.p, r.events + s.events, r.count + if s.next.Fail? then 0 else 1)
  {
    hide Byte;
    assert data[..i + 1] == data[..i] + [data[i]];
    RunConcat(cb, p, data[..i], [data[i]]);
    RunOne(cb, Run(cb, p, data[..i]).p, data[i]);
  }
}
