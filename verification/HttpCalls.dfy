/**
 The calls of http_parser_execute, exactly as it makes them: a data callback gets the bytes since its mark,
 when the run of data or the buffer ends.  Merged, they are the events of the bytewise reference.
 */
module HttpCalls {
  import opened HttpTypes
  import opened HttpSwitch
  import opened HttpMarks
  import opened HttpRun
  import opened HttpInvariant
  import opened HttpBody

  /** Which mark can be open in which state, between bytes. */
  predicate OpenFits(s: State, open: Option<Kind>) {
    open == OpenKind(s) || (open == Some(Body) && (ReadsBody(s) || s.ChunkDataAlmostDone?))
  }

  /** The merged trace once the bytes since the open mark are delivered. */
  function Pending(t: seq<Event>, open: Option<Kind>, w: string): seq<Event> {
    if open.None? then t else Emit(t, Data(open.value, w))
  }

  /** A trace that goes with the parser's state: inside a URL, a field or a value, the last event
      is data of that kind. */
  predicate Told(p: Parser, t: seq<Event>) {
    (p.errno.OK? || p.errno.Paused?) && OpenKind(p.state).Some? ==>
      |t| > 0 && t[|t| - 1].Data? && t[|t| - 1].kind == OpenKind(p.state).value
  }

  lemma PendingEmpty(p: Parser, t: seq<Event>)
    requires Told(p, t) && p.errno.OK?
    ensures Pending(t, OpenKind(p.state), []) == t
  {
    if OpenKind(p.state).Some? {
      var last := t[|t| - 1];
      assert last.bytes + [] == last.bytes;
      assert t == t[..|t| - 1] + [last];
    }
  }

  lemma EmitTells(t: seq<Event>, k: Kind, w: string)
    ensures var u := Emit(t, Data(k, w)); |u| > 0 && u[|u| - 1].Data? && u[|u| - 1].kind == k
  {
  }

  // ---------------------------------------------------------------- one pass

  /** The body callback is never called without bytes, nor with more than a buffer has. */
  predicate FullBodies(calls: seq<Event>, limit: nat) {
    forall i :: 0 <= i < |calls| ==> FullBody(calls[i], limit)
  }

  predicate FullBody(e: Event, limit: nat) { e.Data? && e.kind == Body ==> 0 < |e.bytes| <= limit }

  /** The callbacks of one pass when the open mark has collected `w`. */
  function PassCalls(o: Out, open: Option<Kind>, w: string): seq<Event> {
    (if o.flush.None? then []
     else if o.flush == open then [Data(o.flush.value, w)]
     else if o.flush == o.mark then [Data(o.flush.value, [])]
     else [])
    + o.note
  }

  /** What the open mark has collected after the pass over `ch`. */
  function Collected(before: Option<Kind>, after: Option<Kind>, w: string, ch: char): string {
    if after.None? then [] else if before.None? then [ch] else w + [ch]
  }

  /** The callbacks of a pass, with what the mark then holds, tell the same as its bytewise
      events. */
  lemma PassTells(t: seq<Event>, p: Parser, o: Out, open: Option<Kind>, w: string, ch: char)
    requires !ReadsBody(p.state) && OpenFits(p.state, open) && !o.next.Fail? && KeepsMarks(p, o)
    ensures var after := OpenKind(o.p.state);
            Pending(EmitAll(t, PassCalls(o, open, w)), after, Collected(OpenKind(p.state), after, w, ch))
            == EmitAll(Pending(t, open, w), PassEvents(o, ch))
  {
    hide Handle;
    var before, after := OpenKind(p.state), OpenKind(o.p.state);
    var es := PassEvents(o, ch);
    if after.Some? {
      assert es == [Data(after.value, [ch])];
      EmitAllOne(Pending(t, open, w), es[0]);
      assert PassCalls(o, open, w) == [];
      if before.Some? {
        EmitJoins(t, after.value, w, [ch]);
      }
    } else if open.Some? && o.flush == open {
      assert es == [];
      assert PassCalls(o, open, w) == [Data(open.value, w)];
      EmitAllOne(t, Data(open.value, w));
    } else if o.mark.Some? {
      assert es == [Data(Value, [])] == PassCalls(o, open, w);
    } else {
      assert es == o.note == PassCalls(o, open, w);
    }
  }

  /** A pass that flushes the body flushes what was collected. */
  lemma PassFull(p: Parser, o: Out, open: Option<Kind>, w: string, limit: nat)
    requires Orderly(p, o) && KeepsMarks(p, o) && !ReadsBody(p.state) && !o.next.Fail? && OpenFits(p.state, open)
    requires open == Some(Body) ==> 0 < |w| <= limit
    ensures FullBodies(PassCalls(o, open, w), limit)
  {
  }

  lemma FailIsSilent(p: Parser, o: Out, ch: char)
    requires o.next.Fail? && Orderly(p, o)
    ensures PassEvents(o, ch) == []
  {
  }

  // ---------------------------------------------------------------- the calls for a buffer

  /** The calls made so far for a buffer, the mark that is open, and what it has collected. */
  datatype Making = Making(calls: seq<Event>, open: Option<Kind>, collected: string)

  /** One pass that does not fail. */
  function MadePass(p: Parser, o: Out, m: Making, ch: char): Making {
    if ReadsBody(p.state) then
      var w := m.collected + [ch];
      if o.next.Again? then Making(m.calls + [Data(Body, w)], None, []) else Making(m.calls, Some(Body), w)
    else
      var after := OpenKind(o.p.state);
      Making(m.calls + PassCalls(o, m.open, m.collected), after,
             Collected(OpenKind(p.state), after, m.collected, ch))
  }

  function MadePasses(cb: Callbacks, p: Parser, m: Making, ch: char): Making
    decreases Rank(p.state)
  {
    var o := Handle(cb, p, ch);
    if o.next.Fail? then m
    else if o.next.Again? then MadePasses(cb, o.p, MadePass(p, o, m, ch), ch)
    else MadePass(p, o, m, ch)
  }

  /** One byte, unless the header has become too long. */
  function MadeByte(cb: Callbacks, p: Parser, m: Making, ch: char): Making {
    var q := Counted(p);
    if q.nread > MAX_HEADER_SIZE && ParsingHeader(p.state) then m else MadePasses(cb, q, m, ch)
  }

  /** A buffer whose first byte the parser reads in state `p`: a mark is open at once inside a URL, a field or
      a value. */
  function Made(cb: Callbacks, p: Parser, data: string): Making
    decreases |data|
  {
    if data == [] then Making([], OpenKind(p.state), [])
    else
      var front := data[..|data| - 1];
      var q, m := Run(cb, p, front).p, Made(cb, p, front);
      if q.errno.OK? then MadeByte(cb, q, m, data[|data| - 1]) else m
  }

  /** All the calls for a buffer: a mark that is open at its end is flushed unless the parser has stopped. */
  function CallsOf(cb: Callbacks, p: Parser, data: string): seq<Event> {
    var m := Made(cb, p, data);
    if Run(cb, p, data).p.errno.OK? && m.open.Some? then m.calls + [Data(m.open.value, m.collected)] else m.calls
  }

  lemma MadeFurther(cb: Callbacks, p: Parser, data: string, i: nat)
    requires i < |data| && Run(cb, p, data[..i]).p.errno.OK?
    ensures Made(cb, p, data[..i + 1]) == MadeByte(cb, Run(cb, p, data[..i]).p, Made(cb, p, data[..i]), data[i])
  {
    hide Run, MadeByte;
    assert data[..i + 1][..i] == data[..i];
  }

  lemma MadeStops(cb: Callbacks, p: Parser, data: string, i: nat)
    requires i <= |data| && !Run(cb, p, data[..i]).p.errno.OK?
    ensures Made(cb, p, data) == Made(cb, p, data[..i])
    decreases |data|
  {
    hide Run, MadeByte;
    if i == |data| {
      assert data[..i] == data;
    } else {
      var front := data[..|data| - 1];
      assert front[..i] == data[..i];
      MadeStops(cb, p, front, i);
      RunStops(cb, p, front, i);
    }
  }

  lemma RunStops(cb: Callbacks, p: Parser, data: string, i: nat)
    requires i <= |data| && !Run(cb, p, data[..i]).p.errno.OK?
    ensures Run(cb, p, data) == Run(cb, p, data[..i])
  {
    hide Byte;
    assert data == data[..i] + data[i..];
    RunConcat(cb, p, data[..i], data[i..]);
    var r := Run(cb, p, data[..i]);
    assert Run(cb, r.p, data[i..]) == Ran(r.p, [], 0);
    assert r.events + [] == r.events;
  }

  // ---------------------------------------------------------------- runs of body bytes

  lemma BodyLength(p: Parser)
    requires Inv(p) && ReadsBody(p.state)
    ensures p.errno.OK? && (p.state.BodyIdentityEof? || 0 < p.contentLength < ULLONG_MAX)
  {
  }

  /** The body mark collects the bytes of `w`. */
  function BodyMade(m: Making, w: string): Making {
    if w == [] then m else Making(m.calls, Some(Body), m.collected + w)
  }

  /** A run of body bytes inside a buffer, none of which ends the body. */
  lemma {:induction false} BodyCollects(cb: Callbacks, p: Parser, data: string, i: nat, j: nat)
    requires i <= j <= |data|
    requires var q := Run(cb, p, data[..i]).p;
             ReadsBody(q.state) && q.errno.OK? && (q.state.BodyIdentityEof? || j - i < q.contentLength)
    ensures Made(cb, p, data[..j]) == BodyMade(Made(cb, p, data[..i]), data[i..j])
    decreases j
  {
    hide Run, Handle, Made, MadeByte;
    if i < j {
      var k := j - 1;
      var m, q := Made(cb, p, data[..i]), Run(cb, p, data[..i]).p;
      BodyCollects(cb, p, data, i, k);
      assert data[..k] == data[..i] + data[i..k];
      RunConcat(cb, p, data[..i], data[i..k]);
      BodyRun(cb, q, data[i..k]);
      var s := Shortened(q, k - i);
      MadeFurther(cb, p, data, k);
      BodyPass(cb, s, data[k]);
      BodyMadeByte(cb, s, BodyMade(m, data[i..k]), data[k]);
      assert data[i..k] + [data[k]] == data[i..j];
      assert m.collected + data[i..k] + [data[k]] == m.collected + data[i..j];
    }
  }

  lemma BodyMadeByte(cb: Callbacks, p: Parser, m: Making, ch: char)
    requires ReadsBody(p.state) && Handle(cb, p, ch).next.Advance?
    ensures MadeByte(cb, p, m, ch) == Making(m.calls, Some(Body), m.collected + [ch])
  {
    hide Handle;
  }

  // ---------------------------------------------------------------- merged, the calls are the events

  /** The merged trace of the calls made, with what the open mark has collected. */
  function Telling(t: seq<Event>, m: Making): seq<Event> {
    Pending(EmitAll(t, m.calls), m.open, m.collected)
  }

  /** The open mark goes with the state, and a body callback never gets nothing, nor more than `limit`. */
  predicate Fitting(s: State, m: Making, limit: nat) {
    && OpenFits(s, m.open) && (m.open.None? ==> m.collected == []) && Sized(m, limit)
  }

  predicate Sized(m: Making, limit: nat) {
    FullBodies(m.calls, limit) && (m.open == Some(Body) ==> 0 < |m.collected| <= limit)
  }

  lemma BodyPassTells(cb: Callbacks, p: Parser, m: Making, ch: char, t: seq<Event>, limit: nat)
    requires ReadsBody(p.state) && (p.state.BodyIdentityEof? || 0 < p.contentLength) && Fitting(p.state, m, limit)
    ensures var o := Handle(cb, p, ch);
            var n := MadePass(p, o, m, ch);
            && !o.next.Fail? && Telling(t, n) == EmitAll(Telling(t, m), PassEvents(o, ch))
            && Fitting(o.p.state, n, limit + 1) && o.p.errno == p.errno
            && (o.next.Again? ==> n.open == None && OpenKind(o.p.state) == None && !ReadsBody(o.p.state))
  {
    hide Handle, Emit, EmitAll, PassEvents;
    BodyPass(cb, p, ch);
    var o, d, w := Handle(cb, p, ch), Data(Body, [ch]), m.collected + [ch];
    EmitAllOne(Telling(t, m), d);
    if m.open.Some? {
      EmitJoins(EmitAll(t, m.calls), Body, m.collected, [ch]);
    } else {
      assert w == [ch];
    }
    EmitAllConcat(t, m.calls, [Data(Body, w)]);
    EmitAllOne(EmitAll(t, m.calls), Data(Body, w));
  }

  lemma OtherPassTells(cb: Callbacks, p: Parser, m: Making, ch: char, t: seq<Event>, limit: nat)
    requires !ReadsBody(p.state) && !Handle(cb, p, ch).next.Fail? && Fitting(p.state, m, limit)
    ensures var o := Handle(cb, p, ch);
            var n := MadePass(p, o, m, ch);
            && Telling(t, n) == EmitAll(Telling(t, m), PassEvents(o, ch)) && Fitting(o.p.state, n, limit)
            && (o.next.Again? ==> n.open == None && OpenKind(o.p.state) == None && !ReadsBody(o.p.state))
            && (o.p.errno != p.errno ==> n.open == OpenKind(o.p.state) == None)
  {
    hide Handle, Emit, EmitAll, PassEvents, PassCalls, OpenKind;
    var o := Handle(cb, p, ch);
    MarksKept(cb, p, ch);
    PassTells(EmitAll(t, m.calls), p, o, m.open, m.collected, ch);
    EmitAllConcat(t, m.calls, PassCalls(o, m.open, m.collected));
    PassFull(p, o, m.open, m.collected, limit);
    PassOpens(p, o, ch);
  }

  lemma PassOpens(p: Parser, o: Out, ch: char)
    requires !ReadsBody(p.state) && !o.next.Fail? && Orderly(p, o) && KeepsMarks(p, o)
    ensures var after := OpenKind(o.p.state);
            && OpenFits(o.p.state, after) && after != Some(Body)
            && (after.None? ==> Collected(OpenKind(p.state), after, [], ch) == [])
            && (o.next.Again? ==> after == None && !ReadsBody(o.p.state))
            && (o.p.errno != p.errno ==> after == None)
  {
  }

  /** How many bytes of body a byte can add to what is collected. */
  function Share(s: State): nat { if ReadsBody(s) then 1 else 0 }

  lemma {:induction false} PassesTell(cb: Callbacks, p: Parser, m: Making, ch: char, t: seq<Event>, limit: nat)
    requires ReadsBody(p.state) ==> p.state.BodyIdentityEof? || 0 < p.contentLength
    requires Fitting(p.state, m, limit)
    ensures var s, n := Passes(cb, p, ch), MadePasses(cb, p, m, ch);
            && Telling(t, n) == EmitAll(Telling(t, m), s.events) && Sized(n, limit + Share(p.state))
            && (s.next.Advance? ==> Fitting(s.p.state, n, limit + Share(p.state)))
            && (s.next.Advance? && s.p.errno != p.errno ==> n.open == OpenKind(s.p.state) == None)
    decreases Rank(p.state)
  {
    hide Handle, EmitAll, PassEvents, MadePass, Telling, Fitting, Sized, ReadsBody;
    var o := Handle(cb, p, ch);
    EmitAllNone(Telling(t, m));
    if o.next.Fail? {
      FailIsSilent(p, o, ch);
      FittingIsSized(p.state, m, limit);
    } else {
      var n := MadePass(p, o, m, ch);
      if ReadsBody(p.state) {
        BodyPassTells(cb, p, m, ch, t, limit);
      } else {
        OtherPassTells(cb, p, m, ch, t, limit);
      }
      FittingIsSized(o.p.state, n, limit + Share(p.state));
      if o.next.Again? {
        PassesTell(cb, o.p, n, ch, t, limit + Share(p.state));
        EmitAllConcat(Telling(t, m), PassEvents(o, ch), Passes(cb, o.p, ch).events);
      }
    }
  }

  lemma FittingIsSized(s: State, m: Making, limit: nat)
    requires Fitting(s, m, limit)
    ensures Sized(m, limit) && Sized(m, limit + 1) && Fitting(s, m, limit + 1)
  {
  }

  lemma ByteTells(cb: Callbacks, p: Parser, m: Making, ch: char, t: seq<Event>, limit: nat)
    requires Inv(p) && Fitting(p.state, m, limit)
    ensures var s, n := Byte(cb, p, ch), MadeByte(cb, p, m, ch);
            && Telling(t, n) == EmitAll(Telling(t, m), s.events) && Sized(n, limit + 1)
            && (s.next.Advance? && s.p.errno.OK? ==> Fitting(s.p.state, n, limit + 1))
            && (s.next.Advance? && !s.p.errno.OK? ==> n.open == OpenKind(s.p.state) == None)
  {
    hide Passes, MadePasses, EmitAll, Telling, Fitting, Sized, Inv, ReadsBody;
    InvRuns(p);
    EmitAllNone(Telling(t, m));
    FittingIsSized(p.state, m, limit);
    var q := Counted(p);
    if !(q.nread > MAX_HEADER_SIZE && ParsingHeader(p.state)) {
      if ReadsBody(p.state) {
        BodyLength(p);
      }
      PassesTell(cb, q, m, ch, t, limit);
      var n := MadePasses(cb, q, m, ch);
      if Share(p.state) == 0 {
        if Passes(cb, q, ch).next.Advance? {
          FittingIsSized(Passes(cb, q, ch).p.state, n, limit);
        } else {
          SizedMore(n, limit);
        }
      }
    }
  }

  lemma PassesErrno(cb: Callbacks, p: Parser, ch: char)
    ensures Passes(cb, p, ch).next.Advance? ==>
              Passes(cb, p, ch).p.errno == p.errno || Passes(cb, p, ch).p.errno.Paused?
    decreases Rank(p.state)
  {
    hide Handle;
    var o := Handle(cb, p, ch);
    if o.next.Again? {
      PassesErrno(cb, o.p, ch);
    }
  }

  /** A byte that goes through leaves the parser running or paused. */
  lemma ErrnoAfter(cb: Callbacks, p: Parser, ch: char)
    ensures Byte(cb, p, ch).next.Advance? ==>
              Byte(cb, p, ch).p.errno == p.errno || Byte(cb, p, ch).p.errno.Paused?
  {
    hide Passes;
    PassesErrno(cb, Counted(p), ch);
  }

  lemma SizedMore(m: Making, limit: nat)
    requires Sized(m, limit)
    ensures Sized(m, limit + 1)
  {
  }

  lemma InvRuns(p: Parser)
    requires Inv(p)
    ensures p.errno.OK?
  {
  }

  /** After any part of a buffer, the calls made and what the open mark has collected tell the events of the
      reference. */
  lemma {:induction false} MadeTells(cb: Callbacks, p: Parser, data: string, t: seq<Event>)
    requires Inv(p) && Told(p, t)
    ensures var r, m := Run(cb, p, data), Made(cb, p, data);
            && Telling(t, m) == EmitAll(t, r.events) && Sized(m, |data|)
            && (r.p.errno.OK? ==> Fitting(r.p.state, m, |data|))
            && (r.p.errno.Paused? ==> m.open == OpenKind(r.p.state) == None)
    decreases |data|
  {
    hide Run, MadeByte, EmitAll, Byte, Inv, Sized, Told;
    if data == [] {
      MadeStart(cb, p, t);
    } else {
      var k := |data| - 1;
      var front := data[..k];
      MadeTells(cb, p, front, t);
      var r, m := Run(cb, p, front), Made(cb, p, front);
      if r.p.errno.OK? {
        assert data[..k + 1] == data;
        RunFurther(cb, p, data, k);
        InvRuns(p);
        assert p == p.(errno := OK);
        RunPreserves(cb, p, front);
        assert r.p == r.p.(errno := OK);
        ByteTells(cb, r.p, m, data[k], t, k);
        var s := Byte(cb, r.p, data[k]);
        EmitAllConcat(t, r.events, s.events);
        FailSetsErrno(cb, r.p, data[k]);
        ErrnoAfter(cb, r.p, data[k]);
      } else {
        RunStops(cb, p, data, k);
        SizedMore(m, k);
      }
    }
  }

  lemma MadeStart(cb: Callbacks, p: Parser, t: seq<Event>)
    requires Inv(p) && Told(p, t)
    ensures var r, m := Run(cb, p, []), Made(cb, p, []);
            && Telling(t, m) == EmitAll(t, r.events) && r.p == p && r.p.errno.OK? && Fitting(p.state, m, 0)
  {
    hide Run, Inv, EmitAll, Emit;
    InvRuns(p);
    RunStopped(cb, p, []);
    EmitAllNone(t);
    PendingEmpty(p, t);
  }

  /** The calls for a buffer tell its events, unless the parser rejects it: then only the data that was
      being collected is missing. */
  lemma CallsTell(cb: Callbacks, p: Parser, data: string, t: seq<Event>)
    requires Inv(p) && Told(p, t)
    ensures var r, calls := Run(cb, p, data), CallsOf(cb, p, data);
            && FullBodies(calls, |data|) && Told(r.p, EmitAll(t, calls))
            && (r.p.errno.OK? || r.p.errno.Paused? ==> EmitAll(t, calls) == EmitAll(t, r.events))
            && exists open, w :: Pending(EmitAll(t, calls), open, w) == EmitAll(t, r.events)
  {
    hide Run, Made, EmitAll, Emit, Inv, OpenKind;
    var r, m, calls := Run(cb, p, data), Made(cb, p, data), CallsOf(cb, p, data);
    MadeTells(cb, p, data, t);
    if r.p.errno.OK? {
      if m.open.Some? {
        EmitAllConcat(t, m.calls, [Data(m.open.value, m.collected)]);
        EmitAllOne(EmitAll(t, m.calls), Data(m.open.value, m.collected));
        EmitTells(EmitAll(t, m.calls), m.open.value, m.collected);
      }
      assert Pending(EmitAll(t, calls), None, []) == EmitAll(t, r.events);
      FitsTold(r.p, m.open, EmitAll(t, calls));
    } else if r.p.errno.Paused? {
      assert Pending(EmitAll(t, calls), None, []) == EmitAll(t, r.events);
    } else {
      assert Pending(EmitAll(t, calls), m.open, m.collected) == EmitAll(t, r.events);
    }
  }

  lemma FitsTold(p: Parser, open: Option<Kind>, t: seq<Event>)
    requires OpenFits(p.state, open)
    requires open.Some? ==> |t| > 0 && t[|t| - 1].Data? && t[|t| - 1].kind == open.value
    ensures Told(p, t)
  {
  }
}
