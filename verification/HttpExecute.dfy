/**
 http_parser_execute itself: a loop over a buffer that keeps four marks, reads runs of body bytes
 at once, and hands the bytes since a mark to a callback when the run of data or the buffer ends.

 `HttpParser.Execute` is proved to compute exactly what the bytewise reference `Run` computes and to make
 exactly the calls of `CallsOf`, so where a buffer happens to end cannot be observed in the merged trace.
 */
module HttpExecute {
  import opened HttpTypes
  import opened HttpSwitch
  import opened HttpMarks
  import opened HttpRun
  import opened HttpInvariant
  import opened HttpBody
  import opened HttpCalls

  // ---------------------------------------------------------------- marks

  datatype Marks = Marks(url: Option<nat>, field: Option<nat>, value: Option<nat>, body: Option<nat>)

  const NO_MARKS: Marks := Marks(None, None, None, None)

  function MarkAt(m: Marks, k: Kind): Option<nat> {
    match k
    case Url => m.url
    case Field => m.field
    case Value => m.value
    case Body => m.body
  }

  function WithMark(m: Marks, k: Kind, at: Option<nat>): Marks {
    match k
    case Url => m.(url := at)
    case Field => m.(field := at)
    case Value => m.(value := at)
    case Body => m.(body := at)
  }

  /** The MARK macro: it leaves a mark that is already set. */
  function Marked(m: Marks, k: Option<Kind>, i: nat): Marks {
    if k.Some? && MarkAt(m, k.value).None? then WithMark(m, k.value, Some(i)) else m
  }

  function Cleared(m: Marks, k: Option<Kind>): Marks {
    if k.Some? then WithMark(m, k.value, None) else m
  }

  /** At most one mark is set: none, or the one for `open`, at position `at`. */
  ghost predicate OneMark(m: Marks, open: Option<Kind>, at: nat) {
    m == if open.None? then NO_MARKS else WithMark(NO_MARKS, open.value, Some(at))
  }

  // ---------------------------------------------------------------- runs, one byte further

  /** A run extended by the bytes from i to j. */
  lemma RunTo(cb: Callbacks, p: Parser, data: string, i: nat, j: nat)
    requires i <= j <= |data|
    ensures var r := Run(cb, p, data[..i]);
            var s := Run(cb, r.p, data[i..j]);
            Run(cb, p, data[..j]) == Ran(s.p, r.events + s.events, r.count + s.count)
  {
    hide Byte;
    assert data[..j] == data[..i] + data[i..j];
    RunConcat(cb, p, data[..i], data[i..j]);
  }

  /** A run extended by body bytes that do not end the body. */
  lemma BodyTo(cb: Callbacks, p: Parser, data: string, i: nat, j: nat)
    requires i <= j < |data|
    requires var q := Run(cb, p, data[..i]).p;
             Inv(q) && ReadsBody(q.state) && (q.state.BodyIdentityEof? || j - i < q.contentLength)
    ensures var r, s := Run(cb, p, data[..i]), Run(cb, p, data[..j]);
            && s.p == Shortened(r.p, j - i) && s.count == r.count + (j - i) && Inv(s.p)
            && Made(cb, p, data[..j]) == BodyMade(Made(cb, p, data[..i]), data[i..j])
  {
    hide Run, Made, Inv, BodyMade;
    var r := Run(cb, p, data[..i]);
    InvRuns(r.p);
    BodyCollects(cb, p, data, i, j);
    RunTo(cb, p, data, i, j);
    BodyRun(cb, r.p, data[i..j]);
    assert r.p == r.p.(errno := OK);
    RunPreserves(cb, r.p, data[i..j]);
    var s := Run(cb, r.p, data[i..j]);
    assert s.p == s.p.(errno := OK);
  }

  /** One more byte of a run that is under way, in terms of the passes it takes. */
  lemma AfterByte(cb: Callbacks, p: Parser, data: string, j: nat)
    requires j < |data|
    requires var q := Run(cb, p, data[..j]).p;
             Inv(q) && (ParsingHeader(q.state) ==> q.nread < MAX_HEADER_SIZE)
    ensures var r := Run(cb, p, data[..j]);
            var s, q := Passes(cb, Counted(r.p), data[j]), Run(cb, p, data[..j + 1]);
            && q.p == s.p && q.count == (r.count + if s.next.Fail? then 0 else 1)
            && Made(cb, p, data[..j + 1]) == MadePasses(cb, Counted(r.p), Made(cb, p, data[..j]), data[j])
            && (if s.next.Fail? then !s.p.errno.OK? && !s.p.errno.Paused?
                else Inv(s.p.(errno := OK)) && (s.p.errno.OK? || s.p.errno.Paused?))
  {
    hide Passes, MadePasses, Made, Run, Core;
    var r := Run(cb, p, data[..j]);
    assert Core(r.p);
    CoreRuns(r.p);
    assert Byte(cb, r.p, data[j]) == Passes(cb, Counted(r.p), data[j]);
    RunFurther(cb, p, data, j);
    MadeFurther(cb, p, data, j);
    BytePreserves(cb, r.p, data[j]);
    FailSetsErrno(cb, r.p, data[j]);
    ErrnoAfter(cb, r.p, data[j]);
  }

  lemma CoreRuns(p: Parser)
    requires Core(p)
    ensures p.errno.OK?
  {
  }

  // ---------------------------------------------------------------- one pass, with marks

  /** How far a byte has come that started with parser `q` and calls `m0`: it is at `p` and `m`. */
  ghost predicate Goes(cb: Callbacks, q: Parser, m0: Making, ch: char, p: Parser, m: Making, next: Next) {
    var s, made := Passes(cb, q, ch), MadePasses(cb, q, m0, ch);
    if next.Again? then
      s.p == Passes(cb, p, ch).p && s.next == Passes(cb, p, ch).next && made == MadePasses(cb, p, m, ch)
    else s.p == p && s.next == next && made == m
  }

  lemma GoesOn(cb: Callbacks, q: Parser, m0: Making, ch: char, p: Parser, m: Making)
    requires Goes(cb, q, m0, ch, p, m, Again)
    ensures var o := Handle(cb, p, ch);
            Goes(cb, q, m0, ch, o.p, if o.next.Fail? then m else MadePass(p, o, m, ch), o.next)
  {
    hide Handle, MadePass, PassEvents;
  }

  /** The first pass. */
  lemma GoesFirst(cb: Callbacks, q: Parser, m0: Making, ch: char)
    ensures var o := Handle(cb, q, ch);
            Goes(cb, q, m0, ch, o.p, if o.next.Fail? then m0 else MadePass(q, o, m0, ch), o.next)
  {
    hide Handle, MadePass, PassEvents;
  }

  /** After a pass that does not fail at most one mark is set, the one of the new state; and the
      data callback gets what the open mark has collected. */
  lemma PassMarks(p: Parser, o: Out, marks: Marks, open: Option<Kind>, at: nat, data: string, i: nat)
    requires !ReadsBody(p.state) && OpenFits(p.state, open) && !o.next.Fail? && KeepsMarks(p, o)
    requires at <= i < |data| && OneMark(marks, open, at)
    ensures var m := Marked(marks, o.mark, i);
            var after := OpenKind(o.p.state);
            var at' := if o.mark.Some? then i else at;
            && OneMark(Cleared(m, o.flush), after, at')
            && (o.next.Again? ==> after == None && !ReadsBody(o.p.state)) && (o.note != [] ==> after == None)
            && data[at'..if after.Some? then i + 1 else at'] ==
               Collected(OpenKind(p.state), after, data[at..i], data[i])
            && (o.flush.Some? && MarkAt(m, o.flush.value).Some? ==>
                  && MarkAt(m, o.flush.value).value <= i
                  && PassCalls(o, open, data[at..i]) ==
                     [Data(o.flush.value, data[MarkAt(m, o.flush.value).value..i])] + o.note)
            && (o.flush.None? || MarkAt(m, o.flush.value).None? ==> PassCalls(o, open, data[at..i]) == o.note)
  {
  }

  /** `m` has the open mark, and what lies between it and the byte at `i`. */
  predicate Holds(m: Making, open: Option<Kind>, w: string) {
    m.open == open && m.collected == if open.None? then [] else w
  }

  lemma PassMakes(p: Parser, o: Out, m: Making, open: Option<Kind>, at: nat, marks: Marks, data: string, i: nat)
    requires !ReadsBody(p.state) && OpenFits(p.state, open) && !o.next.Fail? && Orderly(p, o) && KeepsMarks(p, o)
    requires at <= i < |data| && OneMark(marks, open, at) && Holds(m, open, data[at..i])
    ensures var n, at' := MadePass(p, o, m, data[i]), if o.mark.Some? then i else at;
            && n.calls == m.calls + PassCalls(o, open, data[at..i])
            && Holds(n, OpenKind(o.p.state), data[at'..i + 1])
  {
    hide KeepsMarks, OneMark, Cleared, Marked, MarkAt;
    PassMarks(p, o, marks, open, at, data, i);
    PassOpens(p, o, data[i]);
  }

  lemma BodyMakes(q: Parser, o: Out, m: Making, open: Option<Kind>, at: nat, data: string, i: nat, j: nat)
    requires ReadsBody(q.state) && at <= i <= j < |data| && Holds(m, open, data[at..i])
    ensures var w := data[if open.None? then i else at..j + 1];
            MadePass(q, o, BodyMade(m, data[i..j]), data[j]) ==
              if o.next.Again? then Making(m.calls + [Data(Body, w)], None, []) else Making(m.calls, Some(Body), w)
  {
    var before := if open.None? then [] else data[at..i];
    assert before + data[i..j] + [data[j]] == data[if open.None? then i else at..j + 1];
    assert i == j ==> before + data[i..j] == before;
  }

  // ---------------------------------------------------------------- the end of the input

  /** A call with no bytes: the peer has closed the connection. */
  function Eof(cb: Callbacks, p: Parser): Ran {
    if !p.errno.OK? then Ran(p, [], 0)
    else if p.state.BodyIdentityEof? then
      Ran(if cb.pauses then p.(errno := Paused) else p, [Complete], 0)
    else if p.state.Dead? || p.state.StartReqOrRes? || p.state.StartRes? || p.state.StartReq? then
      Ran(p, [], 0)
    else Ran(p.(errno := InvalidEofState), [], 1)
  }

  /** The calls that one call of http_parser_execute makes. */
  function Reported(cb: Callbacks, p: Parser, data: string): seq<Event> {
    if data == [] then Eof(cb, p).events else CallsOf(cb, p, data)
  }

  lemma StoppedReports(cb: Callbacks, p: Parser, data: string)
    requires !p.errno.OK?
    ensures Reported(cb, p, data) == []
  {
    hide Run, Made;
    RunStopped(cb, p, data);
    RunStopped(cb, p, []);
    assert data[..0] == [];
    MadeStops(cb, p, data, 0);
    MadeNone(cb, p);
  }

  lemma MadeNone(cb: Callbacks, p: Parser)
    ensures Made(cb, p, []) == Making([], OpenKind(p.state), [])
  {
  }

  lemma LongerBodies(calls: seq<Event>, limit: nat, more: nat)
    requires FullBodies(calls, limit) && limit <= more
    ensures FullBodies(calls, more)
  {
    forall i | 0 <= i < |calls| ensures FullBody(calls[i], more) {
      assert FullBody(calls[i], limit);
    }
  }

  lemma JoinBodies(a: seq<Event>, b: seq<Event>, limit: nat)
    requires FullBodies(a, limit) && FullBodies(b, limit)
    ensures FullBodies(a + b, limit)
  {
    forall i | 0 <= i < |a + b| ensures FullBody((a + b)[i], limit) {
      if i < |a| {
        assert FullBody(a[i], limit);
      } else {
        assert FullBody(b[i - |a|], limit);
      }
    }
  }

  // ---------------------------------------------------------------- the parser object

  class HttpParser {
    const cb: Callbacks
    var fields: Parser
    /** The callbacks made so far, as made. */
    var calls: seq<Event>
    /** The longest buffer so far. */
    ghost var longest: nat

    /** http_parser_init on a new object */
    constructor (t: Type, cb: Callbacks)
      ensures Valid() && fields == Init(t) && calls == [] && this.cb == cb && longest == 0
    {
      this.cb := cb;
      fields := Init(t);
      calls := [];
      longest := 0;
      new;
      InitHolds(t);
      assert fields.(errno := OK) == fields;
    }

    ghost predicate Valid()
      reads this
    {
      Resting(fields) && Told(fields, Merge(calls)) && FullBodies(calls, longest)
    }

    /** http_parser_pause(parser, 0) */
    method Unpause()
      requires Valid()
      modifies this`fields
      ensures Valid()
      ensures fields == if old(fields).errno.Paused? then old(fields).(errno := OK) else old(fields)
    {
      if fields.errno.Paused? {
        fields := fields.(errno := OK);
        assert fields == fields.(errno := OK);
      }
    }

    /** The calls are `c0` and those of `m`, and the open mark has collected what it has in `m`. */
    ghost predicate Matches(c0: seq<Event>, m: Making, open: Option<Kind>, w: string)
      reads this
    {
      calls == c0 + m.calls && Holds(m, open, w)
    }

    /** One pass through the switch in a state that does not read body bytes: the switch, then the
        mark, the data callback and the notification that it asks for. */
    method Pass(data: string, i: nat, marks: Marks, ghost open: Option<Kind>, ghost at: nat,
                ghost c0: seq<Event>, ghost m: Making)
      returns (marks': Marks, next: Next, ghost open': Option<Kind>, ghost at': nat)
      requires i < |data| && at <= i && OneMark(marks, open, at) && Matches(c0, m, open, data[at..i])
      requires !ReadsBody(fields.state) && OpenFits(fields.state, open)
      modifies this`fields, this`calls
      ensures var o := Handle(cb, old(fields), data[i]);
              && fields == o.p && next == o.next
              && (next.Fail? ==> calls == old(calls))
              && (!next.Fail? ==>
                    && at' <= i && OneMark(marks', open', at') && open' == OpenKind(fields.state)
                    && (next.Again? ==> open' == None && !ReadsBody(fields.state))
                    && (fields.errno != old(fields).errno ==> open' == None && fields.errno.Paused?)
                    && Matches(c0, MadePass(old(fields), o, m, data[i]), open', data[at'..i + 1]))
    {
      hide Handle, KeepsMarks, MadePass, PassCalls, Marked, Cleared, MarkAt, OpenKind, OpenFits, OneMark, Holds;
      var ch := data[i];
      var o := Handle(cb, fields, ch);
      MarksKept(cb, fields, ch);
      fields := o.p;
      next := o.next;
      marks', open', at' := marks, open, at;
      if o.next.Fail? {
        return;
      }
      PassOpens(old(fields), o, ch);
      PassMarks(old(fields), o, marks, open, at, data, i);
      PassMakes(old(fields), o, m, open, at, marks, data, i);
      marks' := Marked(marks, o.mark, i);
      if o.flush.Some? && MarkAt(marks', o.flush.value).Some? {
        calls := calls + [Data(o.flush.value, data[MarkAt(marks', o.flush.value).value..i])];
      }
      marks' := Cleared(marks', o.flush);
      calls := calls + o.note;
      open', at' := OpenKind(o.p.state), if o.mark.Some? then i else at;
      assert calls == c0 + (m.calls + PassCalls(o, open, data[at..i]));
    }

    /** The body states: take all the body bytes that the buffer holds at once.  The last of them
        stays the current byte. */
    method ReadBody(data: string, i: nat, marks: Marks, ghost open: Option<Kind>, ghost at: nat,
                    ghost c0: seq<Event>, ghost m: Making)
      returns (j: nat, marks': Marks, next: Next, ghost open': Option<Kind>, ghost at': nat)
      requires i < |data| && at <= i && OneMark(marks, open, at) && Matches(c0, m, open, data[at..i])
      requires ReadsBody(fields.state) && Inv(fields) && (open == None || open == Some(Body))
      modifies this`fields, this`calls
      ensures i <= j < |data| && !next.Fail?
      ensures old(fields).state.BodyIdentityEof? || j - i < old(fields).contentLength
      ensures var q := Shortened(old(fields), j - i);
              var o := Handle(cb, q, data[j]);
              && fields == o.p && next == o.next
              && at' <= j && OneMark(marks', open', at')
              && open' == (if next.Again? then None else Some(Body))
              && OpenFits(fields.state, open') && (next.Again? ==> fields.state.MessageDone?)
              && fields.errno.OK?
              && Matches(c0, MadePass(q, o, BodyMade(m, data[i..j]), data[j]), open', data[at'..j + 1])
    {
      hide Handle, Inv, MadePass, BodyMade;
      BodyLength(fields);
      marks' := Marked(marks, Some(Body), i);
      open', at' := Some(Body), if open.None? then i else at;
      next := Advance;
      if fields.state.BodyIdentityEof? {
        j := |data| - 1;
      } else {
        assert fields.contentLength != 0 && fields.contentLength != ULLONG_MAX;
        var toRead := if fields.contentLength < |data| - i then fields.contentLength else |data| - i;
        fields := fields.(contentLength := fields.contentLength - toRead);
        j := i + toRead - 1;
        if fields.contentLength == 0 {
          if fields.state.ChunkData? {
            fields := fields.(state := ChunkDataAlmostDone);
          } else {
            fields := fields.(state := MessageDone);
            calls := calls + [Data(Body, data[marks'.body.value..j + 1])];
            marks' := Cleared(marks', Some(Body));
            open' := None;
            next := Again;
          }
        }
      }
      BodyPass(cb, Shortened(old(fields), j - i), data[j]);
      ghost var q := Shortened(old(fields), j - i);
      BodyMakes(q, Handle(cb, q, data[j]), m, open, at, data, i, j);
    }

    /** The re-executions of the current byte, `reexecute_byte` in the source, until it is done.
        `q` is the parser at the first pass, `m0` and `m` the calls then and now. */
    method Repass(data: string, j: nat, marks: Marks, next: Next,
                  ghost open: Option<Kind>, ghost at: nat,
                  ghost q: Parser, ghost c0: seq<Event>, ghost m0: Making, ghost m: Making)
      returns (marks': Marks, next': Next, ghost open': Option<Kind>, ghost at': nat)
      requires j < |data| && at <= j && OneMark(marks, open, at) && Matches(c0, m, open, data[at..j + 1])
      requires !next.Fail?
      requires next.Again? ==> open == None && OpenKind(fields.state) == None && !ReadsBody(fields.state)
      requires Goes(cb, q, m0, data[j], fields, m, next)
      modifies this`fields, this`calls
      ensures var s := Passes(cb, q, data[j]);
              && fields == s.p && next' == s.next
              && calls == c0 + MadePasses(cb, q, m0, data[j]).calls
              && (next'.Advance? ==>
                    && at' <= j && OneMark(marks', open', at')
                    && (if next.Again? then open' == OpenKind(fields.state) else open' == open)
                    && (next.Again? && fields.errno != old(fields).errno ==> open' == None)
                    && Matches(c0, MadePasses(cb, q, m0, data[j]), open', data[at'..j + 1]))
    {
      hide Handle, MadePass, Passes, MadePasses;
      marks', next', open', at' := marks, next, open, at;
      ghost var now := m;
      ghost var errno := fields.errno;
      while next'.Again?
        invariant !next'.Fail? ==> at' <= j && OneMark(marks', open', at') && Matches(c0, now, open', data[at'..j + 1])
        invariant next'.Again? ==> open' == None && OpenKind(fields.state) == None && !ReadsBody(fields.state)
        invariant next'.Again? ==> fields.errno == errno
        invariant Goes(cb, q, m0, data[j], fields, now, next') && calls == c0 + now.calls
        invariant next'.Advance? && next.Again? ==>
                    open' == OpenKind(fields.state) && (fields.errno != errno ==> open' == None)
        invariant next.Advance? ==> next' == next && open' == open && fields == old(fields)
        decreases if next'.Again? then Rank(fields.state) + 1 else 0
      {
        ghost var o := Handle(cb, fields, data[j]);
        GoesOn(cb, q, m0, data[j], fields, now);
        ghost var made := if o.next.Fail? then now else MadePass(fields, o, now, data[j]);
        marks', next', open', at' := Pass(data, j, marks', open', at', c0, now);
        now := made;
      }
    }

    /** What holds at the top of the loop over the buffer, with i bytes done: the fields are those
        of the reference, and the calls and the open mark those of `Made`. */
    ghost predicate InStep(p0: Parser, c0: seq<Event>, data: string, i: nat, marks: Marks,
                           open: Option<Kind>, at: nat)
      reads this
    {
      && at <= i <= |data| && OneMark(marks, open, at) && OpenFits(fields.state, open)
      && fields.errno.OK? && Inv(fields)
      && Run(cb, p0, data[..i]).p == fields && Run(cb, p0, data[..i]).count == i
      && Matches(c0, Made(cb, p0, data[..i]), open, data[at..i])
    }

    /** The first pass over the byte at i, which has been counted and is within the limit.  A run of
        body bytes moves the position to its last byte, `j`. */
    method FirstPass(data: string, i: nat, marks: Marks,
                     ghost p0: Parser, ghost c0: seq<Event>, ghost open: Option<Kind>, ghost at: nat)
      returns (j: nat, marks': Marks, next: Next, ghost open': Option<Kind>, ghost at': nat)
      requires i < |data| && at <= i && OneMark(marks, open, at) && OpenFits(fields.state, open)
      requires var r := Run(cb, p0, data[..i]);
               && r.count == i && Inv(r.p) && fields == Counted(r.p)
               && (ParsingHeader(fields.state) ==> fields.nread <= MAX_HEADER_SIZE)
      requires Matches(c0, Made(cb, p0, data[..i]), open, data[at..i])
      modifies this`fields, this`calls
      ensures i <= j < |data|
      ensures var r, m := Run(cb, p0, data[..j]), Made(cb, p0, data[..j]);
              var q := Counted(r.p);
              var o := Handle(cb, q, data[j]);
              && r.count == j && Inv(r.p) && (ParsingHeader(r.p.state) ==> r.p.nread < MAX_HEADER_SIZE)
              && fields == o.p && next == o.next
              && (if next.Fail? then calls == c0 + m.calls
                  else
                    && at' <= j && OneMark(marks', open', at') && OpenFits(fields.state, open')
                    && (next.Again? ==> open' == None && OpenKind(fields.state) == None && !ReadsBody(fields.state))
                    && (!fields.errno.OK? ==> open' == None && !next.Again?)
                    && Matches(c0, MadePass(q, o, m, data[j]), open', data[at'..j + 1]))
    {
      hide Handle, MadePass, BodyMade, Made, Inv, Run, Holds;
      ghost var r, m := Run(cb, p0, data[..i]), Made(cb, p0, data[..i]);
      InvRuns(r.p);
      if ReadsBody(fields.state) {
        j, marks', next, open', at' := ReadBody(data, i, marks, open, at, c0, m);
        BodyTo(cb, p0, data, i, j);
      } else {
        j := i;
        marks', next, open', at' := Pass(data, i, marks, open, at, c0, m);
      }
    }

    /** One iteration: count the byte, then pass it through the switch until it is done. */
    method OneByte(data: string, i: nat, marks: Marks,
                   ghost p0: Parser, ghost c0: seq<Event>, ghost open: Option<Kind>, ghost at: nat)
      returns (j: nat, marks': Marks, next: Next, ghost open': Option<Kind>, ghost at': nat)
      requires i < |data| && InStep(p0, c0, data, i, marks, open, at)
      modifies this`fields, this`calls
      ensures i <= j < |data| && !next.Again?
      ensures var r := Run(cb, p0, data[..j + 1]);
              && r.p == fields && r.count == (if next.Fail? then j else j + 1)
              && calls == c0 + Made(cb, p0, data[..j + 1]).calls
              && (next.Fail? ==> !fields.errno.OK? && !fields.errno.Paused?)
              && (next.Advance? && fields.errno.OK? ==> InStep(p0, c0, data, j + 1, marks', open', at'))
              && (next.Advance? && !fields.errno.OK? ==> fields.errno.Paused? && Inv(fields.(errno := OK)))
    {
      hide Handle, MadePass, Made, Passes, MadePasses, Inv, Run;
      marks', open', at', j := marks, open, at, i;
      InvRuns(fields);
      if ParsingHeader(fields.state) {
        fields := fields.(nread := fields.nread + 1);
        if fields.nread > MAX_HEADER_SIZE {
          fields := fields.(errno := HeaderOverflow);
          next := Fail;
          RunFurther(cb, p0, data, i);
          MadeFurther(cb, p0, data, i);
          return;
        }
      }
      j, marks', next, open', at' := FirstPass(data, i, marks, p0, c0, open, at);
      ghost var r, m := Run(cb, p0, data[..j]), Made(cb, p0, data[..j]);
      ghost var q := Counted(r.p);
      AfterByte(cb, p0, data, j);
      GoesFirst(cb, q, m, data[j]);
      if next.Fail? {
        return;
      }
      marks', next, open', at' :=
        Repass(data, j, marks', next, open', at', q, c0, m, MadePass(q, Handle(cb, q, data[j]), m, data[j]));
      if fields.errno.OK? {
        assert fields == fields.(errno := OK);
      }
    }

    /** A call with no bytes. */
    method AtEof() returns (n: nat)
      requires Valid()
      modifies this`fields, this`calls
      ensures Valid()
      ensures var r := Eof(cb, old(fields));
              && fields == r.p && n == r.count
              && calls == old(calls) + r.events
              && Merge(calls) == EmitAll(Merge(old(calls)), r.events)
    {
      hide Inv, EmitAll, Emit;
      EmitAllNone(Merge(calls));
      EmitAllConcat([], calls, [Complete]);
      if !fields.errno.OK? {
        return 0;
      }
      assert fields == fields.(errno := OK);
      if fields.state.BodyIdentityEof? {
        calls := calls + [Complete];
        if cb.pauses {
          fields := fields.(errno := Paused);
          assert old(fields) == fields.(errno := OK);
        }
        return 0;
      }
      if fields.state.Dead? || fields.state.StartReqOrRes? || fields.state.StartRes? || fields.state.StartReq? {
        return 0;
      }
      fields := fields.(errno := InvalidEofState);
      return 1;
    }

    /** The whole of http_parser_execute.  Whatever bytes the call is given, the fields and the byte count
        are those of the bytewise reference, and the calls are exactly those of `CallsOf`.  So, unless the
        call ends in an error, the merged trace is that of the reference too; an error can only cost the data
        event that was being collected. */
    method Execute(data: string) returns (n: nat)
      requires Valid()
      modifies this`fields, this`calls, this`longest
      ensures Valid() && longest == if |data| <= old(longest) then old(longest) else |data|
      ensures calls == old(calls) + Reported(cb, old(fields), data)
      ensures var r := if data == [] then Eof(cb, old(fields)) else Run(cb, old(fields), data);
              && fields == r.p && n == r.count
              && (fields.errno.OK? || fields.errno.Paused? ==>
                    Merge(calls) == EmitAll(Merge(old(calls)), r.events))
              && (!old(fields).errno.OK? ==> calls == old(calls))
              && exists open, w :: Pending(Merge(calls), open, w) == EmitAll(Merge(old(calls)), r.events)
    {
      hide Run, Made, EmitAll, Emit, Inv, FullBodies, Told, CallsOf;
      ghost var p0, c0 := fields, calls;
      if |data| > longest {
        LongerBodies(calls, longest, |data|);
        longest := |data|;
      }
      if !fields.errno.OK? {
        StoppedReports(cb, p0, data);
        EmitAllNone(Merge(c0));
        RunStopped(cb, p0, data);
        assert Pending(Merge(calls), None, []) == Merge(c0);
        return 0;
      }
      if data == [] {
        n := AtEof();
        assert Pending(Merge(calls), None, []) == EmitAll(Merge(c0), Eof(cb, p0).events);
        return;
      }
      assert p0 == p0.(errno := OK);
      n := ReadAll(data);
      ghost var made := CallsOf(cb, p0, data);
      EmitAllConcat([], c0, made);
      CallsTell(cb, p0, data, Merge(c0));
      RunPreserves(cb, p0, data);
      LongerBodies(made, |data|, longest);
      JoinBodies(c0, made, longest);
    }

    /** The loop over the buffer. */
    method ReadAll(data: string) returns (n: nat)
      requires Inv(fields) && data != []
      modifies this`fields, this`calls
      ensures fields == Run(cb, old(fields), data).p && n == Run(cb, old(fields), data).count
      ensures calls == old(calls) + CallsOf(cb, old(fields), data)
    {
      hide Run, Made, Inv;
      ghost var p0, c0 := fields, calls;
      InvRuns(p0);
      var marks := NO_MARKS;
      if fields.state.HeaderField? {
        marks := marks.(field := Some(0));
      }
      if fields.state.HeaderValue? {
        marks := marks.(value := Some(0));
      }
      if InUrl(fields.state) {
        marks := marks.(url := Some(0));
      }
      ghost var open, at: nat := OpenKind(fields.state), 0;
      RunStopped(cb, p0, []);
      MadeNone(cb, p0);
      assert data[..0] == [] && data[0..0] == [];
      var i := 0;
      while i < |data|
        invariant InStep(p0, c0, data, i, marks, open, at)
      {
        var next;
        i, marks, next, open, at := OneByte(data, i, marks, p0, c0, open, at);
        if !fields.errno.OK? {
          RunStops(cb, p0, data, i + 1);
          MadeStops(cb, p0, data, i + 1);
          if next.Fail? {
            return i;
          }
          return i + 1;
        }
        i := i + 1;
      }
      assert data[..i] == data;
      FlushMarks(data, marks, open, at);
      return |data|;
    }

    /** The end of the buffer: the data callbacks for marks that are still open.  At most one is. */
    method FlushMarks(data: string, marks: Marks, ghost open: Option<Kind>, ghost at: nat)
      requires at <= |data| && OneMark(marks, open, at)
      modifies this`calls
      ensures calls == old(calls) + if open.None? then [] else [Data(open.value, data[at..])]
    {
      if marks.field.Some? {
        calls := calls + [Data(Field, data[marks.field.value..])];
      }
      if marks.value.Some? {
        calls := calls + [Data(Value, data[marks.value.value..])];
      }
      if marks.url.Some? {
        calls := calls + [Data(Url, data[marks.url.value..])];
      }
      if marks.body.Some? {
        calls := calls + [Data(Body, data[marks.body.value..])];
      }
    }
  }
}
