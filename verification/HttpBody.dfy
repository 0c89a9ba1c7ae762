/**
 The body of a message, and where a message ends.
 */
module HttpBody {
  import opened HttpTypes
  import opened HttpSwitch
  import opened HttpRun
  import opened HttpBytes

  /** The last byte of a run of body bytes, as the bytewise switch sees it. */
  lemma BodyPass(cb: Callbacks, p: Parser, ch: char)
    requires ReadsBody(p.state) && (p.state.BodyIdentityEof? || 0 < p.contentLength)
    ensures var o := Handle(cb, p, ch);
            var q := Shortened(p, 1);
            && PassEvents(o, ch) == [Data(Body, [ch])]
            && (if p.state.BodyIdentityEof? || 1 < p.contentLength then o.p == q && o.next.Advance?
                else if p.state.BodyIdentity? then o.p == q.(state := MessageDone) && o.next.Again?
                else o.p == q.(state := ChunkDataAlmostDone) && o.next.Advance?)
  {
    hide Handle;
    if p.state.ChunkData? {
      InChunkPart(cb, p, ch);
    } else {
      InBodyPart(cb, p, ch);
    }
    assert [Data(Body, [ch])] + [] == [Data(Body, [ch])];
  }

  /** The parser after `n` more body bytes, when they do not exhaust the body. */
  function Shortened(p: Parser, n: nat): Parser
    requires p.state.BodyIdentityEof? || n <= p.contentLength
  {
    if p.state.BodyIdentityEof? then p else p.(contentLength := p.contentLength - n)
  }

  lemma BodyByte(cb: Callbacks, p: Parser, ch: char)
    requires ReadsBody(p.state)
    requires p.state.BodyIdentityEof? || 1 < p.contentLength
    ensures Byte(cb, p, ch) == Step(Shortened(p, 1), [Data(Body, [ch])], Advance)
  {
    hide Handle, Byte;
    OnePass(cb, p, ch);
    BodyPass(cb, p, ch);
  }

  /** Body bytes short of the end of the body only shorten what remains. */
  lemma {:induction false} BodyRun(cb: Callbacks, p: Parser, w: string)
    requires ReadsBody(p.state) && p.errno.OK?
    requires p.state.BodyIdentityEof? || |w| < p.contentLength
    ensures Run(cb, p, w) == Ran(Shortened(p, |w|), Bytewise(Body, w), |w|)
    decreases |w|
  {
    hide Byte;
    if w != [] {
      BodyByte(cb, p, w[0]);
      BodyRun(cb, Shortened(p, 1), w[1..]);
    }
  }

  // ---------------------------------------------------------------- bodies with a length

  /** The last byte of a body with a length completes the message. */
  lemma LastBodyByte(cb: Callbacks, p: Parser, ch: char)
    requires p.state.BodyIdentity? && p.contentLength == 1
    ensures Byte(cb, p, ch) ==
            Step(Finish(cb, p.(contentLength := 0, state := MessageDone)).p, [Data(Body, [ch]), Complete], Advance)
  {
    hide Handle, Byte;
    TwoPasses(cb, p, ch);
    BodyPass(cb, p, ch);
    InBodyPart(cb, p.(contentLength := 0, state := MessageDone), ch);
  }

  /** The fields as on_headers_complete sees them. */
  function AtHeadersComplete(p: Parser): Parser {
    p.(nread := p.nread + 1, state := HeadersDone, upgrade := p.flags.upgrade || p.verb.CONNECT?)
  }

  /** The parser once on_headers_complete has said whether a body follows. */
  function AfterHeadersComplete(cb: Callbacks, p: Parser): Parser {
    var q := AtHeadersComplete(p);
    if cb.noBody(q) then q.(flags := q.flags.(skipBody := true)) else q
  }

  /** The line feed that ends a header block, other than a trailer. */
  lemma HeadersEndByte(cb: Callbacks, p: Parser)
    requires p.state.HeadersAlmostDone? && !p.flags.trailing && Room(p, 1)
    ensures var o := HandleHeadersEnd(cb, AfterHeadersComplete(cb, p), LF);
            Byte(cb, p, LF) ==
              Step(o.p, [HeadersComplete(InfoOf(AtHeadersComplete(p)))] + o.note, Advance)
  {
    hide Handle, HandleHeadersEnd, Byte, InfoOf;
    TwoPasses(cb, p, LF);
    InHeadersEndPart(cb, Counted(p), LF);
    HeadersAlmostDonePass(cb, p);
    var q := AfterHeadersComplete(cb, p);
    InHeadersEndPart(cb, q, LF);
    HeadersDonePass(cb, q);
    var o := HandleHeadersEnd(cb, q, LF);
    assert [] + o.note == o.note;
    assert [] + [HeadersComplete(InfoOf(AtHeadersComplete(p)))] == [HeadersComplete(InfoOf(AtHeadersComplete(p)))];
  }

  lemma HeadersAlmostDonePass(cb: Callbacks, p: Parser)
    requires p.state.HeadersAlmostDone? && !p.flags.trailing
    ensures HandleHeadersEnd(cb, Counted(p), LF) ==
            Out(AfterHeadersComplete(cb, p), None, None, [HeadersComplete(InfoOf(AtHeadersComplete(p)))], Again)
  {
    hide InfoOf;
  }

  lemma HeadersDonePass(cb: Callbacks, q: Parser)
    requires q.state.HeadersDone?
    ensures var o := HandleHeadersEnd(cb, q, LF);
            o == Out(o.p, None, None, o.note, Advance) && OpenKind(o.p.state) == None
  {
    hide Finish, NeedsEof;
    FinishAdvances(cb, q.(nread := 0));
  }

  lemma FinishAdvances(cb: Callbacks, p: Parser)
    ensures var o := Finish(cb, p);
            o.next.Advance? && o.mark == None && o.flush == None && o.note == [Complete] && OpenKind(o.p.state) == None
  {
  }

  lemma HeadersEndCases(cb: Callbacks, p: Parser, ch: char)
    requires p.state.HeadersAlmostDone? || p.state.HeadersDone?
    ensures ch != LF ==> HandleHeadersEnd(cb, p, ch) == Bad(p, Strict)
    ensures ch == LF && p.state.HeadersAlmostDone? && p.flags.trailing ==> HandleHeadersEnd(cb, p, ch) == Finish(cb, p)
  {
    hide Finish;
  }

  lemma HeadersDoneCases(cb: Callbacks, p: Parser)
    requires p.state.HeadersDone?
    ensures var q := p.(nread := 0);
            HandleHeadersEnd(cb, p, LF) ==
              if q.upgrade then Go(q.(state := BodyIdentityEof))
              else if q.flags.skipBody then Finish(cb, q)
              else if q.flags.chunked then Go(q.(state := ChunkSizeStart))
              else if q.contentLength == 0 then Finish(cb, q)
              else if q.contentLength != ULLONG_MAX then Go(q.(state := BodyIdentity))
              else if q.kind.Request? || !NeedsEof(q) then Finish(cb, q)
              else Go(q.(state := BodyIdentityEof))
  {
    hide Finish, NeedsEof;
  }

  // ---------------------------------------------------------------- body conservation

  /** The header block is about to end, and it announces a body of `n` bytes and nothing else. */
  predicate AnnouncesBody(cb: Callbacks, p: Parser, n: nat) {
    && p.state.HeadersAlmostDone? && p.errno.OK? && Room(p, 1)
    && !p.flags.trailing && !p.flags.chunked && !p.flags.skipBody
    && !p.flags.upgrade && !p.verb.CONNECT?
    && !cb.noBody(AtHeadersComplete(p))
    && p.contentLength == n < ULLONG_MAX
  }

  /** The parser after the line feed, when `left` bytes of body are still to come. */
  function InBodyWith(p: Parser, left: nat): Parser {
    AtHeadersComplete(p).(nread := 0, contentLength := left, state := BodyIdentity)
  }

  lemma AnnouncedEnd(cb: Callbacks, p: Parser, n: nat)
    requires AnnouncesBody(cb, p, n)
    ensures Byte(cb, p, LF) ==
            if n == 0 then
              Step(Finish(cb, InBodyWith(p, 0)).p, [HeadersComplete(InfoOf(AtHeadersComplete(p))), Complete], Advance)
            else
              Step(InBodyWith(p, n), [HeadersComplete(InfoOf(AtHeadersComplete(p)))], Advance)
  {
    hide Handle, HandleHeadersEnd, Byte, InfoOf, Finish;
    HeadersEndByte(cb, p);
    var q := AtHeadersComplete(p);
    LengthDecides(cb, q);
    FinishIgnoresState(cb, q.(nread := 0), BodyIdentity);
    FinishAdvances(cb, q.(nread := 0));
    var h := [HeadersComplete(InfoOf(q))];
    assert h + [] == h && h + [Complete] == [HeadersComplete(InfoOf(q)), Complete];
  }

  lemma LengthDecides(cb: Callbacks, q: Parser)
    requires q.state.HeadersDone? && !q.upgrade && !q.flags.skipBody && !q.flags.chunked
    requires q.contentLength < ULLONG_MAX
    ensures HandleHeadersEnd(cb, q, LF) ==
            if q.contentLength == 0 then Finish(cb, q.(nread := 0))
            else Go(q.(nread := 0, state := BodyIdentity))
  {
    hide Finish;
  }

  lemma FinishIgnoresState(cb: Callbacks, p: Parser, s: State)
    ensures Finish(cb, p.(state := s)) == Finish(cb, p)
  {
  }

  /** Body conservation: after the line feed that ends the header block, the next `k` bytes are
      reported as body, in order and nothing else; and the message is complete exactly when
      k is the announced length. */
  lemma {:induction false} BodyConserved(cb: Callbacks, p: Parser, n: nat, b: string)
    requires AnnouncesBody(cb, p, n) && |b| <= n
    ensures var r := Run(cb, p, [LF] + b);
            && r.count == 1 + |b|
            && r.events == [HeadersComplete(InfoOf(AtHeadersComplete(p)))] + Bytewise(Body, b)
                           + (if |b| == n then [Complete] else [])
            && r.p == (if |b| == n then Finish(cb, InBodyWith(p, 0)).p else InBodyWith(p, n - |b|))
  {
    hide Byte, Run, InfoOf, Finish, Bytewise;
    var q := InBodyWith(p, n);
    var h := [HeadersComplete(InfoOf(AtHeadersComplete(p)))];
    RunConcat(cb, p, [LF], b);
    RunOne(cb, p, LF);
    AnnouncedEnd(cb, p, n);
    if n == 0 {
      assert b == [] && Bytewise(Body, []) == [] by { BytewiseNone(Body); }
      RunStopped(cb, Byte(cb, p, LF).p, b);
    } else if |b| < n {
      BodyRun(cb, q, b);
    } else {
      var b', c := b[..n - 1], b[n - 1];
      assert b == b' + [c];
      RunConcat(cb, q, b', [c]);
      BodyRun(cb, q, b');
      RunOne(cb, InBodyWith(p, 1), c);
      LastBodyByte(cb, InBodyWith(p, 1), c);
      FinishIgnoresState(cb, InBodyWith(p, 0), MessageDone);
      BytewiseSnoc(Body, b', c);
    }
  }
}
