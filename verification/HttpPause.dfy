/**
 Pause transparency: on_message_complete of the HTTPS upstream pauses the parser after every
 message; the unread bytes are parsed again once the parser is un-paused.  No byte, no callback and
 no field differs from a run that never pauses.
 */
module HttpPause {
  import opened HttpTypes
  import opened HttpSwitch
  import opened HttpRun
  import opened HttpCalls
  import opened HttpExecute

  /** The same application without the pauses. */
  function Unpausing(cb: Callbacks): Callbacks { cb.(pauses := false) }

  /** http_parser_pause(parser, 0) on a parser that is not in error. */
  function Resumed(p: Parser): Parser {
    if p.errno.Paused? then p.(errno := OK) else p
  }

  function ResumedOut(o: Out): Out { o.(p := Resumed(o.p)) }

  // ---------------------------------------------------------------- one byte

  lemma FinishPauses(cb: Callbacks, p: Parser)
    requires p.errno.OK?
    ensures Finish(Unpausing(cb), p) == ResumedOut(Finish(cb, p))
  {
  }

  lemma HeadersEndPauses(cb: Callbacks, p: Parser, ch: char)
    requires (p.state.HeadersAlmostDone? || p.state.HeadersDone?) && p.errno.OK?
    ensures HandleHeadersEnd(Unpausing(cb), p, ch) == ResumedOut(HandleHeadersEnd(cb, p, ch))
  {
    hide Finish, NeedsEof, InfoOf;
    FinishPauses(cb, p);
    FinishPauses(cb, p.(nread := 0));
  }

  lemma BodyPauses(cb: Callbacks, p: Parser)
    requires InBody(p.state) && p.errno.OK?
    ensures HandleBody(Unpausing(cb), p) == ResumedOut(HandleBody(cb, p))
  {
    hide Finish;
    FinishPauses(cb, p);
  }

  /** A pass with pauses is a pass without them, up to the pause. */
  lemma HandlePauses(cb: Callbacks, p: Parser, ch: char)
    requires p.errno.OK?
    ensures Handle(Unpausing(cb), p, ch) == ResumedOut(Handle(cb, p, ch))
    ensures Handle(cb, p, ch).next.Again? ==> Handle(cb, p, ch).p.errno.OK?
  {
    hide HandleStart, HandleStatusLine, HandleMethod, HandleUrl, HandleRequestVersion, HandleField,
      HandleValue, HandleHeadersEnd, HandleBody, HandleChunk;
    if p.state.HeadersAlmostDone? || p.state.HeadersDone? {
      HeadersEndPauses(cb, p, ch);
    } else if InBody(p.state) {
      BodyPauses(cb, p);
    }
  }

  lemma PassesPauses(cb: Callbacks, p: Parser, ch: char)
    requires p.errno.OK?
    ensures var s := Passes(cb, p, ch); Passes(Unpausing(cb), p, ch) == s.(p := Resumed(s.p))
    decreases Rank(p.state)
  {
    hide Handle;
    HandlePauses(cb, p, ch);
    var o := Handle(cb, p, ch);
    if o.next.Again? {
      PassesPauses(cb, o.p, ch);
    }
  }

  lemma BytePauses(cb: Callbacks, p: Parser, ch: char)
    requires p.errno.OK?
    ensures var s := Byte(cb, p, ch); Byte(Unpausing(cb), p, ch) == s.(p := Resumed(s.p))
  {
    hide Passes;
    PassesPauses(cb, Counted(p), ch);
  }

  // ---------------------------------------------------------------- up to a pause

  /** Up to the byte at which it pauses, a run is the run that never pauses. */
  lemma {:induction false} RunUntilPause(cb: Callbacks, p: Parser, data: string)
    requires p.errno.OK?
    ensures var r := Run(cb, p, data);
            if r.p.errno.Paused? then
              0 < r.count && Run(Unpausing(cb), p, data[..r.count]) == Ran(Resumed(r.p), r.events, r.count)
            else Run(Unpausing(cb), p, data) == r
    decreases |data|
  {
    hide Byte;
    if data != [] {
      var s := Byte(cb, p, data[0]);
      BytePauses(cb, p, data[0]);
      FailSetsErrno(cb, p, data[0]);
      ErrnoAfter(cb, p, data[0]);
      if s.next.Advance? {
        var r' := Run(cb, s.p, data[1..]);
        var n := 1 + r'.count;
        if s.p.errno.Paused? {
          RunStopped(cb, s.p, data[1..]);
          RunOne(Unpausing(cb), p, data[0]);
          assert data[..1] == [data[0]];
          assert s.events + [] == s.events;
        } else {
          RunUntilPause(cb, s.p, data[1..]);
          if r'.p.errno.Paused? {
            assert data[..n][0] == data[0] && data[..n][1..] == data[1..][..r'.count];
          }
        }
      }
    }
  }

  // ---------------------------------------------------------------- the whole stream

  /** Runs the input, un-pausing the parser and feeding it the unread rest after every pause. */
  function RunResuming(cb: Callbacks, p: Parser, data: string): Ran
    requires p.errno.OK?
    decreases |data|
  {
    var r := Run(cb, p, data);
    if r.p.errno.Paused? && 0 < r.count then
      var s := RunResuming(cb, Resumed(r.p), data[r.count..]);
      Ran(s.p, r.events + s.events, r.count + s.count)
    else r
  }

  /** Pause transparency: for every stream of messages, pausing after each message changes nothing
      about the trace, the final fields or the bytes consumed. */
  lemma {:induction false} PauseTransparent(cb: Callbacks, p: Parser, data: string)
    requires p.errno.OK?
    ensures RunResuming(cb, p, data) == Run(Unpausing(cb), p, data)
    decreases |data|
  {
    hide Run;
    var r := Run(cb, p, data);
    RunUntilPause(cb, p, data);
    if r.p.errno.Paused? {
      PauseTransparent(cb, Resumed(r.p), data[r.count..]);
      RunConcat(Unpausing(cb), p, data[..r.count], data[r.count..]);
      assert data == data[..r.count] + data[r.count..];
    }
  }

  // ---------------------------------------------------------------- the upstream's reader

  /** The input side of the HTTPS upstream: a buffer, and a parser that is paused while a request
      is being answered. */
  class RequestReader {
    const htp: HttpParser
    var input: string

    constructor (cb: Callbacks)
      ensures Valid() && input == [] && htp.cb == cb && htp.fields == Init(Request) && htp.calls == []
      ensures fresh(htp)
    {
      htp := new HttpParser(Request, cb);
      input := [];
    }

    ghost predicate Valid()
      reads this, htp
    {
      htp.Valid()
    }

    /** on_read: parse what the buffer holds and drain what was consumed. */
    method OnRead()
      requires Valid()
      modifies this`input, htp
      ensures Valid()
      ensures var r := Run(htp.cb, old(htp.fields), old(input));
              && htp.fields == r.p && input == old(input)[r.count..]
              && (htp.fields.errno.OK? || htp.fields.errno.Paused? ==>
                    Merge(htp.calls) == EmitAll(Merge(old(htp.calls)), r.events))
    {
      hide Run, EmitAll;
      if input == [] {
        RunStopped(htp.cb, htp.fields, []);
        EmitAllNone(Merge(htp.calls));
        return;
      }
      var nread := htp.Execute(input);
      input := input[nread..];
    }

    /** resume_read, once the response is complete: un-pause, then process the bytes that are
        already buffered. */
    method ResumeRead()
      requires Valid()
      modifies this`input, htp
      ensures Valid()
      ensures var r := Run(htp.cb, Resumed(old(htp.fields)), old(input));
              && htp.fields == r.p && input == old(input)[r.count..]
              && (htp.fields.errno.OK? || htp.fields.errno.Paused? ==>
                    Merge(htp.calls) == EmitAll(Merge(old(htp.calls)), r.events))
    {
      htp.Unpause();
      OnRead();
    }

    /** A buffered stream of requests, each answered before the next is read.  The requests seen are
        those that a parser without pauses sees. */
    method ServeAll()
      requires Valid() && htp.fields.errno.OK?
      modifies this`input, htp
      ensures Valid()
      ensures var r := Run(Unpausing(htp.cb), old(htp.fields), old(input));
              && Resumed(htp.fields) == r.p && input == old(input)[r.count..]
              && (r.p.errno.OK? ==> Merge(htp.calls) == EmitAll(Merge(old(htp.calls)), r.events))
    {
      hide Run, EmitAll, RunResuming;
      ghost var p0, t0, whole := htp.fields, Merge(htp.calls), input;
      ghost var all := Run(Unpausing(htp.cb), p0, whole);
      OnRead();
      RunUntilPause(htp.cb, p0, whole);
      ghost var r := Run(htp.cb, p0, whole);
      ghost var n: nat := r.count;
      ghost var done := r.events;
      while htp.fields.errno.Paused? && input != []
        invariant Valid() && n <= |whole| && input == whole[n..]
        invariant if htp.fields.errno.Paused? then
                    && Run(Unpausing(htp.cb), p0, whole[..n]) == Ran(Resumed(htp.fields), done, n)
                    && Merge(htp.calls) == EmitAll(t0, done)
                  else
                    && all == Ran(htp.fields, done, n)
                    && (htp.fields.errno.OK? ==> Merge(htp.calls) == EmitAll(t0, done))
        decreases |input|, htp.fields.errno.Paused?
      {
        ghost var q := Resumed(htp.fields);
        ghost var rest := input;
        ResumeRead();
        RunUntilPause(htp.cb, q, rest);
        r := Run(htp.cb, q, rest);
        EmitAllConcat(t0, done, r.events);
        if htp.fields.errno.Paused? {
          assert whole[n..n + r.count] == rest[..r.count];
          assert whole[..n + r.count] == whole[..n] + rest[..r.count];
          RunConcat(Unpausing(htp.cb), p0, whole[..n], rest[..r.count]);
        } else {
          assert whole == whole[..n] + rest;
          RunConcat(Unpausing(htp.cb), p0, whole[..n], rest);
        }
        n := n + r.count;
        done := done + r.events;
      }
      if htp.fields.errno.Paused? {
        assert whole[..n] == whole;
      }
    }
  }
}
