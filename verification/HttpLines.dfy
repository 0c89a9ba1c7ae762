/**
 Whole header blocks and the lines in front of them.
 */
module HttpLines {
  import opened HttpTypes
  import opened HttpSwitch
  import opened HttpRun
  import opened HttpBytes
  import opened HttpNumbers
  import opened HttpHeaders

  // ---------------------------------------------------------------- lists of header lines

  function Lines(hs: seq<Header>): string {
    if hs == [] then [] else Line(hs[0]) + Lines(hs[1..])
  }

  function LinesEvents(hs: seq<Header>): seq<Event> {
    if hs == [] then [] else LineEvents(hs[0]) + LinesEvents(hs[1..])
  }

  function MeaningAll(f: Framing, hs: seq<Header>): Framing
    decreases |hs|
  {
    if hs == [] then f else MeaningAll(Meaning(f, hs[0]), hs[1..])
  }

  predicate AreHeaders(hs: seq<Header>) {
    forall i :: 0 <= i < |hs| ==> IsHeader(hs[i])
  }

  lemma {:induction false} LinesConcat(a: seq<Header>, b: seq<Header>)
    ensures Lines(a + b) == Lines(a) + Lines(b)
    decreases |a|
  {
    hide Line;
    if a == [] {
      assert a + b == b;
    } else {
      assert (a + b)[0] == a[0] && (a + b)[1..] == a[1..] + b;
      LinesConcat(a[1..], b);
    }
  }

  /** The parser after some lines; only the matcher's leftovers are not pinned down. */
  predicate AfterLines(p: Parser, q: Parser, n: nat, f: Framing) {
    && AtLine(q)
    && q == p.(nread := p.nread + n, state := q.state, flags := f.flags, contentLength := f.contentLength,
               headerState := q.headerState, index := q.index)
  }

  /** Any number of header lines, under the header limit: each is reported as its name and its
      value, in order, and their meanings add up. */
  lemma {:induction false} LinesRun(cb: Callbacks, p: Parser, hs: seq<Header>)
    requires AtLine(p) && AreHeaders(hs) && Room(p, |Lines(hs)|)
    ensures var r := Run(cb, p, Lines(hs));
            && r == Ran(r.p, LinesEvents(hs), |Lines(hs)|)
            && AfterLines(p, r.p, |Lines(hs)|, MeaningAll(FramingOf(p), hs))
    decreases |hs|
  {
    hide Byte, Run, Line, LineEvents, Meaning, IsHeader;
    if hs == [] {
      RunStopped(cb, p, []);
    } else {
      var line, rest := Line(hs[0]), Lines(hs[1..]);
      LineRun(cb, p, hs[0]);
      var q := Run(cb, p, line).p;
      LinesRun(cb, q, hs[1..]);
      RunConcat(cb, p, line, rest);
    }
  }

  // ---------------------------------------------------------------- the empty line

  /** The carriage return of the empty line. */
  lemma EmptyLineByte(cb: Callbacks, p: Parser)
    requires AtLine(p) && Room(p, 1)
    ensures Byte(cb, p, CR) == Step(p.(nread := p.nread + 1, state := HeadersAlmostDone), [], Advance)
  {
    hide Handle, Byte;
    var q := p.(nread := p.nread + 1, state := HeaderFieldStart);
    InFieldPart(cb, q, CR);
    if p.state.HeaderFieldStart? {
      OnePass(cb, p, CR);
    } else {
      TwoPasses(cb, p, CR);
      InValuePart(cb, Counted(p), CR);
    }
  }

  /** Header lines and the carriage return after them: the parser is about to end the block. */
  lemma BlockRun(cb: Callbacks, p: Parser, hs: seq<Header>)
    requires AtLine(p) && AreHeaders(hs) && Room(p, |Lines(hs)| + 1)
    ensures var r := Run(cb, p, Lines(hs) + [CR]);
            var f := MeaningAll(FramingOf(p), hs);
            && r == Ran(r.p, LinesEvents(hs), |Lines(hs)| + 1)
            && r.p == p.(nread := p.nread + |Lines(hs)| + 1, state := HeadersAlmostDone, flags := f.flags,
                         contentLength := f.contentLength, headerState := r.p.headerState, index := r.p.index)
  {
    hide Byte, Run, Lines, LinesEvents, MeaningAll;
    LinesRun(cb, p, hs);
    var q := Run(cb, p, Lines(hs)).p;
    RunConcat(cb, p, Lines(hs), [CR]);
    RunOne(cb, q, CR);
    EmptyLineByte(cb, q);
    assert LinesEvents(hs) + [] == LinesEvents(hs);
  }

  // ---------------------------------------------------------------- status line

  /** A byte of a status line makes no callback. */
  lemma StatusByte(cb: Callbacks, p: Parser, ch: char)
    requires InStatusLine(p.state) && p.errno.OK? && Room(p, 1)
    ensures var o := HandleStatusLine(Counted(p), ch);
            Run(cb, p, [ch]) == Ran(o.p, [], if o.next.Fail? then 0 else 1)
  {
    hide Byte, Run, Handle, HandleStatusLine;
    OnePass(cb, p, ch);
    InStatusLinePart(cb, Counted(p), ch);
    RunOne(cb, p, ch);
  }

  lemma {:induction false} MajorRun(cb: Callbacks, p: Parser, n: nat)
    requires p.state.ResFirstHttpMajor? && p.errno.OK? && n <= 999 && Room(p, |DecOf(n)|)
    ensures Run(cb, p, DecOf(n)) ==
            Ran(p.(nread := p.nread + |DecOf(n)|, state := ResHttpMajor, httpMajor := n), [], |DecOf(n)|)
    decreases n
  {
    hide Run, LastDigit;
    var d := LastDigit(n);
    if n < 10 {
      StatusByte(cb, p, d);
    } else {
      var w := DecOf(n / 10);
      MajorRun(cb, p, n / 10);
      StatusByte(cb, p.(nread := p.nread + |w|, state := ResHttpMajor, httpMajor := n / 10), d);
      RunConcat(cb, p, w, [d]);
    }
  }

  lemma {:induction false} MinorRun(cb: Callbacks, p: Parser, n: nat)
    requires p.state.ResFirstHttpMinor? && p.errno.OK? && n <= 999 && Room(p, |DecOf(n)|)
    ensures Run(cb, p, DecOf(n)) ==
            Ran(p.(nread := p.nread + |DecOf(n)|, state := ResHttpMinor, httpMinor := n), [], |DecOf(n)|)
    decreases n
  {
    hide Run, LastDigit;
    var d := LastDigit(n);
    if n < 10 {
      StatusByte(cb, p, d);
    } else {
      var w := DecOf(n / 10);
      MinorRun(cb, p, n / 10);
      StatusByte(cb, p.(nread := p.nread + |w|, state := ResHttpMinor, httpMinor := n / 10), d);
      RunConcat(cb, p, w, [d]);
    }
  }

  lemma {:induction false} CodeRun(cb: Callbacks, p: Parser, n: nat)
    requires p.state.ResFirstStatusCode? && p.errno.OK? && n <= 999 && Room(p, |DecOf(n)|)
    ensures Run(cb, p, DecOf(n)) ==
            Ran(p.(nread := p.nread + |DecOf(n)|, state := ResStatusCode, statusCode := n), [], |DecOf(n)|)
    decreases n
  {
    hide Run, LastDigit;
    var d := LastDigit(n);
    if n < 10 {
      StatusByte(cb, p, d);
    } else {
      var w := DecOf(n / 10);
      CodeRun(cb, p, n / 10);
      StatusByte(cb, p.(nread := p.nread + |w|, state := ResStatusCode, statusCode := n / 10), d);
      RunConcat(cb, p, w, [d]);
    }
  }

  /** The reason phrase is skipped. */
  lemma {:induction false} ReasonRun(cb: Callbacks, p: Parser, w: string)
    requires p.state.ResStatus? && p.errno.OK? && Room(p, |w|)
    requires forall i :: 0 <= i < |w| ==> w[i] != CR && w[i] != LF
    ensures Run(cb, p, w) == Ran(p.(nread := p.nread + |w|), [], |w|)
    decreases |w|
  {
    hide Run;
    if w == [] {
      RunStopped(cb, p, w);
    } else {
      StatusByte(cb, p, w[0]);
      ReasonRun(cb, p.(nread := p.nread + 1), w[1..]);
      RunConcat(cb, p, [w[0]], w[1..]);
      assert w == [w[0]] + w[1..];
    }
  }
}
