/**
 Header values that go on in the next line, and lines that end in a line feed alone.
 */
module HttpFolds {
  import opened HttpTypes
  import opened HttpSwitch
  import opened HttpRun
  import opened HttpBytes
  import opened HttpBody
  import opened HttpNumbers
  import opened HttpMatcher
  import opened HttpHeaders
  import opened HttpLines
  import opened HttpResponse
  import opened StatusTable

  // ---------------------------------------------------------------- continued values

  /** A continuation: blanks or tabs, at least one, and more of the value. */
  datatype Fold = Fold(blanks: string, more: string)

  predicate AreBlanks(w: string) { forall i :: 0 <= i < |w| ==> w[i] == ' ' || w[i] == '\t' }

  predicate IsFold(f: Fold) { f.blanks != [] && AreBlanks(f.blanks) && IsValue(f.more) }

  function FoldText(f: Fold): string { f.blanks + f.more + CRLF }

  /** The blanks are not reported. */
  function FoldEvents(f: Fold): seq<Event> {
    if f.more == [] then [Data(Value, [])] else Bytewise(Value, f.more)
  }

  lemma FoldBlank(cb: Callbacks, p: Parser, c: char)
    requires p.state.HeaderValueLws? && p.errno.OK? && Room(p, 1) && (c == ' ' || c == '\t')
    ensures Run(cb, p, [c]) == Ran(p.(nread := p.nread + 1, state := HeaderValueStart), [], 1)
  {
    hide Byte, Run, Handle;
    OnePass(cb, p, c);
    InValuePart(cb, Counted(p), c);
    RunOne(cb, p, c);
  }

  lemma NextBlank(cb: Callbacks, p: Parser, c: char)
    requires p.state.HeaderValueStart? && p.errno.OK? && Room(p, 1) && (c == ' ' || c == '\t')
    ensures Run(cb, p, [c]) == Ran(p.(nread := p.nread + 1), [], 1)
  {
    hide Byte, Run, Handle;
    OnePass(cb, p, c);
    InValuePart(cb, Counted(p), c);
    RunOne(cb, p, c);
  }

  lemma {:induction false} BlanksRun(cb: Callbacks, p: Parser, w: string)
    requires p.state.HeaderValueLws? && p.errno.OK? && Room(p, |w|) && w != [] && AreBlanks(w)
    ensures Run(cb, p, w) == Ran(p.(nread := p.nread + |w|, state := HeaderValueStart), [], |w|)
    decreases |w|
  {
    hide Run;
    var n := |w| - 1;
    var front, c := w[..n], w[n];
    assert w == front + [c];
    if front == [] {
      FoldBlank(cb, p, c);
      assert w == [c];
    } else {
      BlanksRun(cb, p, front);
      NextBlank(cb, p.(nread := p.nread + n, state := HeaderValueStart), c);
      RunConcat(cb, p, front, [c]);
    }
  }

  /** What a continuation does to the framing: it says nothing, but a length starts over. */
  function FoldMeaning(f: Framing, left: HeaderState, more: string): Framing {
    if left.ContentLength? && more != [] then f.(contentLength := DecValue(more)) else f
  }

  function FoldClass(left: HeaderState, more: string): HeaderState {
    if more == [] then General else left
  }

  /** A continuation that the parser accepts: after a length, only another length. */
  predicate Continues(left: HeaderState, f: Fold) {
    IsFold(f) && (left.ContentLength? && f.more != [] ==> IsLength(f.more) && DecValue(f.more) < ULLONG_MAX)
  }

  lemma MoreRun(cb: Callbacks, p: Parser, more: string)
    requires p.state.HeaderValueStart? && p.errno.OK? && Room(p, |more| + 2) && IsValue(more)
    requires ClassOf(p.headerState).General? || p.headerState.ContentLength?
    requires p.headerState.ContentLength? && more != [] ==> IsLength(more) && DecValue(more) < ULLONG_MAX
    ensures var r := Run(cb, p, more + CRLF);
            var g := FoldMeaning(FramingOf(p), ClassOf(p.headerState), more);
            && r == Ran(AfterLine(p, |more| + 2, g, r.p.headerState, r.p.index),
                        if more == [] then [Data(Value, [])] else Bytewise(Value, more), |more| + 2)
            && ClassOf(r.p.headerState) == FoldClass(ClassOf(p.headerState), more)
  {
    hide Byte, Run, Bytewise, IsValue, IsLength;
    if more == [] {
      EmptyValueEnd(cb, p);
      assert more + CRLF == CRLF;
    } else {
      RunConcat(cb, p, more, CRLF);
      if p.headerState.ContentLength? {
        LengthRun(cb, p, more);
        ValueEnd(cb, LengthRead(p, more, DecValue(more)));
      } else {
        PlainValueRun(cb, p, more);
        var q := Run(cb, p, more).p;
        ValueEnd(cb, q);
        PlainClass(General, q.headerState, q.index, more);
      }
    }
  }

  lemma FoldRun(cb: Callbacks, p: Parser, f: Fold)
    requires p.state.HeaderValueLws? && p.errno.OK? && Room(p, |FoldText(f)|)
    requires (ClassOf(p.headerState).General? || p.headerState.ContentLength?) && Continues(ClassOf(p.headerState), f)
    ensures var r := Run(cb, p, FoldText(f));
            && r == Ran(AfterLine(p, |FoldText(f)|, FoldMeaning(FramingOf(p), ClassOf(p.headerState), f.more),
                                  r.p.headerState, r.p.index), FoldEvents(f), |FoldText(f)|)
            && ClassOf(r.p.headerState) == FoldClass(ClassOf(p.headerState), f.more)
  {
    hide Run, Bytewise, IsValue, IsLength, DecValue;
    BlanksRun(cb, p, f.blanks);
    var q := p.(nread := p.nread + |f.blanks|, state := HeaderValueStart);
    MoreRun(cb, q, f.more);
    RunConcat(cb, p, f.blanks, f.more + CRLF);
    assert FoldText(f) == f.blanks + (f.more + CRLF);
    assert [] + FoldEvents(f) == FoldEvents(f);
  }

  // ---------------------------------------------------------------- a folded header line

  function FoldsText(fs: seq<Fold>): string {
    if fs == [] then [] else FoldText(fs[0]) + FoldsText(fs[1..])
  }

  function FoldsEvents(fs: seq<Fold>): seq<Event> {
    if fs == [] then [] else FoldEvents(fs[0]) + FoldsEvents(fs[1..])
  }

  lemma {:induction false} FoldsRun(cb: Callbacks, p: Parser, fs: seq<Fold>)
    requires p.state.HeaderValueLws? && p.errno.OK? && Room(p, |FoldsText(fs)|)
    requires ClassOf(p.headerState).General? && forall f :: f in fs ==> IsFold(f)
    ensures var r := Run(cb, p, FoldsText(fs));
            r == Ran(AfterLine(p, |FoldsText(fs)|, FramingOf(p), r.p.headerState, r.p.index), FoldsEvents(fs),
                     |FoldsText(fs)|)
    decreases |fs|
  {
    hide Run, FoldText, FoldEvents, IsFold;
    if fs == [] {
      RunStopped(cb, p, []);
    } else {
      assert fs[0] in fs && forall f :: f in fs[1..] ==> f in fs;
      GeneralContinues(fs[0]);
      FoldRun(cb, p, fs[0]);
      var q := Run(cb, p, FoldText(fs[0])).p;
      FoldsRun(cb, q, fs[1..]);
      RunConcat(cb, p, FoldText(fs[0]), FoldsText(fs[1..]));
    }
  }

  lemma GeneralContinues(f: Fold)
    requires IsFold(f)
    ensures Continues(General, f)
  {
  }

  /** A folded header line: all its bytes but the blanks are reported as one name and one value, and the framing
      takes in what the first line alone means.  Content-Length is the exception below. */
  lemma FoldedLineRun(cb: Callbacks, p: Parser, hd: Header, fs: seq<Fold>)
    requires AtLine(p) && IsHeader(hd) && Room(p, |Line(hd) + FoldsText(fs)|)
    requires !NameClass(hd.name).ContentLength? && forall f :: f in fs ==> IsFold(f)
    ensures var w := Line(hd) + FoldsText(fs);
            var r := Run(cb, p, w);
            r == Ran(AfterLine(p, |w|, Meaning(FramingOf(p), hd), r.p.headerState, r.p.index),
                     LineEvents(hd) + FoldsEvents(fs), |w|)
  {
    hide Run, Line, LineEvents, Meaning, IsHeader, NameClass, IsFold, FoldsText, FoldsEvents;
    LineRun(cb, p, hd);
    var q := Run(cb, p, Line(hd)).p;
    FoldsRun(cb, q, fs);
    RunConcat(cb, p, Line(hd), FoldsText(fs));
  }

  /** A folded Content-Length starts over: the parser goes by the last line, and the header that is put together
      from its callbacks says the digits of both. */
  lemma FoldedLength(cb: Callbacks, p: Parser, name: string, a: string, f: Fold)
    requires AtLine(p) && IsHeader(Header(name, a)) && NameClass(name).ContentLength? && a != []
    requires IsFold(f) && IsLength(f.more) && DecValue(f.more) < ULLONG_MAX
    requires Room(p, |Line(Header(name, a)) + FoldText(f)|)
    ensures var hd := Header(name, a);
            var w := Line(hd) + FoldText(f);
            var r := Run(cb, p, w);
            && r.p.contentLength == DecValue(f.more) && r.count == |w| && r.p.errno.OK?
            && r.events == Bytewise(Field, name) + Bytewise(Value, a + f.more)
  {
    hide Run, Line, Meaning, NameClass, FoldText, DecValue, IsLength, Bytewise, IsValue, IsName, AreBlanks;
    var hd := Header(name, a);
    LineRun(cb, p, hd);
    var q := Run(cb, p, Line(hd)).p;
    FoldRun(cb, q, f);
    RunConcat(cb, p, Line(hd), FoldText(f));
    BytewiseConcat(Value, a, f.more);
    assert f.more != [] by { LengthNotEmpty(f.more); }
  }

  lemma LengthNotEmpty(w: string)
    requires IsLength(w)
    ensures w != []
  {
  }

  // ---------------------------------------------------------------- lines that end in a line feed alone

  /** In a value a line feed does what a carriage return and a line feed do. */
  lemma LfValueEnd(cb: Callbacks, p: Parser)
    requires p.state.HeaderValue? && p.errno.OK? && Room(p, 1)
    ensures Run(cb, p, [LF]) ==
            Ran(p.(nread := p.nread + 1, state := HeaderValueLws, flags := LineFlags(p.flags, p.headerState)), [], 1)
  {
    hide Byte, Run, Handle;
    TwoPasses(cb, p, LF);
    InValuePart(cb, Counted(p), LF);
    InValuePart(cb, Counted(p).(state := HeaderAlmostDone), LF);
    RunOne(cb, p, LF);
  }

  lemma LfEmptyValue(cb: Callbacks, p: Parser)
    requires p.state.HeaderValueStart? && p.errno.OK? && Room(p, 1)
    ensures Run(cb, p, [LF]) ==
            Ran(p.(nread := p.nread + 1, state := HeaderFieldStart, index := 0), [Data(Value, [])], 1)
  {
    hide Byte, Run, Handle;
    OnePass(cb, p, LF);
    InValuePart(cb, Counted(p), LF);
    RunOne(cb, p, LF);
  }

  function LfLine(h: Header): string { h.name + ": " + h.value + [LF] }

  lemma LfValueRun(cb: Callbacks, p: Parser, hd: Header)
    requires p.state.HeaderValueStart? && p.errno.OK? && Room(p, |hd.value| + 1)
    requires IsHeader(hd) && ClassOf(p.headerState) == NameClass(hd.name)
    ensures var r := Run(cb, p, hd.value + [LF]);
            && r == Ran(r.p, if hd.value == [] then [Data(Value, [])] else Bytewise(Value, hd.value), |hd.value| + 1)
            && AfterLines(p, r.p, |hd.value| + 1, Meaning(FramingOf(p), hd))
  {
    hide Byte, Run, Bytewise, NameClass, IsValue, IsName, IsLength;
    var v, k := hd.value, NameClass(hd.name);
    if v == [] {
      LfEmptyValue(cb, p);
      assert v + [LF] == [LF];
    } else {
      RunConcat(cb, p, v, [LF]);
      if k.ContentLength? {
        LengthRun(cb, p, v);
        LfValueEnd(cb, LengthRead(p, v, DecValue(v)));
      } else {
        PlainValueRun(cb, p, v);
        var q := Run(cb, p, v).p;
        LfValueEnd(cb, q);
        PlainMeaning(k, q.headerState, q.index, FramingOf(p), hd);
      }
    }
  }

  /** A header line that ends in a line feed alone is reported and means the same. */
  lemma LfLineRun(cb: Callbacks, p: Parser, hd: Header)
    requires AtLine(p) && IsHeader(hd) && Room(p, |LfLine(hd)|)
    ensures var r := Run(cb, p, LfLine(hd));
            && r == Ran(r.p, LineEvents(hd), |LfLine(hd)|)
            && AfterLines(p, r.p, |LfLine(hd)|, Meaning(FramingOf(p), hd))
  {
    hide Byte, Run, Bytewise, NameClass, IsValue, IsName, NameSeen, Meaning;
    assert LfLine(hd) == hd.name + ": " + (hd.value + [LF]);
    NameRun(cb, p, hd.name);
    var q := Run(cb, p, hd.name).p;
    NameRecognised(q.headerState, q.index, hd.name);
    RunConcat(cb, p, hd.name, ": ");
    SeparatorRun(cb, q);
    var s := q.(nread := q.nread + 2, state := HeaderValueStart);
    RunConcat(cb, p, hd.name + ": ", hd.value + [LF]);
    LfValueRun(cb, s, hd);
  }

  function LfLines(hs: seq<Header>): string {
    if hs == [] then [] else LfLine(hs[0]) + LfLines(hs[1..])
  }

  lemma {:induction false} LfLinesRun(cb: Callbacks, p: Parser, hs: seq<Header>)
    requires AtLine(p) && AreHeaders(hs) && Room(p, |LfLines(hs)|)
    ensures var r := Run(cb, p, LfLines(hs));
            && r == Ran(r.p, LinesEvents(hs), |LfLines(hs)|)
            && AfterLines(p, r.p, |LfLines(hs)|, MeaningAll(FramingOf(p), hs))
    decreases |hs|
  {
    hide Byte, Run, LfLine, LineEvents, Meaning, IsHeader;
    if hs == [] {
      RunStopped(cb, p, []);
    } else {
      LfLineRun(cb, p, hs[0]);
      var q := Run(cb, p, LfLine(hs[0])).p;
      LfLinesRun(cb, q, hs[1..]);
      RunConcat(cb, p, LfLine(hs[0]), LfLines(hs[1..]));
    }
  }

  // ---------------------------------------------------------------- a whole head of such lines

  function LfStatusLine(major: nat, minor: nat, status: nat, reason: string): string {
    "HTTP/" + DecOf(major) + "." + DecOf(minor) + " " + DecOf(status) + " " + reason + [LF]
  }

  lemma LfReasonRun(cb: Callbacks, p: Parser, status: nat, reason: string)
    requires p.state.ResFirstStatusCode? && p.errno.OK? && status <= 999 && NoLineEnd(reason)
    requires Room(p, |DecOf(status) + " " + reason + [LF]|)
    ensures var w := DecOf(status) + " " + reason + [LF];
            Run(cb, p, w) == Ran(p.(nread := p.nread + |w|, statusCode := status, state := HeaderFieldStart), [], |w|)
  {
    hide Run, DecOf;
    var a := DecOf(status);
    CodeRun(cb, p, status);
    var q := p.(nread := p.nread + |a|, statusCode := status, state := ResStatusCode);
    StatusByte(cb, q, ' ');
    RunConcat(cb, p, a, " ");
    var q1 := q.(nread := q.nread + 1, state := ResStatus);
    ReasonRun(cb, q1, reason);
    RunConcat(cb, p, a + " ", reason);
    StatusByte(cb, q1.(nread := q1.nread + |reason|), LF);
    RunConcat(cb, p, a + " " + reason, [LF]);
  }

  lemma LfStatusLineRun(cb: Callbacks, p: Parser, major: nat, minor: nat, status: nat, reason: string)
    requires p.state.StartRes? && p.errno.OK? && major <= 999 && minor <= 999 && status <= 999
    requires NoLineEnd(reason) && Room(p, |LfStatusLine(major, minor, status, reason)|)
    ensures var w := LfStatusLine(major, minor, status, reason);
            Run(cb, p, w) == Ran(AfterStatusLine(p, |w|, major, minor, status), [Begin], |w|)
  {
    hide Run, DecOf;
    var a, b := "HTTP/", DecOf(major) + "." + DecOf(minor) + " ";
    var c := DecOf(status) + " " + reason + [LF];
    assert LfStatusLine(major, minor, status, reason) == a + b + c;
    ProtocolRun(cb, p);
    var q := InStatus(p, 5, ResFirstHttpMajor);
    VersionRun(cb, q, major, minor);
    RunConcat(cb, p, a, b);
    LfReasonRun(cb, q.(nread := q.nread + |b|, httpMajor := major, httpMinor := minor, state := ResFirstStatusCode),
                status, reason);
    RunConcat(cb, p, a + b, c);
  }

  /** A response head whose lines all end in a line feed alone, up to the empty line: the same callbacks, and the
      same framing, as for the head with carriage returns. */
  lemma LfHeadRun(cb: Callbacks, p: Parser, major: nat, minor: nat, status: nat, reason: string, hs: seq<Header>)
    requires Readable(p, major, minor, status, reason, hs)
    requires Room(p, |LfStatusLine(major, minor, status, reason) + LfLines(hs)|)
    ensures var w := LfStatusLine(major, minor, status, reason) + LfLines(hs);
            var r := Run(cb, p, w);
            && r == Ran(r.p, [Begin] + LinesEvents(hs), |w|) && AtLine(r.p)
            && FramingOf(r.p) == FramingOfLines(hs)
            && r.p.statusCode == status && r.p.httpMajor == major && r.p.httpMinor == minor
  {
    hide Run, LfStatusLine, LfLines, LinesEvents, MeaningAll;
    var a := LfStatusLine(major, minor, status, reason);
    LfStatusLineRun(cb, p, major, minor, status, reason);
    var q := AfterStatusLine(p, |a|, major, minor, status);
    LfLinesRun(cb, q, hs);
    RunConcat(cb, p, a, LfLines(hs));
  }

  /** The empty line: a line feed alone ends the header block as a carriage return and a line feed do. */
  lemma LfEmptyLine(head: bool, p: Parser)
    requires AtLine(p) && Room(p, 2) && !p.flags.trailing
    ensures var r, s := Run(BackendCallbacks(head), p, [LF]), Run(BackendCallbacks(head), p, CRLF);
            r.events == s.events && r.p == s.p && r.count == 1 && s.count == 2
  {
    hide Byte, Run, Handle, HandleHeadersEnd, InfoOf, AtHeadersComplete, AfterHeadersComplete, BackendCallbacks;
    var cb := BackendCallbacks(head);
    EmptyLineByte(cb, p);
    RunOne(cb, p, CR);
    var q0 := p.(state := HeadersAlmostDone);
    var q := q0.(nread := p.nread + 1);
    HeadersEndByte(cb, q);
    RunOne(cb, q, LF);
    RunConcat(cb, p, [CR], [LF]);
    assert CRLF == [CR] + [LF];
    LfFirstPass(cb, p);
    LfPasses(cb, p);
    HeadersEndByte(cb, q0);
    RunOne(cb, p, LF);
    NreadDoesNotMatter(head, q0, q);
    assert [] + Byte(cb, q, LF).events == Byte(cb, q, LF).events;
  }

  /** The count of bytes is cleared, and told to nobody. */
  lemma NreadDoesNotMatter(head: bool, p: Parser, q: Parser)
    requires q == p.(nread := q.nread)
    ensures var cb := BackendCallbacks(head);
            && InfoOf(AtHeadersComplete(p)) == InfoOf(AtHeadersComplete(q))
            && HandleHeadersEnd(cb, AfterHeadersComplete(cb, p), LF) ==
               HandleHeadersEnd(cb, AfterHeadersComplete(cb, q), LF)
  {
    hide Finish, NeedsEof;
    var cb := BackendCallbacks(head);
    BackendDecides(head, AtHeadersComplete(p));
    BackendDecides(head, AtHeadersComplete(q));
    HeadersDoneCases(cb, AfterHeadersComplete(cb, p));
    HeadersDoneCases(cb, AfterHeadersComplete(cb, q));
    assert NeedsEof(AtHeadersComplete(p)) == NeedsEof(AtHeadersComplete(q)) by {
      NeedsEofByFields(AtHeadersComplete(p), AtHeadersComplete(q));
    }
  }

  lemma NeedsEofByFields(p: Parser, q: Parser)
    requires q == p.(nread := q.nread)
    ensures NeedsEof(p) == NeedsEof(q)
  {
  }

  /** The line feed is looked at again as the end of the block. */
  lemma LfFirstPass(cb: Callbacks, p: Parser)
    requires AtLine(p)
    ensures Passes(cb, Counted(p), LF) == Passes(cb, Counted(p).(state := HeadersAlmostDone), LF)
  {
    hide Handle;
    var q := Counted(p).(state := HeaderFieldStart);
    InFieldPart(cb, q, LF);
    var s := Passes(cb, q.(state := HeadersAlmostDone), LF);
    assert [] + s.events == s.events;
    if p.state.HeaderValueLws? {
      InValuePart(cb, Counted(p), LF);
      var t := Passes(cb, q, LF);
      assert [] + t.events == t.events;
    }
  }

  lemma LfPasses(cb: Callbacks, p: Parser)
    requires AtLine(p) && Room(p, 1)
    ensures Byte(cb, p, LF) == Passes(cb, Counted(p), LF)
    ensures var q := p.(state := HeadersAlmostDone); Byte(cb, q, LF) == Passes(cb, Counted(q), LF)
  {
    hide Passes;
  }
}
