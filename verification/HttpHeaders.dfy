/**
 Header lines: what the parser reports for `name: value` lines, and what they do to the fields that
 decide how the message is framed.
 */
module HttpHeaders {
  import opened HttpTypes
  import opened HttpSwitch
  import opened HttpRun
  import opened HttpBytes
  import opened HttpNumbers
  import opened HttpMatcher

  datatype Header = Header(name: string, value: string)

  /** A value that survives printing and parsing: no line ends, and no blank in front. */
  predicate IsValue(v: string) {
    && (forall i :: 0 <= i < |v| ==> v[i] != CR && v[i] != LF)
    && (v != [] ==> v[0] != ' ' && v[0] != '\t')
  }

  /** A header line that the parser accepts. */
  predicate IsHeader(h: Header) {
    && IsName(h.name) && IsValue(h.value)
    && (NameClass(h.name).ContentLength? && h.value != [] ==>
          IsLength(h.value) && DecValue(h.value) < ULLONG_MAX)
  }

  function Line(h: Header): string { h.name + ": " + h.value + CRLF }

  function LineEvents(h: Header): seq<Event> {
    Bytewise(Field, h.name) + if h.value == [] then [Data(Value, [])] else Bytewise(Value, h.value)
  }

  // ---------------------------------------------------------------- what a header means

  datatype Framing = Framing(flags: Flags, contentLength: nat)

  function FramingOf(p: Parser): Framing { Framing(p.flags, p.contentLength) }

  /** The meaning of a header line for the framing of the message. */
  function Meaning(f: Framing, h: Header): Framing {
    var k := NameClass(h.name);
    if h.value == [] then f
    else if k.Upgrade? then f.(flags := f.flags.(upgrade := true))
    else if k.ContentLength? then f.(contentLength := DecValue(h.value))
    else if k.TransferEncoding? && Spells(h.value, "chunked") then f.(flags := f.flags.(chunked := true))
    else if k.Connection? && Spells(h.value, "keep-alive") then f.(flags := f.flags.(keepAlive := true))
    else if k.Connection? && Spells(h.value, "close") then f.(flags := f.flags.(close := true))
    else f
  }

  // ---------------------------------------------------------------- names

  /** The parser at the beginning of a header line. */
  predicate AtLine(p: Parser) {
    (p.state.HeaderFieldStart? || p.state.HeaderValueLws?) && p.errno.OK?
  }

  lemma FirstFieldByte(cb: Callbacks, p: Parser, ch: char)
    requires AtLine(p) && Room(p, 1) && Token(ch) != '\0'
    ensures Byte(cb, p, ch) ==
            Step(p.(nread := p.nread + 1, state := HeaderField, index := 0,
                    headerState := FirstFieldState(Token(ch))), [Data(Field, [ch])], Advance)
  {
    hide Handle, Byte, FirstFieldState;
    var q := p.(nread := p.nread + 1, state := HeaderFieldStart);
    InFieldPart(cb, q, ch);
    if p.state.HeaderFieldStart? {
      OnePass(cb, p, ch);
    } else {
      TwoPasses(cb, p, ch);
      InValuePart(cb, Counted(p), ch);
      assert [] + [Data(Field, [ch])] == [Data(Field, [ch])];
    }
  }

  lemma NextFieldByte(cb: Callbacks, p: Parser, ch: char)
    requires p.state.HeaderField? && p.errno.OK? && Room(p, 1) && Token(ch) != '\0'
    ensures var q := MatchField(p.(nread := p.nread + 1), Token(ch));
            q.state.HeaderField? ==> Byte(cb, p, ch) == Step(q, [Data(Field, [ch])], Advance)
  {
    hide Handle, Byte, MatchField;
    OnePass(cb, p, ch);
    InFieldPart(cb, Counted(p), ch);
  }

  /** The parser inside a name of which `n` bytes are read. */
  function InName(p: Parser, n: nat, h: HeaderState, i: nat): Parser {
    p.(nread := p.nread + n, state := HeaderField, headerState := h, index := i)
  }

  lemma MatchFieldFrame(p: Parser, c: char)
    ensures var q := MatchField(p, c); q == p.(headerState := q.headerState, index := q.index)
  {
  }

  lemma LowSnoc(w: string, c: char)
    ensures Low(w + [c]) == Low(w) + [Token(c)]
  {
    var a, b := Low(w + [c]), Low(w) + [Token(c)];
    assert |a| == |b|;
    forall i | 0 <= i < |a| ensures a[i] == b[i] {
      assert (w + [c])[i] == if i < |w| then w[i] else c;
    }
  }

  /** Reading a name reports its bytes and leaves the matcher with what it has seen. */
  lemma {:induction false} NameRun(cb: Callbacks, p: Parser, name: string)
    requires AtLine(p) && Room(p, |name|) && IsName(name)
    ensures var r := Run(cb, p, name);
            && r == Ran(InName(p, |name|, r.p.headerState, r.p.index), Bytewise(Field, name), |name|)
            && NameSeen(r.p.headerState, r.p.index, Low(name))
    decreases |name|
  {
    hide Byte, Run, MatchField, NameSeen, Bytewise, Token, FirstFieldState;
    var w, c := name[..|name| - 1], name[|name| - 1];
    assert name == w + [c];
    if w == [] {
      assert name == [c];
      RunOne(cb, p, c);
      FirstFieldByte(cb, p, c);
      FirstNameByte(Token(c));
      BytewiseOne(Field, c);
      assert Low(name) == [Token(c)];
    } else {
      NameRun(cb, p, w);
      var q := Run(cb, p, w).p;
      RunConcat(cb, p, w, [c]);
      RunOne(cb, q, c);
      NextFieldByte(cb, q, c);
      MatchFieldFrame(q.(nread := q.nread + 1), Token(c));
      NextNameByte(q.(nread := q.nread + 1), Token(c), Low(w));
      LowSnoc(w, c);
      BytewiseSnoc(Field, w, c);
    }
  }

  // ---------------------------------------------------------------- values

  /** What the matcher knows about a value so far, for a name of class `k`. */
  predicate ValueSeen(k: HeaderState, h: HeaderState, i: nat, v: string) {
    v != [] &&
    if k.TransferEncoding? then KeySeen(h, i, v, "chunked", MatchingChunked, Chunked)
    else if k.Connection? then
      if Lower(v[0]) == 'k' then KeySeen(h, i, v, "keep-alive", MatchingKeepAlive, KeepAlive)
      else KeySeen(h, i, v, "close", MatchingClose, Close)
    else h.General?
  }

  lemma FirstValueSeen(p: Parser, ch: char)
    requires p.index == 0 && !p.headerState.ContentLength?
    ensures var k := ClassOf(p.headerState);
            var q := FirstValueByte(p, ch).p;
            && FirstValueByte(p, ch) == Go(q)
            && q == p.(headerState := q.headerState,
                       flags := if k.Upgrade? then p.flags.(upgrade := true) else p.flags)
            && ValueSeen(k, q.headerState, 0, [ch])
  {
    hide Lower;
    var k := ClassOf(p.headerState);
    assert "chunked"[0] == 'c' && "keep-alive"[0] == 'k' && "close"[0] == 'c';
  }

  lemma NextValueSeen(p: Parser, k: HeaderState, v: string, ch: char)
    requires ValueSeen(k, p.headerState, p.index, v) && !k.ContentLength?
    ensures var q := NextValueByte(p, ch).p;
            && NextValueByte(p, ch) == Go(q) && q == p.(headerState := q.headerState, index := q.index)
            && ValueSeen(k, q.headerState, q.index, v + [ch])
  {
    hide Starts, Spells, MatchLiteral;
    assert (v + [ch])[0] == v[0];
    assert Lower(ch) != '\0';
    var h := p.headerState;
    if h.MatchingChunked? {
      KeyMatchingByte(p, ch, v, "chunked", MatchingChunked, Chunked);
      MatchLiteralFrame(p, Lower(ch), "chunked", Chunked);
    } else if h.MatchingKeepAlive? {
      KeyMatchingByte(p, ch, v, "keep-alive", MatchingKeepAlive, KeepAlive);
      MatchLiteralFrame(p, Lower(ch), "keep-alive", KeepAlive);
    } else if h.MatchingClose? {
      KeyMatchingByte(p, ch, v, "close", MatchingClose, Close);
      MatchLiteralFrame(p, Lower(ch), "close", Close);
    } else if h.Chunked? {
      KeyMatchedByte(ch, v, "chunked");
    } else if h.KeepAlive? {
      KeyMatchedByte(ch, v, "keep-alive");
    } else if h.Close? {
      KeyMatchedByte(ch, v, "close");
    } else if k.TransferEncoding? {
      LostStays(v, ch, "chunked");
    } else if k.Connection? && Lower(v[0]) == 'k' {
      LostStays(v, ch, "keep-alive");
    } else if k.Connection? {
      LostStays(v, ch, "close");
    }
  }

  lemma MatchLiteralFrame(p: Parser, c: char, key: string, matched: HeaderState)
    ensures var q := MatchLiteral(p, c, key, matched); q == p.(headerState := q.headerState, index := q.index)
  {
  }

  lemma FirstValueStep(cb: Callbacks, p: Parser, ch: char)
    requires p.state.HeaderValueStart? && p.errno.OK? && Room(p, 1)
    requires ch != CR && ch != LF && ch != ' ' && ch != '\t'
    ensures var o := FirstValueByte(p.(nread := p.nread + 1, index := 0, state := HeaderValue), ch);
            o == Go(o.p) && o.p.state.HeaderValue? ==> Byte(cb, p, ch) == Step(o.p, [Data(Value, [ch])], Advance)
  {
    hide Handle, Byte, FirstValueByte;
    OnePass(cb, p, ch);
    InValuePart(cb, Counted(p), ch);
  }

  lemma NextValueStep(cb: Callbacks, p: Parser, ch: char)
    requires p.state.HeaderValue? && p.errno.OK? && Room(p, 1) && ch != CR && ch != LF
    ensures var o := NextValueByte(p.(nread := p.nread + 1), ch);
            o == Go(o.p) && o.p.state.HeaderValue? ==> Byte(cb, p, ch) == Step(o.p, [Data(Value, [ch])], Advance)
  {
    hide Handle, Byte, NextValueByte;
    OnePass(cb, p, ch);
    InValuePart(cb, Counted(p), ch);
  }

  /** The parser inside a value, with its first byte's effect on the flags. */
  function InPlainValue(p: Parser, n: nat, h: HeaderState, i: nat): Parser {
    p.(nread := p.nread + n, state := HeaderValue, headerState := h, index := i,
       flags := if p.headerState.Upgrade? then p.flags.(upgrade := true) else p.flags)
  }

  /** Reading a non-empty value of a header other than Content-Length. */
  lemma {:induction false} PlainValueRun(cb: Callbacks, p: Parser, v: string)
    requires p.state.HeaderValueStart? && p.errno.OK? && !p.headerState.ContentLength?
    requires v != [] && IsValue(v) && Room(p, |v|)
    ensures var r := Run(cb, p, v);
            && r == Ran(InPlainValue(p, |v|, r.p.headerState, r.p.index), Bytewise(Value, v), |v|)
            && ValueSeen(ClassOf(p.headerState), r.p.headerState, r.p.index, v)
    decreases |v|
  {
    hide Byte, Run, FirstValueByte, NextValueByte, ValueSeen, Bytewise;
    var w, c := v[..|v| - 1], v[|v| - 1];
    assert v == w + [c];
    if w == [] {
      assert v == [c];
      RunOne(cb, p, c);
      FirstValueStep(cb, p, c);
      FirstValueSeen(p.(nread := p.nread + 1, index := 0, state := HeaderValue), c);
      BytewiseOne(Value, c);
    } else {
      PlainValueRun(cb, p, w);
      var q := Run(cb, p, w).p;
      RunConcat(cb, p, w, [c]);
      RunOne(cb, q, c);
      NextValueStep(cb, q, c);
      NextValueSeen(q.(nread := q.nread + 1), ClassOf(p.headerState), w, c);
      BytewiseSnoc(Value, w, c);
    }
  }

  // ---------------------------------------------------------------- a whole line

  lemma ColonRun(cb: Callbacks, p: Parser)
    requires p.state.HeaderField? && p.errno.OK? && Room(p, 1)
    ensures Run(cb, p, [':']) == Ran(p.(nread := p.nread + 1, state := HeaderValueStart), [], 1)
  {
    hide Byte, Run, Handle;
    OnePass(cb, p, ':');
    InFieldPart(cb, Counted(p), ':');
    RunOne(cb, p, ':');
  }

  lemma BlankRun(cb: Callbacks, p: Parser)
    requires p.state.HeaderValueStart? && p.errno.OK? && Room(p, 1)
    ensures Run(cb, p, [' ']) == Ran(p.(nread := p.nread + 1), [], 1)
  {
    hide Byte, Run, Handle;
    OnePass(cb, p, ' ');
    InValuePart(cb, Counted(p), ' ');
    RunOne(cb, p, ' ');
  }

  lemma SeparatorRun(cb: Callbacks, p: Parser)
    requires p.state.HeaderField? && p.errno.OK? && Room(p, 2)
    ensures Run(cb, p, ": ") == Ran(p.(nread := p.nread + 2, state := HeaderValueStart), [], 2)
  {
    hide Run;
    var q := p.(nread := p.nread + 1, state := HeaderValueStart);
    ColonRun(cb, p);
    BlankRun(cb, q);
    RunConcat(cb, p, [':'], [' ']);
    assert ": " == [':'] + [' '];
  }

  /** The flags at the end of a line. */
  function LineFlags(f: Flags, h: HeaderState): Flags {
    if h.KeepAlive? then f.(keepAlive := true)
    else if h.Close? then f.(close := true)
    else if h.Chunked? then f.(chunked := true)
    else f
  }

  lemma AlmostDoneByte(cb: Callbacks, p: Parser)
    requires p.state.HeaderAlmostDone? && p.errno.OK? && Room(p, 1)
    ensures Byte(cb, p, LF) ==
            Step(p.(nread := p.nread + 1, state := HeaderValueLws, flags := LineFlags(p.flags, p.headerState)),
                 [], Advance)
  {
    hide Handle, Byte;
    OnePass(cb, p, LF);
    InValuePart(cb, Counted(p), LF);
  }

  /** The line end after a non-empty value. */
  lemma ValueEnd(cb: Callbacks, p: Parser)
    requires p.state.HeaderValue? && p.errno.OK? && Room(p, 2)
    ensures Run(cb, p, CRLF) ==
            Ran(p.(nread := p.nread + 2, state := HeaderValueLws, flags := LineFlags(p.flags, p.headerState)), [], 2)
  {
    hide Byte, Run, Handle;
    var q := p.(nread := p.nread + 1, state := HeaderAlmostDone);
    OnePass(cb, p, CR);
    InValuePart(cb, Counted(p), CR);
    RunOne(cb, p, CR);
    AlmostDoneByte(cb, q);
    RunOne(cb, q, LF);
    RunConcat(cb, p, [CR], [LF]);
    assert CRLF == [CR] + [LF];
  }

  /** The line end of an empty value, which is reported as an empty value. */
  lemma EmptyValueEnd(cb: Callbacks, p: Parser)
    requires p.state.HeaderValueStart? && p.errno.OK? && Room(p, 2)
    ensures Run(cb, p, CRLF) ==
            Ran(p.(nread := p.nread + 2, state := HeaderValueLws, index := 0, headerState := General),
                [Data(Value, [])], 2)
  {
    hide Byte, Run, Handle;
    var q := p.(nread := p.nread + 1, state := HeaderAlmostDone, index := 0, headerState := General);
    OnePass(cb, p, CR);
    InValuePart(cb, Counted(p), CR);
    RunOne(cb, p, CR);
    AlmostDoneByte(cb, q);
    RunOne(cb, q, LF);
    RunConcat(cb, p, [CR], [LF]);
    assert CRLF == [CR] + [LF];
  }

  /** The parser after a line: the framing has taken in the header's meaning. */
  function AfterLine(p: Parser, n: nat, f: Framing, h: HeaderState, i: nat): Parser {
    p.(nread := p.nread + n, state := HeaderValueLws, flags := f.flags, contentLength := f.contentLength,
       headerState := h, index := i)
  }

  /** At the end of a plain value the matcher's verdict is the header's meaning. */
  lemma PlainMeaning(k: HeaderState, h: HeaderState, i: nat, f: Framing, hd: Header)
    requires hd.value != [] && k == NameClass(hd.name) && !k.ContentLength?
    requires ValueSeen(k, h, i, hd.value)
    ensures LineFlags(if k.Upgrade? then f.flags.(upgrade := true) else f.flags, h) == Meaning(f, hd).flags
    ensures f.contentLength == Meaning(f, hd).contentLength
  {
    hide NameClass, Starts, Spells, Lower;
    var v := hd.value;
    SpellsFirst(v, "keep-alive");
    SpellsFirst(v, "close");
    assert "keep-alive"[0] == 'k' && "close"[0] == 'c';
    if k.TransferEncoding? {
      KeyVerdict(h, i, v, "chunked", MatchingChunked, Chunked);
    } else if k.Connection? && Lower(v[0]) == 'k' {
      KeyVerdict(h, i, v, "keep-alive", MatchingKeepAlive, KeepAlive);
    } else if k.Connection? {
      KeyVerdict(h, i, v, "close", MatchingClose, Close);
    }
  }

  /** What the matcher remembers of a line: only that it has a length. */
  function LeftClass(hd: Header): HeaderState {
    if NameClass(hd.name).ContentLength? && hd.value != [] then ContentLength else General
  }

  lemma PlainClass(k: HeaderState, h: HeaderState, i: nat, v: string)
    requires ValueSeen(k, h, i, v)
    ensures ClassOf(h).General?
  {
    hide Starts, Spells, Lower;
  }

  lemma ValueRun(cb: Callbacks, p: Parser, hd: Header)
    requires p.state.HeaderValueStart? && p.errno.OK? && Room(p, |hd.value| + 2)
    requires IsHeader(hd) && ClassOf(p.headerState) == NameClass(hd.name)
    ensures var r := Run(cb, p, hd.value + CRLF);
            && r == Ran(AfterLine(p, |hd.value| + 2, Meaning(FramingOf(p), hd), r.p.headerState, r.p.index),
                        if hd.value == [] then [Data(Value, [])] else Bytewise(Value, hd.value), |hd.value| + 2)
            && ClassOf(r.p.headerState) == LeftClass(hd)
  {
    hide Byte, Run, Bytewise, NameClass, IsValue, IsName, IsLength;
    var v, k := hd.value, NameClass(hd.name);
    if v == [] {
      EmptyValueEnd(cb, p);
      assert v + CRLF == CRLF;
    } else {
      RunConcat(cb, p, v, CRLF);
      if k.ContentLength? {
        LengthRun(cb, p, v);
        ValueEnd(cb, LengthRead(p, v, DecValue(v)));
      } else {
        PlainValueRun(cb, p, v);
        var q := Run(cb, p, v).p;
        ValueEnd(cb, q);
        PlainMeaning(k, q.headerState, q.index, FramingOf(p), hd);
        PlainClass(k, q.headerState, q.index, v);
      }
    }
  }

  /** One header line: its bytes are reported as one name and one value, and the framing takes in
      its meaning. */
  lemma LineRun(cb: Callbacks, p: Parser, hd: Header)
    requires AtLine(p) && IsHeader(hd) && Room(p, |Line(hd)|)
    ensures var r := Run(cb, p, Line(hd));
            && r == Ran(AfterLine(p, |Line(hd)|, Meaning(FramingOf(p), hd), r.p.headerState, r.p.index),
                        LineEvents(hd), |Line(hd)|)
            && ClassOf(r.p.headerState) == LeftClass(hd)
  {
    hide Byte, Run, Bytewise, NameClass, IsValue, IsName, NameSeen, Meaning;
    var n := |hd.name|;
    assert Line(hd) == hd.name + ": " + (hd.value + CRLF);
    NameRun(cb, p, hd.name);
    var q := Run(cb, p, hd.name).p;
    NameRecognised(q.headerState, q.index, hd.name);
    RunConcat(cb, p, hd.name, ": ");
    SeparatorRun(cb, q);
    var s := q.(nread := q.nread + 2, state := HeaderValueStart);
    RunConcat(cb, p, hd.name + ": ", hd.value + CRLF);
    ValueRun(cb, s, hd);
  }
}
