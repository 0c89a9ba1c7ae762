/**
 The chunked flag of a response: it is set from the first piece of the Transfer-Encoding value that the
 parser delivers, so it depends on where the reads of the backend connection end.
 */
module ChunkedFlag {
  import opened HttpTypes
  import opened HttpSwitch
  import opened HttpMarks
  import opened HttpRun
  import opened HttpBytes
  import opened HttpInvariant
  import opened HttpMatcher
  import opened HttpHeaders
  import opened HttpCalls
  import opened HttpFragments
  import opened HeaderAssembly
  import Strings

  // ---------------------------------------------------------------- the calls only grow

  lemma {:induction false} PassesGrow(cb: Callbacks, p: Parser, m: Making, ch: char)
    ensures m.calls <= MadePasses(cb, p, m, ch).calls
    decreases Rank(p.state)
  {
    hide Handle, PassCalls;
    var o := Handle(cb, p, ch);
    if o.next.Again? {
      PassesGrow(cb, o.p, MadePass(p, o, m, ch), ch);
    }
  }

  lemma {:induction false} MadeGrows(cb: Callbacks, p: Parser, data: string, i: nat)
    requires i <= |data|
    ensures Made(cb, p, data[..i]).calls <= Made(cb, p, data).calls
    decreases |data|
  {
    hide Run, MadePasses;
    if i == |data| {
      assert data[..i] == data;
    } else {
      var front := data[..|data| - 1];
      assert front[..i] == data[..i];
      MadeGrows(cb, p, front, i);
      PassesGrow(cb, Counted(Run(cb, p, front).p), Made(cb, p, front), data[|data| - 1]);
    }
  }

  // ---------------------------------------------------------------- a value inside a buffer

  /** A byte of a value opens the value mark or leaves it open, unless it is rejected. */
  lemma ValueOpens(cb: Callbacks, p: Parser, ch: char)
    requires p.state.HeaderValue? || (p.state.HeaderValueStart? && ch != ' ' && ch != '\t')
    requires ch != CR && ch != LF
    ensures var o := Handle(cb, p, ch); !o.next.Again? && (o.next.Advance? ==> o.p.state.HeaderValue?)
  {
    hide Handle, FirstValueByte, NextValueByte;
    InValuePart(cb, p, ch);
    ValueStays(p.(index := 0, state := HeaderValue), ch);
    ValueStays(p, ch);
  }

  lemma ValueByteCollects(cb: Callbacks, p: Parser, m: Making, ch: char)
    requires p.state.HeaderValue? || (p.state.HeaderValueStart? && ch != ' ' && ch != '\t')
    requires ch != CR && ch != LF && Byte(cb, p, ch).next.Advance?
    requires p.state.HeaderValueStart? ==> m.collected == []
    ensures MadeByte(cb, p, m, ch) == Making(m.calls, Some(Value), m.collected + [ch])
    ensures Byte(cb, p, ch).p.state.HeaderValue?
  {
    hide Handle;
    var q := Counted(p);
    var o := Handle(cb, q, ch);
    ValueOpens(cb, q, ch);
    MarksKept(cb, q, ch);
    assert PassCalls(o, m.open, m.collected) == [];
    assert m.calls + [] == m.calls;
  }

  /** The value mark collects the bytes of a value that begins inside a buffer. */
  lemma {:induction false} ValueCollects(cb: Callbacks, p: Parser, data: string, i: nat, j: nat)
    requires i < j <= |data| && IsValue(data[i..j])
    requires Run(cb, p, data[..i]).p.state.HeaderValueStart? && Run(cb, p, data[..j]).p.errno.OK?
    requires Made(cb, p, data[..i]).collected == []
    ensures Made(cb, p, data[..j]) == Making(Made(cb, p, data[..i]).calls, Some(Value), data[i..j])
    ensures Run(cb, p, data[..j]).p.state.HeaderValue?
    decreases j
  {
    hide Run, Made, MadeByte, Byte, ParsingHeader;
    var k := j - 1;
    assert data[i..j][k - i] == data[k] && data[i..j][0] == data[i];
    assert data[..j][..k] == data[..k];
    if !Run(cb, p, data[..k]).p.errno.OK? {
      RunStops(cb, p, data[..j], k);
      assert false;
    }
    RunFurther(cb, p, data, k);
    MadeFurther(cb, p, data, k);
    var q, m := Run(cb, p, data[..k]).p, Made(cb, p, data[..k]);
    FailSetsErrno(cb, q, data[k]);
    if i < k {
      assert data[i..j][..k - i] == data[i..k];
      ValueCollects(cb, p, data, i, k);
      assert data[i..k] + [data[k]] == data[i..j];
    } else {
      assert m.collected + [data[k]] == data[i..j];
    }
    ValueByteCollects(cb, q, m, data[k]);
  }

  lemma FlushPass(p: Parser, o: Out, m: Making, ch: char)
    requires p.state.HeaderValue? && m.open == Some(Value) && !o.next.Fail? && KeepsMarks(p, o)
    ensures var n := MadePass(p, o, m, ch);
            || (n == Making(m.calls, Some(Value), m.collected + [ch]) && o.p.state.HeaderValue? && !o.next.Again?)
            || n.calls == m.calls + [Data(Value, m.collected)]
  {
    if OpenKind(o.p.state).Some? && !o.next.Again? {
      assert PassCalls(o, m.open, m.collected) == [];
    } else {
      assert PassCalls(o, m.open, m.collected) == [Data(Value, m.collected)];
    }
  }

  /** A byte after a part of a value goes on with it, or has it delivered. */
  lemma FlushByte(cb: Callbacks, p: Parser, m: Making, ch: char)
    requires p.state.HeaderValue? && m.open == Some(Value) && Byte(cb, p, ch).next.Advance?
    ensures var n := MadeByte(cb, p, m, ch);
            || (n == Making(m.calls, Some(Value), m.collected + [ch])
                && Byte(cb, p, ch).p.state.HeaderValue? && Byte(cb, p, ch).p.errno == p.errno)
            || m.calls + [Data(Value, m.collected)] <= n.calls
  {
    hide Handle, HandleValue, MadePass;
    var q := Counted(p);
    var o := Handle(cb, q, ch);
    MarksKept(cb, q, ch);
    InValuePart(cb, q, ch);
    FlushPass(q, o, m, ch);
    if o.next.Again? {
      PassesGrow(cb, o.p, MadePass(q, o, m, ch), ch);
    }
  }

  /** What the value mark has collected is delivered as the next call, possibly with more of the value. */
  lemma {:induction false} Delivers(cb: Callbacks, p: Parser, data: string, i: nat) returns (v: string)
    requires i <= |data| && Run(cb, p, data[..i]).p.errno.OK? && Run(cb, p, data[..i]).p.state.HeaderValue?
    requires Run(cb, p, data).p.errno.OK? || Run(cb, p, data).p.errno.Paused?
    requires Made(cb, p, data[..i]).open == Some(Value)
    ensures var m := Made(cb, p, data[..i]);
            m.collected <= v && m.calls + [Data(Value, v)] <= CallsOf(cb, p, data)
    decreases |data| - i
  {
    hide Run, Made, MadeByte, Byte;
    var r, m := Run(cb, p, data[..i]), Made(cb, p, data[..i]);
    if i == |data| {
      assert data[..i] == data;
      v := m.collected;
    } else {
      RunFurther(cb, p, data, i);
      MadeFurther(cb, p, data, i);
      var s, n := Byte(cb, r.p, data[i]), Made(cb, p, data[..i + 1]);
      FailSetsErrno(cb, r.p, data[i]);
      if !s.p.errno.OK? {
        RunStops(cb, p, data, i + 1);
      }
      FlushByte(cb, r.p, m, data[i]);
      if m.calls + [Data(Value, m.collected)] <= n.calls {
        v := m.collected;
        MadeGrows(cb, p, data, i + 1);
      } else {
        v := Delivers(cb, p, data, i + 1);
      }
    }
  }

  // ---------------------------------------------------------------- what the flag looks for

  const WORD: string := "chunked"

  predicate IsTransferEncoding(name: string) {
    Strings.SameNoCase(Strings.CStr(name), Strings.CStr("transfer-encoding"))
  }

  lemma LetterIs(c: char, k: char)
    requires Lower(c) == k && 'a' <= k <= 'z'
    ensures Strings.Lowcase(c) == Strings.Lowcase(k) && c != '\0'
  {
  }

  lemma SpelledFront(w: string, v: string, key: string)
    requires Spells(w, key) && |w| == |key| && w <= v && forall i :: 0 <= i < |key| ==> 'a' <= key[i] <= 'z'
    ensures Strings.StartsNoCase(v, key) && forall i :: 0 <= i < |key| ==> v[i] != '\0'
  {
    forall i | 0 <= i < |key| ensures Strings.Lowcase(v[i]) == Strings.Lowcase(key[i]) && v[i] != '\0' {
      assert v[i] == w[i];
      LetterIs(v[i], key[i]);
    }
  }

  lemma WordSaid(name: string, w: string, v: string)
    requires IsTransferEncoding(name) && Spells(w, WORD) && |w| == |WORD| && w <= v
    ensures SaysChunked(Header(name, v))
  {
    hide Strings.SameNoCase, Strings.StartsNoCase, Strings.OccursNoCase, Spells, Strings.CStr;
    Strings.CStrWhole(WORD);
    SpelledFront(w, v, WORD);
    Strings.OccursInFront(v, WORD);
  }

  lemma ShortIsSilent(h: Header)
    requires |h.value| < |WORD|
    ensures !SaysChunked(h)
  {
    Strings.CStrWhole(WORD);
    Strings.TooLongToOccur(Strings.CStr(h.value), WORD);
  }

  // ---------------------------------------------------------------- pieces of a stream

  /** Some piece ends inside the `n` bytes from position `c` on. */
  predicate CutInside(pieces: seq<string>, c: nat, n: nat) {
    exists k :: 0 <= k <= |pieces| && c < |Flatten(pieces[..k])| < c + n
  }

  lemma {:induction false} FlattenFront(pieces: seq<string>, k: nat)
    requires k <= |pieces|
    ensures Flatten(pieces[..k]) <= Flatten(pieces)
    decreases |pieces|
  {
    if k == |pieces| {
      assert pieces[..k] == pieces;
    } else {
      var front, last := pieces[..|pieces| - 1], pieces[|pieces| - 1];
      assert front[..k] == pieces[..k] && pieces == front + [last];
      FlattenFront(front, k);
      FlattenSnoc(front, last);
    }
  }

  /** The piece that holds the byte at position `c`. */
  lemma {:induction false} PieceAt(pieces: seq<string>, c: nat) returns (k: nat)
    requires c < |Flatten(pieces)|
    ensures k < |pieces| && |Flatten(pieces[..k])| <= c < |Flatten(pieces[..k + 1])|
    ensures Flatten(pieces[..k + 1]) == Flatten(pieces[..k]) + pieces[k]
    decreases |pieces|
  {
    var n := |pieces| - 1;
    assert n >= 0;
    var front := pieces[..n];
    assert pieces == front + [pieces[n]];
    FlattenSnoc(front, pieces[n]);
    if c < |Flatten(front)| {
      k := PieceAt(front, c);
      assert front[..k] == pieces[..k] && front[..k + 1] == pieces[..k + 1];
    } else {
      k := n;
      assert pieces[..k + 1] == pieces;
    }
  }

  // ---------------------------------------------------------------- when the flag is set

  /** After `x` the parser is at the value of a Transfer-Encoding header. */
  predicate AtEncoding(cb: Callbacks, p: Parser, x: string) {
    var r := Run(cb, p, x);
    var a := OnEvents(EMPTY, r.events);
    && Inv(p) && OpenKind(p.state) == None
    && r.p.state.HeaderValueStart? && r.p.errno.OK? && !r.p.headerState.ContentLength? && Room(r.p, |WORD|)
    && a.keyPrev && a.headers != [] && IsTransferEncoding(LastOf(a.headers).name)
  }

  /** The stream goes on with the keyword, and the parser accepts it. */
  predicate Encoded(cb: Callbacks, p: Parser, x: string, w: string, stream: string) {
    && x + w <= stream && Spells(w, WORD) && |w| == |WORD| && IsValue(w)
    && (Run(cb, p, stream).p.errno.OK? || Run(cb, p, stream).p.errno.Paused?)
  }

  lemma AssembledSame(x: seq<Event>, y: seq<Event>)
    requires Merge(x) == Merge(y)
    ensures OnEvents(EMPTY, x) == OnEvents(EMPTY, y)
  {
    hide OnEvents, EmitAll;
    OnEventsNone(EMPTY);
    AssemblyIgnoresCuts(EMPTY, [], x);
    AssemblyIgnoresCuts(EMPTY, [], y);
  }

  /** A buffer `data` that begins at `x` or before and holds the keyword. */
  predicate Holding(cb: Callbacks, p: Parser, done: string, data: string, x: string, w: string) {
    && AtEncoding(cb, p, x) && Encoded(cb, p, x, w, done + data)
    && done <= x && |x + w| <= |done + data| && Inv(Run(cb, p, done).p)
  }

  lemma HoldingRuns(cb: Callbacks, p: Parser, done: string, data: string, x: string, w: string)
    requires Holding(cb, p, done, data, x, w)
    ensures var q, i, j := Run(cb, p, done).p, |x| - |done|, |x| - |done| + |w|;
            && 0 <= i < j <= |data| && data[i..j] == w
            && Run(cb, q, data[..i]).p == Run(cb, p, x).p
            && Run(cb, p, x).events == Run(cb, p, done).events + Run(cb, q, data[..i]).events
            && Run(cb, q, data[..j]).p.errno.OK?
            && (Run(cb, q, data).p.errno.OK? || Run(cb, q, data).p.errno.Paused?)
  {
    hide Run, Inv, OnEvents, IsTransferEncoding, Spells, ValueSeen, Bytewise;
    var i := |x| - |done|;
    var j := i + |w|;
    var s := done + data;
    assert x == s[..|x|] && x + w == s[..|x| + |w|];
    assert done + data[..i] == x && done + data[..j] == x + w;
    assert data[i..j] == s[|x|..|x| + |w|] == w;
    RunConcat(cb, p, done, data[..i]);
    RunConcat(cb, p, done, data[..j]);
    RunConcat(cb, p, done, data);
    RunConcat(cb, p, x, w);
    PlainValueRun(cb, Run(cb, p, x).p, w);
  }

  /** Between a name and its value no mark is open. */
  lemma ClosedTells(cb: Callbacks, q: Parser, data: string, t: seq<Event>)
    requires Inv(q) && Told(q, t) && Run(cb, q, data).p.errno.OK? && Run(cb, q, data).p.state.HeaderValueStart?
    ensures var m := Made(cb, q, data);
            m.collected == [] && EmitAll(t, m.calls) == EmitAll(t, Run(cb, q, data).events)
  {
    hide Run, Made, EmitAll, Inv, Told, Sized;
    MadeTells(cb, q, data, t);
  }

  /** The calls up to the value are assembled as the events up to it are. */
  lemma HoldingCalls(cb: Callbacks, p: Parser, done: string, calls: seq<Event>, data: string, x: string, w: string)
    requires Holding(cb, p, done, data, x, w)
    requires Merge(calls) == EmitAll([], Run(cb, p, done).events) && Told(Run(cb, p, done).p, Merge(calls))
    ensures |x| - |done| <= |data|
    ensures var m := Made(cb, Run(cb, p, done).p, data[..|x| - |done|]);
            m.collected == [] && OnEvents(EMPTY, calls + m.calls) == OnEvents(EMPTY, Run(cb, p, x).events)
  {
    hide Run, Made, EmitAll, Inv, OnEvents, IsTransferEncoding, Spells, Told;
    HoldingRuns(cb, p, done, data, x, w);
    var q, i := Run(cb, p, done).p, |x| - |done|;
    var m := Made(cb, q, data[..i]);
    ClosedTells(cb, q, data[..i], Merge(calls));
    EmitAllConcat([], calls, m.calls);
    EmitAllConcat([], Run(cb, p, done).events, Run(cb, q, data[..i]).events);
    AssembledSame(calls + m.calls, Run(cb, p, x).events);
  }

  /** The keyword inside one buffer: the flag is set by the call that delivers it. */
  lemma SetInside(cb: Callbacks, p: Parser, done: string, calls: seq<Event>, data: string, x: string, w: string)
    requires Holding(cb, p, done, data, x, w)
    requires Merge(calls) == EmitAll([], Run(cb, p, done).events) && Told(Run(cb, p, done).p, Merge(calls))
    ensures ChunkedAfter(EMPTY, false, calls + CallsOf(cb, Run(cb, p, done).p, data))
  {
    hide Run, Made, EmitAll, Inv, OnEvents, ChunkedAfter, IsTransferEncoding, CallsOf, Spells, Told;
    HoldingRuns(cb, p, done, data, x, w);
    HoldingCalls(cb, p, done, calls, data, x, w);
    var q, i := Run(cb, p, done).p, |x| - |done|;
    var m := Made(cb, q, data[..i]);
    ValueCollects(cb, q, data, i, i + |w|);
    var v := Delivers(cb, q, data, i + |w|);
    var e := Data(Value, v);
    SetBy(calls + m.calls, e, w);
    var rest := CallsOf(cb, q, data)[|m.calls| + 1..];
    assert calls + CallsOf(cb, q, data) == calls + m.calls + [e] + rest;
    ChunkedConcat(EMPTY, false, calls + m.calls + [e], rest);
    ChunkedStays(OnEvents(EMPTY, calls + m.calls + [e]), rest);
  }

  lemma SetBy(calls: seq<Event>, e: Event, w: string)
    requires var a := OnEvents(EMPTY, calls);
             a.keyPrev && a.headers != [] && IsTransferEncoding(LastOf(a.headers).name)
    requires Spells(w, WORD) && |w| == |WORD| && e.Data? && e.kind.Value? && w <= e.bytes
    ensures ChunkedAfter(EMPTY, false, calls + [e])
  {
    hide OnEvents, SaysChunked, Strings.SameNoCase, IsTransferEncoding;
    var a := OnEvents(EMPTY, calls);
    ChunkedConcat(EMPTY, false, calls, [e]);
    ChunkedOne(a, ChunkedAfter(EMPTY, false, calls), e);
    WordSaid(LastOf(a.headers).name, w, e.bytes);
  }

  /** A part of an accepted stream is accepted. */
  lemma FrontAccepted(cb: Callbacks, p: Parser, front: string, stream: string)
    requires front <= stream && (Run(cb, p, stream).p.errno.OK? || Run(cb, p, stream).p.errno.Paused?)
    ensures Run(cb, p, front).p.errno.OK? || Run(cb, p, front).p.errno.Paused?
    ensures Run(cb, p, stream).p.errno.OK? ==> Run(cb, p, front).p.errno.OK?
  {
    hide Run;
    assert front == stream[..|front|];
    if !Run(cb, p, front).p.errno.OK? {
      RunStops(cb, p, stream, |front|);
    }
  }

  /** No piece ends inside the keyword: the flag is set. */
  lemma FlagSet(cb: Callbacks, p: Parser, pieces: seq<string>, x: string, w: string)
    requires AreReads(pieces) && AtEncoding(cb, p, x) && Encoded(cb, p, x, w, Flatten(pieces))
    requires !CutInside(pieces, |x|, |WORD|)
    ensures ChunkedAfter(EMPTY, false, PieceCalls(cb, p, pieces))
  {
    hide Run, EmitAll, Inv, OnEvents, ChunkedAfter, IsTransferEncoding, CallsOf, Spells, Told, Flatten, RunPieces;
    var k := PieceAt(pieces, |x|);
    var front, data := pieces[..k], pieces[k];
    var done := Flatten(front);
    FlattenFront(pieces, k);
    FlattenFront(pieces, k + 1);
    assert |x| + |WORD| <= |done + data|;
    FrontAccepted(cb, p, done + data, Flatten(pieces));
    assert done <= x && x + w <= done + data;
    FrontAccepted(cb, p, done, x);
    PiecesTell(cb, p, front);
    var q := Run(cb, p, done).p;
    assert q == q.(errno := OK);
    var calls := PieceCalls(cb, p, front);
    SetInside(cb, p, done, calls, data, x, w);
    RunPiecesJoined(cb, p, front);
    assert pieces[..k + 1][..k] == front;
    assert PieceCalls(cb, p, pieces[..k + 1]) == calls + CallsOf(cb, q, data);
    PieceCallsFront(cb, p, pieces, k + 1);
    var some, all := PieceCalls(cb, p, pieces[..k + 1]), PieceCalls(cb, p, pieces);
    assert all == some + all[|some|..];
    ChunkedConcat(EMPTY, false, some, all[|some|..]);
    ChunkedStays(OnEvents(EMPTY, some), all[|some|..]);
  }

  /** A header that cannot set the flag: it is no Transfer-Encoding header, or its value has no room for the
      word. */
  predicate Silent(h: Header) { !IsTransferEncoding(h.name) || |h.value| < |WORD| }

  /** No other header of the assembled list is a Transfer-Encoding header that could set the flag. */
  predicate Alone(before: seq<Header>, hs: seq<Header>) {
    && (forall i :: 0 <= i < |before| - 1 ==> !IsTransferEncoding(before[i].name))
    && (forall i :: |before| <= i < |hs| ==> Silent(hs[i]))
  }

  lemma NotSaid(hs: seq<Header>, x: int, v: string)
    requires 0 <= x < |hs| && Silent(hs[x])
    ensures !SaidBy(hs, x, v)
  {
    hide Strings.SameNoCase, Strings.OccursNoCase, Strings.CStr;
    if v <= hs[x].value && |hs[x].value| < |WORD| {
      ShortIsSilent(Header(hs[x].name, v));
    }
  }

  /** The header list when only the first letters of the keyword are there. */
  lemma PartAssembled(cb: Callbacks, p: Parser, x: string, w: string)
    requires AtEncoding(cb, p, x) && w != [] && |w| <= |WORD| && IsValue(w)
    ensures var a := OnEvents(EMPTY, Run(cb, p, x).events);
            OnEvents(EMPTY, Run(cb, p, x + w).events) ==
              Assembly(WithLast(a.headers, LastOf(a.headers).(value := w)), false)
  {
    hide Run, Inv, OnEvents, IsTransferEncoding, Bytewise, IsValue, ValueSeen;
    var r := Run(cb, p, x);
    RunConcat(cb, p, x, w);
    PlainValueRun(cb, r.p, w);
    OnEventsConcat(EMPTY, r.events, Bytewise(Value, w));
    BytewiseAssembled(OnEvents(EMPTY, r.events), Value, w);
  }

  lemma FlagLostSoFar(before: seq<Header>, calls: seq<Event>, w: string)
    requires before != [] && Alone(before, []) && |w| < |WORD|
    requires OnEvents(EMPTY, calls).headers == WithLast(before, LastOf(before).(value := w))
    ensures !ChunkedAfter(EMPTY, false, calls)
  {
    hide IsTransferEncoding, OnEvents, ChunkedAfter, SaidBy;
    FlagTraced(EMPTY, calls);
    var hs := OnEvents(EMPTY, calls).headers;
    if ChunkedAfter(EMPTY, false, calls) {
      var x, v :| NextValue(EMPTY) <= x && SaidBy(hs, x, v);
      if 0 <= x < |hs| {
        NotSaid(hs, x, v);
      } else {
        OutOfList(hs, x, v);
      }
      assert false;
    }
  }

  lemma OutOfList(hs: seq<Header>, x: int, v: string)
    requires !(0 <= x < |hs|)
    ensures !SaidBy(hs, x, v)
  {
  }

  lemma FlagLostAfter(a: Assembly, rest: seq<Event>)
    requires !a.keyPrev
    requires var hs := OnEvents(a, rest).headers;
             forall i :: |a.headers| <= i < |hs| ==> Silent(hs[i])
    ensures !ChunkedAfter(a, false, rest)
  {
    hide IsTransferEncoding, OnEvents, ChunkedAfter, SaidBy;
    FlagTraced(a, rest);
    var hs := OnEvents(a, rest).headers;
    if ChunkedAfter(a, false, rest) {
      var x, v :| NextValue(a) <= x && SaidBy(hs, x, v);
      if x < |hs| {
        NotSaid(hs, x, v);
      } else {
        OutOfList(hs, x, v);
      }
      assert false;
    }
  }

  /** The calls for pieces that end inside the keyword. */
  lemma LostSoFar(cb: Callbacks, p: Parser, front: seq<string>, x: string, w: string)
    requires AreReads(front) && AtEncoding(cb, p, x) && Flatten(front) == x + w && 0 < |w| < |WORD| && IsValue(w)
    requires Run(cb, p, x + w).p.errno.OK? || Run(cb, p, x + w).p.errno.Paused?
    requires Alone(OnEvents(EMPTY, Run(cb, p, x).events).headers, [])
    ensures var a := OnEvents(EMPTY, PieceCalls(cb, p, front));
            && !a.keyPrev && |a.headers| == |OnEvents(EMPTY, Run(cb, p, x).events).headers|
            && !ChunkedAfter(EMPTY, false, PieceCalls(cb, p, front))
  {
    hide Run, EmitAll, Inv, OnEvents, ChunkedAfter, IsTransferEncoding, Told, Flatten, RunPieces, PieceCalls, IsValue;
    PartAssembled(cb, p, x, w);
    PiecesTell(cb, p, front);
    AssembledSame(PieceCalls(cb, p, front), Run(cb, p, x + w).events);
    FlagLostSoFar(OnEvents(EMPTY, Run(cb, p, x).events).headers, PieceCalls(cb, p, front), w);
  }

  /** A piece ends inside the keyword: the flag is never set. */
  lemma FlagLost(cb: Callbacks, p: Parser, pieces: seq<string>, x: string, w: string)
    requires AreReads(pieces) && AtEncoding(cb, p, x) && Encoded(cb, p, x, w, Flatten(pieces))
    requires Alone(OnEvents(EMPTY, Run(cb, p, x).events).headers,
                   OnEvents(EMPTY, Run(cb, p, Flatten(pieces)).events).headers)
    requires CutInside(pieces, |x|, |WORD|)
    ensures !ChunkedAfter(EMPTY, false, PieceCalls(cb, p, pieces))
  {
    hide Run, EmitAll, Inv, OnEvents, ChunkedAfter, IsTransferEncoding, Spells, Told, Flatten, RunPieces, PieceCalls;
    var k :| 0 <= k <= |pieces| && |x| < |Flatten(pieces[..k])| < |x| + |WORD|;
    var front := pieces[..k];
    var done, stream := Flatten(front), Flatten(pieces);
    FlattenFront(pieces, k);
    FrontAccepted(cb, p, done, stream);
    var u := w[..|done| - |x|];
    assert done == x + u by { assert done == (x + w)[..|done|]; }
    LostSoFar(cb, p, front, x, u);
    PiecesTell(cb, p, pieces);
    var some, all := PieceCalls(cb, p, front), PieceCalls(cb, p, pieces);
    AssembledSame(all, Run(cb, p, stream).events);
    PieceCallsFront(cb, p, pieces, k);
    var rest := all[|some|..];
    assert all == some + rest;
    ChunkedConcat(EMPTY, false, some, rest);
    OnEventsConcat(EMPTY, some, rest);
    FlagLostAfter(OnEvents(EMPTY, some), rest);
  }

  /** For every cutting of an accepted stream with one Transfer-Encoding header: the flag is set if and only
      if no piece ends inside the keyword. */
  lemma FlagExactly(cb: Callbacks, p: Parser, pieces: seq<string>, x: string, w: string)
    requires AreReads(pieces) && AtEncoding(cb, p, x) && Encoded(cb, p, x, w, Flatten(pieces))
    requires Alone(OnEvents(EMPTY, Run(cb, p, x).events).headers,
                   OnEvents(EMPTY, Run(cb, p, Flatten(pieces)).events).headers)
    ensures ChunkedAfter(EMPTY, false, PieceCalls(cb, p, pieces)) <==> !CutInside(pieces, |x|, |WORD|)
  {
    hide AtEncoding, Encoded, Alone, CutInside, ChunkedAfter, PieceCalls;
    if CutInside(pieces, |x|, |WORD|) {
      FlagLost(cb, p, pieces, x, w);
    } else {
      FlagSet(cb, p, pieces, x, w);
    }
  }
}
