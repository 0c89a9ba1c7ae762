/**
 The method matcher: exactly which bytes it takes for which method.
 */
module HttpMethod {
  import opened HttpTypes
  import opened HttpSwitch
  import opened HttpRun
  import opened HttpBytes
  import HttpInvariant

  // ---------------------------------------------------------------- the spellings that are accepted

  /** The third byte of these methods is looked at. */
  predicate Strict(m: Method) {
    m.CONNECT? || m.COPY? || m.MKCOL? || m.MKACTIVITY? || m.SUBSCRIBE? || m.PURGE? || m.UNSUBSCRIBE?
  }

  /** Byte `c` at index `k` goes with method `m`. */
  predicate ByteOk(m: Method, k: nat, c: char) {
    && k < |MethodString(m)|
    && (c == MethodString(m)[k]
        || (k == 2 && !Strict(m) && c != '\0' && !(m.PUT? && c == 'R') && !(m.UNLOCK? && c == 'S')))
  }

  predicate AllBlank(u: string) {
    forall k :: 0 <= k < |u| ==> u[k] == ' '
  }

  predicate IsLineEnd(c: char) { c == CR || c == LF }

  /** Line ends in front of a request are skipped. */
  function SkipLineEnds(w: string): string {
    if w != [] && IsLineEnd(w[0]) then SkipLineEnds(w[1..]) else w
  }

  /** After line ends, the name of `m`, whose third byte may differ unless the method is strict or the byte
      turns it into another method; then blanks. */
  predicate Accepted(m: Method, w: string) {
    var v, n := SkipLineEnds(w), |MethodString(m)|;
    && n <= |v|
    && (forall k :: 0 <= k < n ==> ByteOk(m, k, v[k]))
    && (forall k :: n <= k < |v| ==> v[k] == ' ')
  }

  // ---------------------------------------------------------------- the matcher as an automaton

  datatype Matcher = Waiting | At(m: Method, i: nat) | Done(m: Method) | Stopped

  function Next(s: Matcher, c: char): Matcher {
    match s
    case Waiting =>
      if IsLineEnd(c) then Waiting
      else if !IsAlpha(c) || FirstLetter(c).None? then Stopped
      else At(FirstLetter(c).value, 1)
    case At(m, i) =>
      var expected := CharAt(MethodString(m), i);
      if c == '\0' then Stopped
      else if c == ' ' && expected == '\0' then Done(m)
      else if c == expected then At(m, i + 1)
      else (match SwitchMethod(m, i, c)
            case None => Stopped
            case Some(x) => At(x, i + 1))
    case Done(m) => if c == ' ' then s else Stopped
    case Stopped => s
  }

  function Fold(s: Matcher, w: string): Matcher
    decreases |w|
  {
    if w == [] then s else Fold(Next(s, w[0]), w[1..])
  }

  /** The parser `n` bytes after it waited at `p`. */
  function Where(p: Parser, s: Matcher, n: nat): Parser
    requires !s.Stopped?
  {
    var q := p.(nread := p.nread + n);
    match s
    case Waiting => q
    case At(m, i) => q.(flags := NoFlags, contentLength := ULLONG_MAX, verb := m, index := i, state := ReqMethod)
    case Done(m) =>
      q.(flags := NoFlags, contentLength := ULLONG_MAX, verb := m, index := |MethodString(m)| + 1,
         state := ReqSpacesBeforeUrl)
  }

  predicate Begins(s: Matcher, t: Matcher) { s.Waiting? && !t.Waiting? }

  predicate HasData(es: seq<Event>) {
    exists i :: 0 <= i < |es| && es[i].Data?
  }

  lemma WaitingByte(cb: Callbacks, p: Parser, n: nat, c: char)
    requires p.state.StartReq? && p.errno.OK? && Room(p, n + 1)
    ensures var r, t := Run(cb, Where(p, Waiting, n), [c]), Next(Waiting, c);
            if t.Stopped? then r.count == 0
            else r == Ran(Where(p, t, n + 1), if t.Waiting? then [] else [Begin], 1)
  {
    hide Byte, Run, Handle, FirstLetter;
    var q := Where(p, Waiting, n);
    OnePass(cb, q, c);
    InStartPart(cb, Counted(q), c);
    RunOne(cb, q, c);
  }

  lemma MethodByte(cb: Callbacks, p: Parser, ch: char)
    requires p.state.ReqMethod? && p.errno.OK? && Room(p, 1)
    ensures var o := HandleMethod(Counted(p), ch);
            Run(cb, p, [ch]) == Ran(o.p, [], if o.next.Fail? then 0 else 1)
  {
    hide Byte, Run, Handle, MethodString, SwitchMethod;
    OnePass(cb, p, ch);
    InMethodPart(cb, Counted(p), ch);
    RunOne(cb, p, ch);
  }

  lemma AtByte(cb: Callbacks, p: Parser, s: Matcher, n: nat, c: char)
    requires p.state.StartReq? && p.errno.OK? && Room(p, n + 1) && s.At? && s.i <= |MethodString(s.m)|
    ensures var r, t := Run(cb, Where(p, s, n), [c]), Next(s, c);
            if t.Stopped? then r.count == 0 else r == Ran(Where(p, t, n + 1), [], 1)
  {
    hide Run, MethodString, SwitchMethod;
    if s.i < |MethodString(s.m)| {
      NameIsText(s.m, s.i);
    }
    MethodByte(cb, Where(p, s, n), c);
  }

  /** A byte after the method: a blank, or the first of a URL. */
  lemma UrlFirstByte(cb: Callbacks, q: Parser, c: char)
    requires q.state.ReqSpacesBeforeUrl? && q.errno.OK? && Room(q, 1)
    ensures var r := Run(cb, q, [c]);
            if c == ' ' then r == Ran(q.(nread := q.nread + 1), [], 1)
            else r.count == 0 || r.events == [Data(Url, [c])]
  {
    hide Byte, Run, Handle, ParseUrlChar;
    OnePass(cb, q, c);
    InUrlPart(cb, Counted(q), c);
    HttpInvariant.UrlCharStays(if q.verb.CONNECT? then ReqServerStart else ReqSpacesBeforeUrl, c);
    RunOne(cb, q, c);
  }

  lemma DoneByte(cb: Callbacks, p: Parser, s: Matcher, n: nat, c: char)
    requires p.state.StartReq? && p.errno.OK? && Room(p, n + 1) && s.Done?
    ensures var r, t := Run(cb, Where(p, s, n), [c]), Next(s, c);
            if t.Stopped? then r.count == 0 || r.events == [Data(Url, [c])] else r == Ran(Where(p, t, n + 1), [], 1)
  {
    hide Run, MethodString;
    UrlFirstByte(cb, Where(p, s, n), c);
  }

  /** A matcher that the automaton can be in: its method is the one a name with these bytes is matched as. */
  predicate Live(s: Matcher) {
    match s
    case At(m, i) => 1 <= i <= |MethodString(m)| && Candidate(m, i) == m
    case Waiting => true
    case Done(_) => true
    case Stopped => true
  }

  lemma {:induction false} FoldRun(cb: Callbacks, p: Parser, s: Matcher, n: nat, w: string)
    requires p.state.StartReq? && p.errno.OK? && Room(p, n + |w|) && !s.Stopped? && Live(s)
    ensures var r, t := Run(cb, Where(p, s, n), w), Fold(s, w);
            if t.Stopped? then r.count < |w| || HasData(r.events)
            else r == Ran(Where(p, t, n + |w|), if Begins(s, t) then [Begin] else [], |w|)
    decreases |w|
  {
    hide Run, Next, MethodString, Live;
    var q := Where(p, s, n);
    if w == [] {
      RunStopped(cb, q, w);
    } else {
      var c, t := w[0], Next(s, w[0]);
      OneByte(cb, p, s, n, c);
      LiveStays(s, c);
      NextMoves(s, c);
      assert w == [c] + w[1..];
      RunConcat(cb, q, [c], w[1..]);
      if t.Stopped? {
        FoldStopped(w[1..]);
        var r := Run(cb, q, [c]);
        if r.count == 0 {
          RunStopped(cb, r.p, w[1..]);
        } else {
          var es := r.events + Run(cb, r.p, w[1..]).events;
          assert es[0].Data?;
        }
      } else {
        FoldRun(cb, p, t, n + 1, w[1..]);
        FoldMoves(t, w[1..]);
        var es := Run(cb, Where(p, t, n + 1), w[1..]).events;
        if HasData(es) {
          var i :| 0 <= i < |es| && es[i].Data?;
          var first := Run(cb, q, [c]).events;
          assert (first + es)[|first| + i].Data?;
        }
      }
    }
  }

  lemma OneByte(cb: Callbacks, p: Parser, s: Matcher, n: nat, c: char)
    requires p.state.StartReq? && p.errno.OK? && Room(p, n + 1) && !s.Stopped? && Live(s)
    ensures var r, t := Run(cb, Where(p, s, n), [c]), Next(s, c);
            if t.Stopped? then r.count == 0 || r.events == [Data(Url, [c])]
            else r == Ran(Where(p, t, n + 1), if Begins(s, t) then [Begin] else [], 1)
  {
    hide Run, Next, MethodString;
    match s
    case Waiting => WaitingByte(cb, p, n, c);
    case At(_, _) => AtByte(cb, p, s, n, c); NextMoves(s, c);
    case Done(_) => DoneByte(cb, p, s, n, c); NextMoves(s, c);
  }

  lemma NextMoves(s: Matcher, c: char)
    ensures !s.Waiting? ==> !Next(s, c).Waiting?
  {
    hide MethodString, SwitchMethod;
  }

  lemma {:induction false} FoldMoves(s: Matcher, w: string)
    ensures !s.Waiting? ==> !Fold(s, w).Waiting?
    decreases |w|
  {
    hide Next;
    if w != [] {
      NextMoves(s, w[0]);
      FoldMoves(Next(s, w[0]), w[1..]);
    }
  }

  lemma {:induction false} FoldStopped(w: string)
    ensures Fold(Stopped, w) == Stopped
  {
    if w != [] {
      FoldStopped(w[1..]);
    }
  }

  // ---------------------------------------------------------------- names and candidates

  /** The method that the matcher is at after the first `i` bytes of a spelling of `m`. */
  function Candidate(m: Method, i: nat): Method {
    if i == 1 then
      if m.COPY? || m.CHECKOUT? then CONNECT
      else if m.MKACTIVITY? || m.MOVE? || m.MERGE? || m.MSEARCH? then MKCOL
      else if m.SEARCH? then SUBSCRIBE
      else if m.PROPFIND? || m.PROPPATCH? || m.PUT? || m.PURGE? || m.PATCH? then POST
      else if m.UNSUBSCRIBE? then UNLOCK
      else m
    else if i == 2 then
      if m.COPY? then CONNECT
      else if m.MKACTIVITY? then MKCOL
      else if m.PROPPATCH? then PROPFIND
      else if m.PURGE? then PUT
      else if m.UNSUBSCRIBE? then UNLOCK
      else m
    else if i <= 4 && m.PROPPATCH? then PROPFIND
    else m
  }

  lemma NameLength(m: Method)
    ensures 3 <= |MethodString(m)|
  {
  }

  lemma NameIsText(m: Method, i: nat)
    requires i < |MethodString(m)|
    ensures MethodString(m)[i] != '\0' && MethodString(m)[i] != ' '
  {
  }

  lemma FirstCandidate(m: Method)
    ensures var c := MethodString(m)[0]; IsAlpha(c) && FirstLetter(c) == Some(Candidate(m, 1))
  {
  }

  lemma FirstLetterOnce(c: char, d: char)
    requires FirstLetter(c) == FirstLetter(d) && FirstLetter(c).Some?
    ensures c == d && Candidate(FirstLetter(c).value, 1) == FirstLetter(c).value
  {
  }

  /** A byte inside a name moves the matcher to `t`, and with it every method that shares the candidate,
      exactly if the byte goes with it. */
  predicate MovesTo(t: Matcher, x: Method, i: nat, c: char, m: Method) {
    && (t.Stopped? || (t.At? && t.i == i + 1 && Live(t)))
    && ((t.At? && Candidate(m, i + 1) == t.m) <==> Candidate(m, i) == x && ByteOk(m, i, c))
  }

  predicate Moves(x: Method, i: nat, c: char, m: Method) {
    MovesTo(Next(At(x, i), c), x, i, c, m)
  }

  lemma SecondLetters()
    ensures MethodString(CONNECT)[1] == 'O' && MethodString(COPY)[1] == 'O' && MethodString(CHECKOUT)[1] == 'H'
    ensures MethodString(MKCOL)[1] == 'K' && MethodString(MKACTIVITY)[1] == 'K' && MethodString(MOVE)[1] == 'O'
    ensures MethodString(MERGE)[1] == 'E' && MethodString(MSEARCH)[1] == '-'
    ensures MethodString(SUBSCRIBE)[1] == 'U' && MethodString(SEARCH)[1] == 'E'
    ensures MethodString(POST)[1] == 'O' && MethodString(PROPFIND)[1] == 'R' && MethodString(PROPPATCH)[1] == 'R'
    ensures MethodString(PUT)[1] == 'U' && MethodString(PURGE)[1] == 'U' && MethodString(PATCH)[1] == 'A'
    ensures MethodString(UNLOCK)[1] == 'N' && MethodString(UNSUBSCRIBE)[1] == 'N'
  {
  }

  /** A method that no other is matched as, at an index where no byte switches. */
  lemma OwnByte(x: Method, i: nat, c: char, m: Method)
    requires 1 <= i < |MethodString(x)| && SwitchMethod(x, i, c) == None && (i != 2 || Strict(x))
    requires (Candidate(m, i) == x <==> m == x) && (Candidate(m, i + 1) == x <==> m == x) && Candidate(x, i + 1) == x
    ensures Moves(x, i, c, m)
  {
    hide MethodString, SwitchMethod, Candidate, Strict;
    NameIsText(x, i);
  }

  lemma SecondOfConnectTo(c: char)
    ensures Next(At(CONNECT, 1), c) == if c == 'O' then At(CONNECT, 2) else if c == 'H' then At(CHECKOUT, 2)
            else Stopped
  {
    hide MethodString;
    NameLength(CONNECT);
    SecondLetters();
  }

  lemma SecondOfConnect(c: char, m: Method)
    ensures Moves(CONNECT, 1, c, m)
  {
    hide MethodString, Next;
    SecondLetters();
    NameLength(m);
    var t := if c == 'O' then At(CONNECT, 2) else if c == 'H' then At(CHECKOUT, 2) else Stopped;
    SecondOfConnectTo(c);
    NameLength(CONNECT);
    NameLength(CHECKOUT);
    assert MovesTo(t, CONNECT, 1, c, m);
  }

  lemma SecondOfMkcolTo(c: char)
    ensures Next(At(MKCOL, 1), c) == if c == 'K' then At(MKCOL, 2) else if c == 'O' then At(MOVE, 2)
            else if c == 'E' then At(MERGE, 2) else if c == '-' then At(MSEARCH, 2) else Stopped
  {
    hide MethodString;
    NameLength(MKCOL);
    SecondLetters();
  }

  lemma SecondOfMkcolIn(c: char, m: Method)
    requires Candidate(m, 1) == MKCOL
    ensures Moves(MKCOL, 1, c, m)
  {
    hide MethodString, Next;
    SecondLetters();
    NameLength(m);
    SecondOfMkcolTo(c);
    NameLength(MKCOL);
    NameLength(MOVE);
    NameLength(MERGE);
    NameLength(MSEARCH);
  }

  lemma SecondOfMkcol(c: char, m: Method)
    ensures Moves(MKCOL, 1, c, m)
  {
    hide MethodString, Next, ByteOk;
    if Candidate(m, 1) == MKCOL {
      SecondOfMkcolIn(c, m);
    } else {
      SecondOfMkcolTo(c);
      NameLength(MKCOL);
      NameLength(MOVE);
      NameLength(MERGE);
      NameLength(MSEARCH);
    }
  }

  lemma SecondOfSubscribeTo(c: char)
    ensures Next(At(SUBSCRIBE, 1), c) == if c == 'U' then At(SUBSCRIBE, 2) else if c == 'E' then At(SEARCH, 2)
            else Stopped
  {
    hide MethodString;
    NameLength(SUBSCRIBE);
    SecondLetters();
  }

  lemma SecondOfSubscribe(c: char, m: Method)
    ensures Moves(SUBSCRIBE, 1, c, m)
  {
    hide MethodString, Next;
    SecondLetters();
    NameLength(m);
    var t := if c == 'U' then At(SUBSCRIBE, 2) else if c == 'E' then At(SEARCH, 2) else Stopped;
    SecondOfSubscribeTo(c);
    NameLength(SUBSCRIBE);
    NameLength(SEARCH);
    if Candidate(m, 1) == SUBSCRIBE {
      assert MovesTo(t, SUBSCRIBE, 1, c, m);
    } else {
      hide ByteOk;
      assert MovesTo(t, SUBSCRIBE, 1, c, m);
    }
  }

  lemma SecondOfPostTo(c: char)
    ensures Next(At(POST, 1), c) == if c == 'O' then At(POST, 2) else if c == 'R' then At(PROPFIND, 2)
            else if c == 'U' then At(PUT, 2) else if c == 'A' then At(PATCH, 2) else Stopped
  {
    hide MethodString;
    NameLength(POST);
    SecondLetters();
  }

  lemma SecondOfPost(c: char, m: Method)
    ensures Moves(POST, 1, c, m)
  {
    hide MethodString, Next;
    SecondLetters();
    NameLength(m);
    var t := if c == 'O' then At(POST, 2) else if c == 'R' then At(PROPFIND, 2) else if c == 'U' then At(PUT, 2)
      else if c == 'A' then At(PATCH, 2) else Stopped;
    SecondOfPostTo(c);
    NameLength(POST);
    NameLength(PROPFIND);
    NameLength(PUT);
    NameLength(PATCH);
    if m.POST? {
      assert MovesTo(t, POST, 1, c, m);
    } else if m.PROPFIND? || m.PROPPATCH? {
      assert MovesTo(t, POST, 1, c, m);
    } else if m.PUT? || m.PURGE? || m.PATCH? {
      assert MovesTo(t, POST, 1, c, m);
    } else {
      hide ByteOk;
      assert MovesTo(t, POST, 1, c, m);
    }
  }

  lemma SecondOfUnlockTo(c: char)
    ensures Next(At(UNLOCK, 1), c) == if c == 'N' then At(UNLOCK, 2) else Stopped
  {
    hide MethodString;
    NameLength(UNLOCK);
    SecondLetters();
  }

  lemma SecondOfUnlock(c: char, m: Method)
    ensures Moves(UNLOCK, 1, c, m)
  {
    hide MethodString, Next;
    SecondLetters();
    NameLength(m);
    var t := if c == 'N' then At(UNLOCK, 2) else Stopped;
    SecondOfUnlockTo(c);
    NameLength(UNLOCK);
    assert MovesTo(t, UNLOCK, 1, c, m);
  }

  lemma SecondByte(x: Method, c: char, m: Method)
    requires Candidate(x, 1) == x
    ensures Moves(x, 1, c, m)
  {
    hide MethodString, Moves;
    NameLength(x);
    if x.CONNECT? {
      SecondOfConnect(c, m);
    } else if x.MKCOL? {
      SecondOfMkcol(c, m);
    } else if x.SUBSCRIBE? {
      SecondOfSubscribe(c, m);
    } else if x.POST? {
      SecondOfPost(c, m);
    } else if x.UNLOCK? {
      SecondOfUnlock(c, m);
    } else {
      OwnByte(x, 1, c, m);
    }
  }

  lemma ThirdLetters()
    ensures MethodString(CONNECT)[2] == 'N' && MethodString(COPY)[2] == 'P'
    ensures MethodString(MKCOL)[2] == 'C' && MethodString(MKACTIVITY)[2] == 'A' && MethodString(SUBSCRIBE)[2] == 'B'
    ensures MethodString(PROPFIND)[2] == 'O' && MethodString(PROPPATCH)[2] == 'O'
    ensures MethodString(PUT)[2] == 'T' && MethodString(PURGE)[2] == 'R'
    ensures MethodString(UNLOCK)[2] == 'L' && MethodString(UNSUBSCRIBE)[2] == 'S'
  {
  }

  lemma ThirdOfConnectTo(c: char)
    ensures Next(At(CONNECT, 2), c) == if c == 'N' then At(CONNECT, 3) else if c == 'P' then At(COPY, 3) else Stopped
  {
    hide MethodString;
    NameLength(CONNECT);
    ThirdLetters();
  }

  lemma ThirdOfConnect(c: char, m: Method)
    ensures Moves(CONNECT, 2, c, m)
  {
    hide MethodString, Next;
    ThirdLetters();
    NameLength(m);
    var t := if c == 'N' then At(CONNECT, 3) else if c == 'P' then At(COPY, 3) else Stopped;
    ThirdOfConnectTo(c);
    NameLength(CONNECT);
    NameLength(COPY);
    assert MovesTo(t, CONNECT, 2, c, m);
  }

  lemma ThirdOfMkcolTo(c: char)
    ensures Next(At(MKCOL, 2), c) == if c == 'C' then At(MKCOL, 3) else if c == 'A' then At(MKACTIVITY, 3) else Stopped
  {
    hide MethodString;
    NameLength(MKCOL);
    ThirdLetters();
  }

  lemma ThirdOfMkcol(c: char, m: Method)
    ensures Moves(MKCOL, 2, c, m)
  {
    hide MethodString, Next;
    ThirdLetters();
    NameLength(m);
    var t := if c == 'C' then At(MKCOL, 3) else if c == 'A' then At(MKACTIVITY, 3) else Stopped;
    ThirdOfMkcolTo(c);
    NameLength(MKCOL);
    NameLength(MKACTIVITY);
    if Candidate(m, 2) == MKCOL {
      assert MovesTo(t, MKCOL, 2, c, m);
    } else {
      hide ByteOk;
      assert MovesTo(t, MKCOL, 2, c, m);
    }
  }

  lemma ThirdOfPutTo(c: char)
    ensures Next(At(PUT, 2), c) == if c == '\0' then Stopped else if c == 'R' then At(PURGE, 3) else At(PUT, 3)
  {
    hide MethodString;
    NameLength(PUT);
    ThirdLetters();
  }

  lemma ThirdOfPut(c: char, m: Method)
    ensures Moves(PUT, 2, c, m)
  {
    hide MethodString, Next;
    ThirdLetters();
    NameLength(m);
    var t := if c == '\0' then Stopped else if c == 'R' then At(PURGE, 3) else At(PUT, 3);
    ThirdOfPutTo(c);
    NameLength(PURGE);
    NameLength(PUT);
    assert MovesTo(t, PUT, 2, c, m);
  }

  lemma ThirdOfUnlockTo(c: char)
    ensures Next(At(UNLOCK, 2), c) == if c == '\0' then Stopped else if c == 'S' then At(UNSUBSCRIBE, 3)
            else At(UNLOCK, 3)
  {
    hide MethodString;
    NameLength(UNLOCK);
    ThirdLetters();
  }

  lemma ThirdOfUnlock(c: char, m: Method)
    ensures Moves(UNLOCK, 2, c, m)
  {
    hide MethodString, Next;
    ThirdLetters();
    NameLength(m);
    var t := if c == '\0' then Stopped else if c == 'S' then At(UNSUBSCRIBE, 3) else At(UNLOCK, 3);
    ThirdOfUnlockTo(c);
    NameLength(UNSUBSCRIBE);
    NameLength(UNLOCK);
    assert MovesTo(t, UNLOCK, 2, c, m);
  }

  lemma ThirdOfPropfindTo(c: char)
    ensures Next(At(PROPFIND, 2), c) == if c == '\0' then Stopped else At(PROPFIND, 3)
  {
    hide MethodString;
    NameLength(PROPFIND);
    ThirdLetters();
  }

  lemma ThirdOfPropfind(c: char, m: Method)
    ensures Moves(PROPFIND, 2, c, m)
  {
    hide MethodString, Next;
    ThirdLetters();
    NameLength(m);
    var t := if c == '\0' then Stopped else At(PROPFIND, 3);
    ThirdOfPropfindTo(c);
    NameLength(PROPFIND);
    assert MovesTo(t, PROPFIND, 2, c, m);
  }

  lemma ThirdOfOther(x: Method, c: char, m: Method)
    requires !Strict(x) && !x.PUT? && !x.UNLOCK? && !x.PROPFIND? && Candidate(x, 2) == x
    ensures Moves(x, 2, c, m)
  {
    hide MethodString, Next;
    NameLength(x);
    NameIsText(x, 2);
    OtherTo(x, c);
    var t := if c == '\0' then Stopped else At(x, 3);
    assert MovesTo(t, x, 2, c, m);
  }

  lemma OtherTo(x: Method, c: char)
    requires !Strict(x) && !x.PUT? && !x.UNLOCK? && !x.PROPFIND? && Candidate(x, 2) == x
    ensures Next(At(x, 2), c) == if c == '\0' then Stopped else At(x, 3)
  {
    hide MethodString;
    NameLength(x);
    NameIsText(x, 2);
  }

  lemma ThirdByte(x: Method, c: char, m: Method)
    requires Candidate(x, 2) == x
    ensures Moves(x, 2, c, m)
  {
    hide MethodString, Moves;
    NameLength(x);
    if x.CONNECT? {
      ThirdOfConnect(c, m);
    } else if x.MKCOL? {
      ThirdOfMkcol(c, m);
    } else if x.SUBSCRIBE? {
      OwnByte(x, 2, c, m);
    } else if x.PUT? {
      ThirdOfPut(c, m);
    } else if x.UNLOCK? {
      ThirdOfUnlock(c, m);
    } else if x.PROPFIND? {
      ThirdOfPropfind(c, m);
    } else {
      ThirdOfOther(x, c, m);
    }
  }

  lemma PropLetters()
    ensures MethodString(PROPFIND)[3] == 'P' && MethodString(PROPPATCH)[3] == 'P'
    ensures MethodString(PROPFIND)[4] == 'F' && MethodString(PROPPATCH)[4] == 'P'
    ensures |MethodString(PROPFIND)| == 8 && |MethodString(PROPPATCH)| == 9
  {
  }

  lemma LaterByte(x: Method, i: nat, c: char, m: Method)
    requires Candidate(x, i) == x && 3 <= i < |MethodString(x)|
    ensures Moves(x, i, c, m)
  {
    hide MethodString;
    NameIsText(x, i);
    PropLetters();
  }

  lemma NameByte(x: Method, i: nat, c: char, m: Method)
    requires Live(At(x, i)) && i < |MethodString(x)|
    ensures Moves(x, i, c, m)
  {
    hide MethodString, Moves, Candidate;
    if i == 1 {
      SecondByte(x, c, m);
    } else if i == 2 {
      ThirdByte(x, c, m);
    } else {
      LaterByte(x, i, c, m);
    }
  }

  /** After the whole name only a blank goes on. */
  lemma EndByte(x: Method, c: char)
    ensures Next(At(x, |MethodString(x)|), c) == if c == ' ' then Done(x) else Stopped
  {
    hide MethodString;
    NameLength(x);
    PropLetters();
  }

  lemma LiveStays(s: Matcher, c: char)
    requires Live(s)
    ensures Live(Next(s, c))
  {
    hide MethodString, Candidate;
    match s
    case Waiting =>
      if FirstLetter(c).Some? {
        FirstLetterOnce(c, c);
        NameLength(FirstLetter(c).value);
      }
    case At(x, i) =>
      if i == |MethodString(x)| {
        EndByte(x, c);
      } else {
        NameByte(x, i, c, x);
      }
    case Done(_) =>
    case Stopped =>
  }

  // ---------------------------------------------------------------- the automaton accepts the spellings

  /** The rest of a spelling of `m`, from index `i`, and the blanks after it. */
  predicate Fits(m: Method, i: nat, u: string)
    decreases |u|
  {
    if i >= |MethodString(m)| then AllBlank(u)
    else u != [] && ByteOk(m, i, u[0]) && Fits(m, i + 1, u[1..])
  }

  lemma BlankFirst(u: string)
    ensures AllBlank(u) <==> u == [] || (u[0] == ' ' && AllBlank(u[1..]))
  {
    if u != [] {
      assert forall k :: 0 < k < |u| ==> u[k] == u[1..][k - 1];
      assert AllBlank(u) ==> AllBlank(u[1..]);
    }
  }

  lemma {:induction false} FoldDone(x: Method, u: string, m: Method)
    ensures Fold(Done(x), u + " ") == Done(m) <==> x == m && AllBlank(u)
    decreases |u|
  {
    hide AllBlank;
    var w := u + " ";
    BlankFirst(u);
    if u == [] {
      assert w == " " && w[1..] == [];
    } else {
      assert w[0] == u[0] && w[1..] == u[1..] + " ";
      if u[0] == ' ' {
        FoldDone(x, u[1..], m);
      } else {
        FoldStopped(w[1..]);
      }
    }
  }

  lemma WholeName(x: Method, m: Method)
    ensures Candidate(m, |MethodString(x)|) == x <==> m == x
  {
    hide MethodString;
    NameLength(x);
    PropLetters();
  }

  lemma Inside(x: Method, i: nat, m: Method)
    requires 1 <= i < |MethodString(x)| && Candidate(m, i) == x
    ensures i < |MethodString(m)|
  {
    hide MethodString;
    NameLength(m);
    PropLetters();
  }

  lemma ByteInside(m: Method, i: nat, c: char)
    ensures ByteOk(m, i, c) ==> i < |MethodString(m)|
  {
    hide MethodString;
  }

  /** The whole name has been matched. */
  lemma FoldWhole(x: Method, u: string, m: Method)
    requires Live(At(x, |MethodString(x)|))
    ensures var i := |MethodString(x)|;
            Fold(At(x, i), u + " ") == Done(m) <==> Candidate(m, i) == x && i <= |MethodString(m)| && Fits(m, i, u)
  {
    hide MethodString, Candidate, Next, ByteOk, AllBlank;
    var w := u + " ";
    NameLength(m);
    BlankFirst(u);
    EndByte(x, w[0]);
    WholeName(x, m);
    if u == [] {
      assert w[1..] == [];
    } else {
      assert w[1..] == u[1..] + " ";
      FoldDone(x, u[1..], m);
      FoldStopped(w[1..]);
    }
  }

  lemma {:induction false} FoldAt(x: Method, i: nat, u: string, m: Method)
    requires Live(At(x, i))
    ensures Fold(At(x, i), u + " ") == Done(m) <==> Candidate(m, i) == x && i <= |MethodString(m)| && Fits(m, i, u)
    decreases |u|
  {
    hide MethodString, Candidate, Next, ByteOk, AllBlank;
    var w := u + " ";
    var c := w[0];
    NameLength(m);
    if i == |MethodString(x)| {
      hide Live, Fold, Fits;
      FoldWhole(x, u, m);
    } else {
      BlankFirst(u);
      NameByte(x, i, c, m);
      if Candidate(m, i) == x {
        Inside(x, i, m);
      }
      ByteInside(m, i, c);
      var t := Next(At(x, i), c);
      if u == [] {
        assert w[1..] == [];
      } else {
        assert w[1..] == u[1..] + " ";
        FoldStopped(w[1..]);
        if t.At? {
          FoldAt(t.m, i + 1, u[1..], m);
        }
      }
    }
  }

  lemma {:induction false} FitsAll(m: Method, i: nat, u: string)
    ensures var n := |MethodString(m)|;
            i <= n ==>
              (Fits(m, i, u) <==>
                && n - i <= |u|
                && (forall k :: 0 <= k < n - i ==> ByteOk(m, i + k, u[k]))
                && (forall k :: n - i <= k < |u| ==> u[k] == ' '))
    decreases |u|
  {
    hide MethodString, ByteOk;
    var n := |MethodString(m)|;
    if i < n && u != [] {
      var v := u[1..];
      FitsAll(m, i + 1, v);
      assert forall k :: 0 <= k < |v| ==> v[k] == u[k + 1];
      if Fits(m, i, u) {
        forall k | 0 <= k < n - i ensures ByteOk(m, i + k, u[k]) {
          if k > 0 {
            assert ByteOk(m, i + 1 + (k - 1), v[k - 1]);
          }
        }
        forall k | n - i <= k < |u| ensures u[k] == ' ' {
          assert v[k - 1] == ' ';
        }
      }
      if n - i <= |u| && (forall k :: 0 <= k < n - i ==> ByteOk(m, i + k, u[k]))
        && (forall k :: n - i <= k < |u| ==> u[k] == ' ') {
        assert ByteOk(m, i + 0, u[0]);
        forall k | 0 <= k < n - (i + 1) ensures ByteOk(m, i + 1 + k, v[k]) {
          assert ByteOk(m, i + (k + 1), u[k + 1]);
        }
      }
    }
  }

  lemma AcceptedCases(m: Method, w: string)
    ensures w == [] ==> !Accepted(m, w)
    ensures w != [] && IsLineEnd(w[0]) ==> (Accepted(m, w) <==> Accepted(m, w[1..]))
    ensures w != [] && !IsLineEnd(w[0]) ==> (Accepted(m, w) <==> Fits(m, 0, w))
  {
    hide MethodString, ByteOk, Fits;
    NameLength(m);
    if w != [] && !IsLineEnd(w[0]) {
      FitsAll(m, 0, w);
      assert SkipLineEnds(w) == w;
      assert forall k :: 0 <= k < |w| ==> (ByteOk(m, 0 + k, w[k]) <==> ByteOk(m, k, w[k]));
    }
  }

  lemma {:induction false} FoldWaiting(w: string, m: Method)
    ensures Fold(Waiting, w + " ") == Done(m) <==> Accepted(m, w)
    decreases |w|
  {
    hide MethodString, Candidate, ByteOk, FirstLetter, Accepted, Live;
    var text := w + " ";
    NameLength(m);
    AcceptedCases(m, w);
    if w == [] {
      assert text == " " && text[1..] == [];
    } else {
      var c := w[0];
      assert text[0] == c && text[1..] == w[1..] + " ";
      if IsLineEnd(c) {
        FoldWaiting(w[1..], m);
      } else {
        FirstByte(c, m);
        if Next(Waiting, c).Stopped? {
          FoldStopped(text[1..]);
        } else {
          FoldAt(FirstLetter(c).value, 1, w[1..], m);
        }
      }
    }
  }

  lemma FirstByte(c: char, m: Method)
    requires !IsLineEnd(c)
    ensures var t := Next(Waiting, c);
            if t.At? then
              && t.i == 1 && t.m == FirstLetter(c).value && Live(t)
              && (Candidate(m, 1) == t.m <==> ByteOk(m, 0, c))
            else t.Stopped? && !ByteOk(m, 0, c)
  {
    hide MethodString, Candidate, FirstLetter;
    NameLength(m);
    FirstCandidate(m);
    var d := MethodString(m)[0];
    if FirstLetter(c).Some? {
      FirstLetterOnce(c, c);
      NameLength(FirstLetter(c).value);
      if FirstLetter(c) == FirstLetter(d) {
        FirstLetterOnce(c, d);
      }
    }
  }

  // ---------------------------------------------------------------- the parser accepts the spellings

  /** Up to a blank and before any byte of a URL, the parser takes `w` for method `m` if and only if `w` is an
      accepted spelling of `m`. */
  lemma MethodExact(cb: Callbacks, p: Parser, w: string, m: Method)
    requires p.state.StartReq? && p.errno.OK? && Room(p, |w| + 1)
    ensures var r := Run(cb, p, w + " ");
            (r.count == |w| + 1 && r.p.state.ReqSpacesBeforeUrl? && r.p.verb == m && r.events == [Begin])
            <==> Accepted(m, w)
  {
    hide Run, Fold, Accepted;
    FoldRun(cb, p, Waiting, 0, w + " ");
    FoldWaiting(w, m);
    assert Where(p, Waiting, 0) == p;
  }

  /** The parser after the name of a method and a blank. */
  function AfterMethod(p: Parser, m: Method): Parser {
    Where(p, Done(m), |MethodString(m)| + 1)
  }

  /** Every method of the table, spelled right, is recognised as itself. */
  lemma MethodNameRun(cb: Callbacks, p: Parser, m: Method)
    requires p.state.StartReq? && p.errno.OK? && Room(p, |MethodString(m)| + 1)
    ensures Run(cb, p, MethodString(m) + " ") == Ran(AfterMethod(p, m), [Begin], |MethodString(m)| + 1)
  {
    hide Run, Fold, MethodString;
    var w := MethodString(m);
    NameAccepted(m);
    FoldWaiting(w, m);
    FoldRun(cb, p, Waiting, 0, w + " ");
    assert Where(p, Waiting, 0) == p;
  }

  lemma NameAccepted(m: Method)
    ensures Accepted(m, MethodString(m))
  {
    hide MethodString, FirstLetter, Candidate;
    NameLength(m);
    FirstCandidate(m);
  }

  /** So a method with a wrong third byte, even a blank, passes for GET. */
  lemma MisspelledGet(cb: Callbacks, p: Parser, c: char)
    requires p.state.StartReq? && p.errno.OK? && Room(p, 4) && c != '\0'
    ensures var r := Run(cb, p, ['G', 'E', c] + " ");
            r.count == 4 && r.p.state.ReqSpacesBeforeUrl? && r.p.verb == GET && r.events == [Begin]
  {
    hide Run;
    MethodExact(cb, p, ['G', 'E', c], GET);
  }
}
