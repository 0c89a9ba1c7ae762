/**
 The text of a URL: which byte strings the URL automaton accepts, and where it cuts them, said without the automaton.
 */
module UrlTarget {
  import opened HttpTypes
  import opened HttpSwitch
  import opened HttpUrl

  // ---------------------------------------------------------------- the grammar

  predicate Printable(w: string) {
    forall i :: 0 <= i < |w| ==> '!' <= w[i] <= '~'
  }

  predicate IsServerChar(c: char) {
    'a' <= c <= 'z' || 'A' <= c <= 'Z' || '0' <= c <= '9' || c in "-_.!~*'()%;:&=+$,[]@"
  }

  /** The text between "://" and the path or the query; it is looked at more closely later. */
  predicate IsServer(w: string) {
    && (forall i :: 0 <= i < |w| ==> IsServerChar(w[i]))
    && (forall i :: 0 <= i < |w| - 1 ==> !(w[i] == '@' && w[i + 1] == '@'))
  }

  /** The first slash or question mark, or the length. */
  function ServerEnd(w: string): (n: nat)
    ensures n <= |w| && (n < |w| ==> w[n] == '/' || w[n] == '?')
    ensures forall i :: 0 <= i < n ==> w[i] != '/' && w[i] != '?'
  {
    if w == [] || w[0] == '/' || w[0] == '?' then 0 else 1 + ServerEnd(w[1..])
  }

  predicate IsServerText(w: string) {
    IsServer(w[..ServerEnd(w)]) && Printable(w[ServerEnd(w)..])
  }

  /** The first character that is no letter, or the length. */
  function AlphaEnd(w: string): (n: nat)
    ensures n <= |w| && (n < |w| ==> !IsAlpha(w[n])) && forall i :: 0 <= i < n ==> IsAlpha(w[i])
  {
    if w == [] || !IsAlpha(w[0]) then 0 else 1 + AlphaEnd(w[1..])
  }

  predicate SlashesAt(w: string, k: int) {
    0 <= k && k + 3 < |w| && w[k] == ':' && w[k + 1] == '/' && w[k + 2] == '/'
  }

  /** The target of a request: a path with its query and fragment, or a scheme, "://" and a server text that is
      not empty; for CONNECT, a server text. */
  predicate IsTarget(w: string, connect: bool) {
    && w != []
    && if connect then IsServerText(w)
       else if w[0] == '/' || w[0] == '*' then Printable(w)
       else AlphaEnd(w) > 0 && SlashesAt(w, AlphaEnd(w)) && IsServerText(w[AlphaEnd(w) + 3..])
  }

  // ---------------------------------------------------------------- the automaton on a text

  function StateFrom(s: State, w: string): State
    decreases |w|
  {
    if w == [] then s else StateFrom(ParseUrlChar(s, w[0]), w[1..])
  }

  lemma {:induction false} StateFromConcat(s: State, a: string, b: string)
    ensures StateFrom(s, a + b) == StateFrom(StateFrom(s, a), b)
    decreases |a|
  {
    hide ParseUrlChar;
    if a == [] {
      assert a + b == b;
    } else {
      assert (a + b)[1..] == a[1..] + b;
      StateFromConcat(ParseUrlChar(s, a[0]), a[1..], b);
    }
  }

  lemma StateFromOne(s: State, c: char)
    ensures StateFrom(s, [c]) == ParseUrlChar(s, c)
  {
    hide ParseUrlChar;
    assert [c][1..] == [];
  }

  lemma {:induction false} StateAtIs(buf: string, connect: bool, k: nat)
    requires k <= |buf|
    ensures StateAt(buf, connect, k) == StateFrom(StartOf(connect), buf[..k])
    decreases k
  {
    hide ParseUrlChar;
    if k > 0 {
      StateAtIs(buf, connect, k - 1);
      assert buf[..k] == buf[..k - 1] + [buf[k - 1]];
      StateFromConcat(StartOf(connect), buf[..k - 1], [buf[k - 1]]);
      StateFromOne(StateFrom(StartOf(connect), buf[..k - 1]), buf[k - 1]);
    }
  }

  lemma {:induction false} DeadFrom(w: string)
    ensures StateFrom(Dead, w).Dead?
    decreases |w|
  {
    hide ParseUrlChar;
    if w != [] {
      DeadStaysDead(w[0]);
      DeadFrom(w[1..]);
    }
  }

  // ---------------------------------------------------------------- what is accepted

  /** The states from the path on. */
  predicate InRest(s: State) {
    s.ReqPath? || s.ReqQueryStringStart? || s.ReqQueryString? || s.ReqFragmentStart? || s.ReqFragment?
  }

  predicate InServer(s: State) { s.ReqServerStart? || s.ReqServer? || s.ReqServerWithAt? }

  /** A blank may follow: the URL is not in the middle of its scheme. */
  predicate EndsUrl(s: State) {
    InUrl(s) && !s.ReqSchema? && !s.ReqSchemaSlash? && !s.ReqSchemaSlashSlash? && !s.ReqServerStart?
  }

  lemma RestChar(s: State, c: char)
    requires InRest(s)
    ensures if '!' <= c <= '~' then InRest(ParseUrlChar(s, c)) else ParseUrlChar(s, c).Dead?
  {
  }

  lemma {:induction false} RestAccepts(s: State, w: string)
    requires InRest(s)
    ensures if Printable(w) then InRest(StateFrom(s, w)) else StateFrom(s, w).Dead?
    decreases |w|
  {
    hide ParseUrlChar, InRest;
    if w != [] {
      RestChar(s, w[0]);
      if '!' <= w[0] <= '~' {
        RestAccepts(ParseUrlChar(s, w[0]), w[1..]);
        assert Printable(w) <==> Printable(w[1..]) by {
          assert forall i :: 0 < i < |w| ==> w[i] == w[1..][i - 1];
        }
      } else {
        DeadFrom(w[1..]);
      }
    }
  }

  lemma ServerChar1(s: State, c: char)
    requires InServer(s)
    ensures var t := ParseUrlChar(s, c);
            if c == '/' then t.ReqPath?
            else if c == '?' then t.ReqQueryStringStart?
            else if c == '@' then (if s.ReqServerWithAt? then t.Dead? else t.ReqServerWithAt?)
            else if IsServerChar(c) then t.ReqServer?
            else t.Dead?
  {
  }

  /** One character more in front of a server text. */
  lemma ServerTextStep(w: string)
    requires w != []
    ensures IsServerText(w) <==>
            if w[0] == '/' || w[0] == '?' then Printable(w)
            else IsServerChar(w[0]) && IsServerText(w[1..]) && !(|w| > 1 && w[0] == '@' && w[1] == '@')
  {
    hide IsServerChar;
    if w[0] == '/' || w[0] == '?' {
      assert w[..0] == [] && w[0..] == w;
    } else {
      var r := w[1..];
      var n := ServerEnd(r);
      var a, b := w[..n + 1], r[..n];
      assert ServerEnd(w) == n + 1 && w[n + 1..] == r[n..];
      assert a == [w[0]] + b;
      assert |w| > 1 && w[1] == '@' ==> n >= 1;
      ServerStep(w[0], b);
      assert b != [] ==> b[0] == w[1];
    }
  }

  lemma ServerStep(c: char, b: string)
    ensures IsServer([c] + b) <==> IsServerChar(c) && IsServer(b) && !(b != [] && c == '@' && b[0] == '@')
  {
    hide IsServerChar;
    var a := [c] + b;
    assert a[0] == c && forall i :: 0 <= i < |b| ==> a[i + 1] == b[i];
    if IsServer(a) {
      forall i | 0 <= i < |b| ensures IsServerChar(b[i]) {
        assert IsServerChar(a[i + 1]);
      }
      forall i | 0 <= i < |b| - 1 ensures !(b[i] == '@' && b[i + 1] == '@') {
        assert !(a[i + 1] == '@' && a[i + 2] == '@');
      }
    }
    if IsServerChar(c) && IsServer(b) && !(b != [] && c == '@' && b[0] == '@') {
      forall i | 0 <= i < |a| ensures IsServerChar(a[i]) {
        assert i > 0 ==> IsServerChar(b[i - 1]);
      }
      forall i | 0 <= i < |a| - 1 ensures !(a[i] == '@' && a[i + 1] == '@') {
        assert i > 0 ==> !(b[i - 1] == '@' && b[i] == '@');
      }
    }
  }

  lemma {:induction false} ServerAccepts(s: State, w: string)
    requires InServer(s)
    ensures var t := StateFrom(s, w);
            if IsServerText(w) && !(s.ReqServerWithAt? && w != [] && w[0] == '@')
            then (if w == [] then t == s else EndsUrl(t)) else t.Dead?
    decreases |w|
  {
    hide ParseUrlChar, IsServerText, Printable;
    if w == [] {
      EmptyServerText();
    } else {
      ServerTextStep(w);
      ServerChar1(s, w[0]);
      var t, r := ParseUrlChar(s, w[0]), w[1..];
      if w[0] == '/' || w[0] == '?' {
        RestAccepts(t, r);
        PrintableStep(w);
      } else if t.Dead? {
        DeadFrom(r);
      } else {
        ServerAccepts(t, r);
      }
    }
  }

  lemma EmptyServerText()
    ensures IsServerText([])
  {
  }

  lemma PrintableStep(w: string)
    requires w != []
    ensures Printable(w) <==> '!' <= w[0] <= '~' && Printable(w[1..])
  {
    assert forall i :: 0 < i < |w| ==> w[i] == w[1..][i - 1];
  }

  lemma SchemeChar(c: char)
    ensures ParseUrlChar(ReqSchema, c) == if IsAlpha(c) then ReqSchema else if c == ':' then ReqSchemaSlash else Dead
    ensures ParseUrlChar(ReqSchemaSlash, c) == if c == '/' then ReqSchemaSlashSlash else Dead
    ensures ParseUrlChar(ReqSchemaSlashSlash, c) == if c == '/' then ReqServerStart else Dead
    ensures ParseUrlChar(ReqSpacesBeforeUrl, c) ==
            if c == '/' || c == '*' then ReqPath else if IsAlpha(c) then ReqSchema else Dead
  {
  }

  /** One character further. */
  lemma StateFromStep(s: State, w: string, t: State)
    requires w != [] && ParseUrlChar(s, w[0]) == t
    ensures StateFrom(s, w) == StateFrom(t, w[1..])
    ensures t.Dead? ==> StateFrom(s, w).Dead?
  {
    hide ParseUrlChar;
    if t.Dead? {
      DeadFrom(w[1..]);
    }
  }

  /** After the colon and a slash. */
  lemma SecondSlash(w: string)
    ensures EndsUrl(StateFrom(ReqSchemaSlashSlash, w)) <==> |w| > 1 && w[0] == '/' && IsServerText(w[1..])
  {
    hide ParseUrlChar, IsServerText;
    if w != [] {
      SchemeChar(w[0]);
      StateFromStep(ReqSchemaSlashSlash, w, if w[0] == '/' then ReqServerStart else Dead);
      if w[0] == '/' {
        ServerAccepts(ReqServerStart, w[1..]);
      }
    }
  }

  /** After the letters of a scheme. */
  lemma SlashesAccept(w: string)
    requires w == [] || !IsAlpha(w[0])
    ensures EndsUrl(StateFrom(ReqSchema, w)) <==> SlashesAt(w, 0) && IsServerText(w[3..])
  {
    hide ParseUrlChar, IsServerText;
    if w != [] {
      SchemeChar(w[0]);
      StateFromStep(ReqSchema, w, if w[0] == ':' then ReqSchemaSlash else Dead);
      var w1 := w[1..];
      if w[0] == ':' && w1 != [] {
        SchemeChar(w1[0]);
        StateFromStep(ReqSchemaSlash, w1, if w1[0] == '/' then ReqSchemaSlashSlash else Dead);
        SecondSlash(w1[1..]);
        if |w| > 2 {
          assert w1[1..][1..] == w[3..];
        }
      }
    }
  }

  lemma {:induction false} SchemeAccepts(w: string)
    ensures EndsUrl(StateFrom(ReqSchema, w)) <==>
            SlashesAt(w, AlphaEnd(w)) && IsServerText(w[AlphaEnd(w) + 3..])
    decreases |w|
  {
    hide ParseUrlChar, IsServerText, EndsUrl;
    if w == [] || !IsAlpha(w[0]) {
      SlashesAccept(w);
    } else {
      SchemeChar(w[0]);
      SchemeAccepts(w[1..]);
      var k := AlphaEnd(w[1..]);
      assert SlashesAt(w, k + 1) <==> SlashesAt(w[1..], k);
      if SlashesAt(w, k + 1) {
        assert w[1..][k + 3..] == w[k + 4..];
      }
    }
  }

  /** The automaton accepts a text as the target of a request if and only if it is one. */
  lemma TargetExactly(w: string, connect: bool)
    requires w != []
    ensures EndsUrl(StateAt(w, connect, |w|)) <==> IsTarget(w, connect)
  {
    hide ParseUrlChar, IsServerText, Printable, AlphaEnd;
    StateAtIs(w, connect, |w|);
    assert w[..|w|] == w;
    if connect {
      ServerAccepts(ReqServerStart, w);
    } else {
      SchemeChar(w[0]);
      if w[0] == '/' || w[0] == '*' {
        RestAccepts(ReqPath, w[1..]);
        PrintableStep(w);
      } else if IsAlpha(w[0]) {
        SchemeAccepts(w[1..]);
        SchemeStep(w);
      } else {
        DeadFrom(w[1..]);
        NoScheme(w);
      }
    }
  }

  lemma SchemeStep(w: string)
    requires w != [] && IsAlpha(w[0])
    ensures var k := AlphaEnd(w[1..]);
            && AlphaEnd(w) == k + 1 && (SlashesAt(w, k + 1) <==> SlashesAt(w[1..], k))
            && (SlashesAt(w, k + 1) ==> w[1..][k + 3..] == w[k + 4..])
  {
  }

  lemma NoScheme(w: string)
    requires w != [] && !IsAlpha(w[0])
    ensures AlphaEnd(w) == 0
  {
  }
}
