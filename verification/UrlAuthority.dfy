/**
 The authority of a URL: which texts are accepted as userinfo, host and port, and where they are cut, said without
 the automaton that reads it.
 */
module UrlAuthority {
  import opened HttpTypes
  import opened HttpUrl
  import opened UrlTarget
  import opened UrlCuts
  import Uri

  // ---------------------------------------------------------------- the grammar

  predicate IsUserinfoByte(c: char) { IsServerChar(c) && c != '@' && c != '[' && c != ']' }

  predicate IsNameByte(c: char) { 'a' <= c <= 'z' || 'A' <= c <= 'Z' || '0' <= c <= '9' || c == '.' || c == '-' }

  predicate AreUserinfo(w: string) { forall i :: 0 <= i < |w| ==> IsUserinfoByte(w[i]) }

  predicate AreName(w: string) { forall i :: 0 <= i < |w| ==> IsNameByte(w[i]) }

  predicate AreV6(w: string) { forall i :: 0 <= i < |w| ==> IsHex(w[i]) || w[i] == ':' }

  /** Nothing, or a colon and digits. */
  predicate IsPortTail(w: string) {
    w == [] || (|w| > 1 && w[0] == ':' && AllDigits(w[1..]))
  }

  /** An address in brackets or a name, with or without a port. */
  predicate IsHostPort(w: string) {
    if w != [] && w[0] == '[' then
      var n := Uri.Index(w, ']');
      1 < n < |w| && AreV6(w[1..n]) && IsPortTail(w[n + 1..])
    else
      var n := Uri.Index(w, ':');
      0 < n && AreName(w[..n]) && IsPortTail(w[n..])
  }

  /** Host and port, behind the first at sign if there is one; what is in front of it is the userinfo. */
  predicate IsAuthority(w: string) {
    if '@' in w then
      var n := Uri.Index(w, '@');
      n < |w| && AreUserinfo(w[..n]) && IsHostPort(w[n + 1..])
    else IsHostPort(w)
  }

  // ---------------------------------------------------------------- the automaton on a text

  function HostFrom(s: HostState, w: string): HostState
    decreases |w|
  {
    if w == [] then s else HostFrom(ParseHostChar(s, w[0]), w[1..])
  }

  lemma {:induction false} HostFromSnoc(s: HostState, w: string, c: char)
    ensures HostFrom(s, w + [c]) == ParseHostChar(HostFrom(s, w), c)
    decreases |w|
  {
    hide ParseHostChar;
    if w == [] {
      assert ([c])[1..] == [] && w + [c] == [c];
    } else {
      assert (w + [c])[1..] == w[1..] + [c];
      HostFromSnoc(ParseHostChar(s, w[0]), w[1..], c);
    }
  }

  lemma {:induction false} HostStateAtIs(w: string, foundAt: bool, k: nat)
    requires k <= |w|
    ensures HostStateAt(w, foundAt, k) == HostFrom(if foundAt then UserinfoStart else HostStart, w[..k])
    decreases k
  {
    hide ParseHostChar;
    if k > 0 {
      HostStateAtIs(w, foundAt, k - 1);
      assert w[..k] == w[..k - 1] + [w[k - 1]];
      HostFromSnoc(if foundAt then UserinfoStart else HostStart, w[..k - 1], w[k - 1]);
    }
  }

  lemma {:induction false} HostDeadFrom(w: string)
    ensures HostFrom(HostDead, w).HostDead?
    decreases |w|
  {
    hide ParseHostChar;
    if w != [] {
      HostCharAdvances(HostDead, w[0]);
      HostDeadFrom(w[1..]);
    }
  }

  /** One character further. */
  lemma HostFromStep(s: HostState, w: string, t: HostState)
    requires w != [] && ParseHostChar(s, w[0]) == t
    ensures HostFrom(s, w) == HostFrom(t, w[1..])
    ensures t.HostDead? ==> !HostEnds(HostFrom(s, w))
  {
    hide ParseHostChar;
    if t.HostDead? {
      HostDeadFrom(w[1..]);
    }
  }

  // ---------------------------------------------------------------- what is accepted

  lemma {:induction false} PortAccepts(s: HostState, w: string)
    requires s.PortStart? || s.InPort?
    ensures HostEnds(HostFrom(s, w)) <==> AllDigits(w) && (w != [] || s.InPort?)
    decreases |w|
  {
    if w != [] {
      var t := if IsNum(w[0]) then InPort else HostDead;
      HostFromStep(s, w, t);
      assert AllDigits(w) <==> IsNum(w[0]) && AllDigits(w[1..]) by {
        assert forall i :: 0 < i < |w| ==> w[i] == w[1..][i - 1];
      }
      if IsNum(w[0]) {
        PortAccepts(InPort, w[1..]);
      }
    }
  }

  /** After the closing bracket, or where a name ends. */
  lemma TailAccepts(s: HostState, w: string)
    requires s.V6End? || (s.InHost? && (w == [] || !IsNameByte(w[0])))
    ensures HostEnds(HostFrom(s, w)) <==> IsPortTail(w)
  {
    if w != [] {
      HostFromStep(s, w, if w[0] == ':' then PortStart else HostDead);
      if w[0] == ':' {
        PortAccepts(PortStart, w[1..]);
      }
    }
  }

  predicate NameTail(w: string) {
    AreName(w[..Uri.Index(w, ':')]) && IsPortTail(w[Uri.Index(w, ':')..])
  }

  lemma NameTailStep(w: string)
    requires w != []
    ensures NameTail(w) <==> if IsNameByte(w[0]) then NameTail(w[1..]) else IsPortTail(w)
  {
    hide IsPortTail;
    var n := Uri.Index(w, ':');
    if w[0] == ':' {
      assert w[..0] == [] && w[0..] == w;
    } else {
      var r, m := w[1..], Uri.Index(w[1..], ':');
      assert n == m + 1 && w[n..] == r[m..] && w[..n] == [w[0]] + r[..m];
      assert AreName(w[..n]) <==> IsNameByte(w[0]) && AreName(r[..m]) by {
        assert w[..n][0] == w[0];
        assert forall i :: 0 <= i < m ==> r[..m][i] == w[..n][i + 1];
        assert forall i :: 0 < i < n ==> w[..n][i] == r[..m][i - 1];
      }
      if !IsNameByte(w[0]) {
        NoPortTail(w);
      }
    }
  }

  lemma NoPortTail(w: string)
    requires w != [] && w[0] != ':'
    ensures !IsPortTail(w)
  {
  }

  lemma EmptyNameTail()
    ensures NameTail([])
  {
  }

  lemma {:induction false} NameAccepts(w: string)
    ensures HostEnds(HostFrom(InHost, w)) <==> NameTail(w)
    decreases |w|
  {
    hide NameTail, IsPortTail;
    if w == [] {
      EmptyNameTail();
    } else {
      NameTailStep(w);
      if IsNameByte(w[0]) {
        HostFromStep(InHost, w, InHost);
        NameAccepts(w[1..]);
      } else {
        TailAccepts(InHost, w);
      }
    }
  }

  predicate V6Tail(w: string) {
    var n := Uri.Index(w, ']');
    n < |w| && AreV6(w[..n]) && IsPortTail(w[n + 1..])
  }

  lemma V6TailStep(w: string)
    requires w != []
    ensures V6Tail(w) <==>
            if w[0] == ']' then IsPortTail(w[1..]) else (IsHex(w[0]) || w[0] == ':') && V6Tail(w[1..])
  {
    hide IsPortTail, IsHex;
    var n := Uri.Index(w, ']');
    if w[0] != ']' {
      var r, m := w[1..], Uri.Index(w[1..], ']');
      assert n == m + 1 && w[..n] == [w[0]] + r[..m];
      assert n < |w| ==> w[n + 1..] == r[m + 1..];
      assert AreV6(w[..n]) <==> (IsHex(w[0]) || w[0] == ':') && AreV6(r[..m]) by {
        assert w[..n][0] == w[0];
        assert forall i :: 0 <= i < m ==> r[..m][i] == w[..n][i + 1];
        assert forall i :: 0 < i < n ==> w[..n][i] == r[..m][i - 1];
      }
    }
  }

  lemma V6Char(s: HostState, c: char)
    requires s.InV6? || s.V6Start?
    ensures ParseHostChar(s, c) ==
            if s.InV6? && c == ']' then V6End else if IsHex(c) || c == ':' then InV6 else HostDead
  {
  }

  lemma {:induction false} V6Accepts(w: string)
    ensures HostEnds(HostFrom(InV6, w)) <==> V6Tail(w)
    decreases |w|
  {
    hide V6Tail, IsPortTail, ParseHostChar, IsHex;
    if w == [] {
      NoV6Tail();
    } else {
      V6TailStep(w);
      V6Char(InV6, w[0]);
      HostFromStep(InV6, w, ParseHostChar(InV6, w[0]));
      if w[0] == ']' {
        TailAccepts(V6End, w[1..]);
      } else if IsHex(w[0]) || w[0] == ':' {
        V6Accepts(w[1..]);
      }
    }
  }

  lemma NoV6Tail()
    ensures !V6Tail([])
  {
  }

  /** Behind the opening bracket. */
  lemma BracketAccepts(w: string)
    ensures HostEnds(HostFrom(V6Start, w)) <==> w != [] && w[0] != ']' && V6Tail(w)
  {
    hide V6Tail, IsPortTail, ParseHostChar;
    if w != [] {
      V6TailStep(w);
      V6Char(V6Start, w[0]);
      HostFromStep(V6Start, w, ParseHostChar(V6Start, w[0]));
      if IsHex(w[0]) || w[0] == ':' {
        V6Accepts(w[1..]);
      }
    }
  }

  lemma HostPortAccepts(w: string)
    ensures HostEnds(HostFrom(HostStart, w)) <==> IsHostPort(w)
  {
    hide V6Tail, NameTail, IsPortTail;
    if w == [] {
    } else if w[0] == '[' {
      HostFromStep(HostStart, w, V6Start);
      BracketAccepts(w[1..]);
      BracketText(w);
    } else if IsNameByte(w[0]) {
      HostFromStep(HostStart, w, InHost);
      NameAccepts(w[1..]);
      NameTailStep(w);
      NameText(w);
    } else {
      HostFromStep(HostStart, w, HostDead);
      NoName(w);
    }
  }

  lemma BracketText(w: string)
    requires w != [] && w[0] == '['
    ensures IsHostPort(w) <==> |w| > 1 && w[1] != ']' && V6Tail(w[1..])
  {
    hide IsPortTail, AreV6;
    var r, m, n := w[1..], Uri.Index(w[1..], ']'), Uri.Index(w, ']');
    assert n == m + 1 && w[1..n] == r[..m];
    assert n < |w| ==> w[n + 1..] == r[m + 1..];
    assert r != [] ==> (m == 0 <==> r[0] == ']');
  }

  lemma NameText(w: string)
    requires w != [] && IsNameByte(w[0])
    ensures IsHostPort(w) <==> NameTail(w)
  {
  }

  lemma NoName(w: string)
    requires w != [] && w[0] != '[' && !IsNameByte(w[0])
    ensures !IsHostPort(w)
  {
    var n := Uri.Index(w, ':');
    if n > 0 {
      assert w[..n][0] == w[0];
    }
  }

  predicate UserinfoTail(w: string) {
    var n := Uri.Index(w, '@');
    n < |w| && AreUserinfo(w[..n]) && IsHostPort(w[n + 1..])
  }

  lemma UserinfoTailStep(w: string)
    requires w != []
    ensures UserinfoTail(w) <==>
            if w[0] == '@' then IsHostPort(w[1..]) else IsUserinfoByte(w[0]) && UserinfoTail(w[1..])
  {
    hide IsHostPort, IsUserinfoByte;
    var n := Uri.Index(w, '@');
    if w[0] != '@' {
      var r, m := w[1..], Uri.Index(w[1..], '@');
      assert n == m + 1 && w[..n] == [w[0]] + r[..m];
      assert n < |w| ==> w[n + 1..] == r[m + 1..];
      assert AreUserinfo(w[..n]) <==> IsUserinfoByte(w[0]) && AreUserinfo(r[..m]) by {
        assert w[..n][0] == w[0];
        assert forall i :: 0 <= i < m ==> r[..m][i] == w[..n][i + 1];
        assert forall i :: 0 < i < n ==> w[..n][i] == r[..m][i - 1];
      }
    }
  }

  lemma UserinfoChar(s: HostState, c: char)
    requires s.UserinfoStart? || s.InUserinfo?
    ensures ParseHostChar(s, c) == if c == '@' then HostStart else if IsUserinfoByte(c) then InUserinfo else HostDead
  {
  }

  lemma {:induction false} UserinfoAccepts(s: HostState, w: string)
    requires s.UserinfoStart? || s.InUserinfo?
    ensures HostEnds(HostFrom(s, w)) <==> UserinfoTail(w)
    decreases |w|
  {
    hide UserinfoTail, IsHostPort, ParseHostChar, IsUserinfoByte;
    if w == [] {
      NoUserinfoTail();
    } else {
      UserinfoTailStep(w);
      UserinfoChar(s, w[0]);
      HostFromStep(s, w, ParseHostChar(s, w[0]));
      if w[0] == '@' {
        HostPortAccepts(w[1..]);
      } else if IsUserinfoByte(w[0]) {
        UserinfoAccepts(InUserinfo, w[1..]);
      }
    }
  }

  lemma NoUserinfoTail()
    ensures !UserinfoTail([])
  {
  }

  /** The automaton accepts an authority if and only if it is one. */
  lemma AuthorityExactly(w: string)
    ensures HostEnds(HostStateAt(w, '@' in w, |w|)) <==> IsAuthority(w)
  {
    hide IsHostPort, ParseHostChar, AreUserinfo;
    HostStateAtIs(w, '@' in w, |w|);
    assert w[..|w|] == w;
    if '@' in w {
      UserinfoAccepts(UserinfoStart, w);
    } else {
      HostPortAccepts(w);
    }
  }

  // ---------------------------------------------------------------- where it is cut

  /** Where the userinfo ends, the host starts and ends, and the port starts. */
  datatype HostCuts = HostCuts(user: nat, lo: nat, hi: nat, port: nat)

  /** Where the host and its bracket start: behind the at sign. */
  function HostAt(w: string): (n: nat)
    ensures n <= |w|
  {
    if '@' in w && Uri.Index(w, '@') < |w| then Uri.Index(w, '@') + 1 else 0
  }

  predicate Bracketed(w: string) { HostAt(w) < |w| && w[HostAt(w)] == '[' }

  function HostCutsOf(w: string): HostCuts {
    var start := HostAt(w);
    var user := if start > 0 then start - 1 else 0;
    if Bracketed(w) then
      var hi := start + Uri.Index(w[start..], ']');
      HostCuts(user, start + 1, hi, if hi + 1 < |w| then hi + 2 else |w|)
    else
      var hi := start + Uri.Index(w[start..], ':');
      HostCuts(user, start, hi, if hi < |w| then hi + 1 else |w|)
  }

  /** What an authority looks like around its cuts. */
  predicate AuthorityShaped(c: HostCuts, w: string) {
    && HostAt(w) <= c.lo < c.hi <= c.port <= |w| && c.user <= HostAt(w)
    && (HostAt(w) > 0 ==> c.user == HostAt(w) - 1 && w[c.user] == '@' && '@' in w)
    && (HostAt(w) == 0 ==> c.user == 0 && '@' !in w)
    && (forall k :: 0 <= k < c.user ==> IsUserinfoByte(w[k]) && w[k] != '@')
    && (forall k :: c.port <= k < |w| ==> IsNum(w[k]))
    && if Bracketed(w) then
         && c.lo == HostAt(w) + 1 && c.hi < |w| && w[c.hi] == ']'
         && (forall k :: c.lo <= k < c.hi ==> (IsHex(w[k]) || w[k] == ':') && w[k] != ']')
         && (if c.hi + 1 == |w| then c.port == |w| else w[c.hi + 1] == ':' && c.port == c.hi + 2 < |w|)
       else
         && c.lo == HostAt(w)
         && (forall k :: c.lo <= k < c.hi ==> IsNameByte(w[k]))
         && (if c.hi == |w| then c.port == |w| else w[c.hi] == ':' && c.port == c.hi + 1 < |w|)
  }

  lemma PortTailAt(w: string, e: nat)
    requires e <= |w| && IsPortTail(w[e..])
    ensures e < |w| ==> w[e] == ':' && e + 1 < |w| && forall k :: e + 1 <= k < |w| ==> IsNum(w[k])
  {
    var t := w[e..];
    if e < |w| {
      assert forall k :: e + 1 <= k < |w| ==> w[k] == t[1..][k - e - 1];
    }
  }

  lemma UserinfoShaped(w: string)
    requires IsAuthority(w)
    ensures IsHostPort(w[HostAt(w)..])
    ensures HostAt(w) > 0 ==> w[HostAt(w) - 1] == '@' && '@' in w
    ensures HostAt(w) == 0 ==> '@' !in w
    ensures forall k :: 0 <= k < HostAt(w) - 1 ==> IsUserinfoByte(w[k]) && w[k] != '@'
  {
    hide IsHostPort, IsUserinfoByte;
    if '@' in w {
      var n := Uri.Index(w, '@');
      assert forall k :: 0 <= k < n ==> w[k] == w[..n][k];
    } else {
      assert w[0..] == w;
    }
  }

  lemma BracketShaped(w: string, start: nat)
    requires start < |w| && w[start] == '[' && IsHostPort(w[start..])
    ensures var hi := start + Uri.Index(w[start..], ']');
            && start + 1 < hi < |w| && w[hi] == ']'
            && (forall k :: start + 1 <= k < hi ==> (IsHex(w[k]) || w[k] == ':') && w[k] != ']')
            && IsPortTail(w[hi + 1..])
  {
    hide IsPortTail, IsHex;
    var t, n := w[start..], Uri.Index(w[start..], ']');
    assert t[n + 1..] == w[start + n + 1..];
    assert forall k :: start + 1 <= k < start + n ==> w[k] == t[k - start] == t[1..n][k - start - 1];
  }

  lemma NameShaped(w: string, start: nat)
    requires start <= |w| && (start < |w| ==> w[start] != '[') && IsHostPort(w[start..])
    ensures var hi := start + Uri.Index(w[start..], ':');
            && start < hi <= |w| && IsPortTail(w[hi..])
            && (forall k :: start <= k < hi ==> IsNameByte(w[k]))
  {
    hide IsPortTail, IsNameByte;
    var t, n := w[start..], Uri.Index(w[start..], ':');
    assert t[n..] == w[start + n..];
    assert forall k :: start <= k < start + n ==> w[k] == t[k - start] == t[..n][k - start];
  }

  lemma AuthorityIsShaped(w: string)
    requires IsAuthority(w)
    ensures AuthorityShaped(HostCutsOf(w), w)
  {
    hide IsAuthority, IsHostPort, IsPortTail, HostAt, IsUserinfoByte, IsNameByte, IsHex, Uri.Index;
    UserinfoShaped(w);
    var start := HostAt(w);
    if Bracketed(w) {
      BracketShaped(w, start);
      PortTailAt(w, HostCutsOf(w).hi + 1);
    } else {
      NameShaped(w, start);
      PortTailAt(w, HostCutsOf(w).hi);
    }
  }

  /** The state after k bytes of the authority. */
  function HostStateBy(c: HostCuts, w: string, k: nat): HostState
    requires k <= |w|
  {
    if k == 0 then (if '@' in w then UserinfoStart else HostStart)
    else if k <= c.user then InUserinfo
    else if k == HostAt(w) then HostStart
    else if k <= c.lo then V6Start
    else if k <= c.hi then (if Bracketed(w) then InV6 else InHost)
    else if k == c.hi + 1 && Bracketed(w) then V6End
    else if k <= c.port then PortStart
    else InPort
  }

  lemma HostStateStep(c: HostCuts, w: string, k: nat)
    requires k < |w| && AuthorityShaped(c, w)
    ensures ParseHostChar(HostStateBy(c, w, k), w[k]) == HostStateBy(c, w, k + 1)
  {
    hide HostAt, IsUserinfoByte, IsUserinfoChar, IsServerChar;
    if k < HostAt(w) {
      hide ParseHostChar;
      UserinfoChar(HostStateBy(c, w, k), w[k]);
    }
  }

  lemma {:induction false} HostStateIsBy(c: HostCuts, w: string, k: nat)
    requires k <= |w| && AuthorityShaped(c, w)
    ensures HostStateAt(w, '@' in w, k) == HostStateBy(c, w, k)
    decreases k
  {
    hide ParseHostChar, AuthorityShaped;
    if k > 0 {
      HostStateIsBy(c, w, k - 1);
      HostStateStep(c, w, k - 1);
    }
  }

  function HostLo(c: HostCuts, f: UrlField): nat {
    if f.Userinfo? then 0 else if f.Host? then c.lo else c.port
  }

  function HostHi(c: HostCuts, f: UrlField, n: nat): nat {
    if f.Userinfo? then c.user else if f.Host? then c.hi else n
  }

  lemma HostFieldBy(c: HostCuts, w: string, k: nat, f: UrlField)
    requires k < |w| && Divided(f) && AuthorityShaped(c, w)
    ensures HostFieldOf(HostStateBy(c, w, k + 1)) == Some(f) <==> HostLo(c, f) <= k < HostHi(c, f, |w|)
  {
    hide HostAt, IsUserinfoByte, IsNameByte, IsHex, IsNum;
  }

  lemma HoldsHostPiece(fields: map<UrlField, Span>, w: string, foundAt: bool, base: nat, f: UrlField, lo: nat, hi: nat)
    requires HoldsHost(fields, w, foundAt, base, f, |w|) && hi <= |w|
    requires f in fields && lo >= hi ==> fields[f].len > 0
    requires forall k :: 0 <= k < |w| ==> (HostLabelAt(w, foundAt, k) == Some(f) <==> lo <= k < hi)
    ensures Piece(fields, f, base + lo, base + hi)
  {
    hide HostLabelAt, HostStateAt;
    if lo < hi {
      assert HostLabelAt(w, foundAt, lo) == Some(f);
    }
    if f in fields {
      var sp := fields[f];
      assert lo < hi ==> Within(sp, base + lo);
      forall k | 0 <= k < base + |w| ensures Within(sp, k) <==> base + lo <= k < base + hi {
        if base <= k {
          assert Within(sp, base + (k - base)) <==> HostLabelAt(w, foundAt, k - base) == Some(f);
        }
      }
      SpanIs(sp, base + lo, base + hi, base + |w|);
    }
  }

  /** Userinfo, host and port are the texts between the cuts of the authority. */
  lemma AuthorityBy(fields: map<UrlField, Span>, others: map<UrlField, Span>, w: string, base: nat, f: UrlField)
    requires IsAuthority(w) && HostSoFar(fields, others, w, '@' in w, base, |w|) && Divided(f)
    ensures var c := HostCutsOf(w); Piece(fields, f, base + HostLo(c, f), base + HostHi(c, f, |w|))
  {
    hide HostStateAt, HostStateBy, HostCutsOf, AuthorityShaped, IsAuthority, HostFieldOf, HoldsHost;
    var c := HostCutsOf(w);
    AuthorityIsShaped(w);
    HostCutsOrdered(c, w);
    forall k | 0 <= k < |w|
      ensures HostLabelAt(w, '@' in w, k) == Some(f) <==> HostLo(c, f) <= k < HostHi(c, f, |w|)
    {
      HostStateIsBy(c, w, k + 1);
      HostFieldBy(c, w, k, f);
    }
    HoldsHostPiece(fields, w, '@' in w, base, f, HostLo(c, f), HostHi(c, f, |w|));
  }

  lemma HostCutsOrdered(c: HostCuts, w: string)
    requires AuthorityShaped(c, w)
    ensures c.user <= c.lo < c.hi <= c.port <= |w|
  {
  }
}
