/**
 A URL composed of its parts is accepted, and is cut into the parts it was composed of.
 */
module UrlCompose {
  import opened HttpTypes
  import opened HttpNumbers
  import opened HttpUrl
  import opened UrlTarget
  import opened UrlCuts
  import opened UrlAuthority
  import opened UrlGrammar
  import Uri

  predicate IsPathText(p: string) { Printable(p) && Uri.Free(p, '?') && Uri.Free(p, '#') }

  predicate IsQueryText(q: string) { Printable(q) && Uri.Free(q, '#') }

  predicate IsFragmentText(f: string) { Printable(f) && (f != [] ==> f[0] != '#') }

  function Rest(p: string, q: string, f: string): string { p + "?" + q + "#" + f }

  function RestCuts(scheme: nat, server: nat, tail: nat, p: string, q: string): Cuts {
    Cuts(scheme, server, tail, tail + |p|, tail + |p| + 1 + |q|, tail + |p| + 1 + |q| + 1)
  }

  lemma QuestionMark(p: string, q: string)
    requires Uri.Free(p, '?')
    ensures Uri.Index(p + "?" + q, '?') == |p|
  {
    var w := p + "?" + q;
    assert w[|p|] == '?' && forall i :: 0 <= i < |p| ==> w[i] == p[i];
    Uri.IndexUnique(w, '?', |p|);
  }

  lemma FirstHash(w: string, f: string)
    requires Uri.Free(w, '#')
    ensures Uri.Index(w + "#" + f, '#') == |w|
  {
    var v := w + "#" + f;
    assert v[|w|] == '#' && forall i :: 0 <= i < |w| ==> v[i] == w[i];
    Uri.IndexUnique(v, '#', |w|);
  }

  lemma LastHash(w: string, f: string)
    requires f != [] ==> f[0] != '#'
    ensures HashEnd(w + "#" + f, |w|) == |w| + 1
  {
    var v := w + "#" + f;
    assert v[|w|] == '#' && (f != [] ==> v[|w| + 1] == f[0]);
    assert HashEnd(v, |w| + 1) == |w| + 1;
  }

  lemma PathQueryFree(p: string, q: string)
    requires Uri.Free(p, '#') && Uri.Free(q, '#')
    ensures Uri.Free(p + "?" + q, '#')
  {
  }

  /** The first hash sign, the first question mark in front of it, and the end of the hash signs. */
  lemma RestSearched(front: string, p: string, q: string, f: string)
    requires IsPathText(p) && IsQueryText(q) && IsFragmentText(f)
    ensures var buf := front + Rest(p, q, f);
            var c := RestCuts(0, 0, |front|, p, q);
            && buf[c.tail..] == Rest(p, q, f) && c.hash < |buf|
            && HashAt(buf, c.tail) == c.hash && QueryAt(buf, c.tail) == c.query && HashEnd(buf, c.hash) == c.fragment
  {
    hide Uri.Index, HashEnd, Uri.Free, Printable;
    var w := p + "?" + q;
    var buf := front + Rest(p, q, f);
    PathQueryFree(p, q);
    FirstHash(w, f);
    QuestionMark(p, q);
    LastHash(front + w, f);
    assert buf == front + w + "#" + f;
    assert buf[|front|..] == w + "#" + f && buf[|front|..|front| + |w|] == w;
  }

  lemma RestPrintable(p: string, q: string, f: string)
    requires Printable(p) && Printable(q) && Printable(f)
    ensures Printable(Rest(p, q, f))
  {
  }

  /** Without a scheme. */
  lemma OriginComposed(p: string, q: string, f: string)
    requires IsPathText(p) && IsQueryText(q) && IsFragmentText(f) && p != [] && (p[0] == '/' || p[0] == '*')
    ensures var buf := Rest(p, q, f);
            IsTarget(buf, false) && IsUrlText(buf, false) && CutsOf(buf, false) == RestCuts(0, 0, 0, p, q)
  {
    hide Printable, Rest, HashEnd, HashAt, QueryAt, Uri.Free;
    var buf := Rest(p, q, f);
    RestPrintable(p, q, f);
    RestStarts(p, q, f);
    assert OriginForm(buf, false);
    RestSearched([], p, q, f);
    assert [] + buf == buf;
  }

  lemma RestStarts(p: string, q: string, f: string)
    ensures Rest(p, q, f) != [] && Rest(p, q, f)[0] == if p == [] then '?' else p[0]
  {
  }

  // ---------------------------------------------------------------- with a scheme

  predicate AllAlpha(w: string) { forall i :: 0 <= i < |w| ==> IsAlpha(w[i]) }

  lemma AlphaEndUnique(w: string, n: nat)
    requires n < |w| && !IsAlpha(w[n]) && forall i :: 0 <= i < n ==> IsAlpha(w[i])
    ensures AlphaEnd(w) == n
  {
  }

  lemma ServerEndUnique(w: string, n: nat)
    requires n < |w| && (w[n] == '/' || w[n] == '?') && forall i :: 0 <= i < n ==> w[i] != '/' && w[i] != '?'
    ensures ServerEnd(w) == n
  {
  }

  lemma CharsAreServer(c: char)
    ensures IsNameByte(c) || IsHex(c) || IsNum(c) || c == ':' || c == '[' || c == ']' || IsUserinfoByte(c) ==>
              IsServerChar(c) && c != '@' && c != '/' && c != '?'
  {
  }

  /** An authority is a server text: it has at most one at sign. */
  lemma AuthorityChar(a: string, k: nat)
    requires IsAuthority(a) && k < |a|
    ensures IsServerChar(a[k]) && a[k] != '/' && a[k] != '?'
    ensures a[k] == '@' ==> k == HostCutsOf(a).user
  {
    hide IsAuthority, HostCutsOf, HostAt, IsNameByte, IsHex, IsNum, IsUserinfoByte;
    AuthorityIsShaped(a);
    CharsAreServer(a[k]);
    assert IsServerChar('@');
  }

  lemma AuthorityIsServer(a: string)
    requires IsAuthority(a)
    ensures IsServer(a) && forall k :: 0 <= k < |a| ==> a[k] != '/' && a[k] != '?'
  {
    hide IsAuthority, HostCutsOf, IsServerChar;
    forall k | 0 <= k < |a|
      ensures IsServerChar(a[k]) && a[k] != '/' && a[k] != '?' && (a[k] == '@' ==> k == HostCutsOf(a).user)
    {
      AuthorityChar(a, k);
    }
  }

  lemma ServerComposed(a: string, p: string, q: string, f: string)
    requires IsAuthority(a) && Printable(p) && Printable(q) && Printable(f) && (p != [] ==> p[0] == '/')
    ensures var w := a + Rest(p, q, f); IsServerText(w) && ServerEnd(w) == |a|
  {
    hide IsAuthority, Printable, Rest, IsServer;
    var r := Rest(p, q, f);
    var w := a + r;
    AuthorityIsServer(a);
    RestPrintable(p, q, f);
    RestStarts(p, q, f);
    assert w[|a|] == r[0];
    ServerEndUnique(w, |a|);
    assert w[..|a|] == a && w[|a|..] == r;
  }

  function Front(scheme: string, a: string): string { scheme + "://" + a }

  lemma FrontText(scheme: string, a: string, r: string)
    requires scheme != [] && AllAlpha(scheme) && a + r != []
    ensures var buf := Front(scheme, a) + r;
            && AlphaEnd(buf) == |scheme| && SlashesAt(buf, |scheme|) && buf[|scheme| + 3..] == a + r
            && !OriginForm(buf, false) && |Front(scheme, a)| == |scheme| + 3 + |a|
            && buf[|scheme| + 3..|scheme| + 3 + |a|] == a
  {
    var buf := Front(scheme, a) + r;
    assert buf[|scheme|] == ':' && forall i :: 0 <= i < |scheme| ==> buf[i] == scheme[i];
    AlphaEndUnique(buf, |scheme|);
    assert buf[0] == scheme[0];
  }

  /** With a scheme and an authority. */
  lemma AbsoluteComposed(scheme: string, a: string, p: string, q: string, f: string)
    requires scheme != [] && AllAlpha(scheme) && IsAuthority(a) && DecValue(PortText(a)) <= 0xFFFF
    requires IsPathText(p) && IsQueryText(q) && IsFragmentText(f) && (p != [] ==> p[0] == '/')
    ensures var buf := Front(scheme, a) + Rest(p, q, f);
            && IsTarget(buf, false) && Authority(buf, false) == a && IsUrlText(buf, false)
            && CutsOf(buf, false) == RestCuts(|scheme|, |scheme| + 3, |scheme| + 3 + |a|, p, q)
  {
    hide IsAuthority, Printable, Rest, IsServerText, HashAt, QueryAt, HashEnd, PortText, ServerEnd,
      AlphaEnd, Front;
    var r, front := Rest(p, q, f), Front(scheme, a);
    var buf := front + r;
    RestStarts(p, q, f);
    FrontText(scheme, a, r);
    ServerComposed(a, p, q, f);
    RestSearched(front, p, q, f);
    NoSchemeByte(buf, |scheme|);
  }

  lemma NoSchemeByte(buf: string, n: nat)
    requires 0 < n && AlphaEnd(buf) == n
    ensures n <= |buf| && buf[0] != '/' && buf[0] != '*'
  {
    assert IsAlpha(buf[0]);
  }

  // ---------------------------------------------------------------- the authority

  lemma PortTailComposed(port: string)
    requires AllDigits(port) && port != []
    ensures IsPortTail(":" + port)
  {
    assert (":" + port)[1..] == port;
  }

  lemma NameComposed(host: string, port: string)
    requires host != [] && AreName(host) && port != [] && AllDigits(port)
    ensures var w := host + ":" + port; IsHostPort(w) && Uri.Index(w, ':') == |host| && w[0] != '['
  {
    hide AllDigits;
    var w := host + ":" + port;
    assert forall i :: 0 <= i < |host| ==> w[i] == host[i];
    Uri.IndexUnique(w, ':', |host|);
    assert w[..|host|] == host && w[|host|..] == ":" + port;
    PortTailComposed(port);
  }

  lemma V6Composed(v6: string, port: string)
    requires v6 != [] && AreV6(v6) && port != [] && AllDigits(port)
    ensures var w := "[" + v6 + "]:" + port; IsHostPort(w) && Uri.Index(w, ']') == |v6| + 1
  {
    hide AllDigits;
    var w := "[" + v6 + "]:" + port;
    assert forall i :: 0 <= i < |v6| ==> w[i + 1] == v6[i];
    Uri.IndexUnique(w, ']', |v6| + 1);
    assert w[1..|v6| + 1] == v6 && w[|v6| + 2..] == ":" + port;
    PortTailComposed(port);
  }

  lemma UserinfoFront(user: string, w: string)
    requires AreUserinfo(user)
    ensures var a := user + "@" + w;
            && '@' in a && Uri.Index(a, '@') == |user| && a[..|user|] == user && a[|user| + 1..] == w
            && HostAt(a) == |user| + 1
  {
    var a := user + "@" + w;
    assert a[|user|] == '@';
    assert forall i :: 0 <= i < |user| ==> a[i] == user[i] && IsUserinfoByte(user[i]);
    Uri.IndexUnique(a, '@', |user|);
  }

  /** Userinfo, a name and a port. */
  lemma NameAuthority(user: string, host: string, port: string)
    requires AreUserinfo(user) && host != [] && AreName(host) && port != [] && AllDigits(port)
    ensures var a := user + "@" + (host + ":" + port);
            && IsAuthority(a) && PortText(a) == port
            && HostCutsOf(a) == HostCuts(|user|, |user| + 1, |user| + 1 + |host|, |user| + 2 + |host|)
  {
    hide IsHostPort, AreUserinfo, AreName, AllDigits, Uri.Index, HostAt;
    var w := host + ":" + port;
    var a := user + "@" + w;
    UserinfoFront(user, w);
    NameComposed(host, port);
    assert a[|user| + 1] == w[0];
    assert a[|user| + 2 + |host|..] == port;
  }

  /** Userinfo, an address in brackets and a port. */
  lemma V6Authority(user: string, v6: string, port: string)
    requires AreUserinfo(user) && v6 != [] && AreV6(v6) && port != [] && AllDigits(port)
    ensures var a := user + "@" + ("[" + v6 + "]:" + port);
            && IsAuthority(a) && PortText(a) == port
            && HostCutsOf(a) == HostCuts(|user|, |user| + 2, |user| + 2 + |v6|, |user| + 4 + |v6|)
  {
    hide IsHostPort, AreUserinfo, AreV6, AllDigits, Uri.Index, HostAt;
    var w := "[" + v6 + "]:" + port;
    var a := user + "@" + w;
    UserinfoFront(user, w);
    V6Composed(v6, port);
    assert a[|user| + 1] == '[';
    assert a[|user| + 4 + |v6|..] == port;
  }

  // ---------------------------------------------------------------- CONNECT

  lemma MarkHash(a: string)
    ensures HashAt(a + "?", |a|) == |a| + 1
  {
    hide HashEnd;
    assert (a + "?")[|a|..] == "?";
    Uri.IndexUnique("?", '#', 1);
  }

  lemma MarkSearched(a: string)
    ensures var buf := a + "?";
            HashAt(buf, |a|) == |a| + 1 && QueryAt(buf, |a|) == |a| && HashEnd(buf, |a| + 1) == |a| + 1
  {
    hide HashAt;
    MarkHash(a);
    assert (a + "?")[|a|..|a| + 1] == "?";
    Uri.IndexUnique("?", '?', 0);
  }

  lemma MarkIsServer(a: string)
    requires IsAuthority(a)
    ensures IsServerText(a + "?") && ServerEnd(a + "?") == |a|
  {
    hide IsAuthority, IsServer;
    var w := a + "?";
    AuthorityIsServer(a);
    assert w[|a|] == '?';
    ServerEndUnique(w, |a|);
    assert w[..|a|] == a && w[|a|..] == "?";
  }

  /** A CONNECT target may have a question mark behind its port: only the fields are looked at. */
  lemma ConnectQuestionMark(a: string)
    requires IsAuthority(a) && PortText(a) != [] && HostCutsOf(a).user == 0 && DecValue(PortText(a)) <= 0xFFFF
    ensures IsUrlText(a + "?", true)
  {
    hide IsAuthority, HostCutsOf, PortText, ServerEnd, HashAt, QueryAt, HashEnd, IsServerText;
    var buf := a + "?";
    MarkIsServer(a);
    MarkSearched(a);
    assert buf[0..] == buf && buf[0..|a|] == a;
    ConnectNeedsHost(buf);
  }
}
