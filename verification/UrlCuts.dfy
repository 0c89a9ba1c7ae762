/**
 Where a URL is cut: the positions of its parts, found by searching its text, are the labels of the URL automaton.
 */
module UrlCuts {
  import opened HttpTypes
  import opened HttpSwitch
  import opened HttpUrl
  import opened UrlTarget
  import Uri

  /** Where the scheme ends, where the authority starts, and where the path, the question mark, the hash signs and
      the fragment start. */
  datatype Cuts = Cuts(scheme: nat, server: nat, tail: nat, query: nat, hash: nat, fragment: nat)

  /** The first character from `h` on that is no hash sign, or the length. */
  function HashEnd(t: string, h: nat): (g: nat)
    requires h <= |t|
    ensures h <= g <= |t| && (g < |t| ==> t[g] != '#') && forall i :: h <= i < g ==> t[i] == '#'
    decreases |t| - h
  {
    if h < |t| && t[h] == '#' then HashEnd(t, h + 1) else h
  }

  predicate OriginForm(buf: string, connect: bool) {
    !connect && buf != [] && (buf[0] == '/' || buf[0] == '*')
  }

  function SchemeEnd(buf: string, connect: bool): (n: nat)
    ensures n <= |buf|
  {
    if connect || OriginForm(buf, connect) then 0 else AlphaEnd(buf)
  }

  function ServerAt(scheme: nat): nat { if scheme == 0 then 0 else scheme + 3 }

  function TailAt(buf: string, connect: bool, server: nat): (n: nat)
    requires server <= |buf|
    ensures n <= |buf|
  {
    if OriginForm(buf, connect) then 0 else server + ServerEnd(buf[server..])
  }

  /** The first hash sign. */
  function HashAt(buf: string, tail: nat): (n: nat)
    requires tail <= |buf|
    ensures tail <= n <= |buf|
  {
    tail + Uri.Index(buf[tail..], '#')
  }

  /** The first question mark in front of it. */
  function QueryAt(buf: string, tail: nat): (n: nat)
    requires tail <= |buf|
    ensures tail <= n <= HashAt(buf, tail)
  {
    tail + Uri.Index(buf[tail..HashAt(buf, tail)], '?')
  }

  /** The path ends at the first question mark in front of the first hash sign; the query at the first hash sign. */
  function CutsOf(buf: string, connect: bool): Cuts
    requires IsTarget(buf, connect)
  {
    var scheme := SchemeEnd(buf, connect);
    var server := ServerAt(scheme);
    var tail := TailAt(buf, connect, server);
    Cuts(scheme, server, tail, QueryAt(buf, tail), HashAt(buf, tail), HashEnd(buf, HashAt(buf, tail)))
  }

  // ---------------------------------------------------------------- the text around the cuts

  /** The scheme and the authority. */
  predicate FrontShaped(c: Cuts, buf: string, connect: bool) {
    && c.scheme <= c.server <= c.tail <= |buf|
    && (forall k :: 0 <= k < c.scheme ==> IsAlpha(buf[k]))
    && (if c.scheme == 0 then c.server == 0
        else !connect && c.server == c.scheme + 3 < |buf|
             && buf[c.scheme] == ':' && buf[c.scheme + 1] == '/' && buf[c.scheme + 2] == '/')
    && (forall k :: c.server <= k < c.tail ==> IsServerChar(buf[k]) && buf[k] != '/' && buf[k] != '?')
    && (forall k :: c.server < k < c.tail ==> !(buf[k - 1] == '@' && buf[k] == '@'))
    && (c.tail < |buf| ==> buf[c.tail] == '/' || buf[c.tail] == '?' || (buf[c.tail] == '*' && OriginForm(buf, connect)))
    && (OriginForm(buf, connect) ==> c.tail == 0)
    && (c.scheme == 0 && !connect ==> OriginForm(buf, connect))
  }

  /** The path, the query and the fragment. */
  predicate TailShaped(c: Cuts, buf: string) {
    && c.tail <= c.query <= c.hash <= c.fragment <= |buf|
    && (forall k :: c.tail <= k < |buf| ==> '!' <= buf[k] <= '~')
    && (forall k :: c.tail <= k < c.query ==> buf[k] != '?')
    && (forall k :: c.tail <= k < c.hash ==> buf[k] != '#')
    && (c.query < c.hash ==> buf[c.query] == '?')
    && (c.hash < |buf| ==> buf[c.hash] == '#')
    && (forall k :: c.hash <= k < c.fragment ==> buf[k] == '#')
    && (c.fragment < |buf| ==> buf[c.fragment] != '#')
    && (c.hash < |buf| ==> c.hash < c.fragment)
  }

  lemma ServerShaped(buf: string, server: nat)
    requires server <= |buf| && IsServerText(buf[server..])
    ensures var tail := server + ServerEnd(buf[server..]);
            && (forall k :: server <= k < tail ==> IsServerChar(buf[k]) && buf[k] != '/' && buf[k] != '?')
            && (forall k :: server < k < tail ==> !(buf[k - 1] == '@' && buf[k] == '@'))
            && (tail < |buf| ==> buf[tail] == '/' || buf[tail] == '?')
            && (forall k :: tail <= k < |buf| ==> '!' <= buf[k] <= '~')
  {
    hide IsServerChar;
    var w, n := buf[server..], ServerEnd(buf[server..]);
    var tail := server + n;
    forall k | server <= k < tail ensures IsServerChar(buf[k]) && buf[k] != '/' && buf[k] != '?' {
      assert buf[k] == w[k - server] == w[..n][k - server];
    }
    forall k | server < k < tail ensures !(buf[k - 1] == '@' && buf[k] == '@') {
      var i := k - server - 1;
      assert w[..n][i] == buf[k - 1] && w[..n][i + 1] == buf[k];
    }
    forall k | tail <= k < |buf| ensures '!' <= buf[k] <= '~' {
      assert buf[k] == w[n..][k - tail];
    }
  }

  lemma FrontIsShaped(buf: string, connect: bool)
    requires IsTarget(buf, connect)
    ensures var c := CutsOf(buf, connect);
            && FrontShaped(c, buf, connect)
            && forall k :: c.tail <= k < |buf| ==> '!' <= buf[k] <= '~'
  {
    hide IsServerChar, IsServerText, Uri.Index, AlphaEnd, ServerEnd;
    if !OriginForm(buf, connect) {
      var server := if connect then 0 else AlphaEnd(buf) + 3;
      assert connect ==> buf[0..] == buf;
      ServerShaped(buf, server);
    }
  }

  lemma HashIsFirst(buf: string, tail: nat)
    requires tail <= |buf|
    ensures var hash := HashAt(buf, tail);
            && (forall k :: tail <= k < hash ==> buf[k] != '#')
            && (hash < |buf| ==> buf[hash] == '#' && hash < HashEnd(buf, hash))
  {
    var t := buf[tail..];
    assert forall k :: tail <= k < |buf| ==> buf[k] == t[k - tail];
  }

  lemma QueryIsFirst(buf: string, tail: nat)
    requires tail <= |buf|
    ensures var query, hash := QueryAt(buf, tail), HashAt(buf, tail);
            && (forall k :: tail <= k < query ==> buf[k] != '?')
            && (query < hash ==> buf[query] == '?')
  {
    hide HashAt;
    var p := buf[tail..HashAt(buf, tail)];
    assert forall k :: tail <= k < HashAt(buf, tail) ==> buf[k] == p[k - tail];
  }

  lemma TailIsShaped(buf: string, connect: bool)
    requires IsTarget(buf, connect)
    ensures TailShaped(CutsOf(buf, connect), buf)
  {
    hide IsTarget, FrontShaped, HashAt, QueryAt, HashEnd, TailAt, SchemeEnd, ServerAt;
    FrontIsShaped(buf, connect);
    var tail := CutsOf(buf, connect).tail;
    HashIsFirst(buf, tail);
    QueryIsFirst(buf, tail);
  }

  // ---------------------------------------------------------------- the states at the cuts

  /** The state after k bytes. */
  function StateBy(c: Cuts, buf: string, k: nat): State
    requires 0 < k <= |buf|
  {
    if k <= c.scheme then ReqSchema
    else if k < c.server then (if k == c.scheme + 1 then ReqSchemaSlash else ReqSchemaSlashSlash)
    else if k == c.server then ReqServerStart
    else if k <= c.tail then (if buf[k - 1] == '@' then ReqServerWithAt else ReqServer)
    else if k <= c.query then ReqPath
    else if k <= c.hash then (if k == c.query + 1 then ReqQueryStringStart else ReqQueryString)
    else if k <= c.fragment then ReqFragmentStart
    else ReqFragment
  }

  lemma FirstState(c: Cuts, buf: string, connect: bool)
    requires buf != [] && FrontShaped(c, buf, connect) && TailShaped(c, buf)
    ensures ParseUrlChar(StartOf(connect), buf[0]) == StateBy(c, buf, 1)
  {
    hide ParseUrlChar, IsServerChar;
    if connect {
      ServerState(c, buf, connect, 0, ReqServerStart);
    } else {
      SchemeChar(buf[0]);
    }
  }

  lemma SchemeState(c: Cuts, buf: string, connect: bool, k: nat)
    requires 0 < k < c.server && FrontShaped(c, buf, connect)
    ensures ParseUrlChar(StateBy(c, buf, k), buf[k]) == StateBy(c, buf, k + 1)
  {
    hide ParseUrlChar, IsServerChar;
    SchemeChar(buf[k]);
  }

  lemma ServerState(c: Cuts, buf: string, connect: bool, k: nat, s: State)
    requires k < |buf| && c.server <= k <= c.tail && FrontShaped(c, buf, connect) && TailShaped(c, buf)
    requires !OriginForm(buf, connect)
    requires if k == c.server then s.ReqServerStart? else s == StateBy(c, buf, k)
    ensures ParseUrlChar(s, buf[k]) == StateBy(c, buf, k + 1)
  {
    hide ParseUrlChar;
    ServerChar1(s, buf[k]);
  }

  lemma RestState(c: Cuts, buf: string, k: nat)
    requires c.tail < k < |buf| && TailShaped(c, buf) && c.server <= c.tail && c.scheme <= c.server
    ensures ParseUrlChar(StateBy(c, buf, k), buf[k]) == StateBy(c, buf, k + 1)
  {
  }

  lemma {:induction false} StateIsBy(buf: string, connect: bool, k: nat)
    requires IsTarget(buf, connect) && 0 < k <= |buf|
    ensures StateAt(buf, connect, k) == StateBy(CutsOf(buf, connect), buf, k)
    decreases k
  {
    hide ParseUrlChar, StateBy, CutsOf, FrontShaped, TailShaped, IsTarget;
    var c := CutsOf(buf, connect);
    FrontIsShaped(buf, connect);
    TailIsShaped(buf, connect);
    if k == 1 {
      FirstState(c, buf, connect);
    } else {
      StateIsBy(buf, connect, k - 1);
      CutsOrdered(c, buf, connect);
      if k - 1 < c.server {
        SchemeState(c, buf, connect, k - 1);
      } else if k - 1 <= c.tail {
        StartIsServer(c, buf, connect, k - 1);
        ServerState(c, buf, connect, k - 1, StateBy(c, buf, k - 1));
      } else {
        RestState(c, buf, k - 1);
      }
    }
  }

  lemma StartIsServer(c: Cuts, buf: string, connect: bool, k: nat)
    requires 0 < k <= |buf| && c.server <= k <= c.tail && FrontShaped(c, buf, connect)
    ensures !OriginForm(buf, connect) && (k == c.server ==> StateBy(c, buf, k).ReqServerStart?)
  {
  }

  lemma CutsOrdered(c: Cuts, buf: string, connect: bool)
    requires FrontShaped(c, buf, connect) && TailShaped(c, buf)
    ensures c.scheme <= c.server <= c.tail <= c.query <= c.hash <= c.fragment <= |buf|
    ensures c.scheme == 0 ==> c.server == 0
  {
  }

  // ---------------------------------------------------------------- the parts

  function LoOf(c: Cuts, f: UrlField): nat {
    match f
    case Schema => 0
    case Userinfo => c.server
    case Host => c.server
    case Port => c.server
    case Path => c.tail
    case Query => if c.query < c.hash then c.query + 1 else c.hash
    case Fragment => c.fragment
  }

  function HiOf(c: Cuts, f: UrlField, n: nat): nat {
    match f
    case Schema => c.scheme
    case Userinfo => c.tail
    case Host => c.tail
    case Port => c.tail
    case Path => c.query
    case Query => c.hash
    case Fragment => n
  }

  lemma FieldBy(c: Cuts, buf: string, k: nat, f: UrlField)
    requires k < |buf| && Whole(f)
    requires c.scheme <= c.server <= c.tail <= c.query <= c.hash <= c.fragment <= |buf|
    requires c.scheme == 0 ==> c.server == 0
    ensures FieldOf(StateBy(c, buf, k + 1)) == Some(f) <==> LoOf(c, f) <= k < HiOf(c, f, |buf|)
  {
  }

  /** Field f is the text from lo to hi, and is missing if that is empty. */
  predicate Piece(fields: map<UrlField, Span>, f: UrlField, lo: nat, hi: nat) {
    && (f in fields <==> lo < hi)
    && (f in fields ==> fields[f] == Span(lo, hi - lo))
  }

  lemma SpanIs(sp: Span, lo: nat, hi: nat, n: nat)
    requires 0 < sp.len && sp.off + sp.len <= n && hi <= n
    requires forall k :: 0 <= k < n ==> (Within(sp, k) <==> lo <= k < hi)
    ensures lo < hi && sp == Span(lo, hi - lo)
  {
    assert Within(sp, sp.off) && Within(sp, sp.off + sp.len - 1);
    if sp.off + sp.len < n {
      assert !Within(sp, sp.off + sp.len);
    }
    if sp.off > 0 {
      assert !Within(sp, sp.off - 1);
    }
  }

  lemma HoldsPiece(fields: map<UrlField, Span>, buf: string, connect: bool, f: UrlField, lo: nat, hi: nat)
    requires Holds(fields, buf, connect, f, |buf|) && hi <= |buf|
    requires forall k :: 0 <= k < |buf| ==> (LabelAt(buf, connect, k) == Some(f) <==> lo <= k < hi)
    ensures Piece(fields, f, lo, hi)
  {
    hide LabelAt, StateAt;
    if lo < hi {
      assert LabelAt(buf, connect, lo) == Some(f);
    }
    if f in fields {
      SpanIs(fields[f], lo, hi, |buf|);
    }
  }

  /** The parts of a target are the texts between its cuts. */
  lemma PartsBy(parts: map<UrlField, Span>, buf: string, connect: bool, f: UrlField)
    requires IsTarget(buf, connect) && PartsOf(parts, buf, connect) && Whole(f)
    ensures var c := CutsOf(buf, connect); Piece(parts, f, LoOf(c, f), HiOf(c, f, |buf|))
  {
    hide StateAt, StateBy, CutsOf, FrontShaped, TailShaped, IsTarget, LoOf, HiOf, FieldOf;
    var c := CutsOf(buf, connect);
    FrontIsShaped(buf, connect);
    TailIsShaped(buf, connect);
    CutsOrdered(c, buf, connect);
    assert Holds(parts, buf, connect, f, |buf|);
    HiInside(c, f, |buf|);
    forall k | 0 <= k < |buf|
      ensures LabelAt(buf, connect, k) == Some(f) <==> LoOf(c, f) <= k < HiOf(c, f, |buf|)
    {
      StateIsBy(buf, connect, k + 1);
      FieldBy(c, buf, k, f);
    }
    HoldsPiece(parts, buf, connect, f, LoOf(c, f), HiOf(c, f, |buf|));
  }

  lemma HiInside(c: Cuts, f: UrlField, n: nat)
    requires c.scheme <= c.server <= c.tail <= c.query <= c.hash <= c.fragment <= n
    ensures HiOf(c, f, n) <= n
  {
  }

  /** The source notices an at sign if and only if the authority has one. */
  lemma SeesAtExactly(buf: string, connect: bool)
    requires IsTarget(buf, connect)
    ensures var c := CutsOf(buf, connect);
            && c.server <= c.tail <= |buf|
            && (SeesAt(buf, connect, |buf|) <==> '@' in buf[c.server..c.tail])
  {
    hide StateAt, CutsOf, FrontShaped, TailShaped, IsTarget;
    var c := CutsOf(buf, connect);
    FrontIsShaped(buf, connect);
    TailIsShaped(buf, connect);
    CutsOrdered(c, buf, connect);
    var w := buf[c.server..c.tail];
    forall k | 0 < k <= |buf|
      ensures StateAt(buf, connect, k).ReqServerWithAt? <==> c.server < k <= c.tail && buf[k - 1] == '@'
    {
      StateIsBy(buf, connect, k);
    }
    if '@' in w {
      var i :| 0 <= i < |w| && w[i] == '@';
      assert StateAt(buf, connect, c.server + i + 1).ReqServerWithAt?;
    }
    if SeesAt(buf, connect, |buf|) {
      var k :| 0 < k <= |buf| && StateAt(buf, connect, k).ReqServerWithAt?;
      assert w[k - 1 - c.server] == '@';
    }
  }
}
