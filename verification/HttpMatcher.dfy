/**
 The nested header matcher: which names and values the states h_connection, h_content_length,
 h_transfer_encoding_chunked and so on stand for.
 */
module HttpMatcher {
  import opened HttpTypes
  import opened HttpSwitch

  // ---------------------------------------------------------------- names

  /** A header name: token characters only, at least one. */
  predicate IsName(name: string) {
    name != [] && forall i :: 0 <= i < |name| ==> Token(name[i]) != '\0'
  }

  /** The token table is section 2.2 of RFC 2616: printable characters that are no separators, and letters in lower
      case. */
  lemma TokenExactly(c: char)
    ensures Token(c) != '\0' <==> '!' <= c <= '~' && c !in "()<>@,;:\\\"/[]?={}"
    ensures Token(c) != '\0' ==> Token(c) == if 'A' <= c <= 'Z' then (c as int + 32) as char else c
  {
  }

  /** A header name is exactly a token. */
  lemma NameExactly(name: string)
    ensures IsName(name) <==>
            name != [] && forall i :: 0 <= i < |name| ==> '!' <= name[i] <= '~' && name[i] !in "()<>@,;:\\\"/[]?={}"
  {
    hide Token;
    forall i | 0 <= i < |name|
      ensures Token(name[i]) != '\0' <==> '!' <= name[i] <= '~' && name[i] !in "()<>@,;:\\\"/[]?={}"
    {
      TokenExactly(name[i]);
    }
  }

  /** The lower-case form of a name. */
  function Low(name: string): (u: string)
    ensures |u| == |name|
    ensures forall i :: 0 <= i < |name| ==> u[i] == Token(name[i])
  {
    if name == [] then [] else [Token(name[0])] + Low(name[1..])
  }

  const CONNECTION: string := "connection"
  const PROXY_CONNECTION: string := "proxy-connection"
  const CONTENT_LENGTH: string := "content-length"
  const TRANSFER_ENCODING: string := "transfer-encoding"
  const UPGRADE: string := "upgrade"

  /** What a header name means to the parser; General for names that mean nothing to it. */
  function NameClass(name: string): HeaderState {
    var u := Low(name);
    if u == CONNECTION || u == PROXY_CONNECTION then Connection
    else if u == CONTENT_LENGTH then ContentLength
    else if u == TRANSFER_ENCODING then TransferEncoding
    else if u == UPGRADE then Upgrade
    else General
  }

  predicate Begins(u: string, key: string) {
    |u| <= |key| && forall i :: 0 <= i < |u| ==> u[i] == key[i]
  }

  predicate BeginsNone(u: string) {
    && !Begins(u, CONNECTION) && !Begins(u, PROXY_CONNECTION) && !Begins(u, CONTENT_LENGTH)
    && !Begins(u, TRANSFER_ENCODING) && !Begins(u, UPGRADE)
  }

  /** A literal being matched: the name so far is its beginning up to the matcher index. */
  predicate Midway(i: nat, u: string, key: string, from: nat) {
    |u| == i + 1 && from < |u| < |key| && Begins(u, key)
  }

  /** What the matcher knows about the lower-case name so far. */
  predicate NameSeen(h: HeaderState, i: nat, u: string) {
    if h.General? then BeginsNone(u)
    else if h.C? then i == 0 && u == "c"
    else if h.CO? then i == 1 && u == "co"
    else if h.CON? then i == 2 && u == "con"
    else if h.MatchingConnection? then Midway(i, u, CONNECTION, 3)
    else if h.MatchingProxyConnection? then Midway(i, u, PROXY_CONNECTION, 0)
    else if h.MatchingContentLength? then Midway(i, u, CONTENT_LENGTH, 3)
    else if h.MatchingTransferEncoding? then Midway(i, u, TRANSFER_ENCODING, 0)
    else if h.MatchingUpgrade? then Midway(i, u, UPGRADE, 0)
    else if h.Connection? then u == CONNECTION || u == PROXY_CONNECTION
    else if h.ContentLength? then u == CONTENT_LENGTH
    else if h.TransferEncoding? then u == TRANSFER_ENCODING
    else if h.Upgrade? then u == UPGRADE
    else false
  }

  lemma Differs(u: string, key: string, i: nat)
    requires i < |u| && i < |key| && u[i] != key[i]
    ensures !Begins(u, key)
  {
  }

  /** A name that differs from every literal, for each at some position. */
  lemma DiffersFromAll(u: string, a: nat, b: nat, c: nat, d: nat, e: nat)
    requires a < |u| && b < |u| && c < |u| && d < |u| && e < |u|
    requires a < |CONNECTION| ==> u[a] != CONNECTION[a]
    requires b < |PROXY_CONNECTION| ==> u[b] != PROXY_CONNECTION[b]
    requires c < |CONTENT_LENGTH| ==> u[c] != CONTENT_LENGTH[c]
    requires d < |TRANSFER_ENCODING| ==> u[d] != TRANSFER_ENCODING[d]
    requires e < |UPGRADE| ==> u[e] != UPGRADE[e]
    ensures BeginsNone(u)
  {
  }

  lemma FirstNameByte(c: char)
    ensures NameSeen(FirstFieldState(c), 0, [c])
  {
    if FirstFieldState(c).General? {
      DiffersFromAll([c], 0, 0, 0, 0, 0);
    }
  }

  /** Once a name is none of the literals' beginnings, it stays so. */
  lemma BeginsNoneStays(u: string, c: char)
    requires BeginsNone(u)
    ensures BeginsNone(u + [c])
  {
    BeginsStays(u, c, CONNECTION);
    BeginsStays(u, c, PROXY_CONNECTION);
    BeginsStays(u, c, CONTENT_LENGTH);
    BeginsStays(u, c, TRANSFER_ENCODING);
    BeginsStays(u, c, UPGRADE);
  }

  lemma BeginsStays(u: string, c: char, key: string)
    ensures Begins(u + [c], key) ==> Begins(u, key) && |u| < |key| && c == key[|u|]
  {
    var v := u + [c];
    if Begins(v, key) {
      assert v[|u|] == c;
      forall i | 0 <= i < |u| ensures u[i] == key[i] {
        assert v[i] == u[i];
      }
    }
  }

  lemma BeginsExtends(u: string, c: char, key: string)
    requires Begins(u, key) && |u| < |key| && c == key[|u|]
    ensures Begins(u + [c], key)
  {
  }

  /** A step of matching one literal. */
  lemma MatchLiteralSeen(p: Parser, c: char, u: string, key: string, from: nat, matched: HeaderState)
    requires Midway(p.index, u, key, from) && c != '\0'
    requires matched != General && p.headerState != General && p.headerState != matched
    ensures var q := MatchLiteral(p, c, key, matched);
            if q.headerState == General then !Begins(u + [c], key)
            else if q.headerState == matched then u + [c] == key
            else q.headerState == p.headerState && Midway(q.index, u + [c], key, from)
  {
    BeginsStays(u, c, key);
    if c == key[|u|] {
      BeginsExtends(u, c, key);
    }
  }

  /** A token character after the beginning "c", "co" or "con". */
  lemma EarlyNameByte(p: Parser, c: char, u: string)
    requires p.headerState.C? || p.headerState.CO? || p.headerState.CON?
    requires NameSeen(p.headerState, p.index, u) && c != '\0'
    ensures var q := MatchField(p, c); NameSeen(q.headerState, q.index, u + [c])
  {
    var q := MatchField(p, c);
    if q.headerState.General? {
      DiffersFromAll(u + [c], |u|, 0, |u|, 0, 0);
    }
  }

  lemma MatchingNameByte(p: Parser, c: char, u: string)
    requires p.headerState.MatchingConnection? || p.headerState.MatchingContentLength?
             || p.headerState.MatchingProxyConnection? || p.headerState.MatchingTransferEncoding?
             || p.headerState.MatchingUpgrade?
    requires NameSeen(p.headerState, p.index, u) && c != '\0'
    ensures var q := MatchField(p, c); NameSeen(q.headerState, q.index, u + [c])
  {
    hide MatchLiteral;
    var h, v := p.headerState, u + [c];
    assert v[0] == u[0];
    if h.MatchingConnection? {
      MatchLiteralSeen(p, c, u, CONNECTION, 3, Connection);
      assert v[3] == u[3] == 'n';
      Differs(v, CONTENT_LENGTH, 3);
    } else if h.MatchingContentLength? {
      MatchLiteralSeen(p, c, u, CONTENT_LENGTH, 3, ContentLength);
      assert v[3] == u[3] == 't';
      Differs(v, CONNECTION, 3);
    } else if h.MatchingProxyConnection? {
      MatchLiteralSeen(p, c, u, PROXY_CONNECTION, 0, Connection);
    } else if h.MatchingTransferEncoding? {
      MatchLiteralSeen(p, c, u, TRANSFER_ENCODING, 0, TransferEncoding);
    } else {
      MatchLiteralSeen(p, c, u, UPGRADE, 0, Upgrade);
    }
  }

  lemma CompleteNameByte(p: Parser, c: char, u: string)
    requires p.headerState.Connection? || p.headerState.ContentLength? || p.headerState.TransferEncoding?
             || p.headerState.Upgrade?
    requires NameSeen(p.headerState, p.index, u)
    ensures var q := MatchField(p, c); q.headerState.General? && BeginsNone(u + [c])
  {
    var v := u + [c];
    if u == CONNECTION {
      DiffersFromAll(v, 10, 0, 3, 0, 0);
    } else if u == PROXY_CONNECTION {
      DiffersFromAll(v, 0, 16, 0, 0, 0);
    } else if u == CONTENT_LENGTH {
      DiffersFromAll(v, 3, 0, 14, 0, 0);
    } else if u == TRANSFER_ENCODING {
      DiffersFromAll(v, 0, 0, 0, 17, 0);
    } else {
      DiffersFromAll(v, 0, 0, 0, 0, 7);
    }
  }

  /** Every further character of a name keeps what the matcher knows true. */
  lemma NextNameByte(p: Parser, c: char, u: string)
    requires NameSeen(p.headerState, p.index, u) && c != '\0'
    ensures var q := MatchField(p, c); NameSeen(q.headerState, q.index, u + [c])
  {
    var h := p.headerState;
    if h.General? {
      BeginsNoneStays(u, c);
    } else if h.C? || h.CO? || h.CON? {
      EarlyNameByte(p, c, u);
    } else if h.Connection? || h.ContentLength? || h.TransferEncoding? || h.Upgrade? {
      CompleteNameByte(p, c, u);
    } else {
      MatchingNameByte(p, c, u);
    }
  }

  /** The state a name leaves, as the value's first byte sees it. */
  function ClassOf(h: HeaderState): HeaderState {
    if h.Connection? || h.ContentLength? || h.TransferEncoding? || h.Upgrade? then h else General
  }

  /** The matcher recognises exactly the five names, whatever their case. */
  lemma NameRecognised(h: HeaderState, i: nat, name: string)
    requires NameSeen(h, i, Low(name))
    ensures ClassOf(h) == NameClass(name)
  {
    var u := Low(name);
    if h.General? {
      BeginsItself(CONNECTION);
      BeginsItself(PROXY_CONNECTION);
      BeginsItself(CONTENT_LENGTH);
      BeginsItself(TRANSFER_ENCODING);
      BeginsItself(UPGRADE);
    } else if h.MatchingConnection? {
      assert u[0] == 'c' && u[3] == 'n';
    } else if h.MatchingContentLength? {
      assert u[0] == 'c' && u[3] == 't';
    } else if h.MatchingProxyConnection? {
      assert u[0] == 'p';
    } else if h.MatchingTransferEncoding? {
      assert u[0] == 't';
    } else if h.MatchingUpgrade? {
      assert u[0] == 'u';
    }
  }

  lemma BeginsItself(key: string)
    ensures Begins(key, key)
  {
  }

  // ---------------------------------------------------------------- values

  /** A value that is the keyword in any case, followed by blanks only. */
  predicate Spells(v: string, key: string) {
    && |key| <= |v|
    && (forall i :: 0 <= i < |key| ==> Lower(v[i]) == key[i])
    && (forall i :: |key| <= i < |v| ==> v[i] == ' ')
  }

  /** A value that is a proper beginning of the keyword. */
  predicate Starts(v: string, key: string) {
    |v| < |key| && forall i :: 0 <= i < |v| ==> Lower(v[i]) == key[i]
  }

  /** What the value matcher knows while it looks for one keyword. */
  predicate KeySeen(h: HeaderState, i: nat, v: string, key: string, matching: HeaderState, matched: HeaderState) {
    if h == matching then |v| == i + 1 && Starts(v, key)
    else if h == matched then Spells(v, key)
    else h.General? && !Starts(v, key) && !Spells(v, key)
  }

  lemma LostStays(v: string, c: char, key: string)
    requires !Starts(v, key) && !Spells(v, key)
    ensures !Starts(v + [c], key) && !Spells(v + [c], key)
  {
    var w := v + [c];
    assert forall i :: 0 <= i < |v| ==> w[i] == v[i];
  }

  /** A further byte of a value while the keyword is being matched. */
  lemma KeyMatchingByte(p: Parser, c: char, v: string, key: string, matching: HeaderState, matched: HeaderState)
    requires matching != matched && matching != General && matched != General
    requires p.headerState == matching && |v| == p.index + 1 && Starts(v, key) && Lower(c) != '\0'
    ensures var q := MatchLiteral(p, Lower(c), key, matched);
            KeySeen(q.headerState, q.index, v + [c], key, matching, matched)
  {
    hide Lower;
    var w := v + [c];
    assert w[|v|] == c;
    assert forall i :: 0 <= i < |v| ==> w[i] == v[i];
  }

  /** A byte after the keyword: only blanks keep the match. */
  lemma KeyMatchedByte(c: char, v: string, key: string)
    requires Spells(v, key)
    ensures if c == ' ' then Spells(v + [c], key) else !Starts(v + [c], key) && !Spells(v + [c], key)
  {
    hide Lower;
    var w := v + [c];
    assert w[|v|] == c;
    assert forall i :: 0 <= i < |v| ==> w[i] == v[i];
  }

  /** The matcher ends in the matched state exactly for the keyword. */
  lemma KeyVerdict(h: HeaderState, i: nat, v: string, key: string, matching: HeaderState, matched: HeaderState)
    requires KeySeen(h, i, v, key, matching, matched) && matching != matched
    ensures h == matching || h == matched || h == General
    ensures h == matched <==> Spells(v, key)
  {
  }

  lemma SpellsFirst(v: string, key: string)
    requires v != [] && key != []
    ensures Spells(v, key) ==> Lower(v[0]) == key[0]
  {
  }
}
