/**
 What construct writes, parse reads back; and every URI that parses has a normal form that the two
 agree on.
 */
module UriRoundTrip {
  import opened HttpTypes
  import opened HttpNumbers
  import opened Percent
  import opened Uri

  // ---------------------------------------------------------------- the values that construct is for

  predicate PlainHost(host: string, v6: bool) {
    && Free(host, '#') && Free(host, '?') && Free(host, '/') && Free(host, '@')
    && (if v6 then Free(host, ']') else Free(host, ':') && host != [] && host[0] != '[')
  }

  predicate PlainPath(dir: string, file: string) {
    && dir != [] && dir[0] == '/' && dir[|dir| - 1] == '/' && Free(file, '/')
    && Free(dir, '#') && Free(dir, '?') && Free(file, '#') && Free(file, '?')
  }

  predicate PlainQuery(query: string) {
    (query == [] || query[0] == '?') && Free(query, '#')
  }

  predicate PlainUser(us: UriStruct) {
    && IsBytes(us.username) && IsBytes(us.password)
    && (us.username == [] ==> !us.hasPassword)
    && (!us.hasPassword ==> us.password == [])
  }

  /** Each part can be told from its neighbours. */
  predicate Plain(us: UriStruct) {
    && DefaultPort(us.protocol).Some?
    && 1 <= us.port <= 65535
    && PlainUser(us)
    && PlainHost(us.host, us.ipv6LiteralAddress)
    && PlainPath(us.dir, us.file)
    && PlainQuery(us.query)
  }

  /** Port 0 is written as no port, and a password without a user name is not written. */
  function Norm(us: UriStruct): UriStruct
    requires DefaultPort(us.protocol).Some?
  {
    us.(port := if us.port == 0 then DefaultPort(us.protocol).value else us.port,
        hasPassword := us.username != [] && us.hasPassword,
        password := if us.username == [] then [] else us.password)
  }

  // ---------------------------------------------------------------- the port

  lemma {:induction false} DigitsSnoc(w: string, c: char, acc: nat)
    requires IsNum(c) && forall i :: 0 <= i < |w| ==> IsNum(w[i])
    ensures Digits(w + [c], acc) == 10 * Digits(w, acc) + (c as int - '0' as int)
    decreases |w|
  {
    if w == [] {
      assert (w + [c])[1..] == [];
    } else {
      assert (w + [c])[1..] == w[1..] + [c];
      DigitsSnoc(w[1..], c, acc * 10 + (w[0] as int - '0' as int));
    }
  }

  lemma {:induction false} DigitsOfDec(n: nat)
    ensures Digits(DecOf(n), 0) == n
  {
    if n < 10 {
      assert DecOf(n)[1..] == [];
    } else {
      DigitsOfDec(n / 10);
      DigitsSnoc(DecOf(n / 10), LastDigit(n), 0);
    }
  }

  /** A printed number is read as its last 32 bits, and refused if those are above 65535 or the number is out
      of strtol's range; so exactly the ports up to 65535 are read as they are written. */
  lemma PortOfDec(n: nat)
    ensures PortOf(DecOf(n)) == if n <= LONG_MAX && n % TWO32 <= 65535 then Some(n % TWO32) else None
    ensures PortOf(DecOf(n)) == Some(n) <==> n <= 65535
  {
    hide DecOf;
    var w := DecOf(n);
    assert IsNum(w[0]);
    assert SkipSpaces(w) == w;
    DigitsOfDec(n);
  }

  // ---------------------------------------------------------------- reading what was written

  function Port(portText: string): string {
    if portText == [] then [] else ":" + portText
  }

  lemma BracketedRead(host: string, tail: string)
    requires Free(host, ']') && (tail == [] || tail[0] == ':')
    ensures HostPort("[" + host + "]" + tail) == Some((host, true, if tail == [] then [] else tail[1..]))
  {
    hide Index;
    var n := |host|;
    var hp := "[" + host + "]" + tail;
    assert hp[0] == '[' && hp[n + 1] == ']';
    assert forall i :: 0 <= i < n ==> hp[i + 1] == host[i];
    assert forall i :: 1 <= i < n + 1 ==> hp[i] == host[i - 1];
    IndexUnique(hp, ']', n + 1);
    assert hp[1..n + 1] == host;
    assert hp[n + 2..] == tail;
    assert tail != [] ==> hp[n + 2] == ':' && hp[n + 3..] == tail[1..];
  }

  lemma PlainHostRead(host: string, tail: string)
    requires Free(host, ':') && host != [] && host[0] != '[' && (tail == [] || tail[0] == ':')
    ensures HostPort(host + tail) == Some((host, false, if tail == [] then [] else tail[1..]))
  {
    hide Index;
    var hp := host + tail;
    IndexUnique(hp, ':', |host|);
    assert hp[..|host|] == host;
    assert tail != [] ==> hp[|host| + 1..] == tail[1..];
  }

  lemma HostPortRead(host: string, v6: bool, portText: string)
    requires PlainHost(host, v6)
    ensures HostPort((if v6 then "[" + host + "]" else host) + Port(portText)) == Some((host, v6, portText))
  {
    hide HostPort, Index;
    var tail := Port(portText);
    assert portText == if tail == [] then [] else tail[1..];
    if v6 {
      BracketedRead(host, tail);
    } else {
      PlainHostRead(host, tail);
    }
  }

  lemma UserRead(us: UriStruct, hp: string)
    requires PlainUser(us) && Free(hp, '@')
    ensures AuthorityOf(UserText(us) + hp) ==
            match HostPort(hp)
            case None => None
            case Some((host, v6, portText)) =>
              Some(Authority(us.username, us.password, us.hasPassword, host, v6, portText))
  {
    hide Index, AfterLast, HostPort, Decoded, Encoded;
    var u := UserText(us);
    var w := u + hp;
    assert w[|u|..] == hp;
    if us.username == [] {
      AfterLastUnique(w, '@', 0);
    } else {
      EncodedIsPlain(us.username);
      DecodeEncode(us.username);
      var e := Encoded(us.username);
      AfterLastUnique(w, '@', |u|);
      var ui := w[..|u| - 1];
      IndexUnique(ui, ':', |e|);
      assert ui[..|e|] == e;
      if us.hasPassword {
        DecodeEncode(us.password);
        assert ui[|e| + 1..] == Encoded(us.password);
      }
    }
  }

  lemma RestRead(protocol: string, defPort: nat, authority: string, path: string, query: string)
    requires Free(authority, '#') && Free(authority, '?') && Free(authority, '/')
    requires Free(path, '#') && Free(path, '?') && (path == [] || path[0] == '/') && PlainQuery(query)
    ensures ParseRest(protocol, defPort, authority + path + query) ==
            Assemble(protocol, defPort, AuthorityOf(authority), path, query)
  {
    hide Index, Assemble, AuthorityOf;
    var w := authority + path;
    var rest := w + query;
    IndexUnique(rest, '#', |rest|);
    assert rest[..|rest|] == rest;
    IndexUnique(rest, '?', |w|);
    assert rest[..|w|] == w && rest[|w|..|rest|] == query;
    IndexUnique(w, '/', |authority|);
    assert w[..|authority|] == authority && w[|authority|..] == path;
  }

  lemma PathRead(dir: string, file: string)
    requires PlainPath(dir, file)
    ensures PathParts(dir + file) == (dir, file)
  {
    AfterLastUnique(dir + file, '/', |dir|);
    assert (dir + file)[..|dir|] == dir && (dir + file)[|dir|..] == file;
  }

  lemma SchemeRead(protocol: string, rest: string)
    requires DefaultPort(protocol).Some?
    ensures ParseUri(protocol + "://" + rest) == ParseRest(protocol, DefaultPort(protocol).value, rest)
  {
    hide ParseRest, Separator;
    var uri := protocol + "://" + rest;
    SeparatorAt(uri, |protocol|);
    assert uri[..|protocol|] == protocol && uri[|protocol| + 3..] == rest;
  }

  // ---------------------------------------------------------------- the authority

  function PortDigits(us: UriStruct): string {
    if us.port != 0 && DefaultPort(us.protocol) != Some(us.port) then DecOf(us.port) else []
  }

  lemma UserTextPlain(us: UriStruct)
    requires PlainUser(us)
    ensures var u := UserText(us); Free(u, '#') && Free(u, '?') && Free(u, '/')
  {
    hide Encoded;
    EncodedIsPlain(us.username);
    EncodedIsPlain(us.password);
  }

  lemma HostTextPlain(us: UriStruct)
    requires PlainHost(us.host, us.ipv6LiteralAddress)
    ensures var hp := HostText(us) + PortText(us);
            && Free(hp, '#') && Free(hp, '?') && Free(hp, '/') && Free(hp, '@')
            && hp == HostText(us) + Port(PortDigits(us))
  {
    hide DecOf;
  }

  lemma AuthorityRead(us: UriStruct)
    requires PlainUser(us) && PlainHost(us.host, us.ipv6LiteralAddress)
    ensures var w := UserText(us) + HostText(us) + PortText(us);
            && Free(w, '#') && Free(w, '?') && Free(w, '/')
            && AuthorityOf(w) == Some(Authority(us.username, us.password, us.hasPassword, us.host,
                                                us.ipv6LiteralAddress, PortDigits(us)))
  {
    hide AuthorityOf, HostPort, UserText, PortText, PortDigits;
    var hp := HostText(us) + PortText(us);
    UserTextPlain(us);
    HostTextPlain(us);
    HostPortRead(us.host, us.ipv6LiteralAddress, PortDigits(us));
    UserRead(us, hp);
    assert UserText(us) + HostText(us) + PortText(us) == UserText(us) + hp;
  }

  // ---------------------------------------------------------------- the round trips

  /** Reading what construct wrote gives the very value it was given. */
  lemma RoundTrip(us: UriStruct)
    requires Plain(us)
    ensures ParseUri(Constructed(us)) == Some(us)
  {
    hide AuthorityOf, PortOf, UserText, HostText, PortText, ParseRest, ParseUri, PathParts, IsBytes;
    var au := UserText(us) + HostText(us) + PortText(us);
    AuthorityRead(us);
    PathRead(us.dir, us.file);
    PortOfDec(us.port);
    var defPort := DefaultPort(us.protocol).value;
    RestRead(us.protocol, defPort, au, us.dir + us.file, us.query);
    var rest := au + (us.dir + us.file) + us.query;
    SchemeRead(us.protocol, rest);
    assert Constructed(us) == us.protocol + "://" + rest;
  }

  lemma ConstructsNorm(us: UriStruct)
    requires DefaultPort(us.protocol).Some? && IsBytes(us.username) && IsBytes(us.password)
    ensures Constructed(Norm(us)) == Constructed(us)
  {
    assert UserText(Norm(us)) == UserText(us) && PortText(Norm(us)) == PortText(us);
  }

  lemma HostPortParts(hp: string)
    requires Free(hp, '#') && Free(hp, '?') && Free(hp, '/') && Free(hp, '@') && HostPort(hp).Some?
    ensures PlainHost(HostPort(hp).value.0, HostPort(hp).value.1)
  {
    hide Index;
    var host := HostPort(hp).value.0;
    if hp[0] == '[' {
      assert forall i :: 0 <= i < |host| ==> host[i] == hp[i + 1];
    }
  }

  lemma AuthorityParts(w: string)
    requires IsBytes(w) && Free(w, '#') && Free(w, '?') && Free(w, '/') && AuthorityOf(w).Some?
    ensures var au := AuthorityOf(w).value;
            && PlainHost(au.host, au.ipv6) && IsBytes(au.username) && IsBytes(au.password)
            && (!au.hasPassword ==> au.password == [])
  {
    hide Index, AfterLast, HostPort, Decoded, PlainHost;
    HostPortParts(w[AfterLast(w, '@')..]);
  }

  lemma PathPartsPlain(path: string)
    requires Free(path, '#') && Free(path, '?') && (path == [] || path[0] == '/')
    ensures PlainPath(PathParts(path).0, PathParts(path).1)
  {
    hide AfterLast;
  }

  lemma RestParts(protocol: string, defPort: nat, rest: string)
    requires IsBytes(rest) && Some(defPort) == DefaultPort(protocol) && ParseRest(protocol, defPort, rest).Some?
    ensures var us := ParseRest(protocol, defPort, rest).value;
            && us.protocol == protocol && Plain(Norm(us)) && IsBytes(us.username) && IsBytes(us.password)
            && (!us.hasPassword ==> us.password == [])
  {
    hide Index, AfterLast, AuthorityOf, PortOf, PathParts, PlainHost, PlainPath;
    var f := Index(rest, '#');
    var q := Index(rest[..f], '?');
    var w := rest[..q];
    var a := Index(w, '/');
    AuthorityParts(w[..a]);
    PathPartsPlain(w[a..]);
  }

  /** Every URI that parses is written back as a text that parses to its normal form; it is the same
      value exactly when the port was not 0 and no password came without a user name. */
  lemma Reparse(uri: string)
    requires IsBytes(uri) && ParseUri(uri).Some?
    ensures var us := ParseUri(uri).value;
            && IsBytes(us.username) && IsBytes(us.password) && DefaultPort(us.protocol).Some?
            && Plain(Norm(us))
            && ParseUri(Constructed(us)) == Some(Norm(us))
            && (ParseUri(Constructed(us)) == Some(us) <==> us.port != 0 && (us.username != [] || !us.hasPassword))
  {
    hide ParseRest, Separator, PlainHost, PlainPath, PlainQuery, Constructed;
    var k := Separator(uri).value;
    RestParts(uri[..k], DefaultPort(uri[..k]).value, uri[k + 3..]);
    var us := ParseUri(uri).value;
    ConstructsNorm(us);
    RoundTrip(Norm(us));
  }

  /** Writing and reading once reaches the normal form: doing it again changes nothing. */
  lemma NormIsStable(uri: string)
    requires IsBytes(uri) && ParseUri(uri).Some?
    ensures var us := ParseUri(uri).value;
            && IsBytes(us.username) && IsBytes(us.password) && ParseUri(Constructed(us)).Some?
            && var again := ParseUri(Constructed(us)).value;
            && IsBytes(again.username) && IsBytes(again.password)
            && Constructed(again) == Constructed(us) && ParseUri(Constructed(again)) == Some(again)
  {
    hide ParseUri, PlainHost, PlainPath, PlainQuery, Constructed;
    Reparse(uri);
    var us := ParseUri(uri).value;
    ConstructsNorm(us);
    RoundTrip(Norm(us));
  }

  // ---------------------------------------------------------------- schemes and their ports

  /** The parts of a URI without its scheme and port. */
  predicate PlainParts(us: UriStruct) {
    && PlainUser(us) && PlainHost(us.host, us.ipv6LiteralAddress) && PlainPath(us.dir, us.file) && PlainQuery(us.query)
  }

  /** A URI is written with http or https, or it is refused. */
  lemma OnlyHttp(uri: string)
    requires ParseUri(uri).Some?
    ensures var protocol := ParseUri(uri).value.protocol;
            || (protocol == "http" && "http://" <= uri)
            || (protocol == "https" && "https://" <= uri)
  {
    hide Separator, AuthorityOf, PathParts, PortOf;
    var k := Separator(uri).value;
    assert uri[..k + 3] == uri[..k] + "://";
    assert uri[..k] == "http" ==> uri[..k + 3] == "http://";
    assert uri[..k] == "https" ==> uri[..k + 3] == "https://";
  }

  lemma PortlessAuthority(us: UriStruct)
    requires PlainUser(us) && PlainHost(us.host, us.ipv6LiteralAddress)
    ensures var w := UserText(us) + HostText(us);
            && Free(w, '#') && Free(w, '?') && Free(w, '/')
            && AuthorityOf(w) == Some(Authority(us.username, us.password, us.hasPassword, us.host,
                                                us.ipv6LiteralAddress, []))
  {
    hide AuthorityOf, HostPort, UserText;
    var hp := HostText(us);
    UserTextPlain(us);
    HostPortRead(us.host, us.ipv6LiteralAddress, []);
    assert hp + Port([]) == hp;
    UserRead(us, hp);
  }

  /** Without a port text the port is 80 for http and 443 for https; any other scheme is refused. */
  lemma DefaultPorts(us: UriStruct)
    requires PlainParts(us) && Free(us.protocol, ':')
    ensures ParseUri(us.protocol + "://" + (UserText(us) + HostText(us) + (us.dir + us.file) + us.query)) ==
            if us.protocol == "http" then Some(us.(port := 80))
            else if us.protocol == "https" then Some(us.(port := 443))
            else None
  {
    hide AuthorityOf, PortOf, UserText, HostText, ParseRest, PathParts, Separator;
    var w := UserText(us) + HostText(us);
    PortlessAuthority(us);
    PathRead(us.dir, us.file);
    RestRead(us.protocol, 80, w, us.dir + us.file, us.query);
    RestRead(us.protocol, 443, w, us.dir + us.file, us.query);
    SchemeSeparated(us.protocol, w + (us.dir + us.file) + us.query);
  }

  lemma SchemeSeparated(protocol: string, rest: string)
    requires Free(protocol, ':')
    ensures var uri := protocol + "://" + rest;
            Separator(uri) == Some(|protocol|) && uri[..|protocol|] == protocol && uri[|protocol| + 3..] == rest
  {
    hide Separator;
    var uri := protocol + "://" + rest;
    assert forall j :: 0 <= j < |protocol| ==> uri[j] == protocol[j];
    SeparatorAt(uri, |protocol|);
  }

  /** A port is written exactly if it is neither 0 nor the port that the scheme stands for. */
  lemma PortWritten(us: UriStruct)
    requires PlainUser(us) && PlainHost(us.host, us.ipv6LiteralAddress)
    ensures var w := UserText(us) + HostText(us) + PortText(us);
            && us.protocol + "://" + w <= Constructed(us) && Free(w, '/') && AuthorityOf(w).Some?
            && var text := AuthorityOf(w).value.portText;
               if us.port == 0 || (us.protocol == "http" && us.port == 80) || (us.protocol == "https" && us.port == 443)
               then text == [] else text == DecOf(us.port)
  {
    hide AuthorityOf, UserText, HostText, Free, DecOf, DirText;
    AuthorityRead(us);
    var w := UserText(us) + HostText(us) + PortText(us);
    assert Constructed(us) == us.protocol + "://" + w + (DirText(us) + us.file + us.query);
  }

  // ---------------------------------------------------------------- what does not survive

  const NOBODY := UriStruct("http", "h", 0, "/", [], [], [], [], false, false)

  /** Port 0 is read, and written as no port. */
  lemma PortZero()
    ensures ParseUri("http" + "://" + ("h:0" + "/" + [])) == Some(NOBODY)
    ensures ParseUri(Constructed(NOBODY)) == Some(NOBODY.(port := 80))
  {
    hide AuthorityOf, HostPort, PortOf, ParseUri, ParseRest, AfterLast;
    HostPortRead("h", false, "0");
    UserRead(NOBODY, "h:0");
    assert UserText(NOBODY) + "h:0" == "h:0" && "h" + Port("0") == "h:0";
    assert DecOf(0) == "0";
    PortOfDec(0);
    PathRead("/", []);
    assert "/" + [] == "/";
    RestRead("http", 80, "h:0", "/", []);
    SchemeRead("http", "h:0" + "/" + []);
    var us := NOBODY.(port := 80);
    RoundTrip(us);
    ConstructsNorm(NOBODY);
    assert Norm(NOBODY) == us;
  }

  /** A password without a user name is read, and not written. */
  lemma PasswordAlone()
    ensures AuthorityOf(":p@h") == Some(Authority([], "p", true, "h", false, []))
    ensures var us := NOBODY.(port := 80, password := "p", hasPassword := true);
            && ParseUri("http" + "://" + (":p@h" + "/" + [])) == Some(us)
            && ParseUri(Constructed(us)) == Some(NOBODY.(port := 80))
  {
    hide HostPort, ParseUri, ParseRest, AfterLast, Index;
    var w := ":p@h";
    AfterLastUnique(w, '@', 3);
    assert w[3..] == "h" && w[..2] == ":p";
    IndexUnique(":p", ':', 0);
    assert ":p"[..0] == [] && ":p"[1..] == "p";
    assert Decoded("p") == "p" && Decoded([]) == [] by {
      assert "p"[1..] == [];
    }
    HostPortRead("h", false, []);
    assert "h" + Port([]) == "h";
    PathRead("/", []);
    assert "/" + [] == "/";
    RestRead("http", 80, w, "/", []);
    SchemeRead("http", w + "/" + []);
    var us := NOBODY.(port := 80, password := "p", hasPassword := true);
    RoundTrip(NOBODY.(port := 80));
    ConstructsNorm(us);
    assert Norm(us) == NOBODY.(port := 80);
  }
}
