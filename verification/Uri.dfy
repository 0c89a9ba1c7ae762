/**
 Parsing and constructing URIs: construct undoes parse, up to a normal form.
 */
module Uri {
  import opened HttpTypes
  import opened HttpNumbers
  import opened Percent

  datatype UriStruct = UriStruct(
    protocol: string, host: string, port: nat, dir: string, file: string, query: string,
    username: string, password: string, hasPassword: bool, ipv6LiteralAddress: bool)

  const TWO32: int := 0x1_0000_0000
  const LONG_MAX: int := 0x7FFF_FFFF_FFFF_FFFF

  // ---------------------------------------------------------------- searching

  /** The first position of `c`, or the length. */
  function Index(s: string, c: char): (r: nat)
    ensures r <= |s| && (r < |s| ==> s[r] == c) && forall i :: 0 <= i < r ==> s[i] != c
  {
    if s == [] || s[0] == c then 0 else 1 + Index(s[1..], c)
  }

  /** The position after the last `c`, or 0. */
  function AfterLast(s: string, c: char): (r: nat)
    ensures r <= |s| && (0 < r ==> s[r - 1] == c) && forall i :: r <= i < |s| ==> s[i] != c
  {
    if s == [] then 0 else if s[|s| - 1] == c then |s| else AfterLast(s[..|s| - 1], c)
  }

  predicate SeparatesAt(s: string, j: int) {
    0 <= j && j + 3 <= |s| && s[j] == ':' && s[j + 1] == '/' && s[j + 2] == '/'
  }

  /** The first position of "://". */
  function Separator(s: string): (r: Option<nat>)
    ensures r.Some? ==> SeparatesAt(s, r.value)
  {
    if |s| < 3 then None
    else if SeparatesAt(s, 0) then Some(0)
    else match Separator(s[1..])
      case None => None
      case Some(k) => Some(k + 1)
  }

  predicate Free(s: string, c: char) {
    forall i :: 0 <= i < |s| ==> s[i] != c
  }

  lemma IndexUnique(s: string, c: char, r: nat)
    requires r <= |s| && (r < |s| ==> s[r] == c) && forall i :: 0 <= i < r ==> s[i] != c
    ensures Index(s, c) == r
  {
  }

  lemma AfterLastUnique(s: string, c: char, r: nat)
    requires r <= |s| && (0 < r ==> s[r - 1] == c) && forall i :: r <= i < |s| ==> s[i] != c
    ensures AfterLast(s, c) == r
  {
  }

  /** Searching goes past a part that does not have the character. */
  lemma IndexPast(a: string, b: string, c: char)
    requires Free(a, c)
    ensures Index(a + b, c) == |a| + Index(b, c)
  {
    IndexUnique(a + b, c, |a| + Index(b, c));
  }

  // ---------------------------------------------------------------- the port

  predicate IsSpace(c: char) {
    c == ' ' || c == '\t' || c == '\n' || c == '\r' || c == '\U{000B}' || c == '\U{000C}'
  }

  /** The number spelled by the digits in front, on top of `acc`. */
  function Digits(w: string, acc: nat): nat
    decreases |w|
  {
    if w == [] || !IsNum(w[0]) then acc
    else Digits(w[1..], acc * 10 + (w[0] as int - '0' as int))
  }

  function SkipSpaces(w: string): string {
    if w != [] && IsSpace(w[0]) then SkipSpaces(w[1..]) else w
  }

  /** strtol in base 10; None when it reports a range error. */
  function Strtol(w: string): Option<int> {
    var t := SkipSpaces(w);
    var negative := t != [] && t[0] == '-';
    var signed := negative || (t != [] && t[0] == '+');
    var n := Digits(if signed then t[1..] else t, 0);
    if negative then (if n > LONG_MAX + 1 then None else Some(0 - n as int))
    else if n > LONG_MAX then None
    else Some(n)
  }

  /** The port of a port text that is not empty: the number is cut to 32 bits before the limit is
      checked. */
  function PortOf(w: string): (r: Option<nat>)
    ensures r.Some? ==> r.value <= 65535
  {
    match Strtol(w)
    case None => None
    case Some(v) => if v % TWO32 > 65535 then None else Some(v % TWO32)
  }

  // ---------------------------------------------------------------- specification of parse

  function DefaultPort(protocol: string): Option<nat> {
    if protocol == "http" then Some(80) else if protocol == "https" then Some(443) else None
  }

  datatype Authority = Authority(username: string, password: string, hasPassword: bool,
                                 host: string, ipv6: bool, portText: string)

  /** Host and port text of an authority without its user information. */
  function HostPort(hp: string): Option<(string, bool, string)> {
    if hp != [] && hp[0] == '[' then
      var j := Index(hp, ']');
      if j == |hp| then None
      else if j + 1 == |hp| then Some((hp[1..j], true, []))
      else if hp[j + 1] == ':' then Some((hp[1..j], true, hp[j + 2..]))
      else None
    else
      var j := Index(hp, ':');
      if j == 0 then None
      else Some((hp[..j], false, if j < |hp| then hp[j + 1..] else []))
  }

  function AuthorityOf(w: string): Option<Authority> {
    var h := AfterLast(w, '@');
    match HostPort(w[h..])
    case None => None
    case Some((host, v6, portText)) =>
      if h == 0 then Some(Authority([], [], false, host, v6, portText))
      else
        var ui := w[..h - 1];
        var colon := Index(ui, ':');
        Some(Authority(Decoded(ui[..colon]), if colon < |ui| then Decoded(ui[colon + 1..]) else [], colon < |ui|,
                       host, v6, portText))
  }

  /** Directory, with its last slash, and file of a path. */
  function PathParts(path: string): (string, string) {
    var d := AfterLast(path, '/');
    (if d == 0 then "/" else path[..d], path[d..])
  }

  function Assemble(protocol: string, defPort: nat, authority: Option<Authority>, path: string, query: string)
    : Option<UriStruct>
  {
    match authority
    case None => None
    case Some(au) =>
      match if au.portText == [] then Some(defPort) else PortOf(au.portText)
      case None => None
      case Some(port) =>
        var (dir, file) := PathParts(path);
        Some(UriStruct(protocol, au.host, port, dir, file, query, au.username, au.password, au.hasPassword, au.ipv6))
  }

  /** Everything after "://": authority, path, query and fragment. */
  function ParseRest(protocol: string, defPort: nat, rest: string): Option<UriStruct> {
    var f := Index(rest, '#');
    var q := Index(rest[..f], '?');
    var w := rest[..q];
    var a := Index(w, '/');
    Assemble(protocol, defPort, AuthorityOf(w[..a]), w[a..], rest[q..f])
  }

  function ParseUri(uri: string): Option<UriStruct> {
    match Separator(uri)
    case None => None
    case Some(k) =>
      match DefaultPort(uri[..k])
      case None => None
      case Some(defPort) => ParseRest(uri[..k], defPort, uri[k + 3..])
  }

  // ---------------------------------------------------------------- specification of construct

  function UserText(us: UriStruct): string
    requires IsBytes(us.username) && IsBytes(us.password)
  {
    if us.username == [] then []
    else Encoded(us.username) + (if us.hasPassword then ":" + Encoded(us.password) else []) + "@"
  }

  function HostText(us: UriStruct): string {
    if us.ipv6LiteralAddress then "[" + us.host + "]" else us.host
  }

  function PortText(us: UriStruct): string {
    if us.port != 0 && DefaultPort(us.protocol) != Some(us.port) then ":" + DecOf(us.port) else []
  }

  function DirText(us: UriStruct): string {
    if us.dir == [] || us.dir[|us.dir| - 1] != '/' then us.dir + "/" else us.dir
  }

  function Constructed(us: UriStruct): string
    requires IsBytes(us.username) && IsBytes(us.password)
  {
    us.protocol + "://" + (UserText(us) + HostText(us) + PortText(us)) + DirText(us) + us.file + us.query
  }

  // ---------------------------------------------------------------- the loops

  method Scan(s: string, c: char) returns (r: nat)
    ensures r == Index(s, c)
  {
    r := 0;
    while r != |s|
      invariant r <= |s| && forall i :: 0 <= i < r ==> s[i] != c
    {
      if s[r] == c {
        break;
      }
      r := r + 1;
    }
    IndexUnique(s, c, r);
  }

  /** The loop that looks for the last '@', from the end. */
  method ScanBack(s: string, c: char) returns (r: nat)
    ensures r == AfterLast(s, c)
  {
    r := |s|;
    while r != 0
      invariant r <= |s| && forall i :: r <= i < |s| ==> s[i] != c
    {
      if s[r - 1] == c {
        break;
      }
      r := r - 1;
    }
    AfterLastUnique(s, c, r);
  }

  /** The loop that looks for the last '/', from the front. */
  method ScanLast(s: string, c: char) returns (r: nat)
    ensures r == AfterLast(s, c)
  {
    r := 0;
    for i := 0 to |s|
      invariant r <= i && (0 < r ==> s[r - 1] == c) && forall k :: r <= k < i ==> s[k] != c
    {
      if s[i] == c {
        r := i + 1;
      }
    }
    AfterLastUnique(s, c, r);
  }

  lemma {:induction false} SeparatorAt(s: string, r: nat)
    requires r + 3 <= |s| ==> SeparatesAt(s, r)
    requires forall j :: 0 <= j < r ==> !SeparatesAt(s, j)
    ensures Separator(s) == if r + 3 <= |s| then Some(r) else None
  {
    if |s| >= 3 && r > 0 {
      forall j | 0 <= j < r - 1 ensures !SeparatesAt(s[1..], j) {
        assert !SeparatesAt(s, j + 1);
      }
      SeparatorAt(s[1..], r - 1);
    }
  }

  method FindSeparator(s: string) returns (r: Option<nat>)
    ensures r == Separator(s)
  {
    hide Separator;
    var i := 0;
    while i + 3 <= |s|
      invariant forall j :: 0 <= j < i ==> !SeparatesAt(s, j)
    {
      if SeparatesAt(s, i) {
        SeparatorAt(s, i);
        return Some(i);
      }
      i := i + 1;
    }
    SeparatorAt(s, i);
    return None;
  }

  method ParseAuthority(w: string) returns (r: Option<Authority>)
    ensures r == AuthorityOf(w)
  {
    hide Index, AfterLast, Decoded;
    var username, password, hasPassword := "", "", false;
    var hostPortFirst := ScanBack(w, '@');
    if hostPortFirst != 0 {
      var ui := w[..hostPortFirst - 1];
      var userLast := Scan(ui, ':');
      if userLast != |ui| {
        password := PercentDecode(ui[userLast + 1..]);
        hasPassword := true;
      }
      username := PercentDecode(ui[..userLast]);
    }
    var hp := w[hostPortFirst..];
    var portFirst := |hp|;
    if hp != [] && hp[0] == '[' {
      var hostLast := Scan(hp, ']');
      if hostLast == |hp| {
        return None;
      }
      hostLast := hostLast + 1;
      if hostLast != |hp| {
        if hp[hostLast] != ':' {
          return None;
        }
        portFirst := hostLast + 1;
      }
      assert hp[|hp|..] == [];
      return Some(Authority(username, password, hasPassword, hp[1..hostLast - 1], true, hp[portFirst..]));
    } else {
      var hostLast := Scan(hp, ':');
      if hostLast != |hp| {
        portFirst := hostLast + 1;
      }
      if hostLast == 0 {
        return None;
      }
      assert hp[|hp|..] == [];
      return Some(Authority(username, password, hasPassword, hp[..hostLast], false, hp[portFirst..]));
    }
  }

  lemma SchemePlain(uri: string, k: nat)
    requires SeparatesAt(uri, k) && DefaultPort(uri[..k]).Some?
    ensures Free(uri[..k + 3], '#') && Free(uri[..k + 3], '?')
  {
    assert forall i :: 0 <= i < k ==> uri[..k][i] == uri[i];
  }

  /** The bounds of query and authority, found in the whole string. */
  lemma Bounds(uri: string, k: nat)
    requires SeparatesAt(uri, k) && DefaultPort(uri[..k]).Some?
    ensures var rest := uri[k + 3..];
            var f := Index(rest, '#');
            && Index(uri, '#') == k + 3 + f
            && Index(uri[..k + 3 + f], '?') == k + 3 + Index(rest[..f], '?')
  {
    SchemePlain(uri, k);
    var rest := uri[k + 3..];
    assert uri == uri[..k + 3] + rest;
    IndexPast(uri[..k + 3], rest, '#');
    var f := Index(rest, '#');
    assert uri[..k + 3 + f] == uri[..k + 3] + rest[..f];
    IndexPast(uri[..k + 3], rest[..f], '?');
  }

  method ParsePath(path: string) returns (dir: string, file: string)
    ensures (dir, file) == PathParts(path)
  {
    var dirLast := ScanLast(path, '/');
    file := path[dirLast..];
    dir := if dirLast == 0 then "/" else path[..dirLast];
  }

  /** parse, from the authority on. */
  method ParseFrom(uri: string, protocol: string, defPort: nat, authorityFirst: nat, queryFirst: nat, query: string)
    returns (r: Option<UriStruct>)
    requires authorityFirst <= queryFirst <= |uri|
    ensures var w := uri[authorityFirst..queryFirst];
            var a := Index(w, '/');
            r == Assemble(protocol, defPort, AuthorityOf(w[..a]), w[a..], query)
  {
    hide Index, AfterLast, AuthorityOf, PortOf, PathParts;
    var w := uri[authorityFirst..queryFirst];
    var authorityLast := Scan(w, '/');
    var au := ParseAuthority(w[..authorityLast]);
    if au.None? {
      return None;
    }
    var port := if au.value.portText == [] then Some(defPort) else PortOf(au.value.portText);
    if port.None? {
      return None;
    }
    var dir, file := ParsePath(w[authorityLast..]);
    return Some(UriStruct(protocol, au.value.host, port.value, dir, file, query, au.value.username,
                          au.value.password, au.value.hasPassword, au.value.ipv6));
  }

  lemma Slices(uri: string, k: nat, f: nat, q: nat)
    requires k <= q <= f <= |uri|
    ensures uri[k..][..q - k] == uri[k..q] && uri[k..][q - k..f - k] == uri[q..f]
  {
  }

  /** parse */
  method Parse(uri: string) returns (r: Option<UriStruct>)
    ensures r == ParseUri(uri)
  {
    hide Index, AfterLast, AuthorityOf, PortOf, Separator, Assemble, DefaultPort;
    var fragmentFirst := Scan(uri, '#');
    var queryFirst := Scan(uri[..fragmentFirst], '?');
    var query := uri[queryFirst..fragmentFirst];
    var separator := FindSeparator(uri);
    if separator.None? {
      return None;
    }
    var k := separator.value;
    var defPort := DefaultPort(uri[..k]);
    if defPort.None? {
      return None;
    }
    Bounds(uri, k);
    Slices(uri, k + 3, fragmentFirst, queryFirst);
    r := ParseFrom(uri, uri[..k], defPort.value, k + 3, queryFirst, query);
  }

  method WriteUser(text: string, us: UriStruct) returns (res: string)
    requires IsBytes(us.username) && IsBytes(us.password)
    ensures res == text + UserText(us)
  {
    hide Encoded, IsBytes;
    res := text;
    if us.username != [] {
      var user := PercentEncode(us.username);
      res := res + user;
      if us.hasPassword {
        res := res + ":";
        var password := PercentEncode(us.password);
        res := res + password;
      }
      res := res + "@";
    }
  }

  method WriteHost(text: string, us: UriStruct) returns (res: string)
    ensures res == text + (HostText(us) + PortText(us))
  {
    hide DecOf;
    res := text;
    if us.ipv6LiteralAddress {
      res := res + "[";
      res := res + us.host;
      res := res + "]";
    } else {
      res := res + us.host;
    }
    var defPort := DefaultPort(us.protocol);
    if us.port != 0 && defPort != Some(us.port) {
      res := res + (":" + DecOf(us.port));
    }
  }

  /** construct */
  method Construct(us: UriStruct) returns (res: string)
    requires IsBytes(us.username) && IsBytes(us.password)
    ensures res == Constructed(us)
  {
    hide UserText, HostText, PortText, IsBytes;
    res := us.protocol;
    res := res + "://";
    res := WriteUser(res, us);
    res := WriteHost(res, us);
    res := res + us.dir;
    if us.dir == [] || us.dir[|us.dir| - 1] != '/' {
      res := res + "/";
    }
    res := res + us.file;
    res := res + us.query;
  }
}
