/**
 joinUri: a reference resolved against a base stays at the base's origin, and its path has no "." or
 ".." segment left.
 */
module UriJoin {
  import opened Percent
  import opened Uri
  import opened UriRoundTrip

  // ---------------------------------------------------------------- split and strjoin

  /** The piece in front of the first slash, if there is one. */
  function Piece(s: string): seq<string> {
    var j := Index(s, '/');
    if j == 0 then [] else [s[..j]]
  }

  /** What follows the first slash. */
  function Beyond(s: string): (r: string)
    ensures s != [] ==> |r| < |s|
  {
    var j := Index(s, '/');
    if j < |s| then s[j + 1..] else []
  }

  /** The pieces between slashes that are not empty. */
  function Split(s: string): seq<string>
    decreases |s|
  {
    if s == [] then [] else Piece(s) + Split(Beyond(s))
  }

  /** split */
  method SplitInto(s: string, parts: seq<string>) returns (out: seq<string>)
    ensures out == parts + Split(s)
  {
    hide Index, Split;
    out := parts;
    var i := 0;
    assert s[0..] == s;
    while i != |s|
      invariant i <= |s| && out + Split(s[i..]) == parts + Split(s)
    {
      var w := s[i..];
      var j := Scan(w, '/');
      SplitStep(w);
      if j != 0 {
        out := out + [w[..j]];
      }
      i := i + j;
      if i != |s| {
        i := i + 1;
      }
      assert Beyond(w) == s[i..];
    }
    SplitNone();
    assert s[|s|..] == [];
  }

  lemma SplitStep(s: string)
    requires s != []
    ensures Split(s) == Piece(s) + Split(Beyond(s))
  {
    hide Piece, Beyond;
  }

  lemma SplitNone()
    ensures Split([]) == []
  {
  }

  function StrJoin(es: seq<string>): string {
    if es == [] then [] else if |es| == 1 then es[0] else es[0] + "/" + StrJoin(es[1..])
  }

  /** strjoin with "/" */
  method JoinStrings(es: seq<string>) returns (result: string)
    ensures result == StrJoin(es)
  {
    result := "";
    if es == [] {
      return;
    }
    for i := 0 to |es| - 1
      invariant result + StrJoin(es[i..]) == StrJoin(es)
    {
      assert es[i..][1..] == es[i + 1..];
      result := result + es[i];
      result := result + "/";
    }
    result := result + es[|es| - 1];
  }

  predicate IsSegment(e: string) { e != [] && Free(e, '/') }

  predicate Segments(es: seq<string>) {
    forall i :: 0 <= i < |es| ==> IsSegment(es[i])
  }

  lemma {:induction false} SplitSegments(s: string)
    ensures Segments(Split(s))
    decreases |s|
  {
    hide Index, Split;
    if s == [] {
      SplitNone();
    } else {
      SplitStep(s);
      SplitSegments(Beyond(s));
    }
  }

  lemma {:induction false} SplitFree(s: string, c: char)
    requires Free(s, c)
    ensures forall i :: 0 <= i < |Split(s)| ==> Free(Split(s)[i], c)
    decreases |s|
  {
    hide Index, Split;
    if s == [] {
      SplitNone();
    } else {
      SplitStep(s);
      SplitFree(Beyond(s), c);
    }
  }

  lemma SplitSegment(e: string)
    requires IsSegment(e)
    ensures Split(e) == [e]
  {
    hide Index, Split;
    IndexUnique(e, '/', |e|);
    assert e[..|e|] == e;
    SplitStep(e);
    SplitNone();
  }

  /** A slash is a cut. */
  lemma {:induction false} SplitAtSlash(a: string, b: string)
    ensures Split(a + "/" + b) == Split(a) + Split(b)
    decreases |a|
  {
    hide Index, Split;
    var w := a + "/" + b;
    SplitStep(w);
    SplitNone();
    if a == [] {
      IndexUnique(w, '/', 0);
      assert Beyond(w) == b;
    } else {
      SplitStep(a);
      var j := Index(a, '/');
      IndexUnique(w, '/', j);
      assert w[..j] == a[..j];
      if j < |a| {
        assert Beyond(w) == Beyond(a) + "/" + b;
        SplitAtSlash(Beyond(a), b);
      } else {
        assert Beyond(w) == b;
      }
    }
  }

  /** split undoes strjoin. */
  lemma {:induction false} SplitJoin(es: seq<string>)
    requires Segments(es)
    ensures Split(StrJoin(es)) == es
  {
    if es != [] {
      SplitSegment(es[0]);
      if |es| > 1 {
        SplitAtSlash(es[0], StrJoin(es[1..]));
        SplitJoin(es[1..]);
      }
    }
  }

  lemma {:induction false} JoinFree(es: seq<string>, c: char)
    requires c != '/' && forall i :: 0 <= i < |es| ==> Free(es[i], c)
    ensures Free(StrJoin(es), c)
  {
    if |es| > 1 {
      JoinFree(es[1..], c);
    }
  }

  /** The last segment is what follows the last slash. */
  lemma {:induction false} JoinLast(es: seq<string>)
    requires Segments(es) && es != []
    ensures var w := StrJoin(es); var n := |es[|es| - 1]|;
            && n <= |w| && w[|w| - n..] == es[|es| - 1]
            && (|w| == n || w[|w| - n - 1] == '/')
            && w[|w| - 1] != '/'
  {
    if |es| > 1 {
      JoinLast(es[1..]);
      var w, v, n := StrJoin(es), StrJoin(es[1..]), |es[|es| - 1]|;
      assert w == es[0] + "/" + v;
      assert w[|w| - n..] == v[|v| - n..];
      assert w[|w| - |v| - 1] == '/';
      assert w[|w| - 1] == v[|v| - 1];
    }
  }

  // ---------------------------------------------------------------- dot segments

  function Push(stack: seq<string>, x: string): seq<string> {
    if x == ".." then (if stack == [] then [] else stack[..|stack| - 1])
    else if x == "." then stack
    else stack + [x]
  }

  function ResolveOnto(stack: seq<string>, parts: seq<string>): seq<string>
    decreases |parts|
  {
    if parts == [] then stack else ResolveOnto(Push(stack, parts[0]), parts[1..])
  }

  function Resolve(parts: seq<string>): seq<string> {
    ResolveOnto([], parts)
  }

  /** joinPath */
  method JoinPath(parts: seq<string>) returns (r: string)
    ensures r == StrJoin(Resolve(parts))
  {
    var elements: seq<string> := [];
    for i := 0 to |parts|
      invariant ResolveOnto(elements, parts[i..]) == Resolve(parts)
    {
      assert parts[i..][1..] == parts[i + 1..];
      if parts[i] == ".." {
        if elements != [] {
          elements := elements[..|elements| - 1];
        }
      } else if parts[i] != "." {
        elements := elements + [parts[i]];
      }
    }
    r := JoinStrings(elements);
  }

  lemma {:induction false} ResolveConcat(stack: seq<string>, a: seq<string>, b: seq<string>)
    ensures ResolveOnto(stack, a + b) == ResolveOnto(ResolveOnto(stack, a), b)
    decreases |a|
  {
    if a == [] {
      assert a + b == b;
    } else {
      assert (a + b)[1..] == a[1..] + b;
      ResolveConcat(Push(stack, a[0]), a[1..], b);
    }
  }

  /** A name and a ".." after it cancel, wherever they stand; a "." counts for nothing; a ".." that has
      nothing before it counts for nothing. */
  lemma DotSegments(a: seq<string>, x: string, b: seq<string>)
    requires x != "." && x != ".."
    ensures Resolve(a + [x, ".."] + b) == Resolve(a + b)
    ensures Resolve(a + ["."] + b) == Resolve(a + b)
    ensures Resolve([".."] + b) == Resolve(b)
  {
    var st := Resolve(a);
    ResolveConcat([], a, b);
    ResolveConcat([], a, [x, ".."] + b);
    assert a + ([x, ".."] + b) == a + [x, ".."] + b;
    assert ([x, ".."] + b)[1..] == [".."] + b;
    assert ([".."] + b)[1..] == b;
    assert (st + [x])[..|st|] == st;
    assert ResolveOnto(st, [x, ".."] + b) == ResolveOnto(st + [x], [".."] + b) == ResolveOnto(st, b);
    ResolveConcat([], a, ["."] + b);
    assert a + (["."] + b) == a + ["."] + b;
    assert (["."] + b)[1..] == b;
  }

  predicate Dotless(es: seq<string>) {
    forall i :: 0 <= i < |es| ==> es[i] != "." && es[i] != ".."
  }

  /** Every segment that is left comes from the parts, and none is "." or "..". */
  lemma {:induction false} ResolveLeaves(stack: seq<string>, parts: seq<string>)
    requires Dotless(stack)
    ensures Dotless(ResolveOnto(stack, parts))
    ensures forall e :: e in ResolveOnto(stack, parts) ==> e in stack || e in parts
    decreases |parts|
  {
    if parts != [] {
      ResolveLeaves(Push(stack, parts[0]), parts[1..]);
      forall e | e in ResolveOnto(stack, parts) ensures e in stack || e in parts {
        if e !in Push(stack, parts[0]) {
          assert e in parts[1..];
        } else if e !in stack {
          assert e == parts[0];
        }
      }
    }
  }

  /** The parts that survive, read from the right: a ".." takes the next name to its left. */
  function Survivors(parts: seq<string>, taken: nat): seq<string> {
    if parts == [] then []
    else
      var x, before := parts[|parts| - 1], parts[..|parts| - 1];
      if x == ".." then Survivors(before, taken + 1)
      else if x == "." then Survivors(before, taken)
      else if taken > 0 then Survivors(before, taken - 1)
      else Survivors(before, 0) + [x]
  }

  lemma {:induction false} ResolvedSurvive(parts: seq<string>, taken: nat)
    ensures var es := Resolve(parts);
            Survivors(parts, taken) == es[..if taken <= |es| then |es| - taken else 0]
    decreases |parts|
  {
    if parts != [] {
      var x, before := parts[|parts| - 1], parts[..|parts| - 1];
      assert parts == before + [x];
      ResolveConcat([], before, [x]);
      assert [x][1..] == [];
      var es := Resolve(before);
      assert Resolve(parts) == Push(es, x);
      if x == ".." {
        ResolvedSurvive(before, taken + 1);
      } else if x == "." {
        ResolvedSurvive(before, taken);
      } else if taken > 0 {
        ResolvedSurvive(before, taken - 1);
        assert taken <= |es| + 1 ==> (es + [x])[..|es| + 1 - taken] == es[..|es| - (taken - 1)];
      } else {
        ResolvedSurvive(before, 0);
        assert es[..|es|] == es && (es + [x])[..|es| + 1] == es + [x];
      }
    }
  }

  /** The stack of joinPath keeps exactly the parts that no ".." takes. */
  lemma ResolveIsSurvivors(parts: seq<string>)
    ensures Resolve(parts) == Survivors(parts, 0)
  {
    ResolvedSurvive(parts, 0);
    assert Resolve(parts)[..|Resolve(parts)|] == Resolve(parts);
  }

  // ---------------------------------------------------------------- joinUri

  function QueryEnd(ref: string): nat { Index(ref, '#') }

  function PathEnd(ref: string): nat { Index(ref[..QueryEnd(ref)], '?') }

  function Parts(bus: UriStruct, ref: string): seq<string> {
    (if ref == [] || ref[0] != '/' then Split(bus.dir) else []) + Split(ref[..PathEnd(ref)])
  }

  predicate AsksDirectory(ref: string) {
    PathEnd(ref) == 0 || ref[PathEnd(ref) - 1] == '/'
  }

  function PathTo(bus: UriStruct, ref: string): string {
    var es := Resolve(Parts(bus, ref));
    "/" + StrJoin(es) + (if AsksDirectory(ref) && es != [] then "/" else [])
  }

  function Origin(bus: UriStruct): UriStruct {
    bus.(dir := [], file := [], query := [])
  }

  function Head(bus: UriStruct): string
    requires IsBytes(bus.username) && IsBytes(bus.password)
  {
    bus.protocol + "://" + (UserText(bus) + HostText(bus) + PortText(bus))
  }

  /** The reference `ref` at the base `bus`. */
  function Target(bus: UriStruct, ref: string): string
    requires IsBytes(bus.username) && IsBytes(bus.password)
  {
    Head(bus) + PathTo(bus, ref) + ref[PathEnd(ref)..QueryEnd(ref)]
  }

  lemma OriginText(bus: UriStruct)
    requires IsBytes(bus.username) && IsBytes(bus.password)
    ensures Constructed(Origin(bus)) == Head(bus) + "/"
  {
    hide Encoded;
  }

  lemma PartsResolved(bus: UriStruct, ref: string)
    ensures var es := Resolve(Parts(bus, ref)); Segments(es) && Dotless(es)
  {
    hide Split, ResolveOnto, IsSegment, Index;
    var parts := Parts(bus, ref);
    SplitSegments(bus.dir);
    SplitSegments(ref[..PathEnd(ref)]);
    ResolveLeaves([], parts);
    forall e | e in Resolve(parts) ensures IsSegment(e) {
      assert e in parts;
    }
  }

  lemma PathEnds(es: seq<string>)
    requires Segments(es)
    ensures StrJoin(es) == [] <==> es == []
    ensures es != [] ==> StrJoin(es)[|StrJoin(es)| - 1] != '/'
  {
    if es != [] {
      JoinLast(es);
    }
  }

  /** joinUri */
  method JoinUri(baseUri: string, uri: string) returns (res: string)
    requires IsBytes(baseUri)
    ensures ParseUri(uri).Some? || ParseUri(baseUri).None? ==> res == uri
    ensures ParseUri(uri).None? && ParseUri(baseUri).Some? ==>
              var bus := ParseUri(baseUri).value;
              IsBytes(bus.username) && IsBytes(bus.password) && res == Target(bus, uri)
  {
    hide Index, Split, StrJoin, Resolve, ParseUri, Head, IsBytes, Plain, Norm, Constructed;
    var us := Parse(uri);
    if us.Some? {
      return uri;
    }
    var bus := Parse(baseUri);
    if bus.None? {
      return uri;
    }
    Reparse(baseUri);
    var parts: seq<string> := [];
    if uri == [] || uri[0] != '/' {
      parts := SplitInto(bus.value.dir, parts);
    }
    var qend := Scan(uri, '#');
    var end := Scan(uri[..qend], '?');
    assert parts == if uri == [] || uri[0] != '/' then Split(bus.value.dir) else [];
    parts := SplitInto(uri[..end], parts);
    res := Construct(Origin(bus.value));
    OriginText(bus.value);
    PartsResolved(bus.value, uri);
    PathEnds(Resolve(parts));
    var path := JoinPath(parts);
    res := res + path;
    if (end == 0 || uri[end - 1] == '/') && res[|res| - 1] != '/' {
      res := res + "/";
    }
    assert res == Head(bus.value) + PathTo(bus.value, uri);
    res := res + uri[end..qend];
  }

  // ---------------------------------------------------------------- staying at the origin

  lemma PartsFree(bus: UriStruct, ref: string, c: char)
    requires Free(bus.dir, c) && Free(ref[..PathEnd(ref)], c) && c != '/'
    ensures Free(PathTo(bus, ref), c)
  {
    hide Split, ResolveOnto, StrJoin, Index;
    var parts := Parts(bus, ref);
    SplitFree(bus.dir, c);
    SplitFree(ref[..PathEnd(ref)], c);
    ResolveLeaves([], parts);
    var es := Resolve(parts);
    forall i | 0 <= i < |es| ensures Free(es[i], c) {
      assert es[i] in parts;
    }
    JoinFree(es, c);
  }

  lemma PathToFile(bus: UriStruct, ref: string)
    ensures var es := Resolve(Parts(bus, ref));
            PathParts(PathTo(bus, ref)).1 == if es == [] || AsksDirectory(ref) then [] else es[|es| - 1]
  {
    hide AfterLast, Parts, Resolve, StrJoin, AsksDirectory;
    var es, path := Resolve(Parts(bus, ref)), PathTo(bus, ref);
    PartsResolved(bus, ref);
    if es == [] {
      PathEnds(es);
      AfterLastUnique(path, '/', 1);
    } else if AsksDirectory(ref) {
      AfterLastUnique(path, '/', |path|);
    } else {
      JoinLast(es);
      var e := es[|es| - 1];
      assert path[|path| - |e|..] == e;
      assert path[|path| - |e| - 1] == '/';
      forall i | |path| - |e| <= i < |path| ensures path[i] != '/' {
        assert path[i] == e[i - (|path| - |e|)];
      }
      AfterLastUnique(path, '/', |path| - |e|);
    }
  }

  lemma PathToSplit(bus: UriStruct, ref: string)
    ensures Split(PathTo(bus, ref)) == Resolve(Parts(bus, ref))
  {
    hide Parts, Resolve, StrJoin, AsksDirectory, Index, Split;
    SplitNone();
    var es, path := Resolve(Parts(bus, ref)), PathTo(bus, ref);
    PartsResolved(bus, ref);
    SplitJoin(es);
    var w := StrJoin(es);
    SplitAtSlash([], w);
    assert [] + "/" + w == "/" + w;
    if path != "/" + w {
      SplitAtSlash("/" + w, []);
      assert "/" + w + "/" + [] == path;
    }
  }

  /** A reference that is not a URI itself, resolved against a base that is one, is a URI: scheme, user,
      host and port are the base's; the query is the reference's; the path has the segments of the base's
      directory and of the reference with every "." and ".." worked off. */
  lemma JoinKeepsOrigin(baseUri: string, ref: string)
    requires IsBytes(baseUri) && ParseUri(baseUri).Some?
    ensures var bus := ParseUri(baseUri).value;
            && IsBytes(bus.username) && IsBytes(bus.password) && DefaultPort(bus.protocol).Some?
            && var r := ParseUri(Target(bus, ref));
            var es := Resolve(Parts(bus, ref));
            && r.Some?
            && r.value == Norm(bus).(dir := r.value.dir, file := r.value.file,
               query := ref[PathEnd(ref)..QueryEnd(ref)])
            && Split(r.value.dir + r.value.file) == es && Dotless(es)
            && r.value.file == if es == [] || AsksDirectory(ref) then [] else es[|es| - 1]
  {
    hide ParseUri, Parts, Resolve, Split, StrJoin, AsksDirectory, Index, PathTo, PathParts, UserText, HostText,
      PortText;
    Reparse(baseUri);
    var bus := ParseUri(baseUri).value;
    PartsResolved(bus, ref);
    PartsFree(bus, ref, '#');
    PartsFree(bus, ref, '?');
    var path, query := PathTo(bus, ref), ref[PathEnd(ref)..QueryEnd(ref)];
    PathToStarts(bus, ref);
    PathPartsPlain(path);
    PathToFile(bus, ref);
    PathToSplit(bus, ref);
    var (dir, file) := PathParts(path);
    var us := Norm(bus).(dir := dir, file := file, query := query);
    RoundTrip(us);
    WholePath(path);
    ConstructsAt(bus, us);
    assert Head(bus) + path + query == Head(bus) + (dir + file) + query;
  }

  lemma PathToStarts(bus: UriStruct, ref: string)
    ensures PathTo(bus, ref) != [] && PathTo(bus, ref)[0] == '/'
  {
    hide Parts, Resolve, StrJoin, AsksDirectory;
  }

  lemma WholePath(path: string)
    requires path != [] && path[0] == '/'
    ensures PathParts(path).0 + PathParts(path).1 == path
  {
    hide AfterLast;
  }

  lemma ConstructsAt(bus: UriStruct, us: UriStruct)
    requires DefaultPort(bus.protocol).Some? && IsBytes(bus.username) && IsBytes(bus.password)
    requires us == Norm(bus).(dir := us.dir, file := us.file, query := us.query)
    requires us.dir != [] && us.dir[|us.dir| - 1] == '/'
    ensures Constructed(us) == Head(bus) + (us.dir + us.file) + us.query
  {
    hide Encoded;
    assert UserText(us) == UserText(bus) && PortText(us) == PortText(bus) && HostText(us) == HostText(bus);
  }
}
