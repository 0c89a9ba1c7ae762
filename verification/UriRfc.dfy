/**
 joinUri against the reference resolution of section 5.2 of RFC 3986: exactly when the two give the same
 path and query.
 */
module UriRfc {
  import opened Uri
  import opened UriRoundTrip
  import opened UriJoin

  // ---------------------------------------------------------------- section 5.2 of RFC 3986

  /** The output buffer without its last segment and the slash in front of it. */
  function WithoutLast(output: string): string {
    var k := AfterLast(output, '/');
    if k == 0 then [] else output[..k - 1]
  }

  /** The length of the first segment of the input buffer, with the slash in front of it. */
  function FirstSegment(input: string): (n: nat)
    requires input != []
    ensures 1 <= n <= |input|
  {
    1 + Index(input[1..], '/')
  }

  /** Remove dot segments, section 5.2.4: the steps A to E on an input and an output buffer. */
  function RemoveDots(input: string, output: string): string
    decreases |input|
  {
    if input == [] then output
    else if "../" <= input then RemoveDots(input[3..], output)
    else if "./" <= input then RemoveDots(input[2..], output)
    else if "/./" <= input then RemoveDots(input[2..], output)
    else if input == "/." then RemoveDots("/", output)
    else if "/../" <= input then RemoveDots(input[3..], WithoutLast(output))
    else if input == "/.." then RemoveDots("/", WithoutLast(output))
    else if input == "." || input == ".." then output
    else
      var n := FirstSegment(input);
      RemoveDots(input[n..], output + input[..n])
  }

  /** The path of a reference merged with the base's, section 5.2.3; an absolute path stands for itself. */
  function Merged(bus: UriStruct, ref: string): string {
    var p := ref[..PathEnd(ref)];
    if p != [] && p[0] == '/' then p else bus.dir + p
  }

  /** The target path of a reference without scheme and authority, section 5.2.2. */
  function RfcPath(bus: UriStruct, ref: string): string {
    if PathEnd(ref) == 0 then bus.dir + bus.file else RemoveDots(Merged(bus, ref), [])
  }

  /** Its target query. */
  function RfcQuery(bus: UriStruct, ref: string): string {
    if PathEnd(ref) == 0 && QueryEnd(ref) == 0 then bus.query else ref[PathEnd(ref)..QueryEnd(ref)]
  }

  // ---------------------------------------------------------------- paths as segments

  predicate NoDouble(p: string) {
    forall i :: 0 <= i < |p| - 1 ==> !(p[i] == '/' && p[i + 1] == '/')
  }

  predicate EndsInSlash(p: string) { p != [] && p[|p| - 1] == '/' }

  function Tail(slash: bool): string { if slash then "/" else [] }

  /** Segments, each with a slash in front. */
  function Slashed(es: seq<string>): string {
    if es == [] then [] else "/" + es[0] + Slashed(es[1..])
  }

  lemma {:induction false} SlashedSnoc(es: seq<string>, e: string)
    ensures Slashed(es + [e]) == Slashed(es) + ("/" + e)
  {
    if es == [] {
      assert (es + [e])[1..] == [];
    } else {
      assert (es + [e])[1..] == es[1..] + [e];
      SlashedSnoc(es[1..], e);
    }
  }

  lemma {:induction false} SlashedJoin(es: seq<string>)
    requires es != []
    ensures Slashed(es) == "/" + StrJoin(es)
  {
    if |es| > 1 {
      SlashedJoin(es[1..]);
    } else {
      assert es[1..] == [];
    }
  }

  lemma SplitFirst(e: string, q: string)
    requires IsSegment(e) && (q == [] || q[0] == '/')
    ensures Split("/" + e + q) == [e] + Split(q)
  {
    hide Index, Split;
    SplitNone();
    SplitSegment(e);
    if q == [] {
      assert "/" + e + q == [] + "/" + e;
      SplitAtSlash([], e);
    } else {
      var r := q[1..];
      assert q == [] + "/" + r;
      SplitAtSlash([], r);
      assert "/" + e + q == [] + "/" + (e + "/" + r);
      SplitAtSlash([], e + "/" + r);
      SplitAtSlash(e, r);
    }
  }

  lemma FirstCut(p: string) returns (e: string, q: string)
    requires |p| >= 2 && p[0] == '/' && NoDouble(p)
    ensures p == "/" + e + q && IsSegment(e) && (q == [] || q[0] == '/') && NoDouble(q)
  {
    hide Index;
    var rest := p[1..];
    assert rest[0] == p[1];
    var j := Index(rest, '/');
    e, q := rest[..j], p[1 + j..];
    assert forall i :: 0 <= i < |q| ==> q[i] == p[1 + j + i];
    assert q != [] ==> q[0] == rest[j];
  }

  /** A path without empty segments is its segments. */
  lemma {:induction false} PathIsSegments(p: string)
    requires p != [] && p[0] == '/' && NoDouble(p)
    ensures p == Slashed(Split(p)) + Tail(EndsInSlash(p))
    decreases |p|
  {
    hide Split, NoDouble;
    SplitNone();
    if |p| == 1 {
      assert p == [] + "/" + [];
      SplitAtSlash([], []);
    } else {
      var e, q := FirstCut(p);
      SplitFirst(e, q);
      assert ([e] + Split(q))[1..] == Split(q);
      if q == [] {
        assert p[|p| - 1] == e[|e| - 1];
      } else {
        PathIsSegments(q);
        assert p[|p| - 1] == q[|q| - 1];
      }
    }
  }

  // ---------------------------------------------------------------- the buffers hold segments

  predicate DotLast(es: seq<string>) {
    es != [] && (es[|es| - 1] == "." || es[|es| - 1] == "..")
  }

  predicate Slashless(es: seq<string>) {
    forall i :: 0 <= i < |es| ==> Free(es[i], '/')
  }

  lemma WithoutLastSegment(stack: seq<string>)
    requires Slashless(stack)
    ensures WithoutLast(Slashed(stack)) == Slashed(if stack == [] then [] else stack[..|stack| - 1])
  {
    hide AfterLast;
    if stack == [] {
      AfterLastUnique([], '/', 0);
    } else {
      var front, e := stack[..|stack| - 1], stack[|stack| - 1];
      assert stack == front + [e];
      SlashedSnoc(front, e);
      var w := Slashed(stack);
      AfterLastUnique(w, '/', |w| - |e|);
      assert w[..|w| - |e| - 1] == Slashed(front);
    }
  }

  lemma RemoveDotsTail(slash: bool, output: string)
    ensures RemoveDots(Tail(slash), output) == output + Tail(slash)
  {
    if slash {
      IndexUnique("/"[1..], '/', 0);
      assert FirstSegment("/") == 1 && "/"[1..] == [] && "/"[..1] == "/";
      assert RemoveDots([], output + "/") == output + "/";
    }
  }

  /** One segment of the input buffer. */
  lemma RemoveDotsStep(e: string, r: string, output: string)
    requires IsSegment(e) && (r == [] || r[0] == '/')
    ensures RemoveDots("/" + e + r, output) ==
            if e == "." then RemoveDots(if r == [] then "/" else r, output)
            else if e == ".." then RemoveDots(if r == [] then "/" else r, WithoutLast(output))
            else RemoveDots(r, output + ("/" + e))
  {
    hide Index, WithoutLast;
    var w := "/" + e + r;
    assert w[0] == '/' && !("../" <= w) && !("./" <= w);
    assert forall i :: 0 <= i < |e| ==> w[i + 1] == e[i];
    assert r != [] ==> w[|e| + 1] == '/';
    if e == "." {
      if r != [] {
        assert w[..3] == "/./" && w[2..] == r;
      }
    } else if e == ".." {
      assert w[1] == '.' && w[2] == '.';
      if r != [] {
        assert w[..4] == "/../" && w[3..] == r;
      }
    } else {
      PlainSegment(e, r);
      IndexUnique(w[1..], '/', |e|);
      assert w[|e| + 1..] == r && w[..|e| + 1] == "/" + e;
    }
  }

  lemma PlainSegment(e: string, r: string)
    requires IsSegment(e) && (r == [] || r[0] == '/') && e != "." && e != ".."
    ensures var w := "/" + e + r; !("/./" <= w) && w != "/." && !("/../" <= w) && w != "/.."
  {
    var w := "/" + e + r;
    assert forall i :: 0 <= i < |e| ==> w[i + 1] == e[i];
    assert r != [] ==> w[|e| + 1] == '/';
    if |e| == 1 {
      assert e == [w[1]];
    } else if |e| == 2 {
      assert e == [w[1], w[2]];
    } else {
      assert w[3] == e[2] && w[2] == e[1];
    }
  }

  /** Removing dot segments resolves the segments; a dot segment at the end leaves its slash. */
  lemma {:induction false} RemoveDotsResolves(es: seq<string>, slash: bool, stack: seq<string>)
    requires Segments(es) && Segments(stack)
    ensures RemoveDots(Slashed(es) + Tail(slash), Slashed(stack)) ==
            Slashed(ResolveOnto(stack, es)) + Tail(slash || DotLast(es))
    decreases |es|
  {
    hide RemoveDots, WithoutLast;
    if es == [] {
      assert Slashed(es) + Tail(slash) == Tail(slash);
      RemoveDotsTail(slash, Slashed(stack));
    } else {
      var e, rest := es[0], es[1..];
      var r := Slashed(rest) + Tail(slash);
      assert Slashed(es) + Tail(slash) == "/" + e + r;
      RemoveDotsStep(e, r, Slashed(stack));
      WithoutLastSegment(stack);
      SlashedSnoc(stack, e);
      assert rest != [] ==> DotLast(es) == DotLast(rest);
      if (e == "." || e == "..") && r == [] {
        assert rest == [] && !slash;
        RemoveDotsTail(true, Slashed(Push(stack, e)));
      } else {
        RemoveDotsResolves(rest, slash, Push(stack, e));
      }
    }
  }

  // ---------------------------------------------------------------- when joinUri agrees

  predicate IsDirectory(dir: string) {
    dir != [] && dir[0] == '/' && EndsInSlash(dir)
  }

  lemma PartsAreMerged(bus: UriStruct, ref: string)
    requires IsDirectory(bus.dir)
    ensures Parts(bus, ref) == Split(Merged(bus, ref))
  {
    hide Split, Index;
    var p := ref[..PathEnd(ref)];
    SplitNone();
    if ref != [] && ref[0] == '/' {
      PathOfSlash(ref);
    } else {
      var d := bus.dir[..|bus.dir| - 1];
      assert bus.dir == d + "/" + [] && bus.dir + p == d + "/" + p;
      SplitAtSlash(d, []);
      SplitAtSlash(d, p);
      assert p != [] ==> p[0] == ref[0];
    }
  }

  lemma PathOfSlash(ref: string)
    requires ref != [] && ref[0] == '/'
    ensures PathEnd(ref) > 0
  {
    hide Index;
  }

  /** The text after the last slash of a reference's path. */
  function LastSegment(ref: string): string {
    var p := ref[..PathEnd(ref)];
    p[AfterLast(p, '/')..]
  }

  lemma LastOfSplit(p: string)
    requires p != [] && !EndsInSlash(p)
    ensures Split(p) != [] && Split(p)[|Split(p)| - 1] == p[AfterLast(p, '/')..]
  {
    hide AfterLast, Split, Index;
    var k := AfterLast(p, '/');
    var e := p[k..];
    assert k < |p|;
    SplitSegment(e);
    if k == 0 {
      assert e == p;
    } else {
      assert p == p[..k - 1] + "/" + e;
      SplitAtSlash(p[..k - 1], e);
    }
  }

  /** A name at the end is never taken away. */
  lemma LastNameStays(parts: seq<string>)
    requires parts != [] && !DotLast(parts)
    ensures Resolve(parts) != []
  {
    var front, x := parts[..|parts| - 1], parts[|parts| - 1];
    assert parts == front + [x];
    ResolveConcat([], front, [x]);
    assert [x][1..] == [];
    assert ResolveOnto(Resolve(front), [x]) == Push(Resolve(front), x);
  }

  lemma LastSegmentIsDot(bus: UriStruct, ref: string)
    requires IsDirectory(bus.dir) && PathEnd(ref) > 0
    ensures var es, slash := Split(Merged(bus, ref)), EndsInSlash(Merged(bus, ref));
            && slash == AsksDirectory(ref)
            && (LastSegment(ref) == "." || LastSegment(ref) == ".." <==> !slash && DotLast(es))
  {
    hide Split, Index, AfterLast;
    var p := ref[..PathEnd(ref)];
    var m := Merged(bus, ref);
    assert m[|m| - 1] == p[|p| - 1];
    PartsAreMerged(bus, ref);
    if EndsInSlash(p) {
      AfterLastUnique(p, '/', |p|);
    } else {
      LastOfSplit(p);
      var es := Parts(bus, ref);
      assert es[|es| - 1] == Split(p)[|Split(p)| - 1];
    }
  }

  /** For a reference with a path, and no empty segment in what is to be resolved: joinUri gives the path of
      RFC 3986 if and only if the reference does not end in a dot segment, or nothing is left of the path. */
  lemma JoinAgrees(bus: UriStruct, ref: string)
    requires IsDirectory(bus.dir) && PathEnd(ref) > 0 && NoDouble(Merged(bus, ref))
    ensures PathTo(bus, ref) == RfcPath(bus, ref) <==>
            (LastSegment(ref) != "." && LastSegment(ref) != "..") || Resolve(Parts(bus, ref)) == []
    ensures RfcQuery(bus, ref) == ref[PathEnd(ref)..QueryEnd(ref)]
  {
    hide Split, Index, RemoveDots, ResolveOnto, StrJoin, LastSegment, AsksDirectory;
    var m := Merged(bus, ref);
    var es, slash := Split(m), EndsInSlash(m);
    PartsAreMerged(bus, ref);
    PathIsSegments(m);
    SplitSegments(m);
    RemoveDotsResolves(es, slash, []);
    LastSegmentIsDot(bus, ref);
    var left := Resolve(es);
    if left == [] {
      ResolvedAway(es, slash, m);
      NothingJoined();
    } else {
      SlashedJoin(left);
    }
  }

  lemma NothingJoined()
    ensures StrJoin([]) == [] && Slashed([]) == []
  {
  }

  lemma ResolvedAway(es: seq<string>, slash: bool, m: string)
    requires Resolve(es) == [] && m != [] && m == Slashed(es) + Tail(slash)
    ensures slash || DotLast(es)
  {
    if es != [] && !DotLast(es) {
      LastNameStays(es);
    }
  }

  // ---------------------------------------------------------------- references without a path

  /** For a reference without a path, RFC 3986 keeps the base's path, and its query if the reference has none.
      joinUri does if and only if the base has no file and its directory has neither empty nor dot segments,
      and no query that the reference does not replace. */
  lemma EmptyReference(bus: UriStruct, ref: string)
    requires PlainPath(bus.dir, bus.file) && PathEnd(ref) == 0
    ensures PathTo(bus, ref) == RfcPath(bus, ref) <==>
            bus.file == [] && NoDouble(bus.dir) && Dotless(Split(bus.dir))
    ensures ref[PathEnd(ref)..QueryEnd(ref)] == RfcQuery(bus, ref) <==> QueryEnd(ref) > 0 || bus.query == []
  {
    hide Split, Index, ResolveOnto, StrJoin;
    var parts := Split(bus.dir);
    SplitNone();
    assert ref[..0] == [];
    assert ref != [] ==> ref[0] != '/' by {
      if ref != [] && ref[0] == '/' {
        PathOfSlash(ref);
      }
    }
    assert Parts(bus, ref) == parts;
    var es := Resolve(parts);
    PartsResolved(bus, ref);
    NothingJoined();
    if es != [] {
      SlashedJoin(es);
    }
    assert PathTo(bus, ref) == Slashed(es) + "/";
    if bus.file == [] && NoDouble(bus.dir) && Dotless(parts) {
      DotlessStay([], parts);
      assert es == parts;
      PathIsSegments(bus.dir);
      assert bus.dir + bus.file == bus.dir;
    }
    if PathTo(bus, ref) == RfcPath(bus, ref) {
      assert EndsInSlash(PathTo(bus, ref));
      DirectoryOnly(bus);
      assert PathTo(bus, ref) == bus.dir;
      PathToSplit(bus, ref);
      NeverDouble(bus, ref);
    }
  }

  lemma DirectoryOnly(bus: UriStruct)
    requires PlainPath(bus.dir, bus.file)
    ensures EndsInSlash(bus.dir + bus.file) ==> bus.file == [] && bus.dir + bus.file == bus.dir
  {
    if bus.file != [] {
      assert (bus.dir + bus.file)[|bus.dir + bus.file| - 1] == bus.file[|bus.file| - 1];
    }
  }

  lemma {:induction false} DotlessStay(stack: seq<string>, parts: seq<string>)
    requires Dotless(parts)
    ensures ResolveOnto(stack, parts) == stack + parts
    decreases |parts|
  {
    if parts != [] {
      DotlessStay(stack + [parts[0]], parts[1..]);
    }
  }

  // ---------------------------------------------------------------- empty segments

  lemma {:induction false} SlashedSingle(es: seq<string>)
    requires Segments(es)
    ensures NoDouble(Slashed(es)) && (es != [] ==> !EndsInSlash(Slashed(es)) && Slashed(es)[0] == '/')
  {
    if es != [] {
      var e, r := es[0], Slashed(es[1..]);
      SlashedSingle(es[1..]);
      var w := Slashed(es);
      assert w == "/" + e + r;
      forall i | 0 <= i < |w| - 1 ensures !(w[i] == '/' && w[i + 1] == '/') {
        if 1 <= i <= |e| {
          assert w[i] == e[i - 1];
        } else if i == 0 {
          assert w[1] == e[0];
        } else {
          assert w[i] == r[i - 1 - |e|] && w[i + 1] == r[i - |e|];
        }
      }
      if r == [] {
        assert w[|w| - 1] == e[|e| - 1];
      } else {
        assert w[|w| - 1] == r[|r| - 1];
      }
    }
  }

  /** joinUri drops empty segments: its path never has two slashes in a row, so it differs from every path of
      RFC 3986 that has. */
  lemma NeverDouble(bus: UriStruct, ref: string)
    ensures NoDouble(PathTo(bus, ref))
    ensures !NoDouble(RfcPath(bus, ref)) ==> PathTo(bus, ref) != RfcPath(bus, ref)
  {
    hide Parts, Resolve, StrJoin, AsksDirectory, RfcPath;
    var es := Resolve(Parts(bus, ref));
    PartsResolved(bus, ref);
    NothingJoined();
    SlashedSingle(es);
    if es != [] {
      SlashedJoin(es);
      var w := Slashed(es);
      assert NoDouble(w + "/") by {
        assert forall i :: 0 <= i < |w| ==> (w + "/")[i] == w[i];
      }
    }
  }

  // ---------------------------------------------------------------- what the theorems leave out, one by one

  /** A segment that is neither a dot segment nor holds a delimiter. */
  predicate IsPlainName(e: string) {
    IsSegment(e) && e != "." && e != ".." && Free(e, '#') && Free(e, '?')
  }

  /** A reference that is all path. */
  lemma PlainReference(ref: string)
    requires Free(ref, '#') && Free(ref, '?')
    ensures PathEnd(ref) == QueryEnd(ref) == |ref| && ref[..|ref|] == ref
  {
    hide Index;
    IndexUnique(ref, '#', |ref|);
    IndexUnique(ref, '?', |ref|);
    assert ref[..|ref|] == ref;
  }

  lemma NamesResolve(a: string, b: string)
    requires IsPlainName(a) && IsPlainName(b)
    ensures Resolve([a, b]) == [a, b] && StrJoin([a, b]) == a + "/" + b && Resolve([b]) == [b] && StrJoin([b]) == b
  {
    DotlessStay([], [a, b]);
    DotlessStay([], [b]);
    assert [a, b][1..] == [b];
  }

  /** An empty segment of the input buffer moves like any other. */
  lemma EmptyStep(r: string, output: string)
    requires r != [] && r[0] == '/'
    ensures RemoveDots("/" + r, output) == RemoveDots(r, output + "/")
  {
    hide Index;
    var w := "/" + r;
    assert w[0] == '/' && w[1] == '/';
    IndexUnique(w[1..], '/', 0);
    assert w[1..] == r && w[..1] == "/";
  }

  lemma NoInput(output: string)
    ensures RemoveDots([], output) == output
  {
  }

  lemma RfcKeepsEmpty(a: string, b: string)
    requires IsPlainName(a) && IsPlainName(b)
    ensures var ref := "/" + a + ("/" + ("/" + b)); RemoveDots(ref, []) == ref
  {
    hide RemoveDots, IsPlainName, IsSegment, WithoutLast;
    var last := "/" + b;
    NameFacts(a);
    NameFacts(b);
    RemoveDotsStep(a, "/" + last, []);
    var out := "/" + a;
    assert [] + ("/" + a) == out;
    EmptyStep(last, out);
    RemoveDotsStep(b, [], out + "/");
    assert last == "/" + b + [];
    NoInput(out + "/" + last);
    assert out + "/" + last == "/" + a + ("/" + last);
  }

  lemma NameFacts(e: string)
    requires IsPlainName(e)
    ensures IsSegment(e) && e != "." && e != ".."
  {
  }

  /** An empty segment inside a reference: RFC 3986 keeps it, joinUri does not. */
  lemma InnerEmptySegment(bus: UriStruct, a: string, b: string)
    requires IsPlainName(a) && IsPlainName(b)
    ensures var ref := "/" + a + ("/" + ("/" + b));
            PathTo(bus, ref) == "/" + a + "/" + b && RfcPath(bus, ref) == ref
  {
    hide Split, RemoveDots, Index, Resolve, StrJoin;
    var r := "/" + b;
    var ref := "/" + a + ("/" + r);
    PlainReference(ref);
    RfcKeepsEmpty(a, b);
    SplitFirst(a, "/" + r);
    SplitNone();
    assert "/" + r == [] + "/" + r && r == [] + "/" + b;
    SplitAtSlash([], r);
    SplitAtSlash([], b);
    SplitSegment(b);
    assert Parts(bus, ref) == [a, b];
    NamesResolve(a, b);
    assert ref[|ref| - 1] == b[|b| - 1];
  }

  /** A reference that begins with two slashes names another authority; joinUri takes it for a path of the
      base's. */
  lemma NetworkPath(bus: UriStruct, h: string, x: string)
    requires IsPlainName(h) && IsPlainName(x) && Free(h, ':') && Free(x, ':')
    ensures var ref := "/" + ("/" + h + ("/" + x));
            ParseUri(ref).None? && PathTo(bus, ref) == "/" + h + "/" + x
  {
    hide Split, Index, ParseRest, Resolve, StrJoin, Separator;
    var r := "/" + h + ("/" + x);
    var ref := "/" + r;
    NoScheme(ref);
    PlainReference(ref);
    assert ref == [] + "/" + r && "/" + x == "/" + x + [];
    SplitAtSlash([], r);
    SplitNone();
    SplitFirst(h, "/" + x);
    SplitFirst(x, []);
    assert Parts(bus, ref) == [h, x];
    NamesResolve(h, x);
    assert ref[|ref| - 1] == x[|x| - 1];
  }

  lemma NoScheme(ref: string)
    requires Free(ref, ':') || Free(ref, '/')
    ensures ParseUri(ref).None?
  {
    hide Separator;
    SeparatorAt(ref, |ref|);
  }

  /** A name with a colon has a scheme, and is a URI; joinUri takes it for a path too. */
  lemma OtherScheme(bus: UriStruct, ref: string)
    requires bus.dir == "/" && IsPlainName(ref) && ':' in ref
    ensures ParseUri(ref).None? && PathTo(bus, ref) == "/" + ref
  {
    hide Split, Index, ParseRest, Resolve, StrJoin;
    NoScheme(ref);
    PlainReference(ref);
    SplitNone();
    SplitSegment(ref);
    assert "/" == [] + "/" + [];
    SplitAtSlash([], []);
    assert Parts(bus, ref) == [ref];
    NamesResolve(ref, ref);
  }

  /** And a dot segment at the end, the case that JoinAgrees tells apart. */
  lemma FinalDots(bus: UriStruct, ref: string)
    requires IsDirectory(bus.dir) && NoDouble(bus.dir) && (ref == "." || ref == "..")
    ensures PathTo(bus, ref) == RfcPath(bus, ref) <==> Resolve(Parts(bus, ref)) == []
  {
    hide Split, Index, RemoveDots, Resolve, StrJoin, AfterLast, Parts;
    PlainReference(ref);
    AfterLastUnique(ref, '/', 0);
    assert ref[0..] == ref;
    var m := bus.dir + ref;
    assert NoDouble(m) by {
      assert forall i :: 0 <= i < |bus.dir| ==> m[i] == bus.dir[i];
      assert forall i :: |bus.dir| <= i < |m| ==> m[i] == '.';
    }
    JoinAgrees(bus, ref);
  }
}
