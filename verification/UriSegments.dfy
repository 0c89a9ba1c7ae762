/**
 joinUri against RFC 3986 for every reference with a path: both results as lists of segments, with the empty
 segments kept that joinUri drops.
 */
module UriSegments {
  import opened Uri
  import opened UriJoin
  import opened UriRfc

  // ---------------------------------------------------------------- a path and all its segments

  /** The text after each slash, up to the next. */
  function Pieces(p: string): seq<string>
    requires p == [] || p[0] == '/'
    decreases |p|
  {
    if p == [] then [] else
      var n := FirstSegment(p);
      [p[1..n]] + Pieces(p[n..])
  }

  lemma FirstPiece(p: string)
    requires p != [] && p[0] == '/'
    ensures var n := FirstSegment(p);
            Free(p[1..n], '/') && p == "/" + p[1..n] + p[n..] && (p[n..] == [] || p[n..][0] == '/')
  {
    hide Index;
  }

  lemma {:induction false} PiecesJoin(p: string)
    requires p == [] || p[0] == '/'
    ensures Slashed(Pieces(p)) == p && Slashless(Pieces(p)) && (p != [] ==> Pieces(p) != [])
    decreases |p|
  {
    hide FirstSegment, Free;
    if p != [] {
      FirstPiece(p);
      var n := FirstSegment(p);
      PiecesJoin(p[n..]);
      assert Pieces(p)[1..] == Pieces(p[n..]);
    }
  }

  lemma {:induction false} PiecesOf(es: seq<string>)
    requires Slashless(es)
    ensures var p := Slashed(es); (p == [] || p[0] == '/') && Pieces(p) == es
    decreases |es|
  {
    hide Index;
    if es != [] {
      var e, r := es[0], Slashed(es[1..]);
      PiecesOf(es[1..]);
      var p := Slashed(es);
      assert p == "/" + e + r;
      IndexUnique(p[1..], '/', |e|);
      assert p[1..1 + |e|] == e && p[1 + |e|..] == r;
      assert es == [e] + es[1..];
    }
  }

  /** Two lists of segments are the same path only if they are the same list. */
  lemma SlashedInjective(a: seq<string>, b: seq<string>)
    requires Slashless(a) && Slashless(b) && Slashed(a) == Slashed(b)
    ensures a == b
  {
    hide Slashed, Pieces;
    PiecesOf(a);
    PiecesOf(b);
  }

  function Names(es: seq<string>): seq<string> {
    if es == [] then [] else (if es[0] == [] then [] else [es[0]]) + Names(es[1..])
  }

  /** split drops the empty segments. */
  lemma {:induction false} SplitIsNames(es: seq<string>)
    requires Slashless(es)
    ensures Split(Slashed(es)) == Names(es)
    decreases |es|
  {
    hide Split, Index;
    SplitNone();
    if es != [] {
      var e, q := es[0], Slashed(es[1..]);
      SplitIsNames(es[1..]);
      if e == [] {
        assert Slashed(es) == [] + "/" + q;
        SplitAtSlash([], q);
      } else {
        SplitFirst(e, q);
      }
    }
  }

  // ---------------------------------------------------------------- both results

  /** RFC 3986: the segments resolved, the empty ones like any other; a dot segment at the end leaves an empty
      one. */
  function RfcSegments(es: seq<string>): seq<string> {
    Resolve(es) + if DotLast(es) then [""] else []
  }

  /** joinUri: the names resolved, with an empty segment at the end if there was one or nothing is left. */
  function JoinSegments(es: seq<string>): seq<string> {
    var left := Resolve(Names(es));
    left + if left == [] || (es != [] && es[|es| - 1] == []) then [""] else []
  }

  lemma AnyStep(e: string, r: string, output: string)
    requires Free(e, '/') && (r == [] || r[0] == '/')
    ensures RemoveDots("/" + e + r, output) ==
            if e == "." then RemoveDots(if r == [] then "/" else r, output)
            else if e == ".." then RemoveDots(if r == [] then "/" else r, WithoutLast(output))
            else RemoveDots(r, output + ("/" + e))
  {
    hide RemoveDots, WithoutLast;
    if e != [] {
      RemoveDotsStep(e, r, output);
    } else {
      assert "/" + e + r == "/" + r && "/" + e == "/";
      if r == [] {
        assert "/" + r == Tail(true);
        RemoveDotsTail(true, output);
        NoInput(output + "/");
      } else {
        EmptyStep(r, output);
      }
    }
  }

  lemma PushSlashless(stack: seq<string>, e: string)
    requires Slashless(stack) && Free(e, '/')
    ensures Slashless(Push(stack, e))
  {
  }

  /** Removing dot segments is resolving the list. */
  lemma {:induction false} RemoveDotsIs(es: seq<string>, stack: seq<string>)
    requires Slashless(es) && Slashless(stack)
    ensures RemoveDots(Slashed(es), Slashed(stack)) ==
            Slashed(ResolveOnto(stack, es) + if DotLast(es) then [""] else [])
    ensures Slashless(ResolveOnto(stack, es))
    decreases |es|
  {
    hide RemoveDots, WithoutLast;
    if es == [] {
      NoInput(Slashed(stack));
      assert stack + [] == stack;
    } else {
      var e, rest := es[0], es[1..];
      var r, after := Slashed(rest), Push(stack, e);
      AnyStep(e, r, Slashed(stack));
      WithoutLastSegment(stack);
      SlashedSnoc(stack, e);
      PushSlashless(stack, e);
      assert rest != [] ==> DotLast(es) == DotLast(rest);
      if (e == "." || e == "..") && rest == [] {
        RemoveDotsTail(true, Slashed(after));
        SlashedSnoc(after, "");
      } else {
        RemoveDotsIs(rest, after);
      }
    }
  }

  lemma MergedRooted(bus: UriStruct, ref: string)
    requires IsDirectory(bus.dir)
    ensures Merged(bus, ref) != [] && Merged(bus, ref)[0] == '/'
  {
  }

  lemma {:induction false} LastPiece(es: seq<string>)
    requires Slashless(es) && es != []
    ensures Slashed(es) != [] && (EndsInSlash(Slashed(es)) <==> es[|es| - 1] == [])
    decreases |es|
  {
    var w := Slashed(es);
    if |es| == 1 {
      assert es[1..] == [];
      assert w == "/" + es[0];
    } else {
      LastPiece(es[1..]);
      assert w[|w| - 1] == Slashed(es[1..])[|Slashed(es[1..])| - 1];
    }
  }

  lemma JoinedSlashless(es: seq<string>)
    requires Slashless(es)
    ensures Slashless(JoinSegments(es)) && Slashless(RfcSegments(es))
  {
    hide ResolveOnto, Slashed;
    NamesSlashless(es);
    RemoveDotsIs(es, []);
    RemoveDotsIs(Names(es), []);
  }

  lemma {:induction false} NamesSlashless(es: seq<string>)
    requires Slashless(es)
    ensures Slashless(Names(es))
    decreases |es|
  {
    if es != [] {
      NamesSlashless(es[1..]);
    }
  }

  /** For every reference with a path: both paths as segments, and so joinUri gives the path of RFC 3986 if and
      only if the two lists are the same. */
  lemma JoinAgreesOnSegments(bus: UriStruct, ref: string)
    requires IsDirectory(bus.dir) && PathEnd(ref) > 0
    ensures Merged(bus, ref) != [] && Merged(bus, ref)[0] == '/'
    ensures var es := Pieces(Merged(bus, ref));
            && RfcPath(bus, ref) == Slashed(RfcSegments(es)) && PathTo(bus, ref) == Slashed(JoinSegments(es))
            && (PathTo(bus, ref) == RfcPath(bus, ref) <==> RfcSegments(es) == JoinSegments(es))
  {
    hide Split, Index, RemoveDots, ResolveOnto, StrJoin, Slashed, Pieces, Names;
    MergedRooted(bus, ref);
    var m := Merged(bus, ref);
    var es := Pieces(m);
    PiecesJoin(m);
    RemoveDotsIs(es, []);
    NothingJoined();
    PartsAreMerged(bus, ref);
    SplitIsNames(es);
    LastPiece(es);
    LastSegmentIsDot(bus, ref);
    JoinedSlashless(es);
    JoinedPath(bus, ref, Resolve(Names(es)));
    if PathTo(bus, ref) == RfcPath(bus, ref) {
      SlashedInjective(RfcSegments(es), JoinSegments(es));
    }
  }

  lemma JoinedPath(bus: UriStruct, ref: string, left: seq<string>)
    requires left == Resolve(Parts(bus, ref))
    ensures PathTo(bus, ref) == Slashed(left + if left == [] || AsksDirectory(ref) then [""] else [])
  {
    hide Parts, Resolve, AsksDirectory, Slashed;
    NothingJoined();
    SlashedSnoc(left, "");
    if left == [] {
      assert left + [""] == [""];
    } else {
      SlashedJoin(left);
      assert left + [] == left;
    }
  }

  // ---------------------------------------------------------------- an empty segment can matter or not

  lemma PathOnly(bus: UriStruct, es: seq<string>)
    requires Slashless(es) && es != [] && Free(Slashed(es), '#') && Free(Slashed(es), '?')
    ensures var ref := Slashed(es); PathEnd(ref) > 0 && Merged(bus, ref) == ref && Pieces(ref) == es
  {
    hide Index;
    var ref := Slashed(es);
    PiecesOf(es);
    PlainReference(ref);
    assert ref != [] && ref[0] == '/';
  }

  lemma OneMore(stack: seq<string>, e: string, rest: seq<string>)
    ensures ResolveOnto(stack, [e] + rest) == ResolveOnto(Push(stack, e), rest)
    ensures Names([e] + rest) == (if e == [] then [] else [e]) + Names(rest)
  {
    hide Push;
    assert ([e] + rest)[1..] == rest;
  }

  lemma IsAName(e: string)
    requires IsPlainName(e)
    ensures e != [] && e != "." && e != ".."
  {
  }

  lemma Pushes(a: string, b: string)
    requires a != "." && a != ".."
    ensures Push([], a) == [a] && Push([b], a) == [b, a]
    ensures Push([b, a], "..") == [b] && Push([b], "..") == [] && Push([], "..") == []
  {
    assert [b, a][..1] == [b];
  }

  /** In /x//../../y the empty segment is taken away, and the two agree. */
  lemma EmptyTakenAway(x: string, y: string)
    requires IsPlainName(x) && IsPlainName(y)
    ensures var es := [x, "", "..", "..", y]; RfcSegments(es) == JoinSegments(es) == [y]
  {
    hide ResolveOnto, Names, IsPlainName, Push;
    IsAName(x);
    IsAName(y);
    var up := "..";
    var r1, r2, r3 := [y] + [], [up] + ([y] + []), [up] + ([up] + ([y] + []));
    var es, left := [x] + ([""] + r3), [x] + r3;
    assert [x, "", up, up, y] == es;
    Pushes("", x);
    Pushes(x, x);
    Pushes(y, x);
    OneMore([], x, [""] + r3);
    OneMore([x], "", r3);
    OneMore([x, ""], up, r2);
    OneMore([x], up, r1);
    OneMore([], y, []);
    Nothing([y]);
    assert Resolve(es) == [y];
    assert Names(r1) == r1 && Names(r2) == r2 && Names(r3) == r3 && Names(es) == left;
    OneMore([], x, r3);
    OneMore([x], up, r2);
    OneMore([], up, r1);
    assert Resolve(left) == [y];
    assert es[|es| - 1] == y && [y] + [] == [y];
  }

  lemma Nothing(stack: seq<string>)
    ensures ResolveOnto(stack, []) == stack && Names([]) == []
  {
  }

  /** In /a//../b it is taken away instead of the name, and they differ, although RFC 3986 leaves no empty
      segment. */
  lemma EmptyInsteadOfName(a: string, b: string)
    requires IsPlainName(a) && IsPlainName(b)
    ensures var es := [a, "", "..", b]; RfcSegments(es) == [a, b] && JoinSegments(es) == [b]
  {
    hide ResolveOnto, Names, IsPlainName, Push;
    IsAName(a);
    IsAName(b);
    var up := "..";
    var r1, r2 := [b] + [], [up] + ([b] + []);
    var es, left := [a] + ([""] + r2), [a] + r2;
    assert [a, "", up, b] == es;
    Pushes("", a);
    Pushes(a, a);
    Pushes(b, a);
    OneMore([], a, [""] + r2);
    OneMore([a], "", r2);
    OneMore([a, ""], up, r1);
    OneMore([a], b, []);
    Nothing([a, b]);
    assert Resolve(es) == [a, b];
    assert Names(r1) == r1 && Names(r2) == r2 && Names(es) == left;
    OneMore([], a, r2);
    OneMore([a], up, r1);
    OneMore([], b, []);
    Nothing([b]);
    assert Resolve(left) == [b];
    assert es[|es| - 1] == b && [b] + [] == [b] && [a, b] + [] == [a, b];
  }

  lemma {:induction false} SlashedFree(es: seq<string>, c: char)
    requires c != '/' && forall i :: 0 <= i < |es| ==> Free(es[i], c)
    ensures Free(Slashed(es), c)
    decreases |es|
  {
    if es != [] {
      SlashedFree(es[1..], c);
    }
  }

  /** So an empty segment in a reference need not matter, and it can matter without leaving one. */
  lemma EmptySegments(bus: UriStruct, a: string, b: string)
    requires IsDirectory(bus.dir) && IsPlainName(a) && IsPlainName(b)
    ensures var ref := Slashed([a, "", "..", "..", b]);
            !NoDouble(ref) && PathTo(bus, ref) == RfcPath(bus, ref) == Slashed([b])
    ensures var ref := Slashed([a, "", "..", b]);
            RfcPath(bus, ref) == Slashed([a, b]) && PathTo(bus, ref) == Slashed([b]) != RfcPath(bus, ref)
  {
    hide PathTo, RfcPath, Slashed, Pieces, RfcSegments, JoinSegments;
    var x, y := [a, "", "..", "..", b], [a, "", "..", b];
    SlashedFree(x, '#');
    SlashedFree(x, '?');
    SlashedFree(y, '#');
    SlashedFree(y, '?');
    PathOnly(bus, x);
    PathOnly(bus, y);
    JoinAgreesOnSegments(bus, Slashed(x));
    JoinAgreesOnSegments(bus, Slashed(y));
    EmptyTakenAway(a, b);
    EmptyInsteadOfName(a, b);
    DoubleIn(a, x[2..]);
    assert x == [a, ""] + x[2..];
    if Slashed([a, b]) == Slashed([b]) {
      SlashedInjective([a, b], [b]);
    }
  }

  lemma DoubleIn(a: string, rest: seq<string>)
    requires rest != []
    ensures !NoDouble(Slashed([a, ""] + rest))
  {
    var es := [a, ""] + rest;
    assert es[1..][1..] == rest && es[1..][0] == "";
    var r := Slashed(rest);
    assert r[0] == '/';
    var w := Slashed(es);
    assert es[0] == a && Slashed(es[1..]) == "/" + "" + Slashed(es[1..][1..]);
    assert w == "/" + a + ("/" + "" + r);
    assert w[|a| + 1] == '/' && w[|a| + 2] == r[0];
  }
}
