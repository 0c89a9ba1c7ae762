/**
 Fragmentation independence: a stream may reach the parser in any pieces.
 */
module HttpFragments {
  import opened HttpTypes
  import opened HttpSwitch
  import opened HttpRun
  import opened HttpInvariant
  import opened HttpCalls
  import opened HttpExecute

  /** Pieces as read from a connection: none of them is empty, because a call with no bytes means
      the end of the stream. */
  predicate AreReads(pieces: seq<string>) {
    forall i :: 0 <= i < |pieces| ==> pieces[i] != []
  }

  /** Running the pieces one after the other. */
  function RunPieces(cb: Callbacks, p: Parser, pieces: seq<string>): Ran
    decreases |pieces|
  {
    if pieces == [] then Ran(p, [], 0)
    else
      var r := RunPieces(cb, p, pieces[..|pieces| - 1]);
      var s := Run(cb, r.p, pieces[|pieces| - 1]);
      Ran(s.p, r.events + s.events, r.count + s.count)
  }

  /** The calls, as made, when the pieces arrive one after the other. */
  function PieceCalls(cb: Callbacks, p: Parser, pieces: seq<string>): seq<Event>
    decreases |pieces|
  {
    if pieces == [] then []
    else
      var front := pieces[..|pieces| - 1];
      PieceCalls(cb, p, front) + Reported(cb, RunPieces(cb, p, front).p, pieces[|pieces| - 1])
  }

  /** Running the pieces of a stream is running the stream. */
  lemma {:induction false} RunPiecesJoined(cb: Callbacks, p: Parser, pieces: seq<string>)
    ensures RunPieces(cb, p, pieces) == Run(cb, p, Flatten(pieces))
    decreases |pieces|
  {
    hide Run;
    if pieces == [] {
      RunStopped(cb, p, []);
    } else {
      var front, last := pieces[..|pieces| - 1], pieces[|pieces| - 1];
      RunPiecesJoined(cb, p, front);
      RunConcat(cb, p, Flatten(front), last);
      FlattenSnoc(front, last);
      assert pieces == front + [last];
    }
  }

  /** Merged, the calls for the pieces are the events of the stream, unless the parser rejects it. */
  lemma {:induction false} PiecesTell(cb: Callbacks, p: Parser, pieces: seq<string>)
    requires Inv(p) && OpenKind(p.state) == None && AreReads(pieces)
    ensures var r, t := Run(cb, p, Flatten(pieces)), Merge(PieceCalls(cb, p, pieces));
            && Told(r.p, t) && Resting(r.p) && (r.p.errno.OK? || r.p.errno.Paused? ==> t == EmitAll([], r.events))
    decreases |pieces|
  {
    hide Run, EmitAll, Inv, CallsOf, RunPieces;
    InvRuns(p);
    if pieces == [] {
      RunStopped(cb, p, []);
      EmitAllNone([]);
      assert p == p.(errno := OK);
    } else {
      var front, last := pieces[..|pieces| - 1], pieces[|pieces| - 1];
      PiecesTell(cb, p, front);
      RunPiecesJoined(cb, p, front);
      var r, calls := Run(cb, p, Flatten(front)), PieceCalls(cb, p, front);
      FlattenSnoc(front, last);
      assert pieces == front + [last];
      RunConcat(cb, p, Flatten(front), last);
      EmitAllConcat([], calls, Reported(cb, r.p, last));
      RunPreserves(cb, r.p, last);
      if r.p.errno.OK? {
        assert r.p == r.p.(errno := OK);
        CallsTell(cb, r.p, last, Merge(calls));
        EmitAllConcat([], r.events, Run(cb, r.p, last).events);
      } else {
        StoppedReports(cb, r.p, last);
        RunStopped(cb, r.p, last);
        EmitAllNone(Merge(calls));
        assert r.events + [] == r.events;
      }
    }
  }

  /** The first calls are those for the first pieces. */
  lemma {:induction false} PieceCallsFront(cb: Callbacks, p: Parser, pieces: seq<string>, k: nat)
    requires k <= |pieces|
    ensures PieceCalls(cb, p, pieces[..k]) <= PieceCalls(cb, p, pieces)
    decreases |pieces|
  {
    hide RunPieces, Reported;
    if k == |pieces| {
      assert pieces[..k] == pieces;
    } else {
      assert pieces[..|pieces| - 1][..k] == pieces[..k];
      PieceCallsFront(cb, p, pieces[..|pieces| - 1], k);
    }
  }

  /** The length of the longest piece, or `n` if that is more. */
  function Longest(n: nat, pieces: seq<string>): nat {
    if pieces == [] then n
    else
      var m, last := Longest(n, pieces[..|pieces| - 1]), pieces[|pieces| - 1];
      if |last| <= m then m else |last|
  }

  /** Feeds a parser the reads of a connection, one call of http_parser_execute for each.  The
      fields, the number of bytes consumed and, while no error occurs, the merged trace are those
      of the whole stream: where the reads end does not matter.  The calls as made are those of
      `PieceCalls`.  The parser ends in a state with the invariant, and every assert on the way holds. */
  method Feed(parser: HttpParser, pieces: seq<string>) returns (n: nat)
    requires parser.Valid() && AreReads(pieces)
    modifies parser
    ensures parser.Valid() && parser.longest == Longest(old(parser.longest), pieces)
    ensures RunAsserts(parser.cb, old(parser.fields), Flatten(pieces))
    ensures parser.calls == old(parser.calls) + PieceCalls(parser.cb, old(parser.fields), pieces)
    ensures var r := Run(parser.cb, old(parser.fields), Flatten(pieces));
            && parser.fields == r.p && n == r.count
            && (parser.fields.errno.OK? || parser.fields.errno.Paused? ==>
                  Merge(parser.calls) == EmitAll(Merge(old(parser.calls)), r.events))
            && exists open, w :: Pending(Merge(parser.calls), open, w) == EmitAll(Merge(old(parser.calls)), r.events)
  {
    hide Run, EmitAll, RunAsserts, Reported;
    n := 0;
    ghost var p0, t0 := parser.fields, Merge(parser.calls);
    EmitAllNone(t0);
    assert Pending(t0, None, []) == t0;
    RunPreserves(parser.cb, p0, Flatten(pieces));
    for i := 0 to |pieces|
      invariant parser.Valid() && parser.longest == Longest(old(parser.longest), pieces[..i])
      invariant parser.calls == old(parser.calls) + PieceCalls(parser.cb, p0, pieces[..i])
      invariant var r := RunPieces(parser.cb, p0, pieces[..i]);
                && parser.fields == r.p && n == r.count
                && (parser.fields.errno.OK? || parser.fields.errno.Paused? ==>
                      Merge(parser.calls) == EmitAll(t0, r.events))
                && exists open, w :: Pending(Merge(parser.calls), open, w) == EmitAll(t0, r.events)
    {
      ghost var r := RunPieces(parser.cb, p0, pieces[..i]);
      ghost var before, calls := parser.fields, parser.calls;
      assert pieces[..i + 1][..i] == pieces[..i];
      var k := parser.Execute(pieces[i]);
      n := n + k;
      ghost var s := Run(parser.cb, before, pieces[i]);
      EmitAllConcat(t0, r.events, s.events);
      if !before.errno.OK? {
        RunStopped(parser.cb, before, pieces[i]);
        assert r.events + [] == r.events;
      }
    }
    assert pieces[..|pieces|] == pieces;
    RunPiecesJoined(parser.cb, p0, pieces);
  }

  /** Cuts a stream at the given lengths; what is left over is the last piece. */
  method Cut(stream: string, lengths: seq<nat>) returns (pieces: seq<string>)
    ensures AreReads(pieces) && Flatten(pieces) == stream
  {
    pieces := [];
    var rest := stream;
    for i := 0 to |lengths|
      invariant AreReads(pieces) && Flatten(pieces) + rest == stream
    {
      if 0 < lengths[i] <= |rest| {
        FlattenSnoc(pieces, rest[..lengths[i]]);
        assert rest == rest[..lengths[i]] + rest[lengths[i]..];
        pieces := pieces + [rest[..lengths[i]]];
        rest := rest[lengths[i]..];
      }
    }
    if rest != [] {
      FlattenSnoc(pieces, rest);
      pieces := pieces + [rest];
    }
  }
}
