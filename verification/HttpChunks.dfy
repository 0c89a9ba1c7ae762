/**
 The chunked transfer coding (section 3.6.1 of RFC 2616): the printer in the HTTPS upstream and
 the chunk states of the parser undo each other.
 */
module HttpChunks {
  import opened HttpTypes
  import opened HttpSwitch
  import opened HttpRun
  import opened HttpBytes
  import opened HttpBody
  import opened HttpNumbers

  const TWO32: int := 0x1_0000_0000

  // ---------------------------------------------------------------- the printer

  /** The %X conversion. */
  function HexOf(n: nat): string {
    if n < 16 then [HexChar(n)] else HexOf(n / 16) + [HexChar(n % 16)]
  }

  /** What on_downstream_body writes for one piece of a chunked body: the length as an unsigned
      32-bit number, the piece, and the line ends. */
  function ChunkOf(piece: string): string {
    HexOf(|piece| % TWO32) + CRLF + piece + CRLF
  }

  const LAST_CHUNK: string := ['0', CR, LF, CR, LF]

  /** The whole coded body. */
  function Coded(pieces: seq<string>): string {
    if pieces == [] then LAST_CHUNK else ChunkOf(pieces[0]) + Coded(pieces[1..])
  }

  /** The output side of the HTTPS upstream; what it writes depends on the flag of the response. */
  class BodyWriter {
    var output: string

    constructor ()
      ensures output == []
    {
      output := [];
    }

    method OnDownstreamBody(chunkedResponse: bool, data: string)
      modifies this
      ensures output == old(output) + if chunkedResponse then ChunkOf(data) else data
    {
      if chunkedResponse {
        output := output + (HexOf(|data| % TWO32) + CRLF);
      }
      output := output + data;
      if chunkedResponse {
        output := output + CRLF;
      }
    }

    method OnDownstreamBodyComplete(chunkedResponse: bool)
      modifies this
      ensures output == old(output) + if chunkedResponse then LAST_CHUNK else []
    {
      if chunkedResponse {
        output := output + LAST_CHUNK;
      }
    }

    /** A whole response body, piece by piece as the parser delivers it. */
    method WriteBody(chunkedResponse: bool, pieces: seq<string>)
      modifies this
      ensures output == old(output) + if chunkedResponse then Coded(pieces) else Flatten(pieces)
    {
      hide ChunkOf, Coded, Flatten;
      TailStep(chunkedResponse, []);
      assert pieces[0..] == pieces;
      for i := 0 to |pieces|
        invariant output + Tail(chunkedResponse, pieces[i..]) == old(output) + Tail(chunkedResponse, pieces)
      {
        assert pieces[i..][0] == pieces[i] && pieces[i..][1..] == pieces[i + 1..];
        ghost var before := output;
        TailStep(chunkedResponse, pieces[i..]);
        OnDownstreamBody(chunkedResponse, pieces[i]);
        ghost var piece, tail := if chunkedResponse then ChunkOf(pieces[i]) else pieces[i],
                                 Tail(chunkedResponse, pieces[i + 1..]);
        assert before + (piece + tail) == before + piece + tail;
      }
      assert pieces[|pieces|..] == [];
      OnDownstreamBodyComplete(chunkedResponse);
    }
  }

  /** What is still to be written for the given pieces. */
  ghost function Tail(chunked: bool, pieces: seq<string>): string {
    if chunked then Coded(pieces) else Flatten(pieces)
  }

  lemma TailStep(chunked: bool, pieces: seq<string>)
    ensures Tail(chunked, pieces) ==
            if pieces == [] then (if chunked then LAST_CHUNK else [])
            else (if chunked then ChunkOf(pieces[0]) else pieces[0]) + Tail(chunked, pieces[1..])
  {
    hide ChunkOf;
  }

  // ---------------------------------------------------------------- hexadecimal numbers

  lemma {:induction false} HexOfReads(n: nat)
    ensures AllHex(HexOf(n)) && HexOf(n) != [] && HexValue(HexOf(n)) == n
    decreases n
  {
    if n >= 16 {
      HexOfReads(n / 16);
      var w := HexOf(n);
      assert w[..|w| - 1] == HexOf(n / 16);
    } else {
      assert HexOf(n)[..0] == [];
      assert HexValue([]) == 0;
    }
  }

  lemma {:induction false} HexOfShort(n: nat, k: nat, bound: nat)
    requires n < bound && bound == Power16(k) && 1 <= k
    ensures |HexOf(n)| <= k
    decreases k
  {
    if n >= 16 {
      assert bound == 16 * Power16(k - 1);
      HexOfShort(n / 16, k - 1, Power16(k - 1));
    }
  }

  function Power16(k: nat): nat {
    if k == 0 then 1 else 16 * Power16(k - 1)
  }

  lemma HexOf32(n: nat)
    requires n < TWO32
    ensures |HexOf(n)| <= 8
  {
    assert Power16(8) == TWO32;
    HexOfShort(n, 8, TWO32);
  }

  // ---------------------------------------------------------------- one chunk

  /** The parser at the start of a chunk. */
  predicate AtChunk(p: Parser) {
    p.state.ChunkSizeStart? && p.errno.OK? && p.nread == 0 && p.flags.chunked && !p.flags.trailing
  }

  lemma SizeCr(cb: Callbacks, p: Parser)
    requires (p.state.ChunkSize? || p.state.ChunkParameters?) && p.errno.OK? && Room(p, 1)
    ensures Run(cb, p, [CR]) == Ran(p.(nread := p.nread + 1, state := ChunkSizeAlmostDone), [], 1)
  {
    hide Byte, Run, Handle;
    OnePass(cb, p, CR);
    InChunkPart(cb, Counted(p), CR);
    RunOne(cb, p, CR);
  }

  /** The two bytes after the size and its extension. */
  lemma SizeLineEnd(cb: Callbacks, p: Parser)
    requires (p.state.ChunkSize? || p.state.ChunkParameters?) && p.errno.OK? && Room(p, 2)
    ensures Run(cb, p, CRLF) ==
            Ran(if p.contentLength == 0
                then p.(nread := 0, flags := p.flags.(trailing := true), state := HeaderFieldStart)
                else p.(nread := 0, state := ChunkData), [], 2)
  {
    hide Byte, Run, Handle;
    var q := p.(nread := p.nread + 1, state := ChunkSizeAlmostDone);
    SizeCr(cb, p);
    OnePass(cb, q, LF);
    InChunkPart(cb, Counted(q), LF);
    RunOne(cb, q, LF);
    RunConcat(cb, p, [CR], [LF]);
    assert CRLF == [CR] + [LF];
  }

  /** The two bytes after the data. */
  lemma DataCr(cb: Callbacks, p: Parser)
    requires p.state.ChunkDataAlmostDone? && p.errno.OK?
    ensures Run(cb, p, [CR]) == Ran(p.(state := ChunkDataDone), [], 1)
  {
    hide Byte, Run, Handle;
    OnePass(cb, p, CR);
    InChunkPart(cb, Counted(p), CR);
    RunOne(cb, p, CR);
  }

  lemma DataLineEnd(cb: Callbacks, p: Parser)
    requires p.state.ChunkDataAlmostDone? && p.errno.OK?
    ensures Run(cb, p, CRLF) == Ran(p.(nread := 0, state := ChunkSizeStart), [], 2)
  {
    hide Byte, Run, Handle;
    var q := p.(state := ChunkDataDone);
    DataCr(cb, p);
    OnePass(cb, q, LF);
    InChunkPart(cb, Counted(q), LF);
    RunOne(cb, q, LF);
    RunConcat(cb, p, [CR], [LF]);
    assert CRLF == [CR] + [LF];
  }

  /** The data of a chunk, all of it. */
  lemma ChunkDataRun(cb: Callbacks, p: Parser, w: string)
    requires p.state.ChunkData? && p.errno.OK? && 0 < p.contentLength == |w|
    ensures Run(cb, p, w) ==
            Ran(p.(contentLength := 0, state := ChunkDataAlmostDone), Bytewise(Body, w), |w|)
  {
    hide Byte, Run, Handle, Bytewise;
    var w', c := w[..|w| - 1], w[|w| - 1];
    assert w == w' + [c];
    RunConcat(cb, p, w', [c]);
    BodyRun(cb, p, w');
    var q := Shortened(p, |w'|);
    RunOne(cb, q, c);
    OnePass(cb, q, c);
    BodyPass(cb, q, c);
    BytewiseSnoc(Body, w', c);
  }

  // ---------------------------------------------------------------- chunks however they are spelled

  /** A chunk as a peer may write it: the size in either case and with zeros in front, and an extension. */
  datatype Chunk = Chunk(size: string, ext: string, data: string)

  predicate IsExtension(ext: string) {
    ext == [] || ((ext[0] == ';' || ext[0] == ' ') && CR !in ext)
  }

  predicate IsSizeLine(size: string, ext: string, n: nat) {
    && size != [] && AllHex(size) && HexValue(size) == n < ULLONG_MAX && IsExtension(ext)
    && |size| + |ext| + 2 <= MAX_HEADER_SIZE
  }

  predicate IsChunk(c: Chunk) { IsSizeLine(c.size, c.ext, |c.data|) && c.data != [] }

  function ChunkText(c: Chunk): string { c.size + c.ext + CRLF + c.data + CRLF }

  predicate InExtension(p: Parser) { (p.state.ChunkSize? || p.state.ChunkParameters?) && p.errno.OK? }

  lemma ExtensionByte(cb: Callbacks, p: Parser, c: char)
    requires InExtension(p) && Room(p, 1) && c != CR && (p.state.ChunkSize? ==> c == ';' || c == ' ')
    ensures Run(cb, p, [c]) == Ran(p.(nread := p.nread + 1, state := ChunkParameters), [], 1)
  {
    hide Byte, Run, Handle;
    OnePass(cb, p, c);
    InChunkPart(cb, Counted(p), c);
    RunOne(cb, p, c);
  }

  lemma {:induction false} ExtensionRun(cb: Callbacks, p: Parser, ext: string)
    requires InExtension(p) && Room(p, |ext|)
    requires if p.state.ChunkSize? then IsExtension(ext) else CR !in ext
    ensures Run(cb, p, ext) ==
            Ran(p.(nread := p.nread + |ext|, state := if ext == [] then p.state else ChunkParameters), [], |ext|)
    decreases |ext|
  {
    hide Run;
    if ext == [] {
      RunStopped(cb, p, ext);
    } else {
      ExtensionByte(cb, p, ext[0]);
      ExtensionRun(cb, p.(nread := p.nread + 1, state := ChunkParameters), ext[1..]);
      RunConcat(cb, p, [ext[0]], ext[1..]);
      assert ext == [ext[0]] + ext[1..];
    }
  }

  /** The line in front of the data of a chunk. */
  lemma SizeLineRun(cb: Callbacks, p: Parser, size: string, ext: string, n: nat)
    requires AtChunk(p) && IsSizeLine(size, ext, n)
    ensures var w := size + ext + CRLF;
            Run(cb, p, w) ==
              Ran(if n == 0
                  then p.(contentLength := 0, flags := p.flags.(trailing := true), state := HeaderFieldStart)
                  else p.(contentLength := n, state := ChunkData), [], |w|)
  {
    hide Byte, Run, Handle, IsExtension, AllHex;
    SizeRun(cb, p, size);
    var q := SizeRead(p, size, n);
    ExtensionRun(cb, q, ext);
    RunConcat(cb, p, size, ext);
    var s := q.(nread := q.nread + |ext|, state := if ext == [] then q.state else ChunkParameters);
    SizeLineEnd(cb, s);
    RunConcat(cb, p, size + ext, CRLF);
  }

  /** One chunk is delivered whole, however it is spelled, and the parser is at the start of the next. */
  lemma ChunkTextRun(cb: Callbacks, p: Parser, c: Chunk)
    requires AtChunk(p) && IsChunk(c)
    ensures Run(cb, p, ChunkText(c)) == Ran(p.(contentLength := 0), Bytewise(Body, c.data), |ChunkText(c)|)
  {
    hide Byte, Run, Handle, Bytewise, IsSizeLine;
    var a := c.size + c.ext + CRLF;
    SizeLineRun(cb, p, c.size, c.ext, |c.data|);
    RunConcat(cb, p, a, c.data);
    ChunkDataRun(cb, p.(contentLength := |c.data|, state := ChunkData), c.data);
    RunConcat(cb, p, a + c.data, CRLF);
    DataLineEnd(cb, p.(contentLength := 0, state := ChunkDataAlmostDone));
  }

  /** The spelling of the printer. */
  function Printed(piece: string): Chunk { Chunk(HexOf(|piece|), [], piece) }

  lemma PrintedIsChunk(piece: string)
    requires |piece| < TWO32
    ensures IsSizeLine(HexOf(|piece|), [], |piece|) && ChunkText(Printed(piece)) == ChunkOf(piece)
  {
    hide IsSizeLine, HexOf, ChunkText, ChunkOf;
    PrintedSize(|piece|);
    PrintedText(HexOf(|piece|), piece);
    ChunkOfShort(piece, |piece|);
  }

  lemma ChunkOfShort(piece: string, n: nat)
    requires n == |piece| < TWO32
    ensures ChunkOf(piece) == HexOf(n) + CRLF + piece + CRLF
  {
    hide HexOf;
    SmallMod(n);
  }

  lemma SmallMod(n: nat)
    requires n < TWO32
    ensures n % TWO32 == n
  {
  }

  lemma PrintedSize(n: nat)
    requires n < TWO32
    ensures IsSizeLine(HexOf(n), [], n)
  {
    hide HexOf, HexValue, AllHex;
    HexOfReads(n);
    HexOf32(n);
  }

  lemma PrintedText(w: string, piece: string)
    ensures ChunkText(Chunk(w, [], piece)) == w + CRLF + piece + CRLF
  {
    assert w + [] == w;
  }

  lemma ChunkRun(cb: Callbacks, p: Parser, piece: string)
    requires AtChunk(p) && 0 < |piece| < TWO32
    ensures Run(cb, p, ChunkOf(piece)) ==
            Ran(p.(contentLength := 0), Bytewise(Body, piece), |ChunkOf(piece)|)
  {
    hide Run, Bytewise, ChunkOf, ChunkText, IsSizeLine;
    PrintedIsChunk(piece);
    ChunkTextRun(cb, p, Printed(piece));
  }

  // ---------------------------------------------------------------- the whole body

  /** The parser after the last chunk, with the message complete. */
  function Ended(cb: Callbacks, p: Parser): Parser {
    Finish(cb, p.(contentLength := 0, nread := 2, flags := p.flags.(trailing := true))).p
  }

  /** The empty line after the last chunk's size line. */
  lemma TrailerEnd(cb: Callbacks, p: Parser)
    requires p.state.HeaderFieldStart? && p.errno.OK? && p.flags.trailing && Room(p, 2)
    ensures Run(cb, p, CRLF) == Ran(Finish(cb, p.(nread := p.nread + 2)).p, [Complete], 2)
  {
    hide Byte, Run, Handle, Finish;
    var q := p.(nread := p.nread + 1, state := HeadersAlmostDone);
    OnePass(cb, p, CR);
    InFieldPart(cb, Counted(p), CR);
    RunOne(cb, p, CR);
    OnePass(cb, q, LF);
    InHeadersEndPart(cb, Counted(q), LF);
    RunOne(cb, q, LF);
    FinishAdvances(cb, Counted(q));
    FinishIgnoresState(cb, p.(nread := p.nread + 2), HeadersAlmostDone);
    RunConcat(cb, p, [CR], [LF]);
    assert CRLF == [CR] + [LF];
  }

  /** The last chunk: a size of 0, however it is spelled, and no trailer. */
  lemma LastTextRun(cb: Callbacks, p: Parser, size: string, ext: string)
    requires AtChunk(p) && IsSizeLine(size, ext, 0)
    ensures var w := size + ext + CRLF + CRLF; Run(cb, p, w) == Ran(Ended(cb, p), [Complete], |w|)
  {
    hide Byte, Run, Handle, Finish, IsSizeLine;
    SizeLineRun(cb, p, size, ext, 0);
    var s := p.(contentLength := 0, flags := p.flags.(trailing := true), state := HeaderFieldStart);
    RunConcat(cb, p, size + ext + CRLF, CRLF);
    TrailerEnd(cb, s);
    FinishIgnoresState(cb, s.(nread := 2), ChunkSizeStart);
  }

  lemma LastChunkRun(cb: Callbacks, p: Parser)
    requires AtChunk(p)
    ensures Run(cb, p, LAST_CHUNK) == Ran(Ended(cb, p), [Complete], 5)
  {
    hide Run, Ended;
    LastSizeLine();
    LastTextRun(cb, p, "0", []);
  }

  lemma LastSizeLine()
    ensures IsSizeLine("0", [], 0) && "0" + [] + CRLF + CRLF == LAST_CHUNK
  {
    HexOfReads(0);
    assert HexOf(0) == "0";
  }

  /** A chunked body as a peer may write it, without a trailer; `last` spells the size 0. */
  function ChunkedText(cs: seq<Chunk>, last: Chunk): string {
    if cs == [] then last.size + last.ext + CRLF + CRLF else ChunkText(cs[0]) + ChunkedText(cs[1..], last)
  }

  predicate AreChunks(cs: seq<Chunk>, last: Chunk) {
    (forall i :: 0 <= i < |cs| ==> IsChunk(cs[i])) && IsSizeLine(last.size, last.ext, 0)
  }

  function Payload(cs: seq<Chunk>): string {
    if cs == [] then [] else cs[0].data + Payload(cs[1..])
  }

  /** However its chunks are spelled, a body is read as exactly its data, and it is complete once, at its end. */
  lemma {:induction false} ChunkedTextRun(cb: Callbacks, p: Parser, cs: seq<Chunk>, last: Chunk)
    requires AtChunk(p) && AreChunks(cs, last)
    ensures Run(cb, p, ChunkedText(cs, last)) ==
            Ran(Ended(cb, p), Bytewise(Body, Payload(cs)) + [Complete], |ChunkedText(cs, last)|)
    decreases |cs|
  {
    hide Byte, Run, Handle, Bytewise, ChunkText, Finish, IsChunk, IsSizeLine;
    if cs == [] {
      LastTextRun(cb, p, last.size, last.ext);
      BytewiseNone(Body);
      assert [] + [Complete] == [Complete];
    } else {
      ChunkTextRun(cb, p, cs[0]);
      ChunkedTextRun(cb, p.(contentLength := 0), cs[1..], last);
      RunConcat(cb, p, ChunkText(cs[0]), ChunkedText(cs[1..], last));
      var a, b := Bytewise(Body, cs[0].data), Bytewise(Body, Payload(cs[1..]));
      BytewiseConcat(Body, cs[0].data, Payload(cs[1..]));
      assert a + (b + [Complete]) == a + b + [Complete];
    }
  }

  predicate Writable(pieces: seq<string>) {
    forall i :: 0 <= i < |pieces| ==> 0 < |pieces[i]| < TWO32
  }

  /** The chunks of a body that is not at its end yet. */
  function Chunks(pieces: seq<string>): string {
    if pieces == [] then [] else ChunkOf(pieces[0]) + Chunks(pieces[1..])
  }

  lemma {:induction false} ChunksSnoc(pieces: seq<string>, piece: string)
    ensures Chunks(pieces + [piece]) == Chunks(pieces) + ChunkOf(piece)
    decreases |pieces|
  {
    hide ChunkOf;
    if pieces == [] {
      assert [piece][1..] == [] && [] + [piece] == [piece];
    } else {
      assert (pieces + [piece])[1..] == pieces[1..] + [piece];
      ChunksSnoc(pieces[1..], piece);
    }
  }

  /** Chunks without the last one: the parser has their bytes and waits for the next chunk. */
  lemma {:induction false} ChunksRun(cb: Callbacks, p: Parser, pieces: seq<string>)
    requires AtChunk(p) && Writable(pieces)
    ensures var r := Run(cb, p, Chunks(pieces));
            && AtChunk(r.p) && r == Ran(p.(contentLength := r.p.contentLength), Bytewise(Body, Flatten(pieces)),
                                        |Chunks(pieces)|)
    decreases |pieces|
  {
    hide Run, Bytewise, ChunkOf;
    if pieces == [] {
      RunStopped(cb, p, []);
      BytewiseNone(Body);
    } else {
      ChunkRun(cb, p, pieces[0]);
      ChunksRun(cb, p.(contentLength := 0), pieces[1..]);
      RunConcat(cb, p, ChunkOf(pieces[0]), Chunks(pieces[1..]));
      BytewiseConcat(Body, pieces[0], Flatten(pieces[1..]));
    }
  }

  function PrintedAll(pieces: seq<string>): seq<Chunk> {
    if pieces == [] then [] else [Printed(pieces[0])] + PrintedAll(pieces[1..])
  }

  const LAST: Chunk := Chunk("0", [], [])

  /** What the printer writes is one spelling of the body. */
  lemma {:induction false} CodedIsText(pieces: seq<string>)
    requires Writable(pieces)
    ensures var cs := PrintedAll(pieces);
            AreChunks(cs, LAST) && ChunkedText(cs, LAST) == Coded(pieces) && Payload(cs) == Flatten(pieces)
    decreases |pieces|
  {
    hide IsSizeLine, ChunkText, ChunkOf, HexOf;
    LastSizeLine();
    if pieces != [] {
      PrintedIsChunk(pieces[0]);
      CodedIsText(pieces[1..]);
      assert PrintedAll(pieces)[1..] == PrintedAll(pieces[1..]);
    }
  }

  /** The chunk coding round trip: what the printer writes for any list of non-empty pieces, the
      parser reads back as exactly these bytes, it completes the message once, at the end, and it
      consumes every byte. */
  lemma CodedRun(cb: Callbacks, p: Parser, pieces: seq<string>)
    requires AtChunk(p) && Writable(pieces)
    ensures Run(cb, p, Coded(pieces)) ==
            Ran(Ended(cb, p), Bytewise(Body, Flatten(pieces)) + [Complete], |Coded(pieces)|)
  {
    hide Run, Bytewise, Ended, ChunkedText, AreChunks, PrintedAll;
    CodedIsText(pieces);
    ChunkedTextRun(cb, p, PrintedAll(pieces), LAST);
  }

  /** The same, merged: one body event and the completion. */
  lemma CodedTold(cb: Callbacks, p: Parser, pieces: seq<string>, t: seq<Event>)
    requires AtChunk(p) && Writable(pieces)
    ensures EmitAll(t, Run(cb, p, Coded(pieces)).events) ==
            (if pieces == [] then t else Emit(t, Data(Body, Flatten(pieces)))) + [Complete]
  {
    hide Byte, Run, Handle, Bytewise, EmitAll;
    CodedRun(cb, p, pieces);
    var w := Flatten(pieces);
    EmitAllConcat(t, Bytewise(Body, w), [Complete]);
    EmitAllOne(EmitAll(t, Bytewise(Body, w)), Complete);
    if pieces == [] {
      BytewiseNone(Body);
      EmitAllNone(t);
    } else {
      BytewiseMerges(t, Body, w);
    }
  }

  /** Why the pieces must not be empty: an empty piece is printed as the last chunk, so the body
      ends there whatever follows. */
  lemma EmptyPieceEndsBody(cb: Callbacks, p: Parser, rest: seq<string>)
    requires AtChunk(p)
    ensures ChunkOf([]) == LAST_CHUNK && Coded([[]] + rest) == LAST_CHUNK + Coded(rest)
    ensures Run(cb, p, Coded([[]] + rest)[..5]).events == [Complete]
  {
    hide Run;
    assert HexOf(0) == ['0'];
    assert ChunkOf([]) == LAST_CHUNK;
    assert ([[]] + rest)[1..] == rest;
    assert Coded([[]] + rest)[..5] == LAST_CHUNK;
    LastChunkRun(cb, p);
  }
}
