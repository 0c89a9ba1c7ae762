/**
 Uploads: what push_upload_data_chunk writes to the backend and what its result means to the two callers
 that take anything but 0 for a failure.
 */
module Upload {
  import opened HttpTypes
  import opened HttpChunks
  import opened HttpHeaders
  import opened HeaderAssembly

  /** Whether the three additions to the output buffer succeed: size line, data, line end. */
  datatype Adds = Adds(size: bool, data: bool, end: bool)

  const ALL_ADDED: Adds := Adds(true, true, true)

  datatype Pushed = Pushed(written: string, result: int)

  function SizeLine(data: string): string { HexOf(|data| % TWO32) + CRLF }

  /** push_upload_data_chunk: the bytes it writes, and its result, -1 or a count of framing bytes. */
  function Push(connected: bool, chunked: bool, data: string, adds: Adds): Pushed {
    if !connected then Pushed([], 0)
    else if chunked && !adds.size then Pushed([], -1)
    else
      var size := if chunked then SizeLine(data) else [];
      if !adds.data then Pushed(size, -1)
      else if chunked && !adds.end then Pushed(size + data, -1)
      else if chunked then Pushed(ChunkOf(data), |size| + 2)
      else Pushed(data, 0)
  }

  /** The request part of a Downstream object. */
  class Request {
    var headers: seq<Header>
    var keyPrev: bool
    var chunkedRequest: bool
    var connected: bool        // dconn_ is not null
    var output: string         // of the backend connection

    constructor ()
      ensures State() == EMPTY && !chunkedRequest && !connected && output == []
    {
      headers, keyPrev, chunkedRequest, connected, output := [], false, false, false, [];
    }

    ghost function State(): Assembly
      reads this
    {
      Assembly(headers, keyPrev)
    }

    method AddRequestHeader(name: string, value: string)
      modifies this`headers, this`keyPrev
      ensures headers == old(headers) + [Header(name, value)] && keyPrev
    {
      keyPrev := true;
      headers := headers + [Header(name, value)];
    }

    method SetLastRequestHeaderValue(value: string)
      requires headers != []
      modifies this`headers, this`keyPrev, this`chunkedRequest
      ensures headers == WithLast(old(headers), LastOf(old(headers)).(value := value)) && !keyPrev
      ensures chunkedRequest == (old(chunkedRequest) || SaysChunked(LastOf(headers)))
    {
      hide Strings.CStr, Strings.SameNoCase, Strings.OccursNoCase;
      keyPrev := false;
      var item := headers[|headers| - 1].(value := value);
      headers := headers[..|headers| - 1] + [item];
      var named := Strings.Strieq(item.name, "transfer-encoding");
      if named {
        var found := Strings.Strifind(item.value, "chunked");
        if found {
          chunkedRequest := true;
        }
      }
    }

    /** The header callbacks of the HTTPS upstream, htp_hdr_keycb and htp_hdr_valcb; other callbacks do nothing to
        the headers, and the parser never delivers a value before a name. */
    method OnHeaderData(e: Event)
      requires keyPrev ==> headers != []
      modifies this`headers, this`keyPrev, this`chunkedRequest
      ensures State() == OnEvent(old(State()), e) && (keyPrev ==> headers != [])
      ensures chunkedRequest == ChunkedOnEvent(old(State()), old(chunkedRequest), e)
    {
      hide SaysChunked;
      if e.Data? && e.kind.Field? {
        if keyPrev {
          var item := headers[|headers| - 1];
          headers := headers[..|headers| - 1] + [item.(name := item.name + e.bytes)];
        } else {
          AddRequestHeader(e.bytes, "");
        }
      } else if e.Data? && e.kind.Value? && headers != [] {
        if keyPrev {
          SetLastRequestHeaderValue(e.bytes);
        } else {
          var item := headers[|headers| - 1];
          headers := headers[..|headers| - 1] + [item.(value := item.value + e.bytes)];
        }
      }
    }

    method OnHeaderCalls(calls: seq<Event>)
      requires keyPrev ==> headers != []
      modifies this`headers, this`keyPrev, this`chunkedRequest
      ensures State() == OnEvents(old(State()), calls)
      ensures chunkedRequest == ChunkedAfter(old(State()), old(chunkedRequest), calls)
    {
      hide OnEvent, ChunkedOnEvent;
      assert calls[..0] == [];
      for i := 0 to |calls|
        invariant keyPrev ==> headers != []
        invariant State() == OnEvents(old(State()), calls[..i])
        invariant chunkedRequest == ChunkedAfter(old(State()), old(chunkedRequest), calls[..i])
      {
        assert calls[..i + 1][..i] == calls[..i];
        OnHeaderData(calls[i]);
      }
      assert calls[..|calls|] == calls;
    }

    method PushUploadDataChunk(data: string, adds: Adds) returns (res: int)
      modifies this`output
      ensures var p := Push(connected, chunkedRequest, data, adds);
              output == old(output) + p.written && res == p.result
    {
      hide HexOf;
      res := 0;
      if !connected {
        return;
      }
      if chunkedRequest {
        var line := SizeLine(data);
        res := res + |line|;
        if !adds.size {
          return -1;
        }
        output := output + line;
      }
      if !adds.data {
        return -1;
      }
      output := output + data;
      if chunkedRequest {
        if !adds.end {
          return -1;
        }
        output := output + CRLF;
        res := res + 2;
      }
    }

    /** The body callback of the HTTPS upstream.  With a backend and room in its buffer it writes the right
        bytes and fails if and only if the request is chunked. */
    method HttpsBody(data: string, adds: Adds) returns (rc: int)
      modifies this`output
      ensures rc == 0 || rc == -1
      ensures adds == ALL_ADDED ==>
                && (rc == -1 <==> connected && chunkedRequest)
                && output == old(output) + (if !connected then [] else if chunkedRequest then ChunkOf(data) else data)
    {
      hide HexOf, ChunkOf;
      var rv := PushUploadDataChunk(data, adds);
      if rv != 0 {
        return -1;
      }
      return 0;
    }

    /** The body callback for one piece after the other, until it fails. */
    method HttpsPieces(pieces: seq<string>) returns (failed: bool)
      modifies this`output
      ensures failed <==> connected && chunkedRequest && pieces != []
      ensures output == old(output) + if failed then ChunkOf(pieces[0]) else if connected then Flatten(pieces) else []
    {
      hide ChunkOf;
      assert pieces[..0] == [];
      for i := 0 to |pieces|
        invariant output == old(output) + if connected then Flatten(pieces[..i]) else []
        invariant i > 0 ==> !(connected && chunkedRequest)
      {
        FlattenSnoc(pieces[..i], pieces[i]);
        assert pieces[..i + 1] == pieces[..i] + [pieces[i]];
        var rc := HttpsBody(pieces[i], ALL_ADDED);
        if rc != 0 {
          return true;
        }
      }
      assert pieces[..|pieces|] == pieces;
      return false;
    }

    /** The header pairs of a SYN_STREAM.  They never make a request chunked, whatever they say. */
    method SynStream(nv: seq<Header>)
      modifies this`headers, this`keyPrev
      ensures headers == old(headers) + nv
    {
      assert nv[..0] == [];
      for i := 0 to |nv|
        invariant headers == old(headers) + nv[..i]
      {
        assert nv[..i + 1] == nv[..i] + [nv[i]];
        AddRequestHeader(nv[i].name, nv[i].value);
      }
      assert nv[..|nv|] == nv;
    }
  }

  /** An upload of the HTTPS upstream, whatever its header callbacks, in whatever pieces, and the pieces of its
      body: with room in the buffers it fails if and only if it has a backend and a body, and the flag was set, which
      is if the first piece of a Transfer-Encoding value held the word; and it fails at the first piece. */
  method HttpsUpload(calls: seq<Event>, connected: bool, pieces: seq<string>) returns (failed: bool, written: string)
    ensures failed <==> connected && pieces != [] && exists i :: FirstPieceSays(EMPTY, calls, i)
    ensures written == if failed then ChunkOf(pieces[0]) else if connected then Flatten(pieces) else []
  {
    hide OnEvents, ChunkedAfter, FirstPieceSays, ChunkOf;
    var r := new Request();
    r.OnHeaderCalls(calls);
    ChunkedExactly(EMPTY, calls);
    r.connected := connected;
    failed := r.HttpsPieces(pieces);
    written := r.output;
  }

  /** No upload of the SPDY upstream fails while the backend's buffer takes the bytes: the results are all 0,
      and the bytes arrive as they are. */
  method SpdyUpload(nv: seq<Header>, connected: bool, pieces: seq<string>) returns (failed: bool, written: string)
    ensures !failed && written == if connected then Flatten(pieces) else []
  {
    var r := new Request();
    r.SynStream(nv);
    r.connected := connected;
    failed := false;
    for i := 0 to |pieces|
      invariant !r.chunkedRequest && r.connected == connected && !failed && fresh(r)
      invariant r.output == if connected then Flatten(pieces[..i]) else []
    {
      FlattenSnoc(pieces[..i], pieces[i]);
      assert pieces[..i + 1] == pieces[..i] + [pieces[i]];
      var rv := r.PushUploadDataChunk(pieces[i], ALL_ADDED);
      if rv != 0 {
        failed := true;
      }
    }
    assert pieces[..|pieces|] == pieces;
    written := r.output;
  }

  /** To the SPDY upstream, a failure is a failed addition to the backend's buffer and nothing else. */
  lemma SpdyFailure(connected: bool, data: string, adds: Adds)
    ensures Push(connected, false, data, adds).result != 0 <==> connected && !adds.data
  {
  }
}
