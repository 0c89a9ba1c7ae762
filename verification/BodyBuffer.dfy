/**
 The response body of a SPDY stream between the backend connection and the session: the bytes that the
 response parser delivers are buffered, the session takes them, and a full buffer stops reading from the
 backend until it is empty.
 */
module BodyBuffer {
  import opened HttpTypes
  import opened BodyShare

  const UPPER_THRES: nat := 64 * 1024
  const READ_WATER_MARK: nat := 64 * 1024

  datatype Reason = NoBuffer | MsgBlock

  // ---------------------------------------------------------------- the state and its steps

  /** `bev` is None without a backend connection, and otherwise says whether it reads.  `delivered` and
      `handed` record what the parser gave and what the session took; `page` is an error page that was put
      behind a complete response. `connect` says whether the request is a CONNECT. */
  datatype Relay = Relay(
    buf: string, rdbits: set<Reason>, bev: Option<bool>, connect: bool, complete: bool, tunnel: bool,
    deferred: bool, eof: bool, reset: bool, delivered: string, page: string, handed: string)

  /** tunnel_established */
  predicate Tunnels(connect: bool, status: nat) { connect && 200 <= status < 300 }

  function Paused(b: Relay, reason: Reason): Relay {
    b.(rdbits := b.rdbits + {reason}, bev := if b.bev.Some? then Some(false) else None)
  }

  function Resumed(b: Relay, reason: Reason): Relay {
    var rdbits := b.rdbits - {reason};
    b.(rdbits := rdbits, bev := if rdbits == {} && b.bev.Some? then Some(true) else b.bev)
  }

  /** on_downstream_body */
  function Appended(b: Relay, w: string): Relay {
    var a := b.(buf := b.buf + w, delivered := b.delivered + w, deferred := false);
    if |a.buf| > UPPER_THRES then Paused(a, NoBuffer) else a
  }

  /** htp_msg_completecb and on_downstream_body_complete */
  function Completed(b: Relay): Relay {
    b.(complete := true, deferred := false)
  }

  /** htp_hdrs_completecb for a further response head: the response is under way again. */
  function Headed(b: Relay, info: Info): Relay {
    b.(complete := false, tunnel := Tunnels(b.connect, info.statusCode))
  }

  /** What the callbacks of one read of the backend do. */
  function Called(b: Relay, e: Event): Relay {
    if e.Data? && e.kind == Body then Appended(b, e.bytes)
    else if e.Complete? then Completed(b)
    else if e.HeadersComplete? then Headed(b, e.info)
    else b
  }

  function CalledAll(b: Relay, es: seq<Event>): Relay
    decreases |es|
  {
    if es == [] then b else CalledAll(Called(b, es[0]), es[1..])
  }

  function Min(a: nat, b: nat): nat { if a < b then a else b }

  /** spdy_data_read_callback, and body_buf_cb when it took something. */
  function Taken(b: Relay, length: nat): Relay {
    var n := Min(length, |b.buf|);
    var a := b.(buf := b.buf[n..], handed := b.handed + b.buf[..n]);
    if n > 0 then (if a.buf == [] then Resumed(a, NoBuffer) else a)
    else if !b.tunnel && b.complete then a.(eof := true)
    else a.(deferred := true)
  }

  /** spdy_downstream_eventcb when the backend closes: that ends a response that was not complete, except that
      a tunnel is reset; and a response that was complete already is reset, tunnel or not. */
  function Lost(b: Relay): Relay {
    if b.complete then b.(bev := None, reset := true)
    else b.(bev := None, complete := true, deferred := b.deferred && b.tunnel, reset := b.reset || b.tunnel)
  }

  /** spdy_downstream_eventcb at an error or a timeout of the backend connection. */
  function Failed(b: Relay): Relay {
    b.(bev := None, complete := true, reset := true)
  }

  /** spdy_downstream_readcb when the parser rejects what was read: a response under way is reset, and one that
      was complete gets an error page behind its body. */
  function Rejected(b: Relay, page: string): Relay {
    if !b.complete then Failed(b)
    else b.(bev := None, buf := b.buf + page, page := b.page + page)
  }

  datatype Happening =
    | Read(calls: seq<Event>)
    | ReadFails(calls: seq<Event>, page: string)
    | Take(length: nat)
    | BackendEof
    | BackendError
    | RequestReset

  /** A read happens while the connection reads, and has no more than the input buffer holds; the session
      asks for data unless it was told to wait or to stop, and asks for at least one byte; the backend can
      close or fail for as long as it is attached, and what the client uploads can have the stream reset at
      any time. */
  predicate Enabled(b: Relay, h: Happening) {
    match h
    case Read(calls) => b.bev == Some(true) && |BodyOf(calls)| <= READ_WATER_MARK
    case ReadFails(calls, _) => b.bev == Some(true) && |BodyOf(calls)| <= READ_WATER_MARK
    case Take(length) => !b.deferred && !b.eof && !b.reset && length > 0
    case BackendEof => b.bev.Some?
    case BackendError => b.bev.Some?
    case RequestReset => true
  }

  function Step(b: Relay, h: Happening): Relay {
    match h
    case Read(calls) => CalledAll(b, calls)
    case ReadFails(calls, page) => Rejected(CalledAll(b, calls), page)
    case Take(length) => Taken(b, length)
    case BackendEof => Lost(b)
    case BackendError => Failed(b)
    case RequestReset => b.(reset := true)
  }

  predicate IsRun(b: Relay, hs: seq<Happening>)
    decreases |hs|
  {
    hs == [] || (Enabled(b, hs[0]) && IsRun(Step(b, hs[0]), hs[1..]))
  }

  function End(b: Relay, hs: seq<Happening>): Relay
    decreases |hs|
  {
    if hs == [] then b else End(Step(b, hs[0]), hs[1..])
  }

  /** After the response header: an empty buffer, and a connection that reads. */
  function Start(connect: bool, status: nat): Relay {
    Relay([], {}, Some(true), connect, false, Tunnels(connect, status), false, false, false, [], [], [])
  }

  // ---------------------------------------------------------------- the objects

  class BufferEvent {
    var reading: bool

    constructor ()
      ensures reading
    {
      reading := true;
    }
  }

  class IOControl {
    var bev: BufferEvent?
    var rdbits: set<Reason>

    /** The connection reads exactly when there is no reason to pause. */
    ghost predicate Valid()
      reads this, bev
    {
      bev != null ==> (bev.reading <==> rdbits == {})
    }

    constructor ()
      ensures Valid() && bev == null && rdbits == {}
    {
      bev := null;
      rdbits := {};
    }

    method SetBev(b: BufferEvent?)
      requires b != null ==> (b.reading <==> rdbits == {})
      modifies this`bev
      ensures Valid() && bev == b
    {
      bev := b;
    }

    method PauseRead(reason: Reason)
      modifies this`rdbits, bev
      ensures Valid() && rdbits == old(rdbits) + {reason}
    {
      rdbits := rdbits + {reason};
      if bev != null {
        bev.reading := false;
      }
    }

    /** The result says whether no reason is left. */
    method ResumeRead(reason: Reason) returns (resumed: bool)
      requires Valid()
      modifies this`rdbits, bev
      ensures Valid() && rdbits == old(rdbits) - {reason}
      ensures resumed <==> rdbits == {}
    {
      rdbits := rdbits - {reason};
      if rdbits == {} {
        if bev != null {
          bev.reading := true;
        }
        return true;
      } else {
        return false;
      }
    }

    method ForceResumeRead()
      modifies this`rdbits, bev
      ensures Valid() && rdbits == {}
    {
      rdbits := {};
      if bev != null {
        bev.reading := true;
      }
    }
  }

  datatype ReadResult = Deferred | Chunk(bytes: string, eof: bool)

  class ResponseBody {
    const ioctrl: IOControl
    const connect: bool
    var tunnel: bool
    var buf: string
    var complete: bool
    var deferred: bool           // of the session's data provider
    var eof: bool                // the session was told the end
    var reset: bool              // a RST_STREAM was submitted
    ghost var delivered: string
    ghost var page: string
    ghost var handed: string

    ghost predicate Valid()
      reads this, ioctrl, ioctrl.bev
    {
      ioctrl.Valid()
    }

    ghost function State(): Relay
      reads this, ioctrl, ioctrl.bev
    {
      Relay(buf, ioctrl.rdbits, if ioctrl.bev == null then None else Some(ioctrl.bev.reading), connect, complete,
            tunnel, deferred, eof, reset, delivered, page, handed)
    }

    constructor (bev: BufferEvent, connect: bool, status: nat)
      requires bev.reading
      ensures Valid() && State() == Start(connect, status)
      ensures fresh(ioctrl) && ioctrl.bev == bev
    {
      var c := new IOControl();
      ioctrl := c;
      this.connect := connect;
      tunnel := Tunnels(connect, status);
      buf := "";
      complete := false;
      deferred := false;
      eof := false;
      reset := false;
      delivered := "";
      page := "";
      handed := "";
      new;
      ioctrl.SetBev(bev);
    }

    method OnDownstreamBody(w: string)
      requires Valid()
      modifies this, ioctrl`rdbits, ioctrl.bev
      ensures Valid() && State() == Appended(old(State()), w)
    {
      buf := buf + w;
      delivered := delivered + w;
      deferred := false;
      if |buf| > UPPER_THRES {
        ioctrl.PauseRead(NoBuffer);
      }
    }

    method OnMessageComplete()
      requires Valid()
      modifies this`complete, this`deferred
      ensures Valid() && State() == Completed(old(State()))
    {
      complete := true;
      deferred := false;
    }

    method OnHeadersComplete(info: Info)
      requires Valid()
      modifies this`complete, this`tunnel
      ensures Valid() && State() == Headed(old(State()), info)
    {
      tunnel := connect && 200 <= info.statusCode < 300;
      complete := false;
    }

    /** The parser's callbacks for one read. */
    method OnCalls(es: seq<Event>)
      requires Valid()
      modifies this, ioctrl`rdbits, ioctrl.bev
      ensures Valid() && State() == CalledAll(old(State()), es)
      ensures ioctrl.bev == old(ioctrl.bev)
    {
      for i := 0 to |es|
        invariant Valid() && ioctrl.bev == old(ioctrl.bev)
        invariant CalledAll(State(), es[i..]) == CalledAll(old(State()), es)
      {
        assert es[i..][0] == es[i] && es[i..][1..] == es[i + 1..];
        if es[i].Data? && es[i].kind == Body {
          OnDownstreamBody(es[i].bytes);
        } else if es[i].Complete? {
          OnMessageComplete();
        } else if es[i].HeadersComplete? {
          OnHeadersComplete(es[i].info);
        }
      }
    }

    method DataReadCallback(length: nat) returns (r: ReadResult)
      requires Valid()
      modifies this, ioctrl`rdbits, ioctrl.bev
      ensures Valid() && State() == Taken(old(State()), length)
      ensures var n := Min(length, |old(buf)|);
              r == if n > 0 then Chunk(old(buf)[..n], false)
                   else if complete && !tunnel then Chunk([], true)
                   else Deferred
    {
      var n := Min(length, |buf|);
      var bytes := buf[..n];
      handed := handed + bytes;
      buf := buf[n..];
      if n > 0 && buf == [] {
        var _ := ioctrl.ResumeRead(NoBuffer);
      }
      if !tunnel && n == 0 && complete {
        eof := true;
        return Chunk(bytes, true);
      }
      if n == 0 {
        deferred := true;
        return Deferred;
      }
      return Chunk(bytes, false);
    }

    method RstStream()
      requires Valid()
      modifies this`reset
      ensures Valid() && State() == old(State()).(reset := true)
    {
      reset := true;
    }

    /** The backend closes. */
    method OnBackendEof()
      requires Valid()
      modifies this, ioctrl`bev
      ensures Valid() && State() == Lost(old(State())) && ioctrl.bev == null
    {
      ioctrl.SetBev(null);
      if !complete {
        complete := true;
        if tunnel {
          RstStream();
        } else {
          deferred := false;
        }
      } else {
        RstStream();
      }
    }

    /** The backend connection fails or times out. */
    method OnBackendError()
      requires Valid()
      modifies this, ioctrl`bev
      ensures Valid() && State() == Failed(old(State())) && ioctrl.bev == null
    {
      ioctrl.SetBev(null);
      RstStream();
      complete := true;
    }

    method ErrorReply(html: string)
      requires Valid()
      modifies this
      ensures Valid() && State() == old(State()).(buf := old(buf) + html, page := old(page) + html, complete := true)
    {
      buf := buf + html;
      page := page + html;
      complete := true;
    }

    /** The parser stops at what the backend sent. */
    method OnParseFailure(html: string)
      requires Valid()
      modifies this, ioctrl`bev
      ensures Valid() && State() == Rejected(old(State()), html) && ioctrl.bev == null
    {
      if !complete {
        RstStream();
      } else {
        ErrorReply(html);
      }
      complete := true;
      ioctrl.SetBev(null);
    }
  }

  // ---------------------------------------------------------------- over every run

  predicate Sound(b: Relay) {
    && b.delivered + b.page == b.handed + b.buf
    && (b.page != [] ==> b.bev.None? && b.complete)
    && b.rdbits <= {NoBuffer}
    && (if NoBuffer in b.rdbits then b.buf != [] else |b.buf| <= UPPER_THRES + |b.page|)
    && (b.bev.Some? ==> (b.bev.value <==> b.rdbits == {}))
    && |b.buf| <= UPPER_THRES + READ_WATER_MARK + |b.page|
    && (b.deferred && !b.reset && (b.page == [] || !b.tunnel) ==> b.buf == [] && (b.tunnel || !b.complete))
  }

  /** Whether the response is complete after the calls: it is again under way after a further head. */
  function CompleteAfter(complete: bool, es: seq<Event>): bool
    decreases |es|
  {
    if es == [] then complete
    else CompleteAfter(if es[0].Complete? then true else if es[0].HeadersComplete? then false else complete, es[1..])
  }

  lemma {:induction false} ReadSound(b: Relay, es: seq<Event>)
    requires Sound(b) && b.page == [] && |b.buf| + |BodyOf(es)| <= UPPER_THRES + READ_WATER_MARK
    ensures var c := CalledAll(b, es);
            && Sound(c) && c.delivered == b.delivered + BodyOf(es) && c.page == []
            && c.handed == b.handed && c.connect == b.connect && c.reset == b.reset && c.eof == b.eof
            && c.complete == CompleteAfter(b.complete, es)
    decreases |es|
  {
    if es != [] {
      var c := Called(b, es[0]);
      CallSound(b, es[0]);
      ReadSound(c, es[1..]);
      if es[0].Data? && es[0].kind == Body {
        assert b.delivered + es[0].bytes + BodyOf(es[1..]) == b.delivered + (es[0].bytes + BodyOf(es[1..]));
      }
    }
  }

  lemma CallSound(b: Relay, e: Event)
    requires Sound(b) && b.page == []
    requires e.Data? && e.kind == Body ==> |b.buf| + |e.bytes| <= UPPER_THRES + READ_WATER_MARK
    ensures var c := Called(b, e);
            && Sound(c) && c.page == [] && c.handed == b.handed && c.connect == b.connect && c.reset == b.reset
            && c.eof == b.eof
            && c.complete == (if e.Complete? then true else if e.HeadersComplete? then false else b.complete)
    ensures e.Data? && e.kind == Body ==>
              Called(b, e).buf == b.buf + e.bytes && Called(b, e).delivered == b.delivered + e.bytes
    ensures !(e.Data? && e.kind == Body) ==> Called(b, e).buf == b.buf && Called(b, e).delivered == b.delivered
  {
    if e.Data? && e.kind == Body {
      assert b.handed + b.buf + e.bytes == b.handed + (b.buf + e.bytes);
    }
  }

  lemma TakeSound(b: Relay, length: nat)
    requires Sound(b) && length > 0
    ensures var c := Taken(b, length);
            && Sound(c) && c.connect == b.connect && b.handed <= c.handed
            && c.delivered == b.delivered && c.page == b.page && c.reset == b.reset
  {
    hide Sound;
    var n := Min(length, |b.buf|);
    if n == 0 {
      TakeNone(b, length);
    } else {
      TakeSome(b, n);
    }
  }

  lemma TakeNone(b: Relay, length: nat)
    requires Sound(b) && length > 0 && b.buf == []
    ensures var c := Taken(b, length); Sound(c) && c.handed == b.handed
  {
    assert b.buf[0..] == b.buf && b.handed + b.buf[..0] == b.handed;
  }

  lemma TakeSome(b: Relay, n: nat)
    requires Sound(b) && 0 < n <= |b.buf|
    ensures Sound(Taken(b, n)) && b.handed <= Taken(b, n).handed
  {
    SplitAt(b.handed, b.buf, n);
    if n == |b.buf| {
      assert b.rdbits - {NoBuffer} == {};
    }
  }

  lemma SplitAt(a: string, w: string, n: nat)
    requires n <= |w|
    ensures a + w == a + w[..n] + w[n..]
  {
    assert w == w[..n] + w[n..];
  }

  lemma RejectSound(b: Relay, page: string)
    requires Sound(b) && b.page == []
    ensures Sound(Rejected(b, page)) && Rejected(b, page).connect == b.connect
    ensures Rejected(b, page).handed == b.handed && Rejected(b, page).delivered == b.delivered
  {
    assert b.delivered + b.page == b.delivered && b.page + page == page;
    assert b.handed + b.buf + page == b.handed + (b.buf + page);
  }

  lemma StepSound(b: Relay, h: Happening)
    requires Sound(b) && Enabled(b, h)
    ensures Sound(Step(b, h)) && Step(b, h).connect == b.connect
    ensures b.handed <= Step(b, h).handed && b.delivered <= Step(b, h).delivered
  {
    hide CalledAll, Taken;
    match h
    case Read(calls) => ReadSound(b, calls);
    case ReadFails(calls, page) => ReadSound(b, calls); RejectSound(CalledAll(b, calls), page);
    case Take(length) => TakeSound(b, length);
    case BackendEof =>
    case BackendError =>
    case RequestReset =>
  }

  /** In every run: what the session took is an in-order prefix of what the parser delivered, with an error page
      at most behind it, and the buffer holds the rest; a paused connection has bytes in the buffer, and a
      connection that is not paused reads; the buffer never exceeds its threshold by more than one read and
      the page; a session that waits on a stream that was not reset has nothing to wait for, unless a page
      was put into a tunnel. */
  lemma {:induction false} RunSound(b: Relay, hs: seq<Happening>)
    requires Sound(b) && IsRun(b, hs)
    ensures Sound(End(b, hs)) && End(b, hs).connect == b.connect
    ensures b.handed <= End(b, hs).handed && b.delivered <= End(b, hs).delivered
    decreases |hs|
  {
    hide Step, Sound;
    if hs != [] {
      StepSound(b, hs[0]);
      RunSound(Step(b, hs[0]), hs[1..]);
    }
  }

  lemma StartSound(connect: bool, status: nat)
    ensures Sound(Start(connect, status))
  {
  }

  /** No read has a further response head. */
  predicate OneHead(hs: seq<Happening>) {
    forall h :: h in hs && (h.Read? || h.ReadFails?) ==> NoHead(h.calls)
  }

  predicate NoHead(es: seq<Event>) { forall e :: e in es ==> !e.HeadersComplete? }

  /** The end was told of a complete response that is no tunnel. */
  predicate EndedWell(b: Relay) { b.eof ==> b.complete && !b.tunnel }

  lemma {:induction false} CallsEndWell(b: Relay, es: seq<Event>)
    requires EndedWell(b) && NoHead(es)
    ensures EndedWell(CalledAll(b, es))
    decreases |es|
  {
    if es != [] {
      CallsEndWell(Called(b, es[0]), es[1..]);
    }
  }

  lemma StepEndsWell(b: Relay, h: Happening)
    requires EndedWell(b) && (h.Read? || h.ReadFails? ==> NoHead(h.calls))
    ensures EndedWell(Step(b, h))
  {
    hide CalledAll;
    if h.Read? || h.ReadFails? {
      CallsEndWell(b, h.calls);
    }
  }

  /** In every run in which the backend sends one response head, the end was told only of a complete response that
      is no tunnel. */
  lemma {:induction false} RunEndsWell(b: Relay, hs: seq<Happening>)
    requires EndedWell(b) && OneHead(hs)
    ensures EndedWell(End(b, hs))
    decreases |hs|
  {
    hide Step;
    if hs != [] {
      StepEndsWell(b, hs[0]);
      RunEndsWell(Step(b, hs[0]), hs[1..]);
    }
  }

  /** Exactly these steps reset the stream. */
  lemma ResetExactly(b: Relay, h: Happening)
    requires Sound(b) && Enabled(b, h) && !b.reset
    ensures Step(b, h).reset <==>
            match h
            case Read(_) => false
            case Take(_) => false
            case ReadFails(calls, _) => !CompleteAfter(b.complete, calls)
            case BackendEof => b.complete || b.tunnel
            case BackendError => true
            case RequestReset => true
  {
    hide CalledAll;
    match h
    case Read(calls) => ReadSound(b, calls);
    case ReadFails(calls, _) => ReadSound(b, calls);
    case _ =>
  }

  /** The session asks for nothing more: the stream was reset, or the session was told the end. */
  predicate Stopped(b: Relay) { b.reset || b.eof }

  /** Then nothing more is handed out, in no run. */
  lemma {:induction false} StopsForGood(b: Relay, hs: seq<Happening>)
    requires Sound(b) && Stopped(b) && IsRun(b, hs)
    ensures End(b, hs).handed == b.handed && Stopped(End(b, hs))
    decreases |hs|
  {
    hide Sound;
    if hs != [] {
      StepSound(b, hs[0]);
      StoppedStep(b, hs[0]);
      StopsForGood(Step(b, hs[0]), hs[1..]);
    }
  }

  lemma StoppedStep(b: Relay, h: Happening)
    requires Sound(b) && Stopped(b) && Enabled(b, h)
    ensures Step(b, h).handed == b.handed && Stopped(Step(b, h))
  {
    hide CalledAll;
    match h
    case Read(calls) => ReadSound(b, calls);
    case ReadFails(calls, _) => ReadSound(b, calls);
    case _ =>
  }

  /** Some run hands out all that the parser delivered before it. */
  ghost predicate CanFinish(b: Relay) {
    exists more: seq<Happening> :: IsRun(b, more) && b.delivered <= End(b, more).handed
  }

  /** When the backend closes, the whole body can still be handed out if and only if the buffer is empty at
      that moment, or the response was not complete and is no tunnel, and the session was not told the end of one
      before it: then the close completes it.  So a response with a length or in chunks loses what the session has
      not taken when its backend closes. */
  lemma CloseKeeps(b: Relay)
    requires Sound(b) && b.bev.Some? && !b.reset
    ensures CanFinish(Step(b, BackendEof)) <==> b.buf == [] || (!b.complete && !b.tunnel && !b.eof)
  {
    hide IsRun, End, CalledAll, Taken;
    var c := Step(b, BackendEof);
    StepSound(b, BackendEof);
    assert b.delivered + b.page == b.delivered;
    if Stopped(c) {
      StoppedKeeps(c);
    } else {
      Drains(c, 1);
      var n: nat :| IsRun(c, Takes(1, n)) && End(c, Takes(1, n)).handed == c.delivered + c.page;
      assert CanFinish(c);
    }
  }

  /** At an error or a timeout, only an empty buffer keeps the body whole. */
  lemma ErrorKeeps(b: Relay)
    requires Sound(b) && b.bev.Some?
    ensures CanFinish(Step(b, BackendError)) <==> b.buf == []
  {
    hide IsRun, End, CalledAll, Taken;
    StepSound(b, BackendError);
    StoppedKeeps(Step(b, BackendError));
  }

  lemma StoppedKeeps(c: Relay)
    requires Sound(c) && Stopped(c) && c.page == []
    ensures CanFinish(c) <==> c.buf == []
  {
    hide Sound;
    SoundParts(c);
    if CanFinish(c) {
      var more: seq<Happening> :| IsRun(c, more) && c.delivered <= End(c, more).handed;
      StopsForGood(c, more);
      assert |c.delivered| == |c.handed| + |c.buf|;
    }
    if c.buf == [] {
      assert IsRun(c, []) && End(c, []).handed == c.handed;
      assert CanFinish(c);
    }
  }

  lemma SoundParts(c: Relay)
    requires Sound(c) && c.page == []
    ensures c.delivered == c.handed + c.buf
  {
    assert c.delivered + c.page == c.delivered;
  }

  lemma TwoCalls(b: Relay, w: string)
    ensures var calls := [Data(Body, w), Complete];
            BodyOf(calls) == w && CalledAll(b, calls) == Completed(Appended(b, w))
  {
    var e, f := Data(Body, w), Complete;
    assert [e, f][1..] == [f] && [f][1..] == [];
    assert BodyOf([f]) == [] && w + [] == w;
    assert CalledAll(Called(b, e), [f]) == CalledAll(Called(Called(b, e), f), []);
  }

  /** A run that loses the body: one read completes the response, and the backend closes before the session
      asks. */
  lemma LosesBody(w: string, more: seq<Happening>)
    requires 0 < |w| <= READ_WATER_MARK
    ensures var hs := [Read([Data(Body, w), Complete]), BackendEof];
            && IsRun(Start(false, 200), hs)
            && var b := End(Start(false, 200), hs);
               && b.delivered == w && b.complete && b.reset
               && (IsRun(b, more) ==> End(b, more).handed == [])
  {
    var calls := [Data(Body, w), Complete];
    var b0 := Start(false, 200);
    TwoCalls(b0, w);
    var hs := [Read(calls), BackendEof];
    assert hs[1..] == [BackendEof] && hs[1..][1..] == [];
    ReadSound(b0, calls);
    var b1 := CalledAll(b0, calls);
    var b := Lost(b1);
    assert End(b1, [BackendEof]) == End(b, []) == b && IsRun(b, []);
    StepSound(b1, BackendEof);
    if IsRun(b, more) {
      StopsForGood(b, more);
    }
  }

  /** The session is told the end exactly when the response is complete, is no tunnel, and the buffer is empty
      or the session asks for no bytes.  It has everything then, unless it asked for none with bytes in the
      buffer: the callback relies on being asked for at least one. */
  lemma EofIsEnd(b: Relay, length: nat)
    requires Sound(b) && !b.eof
    ensures Taken(b, length).eof <==> b.complete && !b.tunnel && (b.buf == [] || length == 0)
    ensures (Taken(b, length).eof ==> Taken(b, length).handed == b.delivered + b.page)
            <==> !(b.complete && !b.tunnel && b.buf != [] && length == 0)
  {
    assert b.buf == [] ==> b.handed + b.buf == b.handed;
    assert b.buf != [] ==> |b.handed + b.buf| > |b.handed|;
    assert b.handed + b.buf[..0] == b.handed;
  }

  /** No lost wake-up: while bytes or an end are due on a stream that was not reset, the session is not waiting,
      and its next request gets at least one byte or the end; the error page in a tunnel is the exception. */
  lemma NeverStuck(b: Relay, length: nat)
    requires Sound(b) && !b.eof && !b.reset && length > 0 && (b.page == [] || !b.tunnel)
    requires b.buf != [] || (b.complete && !b.tunnel)
    ensures Enabled(b, Take(length))
    ensures |Taken(b, length).handed| > |b.handed| || Taken(b, length).eof
  {
  }

  function Takes(length: nat, n: nat): seq<Happening> {
    if n == 0 then [] else [Take(length)] + Takes(length, n - 1)
  }

  /** However little the session takes at a time, it empties the buffer; then it has every byte, and the
      connection reads again if there still is one. */
  lemma {:induction false} Drains(b: Relay, length: nat)
    requires Sound(b) && !b.eof && !b.reset && length > 0 && (b.page == [] || !b.tunnel)
    ensures exists n: nat :: IsRun(b, Takes(length, n)) &&
              var e := End(b, Takes(length, n));
              e.buf == [] && e.handed == b.delivered + b.page && (e.bev.Some? ==> e.bev.value)
    decreases |b.buf|
  {
    if b.buf == [] {
      assert b.handed + b.buf == b.handed;
      assert IsRun(b, Takes(length, 0));
    } else {
      var c := Taken(b, length);
      NeverStuck(b, length);
      TakeSound(b, length);
      Drains(c, length);
      var n: nat :| IsRun(c, Takes(length, n)) &&
        var e := End(c, Takes(length, n));
        e.buf == [] && e.handed == c.delivered + c.page && (e.bev.Some? ==> e.bev.value);
      assert Takes(length, n + 1)[1..] == Takes(length, n);
      assert IsRun(b, Takes(length, n + 1));
    }
  }

  // ---------------------------------------------------------------- tunnels

  /** The status of the last response head among the calls. */
  function CallsStatus(status: nat, es: seq<Event>): nat
    decreases |es|
  {
    if es == [] then status
    else CallsStatus(if es[0].HeadersComplete? then es[0].info.statusCode else status, es[1..])
  }

  /** The status after a step. */
  function StepStatus(status: nat, h: Happening): nat {
    if h.Read? || h.ReadFails? then CallsStatus(status, h.calls) else status
  }

  /** The status of the last response head of a run. */
  function RunStatus(status: nat, hs: seq<Happening>): nat
    decreases |hs|
  {
    if hs == [] then status
    else RunStatus(StepStatus(status, hs[0]), hs[1..])
  }

  /** The stream is a tunnel by what was asked and answered. */
  predicate ByStatus(b: Relay, status: nat) {
    b.tunnel <==> b.connect && 200 <= status < 300
  }

  lemma {:induction false} CallsByStatus(b: Relay, status: nat, es: seq<Event>)
    requires ByStatus(b, status)
    ensures ByStatus(CalledAll(b, es), CallsStatus(status, es)) && CalledAll(b, es).connect == b.connect
    decreases |es|
  {
    if es != [] {
      CallsByStatus(Called(b, es[0]), if es[0].HeadersComplete? then es[0].info.statusCode else status, es[1..]);
    }
  }

  lemma StepByStatus(b: Relay, status: nat, h: Happening)
    requires ByStatus(b, status)
    ensures ByStatus(Step(b, h), StepStatus(status, h)) && Step(b, h).connect == b.connect
  {
    hide CalledAll, CallsStatus;
    if h.Read? || h.ReadFails? {
      CallsByStatus(b, status, h.calls);
    }
  }

  lemma {:induction false} RunByStatus(b: Relay, status: nat, hs: seq<Happening>)
    requires ByStatus(b, status)
    ensures ByStatus(End(b, hs), RunStatus(status, hs)) && End(b, hs).connect == b.connect
    decreases |hs|
  {
    hide Step, StepStatus, ByStatus;
    if hs != [] {
      StepByStatus(b, status, hs[0]);
      RunByStatus(Step(b, hs[0]), StepStatus(status, hs[0]), hs[1..]);
    }
  }

  /** In every run of a stream that was not reset, a complete response whose body was taken is ended by the next
      request of the session, unless it is the answer to a CONNECT with a status from 200 to 299: that one is never
      told to be at its end, and a close of the backend resets it. */
  lemma TellsEnd(connect: bool, status: nat, hs: seq<Happening>, length: nat)
    requires IsRun(Start(connect, status), hs) && length > 0
    ensures var b := End(Start(connect, status), hs);
            if connect && 200 <= RunStatus(status, hs) < 300
            then !Taken(b, length).eof || b.eof
            else !b.reset && !b.eof && b.complete && b.buf == [] ==>
                   Enabled(b, Take(length)) && Taken(b, length).eof && Taken(b, length).handed == b.delivered + b.page
    ensures var b := End(Start(connect, status), hs);
            connect && 200 <= RunStatus(status, hs) < 300 && b.bev.Some? ==> Step(b, BackendEof).reset
  {
    hide IsRun, End, Sound, RunStatus;
    RunByStatus(Start(connect, status), status, hs);
    StartSound(connect, status);
    RunSound(Start(connect, status), hs);
    var b := End(Start(connect, status), hs);
    if !b.tunnel && !b.reset && !b.eof && b.complete && b.buf == [] {
      NeverStuck(b, length);
      EofIsEnd(b, length);
    }
  }

  lemma {:induction false} OneStatus(status: nat, hs: seq<Happening>)
    requires OneHead(hs)
    ensures RunStatus(status, hs) == status
    decreases |hs|
  {
    if hs != [] {
      if hs[0].Read? || hs[0].ReadFails? {
        assert hs[0] in hs;
        NoStatus(status, hs[0].calls);
      }
      assert forall h :: h in hs[1..] ==> h in hs;
      OneStatus(status, hs[1..]);
    }
  }

  lemma {:induction false} NoStatus(status: nat, es: seq<Event>)
    requires NoHead(es)
    ensures CallsStatus(status, es) == status
    decreases |es|
  {
    if es != [] {
      assert es[0] in es && forall e :: e in es[1..] ==> e in es;
      NoStatus(status, es[1..]);
    }
  }

  /** No run with one response head ever tells the end of a tunnel. */
  lemma TunnelNeverEnds(status: nat, hs: seq<Happening>)
    requires 200 <= status < 300 && OneHead(hs) && IsRun(Start(true, status), hs)
    ensures !End(Start(true, status), hs).eof
  {
    hide IsRun, End, RunStatus, OneHead;
    OneStatus(status, hs);
    RunByStatus(Start(true, status), status, hs);
    RunEndsWell(Start(true, status), hs);
  }

  // ---------------------------------------------------------------- the objects play the run

  method Drive(connect: bool, status: nat, hs: seq<Happening>) returns (body: ResponseBody)
    requires IsRun(Start(connect, status), hs)
    ensures body.Valid() && body.State() == End(Start(connect, status), hs)
    ensures Sound(body.State())
  {
    hide IsRun, End, Sound, CalledAll, Taken, Lost, Failed, Rejected;
    var bev := new BufferEvent();
    body := new ResponseBody(bev, connect, status);
    ghost var b := Start(connect, status);
    assert hs[0..] == hs;
    var i := 0;
    while i != |hs|
      invariant i <= |hs| && IsRun(b, hs[i..]) && End(b, hs[i..]) == End(Start(connect, status), hs)
      invariant body.Valid() && body.State() == b && fresh(body) && fresh(body.ioctrl)
      invariant body.ioctrl.bev != null ==> fresh(body.ioctrl.bev)
    {
      NextHappening(b, hs, i);
      match hs[i] {
        case Read(calls) =>
          body.OnCalls(calls);
        case ReadFails(calls, page) =>
          body.OnCalls(calls);
          body.OnParseFailure(page);
        case Take(length) =>
          var r := body.DataReadCallback(length);
        case BackendEof =>
          body.OnBackendEof();
        case BackendError =>
          body.OnBackendError();
        case RequestReset =>
          body.RstStream();
      }
      b := Step(b, hs[i]);
      i := i + 1;
    }
    NoHappening(b);
    assert hs[|hs|..] == [];
    StartSound(connect, status);
    RunSound(Start(connect, status), hs);
  }

  lemma NextHappening(b: Relay, hs: seq<Happening>, i: nat)
    requires i < |hs| && IsRun(b, hs[i..])
    ensures Enabled(b, hs[i]) && IsRun(Step(b, hs[i]), hs[i + 1..])
    ensures End(b, hs[i..]) == End(Step(b, hs[i]), hs[i + 1..])
  {
    hide Step, Enabled;
    assert hs[i..][1..] == hs[i + 1..];
  }

  lemma NoHappening(b: Relay)
    ensures End(b, []) == b
  {
  }
}
