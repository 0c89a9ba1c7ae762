/**
 Streams, backend connections and the pool of a client handler: who points to whom, and who deletes what.
 */
module ConnectionPool {

  /** What the backend's response to a stream says: whether it is complete, made the connection a tunnel, and closes
      it. */
  datatype Served = Served(complete: bool, isTunnel: bool, close: bool)

  class DownstreamConnection {
    var downstream: Downstream?
    var connected: bool         // bev_ is not null
    ghost var last: Served      // the response to the stream it was detached from
    ghost var deletions: nat

    constructor ()
      ensures downstream == null && !connected && deletions == 0
    {
      downstream := null;
      connected := false;
      deletions := 0;
    }

    /** `connects` says whether bufferevent_socket_connect succeeds, when it is called. */
    method AttachDownstream(d: Downstream, connects: bool) returns (ok: bool)
      requires deletions == 0 && d.deletions == 0
      modifies this`downstream, this`connected, d`dconn
      ensures ok <==> old(connected) || connects
      ensures ok ==> connected && downstream == d && d.dconn == this
      ensures !ok ==> !connected && downstream == old(downstream) && d.dconn == old(d.dconn)
    {
      if !connected {
        if !connects {
          return false;
        }
        connected := true;
      }
      d.dconn := this;
      downstream := d;
      return true;
    }

    /** The destructor: the stream it serves forgets it. */
    method Delete()
      requires deletions == 0 && (downstream != null ==> downstream.deletions == 0)
      modifies this`deletions, (if downstream == null then {} else {downstream})`dconn
      ensures deletions == 1 && (downstream != null ==> downstream.dconn == null)
    {
      if downstream != null {
        downstream.dconn := null;
      }
      deletions := 1;
    }
  }

  class Downstream {
    const streamId: int
    var dconn: DownstreamConnection?
    var connectFail: bool        // the request state
    var responseComplete: bool   // the response state
    var tunnel: bool
    var responseClose: bool
    ghost var deletions: nat

    constructor (id: int)
      ensures streamId == id && dconn == null && !connectFail && !responseComplete && deletions == 0
    {
      streamId := id;
      dconn := null;
      connectFail, responseComplete, tunnel, responseClose := false, false, false, false;
      deletions := 0;
    }

    /** The response was read, and another request may follow on its connection. */
    predicate Reusable()
      reads this
    {
      !connectFail && responseComplete && !tunnel && !responseClose
    }

    /** The destructor: the connection goes with the stream. */
    method Delete()
      requires deletions == 0
      requires dconn != null ==> dconn.deletions == 0 && dconn.downstream == this
      modifies this, (if dconn == null then {} else {dconn})`deletions
      ensures deletions == 1 && dconn == null
      ensures old(dconn) != null ==> old(dconn).deletions == 1
    {
      if dconn != null {
        dconn.Delete();
      }
      deletions := 1;
    }
  }

  class ClientHandler {
    var pool: set<DownstreamConnection>
    var queue: map<int, Downstream>
    ghost var conns: set<DownstreamConnection>    // every connection that was ever made
    ghost var downs: set<Downstream>              // every stream that was ever made
    ghost var leaked: set<DownstreamConnection>   // made for a stream, not connected, and forgotten
    ghost var reuses: seq<Served>                 // of each connection taken from the pool: its last response
    ghost var tunnels: bool                       // the HTTPS upstream gave a tunnel back

    ghost predicate Streams()
      reads this`queue, this`downs, downs
    {
      && (forall id :: id in queue ==> queue[id] in downs && queue[id].streamId == id)
      && (forall d :: d in downs ==> d.deletions == if d.streamId in queue && queue[d.streamId] == d then 0 else 1)
    }

    ghost predicate Mutual()
      reads this`downs, this`conns, downs, conns
    {
      && (forall d :: d in downs && d.deletions == 0 && d.dconn != null ==>
            d.dconn in conns && d.dconn.deletions == 0 && d.dconn.downstream == d)
      && (forall c :: c in conns && c.deletions == 0 && c.downstream != null ==>
            c.downstream in downs && c.downstream.deletions == 0 && c.downstream.dconn == c)
    }

    /** A connection that is not deleted serves a stream, or is in the pool, in hand or leaked: one of them. */
    ghost predicate Placed(hand: set<DownstreamConnection>)
      reads this`pool, this`leaked, this`conns, conns
    {
      && pool + leaked + hand <= conns && pool !! leaked && pool !! hand && leaked !! hand
      && (forall c :: c in pool + leaked + hand ==> c.deletions == 0 && c.downstream == null)
      && (forall c :: c in conns ==> c.deletions <= 1)
      && (forall c :: c in conns && c.deletions == 0 && c.downstream == null ==> c in pool + leaked + hand)
      && (forall c :: c in conns && c.deletions == 0 && (c in pool || c.downstream != null) ==> c.connected)
      && (forall c :: c in leaked ==> !c.connected)
    }

    /** The response lets another request follow on its connection. */
    ghost predicate Rests(s: Served)
      reads this`tunnels
    {
      s.complete && !s.close && (s.isTunnel ==> tunnels)
    }

    /** A connection comes into the pool, and out of it, after a response that lets it. */
    ghost predicate Rested()
      reads this`pool, this`reuses, this`tunnels, pool`last
    {
      && (forall c :: c in pool ==> Rests(c.last))
      && (forall s :: s in reuses ==> Rests(s))
    }

    ghost predicate Valid()
      reads this, downs, conns, pool
    {
      Streams() && Mutual() && Placed({}) && Rested()
    }

    constructor ()
      ensures Valid() && pool == {} && queue == map[] && conns == {} && downs == {} && leaked == {}
      ensures reuses == [] && !tunnels
    {
      reuses, tunnels := [], false;
      pool, queue := {}, map[];
      conns, downs, leaked := {}, {}, {};
    }

    method GetDownstreamConnection() returns (c: DownstreamConnection)
      requires Valid()
      modifies this`pool, this`conns, this`reuses
      ensures Streams() && Mutual() && Placed({c}) && Rested()
      ensures reuses == if old(pool) == {} then old(reuses) else old(reuses) + [c.last]
      ensures c.downstream == null && c.deletions == 0
      ensures if old(pool) == {} then fresh(c) && conns == old(conns) + {c} && pool == {} && !c.connected
              else c in old(pool) && conns == old(conns) && pool == old(pool) - {c} && c.connected
    {
      if pool == {} {
        c := new DownstreamConnection();
        conns := conns + {c};
      } else {
        c :| c in pool;
        pool := pool - {c};
        reuses := reuses + [c.last];
      }
    }

    /** detach_downstream and pool_downstream_connection */
    method DetachDownstream(c: DownstreamConnection, d: Downstream)
      requires Valid() && d in downs && d.deletions == 0 && d.dconn == c
      requires Rests(Served(d.responseComplete, d.tunnel, d.responseClose))
      modifies this`pool, d`dconn, c`downstream, c`last
      ensures Valid() && pool == old(pool) + {c} && d.dconn == null && c.downstream == null
      ensures c.last == Served(d.responseComplete, d.tunnel, d.responseClose)
    {
      c.last := Served(d.responseComplete, d.tunnel, d.responseClose);
      d.dconn := null;
      c.downstream := null;
      pool := pool + {c};
    }

    /** The connection of a stream is deleted, and the stream stays. */
    method CloseConnection(d: Downstream)
      requires Valid() && d in downs && d.deletions == 0 && d.dconn != null
      modifies downs`dconn, conns`deletions
      ensures Valid() && d.dconn == null && old(d.dconn).deletions == 1 && d.deletions == 0
    {
      var c := d.dconn;
      d.dconn := null;
      c.Delete();
    }

    /** The stream leaves the queue and is deleted. */
    method RemoveAndDelete(d: Downstream)
      requires Valid() && d in downs && d.deletions == 0
      modifies this`queue, downs, conns
      ensures Valid() && queue == old(queue) - {d.streamId} && d.deletions == 1
      ensures old(d.dconn) != null ==> old(d.dconn).deletions == 1
      ensures forall c :: c in conns && c != old(d.dconn) ==> c.deletions == old(c.deletions)
      ensures forall e :: e in downs && e != d ==> e.deletions == old(e.deletions) && e.dconn == old(e.dconn)
    {
      queue := queue - {d.streamId};
      d.Delete();
    }

    method AddDownstream(id: int) returns (d: Downstream)
      requires Valid() && id !in queue
      modifies this`queue, this`downs
      ensures Valid() && fresh(d) && d.deletions == 0 && d.dconn == null
      ensures queue == old(queue)[id := d] && downs == old(downs) + {d}
    {
      d := new Downstream(id);
      queue := queue[id := d];
      downs := downs + {d};
    }

    /** Attaching the connection in hand; one that does not connect is forgotten. */
    method AttachInHand(c: DownstreamConnection, d: Downstream, connects: bool)
      requires Streams() && Mutual() && Placed({c}) && Rested()
      requires d in downs && d.deletions == 0 && d.dconn == null
      modifies this`leaked, c`downstream, c`connected, d`dconn, d`connectFail
      ensures Valid()
      ensures if old(c.connected) || connects then d.dconn == c && leaked == old(leaked)
              else d.dconn == null && d.connectFail && leaked == old(leaked) + {c}
    {
      var ok := c.AttachDownstream(d, connects);
      if !ok {
        leaked := leaked + {c};
        d.connectFail := true;
      }
    }

    /** A connection for a new stream, from the pool or made for it. */
    method Serve(d: Downstream, connects: bool)
      requires Valid() && d in downs && d.deletions == 0 && d.dconn == null
      modifies this`pool, this`conns, this`reuses, this`leaked, pool, d`dconn, d`connectFail
      ensures Valid()
      ensures d.dconn != null <==> old(pool) != {} || connects
      ensures d.dconn != null ==> if old(pool) == {} then fresh(d.dconn) else d.dconn in old(pool)
      ensures if old(pool) == {} && !connects then |leaked - old(leaked)| == 1 && old(leaked) <= leaked
              else leaked == old(leaked)
      ensures old(conns) <= conns && fresh(conns - old(conns))
    {
      hide Streams, Mutual, Placed, Rested;
      var c := GetDownstreamConnection();
      AttachInHand(c, d, connects);
      assert leaked != old(leaked) ==> leaked - old(leaked) == {c};
    }

    /** The same in the HTTPS upstream, which deletes a connection that does not connect. */
    method AttachOrDelete(c: DownstreamConnection, d: Downstream, connects: bool)
      requires Streams() && Mutual() && Placed({c}) && Rested()
      requires d in downs && d.deletions == 0 && d.dconn == null
      modifies c, d`dconn, d`connectFail
      ensures Valid()
      ensures if old(c.connected) || connects then d.dconn == c && c.deletions == 0
              else d.dconn == null && d.connectFail && c.deletions == 1
    {
      var ok := c.AttachDownstream(d, connects);
      if !ok {
        d.connectFail := true;
        d.dconn := null;
        c.Delete();
      }
    }

    /** on_ctrl_recv_callback for SYN_STREAM.  The session gives every stream a new identifier. */
    method OnSynStream(id: int, wellFormed: bool, connects: bool)
      requires Valid() && id !in queue
      modifies this, pool
      ensures Valid()
      ensures id in queue && fresh(queue[id]) && queue == old(queue)[id := queue[id]]
              && downs == old(downs) + {queue[id]}
      ensures queue[id].dconn != null <==> wellFormed && (old(pool) != {} || connects)
      ensures queue[id].dconn != null ==>
                if old(pool) == {} then fresh(queue[id].dconn) else queue[id].dconn in old(pool)
      ensures if wellFormed && old(pool) == {} && !connects then |leaked - old(leaked)| == 1 && old(leaked) <= leaked
              else leaked == old(leaked)
      ensures old(conns) <= conns && fresh(conns - old(conns)) && tunnels == old(tunnels)
    {
      var d := AddDownstream(id);
      if wellFormed {
        Serve(d, connects);
      }
    }

    /** What the backend's response says about a stream. */
    method OnResponse(id: int, complete: bool, isTunnel: bool, close: bool)
      requires Valid()
      modifies downs`responseComplete, downs`tunnel, downs`responseClose
      ensures Valid()
      ensures id in queue ==>
                && queue[id].responseComplete == complete && queue[id].tunnel == isTunnel
                && queue[id].responseClose == close
    {
      if id in queue {
        var d := queue[id];
        d.responseComplete, d.tunnel, d.responseClose := complete, isTunnel, close;
      }
    }

    /** on_stream_close_callback */
    method OnStreamClose(id: int)
      requires Valid()
      modifies this, downs, conns
      ensures Valid() && queue == old(queue) - {id} && conns == old(conns) && downs == old(downs)
              && leaked == old(leaked) && tunnels == old(tunnels)
      ensures id in old(queue) ==> old(queue[id]).deletions == 1
      ensures id in old(queue) && old(queue[id].dconn) != null ==>
                if old(queue[id].Reusable()) then old(queue[id].dconn) in pool else old(queue[id].dconn).deletions == 1
    {
      if id in queue {
        var d := queue[id];
        if !d.connectFail && d.responseComplete {
          if !d.tunnel && !d.responseClose {
            if d.dconn != null {
              DetachDownstream(d.dconn, d);
            }
          }
        }
        RemoveAndDelete(d);
      }
    }

    /** The HTTPS upstream at the start of a request, and at the end of its headers. */
    method OnHttpsRequest(id: int, connects: bool)
      requires Valid() && id !in queue
      modifies this, pool
      ensures Valid() && leaked == old(leaked)
      ensures id in queue && fresh(queue[id]) && queue == old(queue)[id := queue[id]]
              && downs == old(downs) + {queue[id]}
      ensures queue[id].dconn != null <==> old(pool) != {} || connects
      ensures old(conns) <= conns && fresh(conns - old(conns)) && tunnels == old(tunnels)
    {
      var d := AddDownstream(id);
      var c := GetDownstreamConnection();
      AttachOrDelete(c, d, connects);
    }

    /** The HTTPS upstream when the response is complete: the connection is deleted or pooled, and the request's
        object is deleted once the request is complete too. */
    method OnHttpsResponse(id: int, isTunnel: bool, close: bool, requestComplete: bool)
      requires Valid() && id in queue && queue[id].dconn != null
      modifies this`queue, this`pool, this`tunnels, downs, conns
      ensures Valid() && queue == if requestComplete then old(queue) - {id} else old(queue)
      ensures if close then old(queue[id].dconn).deletions == 1 else old(queue[id].dconn) in pool
      ensures requestComplete ==> old(queue[id]).deletions == 1
      ensures tunnels <==> old(tunnels) || (isTunnel && !close)
    {
      hide Streams, Mutual, Placed;
      OnResponse(id, true, isTunnel, close);
      var d := queue[id];
      tunnels := tunnels || (isTunnel && !close);
      QueuedIsLive(id);
      ServesIt(id);
      if close {
        CloseConnection(d);
      } else {
        DetachDownstream(d.dconn, d);
      }
      if requestComplete {
        RemoveAndDelete(d);
      }
    }

    /** idle_eventcb, which is called for a connection in the pool.  A connection that only reports that it
        is connected stays. */
    method OnIdleEvent(c: DownstreamConnection, connectedEvent: bool)
      requires Valid() && c in pool
      modifies this`pool, c`deletions
      ensures Valid()
      ensures if connectedEvent then pool == old(pool) && c.deletions == 0
              else pool == old(pool) - {c} && c.deletions == 1
    {
      if connectedEvent {
        return;
      }
      pool := pool - {c};
      c.Delete();
    }

    /** spdy_downstream_eventcb for the end, an error or a timeout of a connection, and
        spdy_downstream_readcb for a response that does not parse.  `closed` says that the stream is. */
    method OnBackendLost(c: DownstreamConnection, closed: bool)
      requires Valid() && c in conns && c.deletions == 0 && c.downstream != null
      modifies this`queue, downs, conns
      ensures Valid() && c.deletions == 1
      ensures queue == if closed then old(queue) - {old(c.downstream).streamId} else old(queue)
      ensures !closed ==> old(c.downstream).dconn == null
    {
      var d := c.downstream;
      if closed {
        RemoveAndDelete(d);
      } else {
        CloseConnection(d);
      }
    }

    method DeleteStreams()
      requires Valid()
      modifies this`queue, downs, conns
      ensures Valid() && queue == map[]
    {
      hide Streams, Mutual, Placed, Rested;
      var ids := queue.Keys;
      while ids != {}
        invariant Valid() && ids == queue.Keys
        decreases ids
      {
        HasMember(ids);
        var id :| id in ids;
        QueuedIsLive(id);
        RemoveAndDelete(queue[id]);
        ids := ids - {id};
      }
    }

    static lemma HasMember(s: set<int>)
      requires s != {}
      ensures exists i :: i in s
    {
      assert (forall i :: i !in s) ==> s == {};
    }

    lemma QueuedIsLive(id: int)
      requires Valid() && id in queue
      ensures queue[id] in downs && queue[id].deletions == 0 && queue[id].streamId == id
    {
    }

    method DeletePool()
      requires Valid()
      modifies this`pool, conns`deletions
      ensures Valid() && pool == {}
    {
      hide Streams, Mutual, Placed, Rested;
      while pool != {}
        invariant Valid()
        decreases |pool|
      {
        var c :| c in pool;
        PooledIsLive(c);
        OnIdleEvent(c, false);
      }
    }

    lemma ServesIt(id: int)
      requires Valid() && id in queue && queue[id].dconn != null
      ensures var c := queue[id].dconn; c in conns && c.deletions == 0 && c.downstream == queue[id]
    {
    }

    lemma PoolIsKnown()
      requires Valid()
      ensures pool <= conns
    {
    }

    lemma ReusesRested()
      requires Valid()
      ensures forall s :: s in reuses ==> s.complete && !s.close && (s.isTunnel ==> tunnels)
    {
    }

    lemma PooledIsLive(c: DownstreamConnection)
      requires Valid() && c in pool
      ensures c in conns && c.deletions == 0 && c.downstream == null
    {
    }

    /** The destructor: first the streams, then the pool. */
    method Destroy()
      requires Valid()
      modifies this`queue, this`pool, downs, conns
      ensures Valid()
      ensures forall d :: d in downs ==> d.deletions == 1
      ensures forall c :: c in conns ==> c.deletions == if c in leaked then 0 else 1
    {
      DeleteStreams();
      DeletePool();
    }
  }

  /** In every reachable state no connection serves two streams, and one in the pool serves none. */
  lemma NoSharing(h: ClientHandler, d: Downstream, e: Downstream)
    requires h.Valid() && d in h.downs && e in h.downs && d.deletions == 0 && e.deletions == 0
    requires d.dconn != null && d.dconn == e.dconn
    ensures d == e && d.dconn !in h.pool
  {
  }

  // ---------------------------------------------------------------- every run

  datatype Event =
    | SynStream(id: int, wellFormed: bool, connects: bool)
    | Response(id: int, complete: bool, isTunnel: bool, close: bool)
    | StreamClose(id: int)
    | HttpsRequest(id: int, connects: bool)
    | HttpsResponse(id: int, isTunnel: bool, close: bool, requestComplete: bool)
    | Idle(connectedEvent: bool)
    | BackendLost(id: int, closed: bool)

  /** One event, if it can happen. */
  method Happen(h: ClientHandler, e: Event)
    requires h.Valid()
    modifies h, h.downs, h.conns
    ensures h.Valid() && fresh(h.downs - old(h.downs)) && fresh(h.conns - old(h.conns))
    ensures h.leaked != old(h.leaked) ==> e.SynStream? && !e.connects
    ensures h.tunnels ==> old(h.tunnels) || (e.HttpsResponse? && e.isTunnel && !e.close)
  {
    hide ClientHandler.Streams, ClientHandler.Mutual, ClientHandler.Placed, ClientHandler.Rested;
    match e {
      case SynStream(id, wellFormed, connects) =>
        if id !in h.queue {
          h.PoolIsKnown();
          h.OnSynStream(id, wellFormed, connects);
        }
      case Response(id, complete, isTunnel, close) =>
        h.OnResponse(id, complete, isTunnel, close);
      case StreamClose(id) =>
        h.OnStreamClose(id);
      case HttpsRequest(id, connects) =>
        if id !in h.queue {
          h.PoolIsKnown();
          h.OnHttpsRequest(id, connects);
        }
      case HttpsResponse(id, isTunnel, close, requestComplete) =>
        if id in h.queue && h.queue[id].dconn != null {
          h.OnHttpsResponse(id, isTunnel, close, requestComplete);
        }
      case Idle(connectedEvent) =>
        if h.pool != {} {
          var c :| c in h.pool;
          h.PooledIsLive(c);
          h.OnIdleEvent(c, connectedEvent);
        }
      case BackendLost(id, closed) =>
        if id in h.queue && h.queue[id].dconn != null {
          h.ServesIt(id);
          h.OnBackendLost(h.queue[id].dconn, closed);
        }
    }
  }

  /** A handler lives through any events and is destroyed: every stream was deleted exactly once, and every
      connection exactly once except those that were made for a stream and did not connect. */
  method Live(es: seq<Event>) returns (h: ClientHandler)
    ensures fresh(h) && forall d :: d in h.downs ==> d.deletions == 1
    ensures forall c :: c in h.conns ==> c.deletions == if c in h.leaked then 0 else 1
    ensures (forall e :: e in es && e.SynStream? ==> e.connects) ==> h.leaked == {}
    ensures forall s: Served :: s in h.reuses ==>
              && s.complete && !s.close
              && ((forall e :: e in es && e.HttpsResponse? ==> !e.isTunnel) ==> !s.isTunnel)
  {
    hide ClientHandler.Valid;
    h := new ClientHandler();
    for i := 0 to |es|
      invariant h.Valid() && fresh(h) && fresh(h.downs) && fresh(h.conns)
      invariant (forall e :: e in es[..i] && e.SynStream? ==> e.connects) ==> h.leaked == {}
      invariant (forall e :: e in es[..i] && e.HttpsResponse? ==> !e.isTunnel) ==> !h.tunnels
    {
      assert es[..i + 1] == es[..i] + [es[i]];
      Happen(h, es[i]);
    }
    assert es[..|es|] == es;
    h.ReusesRested();
    h.Destroy();
  }
}
