/**
 Receive-window credit of one SPDY stream: the proxy's counter together with a peer, and with the frames
 that are on the way between the two.
 */
module FlowControl {
  import Upload

  /** 1 << bits */
  function Pow2(bits: nat): (n: nat)
    ensures n >= 1 && (bits >= 1 ==> n >= 2 && n % 2 == 0)
  {
    if bits == 0 then 1 else 2 * Pow2(bits - 1)
  }

  /** Some windows in numbers. */
  lemma Windows()
    ensures Pow2(0) == 1 && Pow2(10) == 1024 && Pow2(16) == 65536 && Pow2(20) == 1048576 && Pow2(30) == 1073741824
  {
    assert Pow2(10) == 1024;
    assert Pow2(16) == 65536;
    assert Pow2(20) == 1048576;
  }

  lemma {:induction false} Pow2Max(bits: nat)
    requires bits <= 30
    ensures Pow2(bits) <= 0x4000_0000
    decreases 30 - bits
  {
    if bits == 30 {
      Windows();
    } else {
      Pow2Max(bits + 1);
    }
  }

  /** Conversion to int32_t. */
  function Int32(x: int): (r: int)
    ensures -0x8000_0000 <= r < 0x8000_0000
    ensures -0x8000_0000 <= x < 0x8000_0000 ==> r == x
  {
    (x + 0x8000_0000) % 0x1_0000_0000 - 0x8000_0000
  }

  // ---------------------------------------------------------------- the proxy's side

  datatype Status = InternalError | FlowControlError

  /** What the proxy keeps for a stream: its counter, and the RST_STREAM frames it submitted. */
  datatype Counter = Counter(initial: int, recv: int, resets: seq<Status>)

  /** on_data_chunk_recv_callback: `uploaded` says whether push_upload_data_chunk returned 0. */
  function ChunkIn(c: Counter, len: nat, uploaded: bool): Counter {
    if !uploaded then c.(resets := c.resets + [InternalError])
    else
      var recv := Int32(c.recv + Int32(len));
      if recv > c.initial then c.(recv := recv, resets := c.resets + [FlowControlError])
      else c.(recv := recv)
  }

  /** The guard of spdy_downstream_writecb. */
  predicate UpdateDue(c: Counter) { c.recv >= c.initial / 2 }

  class Stream {
    const initialWindowSize: int
    var recvWindowSize: int
    var resets: seq<Status>
    var updates: seq<int>    // the WINDOW_UPDATE frames submitted

    ghost function State(): Counter
      reads this
    {
      Counter(initialWindowSize, recvWindowSize, resets)
    }

    constructor (windowBits: nat)
      ensures State() == Counter(Pow2(windowBits), 0, []) && updates == []
      ensures windowBits == 16 ==> initialWindowSize == 65536
    {
      Windows();
      initialWindowSize := Pow2(windowBits);
      recvWindowSize := 0;
      resets := [];
      updates := [];
    }

    method IncRecvWindowSize(amount: int)
      modifies this`recvWindowSize
      ensures recvWindowSize == Int32(old(recvWindowSize) + amount)
    {
      recvWindowSize := Int32(recvWindowSize + amount);
    }

    method RstStream(status: Status)
      modifies this`resets
      ensures resets == old(resets) + [status]
    {
      resets := resets + [status];
    }

    method OnDataChunkRecv(len: nat, uploaded: bool)
      modifies this
      ensures State() == ChunkIn(old(State()), len, uploaded)
      ensures updates == old(updates)
    {
      if !uploaded {
        RstStream(InternalError);
        return;
      }
      IncRecvWindowSize(Int32(len));
      if recvWindowSize > initialWindowSize {
        RstStream(FlowControlError);
      }
    }

    method WindowUpdate()
      modifies this`recvWindowSize, this`updates
      ensures recvWindowSize == 0 && updates == old(updates) + [old(recvWindowSize)]
    {
      updates := updates + [recvWindowSize];
      recvWindowSize := 0;
    }

    method DownstreamWritecb()
      modifies this
      ensures var c := old(State());
              if UpdateDue(c) then State() == c.(recv := 0) && updates == old(updates) + [c.recv]
              else State() == c && updates == old(updates)
    {
      if recvWindowSize >= initialWindowSize / 2 {
        WindowUpdate();
      }
    }
  }

  /** Whether a chunk counts as uploaded: without a backend connection it always does. */
  predicate Uploaded(attached: bool, added: bool) { !attached || added }

  /** `Uploaded` is the result 0 of push_upload_data_chunk for the chunk of a SPDY stream. */
  lemma UploadedIsPush(attached: bool, data: string, adds: Upload.Adds)
    ensures Uploaded(attached, adds.data) <==> Upload.Push(attached, false, data, adds).result == 0
  {
    hide Upload.Push;
    Upload.SpdyFailure(attached, data, adds);
  }

  // ---------------------------------------------------------------- both sides and what is on the way

  function Sum(ns: seq<int>): int {
    if ns == [] then 0 else ns[0] + Sum(ns[1..])
  }

  /** `credit` is what the peer may still send; `lost` counts the bytes that an attached backend did not
      take. `attached` says whether the stream has its backend connection. */
  datatype World =
    World(credit: int, data: seq<int>, counter: Counter, updates: seq<int>, lost: int, attached: bool)

  datatype Event =
    | PeerSends(len: nat)
    | DataArrives(added: bool)
    | Writable
    | UpdateArrives
    | BackendLost

  function Start(bits: nat): World {
    World(Pow2(bits), [], Counter(Pow2(bits), 0, []), [], 0, true)
  }

  /** The length field of a DATA frame has 24 bits (section 2.2.2 of SPDY Protocol Draft 3). */
  predicate IsFrame(len: int) { 0 <= len < 0x100_0000 }

  predicate Frames(ns: seq<int>) {
    forall i :: 0 <= i < |ns| ==> IsFrame(ns[i])
  }

  /** An event can happen: a frame fits its length field, something to deliver is on the way, and only a
      backend connection that is attached becomes writable or is lost. */
  predicate Enabled(w: World, e: Event) {
    match e
    case PeerSends(len) => IsFrame(len)
    case DataArrives(_) => w.data != [] && w.data[0] >= 0
    case Writable => w.attached
    case UpdateArrives => w.updates != []
    case BackendLost => w.attached
  }

  function Step(w: World, e: Event): World
    requires Enabled(w, e)
  {
    match e
    case PeerSends(len) => w.(credit := w.credit - len, data := w.data + [len])
    case DataArrives(added) =>
      var uploaded := Uploaded(w.attached, added);
      w.(data := w.data[1..], counter := ChunkIn(w.counter, w.data[0], uploaded),
         lost := if uploaded then w.lost else w.lost + w.data[0])
    case Writable =>
      if UpdateDue(w.counter) then w.(counter := w.counter.(recv := 0), updates := w.updates + [w.counter.recv]) else w
    case UpdateArrives => w.(credit := w.credit + w.updates[0], updates := w.updates[1..])
    case BackendLost => w.(attached := false)
  }

  /** The events happen one after the other. */
  predicate IsRun(w: World, es: seq<Event>)
    decreases |es|
  {
    es == [] || (Enabled(w, es[0]) && IsRun(Step(w, es[0]), es[1..]))
  }

  function End(w: World, es: seq<Event>): World
    requires IsRun(w, es)
    decreases |es|
  {
    if es == [] then w else End(Step(w, es[0]), es[1..])
  }

  /** The peer never sends more than its credit. */
  predicate Respects(w: World, es: seq<Event>)
    requires IsRun(w, es)
    decreases |es|
  {
    es == [] || ((es[0].PeerSends? ==> es[0].len <= w.credit) && Respects(Step(w, es[0]), es[1..]))
  }

  // ---------------------------------------------------------------- conservation

  lemma {:induction false} SumSnoc(ns: seq<int>, n: int)
    ensures Sum(ns + [n]) == Sum(ns) + n
  {
    if ns == [] {
      assert (ns + [n])[1..] == [];
    } else {
      assert (ns + [n])[1..] == ns[1..] + [n];
      SumSnoc(ns[1..], n);
    }
  }

  function Total(w: World): int {
    w.credit + Sum(w.data) + w.counter.recv + Sum(w.updates) + w.lost
  }

  predicate Flooded(w: World) { FlowControlError in w.counter.resets }

  /** Until the stream is reset for flow control, every byte of the window is in exactly one place. */
  predicate Accounted(w: World) {
    && Frames(w.data)
    && 1 <= w.counter.initial <= 0x4000_0000
    && (!Flooded(w) ==>
          && Total(w) == w.counter.initial
          && 0 <= w.counter.recv <= w.counter.initial && w.lost >= 0
          && forall i :: 0 <= i < |w.updates| ==> w.counter.initial / 2 <= w.updates[i] <= w.counter.initial)
  }

  lemma StepAccounted(w: World, e: Event)
    requires Accounted(w) && Enabled(w, e)
    ensures Accounted(Step(w, e)) && Step(w, e).counter.initial == w.counter.initial
    ensures Flooded(w) ==> Flooded(Step(w, e))
  {
    match e
    case PeerSends(len) => SumSnoc(w.data, len);
    case DataArrives(_) => assert IsFrame(w.data[0]);
    case Writable => SumSnoc(w.updates, w.counter.recv);
    case UpdateArrives =>
    case BackendLost =>
  }

  /** In every run: credit, data in flight, received bytes, updates in flight and lost bytes add up to the
      initial window for as long as the stream is not reset for flow control. */
  lemma {:induction false} Conservation(w: World, es: seq<Event>)
    requires Accounted(w) && IsRun(w, es)
    ensures Accounted(End(w, es)) && End(w, es).counter.initial == w.counter.initial
    decreases |es|
  {
    if es != [] {
      StepAccounted(w, es[0]);
      Conservation(Step(w, es[0]), es[1..]);
    }
  }

  lemma StartAccounted(bits: nat)
    requires bits <= 30
    ensures Accounted(Start(bits))
  {
    Pow2Max(bits);
  }

  // ---------------------------------------------------------------- who is reset

  lemma {:induction false} SumNonNegative(ns: seq<int>)
    requires forall i :: 0 <= i < |ns| ==> ns[i] >= 0
    ensures Sum(ns) >= 0
  {
    if ns != [] {
      SumNonNegative(ns[1..]);
    }
  }

  /** A chunk that the backend takes is answered with FLOW_CONTROL_ERROR exactly when the peer, with all
      the credit that is on its way, would still be behind the data it has in flight. */
  lemma ResetAtExcess(w: World)
    requires Accounted(w) && !Flooded(w) && w.data != []
    ensures Flooded(Step(w, DataArrives(true))) <==>
            w.credit + Sum(w.updates) + Sum(w.data[1..]) + w.lost < 0
  {
    assert IsFrame(w.data[0]);
  }

  /** A peer whose debt nothing on its way can settle has been reset once its data has arrived. */
  lemma DebtorIsReset(bits: nat, es: seq<Event>)
    requires bits <= 30 && IsRun(Start(bits), es)
    ensures var w := End(Start(bits), es);
            w.data == [] && w.credit + Sum(w.updates) + w.lost < 0 ==> Flooded(w)
  {
    StartAccounted(bits);
    Conservation(Start(bits), es);
  }

  lemma RespectfulStep(w: World, e: Event)
    requires Accounted(w) && !Flooded(w) && w.credit >= 0 && Enabled(w, e)
    requires e.PeerSends? ==> e.len <= w.credit
    ensures !Flooded(Step(w, e)) && Step(w, e).credit >= 0
  {
    if e.DataArrives? {
      SumNonNegative(w.updates);
      assert Frames(w.data[1..]);
      SumNonNegative(w.data[1..]);
      assert IsFrame(w.data[0]);
      ResetAtExcess(w);
    }
  }

  lemma {:induction false} RespectfulRun(w: World, es: seq<Event>)
    requires Accounted(w) && !Flooded(w) && w.credit >= 0 && IsRun(w, es) && Respects(w, es)
    ensures !Flooded(End(w, es)) && End(w, es).credit >= 0
    decreases |es|
  {
    if es != [] {
      RespectfulStep(w, es[0]);
      StepAccounted(w, es[0]);
      RespectfulRun(Step(w, es[0]), es[1..]);
    }
  }

  /** A peer that respects its credit is never reset with FLOW_CONTROL_ERROR. */
  lemma NeverFlooded(bits: nat, es: seq<Event>)
    requires bits <= 30 && IsRun(Start(bits), es) && Respects(Start(bits), es)
    ensures var w := End(Start(bits), es); !Flooded(w) && w.credit >= 0 && Total(w) == Pow2(bits)
  {
    StartAccounted(bits);
    Conservation(Start(bits), es);
    RespectfulRun(Start(bits), es);
  }

  // ---------------------------------------------------------------- no stall

  /** With nothing on the way, the guard of the update is open exactly when the peer has no more than half
      of the window left, the odd byte counted as its own; so it is open when the credit is exhausted. */
  lemma GuardOpens(bits: nat, es: seq<Event>)
    requires bits <= 30 && IsRun(Start(bits), es)
    ensures var w := End(Start(bits), es);
            !Flooded(w) && w.data == [] && w.updates == [] ==>
              && (UpdateDue(w.counter) <==> w.credit + w.lost <= Pow2(bits) - Pow2(bits) / 2)
              && (w.credit == 0 && w.lost == 0 && w.attached ==>
                    && UpdateDue(w.counter)
                    && Step(Step(w, Writable), UpdateArrives).credit == Pow2(bits))
  {
    StartAccounted(bits);
    Conservation(Start(bits), es);
    var w := End(Start(bits), es);
    if !Flooded(w) && w.data == [] && w.updates == [] && w.credit == 0 && w.lost == 0 && w.attached {
      assert Step(w, Writable).updates == [Pow2(bits)];
    }
  }

  function Repeat(e: Event, n: nat): seq<Event> {
    if n == 0 then [] else [e] + Repeat(e, n - 1)
  }

  lemma {:induction false} RunConcat(w: World, a: seq<Event>, b: seq<Event>)
    requires IsRun(w, a) && IsRun(End(w, a), b)
    ensures IsRun(w, a + b) && End(w, a + b) == End(End(w, a), b)
    decreases |a|
  {
    if a == [] {
      assert a + b == b;
    } else {
      assert (a + b)[1..] == a[1..] + b;
      RunConcat(Step(w, a[0]), a[1..], b);
    }
  }

  lemma {:induction false} DataDrains(w: World)
    requires Accounted(w)
    ensures var es := Repeat(DataArrives(true), |w.data|);
            IsRun(w, es) && Respects(w, es) && End(w, es).data == [] && End(w, es).lost == w.lost
            && End(w, es).credit == w.credit && End(w, es).updates == w.updates
            && End(w, es).attached == w.attached
    decreases |w.data|
  {
    if w.data != [] {
      assert IsFrame(w.data[0]);
      var e := DataArrives(true);
      var v := Step(w, e);
      StepAccounted(w, e);
      DataDrains(v);
      var es := Repeat(e, |w.data|);
      assert es[1..] == Repeat(e, |v.data|);
    }
  }

  lemma {:induction false} UpdatesDrain(w: World)
    ensures var es := Repeat(UpdateArrives, |w.updates|);
            IsRun(w, es) && End(w, es) == w.(credit := w.credit + Sum(w.updates), updates := [])
    decreases |w.updates|
  {
    if w.updates != [] {
      var v := Step(w, UpdateArrives);
      UpdatesDrain(v);
      var es := Repeat(UpdateArrives, |w.updates|);
      assert es[1..] == Repeat(UpdateArrives, |v.updates|);
    }
  }

  /** Without a byte more from the peer, all that is on the way can arrive and leave the peer with more than
      half of the window, less what was lost. */
  ghost predicate Recovers(w: World) {
    exists more: seq<Event> ::
      && IsRun(w, more) && (forall e: Event :: e in more ==> !e.PeerSends?)
      && End(w, more).data == [] && End(w, more).updates == []
      && End(w, more).credit + w.lost > w.counter.initial / 2
  }

  /** From every state that a respectful peer can reach, its credit comes back if and only if the backend
      is attached, or enough credit is there or on its way already. */
  lemma CreditReturns(bits: nat, es: seq<Event>)
    requires bits <= 30 && IsRun(Start(bits), es) && Respects(Start(bits), es)
    ensures var w := End(Start(bits), es);
            Recovers(w) <==> w.attached || w.credit + Sum(w.updates) + w.lost > Pow2(bits) / 2
  {
    hide IsRun, End, Respects, Accounted, Step, Sum, Recovers;
    NeverFlooded(bits, es);
    StartAccounted(bits);
    Conservation(Start(bits), es);
    var w := End(Start(bits), es);
    if w.attached {
      AttachedRecovers(w);
    } else {
      DetachedRecovers(w);
    }
  }

  /** Delivering what is on the way, with one writable event in between. */
  lemma AttachedRecovers(w: World)
    requires Accounted(w) && !Flooded(w) && w.credit >= 0 && w.attached
    ensures Recovers(w)
  {
    hide IsRun, End, Respects, Accounted, Step, Sum;
    var a := Repeat(DataArrives(true), |w.data|);
    DataDrains(w);
    Conservation(w, a);
    RespectfulRun(w, a);
    var w1 := End(w, a);
    OneStep(w1, Writable);
    HalfReturns(w1);
    var w2 := Step(w1, Writable);
    RunConcat(w, a, [Writable]);
    var c := Repeat(UpdateArrives, |w2.updates|);
    UpdatesDrain(w2);
    RunConcat(w, a + [Writable], c);
    RepeatOnly(DataArrives(true), |w.data|);
    RepeatOnly(UpdateArrives, |w2.updates|);
    var more := a + [Writable] + c;
    assert forall e :: e in more ==> !e.PeerSends?;
  }

  lemma DetachedRecovers(w: World)
    requires Accounted(w) && !w.attached
    ensures Recovers(w) <==> w.credit + Sum(w.updates) + w.lost > w.counter.initial / 2
  {
    hide IsRun, End, Respects, Accounted, Step;
    if Recovers(w) {
      var m: seq<Event> :| && IsRun(w, m) && (forall e: Event :: e in m ==> !e.PeerSends?)
                           && End(w, m).data == [] && End(w, m).updates == []
                           && End(w, m).credit + w.lost > w.counter.initial / 2;
      CreditRunsOut(w, m);
    }
    var a := Repeat(DataArrives(true), |w.data|);
    DataDrains(w);
    var w1 := End(w, a);
    var c := Repeat(UpdateArrives, |w1.updates|);
    UpdatesDrain(w1);
    RunConcat(w, a, c);
    RepeatOnly(DataArrives(true), |w.data|);
    RepeatOnly(UpdateArrives, |w1.updates|);
    var more := a + c;
    assert forall e: Event :: e in more ==> !e.PeerSends?;
  }

  /** Without its backend, a stream gives no credit any more, in no run. */
  lemma {:induction false} CreditRunsOut(w: World, es: seq<Event>)
    requires !w.attached && IsRun(w, es)
    ensures !End(w, es).attached
    ensures End(w, es).credit + Sum(End(w, es).updates) <= w.credit + Sum(w.updates)
    decreases |es|
  {
    if es != [] {
      CreditRunsOut(Step(w, es[0]), es[1..]);
    }
  }

  function StallEvents(bits: nat): seq<Event> { [PeerSends(Pow2(bits)), DataArrives(true), BackendLost] }

  /** The peer sends its whole window, the proxy counts it, and the backend closes before the update that is
      due is sent. */
  lemma StallRun(bits: nat)
    requires bits <= 23
    ensures var w0, es := Start(bits), StallEvents(bits);
            && IsRun(w0, es) && Respects(w0, es)
            && End(w0, es) == World(0, [], Counter(Pow2(bits), Pow2(bits), []), [], 0, false)
  {
    hide Pow2;
    Pow2Frame(bits);
    var n := Pow2(bits);
    var w0, es := Start(bits), StallEvents(bits);
    var w1, w2 := World(0, [n], Counter(n, 0, []), [], 0, true), World(0, [], Counter(n, n, []), [], 0, true);
    StallSteps(n);
    assert es[1..] == [DataArrives(true), BackendLost] && es[1..][1..] == [BackendLost] && [BackendLost][1..] == [];
    var w3 := Step(w2, BackendLost);
    assert IsRun(w3, []) && Respects(w3, []) && End(w3, []) == w3;
    assert IsRun(w2, [BackendLost]) && Respects(w2, [BackendLost]) && End(w2, [BackendLost]) == w3;
    assert IsRun(w1, es[1..]) && Respects(w1, es[1..]) && End(w1, es[1..]) == w3;
  }

  lemma StallSteps(n: nat)
    requires IsFrame(n)
    ensures var w0 := World(n, [], Counter(n, 0, []), [], 0, true);
            var w1, w2 := World(0, [n], Counter(n, 0, []), [], 0, true), World(0, [], Counter(n, n, []), [], 0, true);
            && Step(w0, PeerSends(n)) == w1
            && Enabled(w1, DataArrives(true)) && Step(w1, DataArrives(true)) == w2
  {
    hide Int32;
    assert [n][1..] == [];
  }

  /** That run stalls: whatever happens afterwards, the peer never gets a byte of credit again. */
  lemma Stalls(bits: nat, more: seq<Event>)
    requires bits <= 23
    ensures var w0, es := Start(bits), StallEvents(bits);
            && IsRun(w0, es) && Respects(w0, es) && UpdateDue(End(w0, es).counter)
            && (IsRun(End(w0, es), more) && Respects(End(w0, es), more) ==>
                  End(End(w0, es), more).credit == 0)
  {
    hide IsRun, Respects, End;
    StallRun(bits);
    var w := End(Start(bits), StallEvents(bits));
    if IsRun(w, more) && Respects(w, more) {
      StartAccounted(bits);
      Conservation(Start(bits), StallEvents(bits));
      RespectfulRun(w, more);
      Conservation(w, more);
      CreditRunsOut(w, more);
      SumNonNegative(End(w, more).updates);
    }
  }

  lemma {:induction false} Pow2Frame(bits: nat)
    requires bits <= 23
    ensures IsFrame(Pow2(bits))
    decreases 23 - bits
  {
    if bits == 23 {
      assert Pow2(10) == 1024;
      assert Pow2(20) == 1048576;
    } else {
      Pow2Frame(bits + 1);
    }
  }

  lemma HalfReturns(w: World)
    requires Accounted(w) && !Flooded(w) && w.data == [] && w.attached
    ensures var v := Step(w, Writable);
            v.data == [] && v.credit + Sum(v.updates) + w.lost > w.counter.initial / 2
  {
    StepAccounted(w, Writable);
  }

  lemma OneStep(w: World, e: Event)
    requires Enabled(w, e)
    ensures IsRun(w, [e]) && End(w, [e]) == Step(w, e)
  {
    assert [e][1..] == [];
  }

  lemma {:induction false} RepeatOnly(e: Event, n: nat)
    ensures forall x :: x in Repeat(e, n) ==> x == e
  {
    if n > 0 {
      RepeatOnly(e, n - 1);
    }
  }

  // ---------------------------------------------------------------- the updates

  /** What a WINDOW_UPDATE frame can hold: a delta of 1 to 2^31 - 1 (section 2.6.8 of SPDY Protocol
      Draft 3). */
  predicate Deltas(ns: seq<int>) {
    forall i :: 0 <= i < |ns| ==> 1 <= ns[i] <= 0x7FFF_FFFF
  }

  lemma {:induction false} DeltasKept(w: World, es: seq<Event>)
    requires IsRun(w, es) && w.counter.initial >= 2 && w.counter.recv <= 0x7FFF_FFFF && Deltas(w.updates)
    ensures Deltas(End(w, es).updates)
    decreases |es|
  {
    if es != [] {
      DeltasKept(Step(w, es[0]), es[1..]);
    }
  }

  /** Every update of every run can be put into a frame, also when the peer floods the stream and the counter
      wraps around, if and only if the window bits are not 0. */
  lemma UpdatesPositive(bits: nat)
    ensures bits >= 1 <==> forall es :: IsRun(Start(bits), es) ==> Deltas(End(Start(bits), es).updates)
  {
    if bits >= 1 {
      forall es | IsRun(Start(bits), es)
        ensures Deltas(End(Start(bits), es).updates)
      {
        DeltasKept(Start(bits), es);
      }
    } else {
      var w := Start(0);
      OneStep(w, Writable);
      assert Step(w, Writable).updates == [0];
      assert End(w, [Writable]).updates[0] == 0;
    }
  }

  // ---------------------------------------------------------------- the class plays the run

  /** A stream and a request object that are driven by the events of a run keep the counter that the run has: the
      chunks are pushed to the backend, and counted or not by the result. */
  method Drive(bits: nat, es: seq<Event>) returns (w: World)
    requires IsRun(Start(bits), es)
    ensures w == End(Start(bits), es)
  {
    hide IsRun, End, Upload.Push;
    var stream := new Stream(bits);
    var request := new Upload.Request();
    request.connected := true;
    w := Start(bits);
    assert es[0..] == es;
    var i := 0;
    while i != |es|
      invariant i <= |es| && IsRun(w, es[i..]) && End(w, es[i..]) == End(Start(bits), es)
      invariant w.counter == stream.State() && request.connected == w.attached && !request.chunkedRequest
    {
      var e := es[i];
      NextEvent(w, es, i);
      ghost var w0 := w;
      match e {
        case PeerSends(len) =>
          w := w.(credit := w.credit - len, data := w.data + [len]);
        case DataArrives(added) =>
          var bytes := seq(w.data[0], _ => '\0');
          var adds := Upload.Adds(true, added, true);
          UploadedIsPush(w.attached, bytes, adds);
          var rv := request.PushUploadDataChunk(bytes, adds);
          stream.OnDataChunkRecv(w.data[0], rv == 0);
          w := w.(lost := if rv == 0 then w.lost else w.lost + w.data[0], data := w.data[1..]);
        case Writable =>
          var before := |stream.updates|;
          stream.DownstreamWritecb();
          w := w.(updates := w.updates + stream.updates[before..]);
          assert w.updates == Step(w0, e).updates;
        case UpdateArrives =>
          w := w.(credit := w.credit + w.updates[0], updates := w.updates[1..]);
        case BackendLost =>
          request.connected := false;
          w := w.(attached := false);
      }
      w := w.(counter := Counter(stream.initialWindowSize, stream.recvWindowSize, stream.resets));
      assert w == Step(w0, e);
      i := i + 1;
    }
    NoEvents(w);
    assert es[|es|..] == [];
  }

  lemma NextEvent(w: World, es: seq<Event>, i: nat)
    requires i < |es| && IsRun(w, es[i..])
    ensures Enabled(w, es[i]) && IsRun(Step(w, es[i]), es[i + 1..])
    ensures End(w, es[i..]) == End(Step(w, es[i]), es[i + 1..])
  {
    assert es[i..][1..] == es[i + 1..];
  }

  lemma NoEvents(w: World)
    ensures IsRun(w, []) && End(w, []) == w
  {
  }
}
