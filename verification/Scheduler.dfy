/**
 Sending DATA under flow control (proto/streams/prioritize.rs, flow_control.rs, send.rs and the parts of stream.rs and
 state.rs they use), as functions on the scheduler's state. Streams are the entries of a sequence and are named by
 their position; the intrusive queues are sequences of such names.
 */
module Scheduler {
  import opened Common

  const MAX_WINDOW := 0x7FFF_FFFF
  const MIN_WINDOW := -0x8000_0000
  const MAX_U32 := 0xFFFF_FFFF

  datatype Frame = Data(payload: Bytes, eos: bool) | Other(tag: nat)

  /** The sending half of `State`: headers not sent yet, open, ended, waiting for the queue to drain before a reset, or
      reset. */
  datatype Phase = Idle | Streaming | Ended | ResetScheduled | Reset

  datatype Stream = Stream(window: int, available: int, requested: nat, buffered: nat,
                           phase: Phase, remoteEnded: bool, pending: seq<Frame>)

  /** The DATA frame the codec holds: whose it is, what of it is left for later, and whether it ends the stream. */
  datatype Held = Held(key: nat, rest: Bytes, eos: bool)

  datatype InFlight = Nothing | DataFrame(key: nat) | Drop

  /** What a stream was given to send and what it handed to the codec, since it was created; whether its queue was
      cleared, and whether END_STREAM went out on a DATA frame. */
  datatype History = History(queued: Bytes, written: Bytes, cleared: bool, finished: bool)

  datatype Sched = Sched(streams: seq<Stream>, hist: seq<History>, window: int, available: int,
                         sendQ: seq<nat>, capQ: seq<nat>, openQ: seq<nat>,
                         inFlight: InFlight, codec: Option<Held>)

  function Min(a: int, b: int): int
  {
    if a < b then a else b
  }

  /** `Window::as_size` */
  function Pos(w: int): nat
  {
    if w < 0 then 0 else w
  }

  /** `FlowControl::inc_window`: an overflowing sum is cut off. */
  function IncWindow(w: int, inc: nat): int
  {
    Min(w + inc, MAX_WINDOW)
  }

  /** `FlowControl::assign_capacity` with its error ignored. */
  function CheckedAdd(a: int, b: nat): int
  {
    if a + b > MAX_WINDOW then a else a + b
  }

  predicate IsClosed(s: Stream)
  {
    s.phase.ResetScheduled? || s.phase.Reset? || (s.phase.Ended? && s.remoteEnded)
  }

  predicate SendClosed(s: Stream)
  {
    s.phase.Ended? || s.phase.ResetScheduled? || s.phase.Reset?
  }

  /** `Queue::push`: a stream is in a queue at most once. */
  function Push(q: seq<nat>, k: nat): seq<nat>
  {
    if k in q then q else q + [k]
  }

  function PushFront(q: seq<nat>, k: nat): seq<nat>
  {
    if k in q then q else [k] + q
  }

  // ----- capacity

  /** What capacity has been assigned to a stream fits its window and its request. */
  predicate FlowOk(s: Stream)
  {
    && MIN_WINDOW <= s.window <= MAX_WINDOW
    && 0 <= s.available <= Pos(s.window)
    && s.available <= s.requested <= MAX_U32
  }

  predicate Known(m: Sched, q: seq<nat>)
  {
    forall i :: 0 <= i < |q| ==> q[i] < |m.streams|
  }

  predicate FlowsOk(m: Sched)
  {
    && 0 <= m.available <= MAX_WINDOW
    && (forall k :: 0 <= k < |m.streams| ==> FlowOk(m.streams[k]))
    && Known(m, m.capQ)
  }

  /** How much more the stream asks for and its window admits; the subtractions are unsigned. */
  function Additional(s: Stream): nat
    requires FlowOk(s)
  {
    Min(s.requested - s.available, Pos(s.window) - s.available)
  }

  /** `try_assign_capacity` */
  function TryAssign(m: Sched, k: nat): Sched
    requires k < |m.streams| && FlowOk(m.streams[k])
  {
    var s := m.streams[k];
    var additional := Additional(s);
    if k in m.openQ || additional == 0 then m
    else
      var a := if m.available > 0 then Min(m.available, additional) else 0;
      var s1 := s.(available := s.available + a);
      m.(streams := m.streams[k := s1],
         available := m.available - a,
         capQ := if s1.available < s1.requested && s1.available < s1.window then Push(m.capQ, k) else m.capQ,
         sendQ := if s1.buffered > 0 then Push(m.sendQ, k) else m.sendQ)
  }

  predicate WantsTurn(s: Stream)
  {
    s.phase.Streaming? || s.buffered > 0
  }

  /** The loop of `assign_connection_capacity`: streams waiting for capacity are served in turn. */
  function Serve(m: Sched): Sched
    requires FlowsOk(m)
    decreases if m.available > 0 then 1 + |m.capQ| else 0
  {
    if m.available <= 0 || m.capQ == [] then m
    else
      var k := m.capQ[0];
      var m1 := m.(capQ := m.capQ[1..]);
      assert m.capQ[0] < |m.streams|;
      if !WantsTurn(m.streams[k]) then Serve(m1)
      else
        TryAssignFlows(m1, k);
        Serve(TryAssign(m1, k))
  }

  lemma TryAssignFlows(m: Sched, k: nat)
    requires FlowsOk(m) && k < |m.streams|
    ensures var m1 := TryAssign(m, k);
            && FlowsOk(m1)
            && (m1.available > 0 ==> m1.capQ == m.capQ)
  {
  }

  /** `assign_connection_capacity` */
  function Refill(m: Sched, inc: nat): Sched
    requires FlowsOk(m)
  {
    Serve(m.(available := CheckedAdd(m.available, inc)))
  }

  // ----- what every stream keeps

  /** The data in a queue of frames. */
  function Payloads(fs: seq<Frame>): Bytes
  {
    if fs == [] then []
    else PayloadOf(fs[0]) + Payloads(fs[1..])
  }

  function PayloadOf(f: Frame): Bytes
  {
    if f.Data? then f.payload else []
  }

  predicate NoData(fs: seq<Frame>)
  {
    forall i :: 0 <= i < |fs| ==> !fs[i].Data?
  }

  predicate NoEos(fs: seq<Frame>)
  {
    forall i :: 0 <= i < |fs| ==> !(fs[i].Data? && fs[i].eos)
  }

  /** The frame that ends the stream is the last one with data. */
  predicate EosLast(fs: seq<Frame>)
  {
    forall i, j :: 0 <= i < j < |fs| && fs[i].Data? && fs[i].eos ==> !fs[j].Data?
  }

  /** The part of a DATA frame that comes back when the codec is done with it. */
  function Rest(m: Sched, k: nat): Bytes
  {
    if m.inFlight == DataFrame(k) && m.codec.Some? then m.codec.value.rest else []
  }

  predicate RestEos(m: Sched, k: nat)
  {
    m.inFlight == DataFrame(k) && m.codec.Some? && m.codec.value.eos
  }

  /** How much capacity a stream can use. */
  function Need(s: Stream): int
  {
    Min(Min(s.requested, Pos(s.window)), if s.phase.Streaming? then s.requested else s.buffered)
  }

  /** Open for sending or with data left to send, and with less capacity than it can use. */
  predicate Starved(s: Stream)
  {
    (s.phase.Streaming? || s.buffered > 0) && s.available < Need(s)
  }

  /** The frame at the front can be sent now. */
  predicate Sendable(s: Stream, rest: Bytes)
  {
    && s.pending != [] && rest == []
    && !(s.pending[0].Data? && s.pending[0].payload != [] && s.available == 0)
  }

  /** One stream as the scheduler sees it, and the queues it is in. */
  datatype View = View(s: Stream, rest: Bytes, open: bool, send: bool, cap: bool)

  function ViewOf(m: Sched, k: nat): View
    requires k < |m.streams|
  {
    View(m.streams[k], Rest(m, k), k in m.openQ, k in m.sendQ, k in m.capQ)
  }

  /** Everything but the place in the queue for capacity. */
  predicate Settled(v: View)
  {
    && FlowOk(v.s)
    && v.s.buffered >= |Payloads(v.s.pending)| + |v.rest|
    && (v.s.phase.Idle? ==> v.s.requested == 0 && v.s.buffered == 0)
    && (!v.open && Sendable(v.s, v.rest) ==> v.send)
    && ((v.send || v.open) && v.s.pending == [] ==> IsClosed(v.s) || v.s.buffered > 0)
    && (v.open ==> !v.send && v.rest == [])
  }

  /** Capacity never exceeds window or request, a stream that lacks capacity is queued for it, and a stream that could
      send is queued for that. */
  predicate StreamOk(v: View)
  {
    Settled(v) && (!v.open && Starved(v.s) ==> v.cap)
  }

  /** The bytes: what was written, what is in the codec and what is queued is what was given, in order; END_STREAM goes
      with the last of it. */
  predicate BytesOk(s: Stream, h: History, rest: Bytes, restEos: bool)
  {
    && s.buffered == |Payloads(s.pending)| + |rest|
    && (!h.cleared ==> h.written + rest + Payloads(s.pending) == h.queued)
    && h.written <= h.queued
    && (h.cleared || h.finished ==> NoData(s.pending) && rest == [] && SendClosed(s))
    && (h.finished ==> h.cleared || h.written == h.queued)
    && (s.phase.Idle? || s.phase.Streaming? ==> !restEos && NoEos(s.pending))
    && EosLast(s.pending)
    && (restEos && rest != [] ==> NoData(s.pending))
  }

  predicate NoDup(q: seq<nat>)
  {
    forall i, j :: 0 <= i < j < |q| ==> q[i] != q[j]
  }

  predicate FlightOk(m: Sched)
  {
    match m.codec
    case None => m.inFlight == Nothing
    case Some(h) => h.key < |m.streams| && (m.inFlight == Drop || m.inFlight == DataFrame(h.key))
  }

  predicate Base(m: Sched)
  {
    && |m.hist| == |m.streams|
    && 0 <= m.available <= MAX_WINDOW && 0 <= m.window <= MAX_WINDOW
    && Known(m, m.sendQ) && Known(m, m.capQ) && Known(m, m.openQ)
    && NoDup(m.sendQ) && NoDup(m.capQ) && NoDup(m.openQ)
    && FlightOk(m)
  }

  predicate StreamsOk(m: Sched)
  {
    forall k :: 0 <= k < |m.streams| ==> StreamOk(ViewOf(m, k))
  }

  predicate AllBytesOk(m: Sched)
    requires |m.hist| == |m.streams|
  {
    forall k :: 0 <= k < |m.streams| ==> BytesOk(m.streams[k], m.hist[k], Rest(m, k), RestEos(m, k))
  }

  /** Capacity is spare only when no stream waits for it. */
  predicate NoneIdle(m: Sched)
  {
    m.available > 0 ==> m.capQ == []
  }

  predicate Inv(m: Sched)
  {
    Base(m) && StreamsOk(m) && AllBytesOk(m) && NoneIdle(m)
  }

  function Total(ss: seq<Stream>): int
  {
    if ss == [] then 0 else ss[0].available + Total(ss[1..])
  }

  /** What of the connection's window neither is spare nor held by a stream. */
  function Slack(m: Sched): int
  {
    m.window - (m.available + Total(m.streams))
  }

  /** The connection's window is shared out: what the streams hold and what is spare add up to it. */
  predicate Conserved(m: Sched)
  {
    Slack(m) == 0
  }

  /** No more is spare or held than the window has. */
  predicate Covered(m: Sched)
  {
    Slack(m) >= 0
  }

  /** Capacity changes hands, and none comes or goes. */
  predicate Balanced(m: Sched, m1: Sched)
  {
    Covered(m) ==> Slack(m1) == Slack(m)
  }

  lemma {:induction false} TotalUpdate(ss: seq<Stream>, k: nat, s: Stream)
    requires k < |ss|
    ensures Total(ss[k := s]) == Total(ss) - ss[k].available + s.available
    decreases |ss|
  {
    if k == 0 {
      assert ss[k := s][1..] == ss[1..];
    } else {
      assert ss[k := s][1..] == ss[1..][k - 1 := s];
      TotalUpdate(ss[1..], k - 1, s);
    }
  }

  lemma {:induction false} TotalCovers(ss: seq<Stream>, k: nat)
    requires k < |ss| && forall j :: 0 <= j < |ss| ==> ss[j].available >= 0
    ensures 0 <= ss[k].available <= Total(ss)
    decreases |ss|
  {
    TotalNonneg(ss[1..]);
    if k > 0 {
      assert ss[1..][k - 1] == ss[k];
      TotalCovers(ss[1..], k - 1);
    }
  }

  lemma {:induction false} TotalNonneg(ss: seq<Stream>)
    requires forall j :: 0 <= j < |ss| ==> ss[j].available >= 0
    ensures Total(ss) >= 0
  {
    if ss != [] {
      TotalNonneg(ss[1..]);
    }
  }

  // ----- assigning capacity keeps it all

  /** Only capacity moved, and streams were queued. */
  predicate Moved(m: Sched, m1: Sched)
  {
    && m1 == m.(streams := m1.streams, available := m1.available, capQ := m1.capQ, sendQ := m1.sendQ)
    && |m1.streams| == |m.streams|
    && (forall k :: 0 <= k < |m.streams| ==> m1.streams[k] == m.streams[k].(available := m1.streams[k].available))
    && m1.available + Total(m1.streams) == m.available + Total(m.streams)
  }

  lemma MovedBytes(m: Sched, m1: Sched)
    requires Moved(m, m1) && |m.hist| == |m.streams| && AllBytesOk(m)
    ensures AllBytesOk(m1)
  {
    hide BytesOk, Total;
    forall k | 0 <= k < |m.streams| ensures BytesOk(m1.streams[k], m1.hist[k], Rest(m1, k), RestEos(m1, k)) {
      assert BytesOk(m.streams[k], m.hist[k], Rest(m, k), RestEos(m, k));
      BytesIgnoreCapacity(m.streams[k], m1.streams[k].available, m.streams[k].requested, m.hist[k], Rest(m, k),
          RestEos(m, k));
    }
  }

  lemma BytesIgnoreCapacity(s: Stream, a: int, r: nat, h: History, rest: Bytes, restEos: bool)
    requires BytesOk(s, h, rest, restEos)
    ensures BytesOk(s.(available := a, requested := r), h, rest, restEos)
  {
  }

  lemma PushKeeps(q: seq<nat>, k: nat, n: nat)
    requires NoDup(q) && k < n && forall i :: 0 <= i < |q| ==> q[i] < n
    ensures NoDup(Push(q, k)) && forall i :: 0 <= i < |Push(q, k)| ==> Push(q, k)[i] < n
    ensures k in Push(q, k) && forall j :: j != k ==> (j in Push(q, k) <==> j in q)
  {
  }

  lemma AssignedSettles(m: Sched, k: nat)
    requires Base(m) && k < |m.streams| && Settled(ViewOf(m, k))
    ensures FlowOk(m.streams[k]) && StreamOk(ViewOf(TryAssign(m, k), k))
    ensures 0 <= TryAssign(m, k).available <= m.available
    ensures TryAssign(m, k).available > 0 ==> TryAssign(m, k).capQ == m.capQ
  {
    var v := ViewOf(m, k);
    if v.s.pending != [] && v.s.pending[0].Data? {
      assert |Payloads(v.s.pending)| >= |v.s.pending[0].payload|;
    }
  }

  /** `try_assign_capacity` on a stream that may lack its place in the queue. */
  lemma TryAssignKeeps(m: Sched, k: nat)
    requires Base(m) && k < |m.streams| && Settled(ViewOf(m, k))
    requires forall j :: 0 <= j < |m.streams| && j != k ==> StreamOk(ViewOf(m, j))
    ensures FlowOk(m.streams[k])
    ensures var m1 := TryAssign(m, k);
            && Base(m1) && StreamsOk(m1) && Moved(m, m1)
            && (m1.available > 0 ==> m1.capQ == m.capQ)
  {
    hide Total, Settled, StreamOk, Payloads, FlowOk;
    AssignedSettles(m, k);
    var m1 := TryAssign(m, k);
    if m1 != m {
      PushKeeps(m.capQ, k, |m.streams|);
      PushKeeps(m.sendQ, k, |m.streams|);
      TotalUpdate(m.streams, k, m1.streams[k]);
    }
    forall j | 0 <= j < |m.streams| ensures StreamOk(ViewOf(m1, j)) {
      if j != k {
        assert ViewOf(m1, j) == ViewOf(m, j);
      }
    }
  }

  lemma MovedTwice(a: Sched, b: Sched, c: Sched)
    requires Moved(a, b) && Moved(b, c)
    ensures Moved(a, c)
  {
    hide Total;
  }

  lemma OkFlows(m: Sched)
    requires Base(m) && StreamsOk(m)
    ensures FlowsOk(m)
  {
    hide Total, Payloads, Starved, Sendable;
    forall k | 0 <= k < |m.streams| ensures FlowOk(m.streams[k]) {
      assert StreamOk(ViewOf(m, k));
    }
  }

  /** Serving the queue ends with no capacity to spare or no stream waiting. */
  lemma {:induction false} ServeKeeps(m: Sched)
    requires Base(m) && StreamsOk(m)
    ensures FlowsOk(m)
    ensures var m1 := Serve(m);
            Base(m1) && StreamsOk(m1) && Moved(m, m1) && NoneIdle(m1)
    decreases if m.available > 0 then 1 + |m.capQ| else 0
  {
    hide Total, StreamOk, Settled, FlowOk, Base, FlowsOk;
    OkFlows(m);
    if m.available > 0 && m.capQ != [] {
      var k := m.capQ[0];
      var m1 := m.(capQ := m.capQ[1..]);
      TurnTaken(m);
      if !WantsTurn(m.streams[k]) {
        ServeKeeps(m1);
      } else {
        TryAssignKeeps(m1, k);
        var m2 := TryAssign(m1, k);
        ServeKeeps(m2);
        MovedTwice(m1, m2, Serve(m2));
      }
    }
  }

  /** The stream whose turn it is leaves the queue. */
  lemma TurnTaken(m: Sched)
    requires Base(m) && StreamsOk(m) && m.capQ != []
    ensures m.capQ[0] < |m.streams|
    ensures var k := m.capQ[0];
            var m1 := m.(capQ := m.capQ[1..]);
            && Base(m1) && Settled(ViewOf(m1, k)) && (!WantsTurn(m.streams[k]) ==> StreamsOk(m1))
            && forall j :: 0 <= j < |m.streams| && j != k ==> StreamOk(ViewOf(m1, j))
  {
    hide StreamOk, Settled;
    var k := m.capQ[0];
    var m1 := m.(capQ := m.capQ[1..]);
    PopKeeps(m.capQ, |m.streams|);
    forall j | 0 <= j < |m.streams| && j != k ensures StreamOk(ViewOf(m1, j)) {
      assert ViewOf(m1, j) == ViewOf(m, j);
    }
    assert StreamOk(ViewOf(m, k));
    LosesPlace(ViewOf(m, k), ViewOf(m1, k));
  }

  lemma PopKeeps(q: seq<nat>, n: nat)
    requires q != [] && NoDup(q) && forall i :: 0 <= i < |q| ==> q[i] < n
    ensures NoDup(q[1..]) && forall i :: 0 <= i < |q[1..]| ==> q[1..][i] < n
    ensures q[0] !in q[1..] && forall j :: j != q[0] ==> (j in q[1..] <==> j in q)
  {
    assert q == [q[0]] + q[1..];
  }

  lemma LosesPlace(v: View, w: View)
    requires StreamOk(v) && w == v.(cap := w.cap)
    ensures Settled(w) && (!WantsTurn(v.s) ==> StreamOk(w))
  {
  }

  lemma RefillKeeps(m: Sched, inc: nat)
    requires Base(m) && StreamsOk(m)
    ensures FlowsOk(m)
    ensures var m1 := Refill(m, inc);
            && Base(m1) && StreamsOk(m1) && NoneIdle(m1)
            && Moved(m.(available := CheckedAdd(m.available, inc)), m1)
  {
    hide Total, StreamOk, Serve, FlowOk;
    OkFlows(m);
    var m0 := m.(available := CheckedAdd(m.available, inc));
    forall j | 0 <= j < |m.streams| ensures StreamOk(ViewOf(m0, j)) {
      assert ViewOf(m0, j) == ViewOf(m, j);
    }
    ServeKeeps(m0);
  }

  // ----- changing one stream

  function Put(m: Sched, k: nat, s: Stream): Sched
    requires k < |m.streams|
  {
    m.(streams := m.streams[k := s])
  }

  lemma PutKeeps(m: Sched, k: nat, s: Stream)
    requires Base(m) && StreamsOk(m) && k < |m.streams|
    ensures var m1 := Put(m, k, s);
            && Base(m1) && Total(m1.streams) == Total(m.streams) - m.streams[k].available + s.available
            && ViewOf(m1, k) == ViewOf(m, k).(s := s)
            && (forall j :: 0 <= j < |m.streams| && j != k ==> StreamOk(ViewOf(m1, j)))
            && (StreamOk(ViewOf(m1, k)) ==> StreamsOk(m1))
  {
    hide Total, StreamOk;
    var m1 := Put(m, k, s);
    TotalUpdate(m.streams, k, s);
    forall j | 0 <= j < |m.streams| && j != k ensures StreamOk(ViewOf(m1, j)) {
      assert ViewOf(m1, j) == ViewOf(m, j);
    }
  }

  /** The bytes of every other stream. */
  predicate OthersBytesOk(m: Sched, k: nat)
    requires |m.hist| == |m.streams|
  {
    forall j :: 0 <= j < |m.streams| && j != k ==> BytesOk(m.streams[j], m.hist[j], Rest(m, j), RestEos(m, j))
  }

  /** Only stream k and the queues differ. */
  predicate Local(m: Sched, m1: Sched, k: nat)
  {
    && |m1.streams| == |m.streams| && |m1.hist| == |m.hist|
    && m1 == m.(streams := m1.streams, hist := m1.hist, available := m1.available, window := m1.window,
                sendQ := m1.sendQ, capQ := m1.capQ, openQ := m1.openQ)
    && (forall j :: 0 <= j < |m.streams| && j != k ==>
        m1.streams[j] == m.streams[j].(available := m1.streams[j].available))
    && (forall j :: 0 <= j < |m.hist| && j != k ==> m1.hist[j] == m.hist[j])
  }

  lemma LocalBytes(m: Sched, m1: Sched, k: nat)
    requires Local(m, m1, k) && |m.hist| == |m.streams| && AllBytesOk(m)
    ensures OthersBytesOk(m1, k)
  {
    hide BytesOk;
    forall j | 0 <= j < |m.streams| && j != k ensures BytesOk(m1.streams[j], m1.hist[j], Rest(m1, j), RestEos(m1, j)) {
      assert BytesOk(m.streams[j], m.hist[j], Rest(m, j), RestEos(m, j));
      BytesIgnoreCapacity(m.streams[j], m1.streams[j].available, m.streams[j].requested, m.hist[j], Rest(m, j),
          RestEos(m, j));
    }
  }

  /** Everything but the bytes of stream k is in order again, and no capacity was lost. */
  predicate Kept(m: Sched, m1: Sched, k: nat)
  {
    && Base(m1) && StreamsOk(m1) && NoneIdle(m1)
    && Balanced(m, m1)
    && Local(m, m1, k) && m1.openQ == m.openQ && m1.window == m.window
  }

  /** Stream k, besides its capacity. */
  predicate Became(m1: Sched, k: nat, s: Stream)
  {
    k < |m1.streams| && m1.streams[k] == s.(available := m1.streams[k].available)
  }

  lemma OkTotal(m: Sched)
    requires FlowsOk(m)
    ensures Total(m.streams) >= 0
  {
    TotalNonneg(m.streams);
  }

  /** Capacity taken from a stream and handed to the connection is not lost. */
  lemma RefillKept(m: Sched, k: nat, s: Stream, diff: nat)
    requires Base(m) && StreamsOk(m) && k < |m.streams| && s.available == m.streams[k].available - diff
    requires StreamOk(ViewOf(m, k).(s := s))
    ensures FlowsOk(Put(m, k, s))
    ensures var m1 := Refill(Put(m, k, s), diff); Kept(m, m1, k) && m1.hist == m.hist && Became(m1, k, s)
  {
    hide Total, StreamOk, Serve, FlowOk, Known, NoDup, FlightOk;
    var m0 := Put(m, k, s);
    PutKeeps(m, k, s);
    RefillKeeps(m0, diff);
    if Covered(m) {
      OkTotal(m0);
    }
  }

  lemma AssignKept(m: Sched, k: nat, s: Stream)
    requires Base(m) && StreamsOk(m) && NoneIdle(m) && k < |m.streams| && s.available == m.streams[k].available
    requires Settled(ViewOf(m, k).(s := s))
    ensures FlowOk(s)
    ensures var m1 := TryAssign(Put(m, k, s), k); Kept(m, m1, k) && m1.hist == m.hist && Became(m1, k, s)
  {
    hide Total, StreamOk, Settled, FlowOk, Known, NoDup, FlightOk;
    PutKeeps(m, k, s);
    TryAssignKeeps(Put(m, k, s), k);
  }

  lemma PutKept(m: Sched, k: nat, s: Stream)
    requires Base(m) && StreamsOk(m) && NoneIdle(m) && k < |m.streams| && s.available == m.streams[k].available
    requires StreamOk(ViewOf(m, k).(s := s))
    ensures Kept(m, Put(m, k, s), k)
  {
    hide Total, StreamOk, Known, NoDup, FlightOk;
    PutKeeps(m, k, s);
  }

  // ----- reserving capacity

  /** `reserve_capacity` */
  function Reserve(m: Sched, k: nat, capacity: nat): Sched
    requires k < |m.streams| && FlowsOk(m)
  {
    var s := m.streams[k];
    var cap := capacity + s.buffered;
    if cap == s.requested then m
    else if cap < s.requested then
      if s.available > cap then
        var m1 := Put(m, k, s.(requested := cap, available := cap));
        Refill(m1, s.available - cap)
      else Put(m, k, s.(requested := cap))
    else if SendClosed(s) then m
    else TryAssign(Put(m, k, s.(requested := Min(cap, MAX_U32))), k)
  }

  /** The request becomes what was asked for plus what is buffered; capacity over it goes back. */
  lemma ReserveKeeps(m: Sched, k: nat, capacity: nat)
    requires Base(m) && StreamsOk(m) && NoneIdle(m) && k < |m.streams| && !m.streams[k].phase.Idle?
    ensures FlowsOk(m)
    ensures var m1 := Reserve(m, k, capacity);
            var s := m.streams[k];
            && Kept(m, m1, k) && m1.hist == m.hist
            && Became(m1, k, s.(requested := Requested(s, capacity)))
  {
    hide Total, StreamOk, FlowOk, Refill, TryAssign, Base;
    OkFlows(m);
    var s := m.streams[k];
    var cap := capacity + s.buffered;
    assert StreamOk(ViewOf(m, k));
    RequestBounded(ViewOf(m, k));
    if cap < s.requested {
      LowerRequest(ViewOf(m, k), cap);
      if s.available > cap {
        RefillKept(m, k, s.(requested := cap, available := cap), s.available - cap);
      } else {
        PutKept(m, k, s.(requested := cap));
      }
    } else if cap > s.requested && !SendClosed(s) {
      RaiseRequest(ViewOf(m, k), Min(cap, MAX_U32));
      AssignKept(m, k, s.(requested := Min(cap, MAX_U32)));
    }
  }

  function Requested(s: Stream, capacity: nat): nat
  {
    if SendClosed(s) then Min(capacity + s.buffered, s.requested) else Min(capacity + s.buffered, MAX_U32)
  }

  lemma RequestBounded(v: View)
    requires StreamOk(v)
    ensures v.s.requested <= MAX_U32
  {
  }

  lemma LowerRequest(v: View, cap: nat)
    requires StreamOk(v) && v.s.buffered <= cap < v.s.requested
    ensures StreamOk(v.(s := v.s.(requested := cap, available := Min(v.s.available, cap))))
  {
  }

  lemma RaiseRequest(v: View, cap: nat)
    requires StreamOk(v) && v.s.requested <= cap <= MAX_U32 && !v.s.phase.Idle?
    ensures Settled(v.(s := v.s.(requested := cap)))
  {
  }
}
