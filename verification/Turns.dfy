/**
 Whose turn it is (`Queue` in proto/streams/store.rs under the loops of prioritize.rs): streams are served in the order
 in which they were queued, for sending as for capacity.
 */
module Turns {
  import opened Common
  import opened Scheduler
  import opened Sending
  import opened Windows
  import opened Resets
  import opened Popping

  // ----- the queue for capacity

  /** The queue moved on: some streams at the front had their turn, the others keep their order, and whoever came stands
      behind them. */
  ghost predicate MovedOn(q: seq<nat>, q1: seq<nat>)
  {
    exists n: nat :: n <= |q| && q[n..] <= q1
  }

  lemma MovedOnBy(q: seq<nat>, q1: seq<nat>, n: nat)
    requires n <= |q| && q[n..] <= q1
    ensures MovedOn(q, q1)
  {
  }

  lemma MovedOnTwice(a: seq<nat>, b: seq<nat>, c: seq<nat>)
    requires MovedOn(a, b) && MovedOn(b, c)
    ensures MovedOn(a, c)
  {
    var n: nat :| n <= |a| && a[n..] <= b;
    var i: nat :| i <= |b| && b[i..] <= c;
    if n + i <= |a| {
      assert a[n + i..] == a[n..][i..];
      assert a[n..][i..] <= b[i..];
      MovedOnBy(a, c, n + i);
    } else {
      MovedOnBy(a, c, |a|);
    }
  }

  /** The stream has all the capacity that it requests and that its window admits, or cannot use any. */
  predicate Satisfied(m: Sched, k: nat)
    requires k < |m.streams|
  {
    || !(m.streams[k].phase.Streaming? || m.streams[k].buffered > 0) || k in m.openQ
    || m.streams[k].available == Min(m.streams[k].requested, Pos(m.streams[k].window))
  }

  /** Exactly the first n streams had their turn: all but the last of them are satisfied, the last is, or there is
      nothing left; nobody else got anything; and only the last may be queued again, at the end. */
  predicate InTurn(m: Sched, m1: Sched, n: nat)
  {
    && n <= |m.capQ| && |m1.streams| == |m.streams| && Known(m, m.capQ)
    && (n < |m.capQ| ==> m1.available == 0)
    && (forall i :: 0 <= i < n ==> Satisfied(m1, m.capQ[i]) || (i == n - 1 && m1.available == 0))
    && (forall k :: 0 <= k < |m.streams| && k !in m.capQ[..n] ==> m1.streams[k] == m.streams[k])
    && (m1.capQ == m.capQ[n..] || (n > 0 && m1.capQ == m.capQ[n..] + [m.capQ[n - 1]]))
  }

  lemma AssignedInTurn(m: Sched, k: nat)
    requires k < |m.streams| && FlowOk(m.streams[k]) && m.available > 0
    ensures var m1 := TryAssign(m, k);
            && |m1.streams| == |m.streams| && m1.openQ == m.openQ && m1.available >= 0
            && (Satisfied(m1, k) || m1.available == 0)
            && (m1.available > 0 ==> m1.capQ == m.capQ)
            && (m1.capQ == m.capQ || m1.capQ == m.capQ + [k])
            && (forall j :: 0 <= j < |m.streams| && j != k ==> m1.streams[j] == m.streams[j])
  {
  }

  /** One turn, and then the others. */
  lemma TurnThenOthers(m: Sched, m1: Sched, m2: Sched, n: nat)
    requires m.capQ != [] && NoDup(m.capQ) && Known(m, m.capQ) && m1.capQ == m.capQ[1..]
    requires |m1.streams| == |m.streams| && m1.openQ == m2.openQ && InTurn(m1, m2, n) && Satisfied(m1, m.capQ[0])
    requires forall j :: 0 <= j < |m.streams| && j != m.capQ[0] ==> m1.streams[j] == m.streams[j]
    ensures InTurn(m, m2, n + 1)
  {
    hide WantsTurn;
    var k := m.capQ[0];
    assert m.capQ == [k] + m1.capQ;
    assert m.capQ[..n + 1] == [k] + m1.capQ[..n] && m.capQ[n + 1..] == m1.capQ[n..];
    PopKeeps(m.capQ, |m.streams|);
    assert k !in m1.capQ[..n];
    forall i | 0 <= i < n + 1 ensures Satisfied(m2, m.capQ[i]) || (i == n && m2.available == 0) {
      if i > 0 {
        assert m.capQ[i] == m1.capQ[i - 1];
      }
    }
  }

  /** `assign_connection_capacity` serves the queue in order. */
  lemma {:induction false} ServeInTurn(m: Sched)
    requires FlowsOk(m) && NoDup(m.capQ)
    ensures exists n: nat :: InTurn(m, Serve(m), n)
    ensures Serve(m).openQ == m.openQ
    decreases if m.available > 0 then 1 + |m.capQ| else 0
  {
    hide InTurn, FlowOk, TryAssign, NoDup;
    if m.available <= 0 || m.capQ == [] {
      NoTurn(m);
      assert Serve(m) == m;
      assert InTurn(m, Serve(m), 0);
    } else {
      var k := m.capQ[0];
      var m0 := m.(capQ := m.capQ[1..]);
      PopKeeps(m.capQ, |m.streams|);
      if !WantsTurn(m.streams[k]) {
        ServeInTurn(m0);
        var n: nat :| InTurn(m0, Serve(m0), n);
        TurnThenOthers(m, m0, Serve(m0), n);
        assert InTurn(m, Serve(m), n + 1);
      } else {
        TryAssignFlows(m0, k);
        AssignedInTurn(m0, k);
        var m1 := TryAssign(m0, k);
        if m1.available > 0 {
          ServeInTurn(m1);
          var n: nat :| InTurn(m1, Serve(m1), n);
          TurnThenOthers(m, m1, Serve(m1), n);
          assert InTurn(m, Serve(m), n + 1);
        } else {
          LastTurn(m, m1);
          assert InTurn(m, Serve(m), 1);
        }
      }
    }
  }

  lemma NoTurn(m: Sched)
    requires FlowsOk(m) && (m.available <= 0 || m.capQ == [])
    ensures InTurn(m, m, 0)
  {
    assert m.capQ[0..] == m.capQ;
  }

  lemma LastTurn(m: Sched, m1: Sched)
    requires m.capQ != [] && Known(m, m.capQ) && m1.available == 0 && |m1.streams| == |m.streams|
    requires m1.capQ == m.capQ[1..] || m1.capQ == m.capQ[1..] + [m.capQ[0]]
    requires forall j :: 0 <= j < |m.streams| && j != m.capQ[0] ==> m1.streams[j] == m.streams[j]
    ensures InTurn(m, m1, 1)
  {
    hide Satisfied;
    assert m.capQ[..1] == [m.capQ[0]];
  }

  /** A stream gets capacity only after every stream in front of it has all it can use. */
  lemma EarlierFirst(m: Sched, i: nat, j: nat)
    requires FlowsOk(m) && NoDup(m.capQ) && i < j < |m.capQ|
    ensures var m1 := Serve(m);
            && |m1.streams| == |m.streams|
            && (m1.streams[m.capQ[j]].available > m.streams[m.capQ[j]].available ==> Satisfied(m1, m.capQ[i]))
  {
    hide FlowOk, Serve, Satisfied;
    ServeInTurn(m);
    var m1 := Serve(m);
    var n: nat :| InTurn(m, m1, n);
    if m1.streams[m.capQ[j]] != m.streams[m.capQ[j]] {
      assert m.capQ[j] in m.capQ[..n];
      var x :| 0 <= x < |m.capQ[..n]| && m.capQ[..n][x] == m.capQ[j];
      assert x == j;
    }
  }

  // ----- what operations do to the queues

  /** Nobody lost a place in the queue for sending, newcomers stand behind all others, and nobody came to wait for being
      opened; the queue for capacity at most moved on. */
  ghost predicate Orderly(m: Sched, m1: Sched)
  {
    m.sendQ <= m1.sendQ && m1.openQ == m.openQ && MovedOn(m.capQ, m1.capQ)
  }

  lemma SameQueues(m: Sched, m1: Sched)
    requires m1.sendQ == m.sendQ && m1.openQ == m.openQ && m.capQ <= m1.capQ
    ensures Orderly(m, m1)
  {
    assert m.capQ[0..] == m.capQ;
    MovedOnBy(m.capQ, m1.capQ, 0);
  }

  lemma OrderlyTwice(a: Sched, b: Sched, c: Sched)
    requires Orderly(a, b) && Orderly(b, c)
    ensures Orderly(a, c)
  {
    hide MovedOn;
    MovedOnTwice(a.capQ, b.capQ, c.capQ);
  }

  lemma TryAssignOrderly(m: Sched, k: nat)
    requires k < |m.streams| && FlowOk(m.streams[k])
    ensures Orderly(m, TryAssign(m, k))
  {
    hide MovedOn;
    var m1 := TryAssign(m, k);
    SameQueues(m, m1.(sendQ := m.sendQ));
  }

  lemma {:induction false} ServeOrderly(m: Sched)
    requires FlowsOk(m)
    ensures Orderly(m, Serve(m))
    decreases if m.available > 0 then 1 + |m.capQ| else 0
  {
    hide Orderly, FlowOk, WantsTurn, TryAssign;
    if m.available > 0 && m.capQ != [] {
      var k := m.capQ[0];
      var m1 := m.(capQ := m.capQ[1..]);
      FrontLeaves(m);
      if !WantsTurn(m.streams[k]) {
        ServeOrderly(m1);
        OrderlyTwice(m, m1, Serve(m1));
      } else {
        TryAssignFlows(m1, k);
        TryAssignOrderly(m1, k);
        var m2 := TryAssign(m1, k);
        ServeOrderly(m2);
        OrderlyTwice(m, m1, m2);
        OrderlyTwice(m, m2, Serve(m2));
      }
    } else {
      SameQueues(m, m);
    }
  }

  lemma FrontLeaves(m: Sched)
    requires m.capQ != []
    ensures Orderly(m, m.(capQ := m.capQ[1..]))
  {
    MovedOnBy(m.capQ, m.capQ[1..], 1);
  }

  lemma RefillOrderly(m: Sched, inc: nat)
    requires FlowsOk(m)
    ensures Orderly(m, Refill(m, inc))
  {
    hide Serve, MovedOn;
    ServeOrderly(m.(available := CheckedAdd(m.available, inc)));
  }

  lemma PutOrderly(m: Sched, k: nat, s: Stream)
    requires k < |m.streams|
    ensures Orderly(m, Put(m, k, s))
  {
    SameQueues(m, Put(m, k, s));
  }

  lemma ReserveOrderly(m: Sched, k: nat, capacity: nat)
    requires k < |m.streams| && FlowsOk(m)
    ensures Orderly(m, Reserve(m, k, capacity))
  {
    hide Orderly, Refill, TryAssign;
    var s := m.streams[k];
    var cap := capacity + s.buffered;
    SameQueues(m, m);
    if cap < s.requested {
      if s.available > cap {
        var m1 := Put(m, k, s.(requested := cap, available := cap));
        PutOrderly(m, k, s.(requested := cap, available := cap));
        RefillOrderly(m1, s.available - cap);
        OrderlyTwice(m, m1, Refill(m1, s.available - cap));
      } else {
        PutOrderly(m, k, s.(requested := cap));
      }
    } else if cap > s.requested && !SendClosed(s) {
      var s1 := s.(requested := Min(cap, MAX_U32));
      PutOrderly(m, k, s1);
      TryAssignOrderly(Put(m, k, s1), k);
      OrderlyTwice(m, Put(m, k, s1), TryAssign(Put(m, k, s1), k));
    }
  }

  lemma QueueOrderly(m: Sched, k: nat, f: Frame)
    requires k < |m.streams|
    ensures Orderly(m, QueueFrame(m, k, f)) && Orderly(m, Schedule(m, k)) && Orderly(m, Enqueue(m, k, f))
  {
    hide MovedOn;
    SameQueues(m, m);
  }

  lemma SendDataOrderly(m: Sched, k: nat, payload: Bytes, eos: bool)
    requires Inv(m) && k < |m.streams| && Refusal(m, k, payload) == None
    ensures Orderly(m, Sending.SendData(m, k, payload, eos))
  {
    hide Orderly, Base, StreamsOk, AllBytesOk, FlowsOk, Account, Finish, Append, Slack;
    AccountKeeps(m, k, |payload|);
    AccountOrderly(m, k, |payload|);
    var m1 := Account(m, k, |payload|);
    SizesAgree(m);
    if eos {
      FinishKeeps(m1, k);
      FinishOrderly(m1, k);
      var m2 := Finish(m1, k);
      OrderlyTwice(m, m1, m2);
      AppendOrderly(m2, k, payload, eos);
      OrderlyTwice(m, m2, Append(m2, k, payload, eos));
    } else {
      AppendOrderly(m1, k, payload, eos);
      OrderlyTwice(m, m1, Append(m1, k, payload, eos));
    }
  }

  lemma AccountOrderly(m: Sched, k: nat, n: nat)
    requires k < |m.streams| && FlowsOk(m)
    ensures Orderly(m, Account(m, k, n))
  {
    hide Orderly, TryAssign;
    var s := m.streams[k].(buffered := m.streams[k].buffered + n);
    PutOrderly(m, k, s);
    if s.requested < s.buffered {
      var s1 := s.(requested := Min(s.buffered, MAX_U32));
      PutOrderly(m, k, s1);
      TryAssignOrderly(Put(m, k, s1), k);
      OrderlyTwice(m, Put(m, k, s1), TryAssign(Put(m, k, s1), k));
    }
  }

  lemma FinishOrderly(m: Sched, k: nat)
    requires k < |m.streams| && FlowsOk(m)
    ensures Orderly(m, Finish(m, k))
  {
    hide Orderly, Reserve, FlowsOk;
    var s := m.streams[k].(phase := Ended);
    PhaseFlows(m, k, Ended);
    PutOrderly(m, k, s);
    ReserveOrderly(Put(m, k, s), k, 0);
    OrderlyTwice(m, Put(m, k, s), Reserve(Put(m, k, s), k, 0));
  }

  lemma AppendOrderly(m: Sched, k: nat, payload: Bytes, eos: bool)
    requires k < |m.streams| == |m.hist|
    ensures Orderly(m, Append(m, k, payload, eos))
  {
    hide MovedOn;
    SameQueues(m, m);
  }

  lemma SendTrailersOrderly(m: Sched, k: nat, tag: nat)
    requires Inv(m) && k < |m.streams| && m.streams[k].phase.Streaming?
    ensures Orderly(m, SendTrailers(m, k, tag))
  {
    hide Orderly, Reserve, FlowsOk, Slack, Base, StreamsOk, BytesOk, QueueFrame;
    TrailersQueued(m, k, tag);
    var s := m.streams[k].(phase := Ended);
    var m0 := Put(m, k, s);
    var m1 := QueueFrame(m0, k, Other(tag));
    PutOrderly(m, k, s);
    QueueOrderly(m0, k, Other(tag));
    OrderlyTwice(m, m0, m1);
    ReserveOrderly(m1, k, 0);
    OrderlyTwice(m, m1, Reserve(m1, k, 0));
  }

  lemma StreamUpdateOrderly(m: Sched, k: nat, inc: nat)
    requires Inv(m) && k < |m.streams|
    ensures Orderly(m, StreamUpdate(m, k, inc))
  {
    hide Orderly, TryAssign, Inv;
    var s := m.streams[k];
    SameQueues(m, m);
    if !(SendClosed(s) && s.buffered == 0) {
      WiderSettles(m, k, inc);
      var s1 := s.(window := IncWindow(s.window, inc));
      PutOrderly(m, k, s1);
      TryAssignOrderly(Put(m, k, s1), k);
      OrderlyTwice(m, Put(m, k, s1), TryAssign(Put(m, k, s1), k));
    }
  }

  lemma {:induction false} WidenOrderly(m: Sched, k: nat, inc: nat)
    requires Inv(m) && k <= |m.streams|
    ensures Orderly(m, Widen(m, k, inc))
    decreases |m.streams| - k
  {
    hide Orderly, StreamUpdate, Inv, Slack;
    if k == |m.streams| {
      SameQueues(m, m);
    } else {
      StreamUpdateKeeps(m, k, inc);
      StreamUpdateOrderly(m, k, inc);
      var m1 := StreamUpdate(m, k, inc);
      WidenOrderly(m1, k + 1, inc);
      OrderlyTwice(m, m1, Widen(m1, k + 1, inc));
    }
  }

  lemma ConnUpdateOrderly(m: Sched, inc: nat)
    requires Inv(m)
    ensures Orderly(m, ConnUpdate(m, inc))
  {
    hide MovedOn, Refill, Inv, Base, StreamsOk, AllBytesOk, FlowsOk;
    ConnWiderOk(m, inc);
    RefillOrderly(m.(window := IncWindow(m.window, inc)), inc);
  }

  lemma NarrowOrderly(m: Sched, dec: nat)
    requires Inv(m)
    ensures Narrow(m, dec).Some? ==> Orderly(m, Narrow(m, dec).value)
  {
    hide Orderly, Refill, StreamsOk, AllBytesOk, Base, FlowsOk, NarrowFrom;
    NarrowKeeps(m, 0, dec, 0);
    match NarrowFrom(m, 0, dec, 0)
    case None =>
    case Some((m1, r)) =>
      SameQueues(m, m1);
      RefillOrderly(m1, r);
      OrderlyTwice(m, m1, Refill(m1, r));
  }

  lemma AbortOrderly(m: Sched, k: nat, p: Phase, rst: Option<nat>)
    requires Inv(m) && k < |m.streams| && IsClosed(m.streams[k].(phase := p))
    ensures Orderly(m, Abort(m, k, p, rst))
  {
    hide Orderly, Refill, StreamsOk, AllBytesOk, Base, FlowsOk, StreamOk, BytesOk, Emptied, Abort;
    SizesAgree(m);
    InvAt(m, k);
    CapacityBounds(ViewOf(m, k));
    var a := m.streams[k].available;
    ReclaimEffect(m, k, p, rst);
    var m1 := Emptied(m, k, p, rst);
    EmptiedOrderly(m, k, p, rst);
    if a > 0 {
      RefillOrderly(m1, a);
      OrderlyTwice(m, m1, Refill(m1, a));
    }
  }

  lemma EmptiedOrderly(m: Sched, k: nat, p: Phase, rst: Option<nat>)
    requires k < |m.streams| == |m.hist|
    ensures Orderly(m, Emptied(m, k, p, rst))
  {
    hide MovedOn;
    SameQueues(m, m);
  }

  lemma SendResetOrderly(m: Sched, k: nat, tag: nat)
    requires Inv(m) && k < |m.streams|
    ensures Orderly(m, Resets.SendReset(m, k, tag))
  {
    hide Orderly, Abort, Inv;
    var s := m.streams[k];
    SameQueues(m, m);
    if s.phase.ResetScheduled? || s.phase.Reset? {
    } else if IsClosed(s) && s.pending == [] {
      PutOrderly(m, k, s.(phase := Reset));
    } else {
      AbortOrderly(m, k, Reset, Some(tag));
    }
  }

  lemma ImplicitResetOrderly(m: Sched, k: nat)
    requires Inv(m) && k < |m.streams|
    ensures Orderly(m, ImplicitReset(m, k))
  {
    hide Orderly, Refill, FlowsOk, Kept, StreamOk, Inv, Schedule;
    var s := m.streams[k];
    SameQueues(m, m);
    if !IsClosed(s) {
      ImplicitOk(m, k);
      var s1 := s.(phase := ResetScheduled);
      var m1 := Put(m, k, s1);
      PutOrderly(m, k, s1);
      var m2 := m1;
      if s.available > s.buffered {
        var m0 := Put(m1, k, s1.(available := s.buffered));
        PutOrderly(m1, k, s1.(available := s.buffered));
        OrderlyTwice(m, m1, m0);
        RefillOrderly(m0, s.available - s.buffered);
        m2 := Refill(m0, s.available - s.buffered);
        OrderlyTwice(m, m0, m2);
      }
      ScheduleOrderly(m2, k);
      OrderlyTwice(m, m2, Schedule(m2, k));
    }
  }

  lemma ScheduleOrderly(m: Sched, k: nat)
    ensures Orderly(m, Schedule(m, k))
  {
    hide MovedOn;
    SameQueues(m, m);
  }

  lemma ReclaimOrderly(m: Sched)
    requires FlightOk(m) && m.codec.Some?
    ensures Orderly(m, Reclaim(m).0)
  {
    hide MovedOn;
    SameQueues(m, m);
  }

  lemma InvFlows(m: Sched)
    requires Inv(m)
    ensures FlowsOk(m)
  {
    hide StreamsOk, AllBytesOk, Base, FlowsOk;
    OkFlows(m);
  }

  lemma InvFlight(m: Sched)
    requires Inv(m)
    ensures FlightOk(m)
  {
  }

  lemma NewOrderly(m: Sched, window: nat)
    ensures Orderly(m, NewStream(m, window))
  {
    SameQueues(m, NewStream(m, window));
  }

  lemma HeadersOrderly(m: Sched, k: nat, eos: bool, localInit: bool, tag: nat)
    requires k < |m.streams|
    ensures var m1 := SendHeaders(m, k, eos, localInit, tag);
            m.sendQ <= m1.sendQ && m.openQ <= m1.openQ && MovedOn(m.capQ, m1.capQ)
  {
    hide MovedOn;
    SameQueues(m, m);
  }

  lemma OpenNextMoves(m: Sched)
    requires Inv(m) && m.openQ != []
    ensures MovedOn(m.capQ, OpenNext(m).capQ)
  {
    hide MovedOn, TryAssign, AllBytesOk, StreamOk, Settled, Base;
    OpenNextOk(m);
    var k := m.openQ[0];
    TryAssignOrderly(m.(openQ := m.openQ[1..], sendQ := PushFront(m.sendQ, k)), k);
  }

  /** Unless the stream waits for more, scheduling its reset leaves it just the capacity for what is buffered. */
  lemma ImplicitResetReturns(m: Sched, k: nat)
    requires Inv(m) && k < |m.streams| && !IsClosed(m.streams[k]) && k !in m.capQ
    ensures |ImplicitReset(m, k).streams| == |m.streams|
    ensures ImplicitReset(m, k).streams[k].available == Min(m.streams[k].available, m.streams[k].buffered)
  {
    hide Serve, FlowsOk, Kept, StreamOk, BytesOk, Schedule, StreamsOk, AllBytesOk, InTurn;
    var s := m.streams[k];
    ImplicitOk(m, k);
    var s1 := s.(phase := ResetScheduled);
    var m1 := Put(m, k, s1);
    var m2 := m1;
    if s.available > s.buffered {
      var m0 := Put(m1, k, s1.(available := s.buffered));
      assert m0.capQ == m.capQ && m0.streams[k].available == s.buffered;
      m2 := Refill(m0, s.available - s.buffered);
      NotInQueue(m0, k, s.available - s.buffered);
    }
    ScheduleStreams(m2, k);
  }

  lemma ScheduleStreams(m: Sched, k: nat)
    ensures Schedule(m, k).streams == m.streams
  {
  }

  /** A stream that does not wait for capacity gets none. */
  lemma NotInQueue(m: Sched, k: nat, inc: nat)
    requires FlowsOk(m) && NoDup(m.capQ) && k < |m.streams| && k !in m.capQ
    ensures |Refill(m, inc).streams| == |m.streams| && Refill(m, inc).streams[k] == m.streams[k]
  {
    hide Serve, FlowOk, Satisfied;
    var m0 := m.(available := CheckedAdd(m.available, inc));
    ServeInTurn(m0);
    var n: nat :| InTurn(m0, Serve(m0), n);
    assert k !in m.capQ[..n];
  }

  // ----- a turn to send

  /** The stream has a frame that can go out, or its scheduled reset is due. */
  predicate Ready(s: Stream)
  {
    Sendable(s, []) || (s.pending == [] && s.phase.ResetScheduled?)
  }

  /** The loop passes over exactly the streams that are not ready. */
  lemma ReadyServed(m: Sched, k: nat, maxLen: nat)
    requires Inv(m) && k < |m.streams|
    ensures FlowOk(m.streams[k]) && (PassedOver(m.streams[k], maxLen) <==> !Ready(m.streams[k]))
  {
    hide BytesOk, StreamsOk, Base, AllBytesOk, NoneIdle;
    InvAt(m, k);
    if m.streams[k].pending != [] && m.streams[k].pending[0].Data? {
      WindowCheckIdle(m, k, maxLen);
    }
  }

  /** The place of the first stream in the queue that is ready. */
  function FirstReady(m: Sched, q: seq<nat>): (n: nat)
    requires Known(m, q)
    ensures n <= |q|
    ensures forall i :: 0 <= i < n ==> !Ready(m.streams[q[i]])
    ensures n < |q| ==> Ready(m.streams[q[n]])
  {
    if q == [] then 0
    else if Ready(m.streams[q[0]]) then 0
    else
      assert forall i :: 0 <= i < |q| ==> q[i] < |m.streams|;
      var n := FirstReady(m, q[1..]);
      assert forall i :: 0 < i < n + 1 ==> q[i] == q[1..][i - 1];
      n + 1
  }

  predicate StillSends(s: Stream)
  {
    s.pending != [] || s.phase.ResetScheduled?
  }

  /** What going out means for the stream: the frame at the front leaves it, of data as much as frame size and capacity
      admit, and the rest stays with the codec. */
  predicate WentOut(m: Sched, m1: Sched, r: Popped, maxLen: nat)
  {
    match r
    case DataOut(k, piece, endStream) =>
      && k < |m.streams| == |m1.streams| && m.streams[k].pending != [] && m.streams[k].pending[0].Data?
      && var s := m.streams[k];
         var f := s.pending[0];
         && |piece| == Min(Min(|f.payload|, maxLen), s.available) && piece == f.payload[..|piece|]
         && (endStream <==> f.eos && |piece| == |f.payload|)
         && m1.codec == Some(Held(k, f.payload[|piece|..], f.eos))
         && s.requested >= |piece| && s.buffered >= |piece|
         && m1.streams[k] == s.(pending := s.pending[1..], window := s.window - |piece|,
                                available := s.available - |piece|, requested := s.requested - |piece|,
                                buffered := s.buffered - |piece|)
    case FrameOut(k, tag) =>
      && k < |m.streams| == |m1.streams| && m.streams[k].pending != [] && m.streams[k].pending[0] == Other(tag)
      && m1.streams[k] == m.streams[k].(pending := m.streams[k].pending[1..]) && m1.codec == None
    case ResetOut(k) =>
      && k < |m.streams| == |m1.streams| && m.streams[k].pending == [] && m.streams[k].phase.ResetScheduled?
      && m1.streams[k] == m.streams[k].(phase := Reset) && m1.codec == None
    case _ => m1.streams == m.streams && m1.codec == None
  }

  /** The first stream that is ready is served, those in front of it lose their place, and those behind it keep theirs;
      the stream itself goes to the end if it has more to send. Nobody is served only if nobody is ready. */
  predicate TurnTakenBy(m: Sched, m1: Sched, r: Popped, maxLen: nat)
    requires Known(m, m.sendQ)
  {
    var n := FirstReady(m, m.sendQ);
    && WentOut(m, m1, r, maxLen) && m1.capQ == m.capQ && m1.openQ == m.openQ && |m1.streams| == |m.streams|
    && (r.NoFrame? <==> n == |m.sendQ|)
    && (r.NoFrame? ==> m1 == m.(sendQ := []))
    && (r.Overdrawn? ==> r.key == m.sendQ[n] && m1 == m.(sendQ := m.sendQ[n..]))
    && (!r.NoFrame? && !r.Overdrawn? ==>
          && r.key == m.sendQ[n] && r.key < |m1.streams|
          && (forall j :: 0 <= j < |m.streams| && j != r.key ==> m1.streams[j] == m.streams[j])
          && m1.sendQ == m.sendQ[n + 1..] + if StillSends(m1.streams[r.key]) then [r.key] else [])
  }

  lemma SendQueueKnown(m: Sched)
    requires Inv(m)
    ensures Known(m, m.sendQ) && NoDup(m.sendQ)
  {
  }

  lemma {:induction false} TakeTurn(m: Sched, maxLen: nat)
    requires Inv(m) && m.codec == None
    ensures Known(m, m.sendQ)
    ensures TurnTakenBy(m, Pop(m, maxLen).0, Pop(m, maxLen).1, maxLen)
    decreases |m.sendQ|
  {
    hide Inv, Pop, SendPiece, PassedOver, Ready, FlowOk, PieceLen, TurnTakenBy, WentOut;
    SendQueueKnown(m);
    PopStep(m, maxLen);
    if m.sendQ == [] {
      NobodyThere(m, maxLen);
    } else {
      var k := m.sendQ[0];
      ReadyServed(m, k, maxLen);
      if PassedOver(m.streams[k], maxLen) {
        var m0 := m.(sendQ := m.sendQ[1..]);
        TakeTurn(m0, maxLen);
        TurnPasses(m, m0, Pop(m0, maxLen).0, Pop(m0, maxLen).1, maxLen);
      } else {
        HeadServed(m, maxLen);
      }
    }
  }

  lemma NobodyThere(m: Sched, maxLen: nat)
    requires m.sendQ == [] && m.codec == None
    ensures TurnTakenBy(m, m, NoFrame, maxLen)
  {
  }

  lemma TurnPasses(m: Sched, m0: Sched, m1: Sched, r: Popped, maxLen: nat)
    requires m.sendQ != [] && Known(m, m.sendQ) && m0 == m.(sendQ := m.sendQ[1..]) && Known(m0, m0.sendQ)
    requires !Ready(m.streams[m.sendQ[0]]) && TurnTakenBy(m0, m1, r, maxLen)
    ensures TurnTakenBy(m, m1, r, maxLen)
  {
    hide WentOut, Ready;
    SameReady(m, m0, m0.sendQ);
    var n := FirstReady(m0, m0.sendQ);
    assert FirstReady(m, m.sendQ) == n + 1;
    assert m.sendQ[n + 1..] == m0.sendQ[n..];
    if n < |m0.sendQ| {
      assert m.sendQ[n + 2..] == m0.sendQ[n + 1..];
    }
    assert WentOut(m, m1, r, maxLen) by { SameWentOut(m, m0, m1, r, maxLen); }
  }

  lemma SameWentOut(m: Sched, m0: Sched, m1: Sched, r: Popped, maxLen: nat)
    requires m0 == m.(sendQ := m0.sendQ) && WentOut(m0, m1, r, maxLen)
    ensures WentOut(m, m1, r, maxLen)
  {
  }

  lemma {:induction false} SameReady(m: Sched, m0: Sched, q: seq<nat>)
    requires m0.streams == m.streams && Known(m, q) && Known(m0, q)
    ensures FirstReady(m, q) == FirstReady(m0, q)
  {
    hide Ready;
    if q != [] {
      SameReady(m, m0, q[1..]);
    }
  }

  lemma HeadServed(m: Sched, maxLen: nat)
    requires Inv(m) && m.codec == None && m.sendQ != [] && m.sendQ[0] < |m.streams|
    requires Known(m, m.sendQ) && NoDup(m.sendQ) && Ready(m.streams[m.sendQ[0]])
    requires FlowOk(m.streams[m.sendQ[0]]) && !PassedOver(m.streams[m.sendQ[0]], maxLen)
    ensures TurnTakenBy(m, Pop(m, maxLen).0, Pop(m, maxLen).1, maxLen)
  {
    hide Inv, Pop, SendPiece, PassedOver, Ready, FlowOk, PieceLen;
    PopStep(m, maxLen);
    var k := m.sendQ[0];
    var s := m.streams[k];
    PopKeeps(m.sendQ, |m.streams|);
    assert m.sendQ[0..] == m.sendQ && m.sendQ[1..] + [] == m.sendQ[1..];
    if s.pending == [] {
      DueReset(s, maxLen);
    } else if s.pending[0].Data? {
      PieceServed(m, maxLen);
    }
  }

  lemma DueReset(s: Stream, maxLen: nat)
    requires FlowOk(s) && s.pending == [] && !PassedOver(s, maxLen)
    ensures s.phase.ResetScheduled?
  {
  }

  lemma PieceServed(m: Sched, maxLen: nat)
    requires Inv(m) && m.codec == None && m.sendQ != [] && m.sendQ[0] < |m.streams|
    requires Known(m, m.sendQ) && NoDup(m.sendQ) && Ready(m.streams[m.sendQ[0]])
    requires FlowOk(m.streams[m.sendQ[0]]) && !PassedOver(m.streams[m.sendQ[0]], maxLen)
    requires m.streams[m.sendQ[0]].pending != [] && m.streams[m.sendQ[0]].pending[0].Data?
    ensures TurnTakenBy(m, Pop(m, maxLen).0, Pop(m, maxLen).1, maxLen)
  {
    hide Inv, Pop, SendPiece, PassedOver, Ready;
    PopStep(m, maxLen);
    var k := m.sendQ[0];
    SizesAgree(m);
    PieceBuffered(m, k, maxLen);
    PieceEffect(m, k, maxLen);
    PopKeeps(m.sendQ, |m.streams|);
    assert m.sendQ[0..] == m.sendQ && m.sendQ[1..] + [] == m.sendQ[1..];
  }

  // ----- places in a queue

  /** How many are in front of k. */
  function Place(q: seq<nat>, k: nat): (n: nat)
    ensures n <= |q| && (k in q ==> n < |q| && q[n] == k)
    ensures forall i :: 0 <= i < n ==> q[i] != k
  {
    if q == [] || q[0] == k then 0
    else
      var n := Place(q[1..], k);
      assert forall i :: 0 < i < n + 1 ==> q[i] == q[1..][i - 1];
      n + 1
  }

  lemma PlaceIs(q: seq<nat>, k: nat, n: nat)
    requires n < |q| && q[n] == k && forall i :: 0 <= i < n ==> q[i] != k
    ensures k in q && Place(q, k) == n
  {
  }

  /** Whoever comes behind, or goes in front, leaves k where it is among the others. */
  lemma PlaceMoves(q: seq<nat>, q1: seq<nat>, k: nat, n: nat)
    requires k in q && n <= Place(q, k) && q[n..] <= q1
    ensures k in q1 && Place(q1, k) == Place(q, k) - n
  {
    var i := Place(q, k);
    assert forall j :: 0 <= j < i - n ==> q1[j] == q[n..][j] == q[n + j];
    assert q1[i - n] == q[n..][i - n] == q[i];
    PlaceIs(q1, k, i - n);
  }

  lemma PlaceBehind(q: seq<nat>, x: nat, k: nat)
    requires k in q
    ensures k in [x] + q && Place([x] + q, k) <= Place(q, k) + 1
  {
    var q1 := [x] + q;
    var i := Place(q, k);
    assert q1[i + 1] == q[i] == k;
  }
}
