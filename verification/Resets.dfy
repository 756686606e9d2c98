/**
 Resetting streams (proto/streams/send.rs, `clear_queue` and `reclaim_*` in prioritize.rs): queued frames are dropped,
 and the capacity of the stream goes back to the connection.
 */
module Resets {
  import opened Common
  import opened Scheduler
  import opened Sending

  /** `clear_queue`: a frame the codec still holds will not be taken back. */
  function Clear(m: Sched, k: nat): Sched
    requires k < |m.streams| == |m.hist|
  {
    var s := m.streams[k];
    m.(streams := m.streams[k := s.(pending := [], buffered := 0, requested := 0)],
       hist := m.hist[k := m.hist[k].(cleared := true)],
       inFlight := if m.inFlight == DataFrame(k) then Drop else m.inFlight)
  }

  /** `reclaim_all_capacity` */
  function ReclaimAll(m: Sched, k: nat): Sched
    requires k < |m.streams| && FlowsOk(Put(m, k, m.streams[k].(available := 0)))
  {
    var s := m.streams[k];
    if s.available > 0 then Refill(Put(m, k, s.(available := 0)), s.available) else m
  }

  /** The stream in its new phase, its queue cleared, a RST_STREAM frame queued if there is one to send. */
  function Cleared(m: Sched, k: nat, p: Phase, rst: Option<nat>): Sched
    requires k < |m.streams| == |m.hist|
  {
    var m1 := Clear(Put(m, k, m.streams[k].(phase := p)), k);
    if rst.Some? then QueueFrame(m1, k, Other(rst.value)) else m1
  }

  /** Clearing a stream and reclaiming its capacity. */
  function Abort(m: Sched, k: nat, p: Phase, rst: Option<nat>): Sched
    requires Inv(m) && k < |m.streams| && IsClosed(m.streams[k].(phase := p))
  {
    AbortOk(m, k, p, rst);
    ReclaimAll(Cleared(m, k, p, rst), k)
  }

  /** The state after the queue was cleared, the capacity of the stream already taken away. */
  function Emptied(m: Sched, k: nat, p: Phase, rst: Option<nat>): Sched
    requires k < |m.streams| == |m.hist|
  {
    var m1 := Cleared(m, k, p, rst);
    Put(m1, k, m1.streams[k].(available := 0))
  }

  lemma AbortOk(m: Sched, k: nat, p: Phase, rst: Option<nat>)
    requires Inv(m) && k < |m.streams| && IsClosed(m.streams[k].(phase := p))
    ensures var m1 := Emptied(m, k, p, rst);
            && Base(m1) && StreamsOk(m1) && AllBytesOk(m1) && NoneIdle(m1) && FlowsOk(m1)
            && Total(m1.streams) == Total(m.streams) - m.streams[k].available
  {
    hide Total, StreamOk, BytesOk, FlowsOk, Base, Emptied, Cleared, IsClosed, Push;
    SizesAgree(m);
    var m1 := Emptied(m, k, p, rst);
    InvAt(m, k);
    EmptiedEffect(m, k, p, rst);
    EmptiedBase(m, m1, k);
    TotalUpdate(m.streams, k, m1.streams[k]);
    OpenNotQueued(ViewOf(m, k));
    EmptiedSettles(ViewOf(m, k), p, rst, k in m1.sendQ);
    EmptiedBytes(m.streams[k], m.hist[k], Rest(m, k), RestEos(m, k), p, rst);
    forall j | 0 <= j < |m.streams|
      ensures StreamOk(ViewOf(m1, j)) && BytesOk(m1.streams[j], m1.hist[j], Rest(m1, j), RestEos(m1, j))
    {
      if j != k {
        assert StreamOk(ViewOf(m, j)) && ViewOf(m1, j) == ViewOf(m, j);
        assert BytesOk(m.streams[j], m.hist[j], Rest(m, j), RestEos(m, j));
      } else {
        assert ViewOf(m1, k) == ViewOf(m, k).(s := m1.streams[k], rest := [], send := k in m1.sendQ);
      }
    }
    OkFlows(m1);
  }

  function Wiped(s: Stream, p: Phase, rst: Option<nat>): Stream
  {
    s.(phase := p, pending := if rst.Some? then [Other(rst.value)] else [], buffered := 0, requested := 0,
        available := 0)
  }

  lemma EmptiedEffect(m: Sched, k: nat, p: Phase, rst: Option<nat>)
    requires k < |m.streams| == |m.hist|
    ensures var m1 := Emptied(m, k, p, rst);
            && m1 == m.(streams := m.streams[k := Wiped(m.streams[k], p, rst)],
                        hist := m.hist[k := m.hist[k].(cleared := true)],
                        inFlight := if m.inFlight == DataFrame(k) then Drop else m.inFlight,
                        sendQ := m1.sendQ)
            && (m1.sendQ == m.sendQ || m1.sendQ == Push(m.sendQ, k))
            && (rst.Some? ==> k in m1.sendQ || k in m1.openQ)
            && (rst.None? || k in m.openQ ==> m1.sendQ == m.sendQ)
  {
    var m1 := Emptied(m, k, p, rst);
    assert rst.Some? ==> [] + [Other(rst.value)] == [Other(rst.value)];
    assert m1.streams == m.streams[k := Wiped(m.streams[k], p, rst)];
  }

  lemma EmptiedBase(m: Sched, m1: Sched, k: nat)
    requires Base(m) && k < |m.streams| == |m1.streams| == |m1.hist|
    requires m1 == m.(streams := m1.streams, hist := m1.hist, inFlight := m1.inFlight, sendQ := m1.sendQ)
    requires m1.inFlight == if m.inFlight == DataFrame(k) then Drop else m.inFlight
    requires m1.sendQ == m.sendQ || m1.sendQ == Push(m.sendQ, k)
    ensures Base(m1) && forall j :: 0 <= j < |m.streams| && j != k ==> (j in m1.sendQ <==> j in m.sendQ)
  {
    PushKeeps(m.sendQ, k, |m.streams|);
  }

  lemma EmptiedSettles(v: View, p: Phase, rst: Option<nat>, send: bool)
    requires StreamOk(v) && IsClosed(v.s.(phase := p)) && (rst.Some? ==> send || v.open) && (v.open ==> !send)
    ensures StreamOk(v.(s := Wiped(v.s, p, rst), rest := [], send := send))
  {
    if rst.Some? {
      PayloadsHead([Other(rst.value)]);
    }
  }

  lemma EmptiedBytes(s: Stream, h: History, rest: Bytes, restEos: bool, p: Phase, rst: Option<nat>)
    requires BytesOk(s, h, rest, restEos) && IsClosed(s.(phase := p))
    ensures BytesOk(Wiped(s, p, rst), h.(cleared := true), [], false)
  {
    if rst.Some? {
      PayloadsHead([Other(rst.value)]);
    }
  }

  /** Nothing of the stream stays queued, all its capacity goes back, and what it had written stays a beginning of what
      it was given. */
  lemma AbortKeeps(m: Sched, k: nat, p: Phase, rst: Option<nat>)
    requires Inv(m) && k < |m.streams| && IsClosed(m.streams[k].(phase := p))
    ensures var m1 := Abort(m, k, p, rst);
            && Inv(m1) && Balanced(m, m1) && |m1.streams| == |m.streams|
            && m1.hist == m.hist[k := m.hist[k].(cleared := true)]
            && m1.streams[k] == Wiped(m.streams[k], p, rst)
            && Rest(m1, k) == []
  {
    hide Total, StreamsOk, BytesOk, FlowsOk, Known, NoDup, FlightOk, Refill, StreamOk, Emptied, AllBytesOk;
    SizesAgree(m);
    AbortOk(m, k, p, rst);
    EmptiedEffect(m, k, p, rst);
    InvAt(m, k);
    CapacityBounds(ViewOf(m, k));
    ReclaimEffect(m, k, p, rst);
    ReclaimedKeeps(m, Emptied(m, k, p, rst), k, m.streams[k].available);
  }

  lemma ReclaimEffect(m: Sched, k: nat, p: Phase, rst: Option<nat>)
    requires Inv(m) && k < |m.streams| && IsClosed(m.streams[k].(phase := p)) && 0 <= m.streams[k].available
    ensures var a := m.streams[k].available;
            && FlowsOk(Emptied(m, k, p, rst))
            && Abort(m, k, p, rst) == if a > 0 then Refill(Emptied(m, k, p, rst), a) else Emptied(m, k, p, rst)
  {
    hide FlowsOk, Refill, StreamsOk, AllBytesOk, Known, NoDup, FlightOk;
    AbortOk(m, k, p, rst);
    var m1 := Cleared(m, k, p, rst);
    assert m.streams[k].available == 0 ==> m1.streams[k := m1.streams[k].(available := 0)] == m1.streams;
  }

  /** The capacity that stream k had is the connection's again, and none of it goes to stream k. */
  lemma ReclaimedKeeps(m: Sched, m1: Sched, k: nat, a: nat)
    requires Base(m1) && StreamsOk(m1) && AllBytesOk(m1) && NoneIdle(m1) && FlowsOk(m1)
    requires k < |m1.streams| && m1.streams[k].requested == 0 && m1.streams[k].available == 0
    requires m1.available == m.available && m1.window == m.window && m.window <= MAX_WINDOW
    requires Total(m1.streams) == Total(m.streams) - a
    ensures var r := if a > 0 then Refill(m1, a) else m1;
            && Inv(r) && Balanced(m, r) && |r.streams| == |m1.streams|
            && r.hist == m1.hist && r.streams[k] == m1.streams[k] && Rest(r, k) == Rest(m1, k)
  {
    hide Total, StreamsOk, BytesOk, FlowsOk, Known, NoDup, FlightOk, Serve, StreamOk;
    if a > 0 {
      var r := Refill(m1, a);
      RefillKeeps(m1, a);
      OkTotal(m1);
      MovedBytes(m1.(available := CheckedAdd(m1.available, a)), r);
      NothingMore(r, k);
    }
  }

  lemma CapacityBounds(v: View)
    requires StreamOk(v)
    ensures 0 <= v.s.available
  {
  }

  /** A stream that requests nothing gets nothing. */
  lemma NothingMore(m: Sched, k: nat)
    requires StreamsOk(m) && k < |m.streams| && m.streams[k].requested == 0
    ensures m.streams[k].available == 0
  {
    assert StreamOk(ViewOf(m, k));
  }

  /** `send_reset` */
  function SendReset(m: Sched, k: nat, tag: nat): Sched
    requires Inv(m) && k < |m.streams|
  {
    var s := m.streams[k];
    if s.phase.ResetScheduled? || s.phase.Reset? then m
    else if IsClosed(s) && s.pending == [] then Put(m, k, s.(phase := Reset))
    else Abort(m, k, Reset, Some(tag))
  }

  lemma SendResetKeeps(m: Sched, k: nat, tag: nat)
    requires Inv(m) && k < |m.streams|
    ensures var m1 := SendReset(m, k, tag);
            && Inv(m1) && Balanced(m, m1) && |m1.streams| == |m.streams| && IsClosed(m1.streams[k])
            && (if m.streams[k].phase.ResetScheduled? then m1 == m else m1.streams[k].phase.Reset?)
            && (!IsClosed(m.streams[k]) ==> m1.streams[k].pending == [Other(tag)] && m1.streams[k].available == 0)
  {
    hide Total, StreamOk, BytesOk, Known, NoDup, FlightOk, Abort;
    var s := m.streams[k];
    if s.phase.ResetScheduled? || s.phase.Reset? {
    } else if IsClosed(s) && s.pending == [] {
      InvAt(m, k);
      ClosingSettles(ViewOf(m, k), Reset);
      PutKept(m, k, s.(phase := Reset));
      EndedBytes(s, Reset, m.hist[k], Rest(m, k), RestEos(m, k));
      Restored(m, Put(m, k, s.(phase := Reset)), k);
    } else {
      AbortKeeps(m, k, Reset, Some(tag));
    }
  }

  /** A reset from the peer, or a connection error (`recv_reset` in state.rs, `handle_error`). */
  function Fail(m: Sched, k: nat, byPeer: bool): Sched
    requires Inv(m) && k < |m.streams|
  {
    var s := m.streams[k];
    Abort(m, k, if IsClosed(s) && !(byPeer && k in m.sendQ) then s.phase else Reset, None)
  }

  /** The stream is closed, nothing of it stays queued or held; a stream that was closed already stays in its phase,
      unless the peer resets it while it is queued for sending. */
  lemma FailKeeps(m: Sched, k: nat, byPeer: bool)
    requires Inv(m) && k < |m.streams|
    ensures var (m1, s) := (Fail(m, k, byPeer), m.streams[k]);
            && Inv(m1) && Balanced(m, m1) && |m1.streams| == |m.streams| && IsClosed(m1.streams[k])
            && m1.hist == m.hist[k := m.hist[k].(cleared := true)] && Rest(m1, k) == []
            && m1.streams[k].pending == [] && m1.streams[k].available == m1.streams[k].requested == 0
            && (m1.streams[k].phase == s.phase <==> s.phase.Reset? || (IsClosed(s) && !(byPeer && k in m.sendQ)))
            && (m1.streams[k].phase != s.phase ==> m1.streams[k].phase.Reset?)
  {
    hide Inv, Slack, Abort;
    var s := m.streams[k];
    AbortKeeps(m, k, if IsClosed(s) && !(byPeer && k in m.sendQ) then s.phase else Reset, None);
  }

  /** `schedule_implicit_reset`, with `reclaim_reserved_capacity`: capacity over what is buffered goes back, and the
      reset follows what is queued. */
  function ImplicitReset(m: Sched, k: nat): Sched
    requires Inv(m) && k < |m.streams|
  {
    var s := m.streams[k];
    if IsClosed(s) then m
    else
      ImplicitOk(m, k);
      var m1 := Put(m, k, s.(phase := ResetScheduled));
      var m2 := if s.available > s.buffered
                then Refill(Put(m1, k, s.(phase := ResetScheduled, available := s.buffered)), s.available - s.buffered)
                else m1;
      Schedule(m2, k)
  }

  lemma ImplicitOk(m: Sched, k: nat)
    requires Inv(m) && k < |m.streams| && !IsClosed(m.streams[k])
    ensures var s := m.streams[k];
            var m1 := Put(m, k, s.(phase := ResetScheduled));
            var s1 := s.(phase := ResetScheduled, available := Min(s.available, s.buffered));
            && Kept(m, m1, k) && StreamOk(ViewOf(m1, k).(s := s1)) && FlowsOk(Put(m1, k, s1))
  {
    hide Total, StreamOk, BytesOk, Known, NoDup, FlightOk, FlowsOk;
    InvAt(m, k);
    var s := m.streams[k];
    var m1 := Put(m, k, s.(phase := ResetScheduled));
    var s1 := s.(phase := ResetScheduled, available := Min(s.available, s.buffered));
    ScheduledSettles(ViewOf(m, k));
    PutKept(m, k, s.(phase := ResetScheduled));
    PutKeeps(m1, k, s1);
    OkFlows(Put(m1, k, s1));
  }

  lemma ScheduledSettles(v: View)
    requires StreamOk(v) && !IsClosed(v.s)
    ensures StreamOk(v.(s := v.s.(phase := ResetScheduled)))
    ensures StreamOk(v.(s := v.s.(phase := ResetScheduled, available := Min(v.s.available, v.s.buffered))))
  {
  }

  lemma ImplicitResetKeeps(m: Sched, k: nat)
    requires Inv(m) && k < |m.streams|
    ensures var m1 := ImplicitReset(m, k);
            && Inv(m1) && Balanced(m, m1) && m1.hist == m.hist && |m1.streams| == |m.streams|
            && m1.streams[k].pending == m.streams[k].pending && m1.streams[k].buffered == m.streams[k].buffered
            && m1.streams[k].requested == m.streams[k].requested
            && (!IsClosed(m.streams[k]) ==>
                  m1.streams[k].phase.ResetScheduled? && (k in m1.sendQ || k in m1.openQ))
  {
    hide Total, StreamOk, BytesOk, Known, NoDup, FlightOk, FlowsOk, Refill, Slack, Schedule;
    var s := m.streams[k];
    if !IsClosed(s) {
      InvAt(m, k);
      ImplicitOk(m, k);
      var s1 := s.(phase := ResetScheduled);
      var m1 := Put(m, k, s1);
      var m2 := m1;
      if s.available > s.buffered {
        RefillKept(m1, k, s1.(available := s.buffered), s.available - s.buffered);
        m2 := Refill(Put(m1, k, s1.(available := s.buffered)), s.available - s.buffered);
        KeptTwice(m, m1, m2, k);
      }
      var m3 := Schedule(m2, k);
      ScheduledThere(m2, k);
      ScheduleKept(m2, k);
      KeptTwice(m, m2, m3, k);
      EndedBytes(s, ResetScheduled, m.hist[k], Rest(m, k), RestEos(m, k));
      BytesIgnoreCapacity(s1, m3.streams[k].available, s.requested, m.hist[k], Rest(m, k), RestEos(m, k));
      Restored(m, m3, k);
    }
  }

  lemma ScheduledThere(m: Sched, k: nat)
    ensures k in Schedule(m, k).sendQ || k in Schedule(m, k).openQ
  {
  }

  lemma ScheduleKept(m: Sched, k: nat)
    requires Base(m) && StreamsOk(m) && NoneIdle(m) && k < |m.streams| && IsClosed(m.streams[k])
    ensures Kept(m, Schedule(m, k), k) && Schedule(m, k).streams == m.streams && Schedule(m, k).hist == m.hist
  {
    hide Total, StreamOk, Known, NoDup, FlightOk;
    var m1 := Schedule(m, k);
    assert StreamOk(ViewOf(m, k));
    ScheduledView(ViewOf(m, k));
    InPush(m.sendQ, k);
    assert m.streams[k := m.streams[k]] == m.streams && m.hist[k := m.hist[k]] == m.hist;
    assert k in m.sendQ ==> ViewOf(m, k).(send := true) == ViewOf(m, k);
    RequeueKept(m, k, m.streams[k], m.hist[k], m1.sendQ);
  }

  lemma ScheduledView(v: View)
    requires StreamOk(v) && IsClosed(v.s)
    ensures !v.open ==> StreamOk(v.(send := true))
  {
  }

  // ----- removing a stream

  /** `is_released`, once nobody refers to the stream: closed, flushed and in no queue. */
  predicate Releasable(m: Sched, k: nat)
  {
    && k < |m.streams|
    && IsClosed(m.streams[k]) && m.streams[k].pending == [] && m.streams[k].buffered == 0
    && k !in m.sendQ && k !in m.capQ && k !in m.openQ
  }

  /** The stream is removed from the store, and whatever capacity it holds goes with it: the record that stays in its
      place holds and requests nothing, and nothing happens to it any more. */
  function Release(m: Sched, k: nat): Sched
    requires k < |m.streams|
  {
    Put(m, k, m.streams[k].(available := 0, requested := 0))
  }

  /** Removing a stream keeps the invariant; the capacities still add up if and only if it held nothing. */
  lemma ReleaseKeeps(m: Sched, k: nat)
    requires Inv(m) && Releasable(m, k)
    ensures var m1 := Release(m, k);
            && Inv(m1) && m1.hist == m.hist && Slack(m1) == Slack(m) + m.streams[k].available
            && m.streams[k].available >= 0 && (Conserved(m) ==> (Conserved(m1) <==> m.streams[k].available == 0))
  {
    hide Total, StreamOk, BytesOk, Known, NoDup, FlightOk;
    var s := m.streams[k];
    var s1 := s.(available := 0, requested := 0);
    InvAt(m, k);
    ReleasedSettles(ViewOf(m, k));
    PutKeeps(m, k, s1);
    BytesIgnoreCapacity(s, 0, 0, m.hist[k], Rest(m, k), RestEos(m, k));
    LocalBytes(m, Put(m, k, s1), k);
  }

  lemma ReleasedSettles(v: View)
    requires StreamOk(v) && IsClosed(v.s) && v.s.pending == [] && v.s.buffered == 0 && !v.send && !v.open
    ensures v.s.available >= 0 && StreamOk(v.(s := v.s.(available := 0, requested := 0)))
  {
  }
}
