/**
 The operations on the scheduler (proto/streams/prioritize.rs and send.rs), what each does to the stream it is about,
 and that every one of them keeps the invariant of module Scheduler.
 */
module Sending {
  import opened Common
  import opened Scheduler

  lemma KeptTwice(a: Sched, b: Sched, c: Sched, k: nat)
    requires Kept(a, b, k) && Kept(b, c, k)
    ensures Kept(a, c, k)
  {
    hide Base, StreamsOk, Slack;
  }

  /** A step that changed one stream only, and left its bytes in order. */
  lemma Restored(m: Sched, m1: Sched, k: nat)
    requires Inv(m) && k < |m.streams| && Kept(m, m1, k)
    requires BytesOk(m1.streams[k], m1.hist[k], Rest(m1, k), RestEos(m1, k))
    ensures Inv(m1)
  {
    hide Total, StreamsOk, BytesOk, Slack, Known, NoDup, FlightOk;
    LocalBytes(m, m1, k);
  }

  lemma InvAt(m: Sched, k: nat)
    requires Inv(m) && k < |m.streams|
    ensures StreamOk(ViewOf(m, k)) && BytesOk(m.streams[k], m.hist[k], Rest(m, k), RestEos(m, k)) && FlowsOk(m)
  {
    hide StreamOk, BytesOk, FlowsOk;
    OkFlows(m);
  }

  // ----- queueing frames

  /** `schedule_send` */
  function Schedule(m: Sched, k: nat): Sched
  {
    if k in m.openQ then m else m.(sendQ := Push(m.sendQ, k))
  }

  /** A frame at the back of the stream's queue. */
  function Enqueue(m: Sched, k: nat, f: Frame): Sched
    requires k < |m.streams|
  {
    Put(m, k, m.streams[k].(pending := m.streams[k].pending + [f]))
  }

  /** `queue_frame` */
  function QueueFrame(m: Sched, k: nat, f: Frame): Sched
    requires k < |m.streams|
  {
    Schedule(Enqueue(m, k, f), k)
  }

  /** Replacing a stream's record, queueing it for sending or not, when the result is in order. */
  lemma RequeueKept(m: Sched, k: nat, s: Stream, h: History, sendQ: seq<nat>)
    requires Base(m) && StreamsOk(m) && NoneIdle(m) && k < |m.streams| && s.available == m.streams[k].available
    requires sendQ == m.sendQ || sendQ == Push(m.sendQ, k)
    requires StreamOk(ViewOf(m, k).(s := s, send := k in sendQ))
    ensures Kept(m, m.(streams := m.streams[k := s], hist := m.hist[k := h], sendQ := sendQ), k)
  {
    hide Total, StreamOk, FlightOk;
    PushKeeps(m.sendQ, k, |m.streams|);
    var m1 := m.(streams := m.streams[k := s], hist := m.hist[k := h], sendQ := sendQ);
    TotalUpdate(m.streams, k, s);
    assert FlightOk(m) ==> FlightOk(m1) by { FlightKept(m, m1); }
    forall j | 0 <= j < |m.streams| ensures StreamOk(ViewOf(m1, j)) {
      if j != k {
        assert ViewOf(m1, j) == ViewOf(m, j);
      } else {
        assert ViewOf(m1, k) == ViewOf(m, k).(s := s, send := k in sendQ);
      }
    }
  }

  lemma FlightKept(m: Sched, m1: Sched)
    requires m1.inFlight == m.inFlight && m1.codec == m.codec && |m1.streams| == |m.streams|
    ensures FlightOk(m) ==> FlightOk(m1)
  {
  }

  lemma {:induction false} PayloadsPush(fs: seq<Frame>, f: Frame)
    ensures Payloads(fs + [f]) == Payloads(fs) + PayloadOf(f)
  {
    hide PayloadOf;
    if fs == [] {
      assert fs + [f] == [f];
      PayloadsHead([f]);
      assert PayloadOf(f) + [] == [] + PayloadOf(f);
    } else {
      PayloadsHead(fs + [f]);
      PayloadsHead(fs);
      assert (fs + [f])[1..] == fs[1..] + [f];
      PayloadsPush(fs[1..], f);
      Regroup(PayloadOf(fs[0]), Payloads(fs[1..]), PayloadOf(f));
    }
  }

  lemma PayloadsHead(fs: seq<Frame>)
    requires fs != []
    ensures Payloads(fs) == PayloadOf(fs[0]) + Payloads(fs[1..])
    ensures |fs| == 1 ==> Payloads(fs[1..]) == []
  {
  }

  lemma {:induction false} NoPayloads(fs: seq<Frame>)
    requires NoData(fs)
    ensures Payloads(fs) == []
  {
    if fs != [] {
      NoPayloads(fs[1..]);
    }
  }

  /** `queue_frame` with a frame that carries no data. */
  lemma QueueOtherKeeps(m: Sched, k: nat, tag: nat)
    requires Base(m) && StreamsOk(m) && NoneIdle(m) && k < |m.streams|
    requires BytesOk(m.streams[k], m.hist[k], Rest(m, k), RestEos(m, k))
    ensures var m1 := QueueFrame(m, k, Other(tag));
            && Kept(m, m1, k) && m1.hist == m.hist
            && m1.streams[k] == m.streams[k].(pending := m.streams[k].pending + [Other(tag)])
            && BytesOk(m1.streams[k], m1.hist[k], Rest(m1, k), RestEos(m1, k))
  {
    hide Total, StreamOk, BytesOk, FlightOk, Payloads, Known, NoDup;
    var s := m.streams[k];
    var s1 := s.(pending := s.pending + [Other(tag)]);
    var m1 := QueueFrame(m, k, Other(tag));
    assert StreamOk(ViewOf(m, k));
    OtherSettles(ViewOf(m, k), tag);
    InPush(m.sendQ, k);
    RequeueKept(m, k, s1, m.hist[k], m1.sendQ);
    assert m.hist[k := m.hist[k]] == m.hist;
    OtherBytes(s, m.hist[k], Rest(m, k), RestEos(m, k), tag);
  }

  lemma InPush(q: seq<nat>, k: nat)
    ensures k in Push(q, k)
  {
  }

  lemma OtherSettles(v: View, tag: nat)
    requires StreamOk(v)
    ensures var s := v.s.(pending := v.s.pending + [Other(tag)]);
            if v.open then StreamOk(v.(s := s)) else StreamOk(v.(s := s, send := true))
  {
    PayloadsPush(v.s.pending, Other(tag));
  }

  lemma OtherBytes(s: Stream, h: History, rest: Bytes, restEos: bool, tag: nat)
    requires BytesOk(s, h, rest, restEos)
    ensures BytesOk(s.(pending := s.pending + [Other(tag)]), h, rest, restEos)
  {
    PayloadsPush(s.pending, Other(tag));
  }

  // ----- data from the user

  datatype UserError = PayloadTooBig | InactiveStreamId | UnexpectedFrameType

  /** More data is buffered; more capacity is requested if that is not enough. */
  function Account(m: Sched, k: nat, n: nat): Sched
    requires k < |m.streams| && FlowsOk(m)
  {
    var s := m.streams[k].(buffered := m.streams[k].buffered + n);
    if s.requested < s.buffered then TryAssign(Put(m, k, s.(requested := Min(s.buffered, MAX_U32))), k)
    else Put(m, k, s)
  }

  /** END_STREAM: the sending side is closed and excess capacity given back. */
  function Finish(m: Sched, k: nat): Sched
    requires k < |m.streams| && FlowsOk(m)
  {
    var m1 := Put(m, k, m.streams[k].(phase := Ended));
    PhaseFlows(m, k, Ended);
    Reserve(m1, k, 0)
  }

  lemma PhaseFlows(m: Sched, k: nat, p: Phase)
    requires k < |m.streams| && FlowsOk(m)
    ensures FlowsOk(Put(m, k, m.streams[k].(phase := p)))
  {
  }

  /** The frame is queued; the stream is scheduled if it has capacity or nothing buffered. */
  function Append(m: Sched, k: nat, payload: Bytes, eos: bool): Sched
    requires k < |m.streams| == |m.hist|
  {
    var s := m.streams[k];
    var m1 := Enqueue(m, k, Data(payload, eos)).(hist := m.hist[k := m.hist[k].(queued := m.hist[k].queued + payload)]);
    if s.available > 0 || s.buffered == 0 then Schedule(m1, k) else m1
  }

  function Refusal(m: Sched, k: nat, payload: Bytes): Option<UserError>
    requires k < |m.streams|
  {
    if |payload| > MAX_WINDOW then Some(PayloadTooBig)
    else if m.streams[k].phase.Streaming? then None
    else Some(if IsClosed(m.streams[k]) then InactiveStreamId else UnexpectedFrameType)
  }

  /** `send_data` */
  function SendData(m: Sched, k: nat, payload: Bytes, eos: bool): Sched
    requires Inv(m) && k < |m.streams| && Refusal(m, k, payload) == None
  {
    AccountKeeps(m, k, |payload|);
    var m1 := Account(m, k, |payload|);
    if eos then
      FinishKeeps(m1, k);
      Append(Finish(m1, k), k, payload, eos)
    else Append(m1, k, payload, eos)
  }

  lemma AccountKeeps(m: Sched, k: nat, n: nat)
    requires Inv(m) && k < |m.streams| && m.streams[k].phase.Streaming?
    ensures FlowsOk(m)
    ensures var m1 := Account(m, k, n);
            && Kept(m, m1, k) && m1.hist == m.hist && FlowsOk(m1)
            && var s := m.streams[k]; var b := s.buffered + n;
               Became(m1, k, s.(buffered := b, requested := if s.requested < b then Min(b, MAX_U32) else s.requested))
  {
    hide Total, StreamOk, BytesOk, TryAssign, Kept, Settled, FlowOk, Base, FlowsOk;
    InvAt(m, k);
    var v := ViewOf(m, k);
    var s := v.s.(buffered := v.s.buffered + n);
    MoreBuffered(v, n);
    if s.requested < s.buffered {
      AssignKept(m, k, s.(requested := Min(s.buffered, MAX_U32)));
    } else {
      PutKept(m, k, s);
    }
    KeptFlows(m, Account(m, k, n), k);
  }

  lemma KeptFlows(m: Sched, m1: Sched, k: nat)
    requires Kept(m, m1, k)
    ensures FlowsOk(m1)
  {
    hide StreamsOk, Base, Slack, FlowsOk;
    OkFlows(m1);
  }

  lemma MoreBuffered(v: View, n: nat)
    requires StreamOk(v) && v.s.phase.Streaming?
    ensures var s := v.s.(buffered := v.s.buffered + n);
            && StreamOk(v.(s := s))
            && (s.requested < s.buffered ==> Settled(v.(s := s.(requested := Min(s.buffered, MAX_U32)))))
  {
  }

  lemma FinishKeeps(m: Sched, k: nat)
    requires Base(m) && StreamsOk(m) && NoneIdle(m) && k < |m.streams| && m.streams[k].phase.Streaming?
    ensures FlowsOk(m)
    ensures var m1 := Finish(m, k);
            && Kept(m, m1, k) && m1.hist == m.hist
            && var s := m.streams[k]; Became(m1, k, s.(phase := Ended, requested := Min(s.buffered, s.requested)))
  {
    hide Total, StreamOk, Reserve, Base, FlowsOk, Slack;
    OkFlows(m);
    assert StreamOk(ViewOf(m, k));
    var s := m.streams[k].(phase := Ended);
    ClosingSettles(ViewOf(m, k), Ended);
    PutKept(m, k, s);
    var m0 := Put(m, k, s);
    ReserveKeeps(m0, k, 0);
    KeptTwice(m, m0, Reserve(m0, k, 0), k);
  }

  lemma ClosingSettles(v: View, p: Phase)
    requires StreamOk(v) && (v.s.phase.Streaming? || v.s.phase.Ended?) && !p.Idle? && !p.Streaming?
    requires p.Ended? || v.s.phase.Streaming? || IsClosed(v.s.(phase := p))
    ensures StreamOk(v.(s := v.s.(phase := p)))
  {
  }

  /** What was given to send grows by the payload, and nothing else changes for the stream but its request and its
      capacity. */
  lemma SendDataKeeps(m: Sched, k: nat, payload: Bytes, eos: bool)
    requires Inv(m) && k < |m.streams| && Refusal(m, k, payload) == None
    ensures var m1 := SendData(m, k, payload, eos);
            && Inv(m1) && Balanced(m, m1)
            && |m1.streams| == |m.streams| && m1.window == m.window
            && m1.hist == m.hist[k := m.hist[k].(queued := m.hist[k].queued + payload)]
            && m1.streams[k].pending == m.streams[k].pending + [Data(payload, eos)]
            && m1.streams[k].phase == (if eos then Ended else Streaming)
  {
    hide Total, StreamOk, BytesOk, Base, Reserve, FlowsOk, Account, Finish, Append, Slack;
    AccountKeeps(m, k, |payload|);
    var m1 := Account(m, k, |payload|);
    var m2 := m1;
    if eos {
      FinishKeeps(m1, k);
      m2 := Finish(m1, k);
      KeptTwice(m, m1, m2, k);
    }
    InvAt(m, k);
    AppendKeeps(m, m2, k, payload, eos);
  }

  lemma AppendKeeps(m: Sched, m2: Sched, k: nat, payload: Bytes, eos: bool)
    requires Inv(m) && k < |m.streams| && m.streams[k].phase.Streaming?
    requires Kept(m, m2, k) && m2.hist == m.hist && m2.window == m.window
    requires m2.streams[k].pending == m.streams[k].pending && m2.streams[k].phase == (if eos then Ended else Streaming)
    requires m2.streams[k].buffered == m.streams[k].buffered + |payload|
    ensures var m1 := Append(m2, k, payload, eos);
            && Inv(m1) && Balanced(m, m1) && m1.window == m.window && |m1.streams| == |m.streams|
            && m1.hist == m.hist[k := m.hist[k].(queued := m.hist[k].queued + payload)]
            && m1.streams[k].pending == m.streams[k].pending + [Data(payload, eos)]
            && m1.streams[k].phase == m2.streams[k].phase
  {
    hide Total, StreamOk, BytesOk, Slack, FlightOk, Known, NoDup, Payloads;
    InvAt(m, k);
    var m1 := Append(m2, k, payload, eos);
    var s := m2.streams[k];
    var s1 := s.(pending := s.pending + [Data(payload, eos)]);
    var h1 := m2.hist[k].(queued := m2.hist[k].queued + payload);
    assert StreamOk(ViewOf(m2, k));
    InPush(m2.sendQ, k);
    assert Rest(m2, k) == Rest(m, k) && RestEos(m2, k) == RestEos(m, k);
    AppendSettles(ViewOf(m2, k), m.streams[k], m.hist[k], RestEos(m, k), payload, eos, k in m1.sendQ);
    RequeueKept(m2, k, s1, h1, m1.sendQ);
    assert m1 == m2.(streams := m2.streams[k := s1], hist := m2.hist[k := h1], sendQ := m1.sendQ);
    KeptTwice(m, m2, m1, k);
    AppendBytes(m.streams[k], s1, m.hist[k], Rest(m, k), RestEos(m, k), payload, eos);
    Restored(m, m1, k);
  }

  lemma AppendSettles(v: View, s0: Stream, h: History, restEos: bool, payload: Bytes, eos: bool, send: bool)
    requires StreamOk(v) && BytesOk(s0, h, v.rest, restEos)
    requires v.s.pending == s0.pending && v.s.buffered == s0.buffered + |payload|
    requires send == (v.send || (!v.open && (v.s.available > 0 || v.s.buffered == 0)))
    ensures StreamOk(v.(s := v.s.(pending := v.s.pending + [Data(payload, eos)]), send := send))
  {
    PayloadsPush(v.s.pending, Data(payload, eos));
    assert s0.buffered == 0 ==> v.rest == [];
    if v.s.pending == [] {
      assert Payloads(v.s.pending) == [];
    }
  }

  lemma AppendBytes(s0: Stream, s1: Stream, h: History, rest: Bytes, restEos: bool, payload: Bytes, eos: bool)
    requires BytesOk(s0, h, rest, restEos) && s0.phase.Streaming? && s1.phase == (if eos then Ended else Streaming)
    requires s1.pending == s0.pending + [Data(payload, eos)] && s1.buffered == s0.buffered + |payload|
    ensures BytesOk(s1, h.(queued := h.queued + payload), rest, restEos)
  {
    PayloadsPush(s0.pending, Data(payload, eos));
    assert h.written + rest + (Payloads(s0.pending) + payload) == (h.written + rest + Payloads(s0.pending)) + payload;
  }

  // ----- opening and closing

  /** A stream's record and queues are replaced; every other stream is as before. */
  lemma Swapped(m: Sched, m1: Sched, k: nat)
    requires Inv(m) && k < |m.streams| && Base(m1) && NoneIdle(m1) && Local(m, m1, k)
    requires forall j :: 0 <= j < |m.streams| && j != k ==> ViewOf(m1, j) == ViewOf(m, j)
    requires StreamOk(ViewOf(m1, k)) && BytesOk(m1.streams[k], m1.hist[k], Rest(m1, k), RestEos(m1, k))
    ensures Inv(m1)
  {
    hide StreamOk, BytesOk, Known, NoDup, FlightOk;
    LocalBytes(m, m1, k);
    forall j | 0 <= j < |m.streams| ensures StreamOk(ViewOf(m1, j)) {
      if j != k {
        assert StreamOk(ViewOf(m, j));
      }
    }
  }

  /** A new stream with the peer's initial window (`Stream::new`). */
  function NewStream(m: Sched, window: nat): Sched
  {
    m.(streams := m.streams + [Stream(window, 0, 0, 0, Idle, false, [])],
       hist := m.hist + [History([], [], false, false)])
  }

  lemma NewStreamKeeps(m: Sched, window: nat)
    requires Inv(m) && window <= MAX_WINDOW
    ensures var m1 := NewStream(m, window);
            && Inv(m1) && Balanced(m, m1) && m.streams <= m1.streams && |m1.streams| == |m.streams| + 1
            && var s := m1.streams[|m.streams|];
               s.window == window && s.phase.Idle? && s.pending == [] && s.available == s.requested == s.buffered == 0
  {
    hide StreamOk, BytesOk, NoDup, Total;
    var m1 := NewStream(m, window);
    var n := |m.streams|;
    forall j | 0 <= j < |m1.streams|
      ensures StreamOk(ViewOf(m1, j)) && BytesOk(m1.streams[j], m1.hist[j], Rest(m1, j), RestEos(m1, j))
    {
      if j < n {
        assert StreamOk(ViewOf(m, j)) && ViewOf(m1, j) == ViewOf(m, j);
        assert BytesOk(m.streams[j], m.hist[j], Rest(m, j), RestEos(m, j));
      } else {
        FreshOk(window);
        assert ViewOf(m1, j) == View(Stream(window, 0, 0, 0, Idle, false, []), [], false, false, false);
        assert m1.hist[j] == History([], [], false, false) && !RestEos(m1, j);
      }
    }
    TotalPush(m.streams, m1.streams[n]);
  }

  lemma FreshOk(window: nat)
    requires window <= MAX_WINDOW
    ensures StreamOk(View(Stream(window, 0, 0, 0, Idle, false, []), [], false, false, false))
    ensures BytesOk(Stream(window, 0, 0, 0, Idle, false, []), History([], [], false, false), [], false)
  {
  }

  lemma {:induction false} TotalPush(ss: seq<Stream>, s: Stream)
    ensures Total(ss + [s]) == Total(ss) + s.available
  {
    if ss == [] {
      assert ss + [s] == [s] && [s][1..] == [];
    } else {
      assert (ss + [s])[1..] == ss[1..] + [s];
      TotalPush(ss[1..], s);
    }
  }

  /** `send_headers`; a stream this end initiates waits until the peer admits one more. */
  function SendHeaders(m: Sched, k: nat, eos: bool, localInit: bool, tag: nat): Sched
    requires k < |m.streams|
  {
    var s := m.streams[k];
    var m1 := Put(m, k, s.(phase := if eos then Ended else Streaming));
    QueueFrame(if localInit then m1.(openQ := Push(m1.openQ, k)) else m1, k, Other(tag))
  }

  /** The headers are queued; END_STREAM on them ends the stream; and a stream this end initiates waits to be opened,
      behind those that wait already. */
  lemma SendHeadersKeeps(m: Sched, k: nat, eos: bool, localInit: bool, tag: nat)
    requires Inv(m) && k < |m.streams| && m.streams[k].phase.Idle? && (localInit ==> k !in m.sendQ)
    ensures var m1 := SendHeaders(m, k, eos, localInit, tag);
            && Inv(m1) && Balanced(m, m1) && |m1.streams| == |m.streams|
            && m1.streams[k].pending == m.streams[k].pending + [Other(tag)]
            && m1.streams[k].phase == (if eos then Ended else Streaming)
            && (forall j :: 0 <= j < |m.streams| && j != k ==> m1.streams[j] == m.streams[j])
            && m1.openQ == (if localInit && k !in m.openQ then m.openQ + [k] else m.openQ)
  {
    hide StreamOk, BytesOk, Base, Total, SendHeaders;
    var m1 := SendHeaders(m, k, eos, localInit, tag);
    InvAt(m, k);
    SizesAgree(m);
    HeadersEffect(m, k, eos, localInit, tag);
    var s, s1 := m.streams[k], m1.streams[k];
    PushBoth(m, m1, k);
    TotalUpdate(m.streams, k, s1);
    OpenNotQueued(ViewOf(m, k));
    HeadersSettle(ViewOf(m, k), s1, tag, k in m1.openQ, k in m1.sendQ);
    assert ViewOf(m1, k) == ViewOf(m, k).(s := s1, open := k in m1.openQ, send := k in m1.sendQ);
    HeadersBytes(s, s1, m.hist[k], Rest(m, k), RestEos(m, k), tag);
    Swapped(m, m1, k);
  }

  /** A stream that waits to be opened is not scheduled. */
  lemma OpenNotQueued(v: View)
    requires StreamOk(v)
    ensures v.open ==> !v.send && v.rest == []
  {
  }

  lemma HeadersEffect(m: Sched, k: nat, eos: bool, localInit: bool, tag: nat)
    requires k < |m.streams|
    ensures var m1 := SendHeaders(m, k, eos, localInit, tag);
            var s := m.streams[k];
            var s1 := s.(phase := if eos then Ended else Streaming, pending := s.pending + [Other(tag)]);
            && m1 == m.(streams := m.streams[k := s1], openQ := m1.openQ, sendQ := m1.sendQ)
            && (m1.sendQ == m.sendQ || m1.sendQ == Push(m.sendQ, k))
            && (m1.openQ == m.openQ || m1.openQ == Push(m.openQ, k))
            && (k in m1.openQ || k in m1.sendQ)
            && (localInit && k !in m.sendQ ==> k !in m1.sendQ)
            && m1.openQ == (if localInit && k !in m.openQ then m.openQ + [k] else m.openQ)
            && (!localInit ==> m1.openQ == m.openQ && (k in m.openQ ==> m1.sendQ == m.sendQ))
            && Local(m, m1, k)
  {
  }

  lemma PushBoth(m: Sched, m1: Sched, k: nat)
    requires Base(m) && k < |m.streams| && Local(m, m1, k) && m1.capQ == m.capQ
    requires m1.available == m.available && m1.window == m.window
    requires m1.sendQ == m.sendQ || m1.sendQ == Push(m.sendQ, k)
    requires m1.openQ == m.openQ || m1.openQ == Push(m.openQ, k)
    ensures Base(m1)
    ensures forall j :: 0 <= j < |m.streams| && j != k ==>
              (j in m1.sendQ <==> j in m.sendQ) && (j in m1.openQ <==> j in m.openQ)
  {
    PushKeeps(m.sendQ, k, |m.streams|);
    PushKeeps(m.openQ, k, |m.streams|);
  }

  lemma SizesAgree(m: Sched)
    requires Inv(m)
    ensures |m.hist| == |m.streams|
  {
  }

  lemma HeadersSettle(v: View, s1: Stream, tag: nat, open: bool, send: bool)
    requires StreamOk(v) && v.s.phase.Idle? && (s1.phase.Streaming? || s1.phase.Ended?)
    requires s1 == v.s.(phase := s1.phase, pending := v.s.pending + [Other(tag)])
    requires (open || send) && !(open && send)
    ensures StreamOk(v.(s := s1, open := open, send := send))
  {
    PayloadsPush(v.s.pending, Other(tag));
  }

  lemma HeadersBytes(s: Stream, s1: Stream, h: History, rest: Bytes, restEos: bool, tag: nat)
    requires BytesOk(s, h, rest, restEos) && s.phase.Idle? && (s1.phase.Streaming? || s1.phase.Ended?)
    requires s1 == s.(phase := s1.phase, pending := s.pending + [Other(tag)])
    ensures BytesOk(s1, h, rest, restEos)
  {
    PayloadsPush(s.pending, Other(tag));
  }

  /** `send_trailers` on a stream that is open for sending. */
  function SendTrailers(m: Sched, k: nat, tag: nat): Sched
    requires Inv(m) && k < |m.streams| && m.streams[k].phase.Streaming?
  {
    TrailersQueued(m, k, tag);
    Reserve(QueueFrame(Put(m, k, m.streams[k].(phase := Ended)), k, Other(tag)), k, 0)
  }

  lemma TrailersQueued(m: Sched, k: nat, tag: nat)
    requires Inv(m) && k < |m.streams| && m.streams[k].phase.Streaming?
    ensures var m0 := Put(m, k, m.streams[k].(phase := Ended));
            var m1 := QueueFrame(m0, k, Other(tag));
            && Kept(m, m1, k) && m1.hist == m.hist && FlowsOk(m1) && m1.streams[k].phase.Ended?
            && m1.streams[k].pending == m.streams[k].pending + [Other(tag)]
            && m1.streams[k].buffered == m.streams[k].buffered && m1.streams[k].requested == m.streams[k].requested
            && BytesOk(m1.streams[k], m1.hist[k], Rest(m1, k), RestEos(m1, k))
  {
    hide StreamOk, BytesOk, Known, NoDup, FlightOk, Total, Slack, FlowsOk, QueueFrame;
    InvAt(m, k);
    var s := m.streams[k].(phase := Ended);
    ClosingSettles(ViewOf(m, k), Ended);
    PutKept(m, k, s);
    var m0 := Put(m, k, s);
    EndedBytes(m.streams[k], Ended, m.hist[k], Rest(m, k), RestEos(m, k));
    QueueOtherKeeps(m0, k, tag);
    KeptTwice(m, m0, QueueFrame(m0, k, Other(tag)), k);
    KeptFlows(m0, QueueFrame(m0, k, Other(tag)), k);
  }

  lemma EndedBytes(s: Stream, p: Phase, h: History, rest: Bytes, restEos: bool)
    requires BytesOk(s, h, rest, restEos) && !p.Idle? && !p.Streaming?
    ensures BytesOk(s.(phase := p), h, rest, restEos)
  {
  }

  /** The trailers are queued behind all the data, the stream ends, and capacity over what is buffered goes back. */
  lemma SendTrailersKeeps(m: Sched, k: nat, tag: nat)
    requires Inv(m) && k < |m.streams| && m.streams[k].phase.Streaming?
    ensures var m1 := SendTrailers(m, k, tag);
            && Inv(m1) && Balanced(m, m1) && m1.hist == m.hist && |m1.streams| == |m.streams|
            && m1.streams[k].pending == m.streams[k].pending + [Other(tag)] && m1.streams[k].phase.Ended?
            && m1.streams[k].buffered == m.streams[k].buffered
            && m1.streams[k].requested == Min(m.streams[k].buffered, m.streams[k].requested)
  {
    hide StreamOk, BytesOk, Known, NoDup, FlightOk, Total, Slack, FlowsOk, QueueFrame, Reserve;
    TrailersQueued(m, k, tag);
    var m1 := QueueFrame(Put(m, k, m.streams[k].(phase := Ended)), k, Other(tag));
    ReserveKeeps(m1, k, 0);
    var m2 := Reserve(m1, k, 0);
    KeptTwice(m, m1, m2, k);
    BytesIgnoreCapacity(m1.streams[k], m2.streams[k].available, m2.streams[k].requested, m1.hist[k], Rest(m1, k),
        RestEos(m1, k));
    Restored(m, m2, k);
  }

  /** The peer ended its side. */
  function RecvEnd(m: Sched, k: nat): Sched
    requires k < |m.streams|
  {
    Put(m, k, m.streams[k].(remoteEnded := true))
  }

  lemma RecvEndKeeps(m: Sched, k: nat)
    requires Inv(m) && k < |m.streams|
    ensures Inv(RecvEnd(m, k)) && Balanced(m, RecvEnd(m, k))
    ensures m.streams[k].phase.Ended? ==> IsClosed(RecvEnd(m, k).streams[k])
  {
    hide Total;
    InvAt(m, k);
    PutKept(m, k, m.streams[k].(remoteEnded := true));
    Restored(m, RecvEnd(m, k), k);
  }
}
