/**
 Handing frames to the codec and taking back what did not fit (`pop_frame`, `reclaim_frame_inner`, `pop_pending_open`
 in proto/streams/prioritize.rs).
 */
module Popping {
  import opened Common
  import opened Scheduler
  import opened Sending

  /** The largest frame a peer can allow. */
  const MAX_FRAME := 0xFF_FFFF

  /** A DATA frame with its END_STREAM flag, another frame, a RST_STREAM that had been scheduled, nothing to send; or
      the assertion in `FlowControl::send_data` that the connection window admits the data fails. */
  datatype Popped =
    | NoFrame
    | DataOut(key: nat, piece: Bytes, endStream: bool)
    | FrameOut(key: nat, tag: nat)
    | ResetOut(key: nat)
    | Overdrawn(key: nat)

  function PieceLen(s: Stream, maxLen: nat): nat
    requires FlowOk(s) && s.pending != [] && s.pending[0].Data?
  {
    Min(Min(|s.pending[0].payload|, maxLen), s.available)
  }

  /** Streams the loop passes over: nothing queued, or no capacity for the data at the front. */
  predicate PassedOver(s: Stream, maxLen: nat)
    requires FlowOk(s)
  {
    if s.pending == [] then !s.phase.ResetScheduled?
    else
      && s.pending[0].Data?
      && ((s.pending[0].payload != [] && s.available == 0) || PieceLen(s, maxLen) > Pos(s.window))
  }

  function Requeue(m: Sched, k: nat): Sched
    requires k < |m.streams|
  {
    if m.streams[k].pending != [] || m.streams[k].phase.ResetScheduled? then m.(sendQ := Push(m.sendQ, k)) else m
  }

  /** The stream's record after a piece went out. */
  function AfterPiece(s: Stream, maxLen: nat): Stream
    requires FlowOk(s) && s.pending != [] && s.pending[0].Data? && PieceLen(s, maxLen) <= s.buffered
  {
    var len := PieceLen(s, maxLen);
    s.(window := s.window - len, available := s.available - len, buffered := s.buffered - len,
       requested := s.requested - len, pending := s.pending[1..])
  }

  /** A piece of the DATA frame at the front goes out; stream and connection account for it. */
  function PieceSent(m: Sched, k: nat, maxLen: nat): Sched
    requires k < |m.streams| == |m.hist| && FlowOk(m.streams[k])
    requires m.streams[k].pending != [] && m.streams[k].pending[0].Data?
    requires PieceLen(m.streams[k], maxLen) <= m.streams[k].buffered
  {
    var s := m.streams[k];
    var f := s.pending[0];
    var len := PieceLen(s, maxLen);
    var h := m.hist[k];
    var h1 := h.(written := h.written + f.payload[..len], finished := h.finished || (f.eos && len == |f.payload|));
    m.(streams := m.streams[k := AfterPiece(s, maxLen)], hist := m.hist[k := h1],
       available := CheckedAdd(m.available, len) - len, window := m.window - len,
       codec := Some(Held(k, f.payload[len..], f.eos)), inFlight := DataFrame(k))
  }

  function SendPiece(m: Sched, k: nat, maxLen: nat): Sched
    requires k < |m.streams| == |m.hist| && FlowOk(m.streams[k])
    requires m.streams[k].pending != [] && m.streams[k].pending[0].Data?
    requires PieceLen(m.streams[k], maxLen) <= m.streams[k].buffered
  {
    Requeue(PieceSent(m, k, maxLen), k)
  }

  /** `pop_frame`, and the note in `poll_complete` of what the codec holds. */
  function Pop(m: Sched, maxLen: nat): (Sched, Popped)
    requires Inv(m) && m.codec == None
    decreases |m.sendQ|
  {
    if m.sendQ == [] then (m, NoFrame)
    else
      var k := m.sendQ[0];
      var m0 := m.(sendQ := m.sendQ[1..]);
      HeadKnown(m);
      var s := m.streams[k];
      if PassedOver(s, maxLen) then
        PassingKeeps(m, maxLen);
        Pop(m0, maxLen)
      else if s.pending == [] then (Put(m0, k, s.(phase := Reset)), ResetOut(k))
      else
        match s.pending[0]
        case Other(tag) => (Requeue(Put(m0, k, s.(pending := s.pending[1..])), k), FrameOut(k, tag))
        case Data(payload, eos) =>
          var len := PieceLen(s, maxLen);
          if len > 0 && len > m.window then (m, Overdrawn(k))
          else
            PieceBuffered(m, k, maxLen);
            (SendPiece(m0, k, maxLen), DataOut(k, payload[..len], eos && len == |payload|))
  }

  lemma HeadKnown(m: Sched)
    requires Inv(m) && m.sendQ != []
    ensures m.sendQ[0] < |m.streams| && FlowOk(m.streams[m.sendQ[0]])
  {
    hide BytesOk;
    InvAt(m, m.sendQ[0]);
  }

  lemma PieceBuffered(m: Sched, k: nat, maxLen: nat)
    requires Inv(m) && k < |m.streams| && FlowOk(m.streams[k])
    requires m.streams[k].pending != [] && m.streams[k].pending[0].Data?
    ensures PieceLen(m.streams[k], maxLen) <= |m.streams[k].pending[0].payload| <= m.streams[k].buffered
  {
    InvAt(m, k);
    PayloadsHead(m.streams[k].pending);
  }

  // ----- taking a stream off the queue

  /** The queue without its head; the stream at the head loses its place. */
  lemma HeadLeaves(m: Sched, m1: Sched)
    requires Inv(m) && m.sendQ != [] && m1 == m.(sendQ := m.sendQ[1..])
    requires StreamOk(ViewOf(m, m.sendQ[0]).(send := false))
    ensures Inv(m1)
  {
    hide StreamOk, BytesOk, FlightOk;
    var k := m.sendQ[0];
    PopKeeps(m.sendQ, |m.streams|);
    assert FlightOk(m1) by { FlightKept(m, m1); }
    assert ViewOf(m1, k) == ViewOf(m, k).(send := false);
    InvAt(m, k);
    Swapped(m, m1, k);
  }

  /** A stream that is passed over needs no place in the queue. */
  lemma PassingKeeps(m: Sched, maxLen: nat)
    requires Inv(m) && m.codec == None && m.sendQ != []
    requires FlowOk(m.streams[m.sendQ[0]]) && PassedOver(m.streams[m.sendQ[0]], maxLen)
    ensures Inv(m.(sendQ := m.sendQ[1..]))
  {
    hide BytesOk, StreamsOk, Base, AllBytesOk, NoneIdle;
    HeadKnown(m);
    InvAt(m, m.sendQ[0]);
    PassedView(ViewOf(m, m.sendQ[0]), maxLen);
    HeadLeaves(m, m.(sendQ := m.sendQ[1..]));
  }

  lemma PassedView(v: View, maxLen: nat)
    requires StreamOk(v) && PassedOver(v.s, maxLen)
    ensures StreamOk(v.(send := false))
  {
  }

  /** The window the peer knows never is below the capacity of the stream, so the check for that never passes a stream
      over. */
  lemma WindowCheckIdle(m: Sched, k: nat, maxLen: nat)
    requires Inv(m) && k < |m.streams| && m.streams[k].pending != [] && m.streams[k].pending[0].Data?
    ensures FlowOk(m.streams[k]) && PieceLen(m.streams[k], maxLen) <= Pos(m.streams[k].window)
  {
    hide BytesOk;
    InvAt(m, k);
  }

  /** One round of the loop of `pop_frame`. */
  lemma PopStep(m: Sched, maxLen: nat)
    requires Inv(m) && m.codec == None
    ensures m.sendQ == [] ==> Pop(m, maxLen) == (m, NoFrame)
    ensures m.sendQ != [] ==>
              var k := m.sendQ[0];
              var m0 := m.(sendQ := m.sendQ[1..]);
              && k < |m.streams| == |m.hist| && FlowOk(m.streams[k])
              && var s := m.streams[k];
                 if PassedOver(s, maxLen) then Inv(m0) && Pop(m, maxLen) == Pop(m0, maxLen)
                 else if s.pending == [] then Pop(m, maxLen) == (Put(m0, k, s.(phase := Reset)), ResetOut(k))
                 else
                   match s.pending[0]
                   case Other(tag) =>
                     Pop(m, maxLen) == (Requeue(Put(m0, k, s.(pending := s.pending[1..])), k), FrameOut(k, tag))
                   case Data(payload, eos) =>
                     var len := PieceLen(s, maxLen);
                     if len > 0 && len > m.window then Pop(m, maxLen) == (m, Overdrawn(k))
                     else
                       var r := DataOut(k, payload[..len], eos && len == |payload|);
                       len <= s.buffered && Pop(m, maxLen) == (SendPiece(m0, k, maxLen), r)
  {
    hide Inv, FlowOk, PassedOver, SendPiece, PieceLen;
    if m.sendQ != [] {
      HeadKnown(m);
      SizesAgree(m);
      if PassedOver(m.streams[m.sendQ[0]], maxLen) {
        PassingKeeps(m, maxLen);
      } else if m.streams[m.sendQ[0]].pending != [] && m.streams[m.sendQ[0]].pending[0].Data? {
        PieceBuffered(m, m.sendQ[0], maxLen);
      }
    }
  }

  // ----- what goes out

  lemma SendPieceKeeps(m: Sched, maxLen: nat)
    requires Inv(m) && m.codec == None && m.sendQ != [] && maxLen <= MAX_FRAME
    requires var s := m.streams[m.sendQ[0]];
             FlowOk(s) && s.pending != [] && s.pending[0].Data? && !PassedOver(s, maxLen)
    requires PieceLen(m.streams[m.sendQ[0]], maxLen) <= m.window
    ensures var k := m.sendQ[0];
            var s := m.streams[k];
            var len := PieceLen(s, maxLen);
            && len <= s.buffered
            && var m1 := SendPiece(m.(sendQ := m.sendQ[1..]), k, maxLen);
               && Inv(m1) && Balanced(m, m1) && |m1.streams| == |m.streams|
               && m1.window == m.window - len
  {
    hide BytesOk, StreamOk, Total, Base, CheckedAdd, SendPiece, PassedOver, Push;
    HeadKnown(m);
    var k := m.sendQ[0];
    var s := m.streams[k];
    SizesAgree(m);
    InvAt(m, k);
    PieceBuffered(m, k, maxLen);
    var m0 := m.(sendQ := m.sendQ[1..]);
    var m1 := SendPiece(m0, k, maxLen);
    PieceEffect(m, k, maxLen);
    PieceBase(m, m1, maxLen);
    TotalUpdate(m.streams, k, m1.streams[k]);
    if Covered(m) {
      BudgetHolds(m, k);
      Fits(m.available, PieceLen(s, maxLen));
    }
    PieceView(ViewOf(m, k), maxLen, m1.streams[k], Rest(m1, k), k in m1.sendQ);
    PieceBytes(s, m.hist[k], RestEos(m, k), maxLen, m1.streams[k], m1.hist[k]);
    forall j | 0 <= j < |m.streams|
      ensures StreamOk(ViewOf(m1, j)) && BytesOk(m1.streams[j], m1.hist[j], Rest(m1, j), RestEos(m1, j))
    {
      if j != k {
        assert StreamOk(ViewOf(m, j)) && ViewOf(m1, j) == ViewOf(m, j);
        assert BytesOk(m.streams[j], m.hist[j], Rest(m, j), RestEos(m, j));
      } else {
        assert ViewOf(m1, k) == ViewOf(m, k).(s := m1.streams[k], rest := Rest(m1, k), send := k in m1.sendQ);
      }
    }
  }

  lemma PieceEffect(m: Sched, k: nat, maxLen: nat)
    requires k < |m.streams| == |m.hist| && FlowOk(m.streams[k]) && m.sendQ != [] && m.sendQ[0] == k
    requires m.streams[k].pending != [] && m.streams[k].pending[0].Data?
    requires PieceLen(m.streams[k], maxLen) <= m.streams[k].buffered
    ensures var s := m.streams[k];
            var f := s.pending[0];
            var len := PieceLen(s, maxLen);
            var h := m.hist[k];
            var m1 := SendPiece(m.(sendQ := m.sendQ[1..]), k, maxLen);
            && m1 == m.(streams := m.streams[k := AfterPiece(s, maxLen)],
                        hist := m.hist[k := h.(written := h.written + f.payload[..len],
                                               finished := h.finished || (f.eos && len == |f.payload|))],
                        available := CheckedAdd(m.available, len) - len, window := m.window - len,
                        codec := Some(Held(k, f.payload[len..], f.eos)), inFlight := DataFrame(k), sendQ := m1.sendQ)
            && m1.sendQ == if |s.pending| > 1 || s.phase.ResetScheduled? then Push(m.sendQ[1..], k) else m.sendQ[1..]
  {
  }

  lemma PieceBase(m: Sched, m1: Sched, maxLen: nat)
    requires Inv(m) && m.codec == None && m.sendQ != [] && |m1.streams| == |m.streams| == |m1.hist|
    requires m1 == m.(streams := m1.streams, hist := m1.hist, available := m1.available, window := m1.window,
                      codec := m1.codec, inFlight := m1.inFlight, sendQ := m1.sendQ)
    requires m1.codec.Some? && m1.codec.value.key == m.sendQ[0] && m1.inFlight == DataFrame(m.sendQ[0])
    requires m1.sendQ == Push(m.sendQ[1..], m.sendQ[0]) || m1.sendQ == m.sendQ[1..]
    requires exists len: nat ::
               && len <= MAX_FRAME && len <= m.window && m1.window == m.window - len
               && m1.available == CheckedAdd(m.available, len) - len
    ensures Base(m1) && NoneIdle(m1)
    ensures m1.sendQ == Push(m.sendQ[1..], m.sendQ[0]) ==> m.sendQ[0] in m1.sendQ
    ensures m1.sendQ == m.sendQ[1..] ==> m.sendQ[0] !in m1.sendQ
    ensures forall j :: 0 <= j < |m.streams| && j != m.sendQ[0] ==> (j in m1.sendQ <==> j in m.sendQ)
  {
    hide StreamOk, BytesOk;
    PopKeeps(m.sendQ, |m.streams|);
    PushKeeps(m.sendQ[1..], m.sendQ[0], |m.streams|);
  }

  /** What a stream holds is within the connection's window. */
  lemma BudgetHolds(m: Sched, k: nat)
    requires Inv(m) && k < |m.streams| && Covered(m)
    ensures m.available + m.streams[k].available <= m.window <= MAX_WINDOW
  {
    hide BytesOk, Total;
    OkFlows(m);
    TotalCovers(m.streams, k);
  }

  lemma Fits(a: int, b: nat)
    requires a + b <= MAX_WINDOW
    ensures CheckedAdd(a, b) == a + b
  {
  }

  lemma PieceView(v: View, maxLen: nat, s1: Stream, rest: Bytes, send: bool)
    requires StreamOk(v) && v.send && v.rest == [] && v.s.pending != [] && v.s.pending[0].Data?
    requires !PassedOver(v.s, maxLen)
    requires PieceLen(v.s, maxLen) <= v.s.buffered && s1 == AfterPiece(v.s, maxLen)
    requires rest == v.s.pending[0].payload[PieceLen(v.s, maxLen)..]
    requires send == (|v.s.pending| > 1 || v.s.phase.ResetScheduled?)
    ensures StreamOk(v.(s := s1, rest := rest, send := send))
  {
    PayloadsHead(v.s.pending);
  }

  lemma PieceBytes(s: Stream, h: History, restEos: bool, maxLen: nat, s1: Stream, h1: History)
    requires BytesOk(s, h, [], restEos) && FlowOk(s) && s.pending != [] && s.pending[0].Data?
    requires PieceLen(s, maxLen) <= s.buffered && s1 == AfterPiece(s, maxLen)
    requires var f := s.pending[0]; var len := PieceLen(s, maxLen);
             h1 == h.(written := h.written + f.payload[..len], finished := h.finished || (f.eos && len == |f.payload|))
    ensures var f := s.pending[0]; BytesOk(s1, h1, f.payload[PieceLen(s, maxLen)..], f.eos)
  {
    hide Payloads, EosLast, NoEos;
    var f := s.pending[0];
    var len := PieceLen(s, maxLen);
    PayloadsHead(s.pending);
    assert !h.cleared && !h.finished;
    PieceOrder(h.written, f.payload, len, Payloads(s1.pending));
    RestOfQueue(s.pending);
    if f.eos {
      NoPayloads(s1.pending);
    }
  }

  lemma PieceOrder(written: Bytes, payload: Bytes, len: nat, tail: Bytes)
    requires len <= |payload|
    ensures written + [] + (payload + tail) == written + payload[..len] + payload[len..] + tail
    ensures len == |payload| ==> written + payload[..len] == written + payload[..len] + payload[len..] + []
    ensures written + payload[..len] <= written + [] + (payload + tail)
  {
    assert payload == payload[..len] + payload[len..];
  }

  lemma RestOfQueue(fs: seq<Frame>)
    requires fs != [] && EosLast(fs)
    ensures EosLast(fs[1..]) && (NoEos(fs) ==> NoEos(fs[1..]) && !(fs[0].Data? && fs[0].eos))
    ensures fs[0].Data? && fs[0].eos ==> NoData(fs[1..])
  {
  }

  lemma OtherOut(m: Sched)
    requires Inv(m) && m.codec == None && m.sendQ != []
    requires var s := m.streams[m.sendQ[0]]; s.pending != [] && s.pending[0].Other?
    ensures var k := m.sendQ[0];
            var s := m.streams[k];
            var m1 := Requeue(Put(m.(sendQ := m.sendQ[1..]), k, s.(pending := s.pending[1..])), k);
            Inv(m1) && Balanced(m, m1) && m1.hist == m.hist
  {
    hide BytesOk, StreamOk, Total, Known, NoDup, FlightOk;
    HeadKnown(m);
    var k := m.sendQ[0];
    var s := m.streams[k];
    var s1 := s.(pending := s.pending[1..]);
    var m1 := Requeue(Put(m.(sendQ := m.sendQ[1..]), k, s1), k);
    InvAt(m, k);
    HeadTurns(m, m1);
    TotalUpdate(m.streams, k, s1);
    OtherView(ViewOf(m, k));
    OtherLeaves(s, m.hist[k], [], RestEos(m, k));
    assert ViewOf(m1, k) == ViewOf(m, k).(s := s1, send := k in m1.sendQ);
    Swapped(m, m1, k);
  }

  /** The head of the queue taken off, and perhaps put back at its end. */
  lemma HeadTurns(m: Sched, m1: Sched)
    requires Base(m) && m.sendQ != [] && m.sendQ[0] < |m.streams| == |m1.streams| && Local(m, m1, m.sendQ[0])
    requires m1 == m.(streams := m1.streams, sendQ := m1.sendQ)
    requires m1.sendQ == m.sendQ[1..] || m1.sendQ == Push(m.sendQ[1..], m.sendQ[0])
    ensures Base(m1)
    ensures m1.sendQ == Push(m.sendQ[1..], m.sendQ[0]) ==> m.sendQ[0] in m1.sendQ
    ensures m1.sendQ == m.sendQ[1..] ==> m.sendQ[0] !in m1.sendQ
    ensures forall j :: 0 <= j < |m.streams| && j != m.sendQ[0] ==> (j in m1.sendQ <==> j in m.sendQ)
  {
    PopKeeps(m.sendQ, |m.streams|);
    PushKeeps(m.sendQ[1..], m.sendQ[0], |m.streams|);
  }

  lemma OtherView(v: View)
    requires StreamOk(v) && v.send && v.rest == [] && v.s.pending != [] && v.s.pending[0].Other?
    ensures StreamOk(v.(s := v.s.(pending := v.s.pending[1..]), send := |v.s.pending| > 1 || v.s.phase.ResetScheduled?))
  {
    PayloadsHead(v.s.pending);
  }

  lemma OtherLeaves(s: Stream, h: History, rest: Bytes, restEos: bool)
    requires BytesOk(s, h, rest, restEos) && s.pending != [] && s.pending[0].Other?
    ensures BytesOk(s.(pending := s.pending[1..]), h, rest, restEos)
  {
    PayloadsHead(s.pending);
    assert [] + Payloads(s.pending[1..]) == Payloads(s.pending[1..]);
    RestOfQueue(s.pending);
  }

  lemma ScheduledResetOut(m: Sched)
    requires Inv(m) && m.codec == None && m.sendQ != []
    requires var s := m.streams[m.sendQ[0]]; s.pending == [] && s.phase.ResetScheduled?
    ensures var k := m.sendQ[0];
            var m1 := Put(m.(sendQ := m.sendQ[1..]), k, m.streams[k].(phase := Reset));
            Inv(m1) && Balanced(m, m1) && m1.hist == m.hist
  {
    hide BytesOk, StreamOk, Total, Known, NoDup, FlightOk;
    HeadKnown(m);
    var k := m.sendQ[0];
    var s1 := m.streams[k].(phase := Reset);
    var m1 := Put(m.(sendQ := m.sendQ[1..]), k, s1);
    InvAt(m, k);
    HeadTurns(m, m1);
    TotalUpdate(m.streams, k, s1);
    ResetView(ViewOf(m, k));
    EndedBytes(m.streams[k], Reset, m.hist[k], [], RestEos(m, k));
    assert ViewOf(m1, k) == ViewOf(m, k).(s := s1, send := false);
    Swapped(m, m1, k);
  }

  lemma ResetView(v: View)
    requires StreamOk(v) && v.send && v.s.pending == [] && v.s.phase.ResetScheduled?
    ensures StreamOk(v.(s := v.s.(phase := Reset), send := false))
  {
  }

  /** What taking a frame did to the bytes: those of the stream it belongs to grow by the piece, and END_STREAM is set
      on the piece that completes them. */
  predicate Accounted(m: Sched, m1: Sched, r: Popped, maxLen: nat)
  {
    && |m1.hist| == |m.hist| == |m.streams|
    && match r
       case DataOut(k, piece, endStream) =>
         && k < |m.hist| && |piece| <= maxLen && |piece| <= m.streams[k].available
         && m1.hist == m.hist[k := m.hist[k].(written := m.hist[k].written + piece,
                                              finished := m.hist[k].finished || endStream)]
         && m1.window == m.window - |piece|
         && (endStream ==> m1.hist[k].written == m1.hist[k].queued)
       case _ => m1.hist == m.hist && m1.window == m.window
  }

  /** Taking a frame keeps the invariant. While the capacities add up to the connection's window, the data always fits
      that window; and when there is nothing to take, no stream could send. */
  lemma {:induction false} PopKeepsAll(m: Sched, maxLen: nat)
    requires Inv(m) && m.codec == None && maxLen <= MAX_FRAME
    ensures var (m1, r) := Pop(m, maxLen);
            && Inv(m1) && Balanced(m, m1) && (Covered(m) ==> !r.Overdrawn?)
            && Accounted(m, m1, r, maxLen)
            && (r.NoFrame? ==>
                  && m1.codec == None
                  && forall k :: 0 <= k < |m1.streams| && k !in m1.openQ ==> !Sendable(m1.streams[k], []))
    decreases |m.sendQ|
  {
    hide BytesOk, StreamOk, Total, Base, Accounted, Sendable, SendPiece, PassedOver;
    if m.sendQ == [] {
      NothingSendable(m);
      NothingAccounted(m, maxLen);
    } else {
      HeadKnown(m);
      var k := m.sendQ[0];
      var m0 := m.(sendQ := m.sendQ[1..]);
      var s := m.streams[k];
      InvAt(m, k);
      if PassedOver(s, maxLen) {
        PassingKeeps(m, maxLen);
        PopKeepsAll(m0, maxLen);
        SameAccount(m, m0, Pop(m0, maxLen).0, Pop(m0, maxLen).1, maxLen);
      } else if s.pending == [] {
        NotPassed(s, maxLen);
        ScheduledResetOut(m);
        NothingAccounted(m, maxLen);
        QuietAccount(m, Pop(m, maxLen).0, Pop(m, maxLen).1, maxLen);
      } else if s.pending[0].Other? {
        OtherOut(m);
        NothingAccounted(m, maxLen);
        QuietAccount(m, Pop(m, maxLen).0, Pop(m, maxLen).1, maxLen);
      } else {
        var len := PieceLen(s, maxLen);
        PieceBuffered(m, k, maxLen);
        if Covered(m) {
          BudgetHolds(m, k);
        }
        SpareSound(m);
        NothingAccounted(m, maxLen);
        if len > m.window {
          QuietAccount(m, Pop(m, maxLen).0, Pop(m, maxLen).1, maxLen);
        } else {
          SendPieceKeeps(m, maxLen);
          PieceAccounted(m, maxLen);
        }
      }
    }
  }

  lemma SpareSound(m: Sched)
    requires Base(m)
    ensures m.available >= 0 && m.window >= 0
  {
  }

  lemma NotPassed(s: Stream, maxLen: nat)
    requires FlowOk(s) && s.pending == [] && !PassedOver(s, maxLen)
    ensures s.phase.ResetScheduled?
  {
  }

  lemma NothingSendable(m: Sched)
    requires Inv(m) && m.codec == None && m.sendQ == []
    ensures forall k :: 0 <= k < |m.streams| && k !in m.openQ ==> !Sendable(m.streams[k], [])
  {
    hide BytesOk, Sendable, Starved;
    forall k | 0 <= k < |m.streams| && k !in m.openQ ensures !Sendable(m.streams[k], []) {
      assert StreamOk(ViewOf(m, k));
    }
  }

  lemma NothingAccounted(m: Sched, maxLen: nat)
    requires Inv(m)
    ensures Accounted(m, m, NoFrame, maxLen)
  {
  }

  lemma QuietAccount(m: Sched, m1: Sched, r: Popped, maxLen: nat)
    requires !r.DataOut? && m1.hist == m.hist && m1.window == m.window && Accounted(m, m, NoFrame, maxLen)
    ensures Accounted(m, m1, r, maxLen)
  {
  }

  lemma SameAccount(m: Sched, m0: Sched, m1: Sched, r: Popped, maxLen: nat)
    requires m0 == m.(sendQ := m0.sendQ) && Accounted(m0, m1, r, maxLen)
    ensures Accounted(m, m1, r, maxLen)
  {
  }

  lemma PieceAccounted(m: Sched, maxLen: nat)
    requires Inv(m) && m.codec == None && m.sendQ != []
    requires var s := m.streams[m.sendQ[0]]; FlowOk(s) && s.pending != [] && s.pending[0].Data?
    requires PieceLen(m.streams[m.sendQ[0]], maxLen) <= m.streams[m.sendQ[0]].buffered
    ensures var k := m.sendQ[0];
            var f := m.streams[k].pending[0];
            var len := PieceLen(m.streams[k], maxLen);
            var r := DataOut(k, f.payload[..len], f.eos && len == |f.payload|);
            Accounted(m, SendPiece(m.(sendQ := m.sendQ[1..]), k, maxLen), r, maxLen)
  {
    hide BytesOk, StreamOk, SendPiece, AfterPiece;
    var k := m.sendQ[0];
    var s := m.streams[k];
    InvAt(m, k);
    PieceEffect(m, k, maxLen);
    var m1 := SendPiece(m.(sendQ := m.sendQ[1..]), k, maxLen);
    var f := s.pending[0];
    var len := PieceLen(s, maxLen);
    if f.eos {
      LastPiece(s, m.hist[k], RestEos(m, k));
    }
    assert f.payload[..|f.payload|] == f.payload;
  }

  lemma LastPiece(s: Stream, h: History, restEos: bool)
    requires BytesOk(s, h, [], restEos) && s.pending != [] && s.pending[0].Data? && s.pending[0].eos
    ensures h.written + s.pending[0].payload == h.queued
  {
    PayloadsHead(s.pending);
    RestOfQueue(s.pending);
    NoPayloads(s.pending[1..]);
    assert h.written + [] + (s.pending[0].payload + []) == h.written + s.pending[0].payload;
  }

  // ----- what comes back from the codec

  /** `reclaim_frame_inner` and `push_back_frame`: what is left of the DATA frame goes to the front of its queue, unless
      the queue was cleared meanwhile. The flag tells whether there was anything left. */
  function Reclaim(m: Sched): (Sched, bool)
    requires FlightOk(m) && m.codec.Some?
  {
    var h := m.codec.value;
    var m0 := m.(inFlight := Nothing, codec := None);
    if m.inFlight == Drop || h.rest == [] then (m0, false)
    else
      var s := m.streams[h.key];
      var m1 := Put(m0, h.key, s.(pending := [Data(h.rest, h.eos)] + s.pending));
      (if s.available > 0 then m1.(sendQ := Push(m1.sendQ, h.key)) else m1, true)
  }

  /** The frame is the one noted as in flight, and taking it back neither loses nor doubles data: what was left of it is
      in front of the queue again, and the flag tells whether that is anything. */
  lemma ReclaimKeeps(m: Sched)
    requires Inv(m) && m.codec.Some?
    ensures var (m1, more) := Reclaim(m);
            && Inv(m1) && Balanced(m, m1) && m1.hist == m.hist && m1.codec == None
            && m.inFlight != Nothing && (m.inFlight.DataFrame? ==> m.inFlight.key == m.codec.value.key)
            && |m1.streams| == |m.streams|
            && var k := m.codec.value.key;
               && Payloads(m1.streams[k].pending) == Rest(m, k) + Payloads(m.streams[k].pending)
               && (more <==> |Payloads(m1.streams[k].pending)| > |Payloads(m.streams[k].pending)|)
               && (more ==> m1.streams[k].pending[0] == Data(Rest(m, k), m.codec.value.eos))
               && (forall j :: 0 <= j < |m.streams| && j != k ==> m1.streams[j] == m.streams[j])
  {
    hide BytesOk, StreamOk, Total, Known, NoDup;
    var (m1, more) := Reclaim(m);
    var k := m.codec.value.key;
    var s := m.streams[k];
    InvAt(m, k);
    PushBase(m, m1, k);
    TotalUpdate(m.streams, k, m1.streams[k]);
    assert more ==> m1.streams == m.streams[k := m1.streams[k]];
    BackView(ViewOf(m, k), RestEos(m, k));
    OpenNotQueued(ViewOf(m, k));
    BackBytes(s, m.hist[k], Rest(m, k), RestEos(m, k));
    BackPayloads(s, Rest(m, k), RestEos(m, k));
    InPush(m.sendQ, k);
    forall j | 0 <= j < |m.streams|
      ensures StreamOk(ViewOf(m1, j)) && BytesOk(m1.streams[j], m1.hist[j], Rest(m1, j), RestEos(m1, j))
    {
      if j != k {
        assert StreamOk(ViewOf(m, j)) && ViewOf(m1, j) == ViewOf(m, j);
        assert BytesOk(m.streams[j], m.hist[j], Rest(m, j), RestEos(m, j));
      } else {
        assert ViewOf(m1, k) == ViewOf(m, k).(s := m1.streams[k], rest := [], send := k in m1.sendQ);
      }
    }
  }

  lemma BackPayloads(s: Stream, rest: Bytes, eos: bool)
    ensures Payloads(Back(s, rest, eos).pending) == rest + Payloads(s.pending)
    ensures [] + Payloads(s.pending) == Payloads(s.pending)
  {
    PayloadsHead([Data(rest, eos)] + s.pending);
    assert ([Data(rest, eos)] + s.pending)[1..] == s.pending;
  }

  lemma PushBase(m: Sched, m1: Sched, k: nat)
    requires Base(m) && k < |m.streams| == |m1.streams|
    requires m1 == m.(streams := m1.streams, inFlight := Nothing, codec := None, sendQ := m1.sendQ)
    requires m1.sendQ == m.sendQ || m1.sendQ == Push(m.sendQ, k)
    ensures Base(m1) && forall j :: 0 <= j < |m.streams| && j != k ==> (j in m1.sendQ <==> j in m.sendQ)
  {
    PushKeeps(m.sendQ, k, |m.streams|);
  }

  function Back(s: Stream, rest: Bytes, eos: bool): Stream
  {
    s.(pending := [Data(rest, eos)] + s.pending)
  }

  lemma BackView(v: View, eos: bool)
    requires StreamOk(v)
    ensures v.rest == [] ==> v.(rest := []) == v
    ensures v.rest != [] ==> StreamOk(v.(s := Back(v.s, v.rest, eos), rest := [], send := v.send || v.s.available > 0))
  {
    PayloadsHead([Data(v.rest, eos)] + v.s.pending);
    assert ([Data(v.rest, eos)] + v.s.pending)[1..] == v.s.pending;
  }

  lemma BackBytes(s: Stream, h: History, rest: Bytes, restEos: bool)
    requires BytesOk(s, h, rest, restEos)
    ensures rest != [] ==> BytesOk(Back(s, rest, restEos), h, [], false)
    ensures rest == [] ==> BytesOk(s, h, [], false)
  {
    var fs := [Data(rest, restEos)] + s.pending;
    PayloadsHead(fs);
    assert fs[1..] == s.pending;
    assert h.written + [] + (rest + Payloads(s.pending)) == h.written + rest + Payloads(s.pending);
    forall i, j | 0 <= i < j < |fs| && fs[i].Data? && fs[i].eos && rest != [] ensures !fs[j].Data? {
      assert fs[j] == s.pending[j - 1];
    }
  }

  /** `pop_pending_open`, when the peer admits one more stream. */
  function OpenNext(m: Sched): Sched
    requires Inv(m) && m.openQ != []
  {
    OpenNextOk(m);
    var k := m.openQ[0];
    TryAssign(m.(openQ := m.openQ[1..], sendQ := PushFront(m.sendQ, k)), k)
  }

  lemma OpenNextOk(m: Sched)
    requires Inv(m) && m.openQ != []
    ensures var k := m.openQ[0];
            var m0 := m.(openQ := m.openQ[1..], sendQ := PushFront(m.sendQ, k));
            && k < |m.streams| && FlowOk(m.streams[k]) && Base(m0) && AllBytesOk(m0) && Settled(ViewOf(m0, k))
            && forall j :: 0 <= j < |m.streams| && j != k ==> StreamOk(ViewOf(m0, j))
  {
    hide BytesOk, StreamOk, Settled;
    var k := m.openQ[0];
    var m0 := m.(openQ := m.openQ[1..], sendQ := PushFront(m.sendQ, k));
    InvAt(m, k);
    PopKeeps(m.openQ, |m.streams|);
    OpenNotQueued(ViewOf(m, k));
    OpenedView(ViewOf(m, k), k in m.capQ);
    assert ViewOf(m0, k) == ViewOf(m, k).(open := false, send := true);
    forall j | 0 <= j < |m.streams| ensures BytesOk(m0.streams[j], m0.hist[j], Rest(m0, j), RestEos(m0, j)) {
      assert BytesOk(m.streams[j], m.hist[j], Rest(m, j), RestEos(m, j));
    }
    forall j | 0 <= j < |m.streams| && j != k ensures StreamOk(ViewOf(m0, j)) {
      assert StreamOk(ViewOf(m, j)) && ViewOf(m0, j) == ViewOf(m, j);
    }
  }

  lemma OpenedView(v: View, cap: bool)
    requires StreamOk(v) && v.open
    ensures FlowOk(v.s) && Settled(v.(open := false, send := true))
  {
  }

  /** The stream that waited longest to be opened is the next to send. */
  lemma OpenNextKeeps(m: Sched)
    requires Inv(m) && m.openQ != []
    ensures var m1 := OpenNext(m);
            && Inv(m1) && Balanced(m, m1) && m1.hist == m.hist && m1.window == m.window
            && m.openQ == [m.openQ[0]] + m1.openQ && m1.sendQ == [m.openQ[0]] + m.sendQ
            && Moved(m.(openQ := m1.openQ), m1)
  {
    hide BytesOk, StreamOk, Settled, Total, Known, NoDup, FlightOk, FlowOk;
    OpenNextOk(m);
    var k := m.openQ[0];
    var m0 := m.(openQ := m.openQ[1..], sendQ := PushFront(m.sendQ, k));
    TryAssignKeeps(m0, k);
    InvAt(m, k);
    OpenNotQueued(ViewOf(m, k));
    MovedBytes(m0, OpenNext(m));
  }
}
