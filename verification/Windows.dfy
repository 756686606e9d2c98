/**
 Flow-control windows changing under the scheduler: WINDOW_UPDATE on a stream and on the connection, and a new initial
 window size in SETTINGS (proto/streams/prioritize.rs, send.rs, flow_control.rs).
 */
module Windows {
  import opened Common
  import opened Scheduler
  import opened Sending

  /** `recv_stream_window_update` */
  function StreamUpdate(m: Sched, k: nat, inc: nat): Sched
    requires Inv(m) && k < |m.streams|
  {
    var s := m.streams[k];
    if SendClosed(s) && s.buffered == 0 then m
    else
      WiderSettles(m, k, inc);
      TryAssign(Put(m, k, s.(window := IncWindow(s.window, inc))), k)
  }

  lemma WiderSettles(m: Sched, k: nat, inc: nat)
    requires Inv(m) && k < |m.streams|
    ensures var s := m.streams[k]; Settled(ViewOf(m, k).(s := s.(window := IncWindow(s.window, inc))))
  {
    hide BytesOk, Starved, Payloads;
    assert StreamOk(ViewOf(m, k));
  }

  /** The window after an update: a stream that sends no more ignores it, and it never exceeds the largest window. */
  function Raised(s: Stream, inc: nat): int
  {
    if Skipped(s) then s.window else if s.window + inc <= MAX_WINDOW then s.window + inc else MAX_WINDOW
  }

  lemma StreamUpdateKeeps(m: Sched, k: nat, inc: nat)
    requires Inv(m) && k < |m.streams|
    ensures var m1 := StreamUpdate(m, k, inc);
            && Inv(m1) && Balanced(m, m1) && m1.hist == m.hist && |m1.streams| == |m.streams|
            && forall j :: 0 <= j < |m.streams| ==>
                 m1.streams[j] == m.streams[j].(available := m1.streams[j].available,
                                                window := if j == k then Raised(m.streams[j], inc)
                                                          else m.streams[j].window)
  {
    hide StreamOk, BytesOk, Known, NoDup, FlightOk, Total, Slack, Settled, TryAssign;
    var s := m.streams[k];
    if !(SendClosed(s) && s.buffered == 0) {
      InvAt(m, k);
      WiderSettles(m, k, inc);
      var s1 := s.(window := IncWindow(s.window, inc));
      AssignKept(m, k, s1);
      var m1 := TryAssign(Put(m, k, s1), k);
      WindowBytes(s, m1.streams[k], m.hist[k], Rest(m, k), RestEos(m, k));
      Restored(m, m1, k);
    }
  }

  lemma WindowBytes(s: Stream, s1: Stream, h: History, rest: Bytes, restEos: bool)
    requires BytesOk(s, h, rest, restEos) && s1 == s.(window := s1.window, available := s1.available)
    ensures BytesOk(s1, h, rest, restEos)
  {
  }

  /** `recv_connection_window_update` */
  function ConnUpdate(m: Sched, inc: nat): Sched
    requires Inv(m)
  {
    ConnWiderOk(m, inc);
    Refill(m.(window := IncWindow(m.window, inc)), inc)
  }

  lemma ConnWiderOk(m: Sched, inc: nat)
    requires Inv(m)
    ensures var m0 := m.(window := IncWindow(m.window, inc)); Base(m0) && StreamsOk(m0) && AllBytesOk(m0) && FlowsOk(m0)
  {
    hide StreamOk, BytesOk, NoDup, FlowsOk;
    var m0 := m.(window := IncWindow(m.window, inc));
    forall j | 0 <= j < |m.streams|
      ensures StreamOk(ViewOf(m0, j)) && BytesOk(m0.streams[j], m0.hist[j], Rest(m0, j), RestEos(m0, j))
    {
      assert StreamOk(ViewOf(m, j)) && ViewOf(m0, j) == ViewOf(m, j);
      assert BytesOk(m.streams[j], m.hist[j], Rest(m, j), RestEos(m, j));
    }
    OkFlows(m0);
  }

  /** The window and what is handed out grow by the same amount exactly when the sum does not overflow (or the window
      was full already and the overflowing assignment is dropped too). */
  lemma ConnUpdateKeeps(m: Sched, inc: nat)
    requires Inv(m)
    ensures var m1 := ConnUpdate(m, inc);
            && Inv(m1) && m1.hist == m.hist && m1.window == IncWindow(m.window, inc)
            && Slack(m1) - Slack(m) == (m1.window - m.window) - (CheckedAdd(m.available, inc) - m.available)
            && (Conserved(m) ==> (Conserved(m1) <==> m.window + inc <= MAX_WINDOW ||
                                                     (m.window == MAX_WINDOW && m.available + inc > MAX_WINDOW)))
  {
    hide StreamsOk, BytesOk, Known, NoDup, FlightOk, Total, Serve, FlowsOk;
    var m0 := m.(window := IncWindow(m.window, inc));
    ConnWiderOk(m, inc);
    RefillKeeps(m0, inc);
    var m1 := Refill(m0, inc);
    SparePart(m);
    MovedBytes(m0.(available := CheckedAdd(m.available, inc)), m1);
  }

  lemma SparePart(m: Sched)
    requires Inv(m)
    ensures Total(m.streams) >= 0
  {
    hide BytesOk, Total;
    OkFlows(m);
    OkTotal(m);
  }

  /** A full connection window, one octet of it spare: a WINDOW_UPDATE of one octet leaves the window as it is, and yet
      hands out one octet more. */
  lemma OverflowLosesBalance()
    ensures var s := Stream(MAX_WINDOW, MAX_WINDOW - 1, MAX_WINDOW - 1, 0, Streaming, false, []);
            var m := Sched([s], [History([], [], false, false)], MAX_WINDOW, 1, [], [], [], Nothing, None);
            Inv(m) && Conserved(m) && !Conserved(ConnUpdate(m, 1)) && ConnUpdate(m, 1).available == 2
  {
    var s := Stream(MAX_WINDOW, MAX_WINDOW - 1, MAX_WINDOW - 1, 0, Streaming, false, []);
    var m := Sched([s], [History([], [], false, false)], MAX_WINDOW, 1, [], [], [], Nothing, None);
    assert [s][1..] == [];
    assert Total([s]) == s.available + Total([]);
    assert StreamOk(ViewOf(m, 0));
    ConnUpdateKeeps(m, 1);
  }

  // ----- a new initial window size

  /** One stream's window after the initial size went down: capacity over it is taken back. */
  function Narrowed(s: Stream, dec: nat): Stream
  {
    var w := s.window - dec;
    s.(window := w, available := Min(s.available, Pos(w)))
  }

  predicate Skipped(s: Stream)
  {
    SendClosed(s) && s.buffered == 0
  }

  /** The loop over all streams of `apply_remote_settings`, from stream k on: the streams, and the capacity taken back;
      nothing if a window would leave the range of its type. */
  function NarrowFrom(m: Sched, k: nat, dec: nat, reclaimed: nat): Option<(Sched, nat)>
    requires k <= |m.streams|
    decreases |m.streams| - k
  {
    if k == |m.streams| then Some((m, reclaimed))
    else
      var s := m.streams[k];
      if Skipped(s) then NarrowFrom(m, k + 1, dec, reclaimed)
      else if s.window - dec < MIN_WINDOW then None
      else
        var s1 := Narrowed(s, dec);
        NarrowFrom(Put(m, k, s1), k + 1, dec,
            if s1.available < s.available then reclaimed + (s.available - s1.available) else reclaimed)
  }

  /** A smaller initial window size. */
  function Narrow(m: Sched, dec: nat): Option<Sched>
    requires Inv(m)
  {
    NarrowKeeps(m, 0, dec, 0);
    match NarrowFrom(m, 0, dec, 0)
    case None => None
    case Some((m1, reclaimed)) => Some(Refill(m1, reclaimed))
  }

  lemma {:induction false} NarrowKeeps(m: Sched, k: nat, dec: nat, reclaimed: nat)
    requires Base(m) && StreamsOk(m) && AllBytesOk(m) && NoneIdle(m) && k <= |m.streams|
    ensures match NarrowFrom(m, k, dec, reclaimed)
            case None =>
              exists j :: k <= j < |m.streams| && !Skipped(m.streams[j]) && m.streams[j].window - dec < MIN_WINDOW
            case Some((m1, r)) =>
              && Base(m1) && StreamsOk(m1) && AllBytesOk(m1) && NoneIdle(m1) && FlowsOk(m1)
              && Total(m1.streams) + r == Total(m.streams) + reclaimed
              && m1 == m.(streams := m1.streams) && |m1.streams| == |m.streams|
              && (forall j :: 0 <= j < k ==> m1.streams[j] == m.streams[j])
              && (forall j :: k <= j < |m.streams| ==>
                    m1.streams[j] == if Skipped(m.streams[j]) then m.streams[j] else Narrowed(m.streams[j], dec))
    decreases |m.streams| - k
  {
    hide Total, StreamOk, BytesOk, Known, NoDup, FlightOk, FlowsOk, Narrowed;
    if k == |m.streams| {
      OkFlows(m);
    } else {
      var s := m.streams[k];
      if Skipped(s) {
        NarrowKeeps(m, k + 1, dec, reclaimed);
      } else if s.window - dec >= MIN_WINDOW {
        NarrowOne(m, k, dec);
        var s1 := Narrowed(s, dec);
        var r1 := if s1.available < s.available then reclaimed + (s.available - s1.available) else reclaimed;
        NarrowKeeps(Put(m, k, s1), k + 1, dec, r1);
      }
    }
  }

  lemma NarrowOne(m: Sched, k: nat, dec: nat)
    requires Base(m) && StreamsOk(m) && AllBytesOk(m) && NoneIdle(m)
    requires k < |m.streams| && m.streams[k].window - dec >= MIN_WINDOW
    ensures var s1 := Narrowed(m.streams[k], dec);
            var m1 := Put(m, k, s1);
            && Base(m1) && StreamsOk(m1) && AllBytesOk(m1) && NoneIdle(m1) && s1.available <= m.streams[k].available
            && Total(m1.streams) == Total(m.streams) - m.streams[k].available + s1.available
  {
    hide Total, StreamOk, BytesOk, Known, NoDup, FlightOk;
    var s1 := Narrowed(m.streams[k], dec);
    var m1 := Put(m, k, s1);
    assert StreamOk(ViewOf(m, k));
    assert BytesOk(m.streams[k], m.hist[k], Rest(m, k), RestEos(m, k));
    NarrowSettles(ViewOf(m, k), dec);
    PutKeeps(m, k, s1);
    WindowBytes(m.streams[k], s1, m.hist[k], Rest(m, k), RestEos(m, k));
    LocalBytes(m, m1, k);
  }

  lemma NarrowSettles(v: View, dec: nat)
    requires StreamOk(v) && v.s.window - dec >= MIN_WINDOW
    ensures StreamOk(v.(s := Narrowed(v.s, dec)))
  {
  }

  /** A smaller initial window size leaves no stream with more capacity than its window, and loses none. */
  lemma NarrowKeepsAll(m: Sched, dec: nat)
    requires Inv(m)
    ensures Narrow(m, dec).None? ==>
              exists j :: 0 <= j < |m.streams| && !Skipped(m.streams[j]) && m.streams[j].window - dec < MIN_WINDOW
    ensures Narrow(m, dec).Some? ==>
              var m1 := Narrow(m, dec).value;
              && Inv(m1) && Balanced(m, m1) && m1.hist == m.hist && |m1.streams| == |m.streams|
              && forall j :: 0 <= j < |m.streams| ==>
                   m1.streams[j].window == m.streams[j].window - if Skipped(m.streams[j]) then 0 else dec
  {
    hide Total, StreamsOk, BytesOk, Known, NoDup, FlightOk, Serve, NarrowFrom, FlowsOk;
    NarrowKeeps(m, 0, dec, 0);
    match NarrowFrom(m, 0, dec, 0)
    case None =>
    case Some((m1, r)) =>
      RefillKeeps(m1, r);
      OkTotal(m1);
      var m2 := Refill(m1, r);
      var m1' := m1.(available := CheckedAdd(m1.available, r));
      MovedBytes(m1', m2);
      if Covered(m) {
        assert m1.available + r <= MAX_WINDOW;
      }
  }

  /** A larger initial window size: every stream gets a window update, from stream k on. */
  function Widen(m: Sched, k: nat, inc: nat): Sched
    requires Inv(m) && k <= |m.streams|
    decreases |m.streams| - k
  {
    if k == |m.streams| then m
    else
      StreamUpdateKeeps(m, k, inc);
      Widen(StreamUpdate(m, k, inc), k + 1, inc)
  }

  /** Every stream that still sends has the larger window. */
  lemma {:induction false} WidenKeeps(m: Sched, k: nat, inc: nat)
    requires Inv(m) && k <= |m.streams|
    ensures var m1 := Widen(m, k, inc);
            && Inv(m1) && Balanced(m, m1) && m1.hist == m.hist && |m1.streams| == |m.streams|
            && forall j :: 0 <= j < |m.streams| ==>
                 m1.streams[j] == m.streams[j].(available := m1.streams[j].available,
                                                window := if j >= k then Raised(m.streams[j], inc)
                                                          else m.streams[j].window)
    decreases |m.streams| - k
  {
    hide Inv, Slack, StreamUpdate;
    if k < |m.streams| {
      StreamUpdateKeeps(m, k, inc);
      WidenKeeps(StreamUpdate(m, k, inc), k + 1, inc);
    }
  }
}
