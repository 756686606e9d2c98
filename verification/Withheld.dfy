/**
 Capacity that is lost with a removed stream. A stream that is closed and flushed should hold none; it does when
 capacity reached it after a reset had been scheduled (`schedule_implicit_reset` in proto/streams/send.rs gives reserved
 capacity back but leaves the request as it was), and nothing takes that back when the stream is removed
 (`transition_after` in proto/streams/counts.rs).
 */
module Withheld {
  import opened Common
  import opened Scheduler
  import opened Sending
  import opened Windows
  import opened Resets
  import opened Popping
  import opened Prioritize
  import opened Overdraft

  /** A stream that sends no more data than it has buffered, and still requests more. */
  predicate Greedy(s: Stream)
  {
    SendClosed(s) && s.requested > s.buffered
  }

  /** A greedy stream has a reset scheduled or sent; it holds no more than it has buffered and does not wait for
      more. */
  predicate TidyOne(s: Stream, cap: bool, open: bool)
  {
    Greedy(s) ==>
      && s.available <= s.buffered && !cap && !s.phase.Ended?
      && (s.phase.Reset? ==> !open && s.buffered == 0)
  }

  predicate Tidy(m: Sched)
  {
    forall k :: 0 <= k < |m.streams| ==> TidyOne(m.streams[k], k in m.capQ, k in m.openQ)
  }

  /** A closed stream with nothing left to send holds no capacity. */
  lemma FlushedHoldsNothing(m: Sched, k: nat)
    requires Inv(m) && Tidy(m) && k < |m.streams| && SendClosed(m.streams[k]) && m.streams[k].buffered == 0
    ensures m.streams[k].available == 0
  {
    hide BytesOk, Starved, Sendable, Payloads;
    InvAt(m, k);
    assert TidyOne(m.streams[k], k in m.capQ, k in m.openQ);
  }

  // ----- what keeps streams tidy

  lemma PutTidy(m: Sched, k: nat, s: Stream)
    requires Tidy(m) && k < |m.streams| && TidyOne(s, k in m.capQ, k in m.openQ)
    ensures Tidy(Put(m, k, s))
  {
    hide TidyOne;
  }

  lemma AssignTidy(m: Sched, k: nat)
    requires Tidy(m) && k < |m.streams| && FlowOk(m.streams[k]) && !Greedy(m.streams[k])
    ensures Tidy(TryAssign(m, k))
  {
    var m1 := TryAssign(m, k);
    forall j | 0 <= j < |m1.streams| ensures TidyOne(m1.streams[j], j in m1.capQ, j in m1.openQ) {
      assert TidyOne(m.streams[j], j in m.capQ, j in m.openQ);
    }
  }

  lemma {:induction false} ServeTidy(m: Sched)
    requires Tidy(m) && FlowsOk(m)
    ensures Tidy(Serve(m))
    decreases if m.available > 0 then 1 + |m.capQ| else 0
  {
    hide TryAssign, TidyOne;
    if m.available > 0 && m.capQ != [] {
      var k := m.capQ[0];
      var m1 := m.(capQ := m.capQ[1..]);
      assert k in m.capQ && k < |m.streams|;
      assert !Greedy(m.streams[k]) by { Waiting(m, k); }
      assert Tidy(m1) by { ShorterTidy(m); }
      if WantsTurn(m.streams[k]) {
        TryAssignFlows(m1, k);
        AssignTidy(m1, k);
        ServeTidy(TryAssign(m1, k));
      } else {
        ServeTidy(m1);
      }
    }
  }

  lemma Waiting(m: Sched, k: nat)
    requires Tidy(m) && k < |m.streams| && k in m.capQ
    ensures !Greedy(m.streams[k])
  {
    assert TidyOne(m.streams[k], k in m.capQ, k in m.openQ);
  }

  lemma ShorterTidy(m: Sched)
    requires Tidy(m) && m.capQ != []
    ensures Tidy(m.(capQ := m.capQ[1..]))
  {
    var m1 := m.(capQ := m.capQ[1..]);
    forall j | 0 <= j < |m1.streams| ensures TidyOne(m1.streams[j], j in m1.capQ, j in m1.openQ) {
      assert TidyOne(m.streams[j], j in m.capQ, j in m.openQ);
      assert j in m1.capQ ==> j in m.capQ;
    }
  }

  lemma RefillTidy(m: Sched, inc: nat)
    requires Tidy(m) && FlowsOk(m)
    ensures Tidy(Refill(m, inc))
  {
    hide Serve, TidyOne;
    ServeTidy(m.(available := CheckedAdd(m.available, inc)));
  }

  /** A change of the request of an open stream, or to a smaller one of any stream. */
  lemma ReserveTidy(m: Sched, k: nat, capacity: nat)
    requires Tidy(m) && k < |m.streams| && FlowsOk(m)
    ensures Tidy(Reserve(m, k, capacity))
  {
    hide Refill, TryAssign;
    var s := m.streams[k];
    var cap := capacity + s.buffered;
    assert TidyOne(s, k in m.capQ, k in m.openQ) && FlowOk(s);
    if cap < s.requested {
      var s1 := s.(requested := cap, available := Min(s.available, cap));
      PutTidy(m, k, s1);
      if s.available > cap {
        RefillTidy(Put(m, k, s1), s.available - cap);
      }
    } else if cap > s.requested && !SendClosed(s) {
      var s1 := s.(requested := Min(cap, MAX_U32));
      PutTidy(m, k, s1);
      AssignTidy(Put(m, k, s1), k);
    }
  }

  /** Ending a stream takes its request down to what is buffered. */
  lemma EndTidy(m: Sched, m1: Sched, k: nat)
    requires Tidy(m) && k < |m.streams| && FlowsOk(m1)
    requires m1 == m.(streams := m1.streams, sendQ := m1.sendQ) && |m1.streams| == |m.streams|
    requires m1.streams == m.streams[k := m1.streams[k]] && m1.streams[k].phase.Ended?
    ensures Tidy(Reserve(m1, k, 0))
  {
    hide Refill, TryAssign;
    var s := m1.streams[k];
    assert FlowOk(s);
    if s.buffered < s.requested {
      var s1 := s.(requested := s.buffered, available := Min(s.available, s.buffered));
      PutTidy(m, k, s1);
      assert m1.streams[k := s1] == m.streams[k := s1];
      assert Tidy(Put(m1, k, s1)) by { SameTidy(Put(m, k, s1), Put(m1, k, s1)); }
      if s.available > s.buffered {
        RefillTidy(Put(m1, k, s1), s.available - s.buffered);
      }
    } else {
      PutTidy(m, k, s);
      SameTidy(Put(m, k, s), m1);
    }
  }

  lemma SameTidy(m: Sched, m1: Sched)
    requires Tidy(m) && m1.streams == m.streams && m1.capQ == m.capQ && m1.openQ == m.openQ
    ensures Tidy(m1)
  {
  }

  /** One stream changes, but nothing that makes a stream greedy. */
  lemma AlikeTidy(m: Sched, m1: Sched, k: nat)
    requires Tidy(m) && k < |m.streams| && m1.capQ == m.capQ && m1.openQ == m.openQ
    requires |m1.streams| == |m.streams| && m1.streams == m.streams[k := m1.streams[k]]
    requires TidyOne(m.streams[k], k in m.capQ, k in m.openQ) ==> TidyOne(m1.streams[k], k in m.capQ, k in m.openQ)
    ensures Tidy(m1)
  {
    hide TidyOne;
  }

  lemma AbortTidy(m: Sched, k: nat, p: Phase, rst: Option<nat>)
    requires Inv(m) && Tidy(m) && k < |m.streams| && IsClosed(m.streams[k].(phase := p))
    ensures Tidy(Abort(m, k, p, rst))
  {
    hide Refill, BytesOk, StreamOk, Known, NoDup, Emptied, FlowsOk, Base;
    SizesAgree(m);
    InvAt(m, k);
    CapacityBounds(ViewOf(m, k));
    AbortOk(m, k, p, rst);
    EmptiedEffect(m, k, p, rst);
    var m1 := Emptied(m, k, p, rst);
    PutTidy(m, k, Wiped(m.streams[k], p, rst));
    SameTidy(Put(m, k, Wiped(m.streams[k], p, rst)), m1);
    ReclaimEffect(m, k, p, rst);
    if m.streams[k].available > 0 {
      RefillTidy(m1, m.streams[k].available);
    }
  }

  // ----- careful runs

  /** A stream with a scheduled reset that requests more than it has buffered. */
  predicate Late(s: Stream)
  {
    s.phase.ResetScheduled? && s.requested > s.buffered
  }

  /** No capacity can reach a stream with a scheduled reset beyond what it has buffered: its window is not raised, it is
      not admitted, and it does not wait for capacity when the reset is scheduled. */
  predicate Careful(m: Sched, e: Event)
    requires Inv(m) && Possible(m, e)
  {
    match e
    case StreamWindow(k, _) => Late(m.streams[k]) ==> m.streams[k].buffered == 0
    case RaiseInitial(_) =>
      forall k :: 0 <= k < |m.streams| && Late(m.streams[k]) ==> m.streams[k].buffered == 0
    case Admit =>
      KnownHead(m);
      !Late(m.streams[m.openQ[0]])
    case Abandon(k) => IsClosed(m.streams[k]) || m.streams[k].requested <= m.streams[k].buffered || k !in m.capQ
    case _ => true
  }

  lemma KnownHead(m: Sched)
    requires Inv(m) && m.openQ != []
    ensures m.openQ[0] < |m.streams|
  {
  }

  lemma GiveTidy(m: Sched, k: nat, payload: Bytes, eos: bool)
    requires Inv(m) && Tidy(m) && k < |m.streams| && Refusal(m, k, payload) == None
    ensures Tidy(SendData(m, k, payload, eos))
  {
    hide Inv, Account, Finish, Append, Kept, FlowsOk, TidyOne, Base, StreamsOk, NoneIdle;
    AccountKeeps(m, k, |payload|);
    AccountTidy(m, k, |payload|);
    var m1 := Account(m, k, |payload|);
    SizesAgree(m);
    KeptParts(m, m1, k);
    if eos {
      FinishKeeps(m1, k);
      FinishTidy(m1, k);
      KeptParts(m1, Finish(m1, k), k);
      AppendTidy(Finish(m1, k), k, payload, eos);
    } else {
      AppendTidy(m1, k, payload, eos);
    }
  }

  lemma KeptParts(m: Sched, m1: Sched, k: nat)
    requires Kept(m, m1, k)
    ensures |m1.streams| == |m.streams| && |m1.hist| == |m.hist| && Base(m1) && StreamsOk(m1) && NoneIdle(m1)
  {
    hide StreamOk, BytesOk;
  }

  lemma AccountTidy(m: Sched, k: nat, n: nat)
    requires Inv(m) && Tidy(m) && k < |m.streams| && m.streams[k].phase.Streaming?
    ensures FlowsOk(m) && Tidy(Account(m, k, n))
  {
    hide TryAssign, BytesOk, StreamOk;
    InvAt(m, k);
    AccountKeeps(m, k, n);
    var s := m.streams[k].(buffered := m.streams[k].buffered + n);
    if s.requested < s.buffered {
      PutTidy(m, k, s.(requested := Min(s.buffered, MAX_U32)));
      AssignTidy(Put(m, k, s.(requested := Min(s.buffered, MAX_U32))), k);
    } else {
      PutTidy(m, k, s);
    }
  }

  lemma FinishTidy(m: Sched, k: nat)
    requires Tidy(m) && k < |m.streams| && FlowsOk(m)
    ensures Tidy(Finish(m, k))
  {
    hide Reserve, FlowsOk;
    PhaseFlows(m, k, Ended);
    EndTidy(m, Put(m, k, m.streams[k].(phase := Ended)), k);
  }

  lemma AppendTidy(m: Sched, k: nat, payload: Bytes, eos: bool)
    requires Tidy(m) && k < |m.streams| == |m.hist|
    ensures Tidy(Append(m, k, payload, eos))
  {
    AlikeTidy(m, Append(m, k, payload, eos), k);
  }

  lemma HeadersTidy(m: Sched, k: nat, eos: bool, localInit: bool, tag: nat)
    requires Inv(m) && Tidy(m) && k < |m.streams| && m.streams[k].phase.Idle?
    ensures Tidy(SendHeaders(m, k, eos, localInit, tag))
  {
    hide BytesOk, Starved, Sendable, Payloads;
    InvAt(m, k);
    var m1 := SendHeaders(m, k, eos, localInit, tag);
    forall j | 0 <= j < |m1.streams| ensures TidyOne(m1.streams[j], j in m1.capQ, j in m1.openQ) {
      assert TidyOne(m.streams[j], j in m.capQ, j in m.openQ);
    }
  }

  lemma TrailersTidy(m: Sched, k: nat, tag: nat)
    requires Inv(m) && Tidy(m) && k < |m.streams| && m.streams[k].phase.Streaming?
    ensures Tidy(SendTrailers(m, k, tag))
  {
    hide Reserve, Inv, FlowsOk, Kept, BytesOk;
    TrailersQueued(m, k, tag);
    var m0 := Put(m, k, m.streams[k].(phase := Ended));
    var m1 := QueueFrame(m0, k, Other(tag));
    assert m1.streams == m.streams[k := m1.streams[k]];
    EndTidy(m, m1, k);
  }

  lemma UpdateTidy(m: Sched, k: nat, inc: nat)
    requires Inv(m) && Tidy(m) && k < |m.streams| && (Late(m.streams[k]) ==> m.streams[k].buffered == 0)
    ensures Tidy(StreamUpdate(m, k, inc))
  {
    hide TryAssign, BytesOk, StreamOk, Base;
    var s := m.streams[k];
    assert TidyOne(s, k in m.capQ, k in m.openQ);
    if !(SendClosed(s) && s.buffered == 0) {
      WiderSettles(m, k, inc);
      PutTidy(m, k, s.(window := IncWindow(s.window, inc)));
      AssignTidy(Put(m, k, s.(window := IncWindow(s.window, inc))), k);
    }
  }

  /** From stream k on, no stream with a scheduled reset can use a wider window for more than it has buffered. */
  predicate NoneLate(m: Sched, k: nat)
  {
    forall j :: k <= j < |m.streams| && Late(m.streams[j]) ==> m.streams[j].buffered == 0
  }

  lemma {:induction false} WidenTidy(m: Sched, k: nat, inc: nat)
    requires Inv(m) && Tidy(m) && k <= |m.streams| && NoneLate(m, k)
    ensures Tidy(Widen(m, k, inc))
    decreases |m.streams| - k
  {
    hide Inv, StreamUpdate, Tidy;
    if k < |m.streams| {
      StreamUpdateKeeps(m, k, inc);
      UpdateTidy(m, k, inc);
      OthersStay(m, k, inc);
      WidenTidy(StreamUpdate(m, k, inc), k + 1, inc);
    }
  }

  lemma OthersStay(m: Sched, k: nat, inc: nat)
    requires Inv(m) && k < |m.streams|
    ensures forall j :: 0 <= j < |m.streams| && j != k ==> StreamUpdate(m, k, inc).streams[j] == m.streams[j]
  {
    hide BytesOk, StreamOk, Base;
    var s := m.streams[k];
    if !(SendClosed(s) && s.buffered == 0) {
      WiderSettles(m, k, inc);
    }
  }

  lemma NarrowTidy(m: Sched, dec: nat)
    requires Inv(m) && Tidy(m) && Narrow(m, dec).Some?
    ensures Tidy(Narrow(m, dec).value)
  {
    hide Refill, NarrowFrom, BytesOk, StreamOk, Base, FlowsOk, Total;
    NarrowKeeps(m, 0, dec, 0);
    var (m1, r) := NarrowFrom(m, 0, dec, 0).value;
    forall j | 0 <= j < |m1.streams| ensures TidyOne(m1.streams[j], j in m1.capQ, j in m1.openQ) {
      assert TidyOne(m.streams[j], j in m.capQ, j in m.openQ);
    }
    RefillTidy(m1, r);
  }

  lemma ResetTidy(m: Sched, k: nat, tag: nat)
    requires Inv(m) && Tidy(m) && k < |m.streams|
    ensures Tidy(SendReset(m, k, tag))
  {
    hide Inv, Abort;
    var s := m.streams[k];
    if s.phase.ResetScheduled? || s.phase.Reset? {
    } else if IsClosed(s) && s.pending == [] {
      assert TidyOne(s, k in m.capQ, k in m.openQ);
      PutTidy(m, k, s.(phase := Reset));
    } else {
      AbortTidy(m, k, Reset, Some(tag));
    }
  }

  lemma AbandonTidy(m: Sched, k: nat)
    requires Inv(m) && Tidy(m) && Possible(m, Abandon(k)) && Careful(m, Abandon(k))
    ensures Tidy(ImplicitReset(m, k))
  {
    hide Inv, Refill, Kept, FlowsOk, StreamOk;
    var s := m.streams[k];
    if !IsClosed(s) {
      ImplicitOk(m, k);
      var m1 := Put(m, k, s.(phase := ResetScheduled));
      var s1 := s.(phase := ResetScheduled, available := Min(s.available, s.buffered));
      PutTidy(m, k, s1);
      assert m1.streams[k := s1] == m.streams[k := s1];
      if s.available > s.buffered {
        SameTidy(Put(m, k, s1), Put(m1, k, s1));
        RefillTidy(Put(m1, k, s1), s.available - s.buffered);
        SameTidy(Refill(Put(m1, k, s1), s.available - s.buffered), ImplicitReset(m, k));
      } else {
        SameTidy(Put(m, k, s1), ImplicitReset(m, k));
      }
    }
  }

  lemma AdmitTidy(m: Sched)
    requires Inv(m) && Tidy(m) && m.openQ != [] && m.openQ[0] < |m.streams| && !Late(m.streams[m.openQ[0]])
    ensures Tidy(OpenNext(m))
  {
    hide TryAssign, BytesOk, StreamOk, Settled, Base;
    OpenNextOk(m);
    var k := m.openQ[0];
    var m0 := m.(openQ := m.openQ[1..], sendQ := PushFront(m.sendQ, k));
    forall j | 0 <= j < |m0.streams| ensures TidyOne(m0.streams[j], j in m0.capQ, j in m0.openQ) {
      assert TidyOne(m.streams[j], j in m.capQ, j in m.openQ);
      assert j in m0.openQ ==> j in m.openQ;
    }
    assert TidyOne(m.streams[k], k in m.capQ, k in m.openQ);
    AssignTidy(m0, k);
  }

  lemma {:induction false} TakeTidy(m: Sched, maxLen: nat)
    requires Inv(m) && Tidy(m) && m.codec == None
    ensures Tidy(Pop(m, maxLen).0)
    decreases |m.sendQ|
  {
    hide Inv, TidyOne, PassedOver, SendPiece, StreamOk, BytesOk;
    if m.sendQ != [] {
      HeadKnown(m);
      var k := m.sendQ[0];
      var m0 := m.(sendQ := m.sendQ[1..]);
      var s := m.streams[k];
      InvAt(m, k);
      SameTidy(m, m0);
      if PassedOver(s, maxLen) {
        PassingKeeps(m, maxLen);
        TakeTidy(m0, maxLen);
      } else if s.pending == [] {
        ResetOutTidy(m, maxLen);
      } else if s.pending[0].Other? {
        OtherTidy(m0, k);
      } else {
        PieceBuffered(m, k, maxLen);
        SizesAgree(m);
        PieceTidy(m0, k, maxLen);
      }
    }
  }

  lemma ResetOutTidy(m: Sched, maxLen: nat)
    requires Inv(m) && Tidy(m) && m.codec == None && m.sendQ != [] && m.sendQ[0] < |m.streams|
    requires m.streams[m.sendQ[0]].pending == []
    requires FlowOk(m.streams[m.sendQ[0]]) && !PassedOver(m.streams[m.sendQ[0]], maxLen)
    ensures Tidy(Put(m.(sendQ := m.sendQ[1..]), m.sendQ[0], m.streams[m.sendQ[0]].(phase := Reset)))
  {
    hide Starved, Base, StreamsOk, AllBytesOk;
    var k := m.sendQ[0];
    var s := m.streams[k];
    InvAt(m, k);
    assert m.sendQ[0] in m.sendQ;
    assert TidyOne(s, k in m.capQ, k in m.openQ);
    assert s.buffered == 0;
    AlikeTidy(m, Put(m.(sendQ := m.sendQ[1..]), k, s.(phase := Reset)), k);
  }

  lemma OtherTidy(m: Sched, k: nat)
    requires Tidy(m) && k < |m.streams| && m.streams[k].pending != []
    ensures var s := m.streams[k]; Tidy(Requeue(Put(m, k, s.(pending := s.pending[1..])), k))
  {
    var s := m.streams[k];
    AlikeTidy(m, Requeue(Put(m, k, s.(pending := s.pending[1..])), k), k);
  }

  lemma PieceTidy(m: Sched, k: nat, maxLen: nat)
    requires Tidy(m) && k < |m.streams| == |m.hist| && FlowOk(m.streams[k])
    requires m.streams[k].pending != [] && m.streams[k].pending[0].Data?
    requires PieceLen(m.streams[k], maxLen) <= m.streams[k].buffered
    ensures Tidy(SendPiece(m, k, maxLen))
  {
    AlikeTidy(m, SendPiece(m, k, maxLen), k);
  }

  lemma BackTidy(m: Sched)
    requires Tidy(m) && FlightOk(m) && m.codec.Some?
    ensures Tidy(Reclaim(m).0)
  {
    var (m1, more) := Reclaim(m);
    var k := m.codec.value.key;
    if more {
      AlikeTidy(m, m1, k);
    }
  }

  /** A careful step keeps every stream tidy. */
  lemma StepTidy(m: Sched, e: Event)
    requires Inv(m) && Tidy(m) && Possible(m, e) && Careful(m, e)
    ensures Tidy(Step(m, e))
  {
    hide Inv, Tidy, NewStream, SendHeaders, SendData, SendTrailers, Reserve, StreamUpdate, ConnUpdate, Narrow, Widen,
         SendReset, Abort, ImplicitReset, RecvEnd, OpenNext, Pop, Reclaim, Release, Refusal, FlowsOk;
    match e
    case Create(window) => CreateTidy(m, window);
    case Headers(k, eos, localInit, tag) => HeadersTidy(m, k, eos, localInit, tag);
    case Give(k, payload, eos) => if Refusal(m, k, payload) == None { GiveTidy(m, k, payload, eos); }
    case Trailers(k, tag) => if m.streams[k].phase.Streaming? { TrailersTidy(m, k, tag); }
    case Request(k, capacity) =>
      InvFlows(m);
      ReserveTidy(m, k, capacity);
    case StreamWindow(k, inc) => UpdateTidy(m, k, inc);
    case ConnWindow(inc) => ConnTidy(m, inc);
    case LowerInitial(dec) => NarrowTidy(m, dec);
    case RaiseInitial(inc) => WidenTidy(m, 0, inc);
    case ResetStream(k, tag) => ResetTidy(m, k, tag);
    case Broken(k, byPeer) =>
      var s := m.streams[k];
      AbortTidy(m, k, if IsClosed(s) && !(byPeer && k in m.sendQ) then s.phase else Reset, None);
    case Abandon(k) => AbandonTidy(m, k);
    case PeerEnds(k) => PeerEndsTidy(m, k);
    case Admit =>
      KnownHead(m);
      AdmitTidy(m);
    case Take(maxLen) => TakeTidy(m, maxLen);
    case GiveBack =>
      FlightKnown(m);
      BackTidy(m);
    case Remove(k) => ReleaseTidy(m, k);
  }

  lemma CreateTidy(m: Sched, window: nat)
    requires Tidy(m)
    ensures Tidy(NewStream(m, window))
  {
    var m1 := NewStream(m, window);
    forall j | 0 <= j < |m1.streams| ensures TidyOne(m1.streams[j], j in m1.capQ, j in m1.openQ) {
      assert j < |m.streams| ==> TidyOne(m.streams[j], j in m.capQ, j in m.openQ);
    }
  }

  lemma ConnTidy(m: Sched, inc: nat)
    requires Inv(m) && Tidy(m)
    ensures Tidy(ConnUpdate(m, inc))
  {
    hide Refill, Inv, FlowsOk;
    ConnWiderOk(m, inc);
    SameTidy(m, m.(window := IncWindow(m.window, inc)));
    RefillTidy(m.(window := IncWindow(m.window, inc)), inc);
  }

  lemma PeerEndsTidy(m: Sched, k: nat)
    requires Tidy(m) && k < |m.streams|
    ensures Tidy(RecvEnd(m, k))
  {
    AlikeTidy(m, RecvEnd(m, k), k);
  }

  lemma ReleaseTidy(m: Sched, k: nat)
    requires Tidy(m) && k < |m.streams|
    ensures Tidy(Release(m, k))
  {
    PutTidy(m, k, m.streams[k].(available := 0, requested := 0));
  }

  lemma InvFlows(m: Sched)
    requires Inv(m)
    ensures FlowsOk(m)
  {
    hide StreamOk, BytesOk, FlowsOk;
    OkFlows(m);
  }

  lemma FlightKnown(m: Sched)
    requires Inv(m)
    ensures FlightOk(m)
  {
  }

  predicate CarefulRun(m: Sched, es: seq<Event>)
    requires Inv(m) && PossibleRun(m, es)
    decreases |es|
  {
    es != [] ==>
      && Careful(m, es[0])
      && (StepKeeps(m, es[0]); CarefulRun(Step(m, es[0]), es[1..]))
  }

  /** What a run loses to overflowing updates of the connection window alone. */
  function OverflowLoss(m: Sched, es: seq<Event>): int
    requires Inv(m) && PossibleRun(m, es)
    decreases |es|
  {
    if es == [] then 0
    else
      StepKeeps(m, es[0]);
      (if es[0].ConnWindow? then Loss(m, es[0]) else 0) + OverflowLoss(Step(m, es[0]), es[1..])
  }

  lemma {:induction false} CarefulRunTidy(m: Sched, es: seq<Event>)
    requires Inv(m) && Tidy(m) && PossibleRun(m, es) && CarefulRun(m, es)
    ensures Inv(Run(m, es)) && Tidy(Run(m, es)) && Lost(m, es) == OverflowLoss(m, es)
    decreases |es|
  {
    hide Inv, Tidy, Possible, Step, Careful;
    if es != [] {
      StepKeeps(m, es[0]);
      StepTidy(m, es[0]);
      RemovedHoldsNothing(m, es[0]);
      CarefulRunTidy(Step(m, es[0]), es[1..]);
    }
  }

  lemma RemovedHoldsNothing(m: Sched, e: Event)
    requires Inv(m) && Tidy(m) && Possible(m, e)
    ensures !e.ConnWindow? ==> Loss(m, e) == 0
  {
    hide Inv, Tidy;
    if e.Remove? {
      FlushedHoldsNothing(m, e.key);
    }
  }

  /** After every careful run a stream that is closed and flushed holds nothing, whenever it is removed; so nothing is
      lost but to overflows, and without those the capacities add up to the connection's window. */
  lemma CarefulConserves(window: nat, es: seq<Event>)
    requires window <= MAX_WINDOW && Inv(Start(window)) && PossibleRun(Start(window), es)
    requires CarefulRun(Start(window), es)
    ensures var m := Run(Start(window), es);
            && (forall k :: 0 <= k < |m.streams| && SendClosed(m.streams[k]) && m.streams[k].buffered == 0 ==>
                  m.streams[k].available == 0)
            && (LimitedRun(Start(window), es) && OverflowLoss(Start(window), es) == 0 ==> Conserved(m))
  {
    hide PossibleRun, Run, LimitedRun, Lost, OverflowLoss, CarefulRun, Inv, Slack;
    StartOk(window);
    StartTidy(window);
    CarefulRunTidy(Start(window), es);
    RunKeeps(Start(window), es);
    var m := Run(Start(window), es);
    forall k | 0 <= k < |m.streams| && SendClosed(m.streams[k]) && m.streams[k].buffered == 0
      ensures m.streams[k].available == 0
    {
      FlushedHoldsNothing(m, k);
    }
  }

  lemma StartTidy(window: nat)
    ensures Tidy(Start(window))
  {
  }

  // ----- a run that loses capacity

  /** A stream whose window is five octets is to send five, requests ten and is abandoned; then its window is raised. */
  function Losing(p: Bytes): seq<Event>
  {
    [Create(5)] + [Headers(0, false, false, 0)] + [Take(MAX_FRAME)] + [Request(0, 10)] + [Give(0, p, false)] +
    [Abandon(0)] + [StreamWindow(0, 5)] + [Take(MAX_FRAME)] + [GiveBack] + [Take(MAX_FRAME)]
  }

  /** The stream at one of these steps, with what it was given. */
  function At(s: Stream, q: Bytes, available: nat, sendQ: seq<nat>): Sched
  {
    One(s, q, [], 100, available, sendQ)
  }

  function Opened5(): Stream
  {
    Stream(5, 0, 0, 0, Streaming, false, [Other(0)])
  }

  function Loaded(p: Bytes, phase: Phase): Stream
  {
    Stream(5, 5, 10, 5, phase, false, [Data(p, false)])
  }

  lemma Start5()
    ensures NewStream(Start(100), 5) == At(Stream(5, 0, 0, 0, Idle, false, []), [], 100, [])
  {
  }

  lemma Headers5()
    ensures SendHeaders(At(Stream(5, 0, 0, 0, Idle, false, []), [], 100, []), 0, false, false, 0) ==
            At(Opened5(), [], 100, [0])
  {
    var s := Stream(5, 0, 0, 0, Idle, false, []);
    var s1 := s.(phase := Streaming);
    assert [] + [Other(0)] == [Other(0)];
    assert [s][0 := s1] == [s1] && [s1][0 := Opened5()] == [Opened5()];
  }

  lemma HeadersOut5()
    requires Inv(At(Opened5(), [], 100, [0]))
    ensures Pop(At(Opened5(), [], 100, [0]), MAX_FRAME).0 == At(Idling(5, 0), [], 100, [])
  {
    hide Inv;
  }

  lemma Requested10()
    requires FlowsOk(At(Idling(5, 0), [], 100, []))
    ensures Reserve(At(Idling(5, 0), [], 100, []), 0, 10) == At(Idling(5, 5).(requested := 10), [], 95, [])
  {
  }

  lemma Given5(p: Bytes)
    requires |p| == 5 && Inv(At(Idling(5, 5).(requested := 10), [], 95, []))
    ensures SendData(At(Idling(5, 5).(requested := 10), [], 95, []), 0, p, false) ==
            At(Loaded(p, Streaming), p, 95, [0])
  {
    hide Inv;
    assert [] + p == p && [] + [Data(p, false)] == [Data(p, false)];
  }

  lemma Abandoned5(p: Bytes)
    requires |p| == 5 && Inv(At(Loaded(p, Streaming), p, 95, [0]))
    ensures ImplicitReset(At(Loaded(p, Streaming), p, 95, [0]), 0) == At(Loaded(p, ResetScheduled), p, 95, [0])
  {
    hide Inv;
  }

  lemma Raised5(p: Bytes)
    requires |p| == 5 && Inv(At(Loaded(p, ResetScheduled), p, 95, [0]))
    ensures StreamUpdate(At(Loaded(p, ResetScheduled), p, 95, [0]), 0, 5) ==
            At(Loaded(p, ResetScheduled).(window := 10, available := 10), p, 90, [0])
  {
    hide Inv;
  }

  /** The data is out; the reset is still to be sent. */
  function Drained5(p: Bytes, phase: Phase, sendQ: seq<nat>): Sched
  {
    One(Stream(5, 5, 5, 0, phase, false, []), p, p, 95, 90, sendQ)
  }

  lemma DataOut5(p: Bytes)
    requires |p| == 5 && Inv(At(Loaded(p, ResetScheduled).(window := 10, available := 10), p, 90, [0]))
    ensures Pop(At(Loaded(p, ResetScheduled).(window := 10, available := 10), p, 90, [0]), MAX_FRAME).0 ==
            Drained5(p, ResetScheduled, [0]).(codec := Some(Held(0, [], false)), inFlight := DataFrame(0))
  {
    hide Inv;
    var s := Loaded(p, ResetScheduled).(window := 10, available := 10);
    assert p[..5] == p && p[5..] == [] && [] + p == p && [Data(p, false)][1..] == [];
    assert PieceLen(s, MAX_FRAME) == 5 && AfterPiece(s, MAX_FRAME) == Stream(5, 5, 5, 0, ResetScheduled, false, []);
    assert !PassedOver(s, MAX_FRAME);
  }

  lemma ResetOut5(p: Bytes)
    requires Inv(Drained5(p, ResetScheduled, [0]))
    ensures Pop(Drained5(p, ResetScheduled, [0]), MAX_FRAME).0 == Drained5(p, Reset, [])
  {
    hide Inv;
  }

  lemma Extend(m0: Sched, es: seq<Event>, m: Sched, e: Event, m1: Sched)
    requires Leads(m0, es, m) && Inv(m) && Possible(m, e) && Step(m, e) == m1
    ensures Leads(m0, es + [e], m1) && Inv(m1)
  {
    hide Leads, Inv, Possible, Step;
    LeadsOnce(m, e);
    LeadsOn(m0, es, m, [e], m1);
  }

  lemma OpenFive()
    ensures var m := At(Idling(5, 5).(requested := 10), [], 95, []);
            && Leads(Start(100), [Create(5)] + [Headers(0, false, false, 0)] + [Take(MAX_FRAME)] + [Request(0, 10)], m)
            && Inv(m)
  {
    hide Inv, Leads, NewStream, SendHeaders, Pop, Reserve, FlowsOk, Start;
    var m0 := Start(100);
    StartOk(100);
    Start5();
    LeadsOnce(m0, Create(5));
    Headers5();
    Extend(m0, [Create(5)], At(Stream(5, 0, 0, 0, Idle, false, []), [], 100, []), Headers(0, false, false, 0),
           At(Opened5(), [], 100, [0]));
    HeadersOut5();
    Extend(m0, [Create(5)] + [Headers(0, false, false, 0)], At(Opened5(), [], 100, [0]), Take(MAX_FRAME),
           At(Idling(5, 0), [], 100, []));
    InvFlows(At(Idling(5, 0), [], 100, []));
    Requested10();
    Extend(m0, [Create(5)] + [Headers(0, false, false, 0)] + [Take(MAX_FRAME)], At(Idling(5, 0), [], 100, []),
           Request(0, 10), At(Idling(5, 5).(requested := 10), [], 95, []));
  }

  lemma RaiseFive(m0: Sched, es: seq<Event>, p: Bytes)
    requires |p| == 5 && Leads(m0, es, At(Idling(5, 5).(requested := 10), [], 95, []))
    requires Inv(At(Idling(5, 5).(requested := 10), [], 95, []))
    ensures var m := At(Loaded(p, ResetScheduled).(window := 10, available := 10), p, 90, [0]);
            Leads(m0, es + [Give(0, p, false)] + [Abandon(0)] + [StreamWindow(0, 5)], m) && Inv(m)
  {
    hide Inv, Leads, SendData, ImplicitReset, StreamUpdate;
    Given5(p);
    Extend(m0, es, At(Idling(5, 5).(requested := 10), [], 95, []), Give(0, p, false),
           At(Loaded(p, Streaming), p, 95, [0]));
    Abandoned5(p);
    Extend(m0, es + [Give(0, p, false)], At(Loaded(p, Streaming), p, 95, [0]), Abandon(0),
           At(Loaded(p, ResetScheduled), p, 95, [0]));
    Raised5(p);
    Extend(m0, es + [Give(0, p, false)] + [Abandon(0)], At(Loaded(p, ResetScheduled), p, 95, [0]), StreamWindow(0, 5),
           At(Loaded(p, ResetScheduled).(window := 10, available := 10), p, 90, [0]));
  }

  lemma DrainFive(m0: Sched, es: seq<Event>, p: Bytes)
    requires |p| == 5 && Leads(m0, es, At(Loaded(p, ResetScheduled).(window := 10, available := 10), p, 90, [0]))
    requires Inv(At(Loaded(p, ResetScheduled).(window := 10, available := 10), p, 90, [0]))
    ensures Leads(m0, es + [Take(MAX_FRAME)] + [GiveBack] + [Take(MAX_FRAME)], Drained5(p, Reset, []))
    ensures Inv(Drained5(p, Reset, []))
  {
    hide Inv, Leads, Pop;
    var m1 := Drained5(p, ResetScheduled, [0]).(codec := Some(Held(0, [], false)), inFlight := DataFrame(0));
    DataOut5(p);
    Extend(m0, es, At(Loaded(p, ResetScheduled).(window := 10, available := 10), p, 90, [0]), Take(MAX_FRAME), m1);
    Extend(m0, es + [Take(MAX_FRAME)], m1, GiveBack, Drained5(p, ResetScheduled, [0]));
    ResetOut5(p);
    Extend(m0, es + [Take(MAX_FRAME)] + [GiveBack], Drained5(p, ResetScheduled, [0]), Take(MAX_FRAME),
           Drained5(p, Reset, []));
  }

  /** The stream is closed, flushed and in no queue, and holds five octets; when it is removed they are lost. */
  lemma ResetLosesCapacity(p: Bytes)
    requires |p| == 5
    ensures var m := Drained5(p, Reset, []);
            && Leads(Start(100), Losing(p), m) && Inv(m) && Conserved(m) && Possible(m, Remove(0))
            && Leads(Start(100), Losing(p) + [Remove(0)], Step(m, Remove(0))) && Slack(Step(m, Remove(0))) == 5
  {
    hide Inv, Leads, Step;
    OpenFive();
    var e1 := [Create(5)] + [Headers(0, false, false, 0)] + [Take(MAX_FRAME)] + [Request(0, 10)];
    RaiseFive(Start(100), e1, p);
    var e2 := e1 + [Give(0, p, false)] + [Abandon(0)] + [StreamWindow(0, 5)];
    DrainFive(Start(100), e2, p);
    var m := Drained5(p, Reset, []);
    assert Losing(p) == e2 + [Take(MAX_FRAME)] + [GiveBack] + [Take(MAX_FRAME)];
    HeldFive(p);
    Extend(Start(100), Losing(p), m, Remove(0), Step(m, Remove(0)));
    ReleasedFive(m);
  }

  lemma HeldFive(p: Bytes)
    ensures Conserved(Drained5(p, Reset, []))
  {
    var s := Stream(5, 5, 5, 0, Reset, false, []);
    assert [s][1..] == [] && Total([]) == 0;
  }

  lemma ReleasedFive(m: Sched)
    requires Inv(m) && Conserved(m) && Releasable(m, 0) && m.streams[0].available == 5
    ensures Slack(Step(m, Remove(0))) == 5
  {
    hide Inv, Release;
    ReleaseKeeps(m, 0);
  }
}
