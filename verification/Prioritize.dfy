/**
 The scheduler over whole runs, and the scheduler as the object the source has (`Prioritize` in
 proto/streams/prioritize.rs): its loops and branches on its own fields, each tied to the functions of the modules it
 uses.
 */
module Prioritize {
  import opened Common
  import opened Scheduler
  import opened Sending
  import opened Windows
  import opened Resets
  import opened Popping
  import opened Turns
  import opened Draining

  // ----- runs

  datatype Event =
    | Create(window: nat)
    | Headers(key: nat, eos: bool, localInit: bool, tag: nat)
    | Give(key: nat, payload: Bytes, eos: bool)
    | Trailers(key: nat, tag: nat)
    | Request(key: nat, capacity: nat)
    | StreamWindow(key: nat, inc: nat)
    | ConnWindow(inc: nat)
    | LowerInitial(dec: nat)
    | RaiseInitial(inc: nat)
    | ResetStream(key: nat, tag: nat)
    | Broken(key: nat, byPeer: bool)
    | Abandon(key: nat)
    | PeerEnds(key: nat)
    | Admit
    | Take(maxLen: nat)
    | GiveBack
    | Remove(key: nat)

  /** When an event can happen: streams exist, a stream is opened once and is asked for capacity only afterwards, and
      the codec is given a frame only when it holds none. A window under its type's range ends the connection. */
  predicate Possible(m: Sched, e: Event)
    requires Inv(m)
  {
    match e
    case Create(window) => window <= MAX_WINDOW
    case Headers(k, _, localInit, _) => k < |m.streams| && m.streams[k].phase.Idle? && (localInit ==> k !in m.sendQ)
    case Give(k, _, _) => k < |m.streams|
    case Trailers(k, _) => k < |m.streams|
    case Request(k, _) => k < |m.streams| && !m.streams[k].phase.Idle?
    case StreamWindow(k, _) => k < |m.streams|
    case ConnWindow(_) => true
    case LowerInitial(dec) => Narrow(m, dec).Some?
    case RaiseInitial(_) => true
    case ResetStream(k, _) => k < |m.streams|
    case Broken(k, _) => k < |m.streams|
    case Abandon(k) => k < |m.streams|
    case PeerEnds(k) => k < |m.streams|
    case Admit => m.openQ != []
    case Take(maxLen) => m.codec == None && maxLen <= MAX_FRAME
    case GiveBack => m.codec.Some?
    case Remove(k) => Releasable(m, k)
  }

  function Step(m: Sched, e: Event): Sched
    requires Inv(m) && Possible(m, e)
  {
    match e
    case Create(window) => NewStream(m, window)
    case Headers(k, eos, localInit, tag) => SendHeaders(m, k, eos, localInit, tag)
    case Give(k, payload, eos) => if Refusal(m, k, payload) == None then SendData(m, k, payload, eos) else m
    case Trailers(k, tag) => if m.streams[k].phase.Streaming? then SendTrailers(m, k, tag) else m
    case Request(k, capacity) => OkFlows(m); Reserve(m, k, capacity)
    case StreamWindow(k, inc) => StreamUpdate(m, k, inc)
    case ConnWindow(inc) => ConnUpdate(m, inc)
    case LowerInitial(dec) => Narrow(m, dec).value
    case RaiseInitial(inc) => Widen(m, 0, inc)
    case ResetStream(k, tag) => SendReset(m, k, tag)
    case Broken(k, byPeer) => Fail(m, k, byPeer)
    case Abandon(k) => ImplicitReset(m, k)
    case PeerEnds(k) => RecvEnd(m, k)
    case Admit => OpenNext(m)
    case Take(maxLen) => Pop(m, maxLen).0
    case GiveBack => Reclaim(m).0
    case Remove(k) => Release(m, k)
  }

  /** A WINDOW_UPDATE hands out no more than the connection window takes in: it does not overflow the window, which
      section 6.9.1 of RFC 7540 forbids, or the assignment overflows and is dropped. */
  predicate WithinLimit(m: Sched, e: Event)
  {
    e.ConnWindow? ==> m.window + e.inc <= MAX_WINDOW || m.available + e.inc > MAX_WINDOW
  }

  /** What an event loses: the capacity a removed stream still held, and what a dropped assignment leaves of the
      window. */
  function Loss(m: Sched, e: Event): int
    requires Inv(m) && Possible(m, e)
  {
    match e
    case Remove(k) => m.streams[k].available
    case ConnWindow(inc) => if m.window + inc <= MAX_WINDOW then 0 else MAX_WINDOW - m.window
    case _ => 0
  }

  lemma ReserveAll(m: Sched, k: nat, capacity: nat)
    requires Inv(m) && k < |m.streams| && !m.streams[k].phase.Idle?
    ensures FlowsOk(m)
    ensures Inv(Reserve(m, k, capacity)) && Balanced(m, Reserve(m, k, capacity))
  {
    hide BytesOk, StreamOk, Total, Known, NoDup, FlightOk, Reserve, FlowsOk, Slack;
    InvAt(m, k);
    ReserveKeeps(m, k, capacity);
    var m1 := Reserve(m, k, capacity);
    BytesIgnoreCapacity(m.streams[k], m1.streams[k].available, m1.streams[k].requested, m.hist[k], Rest(m, k),
        RestEos(m, k));
    Restored(m, m1, k);
  }

  /** Every step keeps the invariant, and as long as no more is handed out than the window takes in, what nobody holds
      of the window grows by exactly what the step loses. */
  lemma StepKeeps(m: Sched, e: Event)
    requires Inv(m) && Possible(m, e)
    ensures Inv(Step(m, e)) && Loss(m, e) >= 0
    ensures Covered(m) && WithinLimit(m, e) ==> Slack(Step(m, e)) == Slack(m) + Loss(m, e)
  {
    hide Inv, Slack, NewStream, SendHeaders, SendData, SendTrailers, Reserve, StreamUpdate, ConnUpdate, Narrow,
         Widen, SendReset, Abort, ImplicitReset, RecvEnd, OpenNext, Pop, Reclaim, Release;
    WindowBounds(m);
    match e
    case Create(window) => NewStreamKeeps(m, window);
    case Headers(k, eos, localInit, tag) => SendHeadersKeeps(m, k, eos, localInit, tag);
    case Give(k, payload, eos) => if Refusal(m, k, payload) == None { SendDataKeeps(m, k, payload, eos); }
    case Trailers(k, tag) => if m.streams[k].phase.Streaming? { SendTrailersKeeps(m, k, tag); }
    case Request(k, capacity) => ReserveAll(m, k, capacity);
    case StreamWindow(k, inc) => StreamUpdateKeeps(m, k, inc);
    case ConnWindow(inc) => ConnUpdateKeeps(m, inc);
    case LowerInitial(dec) => NarrowKeepsAll(m, dec);
    case RaiseInitial(inc) => WidenKeeps(m, 0, inc);
    case ResetStream(k, tag) => SendResetKeeps(m, k, tag);
    case Broken(k, byPeer) => FailKeeps(m, k, byPeer);
    case Abandon(k) => ImplicitResetKeeps(m, k);
    case PeerEnds(k) => RecvEndKeeps(m, k);
    case Admit => OpenNextKeeps(m);
    case Take(maxLen) => PopKeepsAll(m, maxLen);
    case GiveBack => ReclaimKeeps(m);
    case Remove(k) => ReleaseKeeps(m, k);
  }

  lemma WindowBounds(m: Sched)
    requires Inv(m)
    ensures 0 <= m.available <= MAX_WINDOW && 0 <= m.window <= MAX_WINDOW
    ensures Covered(m) ==> m.available <= m.window
  {
    hide StreamsOk, AllBytesOk;
    SparePart(m);
  }

  predicate PossibleRun(m: Sched, es: seq<Event>)
    requires Inv(m)
    decreases |es|
  {
    es != [] ==>
      && Possible(m, es[0])
      && (StepKeeps(m, es[0]); PossibleRun(Step(m, es[0]), es[1..]))
  }

  predicate LimitedRun(m: Sched, es: seq<Event>)
    requires Inv(m) && PossibleRun(m, es)
    decreases |es|
  {
    es != [] ==>
      && WithinLimit(m, es[0])
      && (StepKeeps(m, es[0]); LimitedRun(Step(m, es[0]), es[1..]))
  }

  function Run(m: Sched, es: seq<Event>): Sched
    requires Inv(m) && PossibleRun(m, es)
    decreases |es|
  {
    if es == [] then m
    else
      StepKeeps(m, es[0]);
      Run(Step(m, es[0]), es[1..])
  }

  /** What a run loses. */
  function Lost(m: Sched, es: seq<Event>): int
    requires Inv(m) && PossibleRun(m, es)
    decreases |es|
  {
    if es == [] then 0
    else
      StepKeeps(m, es[0]);
      Loss(m, es[0]) + Lost(Step(m, es[0]), es[1..])
  }

  /** `Prioritize::new` */
  function Start(window: nat): Sched
  {
    Sched([], [], window, window, [], [], [], Nothing, None)
  }

  lemma {:induction false} RunKeeps(m: Sched, es: seq<Event>)
    requires Inv(m) && PossibleRun(m, es)
    ensures Inv(Run(m, es)) && Lost(m, es) >= 0
    ensures Covered(m) && LimitedRun(m, es) ==> Slack(Run(m, es)) == Slack(m) + Lost(m, es)
    decreases |es|
  {
    hide Inv, Slack, Step, Possible, Loss, WithinLimit;
    if es != [] {
      StepKeeps(m, es[0]);
      RunKeeps(Step(m, es[0]), es[1..]);
    }
  }

  /** After any run: spare capacity means that no open stream could use more, a stream with something to send is
      scheduled, no stream holds more than its window, what a stream wrote is a beginning of what it was given, and the
      capacities and what was lost add up to the connection's window. */
  lemma Safety(window: nat, es: seq<Event>, k: nat)
    requires window <= MAX_WINDOW && Inv(Start(window)) && PossibleRun(Start(window), es)
    requires k < |Run(Start(window), es).streams|
    ensures var m := Run(Start(window), es);
            var s := m.streams[k];
            && |m.hist| == |m.streams|
            && 0 <= s.available <= Pos(s.window) && s.available <= s.requested
            && (m.available > 0 && k !in m.openQ ==> !Starved(s))
            && (m.codec == None && k !in m.openQ && Sendable(s, []) ==> k in m.sendQ)
            && m.hist[k].written <= m.hist[k].queued
            && (m.hist[k].finished && !m.hist[k].cleared ==> m.hist[k].written == m.hist[k].queued)
            && Lost(Start(window), es) >= 0
            && (LimitedRun(Start(window), es) ==>
                  m.available + Total(m.streams) + Lost(Start(window), es) == m.window)
  {
    hide Total, PossibleRun, Run, LimitedRun, Lost, Payloads, Starved, Sendable;
    RunKeeps(Start(window), es);
    var m := Run(Start(window), es);
    assert Total([]) == 0 by { NothingHeld(); }
    InvAt(m, k);
  }

  lemma NothingHeld()
    ensures Total([]) == 0
  {
  }

  lemma StartOk(window: nat)
    requires window <= MAX_WINDOW
    ensures Inv(Start(window)) && Conserved(Start(window))
  {
  }

  /** Within the limit, the assertion that the connection's window admits the data never fails, whatever was lost. */
  lemma NeverOverdrawn(window: nat, es: seq<Event>, maxLen: nat)
    requires window <= MAX_WINDOW && Inv(Start(window))
    requires PossibleRun(Start(window), es) && LimitedRun(Start(window), es)
    requires var m := Run(Start(window), es); m.codec == None && maxLen <= MAX_FRAME
    ensures Inv(Run(Start(window), es)) && !Pop(Run(Start(window), es), maxLen).1.Overdrawn?
  {
    hide PossibleRun, Run, LimitedRun, Lost, Inv, Slack, Pop;
    StartOk(window);
    RunKeeps(Start(window), es);
    PopKeepsAll(Run(Start(window), es), maxLen);
  }

  // ----- what goes in and what comes out

  function WrittenOf(m: Sched, k: nat): Bytes
  {
    if k < |m.hist| then m.hist[k].written else []
  }

  function QueuedOf(m: Sched, k: nat): Bytes
  {
    if k < |m.hist| then m.hist[k].queued else []
  }

  /** The data of stream k that an event accepts from the user. */
  function Given(m: Sched, e: Event, k: nat): Bytes
    requires Inv(m) && Possible(m, e)
  {
    if e.Give? && e.key == k && Refusal(m, k, e.payload) == None then e.payload else []
  }

  /** The data of stream k in the DATA frame that an event hands out. */
  function Piece(m: Sched, e: Event, k: nat): Bytes
    requires Inv(m) && Possible(m, e)
  {
    if !e.Take? then []
    else
      match Pop(m, e.maxLen).1
      case DataOut(j, piece, _) => if j == k then piece else []
      case _ => []
  }

  function AllGiven(m: Sched, es: seq<Event>, k: nat): Bytes
    requires Inv(m) && PossibleRun(m, es)
    decreases |es|
  {
    if es == [] then []
    else
      StepKeeps(m, es[0]);
      Given(m, es[0], k) + AllGiven(Step(m, es[0]), es[1..], k)
  }

  function AllPieces(m: Sched, es: seq<Event>, k: nat): Bytes
    requires Inv(m) && PossibleRun(m, es)
    decreases |es|
  {
    if es == [] then []
    else
      StepKeeps(m, es[0]);
      Piece(m, es[0], k) + AllPieces(Step(m, es[0]), es[1..], k)
  }

  /** The bytes of stream k are as they were, and a new stream has none. */
  predicate SameBytes(m: Sched, m1: Sched, k: nat)
  {
    WrittenOf(m1, k) == WrittenOf(m, k) && QueuedOf(m1, k) == QueuedOf(m, k)
  }

  lemma QuietStep(m: Sched, e: Event, k: nat)
    requires Inv(m) && Possible(m, e) && !e.Take? && !e.Give?
    ensures SameBytes(m, Step(m, e), k)
  {
    hide Inv, Slack, Reserve, StreamUpdate, ConnUpdate, Narrow, Widen, Abort, SendTrailers, ImplicitReset, OpenNext,
         Pop, Reclaim;
    match e
    case Create(_) =>
    case Headers(_, _, _, _) =>
    case Trailers(j, tag) => if m.streams[j].phase.Streaming? { SendTrailersKeeps(m, j, tag); }
    case Request(j, capacity) => ReserveHist(m, j, capacity);
    case StreamWindow(j, inc) => StreamUpdateKeeps(m, j, inc);
    case ConnWindow(inc) => ConnUpdateKeeps(m, inc);
    case LowerInitial(dec) => NarrowKeepsAll(m, dec);
    case RaiseInitial(inc) => WidenKeeps(m, 0, inc);
    case ResetStream(j, tag) => ResetHist(m, j, tag);
    case Broken(j, byPeer) =>
      SizesAgree(m);
      FailKeeps(m, j, byPeer);
    case Abandon(j) => ImplicitResetKeeps(m, j);
    case PeerEnds(_) =>
    case Admit => OpenNextKeeps(m);
    case GiveBack => ReclaimKeeps(m);
    case Remove(_) =>
  }

  lemma ReserveHist(m: Sched, k: nat, capacity: nat)
    requires Inv(m) && k < |m.streams| && !m.streams[k].phase.Idle?
    ensures FlowsOk(m) && Reserve(m, k, capacity).hist == m.hist
  {
    hide Base, StreamsOk, NoneIdle, AllBytesOk, Reserve, FlowsOk;
    ReserveKeeps(m, k, capacity);
  }

  lemma ResetHist(m: Sched, k: nat, tag: nat)
    requires Inv(m) && k < |m.streams|
    ensures forall j :: SameBytes(m, SendReset(m, k, tag), j)
  {
    hide Inv, Abort;
    var s := m.streams[k];
    SizesAgree(m);
    if !(s.phase.ResetScheduled? || s.phase.Reset? || (IsClosed(s) && s.pending == [])) {
      AbortKeeps(m, k, Reset, Some(tag));
    }
  }

  lemma StepBytes(m: Sched, e: Event, k: nat)
    requires Inv(m) && Possible(m, e)
    ensures QueuedOf(Step(m, e), k) == QueuedOf(m, k) + Given(m, e, k)
    ensures WrittenOf(Step(m, e), k) == WrittenOf(m, k) + Piece(m, e, k)
  {
    hide Inv, Pop, SendData, Refusal;
    if e.Give? {
      SizesAgree(m);
      if Refusal(m, e.key, e.payload) == None {
        SendDataKeeps(m, e.key, e.payload, e.eos);
      }
    } else if e.Take? {
      PopKeepsAll(m, e.maxLen);
    } else {
      QuietStep(m, e, k);
    }
  }

  lemma {:induction false} RunBytes(m: Sched, es: seq<Event>, k: nat)
    requires Inv(m) && PossibleRun(m, es)
    ensures QueuedOf(Run(m, es), k) == QueuedOf(m, k) + AllGiven(m, es, k)
    ensures WrittenOf(Run(m, es), k) == WrittenOf(m, k) + AllPieces(m, es, k)
    decreases |es|
  {
    hide Inv, Possible, Step, Given, Piece, WrittenOf, QueuedOf;
    if es != [] {
      StepKeeps(m, es[0]);
      StepBytes(m, es[0], k);
      var m1 := Step(m, es[0]);
      RunBytes(m1, es[1..], k);
      Regroup(QueuedOf(m, k), Given(m, es[0], k), AllGiven(m1, es[1..], k));
      Regroup(WrittenOf(m, k), Piece(m, es[0], k), AllPieces(m1, es[1..], k));
    }
  }

  /** Over any run, the DATA frames of a stream carry a beginning of the data the user gave it, in order; all of it once
      END_STREAM went out on them, unless the stream was reset. */
  lemma FramesCarryData(window: nat, es: seq<Event>, k: nat)
    requires window <= MAX_WINDOW && Inv(Start(window)) && PossibleRun(Start(window), es)
    ensures AllPieces(Start(window), es, k) <= AllGiven(Start(window), es, k)
    ensures var m := Run(Start(window), es);
            k < |m.hist| ==> && m.hist[k].written == AllPieces(Start(window), es, k)
                             && m.hist[k].queued == AllGiven(Start(window), es, k)
                             && (m.hist[k].finished && !m.hist[k].cleared ==>
                                   AllPieces(Start(window), es, k) == AllGiven(Start(window), es, k))
  {
    hide PossibleRun, Run, AllPieces, AllGiven, BytesOk, StreamOk;
    RunKeeps(Start(window), es);
    RunBytes(Start(window), es, k);
    var m := Run(Start(window), es);
    SizesAgree(m);
    if k < |m.hist| {
      InvAt(m, k);
      BeginningOf(m.streams[k], m.hist[k], Rest(m, k), RestEos(m, k));
    }
    assert [] + AllPieces(Start(window), es, k) == AllPieces(Start(window), es, k);
    assert [] + AllGiven(Start(window), es, k) == AllGiven(Start(window), es, k);
  }

  lemma BeginningOf(s: Stream, h: History, rest: Bytes, restEos: bool)
    requires BytesOk(s, h, rest, restEos)
    ensures h.written <= h.queued && (h.finished && !h.cleared ==> h.written == h.queued)
  {
  }

  // ----- frames handed to the codec

  /** The frame that an event hands out, if any. */
  function Out(m: Sched, e: Event): seq<Popped>
    requires Inv(m) && Possible(m, e)
  {
    if !e.Take? then []
    else
      var r := Pop(m, e.maxLen).1;
      if r.NoFrame? || r.Overdrawn? then [] else [r]
  }

  function Outs(m: Sched, es: seq<Event>): seq<Popped>
    requires Inv(m) && PossibleRun(m, es)
    decreases |es|
  {
    if es == [] then []
    else
      StepKeeps(m, es[0]);
      Out(m, es[0]) + Outs(Step(m, es[0]), es[1..])
  }

  /** A run from m leads to m1 and hands out these frames. */
  ghost predicate Reaches(m: Sched, es: seq<Event>, m1: Sched, frames: seq<Popped>)
  {
    Inv(m) && PossibleRun(m, es) && Run(m, es) == m1 && Outs(m, es) == frames
  }

  lemma ReachesNothing(m: Sched)
    requires Inv(m)
    ensures Reaches(m, [], m, [])
  {
    hide Inv;
  }

  lemma {:induction false} ReachesOn(m: Sched, es: seq<Event>, m1: Sched, frames: seq<Popped>, e: Event)
    requires Reaches(m, es, m1, frames) && Inv(m1) && Possible(m1, e)
    ensures Reaches(m, es + [e], Step(m1, e), frames + Out(m1, e))
    decreases |es|
  {
    hide Inv, Possible, Step, Out;
    if es == [] {
      assert es + [e] == [e] && [e][1..] == [];
      StepKeeps(m, e);
      ReachesNothing(Step(m, e));
      assert [] + Out(m, e) == Out(m, e) == Out(m, e) + [];
    } else {
      StepKeeps(m, es[0]);
      var m0 := Step(m, es[0]);
      ReachesOn(m0, es[1..], m1, Outs(m0, es[1..]), e);
      assert (es + [e])[0] == es[0] && (es + [e])[1..] == es[1..] + [e];
      Regroup(Out(m, es[0]), Outs(m0, es[1..]), Out(m1, e));
    }
  }

  // ----- the object

  /** What `poll_complete` returns: all is handed over, the codec is not ready, or an assertion failed. */
  datatype Poll = Done | Pending | Failed

  predicate ReadyAt(ready: seq<bool>, i: nat)
  {
    i < |ready| && ready[i]
  }

  predicate ReadyFor(ready: seq<bool>, n: nat)
  {
    forall i :: 0 <= i < n ==> ReadyAt(ready, i)
  }

  class Prioritize {
    var streams: seq<Stream>
    var window: int
    var available: int
    var pendingSend: seq<nat>
    var pendingCapacity: seq<nat>
    var pendingOpen: seq<nat>
    var inFlight: InFlight
    var codec: Option<Held>
    ghost var hist: seq<History>

    ghost function Model(): Sched
      reads this
    {
      Sched(streams, hist, window, available, pendingSend, pendingCapacity, pendingOpen, inFlight, codec)
    }

    constructor (initialWindow: nat)
      requires initialWindow <= MAX_WINDOW
      ensures Model() == Start(initialWindow) && Inv(Model())
    {
      streams, hist, window, available := [], [], initialWindow, initialWindow;
      pendingSend, pendingCapacity, pendingOpen, inFlight, codec := [], [], [], Nothing, None;
      new;
      StartOk(initialWindow);
    }

    method PushSend(k: nat)
      modifies this`pendingSend
      ensures pendingSend == Push(old(pendingSend), k)
    {
      if k !in pendingSend {
        pendingSend := pendingSend + [k];
      }
    }

    method PushCapacity(k: nat)
      modifies this`pendingCapacity
      ensures pendingCapacity == Push(old(pendingCapacity), k)
    {
      if k !in pendingCapacity {
        pendingCapacity := pendingCapacity + [k];
      }
    }

    method TryAssignCapacity(k: nat)
      requires k < |streams| && FlowOk(streams[k])
      modifies this
      ensures Model() == TryAssign(old(Model()), k)
    {
      if k in pendingOpen {
        return;
      }
      var s := streams[k];
      var additional := Min(s.requested - s.available, Pos(s.window) - s.available);
      if additional == 0 {
        return;
      }
      if available > 0 {
        var assign := Min(available, additional);
        streams := streams[k := s.(available := s.available + assign)];
        available := available - assign;
      } else {
        assert streams[k := s.(available := s.available + 0)] == streams;
      }
      var s1 := streams[k];
      if s1.available < s1.requested && 0 <= s1.window && s1.window > s1.available {
        PushCapacity(k);
      }
      if streams[k].buffered > 0 {
        PushSend(k);
      }
    }

    method AssignConnectionCapacity(inc: nat)
      requires FlowsOk(Model())
      modifies this
      ensures Model() == Refill(old(Model()), inc)
    {
      if available + inc <= MAX_WINDOW {
        available := available + inc;
      }
      ghost var target := Serve(Model());
      while available > 0
        invariant FlowsOk(Model()) && Serve(Model()) == target
        decreases if available > 0 then 1 + |pendingCapacity| else 0
      {
        if pendingCapacity == [] {
          return;
        }
        var k := pendingCapacity[0];
        ghost var m := Model();
        assert m.capQ[0] < |m.streams|;
        pendingCapacity := pendingCapacity[1..];
        if streams[k].phase.Streaming? || streams[k].buffered > 0 {
          TryAssignFlows(Model(), k);
          TryAssignCapacity(k);
        }
      }
    }

    method ReserveCapacity(capacity: nat, k: nat)
      requires k < |streams| && FlowsOk(Model())
      modifies this
      ensures Model() == Reserve(old(Model()), k, capacity)
    {
      hide Serve;
      var s := streams[k];
      var cap := capacity + s.buffered;
      if cap < s.requested {
        s := s.(requested := cap);
        if s.available > cap {
          var diff := s.available - cap;
          s := s.(available := s.available - diff);
          streams := streams[k := s];
          AssignConnectionCapacity(diff);
        } else {
          streams := streams[k := s];
        }
      } else if cap > s.requested {
        if SendClosed(s) {
          return;
        }
        streams := streams[k := s.(requested := Min(cap, MAX_U32))];
        TryAssignCapacity(k);
      }
    }

    method QueueFrame(k: nat, f: Frame)
      requires k < |streams|
      modifies this`streams, this`pendingSend
      ensures Model() == Sending.QueueFrame(old(Model()), k, f)
    {
      streams := streams[k := streams[k].(pending := streams[k].pending + [f])];
      if k !in pendingOpen {
        PushSend(k);
      }
    }

    method SendData(k: nat, payload: Bytes, eos: bool) returns (r: Option<UserError>)
      requires Inv(Model()) && k < |streams|
      modifies this
      ensures r == Refusal(old(Model()), k, payload) && Inv(Model())
      ensures r == None <==> |payload| <= MAX_WINDOW && old(streams[k]).phase.Streaming?
      ensures r == Some(PayloadTooBig) <==> |payload| > MAX_WINDOW
      ensures r == Some(InactiveStreamId) <==> |payload| <= MAX_WINDOW && IsClosed(old(streams[k]))
      ensures r.Some? ==> unchanged(this)
      ensures r.None? ==> Model() == Sending.SendData(old(Model()), k, payload, eos)
    {
      hide Inv, Account, Finish, Append, FlowsOk, Slack, Base, StreamsOk;
      if |payload| > MAX_WINDOW {
        return Some(PayloadTooBig);
      }
      if !streams[k].phase.Streaming? {
        return Some(if IsClosed(streams[k]) then InactiveStreamId else UnexpectedFrameType);
      }
      SizesAgree(Model());
      SendDataKeeps(Model(), k, payload, eos);
      AccountKeeps(Model(), k, |payload|);
      GrowOk(Model(), k, |payload|);
      AccountBuffered(k, |payload|);
      if eos {
        FinishKeeps(Model(), k);
        FinishStream(k);
      }
      AppendFrame(k, payload, eos);
      r := None;
    }

    method AccountBuffered(k: nat, n: nat)
      requires FlowsOk(Model()) && k < |streams|
      requires var b := streams[k].buffered + n;
               FlowOk(streams[k].(buffered := b, requested := Min(b, MAX_U32))) || streams[k].requested >= b
      modifies this
      ensures Model() == Account(old(Model()), k, n)
    {
      hide FlowOk, TryAssign;
      var s := streams[k].(buffered := streams[k].buffered + n);
      if s.requested < s.buffered {
        s := s.(requested := Min(s.buffered, MAX_U32));
        streams := streams[k := s];
        TryAssignCapacity(k);
      } else {
        streams := streams[k := s];
      }
    }

    method FinishStream(k: nat)
      requires FlowsOk(Model()) && k < |streams|
      modifies this
      ensures Model() == Finish(old(Model()), k)
    {
      hide FlowsOk, Reserve;
      PhaseFlows(Model(), k, Ended);
      streams := streams[k := streams[k].(phase := Ended)];
      ReserveCapacity(0, k);
    }

    method AppendFrame(k: nat, payload: Bytes, eos: bool)
      requires k < |streams| == |hist|
      modifies this`streams, this`hist, this`pendingSend
      ensures Model() == Append(old(Model()), k, payload, eos)
    {
      hist := hist[k := hist[k].(queued := hist[k].queued + payload)];
      if streams[k].available > 0 || streams[k].buffered == 0 {
        QueueFrame(k, Data(payload, eos));
      } else {
        streams := streams[k := streams[k].(pending := streams[k].pending + [Data(payload, eos)])];
      }
    }

    method RecvConnectionWindowUpdate(inc: nat)
      requires Inv(Model())
      modifies this
      ensures Model() == ConnUpdate(old(Model()), inc) && Inv(Model())
    {
      hide Inv, FlowsOk, Refill;
      ConnUpdateKeeps(Model(), inc);
      ConnWiderOk(Model(), inc);
      window := if window + inc > MAX_WINDOW then MAX_WINDOW else window + inc;
      AssignConnectionCapacity(inc);
    }

    /** The end of `transition_after`: a stream that is closed, flushed, in no queue and not referred to is removed. */
    method ReleaseStream(k: nat, referenced: bool) returns (removed: bool)
      requires Inv(Model()) && k < |streams|
      modifies this`streams
      ensures removed <==> !referenced && Releasable(old(Model()), k)
      ensures Model() == (if removed then Release(old(Model()), k) else old(Model())) && Inv(Model())
      ensures removed ==> Slack(Model()) == Slack(old(Model())) + old(streams[k].available)
    {
      hide Inv, Slack;
      var s := streams[k];
      removed := !referenced && IsClosed(s) && s.pending == [] && s.buffered == 0 && k !in pendingSend &&
                 k !in pendingCapacity && k !in pendingOpen;
      if removed {
        ReleaseKeeps(Model(), k);
        streams := streams[k := s.(available := 0, requested := 0)];
      }
    }

    /** `clear_queue` */
    method ClearQueue(k: nat)
      requires k < |streams| == |hist|
      modifies this`streams, this`hist, this`inFlight
      ensures Model() == Clear(old(Model()), k)
    {
      var s := streams[k];
      while s.pending != []
        invariant s == streams[k].(pending := s.pending)
        decreases |s.pending|
      {
        s := s.(pending := s.pending[1..]);
      }
      streams := streams[k := s.(buffered := 0, requested := 0)];
      hist := hist[k := hist[k].(cleared := true)];
      if inFlight == DataFrame(k) {
        inFlight := Drop;
      }
    }

    method ReclaimAllCapacity(k: nat)
      requires k < |streams| && FlowsOk(Put(Model(), k, streams[k].(available := 0)))
      modifies this
      ensures Model() == ReclaimAll(old(Model()), k)
    {
      hide FlowsOk, Refill;
      var s := streams[k];
      if s.available > 0 {
        streams := streams[k := s.(available := 0)];
        AssignConnectionCapacity(s.available);
      }
    }

    /** `send_reset` */
    method SendReset(k: nat, tag: nat)
      requires Inv(Model()) && k < |streams|
      modifies this
      ensures Model() == Resets.SendReset(old(Model()), k, tag) && Inv(Model())
    {
      hide Inv, FlowsOk, Base, StreamsOk, AllBytesOk, Total, ReclaimAll;
      SendResetKeeps(Model(), k, tag);
      SizesAgree(Model());
      var s := streams[k];
      if s.phase.ResetScheduled? || s.phase.Reset? {
        return;
      }
      ghost var m := Model();
      streams := streams[k := s.(phase := Reset)];
      if IsClosed(s) && s.pending == [] {
        return;
      }
      AbortOk(m, k, Reset, Some(tag));
      ClearQueue(k);
      QueueFrame(k, Other(tag));
      ReclaimAllCapacity(k);
    }

    method RecvStreamWindowUpdate(inc: nat, k: nat)
      requires Inv(Model()) && k < |streams|
      modifies this
      ensures Model() == StreamUpdate(old(Model()), k, inc) && Inv(Model())
    {
      hide Inv, TryAssign;
      StreamUpdateKeeps(Model(), k, inc);
      var s := streams[k];
      if SendClosed(s) && s.buffered == 0 {
        return;
      }
      WiderSettles(Model(), k, inc);
      streams := streams[k := s.(window := if s.window + inc > MAX_WINDOW then MAX_WINDOW else s.window + inc)];
      TryAssignCapacity(k);
    }

    /** `pop_frame` */
    method PopFrame(maxLen: nat) returns (r: Popped)
      requires Inv(Model()) && codec == None && maxLen <= MAX_FRAME
      modifies this
      ensures (Model(), r) == Pop(old(Model()), maxLen) && Inv(Model())
      ensures Balanced(old(Model()), Model()) && (Covered(old(Model())) ==> !r.Overdrawn?)
      ensures r.NoFrame? ==>
                codec == None && forall k :: 0 <= k < |streams| && k !in pendingOpen ==> !Sendable(streams[k], [])
    {
      hide Inv, Slack, FlowOk, Pop, PassedOver, PieceLen;
      ghost var target := Pop(Model(), maxLen);
      PopKeepsAll(Model(), maxLen);
      while true
        invariant Inv(Model()) && codec == None && Pop(Model(), maxLen) == target
        decreases |pendingSend|
      {
        ghost var m := Model();
        PopStep(m, maxLen);
        if pendingSend == [] {
          return NoFrame;
        }
        var k := pendingSend[0];
        HeadKnown(m);
        var s := streams[k];
        if PassedOver(s, maxLen) {
          PassingKeeps(m, maxLen);
          pendingSend := pendingSend[1..];
          continue;
        }
        if s.pending == [] {
          pendingSend := pendingSend[1..];
          streams := streams[k := s.(phase := Reset)];
          return ResetOut(k);
        }
        match s.pending[0]
        case Other(tag) =>
          pendingSend := pendingSend[1..];
          streams := streams[k := s.(pending := s.pending[1..])];
          RequeueSender(k);
          return FrameOut(k, tag);
        case Data(payload, eos) =>
          PieceBuffered(m, k, maxLen);
          var len := PieceLen(s, maxLen);
          if len > 0 && len > window {
            return Overdrawn(k);
          }
          pendingSend := pendingSend[1..];
          SendOut(k, maxLen);
          return DataOut(k, payload[..len], eos && len == |payload|);
      }
    }

    method RequeueSender(k: nat)
      requires k < |streams|
      modifies this`pendingSend
      ensures Model() == Requeue(old(Model()), k)
    {
      if streams[k].pending != [] || streams[k].phase.ResetScheduled? {
        PushSend(k);
      }
    }

    /** The accounting for one piece: on the stream, then back and forth on the connection. */
    method SendOut(k: nat, maxLen: nat)
      requires k < |streams| == |hist| && FlowOk(streams[k]) && streams[k].pending != [] && streams[k].pending[0].Data?
      requires PieceLen(streams[k], maxLen) <= streams[k].buffered
      modifies this
      ensures Model() == SendPiece(old(Model()), k, maxLen)
    {
      hide Requeue, CheckedAdd;
      var s := streams[k];
      var f := s.pending[0];
      var len := PieceLen(s, maxLen);
      streams := streams[k := AfterPiece(s, maxLen)];
      hist := hist[k := hist[k].(written := hist[k].written + f.payload[..len],
                                 finished := hist[k].finished || (f.eos && len == |f.payload|))];
      // the stream's share goes back to the connection and is spent there
      available := CheckedAdd(available, len);
      window, available := window - len, available - len;
      codec, inFlight := Some(Held(k, f.payload[len..], f.eos)), DataFrame(k);
      RequeueSender(k);
    }

    /** `reclaim_frame_inner` and `push_back_frame` */
    method ReclaimFrame() returns (more: bool)
      requires Inv(Model()) && codec.Some?
      modifies this
      ensures (Model(), more) == Reclaim(old(Model())) && Inv(Model()) && |streams| == |old(streams)|
      ensures var k := old(codec).value.key;
              && k < |old(streams)|
              && (more <==> |Payloads(streams[k].pending)| > |Payloads(old(streams)[k].pending)|)
    {
      hide StreamOk, BytesOk, NoDup, Known;
      ReclaimKeeps(Model());
      var h := codec.value;
      var flight := inFlight;
      inFlight, codec := Nothing, None;
      if flight == Drop {
        return false;
      }
      if h.rest != [] {
        streams := streams[h.key := streams[h.key].(pending := [Data(h.rest, h.eos)] + streams[h.key].pending)];
        if streams[h.key].available > 0 {
          PushSend(h.key);
        }
        return true;
      }
      return false;
    }

    /** `pop_pending_open`, when the peer admits one more stream, and its place in front of all others. */
    method OpenPending()
      requires Inv(Model()) && pendingOpen != []
      modifies this
      ensures Model() == OpenNext(old(Model())) && Inv(Model())
    {
      hide Inv, TryAssign, Settled, Base, AllBytesOk, StreamOk;
      OpenNextKeeps(Model());
      OpenNextOk(Model());
      var k := pendingOpen[0];
      pendingOpen := pendingOpen[1..];
      if k !in pendingSend {
        pendingSend := [k] + pendingSend;
      }
      TryAssignCapacity(k);
    }

    /** `poll_complete`, with a codec that is ready when the entries of `ready` say so, in turn, and a peer that admits
        one more stream in the rounds that `admits` names. What it does is a run of the scheduler; when it reports that
        it is done, no admitted stream has a frame that could be sent; it stops before that only if the codec is not
        ready; and with a codec that is ready often enough it is done. */
    method PollComplete(maxLen: nat, ready: seq<bool>, admits: seq<bool>)
      returns (p: Poll, frames: seq<Popped>, ghost es: seq<Event>)
      requires Inv(Model()) && maxLen <= MAX_FRAME
      modifies this
      ensures Inv(Model()) && Reaches(old(Model()), es, Model(), frames)
      ensures p.Done? ==>
                codec == None && forall k :: 0 <= k < |streams| && k !in pendingOpen ==> !Sendable(streams[k], [])
      ensures p.Pending? ==> !ReadyAt(ready, |frames|) || !ReadyAt(ready, |frames| + 1)
      ensures Covered(old(Model())) ==> !p.Failed?
      ensures maxLen > 0 ==> |frames| + Work(Model()) <= Work(old(Model()))
      ensures Covered(old(Model())) && maxLen > 0 && ReadyFor(ready, Work(old(Model())) + 2) ==> p.Done?
    {
      hide Inv, Slack, Step, Possible, Out, Reaches, Pop, Reclaim, OpenNext, Sendable, Work;
      ghost var m0 := Model();
      ReachesNothing(m0);
      frames, es := [], [];
      if ready == [] || !ready[0] {
        return Pending, frames, es;
      }
      es := GiveBackIfAny(m0, es, frames);
      var i, round := 1, 0;
      while true
        invariant Inv(Model()) && codec == None && 1 <= i <= |ready| && Reaches(m0, es, Model(), frames)
        invariant Covered(m0) ==> Covered(Model())
        invariant i == |frames| + 1 && (maxLen > 0 ==> |frames| + Work(Model()) <= Work(m0))
        decreases |ready| - i
      {
        es := AdmitIf(round < |admits| && admits[round], m0, es, frames);
        round := round + 1;
        var r;
        r, es := TakeFrame(maxLen, m0, es, frames);
        if r.Overdrawn? {
          return Failed, frames, es;
        }
        if r.NoFrame? {
          // nothing is in flight that flushing the codec could give back
          return if i < |ready| && ready[i] then Done else Pending, frames, es;
        }
        frames := frames + [r];
        if i == |ready| || !ready[i] {
          return Pending, frames, es;
        }
        i := i + 1;
        es := GiveBackIfAny(m0, es, frames);
      }
    }

    method AdmitIf(admitted: bool, ghost m0: Sched, ghost es: seq<Event>, ghost frames: seq<Popped>)
      returns (ghost fs: seq<Event>)
      requires Inv(Model()) && Reaches(m0, es, Model(), frames) && codec == None
      modifies this
      ensures Inv(Model()) && codec == None && Reaches(m0, fs, Model(), frames)
      ensures (Covered(old(Model())) ==> Covered(Model())) && Work(Model()) == Work(old(Model()))
    {
      hide Inv, Slack, Step, Possible, Out, Reaches, OpenNext, Work;
      fs := es;
      if pendingOpen != [] && admitted {
        ghost var m := Model();
        OpenNextKeeps(m);
        OpenDrains(m);
        AdmitEvent(m);
        ReachesOn(m0, es, m, frames, Admit);
        OpenPending();
        fs := es + [Admit];
        assert frames + [] == frames;
      }
    }

    method TakeFrame(maxLen: nat, ghost m0: Sched, ghost es: seq<Event>, ghost frames: seq<Popped>)
      returns (r: Popped, ghost fs: seq<Event>)
      requires Inv(Model()) && codec == None && maxLen <= MAX_FRAME && Reaches(m0, es, Model(), frames)
      modifies this
      ensures Inv(Model()) && (Covered(old(Model())) ==> Covered(Model()) && !r.Overdrawn?)
      ensures Reaches(m0, fs, Model(), if r.NoFrame? || r.Overdrawn? then frames else frames + [r])
      ensures maxLen > 0 ==> Work(Model()) + (if r.NoFrame? || r.Overdrawn? then 0 else 1) <= Work(old(Model()))
      ensures r.NoFrame? ==>
                codec == None && forall k :: 0 <= k < |streams| && k !in pendingOpen ==> !Sendable(streams[k], [])
    {
      hide Inv, Slack, Step, Possible, Out, Reaches, Pop, Sendable, Work;
      ghost var m := Model();
      TakeEvent(m, maxLen);
      if maxLen > 0 {
        TakeDrains(m, maxLen);
      }
      ReachesOn(m0, es, m, frames, Take(maxLen));
      assert frames + [] == frames;
      r := PopFrame(maxLen);
      fs := es + [Take(maxLen)];
    }

    /** `reclaim_frame` */
    method GiveBackIfAny(ghost m0: Sched, ghost es: seq<Event>, ghost frames: seq<Popped>)
      returns (ghost fs: seq<Event>)
      requires Inv(Model()) && Reaches(m0, es, Model(), frames)
      modifies this
      ensures Inv(Model()) && codec == None && Reaches(m0, fs, Model(), frames)
      ensures (Covered(old(Model())) ==> Covered(Model())) && Work(Model()) <= Work(old(Model()))
    {
      hide Inv, Slack, Step, Possible, Out, Reaches, Reclaim, Work;
      fs := es;
      if codec.Some? {
        ReclaimDrains(Model());
        ReclaimKeeps(Model());
        GiveBackEvent(Model());
        ReachesOn(m0, es, Model(), frames, GiveBack);
        var _ := ReclaimFrame();
        fs := es + [GiveBack];
        assert frames + [] == frames;
      }
    }

    /** The part of `apply_remote_settings` for a smaller initial window; false if a window leaves its range. */
    method LowerInitialWindow(dec: nat) returns (ok: bool)
      requires Inv(Model())
      modifies this
      ensures ok <==> Narrow(old(Model()), dec).Some?
      ensures ok ==> Model() == Narrow(old(Model()), dec).value && Inv(Model())
    {
      hide Inv, FlowsOk, Refill, StreamsOk, AllBytesOk, Base;
      NarrowKeepsAll(Model(), dec);
      NarrowStart(Model(), dec);
      ghost var target := NarrowFrom(Model(), 0, dec, 0);
      var total: nat := 0;
      var k := 0;
      while k < |streams|
        invariant k <= |streams| && NarrowFrom(Model(), k, dec, total) == target
      {
        var s := streams[k];
        if !(SendClosed(s) && s.buffered == 0) {
          if s.window - dec < MIN_WINDOW {
            return false;
          }
          var w := s.window - dec;
          var reclaim: nat := if s.available > Pos(w) then s.available - Pos(w) else 0;
          streams := streams[k := s.(window := w, available := s.available - reclaim)];
          total := total + reclaim;
        }
        k := k + 1;
      }
      AssignConnectionCapacity(total);
      ok := true;
    }
  }

  lemma AdmitEvent(m: Sched)
    requires Inv(m) && m.openQ != []
    ensures Possible(m, Admit) && Step(m, Admit) == OpenNext(m) && Out(m, Admit) == []
  {
    hide Inv;
  }

  lemma GiveBackEvent(m: Sched)
    requires Inv(m) && m.codec.Some?
    ensures Possible(m, GiveBack) && FlightOk(m) && Step(m, GiveBack) == Reclaim(m).0 && Out(m, GiveBack) == []
  {
    hide StreamsOk, AllBytesOk;
  }

  lemma TakeEvent(m: Sched, maxLen: nat)
    requires Inv(m) && m.codec == None && maxLen <= MAX_FRAME
    ensures var (m1, r) := Pop(m, maxLen);
            && Possible(m, Take(maxLen)) && Step(m, Take(maxLen)) == m1
            && Out(m, Take(maxLen)) == if r.NoFrame? || r.Overdrawn? then [] else [r]
  {
    hide Inv, Pop;
  }

  lemma NarrowStart(m: Sched, dec: nat)
    requires Inv(m)
    ensures match NarrowFrom(m, 0, dec, 0) case None => true case Some((m1, _)) => FlowsOk(m1)
  {
    hide StreamsOk, AllBytesOk, Base, FlowsOk, NarrowFrom;
    NarrowKeeps(m, 0, dec, 0);
  }

  lemma GrowOk(m: Sched, k: nat, n: nat)
    requires Inv(m) && k < |m.streams|
    ensures var s := m.streams[k].(buffered := m.streams[k].buffered + n);
            FlowOk(s) && (s.requested < s.buffered ==> FlowOk(s.(requested := Min(s.buffered, MAX_U32))))
  {
    hide BytesOk;
    InvAt(m, k);
  }
}
