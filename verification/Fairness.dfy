/**
 The order of service over whole runs: nobody is overtaken but by a stream just admitted, and a stream that stays ready
 is served after at most as many frames as streams are in front of it.
 */
module Fairness {
  import opened Common
  import opened Scheduler
  import opened Sending
  import opened Windows
  import opened Resets
  import opened Popping
  import opened Turns
  import opened Prioritize

  /** In every step but a turn to send: nobody loses a place in the queue for sending, whoever comes stands behind, and
      only a stream just admitted goes to the front; the streams that wait to be admitted are admitted in order; and the
      queue for capacity at most moves on. */
  lemma StepOrderly(m: Sched, e: Event)
    requires Inv(m) && Possible(m, e) && !e.Take?
    ensures var m1 := Step(m, e);
            && MovedOn(m.capQ, m1.capQ)
            && (e.Admit? ==> m.openQ == [m.openQ[0]] + m1.openQ && m1.sendQ == [m.openQ[0]] + m.sendQ)
            && (!e.Admit? ==> m.sendQ <= m1.sendQ && m.openQ <= m1.openQ)
            && (!e.Admit? && !e.Headers? ==> m1.openQ == m.openQ)
  {
    hide Inv, MovedOn, NewStream, SendHeaders, SendData, SendTrailers, Reserve, StreamUpdate, ConnUpdate, Narrow,
         Widen, SendReset, Abort, ImplicitReset, OpenNext, Pop, Reclaim, FlowsOk, Refusal;
    match e
    case Create(window) => NewOrderly(m, window);
    case Headers(k, eos, localInit, tag) => HeadersOrderly(m, k, eos, localInit, tag);
    case Give(k, payload, eos) =>
      SameQueues(m, m);
      if Refusal(m, k, payload) == None { SendDataOrderly(m, k, payload, eos); }
    case Trailers(k, tag) =>
      SameQueues(m, m);
      if m.streams[k].phase.Streaming? { SendTrailersOrderly(m, k, tag); }
    case Request(k, capacity) =>
      InvFlows(m);
      ReserveOrderly(m, k, capacity);
    case StreamWindow(k, inc) => StreamUpdateOrderly(m, k, inc);
    case ConnWindow(inc) => ConnUpdateOrderly(m, inc);
    case LowerInitial(dec) => NarrowOrderly(m, dec);
    case RaiseInitial(inc) => WidenOrderly(m, 0, inc);
    case ResetStream(k, tag) => SendResetOrderly(m, k, tag);
    case Broken(k, byPeer) =>
      var s := m.streams[k];
      AbortOrderly(m, k, if IsClosed(s) && !(byPeer && k in m.sendQ) then s.phase else Reset, None);
    case Abandon(k) => ImplicitResetOrderly(m, k);
    case PeerEnds(k) => PutOrderly(m, k, m.streams[k].(remoteEnded := true));
    case Admit =>
      OpenNextKeeps(m);
      OpenNextMoves(m);
    case GiveBack =>
      InvFlight(m);
      ReclaimOrderly(m);
    case Remove(k) => PutOrderly(m, k, m.streams[k].(available := 0, requested := 0));
  }

  function Takes(es: seq<Event>): nat
  {
    if es == [] then 0 else (if es[0].Take? then 1 else 0) + Takes(es[1..])
  }

  function Admits(es: seq<Event>): nat
  {
    if es == [] then 0 else (if es[0].Admit? then 1 else 0) + Admits(es[1..])
  }

  /** The event is a turn, and stream k gets it. */
  predicate Serves(m: Sched, e: Event, k: nat)
    requires Inv(m) && Possible(m, e)
  {
    && e.Take?
    && var r := Pop(m, e.maxLen).1;
       !r.NoFrame? && !r.Overdrawn? && r.key == k
  }

  predicate ServedIn(m: Sched, es: seq<Event>, k: nat)
    requires Inv(m) && PossibleRun(m, es)
    decreases |es|
  {
    es != [] && (Serves(m, es[0], k) || (StepKeeps(m, es[0]); ServedIn(Step(m, es[0]), es[1..], k)))
  }

  /** Until it is served, stream k is ready at every turn. */
  predicate StaysReady(m: Sched, es: seq<Event>, k: nat)
    requires Inv(m) && PossibleRun(m, es)
    decreases |es|
  {
    es != [] ==>
      && (es[0].Take? ==> k < |m.streams| && Ready(m.streams[k]))
      && (Serves(m, es[0], k) || (StepKeeps(m, es[0]); StaysReady(Step(m, es[0]), es[1..], k)))
  }

  /** A turn that stream k does not get brings it closer to the front. */
  lemma Closer(m: Sched, maxLen: nat, k: nat)
    requires Inv(m) && m.codec == None && maxLen <= MAX_FRAME && Covered(m)
    requires k in m.sendQ && k < |m.streams| && Ready(m.streams[k]) && !Serves(m, Take(maxLen), k)
    ensures k in Pop(m, maxLen).0.sendQ && Place(Pop(m, maxLen).0.sendQ, k) < Place(m.sendQ, k)
  {
    hide Inv, Pop, Slack, Ready, WentOut, FirstReady;
    TakeTurn(m, maxLen);
    PopKeepsAll(m, maxLen);
    var (m1, r) := Pop(m, maxLen);
    var n := FirstReady(m, m.sendQ);
    var i := Place(m.sendQ, k);
    assert m.sendQ[i] == k;
    assert n <= i;
    assert m.sendQ[n] != k;
    PlaceMoves(m.sendQ, m1.sendQ, k, n + 1);
  }

  /** Stream k is still queued, and no further back than those that were admitted put it. */
  lemma KeepsPlace(m: Sched, e: Event, k: nat)
    requires Inv(m) && Possible(m, e) && !e.Take? && k in m.sendQ
    ensures var q := Step(m, e).sendQ;
            k in q && Place(q, k) <= Place(m.sendQ, k) + if e.Admit? then 1 else 0
  {
    hide Inv, Step, MovedOn, Place, Possible;
    StepOrderly(m, e);
    if e.Admit? {
      AdmitPossible(m);
      PlaceBehind(m.sendQ, m.openQ[0], k);
    } else {
      assert m.sendQ[0..] == m.sendQ;
      PlaceMoves(m.sendQ, Step(m, e).sendQ, k, 0);
    }
  }

  lemma AdmitPossible(m: Sched)
    requires Inv(m) && Possible(m, Admit)
    ensures m.openQ != []
  {
  }

  /** A stream that stays ready is served at the latest when everybody who was in front of it, or was admitted since,
      could have had one turn. */
  lemma {:induction false} ServedSoon(m: Sched, es: seq<Event>, k: nat)
    requires Inv(m) && Covered(m) && PossibleRun(m, es) && LimitedRun(m, es)
    requires k in m.sendQ && StaysReady(m, es, k)
    requires Takes(es) > Place(m.sendQ, k) + Admits(es)
    ensures ServedIn(m, es, k)
    decreases |es|
  {
    hide Inv, Slack, Step, Possible, Place, Ready, Serves, Loss, WithinLimit;
    var e := es[0];
    StepKeeps(m, e);
    if !Serves(m, e, k) {
      var m1 := Step(m, e);
      if e.Take? {
        TakeStep(m, e);
        Closer(m, e.maxLen, k);
      } else {
        KeepsPlace(m, e, k);
      }
      ServedSoon(m1, es[1..], k);
    }
  }

  lemma TakeStep(m: Sched, e: Event)
    requires Inv(m) && Possible(m, e) && e.Take?
    ensures m.codec == None && e.maxLen <= MAX_FRAME && Step(m, e) == Pop(m, e.maxLen).0
  {
  }
}
