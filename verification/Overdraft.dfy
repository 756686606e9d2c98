/**
 Where the connection window is overflowed: the state that loses the balance is reached by a run, and a run goes on from
 it to a DATA frame that the connection window no longer admits, where `FlowControl::send_data` asserts that it does.
 */
module Overdraft {
  import opened Common
  import opened Scheduler
  import opened Sending
  import opened Windows
  import opened Popping
  import opened Prioritize

  /** A run from m leads to m1. */
  ghost predicate Leads(m: Sched, es: seq<Event>, m1: Sched)
  {
    Inv(m) && PossibleRun(m, es) && Run(m, es) == m1
  }

  lemma LeadsStep(m: Sched, e: Event, es: seq<Event>, m1: Sched)
    requires Inv(m) && Possible(m, e) && Leads(Step(m, e), es, m1)
    ensures Leads(m, [e] + es, m1)
  {
    hide Inv, Possible, Step;
    StepKeeps(m, e);
    assert ([e] + es)[0] == e && ([e] + es)[1..] == es;
  }

  lemma LeadsNowhere(m: Sched)
    requires Inv(m)
    ensures Leads(m, [], m)
  {
    hide Inv;
  }

  lemma LeadsOnce(m: Sched, e: Event)
    requires Inv(m) && Possible(m, e)
    ensures Inv(Step(m, e)) && Leads(m, [e], Step(m, e))
  {
    hide Inv, Possible, Step, Leads;
    StepKeeps(m, e);
    LeadsNowhere(Step(m, e));
    LeadsStep(m, e, [], Step(m, e));
    assert [e] + [] == [e];
  }

  lemma {:induction false} LeadsOn(m: Sched, es: seq<Event>, m1: Sched, fs: seq<Event>, m2: Sched)
    requires Leads(m, es, m1) && Leads(m1, fs, m2)
    ensures Leads(m, es + fs, m2)
    decreases |es|
  {
    hide Inv, Possible, Step;
    if es == [] {
      assert es + fs == fs;
    } else {
      StepKeeps(m, es[0]);
      LeadsOn(Step(m, es[0]), es[1..], m1, fs, m2);
      LeadsStep(m, es[0], es[1..] + fs, m2);
      assert es + fs == [es[0]] + (es[1..] + fs);
    }
  }

  /** A connection with one stream, which has been given q octets. */
  function One(s: Stream, q: Bytes, written: Bytes, window: int, available: int, sendQ: seq<nat>): Sched
  {
    Sched([s], [History(q, written, false, false)], window, available, sendQ, [], [], Nothing, None)
  }

  function Idling(w: nat, held: nat): Stream
  {
    Stream(w, held, held, 0, Streaming, false, [])
  }

  /** The stream is to send p, and window and capacity are there for that. */
  function Laden(p: Bytes): Stream
  {
    Stream(|p|, |p|, |p|, |p|, Streaming, false, if p == [] then [] else [Data(p, false)])
  }

  function Draining(q: Bytes, written: Bytes, p: Bytes): Sched
  {
    One(Laden(p), q, written, |p|, 1, if p == [] then [] else [0])
  }

  // ----- how the balance is lost

  /** The events that lead to a stream holding all but one octet of a full window. */
  function Opening(): seq<Event>
  {
    [Create(MAX_WINDOW)] + [Headers(0, false, false, 0)] + [Take(MAX_FRAME)] + [Request(0, MAX_WINDOW - 1)]
  }

  function Fresh(): Stream
  {
    Stream(MAX_WINDOW, 0, 0, 0, Idle, false, [])
  }

  function Opened(): Stream
  {
    Stream(MAX_WINDOW, 0, 0, 0, Streaming, false, [Other(0)])
  }

  /** A full connection window, of which some is spare. */
  function Full(s: Stream, available: nat, sendQ: seq<nat>): Sched
  {
    One(s, [], [], MAX_WINDOW, available, sendQ)
  }

  lemma CreatedIs()
    ensures NewStream(Start(MAX_WINDOW), MAX_WINDOW) == Full(Fresh(), MAX_WINDOW, [])
  {
  }

  lemma Created()
    ensures Leads(Start(MAX_WINDOW), [Create(MAX_WINDOW)], Full(Fresh(), MAX_WINDOW, []))
  {
    hide Inv, Leads, NewStream, Start, Full;
    StartOk(MAX_WINDOW);
    LeadsOnce(Start(MAX_WINDOW), Create(MAX_WINDOW));
    CreatedIs();
  }

  lemma HeadersInIs()
    ensures SendHeaders(Full(Fresh(), MAX_WINDOW, []), 0, false, false, 0) == Full(Opened(), MAX_WINDOW, [0])
  {
    assert [] + [Other(0)] == [Other(0)];
    assert [Fresh()][0 := Opened()] == [Opened()];
    var s1 := Fresh().(phase := Streaming);
    assert [Fresh()][0 := s1] == [s1] && [s1][0 := Opened()] == [Opened()];
  }

  lemma HeadersIn()
    requires Inv(Full(Fresh(), MAX_WINDOW, []))
    ensures Leads(Full(Fresh(), MAX_WINDOW, []), [Headers(0, false, false, 0)], Full(Opened(), MAX_WINDOW, [0]))
  {
    hide Inv, Leads, SendHeaders;
    LeadsOnce(Full(Fresh(), MAX_WINDOW, []), Headers(0, false, false, 0));
    HeadersInIs();
  }

  lemma HeadersOutIs()
    requires Inv(Full(Opened(), MAX_WINDOW, [0]))
    ensures Pop(Full(Opened(), MAX_WINDOW, [0]), MAX_FRAME).0 == Full(Idling(MAX_WINDOW, 0), MAX_WINDOW, [])
  {
    hide Inv;
  }

  lemma HeadersOut()
    requires Inv(Full(Opened(), MAX_WINDOW, [0]))
    ensures Leads(Full(Opened(), MAX_WINDOW, [0]), [Take(MAX_FRAME)], Full(Idling(MAX_WINDOW, 0), MAX_WINDOW, []))
  {
    hide Inv, Leads, Pop;
    LeadsOnce(Full(Opened(), MAX_WINDOW, [0]), Take(MAX_FRAME));
    HeadersOutIs();
  }

  lemma CapacityGivenIs()
    requires FlowsOk(Full(Idling(MAX_WINDOW, 0), MAX_WINDOW, []))
    ensures Reserve(Full(Idling(MAX_WINDOW, 0), MAX_WINDOW, []), 0, MAX_WINDOW - 1) ==
            Full(Idling(MAX_WINDOW, MAX_WINDOW - 1), 1, [])
  {
  }

  lemma CapacityGiven()
    requires Inv(Full(Idling(MAX_WINDOW, 0), MAX_WINDOW, []))
    ensures Leads(Full(Idling(MAX_WINDOW, 0), MAX_WINDOW, []), [Request(0, MAX_WINDOW - 1)],
                  Full(Idling(MAX_WINDOW, MAX_WINDOW - 1), 1, []))
  {
    hide Inv, Leads, Reserve, FlowsOk;
    LeadsOnce(Full(Idling(MAX_WINDOW, 0), MAX_WINDOW, []), Request(0, MAX_WINDOW - 1));
    OkFlows(Full(Idling(MAX_WINDOW, 0), MAX_WINDOW, []));
    CapacityGivenIs();
  }

  lemma Reached(m: Sched, es: seq<Event>, m1: Sched)
    requires Leads(m, es, m1)
    ensures Inv(m1)
  {
    hide Inv, PossibleRun, Run;
    RunKeeps(m, es);
  }

  lemma BalanceLost()
    ensures var m := Full(Idling(MAX_WINDOW, MAX_WINDOW - 1), 1, []);
            Inv(m) && Conserved(m) && !Conserved(ConnUpdate(m, 1))
  {
    hide Inv, Conserved, ConnUpdate;
    OverflowLosesBalance();
  }

  /** The state in which one more octet loses the balance is reached by a run. */
  lemma OverflowReached()
    ensures var m := Full(Idling(MAX_WINDOW, MAX_WINDOW - 1), 1, []);
            && Leads(Start(MAX_WINDOW), Opening(), m) && Inv(m) && Conserved(m) && !Conserved(ConnUpdate(m, 1))
  {
    hide Inv, Leads, Full, Start, Conserved, ConnUpdate;
    BalanceLost();
    var m0, m1 := Start(MAX_WINDOW), Full(Fresh(), MAX_WINDOW, []);
    var m2, m3 := Full(Opened(), MAX_WINDOW, [0]), Full(Idling(MAX_WINDOW, 0), MAX_WINDOW, []);
    Created();
    Reached(m0, [Create(MAX_WINDOW)], m1);
    HeadersIn();
    Reached(m1, [Headers(0, false, false, 0)], m2);
    HeadersOut();
    Reached(m2, [Take(MAX_FRAME)], m3);
    CapacityGiven();
    var m4 := Full(Idling(MAX_WINDOW, MAX_WINDOW - 1), 1, []);
    LeadsOn(m0, [Create(MAX_WINDOW)], m1, [Headers(0, false, false, 0)], m2);
    LeadsOn(m0, [Create(MAX_WINDOW)] + [Headers(0, false, false, 0)], m2, [Take(MAX_FRAME)], m3);
    LeadsOn(m0, [Create(MAX_WINDOW)] + [Headers(0, false, false, 0)] + [Take(MAX_FRAME)], m3,
            [Request(0, MAX_WINDOW - 1)], m4);
  }

  // ----- and where it ends

  /** The window stays, and yet there is one octet more to hand out. */
  lemma Overflowed()
    requires Inv(Full(Idling(MAX_WINDOW, MAX_WINDOW - 1), 1, []))
    ensures Leads(Full(Idling(MAX_WINDOW, MAX_WINDOW - 1), 1, []), [ConnWindow(1)],
                  Full(Idling(MAX_WINDOW, MAX_WINDOW - 1), 2, []))
  {
    hide Inv, Leads;
    LeadsOnce(Full(Idling(MAX_WINDOW, MAX_WINDOW - 1), 1, []), ConnWindow(1));
    ConnWiderOk(Full(Idling(MAX_WINDOW, MAX_WINDOW - 1), 1, []), 1);
  }

  /** The stream is given as much as its window admits, and takes one octet of the two. */
  lemma LoadGiven(p: Bytes)
    requires |p| == MAX_WINDOW && Inv(Full(Idling(MAX_WINDOW, MAX_WINDOW - 1), 2, []))
    ensures Leads(Full(Idling(MAX_WINDOW, MAX_WINDOW - 1), 2, []), [Give(0, p, false)], Draining(p, [], p))
  {
    hide Inv, Leads;
    var m := Full(Idling(MAX_WINDOW, MAX_WINDOW - 1), 2, []);
    LeadsOnce(m, Give(0, p, false));
    assert [] + p == p && [] + [Data(p, false)] == [Data(p, false)];
    assert SendData(m, 0, p, false) == Draining(p, [], p);
  }

  /** The stream's own window is opened again by one octet. */
  lemma WindowOpened(q: Bytes)
    requires Inv(Draining(q, q, []))
    ensures Leads(Draining(q, q, []), [StreamWindow(0, 1)], One(Idling(1, 0), q, q, 0, 1, []))
  {
    hide Inv, Leads;
    LeadsOnce(Draining(q, q, []), StreamWindow(0, 1));
    assert StreamUpdate(Draining(q, q, []), 0, 1) == One(Idling(1, 0), q, q, 0, 1, []);
  }

  lemma LastGiven(q: Bytes)
    requires Inv(One(Idling(1, 0), q, q, 0, 1, []))
    ensures Leads(One(Idling(1, 0), q, q, 0, 1, []), [Give(0, [0], false)], One(Laden([0]), q + [0], q, 0, 0, [0]))
  {
    hide Inv, Leads;
    var m := One(Idling(1, 0), q, q, 0, 1, []);
    LeadsOnce(m, Give(0, [0], false));
    assert [] + [Data([0], false)] == [Data([0], false)];
    assert SendData(m, 0, [0], false) == One(Laden([0]), q + [0], q, 0, 0, [0]);
  }

  lemma Exhausted(q: Bytes)
    requires Inv(One(Laden([0]), q + [0], q, 0, 0, [0]))
    ensures Pop(One(Laden([0]), q + [0], q, 0, 0, [0]), MAX_FRAME).1 == Overdrawn(0)
  {
    hide Inv;
  }

  /** The events that send p, in the largest frames. */
  function Drain(p: Bytes): seq<Event>
  {
    if p == [] then [] else [Take(MAX_FRAME)] + ([GiveBack] + Drain(p[Min(|p|, MAX_FRAME)..]))
  }

  function Sent(q: Bytes, written: Bytes, p: Bytes): Sched
    requires p != []
  {
    var n: nat := Min(|p|, MAX_FRAME);
    Draining(q, written + p[..n], p[n..]).(streams := [Laden(p[n..]).(pending := [])], sendQ := [],
                                           codec := Some(Held(0, p[n..], false)), inFlight := DataFrame(0))
  }

  lemma PieceTaken(q: Bytes, written: Bytes, p: Bytes)
    requires p != [] && |p| <= MAX_WINDOW && Inv(Draining(q, written, p))
    ensures Pop(Draining(q, written, p), MAX_FRAME).0 == Sent(q, written, p)
  {
    hide Inv;
  }

  lemma PieceBack(q: Bytes, written: Bytes, p: Bytes)
    requires p != [] && |p| <= MAX_WINDOW
    ensures var n: nat := Min(|p|, MAX_FRAME); Reclaim(Sent(q, written, p)).0 == Draining(q, written + p[..n], p[n..])
  {
    var n: nat := Min(|p|, MAX_FRAME);
    assert [Data(p[n..], false)] + [] == [Data(p[n..], false)];
  }

  /** However much the stream has to send, it sends it all, and the one octet stays. */
  lemma {:induction false} Drained(q: Bytes, written: Bytes, p: Bytes)
    requires |p| <= MAX_WINDOW && Inv(Draining(q, written, p)) && written + p == q
    ensures Leads(Draining(q, written, p), Drain(p), Draining(q, q, []))
    decreases |p|
  {
    hide Inv, Pop, Reclaim, Draining, Sent, Leads;
    if p == [] {
      assert written == q;
      LeadsNowhere(Draining(q, q, []));
    } else {
      var n: nat := Min(|p|, MAX_FRAME);
      var m, m1, m2 := Draining(q, written, p), Sent(q, written, p), Draining(q, written + p[..n], p[n..]);
      CodecFree(q, written, p);
      PieceTaken(q, written, p);
      StepKeeps(m, Take(MAX_FRAME));
      PieceBack(q, written, p);
      StepKeeps(m1, GiveBack);
      assert written + p[..n] + p[n..] == q;
      Drained(q, written + p[..n], p[n..]);
      LeadsStep(m1, GiveBack, Drain(p[n..]), Draining(q, q, []));
      LeadsStep(m, Take(MAX_FRAME), [GiveBack] + Drain(p[n..]), Draining(q, q, []));
    }
  }

  lemma CodecFree(q: Bytes, written: Bytes, p: Bytes)
    ensures Draining(q, written, p).codec == None
    ensures p != [] ==> Sent(q, written, p).codec.Some?
  {
  }

  /** One WINDOW_UPDATE of one octet over the limit, and as much data as the window then was: the next octet is more
      than the connection window admits. */
  lemma OverflowOverdraws(p: Bytes)
    requires |p| == MAX_WINDOW
    ensures var es := Opening() + [ConnWindow(1)] + [Give(0, p, false)] + Drain(p) + [StreamWindow(0, 1)] +
                      [Give(0, [0], false)];
            var start := Start(MAX_WINDOW);
            && Inv(start) && PossibleRun(start, es)
            && var m := Run(start, es);
               Inv(m) && m.codec == None && Pop(m, MAX_FRAME).1 == Overdrawn(0)
  {
    hide Inv, Leads, Full, Start, Draining, Opening, Pop;
    var m0, m1 := Start(MAX_WINDOW), Full(Idling(MAX_WINDOW, MAX_WINDOW - 1), 1, []);
    var m2, m3 := Full(Idling(MAX_WINDOW, MAX_WINDOW - 1), 2, []), Draining(p, [], p);
    var m4, m5, m6 := Draining(p, p, []), One(Idling(1, 0), p, p, 0, 1, []), One(Laden([0]), p + [0], p, 0, 0, [0]);
    OverflowReached();
    Reached(m0, Opening(), m1);
    Overflowed();
    LeadsOn(m0, Opening(), m1, [ConnWindow(1)], m2);
    Reached(m1, [ConnWindow(1)], m2);
    LoadGiven(p);
    var e3 := Opening() + [ConnWindow(1)] + [Give(0, p, false)];
    LeadsOn(m0, Opening() + [ConnWindow(1)], m2, [Give(0, p, false)], m3);
    Reached(m0, e3, m3);
    assert [] + p == p;
    Drained(p, [], p);
    LeadsOn(m0, e3, m3, Drain(p), m4);
    Reached(m0, e3 + Drain(p), m4);
    WindowOpened(p);
    LeadsOn(m0, e3 + Drain(p), m4, [StreamWindow(0, 1)], m5);
    Reached(m0, e3 + Drain(p) + [StreamWindow(0, 1)], m5);
    LastGiven(p);
    LeadsOn(m0, e3 + Drain(p) + [StreamWindow(0, 1)], m5, [Give(0, [0], false)], m6);
    Reached(m0, e3 + Drain(p) + [StreamWindow(0, 1)] + [Give(0, [0], false)], m6);
    Exhausted(p);
    assert Leads(m0, e3 + Drain(p) + [StreamWindow(0, 1)] + [Give(0, [0], false)], m6);
    LeadsMeans(m0, e3 + Drain(p) + [StreamWindow(0, 1)] + [Give(0, [0], false)], m6);
  }

  lemma LeadsMeans(m: Sched, es: seq<Event>, m1: Sched)
    requires Leads(m, es, m1)
    ensures Inv(m) && PossibleRun(m, es) && Run(m, es) == m1
  {
  }
}
