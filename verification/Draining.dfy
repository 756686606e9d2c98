/**
 How much there is to hand to the codec: every frame that goes out makes it less, so the loop of `poll_complete` in
 proto/streams/prioritize.rs comes to an end.
 */
module Draining {
  import opened Common
  import opened Scheduler
  import opened Sending
  import opened Popping
  import opened Turns

  /** What one stream has to send: its frames, the octets in them, and a reset that is due. */
  function StreamWork(s: Stream): nat
  {
    |s.pending| + |Payloads(s.pending)| + if s.phase.ResetScheduled? then 1 else 0
  }

  function StreamsWork(ss: seq<Stream>): nat
  {
    if ss == [] then 0 else StreamWork(ss[0]) + StreamsWork(ss[1..])
  }

  /** What the codec will give back counts as one more frame. */
  function HeldWork(m: Sched): nat
  {
    if m.codec.Some? && m.inFlight.DataFrame? && m.codec.value.rest != [] then 1 + |m.codec.value.rest| else 0
  }

  function Work(m: Sched): nat
  {
    StreamsWork(m.streams) + HeldWork(m)
  }

  /** Only stream k differs in what it has to send. */
  lemma {:induction false} OneDiffers(ss: seq<Stream>, ss1: seq<Stream>, k: nat)
    requires |ss1| == |ss| && k < |ss|
    requires forall j :: 0 <= j < |ss| && j != k ==> StreamWork(ss1[j]) == StreamWork(ss[j])
    ensures StreamsWork(ss1) - StreamWork(ss1[k]) == StreamsWork(ss) - StreamWork(ss[k])
    decreases |ss|
  {
    hide StreamWork;
    if k == 0 {
      NoneDiffers(ss[1..], ss1[1..]);
    } else {
      OneDiffers(ss[1..], ss1[1..], k - 1);
    }
  }

  lemma {:induction false} NoneDiffers(ss: seq<Stream>, ss1: seq<Stream>)
    requires |ss1| == |ss| && forall j :: 0 <= j < |ss| ==> StreamWork(ss1[j]) == StreamWork(ss[j])
    ensures StreamsWork(ss1) == StreamsWork(ss)
    decreases |ss|
  {
    hide StreamWork;
    if ss != [] {
      NoneDiffers(ss[1..], ss1[1..]);
    }
  }

  /** The frame that went out is no longer to be sent. */
  lemma LessToSend(m: Sched, m1: Sched, r: Popped, maxLen: nat)
    requires m.codec == None && WentOut(m, m1, r, maxLen) && maxLen > 0 && |m1.streams| == |m.streams|
    requires !r.NoFrame? && !r.Overdrawn? && r.key < |m.streams| && Ready(m.streams[r.key])
    requires m.streams[r.key].available >= 0
    ensures StreamWork(m1.streams[r.key]) + HeldWork(m1) < StreamWork(m.streams[r.key])
  {
    var s := m.streams[r.key];
    if s.pending != [] {
      PayloadsHead(s.pending);
    }
  }

  /** Every frame that is taken makes what is left to send less; a turn that hands out nothing leaves it. */
  lemma TakeDrains(m: Sched, maxLen: nat)
    requires Inv(m) && m.codec == None && 0 < maxLen
    ensures var (m1, r) := Pop(m, maxLen);
            Work(m1) + (if r.NoFrame? || r.Overdrawn? then 0 else 1) <= Work(m)
  {
    hide Inv, Pop, WentOut, Ready, FirstReady, StreamWork, HeldWork, StreamsWork;
    TakeTurn(m, maxLen);
    var (m1, r) := Pop(m, maxLen);
    if r.NoFrame? || r.Overdrawn? {
      SameHeld(m, m1);
    } else {
      var k := r.key;
      var n := FirstReady(m, m.sendQ);
      CapacityThere(m, k);
      LessToSend(m, m1, r, maxLen);
      OneDiffers(m.streams, m1.streams, k);
    }
  }

  lemma SameHeld(m: Sched, m1: Sched)
    requires m1.codec == m.codec && m1.inFlight == m.inFlight
    ensures HeldWork(m1) == HeldWork(m)
  {
  }

  lemma CapacityThere(m: Sched, k: nat)
    requires Inv(m) && k < |m.streams|
    ensures m.streams[k].available >= 0
  {
    hide BytesOk;
    InvAt(m, k);
  }

  /** Taking back what did not fit adds nothing. */
  lemma ReclaimDrains(m: Sched)
    requires Inv(m) && m.codec.Some?
    ensures FlightOk(m) && Work(Reclaim(m).0) <= Work(m)
  {
    hide StreamWork, StreamsOk, AllBytesOk, StreamsWork;
    var k := m.codec.value.key;
    var m1 := Reclaim(m).0;
    BackWork(m.streams[k], m.codec.value.rest, m.codec.value.eos);
    OneDiffers(m.streams, m1.streams, k);
  }

  lemma BackWork(s: Stream, rest: Bytes, eos: bool)
    ensures StreamWork(s.(pending := [Data(rest, eos)] + s.pending)) == StreamWork(s) + 1 + |rest|
  {
    BackPayloads(s, rest, eos);
  }

  /** Nor does admitting a stream. */
  lemma OpenDrains(m: Sched)
    requires Inv(m) && m.openQ != []
    ensures Work(OpenNext(m)) == Work(m)
  {
    hide Inv, OpenNext, StreamsWork, Total, Slack;
    OpenNextKeeps(m);
    var m1 := OpenNext(m);
    forall j | 0 <= j < |m.streams| ensures StreamWork(m1.streams[j]) == StreamWork(m.streams[j]) {
      assert m1.streams[j] == m.streams[j].(available := m1.streams[j].available);
    }
    NoneDiffers(m.streams, m1.streams);
  }
}
