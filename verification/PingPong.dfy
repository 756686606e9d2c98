/**
 User pings (proto/ping_pong.rs): one atomic word shared by the user's side and the connection's side. The user's calls
 and the reception of a pong change it by compare-and-exchange; writing the PING loads it, waits for the codec, and
 later stores without looking again. Over every interleaving of the two sides' steps no ping is lost, doubled or
 answered early.
 */
module PingPong {
  datatype User = Empty | PendingPing | PendingPong | ReceivedPong | Closed

  /** Where the connection's side is in `send_pending_ping`: outside, past the load that saw a pending ping, or past the
      hand-over of the PING to the codec. */
  datatype Place = Outside | Loaded | Buffered

  /** The shared word, the connection's side, and how often a ping was accepted from the user, written to the codec,
      answered by the peer, and reported to the user. */
  datatype State = State(word: User, at: Place, accepted: nat, written: nat, answered: nat, reported: nat)

  datatype Step =
    | UserSend
    | UserPoll
    | Load
    | CodecNotReady
    | Buffer
    | Store
    | Pong
    | Drop

  /** Only the connection's side runs the steps other than the user's, one call at a time. */
  predicate Enabled(s: State, step: Step)
  {
    match step
    case UserSend => true
    case UserPoll => true
    case Load => s.at.Outside?
    case CodecNotReady => s.at.Loaded?
    case Buffer => s.at.Loaded?
    case Store => s.at.Buffered?
    case Pong => s.at.Outside?
    case Drop => s.at.Outside?
  }

  function Next(s: State, step: Step): State
  {
    match step
    case UserSend => if s.word.Empty? then s.(word := PendingPing, accepted := s.accepted + 1) else s
    case UserPoll => if s.word.ReceivedPong? then s.(word := Empty, reported := s.reported + 1) else s
    case Load => if s.word.PendingPing? then s.(at := Loaded) else s
    case CodecNotReady => s.(at := Outside)
    case Buffer => s.(at := Buffered, written := s.written + 1)
    case Store => s.(word := PendingPong, at := Outside)
    case Pong => if s.word.PendingPong? then s.(word := ReceivedPong, answered := s.answered + 1) else s
    case Drop => s.(word := Closed)
  }

  function Run(s: State, steps: seq<Step>): State
    decreases |steps|
  {
    if steps == [] then s else Run(Next(s, steps[0]), steps[1..])
  }

  predicate Admissible(s: State, steps: seq<Step>)
    decreases |steps|
  {
    steps != [] ==> Enabled(s, steps[0]) && Admissible(Next(s, steps[0]), steps[1..])
  }

  const START := State(Empty, Outside, 0, 0, 0, 0)

  /** The word names the one ping under way and how far it is. */
  predicate Inv(s: State)
  {
    && (match s.word
        case Empty => s.accepted == s.written == s.answered == s.reported
        case PendingPing =>
          && s.accepted == s.answered + 1 && s.answered == s.reported
          && s.written == (if s.at.Buffered? then s.answered + 1 else s.answered)
        case PendingPong => s.accepted == s.written == s.answered + 1 && s.answered == s.reported
        case ReceivedPong => s.accepted == s.written == s.answered == s.reported + 1
        case Closed => s.reported <= s.answered <= s.written <= s.accepted <= s.reported + 1)
    && (!s.at.Outside? ==> s.word.PendingPing?)
  }

  lemma NextKeeps(s: State, step: Step)
    requires Inv(s) && Enabled(s, step)
    ensures Inv(Next(s, step))
    ensures step.Store? ==> s.word.PendingPing?
    ensures step.Pong? && Next(s, step) != s ==> s.answered < s.written
    ensures step.UserPoll? && Next(s, step) != s ==> s.reported < s.answered
    ensures s.word.Closed? || step.Drop? ==> Next(s, step).word.Closed?
  {
  }

  lemma {:induction false} InterleavingKeeps(s: State, steps: seq<Step>)
    requires Inv(s) && Admissible(s, steps)
    ensures var t := Run(s, steps);
            && Inv(t)
            && s.accepted <= t.accepted && s.written <= t.written
            && s.answered <= t.answered && s.reported <= t.reported
            && (s.word.Closed? ==> t.word.Closed? && t.accepted == s.accepted && t.reported == s.reported)
            && (!s.word.Closed? ==> (Next(s, UserSend).accepted == s.accepted + 1 <==> s.accepted == s.reported))
    decreases |steps|
  {
    if steps != [] {
      NextKeeps(s, steps[0]);
      InterleavingKeeps(Next(s, steps[0]), steps[1..]);
    }
  }

  /** With nothing under way a ping is accepted; with one under way it is refused and nothing changes. */
  lemma OneAtATime(s: State)
    requires Inv(s) && !s.word.Closed?
    ensures Next(s, UserSend).accepted == s.accepted + 1 <==> s.accepted == s.reported
    ensures s.accepted != s.reported ==> Next(s, UserSend) == s
  {
  }

  /** After any interleaving from the start the four counts differ only by the ping the word names; what is still to
      come leaves the counts no smaller, and a closed connection closed; a ping is accepted if and only if none is under
      way. */
  lemma {:induction false} EveryInterleaving(steps: seq<Step>, later: seq<Step>)
    requires Admissible(START, steps) && Admissible(Run(START, steps), later)
    ensures var s := Run(START, steps);
            var t := Run(s, later);
            && Inv(START) && Inv(s) && Inv(t)
            && s.reported <= s.answered <= s.written <= s.accepted <= s.reported + 1
            && s.reported <= t.reported && s.answered <= t.answered
            && s.written <= t.written && s.accepted <= t.accepted
            && (s.word.Closed? ==> t.word.Closed? && t.accepted == s.accepted && t.reported == s.reported)
            && (!s.word.Closed? ==> (Next(s, UserSend).accepted == s.accepted + 1 <==> s.accepted == s.reported))
  {
    hide Admissible, Run;
    InterleavingKeeps(START, steps);
    InterleavingKeeps(Run(START, steps), later);
    if !Run(START, steps).word.Closed? {
      OneAtATime(Run(START, steps));
    }
  }

  /** A ping that has been accepted can always be driven to its report: write it, receive its pong, poll. */
  lemma Completes(s: State)
    requires Inv(s) && s.word.PendingPing? && s.at.Outside?
    ensures var steps := [Load, Buffer, Store, Pong, UserPoll];
            && Admissible(s, steps)
            && Run(s, steps) == State(Empty, Outside, s.accepted, s.accepted, s.accepted, s.accepted)
  {
    var s1 := Next(s, Load);
    var s2 := Next(s1, Buffer);
    var s3 := Next(s2, Store);
    var s4 := Next(s3, Pong);
    var s5 := Next(s4, UserPoll);
    assert [UserPoll][1..] == [] && [Pong, UserPoll][1..] == [UserPoll];
    assert [Store, Pong, UserPoll][1..] == [Pong, UserPoll];
    assert [Buffer, Store, Pong, UserPoll][1..] == [Store, Pong, UserPoll];
    assert [Load, Buffer, Store, Pong, UserPoll][1..] == [Buffer, Store, Pong, UserPoll];
    assert Admissible(s5, []) && Run(s5, []) == s5;
    assert Admissible(s4, [UserPoll]) && Run(s4, [UserPoll]) == s5;
    assert Admissible(s3, [Pong, UserPoll]) && Run(s3, [Pong, UserPoll]) == s5;
    assert Admissible(s2, [Store, Pong, UserPoll]) && Run(s2, [Store, Pong, UserPoll]) == s5;
    assert Admissible(s1, [Buffer, Store, Pong, UserPoll]) && Run(s1, [Buffer, Store, Pong, UserPoll]) == s5;
  }
}
