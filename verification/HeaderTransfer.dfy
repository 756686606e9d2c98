/**
 A header list from one end of a connection to the other: HPACK encoding, cutting into frames under a size limit,
 reading the frames and HPACK decoding.
 */
module HeaderTransfer {
  import opened Common
  import opened Frames
  import opened FramedRead
  import W = FramedWrite
  import D = HpackDecoder
  import E = HpackEncoder
  import H = HpackHeader
  import HB = HeaderBlock
  import Huffman
  import HpackList
  import L = HpackLockstep

  /** Frames that put together leave a block open: an opener and CONTINUATION frames of its stream. */
  lemma {:induction false} OpenShape(fs: seq<Frame>, o: Frame)
    requires Assemble(fs) == Some(Assembly([], Some(o)))
    ensures fs != [] && IsBlock(fs[0].kind) && !EndHeaders(fs[0].flag)
    ensures fs[0].flag + END_HEADERS < 256
    ensures o == fs[0].(flag := fs[0].flag + END_HEADERS, payload := fs[0].payload + Payloads(fs[1..]))
    ensures forall i :: 1 <= i < |fs| ==> Continues(o.id, fs[i]) && !EndHeaders(fs[i].flag)
  {
    hide Payloads;
    var n := |fs| - 1;
    var a := Assemble(fs[..n]).value;
    if a.open == None {
      NothingYet(fs[..n]);
      assert fs == [fs[0]];
      NoPayloads(fs[1..]);
    } else {
      OpenShape(fs[..n], a.open.value);
      PayloadsCut(fs);
    }
  }

  lemma NoPayloads(fs: seq<Frame>)
    requires fs == []
    ensures Payloads(fs) == []
  {
  }

  lemma NothingYet(fs: seq<Frame>)
    requires Assemble(fs) == Some(Assembly([], None))
    ensures fs == []
  {
  }

  lemma {:induction false} PayloadsPush(fs: seq<Frame>, f: Frame)
    ensures Payloads(fs + [f]) == Payloads(fs) + f.payload
  {
    if fs == [] {
      assert fs + [f] == [f] && [f][1..] == [];
    } else {
      assert (fs + [f])[1..] == fs[1..] + [f];
      PayloadsPush(fs[1..], f);
    }
  }

  /** Frames that put together are one header block. */
  lemma BlockShape(fs: seq<Frame>, w: Frame)
    requires Assemble(fs) == Some(Assembly([w], None)) && IsBlock(w.kind) && EndHeaders(w.flag)
    ensures fs != [] && IsBlock(fs[0].kind) && w == fs[0].(flag := w.flag, payload := fs[0].payload + Payloads(fs[1..]))
    ensures if |fs| == 1 then fs[0] == w else fs[0].flag + END_HEADERS == w.flag && Completes(fs[0].id, fs[1..])
  {
    hide Payloads, Assemble, EndHeaders, IsBlock, Completes;
    LastJoins(fs, w);
    var n := |fs| - 1;
    var a := Assemble(fs[..n]).value;
    if a.open == None {
      NothingYet(fs[..n]);
      assert fs == [w];
      NoPayloads(fs[1..]);
      assert w.payload == fs[0].payload + [];
    } else {
      OpenShape(fs[..n], a.open.value);
      PayloadsCut(fs);
      ShapeCompletes(fs[0].id, fs[1..]);
    }
  }

  lemma PayloadsCut(fs: seq<Frame>)
    requires |fs| >= 2
    ensures var n := |fs| - 1;
            fs[0].payload + Payloads(fs[1..]) == fs[0].payload + Payloads(fs[..n][1..]) + fs[n].payload
  {
    hide Payloads;
    var n := |fs| - 1;
    assert fs[..n][1..] + [fs[n]] == fs[1..];
    PayloadsPush(fs[..n][1..], fs[n]);
    Regroup(fs[0].payload, Payloads(fs[..n][1..]), fs[n].payload);
  }

  lemma LastJoins(fs: seq<Frame>, w: Frame)
    requires Assemble(fs) == Some(Assembly([w], None))
    ensures fs != [] && Assemble(fs[..|fs| - 1]).Some?
    ensures var f := fs[|fs| - 1];
            match Assemble(fs[..|fs| - 1]).value
            case Assembly(done, None) => done == [] && f == w
            case Assembly(done, Some(o)) =>
              done == [] && Continues(o.id, f) && EndHeaders(f.flag) && w == o.(payload := o.payload + f.payload)
  {
    var n := |fs| - 1;
    var a := Assemble(fs[..n]).value;
    var r := Join(a, fs[n]).value;
    assert r.done[|r.done| - 1] == w && r.done[..|r.done| - 1] == [];
    assert r.done[..|r.done| - 1] == a.done;
  }

  lemma ShapeCompletes(id: nat, fs: seq<Frame>)
    requires fs != [] && Continues(id, fs[|fs| - 1]) && EndHeaders(fs[|fs| - 1].flag)
    requires forall i :: 0 <= i < |fs| - 1 ==> Continues(id, fs[i]) && !EndHeaders(fs[i].flag)
    ensures Completes(id, fs)
  {
  }

  lemma PlainOpens(f: Frame, flag: Byte)
    requires f.kind == HEADERS && f.id != 0 && EndHeaders(flag) && !Padded(flag) && !HasPriority(flag)
    requires f.flag == flag || f.flag + END_HEADERS == flag
    ensures Opens(f, [], f.payload, [])
  {
    assert !Padded(f.flag) && !HasPriority(f.flag);
    assert f.payload == [] + [] + f.payload + [];
  }

  /** The frame opens a block with this fragment, behind these fixed octets and in front of this padding. */
  predicate Opens(f: Frame, front: Bytes, fragment: Bytes, padding: Bytes)
  {
    && IsBlock(f.kind) && f.id != 0 && LaidOut(f, front, fragment, padding) && !DependsOnItself(f, front)
    && (f.kind == PUSH_PROMISE ==> fragment + padding != [])
  }

  lemma {:induction false} PlainFields(hs: seq<H.Header>)
    ensures HB.Plain(hs) == L.FieldsOf(hs)
  {
    if hs != [] {
      PlainFields(hs[1..]);
      assert hs == [hs[0]] + hs[1..];
      assert HB.Plain(hs) == [(hs[0].name, hs[0].value)] + HB.Plain(hs[1..]);
    }
  }

  /** A header list that the two ends agree on arrives as it was sent, in however many frames, whether the first is a
      HEADERS or a PUSH_PROMISE frame, with or without padding or a priority; what stands in front of the fragment
      arrives too, and the two HPACK tables are equal afterwards. */
  lemma PaddedArrives(t: Huffman.CodeTable, rules: D.Rules, enc: E.State, lastMax: nat, items: seq<E.Item>,
                      front: Bytes, fragment: Bytes, padding: Bytes, fs: seq<Frame>, lim: Limits)
    requires L.Undoes(rules, t) && HpackList.Size(enc.entries) <= enc.max
    requires L.BlockAllowed(t, rules, enc, lastMax, items) && E.Leads(None, items)
    requires HB.WellFormed(lim.list, L.Fields(None, items))
    requires fs != [] && Opens(fs[0], front, fragment, padding) && |fs| <= lim.continuations + 2
    requires if |fs| == 1 then EndHeaders(fs[0].flag) else !EndHeaders(fs[0].flag) && Completes(fs[0].id, fs[1..])
    requires fragment + Payloads(fs[1..]) == E.BlockBytes(t, enc, items).0
    ensures var enc' := E.BlockBytes(t, enc, items).1;
            var (r, steps) := ReadAll(rules, lim, Reader(D.State(enc.entries, enc.max, lastMax), None), fs);
            && r == Reader(D.State(enc'.entries, enc'.max, lastMax), None)
            && |steps| == |fs| && steps == Silence(|fs| - 1) + [steps[|fs| - 1]]
            && var last := steps[|fs| - 1];
               && last.Headers? && last.opener == fs[0] && last.front == front && !last.block.over
               && L.FieldsOf(last.block.stored) == L.Fields(None, items)
  {
    hide L.Undoes, L.BlockAllowed, HpackList.Size, E.BlockBytes, D.Run, ReadAll, Silence, L.Fields, L.FieldsOf, Load,
         Payloads, HB.WellFormed, HB.Plain, LaidOut, DependsOnItself, IsBlock, EndHeaders, Completes;
    var block := E.BlockBytes(t, enc, items).0;
    var dec := D.State(enc.entries, enc.max, lastMax);
    L.BlockDecodes(t, rules, enc, lastMax, items);
    LoadExact(fs[0], front, fragment, padding);
    var whole := D.Run(rules, dec, true, block);
    PlainFields(whole.headers);
    assert HB.EMPTY.stored + whole.headers == whole.headers;
    BlockArrives(rules, lim, dec, fs);
    SilenceLength(|fs| - 1);
  }

  /** The same of the frames that an unpadded HEADERS frame was cut into. */
  lemma ListArrives(t: Huffman.CodeTable, rules: D.Rules, enc: E.State, lastMax: nat, items: seq<E.Item>,
                    flag: Byte, id: nat, fs: seq<Frame>, lim: Limits)
    requires L.Undoes(rules, t) && HpackList.Size(enc.entries) <= enc.max
    requires L.BlockAllowed(t, rules, enc, lastMax, items) && E.Leads(None, items)
    requires HB.WellFormed(lim.list, L.Fields(None, items))
    requires id != 0 && EndHeaders(flag) && !Padded(flag) && !HasPriority(flag)
    requires Assemble(fs) == Some(Assembly([Frame(HEADERS, flag, id, E.BlockBytes(t, enc, items).0)], None))
    requires |fs| <= lim.continuations + 2
    ensures var enc' := E.BlockBytes(t, enc, items).1;
            var (r, steps) := ReadAll(rules, lim, Reader(D.State(enc.entries, enc.max, lastMax), None), fs);
            && r == Reader(D.State(enc'.entries, enc'.max, lastMax), None)
            && |steps| > 0 && steps == Silence(|steps| - 1) + [steps[|steps| - 1]]
            && var last := steps[|steps| - 1];
               && last.Headers? && last.opener.id == id && last.front == [] && !last.block.over
               && L.FieldsOf(last.block.stored) == L.Fields(None, items)
  {
    hide L.Undoes, L.BlockAllowed, HpackList.Size, E.BlockBytes, ReadAll, Assemble, Silence, L.Fields, L.FieldsOf,
         Payloads, HB.WellFormed, Opens, Completes;
    BlockShape(fs, Frame(HEADERS, flag, id, E.BlockBytes(t, enc, items).0));
    PlainOpens(fs[0], flag);
    PaddedArrives(t, rules, enc, lastMax, items, [], fs[0].payload, [], fs, lim);
  }

  lemma SilenceLength(n: nat)
    ensures |Silence(n)| == n
  {
  }

  // ----- whole connections

  /** What an end sends: frames that are no part of a header block, header lists, and between them the encoder may be
      told a new table size. */
  datatype Outgoing = Plain(frame: Frame) | Resized(val: nat) | List(flag: Byte, id: nat, items: seq<E.Item>)

  /** The state of the encoder after one of them. */
  function After(t: Huffman.CodeTable, enc: E.State, o: Outgoing): E.State
    requires o.List? ==> E.Leads(None, o.items)
  {
    match o
    case Plain(_) => enc
    case Resized(val) => enc.(update := E.Queued(enc.max, enc.update, val))
    case List(_, _, items) => E.BlockBytes(t, enc, items).1
  }

  predicate OneAllowed(t: Huffman.CodeTable, rules: D.Rules, enc: E.State, lastMax: nat, o: Outgoing)
  {
    match o
    case Plain(f) => !IsBlock(f.kind) && f.kind != CONTINUATION
    case Resized(_) => true
    case List(flag, id, items) =>
      && id != 0 && EndHeaders(flag) && !Padded(flag) && !HasPriority(flag)
      && E.Leads(None, items) && L.BlockAllowed(t, rules, enc, lastMax, items)
  }

  /** At every list the two ends agree on the sizes, and the lists are admissible. */
  predicate AllAllowed(t: Huffman.CodeTable, rules: D.Rules, enc: E.State, lastMax: nat, outs: seq<Outgoing>)
    decreases |outs|
  {
    outs != [] ==>
      && OneAllowed(t, rules, enc, lastMax, outs[0])
      && AllAllowed(t, rules, After(t, enc, outs[0]), lastMax, outs[1..])
  }

  /** Every list is in order and within the reader's limit. */
  predicate AllWellFormed(list: nat, outs: seq<Outgoing>)
  {
    forall i :: 0 <= i < |outs| && outs[i].List? ==>
      E.Leads(None, outs[i].items) && HB.WellFormed(list, L.Fields(None, outs[i].items))
  }

  /** The frames, header blocks in one frame each, and the encoder afterwards. */
  function Encoded(t: Huffman.CodeTable, rules: D.Rules, enc: E.State, lastMax: nat, outs: seq<Outgoing>)
    : (seq<Frame>, E.State)
    requires AllAllowed(t, rules, enc, lastMax, outs)
    decreases |outs|
  {
    if outs == [] then ([], enc)
    else
      var (fs, enc1) := Encoded(t, rules, After(t, enc, outs[0]), lastMax, outs[1..]);
      (match outs[0]
       case Plain(f) => [f] + fs
       case Resized(_) => fs
       case List(flag, id, items) => [Frame(HEADERS, flag, id, E.BlockBytes(t, enc, items).0)] + fs,
       enc1)
  }

  /** The steps that hand something on. */
  function Loud(steps: seq<Step>): seq<Step>
  {
    if steps == [] then [] else (if steps[0].Nothing? then [] else [steps[0]]) + Loud(steps[1..])
  }

  predicate Arrived(o: Outgoing, step: Step)
    requires o.List? ==> E.Leads(None, o.items)
  {
    match o
    case Plain(f) => step == Passed(f)
    case Resized(_) => false
    case List(_, id, items) =>
      && step.Headers? && step.opener.id == id && step.front == [] && !step.block.over
      && L.FieldsOf(step.block.stored) == L.Fields(None, items)
  }

  /** Everything sent has arrived, in order, and nothing else. */
  predicate AllArrived(t: Huffman.CodeTable, rules: D.Rules, enc: E.State, lastMax: nat, outs: seq<Outgoing>,
                       steps: seq<Step>)
    requires AllAllowed(t, rules, enc, lastMax, outs)
    decreases |outs|
  {
    if outs == [] then steps == []
    else
      var enc1 := After(t, enc, outs[0]);
      if outs[0].Resized? then AllArrived(t, rules, enc1, lastMax, outs[1..], steps)
      else steps != [] && Arrived(outs[0], steps[0]) && AllArrived(t, rules, enc1, lastMax, outs[1..], steps[1..])
  }

  lemma {:induction false} LoudAppend(a: seq<Step>, b: seq<Step>)
    ensures Loud(a + b) == Loud(a) + Loud(b)
  {
    if a == [] {
      assert a + b == b && [] + Loud(b) == Loud(b);
    } else {
      assert (a + b)[0] == a[0] && (a + b)[1..] == a[1..] + b;
      LoudAppend(a[1..], b);
      Regroup(if a[0].Nothing? then [] else [a[0]], Loud(a[1..]), Loud(b));
    }
  }

  lemma {:induction false} SilentLoud(n: nat)
    ensures Loud(Silence(n)) == []
  {
    if n > 0 {
      SilentLoud(n - 1);
      assert Silence(n)[1..] == Silence(n - 1);
    }
  }

  lemma OneLoud(n: nat, last: Step)
    requires !last.Nothing?
    ensures Loud(Silence(n) + [last]) == [last]
  {
    hide Silence;
    SilentLoud(n);
    LoudAppend(Silence(n), [last]);
    assert [last][1..] == [];
  }

  /** The tables of the encoder and of the decoder agree. */
  predicate Level(enc: E.State)
  {
    HpackList.Size(enc.entries) <= enc.max
  }

  lemma AfterLevel(t: Huffman.CodeTable, rules: D.Rules, enc: E.State, lastMax: nat, o: Outgoing)
    requires L.Undoes(rules, t) && Level(enc) && OneAllowed(t, rules, enc, lastMax, o)
    ensures Level(After(t, enc, o))
  {
    hide L.Undoes, HpackList.Size, E.BlockBytes, L.BlockAllowed;
    if o.List? {
      L.BlockDecodes(t, rules, enc, lastMax, o.items);
    }
  }

  /** The decoder in step with an encoder. */
  function Beside(enc: E.State, lastMax: nat): Reader
  {
    Reader(D.State(enc.entries, enc.max, lastMax), None)
  }

  /** One thing sent, in the frames that carry it. */
  lemma OneArrives(t: Huffman.CodeTable, rules: D.Rules, enc: E.State, lastMax: nat, o: Outgoing, fs: seq<Frame>,
                   lim: Limits)
    requires L.Undoes(rules, t) && Level(enc) && OneAllowed(t, rules, enc, lastMax, o) && !o.Resized?
    requires |fs| <= lim.continuations + 2
    requires o.List? ==> HB.WellFormed(lim.list, L.Fields(None, o.items))
    requires var w := if o.Plain? then o.frame else Frame(HEADERS, o.flag, o.id, E.BlockBytes(t, enc, o.items).0);
             Assemble(fs) == Some(Assembly([w], None)) && (o.Plain? ==> fs == [w])
    ensures var (r, steps) := ReadAll(rules, lim, Beside(enc, lastMax), fs);
            r == Beside(After(t, enc, o), lastMax) && |Loud(steps)| == 1 && Arrived(o, Loud(steps)[0])
  {
    hide L.Undoes, L.BlockAllowed, E.BlockBytes, ReadAll, Silence, Loud, L.Fields, L.FieldsOf, Assemble, ReadFrame,
         HB.WellFormed;
    match o
    case Plain(f) =>
      PassedOn(rules, lim, Beside(enc, lastMax), f);
      ReadOne(rules, lim, Beside(enc, lastMax), fs);
      OneLoud(0, Passed(f));
    case List(flag, id, items) =>
      ListArrives(t, rules, enc, lastMax, items, flag, id, fs, lim);
      var steps := ReadAll(rules, lim, Beside(enc, lastMax), fs).1;
      OneLoud(|steps| - 1, steps[|steps| - 1]);
  }

  /** Over a whole connection, whatever is sent between the header lists: every list arrives as it was sent, in however
      many frames, every other frame arrives, in order, and the two HPACK tables are equal throughout. */
  lemma {:induction false} AllArrive(t: Huffman.CodeTable, rules: D.Rules, enc: E.State, lastMax: nat,
                                     outs: seq<Outgoing>, fs: seq<Frame>, lim: Limits)
    requires L.Undoes(rules, t) && Level(enc) && AllAllowed(t, rules, enc, lastMax, outs)
    requires Bounded(lim.continuations, fs) && AllWellFormed(lim.list, outs)
    requires Assemble(fs) == Some(Assembly(Encoded(t, rules, enc, lastMax, outs).0, None))
    ensures var (r, steps) := ReadAll(rules, lim, Beside(enc, lastMax), fs);
            && r == Beside(Encoded(t, rules, enc, lastMax, outs).1, lastMax)
            && AllArrived(t, rules, enc, lastMax, outs, Loud(steps))
    decreases |outs|
  {
    hide L.Undoes, Level, OneAllowed, After, Assemble, ReadAll, Loud, Arrived, E.BlockBytes, Beside, IsBlock,
         EndHeaders, HB.WellFormed, AllWellFormed, L.Fields;
    if outs == [] {
      NothingYet(fs);
      NothingRead(rules, lim, Beside(enc, lastMax));
      NothingLoud();
    } else {
      var o := outs[0];
      AllowedKind(t, rules, enc, lastMax, o);
      WellFormedParts(lim.list, outs);
      var enc1 := After(t, enc, o);
      AfterLevel(t, rules, enc, lastMax, o);
      var rest := Encoded(t, rules, enc1, lastMax, outs[1..]).0;
      if o.Resized? {
        Beside1(t, enc, o.val, lastMax);
        AllArrive(t, rules, enc1, lastMax, outs[1..], fs, lim);
      } else {
        var w := if o.Plain? then o.frame else Frame(HEADERS, o.flag, o.id, E.BlockBytes(t, enc, o.items).0);
        Peeled(fs, w, rest);
        var n := if IsBlock(fs[0].kind) then Extent(fs) else 1;
        OneArrives(t, rules, enc, lastMax, o, fs[..n], lim);
        AllArrive(t, rules, enc1, lastMax, outs[1..], fs[n..], lim);
        assert fs == fs[..n] + fs[n..];
        ReadAppend(rules, lim, Beside(enc, lastMax), fs[..n], fs[n..]);
        var s1 := ReadAll(rules, lim, Beside(enc, lastMax), fs[..n]).1;
        var s2 := ReadAll(rules, lim, Beside(enc1, lastMax), fs[n..]).1;
        LoudAppend(s1, s2);
        assert (Loud(s1) + Loud(s2))[1..] == Loud(s2);
      }
    }
  }

  lemma WellFormedParts(list: nat, outs: seq<Outgoing>)
    requires outs != [] && AllWellFormed(list, outs)
    ensures AllWellFormed(list, outs[1..])
    ensures outs[0].List? ==> E.Leads(None, outs[0].items) && HB.WellFormed(list, L.Fields(None, outs[0].items))
  {
    hide HB.WellFormed, L.Fields;
  }

  lemma NothingLoud()
    ensures Loud([]) == []
  {
  }

  /** A queued size update changes no table yet. */
  lemma Beside1(t: Huffman.CodeTable, enc: E.State, val: nat, lastMax: nat)
    ensures Beside(After(t, enc, Resized(val)), lastMax) == Beside(enc, lastMax)
  {
  }

  lemma AllowedKind(t: Huffman.CodeTable, rules: D.Rules, enc: E.State, lastMax: nat, o: Outgoing)
    requires OneAllowed(t, rules, enc, lastMax, o)
    ensures (o.Plain? ==> !IsBlock(o.frame.kind)) && (o.List? ==> E.Leads(None, o.items))
  {
  }

  /** The frames that carry the first of several things. */
  lemma Peeled(fs: seq<Frame>, w: Frame, rest: seq<Frame>)
    requires Assemble(fs) == Some(Assembly([w] + rest, None))
    ensures fs != []
    ensures var n := if IsBlock(fs[0].kind) then Extent(fs) else 1;
            && Assemble(fs[..n]) == Some(Assembly([w], None)) && Assemble(fs[n..]) == Some(Assembly(rest, None))
            && fs[0].kind == w.kind && (!IsBlock(w.kind) ==> fs[..n] == [w])
  {
    hide IsBlock, EndHeaders, Assemble;
    if fs == [] {
      AssembleNone();
      assert false;
    }
    FirstThing(fs);
    var n := if IsBlock(fs[0].kind) then Extent(fs) else 1;
    var a, b := Assemble(fs[..n]).value, Assemble(fs[n..]).value;
    assert ([w] + rest)[0] == w && ([w] + rest)[1..] == rest;
    assert (a.done + b.done)[0] == a.done[0] && (a.done + b.done)[1..] == b.done;
  }

  // ----- within the bound on CONTINUATION frames

  lemma WholeFlag(fs: seq<Frame>, w: Frame)
    requires Assemble(fs) == Some(Assembly([w], None)) && IsBlock(w.kind)
    ensures EndHeaders(w.flag)
  {
    LastJoins(fs, w);
    var n := |fs| - 1;
    var a := Assemble(fs[..n]).value;
    if a.open.Some? {
      OpenShape(fs[..n], a.open.value);
    }
  }

  predicate AllWithinLimit(fs: seq<Frame>, max: nat)
  {
    forall i :: 0 <= i < |fs| ==> W.WithinLimit(fs[i], max)
  }

  predicate BlocksWithin(ws: seq<Frame>, headerMax: nat)
  {
    forall i :: 0 <= i < |ws| && IsBlock(ws[i].kind) ==> |ws[i].payload| <= headerMax
  }

  lemma BlockFits(headerMax: nat, frameMax: nat, fs: seq<Frame>, w: Frame)
    requires frameMax > 0 && Assemble(fs) == Some(Assembly([w], None)) && IsBlock(w.kind) && |w.payload| <= headerMax
    requires AllWithinLimit(fs, frameMax)
    ensures |fs| <= MaxContinuations(headerMax, frameMax) + 2
  {
    hide Assemble, MaxContinuations, IsBlock, EndHeaders;
    WholeFlag(fs, w);
    BlockShape(fs, w);
    forall i | 0 <= i < |fs| - 1 ensures |fs[i].payload| == frameMax {
      assert W.WithinLimit(fs[i], frameMax);
      NotLast(fs, w, i);
    }
    FullFramesFit(headerMax, frameMax, fs);
  }

  lemma NotLast(fs: seq<Frame>, w: Frame, i: nat)
    requires |fs| > 1 && i < |fs| - 1 && IsBlock(fs[0].kind) && EndHeaders(w.flag)
    requires fs[0].flag + END_HEADERS == w.flag && Completes(fs[0].id, fs[1..])
    ensures (IsBlock(fs[i].kind) || fs[i].kind == CONTINUATION) && !EndHeaders(fs[i].flag)
  {
    if i > 0 {
      assert fs[1..][i - 1] == fs[i];
    }
  }

  /** Header blocks of at most headerMax octets, cut at a frame size of frameMax, never have more CONTINUATION frames
      than a reader with these two settings takes. */
  lemma {:induction false} BlocksFit(headerMax: nat, frameMax: nat, fs: seq<Frame>)
    requires frameMax > 0 && Assemble(fs).Some? && Assemble(fs).value.open.None? && AllWithinLimit(fs, frameMax)
    requires BlocksWithin(Assemble(fs).value.done, headerMax)
    ensures Bounded(MaxContinuations(headerMax, frameMax), fs)
    decreases |fs|
  {
    hide Assemble, MaxContinuations, IsBlock, EndHeaders;
    if fs != [] {
      FirstThing(fs);
      var n := if IsBlock(fs[0].kind) then Extent(fs) else 1;
      var a, b := Assemble(fs[..n]).value, Assemble(fs[n..]).value;
      assert BlocksWithin(b.done, headerMax) by {
        forall i | 0 <= i < |b.done| && IsBlock(b.done[i].kind) ensures |b.done[i].payload| <= headerMax {
          assert b.done[i] == (a.done + b.done)[i + 1];
        }
      }
      BlocksFit(headerMax, frameMax, fs[n..]);
      if IsBlock(fs[0].kind) {
        assert (a.done + b.done)[0] == a.done[0] && a.done == [a.done[0]];
        BlockFits(headerMax, frameMax, fs[..n], a.done[0]);
      }
    }
  }

  /** From one end of a connection to the other: once everything buffered is written, the peer has received exactly what
      was sent. */
  lemma ConnectionDelivers(t: Huffman.CodeTable, rules: D.Rules, enc: E.State, lastMax: nat, outs: seq<Outgoing>,
                           w: W.FramedWrite, headerMax: nat, frameMax: nat)
    requires L.Undoes(rules, t) && Level(enc) && AllAllowed(t, rules, enc, lastMax, outs) && frameMax > 0
    requires w.Valid() && w.next == None && w.Unwritten() == []
    requires w.items == Encoded(t, rules, enc, lastMax, outs).0
    requires AllWithinLimit(w.log, frameMax) && BlocksWithin(w.items, headerMax) && AllWellFormed(headerMax, outs)
    ensures var got := CutAll(W.MAX_MAX_FRAME_SIZE, w.wire).0;
            var lim := Limits(MaxContinuations(headerMax, frameMax), headerMax);
            var (r, steps) := ReadAll(rules, lim, Beside(enc, lastMax), got);
            && r == Beside(Encoded(t, rules, enc, lastMax, outs).1, lastMax)
            && AllArrived(t, rules, enc, lastMax, outs, Loud(steps))
  {
    hide L.Undoes, Level, AllAllowed, Encoded, AllArrived, CutAll, ReadAll, MaxContinuations, Assemble, Bounded, Wire,
         Beside, AllWellFormed;
    W.PeerSees(w);
    BlocksFit(headerMax, frameMax, w.log);
    AllArrive(t, rules, enc, lastMax, outs, w.log, Limits(MaxContinuations(headerMax, frameMax), headerMax));
  }
}
