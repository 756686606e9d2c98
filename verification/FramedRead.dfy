/**
 Header blocks in the frame reader (`decode_frame` in codec/framed_read.rs, `load` in frame/headers.rs): HEADERS and
 PUSH_PROMISE frames open a block, CONTINUATION frames of the same stream carry it on, and the HPACK decoder is fed
 fragment by fragment.
 */
module FramedRead {
  import opened Common
  import opened Frames
  import D = HpackDecoder
  import H = HpackHeader
  import HpackList
  import HB = HeaderBlock
  import HpackCursor

  const PADDED_BIT := 8
  const PRIORITY_BIT := 32

  predicate Padded(flag: Byte)
  {
    flag / PADDED_BIT % 2 == 1
  }

  predicate HasPriority(flag: Byte)
  {
    flag / PRIORITY_BIT % 2 == 1
  }

  datatype LoadError = InvalidStreamId | MalformedMessage | InvalidDependencyId | TooMuchPadding

  /** `Headers::load` and `PushPromise::load`: the fixed octets in front, and the header fragment. */
  function Load(f: Frame): (r: Result<(Bytes, Bytes), LoadError>)
    requires IsBlock(f.kind)
    ensures r.Ok? ==> |r.value.0| + |r.value.1| <= |f.payload|
  {
    if f.id == 0 then Err(InvalidStreamId)
    else if Padded(f.flag) && f.payload == [] then Err(MalformedMessage)
    else
      var pad: nat := if Padded(f.flag) then f.payload[0] else 0;
      var src := if Padded(f.flag) then f.payload[1..] else f.payload;
      if f.kind == PUSH_PROMISE then
        if |src| < 5 then Err(MalformedMessage) else Unpad(src[..4], src[4..], pad)
      else if HasPriority(f.flag) then
        if |src| < 5 then Err(MalformedMessage)
        else if BigEndian(src[..4]) % 0x8000_0000 == f.id then Err(InvalidDependencyId)
        else Unpad(src[..5], src[5..], pad)
      else Unpad([], src, pad)
  }

  function Unpad(front: Bytes, src: Bytes, pad: nat): Result<(Bytes, Bytes), LoadError>
  {
    if pad > |src| then Err(TooMuchPadding) else Ok((front, src[..|src| - pad]))
  }

  // ----- what loading means

  /** Octets between the pad length and the fragment: the promised stream, or the dependency and the weight. */
  function FrontLen(f: Frame): nat
  {
    if f.kind == PUSH_PROMISE then 4 else if HasPriority(f.flag) then 5 else 0
  }

  /** Sections 6.2 and 6.6 of RFC 7540: the pad length if the frame is padded, the fixed octets, the fragment and the
      padding. */
  predicate LaidOut(f: Frame, front: Bytes, fragment: Bytes, padding: Bytes)
  {
    && |padding| < 256 && |front| == FrontLen(f) && (!Padded(f.flag) ==> padding == [])
    && f.payload == (if Padded(f.flag) then [|padding|] else []) + front + fragment + padding
  }

  /** The stream that the fixed octets of a HEADERS frame name is the stream itself. */
  predicate DependsOnItself(f: Frame, front: Bytes)
  {
    f.kind == HEADERS && |front| == 5 && BigEndian(front[..4]) % 0x8000_0000 == f.id
  }

  /** The octets the frame must have in front of its fragment. */
  function Needed(f: Frame): nat
  {
    (if Padded(f.flag) then 1 else 0) + FrontLen(f)
  }

  /** What is loaded, by position. */
  lemma Loaded(f: Frame)
    requires IsBlock(f.kind) && f.id != 0 && |f.payload| >= Needed(f)
    requires !DependsOnItself(f, f.payload[Needed(f) - FrontLen(f)..Needed(f)])
    requires f.kind == PUSH_PROMISE ==> |f.payload| > Needed(f)
    ensures var pad := if Padded(f.flag) then f.payload[0] else 0;
            Load(f) == if pad > |f.payload| - Needed(f) then Err(TooMuchPadding)
                       else Ok((f.payload[Needed(f) - FrontLen(f)..Needed(f)], f.payload[Needed(f)..|f.payload| - pad]))
  {
    hide BigEndian, Padded, HasPriority;
    var lead, at := Needed(f) - FrontLen(f), Needed(f);
    var front := f.payload[lead..at];
    var src := f.payload[lead..];
    assert lead == 0 ==> src == f.payload;
    assert src[..FrontLen(f)] == front && src[FrontLen(f)..] == f.payload[at..];
    assert |front| >= 4 ==> front[..4] == src[..4];
    var pad := if Padded(f.flag) then f.payload[0] else 0;
    if pad <= |f.payload| - at {
      assert f.payload[at..][..|f.payload| - at - pad] == f.payload[at..|f.payload| - pad];
    }
  }

  /** When each error comes: on stream 0; without room for the octets in front; for a stream that depends on itself; and
      for more padding than is left. */
  lemma LoadRefused(f: Frame)
    requires IsBlock(f.kind)
    ensures Load(f) == Err(InvalidStreamId) <==> f.id == 0
    ensures Load(f) == Err(MalformedMessage) <==>
            f.id != 0 && |f.payload| < Needed(f) + (if f.kind == PUSH_PROMISE then 1 else 0)
    ensures Load(f) == Err(InvalidDependencyId) <==>
            && f.id != 0 && |f.payload| >= Needed(f)
            && DependsOnItself(f, f.payload[Needed(f) - FrontLen(f)..Needed(f)])
    ensures Load(f) == Err(TooMuchPadding) <==>
            && f.id != 0 && |f.payload| >= Needed(f) + (if f.kind == PUSH_PROMISE then 1 else 0)
            && !DependsOnItself(f, f.payload[Needed(f) - FrontLen(f)..Needed(f)])
            && Padded(f.flag) && f.payload[0] > |f.payload| - Needed(f)
  {
    hide BigEndian;
    if |f.payload| >= Needed(f) {
      var lead := Needed(f) - FrontLen(f);
      var front := f.payload[lead..Needed(f)];
      assert f.payload[lead..][..FrontLen(f)] == front;
      assert |front| >= 4 ==> front[..4] == f.payload[lead..][..4];
    }
  }

  /** What is loaded is laid out in the frame. */
  lemma LoadShape(f: Frame)
    requires IsBlock(f.kind) && Load(f).Ok?
    ensures var (front, fragment) := Load(f).value;
            f.id != 0 && !DependsOnItself(f, front) && exists padding :: LaidOut(f, front, fragment, padding)
  {
    hide BigEndian, Padded, HasPriority, Load, DependsOnItself;
    LoadRefused(f);
    Loaded(f);
    var (front, fragment) := Load(f).value;
    var padding := f.payload[Needed(f) + |fragment|..];
    Sliced(f.payload, Needed(f) - FrontLen(f), Needed(f), Needed(f) + |fragment|);
    assert LaidOut(f, front, fragment, padding);
  }

  lemma Sliced(s: Bytes, a: nat, b: nat, c: nat)
    requires a <= b <= c <= |s|
    ensures s == s[..a] + s[a..b] + s[b..c] + s[c..]
  {
  }

  lemma Slices(a: Bytes, b: Bytes, c: Bytes, d: Bytes)
    ensures var s := a + b + c + d;
            s[|a|..|a| + |b|] == b && s[|a| + |b|..|a| + |b| + |c|] == c
  {
  }

  /** Whatever is laid out in a frame is loaded, unless the frame is on stream 0 or makes a stream depend on itself; a
      PUSH_PROMISE frame with nothing behind the promised stream is refused too. */
  lemma LoadExact(f: Frame, front: Bytes, fragment: Bytes, padding: Bytes)
    requires IsBlock(f.kind) && LaidOut(f, front, fragment, padding)
    ensures Load(f) ==
              if f.id == 0 then Err(InvalidStreamId)
              else if f.kind == PUSH_PROMISE && fragment + padding == [] then Err(MalformedMessage)
              else if DependsOnItself(f, front) then Err(InvalidDependencyId)
              else Ok((front, fragment))
  {
    hide BigEndian, Padded, HasPriority, Load, DependsOnItself;
    LoadRefused(f);
    var lead: Bytes := if Padded(f.flag) then [|padding|] else [];
    Slices(lead, front, fragment, padding);
    assert |f.payload| == Needed(f) + |fragment| + |padding|;
    if f.id != 0 && !DependsOnItself(f, front) && (f.kind == PUSH_PROMISE ==> fragment + padding != []) {
      Loaded(f);
    }
  }

  /** A block that is still open: the frame that opened it, its fixed octets, the headers so far, the octets the decoder
      left over, and how many CONTINUATION frames came. */
  datatype Partial = Partial(opener: Frame, front: Bytes, block: HB.Block, buf: Bytes, count: nat)

  datatype Reason = PROTOCOL_ERROR | ENHANCE_YOUR_CALM | COMPRESSION_ERROR

  /** How many CONTINUATION frames a block may have, and how large a header list may be. */
  datatype Limits = Limits(continuations: nat, list: nat)

  datatype Step =
    | Nothing
    | Headers(opener: Frame, front: Bytes, block: HB.Block)
    | Passed(frame: Frame)
    | GoAway(reason: Reason)
    | ResetStream(id: nat)

  datatype Reader = Reader(dec: D.State, partial: Option<Partial>)

  /** `calc_max_continuation_frames` */
  function MaxContinuations(headerMax: nat, frameMax: nat): (r: nat)
    requires frameMax > 0
    ensures r >= 5 && r * frameMax >= headerMax - frameMax
    ensures r == 5 || 4 * r * frameMax <= 5 * headerMax
  {
    var n := if headerMax / frameMax > 1 then headerMax / frameMax else 1;
    var r := n + n / 4;
    assert n * frameMax >= headerMax - frameMax by { Cover(headerMax, frameMax); }
    if r > 5 then
      assert r * frameMax >= n * frameMax;
      assert 4 * r * frameMax <= 5 * headerMax by { Quarter(headerMax, frameMax, r); }
      r
    else assert 5 * frameMax >= n * frameMax; 5
  }

  lemma Quarter(headerMax: nat, frameMax: nat, r: nat)
    requires frameMax > 0
    requires var n := headerMax / frameMax;
             n > 1 && r == n + n / 4
    ensures 4 * r * frameMax <= 5 * headerMax
  {
    var n := headerMax / frameMax;
    assert 4 * r <= 5 * n;
    assert 4 * r * frameMax <= 5 * n * frameMax;
    assert n * frameMax <= headerMax;
    assert 5 * n * frameMax == 5 * (n * frameMax);
  }

  lemma Cover(headerMax: nat, frameMax: nat)
    requires frameMax > 0
    ensures var q := headerMax / frameMax;
            (if q > 1 then q else 1) * frameMax >= headerMax - frameMax
  {
    var q := headerMax / frameMax;
    assert headerMax == q * frameMax + headerMax % frameMax;
  }

  /** The decoder on the next fragment: a need for more input is an error only at the end of the block, and only a
      fragment that ends with a whole header is refused for a malformed one. */
  function Fed(rules: D.Rules, lim: Limits, dec: D.State, p: Partial, fragment: Bytes, last: bool): (Reader, Step)
  {
    var r := D.Run(rules, dec, true, p.buf + fragment);
    var scan := HB.Load(lim.list, p.block, r.headers);
    var q := p.(block := scan.block, buf := r.rest);
    if r.error.Some? && (last || !D.WantsMore(r.error.value)) then (Reader(r.state, None), GoAway(PROTOCOL_ERROR))
    else if r.error.None? && scan.malformed then (Reader(r.state, None), ResetStream(p.opener.id))
    else if last then (Reader(r.state, None), Headers(q.opener, q.front, q.block))
    else (Reader(r.state, Some(q)), Nothing)
  }

  /** Too much is left over of a list that is too long already. */
  predicate TooLong(lim: Limits, p: Partial, f: Frame)
  {
    p.buf != [] && p.block.over && |p.buf| + HEADER_LEN + |f.payload| > lim.list
  }

  function ReadFrame(rules: D.Rules, lim: Limits, r: Reader, f: Frame): (Reader, Step)
  {
    if r.partial.Some? && f.kind != CONTINUATION then (r, GoAway(PROTOCOL_ERROR))
    else if IsBlock(f.kind) then
      match Load(f)
      case Err(InvalidDependencyId) => (r, ResetStream(f.id))
      case Err(_) => (r, GoAway(PROTOCOL_ERROR))
      case Ok((front, fragment)) =>
        Fed(rules, lim, r.dec, Partial(f, front, HB.EMPTY, [], 0), fragment, EndHeaders(f.flag))
    else if f.kind == CONTINUATION then
      match r.partial
      case None => (r, GoAway(PROTOCOL_ERROR))
      case Some(p) =>
        var last := EndHeaders(f.flag);
        if p.opener.id != f.id then (r.(partial := None), GoAway(PROTOCOL_ERROR))
        else if !last && p.count + 1 > lim.continuations then (r.(partial := None), GoAway(ENHANCE_YOUR_CALM))
        else if TooLong(lim, p, f) then (r.(partial := None), GoAway(COMPRESSION_ERROR))
        else Fed(rules, lim, r.dec, p.(count := if last then 0 else p.count + 1), f.payload, last)
    else (r, Passed(f))
  }

  /** Reading several frames: the reader afterwards, and what each frame gave. */
  function ReadAll(rules: D.Rules, lim: Limits, r: Reader, fs: seq<Frame>): (Reader, seq<Step>)
    decreases |fs|
  {
    if fs == [] then (r, [])
    else
      var (r1, step) := ReadFrame(rules, lim, r, fs[0]);
      var (r2, steps) := ReadAll(rules, lim, r1, fs[1..]);
      (r2, [step] + steps)
  }

  lemma ReadOne(rules: D.Rules, lim: Limits, r: Reader, fs: seq<Frame>)
    requires |fs| == 1
    ensures var (r', step) := ReadFrame(rules, lim, r, fs[0]);
            ReadAll(rules, lim, r, fs) == (r', Silence(0) + [step])
  {
    hide ReadFrame;
    var (r', step) := ReadFrame(rules, lim, r, fs[0]);
    assert ReadAll(rules, lim, r', fs[1..]) == (r', []);
    assert [step] + [] == Silence(0) + [step];
  }

  lemma ReadSilent(rules: D.Rules, lim: Limits, r: Reader, fs: seq<Frame>, n: nat, last: Step)
    requires fs != [] && ReadFrame(rules, lim, r, fs[0]).1 == Nothing
    requires ReadAll(rules, lim, ReadFrame(rules, lim, r, fs[0]).0, fs[1..]).1 == Silence(n) + [last]
    ensures ReadAll(rules, lim, r, fs) ==
            (ReadAll(rules, lim, ReadFrame(rules, lim, r, fs[0]).0, fs[1..]).0, Silence(n + 1) + [last])
  {
    hide ReadFrame;
    assert Silence(n + 1) + [last] == [Nothing] + (Silence(n) + [last]);
  }

  // ----- blocks in any fragments

  function Payloads(fs: seq<Frame>): Bytes
  {
    if fs == [] then [] else fs[0].payload + Payloads(fs[1..])
  }

  /** CONTINUATION frames of one stream, of which only the last ends the block. */
  predicate Completes(id: nat, fs: seq<Frame>)
  {
    && fs != []
    && forall i :: 0 <= i < |fs| ==> Continues(id, fs[i]) && (EndHeaders(fs[i].flag) <==> i == |fs| - 1)
  }

  function Silence(n: nat): seq<Step>
  {
    if n == 0 then [] else [Nothing] + Silence(n - 1)
  }

  /** The decoder takes the octets without an error, and what they decode to is a list in order and within the limit. */
  predicate Accepted(rules: D.Rules, lim: Limits, dec: D.State, block: HB.Block, buf: Bytes)
  {
    var r := D.Run(rules, dec, true, buf);
    r.error.None? && !block.over && HB.WellFormed(lim.list, HB.Plain(block.stored + r.headers))
  }

  lemma NotOver(rules: D.Rules, lim: Limits, dec: D.State, block: HB.Block, buf: Bytes)
    requires Accepted(rules, lim, dec, block, buf)
    ensures !block.over
  {
  }

  /** A fragment of an accepted block leaves a state from which the rest of it is accepted. */
  lemma FragmentLeaves(rules: D.Rules, lim: Limits, dec: D.State, p: Partial, fragment: Bytes, tail: Bytes)
    requires Accepted(rules, lim, dec, p.block, p.buf + fragment + tail)
    ensures var whole := D.Run(rules, dec, true, p.buf + fragment + tail);
            var (r, step) := Fed(rules, lim, dec, p, fragment, false);
            && step == Nothing && r.partial.Some?
            && var q := r.partial.value;
               && q == p.(block := q.block, buf := q.buf) && !q.block.over
               && Accepted(rules, lim, r.dec, q.block, q.buf + tail)
               && var rest := D.Run(rules, r.dec, true, q.buf + tail);
                  rest.state == whole.state && q.block.stored + rest.headers == p.block.stored + whole.headers
  {
    hide D.Run, HB.Load, HB.WellFormed, HB.Plain;
    var piece := p.buf + fragment;
    var buf := piece + tail;
    assert buf[..|piece|] == piece;
    D.CutRun(rules, dec, true, true, buf, |piece|);
    var first := D.Run(rules, dec, true, piece);
    var used := |piece| - |first.rest|;
    assert buf[used..] == first.rest + tail;
    var rest := D.Run(rules, first.state, true, first.rest + tail);
    var so := p.block.stored;
    Regroup(so, first.headers, rest.headers);
    HB.BeginningWell(lim.list, so + first.headers, rest.headers);
    HB.WellFormedStored(lim.list, so, first.headers);
    assert p.block == HB.Block(so, false);
  }

  lemma LastFragment(rules: D.Rules, lim: Limits, dec: D.State, p: Partial, fragment: Bytes)
    requires Accepted(rules, lim, dec, p.block, p.buf + fragment)
    ensures var whole := D.Run(rules, dec, true, p.buf + fragment);
            Fed(rules, lim, dec, p, fragment, true) ==
            (Reader(whole.state, None), Headers(p.opener, p.front, HB.Block(p.block.stored + whole.headers, false)))
  {
    hide D.Run, HB.Load, HB.WellFormed, HB.Plain;
    HB.WellFormedStored(lim.list, p.block.stored, D.Run(rules, dec, true, p.buf + fragment).headers);
    assert p.block == HB.Block(p.block.stored, false);
  }

  /** The rest of an open block, in any fragments, within the limit on CONTINUATION frames. */
  lemma {:induction false} RestArrives(rules: D.Rules, lim: Limits, r: Reader, fs: seq<Frame>)
    requires r.partial.Some? && Completes(r.partial.value.opener.id, fs)
    requires r.partial.value.count + |fs| - 1 <= lim.continuations
    requires Accepted(rules, lim, r.dec, r.partial.value.block, r.partial.value.buf + Payloads(fs))
    ensures var p := r.partial.value;
            var whole := D.Run(rules, r.dec, true, p.buf + Payloads(fs));
            ReadAll(rules, lim, r, fs) ==
            (Reader(whole.state, None),
             Silence(|fs| - 1) + [Headers(p.opener, p.front, HB.Block(p.block.stored + whole.headers, false))])
    decreases |fs|
  {
    hide D.Run, Accepted, Fed, ReadAll, Silence;
    var p := r.partial.value;
    NotOver(rules, lim, r.dec, p.block, p.buf + Payloads(fs));
    if |fs| == 1 {
      assert Payloads(fs[1..]) == [] && Payloads(fs) == fs[0].payload;
      assert Continues(p.opener.id, fs[0]);
      LastFragment(rules, lim, r.dec, p.(count := 0), fs[0].payload);
      ReadOne(rules, lim, r, fs);
    } else {
      var tail := Payloads(fs[1..]);
      assert p.buf + fs[0].payload + tail == p.buf + Payloads(fs);
      var p1 := p.(count := p.count + 1);
      FragmentLeaves(rules, lim, r.dec, p1, fs[0].payload, tail);
      var (r1, _) := Fed(rules, lim, r.dec, p1, fs[0].payload, false);
      CompletesRest(p.opener.id, fs);
      RestArrives(rules, lim, r1, fs[1..]);
      var whole := D.Run(rules, r.dec, true, p.buf + Payloads(fs));
      ReadSilent(rules, lim, r, fs, |fs| - 2,
                 Headers(p.opener, p.front, HB.Block(p.block.stored + whole.headers, false)));
    }
  }

  lemma CompletesRest(id: nat, fs: seq<Frame>)
    requires |fs| > 1 && Completes(id, fs)
    ensures Completes(id, fs[1..]) && Continues(id, fs[0]) && !EndHeaders(fs[0].flag)
  {
  }

  /** One CONTINUATION frame more than allowed that does not end the block: the connection is closed. */
  lemma {:induction false} TooManyContinuations(rules: D.Rules, lim: Limits, r: Reader, fs: seq<Frame>, tail: Bytes)
    requires r.partial.Some? && r.partial.value.count + |fs| == lim.continuations + 1 && fs != []
    requires forall i :: 0 <= i < |fs| ==> Continues(r.partial.value.opener.id, fs[i]) && !EndHeaders(fs[i].flag)
    requires Accepted(rules, lim, r.dec, r.partial.value.block, r.partial.value.buf + Payloads(fs) + tail)
    ensures var (r', steps) := ReadAll(rules, lim, r, fs);
            r'.partial.None? && steps == Silence(|fs| - 1) + [GoAway(ENHANCE_YOUR_CALM)]
    decreases |fs|
  {
    hide D.Run, Accepted, Fed, ReadAll, Silence;
    var p := r.partial.value;
    NotOver(rules, lim, r.dec, p.block, p.buf + Payloads(fs) + tail);
    if |fs| == 1 {
      ReadOne(rules, lim, r, fs);
    } else {
      var rest := Payloads(fs[1..]) + tail;
      assert p.buf + fs[0].payload + rest == p.buf + Payloads(fs) + tail;
      var p1 := p.(count := p.count + 1);
      FragmentLeaves(rules, lim, r.dec, p1, fs[0].payload, rest);
      var (r1, _) := Fed(rules, lim, r.dec, p1, fs[0].payload, false);
      assert r1.partial.value.buf + rest == r1.partial.value.buf + Payloads(fs[1..]) + tail;
      TooManyContinuations(rules, lim, r1, fs[1..], tail);
      ReadSilent(rules, lim, r, fs, |fs| - 2, GoAway(ENHANCE_YOUR_CALM));
    }
  }

  /** A header block that is accepted whole is read the same however it was cut into frames. */
  lemma BlockArrives(rules: D.Rules, lim: Limits, dec: D.State, fs: seq<Frame>)
    requires fs != [] && IsBlock(fs[0].kind) && Load(fs[0]).Ok? && |fs| <= lim.continuations + 2
    requires if |fs| == 1 then EndHeaders(fs[0].flag) else !EndHeaders(fs[0].flag) && Completes(fs[0].id, fs[1..])
    requires Accepted(rules, lim, dec, HB.EMPTY, Load(fs[0]).value.1 + Payloads(fs[1..]))
    ensures var (front, fragment) := Load(fs[0]).value;
            var whole := D.Run(rules, dec, true, fragment + Payloads(fs[1..]));
            ReadAll(rules, lim, Reader(dec, None), fs) ==
            (Reader(whole.state, None), Silence(|fs| - 1) + [Headers(fs[0], front, HB.Block(whole.headers, false))])
  {
    hide D.Run, Accepted, Fed, Load, ReadAll, Silence;
    var (front, fragment) := Load(fs[0]).value;
    var p := Partial(fs[0], front, HB.EMPTY, [], 0);
    assert [] + fragment == fragment;
    var tail := Payloads(fs[1..]);
    var whole := D.Run(rules, dec, true, fragment + tail);
    assert HB.EMPTY.stored + whole.headers == whole.headers;
    if |fs| == 1 {
      assert fs[1..] == [] && fragment + tail == fragment;
      LastFragment(rules, lim, dec, p, fragment);
      ReadOne(rules, lim, Reader(dec, None), fs);
    } else {
      FragmentLeaves(rules, lim, dec, p, fragment, tail);
      var (r1, _) := Fed(rules, lim, dec, p, fragment, false);
      RestArrives(rules, lim, r1, fs[1..]);
      ReadSilent(rules, lim, Reader(dec, None), fs, |fs| - 2, Headers(fs[0], front, HB.Block(whole.headers, false)));
    }
  }

  // ----- what an open block may hold

  /** An open block has had no more CONTINUATION frames than allowed, holds no more octets than they brought, and no
      more headers than the limit on the list. */
  predicate Confined(lim: Limits, frameMax: nat, r: Reader)
  {
    r.partial.Some? ==>
      var p := r.partial.value;
      && p.count <= lim.continuations && |p.buf| <= (p.count + 1) * frameMax
      && HB.Within(lim.list, p.block.stored)
  }

  lemma FedConfined(rules: D.Rules, lim: Limits, frameMax: nat, dec: D.State, p: Partial, fragment: Bytes, last: bool)
    requires !last ==> p.count <= lim.continuations
    requires HB.Within(lim.list, p.block.stored) && |p.buf| + |fragment| <= (p.count + 1) * frameMax
    ensures Confined(lim, frameMax, Fed(rules, lim, dec, p, fragment, last).0)
  {
    hide D.Run, HB.Load, HB.Within;
    HB.StaysWithin(lim.list, p.block, D.Run(rules, dec, true, p.buf + fragment).headers);
  }

  lemma FrameConfined(rules: D.Rules, lim: Limits, frameMax: nat, r: Reader, f: Frame)
    requires Confined(lim, frameMax, r) && |f.payload| <= frameMax
    ensures Confined(lim, frameMax, ReadFrame(rules, lim, r, f).0)
    ensures r.partial.Some? && r.partial.value.block.over && r.partial.value.buf != [] && f.kind == CONTINUATION ==>
              var r1 := ReadFrame(rules, lim, r, f).0;
              r1.partial.Some? ==> |r1.partial.value.buf| + HEADER_LEN <= lim.list
  {
    hide Load, D.Run, HB.Load;
    if IsBlock(f.kind) && r.partial.None? && Load(f).Ok? {
      var (front, fragment) := Load(f).value;
      FedConfined(rules, lim, frameMax, r.dec, Partial(f, front, HB.EMPTY, [], 0), fragment, EndHeaders(f.flag));
    } else if f.kind == CONTINUATION && r.partial.Some? {
      var p, last := r.partial.value, EndHeaders(f.flag);
      assert (p.count + 2) * frameMax == (p.count + 1) * frameMax + frameMax;
      if last {
        LastLeavesNone(rules, lim, r.dec, p.(count := 0), f.payload);
      } else if p.count + 1 <= lim.continuations {
        FedConfined(rules, lim, frameMax, r.dec, p.(count := p.count + 1), f.payload, last);
      }
    }
  }

  lemma LastLeavesNone(rules: D.Rules, lim: Limits, dec: D.State, p: Partial, fragment: Bytes)
    ensures Fed(rules, lim, dec, p, fragment, true).0.partial.None?
  {
    hide D.Run, HB.Load;
  }

  /** Whatever frames arrive, the reader never holds more than its limits allow. */
  lemma {:induction false} ReaderConfined(rules: D.Rules, lim: Limits, frameMax: nat, r: Reader, fs: seq<Frame>)
    requires Confined(lim, frameMax, r) && forall i :: 0 <= i < |fs| ==> |fs[i].payload| <= frameMax
    ensures Confined(lim, frameMax, ReadAll(rules, lim, r, fs).0)
    decreases |fs|
  {
    hide Confined, ReadFrame;
    if fs != [] {
      FrameConfined(rules, lim, frameMax, r, fs[0]);
      ReaderConfined(rules, lim, frameMax, ReadFrame(rules, lim, r, fs[0]).0, fs[1..]);
    }
  }

  // ----- frames in order

  predicate Quiet(steps: seq<Step>)
  {
    forall i :: 0 <= i < |steps| ==> !steps[i].GoAway?
  }

  /** The octets decode to whole headers, and one of them is malformed. */
  predicate Spoilt(rules: D.Rules, lim: Limits, dec: D.State, block: HB.Block, buf: Bytes)
  {
    var r := D.Run(rules, dec, true, buf);
    r.error.None? && HB.Load(lim.list, block, r.headers).malformed
  }

  /** A frame of a block that is to go on is refused as a stream error, so that the reader forgets the block: the stream
      depends on itself, or a header is malformed. */
  predicate Forgets(rules: D.Rules, lim: Limits, r: Reader, f: Frame)
  {
    && !EndHeaders(f.flag)
    && if IsBlock(f.kind) then
         match Load(f)
         case Ok((_, fragment)) => Spoilt(rules, lim, r.dec, HB.EMPTY, fragment)
         case Err(e) => e == InvalidDependencyId
       else
         f.kind == CONTINUATION && r.partial.Some? &&
         Spoilt(rules, lim, r.dec, r.partial.value.block, r.partial.value.buf + f.payload)
  }

  /** The reader when frame i comes. */
  function Before(rules: D.Rules, lim: Limits, dec: D.State, fs: seq<Frame>, i: nat): Reader
    requires i <= |fs|
  {
    ReadAll(rules, lim, Reader(dec, None), fs[..i]).0
  }

  /** None of the first n frames makes the reader forget its block. */
  ghost predicate Remembered(rules: D.Rules, lim: Limits, dec: D.State, fs: seq<Frame>, n: nat)
    requires n <= |fs|
  {
    forall i :: 0 <= i < n ==> !Forgets(rules, lim, Before(rules, lim, dec, fs, i), fs[i])
  }

  /** The reader has the block open that the frames left open. */
  predicate Agree(r: Reader, a: Assembly)
  {
    match (r.partial, a.open)
    case (None, None) => true
    case (Some(p), Some(o)) => p.opener.id == o.id
    case _ => false
  }

  lemma {:induction false} ReadAppend(rules: D.Rules, lim: Limits, r: Reader, a: seq<Frame>, b: seq<Frame>)
    ensures var (r1, s1) := ReadAll(rules, lim, r, a);
            var (r2, s2) := ReadAll(rules, lim, r1, b);
            ReadAll(rules, lim, r, a + b) == (r2, s1 + s2) && |s1| == |a|
    decreases |a|
  {
    hide ReadFrame;
    if a == [] {
      assert a + b == b && [] + ReadAll(rules, lim, r, b).1 == ReadAll(rules, lim, r, b).1;
    } else {
      var (r1, step) := ReadFrame(rules, lim, r, a[0]);
      assert (a + b)[0] == a[0] && (a + b)[1..] == a[1..] + b;
      ReadAppend(rules, lim, r1, a[1..], b);
      var (r2, s1) := ReadAll(rules, lim, r1, a[1..]);
      Regroup([step], s1, ReadAll(rules, lim, r2, b).1);
    }
  }

  lemma ReadPush(rules: D.Rules, lim: Limits, r: Reader, fs: seq<Frame>, f: Frame)
    ensures var (r1, steps) := ReadAll(rules, lim, r, fs);
            var (r2, step) := ReadFrame(rules, lim, r1, f);
            ReadAll(rules, lim, r, fs + [f]) == (r2, steps + [step]) && |steps| == |fs|
  {
    hide ReadFrame, ReadAll, Silence;
    ReadAppend(rules, lim, r, fs, [f]);
    var r1 := ReadAll(rules, lim, r, fs).0;
    ReadOne(rules, lim, r1, [f]);
    assert Silence(0) == [] by { SilenceNone(); }
    var step := ReadFrame(rules, lim, r1, f).1;
    assert [] + [step] == [step];
  }

  lemma SilenceNone()
    ensures Silence(0) == []
  {
  }

  /** A frame that does not end the connection is one that may come. */
  lemma OrderStep(rules: D.Rules, lim: Limits, r: Reader, a: Assembly, f: Frame)
    requires Agree(r, a) && !ReadFrame(rules, lim, r, f).1.GoAway?
    ensures Join(a, f).Some?
    ensures var r1 := ReadFrame(rules, lim, r, f).0;
            if Forgets(rules, lim, r, f) then r1.partial.None? && Join(a, f).value.open.Some?
            else Agree(r1, Join(a, f).value)
  {
    hide D.Run, Load, HB.Load, TooLong;
    assert forall s: Bytes :: [] + s == s;
  }

  /** A reader with no open block that does not end the connection: the frames were in order if and only if no block
      was forgotten before the last of them, and the reader has open what they left open. */
  lemma {:induction false} OnlyInOrder(rules: D.Rules, lim: Limits, dec: D.State, fs: seq<Frame>)
    requires Quiet(ReadAll(rules, lim, Reader(dec, None), fs).1)
    ensures var r := ReadAll(rules, lim, Reader(dec, None), fs).0;
            && (Assemble(fs).Some? <==> Remembered(rules, lim, dec, fs, if fs == [] then 0 else |fs| - 1))
            && (Remembered(rules, lim, dec, fs, |fs|) ==> Agree(r, Assemble(fs).value))
            && (Assemble(fs).Some? && !Remembered(rules, lim, dec, fs, |fs|) ==>
                  r.partial.None? && Assemble(fs).value.open.Some?)
    decreases |fs|
  {
    hide ReadFrame, Join, Forgets, Agree, Quiet;
    var r0 := Reader(dec, None);
    if fs == [] {
      assert Agree(r0, Assembly([], None)) by { NothingOpen(dec); }
    } else {
      var n := |fs| - 1;
      var f := fs[n];
      assert fs == fs[..n] + [f];
      ReadPush(rules, lim, r0, fs[..n], f);
      var (r1, steps) := ReadAll(rules, lim, r0, fs[..n]);
      var step := ReadFrame(rules, lim, r1, f).1;
      QuietParts(steps, step);
      OnlyInOrder(rules, lim, dec, fs[..n]);
      RememberedPush(rules, lim, dec, fs);
      if Remembered(rules, lim, dec, fs[..n], n) {
        OrderStep(rules, lim, r1, Assemble(fs[..n]).value, f);
      } else if Assemble(fs[..n]).Some? {
        ForgottenEnds(rules, lim, r1, Assemble(fs[..n]).value, f);
      }
    }
  }

  lemma NothingOpen(dec: D.State)
    ensures Agree(Reader(dec, None), Assembly([], None))
  {
  }

  lemma QuietParts(steps: seq<Step>, step: Step)
    ensures Quiet(steps + [step]) <==> Quiet(steps) && !step.GoAway?
  {
    assert (steps + [step])[|steps|] == step;
    assert forall i :: 0 <= i < |steps| ==> (steps + [step])[i] == steps[i];
  }

  lemma RememberedPush(rules: D.Rules, lim: Limits, dec: D.State, fs: seq<Frame>)
    requires fs != []
    ensures var n := |fs| - 1;
            && (Remembered(rules, lim, dec, fs, n) <==> Remembered(rules, lim, dec, fs[..n], n))
            && (Remembered(rules, lim, dec, fs, n + 1) <==>
                Remembered(rules, lim, dec, fs[..n], n) && !Forgets(rules, lim, Before(rules, lim, dec, fs, n), fs[n]))
  {
    hide Forgets, ReadAll;
    var n := |fs| - 1;
    forall i | 0 <= i < n ensures Before(rules, lim, dec, fs, i) == Before(rules, lim, dec, fs[..n], i) {
      assert fs[..n][..i] == fs[..i];
    }
  }

  /** After a forgotten block, whatever comes is out of order. */
  lemma ForgottenEnds(rules: D.Rules, lim: Limits, r: Reader, a: Assembly, f: Frame)
    requires r.partial.None? && a.open.Some? && !ReadFrame(rules, lim, r, f).1.GoAway?
    ensures Join(a, f).None?
  {
    hide D.Run, Load, HB.Load, TooLong;
  }

  /** A frame that makes the reader forget its block, then any frame that is no part of a block: neither ends the
      connection, though a CONTINUATION frame had to come. */
  lemma ForgottenPasses(rules: D.Rules, lim: Limits, dec: D.State, f: Frame, g: Frame)
    requires IsBlock(f.kind) && Forgets(rules, lim, Reader(dec, None), f) && !IsBlock(g.kind) && g.kind != CONTINUATION
    ensures Quiet(ReadAll(rules, lim, Reader(dec, None), [f, g]).1) && Assemble([f, g]).None?
  {
    hide ReadAll, Load, Silence, Assemble, D.Run, HB.Load;
    var r := Reader(dec, None);
    assert forall s: Bytes :: [] + s == s;
    SilenceNone();
    ReadOne(rules, lim, r, [f]);
    ReadPush(rules, lim, r, [f], g);
    PassedOn(rules, lim, ReadFrame(rules, lim, r, f).0, g);
    assert [f] + [g] == [f, g];
    AssemblePush([], f);
    AssemblePush([f], g);
    assert [] + [f] == [f] && Assemble([]) == Some(Assembly([], None)) by { AssembleNone(); }
  }

  /** Two such frames: a HEADERS frame on stream 1 that depends on stream 1, and one whose fragment is the one header
      "transfer-encoding" of the static table. */
  lemma ForgottenBlock(rules: D.Rules, lim: Limits, dec: D.State, f: Frame)
    requires f == Frame(HEADERS, PRIORITY_BIT, 1, [0, 0, 0, 1, 0]) || f == Frame(HEADERS, 0, 1, [185])
    ensures var fs := [f, Frame(DATA, 0, 1, [])];
            Quiet(ReadAll(rules, lim, Reader(dec, None), fs).1) && Assemble(fs).None?
  {
    hide ReadAll, Load, Assemble, D.Run, Quiet, HB.Load;
    if f == Frame(HEADERS, PRIORITY_BIT, 1, [0, 0, 0, 1, 0]) {
      SelfDependent();
    } else {
      PlainOpener(0, [185]);
      TransferEncoding(rules, dec, []);
      D.NoOctets(rules, dec, false);
      assert [185] + [] == [185] && [TransferHeader()] + [] == [TransferHeader()];
      TransferMalformed(lim.list);
    }
    ForgottenPasses(rules, lim, dec, f, Frame(DATA, 0, 1, []));
  }

  lemma PlainOpener(flag: Byte, payload: Bytes)
    requires !Padded(flag) && !HasPriority(flag)
    ensures Load(Frame(HEADERS, flag, 1, payload)) == Ok(([], payload))
  {
    assert payload[..|payload|] == payload;
  }

  /** The header "transfer-encoding" with an empty value, as the static table has it. */
  function TransferHeader(): H.Header
  {
    H.GetStatic(57)
  }

  lemma TransferEncoding(rules: D.Rules, dec: D.State, tail: Bytes)
    ensures var r := D.Run(rules, dec, false, tail);
            D.Run(rules, dec, true, [185] + tail) == r.(headers := [TransferHeader()] + r.headers)
  {
    hide D.Run, H.GetStatic;
    var buf: Bytes := [185] + tail;
    assert buf[0] == 185 && buf[1..] == tail;
    D.RunStep(rules, dec, true, buf);
    assert D.ReadRep(rules, dec, buf) == Ok((D.Literal(TransferHeader(), false), 1));
  }

  lemma TransferMalformed(max: nat)
    ensures HB.Load(max, HB.EMPTY, [TransferHeader()]) == HB.Scan(HB.EMPTY, false, 0, true)
  {
    hide HB.Load, HB.Begin;
    var h := TransferHeader();
    assert H.StaticFieldName(57) == "transfer-encoding" && h.name == H.Field(H.Ascii("transfer-encoding"));
    assert HB.ConnectionLevel(h.name, h.value);
    HB.LoadOne(max, HB.EMPTY, h);
    HB.NothingStored();
  }

  /** In one frame a block that decodes is refused as a stream error if and only if a header in it is misplaced; if it
      is not, the longest beginning within the limit is passed on, behind the fixed octets of the frame. */
  lemma WholeRefused(rules: D.Rules, lim: Limits, r: Reader, f: Frame)
    requires r.partial.None? && IsBlock(f.kind) && EndHeaders(f.flag) && Load(f).Ok?
    requires D.Run(rules, r.dec, true, Load(f).value.1).error.None?
    ensures var hs := D.Run(rules, r.dec, true, Load(f).value.1).headers;
            var n := HB.Fitting(lim.list, hs);
            ReadFrame(rules, lim, r, f).1 ==
              if HB.AnyMisplaced(lim.list, hs) then ResetStream(f.id)
              else Headers(f, Load(f).value.0, HB.Block(hs[..n], n < |hs|))
  {
    hide D.Run, Load, HB.Load, HB.Fitting, HB.AnyMisplaced;
    assert [] + Load(f).value.1 == Load(f).value.1;
    HB.ListStored(lim.list, D.Run(rules, r.dec, true, Load(f).value.1).headers);
  }

  /** What the decoder had left over, and the octets a frame adds. */
  function Gathered(r: Reader, f: Frame): Bytes
  {
    if f.kind == CONTINUATION && r.partial.Some? then r.partial.value.buf + f.payload
    else if IsBlock(f.kind) && Load(f).Ok? then Load(f).value.1
    else []
  }

  /** A list is passed on only by a frame that ends its block, after the last of its octets was decoded; a block that
      breaks off inside a header ends the connection. */
  lemma PassedWhole(rules: D.Rules, lim: Limits, r: Reader, f: Frame)
    ensures var step := ReadFrame(rules, lim, r, f).1;
            var failed := D.Run(rules, r.dec, true, Gathered(r, f)).error.Some?;
            (step.Headers? ==> EndHeaders(f.flag) && !failed) && (EndHeaders(f.flag) && failed ==> step.GoAway?)
  {
    hide D.Run, Load, HB.Load, TooLong, EndHeaders;
    assert forall s: Bytes :: [] + s == s;
    D.RunEmpty(rules, r.dec, true);
  }

  /** Where a block is cut decides whether a malformed header is noticed. The list "transfer-encoding", ":path" is
      refused in one frame; cut inside its second header it is passed on, and the first header has vanished. */
  lemma MalformedSlips(rules: D.Rules, lim: Limits, dec: D.State)
    requires rules.fieldValue(H.Path, [47]) && lim.list > 38
    ensures var f, g := Frame(HEADERS, 0, 1, [185, 4]), Frame(CONTINUATION, END_HEADERS, 1, [1, 47]);
            var path := H.Header(H.Path, [47], false);
            && ReadAll(rules, lim, Reader(dec, None), [f, g]).1 == [Nothing, Headers(f, [], HB.Block([path], false))]
            && ReadFrame(rules, lim, Reader(dec, None), Frame(HEADERS, END_HEADERS, 1, [185, 4, 1, 47])).1 ==
               ResetStream(1)
  {
    hide ReadAll, Load, D.Run, HB.Load, Silence, H.GetStatic;
    var f, g := Frame(HEADERS, 0, 1, [185, 4]), Frame(CONTINUATION, END_HEADERS, 1, [1, 47]);
    var path := H.Header(H.Path, [47], false);
    var r := Reader(dec, None);
    PlainOpener(0, [185, 4]);
    PlainOpener(END_HEADERS, [185, 4, 1, 47]);
    TransferEncoding(rules, dec, [4]);
    TransferEncoding(rules, dec, [4, 1, 47]);
    assert [185] + [4] == [185, 4] && [185] + [4, 1, 47] == [185, 4, 1, 47] && [4] + [1, 47] == [4, 1, 47];
    PathCut(rules, dec, false);
    PathWhole(rules, dec, false);
    PathWhole(rules, dec, true);
    TransferMalformed(lim.list);
    PathStored(lim.list);
    assert [TransferHeader()] + [] == [TransferHeader()];
    assert [] + [185, 4] == [185, 4] && [] + [185, 4, 1, 47] == [185, 4, 1, 47];
    assert [TransferHeader()] + [path] == [TransferHeader(), path];
    ReadOne(rules, lim, r, [f]);
    SilenceNone();
    ReadPush(rules, lim, r, [f], g);
    assert [f] + [g] == [f, g] && [] + [Nothing] == [Nothing];
  }

  lemma PathCut(rules: D.Rules, dec: D.State, flag: bool)
    ensures var r := D.Run(rules, dec, flag, [4]);
            r.headers == [] && r.state == dec && r.rest == [4] && r.error.Some? && D.WantsMore(r.error.value)
  {
    hide D.Run, D.ReadLiteral;
    var buf: Bytes := [4];
    D.RunStep(rules, dec, flag, buf);
    PathLiteralCut(rules, dec.entries);
    assert buf[0..] == buf;
  }

  lemma PathLiteralCut(rules: D.Rules, es: HpackList.Entries)
    ensures var r := D.ReadLiteral(rules, es, [4], 4);
            r.Err? && D.WantsMore(r.error.error) && r.error.dropped == 0
  {
    hide D.NewHeader, D.IntoEntry, H.GetStatic;
    var buf: Bytes := [4];
    assert buf[1..] == [];
  }

  lemma PathWhole(rules: D.Rules, dec: D.State, flag: bool)
    requires rules.fieldValue(H.Path, [47])
    ensures var r := D.Run(rules, dec, flag, [4, 1, 47]);
            r.headers == [H.Header(H.Path, [47], false)] && r.state == dec && r.error.None?
  {
    hide D.Run, D.ReadLiteral, H.StaticValue;
    var buf: Bytes := [4, 1, 47];
    D.RunStep(rules, dec, flag, buf);
    PathLiteral(rules, dec.entries);
    assert buf[3..] == [];
    D.NoOctets(rules, dec, false);
    assert [H.Header(H.Path, [47], false)] + [] == [H.Header(H.Path, [47], false)];
  }

  lemma PathLiteral(rules: D.Rules, es: HpackList.Entries)
    requires rules.fieldValue(H.Path, [47])
    ensures D.ReadLiteral(rules, es, [4, 1, 47], 4) == Ok((H.Header(H.Path, [47], false), 3))
  {
    hide D.NewHeader, H.StaticValue;
    var buf: Bytes := [4, 1, 47];
    assert buf[1..] == [1, 47] && [1, 47][1..2] == [47];
    assert D.ReadString(rules, buf[1..]) == Ok(D.Marker(1, 1, false, [47]));
  }

  lemma PathStored(max: nat)
    requires max > 38
    ensures var path := H.Header(H.Path, [47], false);
            && HB.Load(max, HB.EMPTY, [path]).block == HB.Block([path], false)
            && !HB.Load(max, HB.EMPTY, [path]).malformed
            && HB.Load(max, HB.EMPTY, [TransferHeader(), path]).malformed
  {
    hide HB.Load, HB.Begin;
    var path := H.Header(H.Path, [47], false);
    assert H.Len(path) == 38;
    assert [] + [path] == [path];
    HB.LoadOne(max, HB.EMPTY, path);
    HB.NothingStored();
    TransferMalformed(max);
    HB.LoadNext(max, HB.EMPTY, TransferHeader(), path);
  }

  lemma SelfDependent()
    ensures Load(Frame(HEADERS, PRIORITY_BIT, 1, [0, 0, 0, 1, 0])) == Err(InvalidDependencyId)
  {
    var p: Bytes := [0, 0, 0, 1, 0];
    assert p[..4] == [0, 0, 0, 1];
    BigEndianFour(0, 0, 0, 1);
  }

  /** What the blocks in a list of frames carry can be read: the frames that open them load, the decoder accepts each
      block in the state the ones before leave it in, and no block has too many frames. */
  ghost predicate Readable(rules: D.Rules, lim: Limits, dec: D.State, fs: seq<Frame>)
    decreases |fs|
  {
    if fs == [] then true
    else if !IsBlock(fs[0].kind) then Readable(rules, lim, dec, fs[1..])
    else
      var n := Extent(fs);
      && Load(fs[0]).Ok?
      && var block := Load(fs[0]).value.1 + Payloads(fs[1..n]);
         if EndHeaders(fs[n - 1].flag) then
           && n <= lim.continuations + 2 && Accepted(rules, lim, dec, HB.EMPTY, block)
           && Readable(rules, lim, D.Run(rules, dec, true, block).state, fs[n..])
         else n <= lim.continuations + 1 && exists tail :: Accepted(rules, lim, dec, HB.EMPTY, block + tail)
  }

  /** The first frames of a block that is accepted so far: nothing is handed on. */
  lemma {:induction false} MoreArrives(rules: D.Rules, lim: Limits, r: Reader, fs: seq<Frame>, tail: Bytes)
    requires r.partial.Some? && r.partial.value.count + |fs| <= lim.continuations
    requires forall i :: 0 <= i < |fs| ==> Continues(r.partial.value.opener.id, fs[i]) && !EndHeaders(fs[i].flag)
    requires Accepted(rules, lim, r.dec, r.partial.value.block, r.partial.value.buf + Payloads(fs) + tail)
    ensures ReadAll(rules, lim, r, fs).1 == Silence(|fs|)
    decreases |fs|
  {
    hide D.Run, Accepted, Fed;
    if fs != [] {
      var p := r.partial.value;
      NotOver(rules, lim, r.dec, p.block, p.buf + Payloads(fs) + tail);
      var rest := Payloads(fs[1..]) + tail;
      assert p.buf + fs[0].payload + rest == p.buf + Payloads(fs) + tail;
      var p1 := p.(count := p.count + 1);
      FragmentLeaves(rules, lim, r.dec, p1, fs[0].payload, rest);
      var (r1, _) := Fed(rules, lim, r.dec, p1, fs[0].payload, false);
      assert r1.partial.value.buf + rest == r1.partial.value.buf + Payloads(fs[1..]) + tail;
      MoreArrives(rules, lim, r1, fs[1..], tail);
    }
  }

  /** A block that is accepted so far and stays open. */
  lemma OpenArrives(rules: D.Rules, lim: Limits, dec: D.State, fs: seq<Frame>, tail: Bytes)
    requires fs != [] && IsBlock(fs[0].kind) && Load(fs[0]).Ok? && |fs| <= lim.continuations + 1
    requires forall i :: 1 <= i < |fs| ==> Continues(fs[0].id, fs[i])
    requires forall i :: 0 <= i < |fs| ==> !EndHeaders(fs[i].flag)
    requires Accepted(rules, lim, dec, HB.EMPTY, Load(fs[0]).value.1 + Payloads(fs[1..]) + tail)
    ensures ReadAll(rules, lim, Reader(dec, None), fs).1 == Silence(|fs|)
  {
    hide D.Run, Accepted, Fed, Load, Payloads;
    var (front, fragment) := Load(fs[0]).value;
    var p := Partial(fs[0], front, HB.EMPTY, [], 0);
    var rest := Payloads(fs[1..]) + tail;
    assert [] + fragment == fragment;
    Regroup(fragment, Payloads(fs[1..]), tail);
    FragmentLeaves(rules, lim, dec, p, fragment, rest);
    var (r1, _) := Fed(rules, lim, dec, p, fragment, false);
    Regroup(r1.partial.value.buf, Payloads(fs[1..]), tail);
    MoreArrives(rules, lim, r1, fs[1..], tail);
  }

  lemma {:induction false} SilenceQuiet(n: nat)
    ensures Quiet(Silence(n)) && |Silence(n)| == n
  {
    if n > 0 {
      SilenceQuiet(n - 1);
    }
  }

  lemma QuietAppend(a: seq<Step>, b: seq<Step>)
    requires Quiet(a) && Quiet(b)
    ensures Quiet(a + b)
  {
  }

  /** Frames in order, whose blocks can be read, do not end the connection. */
  lemma {:induction false} InOrderIsRead(rules: D.Rules, lim: Limits, dec: D.State, fs: seq<Frame>)
    requires Assemble(fs).Some? && Readable(rules, lim, dec, fs)
    ensures Quiet(ReadAll(rules, lim, Reader(dec, None), fs).1)
    decreases |fs|
  {
    hide D.Run, Load, Payloads, Assemble, Accepted, ReadAll, Silence, EndHeaders, IsBlock, Quiet, Fed;
    var r := Reader(dec, None);
    if fs == [] {
      NothingRead(rules, lim, r);
    } else {
      FirstThing(fs);
      var n := if IsBlock(fs[0].kind) then Extent(fs) else 1;
      assert fs == fs[..n] + fs[n..];
      ReadAppend(rules, lim, r, fs[..n], fs[n..]);
      if !IsBlock(fs[0].kind) {
        PassedOn(rules, lim, r, fs[0]);
        ReadOne(rules, lim, r, fs[..1]);
        InOrderIsRead(rules, lim, dec, fs[1..]);
        OneQuiet(0, Passed(fs[0]));
        QuietAppend(Silence(0) + [Passed(fs[0])], ReadAll(rules, lim, r, fs[1..]).1);
      } else {
        var block := Load(fs[0]).value.1 + Payloads(fs[1..n]);
        assert fs[..n][1..] == fs[1..n];
        if EndHeaders(fs[n - 1].flag) {
          WholeBlock(fs, n);
          BlockArrives(rules, lim, dec, fs[..n]);
          var whole := D.Run(rules, dec, true, block);
          InOrderIsRead(rules, lim, whole.state, fs[n..]);
          var last := Headers(fs[0], Load(fs[0]).value.0, HB.Block(whole.headers, false));
          OneQuiet(n - 1, last);
          QuietAppend(Silence(n - 1) + [last],
                      ReadAll(rules, lim, Reader(whole.state, None), fs[n..]).1);
        } else {
          var tail :| Accepted(rules, lim, dec, HB.EMPTY, block + tail);
          assert fs[..n] == fs;
          OpenArrives(rules, lim, dec, fs, tail);
          SilenceQuiet(n);
        }
      }
    }
  }

  lemma NothingRead(rules: D.Rules, lim: Limits, r: Reader)
    ensures ReadAll(rules, lim, r, []) == (r, []) && Quiet([])
  {
  }

  lemma PassedOn(rules: D.Rules, lim: Limits, r: Reader, f: Frame)
    requires r.partial.None? && !IsBlock(f.kind) && f.kind != CONTINUATION
    ensures ReadFrame(rules, lim, r, f) == (r, Passed(f))
  {
  }

  lemma OneQuiet(n: nat, last: Step)
    requires !last.GoAway?
    ensures Quiet(Silence(n) + [last])
  {
    SilenceQuiet(n);
    QuietParts(Silence(n), last);
  }

  lemma WholeBlock(fs: seq<Frame>, n: nat)
    requires fs != [] && n == Extent(fs) && EndHeaders(fs[n - 1].flag)
    requires forall j :: 1 <= j < n ==> Continues(fs[0].id, fs[j])
    ensures if n == 1 then EndHeaders(fs[..n][0].flag)
            else !EndHeaders(fs[..n][0].flag) && Completes(fs[..n][0].id, fs[..n][1..])
  {
    hide EndHeaders;
    if n > 1 {
      assert forall i :: 0 <= i < n - 1 ==> fs[..n][1..][i] == fs[i + 1];
    }
  }

  /** No block in the list has more CONTINUATION frames than allowed. */
  predicate Bounded(max: nat, fs: seq<Frame>)
    decreases |fs|
  {
    if fs == [] then true
    else
      var n := if IsBlock(fs[0].kind) then Extent(fs) else 1;
      n <= max + 2 && Bounded(max, fs[n..])
  }

  /** Frames that are full, all but the last, and carry at most headerMax octets: there are not too many of them. */
  lemma FullFramesFit(headerMax: nat, frameMax: nat, fs: seq<Frame>)
    requires frameMax > 0 && fs != [] && |Payloads(fs)| <= headerMax
    requires forall i :: 0 <= i < |fs| - 1 ==> |fs[i].payload| == frameMax
    ensures |fs| <= MaxContinuations(headerMax, frameMax) + 2
  {
    hide MaxContinuations;
    FullFramesCarry(frameMax, fs);
    var r := MaxContinuations(headerMax, frameMax);
    FactorsOrdered(|fs| - 1, r + 1, frameMax);
  }

  lemma FactorsOrdered(k: nat, r: nat, m: nat)
    requires m > 0 && k * m <= r * m
    ensures k <= r
  {
  }

  lemma {:induction false} FullFramesCarry(frameMax: nat, fs: seq<Frame>)
    requires fs != [] && forall i :: 0 <= i < |fs| - 1 ==> |fs[i].payload| == frameMax
    ensures |Payloads(fs)| >= (|fs| - 1) * frameMax
    decreases |fs|
  {
    if |fs| > 1 {
      FullFramesCarry(frameMax, fs[1..]);
    }
  }

  // ----- the reader object

  class FramedRead {
    const decoder: D.Decoder
    var maxFrameSize: nat
    var maxHeaderListSize: nat
    var maxContinuations: nat
    var partial: Option<Partial>

    ghost predicate Valid()
      reads this, decoder
    {
      && decoder.Valid() && maxFrameSize > 0
      && maxContinuations == MaxContinuations(maxHeaderListSize, maxFrameSize)
    }

    /** What the next frame is read with: a queued limit of the decoder takes effect then. */
    ghost function Model(): Reader
      reads this, decoder
    {
      Reader(decoder.Started(), partial)
    }

    function Limit(): Limits
      reads this
    {
      Limits(maxContinuations, maxHeaderListSize)
    }

    constructor (decoder: D.Decoder, maxFrameSize: nat, maxHeaderListSize: nat)
      requires decoder.Valid() && maxFrameSize > 0
      ensures Valid() && this.decoder == decoder && partial == None
      ensures this.maxFrameSize == maxFrameSize && this.maxHeaderListSize == maxHeaderListSize
    {
      this.decoder := decoder;
      this.maxFrameSize, this.maxHeaderListSize := maxFrameSize, maxHeaderListSize;
      maxContinuations := MaxContinuations(maxHeaderListSize, maxFrameSize);
      partial := None;
    }

    method SetMaxFrameSize(val: nat)
      requires Valid() && 16_384 <= val <= 16_777_215
      modifies this`maxFrameSize, this`maxContinuations
      ensures Valid() && maxFrameSize == val
    {
      maxFrameSize := val;
      maxContinuations := MaxContinuations(maxHeaderListSize, val);
    }

    method SetMaxHeaderListSize(val: nat)
      requires Valid()
      modifies this`maxHeaderListSize, this`maxContinuations
      ensures Valid() && maxHeaderListSize == val
    {
      maxHeaderListSize := val;
      maxContinuations := MaxContinuations(val, maxFrameSize);
    }

    method DecodeFrame(f: Frame) returns (step: Step)
      requires Valid()
      modifies this`partial, decoder
      ensures Valid() && (Model(), step) == ReadFrame(decoder.rules, Limit(), old(Model()), f)
    {
      hide D.Run, Load, HB.Load;
      if partial.Some? && f.kind != CONTINUATION {
        return GoAway(PROTOCOL_ERROR);
      }
      if IsBlock(f.kind) {
        match Load(f) {
          case Err(InvalidDependencyId) =>
            step := ResetStream(f.id);
          case Err(_) =>
            step := GoAway(PROTOCOL_ERROR);
          case Ok((front, fragment)) =>
            step := FeedFragment(Partial(f, front, HB.EMPTY, [], 0), fragment, EndHeaders(f.flag));
        }
      } else if f.kind == CONTINUATION {
        if partial.None? {
          return GoAway(PROTOCOL_ERROR);
        }
        var last := EndHeaders(f.flag);
        var p := partial.value;
        partial := None;
        if p.opener.id != f.id {
          return GoAway(PROTOCOL_ERROR);
        }
        if last {
          p := p.(count := 0);
        } else {
          var cnt := p.count + 1;
          if cnt > maxContinuations {
            return GoAway(ENHANCE_YOUR_CALM);
          }
          p := p.(count := cnt);
        }
        if p.buf != [] && p.block.over && |p.buf| + HEADER_LEN + |f.payload| > maxHeaderListSize {
          return GoAway(COMPRESSION_ERROR);
        }
        step := FeedFragment(p, f.payload, last);
      } else {
        step := Passed(f);
      }
    }

    /** `load_hpack`, and what follows from its result. */
    method FeedFragment(p: Partial, fragment: Bytes, last: bool) returns (step: Step)
      requires Valid() && partial == None
      modifies this`partial, decoder
      ensures Valid() && (Model(), step) == Fed(decoder.rules, Limit(), old(decoder.Started()), p, fragment, last)
    {
      hide D.Run, HB.Load;
      var cur := new HpackCursor.Cursor(p.buf + fragment);
      var headers, error := decoder.Decode(cur);
      var block, malformed := HB.LoadBlock(maxHeaderListSize, p.block, headers);
      if error.Some? && (last || !D.WantsMore(error.value)) {
        return GoAway(PROTOCOL_ERROR);
      }
      if error.None? && malformed {
        return ResetStream(p.opener.id);
      }
      var q := p.(block := block, buf := cur.buf);
      if last {
        step := Headers(q.opener, q.front, q.block);
      } else {
        partial := Some(q);
        step := Nothing;
      }
    }
  }
}
