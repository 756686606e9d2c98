/**
 The frame writer (codec/framed_write.rs, `EncodingHeaderBlock::encode` in frame/headers.rs): frames are encoded into a
 buffer, large DATA payloads are chained behind it, and header blocks over the peer's frame size limit continue in
 CONTINUATION frames. Whatever the transport accepts and whenever, the octets on the wire are those of the frames, and
 the frames put together are the items that were buffered.
 */
module FramedWrite {
  import opened Common
  import opened Frames

  const DEFAULT_MAX_FRAME_SIZE := 16_384
  const MAX_MAX_FRAME_SIZE := 16_777_215

  /** What can be buffered: DATA, a header block with the octets that precede it in its first frame (stream dependency
      or promised id), or a frame encoded whole. */
  datatype Item =
    | Data(flag: Byte, id: nat, payload: Bytes)
    | Block(kind: Byte, flag: Byte, id: nat, prefix: Bytes, block: Bytes)
    | Control(frame: Frame)

  predicate ItemOk(i: Item)
  {
    match i
    case Data(_, id, _) => id < 0x8000_0000
    case Block(kind, flag, id, prefix, _) => IsBlock(kind) && EndHeaders(flag) && id < 0x8000_0000 && |prefix| <= 5
    case Control(f) => f.kind != DATA && !IsBlock(f.kind) && f.kind != CONTINUATION && Encodable(f)
  }

  /** The item as one frame, ignoring the size limit. */
  function Ideal(i: Item): Frame
  {
    match i
    case Data(flag, id, payload) => Frame(DATA, flag, id, payload)
    case Block(kind, flag, id, prefix, block) => Frame(kind, flag, id, prefix + block)
    case Control(f) => f
  }

  /** The first frame of a header block under the size limit. */
  function FirstFrame(whole: Frame, max: nat): Frame
    requires EndHeaders(whole.flag)
  {
    if |whole.payload| <= max then whole
    else whole.(flag := whole.flag - END_HEADERS, payload := whole.payload[..max])
  }

  /** `EncodingHeaderBlock::encode`: the head is written with length 0 and patched afterwards. */
  method EncodeBlock(dst: Bytes, kind: Byte, flag: Byte, id: nat, prefix: Bytes, block: Bytes, max: nat)
    returns (r: Bytes, rest: Option<Bytes>)
    requires EndHeaders(flag) && |prefix| <= max <= MAX_MAX_FRAME_SIZE
    ensures r == dst + FrameBytes(FirstFrame(Frame(kind, flag, id, prefix + block), max))
    ensures rest == if |prefix + block| > max then Some((prefix + block)[max..]) else None
  {
    var headPos := |dst|;
    r := dst + HeadBytes(0, kind, flag, id);
    var payloadPos := |r|;
    r := r + prefix;
    var remaining := max + HEADER_LEN - (|r| - headPos);
    if |block| > remaining {
      r := r + block[..remaining];
      rest := Some(block[remaining..]);
    } else {
      r := r + block;
      rest := None;
    }
    var payloadLen := |r| - payloadPos;
    ghost var payload := prefix + if rest.Some? then block[..remaining] else block;
    assert r == dst + HeadBytes(0, kind, flag, id) + payload;
    r := r[headPos := payloadLen / 65536 % 256][headPos + 1 := payloadLen / 256 % 256][headPos + 2 := payloadLen % 256];
    if rest.Some? {
      r := r[headPos + 4 := r[headPos + 4] - END_HEADERS];
    }
    Patched(dst, kind, flag, id, payload, rest.Some?, r);
    assert rest.Some? ==> payload == (prefix + block)[..max] && block[remaining..] == (prefix + block)[max..];
  }

  lemma Patched(dst: Bytes, kind: Byte, flag: Byte, id: nat, payload: Bytes, cut: bool, r: Bytes)
    requires EndHeaders(flag)
    requires var h := |dst|; var n := |payload|; var s := dst + HeadBytes(0, kind, flag, id) + payload;
             var t := s[h := n / 65536 % 256][h + 1 := n / 256 % 256][h + 2 := n % 256];
             r == if cut then t[h + 4 := flag - END_HEADERS] else t
    ensures r == dst + FrameBytes(Frame(kind, if cut then flag - END_HEADERS else flag, id, payload))
  {
    hide EndHeaders;
  }

  datatype Next = ChainedData(flag: Byte, id: nat, rest: Bytes) | Continuation(id: nat, block: Bytes)

  /** The DATA frame to be handed back, its payload used up, once everything is written. */
  function HandedBack(next: Option<Next>, last: Option<Item>): Option<Item>
  {
    match next
    case Some(ChainedData(flag, id, _)) => Some(Data(flag, id, []))
    case _ => last
  }

  datatype Flushed = Done | Pending | WriteZero

  class FramedWrite {
    var buf: Bytes
    var pos: nat
    var next: Option<Next>
    var lastDataFrame: Option<Item>
    var maxFrameSize: nat
    const chainThreshold: nat

    /** The octets the transport has taken, the frames encoded so far, and the items buffered. */
    ghost var wire: Bytes
    ghost var log: seq<Frame>
    ghost var items: seq<Frame>

    ghost function Unwritten(): Bytes
      requires pos <= |buf|
      reads this
    {
      Tail(buf, pos, next)
    }

    ghost predicate Valid()
      reads this
    {
      && pos <= |buf|
      && DEFAULT_MAX_FRAME_SIZE <= maxFrameSize <= MAX_MAX_FRAME_SIZE
      && HEADER_LEN < chainThreshold <= DEFAULT_MAX_FRAME_SIZE
      && wire + Unwritten() == Wire(log)
      && Receivable(MAX_MAX_FRAME_SIZE, log)
      && OpenOk(items, next) && Assemble(log) == Some(Open(items, next))
      && (next.Some? && next.value.ChainedData? && next.value.rest == [] ==> pos == |buf|)
    }

    constructor (vectored: bool)
      ensures Valid() && wire == [] && items == [] && next == None && maxFrameSize == DEFAULT_MAX_FRAME_SIZE
    {
      chainThreshold := if vectored then 256 else 1024;
      buf, pos, next, lastDataFrame := [], 0, None, None;
      maxFrameSize := DEFAULT_MAX_FRAME_SIZE;
      wire, log, items := [], [], [];
    }

    method SetMaxFrameSize(val: nat)
      requires Valid() && DEFAULT_MAX_FRAME_SIZE <= val <= MAX_MAX_FRAME_SIZE
      modifies this`maxFrameSize
      ensures Valid() && maxFrameSize == val
    {
      maxFrameSize := val;
    }

    /** `is_empty`; for a chained payload it looks at the payload only. */
    predicate IsEmpty()
      requires pos <= |buf|
      reads this
    {
      if next.Some? && next.value.ChainedData? then next.value.rest == [] else pos == |buf|
    }

    /** `Encoder::buffer`. A DATA payload over the peer's limit is refused. */
    method Buffer(item: Item) returns (ok: bool)
      requires Valid() && next == None && ItemOk(item)
      modifies this
      ensures Valid() && wire == old(wire) && maxFrameSize == old(maxFrameSize)
      ensures ok <==> !(item.Data? && |item.payload| > maxFrameSize)
      ensures !ok ==> unchanged(this)
      ensures ok ==> items == old(items) + [Ideal(item)] && Grown(old(log), log, maxFrameSize)
      ensures ok ==> HandedBack(next, lastDataFrame) ==
                     if item.Data? then Some(item.(payload := [])) else old(lastDataFrame)
    {
      hide Wire, Assemble, Receivable, FrameBytes;
      match item {
        case Data(flag, id, payload) =>
          if |payload| > maxFrameSize {
            return false;
          }
          BufferData(flag, id, payload);
        case Block(kind, flag, id, prefix, block) =>
          BufferBlock(kind, flag, id, prefix, block);
        case Control(f) =>
          BufferWhole(f);
      }
      return true;
    }

    method BufferWhole(f: Frame)
      requires Valid() && next == None && Encodable(f) && !IsBlock(f.kind) && f.kind != CONTINUATION
      modifies this`buf, this`log, this`items
      ensures Valid() && items == old(items) + [f] && log == old(log) + [f]
    {
      hide Wire, Assemble, Receivable, FrameBytes;
      PushWhole(log, items, f);
      Extend(wire, buf, pos, log, f);
      buf := buf + FrameBytes(f);
      log, items := log + [f], items + [f];
    }

    method BufferData(flag: Byte, id: nat, payload: Bytes)
      requires Valid() && next == None && id < 0x8000_0000 && |payload| <= maxFrameSize
      modifies this`buf, this`log, this`items, this`next, this`lastDataFrame
      ensures Valid() && items == old(items) + [Frame(DATA, flag, id, payload)]
      ensures log == old(log) + [Frame(DATA, flag, id, payload)]
      ensures HandedBack(next, lastDataFrame) == Some(Data(flag, id, []))
    {
      hide Wire, Assemble, Receivable, FrameBytes;
      var f := Frame(DATA, flag, id, payload);
      if |payload| >= chainThreshold {
        PushWhole(log, items, f);
        Extend(wire, buf, pos, log, f);
        ghost var whole := buf + FrameBytes(f);
        buf := buf + HeadBytes(|payload|, DATA, flag, id);
        FrameSplits(f);
        var rest := payload;
        if |buf| < chainThreshold {
          var extra := chainThreshold - (|buf| - pos);
          buf := buf + payload[..extra];
          rest := payload[extra..];
        }
        next := Some(ChainedData(flag, id, rest));
        assert buf + rest == whole;
        assert buf[pos..] + rest == whole[pos..];
        log, items := log + [f], items + [f];
      } else {
        BufferWhole(f);
        lastDataFrame := Some(Data(flag, id, []));
      }
    }

    method BufferBlock(kind: Byte, flag: Byte, id: nat, prefix: Bytes, block: Bytes)
      requires Valid() && next == None && IsBlock(kind) && EndHeaders(flag) && id < 0x8000_0000 && |prefix| <= 5
      modifies this`buf, this`log, this`items, this`next
      ensures Valid() && items == old(items) + [Frame(kind, flag, id, prefix + block)]
      ensures log == old(log) + [FirstFrame(Frame(kind, flag, id, prefix + block), maxFrameSize)]
      ensures next == None || next.value.Continuation?
    {
      hide Wire, Assemble, Receivable, FrameBytes;
      ghost var whole := Frame(kind, flag, id, prefix + block);
      ghost var f := FirstFrame(whole, maxFrameSize);
      Extend(wire, buf, pos, log, f);
      OpenBlock(log, items, whole, maxFrameSize);
      var rest: Option<Bytes>;
      buf, rest := EncodeBlock(buf, kind, flag, id, prefix, block, maxFrameSize);
      if rest.Some? {
        next := Some(Continuation(id, rest.value));
      }
      log, items := log + [f], items + [whole];
    }

    /** `unset_frame`: the buffer is written out; the next CONTINUATION frame is encoded if there is one. True means
        that there is more to write. */
    method UnsetFrame() returns (more: bool)
      requires Valid() && IsEmpty()
      modifies this
      ensures Valid() && wire == old(wire) && items == old(items) && maxFrameSize == old(maxFrameSize)
      ensures Grown(old(log), log, maxFrameSize)
      ensures !more ==> next == None && buf == [] && pos == 0
      ensures HandedBack(next, lastDataFrame) == old(HandedBack(next, lastDataFrame))
      ensures more ==> !IsEmpty() && Outstanding(next) < Outstanding(old(next))
    {
      hide Wire, Assemble, Receivable, FrameBytes;
      assert Unwritten() == [];
      pos, buf := 0, [];
      assert wire + [] == wire;
      match next {
        case None =>
          more := false;
        case Some(ChainedData(flag, id, rest)) =>
          next, lastDataFrame := None, Some(Data(flag, id, rest));
          more := false;
        case Some(Continuation(id, block)) =>
          ghost var whole := Frame(CONTINUATION, END_HEADERS, id, block);
          ghost var f := FirstFrame(whole, maxFrameSize);
          Extend(wire, buf, pos, log, f);
          ContinueBlock(log, items, id, block, maxFrameSize);
          assert [] + block == block;
          var rest: Option<Bytes>;
          next := None;
          buf, rest := EncodeBlock([], CONTINUATION, END_HEADERS, id, [], block, maxFrameSize);
          if rest.Some? {
            next := Some(Continuation(id, rest.value));
          }
          log := log + [f];
          more := true;
      }
    }

    /** One write of the transport: n octets of the buffer and the chained payload. */
    method Advance(n: nat)
      requires Valid() && n <= |Unwritten()|
      modifies this`pos, this`next, this`wire
      ensures Valid() && wire == old(wire) + old(Unwritten())[..n]
      ensures Outstanding(next) == Outstanding(old(next))
      ensures HandedBack(next, lastDataFrame) == old(HandedBack(next, lastDataFrame))
    {
      hide Wire, Assemble, Receivable, OpenOk, Open, Tail;
      TailLength(buf, pos, next);
      Written(wire, Tail(buf, pos, next), n);
      wire := wire + Tail(buf, pos, next)[..n];
      if n <= |buf| - pos {
        TailInBuffer(buf, pos, next, n);
        pos := pos + n;
      } else {
        var d := next.value;
        var rest := d.rest[n - (|buf| - pos)..];
        TailInPayload(buf, pos, d, rest);
        NotOpen(items, next);
        next := Some(ChainedData(d.flag, d.id, rest));
        NotOpen(items, next);
        pos := |buf|;
      }
    }

    /** `flush`, on a transport that takes at most accepts[i] octets at its i-th write and is not ready after that. */
    method Flush(accepts: seq<nat>) returns (r: Flushed)
      requires Valid()
      modifies this
      ensures Valid() && items == old(items) && maxFrameSize == old(maxFrameSize)
      ensures old(wire) <= wire && Grown(old(log), log, maxFrameSize)
      ensures r.Done? ==> next == None && buf == [] && wire == Wire(log) && Assemble(log) == Some(Assembly(items, None))
      ensures HandedBack(next, lastDataFrame) == old(HandedBack(next, lastDataFrame))
      ensures r.WriteZero? ==> exists i :: 0 <= i < |accepts| && accepts[i] == 0
    {
      hide Wire, Assemble, Receivable;
      var i := 0;
      while true
        invariant Valid() && 0 <= i <= |accepts| && items == old(items) && maxFrameSize == old(maxFrameSize)
        invariant old(wire) <= wire && Grown(old(log), log, maxFrameSize)
        invariant HandedBack(next, lastDataFrame) == old(HandedBack(next, lastDataFrame))
        decreases Outstanding(next)
      {
        ghost var outstanding := Outstanding(next);
        while !IsEmpty()
          invariant Valid() && 0 <= i <= |accepts| && items == old(items) && maxFrameSize == old(maxFrameSize)
          invariant old(wire) <= wire && Grown(old(log), log, maxFrameSize) && Outstanding(next) == outstanding
          invariant HandedBack(next, lastDataFrame) == old(HandedBack(next, lastDataFrame))
          decreases |accepts| - i
        {
          if i == |accepts| {
            return Pending;
          }
          var total := |buf| - pos + match next case Some(ChainedData(_, _, rest)) => |rest| case _ => 0;
          var n := if accepts[i] < total then accepts[i] else total;
          i := i + 1;
          Advance(n);
          if n == 0 {
            assert accepts[i - 1] == 0;
            return WriteZero;
          }
        }
        var more := UnsetFrame();
        if !more {
          assert wire + Unwritten() == wire;
          return Done;
        }
      }
    }
  }

  /** The item being continued is the last one; what its frames carried so far lacks the rest. */
  ghost predicate OpenOk(items: seq<Frame>, next: Option<Next>)
  {
    next.Some? && next.value.Continuation? ==>
      && items != [] && items[|items| - 1].id == next.value.id && next.value.id < 0x8000_0000
      && 0 < |next.value.block| <= |items[|items| - 1].payload|
      && var p := items[|items| - 1].payload; p[|p| - |next.value.block|..] == next.value.block
  }

  ghost function Open(items: seq<Frame>, next: Option<Next>): Assembly
  {
    if OpenOk(items, next) && next.Some? && next.value.Continuation? then
      var last := items[|items| - 1];
      Assembly(items[..|items| - 1], Some(last.(payload := last.payload[..|last.payload| - |next.value.block|])))
    else Assembly(items, None)
  }

  /** Frames were added; those with data or header fragments are within the size limit, and the fragments that are to go
      on fill it. */
  ghost predicate Grown(before: seq<Frame>, after: seq<Frame>, max: nat)
  {
    before <= after && forall i :: |before| <= i < |after| ==> WithinLimit(after[i], max)
  }

  predicate WithinLimit(f: Frame, max: nat)
  {
    && (f.kind == DATA || IsBlock(f.kind) || f.kind == CONTINUATION ==> |f.payload| <= max)
    && ((IsBlock(f.kind) || f.kind == CONTINUATION) && !EndHeaders(f.flag) ==> |f.payload| == max)
  }

  /** How much of a header block is still to be encoded. */
  function Outstanding(next: Option<Next>): nat
  {
    match next
    case Some(Continuation(_, block)) => 1 + |block|
    case _ => 0
  }

  /** What is still to be written of what has been encoded. */
  function Tail(buf: Bytes, pos: nat, next: Option<Next>): Bytes
    requires pos <= |buf|
  {
    buf[pos..] + if next.Some? && next.value.ChainedData? then next.value.rest else []
  }

  lemma TailLength(buf: Bytes, pos: nat, next: Option<Next>)
    requires pos <= |buf|
    ensures |Tail(buf, pos, next)| == |buf| - pos + match next case Some(ChainedData(_, _, rest)) => |rest| case _ => 0
  {
  }

  lemma TailInBuffer(buf: Bytes, pos: nat, next: Option<Next>, n: nat)
    requires pos + n <= |buf|
    ensures |Tail(buf, pos, next)| >= n && Tail(buf, pos + n, next) == Tail(buf, pos, next)[n..]
  {
  }

  lemma TailInPayload(buf: Bytes, pos: nat, d: Next, rest: Bytes)
    requires pos <= |buf| && d.ChainedData? && |rest| <= |d.rest| && rest == d.rest[|d.rest| - |rest|..]
    ensures var n := |buf| - pos + |d.rest| - |rest|;
            && |Tail(buf, pos, Some(d))| >= n
            && Tail(buf, |buf|, Some(ChainedData(d.flag, d.id, rest))) == Tail(buf, pos, Some(d))[n..]
  {
  }

  lemma Written(wire: Bytes, left: Bytes, n: nat)
    requires n <= |left|
    ensures (wire + left[..n]) + left[n..] == wire + left
  {
    assert left[..n] + left[n..] == left;
    Regroup(wire, left[..n], left[n..]);
  }

  lemma NotOpen(items: seq<Frame>, next: Option<Next>)
    requires Outstanding(next) == 0
    ensures OpenOk(items, next) && Open(items, next) == Assembly(items, None)
  {
  }

  lemma FrameSplits(f: Frame)
    ensures FrameBytes(f) == HeadBytes(|f.payload|, f.kind, f.flag, f.id) + f.payload
  {
  }

  lemma Extend(wire: Bytes, buf: Bytes, pos: nat, log: seq<Frame>, f: Frame)
    requires pos <= |buf| && wire + buf[pos..] == Wire(log) && Receivable(MAX_MAX_FRAME_SIZE, log)
    requires Encodable(f) && |f.payload| <= MAX_MAX_FRAME_SIZE
    ensures wire + (buf + FrameBytes(f))[pos..] == Wire(log + [f])
    ensures Receivable(MAX_MAX_FRAME_SIZE, log + [f])
  {
    hide Wire, FrameBytes;
    WirePush(log, f);
    assert (buf + FrameBytes(f))[pos..] == buf[pos..] + FrameBytes(f);
    Regroup(wire, buf[pos..], FrameBytes(f));
  }

  lemma PushWhole(log: seq<Frame>, items: seq<Frame>, f: Frame)
    requires Assemble(log) == Some(Assembly(items, None)) && !IsBlock(f.kind) && f.kind != CONTINUATION
    ensures Assemble(log + [f]) == Some(Assembly(items + [f], None))
  {
    hide Assemble;
    AssemblePush(log, f);
  }

  /** What is left over after the first frame of a block. */
  ghost function Left(id: nat, payload: Bytes, max: nat): Option<Next>
  {
    if |payload| > max then Some(Continuation(id, payload[max..])) else None
  }

  lemma OpenBlock(log: seq<Frame>, items: seq<Frame>, whole: Frame, max: nat)
    requires Assemble(log) == Some(Assembly(items, None))
    requires IsBlock(whole.kind) && EndHeaders(whole.flag) && whole.id < 0x8000_0000
    ensures var next := Left(whole.id, whole.payload, max);
            && OpenOk(items + [whole], next)
            && Assemble(log + [FirstFrame(whole, max)]) == Some(Open(items + [whole], next))
  {
    hide Assemble;
    AssemblePush(log, FirstFrame(whole, max));
  }

  lemma ContinueBlock(log: seq<Frame>, items: seq<Frame>, id: nat, block: Bytes, max: nat)
    requires OpenOk(items, Some(Continuation(id, block)))
    requires Assemble(log) == Some(Open(items, Some(Continuation(id, block))))
    ensures var next := Left(id, block, max);
            && OpenOk(items, next)
            && Assemble(log + [FirstFrame(Frame(CONTINUATION, END_HEADERS, id, block), max)]) == Some(Open(items, next))
  {
    hide Assemble;
    var f := FirstFrame(Frame(CONTINUATION, END_HEADERS, id, block), max);
    AssemblePush(log, f);
    var last := items[|items| - 1];
    var p := last.payload;
    var n := |p| - |block|;
    assert p[..n] + block == p;
    assert items[..|items| - 1] + [last] == items;
    if |block| > max {
      assert p[..n] + block[..max] == p[..n + max];
      assert p[n + max..] == block[max..];
    }
  }

  /** At any moment the peer, cutting the octets it has into frames, has seen a beginning of the frames encoded so far,
      and all of them once everything is written. */
  lemma PeerSees(w: FramedWrite)
    requires w.Valid()
    ensures var got := CutAll(MAX_MAX_FRAME_SIZE, w.wire).0;
            got <= w.log && (w.Unwritten() == [] ==> got == w.log)
  {
    hide CutAll, Assemble, Tail;
    assert w.wire == Wire(w.log)[..|w.wire|];
    CutWire(MAX_MAX_FRAME_SIZE, w.log, |w.wire|);
  }
}
