/**
 HTTP/2 frames on the wire (frame/head.rs, codec/mod.rs) and what a header block spread over HEADERS or PUSH_PROMISE
 and CONTINUATION frames stands for (section 6.10 of RFC 7540).
 */
module Frames {
  import opened Common

  const HEADER_LEN := 9

  const DATA: Byte := 0
  const HEADERS: Byte := 1
  const PUSH_PROMISE: Byte := 5
  const CONTINUATION: Byte := 9

  const END_HEADERS: Byte := 4

  datatype Frame = Frame(kind: Byte, flag: Byte, id: nat, payload: Bytes)

  /** Stream ids have 31 bits, payload lengths 24. */
  predicate Encodable(f: Frame)
  {
    f.id < 0x8000_0000 && |f.payload| < 0x100_0000
  }

  /** `Head::encode` */
  function HeadBytes(len: nat, kind: Byte, flag: Byte, id: nat): (r: Bytes)
    ensures |r| == HEADER_LEN
  {
    [len / 65536 % 256, len / 256 % 256, len % 256, kind, flag,
     id / 0x100_0000 % 256, id / 65536 % 256, id / 256 % 256, id % 256]
  }

  function FrameBytes(f: Frame): (r: Bytes)
    ensures |r| == HEADER_LEN + |f.payload|
  {
    HeadBytes(|f.payload|, f.kind, f.flag, f.id) + f.payload
  }

  function Wire(fs: seq<Frame>): Bytes
  {
    if fs == [] then [] else FrameBytes(fs[0]) + Wire(fs[1..])
  }

  lemma {:induction false} WireAppend(fs: seq<Frame>, gs: seq<Frame>)
    ensures Wire(fs + gs) == Wire(fs) + Wire(gs)
  {
    hide FrameBytes;
    if fs == [] {
      assert fs + gs == gs;
      assert [] + Wire(gs) == Wire(gs);
    } else {
      WireAppend(fs[1..], gs);
      WireHead(fs, gs);
      Regroup(FrameBytes(fs[0]), Wire(fs[1..]), Wire(gs));
    }
  }

  lemma WireHead(fs: seq<Frame>, gs: seq<Frame>)
    requires fs != []
    ensures Wire(fs + gs) == FrameBytes(fs[0]) + Wire(fs[1..] + gs)
  {
    assert (fs + gs)[1..] == fs[1..] + gs;
  }

  lemma WirePush(fs: seq<Frame>, f: Frame)
    ensures Wire(fs + [f]) == Wire(fs) + FrameBytes(f)
  {
    hide FrameBytes;
    WireAppend(fs, [f]);
    assert [f][1..] == [];
    assert Wire([f]) == FrameBytes(f) + [];
  }

  // ----- cutting the octets into frames

  function BigEndian(s: Bytes): nat
  {
    if s == [] then 0 else BigEndian(s[..|s| - 1]) * 256 + s[|s| - 1]
  }

  /** The length-delimited codec: nothing yet, a frame and its octets, or a frame over the limit. */
  datatype Cut = More | One(frame: Frame, used: nat) | TooLong

  /** The three length octets, then `Head::parse`, which drops the reserved bit of the stream id. */
  function CutOne(max: nat, buf: Bytes): (r: Cut)
    ensures r.One? ==> HEADER_LEN <= r.used <= |buf|
  {
    if |buf| < 3 then More
    else
      var len := BigEndian(buf[..3]);
      if len > max then TooLong
      else if |buf| < HEADER_LEN + len then More
      else
        var id := BigEndian(buf[5..HEADER_LEN]) % 0x8000_0000;
        One(Frame(buf[3], buf[4], id, buf[HEADER_LEN..HEADER_LEN + len]), HEADER_LEN + len)
  }

  /** All the whole frames in the buffer, and the octets left. */
  function CutAll(max: nat, buf: Bytes): (seq<Frame>, Bytes)
    decreases |buf|
  {
    match CutOne(max, buf)
    case One(f, n) => var r := CutAll(max, buf[n..]); ([f] + r.0, r.1)
    case _ => ([], buf)
  }

  lemma CutFrame(max: nat, f: Frame, rest: Bytes)
    requires Encodable(f) && |f.payload| <= max
    ensures CutOne(max, FrameBytes(f) + rest) == One(f, |FrameBytes(f)|)
  {
    hide BigEndian;
    var buf := FrameBytes(f) + rest;
    var len := |f.payload|;
    var head := HeadBytes(len, f.kind, f.flag, f.id);
    assert buf[..3] == head[..3] && buf[3] == f.kind && buf[4] == f.flag && buf[5..HEADER_LEN] == head[5..];
    LengthOctets(len, f.kind, f.flag, f.id);
    IdOctets(len, f.kind, f.flag, f.id);
    assert buf[HEADER_LEN..HEADER_LEN + len] == f.payload;
  }

  lemma BigEndianPush(s: Bytes, b: Byte)
    ensures BigEndian(s + [b]) == BigEndian(s) * 256 + b
  {
    assert (s + [b])[..|s|] == s;
  }

  lemma BigEndianFour(a: Byte, b: Byte, c: Byte, d: Byte)
    ensures var x: nat, y: nat, z: nat := a, b, c;
            && BigEndian([a, b, c]) == (x * 256 + y) * 256 + z
            && BigEndian([a, b, c, d]) == ((x * 256 + y) * 256 + z) * 256 + d
  {
    hide BigEndian;
    assert BigEndian([]) == 0 by { EmptyIsZero(); }
    BigEndianPush([], a);
    BigEndianPush([a], b);
    BigEndianPush([a, b], c);
    BigEndianPush([a, b, c], d);
    assert [] + [a] == [a] && [a] + [b] == [a, b] && [a, b] + [c] == [a, b, c] && [a, b, c] + [d] == [a, b, c, d];
  }

  lemma EmptyIsZero()
    ensures BigEndian([]) == 0
  {
  }

  lemma LengthOctets(len: nat, kind: Byte, flag: Byte, id: nat)
    requires len < 0x100_0000
    ensures BigEndian(HeadBytes(len, kind, flag, id)[..3]) == len
  {
    hide BigEndian;
    var s := HeadBytes(len, kind, flag, id);
    BigEndianFour(s[0], s[1], s[2], 0);
    assert s[..3] == [s[0], s[1], s[2]];
  }

  lemma IdDigits(id: nat)
    requires id < 0x8000_0000
    ensures ((id / 0x100_0000 % 256 * 256 + id / 65536 % 256) * 256 + id / 256 % 256) * 256 + id % 256 == id
  {
    var a, b := id / 256, id / 65536;
    assert a / 256 == b && b / 256 == id / 0x100_0000 < 256;
  }

  lemma IdOctets(len: nat, kind: Byte, flag: Byte, id: nat)
    requires id < 0x8000_0000
    ensures BigEndian(HeadBytes(len, kind, flag, id)[5..]) == id
  {
    hide BigEndian;
    var s := HeadBytes(len, kind, flag, id)[5..];
    BigEndianFour(s[0], s[1], s[2], s[3]);
    assert s == [s[0], s[1], s[2], s[3]];
    IdDigits(id);
  }

  /** A prefix of a frame is no frame: more octets are waited for. */
  lemma CutPartial(max: nat, f: Frame, m: nat)
    requires Encodable(f) && |f.payload| <= max && m < |FrameBytes(f)|
    ensures CutOne(max, FrameBytes(f)[..m]) == More
  {
    hide BigEndian;
    var buf := FrameBytes(f);
    var len := |f.payload|;
    LengthOctets(len, f.kind, f.flag, f.id);
    assert m >= 3 ==> buf[..m][..3] == HeadBytes(len, f.kind, f.flag, f.id)[..3];
  }

  predicate Receivable(max: nat, fs: seq<Frame>)
  {
    forall i :: 0 <= i < |fs| ==> Encodable(fs[i]) && |fs[i].payload| <= max
  }

  /** However much of the written octets has arrived, the peer cuts them into the frames written so far, in order; when
      all have arrived, into all of them. */
  lemma {:induction false} CutWire(max: nat, fs: seq<Frame>, m: nat)
    requires Receivable(max, fs) && m <= |Wire(fs)|
    ensures var (got, rest) := CutAll(max, Wire(fs)[..m]);
            && |got| <= |fs| && got == fs[..|got|]
            && Wire(got) + rest == Wire(fs)[..m]
            && (m == |Wire(fs)| ==> got == fs && rest == [])
    decreases |fs|
  {
    hide FrameBytes, CutOne, Encodable;
    if fs == [] {
      CutNothing(max);
    } else {
      var buf := Wire(fs)[..m];
      var head := FrameBytes(fs[0]);
      if m < |head| {
        assert buf == head[..m];
        CutPartial(max, fs[0], m);
        assert Wire([]) + buf == buf;
      } else {
        var rest := Wire(fs[1..])[..m - |head|];
        CutHead(max, fs[0], rest);
        assert buf == head + rest;
        assert Receivable(max, fs[1..]);
        CutWire(max, fs[1..], m - |head|);
        GotHead(fs, CutAll(max, rest).0, CutAll(max, rest).1);
      }
    }
  }

  lemma CutHead(max: nat, f: Frame, rest: Bytes)
    requires Encodable(f) && |f.payload| <= max
    ensures var (got, left) := CutAll(max, rest); CutAll(max, FrameBytes(f) + rest) == ([f] + got, left)
  {
    hide FrameBytes, CutOne;
    CutFrame(max, f, rest);
    assert (FrameBytes(f) + rest)[|FrameBytes(f)|..] == rest;
  }

  lemma GotHead(fs: seq<Frame>, got: seq<Frame>, left: Bytes)
    requires fs != [] && got <= fs[1..]
    ensures [fs[0]] + got <= fs && Wire([fs[0]] + got) + left == FrameBytes(fs[0]) + (Wire(got) + left)
  {
    hide FrameBytes;
    assert ([fs[0]] + got)[1..] == got;
    Regroup(FrameBytes(fs[0]), Wire(got), left);
  }

  lemma CutNothing(max: nat)
    ensures CutAll(max, []) == ([], [])
  {
  }

  // ----- header blocks

  predicate EndHeaders(flag: Byte)
  {
    flag / 4 % 2 == 1
  }

  predicate IsBlock(kind: Byte)
  {
    kind == HEADERS || kind == PUSH_PROMISE
  }

  /** What has been read: whole frames, and a header block still open. A header block counts as the one frame it would
      be without a size limit. */
  datatype Assembly = Assembly(done: seq<Frame>, open: Option<Frame>)

  function Join(a: Assembly, f: Frame): Option<Assembly>
  {
    match a.open
    case None =>
      if f.kind == CONTINUATION then None
      else if IsBlock(f.kind) && !EndHeaders(f.flag) then
        if f.flag + END_HEADERS < 256 then Some(a.(open := Some(f.(flag := f.flag + END_HEADERS)))) else None
      else Some(a.(done := a.done + [f]))
    case Some(o) =>
      if f.kind != CONTINUATION || f.id != o.id then None
      else
        var whole := o.(payload := o.payload + f.payload);
        if EndHeaders(f.flag) then Some(Assembly(a.done + [whole], None)) else Some(a.(open := Some(whole)))
  }

  /** The frames a reader sees, header blocks put together; none if the frames are out of order. */
  function Assemble(fs: seq<Frame>): Option<Assembly>
  {
    if fs == [] then Some(Assembly([], None))
    else
      match Assemble(fs[..|fs| - 1])
      case None => None
      case Some(a) => Join(a, fs[|fs| - 1])
  }

  lemma AssemblePush(fs: seq<Frame>, f: Frame)
    ensures Assemble(fs + [f]) == match Assemble(fs) case None => None case Some(a) => Join(a, f)
  {
    hide Join;
    assert (fs + [f])[..|fs|] == fs;
  }

  lemma AssembleNone()
    ensures Assemble([]) == Some(Assembly([], None))
  {
  }

  lemma {:induction false} AssemblePrefix(fs: seq<Frame>, i: nat)
    requires i <= |fs| && Assemble(fs).Some?
    ensures Assemble(fs[..i]).Some?
    decreases |fs|
  {
    if i == |fs| {
      assert fs[..i] == fs;
    } else {
      assert fs[..|fs| - 1][..i] == fs[..i];
      AssemblePrefix(fs[..|fs| - 1], i);
    }
  }

  /** What the frames a reader has seen leave open or not decides how it goes on. */
  lemma {:induction false} AssembleSplit(a: seq<Frame>, b: seq<Frame>)
    requires Assemble(a).Some? && Assemble(a).value.open.None?
    ensures Assemble(a + b) == match Assemble(b)
                               case None => None
                               case Some(x) => Some(x.(done := Assemble(a).value.done + x.done))
    decreases |b|
  {
    if b == [] {
      assert a + b == a && Assemble(a).value.done + [] == Assemble(a).value.done;
    } else {
      var n := |b| - 1;
      AssembleSplit(a, b[..n]);
      assert a + b == a + b[..n] + [b[n]];
      AssemblePush(a + b[..n], b[n]);
      if Assemble(b[..n]).Some? {
        JoinBehind(Assemble(a).value.done, Assemble(b[..n]).value, b[n]);
      }
    }
  }

  lemma JoinBehind(done: seq<Frame>, x: Assembly, f: Frame)
    ensures Join(x.(done := done + x.done), f) == match Join(x, f)
                                                  case None => None
                                                  case Some(y) => Some(y.(done := done + y.done))
  {
    hide EndHeaders, IsBlock;
    Regroup(done, x.done, [f]);
    if x.open.Some? {
      Regroup(done, x.done, [x.open.value.(payload := x.open.value.payload + f.payload)]);
    }
  }

  /** How many frames the block that the first frame opens has, or has so far. */
  function Extent(fs: seq<Frame>): (n: nat)
    requires fs != []
    ensures 1 <= n <= |fs| && (n == |fs| || EndHeaders(fs[n - 1].flag))
    ensures forall i :: 0 <= i < n - 1 ==> !EndHeaders(fs[i].flag)
  {
    if EndHeaders(fs[0].flag) || |fs| == 1 then 1 else 1 + Extent(fs[1..])
  }

  predicate Continues(id: nat, f: Frame)
  {
    f.kind == CONTINUATION && f.id == id
  }

  /** While a block is open, only its own CONTINUATION frames may come. */
  lemma {:induction false} BlockOpen(fs: seq<Frame>, i: nat)
    requires fs != [] && Assemble(fs).Some? && IsBlock(fs[0].kind) && 1 <= i <= |fs|
    requires forall j :: 0 <= j < i ==> !EndHeaders(fs[j].flag)
    ensures Assemble(fs[..i]).Some?
    ensures var a := Assemble(fs[..i]).value;
            a.done == [] && a.open.Some? && a.open.value.id == fs[0].id && a.open.value.kind == fs[0].kind
    ensures forall j :: 1 <= j < i ==> Continues(fs[0].id, fs[j])
  {
    hide EndHeaders, IsBlock;
    AssemblePrefix(fs, i);
    assert fs[..i][..i - 1] == fs[..i - 1];
    assert IsBlock(CONTINUATION) == false by { NoOpener(); }
    if i == 1 {
      assert fs[..0] == [];
    } else {
      BlockOpen(fs, i - 1);
    }
  }

  lemma NoOpener()
    ensures !IsBlock(CONTINUATION) && !IsBlock(DATA)
  {
  }

  /** The first thing in a list of frames in order: a frame of its own, a whole block, or a block still open. */
  lemma FirstFrames(fs: seq<Frame>)
    requires fs != [] && Assemble(fs).Some?
    ensures var n := if IsBlock(fs[0].kind) then Extent(fs) else 1;
            && fs[0].kind != CONTINUATION && Assemble(fs[..n]).Some?
            && (forall j :: 1 <= j < n ==> Continues(fs[0].id, fs[j]))
            && (!IsBlock(fs[0].kind) || EndHeaders(fs[n - 1].flag) ==>
                  var a := Assemble(fs[..n]).value;
                  && a.open.None? && |a.done| == 1 && a.done[0].kind == fs[0].kind
                  && (!IsBlock(fs[0].kind) ==> a.done[0] == fs[0]))
  {
    hide EndHeaders, IsBlock, Assemble, Join;
    var n := if IsBlock(fs[0].kind) then Extent(fs) else 1;
    FirstFrameOf(fs);
    AssemblePrefix(fs, n);
    if n > 1 {
      BlockOpen(fs, n - 1);
      assert fs[..n] == fs[..n - 1] + [fs[n - 1]];
      AssemblePush(fs[..n - 1], fs[n - 1]);
      JoinLast(Assemble(fs[..n - 1]).value, fs[n - 1]);
    } else {
      JoinFirst(fs[0]);
    }
  }

  /** And what follows it is in order by itself. */
  lemma FirstThing(fs: seq<Frame>)
    requires fs != [] && Assemble(fs).Some?
    ensures var n := if IsBlock(fs[0].kind) then Extent(fs) else 1;
            var whole := !IsBlock(fs[0].kind) || EndHeaders(fs[n - 1].flag);
            && fs[0].kind != CONTINUATION && Assemble(fs[..n]).Some?
            && (forall j :: 1 <= j < n ==> Continues(fs[0].id, fs[j]))
            && if !whole then n == |fs| && Assemble(fs).value.open.Some?
               else
                 var a := Assemble(fs[..n]).value;
                 && a.open.None? && |a.done| == 1 && a.done[0].kind == fs[0].kind
                 && (!IsBlock(fs[0].kind) ==> a.done[0] == fs[0])
                 && Assemble(fs[n..]).Some?
                 && Assemble(fs).value == Assemble(fs[n..]).value.(done := a.done + Assemble(fs[n..]).value.done)
  {
    hide EndHeaders, IsBlock, Assemble, Join;
    var n := if IsBlock(fs[0].kind) then Extent(fs) else 1;
    FirstFrames(fs);
    if !IsBlock(fs[0].kind) || EndHeaders(fs[n - 1].flag) {
      assert fs == fs[..n] + fs[n..];
      AssembleSplit(fs[..n], fs[n..]);
    } else {
      BlockOpen(fs, n);
      assert fs[..n] == fs;
    }
  }

  lemma JoinLast(a: Assembly, f: Frame)
    requires a.open.Some? && Join(a, f).Some?
    ensures Continues(a.open.value.id, f)
    ensures EndHeaders(f.flag) ==>
              Join(a, f).value == Assembly(a.done + [a.open.value.(payload := a.open.value.payload + f.payload)], None)
  {
  }

  lemma JoinFirst(f: Frame)
    requires f.kind != CONTINUATION
    ensures !IsBlock(f.kind) || EndHeaders(f.flag) ==> Join(Assembly([], None), f) == Some(Assembly([f], None))
  {
    assert [] + [f] == [f];
  }

  lemma FirstFrameOf(fs: seq<Frame>)
    requires fs != [] && Assemble(fs).Some?
    ensures fs[0].kind != CONTINUATION && Assemble(fs[..1]) == Join(Assembly([], None), fs[0])
  {
    hide EndHeaders, IsBlock;
    AssemblePrefix(fs, 1);
    assert fs[..1][..0] == [];
  }
}
