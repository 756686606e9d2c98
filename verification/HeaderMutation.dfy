/**
 Removing and adding header lines in place (`_mutate_msg` in beeline/src/bpf/base.bpf.c and the code
 `generate_mutate_filter` in common/src/compiler.rs emits for HTTP/1.1): octets are cut out of and put into the
 message, and the offsets that other filters captured, and the end of the header block, are corrected.
 */
module HeaderMutation {
  import opened Common

  const CRLF: Bytes := [13, 10]
  const COLON: Bytes := [58, 32]

  /** A header line; `id` tells lines apart that are spelt alike. */
  datatype Field = Field(id: nat, name: Bytes, value: Bytes)

  /** A message: the request or status line, the header lines, and what follows the empty line. */
  datatype Layout = Layout(start: Bytes, fields: seq<Field>, body: Bytes)

  /** `http_match` */
  datatype Range = Range(idx: nat, len: nat)

  const U16 := 0x1_0000
  const U32 := 0x1_0000_0000

  /** Messages up to this length have lengths whose differences fit a signed 16-bit number. */
  const LIMIT := 0x8000

  function Wrap(x: int): nat
  {
    x % U16
  }

  /** `s16` */
  function Signed(x: int): int
  {
    (x + LIMIT) % U16 - LIMIT
  }

  function Line(f: Field): Bytes
  {
    f.name + COLON + f.value + CRLF
  }

  function Block(fs: seq<Field>): Bytes
  {
    if fs == [] then [] else Line(fs[0]) + Block(fs[1..])
  }

  function Serialize(l: Layout): Bytes
  {
    l.start + Block(l.fields) + CRLF + l.body
  }

  /** The end of the header block. */
  function DoneIdx(l: Layout): nat
  {
    |l.start| + |Block(l.fields)| + 2
  }

  function LineStart(l: Layout, j: nat): nat
    requires j <= |l.fields|
  {
    |l.start| + |Block(l.fields[..j])|
  }

  /** Where the value of line j is. */
  function ValueRange(l: Layout, j: nat): Range
    requires j < |l.fields|
  {
    Range(LineStart(l, j) + |l.fields[j].name| + 2, |l.fields[j].value|)
  }

  function Without(l: Layout, j: nat): Layout
    requires j < |l.fields|
  {
    l.(fields := l.fields[..j] + l.fields[j + 1..])
  }

  /** Some octets replaced. */
  function Splice(data: Bytes, idx: nat, len: nat, str: Bytes): Bytes
    requires idx + len <= |data|
  {
    data[..idx] + str + data[idx + len..]
  }

  // ----- lines in a block

  lemma {:induction false} BlockAppend(a: seq<Field>, b: seq<Field>)
    ensures Block(a + b) == Block(a) + Block(b)
  {
    hide Line;
    if a == [] {
      assert a + b == b;
      assert [] + Block(b) == Block(b);
    } else {
      BlockHead(a, b);
      BlockAppend(a[1..], b);
      Regroup(Line(a[0]), Block(a[1..]), Block(b));
    }
  }

  lemma BlockHead(a: seq<Field>, b: seq<Field>)
    requires a != []
    ensures Block(a + b) == Line(a[0]) + Block(a[1..] + b)
  {
    assert (a + b)[1..] == a[1..] + b;
  }

  lemma BlockOne(f: Field)
    ensures Block([f]) == Line(f)
  {
    assert [f][1..] == [];
  }

  /** A block around line j. */
  lemma BlockAt(fs: seq<Field>, j: nat)
    requires j < |fs|
    ensures Block(fs) == Block(fs[..j]) + Line(fs[j]) + Block(fs[j + 1..])
    ensures Block(fs[..j + 1]) == Block(fs[..j]) + Line(fs[j])
  {
    hide Block, Line;
    var a, f, b := fs[..j], fs[j], fs[j + 1..];
    Around(fs, j);
    BlockAppend(a, [f] + b);
    BlockAppend([f], b);
    BlockAppend(a, [f]);
    BlockOne(f);
    Regroup(Block(a), Line(f), Block(b));
  }

  lemma Around(fs: seq<Field>, j: nat)
    requires j < |fs|
    ensures fs == fs[..j] + ([fs[j]] + fs[j + 1..]) && fs[..j + 1] == fs[..j] + [fs[j]]
  {
  }

  /** Cutting a whole line out of the message removes the field. */
  lemma CutLine(l: Layout, j: nat)
    requires j < |l.fields|
    ensures LineStart(l, j) + |Line(l.fields[j])| <= |Serialize(l)|
    ensures Splice(Serialize(l), LineStart(l, j), |Line(l.fields[j])|, []) == Serialize(Without(l, j))
    ensures DoneIdx(Without(l, j)) == DoneIdx(l) - |Line(l.fields[j])|
  {
    hide Block, Line;
    BlockAt(l.fields, j);
    BlockAppend(l.fields[..j], l.fields[j + 1..]);
    CutMiddle(l.start, Block(l.fields[..j]), Line(l.fields[j]), Block(l.fields[j + 1..]), l.body);
  }

  lemma CutMiddle(start: Bytes, a: Bytes, line: Bytes, b: Bytes, body: Bytes)
    ensures var data := start + (a + line + b) + CRLF + body;
            && |data| >= |start| + |a| + |line|
            && Splice(data, |start| + |a|, |line|, []) == start + (a + b) + CRLF + body
  {
    var data := start + (a + line + b) + CRLF + body;
    var i := |start| + |a|;
    assert data[..i] == start + a;
    assert data[i + |line|..] == b + CRLF + body;
  }

  /** A line put in front of the empty line becomes the last field. */
  lemma PutLine(l: Layout, f: Field)
    ensures DoneIdx(l) - 2 <= |Serialize(l)|
    ensures Splice(Serialize(l), DoneIdx(l) - 2, 0, Line(f)) == Serialize(l.(fields := l.fields + [f]))
    ensures DoneIdx(l.(fields := l.fields + [f])) == DoneIdx(l) + |Line(f)|
  {
    hide Block, Line;
    BlockAppend(l.fields, [f]);
    BlockOne(f);
    PutMiddle(l.start, Block(l.fields), Line(f), l.body);
  }

  lemma PutMiddle(start: Bytes, b: Bytes, line: Bytes, body: Bytes)
    ensures var data := start + b + CRLF + body;
            Splice(data, |start| + |b|, 0, line) == start + (b + line) + CRLF + body
  {
    var data := start + b + CRLF + body;
    var i := |start| + |b|;
    assert data[..i] == start + b;
    assert data[i..] == CRLF + body;
  }

  /** The captured range delimits the value. */
  lemma RangeDelimits(l: Layout, j: nat)
    requires j < |l.fields|
    ensures var r := ValueRange(l, j);
            r.idx + r.len <= |Serialize(l)| && Serialize(l)[r.idx..r.idx + r.len] == l.fields[j].value
  {
    hide Block;
    BlockAt(l.fields, j);
    var f := l.fields[j];
    var a, b := Block(l.fields[..j]), Block(l.fields[j + 1..]);
    var front := l.start + a + f.name + COLON;
    var back := CRLF + b + CRLF + l.body;
    assert Serialize(l) == front + f.value + back;
  }

  // ----- how ranges move

  lemma {:induction false} BlockGrows(fs: seq<Field>, i: nat, j: nat)
    requires i <= j <= |fs|
    ensures |Block(fs[..i])| <= |Block(fs[..j])|
    ensures i < j ==> |Block(fs[..i])| + |Line(fs[i])| <= |Block(fs[..j])|
    decreases j - i
  {
    hide Block, Line;
    if i < j {
      BlockAt(fs, i);
      BlockGrows(fs, i + 1, j);
    }
  }

  /** Without line j, the ranges of earlier lines stay and those of later lines move up by its length; a range lies at
      or behind the start of line j exactly when it belongs to line j or a later one. */
  lemma RangeMoves(l: Layout, j: nat, i: nat)
    requires i < |l.fields| && j < |l.fields|
    ensures ValueRange(l, i).idx >= LineStart(l, j) <==> i >= j
    ensures i < j ==> ValueRange(Without(l, j), i) == ValueRange(l, i)
    ensures i > j ==> ValueRange(Without(l, j), i - 1).idx == ValueRange(l, i).idx - |Line(l.fields[j])|
    ensures i > j ==> ValueRange(Without(l, j), i - 1).len == ValueRange(l, i).len
  {
    hide Block;
    var fs := l.fields;
    var gs := Without(l, j).fields;
    if i < j {
      assert gs[..i] == fs[..i] && gs[i] == fs[i];
      BlockGrows(fs, i, j);
    } else {
      BlockGrows(fs, j, i);
      if i > j {
        assert gs[i - 1] == fs[i];
        assert gs[..i - 1] == fs[..j] + fs[j + 1..i];
        assert fs[..i] == fs[..j] + ([fs[j]] + fs[j + 1..i]);
        BlockAppend(fs[..j], fs[j + 1..i]);
        BlockAppend(fs[..j], [fs[j]] + fs[j + 1..i]);
        BlockAppend([fs[j]], fs[j + 1..i]);
        BlockOne(fs[j]);
      }
    }
  }

  lemma RangeStays(l: Layout, f: Field, i: nat)
    requires i < |l.fields|
    ensures ValueRange(l.(fields := l.fields + [f]), i) == ValueRange(l, i)
  {
    assert (l.fields + [f])[..i] == l.fields[..i];
  }

  // ----- mutating the message

  /** `bpf_msg_push_data`: room for n octets, whatever they are. */
  method PushData(data: Bytes, idx: nat, n: nat) returns (ok: bool, r: Bytes)
    ensures ok <==> idx <= |data|
    ensures ok ==> |r| == |data| + n && r[..idx] == data[..idx] && r[idx + n..] == data[idx..]
  {
    if idx > |data| {
      return false, data;
    }
    return true, data[..idx] + seq(n, _ => 0) + data[idx..];
  }

  /** `bpf_msg_pop_data` */
  method PopData(data: Bytes, idx: nat, n: nat) returns (ok: bool, r: Bytes)
    ensures ok <==> idx + n <= |data|
    ensures ok ==> r == data[..idx] + data[idx + n..]
  {
    if idx + n > |data| {
      return false, data;
    }
    return true, data[..idx] + data[idx + n..];
  }

  /** `bpf_msg_pull_data` of the octets up to the end of what is to be written: it fails when there are none. */
  predicate Pulls(data: Bytes, end: nat)
  {
    data != [] && end > 0
  }

  /** `_mutate_msg` without the HTTP/2 length field: the message is made longer or shorter at idx, then overwritten. As
      long as the difference of the lengths fits, the result is the message with the range replaced. */
  method MutateMsg(data: Bytes, m: Range, str: Bytes) returns (ok: bool, r: Bytes)
    requires -LIMIT <= |str| - m.len < LIMIT
    ensures ok <==> Pulls(data, m.idx + |str|) && (m.idx + m.len <= |data| || (str == [] && m.len == 0))
    ensures ok && m.idx + m.len <= |data| ==> r == Splice(data, m.idx, m.len, str)
    ensures !ok ==> r == data
  {
    var delta := Signed(|str| - m.len);
    var end := if m.idx + |str| > |data| then |data| else m.idx + |str|;
    if end == 0 {
      return false, data;
    }
    ok, r := true, data;
    if delta > 0 {
      ok, r := PushData(data, m.idx, delta);
    } else if delta < 0 {
      ok, r := PopData(data, m.idx, -delta);
    }
    if !ok {
      return false, data;
    }
    if str == [] {
      Popped(data, m, str);
      return;
    }
    if m.idx + |str| > |r| {
      return false, data;
    }
    ghost var room := r;
    r := r[..m.idx] + str + r[m.idx + |str|..];
    if m.idx + m.len <= |data| {
      Overwritten(data, m, str, room);
    }
  }

  lemma Popped(data: Bytes, m: Range, str: Bytes)
    requires str == []
    ensures m.idx + m.len <= |data| ==> data[..m.idx] + data[m.idx + m.len..] == Splice(data, m.idx, m.len, str)
    ensures m.len == 0 && m.idx <= |data| ==> data == Splice(data, m.idx, m.len, str)
  {
    if m.idx + m.len <= |data| {
      assert data[..m.idx] + [] == data[..m.idx];
    }
  }

  lemma Overwritten(data: Bytes, m: Range, str: Bytes, room: Bytes)
    requires m.idx + m.len <= |data|
    requires if |str| > m.len
             then && |room| == |data| + |str| - m.len && room[..m.idx] == data[..m.idx]
                  && room[m.idx + |str| - m.len..] == data[m.idx..]
             else if |str| < m.len then room == data[..m.idx] + data[m.idx + m.len - |str|..]
             else room == data
    ensures m.idx + |str| <= |room| && room[..m.idx] + str + room[m.idx + |str|..] == Splice(data, m.idx, m.len, str)
  {
    if |str| > m.len {
      assert room[m.idx + |str|..] == room[m.idx + |str| - m.len..][m.len..];
      assert data[m.idx..][m.len..] == data[m.idx + m.len..];
    } else {
      assert room[..m.idx] == data[..m.idx];
      assert room[m.idx + |str|..] == data[m.idx + m.len..];
    }
  }

  // ----- which line a captured range belongs to

  predicate Ids(fs: seq<Field>)
  {
    forall i, j :: 0 <= i < j < |fs| ==> fs[i].id != fs[j].id
  }

  function Position(fs: seq<Field>, id: nat): (r: Option<nat>)
    ensures r.Some? ==> r.value < |fs| && fs[r.value].id == id
    ensures r.None? ==> forall i :: 0 <= i < |fs| ==> fs[i].id != id
  {
    if fs == [] then None
    else if fs[0].id == id then Some(0)
    else match Position(fs[1..], id) case None => None case Some(i) => Some(i + 1)
  }

  /** The fields but those with these ids, in order. */
  function Filter(fs: seq<Field>, drop: set<nat>): seq<Field>
  {
    if fs == [] then [] else (if fs[0].id in drop then [] else [fs[0]]) + Filter(fs[1..], drop)
  }

  lemma PositionWithout(fs: seq<Field>, j: nat, i: nat)
    requires Ids(fs) && i < |fs| && j < |fs| && i != j
    ensures var gs := fs[..j] + fs[j + 1..]; Ids(gs) && Position(gs, fs[i].id) == Some(if i < j then i else i - 1)
  {
    var gs := fs[..j] + fs[j + 1..];
    forall a, b | 0 <= a < b < |gs| ensures gs[a].id != gs[b].id {
      assert gs[a] == fs[if a < j then a else a + 1] && gs[b] == fs[if b < j then b else b + 1];
    }
    var p := if i < j then i else i - 1;
    assert gs[p] == fs[i];
  }

  lemma {:induction false} FilterNone(fs: seq<Field>, drop: set<nat>)
    requires forall i :: 0 <= i < |fs| ==> fs[i].id !in drop
    ensures Filter(fs, drop) == fs
  {
    if fs != [] {
      FilterNone(fs[1..], drop);
    }
  }

  lemma {:induction false} WithoutIsFilter(fs: seq<Field>, j: nat)
    requires Ids(fs) && j < |fs|
    ensures fs[..j] + fs[j + 1..] == Filter(fs, {fs[j].id})
    decreases |fs|
  {
    if j == 0 {
      FilterNone(fs[1..], {fs[0].id});
      assert fs[..0] + fs[1..] == fs[1..];
    } else {
      WithoutIsFilter(fs[1..], j - 1);
      assert fs[..j] + fs[j + 1..] == [fs[0]] + (fs[1..][..j - 1] + fs[1..][j..]);
    }
  }

  lemma {:induction false} FilterTwice(fs: seq<Field>, a: set<nat>, b: set<nat>)
    ensures Filter(Filter(fs, a), b) == Filter(fs, a + b)
  {
    if fs != [] {
      var rest := Filter(fs[1..], a);
      FilterTwice(fs[1..], a, b);
      if fs[0].id in a {
        assert [] + rest == rest;
      } else {
        assert ([fs[0]] + rest)[1..] == rest;
      }
    }
  }

  function NextId(fs: seq<Field>): (r: nat)
    ensures forall i :: 0 <= i < |fs| ==> fs[i].id < r
  {
    if fs == [] then 0
    else
      var r := NextId(fs[1..]);
      if fs[0].id < r then r else fs[0].id + 1
  }

  /** Line ids and ranges of the headers other filters captured. */
  predicate RangeOk(l: Layout, id: nat, key: Bytes, r: Range)
  {
    LineOf(l, id, key) && r == LineRange(l, id, key)
  }

  /** The header was found in the line with this id. */
  predicate LineOf(l: Layout, id: nat, key: Bytes)
  {
    var p := Position(l.fields, id);
    p.Some? && |l.fields[p.value].name| == |key|
  }

  function LineRange(l: Layout, id: nat, key: Bytes): Range
    requires LineOf(l, id, key)
  {
    ValueRange(l, Position(l.fields, id).value)
  }

  function Shifted(r: Range, m: Range): Range
  {
    if r.idx >= m.idx then r.(idx := Wrap(r.idx - m.len)) else r
  }

  lemma IdsWithout(fs: seq<Field>, j: nat)
    requires Ids(fs) && j < |fs|
    ensures Ids(fs[..j] + fs[j + 1..])
  {
    var gs := fs[..j] + fs[j + 1..];
    forall a, b | 0 <= a < b < |gs| ensures gs[a].id != gs[b].id {
      assert gs[a] == fs[if a < j then a else a + 1] && gs[b] == fs[if b < j then b else b + 1];
    }
  }

  lemma ShiftKeeps(l: Layout, j: nat, id: nat, key: Bytes, r: Range)
    requires Ids(l.fields) && j < |l.fields| && id != l.fields[j].id && RangeOk(l, id, key, r) && |Serialize(l)| < LIMIT
    ensures Ids(Without(l, j).fields)
    ensures RangeOk(Without(l, j), id, key, Shifted(r, Range(LineStart(l, j), |Line(l.fields[j])|)))
  {
    hide Line, LineStart, ValueRange, Serialize;
    var i := Position(l.fields, id).value;
    PositionWithout(l.fields, j, i);
    RangeMoves(l, j, i);
    RangeDelimits(l, i);
  }

  /** Every captured header is where its range says, no two share a line, and a header that was not found has an empty
      range; `stale` names what has no line of its own, because it was removed before or never was a whole header. */
  ghost predicate CapturedOk(l: Layout, captured: map<Bytes, nat>, stale: set<Bytes>, ranges: map<Bytes, Range>)
  {
    && Ids(l.fields) && captured.Keys <= ranges.Keys && stale !! captured.Keys
    && (forall k :: k in captured ==> RangeOk(l, captured[k], k, ranges[k]))
    && (forall k :: k in ranges && k !in captured && k !in stale ==> ranges[k].len == 0)
    && (forall j, k :: j in captured && k in captured && j != k ==> captured[j] != captured[k])
  }

  lemma CapturedAt(l: Layout, captured: map<Bytes, nat>, stale: set<Bytes>, ranges: map<Bytes, Range>, key: Bytes)
    requires CapturedOk(l, captured, stale, ranges) && key in ranges && key !in stale && ranges[key].len > 0
    ensures key in captured && Ids(l.fields) && RangeOk(l, captured[key], key, ranges[key])
  {
  }

  function ShiftedAll(ranges: map<Bytes, Range>, m: Range): (r: map<Bytes, Range>)
    ensures r.Keys == ranges.Keys
  {
    map k | k in ranges :: Shifted(ranges[k], m)
  }

  lemma ShiftAll(l: Layout, j: nat, captured: map<Bytes, nat>, stale: set<Bytes>, ranges: map<Bytes, Range>,
      key: Bytes, m: Range)
    requires CapturedOk(l, captured, stale, ranges) && |Serialize(l)| < LIMIT
    requires j < |l.fields| && key in captured && captured[key] == l.fields[j].id
    requires m == Range(LineStart(l, j), |Line(l.fields[j])|)
    ensures CapturedOk(Without(l, j), captured - {key}, stale + {key}, ShiftedAll(ranges, m))
    ensures forall k :: k in ranges ==> ShiftedAll(ranges, m)[k].len == ranges[k].len
  {
    hide RangeOk, LineStart, Line, Ids, Serialize;
    IdsWithout(l.fields, j);
    forall k | k in captured && k != key ensures RangeOk(Without(l, j), captured[k], k, Shifted(ranges[k], m)) {
      ShiftKeeps(l, j, captured[k], k, ranges[k]);
    }
  }

  lemma AppendAll(l: Layout, f: Field, captured: map<Bytes, nat>, stale: set<Bytes>, ranges: map<Bytes, Range>)
    requires CapturedOk(l, captured, stale, ranges) && forall i :: 0 <= i < |l.fields| ==> l.fields[i].id != f.id
    ensures CapturedOk(l.(fields := l.fields + [f]), captured, stale, ranges)
  {
    hide RangeOk;
    forall k | k in captured ensures RangeOk(l.(fields := l.fields + [f]), captured[k], k, ranges[k]) {
      AppendKeeps(l, f, captured[k], k, ranges[k]);
    }
  }

  lemma AppendKeeps(l: Layout, f: Field, id: nat, key: Bytes, r: Range)
    requires RangeOk(l, id, key, r)
    ensures RangeOk(l.(fields := l.fields + [f]), id, key, r)
  {
    hide ValueRange;
    var i := Position(l.fields, id).value;
    RangeStays(l, f, i);
    PositionAppend(l.fields, f, id);
  }

  lemma {:induction false} PositionAppend(fs: seq<Field>, f: Field, id: nat)
    requires Position(fs, id).Some?
    ensures Position(fs + [f], id) == Position(fs, id)
  {
    assert (fs + [f])[1..] == fs[1..] + [f];
    if fs[0].id != id {
      PositionAppend(fs[1..], f, id);
    }
  }

  // ----- other ranges

  /** What else is captured: something in the start line, such as the method or the path, or a part of a line's value,
      such as the claims of a token. */
  datatype Mark = InStart(off: nat, len: nat) | InLine(id: nat, off: nat, len: nat)

  predicate MarkIn(l: Layout, mark: Mark)
  {
    match mark
    case InStart(off, len) => off < |l.start| && off + len <= |l.start|
    case InLine(id, off, len) =>
      var p := Position(l.fields, id);
      p.Some? && off + len <= |l.fields[p.value].value|
  }

  function MarkRange(l: Layout, mark: Mark): Range
    requires MarkIn(l, mark)
  {
    match mark
    case InStart(off, len) => Range(off, len)
    case InLine(id, off, len) => Range(ValueRange(l, Position(l.fields, id).value).idx + off, len)
  }

  /** The octets that are marked. */
  function MarkText(l: Layout, mark: Mark): Bytes
    requires MarkIn(l, mark)
  {
    match mark
    case InStart(off, len) => l.start[off..off + len]
    case InLine(id, off, len) => l.fields[Position(l.fields, id).value].value[off..off + len]
  }

  /** The range delimits what is marked. */
  lemma MarkDelimits(l: Layout, mark: Mark)
    requires MarkIn(l, mark)
    ensures var r := MarkRange(l, mark);
            r.idx + r.len <= |Serialize(l)| && Serialize(l)[r.idx..r.idx + r.len] == MarkText(l, mark)
  {
    hide Block, ValueRange;
    match mark
    case InStart(off, len) =>
      assert Serialize(l)[..|l.start|] == l.start;
    case InLine(id, off, len) =>
      var j := Position(l.fields, id).value;
      hide Serialize;
      RangeDelimits(l, j);
      ValueLength(l, j);
      PartOf(Serialize(l), ValueRange(l, j).idx, l.fields[j].value, off, len);
  }

  lemma ValueLength(l: Layout, j: nat)
    requires j < |l.fields|
    ensures ValueRange(l, j).len == |l.fields[j].value|
  {
  }

  lemma PartOf(data: Bytes, idx: nat, value: Bytes, off: nat, len: nat)
    requires idx + |value| <= |data| && data[idx..idx + |value|] == value && off + len <= |value|
    ensures data[idx + off..idx + off + len] == value[off..off + len]
  {
    var a, b := data[idx + off..idx + off + len], value[off..off + len];
    forall i | 0 <= i < len ensures a[i] == b[i] {
      assert data[idx..idx + |value|][off + i] == data[idx + off + i];
    }
  }

  /** The value of an earlier line ends before a line starts. */
  lemma ValueBefore(l: Layout, i: nat, j: nat)
    requires i < j < |l.fields|
    ensures ValueRange(l, i).idx + |l.fields[i].value| < LineStart(l, j)
  {
    hide Block;
    BlockGrows(l.fields, i, j);
  }

  /** Removing another line: what is marked in the start line stays where it is, and a part of a value moves with its
      line. */
  lemma MarkShifts(l: Layout, j: nat, mark: Mark)
    requires Ids(l.fields) && j < |l.fields| && MarkIn(l, mark) && |Serialize(l)| < LIMIT
    requires mark.InLine? ==> mark.id != l.fields[j].id
    ensures MarkIn(Without(l, j), mark) && MarkText(Without(l, j), mark) == MarkText(l, mark)
    ensures MarkRange(Without(l, j), mark) == Shifted(MarkRange(l, mark), Range(LineStart(l, j), |Line(l.fields[j])|))
  {
    hide Line, LineStart, ValueRange, Serialize;
    match mark
    case InStart(off, len) =>
      StartFirst(l, j);
    case InLine(id, off, len) =>
      var i := Position(l.fields, id).value;
      PositionWithout(l.fields, j, i);
      RangeMoves(l, j, i);
      RangeDelimits(l, i);
      ValueLength(l, i);
      if i < j {
        ValueBefore(l, i, j);
      }
  }

  lemma StartFirst(l: Layout, j: nat)
    requires j <= |l.fields|
    ensures LineStart(l, j) >= |l.start|
  {
  }

  lemma MarkStays(l: Layout, f: Field, mark: Mark)
    requires MarkIn(l, mark)
    ensures var l1 := l.(fields := l.fields + [f]);
            MarkIn(l1, mark) && MarkText(l1, mark) == MarkText(l, mark) && MarkRange(l1, mark) == MarkRange(l, mark)
  {
    hide ValueRange;
    if mark.InLine? {
      RangeStays(l, f, Position(l.fields, mark.id).value);
      PositionAppend(l.fields, f, mark.id);
    }
  }

  // ----- edits

  /** What the filters of a route work on: the message, the captured ranges and the end of the header block. */
  datatype Msg = Msg(data: Bytes, ranges: map<Bytes, Range>, done: nat)

  /** What a filter does, step by step. */
  datatype Edit = Drop(key: Bytes) | Put(name: Bytes, value: Bytes)

  /** `remove_range` */
  function RemoveRange(r: Range, key: Bytes): Range
  {
    Range(Wrap(r.idx - (|key| + 2)), r.len + (|key| + 4))
  }

  function NewLine(name: Bytes, value: Bytes): Bytes
  {
    name + COLON + value + CRLF
  }

  predicate SameLengths(a: map<Bytes, Range>, b: map<Bytes, Range>)
  {
    a.Keys == b.Keys && forall k :: k in a ==> a[k].len == b[k].len
  }

  predicate Known(ranges: map<Bytes, Range>, es: seq<Edit>)
  {
    forall i :: 0 <= i < |es| && es[i].Drop? ==> es[i].key in ranges
  }

  /** The code of one edit; None when the message is dropped. */
  function Apply(m: Msg, e: Edit): (r: Option<Msg>)
    requires e.Drop? ==> e.key in m.ranges
    ensures r.Some? ==> SameLengths(m.ranges, r.value.ranges)
  {
    match e
    case Drop(key) =>
      var c := RemoveRange(m.ranges[key], key);
      if m.ranges[key].len == 0 then Some(m)
      else if !Pulls(m.data, c.idx) || c.idx + c.len > |m.data| then None
      else Some(Msg(Splice(m.data, c.idx, c.len, []), ShiftedAll(m.ranges, c), (m.done - c.len) % U32))
    case Put(name, value) =>
      var line := NewLine(name, value);
      var idx := Wrap(m.done - 2);
      if !Pulls(m.data, idx + |line|) || idx > |m.data| then None
      else Some(Msg(Splice(m.data, idx, 0, line), m.ranges, (m.done + |line|) % U32))
  }

  /** One edit after the other. */
  function Edited(m: Msg, es: seq<Edit>): (r: Option<Msg>)
    requires Known(m.ranges, es)
    ensures r.Some? ==> SameLengths(m.ranges, r.value.ranges)
  {
    if es == [] then Some(m)
    else
      var n := |es| - 1;
      match Edited(m, es[..n])
      case None => None
      case Some(m1) => Apply(m1, es[n])
  }

  // ----- what the edits should do

  /** The lines that go: those in which a header to be dropped was captured with a value that is not empty. */
  ghost function Removed(lines: map<Bytes, nat>, ranges: map<Bytes, Range>, es: seq<Edit>): set<nat>
    requires Known(ranges, es)
  {
    if es == [] then {}
    else
      var n := |es| - 1;
      var e := es[n];
      var gone := if e.Drop? && e.key in lines && ranges[e.key].len > 0 then {lines[e.key]} else {};
      Removed(lines, ranges, es[..n]) + gone
  }

  /** The new lines, with ids from `id` on. */
  function Added(id: nat, es: seq<Edit>): (fs: seq<Field>)
    ensures forall i :: 0 <= i < |fs| ==> fs[i].id == id + i
  {
    if es == [] then []
    else
      var n := |es| - 1;
      var fs := Added(id, es[..n]);
      if es[n].Put? then fs + [Field(id + |fs|, es[n].name, es[n].value)] else fs
  }

  ghost function Expected(l: Layout, lines: map<Bytes, nat>, ranges: map<Bytes, Range>, es: seq<Edit>): Layout
    requires Known(ranges, es)
  {
    l.(fields := Filter(l.fields, Removed(lines, ranges, es)) + Added(NextId(l.fields), es))
  }

  /** The keys whose line a list of edits removes. */
  ghost function Spent(ranges: map<Bytes, Range>, es: seq<Edit>): set<Bytes>
    requires Known(ranges, es)
  {
    set k | k in ranges && ranges[k].len > 0 && Drop(k) in es
  }

  /** No key with a value that is not empty is dropped after it was dropped before. */
  ghost predicate Once(ranges: map<Bytes, Range>, stale: set<Bytes>, es: seq<Edit>)
    requires Known(ranges, es)
  {
    forall i :: 0 <= i < |es| ==> !Again(ranges, stale, es, i)
  }

  predicate Again(ranges: map<Bytes, Range>, stale: set<Bytes>, es: seq<Edit>, i: nat)
    requires Known(ranges, es) && i < |es|
  {
    es[i].Drop? && ranges[es[i].key].len > 0 && (es[i].key in stale || es[i] in es[..i])
  }

  /** The octets the edits put in. */
  function NewOctets(es: seq<Edit>): nat
  {
    if es == [] then 0
    else
      var n := |es| - 1;
      NewOctets(es[..n]) + if es[n].Put? then |NewLine(es[n].name, es[n].value)| else 0
  }

  /** The octets the edits cut out. */
  function CutOctets(ranges: map<Bytes, Range>, es: seq<Edit>): nat
    requires Known(ranges, es)
  {
    if es == [] then 0
    else
      var n := |es| - 1;
      CutOctets(ranges, es[..n]) + CutBy(ranges, es[n])
  }

  function CutBy(ranges: map<Bytes, Range>, e: Edit): nat
    requires e.Drop? ==> e.key in ranges
  {
    if e.Drop? && ranges[e.key].len > 0 then ranges[e.key].len + (|e.key| + 4) else 0
  }

  /** The message, which has a start line, is the layout in octets, with the captured ranges in place. */
  ghost predicate Tied(m: Msg, l: Layout, captured: map<Bytes, nat>, stale: set<Bytes>)
  {
    && m.data == Serialize(l) && m.done == DoneIdx(l) && |m.data| < LIMIT && l.start != []
    && CapturedOk(l, captured, stale, m.ranges)
  }

  // ----- edits that meet the expectation

  lemma RemovedLine(l: Layout, id: nat, key: Bytes, r: Range)
    requires RangeOk(l, id, key, r) && Ids(l.fields)
    ensures Position(l.fields, id).Some?
    ensures var j := Position(l.fields, id).value;
            var n := |Line(l.fields[j])|;
            && LineStart(l, j) == r.idx - (|key| + 2) && n == r.len + (|key| + 4)
            && LineStart(l, j) + n <= |Serialize(l)|
            && Splice(Serialize(l), LineStart(l, j), n, []) == Serialize(Without(l, j))
            && DoneIdx(Without(l, j)) == DoneIdx(l) - n
            && Ids(Without(l, j).fields) && Without(l, j).fields == Filter(l.fields, {id})
  {
    hide Serialize, Splice, LineStart, DoneIdx;
    var j := Position(l.fields, id).value;
    CutLine(l, j);
    WithoutIsFilter(l.fields, j);
    IdsWithout(l.fields, j);
  }

  lemma DropGood(m: Msg, l: Layout, captured: map<Bytes, nat>, stale: set<Bytes>, key: Bytes)
    requires Tied(m, l, captured, stale) && key in m.ranges && m.ranges[key].len > 0 && key !in stale
    ensures key in captured && Apply(m, Drop(key)).Some?
    ensures Tied(Apply(m, Drop(key)).value, l.(fields := Filter(l.fields, {captured[key]})), captured - {key},
                 stale + {key})
  {
    hide Line, LineStart, Block, Position, Ids, Filter, RangeOk, Serialize, Splice, CapturedOk, ShiftedAll;
    CapturedAt(l, captured, stale, m.ranges, key);
    RemovedLine(l, captured[key], key, m.ranges[key]);
    var j := Position(l.fields, captured[key]).value;
    var c := RemoveRange(m.ranges[key], key);
    assert c == Range(LineStart(l, j), |Line(l.fields[j])|);
    StartFirst(l, j);
    ShiftAll(l, j, captured, stale, m.ranges, key, c);
    DoneInside(Without(l, j));
    SpliceLength(m.data, c.idx, c.len, []);
  }

  lemma SpliceLength(data: Bytes, idx: nat, len: nat, str: Bytes)
    requires idx + len <= |data|
    ensures |Splice(data, idx, len, str)| == |data| - len + |str|
  {
  }

  lemma DoneInside(l: Layout)
    ensures 2 <= DoneIdx(l) <= |Serialize(l)|
  {
  }

  lemma PutGood(m: Msg, l: Layout, captured: map<Bytes, nat>, stale: set<Bytes>, f: Field)
    requires Tied(m, l, captured, stale) && forall i :: 0 <= i < |l.fields| ==> l.fields[i].id != f.id
    requires |m.data| + |NewLine(f.name, f.value)| < LIMIT
    ensures Apply(m, Put(f.name, f.value)).Some?
    ensures Tied(Apply(m, Put(f.name, f.value)).value, l.(fields := l.fields + [f]), captured, stale)
  {
    hide Block, Serialize, CapturedOk, DoneIdx;
    assert Line(f) == NewLine(f.name, f.value);
    DoneInside(l);
    PutLine(l, f);
    AppendAll(l, f, captured, stale, m.ranges);
    SpliceLength(m.data, m.done - 2, 0, Line(f));
  }

  lemma {:induction false} FilterAppend(a: seq<Field>, b: seq<Field>, drop: set<nat>)
    ensures Filter(a + b, drop) == Filter(a, drop) + Filter(b, drop)
  {
    if a == [] {
      assert a + b == b && [] + Filter(b, drop) == Filter(b, drop);
    } else {
      FilterAppend(a[1..], b, drop);
      assert (a + b)[1..] == a[1..] + b && (a + b)[0] == a[0];
      Regroup(if a[0].id in drop then [] else [a[0]], Filter(a[1..], drop), Filter(b, drop));
    }
  }

  lemma {:induction false} FilterMember(fs: seq<Field>, drop: set<nat>, f: Field)
    ensures f in Filter(fs, drop) <==> f in fs && f.id !in drop
  {
    if fs != [] {
      FilterMember(fs[1..], drop, f);
      assert fs == [fs[0]] + fs[1..];
    }
  }

  /** A captured line is one of the layout. */
  lemma CapturedBelow(l: Layout, captured: map<Bytes, nat>, stale: set<Bytes>, ranges: map<Bytes, Range>, key: Bytes)
    requires CapturedOk(l, captured, stale, ranges) && key in captured
    ensures captured[key] < NextId(l.fields)
  {
    assert RangeOk(l, captured[key], key, ranges[key]);
  }

  lemma Fresh(l: Layout, lines: map<Bytes, nat>, ranges: map<Bytes, Range>, es: seq<Edit>)
    requires Known(ranges, es)
    ensures var fs := Expected(l, lines, ranges, es).fields;
            var next := NextId(l.fields) + |Added(NextId(l.fields), es)|;
            forall i :: 0 <= i < |fs| ==> fs[i].id < next
  {
    var kept := Filter(l.fields, Removed(lines, ranges, es));
    var fs := Expected(l, lines, ranges, es).fields;
    forall i | 0 <= i < |kept| ensures kept[i].id < NextId(l.fields) {
      FilterMember(l.fields, Removed(lines, ranges, es), kept[i]);
    }
  }

  /** Dropping a line of the expected layout is dropping it from the original one. */
  lemma ExpectedDrop(l: Layout, lines: map<Bytes, nat>, ranges: map<Bytes, Range>, es: seq<Edit>, key: Bytes)
    requires Known(ranges, es) && key in ranges && ranges[key].len > 0 && key in lines && lines[key] < NextId(l.fields)
    ensures Known(ranges, es + [Drop(key)])
    ensures var l1 := Expected(l, lines, ranges, es);
            l1.(fields := Filter(l1.fields, {lines[key]})) == Expected(l, lines, ranges, es + [Drop(key)])
  {
    hide Filter;
    var gone := Removed(lines, ranges, es);
    var more := Added(NextId(l.fields), es);
    assert (es + [Drop(key)])[..|es|] == es;
    FilterAppend(Filter(l.fields, gone), more, {lines[key]});
    FilterTwice(l.fields, gone, {lines[key]});
    FilterNone(more, {lines[key]});
  }

  lemma ExpectedPut(l: Layout, lines: map<Bytes, nat>, ranges: map<Bytes, Range>, es: seq<Edit>, e: Edit)
    requires Known(ranges, es) && e.Put?
    ensures Known(ranges, es + [e])
    ensures var l1 := Expected(l, lines, ranges, es);
            var f := Field(NextId(l.fields) + |Added(NextId(l.fields), es)|, e.name, e.value);
            l1.(fields := l1.fields + [f]) == Expected(l, lines, ranges, es + [e])
  {
    hide Filter, NextId;
    assert (es + [e])[..|es|] == es && (es + [e])[|es|] == e;
    assert Removed(lines, ranges, es + [e]) == Removed(lines, ranges, es);
    var kept, more := Filter(l.fields, Removed(lines, ranges, es)), Added(NextId(l.fields), es);
    Regroup(kept, more, [Field(NextId(l.fields) + |more|, e.name, e.value)]);
  }

  lemma ExpectedIdle(l: Layout, lines: map<Bytes, nat>, ranges: map<Bytes, Range>, es: seq<Edit>, key: Bytes)
    requires Known(ranges, es) && key in ranges && ranges[key].len == 0
    ensures Known(ranges, es + [Drop(key)])
    ensures Expected(l, lines, ranges, es + [Drop(key)]) == Expected(l, lines, ranges, es)
  {
    hide Filter;
    assert (es + [Drop(key)])[..|es|] == es;
    assert Removed(lines, ranges, es + [Drop(key)]) == Removed(lines, ranges, es);
  }

  lemma SpentPush(ranges: map<Bytes, Range>, es: seq<Edit>, e: Edit)
    requires Known(ranges, es) && (e.Drop? ==> e.key in ranges)
    ensures Known(ranges, es + [e])
    ensures Spent(ranges, es + [e]) == Spent(ranges, es) + if e.Drop? && ranges[e.key].len > 0 then {e.key} else {}
  {
    assert (es + [e])[|es|] == e;
  }

  lemma OnceBefore(ranges: map<Bytes, Range>, stale: set<Bytes>, es: seq<Edit>, n: nat)
    requires Known(ranges, es) && Once(ranges, stale, es) && n <= |es|
    ensures Once(ranges, stale, es[..n])
  {
    forall i | 0 <= i < n ensures !Again(ranges, stale, es[..n], i) {
      assert !Again(ranges, stale, es, i);
      assert es[..n][..i] == es[..i];
    }
  }

  /** How many octets a message has after its edits, whatever they were. */
  lemma {:induction false} EditedLength(m: Msg, es: seq<Edit>)
    requires Known(m.ranges, es) && Edited(m, es).Some?
    ensures |Edited(m, es).value.data| + CutOctets(m.ranges, es) == |m.data| + NewOctets(es)
    decreases |es|
  {
    hide Splice;
    if es != [] {
      var n := |es| - 1;
      EditedLength(m, es[..n]);
      ApplyLength(Edited(m, es[..n]).value, es[n]);
    }
  }

  lemma ApplyLength(m: Msg, e: Edit)
    requires (e.Drop? ==> e.key in m.ranges) && Apply(m, e).Some?
    ensures |Apply(m, e).value.data| + CutBy(m.ranges, e) ==
            |m.data| + if e.Put? then |NewLine(e.name, e.value)| else 0
  {
    hide NewLine, Wrap, ShiftedAll;
  }

  /** Edits that drop no line twice leave the message that is expected of them, with every other captured range and the
      end of the header block in place. */
  lemma {:induction false} EditsGood(m: Msg, l: Layout, captured: map<Bytes, nat>, stale: set<Bytes>, es: seq<Edit>)
    requires Tied(m, l, captured, stale) && Known(m.ranges, es) && Once(m.ranges, stale, es)
    requires |m.data| + NewOctets(es) < LIMIT
    ensures Edited(m, es).Some?
    ensures Tied(Edited(m, es).value, Expected(l, captured, m.ranges, es), captured - Spent(m.ranges, es),
                 stale + Spent(m.ranges, es))
    decreases |es|
  {
    hide Tied, Apply, Expected, Once, Spent, NextId;
    if es == [] {
      NoEdits(l, captured, stale, m.ranges);
    } else {
      var n := |es| - 1;
      OnceBefore(m.ranges, stale, es, n);
      EditsGood(m, l, captured, stale, es[..n]);
      assert es == es[..n] + [es[n]];
      assert !Again(m.ranges, stale, es, n) by { LastOnce(m.ranges, stale, es); }
      EditedLength(m, es[..n]);
      assert CapturedOk(l, captured, stale, m.ranges) by { TiedCaptured(m, l, captured, stale); }
      LastGood(m, l, captured, stale, es[..n], es[n]);
    }
  }

  lemma TiedCaptured(m: Msg, l: Layout, captured: map<Bytes, nat>, stale: set<Bytes>)
    requires Tied(m, l, captured, stale)
    ensures CapturedOk(l, captured, stale, m.ranges) && stale !! captured.Keys
  {
  }

  lemma LastOnce(ranges: map<Bytes, Range>, stale: set<Bytes>, es: seq<Edit>)
    requires es != [] && Known(ranges, es) && Once(ranges, stale, es)
    ensures !Again(ranges, stale, es, |es| - 1)
  {
  }

  lemma NoEdits(l: Layout, captured: map<Bytes, nat>, stale: set<Bytes>, ranges: map<Bytes, Range>)
    ensures Expected(l, captured, ranges, []) == l
    ensures captured - Spent(ranges, []) == captured && stale + Spent(ranges, []) == stale
  {
    FilterNone(l.fields, {});
  }

  lemma LastGood(m: Msg, l: Layout, captured: map<Bytes, nat>, stale: set<Bytes>, es: seq<Edit>, e: Edit)
    requires Known(m.ranges, es) && (e.Drop? ==> e.key in m.ranges) && Edited(m, es).Some?
    requires CapturedOk(l, captured, stale, m.ranges)
    requires var spent := Spent(m.ranges, es);
             Tied(Edited(m, es).value, Expected(l, captured, m.ranges, es), captured - spent, stale + spent)
    requires |Edited(m, es).value.data| + (if e.Put? then |NewLine(e.name, e.value)| else 0) < LIMIT
    requires e.Drop? && m.ranges[e.key].len > 0 ==> e.key !in stale && e !in es
    ensures Known(m.ranges, es + [e]) && (e.Drop? ==> e.key in Edited(m, es).value.ranges)
    ensures var spent := Spent(m.ranges, es + [e]);
            var r := Apply(Edited(m, es).value, e);
            && r.Some?
            && Tied(r.value, Expected(l, captured, m.ranges, es + [e]), captured - spent, stale + spent)
  {
    hide Tied, Apply, Expected, NewLine, NextId, CapturedOk, Edited;
    var m1 := Edited(m, es).value;
    var l1 := Expected(l, captured, m.ranges, es);
    var spent := Spent(m.ranges, es);
    assert (es + [e])[|es|] == e;
    SpentPush(m.ranges, es, e);
    match e
    case Drop(key) =>
      if m.ranges[key].len == 0 {
        ExpectedIdle(l, captured, m.ranges, es, key);
        ApplyIdle(m1, key);
        assert spent + {} == spent;
      } else {
        DropGood(m1, l1, captured - spent, stale + spent, key);
        CapturedBelow(l, captured, stale, m.ranges, key);
        ExpectedDrop(l, captured, m.ranges, es, key);
        assert captured - spent - {key} == captured - (spent + {key});
        assert stale + spent + {key} == stale + (spent + {key});
      }
    case Put(name, value) =>
      ExpectedPut(l, captured, m.ranges, es, e);
      Fresh(l, captured, m.ranges, es);
      PutGood(m1, l1, captured - spent, stale + spent,
              Field(NextId(l.fields) + |Added(NextId(l.fields), es)|, name, value));
      assert spent + {} == spent;
  }

  lemma ApplyIdle(m: Msg, key: Bytes)
    requires key in m.ranges && m.ranges[key].len == 0
    ensures Apply(m, Drop(key)) == Some(m)
  {
  }

  // ----- and only those

  /** The edits without those that drop a line once more. */
  ghost function Clean(ranges: map<Bytes, Range>, stale: set<Bytes>, es: seq<Edit>): (cs: seq<Edit>)
    requires Known(ranges, es)
    ensures Known(ranges, cs) && forall e :: e in cs ==> e in es
  {
    if es == [] then []
    else
      var n := |es| - 1;
      var cs := Clean(ranges, stale, es[..n]);
      if Again(ranges, stale, es, n) then cs else cs + [es[n]]
  }

  lemma OncePush(ranges: map<Bytes, Range>, stale: set<Bytes>, es: seq<Edit>, e: Edit)
    requires Known(ranges, es) && (e.Drop? ==> e.key in ranges) && Once(ranges, stale, es)
    requires e.Drop? && ranges[e.key].len > 0 ==> e.key !in stale && e !in es
    ensures Known(ranges, es + [e]) && Once(ranges, stale, es + [e])
  {
    forall i | 0 <= i < |es| + 1 ensures !Again(ranges, stale, es + [e], i) {
      if i < |es| {
        assert !Again(ranges, stale, es, i);
        assert (es + [e])[..i] == es[..i];
      } else {
        assert (es + [e])[..i] == es;
      }
    }
  }

  lemma {:induction false} CleanOnce(ranges: map<Bytes, Range>, stale: set<Bytes>, es: seq<Edit>)
    requires Known(ranges, es)
    ensures Once(ranges, stale, Clean(ranges, stale, es))
    decreases |es|
  {
    hide Once;
    if es == [] {
      assert Once(ranges, stale, []) by { OnceNone(ranges, stale); }
    } else {
      var n := |es| - 1;
      CleanOnce(ranges, stale, es[..n]);
      if !Again(ranges, stale, es, n) {
        OncePush(ranges, stale, Clean(ranges, stale, es[..n]), es[n]);
      }
    }
  }

  lemma OnceNone(ranges: map<Bytes, Range>, stale: set<Bytes>)
    ensures Once(ranges, stale, [])
  {
  }

  lemma {:induction false} RemovedMember(lines: map<Bytes, nat>, ranges: map<Bytes, Range>, es: seq<Edit>, k: Bytes)
    requires Known(ranges, es) && k in lines && Drop(k) in es && ranges[k].len > 0
    ensures lines[k] in Removed(lines, ranges, es)
    decreases |es|
  {
    var n := |es| - 1;
    if es[n] != Drop(k) {
      assert Drop(k) in es[..n];
      RemovedMember(lines, ranges, es[..n], k);
    }
  }

  /** Dropping a line once more is not expected to change anything. */
  lemma {:induction false} CleanRemoves(lines: map<Bytes, nat>, ranges: map<Bytes, Range>, stale: set<Bytes>,
      es: seq<Edit>)
    requires Known(ranges, es) && stale !! lines.Keys
    ensures Removed(lines, ranges, Clean(ranges, stale, es)) == Removed(lines, ranges, es)
    decreases |es|
  {
    if es != [] {
      var n := |es| - 1;
      var cs := Clean(ranges, stale, es[..n]);
      CleanRemoves(lines, ranges, stale, es[..n]);
      if !Again(ranges, stale, es, n) {
        assert (cs + [es[n]])[..|cs|] == cs;
      } else if es[n].key in lines {
        RemovedMember(lines, ranges, es[..n], es[n].key);
      }
    }
  }

  lemma {:induction false} CleanAdds(id: nat, ranges: map<Bytes, Range>, stale: set<Bytes>, es: seq<Edit>)
    requires Known(ranges, es)
    ensures Added(id, Clean(ranges, stale, es)) == Added(id, es)
    ensures NewOctets(Clean(ranges, stale, es)) == NewOctets(es)
    decreases |es|
  {
    hide NewLine;
    if es != [] {
      var n := |es| - 1;
      var cs := Clean(ranges, stale, es[..n]);
      CleanAdds(id, ranges, stale, es[..n]);
      if !Again(ranges, stale, es, n) {
        assert (cs + [es[n]])[..|cs|] == cs;
      }
    }
  }

  /** Dropping a line once more costs octets. */
  lemma {:induction false} CleanCuts(ranges: map<Bytes, Range>, stale: set<Bytes>, es: seq<Edit>)
    requires Known(ranges, es)
    ensures CutOctets(ranges, Clean(ranges, stale, es)) <= CutOctets(ranges, es)
    ensures !Once(ranges, stale, es) ==> CutOctets(ranges, Clean(ranges, stale, es)) < CutOctets(ranges, es)
    decreases |es|
  {
    hide Once, Again, CutOctets, CutBy;
    if es == [] {
      OnceNone(ranges, stale);
    } else {
      var n := |es| - 1;
      var cs := Clean(ranges, stale, es[..n]);
      CleanCuts(ranges, stale, es[..n]);
      OnceStep(ranges, stale, es);
      CutStep(ranges, es[..n], es[n]);
      assert es == es[..n] + [es[n]];
      if Again(ranges, stale, es, n) {
        AgainCuts(ranges, stale, es, n);
      } else {
        CutStep(ranges, cs, es[n]);
      }
    }
  }

  lemma CutStep(ranges: map<Bytes, Range>, es: seq<Edit>, e: Edit)
    requires Known(ranges, es) && (e.Drop? ==> e.key in ranges)
    ensures Known(ranges, es + [e]) && CutOctets(ranges, es + [e]) == CutOctets(ranges, es) + CutBy(ranges, e)
  {
    assert (es + [e])[..|es|] == es && (es + [e])[|es|] == e;
  }

  lemma AgainCuts(ranges: map<Bytes, Range>, stale: set<Bytes>, es: seq<Edit>, i: nat)
    requires Known(ranges, es) && i < |es| && Again(ranges, stale, es, i)
    ensures CutBy(ranges, es[i]) > 0
  {
  }

  lemma OnceStep(ranges: map<Bytes, Range>, stale: set<Bytes>, es: seq<Edit>)
    requires es != [] && Known(ranges, es)
    ensures var n := |es| - 1;
            Once(ranges, stale, es) <==> Once(ranges, stale, es[..n]) && !Again(ranges, stale, es, n)
  {
    var n := |es| - 1;
    assert es == es[..n] + [es[n]];
    if Once(ranges, stale, es) {
      OnceBefore(ranges, stale, es, n);
    } else if !Again(ranges, stale, es, n) {
      if Once(ranges, stale, es[..n]) {
        OncePush(ranges, stale, es[..n], es[n]);
      }
    }
  }

  /** Any edits, of any number of filters: the message is the expected one if and only if no captured value that is not
      empty is dropped twice. */
  lemma EditsExact(m: Msg, l: Layout, captured: map<Bytes, nat>, stale: set<Bytes>, es: seq<Edit>)
    requires Tied(m, l, captured, stale) && Known(m.ranges, es) && |m.data| + NewOctets(es) < LIMIT
    ensures Edited(m, es).Some? && Edited(m, es).value.data == Serialize(Expected(l, captured, m.ranges, es))
            <==> Once(m.ranges, stale, es)
    ensures Once(m.ranges, stale, es) ==>
              Tied(Edited(m, es).value, Expected(l, captured, m.ranges, es), captured - Spent(m.ranges, es),
                   stale + Spent(m.ranges, es))
  {
    hide Edited, Serialize, NextId, Once, Filter;
    if Once(m.ranges, stale, es) {
      EditsGood(m, l, captured, stale, es);
    } else if Edited(m, es).Some? {
      var cs := Clean(m.ranges, stale, es);
      CleanOnce(m.ranges, stale, es);
      CleanRemoves(captured, m.ranges, stale, es);
      CleanAdds(NextId(l.fields), m.ranges, stale, es);
      CleanCuts(m.ranges, stale, es);
      EditsGood(m, l, captured, stale, cs);
      EditedLength(m, es);
      EditedLength(m, cs);
    }
  }

  /** A listed header is removed if and only if the value captured for it is not empty. */
  lemma {:induction false} RemovedExactly(lines: map<Bytes, nat>, ranges: map<Bytes, Range>, es: seq<Edit>, k: Bytes)
    requires Known(ranges, es) && k in lines && k in ranges
    requires forall i, j :: i in lines && j in lines && i != j ==> lines[i] != lines[j]
    ensures lines[k] in Removed(lines, ranges, es) <==> Drop(k) in es && ranges[k].len > 0
    decreases |es|
  {
    if es != [] {
      var n := |es| - 1;
      RemovedExactly(lines, ranges, es[..n], k);
      assert Drop(k) in es <==> Drop(k) in es[..n] || Drop(k) == es[n];
    }
  }

  // ----- every other range

  /** What was marked in a layout is marked in the other: the same octets, in the range that is now held. */
  predicate Follows(l: Layout, l1: Layout, mark: Mark, r: Range)
  {
    MarkIn(l, mark) && MarkIn(l1, mark) && MarkText(l1, mark) == MarkText(l, mark) && r == MarkRange(l1, mark)
  }

  lemma DropFollows(m: Msg, l: Layout, captured: map<Bytes, nat>, stale: set<Bytes>, key: Bytes, k: Bytes, mark: Mark)
    requires Tied(m, l, captured, stale) && key in m.ranges && m.ranges[key].len > 0 && key !in stale
    requires k in m.ranges && Follows(l, l, mark, m.ranges[k])
    requires key in captured && (mark.InLine? ==> mark.id != captured[key])
    ensures Apply(m, Drop(key)).Some?
    ensures Follows(l, l.(fields := Filter(l.fields, {captured[key]})), mark, Apply(m, Drop(key)).value.ranges[k])
  {
    hide Line, LineStart, Block, Position, Ids, Filter, RangeOk, Serialize, Splice, CapturedOk, MarkIn, MarkRange,
         MarkText;
    CapturedAt(l, captured, stale, m.ranges, key);
    RemovedLine(l, captured[key], key, m.ranges[key]);
    var j := Position(l.fields, captured[key]).value;
    DropGood(m, l, captured, stale, key);
    MarkShifts(l, j, mark);
  }

  /** A part that is marked in a line that stays is never in a line the edits remove. */
  predicate Untouched(lines: map<Bytes, nat>, ranges: map<Bytes, Range>, es: seq<Edit>, mark: Mark)
    requires Known(ranges, es)
  {
    mark.InLine? ==> forall k :: k in lines && k in ranges && ranges[k].len > 0 && Drop(k) in es ==> lines[k] != mark.id
  }

  /** Whatever else was captured in lines that stay, or in the start line, still delimits the octets it delimited. */
  lemma {:induction false} EditsFollow(m: Msg, l: Layout, captured: map<Bytes, nat>, stale: set<Bytes>, es: seq<Edit>,
                                       k: Bytes, mark: Mark)
    requires Tied(m, l, captured, stale) && Known(m.ranges, es) && Once(m.ranges, stale, es)
    requires |m.data| + NewOctets(es) < LIMIT && k in m.ranges && Untouched(captured, m.ranges, es, mark)
    requires Follows(l, l, mark, m.ranges[k])
    ensures Edited(m, es).Some?
    ensures Follows(l, Expected(l, captured, m.ranges, es), mark, Edited(m, es).value.ranges[k])
    decreases |es|
  {
    hide Tied, Apply, Expected, Once, Spent, NextId, Follows, Untouched;
    if es == [] {
      NoEdits(l, captured, stale, m.ranges);
    } else {
      var n := |es| - 1;
      OnceBefore(m.ranges, stale, es, n);
      EditsGood(m, l, captured, stale, es[..n]);
      UntouchedBefore(captured, m.ranges, es, n, mark);
      EditsFollow(m, l, captured, stale, es[..n], k, mark);
      assert es == es[..n] + [es[n]];
      assert !Again(m.ranges, stale, es, n) by { LastOnce(m.ranges, stale, es); }
      EditedLength(m, es[..n]);
      assert CapturedOk(l, captured, stale, m.ranges) by { TiedCaptured(m, l, captured, stale); }
      UntouchedLast(captured, m.ranges, es, mark);
      LastGood(m, l, captured, stale, es[..n], es[n]);
      LastFollows(m, l, captured, stale, es[..n], es[n], k, mark);
    }
  }

  lemma UntouchedBefore(lines: map<Bytes, nat>, ranges: map<Bytes, Range>, es: seq<Edit>, n: nat, mark: Mark)
    requires Known(ranges, es) && n <= |es| && Untouched(lines, ranges, es, mark)
    ensures Untouched(lines, ranges, es[..n], mark)
  {
    assert forall e :: e in es[..n] ==> e in es;
  }

  lemma UntouchedLast(lines: map<Bytes, nat>, ranges: map<Bytes, Range>, es: seq<Edit>, mark: Mark)
    requires Known(ranges, es) && es != [] && Untouched(lines, ranges, es, mark)
    ensures var e := es[|es| - 1];
            mark.InLine? && e.Drop? && e.key in lines && ranges[e.key].len > 0 ==> lines[e.key] != mark.id
  {
    var e := es[|es| - 1];
    assert e.Drop? ==> Drop(e.key) in es;
  }

  lemma FollowsOn(l: Layout, l1: Layout, l2: Layout, mark: Mark, r1: Range, r2: Range)
    requires Follows(l, l1, mark, r1) && (Follows(l1, l1, mark, r1) ==> Follows(l1, l2, mark, r2))
    ensures Follows(l, l2, mark, r2)
  {
  }

  lemma FollowsHere(l: Layout, l1: Layout, mark: Mark, r: Range)
    requires Follows(l, l1, mark, r)
    ensures Follows(l1, l1, mark, r)
  {
  }

  lemma LastFollows(m: Msg, l: Layout, captured: map<Bytes, nat>, stale: set<Bytes>, es: seq<Edit>, e: Edit, k: Bytes,
                    mark: Mark)
    requires Known(m.ranges, es) && (e.Drop? ==> e.key in m.ranges) && Edited(m, es).Some?
    requires CapturedOk(l, captured, stale, m.ranges)
    requires var spent := Spent(m.ranges, es);
             Tied(Edited(m, es).value, Expected(l, captured, m.ranges, es), captured - spent, stale + spent)
    requires |Edited(m, es).value.data| + (if e.Put? then |NewLine(e.name, e.value)| else 0) < LIMIT
    requires e.Drop? && m.ranges[e.key].len > 0 ==> e.key !in stale && e !in es
    requires k in Edited(m, es).value.ranges
    requires Follows(l, Expected(l, captured, m.ranges, es), mark, Edited(m, es).value.ranges[k])
    requires mark.InLine? && e.Drop? && e.key in captured && m.ranges[e.key].len > 0 ==> captured[e.key] != mark.id
    ensures Known(m.ranges, es + [e]) && (e.Drop? ==> e.key in Edited(m, es).value.ranges)
    ensures var r := Apply(Edited(m, es).value, e);
            r.Some? && Follows(l, Expected(l, captured, m.ranges, es + [e]), mark, r.value.ranges[k])
  {
    hide Tied, Apply, Expected, NewLine, NextId, CapturedOk, Edited, Follows;
    var m1 := Edited(m, es).value;
    var l1 := Expected(l, captured, m.ranges, es);
    var spent := Spent(m.ranges, es);
    assert (es + [e])[|es|] == e;
    FollowsHere(l, l1, mark, m1.ranges[k]);
    LastGood(m, l, captured, stale, es, e);
    var m2 := Apply(m1, e).value;
    var l2 := Expected(l, captured, m.ranges, es + [e]);
    match e
    case Drop(key) =>
      if m.ranges[key].len == 0 {
        ExpectedIdle(l, captured, m.ranges, es, key);
        ApplyIdle(m1, key);
      } else {
        DropGood(m1, l1, captured - spent, stale + spent, key);
        DropFollows(m1, l1, captured - spent, stale + spent, key, k, mark);
        CapturedBelow(l, captured, stale, m.ranges, key);
        ExpectedDrop(l, captured, m.ranges, es, key);
        FollowsOn(l, l1, l2, mark, m1.ranges[k], m2.ranges[k]);
      }
    case Put(name, value) =>
      ExpectedPut(l, captured, m.ranges, es, e);
      PutFollows(m1, e, l1, Field(NextId(l.fields) + |Added(NextId(l.fields), es)|, name, value), k, mark);
      FollowsOn(l, l1, l2, mark, m1.ranges[k], m2.ranges[k]);
  }

  lemma PutFollows(m: Msg, e: Edit, l: Layout, f: Field, k: Bytes, mark: Mark)
    requires e.Put? && Apply(m, e).Some? && k in m.ranges && Follows(l, l, mark, m.ranges[k])
    ensures Follows(l, l.(fields := l.fields + [f]), mark, Apply(m, e).value.ranges[k])
  {
    hide Splice, NewLine, MarkIn, MarkText, MarkRange;
    MarkStays(l, f, mark);
  }

  // ----- the list a caller wants

  /** The lines in which a header to be dropped was captured. */
  ghost function Listed(lines: map<Bytes, nat>, es: seq<Edit>): set<nat>
  {
    set k | k in lines && Drop(k) in es :: lines[k]
  }

  ghost function Wanted(l: Layout, lines: map<Bytes, nat>, es: seq<Edit>): Layout
  {
    l.(fields := Filter(l.fields, Listed(lines, es)) + Added(NextId(l.fields), es))
  }

  /** No header to be dropped was captured with an empty value. */
  ghost predicate NoneEmpty(captured: map<Bytes, nat>, ranges: map<Bytes, Range>, es: seq<Edit>)
    requires captured.Keys <= ranges.Keys
  {
    forall k :: k in captured && Drop(k) in es ==> ranges[k].len > 0
  }

  lemma {:induction false} FilterShorter(fs: seq<Field>, a: set<nat>, b: set<nat>)
    requires a <= b
    ensures |Block(Filter(fs, b))| <= |Block(Filter(fs, a))|
    ensures (exists f :: f in fs && f.id in b - a) ==> |Block(Filter(fs, b))| < |Block(Filter(fs, a))|
  {
    if fs != [] {
      FilterShorter(fs[1..], a, b);
      var xs, ys := Filter(fs[1..], a), Filter(fs[1..], b);
      FilterHead(fs, a);
      FilterHead(fs, b);
      assert forall f :: f in fs ==> f == fs[0] || f in fs[1..];
    }
  }

  lemma FilterHead(fs: seq<Field>, drop: set<nat>)
    requires fs != []
    ensures |Block(Filter(fs, drop))| ==
            |Block(Filter(fs[1..], drop))| + if fs[0].id in drop then 0 else |Line(fs[0])|
  {
    hide Line;
    var rest := Filter(fs[1..], drop);
    if fs[0].id in drop {
      assert [] + rest == rest;
    } else {
      assert ([fs[0]] + rest)[1..] == rest;
    }
  }

  lemma LayoutLength(l: Layout, a: seq<Field>, b: seq<Field>)
    ensures |Serialize(l.(fields := a + b))| == |l.start| + |Block(a)| + |Block(b)| + 2 + |l.body|
  {
    hide Block;
    BlockAppend(a, b);
  }

  /** A listed line goes if and only if a value of at least one octet was captured in it: edits that drop no line twice
      leave the message the caller wants exactly when no header to be dropped has an empty value. */
  lemma WantedExact(m: Msg, l: Layout, captured: map<Bytes, nat>, stale: set<Bytes>, es: seq<Edit>)
    requires Tied(m, l, captured, stale) && Known(m.ranges, es) && |m.data| + NewOctets(es) < LIMIT
    requires Once(m.ranges, stale, es)
    ensures captured.Keys <= m.ranges.Keys && Edited(m, es).Some?
    ensures Edited(m, es).value.data == Serialize(Wanted(l, captured, es)) <==> NoneEmpty(captured, m.ranges, es)
  {
    hide Edited, Serialize, NextId, Once, Filter, NewOctets, Block, RangeOk, Ids;
    EditsGood(m, l, captured, stale, es);
    var gone, listed, more := Removed(captured, m.ranges, es), Listed(captured, es), Added(NextId(l.fields), es);
    forall k | k in captured ensures captured[k] in gone <==> Drop(k) in es && m.ranges[k].len > 0 {
      RemovedExactly(captured, m.ranges, es, k);
    }
    RemovedListed(captured, m.ranges, es);
    if NoneEmpty(captured, m.ranges, es) {
      assert gone == listed;
    } else {
      var k :| k in captured && Drop(k) in es && m.ranges[k].len == 0;
      CapturedField(l, captured, stale, m.ranges, k);
      FilterShorter(l.fields, gone, listed);
      LayoutLength(l, Filter(l.fields, gone), more);
      LayoutLength(l, Filter(l.fields, listed), more);
    }
  }

  lemma CapturedField(l: Layout, captured: map<Bytes, nat>, stale: set<Bytes>, ranges: map<Bytes, Range>, k: Bytes)
    requires CapturedOk(l, captured, stale, ranges) && k in captured
    ensures exists f :: f in l.fields && f.id == captured[k]
  {
    assert RangeOk(l, captured[k], k, ranges[k]);
    var i := Position(l.fields, captured[k]).value;
    assert l.fields[i] in l.fields;
  }

  lemma {:induction false} RemovedListed(lines: map<Bytes, nat>, ranges: map<Bytes, Range>, es: seq<Edit>)
    requires Known(ranges, es)
    ensures Removed(lines, ranges, es) <= Listed(lines, es)
    decreases |es|
  {
    if es != [] {
      var n := |es| - 1;
      RemovedListed(lines, ranges, es[..n]);
      assert forall e :: e in es[..n] ==> e in es;
      assert es[n] in es;
    }
  }

  /** What a second removal of the same header does. Its range was moved like those behind it and has kept its length:
      as many octets again are cut out in front of where the line was, or, if there are no more than that, nothing is
      left to pull or the offset wraps around, and the message is dropped. */
  lemma SecondRemoval(m: Msg, l: Layout, captured: map<Bytes, nat>, stale: set<Bytes>, key: Bytes)
    requires Tied(m, l, captured, stale) && key in captured && key in m.ranges && m.ranges[key].len > 0
    ensures Position(l.fields, captured[key]).Some? && Apply(m, Drop(key)).Some?
    ensures var j := Position(l.fields, captured[key]).value;
            var at, n := LineStart(l, j), |Line(l.fields[j])|;
            var first := Apply(m, Drop(key)).value;
            var second := Apply(first, Drop(key));
            && first.data == Serialize(Without(l, j)) && at <= |first.data|
            && (second.Some? <==> at > n)
            && (at > n ==> second.value.data == first.data[..at - n] + first.data[at..])
  {
    hide Line, LineStart, Block, Position, Ids, Filter, RangeOk, Serialize, CapturedOk, Tied, Apply, Splice;
    CapturedThere(m, l, captured, stale, key);
    RemovedLine(l, captured[key], key, m.ranges[key]);
    var j := Position(l.fields, captured[key]).value;
    TiedData(m, l, captured, stale);
    StartFirst(l, j);
    DropTwice(m, key, LineStart(l, j), |Line(l.fields[j])|);
  }

  lemma TiedData(m: Msg, l: Layout, captured: map<Bytes, nat>, stale: set<Bytes>)
    requires Tied(m, l, captured, stale)
    ensures m.data == Serialize(l) && |m.data| < LIMIT && l.start != []
  {
  }

  lemma WrapTwice(x: int, k: nat)
    ensures Wrap(Wrap(x + k) - k) == Wrap(x)
    ensures -U16 <= x < 0 ==> Wrap(x) == x + U16
    ensures 0 <= x < U16 ==> Wrap(x) == x
  {
  }

  lemma DropTwice(m: Msg, key: Bytes, at: nat, n: nat)
    requires key in m.ranges && m.ranges[key].len > 0 && 0 < at && at + n <= |m.data| < LIMIT
    requires m.ranges[key].idx == at + (|key| + 2) && n == m.ranges[key].len + (|key| + 4)
    ensures Apply(m, Drop(key)).Some?
    ensures var first := Apply(m, Drop(key)).value;
            var second := Apply(first, Drop(key));
            && first.data == Splice(m.data, at, n, []) && at <= |first.data|
            && (second.Some? <==> at > n)
            && (at > n ==> second.value.data == first.data[..at - n] + first.data[at..])
  {
    hide Apply, Splice, Wrap;
    WrapTwice(at, 0);
    Dropped(m, key);
    var first := Apply(m, Drop(key)).value;
    SpliceLength(m.data, at, n, []);
    WrapTwice(at - n, |key| + 2);
    Dropped(first, key);
    if at > n {
      SpliceNothing(first.data, at - n, n);
    }
  }

  lemma Dropped(m: Msg, key: Bytes)
    requires key in m.ranges && m.ranges[key].len > 0
    ensures var c := RemoveRange(m.ranges[key], key);
            var r := Apply(m, Drop(key));
            && (r.Some? <==> 0 < c.idx && c.idx + c.len <= |m.data|)
            && (r.Some? ==> && r.value.data == Splice(m.data, c.idx, c.len, []) && key in r.value.ranges
                            && r.value.ranges[key] == Shifted(m.ranges[key], c))
  {
  }

  lemma SpliceNothing(data: Bytes, idx: nat, len: nat)
    requires idx + len <= |data|
    ensures Splice(data, idx, len, []) == data[..idx] + data[idx + len..]
  {
    assert data[..idx] + [] == data[..idx];
  }

  lemma CapturedThere(m: Msg, l: Layout, captured: map<Bytes, nat>, stale: set<Bytes>, key: Bytes)
    requires Tied(m, l, captured, stale) && key in captured
    ensures key in m.ranges && key !in stale && Ids(l.fields) && RangeOk(l, captured[key], key, m.ranges[key])
  {
  }

  // ----- the generated filter

  function Drops(keys: seq<Bytes>): (es: seq<Edit>)
    ensures |es| == |keys| && forall i :: 0 <= i < |keys| ==> es[i] == Drop(keys[i])
  {
    seq(|keys|, i requires 0 <= i < |keys| => Drop(keys[i]))
  }

  function Puts(add: seq<(Bytes, Bytes)>): (es: seq<Edit>)
    ensures |es| == |add| && forall i :: 0 <= i < |add| ==> es[i] == Put(add[i].0, add[i].1)
  {
    seq(|add|, i requires 0 <= i < |add| => Put(add[i].0, add[i].1))
  }

  /** A filter: its removals, then its additions. */
  function Edits(remove: seq<Bytes>, add: seq<(Bytes, Bytes)>): seq<Edit>
  {
    Drops(remove) + Puts(add)
  }

  /** The lengths a filter works with fit its 16-bit numbers. */
  predicate Fits(ranges: map<Bytes, Range>, remove: seq<Bytes>, add: seq<(Bytes, Bytes)>)
  {
    && (forall i :: 0 <= i < |remove| ==> remove[i] in ranges && ranges[remove[i]].len + (|remove[i]| + 4) <= LIMIT)
    && forall i :: 0 <= i < |add| ==> |NewLine(add[i].0, add[i].1)| < LIMIT
  }

  lemma {:induction false} EditedFails(m: Msg, es: seq<Edit>, i: nat)
    requires Known(m.ranges, es) && i <= |es| && Edited(m, es[..i]).None?
    ensures Edited(m, es).None?
    decreases |es|
  {
    if i == |es| {
      assert es[..i] == es;
    } else {
      assert es[..|es| - 1][..i] == es[..i];
      EditedFails(m, es[..|es| - 1], i);
    }
  }

  lemma {:induction false} EditedAppend(m: Msg, a: seq<Edit>, b: seq<Edit>)
    requires Known(m.ranges, a) && Known(m.ranges, b)
    ensures Known(m.ranges, a + b)
    ensures match Edited(m, a)
            case None => Edited(m, a + b) == None
            case Some(m1) => Known(m1.ranges, b) && Edited(m, a + b) == Edited(m1, b)
    decreases |b|
  {
    hide Apply;
    if b == [] {
      assert a + b == a;
    } else {
      var n := |b| - 1;
      EditedAppend(m, a, b[..n]);
      assert (a + b)[..|a| + n] == a + b[..n] && (a + b)[|a| + n] == b[n];
    }
  }

  lemma EditedPush(m: Msg, es: seq<Edit>, i: nat)
    requires Known(m.ranges, es) && i < |es| && Edited(m, es[..i]).Some?
    ensures es[i].Drop? ==> es[i].key in Edited(m, es[..i]).value.ranges
    ensures Edited(m, es[..i + 1]) == Apply(Edited(m, es[..i]).value, es[i])
  {
    assert es[..i + 1][..i] == es[..i];
  }

  class Message {
    var data: Bytes
    var ranges: map<Bytes, Range>
    var doneIdx: nat

    ghost function State(): Msg
      reads this
    {
      Msg(data, ranges, doneIdx)
    }

    /** What the parser captured: headers, and other parts of the message under keys of their own. */
    constructor (l: Layout, lines: map<Bytes, nat>, marks: map<Bytes, Mark>, keys: set<Bytes>)
      requires Ids(l.fields) && l.start != [] && |Serialize(l)| < LIMIT
      requires lines.Keys + marks.Keys <= keys && lines.Keys !! marks.Keys
      requires forall k :: k in lines ==> LineOf(l, lines[k], k)
      requires forall j, k :: j in lines && k in lines && j != k ==> lines[j] != lines[k]
      requires forall k :: k in marks ==> MarkIn(l, marks[k])
      ensures Tied(State(), l, lines, marks.Keys) && ranges.Keys == keys
      ensures forall k :: k in marks ==> Follows(l, l, marks[k], ranges[k])
    {
      data, doneIdx := Serialize(l), DoneIdx(l);
      ranges := map k | k in keys :: if k in lines then LineRange(l, lines[k], k)
                                     else if k in marks then MarkRange(l, marks[k])
                                     else Range(0, 0);
    }

    /** One removal. */
    method Remove(key: Bytes) returns (ok: bool)
      requires key in ranges && ranges[key].len + (|key| + 4) <= LIMIT
      modifies this
      ensures Apply(old(State()), Drop(key)) == if ok then Some(State()) else None
    {
      hide Splice;
      var r := ranges[key];
      ok := true;
      if r.len > 0 {
        var m := RemoveRange(r, key);
        ok, data := MutateMsg(data, m, []);
        if !ok {
          return;
        }
        doneIdx := (doneIdx - m.len) % U32;
        ranges := ShiftedAll(ranges, m);
      }
    }

    /** One addition, in front of the empty line. */
    method Add(name: Bytes, value: Bytes) returns (ok: bool)
      requires |NewLine(name, value)| < LIMIT
      modifies this
      ensures Apply(old(State()), Put(name, value)) == if ok then Some(State()) else None
    {
      hide Splice;
      var line := NewLine(name, value);
      ok, data := MutateMsg(data, Range(Wrap(doneIdx - 2), 0), line);
      if ok {
        doneIdx := (doneIdx + |line|) % U32;
      }
    }

    /** The whole filter: removals, then additions, on a message with its captured ranges in place. What it passes and
        what it leaves in the ranges is said by `Meets`. */
    method Mutate(remove: seq<Bytes>, add: seq<(Bytes, Bytes)>) returns (ok: bool)
      requires Fits(ranges, remove, add)
      modifies this
      ensures Known(old(ranges), Edits(remove, add))
      ensures Edited(old(State()), Edits(remove, add)) == if ok then Some(State()) else None
      ensures forall l, lines, stale ::
                Tied(old(State()), l, lines, stale) && |old(data)| + NewOctets(Edits(remove, add)) < LIMIT ==>
                && lines.Keys <= old(ranges).Keys
                && Meets(old(State()), Edits(remove, add), if ok then Some(State()) else None, l, lines, stale)
    {
      hide Edited, Tied, Meets, NewOctets, NewLine;
      ghost var m := State();
      EditedAppend(m, Drops(remove), Puts(add));
      ok := RemoveAll(remove);
      if ok {
        ok := AddAll(add);
      }
      AllMeet(m, Edits(remove, add));
    }

    method RemoveAll(remove: seq<Bytes>) returns (ok: bool)
      requires forall i :: 0 <= i < |remove| ==>
                 remove[i] in ranges && ranges[remove[i]].len + (|remove[i]| + 4) <= LIMIT
      modifies this
      ensures Edited(old(State()), Drops(remove)) == if ok then Some(State()) else None
    {
      hide Apply;
      ghost var m, es := State(), Drops(remove);
      ok := true;
      var i := 0;
      while i < |remove|
        invariant 0 <= i <= |remove| && Edited(m, es[..i]) == Some(State()) && ok
      {
        EditedPush(m, es, i);
        ok := Remove(remove[i]);
        i := i + 1;
        if !ok {
          EditedFails(m, es, i);
          return;
        }
      }
      assert es[..i] == es;
    }

    method AddAll(add: seq<(Bytes, Bytes)>) returns (ok: bool)
      requires forall i :: 0 <= i < |add| ==> |NewLine(add[i].0, add[i].1)| < LIMIT
      modifies this
      ensures Edited(old(State()), Puts(add)) == if ok then Some(State()) else None
    {
      hide Apply, NewLine;
      ghost var m, es := State(), Puts(add);
      ok := true;
      var i := 0;
      while i < |add|
        invariant 0 <= i <= |add| && Edited(m, es[..i]) == Some(State()) && ok
      {
        EditedPush(m, es, i);
        ok := Add(add[i].0, add[i].1);
        i := i + 1;
        if !ok {
          EditedFails(m, es, i);
          return;
        }
      }
      assert es[..i] == es;
    }
  }

  /** What a list of edits is for. The message has exactly the lines removed that have a value, and the new ones added,
      if and only if no line is dropped twice. Then it is the one the caller wants if and only if no listed header is
      empty; all that was captured is in place for the next filter; and so is every other range, unless its line is
      gone. */
  ghost predicate Meets(m: Msg, es: seq<Edit>, r: Option<Msg>, l: Layout, lines: map<Bytes, nat>, stale: set<Bytes>)
    requires Known(m.ranges, es) && lines.Keys <= m.ranges.Keys
  {
    var l1 := Expected(l, lines, m.ranges, es);
    var spent := Spent(m.ranges, es);
    && (r.Some? && r.value.data == Serialize(l1) <==> Once(m.ranges, stale, es))
    && (Once(m.ranges, stale, es) ==>
          && r.Some? && Tied(r.value, l1, lines - spent, stale + spent) && r.value.ranges.Keys == m.ranges.Keys
          && (r.value.data == Serialize(Wanted(l, lines, es)) <==> NoneEmpty(lines, m.ranges, es))
          && (forall k, mark {:trigger Follows(l, l, mark, m.ranges[k])} ::
                k in m.ranges && Follows(l, l, mark, m.ranges[k]) && Untouched(lines, m.ranges, es, mark) ==>
                Follows(l, l1, mark, r.value.ranges[k])))
  }

  lemma EditsMeet(m: Msg, es: seq<Edit>, l: Layout, lines: map<Bytes, nat>, stale: set<Bytes>)
    requires Known(m.ranges, es) && Tied(m, l, lines, stale) && |m.data| + NewOctets(es) < LIMIT
    ensures lines.Keys <= m.ranges.Keys && Meets(m, es, Edited(m, es), l, lines, stale)
  {
    hide Edited, Serialize, Once, Expected, Wanted, NoneEmpty, Follows, Untouched, NewOctets, Spent;
    EditsExact(m, l, lines, stale, es);
    if Once(m.ranges, stale, es) {
      WantedExact(m, l, lines, stale, es);
      forall k, mark | k in m.ranges && Follows(l, l, mark, m.ranges[k]) && Untouched(lines, m.ranges, es, mark)
        ensures Follows(l, Expected(l, lines, m.ranges, es), mark, Edited(m, es).value.ranges[k])
      {
        EditsFollow(m, l, lines, stale, es, k, mark);
      }
    }
  }

  lemma AllMeet(m: Msg, es: seq<Edit>)
    requires Known(m.ranges, es)
    ensures forall l, lines, stale :: Tied(m, l, lines, stale) && |m.data| + NewOctets(es) < LIMIT ==>
              lines.Keys <= m.ranges.Keys && Meets(m, es, Edited(m, es), l, lines, stale)
  {
    hide Meets, Tied, Edited, NewOctets;
    forall l, lines, stale | Tied(m, l, lines, stale) && |m.data| + NewOctets(es) < LIMIT
      ensures lines.Keys <= m.ranges.Keys && Meets(m, es, Edited(m, es), l, lines, stale)
    {
      EditsMeet(m, es, l, lines, stale);
    }
  }

  // ----- instances

  /** A message with the one header line "x: ", and a filter that lists "x": the line stays. */
  method EmptyListed(start: Bytes) returns (msg: Message, ok: bool)
    requires start != [] && |start| + 7 < LIMIT
    ensures fresh(msg) && ok && msg.data == start + [120, 58, 32, 13, 10] + CRLF
  {
    hide Serialize, Tied, Meets, Apply, Edited, ValueRange, LineStart, Line, Position;
    var key: Bytes := [120];
    var l := Layout(start, [Field(0, key, [])], []);
    EmptyLine(start);
    var none: map<Bytes, Mark> := map[];
    assert none.Keys == {};
    msg := new Message(l, map[key := 0], none, {key});
    ghost var m := msg.State();
    EmptyLineAt(m, start);
    ok := msg.Mutate([key], []);
    assert Edits([key], []) == [Drop(key)];
    OneEdit(m, key);
    ApplyIdle(m, key);
  }

  lemma EmptyLine(start: Bytes)
    ensures var l := Layout(start, [Field(0, [120], [])], []);
            && Serialize(l) == start + [120, 58, 32, 13, 10] + CRLF && |Serialize(l)| == |start| + 7
            && Position(l.fields, 0) == Some(0) && ValueRange(l, 0).len == 0
  {
    var l := Layout(start, [Field(0, [120], [])], []);
    BlockOne(l.fields[0]);
    assert Line(l.fields[0]) == [120, 58, 32, 13, 10];
    assert Serialize(l) == start + Line(l.fields[0]) + CRLF + [];
  }

  lemma EmptyLineAt(m: Msg, start: Bytes)
    requires Tied(m, Layout(start, [Field(0, [120], [])], []), map[[120] := 0], {})
    ensures [120] in m.ranges && m.ranges[[120]].len == 0
    ensures m.data == Serialize(Layout(start, [Field(0, [120], [])], []))
  {
    EmptyLine(start);
    assert RangeOk(Layout(start, [Field(0, [120], [])], []), 0, [120], m.ranges[[120]]);
  }

  lemma OneEdit(m: Msg, key: Bytes)
    requires key in m.ranges
    ensures Edited(m, [Drop(key)]) == Apply(m, Drop(key))
  {
    hide Apply;
    assert [Drop(key)][..0] == [];
    EditedNone(m);
  }

  /** A message with the one header line "x: 1", and a filter that lists "x" twice: six octets of the start line are
      lost, and if it has no more than that the message is dropped. */
  method ListedTwice(start: Bytes) returns (msg: Message, ok: bool)
    requires start != [] && |start| + 8 < LIMIT
    ensures fresh(msg) && (ok <==> |start| > 6)
    ensures ok ==> msg.data == start[..|start| - 6] + CRLF
  {
    hide Serialize, Tied, Meets, Apply, Edited, ValueRange, LineStart, Line, Position;
    var key: Bytes := [120];
    var l := Layout(start, [Field(0, key, [49])], []);
    OneLine(start);
    var none: map<Bytes, Mark> := map[];
    assert none.Keys == {};
    msg := new Message(l, map[key := 0], none, {key});
    ghost var m := msg.State();
    OneLineAt(m, start);
    SecondRemoval(m, l, map[key := 0], {}, key);
    ok := msg.Mutate([key, key], []);
    TwoEdits(m, key);
    assert Edits([key, key], []) == [Drop(key), Drop(key)];
    assert Without(l, 0) == Layout(start, [], []);
    StartCut(start);
  }

  lemma StartCut(start: Bytes)
    ensures var d := start + CRLF; d[|start|..] == CRLF && (|start| >= 6 ==> d[..|start| - 6] == start[..|start| - 6])
  {
  }

  lemma OneLine(start: Bytes)
    ensures var l := Layout(start, [Field(0, [120], [49])], []);
            && |Serialize(l)| == |start| + 8 && Position(l.fields, 0) == Some(0)
            && LineStart(l, 0) == |start| && |Line(l.fields[0])| == 6 && ValueRange(l, 0).len == 1
            && Serialize(Layout(start, [], [])) == start + CRLF
  {
    var l := Layout(start, [Field(0, [120], [49])], []);
    BlockOne(l.fields[0]);
    assert start + [] + CRLF + [] == start + CRLF;
  }

  lemma OneLineAt(m: Msg, start: Bytes)
    requires Tied(m, Layout(start, [Field(0, [120], [49])], []), map[[120] := 0], {})
    ensures [120] in m.ranges && m.ranges[[120]].len == 1
  {
    OneLine(start);
    assert RangeOk(Layout(start, [Field(0, [120], [49])], []), 0, [120], m.ranges[[120]]);
  }

  lemma EditedNone(m: Msg)
    ensures Edited(m, []) == Some(m)
  {
  }

  lemma TwoEdits(m: Msg, key: Bytes)
    requires key in m.ranges && Apply(m, Drop(key)).Some?
    ensures Edited(m, [Drop(key), Drop(key)]) == Apply(Apply(m, Drop(key)).value, Drop(key))
  {
    hide Apply, Edited;
    var es := [Drop(key), Drop(key)];
    assert Edited(m, es[..0]) == Some(m) by { EditedNone(m); }
    EditedPush(m, es, 0);
    EditedPush(m, es, 1);
    assert es[..2] == es;
  }
}
