/**
 What a frame keeps of the headers its block decodes to (`HeaderBlock::load` in frame/headers.rs): pseudo headers come
 first and once, headers about the connection are malformed, and what exceeds the limit on the list is left out.
 */
module HeaderBlock {
  import opened Common
  import opened HpackHeader

  /** The headers stored, and whether some were left out. */
  datatype Block = Block(stored: seq<Header>, over: bool)

  const EMPTY := Block([], false)

  predicate ConnectionLevel(n: Name, v: Bytes)
  {
    && n.Field?
    && (n.bytes in [Ascii("connection"), Ascii("transfer-encoding"), Ascii("upgrade"), Ascii("keep-alive"),
                    Ascii("proxy-connection")]
        || (n.bytes == Ascii("te") && v != Ascii("trailers")))
  }

  predicate HasField(hs: seq<Header>)
  {
    exists i :: 0 <= i < |hs| && hs[i].name.Field?
  }

  predicate HasName(hs: seq<Header>, n: Name)
  {
    exists i :: 0 <= i < |hs| && hs[i].name == n
  }

  /** `calculate_header_list_size`, which does not count `:protocol`. */
  function ListSize(hs: seq<Header>): nat
  {
    if hs == [] then 0
    else
      var n := |hs| - 1;
      ListSize(hs[..n]) + if hs[n].name.Protocol? then 0 else Len(hs[n])
  }

  /** The variables of one call: what is stored, whether an ordinary field was seen, the size so far. */
  datatype Scan = Scan(block: Block, reg: bool, size: nat, malformed: bool)

  function Begin(b: Block): Scan
  {
    Scan(b, HasField(b.stored), ListSize(b.stored), false)
  }

  function Store(max: nat, s: Scan, h: Header): Scan
  {
    var size := s.size + Len(h);
    if size < max then s.(block := s.block.(stored := s.block.stored + [h]), size := size)
    else s.(block := s.block.(over := true), size := size)
  }

  /** One header. */
  function ScanOne(max: nat, s: Scan, h: Header): Scan
  {
    if h.name.Field? then
      if ConnectionLevel(h.name, h.value) then s.(malformed := true) else Store(max, s.(reg := true), h)
    else if s.reg || HasName(s.block.stored, h.name) then s.(malformed := true)
    else Store(max, s, h)
  }

  function ScanAll(max: nat, s: Scan, hs: seq<Header>): Scan
  {
    if hs == [] then s
    else
      var n := |hs| - 1;
      ScanOne(max, ScanAll(max, s, hs[..n]), hs[n])
  }

  /** The headers of one fragment. */
  function Load(max: nat, b: Block, hs: seq<Header>): Scan
  {
    ScanAll(max, Begin(b), hs)
  }

  lemma LoadOne(max: nat, b: Block, h: Header)
    ensures Load(max, b, [h]) == ScanOne(max, Begin(b), h)
  {
    hide ScanOne, Begin;
    var hs := [h];
    assert hs[..0] == [] && ScanAll(max, Begin(b), hs[..0]) == Begin(b);
  }

  lemma LoadNext(max: nat, b: Block, h: Header, i: Header)
    ensures Load(max, b, [h, i]) == ScanOne(max, Load(max, b, [h]), i)
  {
    hide ScanOne, Begin;
    assert [h, i][..1] == [h];
  }

  lemma NothingStored()
    ensures Begin(EMPTY) == Scan(EMPTY, false, 0, false)
  {
  }

  /** `HeaderBlock::load`, once the decoder has handed out its headers. */
  method LoadBlock(max: nat, b: Block, headers: seq<Header>) returns (block: Block, malformed: bool)
    ensures block == Load(max, b, headers).block && malformed == Load(max, b, headers).malformed
  {
    hide Len, ConnectionLevel, ListSize;
    var reg := HasField(b.stored);
    var size: nat := ListSize(b.stored);
    block, malformed := b, false;
    for i := 0 to |headers|
      invariant Scan(block, reg, size, malformed) == ScanAll(max, Begin(b), headers[..i])
    {
      assert headers[..i + 1][..i] == headers[..i];
      var h := headers[i];
      if h.name.Field? && ConnectionLevel(h.name, h.value) {
        malformed := true;
      } else if !h.name.Field? && (reg || HasName(block.stored, h.name)) {
        malformed := true;
      } else {
        reg := reg || h.name.Field?;
        size := size + Len(h);
        if size < max {
          block := block.(stored := block.stored + [h]);
        } else {
          block := block.(over := true);
        }
      }
    }
    assert headers[..|headers|] == headers;
  }

  // ----- lists that are stored as they are

  type Field = (Name, Bytes)

  function Plain(hs: seq<Header>): (r: seq<Field>)
    ensures |r| == |hs|
  {
    seq(|hs|, i requires 0 <= i < |hs| => (hs[i].name, hs[i].value))
  }

  function FieldsSize(fs: seq<Field>): nat
  {
    if fs == [] then 0
    else
      var n := |fs| - 1;
      FieldsSize(fs[..n]) + 32 + |NameBytes(fs[n].0)| + |fs[n].1|
  }

  /** A field that may follow these: pseudo headers first, each once, and nothing about the connection. */
  predicate MayFollow(fs: seq<Field>, f: Field)
  {
    if f.0.Field? then !ConnectionLevel(f.0, f.1)
    else forall i :: 0 <= i < |fs| ==> !fs[i].0.Field? && fs[i].0 != f.0
  }

  predicate WellAt(max: nat, fs: seq<Field>, i: nat)
    requires i < |fs|
  {
    MayFollow(fs[..i], fs[i]) && FieldsSize(fs[..i + 1]) < max
  }

  /** A list in order and within the limit. */
  predicate WellFormed(max: nat, fs: seq<Field>)
  {
    forall i :: 0 <= i < |fs| ==> WellAt(max, fs, i)
  }

  /** Such a list is stored as it is, in however many calls. */
  lemma {:induction false} WellFormedStored(max: nat, a: seq<Header>, b: seq<Header>)
    requires WellFormed(max, Plain(a + b))
    ensures var s := Load(max, Block(a, false), b);
            && s.block == Block(a + b, false) && !s.malformed && s.reg == HasField(a + b)
            && s.size <= FieldsSize(Plain(a + b))
    decreases |b|
  {
    hide ScanOne, ConnectionLevel, Len, NameBytes, MayFollow, HasField;
    if b == [] {
      assert a + b == a;
      SizeBound(a);
    } else {
      var n := |b| - 1;
      var h := b[n];
      assert a + b == a + b[..n] + [h];
      PlainPush(a + b[..n], h);
      PrefixWell(max, Plain(a + b[..n]), (h.name, h.value));
      WellFormedStored(max, a, b[..n]);
      StoredNext(max, Load(max, Block(a, false), b[..n]), a + b[..n], h);
    }
  }

  /** A list that is taken up again counts less than it did, exactly when `:protocol` is in it. */
  lemma {:induction false} SizeBound(hs: seq<Header>)
    ensures ListSize(hs) <= FieldsSize(Plain(hs))
    ensures ListSize(hs) == FieldsSize(Plain(hs)) <==> !HasName(hs, Protocol)
    decreases |hs|
  {
    if hs != [] {
      var n := |hs| - 1;
      SizeBound(hs[..n]);
      assert hs == hs[..n] + [hs[n]];
      PlainPush(hs[..n], hs[n]);
      assert HasName(hs, Protocol) <==> HasName(hs[..n], Protocol) || hs[n].name == Protocol;
    }
  }

  lemma PlainPush(hs: seq<Header>, h: Header)
    ensures Plain(hs + [h]) == Plain(hs) + [(h.name, h.value)]
    ensures FieldsSize(Plain(hs + [h])) == FieldsSize(Plain(hs)) + Len(h)
  {
    var fs := Plain(hs) + [(h.name, h.value)];
    assert Plain(hs + [h]) == fs;
    assert fs[..|hs|] == Plain(hs);
  }

  lemma PrefixWell(max: nat, fs: seq<Field>, f: Field)
    requires WellFormed(max, fs + [f])
    ensures WellFormed(max, fs) && MayFollow(fs, f) && FieldsSize(fs + [f]) < max
  {
    hide MayFollow, FieldsSize;
    var gs := fs + [f];
    assert gs[..|fs|] == fs && gs[|fs|] == f && gs[..|fs| + 1] == gs;
    assert WellAt(max, gs, |fs|);
    forall i | 0 <= i < |fs| ensures WellAt(max, fs, i) {
      assert WellAt(max, gs, i);
      assert gs[..i] == fs[..i] && gs[i] == fs[i] && gs[..i + 1] == fs[..i + 1];
    }
  }

  lemma StoredNext(max: nat, s: Scan, hs: seq<Header>, h: Header)
    requires s.block == Block(hs, false) && !s.malformed && s.reg == HasField(hs) && s.size <= FieldsSize(Plain(hs))
    requires MayFollow(Plain(hs), (h.name, h.value)) && FieldsSize(Plain(hs + [h])) < max
    ensures var s1 := ScanOne(max, s, h);
            && s1.block == Block(hs + [h], false) && !s1.malformed && s1.reg == HasField(hs + [h])
            && s1.size <= FieldsSize(Plain(hs + [h]))
  {
    hide ConnectionLevel, Len, NameBytes, FieldsSize;
    PlainPush(hs, h);
    assert forall i :: 0 <= i < |hs| ==> (hs + [h])[i] == hs[i] && Plain(hs)[i] == (hs[i].name, hs[i].value);
    assert (hs + [h])[|hs|] == h;
  }

  lemma {:induction false} BeginningWell(max: nat, a: seq<Header>, b: seq<Header>)
    requires WellFormed(max, Plain(a + b))
    ensures WellFormed(max, Plain(a))
    decreases |b|
  {
    hide WellFormed;
    if b == [] {
      assert a + b == a;
    } else {
      var n := |b| - 1;
      assert a + b == a + b[..n] + [b[n]];
      PlainPush(a + b[..n], b[n]);
      PrefixWell(max, Plain(a + b[..n]), (b[n].name, b[n].value));
      BeginningWell(max, a, b[..n]);
    }
  }

  // ----- any list

  /** How many headers at the beginning are within the limit together. */
  function Fitting(max: nat, hs: seq<Header>): (n: nat)
    ensures n <= |hs|
  {
    if hs == [] then 0
    else
      var m := Fitting(max, hs[..|hs| - 1]);
      if m == |hs| - 1 && FieldsSize(Plain(hs)) < max then |hs| else m
  }

  /** It is the longest such beginning. */
  lemma {:induction false} FittingLongest(max: nat, hs: seq<Header>)
    ensures var n := Fitting(max, hs);
            && (n > 0 ==> FieldsSize(Plain(hs[..n])) < max)
            && (n < |hs| ==> FieldsSize(Plain(hs[..n + 1])) >= max)
  {
    hide FieldsSize;
    if hs != [] {
      var k := |hs| - 1;
      FittingLongest(max, hs[..k]);
      var m := Fitting(max, hs[..k]);
      assert hs[..k][..m] == hs[..m] && hs[..k + 1] == hs;
      if m < k {
        assert hs[..k][..m + 1] == hs[..m + 1];
      }
    }
  }

  /** Header i may not stand where it does: it is about the connection, or a pseudo header behind an ordinary one or
      behind one of its name that was stored. */
  predicate Misplaced(max: nat, hs: seq<Header>, i: nat)
    requires i < |hs|
  {
    if hs[i].name.Field? then ConnectionLevel(hs[i].name, hs[i].value)
    else HasField(hs[..i]) || HasName(hs[..Fitting(max, hs[..i])], hs[i].name)
  }

  predicate AnyMisplaced(max: nat, hs: seq<Header>)
  {
    exists i :: 0 <= i < |hs| && Misplaced(max, hs, i)
  }

  lemma MisplacedPush(max: nat, hs: seq<Header>)
    requires hs != []
    ensures AnyMisplaced(max, hs) <==> AnyMisplaced(max, hs[..|hs| - 1]) || Misplaced(max, hs, |hs| - 1)
  {
    hide ConnectionLevel, Fitting, HasField, HasName;
    var n := |hs| - 1;
    forall i | 0 <= i < n ensures Misplaced(max, hs, i) <==> Misplaced(max, hs[..n], i) {
      assert hs[..n][..i] == hs[..i];
      var k := Fitting(max, hs[..i]);
      assert hs[..n][..k] == hs[..k];
    }
  }

  /** A list is malformed exactly when a header in it is misplaced. Of any other list the longest beginning within the
      limit is stored, and the list is over the limit exactly when that is not all of it. */
  lemma {:induction false} ListStored(max: nat, hs: seq<Header>)
    ensures var s := Load(max, EMPTY, hs);
            && (s.malformed <==> AnyMisplaced(max, hs))
            && (!s.malformed ==>
                  && s.block == Block(hs[..Fitting(max, hs)], Fitting(max, hs) < |hs|)
                  && s.size == FieldsSize(Plain(hs)) && s.reg == HasField(hs)
                  && (s.block.over ==> s.size >= max))
    decreases |hs|
  {
    hide ConnectionLevel, Begin, ScanOne, AnyMisplaced, Misplaced, FieldsSize, HasField;
    if hs == [] {
      NothingStored();
      assert Plain(hs) == [] && FieldsSize([]) == 0 && !HasField(hs) && !AnyMisplaced(max, hs) by { NoHeaders(max); }
    } else {
      var n := |hs| - 1;
      ListStored(max, hs[..n]);
      MisplacedPush(max, hs);
      ListNext(max, hs, Load(max, EMPTY, hs[..n]));
    }
  }

  lemma NoHeaders(max: nat)
    ensures Plain([]) == [] && FieldsSize([]) == 0 && !HasField([]) && !AnyMisplaced(max, [])
  {
  }

  lemma ListNext(max: nat, hs: seq<Header>, s: Scan)
    requires hs != []
    requires !s.malformed ==>
               var before := hs[..|hs| - 1];
               && s.block == Block(before[..Fitting(max, before)], Fitting(max, before) < |before|)
               && s.size == FieldsSize(Plain(before)) && s.reg == HasField(before)
               && (s.block.over ==> s.size >= max)
    ensures var s1 := ScanOne(max, s, hs[|hs| - 1]);
            && (s1.malformed <==> s.malformed || Misplaced(max, hs, |hs| - 1))
            && (!s1.malformed ==>
                  && s1.block == Block(hs[..Fitting(max, hs)], Fitting(max, hs) < |hs|)
                  && s1.size == FieldsSize(Plain(hs)) && s1.reg == HasField(hs)
                  && (s1.block.over ==> s1.size >= max))
  {
    hide ConnectionLevel, FieldsSize, Len, HasName, HasField;
    var n := |hs| - 1;
    var before, h := hs[..n], hs[n];
    assert hs == before + [h];
    PlainPush(before, h);
    HasFieldPush(before, h);
    if !s.malformed {
      var m := Fitting(max, before);
      assert before[..m] == hs[..m];
      assert m == n ==> before[..m] == before && hs[..n + 1] == hs;
    }
  }

  lemma HasFieldPush(hs: seq<Header>, h: Header)
    ensures HasField(hs + [h]) <==> HasField(hs) || h.name.Field?
  {
    assert (hs + [h])[|hs|] == h;
    assert forall i :: 0 <= i < |hs| ==> (hs + [h])[i] == hs[i];
  }

  /** What is stored is within the limit. */
  predicate Within(max: nat, hs: seq<Header>)
  {
    hs == [] || ListSize(hs) < max
  }

  /** Whatever headers come, in however many calls, what is stored stays within the limit. */
  lemma {:induction false} StaysWithin(max: nat, b: Block, hs: seq<Header>)
    requires Within(max, b.stored)
    ensures var s := Load(max, b, hs);
            Within(max, s.block.stored) && ListSize(s.block.stored) <= s.size
    decreases |hs|
  {
    hide ConnectionLevel, Len, HasField, HasName;
    if hs != [] {
      var n := |hs| - 1;
      StaysWithin(max, b, hs[..n]);
      var s := Load(max, b, hs[..n]);
      var stored := s.block.stored + [hs[n]];
      assert stored[..|stored| - 1] == s.block.stored;
    }
  }
}
