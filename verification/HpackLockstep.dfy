/**
 Encoder and decoder together: over any sequence of header lists and table size changes, a decoder fed the encoder's
 blocks yields the same names and values in order, and both tables stay equal.
 */
module HpackLockstep {
  import opened Common
  import opened HpackHeader
  import opened HpackInt
  import opened HpackList
  import D = HpackDecoder
  import E = HpackEncoder
  import Huffman

  /** An integer may exceed its full prefix by less than this (four continuation octets). */
  const INT_LIMIT := 0x1000_0000

  /** Every index into a table of this size can be read back, also with the shortest prefix. */
  predicate IndexRange(max: nat)
  {
    61 + max / 32 < 15 + INT_LIMIT
  }

  /** The decoder's Huffman decoding undoes the encoder's code. */
  ghost predicate Undoes(rules: D.Rules, t: Huffman.CodeTable)
  {
    forall s: Bytes {:trigger Huffman.Encode(t, s)} :: rules.unhuff(Huffman.Encode(t, s)) == Some(s)
  }

  /** Reading bit by bit undoes any code in which no word is a prefix of another. */
  lemma PrefixFreeUndoes(rules: D.Rules, t: Huffman.CodeTable)
    requires Huffman.PrefixFree(t) && forall b :: rules.unhuff(b) == Huffman.Decode(t, b)
    ensures Undoes(rules, t)
  {
    forall s: Bytes ensures rules.unhuff(Huffman.Encode(t, s)) == Some(s) {
      Huffman.RoundTrip(t, s);
    }
  }

  predicate Short(t: Huffman.CodeTable, s: Bytes)
  {
    |Huffman.Encode(t, s)| < 127 + INT_LIMIT
  }

  /** A header the `http` types admit, with strings within the decoder's integer limit. */
  predicate Admissible(t: Huffman.CodeTable, rules: D.Rules, h: Header)
  {
    && rules.fieldValue(h.name, h.value)
    && (match h.name
        case Field(b) => b != [] && b[0] != ':' as int && rules.fieldName(b)
        case _ => !h.sensitive)
    && Short(t, NameBytes(h.name)) && Short(t, h.value)
  }

  // ----- strings and literals

  lemma StringDecodes(t: Huffman.CodeTable, rules: D.Rules, s: Bytes, rest: Bytes)
    requires Undoes(rules, t) && Short(t, s)
    ensures var r := D.ReadString(rules, StrBytes(t, s) + rest);
            r.Ok? && r.value.text == s && r.value.offset + r.value.len == |StrBytes(t, s)|
  {
    hide Undoes, DecodedInt, IntBytes, Huffman.Encode;
    var w := StrBytes(t, s);
    var buf := w + rest;
    if s == [] {
      EmptyStringDecodes(rules, rest);
    } else {
      var code := Huffman.Encode(t, s);
      UndoesAt(rules, t, s);
      var head := IntBytes(|code|, 7, 128);
      IntRoundTrip(|code|, 7, 128, code + rest);
      assert head + (code + rest) == buf;
      assert buf[|head|..|head| + |code|] == code;
      FirstOctet(|code|, 7, 128);
      assert buf[0] == head[0];
    }
  }

  lemma UndoesAt(rules: D.Rules, t: Huffman.CodeTable, s: Bytes)
    requires Undoes(rules, t)
    ensures rules.unhuff(Huffman.Encode(t, s)) == Some(s)
  {
  }

  lemma EmptyStringDecodes(rules: D.Rules, rest: Bytes)
    ensures D.ReadString(rules, [0] + rest) == Ok(D.Marker(1, 0, false, []))
  {
    var buf: Bytes := [0] + rest;
    assert DecodedInt(buf, 7) == Ok((0, 1));
    assert buf[1..1] == [];
  }

  /** The first octet of an integer carries its flag bits. */
  lemma FirstOctet(v: nat, prefix: nat, first: Byte)
    requires 1 <= prefix <= 8 && first + PrefixMask(prefix) < 256
    ensures first <= IntBytes(v, prefix, first)[0] <= first + PrefixMask(prefix)
  {
  }

  /** A literal whose name is an index. */
  lemma IndexedNameDecodes(t: Huffman.CodeTable, rules: D.Rules, es: Entries, idx: nat, prefix: nat, first: Byte,
                           n: Name, v: Bytes, rest: Bytes)
    requires (prefix == 4 && (first == 0 || first == 16)) || (prefix == 6 && first == 64)
    requires Undoes(rules, t) && Short(t, v) && rules.fieldValue(n, v)
    requires 0 < idx < 15 + INT_LIMIT && D.Lookup(es, idx).Ok? && D.Lookup(es, idx).value.name == n
    ensures var w := IntBytes(idx, prefix, first) + StrBytes(t, v);
            D.ReadLiteral(rules, es, w + rest, prefix) == Ok((Header(n, v, false), |w|))
  {
    hide Undoes, DecodedInt, IntBytes, StrBytes, D.ReadString, Short, D.Lookup;
    var a, b := IntBytes(idx, prefix, first), StrBytes(t, v);
    var buf := a + b + rest;
    IntRoundTrip(idx, prefix, first, b + rest);
    assert a + (b + rest) == buf;
    assert buf[|a|..] == b + rest;
    StringDecodes(t, rules, v, rest);
  }

  /** A literal whose name is spelt out. */
  lemma SpeltNameDecodes(t: Huffman.CodeTable, rules: D.Rules, es: Entries, prefix: nat, first: Byte, h: Header,
      rest: Bytes)
    requires (prefix == 4 && (first == 0 || first == 16)) || (prefix == 6 && first == 64)
    requires Undoes(rules, t) && Admissible(t, rules, h)
    ensures var w := [first] + StrBytes(t, NameBytes(h.name)) + StrBytes(t, h.value);
            D.ReadLiteral(rules, es, w + rest, prefix) == Ok((Header(h.name, h.value, false), |w|))
  {
    hide Undoes, DecodedInt, StrBytes, D.ReadString, Short, D.NewHeader, NameBytes;
    var b, c := StrBytes(t, NameBytes(h.name)), StrBytes(t, h.value);
    var buf := [first] + b + c + rest;
    ZeroDecodes(prefix, first, b + c + rest);
    assert [first] + (b + c + rest) == buf;
    assert buf[1..] == b + (c + rest);
    StringDecodes(t, rules, NameBytes(h.name), c + rest);
    assert buf[1 + |b|..] == c + rest;
    StringDecodes(t, rules, h.value, rest);
    NameDecodes(t, rules, h);
  }

  lemma ZeroDecodes(prefix: nat, first: Byte, rest: Bytes)
    requires (prefix == 4 && (first == 0 || first == 16)) || (prefix == 6 && first == 64)
    ensures DecodedInt([first] + rest, prefix) == Ok((0, 1))
  {
  }

  /** A name written out is read back as the same name. */
  lemma NameDecodes(t: Huffman.CodeTable, rules: D.Rules, h: Header)
    requires Admissible(t, rules, h)
    ensures D.NewHeader(rules, NameBytes(h.name), h.value) == Ok(Header(h.name, h.value, false))
  {
    hide Short;
    if !h.name.Field? {
      PseudoNames(h.name);
    }
  }

  lemma PseudoNames(n: Name)
    requires !n.Field?
    ensures NameBytes(n) != [] && NameBytes(n)[0] == ':' as int && D.PseudoName(NameBytes(n)) == Some(n)
  {
    var a, m, s, p, r, u := NameBytes(Authority), NameBytes(Method), NameBytes(Scheme), NameBytes(Path),
        NameBytes(Protocol), NameBytes(Status);
    assert |a| == 10 && |m| == 7 && |s| == 7 && |p| == 5 && |r| == 9 && |u| == 7;
    assert m[1] == 'm' as int && s[2] == 'c' as int && u[2] == 't' as int && s[1] == 's' as int && u[1] == 's' as int;
  }

  // ----- one header

  /** A following nameless header that uses this index gets this name. */
  predicate Refers(es: Entries, index: Index, n: HpackHeader.Name)
  {
    match index
    case Indexed(i, _) => D.Lookup(es, i).Ok? && D.Lookup(es, i).value.name == n
    case Name(i, _) => D.Lookup(es, i).Ok? && D.Lookup(es, i).value.name == n
    case Inserted(slot) => slot < |es| && es[slot].name == n
    case InsertedValue(_, slot) => slot < |es| && es[slot].name == n
    case NotIndexed(h) => h.name == n
  }

  /** The index chosen for a header is one the decoder resolves to it, on the same table. */
  predicate Resolves(es: Entries, max: nat, h: Header, index: Index, es': Entries)
  {
    match index
    case Indexed(i, _) => es' == es && D.Lookup(es, i).Ok? && SameField(D.Lookup(es, i).value, h)
    case Name(i, g) => g == h && es' == es && D.Lookup(es, i).Ok? && D.Lookup(es, i).value.name == h.name
    case Inserted(slot) => slot == 0 && !IsSensitive(h) && es' == Insert(es, max, h) && es' != [] && es'[0] == h
    case InsertedValue(i, slot) =>
      && slot == 0 && !IsSensitive(h) && es' == Insert(es, max, h) && es' != [] && es'[0] == h
      && D.Lookup(es, i).Ok? && D.Lookup(es, i).value.name == h.name
    case NotIndexed(g) => g == h && es' == es
  }

  lemma IndexResolves(es: Entries, max: nat, h: Header)
    ensures Resolves(es, max, h, IndexHeader(es, max, h).0, IndexHeader(es, max, h).1)
    ensures Refers(IndexHeader(es, max, h).1, IndexHeader(es, max, h).0, h.name)
  {
    hide Evict, FindField, FindName, IndexStatic, SkipValueIndex, Size, StaticName, StaticValue, Len, NameBytes;
  }

  lemma LookupBound(es: Entries, max: nat, i: nat)
    requires Size(es) <= max && IndexRange(max) && D.Lookup(es, i).Ok?
    ensures 0 < i < 15 + INT_LIMIT
  {
  }

  /** What the decoder makes of the octets of one header. */
  predicate Decodes(rules: D.Rules, st: D.State, w: Bytes, rest: Bytes, n: HpackHeader.Name, v: Bytes, es': Entries)
  {
    && w != [] && !D.IsSizeUpdate(w[0])
    && var r := D.ReadRep(rules, st, w + rest);
       && r.Ok? && r.value.1 == |w| && r.value.0.Literal?
       && r.value.0.header.name == n && r.value.0.header.value == v
       && D.Apply(st, r.value.0) == st.(entries := es')
  }

  /** A literal that is not indexed, its name given by an index. */
  lemma NotIndexedDecodes(t: Huffman.CodeTable, rules: D.Rules, st: D.State, idx: nat, n: HpackHeader.Name, v: Bytes,
                          sensitive: bool, rest: Bytes)
    requires Undoes(rules, t) && Short(t, v) && rules.fieldValue(n, v)
    requires Size(st.entries) <= st.max && IndexRange(st.max)
    requires D.Lookup(st.entries, idx).Ok? && D.Lookup(st.entries, idx).value.name == n
    ensures Decodes(rules, st, E.NotIndexedBytes(t, idx, v, sensitive), rest, n, v, st.entries)
  {
    hide Undoes, IntBytes, StrBytes, D.ReadLiteral, Short, D.Lookup, Size;
    var first: Byte := if sensitive then 16 else 0;
    LookupBound(st.entries, st.max, idx);
    FirstOctet(idx, 4, first);
    IndexedNameDecodes(t, rules, st.entries, idx, 4, first, n, v, rest);
  }

  lemma NotIndexed2Decodes(t: Huffman.CodeTable, rules: D.Rules, st: D.State, h: Header, sensitive: bool, rest: Bytes)
    requires Undoes(rules, t) && Admissible(t, rules, h)
    ensures Decodes(rules, st, E.NotIndexed2Bytes(t, NameBytes(h.name), h.value, sensitive), rest, h.name, h.value,
                    st.entries)
  {
    hide Undoes, StrBytes, D.ReadLiteral, Short, NameBytes, Admissible;
    var first: Byte := if sensitive then 16 else 0;
    SpeltNameDecodes(t, rules, st.entries, 4, first, h, rest);
  }

  lemma IndexedDecodes(rules: D.Rules, st: D.State, i: nat, h: Header, rest: Bytes)
    requires Size(st.entries) <= st.max && IndexRange(st.max)
    requires D.Lookup(st.entries, i).Ok? && SameField(D.Lookup(st.entries, i).value, h)
    ensures Decodes(rules, st, IntBytes(i, 7, 128), rest, h.name, h.value, st.entries)
  {
    hide IntBytes, DecodedInt, D.Lookup, Size;
    LookupBound(st.entries, st.max, i);
    IntRoundTrip(i, 7, 128, rest);
    FirstOctet(i, 7, 128);
  }

  /** A full index is accepted exactly when it names a static entry or a dynamic one that is there. */
  lemma IndexAccepted(rules: D.Rules, st: D.State, i: nat, rest: Bytes)
    requires i < 127 + INT_LIMIT
    ensures D.ReadRep(rules, st, IntBytes(i, 7, 128) + rest) ==
              if 1 <= i <= 61 then Ok((D.Literal(GetStatic(i), false), |IntBytes(i, 7, 128)|))
              else if 62 <= i < 62 + |st.entries| then
                Ok((D.Literal(st.entries[i - 62], false), |IntBytes(i, 7, 128)|))
              else Err(D.Failure(InvalidTableIndex, 0))
  {
    hide IntBytes, DecodedInt, GetStatic;
    IntRoundTrip(i, 7, 128, rest);
    FirstOctet(i, 7, 128);
  }

  /** A size is accepted exactly when it is within the last one that was allowed. */
  lemma SizeAccepted(rules: D.Rules, st: D.State, v: nat, rest: Bytes)
    requires v < 31 + INT_LIMIT
    ensures D.ReadRep(rules, st, IntBytes(v, 5, 32) + rest) ==
              if v <= st.lastMax then Ok((D.SizeUpdate(v), |IntBytes(v, 5, 32)|))
              else Err(D.Failure(InvalidMaxDynamicSize, 0))
  {
    hide IntBytes, DecodedInt;
    IntRoundTrip(v, 5, 32, rest);
    FirstOctet(v, 5, 32);
  }

  /** An insertion, its name spelt out or given by an index: both tables take the same entry. */
  lemma InsertedDecodes(t: Huffman.CodeTable, rules: D.Rules, st: D.State, h: Header, rest: Bytes)
    requires Undoes(rules, t) && Admissible(t, rules, h) && !IsSensitive(h)
    ensures Decodes(rules, st, [64] + StrBytes(t, NameBytes(h.name)) + StrBytes(t, h.value), rest, h.name, h.value,
                    Insert(st.entries, st.max, h))
  {
    hide Undoes, StrBytes, D.ReadLiteral, Short, NameBytes, Insert;
    SpeltNameDecodes(t, rules, st.entries, 6, 64, h, rest);
    assert Header(h.name, h.value, false) == h;
  }

  lemma InsertedValueDecodes(t: Huffman.CodeTable, rules: D.Rules, st: D.State, i: nat, h: Header, rest: Bytes)
    requires Undoes(rules, t) && Admissible(t, rules, h) && !IsSensitive(h)
    requires Size(st.entries) <= st.max && IndexRange(st.max)
    requires D.Lookup(st.entries, i).Ok? && D.Lookup(st.entries, i).value.name == h.name
    ensures Decodes(rules, st, IntBytes(i, 6, 64) + StrBytes(t, h.value), rest, h.name, h.value,
                    Insert(st.entries, st.max, h))
  {
    hide Undoes, StrBytes, D.ReadLiteral, Short, NameBytes, Insert, IntBytes, D.Lookup, Size;
    LookupBound(st.entries, st.max, i);
    FirstOctet(i, 6, 64);
    IndexedNameDecodes(t, rules, st.entries, i, 6, 64, h.name, h.value, rest);
    assert Header(h.name, h.value, false) == h;
  }

  /** The name of an item, given the name before it. */
  function ItemName(prev: Option<HpackHeader.Name>, item: E.Item): HpackHeader.Name
    requires item.Nameless? ==> prev.Some?
  {
    if item.Named? then item.header.name else prev.value
  }

  function ItemValue(item: E.Item): Bytes
  {
    if item.Named? then item.header.value else item.value
  }

  predicate ItemAdmissible(t: Huffman.CodeTable, rules: D.Rules, prev: Option<HpackHeader.Name>, item: E.Item)
  {
    match item
    case Named(h) => Admissible(t, rules, h)
    case Nameless(v, _) => prev.Some? && Admissible(t, rules, Header(prev.value, v, false))
  }

  /** The index before an item stands for the name before it. */
  predicate Stands(es: Entries, last: Option<Index>, prev: Option<HpackHeader.Name>)
  {
    if last.None? then prev.None? else prev.Some? && Refers(es, last.value, prev.value)
  }

  lemma ItemDecodes(t: Huffman.CodeTable, rules: D.Rules, st: D.State, last: Option<Index>,
                    prev: Option<HpackHeader.Name>, item: E.Item, rest: Bytes)
    requires Undoes(rules, t) && Size(st.entries) <= st.max && IndexRange(st.max)
    requires ItemAdmissible(t, rules, prev, item) && Stands(st.entries, last, prev)
    ensures var s := E.ItemStep(t, st.entries, st.max, last, item);
            && Decodes(rules, st, s.bytes, rest, ItemName(prev, item), ItemValue(item), s.entries)
            && Stands(s.entries, Some(s.last), Some(ItemName(prev, item)))
            && Size(s.entries) <= st.max
  {
    match item
    case Named(h) => NamedDecodes(t, rules, st, h, rest);
    case Nameless(v, sensitive) => NamelessDecodes(t, rules, st, last.value, prev.value, v, sensitive, rest);
  }

  lemma NamedDecodes(t: Huffman.CodeTable, rules: D.Rules, st: D.State, h: Header, rest: Bytes)
    requires Undoes(rules, t) && Size(st.entries) <= st.max && IndexRange(st.max)
    requires Admissible(t, rules, h)
    ensures var s := E.ItemStep(t, st.entries, st.max, None, E.Named(h));
            && Decodes(rules, st, s.bytes, rest, h.name, h.value, s.entries)
            && Refers(s.entries, s.last, h.name)
            && Size(s.entries) <= st.max
  {
    hide Undoes, IntBytes, StrBytes, Short, NameBytes, Insert, D.Lookup, Size, Decodes, IndexHeader, Refers, Admissible;
    var (index, es1) := IndexHeader(st.entries, st.max, h);
    IndexResolves(st.entries, st.max, h);
    E.IndexedSlotOk(st.entries, st.max, h);
    match index
    case Indexed(i, _) => IndexedDecodes(rules, st, i, h, rest);
    case Name(i, _) =>
      AdmissibleValue(t, rules, h);
      NotIndexedDecodes(t, rules, st, i, h.name, h.value, IsSensitive(h), rest);
    case Inserted(_) => InsertedDecodes(t, rules, st, h, rest);
    case InsertedValue(i, _) => InsertedValueDecodes(t, rules, st, i, h, rest);
    case NotIndexed(_) => NotIndexed2Decodes(t, rules, st, h, IsSensitive(h), rest);
  }

  lemma AdmissibleValue(t: Huffman.CodeTable, rules: D.Rules, h: Header)
    requires Admissible(t, rules, h)
    ensures Short(t, h.value) && rules.fieldValue(h.name, h.value)
  {
  }

  lemma NamelessDecodes(t: Huffman.CodeTable, rules: D.Rules, st: D.State, last: Index, n: HpackHeader.Name, v: Bytes,
                        sensitive: bool, rest: Bytes)
    requires Undoes(rules, t) && Size(st.entries) <= st.max && IndexRange(st.max)
    requires Admissible(t, rules, Header(n, v, false)) && Refers(st.entries, last, n)
    ensures Decodes(rules, st, E.NamelessBytes(t, last, v, sensitive), rest, n, v, st.entries)
  {
    hide Undoes, IntBytes, StrBytes, Short, NameBytes, Size, Decodes, E.NotIndexedBytes, E.NotIndexed2Bytes, Admissible;
    AdmissibleValue(t, rules, Header(n, v, false));
    match last
    case Indexed(i, _) => NotIndexedDecodes(t, rules, st, i, n, v, sensitive, rest);
    case Name(i, _) => NotIndexedDecodes(t, rules, st, i, n, v, sensitive, rest);
    case Inserted(slot) => NotIndexedDecodes(t, rules, st, slot + DYN_OFFSET, n, v, sensitive, rest);
    case InsertedValue(_, slot) => NotIndexedDecodes(t, rules, st, slot + DYN_OFFSET, n, v, sensitive, rest);
    case NotIndexed(h) => NotIndexed2Decodes(t, rules, st, Header(n, v, false), sensitive, rest);
  }

  // ----- header lists

  type Field = (HpackHeader.Name, Bytes)

  /** The names and values of a header list, repeated names filled in. */
  function Fields(prev: Option<HpackHeader.Name>, items: seq<E.Item>): seq<Field>
    requires items != [] && items[0].Nameless? ==> prev.Some?
    decreases |items|
  {
    if items == [] then []
    else
      var n := ItemName(prev, items[0]);
      [(n, ItemValue(items[0]))] + Fields(Some(n), items[1..])
  }

  function FieldsOf(headers: seq<Header>): seq<Field>
  {
    if headers == [] then [] else [(headers[0].name, headers[0].value)] + FieldsOf(headers[1..])
  }

  predicate ItemsAdmissible(t: Huffman.CodeTable, rules: D.Rules, prev: Option<HpackHeader.Name>, items: seq<E.Item>)
    ensures ItemsAdmissible(t, rules, prev, items) && items != [] && items[0].Nameless? ==> prev.Some?
    decreases |items|
  {
    items != [] ==>
      && ItemAdmissible(t, rules, prev, items[0])
      && ItemsAdmissible(t, rules, Some(ItemName(prev, items[0])), items[1..])
  }

  /** The decoder accepts the octets whole, hands out these fields and ends with this table. */
  predicate Accepts(rules: D.Rules, st: D.State, flag: bool, buf: Bytes, fields: seq<Field>, st': D.State)
  {
    var r := D.Run(rules, st, flag, buf);
    r.error.None? && r.rest == [] && r.state == st' && FieldsOf(r.headers) == fields
  }

  lemma AcceptsHeader(rules: D.Rules, st: D.State, flag: bool, w: Bytes, rest: Bytes, n: HpackHeader.Name, v: Bytes,
                      es: Entries, fields: seq<Field>, st': D.State)
    requires Decodes(rules, st, w, rest, n, v, es)
    requires Accepts(rules, st.(entries := es), false, rest, fields, st')
    ensures Accepts(rules, st, flag, w + rest, [(n, v)] + fields, st')
  {
    hide D.Run, D.ReadRep, D.Apply;
    var buf := w + rest;
    D.RunStep(rules, st, flag, buf);
    assert buf[|w|..] == rest;
    var (rep, _) := D.ReadRep(rules, st, buf).value;
    var r := D.Run(rules, st.(entries := es), false, rest);
    assert ([rep.header] + r.headers)[1..] == r.headers;
  }

  lemma {:induction false} ItemsDecode(t: Huffman.CodeTable, rules: D.Rules, st: D.State, flag: bool,
                                       last: Option<Index>, prev: Option<HpackHeader.Name>, items: seq<E.Item>)
    requires Undoes(rules, t) && Size(st.entries) <= st.max && IndexRange(st.max)
    requires ItemsAdmissible(t, rules, prev, items) && Stands(st.entries, last, prev)
    ensures E.Leads(last, items)
    ensures var (bytes, es) := E.ItemsBytes(t, st.entries, st.max, last, items);
            Accepts(rules, st, flag, bytes, Fields(prev, items), st.(entries := es)) && Size(es) <= st.max
    decreases |items|
  {
    hide Undoes, Size, ItemAdmissible, Decodes, Accepts, Refers, E.ItemStep, IndexRange;
    if items == [] {
      NothingAccepted(rules, st, flag);
    } else {
      var s := E.ItemStep(t, st.entries, st.max, last, items[0]);
      var n := ItemName(prev, items[0]);
      var st1 := st.(entries := s.entries);
      StepStands(t, rules, st, last, prev, items[0]);
      ItemsDecode(t, rules, st1, false, Some(s.last), Some(n), items[1..]);
      var (bytes, es) := E.ItemsBytes(t, s.entries, st.max, Some(s.last), items[1..]);
      ItemDecodes(t, rules, st, last, prev, items[0], bytes);
      AcceptsHeader(rules, st, flag, s.bytes, bytes, n, ItemValue(items[0]), s.entries, Fields(Some(n), items[1..]),
                    st.(entries := es));
    }
  }

  lemma NothingAccepted(rules: D.Rules, st: D.State, flag: bool)
    ensures Accepts(rules, st, flag, [], [], st)
  {
  }

  lemma StepStands(t: Huffman.CodeTable, rules: D.Rules, st: D.State, last: Option<Index>,
                   prev: Option<HpackHeader.Name>, item: E.Item)
    requires Undoes(rules, t) && Size(st.entries) <= st.max && IndexRange(st.max)
    requires ItemAdmissible(t, rules, prev, item) && Stands(st.entries, last, prev)
    ensures var s := E.ItemStep(t, st.entries, st.max, last, item);
            Stands(s.entries, Some(s.last), Some(ItemName(prev, item))) && Size(s.entries) <= st.max
  {
    hide *;
    ItemDecodes(t, rules, st, last, prev, item, []);
  }

  // ----- size updates and blocks

  lemma SizeDecodes(rules: D.Rules, st: D.State, v: nat, rest: Bytes, fields: seq<Field>, st': D.State)
    requires v <= st.lastMax && v < 31 + INT_LIMIT
    requires Accepts(rules, D.State(Evict(st.entries, v), v, st.lastMax), true, rest, fields, st')
    ensures Accepts(rules, st, true, IntBytes(v, 5, 32) + rest, fields, st')
  {
    hide D.Run, IntBytes, DecodedInt, Evict;
    var w := IntBytes(v, 5, 32);
    var buf := w + rest;
    IntRoundTrip(v, 5, 32, rest);
    FirstOctet(v, 5, 32);
    D.RunStep(rules, st, true, buf);
    assert buf[|w|..] == rest;
    var r := D.Run(rules, D.State(Evict(st.entries, v), v, st.lastMax), true, rest);
    assert [] + r.headers == r.headers;
  }

  predicate SizesAllowed(lastMax: nat, sizes: seq<nat>)
  {
    forall i :: 0 <= i < |sizes| ==> sizes[i] <= lastMax && sizes[i] < 31 + INT_LIMIT
  }

  lemma SizesDecode(rules: D.Rules, st: D.State, update: Option<E.SizeUpdate>, rest: Bytes, fields: seq<Field>,
      st': D.State)
    requires SizesAllowed(st.lastMax, E.Sizes(update))
    requires var (es, max) := E.ResizedAll(st.entries, st.max, E.Sizes(update));
             Accepts(rules, D.State(es, max, st.lastMax), true, rest, fields, st')
    ensures Accepts(rules, st, true, E.SizesBytes(E.Sizes(update)) + rest, fields, st')
  {
    hide Accepts, Evict, IntBytes, E.ResizedAll, E.SizesBytes;
    var sizes := E.Sizes(update);
    match update
    case None =>
      E.NoSizes(st.entries, st.max);
      assert [] + rest == rest;
    case Some(One(v)) =>
      assert sizes[0] == v;
      E.OneSize(st.entries, st.max, v);
      SizeDecodes(rules, st, v, rest, fields, st');
    case Some(Two(a, b)) =>
      assert sizes[0] == a && sizes[1] == b;
      E.TwoSizes(st.entries, st.max, a, b);
      var mid := D.State(Evict(st.entries, a), a, st.lastMax);
      SizeDecodes(rules, mid, b, rest, fields, st');
      SizeDecodes(rules, st, a, IntBytes(b, 5, 32) + rest, fields, st');
      assert IntBytes(a, 5, 32) + IntBytes(b, 5, 32) + rest == IntBytes(a, 5, 32) + (IntBytes(b, 5, 32) + rest);
  }

  /** What the two ends must have agreed on for the next block. */
  predicate BlockAllowed(t: Huffman.CodeTable, rules: D.Rules, enc: E.State, lastMax: nat, items: seq<E.Item>)
  {
    var sizes := E.Sizes(enc.update);
    && SizesAllowed(lastMax, sizes)
    && IndexRange(E.ResizedAll(enc.entries, enc.max, sizes).1)
    && ItemsAdmissible(t, rules, None, items)
  }

  /** One block: the decoder, its table equal to the encoder's, yields the header list, and the tables are equal
      again. */
  lemma BlockDecodes(t: Huffman.CodeTable, rules: D.Rules, enc: E.State, lastMax: nat, items: seq<E.Item>)
    requires Undoes(rules, t) && Size(enc.entries) <= enc.max && BlockAllowed(t, rules, enc, lastMax, items)
    ensures E.Leads(None, items)
    ensures var (bytes, enc') := E.BlockBytes(t, enc, items);
            && Size(enc'.entries) <= enc'.max
            && Accepts(rules, D.State(enc.entries, enc.max, lastMax), true, bytes, Fields(None, items),
                       D.State(enc'.entries, enc'.max, lastMax))
  {
    hide Undoes, Size, Accepts, E.ResizedAll, E.SizesBytes, IndexRange, SizesAllowed;
    var sizes := E.Sizes(enc.update);
    var (es, max) := E.ResizedAll(enc.entries, enc.max, sizes);
    E.ResizedIsSmallest(enc.entries, enc.max, sizes);
    ResizedFits(enc, sizes);
    var st := D.State(es, max, lastMax);
    ItemsDecode(t, rules, st, true, None, None, items);
    var (bytes, es') := E.ItemsBytes(t, es, max, None, items);
    SizesDecode(rules, D.State(enc.entries, enc.max, lastMax), enc.update, bytes, Fields(None, items),
        st.(entries := es'));
  }

  lemma ResizedFits(enc: E.State, sizes: seq<nat>)
    requires Size(enc.entries) <= enc.max
    ensures var (es, max) := E.ResizedAll(enc.entries, enc.max, sizes); Size(es) <= max
  {
    hide Size;
  }

  // ----- whole connections

  /** The encoder is told a new size, the decoder's limit changes, or a header list is sent. */
  datatype Event = Resize(val: nat) | Allow(size: nat) | Block(items: seq<E.Item>)

  /** The two ends of one direction of a connection, and what the decoder has handed out. */
  datatype Link = Link(enc: E.State, dec: D.State, queued: Option<nat>, got: seq<seq<Field>>, failed: bool)

  /** The tables agree. */
  predicate InStep(x: Link)
  {
    && !x.failed
    && x.dec.entries == x.enc.entries && x.dec.max == x.enc.max
    && Size(x.enc.entries) <= x.enc.max
  }

  /** `queue_size_update` */
  function Allowed(queued: Option<nat>, size: nat): Option<nat>
  {
    Some(match queued case Some(v) => if v > size then v else size case None => size)
  }

  function Limit(x: Link): nat
  {
    if x.queued.Some? then x.queued.value else x.dec.lastMax
  }

  function Advance(t: Huffman.CodeTable, rules: D.Rules, x: Link, e: Event): Link
    requires e.Block? ==> E.Leads(None, e.items)
  {
    match e
    case Resize(val) => x.(enc := x.enc.(update := E.Queued(x.enc.max, x.enc.update, val)))
    case Allow(size) => x.(queued := Allowed(x.queued, size))
    case Block(items) =>
      var (bytes, enc) := E.BlockBytes(t, x.enc, items);
      var r := D.Run(rules, x.dec.(lastMax := Limit(x)), true, bytes);
      Link(enc, r.state, None, x.got + [FieldsOf(r.headers)], x.failed || r.error.Some? || r.rest != [])
  }

  /** At every block the two ends have agreed on the sizes, and the header lists are admissible. */
  predicate Agreed(t: Huffman.CodeTable, rules: D.Rules, x: Link, events: seq<Event>)
    decreases |events|
  {
    events != [] ==>
      && (events[0].Block? ==>
            BlockAllowed(t, rules, x.enc, Limit(x), events[0].items) && E.Leads(None, events[0].items))
      && Agreed(t, rules, Advance(t, rules, x, events[0]), events[1..])
  }

  function Converse(t: Huffman.CodeTable, rules: D.Rules, x: Link, events: seq<Event>): Link
    requires Agreed(t, rules, x, events)
    decreases |events|
  {
    if events == [] then x else Converse(t, rules, Advance(t, rules, x, events[0]), events[1..])
  }

  /** The header lists sent. */
  function Sent(events: seq<Event>): seq<seq<Field>>
    requires forall i :: 0 <= i < |events| && events[i].Block? ==> E.Leads(None, events[i].items)
  {
    if events == [] then []
    else
      assert events[0].Block? ==> E.Leads(None, events[0].items);
      (if events[0].Block? then [Fields(None, events[0].items)] else []) + Sent(events[1..])
  }

  lemma Advances(t: Huffman.CodeTable, rules: D.Rules, x: Link, e: Event)
    requires Undoes(rules, t) && InStep(x)
    requires e.Block? ==> BlockAllowed(t, rules, x.enc, Limit(x), e.items) && E.Leads(None, e.items)
    ensures var y := Advance(t, rules, x, e);
            InStep(y) && y.got == x.got + if e.Block? then [Fields(None, e.items)] else []
  {
    hide Undoes, Size, E.BlockBytes, D.Run, BlockAllowed;
    if e.Block? {
      BlockDecodes(t, rules, x.enc, Limit(x), e.items);
    }
  }

  lemma {:induction false} AgreedLeads(t: Huffman.CodeTable, rules: D.Rules, x: Link, events: seq<Event>)
    requires Agreed(t, rules, x, events)
    ensures forall i :: 0 <= i < |events| && events[i].Block? ==> E.Leads(None, events[i].items)
    decreases |events|
  {
    hide Advance, BlockAllowed, E.Leads;
    if events != [] {
      AgreedLeads(t, rules, Advance(t, rules, x, events[0]), events[1..]);
      forall i | 0 <= i < |events| && events[i].Block? ensures E.Leads(None, events[i].items) {
        assert i > 0 ==> events[i] == events[1..][i - 1];
      }
    }
  }

  /** Over any sequence of header lists and size changes, the decoder hands out exactly the lists that were sent, and
      the two tables never come apart. */
  lemma {:induction false} Lockstep(t: Huffman.CodeTable, rules: D.Rules, x: Link, events: seq<Event>)
    requires Undoes(rules, t) && InStep(x) && Agreed(t, rules, x, events)
    ensures forall i :: 0 <= i < |events| && events[i].Block? ==> E.Leads(None, events[i].items)
    ensures var y := Converse(t, rules, x, events);
            InStep(y) && y.got == x.got + Sent(events)
    decreases |events|
  {
    hide Undoes, InStep, Advance, BlockAllowed, E.Leads, Fields, Sent;
    AgreedLeads(t, rules, x, events);
    if events == [] {
      NothingSent();
    } else {
      Advances(t, rules, x, events[0]);
      var x1 := Advance(t, rules, x, events[0]);
      Lockstep(t, rules, x1, events[1..]);
      SentHead(x.got, x1.got, events);
    }
  }

  lemma NothingSent()
    ensures Sent([]) == []
  {
  }

  lemma SentHead(got: seq<seq<Field>>, got1: seq<seq<Field>>, events: seq<Event>)
    requires events != [] && forall i :: 0 <= i < |events| && events[i].Block? ==> E.Leads(None, events[i].items)
    requires events[0].Block? ==> E.Leads(None, events[0].items)
    requires got1 == got + if events[0].Block? then [Fields(None, events[0].items)] else []
    ensures got1 + Sent(events[1..]) == got + Sent(events)
  {
    hide E.Leads, Fields;
  }
}
