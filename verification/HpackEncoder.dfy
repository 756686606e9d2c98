/**
 The HPACK encoder (hpack/encoder.rs): which octets a list of headers becomes, and what queued changes of the table
 size amount to.
 */
module HpackEncoder {
  import opened Common
  import opened HpackHeader
  import opened HpackInt
  import opened HpackList
  import opened HpackTable
  import Huffman
  import RobinHood

  // ----- table size updates

  datatype SizeUpdate = One(size: nat) | Two(min: nat, max: nat)

  /** `update_max_size`: how a further size is combined with what is queued already. */
  function Queued(tableMax: nat, update: Option<SizeUpdate>, val: nat): Option<SizeUpdate>
  {
    match update
    case Some(One(prev)) =>
      if val > prev then
        if prev > tableMax then Some(One(val)) else Some(Two(prev, val))
      else Some(One(val))
    case Some(Two(min, _)) => if val < min then Some(One(val)) else Some(Two(min, val))
    case None => if val != tableMax then Some(One(val)) else None
  }

  function QueuedAll(tableMax: nat, vals: seq<nat>): Option<SizeUpdate>
  {
    if vals == [] then None else Queued(tableMax, QueuedAll(tableMax, vals[..|vals| - 1]), vals[|vals| - 1])
  }

  /** The sizes written at the start of the next header block. */
  function Sizes(update: Option<SizeUpdate>): seq<nat>
  {
    match update
    case None => []
    case Some(One(v)) => [v]
    case Some(Two(a, b)) => [a, b]
  }

  /** The table after resizing to each of the sizes in turn. */
  function ResizedAll(es: Entries, max: nat, sizes: seq<nat>): (Entries, nat)
  {
    if sizes == [] then (es, max)
    else
      var t := ResizedAll(es, max, sizes[..|sizes| - 1]);
      (Evict(t.0, sizes[|sizes| - 1]), sizes[|sizes| - 1])
  }

  function Smallest(bound: nat, vals: seq<nat>): (m: nat)
    ensures m <= bound
  {
    if vals == [] then bound
    else
      var m := Smallest(bound, vals[..|vals| - 1]);
      if vals[|vals| - 1] < m then vals[|vals| - 1] else m
  }

  lemma {:induction false} ResizedIsSmallest(es: Entries, max: nat, sizes: seq<nat>)
    requires Size(es) <= max
    ensures ResizedAll(es, max, sizes) ==
            (Evict(es, Smallest(max, sizes)), if sizes == [] then max else sizes[|sizes| - 1])
  {
    hide Evict;
    if sizes == [] {
      EvictPop(es, max);
    } else {
      ResizedIsSmallest(es, max, sizes[..|sizes| - 1]);
      EvictTwice(es, Smallest(max, sizes[..|sizes| - 1]), sizes[|sizes| - 1]);
    }
  }

  /** What is queued remembers the smallest and the last size. */
  lemma {:induction false} QueueRemembers(tableMax: nat, vals: seq<nat>)
    ensures match QueuedAll(tableMax, vals)
            case None => Smallest(tableMax, vals) == tableMax && (vals != [] ==> vals[|vals| - 1] == tableMax)
            case Some(One(v)) =>
              vals != [] && v == vals[|vals| - 1] && Smallest(tableMax, vals) == if v < tableMax then v else tableMax
            case Some(Two(a, b)) =>
              vals != [] && b == vals[|vals| - 1] && a <= b && a == Smallest(tableMax, vals)
  {
    if vals != [] {
      QueueRemembers(tableMax, vals[..|vals| - 1]);
    }
  }

  /** However many sizes were queued, writing at most two leaves the table that resizing to every one of them in order
      would leave; the last size written is the last one queued, and if any was below the old maximum, the smallest is
      written too (section 4.2 of RFC 7541). */
  lemma Coalescing(es: Entries, max: nat, vals: seq<nat>)
    requires Size(es) <= max
    ensures var sizes := Sizes(QueuedAll(max, vals));
            && |sizes| <= 2
            && ResizedAll(es, max, sizes) == ResizedAll(es, max, vals)
            && Smallest(max, sizes) == Smallest(max, vals)
            && (sizes != [] ==> sizes[|sizes| - 1] == vals[|vals| - 1])
  {
    hide ResizedAll, QueuedAll, Evict;
    var u := QueuedAll(max, vals);
    var sizes := Sizes(u);
    QueueRemembers(max, vals);
    ResizedIsSmallest(es, max, vals);
    ResizedIsSmallest(es, max, sizes);
    SmallestOfSizes(max, u);
  }

  lemma SmallestOfSizes(max: nat, u: Option<SizeUpdate>)
    ensures var m := Smallest(max, Sizes(u));
            match u
            case None => m == max
            case Some(One(v)) => m == if v < max then v else max
            case Some(Two(a, b)) => m == if a < max then if b < a then b else a else if b < max then b else max
  {
    match u
    case None =>
    case Some(One(v)) =>
      assert [v][..0] == [];
    case Some(Two(a, b)) =>
      assert [a, b][..1] == [a] && [a][..0] == [];
      assert Smallest(max, [a]) == if a < max then a else max;
  }

  // ----- representations

  /** `encode_not_indexed`: a literal that is not indexed, its name given by an index. */
  function NotIndexedBytes(t: Huffman.CodeTable, idx: nat, value: Bytes, sensitive: bool): Bytes
  {
    IntBytes(idx, 4, if sensitive then 16 else 0) + StrBytes(t, value)
  }

  /** `encode_not_indexed2`: the same with the name spelt out. */
  function NotIndexed2Bytes(t: Huffman.CodeTable, name: Bytes, value: Bytes, sensitive: bool): Bytes
  {
    [if sensitive then 16 else 0] + StrBytes(t, name) + StrBytes(t, value)
  }

  /** The slot an index points into exists. */
  predicate SlotOk(es: Entries, index: Index)
  {
    (index.Inserted? || index.InsertedValue?) ==> index.slot < |es|
  }

  /** `Table::resolve` */
  function Resolve(es: Entries, index: Index): Header
    requires SlotOk(es, index)
  {
    if index.Inserted? || index.InsertedValue? then es[index.slot] else index.header
  }

  /** `encode_header` */
  function HeaderBytes(t: Huffman.CodeTable, es: Entries, index: Index): Bytes
    requires SlotOk(es, index)
  {
    var h := Resolve(es, index);
    match index
    case Indexed(idx, _) => IntBytes(idx, 7, 128)
    case Name(idx, _) => NotIndexedBytes(t, idx, h.value, IsSensitive(h))
    case Inserted(_) => [64] + StrBytes(t, NameBytes(h.name)) + StrBytes(t, h.value)
    case InsertedValue(idx, _) => IntBytes(idx, 6, 64) + StrBytes(t, h.value)
    case NotIndexed(_) => NotIndexed2Bytes(t, NameBytes(h.name), h.value, IsSensitive(h))
  }

  /** `encode_header_without_name`, with `resolve_idx` */
  function NamelessBytes(t: Huffman.CodeTable, last: Index, value: Bytes, sensitive: bool): Bytes
  {
    match last
    case Indexed(idx, _) => NotIndexedBytes(t, idx, value, sensitive)
    case Name(idx, _) => NotIndexedBytes(t, idx, value, sensitive)
    case Inserted(slot) => NotIndexedBytes(t, slot + DYN_OFFSET, value, sensitive)
    case InsertedValue(_, slot) => NotIndexedBytes(t, slot + DYN_OFFSET, value, sensitive)
    case NotIndexed(h) => NotIndexed2Bytes(t, NameBytes(h.name), value, sensitive)
  }

  /** A header to encode; one without a name repeats the name before it (`Header<Option<HeaderName>>`). */
  datatype Item = Named(header: Header) | Nameless(value: Bytes, sensitive: bool)

  /** The first header of a list must have a name. */
  predicate Leads(last: Option<Index>, items: seq<Item>)
  {
    items != [] && items[0].Nameless? ==> last.Some?
  }

  lemma IndexedSlotOk(es: Entries, max: nat, h: Header)
    ensures SlotOk(IndexHeader(es, max, h).1, IndexHeader(es, max, h).0)
  {
    hide Evict, FindField, FindName, IndexStatic, SkipValueIndex, Size;
  }

  /** What one header adds: its octets, the table, and the index a following nameless header uses. */
  datatype Step = Step(bytes: Bytes, entries: Entries, last: Index)

  function ItemStep(t: Huffman.CodeTable, es: Entries, max: nat, last: Option<Index>, item: Item): Step
    requires item.Nameless? ==> last.Some?
  {
    match item
    case Named(h) =>
      IndexedSlotOk(es, max, h);
      var (index, es1) := IndexHeader(es, max, h);
      Step(HeaderBytes(t, es1, index), es1, index)
    case Nameless(value, sensitive) =>
      Step(NamelessBytes(t, last.value, value, sensitive), es, last.value)
  }

  /** The octets of a list of headers, and the table afterwards. */
  function ItemsBytes(t: Huffman.CodeTable, es: Entries, max: nat, last: Option<Index>, items: seq<Item>)
    : (Bytes, Entries)
    requires Leads(last, items)
    decreases |items|
  {
    if items == [] then ([], es)
    else
      var s := ItemStep(t, es, max, last, items[0]);
      var rest := ItemsBytes(t, s.entries, max, Some(s.last), items[1..]);
      (s.bytes + rest.0, rest.1)
  }

  // ----- how a header is marked

  /** The value must not be kept by any table on the way. */
  predicate Secret(item: Item)
  {
    match item
    case Named(h) => h.name.Field? && h.sensitive
    case Nameless(_, sensitive) => sensitive
  }

  /** Section 6 of RFC 7541: a full index, a literal that is never indexed, or (for a value that is not sensitive) a
      literal that is not indexed or that is added to the table. */
  predicate Marked(item: Item, first: Byte)
  {
    first >= 128 || (if Secret(item) then 16 <= first < 32 else first < 16 || first >= 64)
  }

  /** The header is in one of the tables. */
  ghost predicate Known(es: Entries, h: Header)
  {
    (exists i :: StaticMatch(i, h)) || (exists i :: 0 <= i < |es| && SameField(es[i], h))
  }

  lemma IndexKinds(es: Entries, max: nat, h: Header)
    ensures var (index, es1) := IndexHeader(es, max, h);
            && (index.Indexed? ==> Known(es, h))
            && (index.Indexed? || index.Name? || index.NotIndexed? ==> index.header == h && es1 == es)
            && (index.Inserted? || index.InsertedValue? ==> !IsSensitive(h) && es1 == Insert(es, max, h))
  {
    hide Evict, FindField, FindName, IndexStatic, SkipValueIndex, Size, Insert, StaticMatch;
    IndexStaticExact(h);
  }

  /** A sensitive header is written as a full index or marked as never indexed, and no table gains it. Any other is
      never marked so; it enters the table exactly when it is written with incremental indexing. A header is written as
      a full index only if a table has it, and one without a name never is. */
  lemma ItemMarked(t: Huffman.CodeTable, es: Entries, max: nat, last: Option<Index>, item: Item)
    requires item.Nameless? ==> last.Some?
    ensures var s := ItemStep(t, es, max, last, item);
            && s.bytes != [] && Marked(item, s.bytes[0])
            && (s.bytes[0] >= 128 ==> item.Named? && Known(es, item.header))
            && (64 <= s.bytes[0] < 128 ==> item.Named? && s.entries == Insert(es, max, item.header))
            && (s.bytes[0] < 64 || s.bytes[0] >= 128 ==> s.entries == es)
  {
    hide IndexHeader, StrBytes, Known, Insert;
    match item {
      case Named(h) =>
        IndexedSlotOk(es, max, h);
        IndexKinds(es, max, h);
        HeaderMarked(t, IndexHeader(es, max, h).1, IndexHeader(es, max, h).0);
      case Nameless(value, sensitive) =>
        NamelessMarked(t, last.value, value, sensitive);
    }
  }

  lemma HeaderMarked(t: Huffman.CodeTable, es: Entries, index: Index)
    requires SlotOk(es, index)
    ensures var w := HeaderBytes(t, es, index);
            && w != []
            && match index
               case Indexed(_, _) => w[0] >= 128
               case Inserted(_) => 64 <= w[0] < 128
               case InsertedValue(_, _) => 64 <= w[0] < 128
               case _ => if IsSensitive(index.header) then 16 <= w[0] < 32 else w[0] < 16
  {
    hide IntBytes, StrBytes;
    match index
    case Indexed(idx, _) => IntSpells(idx, 7, 128);
    case Name(idx, h) => IntSpells(idx, 4, if IsSensitive(h) then 16 else 0);
    case InsertedValue(idx, _) => IntSpells(idx, 6, 64);
    case _ =>
  }

  lemma NamelessMarked(t: Huffman.CodeTable, last: Index, value: Bytes, sensitive: bool)
    ensures var w := NamelessBytes(t, last, value, sensitive);
            w != [] && if sensitive then 16 <= w[0] < 32 else w[0] < 16
  {
    hide IntBytes, StrBytes;
    var mark := if sensitive then 16 else 0;
    match last
    case Indexed(idx, _) => IntSpells(idx, 4, mark);
    case Name(idx, _) => IntSpells(idx, 4, mark);
    case Inserted(slot) => IntSpells(slot + DYN_OFFSET, 4, mark);
    case InsertedValue(_, slot) => IntSpells(slot + DYN_OFFSET, 4, mark);
    case _ =>
  }

  function Joined(pieces: seq<Bytes>): Bytes
  {
    if pieces == [] then [] else pieces[0] + Joined(pieces[1..])
  }

  /** The octets are those of the items, one piece after the other, every piece with the mark of its item. */
  ghost predicate MarkedPieces(items: seq<Item>, bytes: Bytes)
  {
    exists pieces: seq<Bytes> ::
      && |pieces| == |items| && Joined(pieces) == bytes
      && forall i :: 0 <= i < |items| ==> pieces[i] != [] && Marked(items[i], pieces[i][0])
  }

  lemma {:induction false} ItemsMarked(t: Huffman.CodeTable, es: Entries, max: nat, last: Option<Index>,
                                       items: seq<Item>)
    requires Leads(last, items)
    ensures MarkedPieces(items, ItemsBytes(t, es, max, last, items).0)
    decreases |items|
  {
    hide ItemStep, Marked;
    if items == [] {
      var none: seq<Bytes> := [];
      assert Joined(none) == [];
    } else {
      var s := ItemStep(t, es, max, last, items[0]);
      ItemMarked(t, es, max, last, items[0]);
      ItemsMarked(t, s.entries, max, Some(s.last), items[1..]);
      var rest := ItemsBytes(t, s.entries, max, Some(s.last), items[1..]).0;
      var pieces: seq<Bytes> :| && |pieces| == |items[1..]| && Joined(pieces) == rest
                                && forall i :: 0 <= i < |items[1..]| ==>
                                                 pieces[i] != [] && Marked(items[1..][i], pieces[i][0]);
      var all := [s.bytes] + pieces;
      assert all[1..] == pieces;
      assert Joined(all) == s.bytes + rest;
      forall i | 0 <= i < |items| ensures all[i] != [] && Marked(items[i], all[i][0]) {
        assert i > 0 ==> items[i] == items[1..][i - 1];
      }
    }
  }

  /** A header block is its size updates and then the items, every one under its mark. */
  lemma BlockMarked(t: Huffman.CodeTable, st: State, items: seq<Item>)
    requires Leads(None, items)
    ensures exists bytes :: BlockBytes(t, st, items).0 == SizesBytes(Sizes(st.update)) + bytes &&
                            MarkedPieces(items, bytes)
  {
    hide MarkedPieces, ItemsBytes, ResizedAll;
    var (es, max) := ResizedAll(st.entries, st.max, Sizes(st.update));
    ItemsMarked(t, es, max, None, items);
  }

  function SizesBytes(sizes: seq<nat>): Bytes
  {
    if sizes == [] then [] else IntBytes(sizes[0], 5, 32) + SizesBytes(sizes[1..])
  }

  datatype State = State(entries: Entries, max: nat, update: Option<SizeUpdate>)

  /** One header block: queued size updates, then the headers (`encode`). */
  function BlockBytes(t: Huffman.CodeTable, st: State, items: seq<Item>): (Bytes, State)
    requires Leads(None, items)
  {
    var sizes := Sizes(st.update);
    var (es, max) := ResizedAll(st.entries, st.max, sizes);
    var (bytes, es') := ItemsBytes(t, es, max, None, items);
    (SizesBytes(sizes) + bytes, State(es', max, None))
  }

  // ----- the encoder object

  predicate HeaderFits(t: Huffman.CodeTable, h: Header)
  {
    StrFits(t, NameBytes(h.name)) && StrFits(t, h.value)
  }

  predicate ItemFits(t: Huffman.CodeTable, item: Item)
  {
    match item
    case Named(h) => HeaderFits(t, h)
    case Nameless(value, _) => StrFits(t, value)
  }

  /** The strings an index refers to can be written. */
  predicate IndexFits(t: Huffman.CodeTable, es: Entries, index: Index)
  {
    SlotOk(es, index) && HeaderFits(t, Resolve(es, index))
  }

  lemma IndexedFits(t: Huffman.CodeTable, es: Entries, max: nat, h: Header)
    requires HeaderFits(t, h)
    ensures IndexFits(t, IndexHeader(es, max, h).1, IndexHeader(es, max, h).0)
    ensures IndexHeader(es, max, h).0.NotIndexed? ==> IndexHeader(es, max, h).0.header == h
  {
    hide Evict, FindField, FindName, IndexStatic, SkipValueIndex, Size, HeaderFits;
  }

  predicate NameFits(t: Huffman.CodeTable, last: Option<Index>)
  {
    last.Some? && last.value.NotIndexed? ==> StrFits(t, NameBytes(last.value.header.name))
  }

  class Encoder {
    const codes: Huffman.CodeTable
    const table: Table
    var sizeUpdate: Option<SizeUpdate>

    ghost predicate Valid()
      reads this, table
    {
      table.Valid() && forall v :: v in Sizes(sizeUpdate) ==> v < RobinHood.WORD
    }

    ghost function Model(): State
      reads this, table
    {
      State(Headers(table.slots), table.maxSize, sizeUpdate)
    }

    constructor (codes: Huffman.CodeTable, hash: HpackHeader.Name -> nat, maxSize: nat)
      requires maxSize < RobinHood.WORD
      ensures Valid() && Model() == State([], maxSize, None) && this.codes == codes && fresh(table)
    {
      this.codes := codes;
      table := new Table(hash, maxSize, 0);
      sizeUpdate := None;
    }

    /** Queues a max size update. */
    method UpdateMaxSize(val: nat)
      requires Valid() && val < RobinHood.WORD
      modifies this
      ensures Valid() && Model() == old(Model()).(update := Queued(old(Model()).max, old(Model()).update, val))
    {
      match sizeUpdate {
        case Some(One(prev)) =>
          if val > prev {
            if prev > table.maxSize {
              sizeUpdate := Some(One(val));
            } else {
              sizeUpdate := Some(Two(prev, val));
            }
          } else {
            sizeUpdate := Some(One(val));
          }
        case Some(Two(min, _)) =>
          if val < min {
            sizeUpdate := Some(One(val));
          } else {
            sizeUpdate := Some(Two(min, val));
          }
        case None =>
          if val != table.maxSize {
            sizeUpdate := Some(One(val));
          }
      }
    }

    /** Encode a set of headers. */
    method Encode(items: seq<Item>) returns (dst: Bytes)
      requires Valid() && Leads(None, items) && forall i :: 0 <= i < |items| ==> ItemFits(codes, items[i])
      modifies this, table
      ensures Valid() && (dst, Model()) == BlockBytes(codes, old(Model()), items)
    {
      hide Consistent, ItemFits, ItemStep, ItemsBytes, SizesBytes, Headers, ResizedAll, NameFits, Size;
      dst := EncodeSizeUpdates();
      ghost var whole := ItemsBytes(codes, Headers(table.slots), table.maxSize, None, items);
      ghost var all := dst + whole.0;
      ghost var max := table.maxSize;
      var last: Option<Index> := None;
      NothingLast(codes);
      assert items[0..] == items;
      for i := 0 to |items|
        invariant table.Valid() && sizeUpdate == None && table.maxSize == max
        invariant Leads(last, items[i..]) && NameFits(codes, last)
        invariant Remaining(codes, Headers(table.slots), max, last, items[i..], dst, all, whole.1)
      {
        ItemsStep(codes, Headers(table.slots), max, last, items, i, dst, all, whole.1);
        ghost var s := ItemStep(codes, Headers(table.slots), max, last, items[i]);
        dst, last := EncodeItem(items[i], last, dst);
        assert last == Some(s.last);
      }
      ItemsDone(codes, Headers(table.slots), max, last, items, dst, all, whole.1);
    }

    method EncodeItem(item: Item, last: Option<Index>, dst: Bytes) returns (r: Bytes, last': Option<Index>)
      requires table.Valid() && ItemFits(codes, item) && NameFits(codes, last) && (item.Nameless? ==> last.Some?)
      modifies table
      ensures table.Valid() && table.maxSize == old(table.maxSize)
      ensures var s := ItemStep(codes, Headers(old(table.slots)), table.maxSize, last, item);
              r == dst + s.bytes && Headers(table.slots) == s.entries && last' == Some(s.last)
      ensures NameFits(codes, last')
    {
      hide Consistent, IndexHeader, HeaderBytes, NamelessBytes, Headers, HeaderFits, StrFits, Resolve, Size;
      match item
      case Named(h) =>
        IndexedFits(codes, Headers(table.slots), table.maxSize, h);
        var index := table.Index(h);
        r := EncodeHeader(index, dst);
        last' := Some(index);
        HeaderNameFits(codes, h);
      case Nameless(value, sensitive) =>
        r := EncodeHeaderWithoutName(last.value, value, sensitive, dst);
        last' := last;
    }

    method EncodeSizeUpdates() returns (dst: Bytes)
      requires Valid()
      modifies this, table
      ensures Valid() && sizeUpdate == None && dst == SizesBytes(Sizes(old(sizeUpdate)))
      ensures (Headers(table.slots), table.maxSize) ==
              ResizedAll(Headers(old(table.slots)), old(table.maxSize), Sizes(old(sizeUpdate)))
    {
      hide Consistent, Evict, Headers, IntBytes, ResizedAll, SizesBytes, Size;
      dst := [];
      var update := sizeUpdate;
      sizeUpdate := None;
      match update {
        case Some(One(val)) =>
          assert val in Sizes(update);
          OneSize(Headers(table.slots), table.maxSize, val);
          table.Resize(val);
          dst := EncodeInt(val, 5, 32, dst);
        case Some(Two(min, max)) =>
          assert min in Sizes(update) && max in Sizes(update);
          TwoSizes(Headers(table.slots), table.maxSize, min, max);
          table.Resize(min);
          table.Resize(max);
          dst := EncodeInt(min, 5, 32, dst);
          dst := EncodeInt(max, 5, 32, dst);
        case None =>
          NoSizes(Headers(table.slots), table.maxSize);
      }
    }

    method EncodeHeader(index: Index, dst: Bytes) returns (r: Bytes)
      requires table.Valid() && IndexFits(codes, Headers(table.slots), index)
      ensures r == dst + HeaderBytes(codes, Headers(table.slots), index)
    {
      hide Consistent, IntBytes, StrBytes, NotIndexedBytes, NotIndexed2Bytes, StrFits, Size, NameBytes;
      match index
      case Indexed(idx, _) =>
        r := EncodeInt(idx, 7, 128, dst);
      case Name(idx, h) =>
        r := EncodeNotIndexed(idx, h.value, IsSensitive(h), dst);
      case Inserted(slot) =>
        var h := table.slots[slot].header;
        r := EncodeStr(codes, NameBytes(h.name), dst + [64]);
        r := EncodeStr(codes, h.value, r);
        Regroup(dst, [64], StrBytes(codes, NameBytes(h.name)));
        Regroup(dst, [64] + StrBytes(codes, NameBytes(h.name)), StrBytes(codes, h.value));
      case InsertedValue(idx, slot) =>
        var h := table.slots[slot].header;
        r := EncodeInt(idx, 6, 64, dst);
        r := EncodeStr(codes, h.value, r);
        Regroup(dst, IntBytes(idx, 6, 64), StrBytes(codes, h.value));
      case NotIndexed(h) =>
        r := EncodeNotIndexed2(NameBytes(h.name), h.value, IsSensitive(h), dst);
    }

    method EncodeHeaderWithoutName(last: Index, value: Bytes, sensitive: bool, dst: Bytes) returns (r: Bytes)
      requires StrFits(codes, value) && NameFits(codes, Some(last))
      ensures r == dst + NamelessBytes(codes, last, value, sensitive)
    {
      hide NotIndexedBytes, NotIndexed2Bytes;
      match last
      case Indexed(idx, _) => r := EncodeNotIndexed(idx, value, sensitive, dst);
      case Name(idx, _) => r := EncodeNotIndexed(idx, value, sensitive, dst);
      case Inserted(slot) => r := EncodeNotIndexed(slot + DYN_OFFSET, value, sensitive, dst);
      case InsertedValue(_, slot) => r := EncodeNotIndexed(slot + DYN_OFFSET, value, sensitive, dst);
      case NotIndexed(h) => r := EncodeNotIndexed2(NameBytes(h.name), value, sensitive, dst);
    }

    method EncodeNotIndexed(name: nat, value: Bytes, sensitive: bool, dst: Bytes) returns (r: Bytes)
      requires StrFits(codes, value)
      ensures r == dst + NotIndexedBytes(codes, name, value, sensitive)
    {
      hide IntBytes, StrBytes;
      if sensitive {
        r := EncodeInt(name, 4, 16, dst);
      } else {
        r := EncodeInt(name, 4, 0, dst);
      }
      r := EncodeStr(codes, value, r);
    }

    method EncodeNotIndexed2(name: Bytes, value: Bytes, sensitive: bool, dst: Bytes) returns (r: Bytes)
      requires StrFits(codes, name) && StrFits(codes, value)
      ensures r == dst + NotIndexed2Bytes(codes, name, value, sensitive)
    {
      hide IntBytes, StrBytes;
      r := dst + [if sensitive then 16 else 0];
      r := EncodeStr(codes, name, r);
      r := EncodeStr(codes, value, r);
    }
  }

  /** What is written plus what the remaining headers will add is the whole. */
  ghost predicate Remaining(t: Huffman.CodeTable, es: Entries, max: nat, last: Option<Index>, items: seq<Item>,
                            dst: Bytes, all: Bytes, final: Entries)
    requires Leads(last, items)
  {
    var rest := ItemsBytes(t, es, max, last, items);
    dst + rest.0 == all && rest.1 == final
  }

  lemma ItemsStep(t: Huffman.CodeTable, es: Entries, max: nat, last: Option<Index>, items: seq<Item>, i: nat,
                  dst: Bytes, all: Bytes, final: Entries)
    requires i < |items| && Leads(last, items[i..]) && Remaining(t, es, max, last, items[i..], dst, all, final)
    ensures items[i].Nameless? ==> last.Some?
    ensures var s := ItemStep(t, es, max, last, items[i]);
            Remaining(t, s.entries, max, Some(s.last), items[i + 1..], dst + s.bytes, all, final)
  {
    hide ItemStep;
    assert items[i..][1..] == items[i + 1..] && items[i..][0] == items[i];
  }

  lemma ItemsDone(t: Huffman.CodeTable, es: Entries, max: nat, last: Option<Index>, items: seq<Item>,
                  dst: Bytes, all: Bytes, final: Entries)
    requires Leads(last, items[|items|..]) && Remaining(t, es, max, last, items[|items|..], dst, all, final)
    ensures dst == all && es == final
  {
    assert items[|items|..] == [];
  }

  lemma NothingLast(t: Huffman.CodeTable)
    ensures NameFits(t, None)
  {
  }

  lemma HeaderNameFits(t: Huffman.CodeTable, h: Header)
    requires HeaderFits(t, h)
    ensures StrFits(t, NameBytes(h.name))
  {
  }

  lemma NoSizes(es: Entries, max: nat)
    ensures ResizedAll(es, max, []) == (es, max) && SizesBytes([]) == []
  {
  }

  lemma OneSize(es: Entries, max: nat, v: nat)
    ensures ResizedAll(es, max, [v]) == (Evict(es, v), v) && SizesBytes([v]) == IntBytes(v, 5, 32)
  {
    assert [v][..0] == [] && [v][1..] == [];
  }

  lemma TwoSizes(es: Entries, max: nat, a: nat, b: nat)
    ensures ResizedAll(es, max, [a, b]) == (Evict(Evict(es, a), b), b)
    ensures SizesBytes([a, b]) == IntBytes(a, 5, 32) + IntBytes(b, 5, 32)
  {
    OneSize(es, max, a);
    OneSize(es, max, b);
    assert [a, b][..1] == [a] && [a, b][1..] == [b];
  }
}
