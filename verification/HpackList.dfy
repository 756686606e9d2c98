/**
 The dynamic table as a plain list, newest entry first (section 2.3.2 of RFC 7541): what eviction, insertion, resizing
 and lookup mean, without any index.
 */
module HpackList {
  import opened Common
  import opened HpackHeader

  type Entries = seq<Header>

  const DYN_OFFSET := 62

  function Size(es: Entries): (r: nat)
    ensures r >= 32 * |es|
  {
    if es == [] then 0 else Size(es[..|es| - 1]) + Len(es[|es| - 1])
  }

  lemma {:induction false} SizeOfFront(h: Header, es: Entries)
    ensures Size([h] + es) == Len(h) + Size(es)
  {
    var s := [h] + es;
    if es == [] {
      assert s[..0] == [];
    } else {
      assert s[..|s| - 1] == [h] + es[..|es| - 1];
      SizeOfFront(h, es[..|es| - 1]);
    }
  }

  /** Drop entries from the back until the rest fits the budget. */
  function Evict(es: Entries, budget: nat): (r: Entries)
    ensures |r| <= |es| && Size(r) <= budget
  {
    if Size(es) <= budget then es else Evict(es[..|es| - 1], budget)
  }

  lemma SizePop(es: Entries)
    requires es != []
    ensures Size(es) == Size(es[..|es| - 1]) + Len(es[|es| - 1])
  {
  }

  lemma EvictPop(es: Entries, budget: nat)
    ensures Size(es) <= budget ==> Evict(es, budget) == es
    ensures Size(es) > budget ==> es != [] && Evict(es, budget) == Evict(es[..|es| - 1], budget)
  {
  }

  /** Eviction keeps the newest entries, as many as fit. */
  lemma {:induction false} EvictKeepsNewest(es: Entries, budget: nat)
    ensures var r := Evict(es, budget);
            r <= es && (r != es ==> |r| < |es| && Size(es[..|r| + 1]) > budget)
  {
    hide Size, Evict;
    EvictPop(es, budget);
    if Size(es) > budget {
      var t := es[..|es| - 1];
      EvictKeepsNewest(t, budget);
      var r := Evict(t, budget);
      if r == t {
        assert es[..|r| + 1] == es;
      } else {
        assert t[..|r| + 1] == es[..|r| + 1];
      }
    }
  }

  /** Evicting twice leaves what evicting to the smaller budget leaves. */
  lemma {:induction false} EvictTwice(es: Entries, a: nat, b: nat)
    ensures Evict(Evict(es, a), b) == Evict(es, if a < b then a else b)
    decreases |es|
  {
    if Size(es) > a {
      EvictTwice(es[..|es| - 1], a, b);
    }
  }

  /** Adding a header: room is made first, and a header larger than the table empties it (section 4.4 of RFC 7541). */
  function Insert(es: Entries, max: nat, h: Header): (r: Entries)
    ensures Size(r) <= max
  {
    if Len(h) > max then []
    else
      SizeOfFront(h, Evict(es, max - Len(h)));
      [h] + Evict(es, max - Len(h))
  }

  /** No two entries with the same name and value. */
  /** An entry larger than the table empties it; any other is in front, and behind it as many of the newest as fit. */
  lemma InsertExact(es: Entries, max: nat, h: Header)
    ensures var r := Insert(es, max, h);
            if Len(h) > max then r == []
            else r != [] && r[0] == h && r[1..] <= es && (r[1..] != es ==> Size([h] + es[..|r|]) > max)
  {
    hide Len;
    if Len(h) <= max {
      var kept := Evict(es, max - Len(h));
      EvictKeepsNewest(es, max - Len(h));
      var r := [h] + kept;
      assert r[1..] == kept;
      if kept != es {
        SizeOfFront(h, es[..|r|]);
      }
    }
  }

  ghost predicate Distinct(es: Entries)
  {
    forall i, j :: 0 <= i < j < |es| ==> !SameField(es[i], es[j])
  }

  /** The newest entry with the given name. */
  function FindName(es: Entries, n: Name): (r: Option<nat>)
    ensures r.Some? ==> r.value < |es| && es[r.value].name == n && forall j :: 0 <= j < r.value ==> es[j].name != n
    ensures r.None? ==> forall j :: 0 <= j < |es| ==> es[j].name != n
  {
    if es == [] then None
    else if es[0].name == n then Some(0)
    else
      match FindName(es[1..], n)
      case None => None
      case Some(i) => Some(i + 1)
  }

  /** The newest entry with the given name and value. */
  function FindField(es: Entries, h: Header): (r: Option<nat>)
    ensures r.Some? ==> r.value < |es| && SameField(es[r.value], h)
    ensures r.None? ==> forall j :: 0 <= j < |es| ==> !SameField(es[j], h)
  {
    if es == [] then None
    else if SameField(es[0], h) then Some(0)
    else
      match FindField(es[1..], h)
      case None => None
      case Some(i) => Some(i + 1)
  }

  /** `table::Index` */
  datatype Index =
    | Indexed(idx: nat, header: Header)
    | Name(idx: nat, header: Header)
    | Inserted(slot: nat)
    | InsertedValue(idx: nat, slot: nat)
    | NotIndexed(header: Header)

  /** `Index::new` */
  function StaticIndex(statik: Option<(nat, bool)>, h: Header): Index
  {
    match statik
    case None => NotIndexed(h)
    case Some((n, full)) => if full then Indexed(n, h) else Name(n, h)
  }

  /** What indexing a header means on the list: which reference the encoder may emit, and the table afterwards. */
  function IndexHeader(es: Entries, max: nat, h: Header): (Index, Entries)
  {
    var statik := IndexStatic(h);
    if SkipValueIndex(h) || (statik.Some? && statik.value.1) || Len(h) * 4 > max * 3 then
      (StaticIndex(statik, h), es)
    else
      IndexDynamic(es, max, h, statik)
  }

  /** A full match is referenced; otherwise the newest entry of the same name is, and the header is added unless its
      value is sensitive. */
  function IndexDynamic(es: Entries, max: nat, h: Header, statik: Option<(nat, bool)>): (Index, Entries)
  {
    match FindField(es, h)
    case Some(i) => (Indexed(i + DYN_OFFSET, h), es)
    case None =>
      match FindName(es, h.name)
      case Some(i) =>
        if IsSensitive(h) then (Name(i + DYN_OFFSET, h), es)
        else (InsertedValue(if statik.Some? then statik.value.0 else i + DYN_OFFSET, 0), Insert(es, max, h))
      case None =>
        if IsSensitive(h) then (StaticIndex(statik, h), es)
        else (if statik.Some? then InsertedValue(statik.value.0, 0) else Inserted(0), Insert(es, max, h))
  }

  lemma FindFieldUnique(es: Entries, h: Header, k: nat)
    requires k < |es| && Distinct(es) && SameField(es[k], h)
    ensures FindField(es, h) == Some(k)
  {
    var i := FindField(es, h).value;
    assert SameField(es[i], es[k]);
  }

  /** Entry i is the newest of its name. */
  predicate IsNewest(es: Entries, n: HpackHeader.Name, i: nat)
  {
    i < |es| && es[i].name == n && forall j :: 0 <= j < i ==> es[j].name != n
  }

  predicate HasName(es: Entries, n: HpackHeader.Name)
  {
    exists i :: 0 <= i < |es| && es[i].name == n
  }

  /** A header that may be indexed is referred to as dynamic entry i exactly when entry i has its name and value. If no
      entry has, a sensitive header refers to the newest entry of its name, also when the static table has the name;
      any other header is added, and refers to the static entry of its name, else to the newest dynamic one, else spells
      its name out. */
  lemma IndexMeans(es: Entries, max: nat, h: Header, i: nat)
    requires Distinct(es) && !SkipValueIndex(h) && Len(h) * 4 <= max * 3
    requires IndexStatic(h).Some? ==> !IndexStatic(h).value.1
    ensures IndexHeader(es, max, h).0 == Indexed(i + DYN_OFFSET, h) <==> i < |es| && SameField(es[i], h)
    ensures (forall j :: 0 <= j < |es| ==> !SameField(es[j], h)) ==>
              var statik := IndexStatic(h);
              && (IsSensitive(h) && IsNewest(es, h.name, i) ==>
                    IndexHeader(es, max, h) == (Name(i + DYN_OFFSET, h), es))
              && (IsSensitive(h) && !HasName(es, h.name) ==>
                    IndexHeader(es, max, h) ==
                    (if statik.Some? then Name(statik.value.0, h) else NotIndexed(h), es))
              && (!IsSensitive(h) ==>
                    && IndexHeader(es, max, h).1 == Insert(es, max, h)
                    && (statik.Some? ==> IndexHeader(es, max, h).0 == InsertedValue(statik.value.0, 0))
                    && (statik.None? && IsNewest(es, h.name, i) ==>
                          IndexHeader(es, max, h).0 == InsertedValue(i + DYN_OFFSET, 0))
                    && (statik.None? && !HasName(es, h.name) ==> IndexHeader(es, max, h).0 == Inserted(0)))
  {
    hide SkipValueIndex, IndexStatic, Insert, Len, FindField, FindName;
    if i < |es| && SameField(es[i], h) {
      FindFieldUnique(es, h, i);
    }
    if IsNewest(es, h.name, i) {
      FindNameFirst(es, h.name, i);
    }
  }

  lemma FindNameFirst(es: Entries, n: HpackHeader.Name, i: nat)
    requires IsNewest(es, n, i)
    ensures FindName(es, n) == Some(i)
  {
    var k := FindName(es, n).value;
    assert k <= i;
  }

  /** A header that a static entry matches in name and value is answered with that entry, whatever the table holds. */
  lemma StaticSettles(es: Entries, max: nat, h: Header, i: nat)
    requires StaticMatch(i, h)
    ensures IndexHeader(es, max, h) == (Indexed(i, h), es)
  {
    hide IndexStatic, SkipValueIndex, Len;
    IndexStaticExact(h);
    assert StaticNamed(i, h);
  }

  /** A header whose value is never indexed, or that is too large for the table, is answered by the static table alone:
      with the first entry of its name, or as not indexed exactly when no entry has its name. The table stays. */
  lemma StaticOnly(es: Entries, max: nat, h: Header)
    requires SkipValueIndex(h) || Len(h) * 4 > max * 3
    requires forall i :: !StaticMatch(i, h)
    ensures IndexHeader(es, max, h).1 == es
    ensures forall i :: StaticNamed(i, h) && (forall j :: StaticNamed(j, h) ==> i <= j) ==>
                          IndexHeader(es, max, h).0 == Name(i, h)
    ensures IndexHeader(es, max, h).0 == NotIndexed(h) <==> forall i :: !StaticNamed(i, h)
    ensures IndexHeader(es, max, h).0.Name? || IndexHeader(es, max, h).0 == NotIndexed(h)
    ensures SkipValueIndex(h) ==> IndexHeader(es, max, h).0.Name?
  {
    hide IndexStatic, SkipValueIndex, Len, StaticMatch, StaticNamed;
    IndexStaticExact(h);
    SkippedNames(h);
  }
}
