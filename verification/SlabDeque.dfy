/**
 Many queues of frames in one slab (proto/streams/buffer.rs): each deque is a singly linked chain of slots with its
 head and tail outside the slab. The chains never meet, so every deque behaves like a sequence of its own, and the slab
 holds exactly the queued frames.
 */
module SlabDeque {
  import opened Common

  datatype Slot<T> = Slot(value: T, next: Option<nat>)

  datatype Indices = Indices(head: nat, tail: nat)

  type Slab<T> = map<nat, Slot<T>>

  ghost function Next(chain: seq<nat>, i: nat): Option<nat>
  {
    if i + 1 < |chain| then Some(chain[i + 1]) else None
  }

  /** Every slot of a chain points to the next one, the last to nothing. */
  ghost predicate Linked<T>(slab: Slab<T>, chain: seq<nat>)
  {
    && (forall i :: 0 <= i < |chain| ==> chain[i] in slab)
    && (forall i :: 0 <= i < |chain| ==> slab[chain[i]].next == Next(chain, i))
    && (forall i, j :: 0 <= i < j < |chain| ==> chain[i] != chain[j])
  }

  ghost predicate Ends(d: Option<Indices>, chain: seq<nat>)
  {
    match d
    case None => chain == []
    case Some(x) => chain != [] && x.head == chain[0] && x.tail == chain[|chain| - 1]
  }

  ghost function Values<T>(slab: Slab<T>, chain: seq<nat>): (r: seq<T>)
    requires forall i :: 0 <= i < |chain| ==> chain[i] in slab
    ensures |r| == |chain|
  {
    seq(|chain|, i requires 0 <= i < |chain| => slab[chain[i]].value)
  }

  /** Every slot belongs to one deque and lies on its chain. */
  ghost predicate Owned<T>(slab: Slab<T>, chains: seq<seq<nat>>, owner: map<nat, nat>)
  {
    && owner.Keys == slab.Keys
    && (forall d, i :: 0 <= d < |chains| && 0 <= i < |chains[d]| ==> chains[d][i] in owner && owner[chains[d][i]] == d)
    && (forall k :: k in owner ==> owner[k] < |chains| && k in chains[owner[k]])
  }

  /** The slabs agree on the slots of a chain. */
  ghost predicate Agree<T>(a: Slab<T>, b: Slab<T>, chain: seq<nat>)
  {
    forall i :: 0 <= i < |chain| ==> chain[i] in a && chain[i] in b && a[chain[i]] == b[chain[i]]
  }

  lemma AgreeSame<T>(a: Slab<T>, b: Slab<T>, chain: seq<nat>)
    requires Agree(a, b, chain) && Linked(a, chain)
    ensures Linked(b, chain) && Values(a, chain) == Values(b, chain)
  {
  }

  /** A vacant key. */
  lemma {:induction false} Vacancy(s: set<nat>) returns (n: nat)
    ensures n !in s && forall k :: k in s ==> k < n
    decreases |s|
  {
    if s == {} {
      n := 0;
    } else {
      var k :| k in s;
      var rest := s - {k};
      n := Vacancy(rest);
      n := if k < n then n else k + 1;
      forall j | j in s ensures j < n {
        assert j == k || j in rest;
      }
    }
  }

  class Buffer<T> {
    var slab: Slab<T>
    var deques: seq<Option<Indices>>
    ghost var chains: seq<seq<nat>>
    ghost var owner: map<nat, nat>

    ghost predicate Valid()
      reads this
    {
      && |chains| == |deques|
      && (forall d :: 0 <= d < |chains| ==> Linked(slab, chains[d]) && Ends(deques[d], chains[d]))
      && Owned(slab, chains, owner)
    }

    ghost function Contents(d: nat): seq<T>
      requires Valid() && d < |deques|
      reads this
    {
      Values(slab, chains[d])
    }

    constructor (n: nat)
      ensures Valid() && |deques| == n && slab == map[] && forall d :: 0 <= d < n ==> Contents(d) == []
    {
      slab, owner := map[], map[];
      deques := seq(n, _ => None);
      chains := seq(n, _ => []);
    }

    /** `Slab::insert`: some vacant key. */
    method Insert(slot: Slot<T>) returns (key: nat)
      modifies this`slab
      ensures key !in old(slab) && slab == old(slab)[key := slot]
    {
      ghost var n := Vacancy(slab.Keys);
      assert n !in slab.Keys;
      key :| key !in slab;
      slab := slab[key := slot];
    }

    method PushBack(d: nat, value: T)
      requires Valid() && d < |deques|
      modifies this
      ensures Valid() && |deques| == old(|deques|)
      ensures Contents(d) == old(Contents(d)) + [value]
      ensures forall e :: 0 <= e < |deques| && e != d ==> Contents(e) == old(Contents(e))
    {
      hide Linked, Owned, Values, Agree;
      ghost var was, chain := slab, chains[d];
      AppendLinks(was, chain);
      var key := Insert(Slot(value, None));
      match deques[d] {
        case Some(x) =>
          slab := slab[x.tail := slab[x.tail].(next := Some(key))];
          deques := deques[d := Some(Indices(x.head, key))];
        case None =>
          deques := deques[d := Some(Indices(key, key))];
      }
      AppendLinksTo(was, chain, key, value);
      AppendOwned(was, slab, chains, owner, d, key, true);
      OthersSame(was, slab, chains, d);
      chains, owner := chains[d := chain + [key]], owner[key := d];
    }

    method PushFront(d: nat, value: T)
      requires Valid() && d < |deques|
      modifies this
      ensures Valid() && |deques| == old(|deques|)
      ensures Contents(d) == [value] + old(Contents(d))
      ensures forall e :: 0 <= e < |deques| && e != d ==> Contents(e) == old(Contents(e))
    {
      hide Linked, Owned, Values, Agree;
      ghost var was, chain := slab, chains[d];
      var key := Insert(Slot(value, None));
      match deques[d] {
        case Some(x) =>
          slab := slab[key := slab[key].(next := Some(x.head))];
          deques := deques[d := Some(Indices(key, x.tail))];
        case None =>
          deques := deques[d := Some(Indices(key, key))];
      }
      assert slab == was[key := Slot(value, if chain == [] then None else Some(chain[0]))];
      PrependLinks(was, chain, key, value);
      AppendOwned(was, slab, chains, owner, d, key, false);
      OthersSame(was, slab, chains, d);
      chains, owner := chains[d := [key] + chain], owner[key := d];
    }

    /** Taking the head; the assertion that the last slot points to nothing, and the unwrapping of the link of any other
        slot, never fail. */
    method PopFront(d: nat) returns (r: Option<T>)
      requires Valid() && d < |deques|
      modifies this
      ensures Valid() && |deques| == old(|deques|)
      ensures match r
              case None => old(Contents(d)) == [] && Contents(d) == []
              case Some(v) => old(Contents(d)) != [] && v == old(Contents(d))[0] && Contents(d) == old(Contents(d))[1..]
      ensures forall e :: 0 <= e < |deques| && e != d ==> Contents(e) == old(Contents(e))
    {
      hide Linked, Owned, Values, Agree;
      match deques[d] {
        case None =>
          NoValues(slab, chains[d]);
          r := None;
        case Some(x) =>
          ghost var was, chain := slab, chains[d];
          RemoveLinks(was, chain);
          var slot := slab[x.head];
          slab := slab - {x.head};
          if x.head == x.tail {
            assert slot.next.None?;
            deques := deques[d := None];
          } else {
            assert slot.next.Some?;
            deques := deques[d := Some(Indices(slot.next.value, x.tail))];
          }
          RemoveOwned(was, chains, owner, d);
          OthersSame(was, slab, chains, d);
          chains, owner := chains[d := chain[1..]], owner - {x.head};
          r := Some(slot.value);
      }
    }
  }

  lemma NoValues<T>(slab: Slab<T>, chain: seq<nat>)
    requires chain == []
    ensures Values(slab, chain) == []
  {
  }

  lemma OthersSame<T>(was: Slab<T>, slab: Slab<T>, chains: seq<seq<nat>>, d: nat)
    requires forall e :: 0 <= e < |chains| && e != d ==> Linked(was, chains[e]) && Agree(was, slab, chains[e])
    ensures forall e :: 0 <= e < |chains| && e != d ==>
              && (forall i :: 0 <= i < |chains[e]| ==> chains[e][i] in was && chains[e][i] in slab)
              && Linked(slab, chains[e]) && Values(was, chains[e]) == Values(slab, chains[e])
  {
    hide Linked, Values;
    forall e | 0 <= e < |chains| && e != d
      ensures && (forall i :: 0 <= i < |chains[e]| ==> chains[e][i] in was && chains[e][i] in slab)
              && Linked(slab, chains[e]) && Values(was, chains[e]) == Values(slab, chains[e])
    {
      AgreeSame(was, slab, chains[e]);
    }
  }

  lemma AppendLinks<T>(slab: Slab<T>, chain: seq<nat>)
    requires Linked(slab, chain)
    ensures forall i :: 0 <= i < |chain| ==> chain[i] in slab
  {
  }

  /** The slab after a slot was appended to a chain. */
  ghost function Appended<T>(slab: Slab<T>, chain: seq<nat>, key: nat, value: T): Slab<T>
    requires chain != [] ==> chain[|chain| - 1] in slab
  {
    var s1 := slab[key := Slot(value, None)];
    if chain == [] then s1
    else
      var t := chain[|chain| - 1];
      s1[t := s1[t].(next := Some(key))]
  }

  lemma AppendLinksTo<T>(slab: Slab<T>, chain: seq<nat>, key: nat, value: T)
    requires Linked(slab, chain) && key !in slab
    ensures forall i :: 0 <= i < |chain| ==> chain[i] in slab
    ensures var s := Appended(slab, chain, key, value);
            && Linked(s, chain + [key])
            && (forall i :: 0 <= i < |chain + [key]| ==> (chain + [key])[i] in s)
            && Values(s, chain + [key]) == Values(slab, chain) + [value]
  {
    var s := Appended(slab, chain, key, value);
    var c := chain + [key];
    forall i | 0 <= i < |c| ensures c[i] in s && s[c[i]].next == Next(c, i) {
      if i < |chain| - 1 {
        assert chain[i] != chain[|chain| - 1];
        assert slab[chain[i]].next == Next(chain, i);
      }
    }
  }

  lemma PrependLinks<T>(slab: Slab<T>, chain: seq<nat>, key: nat, value: T)
    requires Linked(slab, chain) && key !in slab
    ensures forall i :: 0 <= i < |chain| ==> chain[i] in slab
    ensures var s := slab[key := Slot(value, if chain == [] then None else Some(chain[0]))];
            && Linked(s, [key] + chain)
            && (forall i :: 0 <= i < |[key] + chain| ==> ([key] + chain)[i] in s)
            && Values(s, [key] + chain) == [value] + Values(slab, chain)
  {
    PrependValues(slab, chain, key, value);
    hide Values;
    var s := slab[key := Slot(value, if chain == [] then None else Some(chain[0]))];
    var c := [key] + chain;
    forall i | 0 <= i < |c| ensures c[i] in s && s[c[i]].next == Next(c, i) {
      if i > 0 {
        assert c[i] == chain[i - 1];
        assert slab[chain[i - 1]].next == Next(chain, i - 1);
      }
    }
  }

  lemma PrependValues<T>(slab: Slab<T>, chain: seq<nat>, key: nat, value: T)
    requires Linked(slab, chain) && key !in slab
    ensures var s := slab[key := Slot(value, if chain == [] then None else Some(chain[0]))];
            && (forall i :: 0 <= i < |chain| ==> chain[i] in slab)
            && (forall i :: 0 <= i < |[key] + chain| ==> ([key] + chain)[i] in s)
            && Values(s, [key] + chain) == [value] + Values(slab, chain)
  {
    hide Next;
    var s := slab[key := Slot(value, if chain == [] then None else Some(chain[0]))];
    var c := [key] + chain;
    forall i | 0 <= i < |c| ensures c[i] in s && s[c[i]].value == ([value] + Values(slab, chain))[i] {
      assert i > 0 ==> c[i] == chain[i - 1];
    }
  }

  lemma RemoveLinks<T>(slab: Slab<T>, chain: seq<nat>)
    requires Linked(slab, chain) && chain != []
    ensures forall i :: 0 <= i < |chain| ==> chain[i] in slab
    ensures if |chain| == 1 then slab[chain[0]].next == None
            else slab[chain[0]].next == Some(chain[1]) && chain[0] != chain[|chain| - 1]
    ensures var s := slab - {chain[0]};
            && Linked(s, chain[1..])
            && (forall i :: 0 <= i < |chain[1..]| ==> chain[1..][i] in s)
            && Values(slab, chain)[0] == slab[chain[0]].value
            && Values(s, chain[1..]) == Values(slab, chain)[1..]
  {
    var s := slab - {chain[0]};
    var c := chain[1..];
    assert slab[chain[0]].next == Next(chain, 0);
    forall i | 0 <= i < |c| ensures c[i] in s && s[c[i]].next == Next(c, i) {
      assert c[i] == chain[i + 1] && chain[0] != chain[i + 1];
      assert slab[chain[i + 1]].next == Next(chain, i + 1);
    }
  }

  /** A slot was added to deque d, and of the old slots only the last of d changed. */
  lemma AppendOwned<T>(was: Slab<T>, slab: Slab<T>, chains: seq<seq<nat>>, owner: map<nat, nat>, d: nat, key: nat,
      back: bool)
    requires d < |chains| && Owned(was, chains, owner) && key !in was && slab.Keys == was.Keys + {key}
    requires forall k :: k in was && !(chains[d] != [] && k == chains[d][|chains[d]| - 1]) ==> slab[k] == was[k]
    ensures Owned(slab, chains[d := if back then chains[d] + [key] else [key] + chains[d]], owner[key := d])
    ensures forall e :: 0 <= e < |chains| && e != d ==> Agree(was, slab, chains[e])
  {
    var c := if back then chains[d] + [key] else [key] + chains[d];
    var chains' := chains[d := c];
    var owner' := owner[key := d];
    forall e, i | 0 <= e < |chains'| && 0 <= i < |chains'[e]|
      ensures chains'[e][i] in owner' && owner'[chains'[e][i]] == e
    {
      if e == d && c[i] != key {
        assert c[i] == chains[d][if back then i else i - 1];
      }
    }
    forall k | k in owner' ensures owner'[k] < |chains'| && k in chains'[owner'[k]] {
      if k == key {
        assert c[if back then |chains[d]| else 0] == key;
      } else if owner[k] == d {
        var i :| 0 <= i < |chains[d]| && chains[d][i] == k;
        assert c[if back then i else i + 1] == k;
      }
    }
  }

  lemma RemoveOwned<T>(was: Slab<T>, chains: seq<seq<nat>>, owner: map<nat, nat>, d: nat)
    requires d < |chains| && Owned(was, chains, owner) && Linked(was, chains[d]) && chains[d] != []
    ensures var slab := was - {chains[d][0]};
            && Owned(slab, chains[d := chains[d][1..]], owner - {chains[d][0]})
            && forall e :: 0 <= e < |chains| && e != d ==> Agree(was, slab, chains[e])
  {
    var h := chains[d][0];
    var c := chains[d][1..];
    var chains' := chains[d := c];
    var owner' := owner - {h};
    forall e, i | 0 <= e < |chains'| && 0 <= i < |chains'[e]|
      ensures chains'[e][i] in owner' && owner'[chains'[e][i]] == e
    {
      if e == d {
        assert c[i] == chains[d][i + 1];
      } else {
        assert owner[chains[e][i]] == e && owner[h] == d;
      }
    }
    forall k | k in owner' ensures owner'[k] < |chains'| && k in chains'[owner'[k]] {
      if owner[k] == d {
        var i :| 0 <= i < |chains[d]| && chains[d][i] == k;
        assert c[i - 1] == k;
      }
    }
    forall e | 0 <= e < |chains| && e != d ensures Agree(was, was - {h}, chains[e]) {
      forall i | 0 <= i < |chains[e]| ensures chains[e][i] in was && chains[e][i] != h {
        assert owner[chains[e][i]] == e && owner[h] == d;
      }
    }
  }

  /** `Buffer::is_empty`: the slab is empty exactly when every deque is. */
  lemma EmptyIffAllEmpty<T>(b: Buffer<T>)
    requires b.Valid()
    ensures |b.slab| == 0 <==> forall d :: 0 <= d < |b.deques| ==> b.deques[d] == None
  {
    if |b.slab| != 0 {
      var k :| k in b.slab.Keys;
      assert k in b.owner;
      var d := b.owner[k];
      assert Ends(b.deques[d], b.chains[d]);
    }
    forall d | 0 <= d < |b.deques| && b.deques[d] != None ensures |b.slab| != 0 {
      assert Ends(b.deques[d], b.chains[d]);
      assert b.chains[d][0] in b.slab.Keys;
    }
  }
}
