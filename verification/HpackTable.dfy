/**
 The HPACK encoder's dynamic table (hpack/table.rs): a deque of slots with a Robin Hood hash index over it. `Table`
 does what the code does, bucket by bucket; every method is proved against the plain list of module HpackList.
 */
module HpackTable {
  import opened Arith
  import opened Common
  import opened HpackHeader
  import opened HpackList
  import opened RobinHood

  datatype Slot = Slot(hash: nat, header: Header, next: Option<nat>)

  ghost function Headers(slots: seq<Slot>): (es: Entries)
    ensures |es| == |slots|
    ensures forall k :: 0 <= k < |slots| ==> es[k] == slots[k].header
  {
    seq(|slots|, k requires 0 <= k < |slots| => slots[k].header)
  }

  /** The wrapped position stored for slot k: it does not change when slots are pushed in front. */
  function Id(k: int, inserted: nat): nat
  {
    (k - inserted) % WORD
  }

  /** The slot a stored position names now. */
  function RealIdx(id: nat, inserted: nat): nat
  {
    (id + inserted) % WORD
  }

  lemma IdRoundTrip(k: int, inserted: nat)
    requires -1 <= k < WORD - 1
    ensures RealIdx(Id(k, inserted), inserted) == if k == -1 then WORD - 1 else k
    ensures Id(k + 1, inserted + 1) == Id(k, inserted)
    ensures Id(k, inserted) < WORD
  {
  }

  lemma RealRoundTrip(id: nat, inserted: nat)
    requires id < WORD
    ensures Id(RealIdx(id, inserted), inserted) == id
  {
  }

  lemma IdIff(id: nat, k: int, inserted: nat)
    requires id < WORD && -1 <= k < WORD - 1
    ensures RealIdx(id, inserted) == (if k == -1 then WORD - 1 else k) <==> id == Id(k, inserted)
  {
    IdRoundTrip(k, inserted);
    RealRoundTrip(id, inserted);
  }

  // ----- chains

  ghost predicate Newest(slots: seq<Slot>, k: nat)
    requires k < |slots|
  {
    forall j :: 0 <= j < k ==> slots[j].header.name != slots[k].header.name
  }

  ghost predicate Oldest(slots: seq<Slot>, k: nat)
    requires k < |slots|
  {
    forall j :: k < j < |slots| ==> slots[j].header.name != slots[k].header.name
  }

  /** Slot j is the next newer slot with the name of slot k. */
  ghost predicate NextNewer(slots: seq<Slot>, k: nat, j: nat)
    requires k < |slots|
  {
    && j < k
    && slots[j].header.name == slots[k].header.name
    && forall m :: j < m < k ==> slots[m].header.name != slots[k].header.name
  }

  ghost predicate LinkOk(slots: seq<Slot>, inserted: nat, k: nat)
    requires k < |slots|
  {
    match slots[k].next
    case None => Newest(slots, k)
    case Some(id) => id < WORD && NextNewer(slots, k, RealIdx(id, inserted))
  }

  /** Every slot links to the next newer slot of its name, so the slots of a name form one chain from the oldest to the
      newest. */
  ghost predicate Linked(slots: seq<Slot>, inserted: nat)
  {
    forall k {:trigger LinkOk(slots, inserted, k)} :: 0 <= k < |slots| ==> LinkOk(slots, inserted, k)
  }

  ghost predicate Hashed(hash: Name -> nat, slots: seq<Slot>)
  {
    forall k :: 0 <= k < |slots| ==> slots[k].hash == hash(slots[k].header.name)
  }

  // ----- heads

  /** A bucket entry is right if it names the oldest slot of some name, or, while a header whose predecessors were all
      evicted is about to be pushed, that future slot. */
  ghost predicate IsHead(p: Pos, slots: seq<Slot>, inserted: nat, pending: Option<nat>)
  {
    var k := RealIdx(p.index, inserted);
    && p.index < WORD
    && if k < |slots| then p.hash == slots[k].hash && Oldest(slots, k)
       else k == WORD - 1 && pending == Some(p.hash)
  }

  /** Each head is in exactly one bucket, and nothing else is in any. */
  ghost predicate HeadsOk(indices: Buckets, slots: seq<Slot>, inserted: nat, pending: Option<nat>)
  {
    forall p: Pos {:trigger multiset(indices)[Some(p)]} ::
      multiset(indices)[Some(p)] == if IsHead(p, slots, inserted, pending) then 1 else 0
  }

  lemma UpdateCount(s: Buckets, q: nat, v: Option<Pos>, p: Pos)
    requires q < |s|
    ensures multiset(s[q := v])[Some(p)] ==
            multiset(s)[Some(p)] - (if s[q] == Some(p) then 1 else 0) + (if v == Some(p) then 1 else 0)
  {
  }

  /** After the last slot is popped, a slot is the oldest of its name if it was before, or if the popped slot linked to
      it. */
  lemma OldestAfterPop(slots: seq<Slot>, k: nat)
    requires k + 1 < |slots|
    ensures Oldest(slots[..|slots| - 1], k) <==> Oldest(slots, k) || NextNewer(slots, |slots| - 1, k)
  {
    var n := |slots| - 1;
    var t := slots[..n];
    if Oldest(t, k) && !Oldest(slots, k) {
      assert slots[n].header.name == slots[k].header.name;
      forall m | k < m < n
        ensures slots[m].header.name != slots[n].header.name
      {
        assert t[m].header.name != t[k].header.name;
      }
    }
    if NextNewer(slots, n, k) {
      forall j | k < j < |t|
        ensures t[j].header.name != t[k].header.name
      {
      }
    }
  }

  lemma NextNewerUnique(slots: seq<Slot>, k: nat, i: nat, j: nat)
    requires k < |slots| && NextNewer(slots, k, i) && NextNewer(slots, k, j)
    ensures i == j
  {
  }

  /** What evict puts in the bucket of the popped slot. */
  ghost function Successor(slots: seq<Slot>, inserted: nat, takeOver: bool): Option<Pos>
    requires slots != []
  {
    var s := slots[|slots| - 1];
    if s.next.Some? then Some(Pos(s.next.value, s.hash))
    else if takeOver then Some(Pos(Id(-1, inserted), s.hash))
    else None
  }

  lemma HeadsAfterPop(hash: Name -> nat, indices: Buckets, slots: seq<Slot>, inserted: nat,
                      pending: Option<nat>, takeOver: bool, q: nat)
    requires slots != [] && |slots| < WORD - 1 && q < |indices|
    requires Hashed(hash, slots) && Linked(slots, inserted) && HeadsOk(indices, slots, inserted, pending)
    requires takeOver ==> pending.None? && slots[|slots| - 1].next.None?
    requires indices[q] == Some(Pos(Id(|slots| - 1, inserted), slots[|slots| - 1].hash))
    ensures HeadsOk(indices[q := Successor(slots, inserted, takeOver)], slots[..|slots| - 1], inserted,
                    if takeOver then Some(slots[|slots| - 1].hash) else pending)
  {
    var t := slots[..|slots| - 1];
    var v := Successor(slots, inserted, takeOver);
    var pending' := if takeOver then Some(slots[|slots| - 1].hash) else pending;
    forall p: Pos
      ensures multiset(indices[q := v])[Some(p)] == if IsHead(p, t, inserted, pending') then 1 else 0
    {
      UpdateCount(indices, q, v, p);
      if p.index < WORD && RealIdx(p.index, inserted) < |slots| - 1 {
        HeadAfterPop(hash, slots, inserted, takeOver, p);
      } else {
        OtherHeadAfterPop(slots, inserted, takeOver, p);
      }
    }
  }

  lemma HeadAfterPop(hash: Name -> nat, slots: seq<Slot>, inserted: nat, takeOver: bool, p: Pos)
    requires slots != [] && |slots| < WORD - 1
    requires Hashed(hash, slots) && Linked(slots, inserted)
    requires p.index < WORD && RealIdx(p.index, inserted) < |slots| - 1
    ensures var k, n := RealIdx(p.index, inserted), |slots| - 1;
            && p.index != Id(n, inserted)
            && (Oldest(slots[..n], k) && p.hash == slots[k].hash <==>
                (Oldest(slots, k) && p.hash == slots[k].hash) || Successor(slots, inserted, takeOver) == Some(p))
            && (Oldest(slots, k) ==> Successor(slots, inserted, takeOver) != Some(p))
  {
    var k, n := RealIdx(p.index, inserted), |slots| - 1;
    IdRoundTrip(n, inserted);
    IdRoundTrip(-1, inserted);
    RealRoundTrip(p.index, inserted);
    OldestAfterPop(slots, k);
    assert LinkOk(slots, inserted, n);
    var next := slots[n].next;
    if next.Some? {
      RealRoundTrip(next.value, inserted);
      if NextNewer(slots, n, k) {
        NextNewerUnique(slots, n, k, RealIdx(next.value, inserted));
      }
    }
  }

  lemma OtherHeadAfterPop(slots: seq<Slot>, inserted: nat, takeOver: bool, p: Pos)
    requires slots != [] && |slots| < WORD - 1 && Linked(slots, inserted)
    requires p.index >= WORD || RealIdx(p.index, inserted) >= |slots| - 1
    requires takeOver ==> slots[|slots| - 1].next.None?
    ensures var n := |slots| - 1;
            && (p.index < WORD && RealIdx(p.index, inserted) == n ==> p.index == Id(n, inserted))
            && (p.index == Id(n, inserted) ==> RealIdx(p.index, inserted) == n)
            && (Successor(slots, inserted, takeOver) == Some(p) <==>
                takeOver && p.index == Id(-1, inserted) && p.hash == slots[n].hash)
            && (p.index < WORD ==> (RealIdx(p.index, inserted) == WORD - 1 <==> p.index == Id(-1, inserted)))
            && Id(-1, inserted) < WORD
  {
    var n := |slots| - 1;
    IdRoundTrip(n, inserted);
    IdRoundTrip(-1, inserted);
    if p.index < WORD {
      IdIff(p.index, n, inserted);
      IdIff(p.index, -1, inserted);
    }
    assert LinkOk(slots, inserted, n);
    if slots[n].next.Some? {
      IdIff(slots[n].next.value, RealIdx(slots[n].next.value, inserted), inserted);
    }
  }

  /** The bucket of the last slot: it is always the oldest of its name. */
  lemma LastIsHead(indices: Buckets, slots: seq<Slot>, inserted: nat, pending: Option<nat>) returns (q: nat)
    requires slots != [] && |slots| < WORD - 1 && HeadsOk(indices, slots, inserted, pending)
    ensures q < |indices| && indices[q] == Some(Pos(Id(|slots| - 1, inserted), slots[|slots| - 1].hash))
  {
    q := HeadBucket(indices, slots, inserted, pending, |slots| - 1);
  }

  lemma HeadBucket(indices: Buckets, slots: seq<Slot>, inserted: nat, pending: Option<nat>, k: nat)
    returns (q: nat)
    requires k < |slots| < WORD - 1 && Oldest(slots, k) && HeadsOk(indices, slots, inserted, pending)
    ensures q < |indices| && indices[q] == Some(Pos(Id(k, inserted), slots[k].hash))
  {
    var p := Pos(Id(k, inserted), slots[k].hash);
    IdRoundTrip(k, inserted);
    assert multiset(indices)[Some(p)] == 1;
    assert Some(p) in indices;
    q :| 0 <= q < |indices| && indices[q] == Some(p);
  }

  lemma BucketIsHead(indices: Buckets, slots: seq<Slot>, inserted: nat, pending: Option<nat>, q: nat)
    requires HeadsOk(indices, slots, inserted, pending) && q < |indices| && indices[q].Some?
    ensures IsHead(indices[q].value, slots, inserted, pending)
  {
    assert indices[q] in multiset(indices);
    assert multiset(indices)[Some(indices[q].value)] > 0;
  }

  /** Two buckets never hold the same entry. */
  lemma BucketsDiffer(indices: Buckets, slots: seq<Slot>, inserted: nat, pending: Option<nat>, q: nat, r: nat)
    requires HeadsOk(indices, slots, inserted, pending) && q < |indices| && r < |indices| && q != r
    requires indices[q].Some?
    ensures indices[q] != indices[r]
  {
    var p := indices[q].value;
    var t := indices[q := None];
    UpdateCount(indices, q, None, p);
    assert t[r] == indices[r];
    assert multiset(t)[t[r]] >= 1;
  }

  /** Fewer heads than buckets: some bucket is empty. */
  lemma EmptyBucket(indices: Buckets, slots: seq<Slot>, inserted: nat, pending: Option<nat>) returns (a: nat)
    requires HeadsOk(indices, slots, inserted, pending) && |slots| < WORD - 1
    requires |slots| + (if pending.Some? then 1 else 0) < |indices|
    ensures a < |indices| && indices[a].None?
  {
    if forall q :: 0 <= q < |indices| ==> indices[q].Some? {
      var n := |slots| + (if pending.Some? then 1 else 0);
      ghost var f := seq(|indices|, q requires 0 <= q < |indices| =>
        (var k := RealIdx(indices[q].value.index, inserted); if k < |slots| then k else |slots|));
      forall q | 0 <= q < |indices|
        ensures f[q] < n
      {
        BucketIsHead(indices, slots, inserted, pending, q);
      }
      forall q, r | 0 <= q < r < |indices|
        ensures f[q] != f[r]
      {
        BucketIsHead(indices, slots, inserted, pending, q);
        BucketIsHead(indices, slots, inserted, pending, r);
        BucketsDiffer(indices, slots, inserted, pending, q, r);
        RealRoundTrip(indices[q].value.index, inserted);
        RealRoundTrip(indices[r].value.index, inserted);
      }
      Pigeonhole(f, n);
      assert false;
    }
    a :| 0 <= a < |indices| && indices[a].None?;
  }

  lemma {:induction false} Pigeonhole(f: seq<nat>, n: nat)
    requires forall i :: 0 <= i < |f| ==> f[i] < n
    requires forall i, j :: 0 <= i < j < |f| ==> f[i] != f[j]
    ensures |f| <= n
    decreases n
  {
    assert |f| > 0 ==> f[0] < n;
    if n == 0 {
    } else if i :| 0 <= i < |f| && f[i] == n - 1 {
      var g := f[..i] + f[i + 1..];
      Pigeonhole(g, n - 1);
    } else {
      Pigeonhole(f, n - 1);
    }
  }

  /** Changing only the index of an occupant leaves every distance alone. */
  lemma SameHashKeeps(s: Buckets, q: nat, id: nat)
    requires |s| > 0 && q < |s| && s[q].Some?
    ensures var s' := s[q := Some(Pos(id, s[q].value.hash))];
            forall i: int {:trigger E(s', i)} :: E(s', i) == E(s, i)
    ensures Ordered(s) ==> Ordered(s[q := Some(Pos(id, s[q].value.hash))])
  {
    var s' := s[q := Some(Pos(id, s[q].value.hash))];
    forall i: int
      ensures E(s', i) == E(s, i)
    {
    }
    if Ordered(s) {
      forall i: int
        ensures Slope(s', i)
      {
        assert Slope(s, i);
      }
    }
  }

  /** `vec![None; n]` */
  function EmptyBuckets(n: nat): (s: Buckets)
    ensures |s| == n && forall i :: 0 <= i < n ==> s[i] == None
  {
    seq(n, _ => None)
  }

  /** The probe loops' `probe += 1`, back to 0 at the end of the array. */
  function NextBucket(probe: nat, len: nat): (r: nat)
    requires probe < len
    ensures r < len
  {
    if probe + 1 < len then probe + 1 else 0
  }

  function PrevBucket(probe: nat, len: nat): (r: nat)
    requires probe < len
    ensures r < len
  {
    if probe > 0 then probe - 1 else len - 1
  }

  lemma NextIsMod(probe: nat, i: int, len: nat)
    requires probe < len && probe == i % len
    ensures NextBucket(probe, len) == (i + 1) % len
    ensures PrevBucket(probe, len) == (i - 1) % len
  {
    ModSucc(i, len);
    ModSucc(i - 1, len);
  }

  ghost predicate Consistent(hash: Name -> nat, mask: nat, indices: Buckets, slots: seq<Slot>, inserted: nat,
                             pending: Option<nat>)
  {
    && inserted < WORD
    && 32 * |slots| <= WORD
    && Hashed(hash, slots)
    && Linked(slots, inserted)
    && Distinct(Headers(slots))
    && |slots| + (if pending.Some? then 1 else 0) <= UsableCapacity(|indices|)
    && (|indices| > 0 ==> Sized(|indices|, mask) && Ordered(indices) && HeadsOk(indices, slots, inserted, pending))
  }

  class Table {
    const hash: Name -> nat
    var mask: nat
    var indices: Buckets
    var slots: seq<Slot>
    var inserted: nat
    var size: nat
    var maxSize: nat

    /** Everything but the byte count. `pending` is the hash of a header about to be pushed whose bucket was taken over
        from its last evicted predecessor. */
    ghost predicate Core(pending: Option<nat>)
      reads this
    {
      Consistent(hash, mask, indices, slots, inserted, pending)
    }

    ghost predicate Valid()
      reads this
    {
      Core(None) && size == Size(Headers(slots)) <= maxSize < WORD
    }

    constructor (hash: Name -> nat, maxSize: nat, capacity: nat)
      requires maxSize < WORD && RawCapacity(capacity) <= Pow2(63)
      ensures Valid() && Headers(slots) == [] && this.maxSize == maxSize && this.hash == hash
    {
      this.hash := hash;
      slots := [];
      inserted, size := 0, 0;
      this.maxSize := maxSize;
      if capacity == 0 {
        mask := 0;
        indices := [];
      } else {
        var raw := NextPowerOfTwo(RawCapacity(capacity), 0);
        var cap := if raw < 8 then 8 else raw;
        mask := cap - 1;
        indices := EmptyBuckets(cap);
      }
      new;
      EmptyConsistent(hash, mask, indices, capacity);
    }

    /** Makes room for one more bucket entry. */
    method ReserveOne()
      requires Core(None)
      modifies this`mask, this`indices
      ensures Core(None) && |slots| < UsableCapacity(|indices|) && |indices| > 0
    {
      var len := |slots|;
      if len == UsableCapacity(|indices|) {
        if len == 0 {
          mask := 8 - 1;
          indices := EmptyBuckets(8);
          FirstAllocation(hash, slots, inserted);
        } else {
          Grow();
        }
      }
    }

    /** Changes the maximum size, evicting what no longer fits. */
    method Resize(size: nat)
      requires Valid() && size < WORD
      modifies this
      ensures Valid() && maxSize == size
      ensures Headers(slots) == Evict(Headers(old(slots)), size)
    {
      hide Consistent, SlotBytes, Fit, Headers, Evict, Size, Below, IsTail, Pending;
      ghost var before := slots;
      maxSize := size;
      ResizeStart(hash, mask, indices, slots, inserted, size);
      if size == 0 {
        this.size := 0;
        indices := EmptyBuckets(|indices|);
        slots := [];
        inserted := 0;
        Cleared(hash, mask, old(indices), before, old(inserted));
      } else {
        var _ := Converge(None, None, 0);
      }
    }

    /** How a header is to be written, and what becomes of the table. */
    method Index(header: Header) returns (r: Index)
      requires Valid()
      modifies this
      ensures Valid() && maxSize == old(maxSize)
      ensures (r, Headers(slots)) == IndexHeader(Headers(old(slots)), maxSize, header)
    {
      var statik := IndexStatic(header);
      if SkipValueIndex(header) {
        return StaticIndex(statik, header);
      }
      if statik.Some? && statik.value.1 {
        return Indexed(statik.value.0, header);
      }
      if Len(header) * 4 > maxSize * 3 {
        return StaticIndex(statik, header);
      }
      r := IndexInTable(header, statik);
    }

    /** `index_dynamic` */
    method IndexInTable(header: Header, statik: Option<(nat, bool)>) returns (r: Index)
      requires Valid() && Len(header) * 4 <= maxSize * 3
      modifies this`mask, this`indices, this`slots, this`size, this`inserted
      ensures Valid()
      ensures (r, Headers(slots)) == IndexDynamic(Headers(old(slots)), maxSize, header, statik)
    {
      hide Consistent, IndexDynamic, Headers, Size, UsableCapacity, Seat, NewestOf, Oldest;
      if Len(header) + size < maxSize || !IsSensitive(header) {
        ReserveOne();
      }
      if |indices| == 0 {
        NoBuckets(hash, mask, indices, slots, inserted, maxSize, header, statik);
        return StaticIndex(statik, header);
      }
      var h := hash(header.name);
      var found, probe, dist := Search(header.name, h);
      if found.Some? {
        r := IndexOccupied(header, h, found.value, statik);
      } else {
        r := IndexVacant(header, h, dist, probe, statik);
      }
    }

    /** The buckets behind an emptied one move back, up to the first that is empty or where it belongs. */
    method RemovePhaseTwo(probe: nat, ghost was: Buckets)
      requires Sized(|indices|, mask) && probe < |indices| == |was|
      requires Ordered(was) && was[probe].Some? && None in was
      requires indices == was[probe := None]
      modifies this`indices
      ensures |indices| == |was| && Ordered(indices)
      ensures multiset(indices) == old(multiset(indices))
      ensures Below(indices, was)
    {
      hide Shifting, Below, Ordered, E, Sized;
      var lastProbe := probe;
      var p := NextBucket(probe, |indices|);
      ghost var i: int := probe;
      ghost var gap := GapAfter(was, probe);
      ModSmall(probe, |was|);
      NextIsMod(probe, probe, |was|);
      SizedAtLeast(|was|, mask);
      ShiftStart(was, probe);
      while true
        invariant |indices| == |was| && Shifting(indices, was, probe, i)
        invariant lastProbe == i % |was| && p == (i + 1) % |was|
        invariant i < probe + gap
        invariant multiset(indices) == old(multiset(indices))
        decreases probe + gap - i
      {
        ShiftRound(indices, was, mask, probe, i, gap);
        if indices[p].None? {
          break;
        }
        if ProbeDistance(mask, indices[p].value.hash, p) == 0 {
          break;
        }
        indices := indices[lastProbe := indices[p]][p := None];
        lastProbe := p;
        p := NextBucket(p, |indices|);
        i := i + 1;
      }
    }

    /** Removes the oldest header. `prevIdx` is the position of the header a pending insertion will be linked from; if
        that header is the one removed, the pending header takes its bucket. */
    method EvictLast(prevIdx: Option<nat>, ghost pending: Option<nat>) returns (ghost pending': Option<nat>)
      requires slots != [] && Core(pending)
      requires prevIdx == Some(Id(|slots| - 1, inserted)) ==> pending.None?
      requires size >= Len(slots[|slots| - 1].header)
      modifies this`indices, this`slots, this`size
      ensures slots == old(slots)[..|old(slots)| - 1]
      ensures size == old(size) - Len(old(slots)[|old(slots)| - 1].header)
      ensures pending' == if TakesOver(old(slots), inserted, prevIdx) then Some(old(slots)[|old(slots)| - 1].hash)
                          else pending
      ensures Core(pending') && |indices| == |old(indices)| && Below(indices, old(indices))
    {
      hide Consistent, Below, Ordered, HeadsOk, Sized, UsableCapacity, Linked, Hashed, Distinct, Headers, Successor,
           TakesOver;
      ghost var was, before := indices, slots;
      var posIdx := WrappingSub(|slots| - 1, inserted);
      EvictStart(hash, mask, was, before, inserted, pending);

      var slot := slots[|slots| - 1];
      slots := slots[..|slots| - 1];
      size := size - Len(slot.header);

      var probe := FindEvicted(posIdx, slot.hash, before, pending);
      Relink(probe, slot, prevIdx);
      pending' := if TakesOver(before, inserted, prevIdx) then Some(slot.hash) else pending;
      EvictEnd(hash, mask, was, indices, before, inserted, pending, prevIdx, probe);
    }

    /** Hands the bucket of an evicted slot to its successor, or closes the gap. */
    method Relink(probe: nat, slot: Slot, prevIdx: Option<nat>)
      requires Sized(|indices|, mask) && Ordered(indices) && None in indices
      requires probe < |indices| && indices[probe].Some? && indices[probe].value.hash == slot.hash
      modifies this`indices
      ensures |indices| == |old(indices)| && Ordered(indices) && Below(indices, old(indices))
      ensures multiset(indices) == multiset(old(indices)[probe :=
        if slot.next.Some? then Some(Pos(slot.next.value, slot.hash))
        else if prevIdx == Some(old(indices)[probe].value.index) then Some(Pos(Id(-1, inserted), slot.hash))
        else None])
    {
      ghost var was := indices;
      var pos := indices[probe].value;
      if slot.next.Some? {
        SameHashKeeps(indices, probe, slot.next.value);
        indices := indices[probe := Some(Pos(slot.next.value, pos.hash))];
      } else if prevIdx == Some(pos.index) {
        SameHashKeeps(indices, probe, WrappingSub(0, inserted + 1));
        indices := indices[probe := Some(Pos(WrappingSub(0, inserted + 1), pos.hash))];
      } else {
        indices := indices[probe := None];
        RemovePhaseTwo(probe, was);
      }
    }

    /** Evicts until the byte count fits. `tail` is the slot of `prevIdx`, `extra` the length of a header that is
        counted but not yet pushed. */
    method Converge(prevIdx: Option<nat>, ghost tail: Option<nat>, ghost extra: nat) returns (evicted: bool)
      requires Core(None) && size == SlotBytes(slots, |slots|) + extra && extra <= maxSize
      requires IsTail(slots, inserted, tail, prevIdx) && |slots| < WORD - 1
      modifies this`indices, this`slots, this`size
      ensures slots == old(slots)[..Fit(old(slots), |old(slots)|, maxSize - extra)]
      ensures size == SlotBytes(old(slots), |slots|) + extra <= maxSize
      ensures Core(Pending(old(slots), |slots|, tail))
      ensures |indices| == |old(indices)| && (|indices| > 0 ==> Below(indices, old(indices)))
      ensures !evicted ==> indices == old(indices) && slots == old(slots)
    {
      hide Consistent, Below, IsTail, TakesOver, Pending, SlotBytes, Fit, Id;
      evicted := false;
      ghost var before, was := slots, indices;
      ghost var budget := maxSize - extra;
      if |was| > 0 {
        BelowRefl(was);
      }
      ConvergeStart(hash, mask, indices, slots, inserted, tail, prevIdx, budget);
      while size > maxSize
        invariant slots <= before && |indices| == |was| && (|indices| > 0 ==> Below(indices, was))
        invariant size == SlotBytes(before, |slots|) + extra
        invariant Fit(before, |slots|, budget) == Fit(before, |before|, budget)
        invariant Core(Pending(before, |slots|, tail))
        invariant !evicted ==> indices == was && slots == before
        decreases |slots|
      {
        evicted := true;
        ghost var mid := indices;
        ConvergeRound(hash, mask, indices, before, slots, inserted, tail, prevIdx, budget);
        ghost var _ := EvictLast(prevIdx, Pending(before, |slots|, tail));
        BelowTrans(indices, mid, was);
      }
      ConvergeEnd(before, |slots|, budget);
    }

    /** Puts an entry at `probe` and shifts the run behind it one bucket forward. */
    method PlaceAndShift(probe: nat, pos: Pos)
      requires Sized(|indices|, mask) && Ordered(indices) && None in indices && probe < |indices|
      requires E(indices, probe) <= Home(indices, pos, probe) <= E(indices, probe - 1) + 1
      modifies this`indices
      ensures |indices| == |old(indices)| && Ordered(indices)
      ensures multiset(indices) == multiset(old(indices)) - multiset{None} + multiset{Some(pos)}
    {
      hide *;
      ghost var was := indices;
      ghost var gap := GapFrom(was, probe);
      SizedAtLeast(|was|, mask);
      CarryStart(was, pos, probe, gap);
      var prev := indices[probe];
      indices := indices[probe := Some(pos)];
      var p := probe;
      ghost var i: int := probe;
      while prev.Some?
        invariant p < |indices| == |was| && p == i % |was| && i <= probe + gap
        invariant Carrying(indices, was, prev, pos, probe, i, gap)
        decreases probe + gap - i
      {
        CarryRound(indices, was, prev, pos, probe, i, gap);
        p := NextBucket(p, |indices|);
        var displaced := indices[p];
        indices := indices[p := prev];
        prev := displaced;
        i := i + 1;
      }
      CarryEnd(indices, was, pos, probe, i, gap);
    }

    /** After evictions have shifted buckets back, the place for a header may have moved back too. */
    method WalkToSeat(h: nat, probe0: nat, dist0: nat) returns (probe: nat, ghost dist: nat)
      requires Sized(|indices|, mask) && dist0 < |indices| && probe0 == (h + dist0) % |indices|
      requires E(indices, h + dist0) < dist0
      ensures dist < |indices| && probe == (h + dist) % |indices| && Seat(indices, h, dist)
    {
      probe := probe0;
      var d := dist0;
      while d != 0
        invariant d < |indices| && probe == (h + d) % |indices| && E(indices, h + d) < d
        decreases d
      {
        var back := PrevBucket(probe, |indices|);
        NextIsMod(probe, h + d, |indices|);
        assert indices[back] == At(indices, h + d - 1);
        if indices[back].Some? {
          DistanceAt(indices, mask, h + d - 1);
          if ProbeDistance(mask, indices[back].value.hash, back) >= d - 1 {
            break;
          }
        }
        probe := back;
        d := d - 1;
      }
      dist := d;
    }

    /** No header of this name is in the table. */
    method IndexVacant(header: Header, h: nat, dist0: nat, probe0: nat, statik: Option<(nat, bool)>) returns (r: Index)
      requires Valid() && |indices| > 0 && h == hash(header.name) && NewestOf(slots, header.name, None)
      requires Len(header) * 4 <= maxSize * 3
      requires !IsSensitive(header) ==> |slots| < UsableCapacity(|indices|)
      requires dist0 < |indices| && probe0 == (h + dist0) % |indices| && Seat(indices, h, dist0)
      modifies this`indices, this`slots, this`size, this`inserted
      ensures Valid()
      ensures (r, Headers(slots)) == IndexDynamic(Headers(old(slots)), maxSize, header, statik)
    {
      hide Consistent, NewestOf, Below, SlotBytes, Fit, Seat, E, Headers, IndexDynamic, UsableCapacity, Size, Insert,
          Sized, StaticIndex, IsTail;
      ghost var before, was := slots, indices;
      VacantSpec(before, maxSize, header, statik);
      if IsSensitive(header) {
        return StaticIndex(statik, header);
      }
      VacantStart(hash, mask, indices, slots, inserted);
      size := size + Len(header);
      var evicted := Converge(None, None, Len(header));
      var probe := probe0;
      ghost var dist := dist0;
      if evicted {
        SeatBelow(indices, was, h, dist0);
        probe, dist := WalkToSeat(h, probe0, dist0);
      }
      KeptPushed(before, slots, maxSize, Slot(h, header, None));
      KeptVacant(before, |slots|, header.name);
      InsertAt(header, h, probe, dist);
      if statik.Some? {
        r := InsertedValue(statik.value.0, 0);
      } else {
        r := Inserted(0);
      }
    }

    /** Follows the chain of a name from its oldest slot, looking for a value. */
    method FindValue(header: Header, head: nat) returns (index: nat, realIdx: nat, found: bool)
      requires Linked(slots, inserted) && head < WORD && RealIdx(head, inserted) < |slots| < WORD - 1
      requires var k := RealIdx(head, inserted); slots[k].header.name == header.name && Oldest(slots, k)
      ensures index < WORD && realIdx == RealIdx(index, inserted) < |slots|
      ensures slots[realIdx].header.name == header.name
      ensures found ==> SameField(slots[realIdx].header, header)
      ensures !found ==> Newest(slots, realIdx) && slots[realIdx].next.None?
      ensures !found ==> forall j :: 0 <= j < |slots| ==> !SameField(slots[j].header, header)
    {
      index := head;
      found := false;
      while true
        invariant index < WORD && RealIdx(index, inserted) < |slots|
        invariant slots[RealIdx(index, inserted)].header.name == header.name
        invariant forall j :: RealIdx(index, inserted) < j < |slots| ==> !SameField(slots[j].header, header)
        decreases RealIdx(index, inserted)
      {
        realIdx := RealIdx(index, inserted);
        assert LinkOk(slots, inserted, realIdx);
        if slots[realIdx].header.value == header.value {
          found := true;
          return;
        }
        if slots[realIdx].next.None? {
          return;
        }
        index := slots[realIdx].next.value;
      }
    }

    /** Doubles the bucket array. Entries are visited from the first one that sits in its desired bucket, in an order in
        which each can simply take the first empty bucket. */
    method Grow()
      requires Core(None) && slots != [] && 2 * |indices| < WORD
      modifies this`mask, this`indices
      ensures |indices| == 2 * |old(indices)| && Core(None)
    {
      hide Consistent, Ordered, Sized, Regrown, HeadsOk, E, UsableCapacity, FirstIdeal;
      GrowStart(hash, mask, indices, slots, inserted);
      ghost var was := indices;
      var firstIdeal := FindIdeal();
      var oldIndices := indices[firstIdeal..] + indices[..firstIdeal];
      var newRawCap := 2 * |indices|;
      SizedDouble(|indices|, mask);
      RegrownStart(was, firstIdeal);
      indices := EmptyBuckets(newRawCap);
      mask := newRawCap - 1;
      var t := 0;
      while t < |oldIndices|
        invariant t <= |oldIndices| && |indices| == 2 * |was| && mask == newRawCap - 1
        invariant Regrown(indices, was, firstIdeal, t)
      {
        ReinsertEntryInOrder(oldIndices[t], was, firstIdeal, t);
        t := t + 1;
      }
      GrowEnd(hash, old(mask), was, indices, mask, slots, inserted, firstIdeal);
    }

    /** The first entry in its desired bucket: the start of a cluster. */
    method FindIdeal() returns (f: nat)
      requires Sized(|indices|, mask) && Ordered(indices) && None in indices
      requires exists p: Pos :: Some(p) in indices
      ensures f < |indices| && FirstIdeal(indices, f)
    {
      hide Ordered, FirstIdeal, Sized, E;
      ghost var ideal := IdealExists(indices);
      f := 0;
      while true
        invariant f <= ideal < |indices|
        decreases ideal - f
      {
        IdealTest(indices, mask, f);
        if indices[f].Some? && ProbeDistance(mask, indices[f].value.hash, f) == 0 {
          return;
        }
        f := f + 1;
      }
    }

    /** Finds the first empty bucket and inserts there. */
    method ReinsertEntryInOrder(pos: Option<Pos>, ghost was: Buckets, ghost f: nat, ghost t: nat)
      requires Sized(|indices|, mask) && |indices| == 2 * |was| && |was| >= 8 && t < |was|
      requires f < |was| && FirstIdeal(was, f) && Ordered(was)
      requires pos == (was[f..] + was[..f])[t]
      requires Regrown(indices, was, f, t)
      modifies this`indices
      ensures |indices| == |old(indices)| && Regrown(indices, was, f, t + 1)
    {
      hide *;
      if pos.Some? {
        ghost var s := indices;
        ghost var start, limit := ScanStart(s, mask, was, f, t, pos.value);
        var probe := DesiredPos(mask, pos.value.hash);
        ghost var i := start;
        while indices[probe].Some?
          invariant indices == s && probe < |s| && probe == i % |s| && i <= limit
          invariant Scanning(s, was, f, t, pos.value, start, i, limit)
          decreases limit - i
        {
          ScanRound(s, was, f, t, pos.value, start, i, limit);
          probe := NextBucket(probe, |indices|);
          i := i + 1;
        }
        ScanEnd(s, was, f, t, pos.value, start, i, limit);
        indices := indices[probe := pos];
      } else {
        SkipEmpty(indices, was, f, t);
      }
    }

    /** Looks for the name of the header from its desired bucket on: either its chain is found, or the bucket where it
        belongs. */
    method Search(name: Name, h: nat) returns (found: Option<nat>, probe: nat, dist: nat)
      requires Core(None) && |indices| > 0 && h == hash(name)
      ensures found.Some? ==>
                && found.value < WORD && RealIdx(found.value, inserted) < |slots|
                && slots[RealIdx(found.value, inserted)].header.name == name
                && Oldest(slots, RealIdx(found.value, inserted))
      ensures found.None? ==>
                && NewestOf(slots, name, None)
                && dist < |indices| && probe == (h + dist) % |indices| && Seat(indices, h, dist)
    {
      hide Consistent, Ordered, HeadsOk, E, Oldest, NewestOf, Passed, Matches, Seat;
      SearchStart(hash, mask, indices, slots, inserted, name);
      probe := DesiredPos(mask, h);
      dist := 0;
      while true
        invariant dist < |indices| && probe == (h + dist) % |indices|
        invariant Passed(indices, slots, inserted, h, name, dist)
        decreases |indices| - dist
      {
        SearchRound(hash, mask, indices, slots, inserted, name, dist);
        if indices[probe].None? {
          return None, probe, dist;
        }
        var pos := indices[probe].value;
        if ProbeDistance(mask, pos.hash, probe) < dist {
          return None, probe, dist;
        }
        if pos.hash == h && slots[RealIdx(pos.index, inserted)].header.name == name {
          return Some(pos.index), probe, dist;
        }
        probe := NextBucket(probe, |indices|);
        dist := dist + 1;
      }
    }

    /** There already is a header of this name. */
    method IndexOccupied(header: Header, h: nat, head: nat, statik: Option<(nat, bool)>) returns (r: Index)
      requires Valid() && |indices| > 0 && h == hash(header.name)
      requires head < WORD && RealIdx(head, inserted) < |slots|
      requires var k := RealIdx(head, inserted); slots[k].header.name == header.name && Oldest(slots, k)
      requires Len(header) * 4 <= maxSize * 3
      requires !IsSensitive(header) ==> |slots| < UsableCapacity(|indices|)
      modifies this`indices, this`slots, this`size, this`inserted
      ensures Valid()
      ensures (r, Headers(slots)) == IndexDynamic(Headers(old(slots)), maxSize, header, statik)
    {
      hide Consistent, Newest, Oldest, Linked, SlotBytes, Headers, IndexDynamic, UsableCapacity;
      ghost var before := slots;
      OccupiedStart(hash, mask, indices, slots, inserted);
      var index, realIdx, found := FindValue(header, head);
      OccupiedSpec(before, maxSize, header, statik, realIdx, found);
      if found {
        return Indexed(realIdx + DYN_OFFSET, header);
      }
      if IsSensitive(header) {
        return Name(realIdx + DYN_OFFSET, header);
      }
      AddValue(header, h, index);
      if statik.Some? {
        r := InsertedValue(statik.value.0, 0);
      } else {
        r := InsertedValue(realIdx + DYN_OFFSET, 0);
      }
    }

    /** Makes room for a header whose name is in the table, and inserts it. */
    method AddValue(header: Header, h: nat, index: nat)
      requires Valid() && |indices| > 0 && h == hash(header.name) && index < WORD
      requires var k := RealIdx(index, inserted);
               k < |slots| && Newest(slots, k) && slots[k].header.name == header.name
      requires forall j :: 0 <= j < |slots| ==> !SameField(slots[j].header, header)
      requires Len(header) <= maxSize && |slots| < UsableCapacity(|indices|)
      modifies this`indices, this`slots, this`size, this`inserted
      ensures Valid() && Headers(slots) == Insert(Headers(old(slots)), maxSize, header)
    {
      hide Consistent, Newest, SlotBytes, Fit, Below, Headers, UsableCapacity, Insert, Linked, Distinct, Pending,
          Len, RealIdx, Size;
      ghost var before := slots;
      OccupiedStart(hash, mask, indices, slots, inserted);
      TailOf(before, inserted, index);
      size := size + Len(header);
      var _ := Converge(Some(index), Some(RealIdx(index, inserted)), Len(header));
      KeptPushed(before, slots, maxSize, Slot(h, header, None));
      InsertLinked(header, h, index, before);
    }

    /** `insert` for a name that was in the table, linked from its newest slot if that is still there. */
    method InsertLinked(header: Header, h: nat, index: nat, ghost before: seq<Slot>)
      requires index < WORD && RealIdx(index, inserted) < |before| < WORD - 1 && |indices| > 0 && h == hash(header.name)
      requires slots <= before && Core(Pending(before, |slots|, Some(RealIdx(index, inserted))))
      requires var k := RealIdx(index, inserted);
               Newest(before, k) && before[k].header.name == header.name && before[k].hash == h
      requires forall j :: 0 <= j < |before| ==> !SameField(before[j].header, header)
      requires |slots| + 1 <= UsableCapacity(|indices|) && 32 * (|slots| + 1) <= WORD
      modifies this`slots, this`inserted
      ensures Core(None) && |slots| == |old(slots)| + 1
      ensures Headers(slots) == Headers([Slot(h, header, None)] + old(slots))
    {
      hide Consistent, Newest, Headers, UsableCapacity, Pending;
      LinkedPush(hash, mask, indices, before, slots, inserted, header, h, index);
      inserted := (inserted + 1) % WORD;
      slots := [Slot(h, header, None)] + slots;
      var newRealIdx := RealIdx(index, inserted);
      ShiftId(index, old(inserted));
      if newRealIdx < |slots| {
        var idx := WrappingSub(0, inserted);
        slots := slots[newRealIdx := slots[newRealIdx].(next := Some(idx))];
      }
    }

    /** `insert` for a name that is not in the table, with its bucket entry. */
    method InsertAt(header: Header, h: nat, probe: nat, ghost dist: nat)
      requires Core(None) && |indices| > 0 && h == hash(header.name) && NewestOf(slots, header.name, None)
      requires |slots| + 1 <= UsableCapacity(|indices|) && 32 * (|slots| + 1) <= WORD
      requires dist < |indices| && probe == (h + dist) % |indices| && Seat(indices, h, dist)
      modifies this`indices, this`slots, this`inserted
      ensures Core(None) && slots == [Slot(h, header, None)] + old(slots)
    {
      hide Consistent, NewestOf, Ordered, HeadsOk, Seat, E, Home, UsableCapacity, Sized, Linked, Distinct;
      ghost var was := indices;
      ConsistentFacts(hash, mask, indices, slots, inserted, None);
      ghost var a := EmptyBucket(indices, slots, inserted, None);
      assert indices[a] == None;
      inserted := (inserted + 1) % WORD;
      slots := [Slot(h, header, None)] + slots;
      var pos := Pos(WrappingSub(0, inserted), h);
      assert pos.index == Id(-1, old(inserted));
      SeatFits(indices, pos, dist, probe);
      PlaceAndShift(probe, pos);
      InsertedAt(hash, mask, was, indices, old(slots), old(inserted), header);
    }

    /** The bucket that holds the position of the evicted slot. */
    method FindEvicted(posIdx: nat, slotHash: nat, ghost before: seq<Slot>,
        ghost pending: Option<nat>) returns (probe: nat)
      requires before != [] && |before| < WORD - 1 && Sized(|indices|, mask) && Ordered(indices)
      requires HeadsOk(indices, before, inserted, pending)
      requires posIdx == Id(|before| - 1, inserted) && slotHash == before[|before| - 1].hash
      ensures probe < |indices| && indices[probe] == Some(Pos(posIdx, slotHash))
    {
      ghost var q := LastIsHead(indices, before, inserted, pending);
      ghost var d := PathTo(indices, q);
      SizedPositions(|indices|, mask, slotHash, 0);
      probe := DesiredPos(mask, slotHash);
      ghost var i: int := slotHash;
      assert E(indices, i) >= 0;
      while indices[probe].value.index != posIdx
        invariant slotHash <= i <= slotHash + d
        invariant probe == i % |indices| && probe < |indices| && E(indices, i) >= 0
        decreases slotHash + d - i
      {
        assert i != slotHash + d;
        assert E(indices, i + 1) >= 0;
        NextIsMod(probe, i, |indices|);
        probe := NextBucket(probe, |indices|);
        i := i + 1;
      }
      BucketIsHead(indices, before, inserted, pending, probe);
      IdRoundTrip(|before| - 1, inserted);
    }
  }

  /** The buckets from q up to the empty bucket q + gap are full. */
  ghost predicate Run(s: Buckets, q: int, gap: nat)
  {
    && gap < |s|
    && At(s, q + gap).None?
    && forall j: int {:trigger At(s, j)} :: q <= j < q + gap ==> At(s, j).Some?
  }

  /** Bucket i has just been written and its former occupant `prev` is in hand. */
  ghost predicate Carrying(s: Buckets, was: Buckets, prev: Option<Pos>, pos: Pos, q: int, i: int, gap: nat)
  {
    && |s| == |was| >= 8
    && Run(was, q, gap)
    && q <= i <= q + gap
    && Ordered(s)
    && (prev.None? <==> i == q + gap)
    && (prev.Some? ==> E(s, i + 1) <= Home(s, prev.value, i + 1) <= E(s, i) + 1)
    && multiset(s) + multiset{prev} == multiset(was) + multiset{Some(pos)}
    && forall j: int {:trigger At(s, j)} :: i < j < q + |s| ==> At(s, j) == At(was, j)
  }

  lemma CarryStart(was: Buckets, pos: Pos, q: nat, gap: nat)
    requires |was| >= 8 && Ordered(was) && Run(was, q, gap) && q < |was|
    requires E(was, q) <= Home(was, pos, q) <= E(was, q - 1) + 1
    ensures q % |was| == q
    ensures Carrying(was[q := Some(pos)], was, was[q], pos, q, q, gap)
  {
    ModSmall(q, |was|);
    assert At(was, q) == was[q];
    Write(was, pos, q, gap);
  }

  lemma CarryEnd(s: Buckets, was: Buckets, pos: Pos, q: int, i: int, gap: nat)
    requires Carrying(s, was, None, pos, q, i, gap)
    ensures |s| == |was| && Ordered(s)
    ensures multiset(s) == multiset(was) - multiset{None} + multiset{Some(pos)}
  {
    assert was[(q + gap) % |was|] in multiset(was);
    assert multiset(s) == multiset(was) + multiset{Some(pos)} - multiset{None};
  }

  /** Writing bucket i hands its occupant on to bucket i + 1. */
  lemma Write(s: Buckets, pos: Pos, i: int, gap: nat)
    requires |s| >= 8 && Ordered(s) && gap < |s| && At(s, i + gap).None?
    requires E(s, i) <= Home(s, pos, i) <= E(s, i - 1) + 1
    ensures var s' := s[i % |s| := Some(pos)];
            var prev := At(s, i);
            && Ordered(s')
            && multiset(s') + multiset{prev} == multiset(s) + multiset{Some(pos)}
            && (prev.Some? ==> E(s', i + 1) <= Home(s', prev.value, i + 1) <= E(s', i) + 1)
            && forall j: int {:trigger At(s', j)} :: i < j < i + |s| ==> At(s', j) == At(s, j)
  {
    var c := |s|;
    var s' := s[i % c := Some(pos)];
    Place(s, i, pos);
    forall j: int | i < j < i + c
      ensures At(s', j) == At(s, j) && E(s', j) == E(s, j)
    {
      OffsetDiffers(i, j - i, c);
      Updated(s, i, Some(pos), j);
    }
    if At(s, i).Some? {
      NotFull(s, i, i + gap);
      HomeNext(s, At(s, i).value, i);
      assert Slope(s, i);
      assert E(s', i + 1) == E(s, i + 1);
    }
  }

  lemma CarryRound(s: Buckets, was: Buckets, prev: Option<Pos>, pos: Pos, q: int, i: int, gap: nat)
    requires Carrying(s, was, prev, pos, q, i, gap) && prev.Some?
    ensures |s| == |was| > 0 && NextBucket(i % |s|, |s|) == (i + 1) % |s| && i < q + gap
    ensures Carrying(s[(i + 1) % |s| := prev], was, s[(i + 1) % |s|], pos, q, i + 1, gap)
  {
    var c := |s|;
    NextIsMod(i % c, i, c);
    assert At(s, q + gap) == At(was, q + gap);
    assert At(s, i + 1) == At(was, i + 1);
    Write(s, prev.value, i + 1, q + gap - i - 1);
    var s' := s[(i + 1) % c := prev];
    forall j: int | i + 1 < j < q + c
      ensures At(s', j) == At(was, j)
    {
      assert At(s, j) == At(was, j);
    }
  }

  lemma SizedAtLeast(c: nat, mask: nat)
    requires Sized(c, mask)
    ensures c >= 8
  {
  }

  /** How far the first empty bucket is, counted from bucket q itself. */
  lemma GapFrom(s: Buckets, q: nat) returns (gap: nat)
    requires q < |s| && None in s
    ensures Run(s, q, gap)
  {
    gap := 0;
    ghost var far := 0;
    if s[q].Some? {
      far := GapAfter(s, q);
    } else {
      ModSmall(q, |s|);
    }
    while At(s, q + gap).Some?
      invariant gap <= far < |s| && At(s, q + far).None?
      invariant forall j: int {:trigger At(s, j)} :: q <= j < q + gap ==> At(s, j).Some?
      decreases far - gap
    {
      gap := gap + 1;
    }
  }

  // ----- places for a new header

  /** A header with hash h belongs d buckets after its desired bucket: the occupant there is closer to home, and the
      bucket before is not. */
  ghost predicate Seat(s: Buckets, h: nat, d: nat)
    requires |s| > 0
  {
    E(s, h + d) < d && (d > 0 ==> E(s, h + d - 1) >= d - 1)
  }

  lemma SeatBelow(s: Buckets, was: Buckets, h: nat, d: nat)
    requires |s| == |was| > 0 && Below(s, was) && Seat(was, h, d)
    ensures E(s, h + d) < d
  {
  }

  lemma SeatFits(s: Buckets, p: Pos, d: nat, probe: nat)
    requires d < |s| && Seat(s, p.hash, d) && probe == (p.hash + d) % |s| && |s| >= 8
    ensures probe < |s|
    ensures E(s, probe) <= Home(s, p, probe) <= E(s, probe - 1) + 1
  {
    var c, i := |s|, p.hash + d;
    ModSmall(probe, c);
    SameBucket(s, probe, i);
    NextIsMod(probe, i, c);
    NextIsMod(probe, probe, c);
    SameBucket(s, probe - 1, i - 1);
    ModSub(i, p.hash, c);
    ModSmall(d, c);
  }

  lemma ConsistentFacts(hash: Name -> nat, mask: nat, indices: Buckets, slots: seq<Slot>, inserted: nat,
                        pending: Option<nat>)
    requires Consistent(hash, mask, indices, slots, inserted, pending)
    ensures inserted < WORD && 32 * |slots| <= WORD && Distinct(Headers(slots)) && Linked(slots, inserted)
    ensures |slots| + (if pending.Some? then 1 else 0) <= UsableCapacity(|indices|) <= |indices|
    ensures |indices| > 0 ==>
              && |indices| >= 8 && UsableCapacity(|indices|) < |indices|
              && Sized(|indices|, mask) && Ordered(indices) && HeadsOk(indices, slots, inserted, pending)
  {
  }

  lemma SlotBytesWhole(slots: seq<Slot>)
    ensures SlotBytes(slots, |slots|) == Size(Headers(slots))
  {
    SlotBytesIsSize(slots, |slots|);
    assert slots[..|slots|] == slots;
  }

  lemma VacantSpec(slots: seq<Slot>, max: nat, h: Header, statik: Option<(nat, bool)>)
    requires NewestOf(slots, h.name, None)
    ensures var es := Headers(slots);
            IndexDynamic(es, max, h, statik) ==
              if IsSensitive(h) then (StaticIndex(statik, h), es)
              else (if statik.Some? then InsertedValue(statik.value.0, 0) else Inserted(0), Insert(es, max, h))
  {
    var es := Headers(slots);
    assert forall j :: 0 <= j < |es| ==> es[j].name != h.name;
  }

  /** Evicting and pushing is what `Insert` means. */
  lemma PushIsInsert(slots: seq<Slot>, kept: seq<Slot>, max: nat, h: Header)
    requires Len(h) <= max && kept == slots[..Fit(slots, |slots|, max - Len(h))]
    ensures [h] + Headers(kept) == Insert(Headers(slots), max, h)
    ensures Size([h] + Headers(kept)) == SlotBytes(slots, |kept|) + Len(h)
  {
    hide Evict, Fit, SlotBytes, Headers, Size, Len;
    FitIsEvict(slots, |slots|, max - Len(h));
    assert slots[..|slots|] == slots;
    SlotBytesIsSize(slots, |kept|);
    SizeOfFront(h, Headers(kept));
  }

  lemma VacantStart(hash: Name -> nat, mask: nat, indices: Buckets, slots: seq<Slot>, inserted: nat)
    requires Consistent(hash, mask, indices, slots, inserted, None) && |indices| > 0
    ensures SlotBytes(slots, |slots|) == Size(Headers(slots))
    ensures |slots| < WORD - 1 && Sized(|indices|, mask)
    ensures IsTail(slots, inserted, None, None)
  {
    SlotBytesWhole(slots);
  }

  lemma HeadersFront(s: Slot, kept: seq<Slot>)
    ensures Headers([s] + kept) == [s.header] + Headers(kept)
  {
  }

  lemma KeptPushed(before: seq<Slot>, kept: seq<Slot>, max: nat, s: Slot)
    requires Len(s.header) <= max < WORD && kept == before[..Fit(before, |before|, max - Len(s.header))]
    ensures Headers([s] + kept) == Insert(Headers(before), max, s.header)
    ensures Size(Headers([s] + kept)) == SlotBytes(before, |kept|) + Len(s.header)
    ensures 32 * (|kept| + 1) <= WORD
  {
    hide Fit, SlotBytes, Headers, Evict;
    PushIsInsert(before, kept, max, s.header);
    HeadersFront(s, kept);
  }

  lemma KeptVacant(before: seq<Slot>, n: nat, name: Name)
    requires n <= |before| && NewestOf(before, name, None)
    ensures NewestOf(before[..n], name, None)
  {
  }

  // ----- growing

  ghost predicate FirstIdeal(s: Buckets, f: nat)
    requires |s| > 0
  {
    f < |s| && E(s, f) == 0
  }

  lemma IdealExists(s: Buckets) returns (i: nat)
    requires |s| > 0 && Ordered(s) && None in s && exists p: Pos :: Some(p) in s
    ensures i < |s| && FirstIdeal(s, i)
  {
    var c := |s|;
    var a :| 0 <= a < c && s[a].None?;
    var p: Pos :| Some(p) in s;
    var b :| 0 <= b < c && s[b] == Some(p);
    AtIndex(s, a);
    AtIndex(s, b);
    var far := if a < b then b else b + c;
    if a >= b {
      EPeriod(s, b, 1);
    }
    var j := a;
    while At(s, j).None?
      invariant a <= j <= far && At(s, far).Some?
      invariant j > a ==> At(s, j - 1).None?
      decreases far - j
    {
      j := j + 1;
    }
    assert Slope(s, j - 1);
    i := j % c;
    ModSmall(i, c);
    SameBucket(s, i, j);
  }

  lemma IdealTest(s: Buckets, mask: nat, f: nat)
    requires Sized(|s|, mask) && f < |s|
    ensures FirstIdeal(s, f) <==> s[f].Some? && ProbeDistance(mask, s[f].value.hash, f) == 0
  {
    ModSmall(f, |s|);
    if s[f].Some? {
      DistanceAt(s, mask, f);
    }
  }

  /** How far along, counted from f, the desired buckets of the entries at f + t and beyond are. */
  ghost function Frontier(was: Buckets, f: nat, t: nat): int
    requires |was| > 0
  {
    t - E(was, f + t)
  }

  lemma FrontierGrows(was: Buckets, f: nat, t: nat, t': nat)
    requires |was| > 0 && Ordered(was) && t <= t'
    ensures Frontier(was, f, t) <= Frontier(was, f, t')
  {
    WalkBack(was, f + t', t' - t);
  }

  /** The entry at bucket i of the doubled array is in the half its hash selects, at or after its desired bucket and not
      beyond where it was. */
  ghost predicate Settled(s: Buckets, was: Buckets, f: nat, t: nat, i: int)
    requires |s| == 2 * |was| > 0 && At(s, i).Some?
  {
    var w, c := i - f, |was|;
    var half := if w < c then 0 else c;
    var v := (At(s, i).value.hash - f) % |s|;
    half <= v <= w && w - half < t && v - half <= Frontier(was, f, t)
  }

  ghost predicate AllSettled(s: Buckets, was: Buckets, f: nat, t: nat)
    requires |s| == 2 * |was| > 0
  {
    forall i: int {:trigger At(s, i)} :: f <= i < f + |s| && At(s, i).Some? ==> Settled(s, was, f, t, i)
  }

  ghost predicate SameEntries(s: Buckets, u: Buckets)
  {
    forall p: Pos {:trigger multiset(s)[Some(p)]} :: multiset(s)[Some(p)] == multiset(u)[Some(p)]
  }

  /** The doubled array after t buckets of the old one were visited. */
  ghost predicate Regrown(s: Buckets, was: Buckets, f: nat, t: nat)
  {
    && |s| == 2 * |was| >= 16 && f < |was| && t <= |was|
    && Ordered(s)
    && AllSettled(s, was, f, t)
    && SameEntries(s, (was[f..] + was[..f])[..t])
  }

  lemma RegrownStart(was: Buckets, f: nat)
    requires |was| >= 8 && f < |was|
    ensures Regrown(EmptyBuckets(2 * |was|), was, f, 0)
  {
    var s := EmptyBuckets(2 * |was|);
    forall i: int
      ensures Slope(s, i) && At(s, i).None?
    {
    }
    assert forall p: Pos :: multiset(s)[Some(p)] == 0;
  }

  lemma RotatedAt(was: Buckets, f: nat, t: nat)
    requires f < |was| && t < |was|
    ensures (was[f..] + was[..f])[t] == At(was, f + t)
  {
    if f + t < |was| {
      ModSmall(f + t, |was|);
    } else {
      ModPeriod(f + t - |was|, 1, |was|);
      ModSmall(f + t - |was|, |was|);
    }
  }

  lemma AppendCount(u: Buckets, t: nat, p: Pos)
    requires t < |u|
    ensures multiset(u[..t + 1])[Some(p)] == multiset(u[..t])[Some(p)] + if u[t] == Some(p) then 1 else 0
  {
    assert u[..t + 1] == u[..t] + [u[t]];
  }

  lemma SettledGrows(s: Buckets, was: Buckets, f: nat, t: nat)
    requires |s| == 2 * |was| > 0 && Ordered(was) && AllSettled(s, was, f, t)
    ensures AllSettled(s, was, f, t + 1)
  {
    FrontierGrows(was, f, t, t + 1);
  }

  lemma SkipEmpty(s: Buckets, was: Buckets, f: nat, t: nat)
    requires Regrown(s, was, f, t) && t < |was| && Ordered(was) && (was[f..] + was[..f])[t].None?
    ensures Regrown(s, was, f, t + 1)
  {
    SettledGrows(s, was, f, t);
    var u := was[f..] + was[..f];
    forall p: Pos
      ensures multiset(s)[Some(p)] == multiset(u[..t + 1])[Some(p)]
    {
      AppendCount(u, t, p);
    }
  }

  /** Where the entry visited at step t wants to go: at the frontier of one of the two halves. */
  lemma Wanted(was: Buckets, f: nat, t: nat, p: Pos) returns (half: nat)
    requires |was| > 0 && Ordered(was) && FirstIdeal(was, f) && t < |was| && At(was, f + t) == Some(p)
    ensures half == 0 || half == |was|
    ensures 0 <= Frontier(was, f, t) <= t
    ensures (p.hash - f) % (2 * |was|) == half + Frontier(was, f, t)
  {
    var c := |was|;
    var e := E(was, f + t);
    FrontierGrows(was, f, 0, t);
    var u := t - e;
    assert (p.hash - f) % c == u by {
      ModSub(t, f + t - p.hash, c);
      assert t - (f + t - p.hash) == p.hash - f;
      ModSmall(u, c);
    }
    var v := (p.hash - f) % (2 * c);
    ModMod(p.hash - f, c, 2);
    assert v % c == u;
    if v < c {
      ModSmall(v, c);
      half := 0;
    } else {
      ModPeriod(v - c, 1, c);
      ModSmall(v - c, c);
      half := c;
    }
  }

  /** An entry visited at step t is looking for its bucket: it started at its desired bucket and has come to bucket i;
      every bucket on the way is full, with an entry at least as far from home. It will stop at the latest where it was
      in the old array, in its half. */
  ghost predicate Scanning(s: Buckets, was: Buckets, f: nat, t: nat, p: Pos, start: int, i: int, limit: int)
  {
    && Regrown(s, was, f, t) && t < |was|
    && start == f + (p.hash - f) % |s|
    && start <= i <= limit && (limit == f + t || limit == f + |was| + t)
    && limit - t <= start && start - (limit - t) == Frontier(was, f, t)
    && forall j: int {:trigger E(s, j)} :: start <= j < i ==> E(s, j) >= j - start
  }

  lemma ScanStart(s: Buckets, mask: nat, was: Buckets, f: nat, t: nat, p: Pos) returns (start: int, limit: int)
    requires Regrown(s, was, f, t) && t < |was| && Ordered(was) && FirstIdeal(was, f) && Sized(|s|, mask)
    requires (was[f..] + was[..f])[t] == Some(p)
    ensures |s| > 0 && DesiredPos(mask, p.hash) == start % |s| < |s| && start <= limit
    ensures Scanning(s, was, f, t, p, start, start, limit)
  {
    SizedPositions(|s|, mask, p.hash, 0);
    ModAddK(p.hash - f, f, |s|);
    RotatedAt(was, f, t);
    var half := Wanted(was, f, t, p);
    start := f + (p.hash - f) % |s|;
    limit := f + half + t;
  }

  lemma ScanRound(s: Buckets, was: Buckets, f: nat, t: nat, p: Pos, start: int, i: int, limit: int)
    requires Scanning(s, was, f, t, p, start, i, limit) && |s| > 0 && s[i % |s|].Some?
    ensures i < limit && Scanning(s, was, f, t, p, start, i + 1, limit)
    ensures NextBucket(i % |s|, |s|) == (i + 1) % |s|
  {
    assert At(s, i).Some?;
    assert Settled(s, was, f, t, i);
    var q := At(s, i).value;
    var v := (q.hash - f) % |s|;
    assert E(s, i) == i - f - v by {
      ModSub(i - f, q.hash - f, |s|);
      ModSmall(i - f - v, |s|);
    }
    NextIsMod(i % |s|, i, |s|);
  }

  lemma ScanEnd(s: Buckets, was: Buckets, f: nat, t: nat, p: Pos, start: int, i: int, limit: int)
    requires Scanning(s, was, f, t, p, start, i, limit) && Ordered(was)
    requires |s| > 0 && s[i % |s|].None? && f < |was| && t < |was|
    requires (was[f..] + was[..f])[t] == Some(p)
    ensures Regrown(s[i % |s| := Some(p)], was, f, t + 1)
  {
    hide HeadsOk;
    var c := |s|;
    var s' := s[i % c := Some(p)];
    assert Home(s, p, i) == i - start by {
      ModSub(i - f, p.hash - f, c);
      assert i - p.hash == (i - f) - (p.hash - f);
      ModSmall(i - start, c);
    }
    assert At(s, i).None?;
    if i > start {
      assert E(s, i - 1) >= i - 1 - start;
    }
    Place(s, i, p);
    StillSettled(s, was, f, t, p, start, i, limit);
    var u := was[f..] + was[..f];
    forall q: Pos
      ensures multiset(s')[Some(q)] == multiset(u[..t + 1])[Some(q)]
    {
      AppendCount(u, t, q);
      UpdateCount(s, i % c, Some(p), q);
    }
  }

  lemma StillSettled(s: Buckets, was: Buckets, f: nat, t: nat, p: Pos, start: int, i: int, limit: int)
    requires Scanning(s, was, f, t, p, start, i, limit) && Ordered(was) && |s| > 0 && t < |was|
    ensures AllSettled(s[i % |s| := Some(p)], was, f, t + 1)
  {
    var c := |s|;
    var s' := s[i % c := Some(p)];
    FrontierGrows(was, f, t, t + 1);
    forall j: int | f <= j < f + c && At(s', j).Some?
      ensures Settled(s', was, f, t + 1, j)
    {
      Updated(s, i, Some(p), j);
      if j != i {
        if j < i {
          OffsetDiffers(j, i - j, c);
        } else {
          OffsetDiffers(i, j - i, c);
        }
        assert Settled(s, was, f, t, j);
      }
    }
  }

  lemma GrowStart(hash: Name -> nat, mask: nat, indices: Buckets, slots: seq<Slot>, inserted: nat)
    requires Consistent(hash, mask, indices, slots, inserted, None) && slots != []
    ensures |indices| >= 8 && Sized(|indices|, mask) && Ordered(indices) && None in indices
    ensures exists p: Pos :: Some(p) in indices
  {
    var a := EmptyBucket(indices, slots, inserted, None);
    assert indices[a] == None;
    var q := LastIsHead(indices, slots, inserted, None);
    assert Some(indices[q].value) in indices;
  }

  lemma GrowEnd(hash: Name -> nat, mask: nat, was: Buckets, indices: Buckets, mask': nat, slots: seq<Slot>,
                inserted: nat, f: nat)
    requires Consistent(hash, mask, was, slots, inserted, None) && |was| > 0
    requires Regrown(indices, was, f, |was|) && Sized(|indices|, mask')
    ensures Consistent(hash, mask', indices, slots, inserted, None)
  {
    var u := was[f..] + was[..f];
    assert u[..|was|] == u;
    assert was == was[..f] + was[f..];
    assert multiset(u) == multiset(was);
    forall p: Pos
      ensures multiset(indices)[Some(p)] == if IsHead(p, slots, inserted, None) then 1 else 0
    {
      assert multiset(indices)[Some(p)] == multiset(was)[Some(p)];
    }
  }

  // ----- allocating and clearing

  /** `to_raw_capacity` */
  function RawCapacity(n: nat): nat
  {
    n + n / 3
  }

  /** The smallest power of two from 2^k on that is at least n. */
  function NextPowerOfTwo(n: nat, k: nat): (r: nat)
    requires k <= 63 && n <= Pow2(63)
    ensures r >= n && exists j: nat :: k <= j <= 63 && r == Pow2(j)
    decreases 63 - k
  {
    if n <= Pow2(k) then Pow2(k) else NextPowerOfTwo(n, k + 1)
  }

  lemma AllEmpty(c: nat)
    requires c > 0
    ensures Ordered(EmptyBuckets(c))
    ensures forall p: Pos :: multiset(EmptyBuckets(c))[Some(p)] == 0
  {
    var s := EmptyBuckets(c);
    forall i: int
      ensures Slope(s, i)
    {
    }
  }

  lemma EmptyConsistent(hash: Name -> nat, mask: nat, indices: Buckets, capacity: nat)
    requires RawCapacity(capacity) <= Pow2(63)
    requires var raw := NextPowerOfTwo(RawCapacity(capacity), 0);
             var cap := if capacity == 0 then 0 else if raw < 8 then 8 else raw;
             indices == EmptyBuckets(cap) && (cap > 0 ==> mask == cap - 1)
    ensures Consistent(hash, mask, indices, [], 0, None)
  {
    hide NextPowerOfTwo, Pow2;
    assert Headers([]) == [];
    if capacity > 0 {
      var raw := NextPowerOfTwo(RawCapacity(capacity), 0);
      AllEmpty(|indices|);
      var j: nat :| j <= 63 && raw == Pow2(j);
      AtLeastEight(j);
      assert PowerOfTwo(|indices|, if raw < 8 then 3 else j);
    }
  }

  lemma {:induction false} AtLeastEight(j: nat)
    ensures Pow2(3) == 8
    ensures j < 3 <==> Pow2(j) < 8
  {
    if j > 3 {
      AtLeastEight(j - 1);
    }
  }

  lemma FirstAllocation(hash: Name -> nat, slots: seq<Slot>, inserted: nat)
    requires slots == [] && inserted < WORD
    ensures Consistent(hash, 7, EmptyBuckets(8), slots, inserted, None)
    ensures UsableCapacity(8) == 6
  {
    AllEmpty(8);
    assert Headers(slots) == [];
    assert Pow2(3) == 8;
    assert PowerOfTwo(8, 3);
  }

  lemma Cleared(hash: Name -> nat, mask: nat, indices: Buckets, slots: seq<Slot>, inserted: nat)
    requires Consistent(hash, mask, indices, slots, inserted, None)
    ensures Consistent(hash, mask, EmptyBuckets(|indices|), [], 0, None)
    ensures Headers([]) == Evict(Headers(slots), 0) && Size(Headers([])) == 0
  {
    if |indices| > 0 {
      AllEmpty(|indices|);
    }
    assert Headers([]) == [];
    var r := Evict(Headers(slots), 0);
    assert Size(r) >= 32 * |r|;
  }

  lemma ResizeStart(hash: Name -> nat, mask: nat, indices: Buckets, slots: seq<Slot>, inserted: nat, size: nat)
    requires Consistent(hash, mask, indices, slots, inserted, None)
    ensures SlotBytes(slots, |slots|) == Size(Headers(slots)) && |slots| < WORD - 1
    ensures IsTail(slots, inserted, None, None) && forall n: nat :: Pending(slots, n, None) == None
    ensures var kept := slots[..Fit(slots, |slots|, size)];
            Headers(kept) == Evict(Headers(slots), size) && SlotBytes(slots, |kept|) == Size(Headers(kept))
  {
    SlotBytesWhole(slots);
    FitIsEvict(slots, |slots|, size);
    assert slots[..|slots|] == slots;
    SlotBytesIsSize(slots, Fit(slots, |slots|, size));
  }

  lemma NoBuckets(hash: Name -> nat, mask: nat, indices: Buckets, slots: seq<Slot>, inserted: nat, max: nat, h: Header,
                  statik: Option<(nat, bool)>)
    requires Consistent(hash, mask, indices, slots, inserted, None) && indices == [] && IsSensitive(h)
    ensures IndexDynamic(Headers(slots), max, h, statik) == (StaticIndex(statik, h), Headers(slots))
  {
    assert Headers(slots) == [];
  }

  // ----- searching

  ghost predicate Matches(s: Buckets, slots: seq<Slot>, inserted: nat, h: nat, name: Name, i: int)
    requires |s| > 0
  {
    var b := At(s, i);
    && b.Some? && b.value.hash == h && RealIdx(b.value.index, inserted) < |slots|
    && slots[RealIdx(b.value.index, inserted)].header.name == name
  }

  /** The first dist buckets were passed: none matched, and none was a place for the name. */
  ghost predicate Passed(s: Buckets, slots: seq<Slot>, inserted: nat, h: nat, name: Name, dist: nat)
    requires |s| > 0
  {
    forall i: int {:trigger E(s, i)} {:trigger Matches(s, slots, inserted, h, name, i)} ::
      h <= i < h + dist ==> E(s, i) >= i - h && !Matches(s, slots, inserted, h, name, i)
  }

  lemma SearchStart(hash: Name -> nat, mask: nat, indices: Buckets, slots: seq<Slot>, inserted: nat, name: Name)
    requires Consistent(hash, mask, indices, slots, inserted, None) && |indices| > 0
    ensures DesiredPos(mask, hash(name)) == hash(name) % |indices|
    ensures Passed(indices, slots, inserted, hash(name), name, 0)
  {
    SizedPositions(|indices|, mask, hash(name), 0);
  }

  lemma SearchRound(hash: Name -> nat, mask: nat, indices: Buckets, slots: seq<Slot>, inserted: nat, name: Name,
      dist: nat)
    requires Consistent(hash, mask, indices, slots, inserted, None) && dist < |indices|
    requires Passed(indices, slots, inserted, hash(name), name, dist)
    ensures var h := hash(name);
            var probe := (h + dist) % |indices|;
            var b := indices[probe];
            if b.None? || ProbeDistance(mask, b.value.hash, probe) < dist then
              NewestOf(slots, name, None) && Seat(indices, h, dist)
            else
              && b.value.index < WORD && RealIdx(b.value.index, inserted) < |slots|
              && if b.value.hash == h && slots[RealIdx(b.value.index, inserted)].header.name == name then
                   Oldest(slots, RealIdx(b.value.index, inserted))
                 else
                   && dist + 1 < |indices| && NextBucket(probe, |indices|) == (h + dist + 1) % |indices|
                   && Passed(indices, slots, inserted, h, name, dist + 1)
  {
    var h, c := hash(name), |indices|;
    var probe := (h + dist) % c;
    var b := indices[probe];
    if b.Some? {
      DistanceAt(indices, mask, h + dist);
      BucketIsHead(indices, slots, inserted, None, probe);
    }
    if E(indices, h + dist) < dist {
      SearchFails(hash, mask, indices, slots, inserted, name, dist);
    } else {
      var a := EmptyBucket(indices, slots, inserted, None);
      AtIndex(indices, a);
      NotFull(indices, h + dist, a);
      NextIsMod(probe, h + dist, c);
    }
  }

  lemma SearchFails(hash: Name -> nat, mask: nat, indices: Buckets, slots: seq<Slot>, inserted: nat, name: Name,
      dist: nat)
    requires Consistent(hash, mask, indices, slots, inserted, None) && dist < |indices|
    requires Passed(indices, slots, inserted, hash(name), name, dist) && E(indices, hash(name) + dist) < dist
    ensures NewestOf(slots, name, None) && Seat(indices, hash(name), dist)
  {
    var h := hash(name);
    assert dist > 0 ==> E(indices, h + dist - 1) >= dist - 1;
    forall j | 0 <= j < |slots|
      ensures slots[j].header.name != name
    {
      if slots[j].header.name == name {
        var d := NamePresent(hash, mask, indices, slots, inserted, j);
        assert false;
      }
    }
  }

  /** The chain of a name that is present is met on the way from its desired bucket. */
  lemma NamePresent(hash: Name -> nat, mask: nat, indices: Buckets, slots: seq<Slot>, inserted: nat,
      j: nat) returns (d: nat)
    requires Consistent(hash, mask, indices, slots, inserted, None) && j < |slots| && |indices| > 0
    ensures var name := slots[j].header.name;
            && Matches(indices, slots, inserted, hash(name), name, hash(name) + d)
            && forall i: int {:trigger E(indices, i)} ::
                 hash(name) <= i <= hash(name) + d ==> E(indices, i) >= i - hash(name)
  {
    var k := OldestFrom(slots, j);
    var q := HeadBucket(indices, slots, inserted, None, k);
    d := PathTo(indices, q);
    IdRoundTrip(k, inserted);
  }

  lemma OldestFrom(slots: seq<Slot>, j: nat) returns (k: nat)
    requires j < |slots|
    ensures j <= k < |slots| && slots[k].header.name == slots[j].header.name && Oldest(slots, k)
    decreases |slots| - j
  {
    if m :| j < m < |slots| && slots[m].header.name == slots[j].header.name {
      k := OldestFrom(slots, m);
    } else {
      k := j;
    }
  }

  lemma OccupiedStart(hash: Name -> nat, mask: nat, indices: Buckets, slots: seq<Slot>, inserted: nat)
    requires Consistent(hash, mask, indices, slots, inserted, None)
    ensures SlotBytes(slots, |slots|) == Size(Headers(slots))
    ensures |slots| < WORD - 1 && Linked(slots, inserted) && Distinct(Headers(slots))
    ensures Hashed(hash, slots)
  {
    SlotBytesWhole(slots);
  }

  lemma OccupiedSpec(slots: seq<Slot>, max: nat, h: Header, statik: Option<(nat, bool)>, k: nat, found: bool)
    requires k < |slots| && slots[k].header.name == h.name && Distinct(Headers(slots))
    requires found ==> SameField(slots[k].header, h)
    requires !found ==> Newest(slots, k) && forall j :: 0 <= j < |slots| ==> !SameField(slots[j].header, h)
    ensures var es := Headers(slots);
            IndexDynamic(es, max, h, statik) ==
              if found then (Indexed(k + DYN_OFFSET, h), es)
              else if IsSensitive(h) then (Index.Name(k + DYN_OFFSET, h), es)
              else (InsertedValue(if statik.Some? then statik.value.0 else k + DYN_OFFSET, 0), Insert(es, max, h))
  {
    var es := Headers(slots);
    if found {
      FindFieldUnique(es, h, k);
    } else {
      assert forall j :: 0 <= j < |es| ==> !SameField(es[j], h);
      var i := FindName(es, h.name);
      assert es[k].name == h.name;
      assert slots[i.value].header.name == h.name;
    }
  }

  lemma TailOf(slots: seq<Slot>, inserted: nat, index: nat)
    requires index < WORD && RealIdx(index, inserted) < |slots| && Newest(slots, RealIdx(index, inserted))
    ensures IsTail(slots, inserted, Some(RealIdx(index, inserted)), Some(index))
  {
    RealRoundTrip(index, inserted);
  }

  lemma LinkedStart(before: seq<Slot>, n: nat, name: Name, k: nat)
    requires k < |before| && n <= |before| && Newest(before, k) && before[k].header.name == name
    ensures NewestOf(before[..n], name, if k < n then Some(k) else None)
  {
  }

  lemma LinkedPush(hash: Name -> nat, mask: nat, indices: Buckets, before: seq<Slot>, slots: seq<Slot>, inserted: nat,
                   header: Header, h: nat, index: nat)
    requires index < WORD && RealIdx(index, inserted) < |before| < WORD - 1 && |indices| > 0 && h == hash(header.name)
    requires slots <= before
    requires Consistent(hash, mask, indices, slots, inserted, Pending(before, |slots|, Some(RealIdx(index, inserted))))
    requires var k := RealIdx(index, inserted);
             Newest(before, k) && before[k].header.name == header.name && before[k].hash == h
    requires forall j :: 0 <= j < |before| ==> !SameField(before[j].header, header)
    requires |slots| + 1 <= UsableCapacity(|indices|) && 32 * (|slots| + 1) <= WORD
    ensures var k := RealIdx(index, inserted);
            var s := Slot(h, header, None);
            var inserted' := (inserted + 1) % WORD;
            var t := Pushed(slots, s, inserted', if k < |slots| then Some(k) else None);
            Consistent(hash, mask, indices, t, inserted', None) && Headers(t) == Headers([s] + slots)
  {
    hide Consistent, Newest, Headers, UsableCapacity, Pushed, NewestOf;
    var k := RealIdx(index, inserted);
    var tail := if k < |slots| then Some(k) else None;
    LinkedStart(before, |slots|, header.name, k);
    assert slots == before[..|slots|];
    PushConsistent(hash, mask, indices, indices, slots, inserted, Slot(h, header, None), tail,
                   Pending(before, |slots|, Some(k)));
    PushedHeaders(slots, Slot(h, header, None), (inserted + 1) % WORD, tail);
  }

  lemma PushedHeaders(slots: seq<Slot>, s: Slot, inserted: nat, tail: Option<nat>)
    requires tail.Some? ==> tail.value < |slots|
    ensures Headers(Pushed(slots, s, inserted, tail)) == Headers([s] + slots)
  {
  }

  lemma InsertedAt(hash: Name -> nat, mask: nat, was: Buckets, indices: Buckets, slots: seq<Slot>, inserted: nat,
      h: Header)
    requires Consistent(hash, mask, was, slots, inserted, None) && |was| > 0
    requires NewestOf(slots, h.name, None)
    requires |slots| + 1 <= UsableCapacity(|was|) && 32 * (|slots| + 1) <= WORD
    requires |indices| == |was| && Ordered(indices)
    requires multiset(indices) == multiset(was) - multiset{None} + multiset{Some(Pos(Id(-1, inserted), hash(h.name)))}
    ensures Consistent(hash, mask, indices, [Slot(hash(h.name), h, None)] + slots, (inserted + 1) % WORD, None)
  {
    PushConsistent(hash, mask, was, indices, slots, inserted, Slot(hash(h.name), h, None), None, None);
  }

  // ----- pushing

  /** `tail` is the newest slot with the given name, if there is one. */
  ghost predicate NewestOf(slots: seq<Slot>, n: Name, tail: Option<nat>)
  {
    match tail
    case None => forall j :: 0 <= j < |slots| ==> slots[j].header.name != n
    case Some(k) => k < |slots| && slots[k].header.name == n && Newest(slots, k)
  }

  /** The deque after a push, with the old newest slot of the name linked to the new slot. */
  ghost function Pushed(slots: seq<Slot>, s: Slot, inserted: nat, tail: Option<nat>): seq<Slot>
    requires tail.Some? ==> tail.value < |slots|
  {
    var t := [s] + slots;
    match tail
    case None => t
    case Some(k) => t[k + 1 := t[k + 1].(next := Some(Id(0, inserted)))]
  }

  lemma ShiftId(id: nat, inserted: nat)
    requires id < WORD
    ensures RealIdx(id, (inserted + 1) % WORD) ==
            if RealIdx(id, inserted) == WORD - 1 then 0 else RealIdx(id, inserted) + 1
  {
  }

  lemma PushKeeps(hash: Name -> nat, slots: seq<Slot>, inserted: nat, s: Slot, tail: Option<nat>)
    requires Hashed(hash, slots) && Linked(slots, inserted) && Distinct(Headers(slots)) && |slots| < WORD - 2
    requires s.hash == hash(s.header.name) && s.next.None?
    requires NewestOf(slots, s.header.name, tail)
    requires forall j :: 0 <= j < |slots| ==> !SameField(slots[j].header, s.header)
    ensures var inserted' := (inserted + 1) % WORD;
            var t := Pushed(slots, s, inserted', tail);
            && Hashed(hash, t) && Linked(t, inserted') && Distinct(Headers(t))
            && Headers(t) == [s.header] + Headers(slots)
  {
    var inserted' := (inserted + 1) % WORD;
    var t := Pushed(slots, s, inserted', tail);
    assert forall k :: 0 < k < |t| ==> t[k].header == slots[k - 1].header && t[k].hash == slots[k - 1].hash;
    assert t[0] == s;
    forall k | 0 <= k < |t|
      ensures LinkOk(t, inserted', k)
    {
      if k > 0 {
        assert LinkOk(slots, inserted, k - 1);
        PushLink(slots, inserted, s, tail, k);
      }
    }
    assert Headers(t) == [s.header] + Headers(slots);
  }

  lemma PushLink(slots: seq<Slot>, inserted: nat, s: Slot, tail: Option<nat>, k: nat)
    requires 0 < k <= |slots| < WORD - 2 && LinkOk(slots, inserted, k - 1) && NewestOf(slots, s.header.name, tail)
    ensures var inserted' := (inserted + 1) % WORD;
            LinkOk(Pushed(slots, s, inserted', tail), inserted', k)
  {
    var inserted' := (inserted + 1) % WORD;
    var t := Pushed(slots, s, inserted', tail);
    assert forall j :: 0 < j < |t| ==> t[j].header == slots[j - 1].header;
    IdRoundTrip(0, inserted');
    if tail == Some(k - 1) {
      assert forall m :: 0 < m < k ==> t[m].header.name != t[k].header.name;
      assert NextNewer(t, k, 0);
    } else {
      assert t[k].next == slots[k - 1].next;
      match slots[k - 1].next
      case None =>
        assert s.header.name != slots[k - 1].header.name;
        assert Newest(t, k);
      case Some(id) =>
        ShiftId(id, inserted);
        assert NextNewer(t, k, RealIdx(id, inserted'));
    }
  }

  /** The heads after a push: the old ones, and the new slot if its name is new. */
  lemma PushHead(slots: seq<Slot>, inserted: nat, s: Slot, tail: Option<nat>, p: Pos)
    requires |slots| < WORD - 2 && NewestOf(slots, s.header.name, tail)
    ensures var inserted' := (inserted + 1) % WORD;
            IsHead(p, Pushed(slots, s, inserted', tail), inserted', None) <==>
            IsHead(p, slots, inserted, None) || (tail.None? && p == Pos(Id(-1, inserted), s.hash))
  {
    var inserted' := (inserted + 1) % WORD;
    var t := Pushed(slots, s, inserted', tail);
    assert forall j :: 0 < j < |t| ==> t[j].header == slots[j - 1].header && t[j].hash == slots[j - 1].hash;
    IdRoundTrip(-1, inserted);
    if p.index < WORD {
      ShiftId(p.index, inserted);
      IdIff(p.index, -1, inserted);
      var k := RealIdx(p.index, inserted);
      if k < |slots| {
        OldestAfterPush(slots, t, k);
      } else if k == WORD - 1 {
        assert tail.Some? ==> t[tail.value + 1].header.name == t[0].header.name;
      }
    }
  }

  /** A push keeps the whole structure consistent, whether the name has a predecessor left, its bucket was taken over,
      or a new bucket entry was made. */
  lemma PushConsistent(hash: Name -> nat, mask: nat, indices: Buckets, indices': Buckets, slots: seq<Slot>,
                       inserted: nat, s: Slot, tail: Option<nat>, pending: Option<nat>)
    requires Consistent(hash, mask, indices, slots, inserted, pending) && |indices| > 0
    requires s.hash == hash(s.header.name) && s.next.None?
    requires NewestOf(slots, s.header.name, tail)
    requires forall j :: 0 <= j < |slots| ==> !SameField(slots[j].header, s.header)
    requires |slots| + 1 <= UsableCapacity(|indices|) && 32 * (|slots| + 1) <= WORD
    requires tail.Some? ==> pending.None?
    requires pending.Some? ==> pending == Some(s.hash)
    requires if tail.Some? || pending.Some? then indices' == indices
             else
               var pos := Pos(Id(-1, inserted), s.hash);
               && |indices'| == |indices| && Ordered(indices')
               && multiset(indices') == multiset(indices) - multiset{None} + multiset{Some(pos)}
    ensures var inserted' := (inserted + 1) % WORD;
            Consistent(hash, mask, indices', Pushed(slots, s, inserted', tail), inserted', None)
  {
    PushKeeps(hash, slots, inserted, s, tail);
    var inserted' := (inserted + 1) % WORD;
    var t := Pushed(slots, s, inserted', tail);
    var fresh' := Pos(Id(-1, inserted), s.hash);
    forall p: Pos
      ensures multiset(indices')[Some(p)] == if IsHead(p, t, inserted', None) then 1 else 0
    {
      PushHead(slots, inserted, s, tail, p);
      PendingHead(slots, inserted, pending, p);
      assert multiset(indices)[Some(p)] == if IsHead(p, slots, inserted, pending) then 1 else 0;
      if tail.None? && pending.None? && p == fresh' {
        IdRoundTrip(-1, inserted);
        assert multiset(indices')[Some(p)] == multiset(indices)[Some(p)] + 1;
      }
    }
  }

  lemma PendingHead(slots: seq<Slot>, inserted: nat, pending: Option<nat>, p: Pos)
    requires |slots| < WORD - 1
    ensures IsHead(p, slots, inserted, pending) <==>
            IsHead(p, slots, inserted, None) || (pending.Some? && p == Pos(Id(-1, inserted), pending.value))
    ensures p.index == Id(-1, inserted) ==> !IsHead(p, slots, inserted, None)
  {
    IdRoundTrip(-1, inserted);
    if p.index < WORD {
      IdIff(p.index, -1, inserted);
    }
  }

  lemma OldestAfterPush(slots: seq<Slot>, t: seq<Slot>, k: nat)
    requires k < |slots| && |t| == |slots| + 1
    requires forall j :: 0 < j < |t| ==> t[j].header == slots[j - 1].header
    ensures Oldest(t, k + 1) <==> Oldest(slots, k)
  {
    if Oldest(t, k + 1) {
      forall j | k < j < |slots|
        ensures slots[j].header.name != slots[k].header.name
      {
        assert t[j + 1].header.name != t[k + 1].header.name;
      }
    }
  }

  /** `tail` is the newest slot of some name and `prevIdx` its stored position. */
  ghost predicate IsTail(slots: seq<Slot>, inserted: nat, tail: Option<nat>, prevIdx: Option<nat>)
  {
    match tail
    case None => prevIdx == None
    case Some(k) => k < |slots| && Newest(slots, k) && prevIdx == Some(Id(k, inserted))
  }

  /** The pending bucket once the deque has shrunk to n slots. */
  ghost function Pending(before: seq<Slot>, n: nat, tail: Option<nat>): Option<nat>
    requires tail.Some? ==> tail.value < |before|
  {
    if tail.Some? && n <= tail.value then Some(before[tail.value].hash) else None
  }

  lemma PopTail(before: seq<Slot>, slots: seq<Slot>, inserted: nat, tail: Option<nat>, prevIdx: Option<nat>)
    requires slots <= before && slots != [] && |before| < WORD - 1
    requires Linked(slots, inserted) && IsTail(before, inserted, tail, prevIdx)
    ensures Pending(before, |slots| - 1, tail) ==
            if TakesOver(slots, inserted, prevIdx) then Some(slots[|slots| - 1].hash)
            else Pending(before, |slots|, tail)
    ensures prevIdx == Some(Id(|slots| - 1, inserted)) ==> Pending(before, |slots|, tail).None?
  {
    var n := |slots| - 1;
    assert LinkOk(slots, inserted, n);
    if tail.Some? {
      IdRoundTrip(tail.value, inserted);
      IdRoundTrip(n, inserted);
    }
  }

  lemma ConvergeStart(hash: Name -> nat, mask: nat, indices: Buckets, slots: seq<Slot>, inserted: nat,
                      tail: Option<nat>, prevIdx: Option<nat>, budget: nat)
    requires Consistent(hash, mask, indices, slots, inserted, None) && IsTail(slots, inserted, tail, prevIdx)
    ensures tail.Some? ==> tail.value < |slots|
    ensures Consistent(hash, mask, indices, slots, inserted, Pending(slots, |slots|, tail))
  {
  }

  lemma ConvergeRound(hash: Name -> nat, mask: nat, indices: Buckets, before: seq<Slot>, slots: seq<Slot>,
                      inserted: nat, tail: Option<nat>, prevIdx: Option<nat>, budget: nat)
    requires slots <= before && IsTail(before, inserted, tail, prevIdx) && |before| < WORD - 1
    requires Consistent(hash, mask, indices, slots, inserted, Pending(before, |slots|, tail))
    requires SlotBytes(before, |slots|) > budget
    ensures slots != [] && |indices| > 0
    ensures prevIdx == Some(Id(|slots| - 1, inserted)) ==> Pending(before, |slots|, tail).None?
    ensures SlotBytes(before, |slots|) == SlotBytes(before, |slots| - 1) + Len(slots[|slots| - 1].header)
    ensures Fit(before, |slots|, budget) == Fit(before, |slots| - 1, budget)
    ensures Pending(before, |slots| - 1, tail) ==
            if TakesOver(slots, inserted, prevIdx) then Some(slots[|slots| - 1].hash)
            else Pending(before, |slots|, tail)
  {
    PopTail(before, slots, inserted, tail, prevIdx);
  }

  lemma ConvergeEnd(slots: seq<Slot>, n: nat, budget: nat)
    requires n <= |slots| && SlotBytes(slots, n) <= budget
    ensures Fit(slots, n, budget) == n
  {
  }

  /** Bytes taken by the newest n slots. */
  ghost function SlotBytes(slots: seq<Slot>, n: nat): nat
    requires n <= |slots|
  {
    if n == 0 then 0 else SlotBytes(slots, n - 1) + Len(slots[n - 1].header)
  }

  /** How many of the newest n slots fit the budget. */
  ghost function Fit(slots: seq<Slot>, n: nat, budget: nat): (r: nat)
    requires n <= |slots|
    ensures r <= n
  {
    if SlotBytes(slots, n) <= budget then n else Fit(slots, n - 1, budget)
  }

  lemma {:induction false} SlotBytesIsSize(slots: seq<Slot>, n: nat)
    requires n <= |slots|
    ensures SlotBytes(slots, n) == Size(Headers(slots[..n]))
  {
    if n > 0 {
      SlotBytesIsSize(slots, n - 1);
      var es := Headers(slots[..n]);
      assert es[..|es| - 1] == Headers(slots[..n - 1]);
    }
  }

  lemma {:induction false} FitIsEvict(slots: seq<Slot>, n: nat, budget: nat)
    requires n <= |slots|
    ensures Headers(slots[..Fit(slots, n, budget)]) == Evict(Headers(slots[..n]), budget)
  {
    SlotBytesIsSize(slots, n);
    if SlotBytes(slots, n) > budget {
      FitIsEvict(slots, n - 1, budget);
      var es := Headers(slots[..n]);
      assert es[..|es| - 1] == Headers(slots[..n - 1]);
    }
  }

  /** The evicted slot is the one the pending header would have been linked from. */
  ghost predicate TakesOver(slots: seq<Slot>, inserted: nat, prevIdx: Option<nat>)
    requires slots != []
  {
    slots[|slots| - 1].next.None? && prevIdx == Some(Id(|slots| - 1, inserted))
  }

  lemma EvictStart(hash: Name -> nat, mask: nat, indices: Buckets, slots: seq<Slot>, inserted: nat,
      pending: Option<nat>)
    requires Consistent(hash, mask, indices, slots, inserted, pending) && slots != []
    ensures Sized(|indices|, mask) && Ordered(indices) && HeadsOk(indices, slots, inserted, pending)
    ensures |slots| < WORD - 1 && None in indices
  {
    var a := EmptyBucket(indices, slots, inserted, pending);
    assert indices[a] == None;
  }

  lemma EvictEnd(hash: Name -> nat, mask: nat, was: Buckets, indices: Buckets, slots: seq<Slot>, inserted: nat,
                 pending: Option<nat>, prevIdx: Option<nat>, probe: nat)
    requires Consistent(hash, mask, was, slots, inserted, pending) && slots != []
    requires prevIdx == Some(Id(|slots| - 1, inserted)) ==> pending.None?
    requires |indices| == |was| && Ordered(indices) && probe < |was|
    requires was[probe] == Some(Pos(Id(|slots| - 1, inserted), slots[|slots| - 1].hash))
    requires var slot := slots[|slots| - 1];
             multiset(indices) == multiset(was[probe :=
               if slot.next.Some? then Some(Pos(slot.next.value, slot.hash))
               else if prevIdx == Some(was[probe].value.index) then Some(Pos(Id(-1, inserted), slot.hash))
               else None])
    ensures Consistent(hash, mask, indices, slots[..|slots| - 1], inserted,
                       if TakesOver(slots, inserted, prevIdx) then Some(slots[|slots| - 1].hash) else pending)
  {
    PopKeeps(hash, slots, inserted);
    HeadsAfterPop(hash, was, slots, inserted, pending, TakesOver(slots, inserted, prevIdx), probe);
  }

  lemma PopKeeps(hash: Name -> nat, slots: seq<Slot>, inserted: nat)
    requires slots != [] && Hashed(hash, slots) && Linked(slots, inserted) && Distinct(Headers(slots))
    ensures var t := slots[..|slots| - 1];
            && Hashed(hash, t) && Linked(t, inserted) && Distinct(Headers(t))
            && Headers(t) == Headers(slots)[..|slots| - 1]
  {
    var t := slots[..|slots| - 1];
    forall k | 0 <= k < |t|
      ensures LinkOk(t, inserted, k)
    {
      assert LinkOk(slots, inserted, k);
    }
    assert Headers(t) == Headers(slots)[..|slots| - 1];
  }

  /** From its desired bucket to the bucket of an occupant there is no empty bucket. */
  lemma PathTo(s: Buckets, q: nat) returns (d: nat)
    requires q < |s| && Ordered(s) && s[q].Some?
    ensures d == E(s, q) && At(s, q) == s[q]
    ensures (s[q].value.hash + d) % |s| == q
    ensures forall i: int {:trigger E(s, i)} ::
              s[q].value.hash <= i <= s[q].value.hash + d ==> E(s, i) >= i - s[q].value.hash
  {
    var c, h := |s|, s[q].value.hash;
    ModSmall(q, c);
    d := E(s, q);
    assert (h + d) % c == q by {
      ModAddK(q - h, h, c);
    }
    forall i: int | h <= i <= h + d
      ensures E(s, i) >= i - h
    {
      WalkBack(s, h + d, h + d - i);
      SameBucket(s, h + d, q);
    }
  }

  /** One round of the loop in `remove_phase_two`: either the shift is over, or the hole moves on. */
  lemma ShiftRound(s: Buckets, was: Buckets, mask: nat, q: int, i: int, gap: nat)
    requires Shifting(s, was, q, i) && Sized(|s|, mask)
    requires i < q + gap < q + |s| && At(was, q + gap).None?
    ensures var last, p := i % |s|, (i + 1) % |s|;
            if s[p].None? || ProbeDistance(mask, s[p].value.hash, p) == 0 then Ordered(s) && Below(s, was)
            else
              && Shifting(s[last := s[p]][p := None], was, q, i + 1)
              && multiset(s[last := s[p]][p := None]) == multiset(s)
              && NextBucket(p, |s|) == (i + 2) % |s|
              && i + 1 < q + gap
  {
    var c := |s|;
    var p := (i + 1) % c;
    if s[p].None? {
      ShiftEnd(s, was, q, i);
    } else {
      DistanceAt(s, mask, i + 1);
      if E(s, i + 1) == 0 {
        ShiftEnd(s, was, q, i);
      } else {
        assert E(was, q + gap) == -1;
        ShiftStep(s, was, q, i);
        NeighbourDiffers(i, c);
        SwapKeeps(s, i % c, p);
        NextIsMod(p, i + 1, c);
      }
    }
  }

  /** A backward shift that started at bucket q and whose hole is now at bucket i. */
  ghost predicate Shifting(s: Buckets, was: Buckets, q: int, i: int)
  {
    && |s| == |was| >= 8
    && q <= i < q + |s| - 1
    && Ordered(was)
    && Hole(s, i)
    && Below(s, was)
    && forall j: int {:trigger E(s, j)} :: i < j < q + |s| ==> E(s, j) == E(was, j)
  }

  /** No bucket's distance exceeds what it was. */
  ghost predicate Below(s: Buckets, was: Buckets)
    requires |s| == |was| > 0
  {
    forall j: int {:trigger E(s, j)} :: E(s, j) <= E(was, j)
  }

  lemma BelowRefl(s: Buckets)
    requires |s| > 0
    ensures Below(s, s)
  {
  }

  lemma BelowTrans(s: Buckets, t: Buckets, u: Buckets)
    requires |s| == |t| == |u| > 0 && Below(s, t) && Below(t, u)
    ensures Below(s, u)
  {
    forall j: int
      ensures E(s, j) <= E(u, j)
    {
      assert E(t, j) <= E(u, j);
    }
  }

  lemma ShiftStart(was: Buckets, q: int)
    requires |was| >= 8 && Ordered(was)
    ensures Shifting(was[q % |was| := None], was, q, q)
  {
    var c := |was|;
    var s := was[q % c := None];
    Remove(was, q);
    forall j: int
      ensures E(s, j) <= E(was, j)
      ensures q < j < q + c ==> E(s, j) == E(was, j)
    {
      Updated(was, q, None, j);
      if q < j < q + c {
        OffsetDiffers(q, j - q, c);
      }
    }
  }

  lemma ShiftStep(s: Buckets, was: Buckets, q: int, i: int)
    requires Shifting(s, was, q, i) && E(s, i + 1) > 0
    requires i + 1 < q + |s| - 1
    ensures Shifting(s[i % |s| := At(s, i + 1)][(i + 1) % |s| := None], was, q, i + 1)
  {
    var c := |s|;
    var s' := s[i % c := At(s, i + 1)][(i + 1) % c := None];
    ShiftBack(s, i);
    assert Slope(was, i);
    forall j: int
      ensures E(s', j) <= E(was, j)
      ensures i + 1 < j < q + c ==> E(s', j) == E(was, j)
    {
      if i + 1 < j < q + c {
        OffsetDiffers(i, j - i, c);
        OffsetDiffers(i + 1, j - i - 1, c);
      }
      if j % c == i % c {
        SameBucket(s', j, i);
        SameBucket(was, j, i);
      } else if j % c == (i + 1) % c {
        SameBucket(s', j, i + 1);
      } else {
        assert E(s', j) == E(s, j);
      }
    }
  }

  lemma ShiftEnd(s: Buckets, was: Buckets, q: int, i: int)
    requires Shifting(s, was, q, i) && E(s, i + 1) <= 0
    ensures Ordered(s) && Below(s, was)
  {
    FilledIn(s, i);
  }

  /** The code's probe distance of an occupant is E. */
  lemma DistanceAt(s: Buckets, mask: nat, i: int)
    requires Sized(|s|, mask) && At(s, i).Some?
    ensures ProbeDistance(mask, At(s, i).value.hash, i % |s|) == E(s, i)
  {
    SizedPositions(|s|, mask, At(s, i).value.hash, i % |s|);
    ModSub(i, At(s, i).value.hash, |s|);
  }

  lemma OffsetDiffers(i: int, j: int, c: int)
    requires 0 < j < c
    ensures (i + j) % c != i % c
  {
    ModAddK(i, j, c);
    if i % c + j < c {
      ModSmall(i % c + j, c);
    } else {
      ModPeriod(i % c + j - c, 1, c);
      ModSmall(i % c + j - c, c);
    }
  }

  /** How far the next empty bucket is. */
  lemma GapAfter(s: Buckets, q: nat) returns (gap: nat)
    requires q < |s| && s[q].Some? && None in s
    ensures 0 < gap < |s| && At(s, q + gap).None?
  {
    var c := |s|;
    var a :| 0 <= a < c && s[a].None?;
    gap := (a - q) % c;
    if q < a {
      ModSmall(a - q, c);
      ModSmall(a, c);
    } else {
      ModPeriod(a - q + c, -1, c);
      ModSmall(a - q + c, c);
      ModPeriod(a, 1, c);
      ModSmall(a, c);
      assert q + gap == a + 1 * c;
    }
  }
}
