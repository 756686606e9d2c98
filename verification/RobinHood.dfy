/**
 The bucket array of the HPACK encoder's index (`Table::indices`), seen as a circular sequence. `E` is the probe
 distance of the occupant of a bucket, and -1 for an empty bucket. The Robin Hood invariant is one inequality: from one
 bucket to the next, `E` grows by at most one.
 */
module RobinHood {
  import opened Arith
  import opened Common

  datatype Pos = Pos(index: nat, hash: nat)

  type Buckets = seq<Option<Pos>>

  const WORD := 0x1_0000_0000_0000_0000

  function WrappingSub(a: nat, b: nat): (r: nat)
  {
    (a - b) % WORD
  }

  /** `desired_pos` */
  function DesiredPos(mask: nat, hash: nat): nat
  {
    BitAnd(hash, mask)
  }

  /** `probe_distance` */
  function ProbeDistance(mask: nat, hash: nat, current: nat): nat
  {
    BitAnd(WrappingSub(current, DesiredPos(mask, hash)), mask)
  }

  /** `usable_capacity` */
  function UsableCapacity(cap: nat): nat
  {
    cap - cap / 4
  }

  ghost predicate PowerOfTwo(c: nat, k: nat)
  {
    3 <= k < 64 && c == Pow2(k)
  }

  ghost predicate Sized(c: nat, mask: nat)
  {
    mask + 1 == c && c >= 8 && exists k: nat :: PowerOfTwo(c, k)
  }

  lemma WordIsPow2()
    ensures Pow2(64) == WORD
  {
    hide Pow2;
    Pow2OfEight();
    Pow2Add(8, 8);
    Pow2Add(16, 16);
    Pow2Add(32, 32);
  }

  lemma Pow2OfEight()
    ensures Pow2(8) == 256
  {
    assert Pow2(4) == 16;
  }

  lemma WordMultiple(k: nat)
    requires k <= 64
    ensures Pow2(k) * Pow2(64 - k) == WORD
  {
    WordIsPow2();
    Pow2Add(k, 64 - k);
  }

  lemma SizedPositions(c: nat, mask: nat, hash: nat, current: nat)
    requires Sized(c, mask)
    ensures DesiredPos(mask, hash) == hash % c
    ensures ProbeDistance(mask, hash, current) == (current - hash) % c
  {
    var k: nat :| PowerOfTwo(c, k);
    MaskIsMod(hash, k);
    MaskIsMod(WrappingSub(current, hash % c), k);
    WordMultiple(k);
    ModMod(current - hash % c, c, Pow2(64 - k));
    ModSub(current, hash, c);
  }

  lemma SizedDouble(c: nat, mask: nat)
    requires Sized(c, mask)
    requires 2 * c < WORD
    ensures Sized(2 * c, 2 * c - 1)
  {
    var k: nat :| PowerOfTwo(c, k);
    WordIsPow2();
    assert k != 63;
    assert PowerOfTwo(2 * c, k + 1);
  }

  /** Bucket `i`, counted around the circle. */
  ghost function At(s: Buckets, i: int): Option<Pos>
    requires |s| > 0
  {
    s[i % |s|]
  }

  ghost function Home(s: Buckets, p: Pos, i: int): (d: int)
    requires |s| > 0
    ensures 0 <= d < |s|
  {
    (i - p.hash) % |s|
  }

  ghost function E(s: Buckets, i: int): (e: int)
    requires |s| > 0
    ensures -1 <= e < |s|
    ensures e == -1 <==> At(s, i).None?
  {
    match At(s, i)
    case None => -1
    case Some(p) => Home(s, p, i)
  }

  ghost predicate Slope(s: Buckets, i: int)
    requires |s| > 0
  {
    E(s, i + 1) <= E(s, i) + 1
  }

  /** The Robin Hood invariant. */
  ghost predicate Ordered(s: Buckets)
    requires |s| > 0
  {
    forall i: int {:trigger Slope(s, i)} :: Slope(s, i)
  }

  lemma EPeriod(s: Buckets, i: int, k: int)
    requires |s| > 0
    ensures At(s, i + k * |s|) == At(s, i)
    ensures E(s, i + k * |s|) == E(s, i)
  {
    var c := |s|;
    ModPeriod(i, k, c);
    if At(s, i).Some? {
      ModPeriod(i - At(s, i).value.hash, k, c);
      assert i + k * c - At(s, i).value.hash == (i - At(s, i).value.hash) + k * c;
    }
  }

  /** Positions with the same remainder are the same bucket. */
  lemma SameBucket(s: Buckets, i: int, j: int)
    requires |s| > 0 && i % |s| == j % |s|
    ensures At(s, i) == At(s, j) && E(s, i) == E(s, j)
  {
    var c := |s|;
    var k := i / c - j / c;
    assert i == j + k * c;
    EPeriod(s, j, k);
  }

  lemma AtIndex(s: Buckets, i: int)
    requires 0 <= i < |s|
    ensures At(s, i) == s[i]
  {
    ModSmall(i, |s|);
  }

  /** Walking back j buckets lowers E by at most j. */
  lemma {:induction false} WalkBack(s: Buckets, i: int, j: nat)
    requires |s| > 0 && Ordered(s)
    ensures E(s, i - j) >= E(s, i) - j
    decreases j
  {
    if j > 0 {
      WalkBack(s, i, j - 1);
      assert Slope(s, i - j);
    }
  }

  /** With an empty bucket around, no occupant sits a full circle from its desired bucket. */
  lemma NotFull(s: Buckets, i: int, a: int)
    requires |s| > 0 && Ordered(s) && At(s, a).None?
    ensures E(s, i) < |s| - 1
  {
    hide *;
    var j := (i - a) % |s|;
    WalkBack(s, i, j);
    ModBack(i, a, |s|);
    SameBucket(s, i - j, a);
  }

  /** Overwriting bucket i leaves the others alone. */
  lemma Updated(s: Buckets, i: int, v: Option<Pos>, j: int)
    requires |s| > 0
    ensures var s' := s[i % |s| := v];
            At(s', j) == if j % |s| == i % |s| then v else At(s, j)
    ensures var s' := s[i % |s| := v];
            j % |s| != i % |s| ==> E(s', j) == E(s, j)
  {
  }

  lemma NeighbourDiffers(i: int, c: int)
    requires c >= 2
    ensures (i + 1) % c != i % c && (i - 1) % c != i % c
  {
    ModSucc(i, c);
    ModSucc(i - 1, c);
  }

  lemma SameNext(i: int, j: int, c: int)
    requires c >= 2
    ensures (i + 1) % c == (j + 1) % c <==> i % c == j % c
  {
    ModSucc(i, c);
    ModSucc(j, c);
  }

  /** Putting an entry where it is at least as far from home as the present occupant, and at most one further than its
      predecessor, keeps the invariant. */
  lemma Place(s: Buckets, i: int, p: Pos)
    requires |s| >= 8 && Ordered(s)
    requires E(s, i) <= Home(s, p, i) <= E(s, i - 1) + 1
    ensures Ordered(s[i % |s| := Some(p)])
    ensures E(s[i % |s| := Some(p)], i) == Home(s, p, i)
  {
    var c := |s|;
    var s' := s[i % c := Some(p)];
    forall j: int
      ensures Slope(s', j)
    {
      assert Slope(s, j);
      Updated(s, i, Some(p), j);
      Updated(s, i, Some(p), j + 1);
      if j % c == i % c {
        PlacedDistance(s, s', i, j, p);
        NeighbourDiffers(j, c);
        SameBucket(s, i, j);
      } else if (j + 1) % c == i % c {
        PlacedDistance(s, s', i, j + 1, p);
        SameNext(j, i - 1, c);
        SameBucket(s, j, i - 1);
      }
    }
    PlacedDistance(s, s', i, i, p);
  }

  lemma PlacedDistance(s: Buckets, s': Buckets, i: int, j: int, p: Pos)
    requires |s| == |s'| > 0 && i % |s| == j % |s| && At(s', j) == Some(p)
    ensures E(s', j) == Home(s, p, i)
  {
    ModSub(i, p.hash, |s|);
    ModSub(j, p.hash, |s|);
  }

  /** Moving the occupant of bucket i one bucket forward adds one to its distance. */
  lemma HomeNext(s: Buckets, p: Pos, i: int)
    requires |s| > 0 && Home(s, p, i) < |s| - 1
    ensures Home(s, p, i + 1) == Home(s, p, i) + 1
  {
    ModSucc(i - p.hash, |s|);
    assert (i + 1) - p.hash == (i - p.hash) + 1;
  }

  lemma HomePrev(s: Buckets, p: Pos, i: int)
    requires |s| > 0 && Home(s, p, i) > 0
    ensures Home(s, p, i - 1) == Home(s, p, i) - 1
  {
    ModSucc(i - 1 - p.hash, |s|);
    assert (i - 1 - p.hash) + 1 == i - p.hash;
  }

  /** The state in the middle of a backward shift: bucket i is a hole. */
  ghost predicate Hole(s: Buckets, i: int)
    requires |s| > 0
  {
    && At(s, i).None?
    && E(s, i + 1) <= E(s, i - 1) + 2
    && forall j: int {:trigger Slope(s, j)} :: j % |s| != i % |s| ==> Slope(s, j)
  }

  lemma Remove(s: Buckets, i: int)
    requires |s| >= 8 && Ordered(s)
    ensures Hole(s[i % |s| := None], i)
  {
    var c := |s|;
    var s' := s[i % c := None];
    assert Slope(s, i) && Slope(s, i - 1);
    Updated(s, i, None, i);
    Updated(s, i, None, i + 1);
    Updated(s, i, None, i - 1);
    NeighbourDiffers(i, c);
    forall j: int | j % c != i % c
      ensures Slope(s', j)
    {
      assert Slope(s, j);
      Updated(s, i, None, j);
      Updated(s, i, None, j + 1);
    }
  }

  /** A hole whose successor is empty or at home is no hole. */
  lemma FilledIn(s: Buckets, i: int)
    requires |s| >= 8 && Hole(s, i) && E(s, i + 1) <= 0
    ensures Ordered(s)
  {
    forall j: int
      ensures Slope(s, j)
    {
      if j % |s| == i % |s| {
        SameBucket(s, j, i);
        SameNext(j, i, |s|);
        SameBucket(s, j + 1, i + 1);
      }
    }
  }

  /** One step of the backward shift. */
  lemma ShiftBack(s: Buckets, i: int)
    requires |s| >= 8 && Hole(s, i) && E(s, i + 1) > 0
    ensures var s' := s[i % |s| := At(s, i + 1)][(i + 1) % |s| := None];
            && Hole(s', i + 1)
            && E(s', i) == E(s, i + 1) - 1
            && forall j: int :: j % |s| != i % |s| && j % |s| != (i + 1) % |s| ==> E(s', j) == E(s, j)
  {
    var c := |s|;
    var p := At(s, i + 1).value;
    var m := s[i % c := Some(p)];
    var s' := m[(i + 1) % c := None];
    NeighbourDiffers(i, c);
    NeighbourDiffers(i + 1, c);
    HomePrev(s, p, i + 1);
    forall j: int
      ensures At(s', j) == if j % c == (i + 1) % c then None else if j % c == i % c then Some(p) else At(s, j)
      ensures j % c != i % c && j % c != (i + 1) % c ==> E(s', j) == E(s, j)
    {
      Updated(s, i, Some(p), j);
      Updated(m, i + 1, None, j);
    }
    PlacedDistance(s, s', i, i, p);
    assert E(s', i) == E(s, i + 1) - 1;
    assert Slope(s, i + 1) by { NeighbourDiffers(i, c); }
    assert (i + 2) % c != i % c by { ModSucc(i, c); ModSucc(i + 1, c); }
    assert E(s', i + 2) == E(s, i + 2);
    assert (i - 1) % c != (i + 1) % c by { ModSucc(i, c); ModSucc(i - 1, c); }
    forall j: int | j % c != (i + 1) % c
      ensures Slope(s', j)
    {
      SameNext(j, i, c);
      SameNext(j, i - 1, c);
      if j % c == i % c {
        SameBucket(s', j + 1, i + 1);
      } else if (j + 1) % c == i % c {
        SameBucket(s', j + 1, i);
        SameBucket(s', j, i - 1);
        SameBucket(s, j, i - 1);
      } else {
        assert Slope(s, j);
      }
    }
  }

  /** Swapping an empty bucket with a full one keeps the contents. */
  lemma SwapKeeps(s: Buckets, i: nat, j: nat)
    requires i < |s| && j < |s| && i != j && s[i].None?
    ensures multiset(s[i := s[j]][j := None]) == multiset(s)
  {
    var m := s[i := s[j]];
    assert multiset(m) == multiset(s) - multiset{s[i]} + multiset{s[j]};
    assert multiset(m[j := None]) == multiset(m) - multiset{m[j]} + multiset{None};
  }
}
