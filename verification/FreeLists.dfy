/**
 The free lists of the buddy allocator as values: which blocks they hold, when a set of
 blocks is well placed, and why a well-placed set without free buddies is a function of the
 set of free frames alone.
 */
module FreeLists {
  import opened Bits
  import opened Sequences

  const MAX_ORDER: nat := 12

  // free_area: one list of block heads per order.
  type Lists = seq<seq<nat>>

  function EmptyLists(): Lists
  {
    seq(MAX_ORDER + 1, _ => [])
  }

  ghost predicate InList(ls: Lists, k: nat, i: nat)
  {
    k < |ls| && i in ls[k]
  }

  // Frame f belongs to the block of order k at i.
  predicate Inside(f: int, i: nat, k: nat)
  {
    i <= f < i + Pow2(k)
  }

  predicate Disjoint(i: nat, k: nat, j: nat, m: nat)
  {
    i + Pow2(k) <= j || j + Pow2(m) <= i
  }

  ghost predicate Covered(ls: Lists, f: nat)
  {
    exists k: nat, i: nat :: InList(ls, k, i) && Inside(f, i, k)
  }

  ghost function FreeFrames(ls: Lists, n: nat): set<nat>
  {
    set f: nat | f < n && Covered(ls, f)
  }

  ghost function BlockFrames(i: nat, k: nat): set<nat>
  {
    set f: nat | f < i + Pow2(k) && Inside(f, i, k)
  }

  // Every block is naturally aligned and inside the managed frames, and no two overlap.
  ghost predicate Placed(ls: Lists, n: nat)
  {
    true == (&& |ls| == MAX_ORDER + 1
             && (forall k: nat :: k < |ls| ==> NoDup(ls[k]))
             && (forall k: nat, i: nat :: InList(ls, k, i) ==> Aligned(i, k) && i + Pow2(k) <= n)
             && (forall k: nat, i: nat, m: nat, j: nat ::
                   InList(ls, k, i) && InList(ls, m, j) && (k != m || i != j) ==> Disjoint(i, k, j, m)))
  }

  // Free blocks of order k whose buddy is free at the same order.
  ghost function FreeBuddies(ls: Lists, k: nat): set<nat>
    requires k < |ls|
  {
    set i: nat | i in ls[k] && InList(ls, k, Buddy(i, k))
  }

  ghost predicate NoBuddies(ls: Lists)
  {
    |ls| == MAX_ORDER + 1 && forall k: nat :: k < MAX_ORDER ==> FreeBuddies(ls, k) == {}
  }

  // The block (i, k) shares no frame with any free block.
  ghost predicate Apart(ls: Lists, i: nat, k: nat)
  {
    forall m: nat, j: nat :: InList(ls, m, j) ==> Disjoint(i, k, j, m)
  }

  // ---------- dyadic geometry ----------

  // Aligned blocks are nested or disjoint.
  lemma {:induction false} Laminar(i: nat, k: nat, j: nat, m: nat)
    requires Aligned(i, k) && Aligned(j, m) && k <= m
    requires !Disjoint(i, k, j, m)
    ensures j <= i && i + Pow2(k) <= j + Pow2(m)
  {
    if k > 0 {
      Laminar(i / 2, k - 1, j / 2, m - 1);
    }
  }

  lemma {:induction false} BuddyShape(i: nat, k: nat)
    requires Aligned(i, k)
    ensures Aligned(Buddy(i, k), k) && Buddy(Buddy(i, k), k) == i
    ensures Aligned(i, k + 1) ==> Buddy(i, k) == i + Pow2(k) && !Aligned(i + Pow2(k), k + 1)
    ensures !Aligned(i, k + 1) ==> i >= Pow2(k) && Buddy(i, k) == i - Pow2(k) && Aligned(i - Pow2(k), k + 1)
  {
    if k > 0 {
      BuddyShape(i / 2, k - 1);
      assert Buddy(i, k) / 2 == Buddy(i / 2, k - 1);
    } else {
      assert forall x: nat :: Aligned(x, 1) <==> x % 2 == 0;
    }
  }

  // The head of the block of order k + 1 that (i, k) is a half of.
  function Parent(i: nat, k: nat): nat
  {
    if Aligned(i, k + 1) then i else if i >= Pow2(k) then i - Pow2(k) else 0
  }

  lemma SecondHalf(i: nat, k: nat)
    requires Aligned(i, k + 1)
    ensures Aligned(i, k) && Aligned(i + Pow2(k), k)
  {
    AlignedDown(i, k, k + 1);
    BuddyShape(i, k);
  }

  // ---------- the free blocks are a function of the free frames ----------

  ghost predicate AllFree(ls: Lists, i: nat, k: nat)
  {
    forall f: nat :: Inside(f, i, k) ==> Covered(ls, f)
  }

  lemma AllFreeHalves(ls: Lists, i: nat, k: nat)
    requires AllFree(ls, i, k + 1)
    ensures AllFree(ls, i, k) && AllFree(ls, i + Pow2(k), k)
  {
    assert forall f: nat :: Inside(f, i, k) || Inside(f, i + Pow2(k), k) ==> Inside(f, i, k + 1);
  }

  lemma NotBothHalves(ls: Lists, i: nat, k: nat)
    requires NoBuddies(ls) && k < MAX_ORDER && Aligned(i, k + 1)
    ensures !(InList(ls, k, i) && InList(ls, k, i + Pow2(k)))
  {
    SecondHalf(i, k);
    BuddyShape(i, k);
    assert InList(ls, k, i) && InList(ls, k, i + Pow2(k)) ==> i in FreeBuddies(ls, k);
  }

  // A wholly free aligned run lies inside one free block: were it pieced together from
  // smaller ones, two of the pieces would be free buddies.
  lemma {:induction false} RunInOneBlock(ls: Lists, n: nat, i: nat, k: nat) returns (m: nat, j: nat)
    requires Placed(ls, n) && NoBuddies(ls)
    requires k <= MAX_ORDER && Aligned(i, k) && AllFree(ls, i, k)
    ensures InList(ls, m, j) && k <= m && j <= i && i + Pow2(k) <= j + Pow2(m)
    decreases k
  {
    if k == 0 {
      assert Inside(i, i, 0) && Covered(ls, i);
      m, j :| InList(ls, m, j) && Inside(i, j, m);
    } else {
      hide Placed, NoBuddies, AllFree, InList;
      var h := i + Pow2(k - 1);
      SecondHalf(i, k - 1);
      AllFreeHalves(ls, i, k - 1);
      NotBothHalves(ls, i, k - 1);
      m, j := RunInOneBlock(ls, n, i, k - 1);
      var m', j' := RunInOneBlock(ls, n, h, k - 1);
      if m >= k {
        WholeRun(ls, n, i, k, i, m, j);
      } else if m' >= k {
        WholeRun(ls, n, i, k, h, m', j');
        m, j := m', j';
      }
    }
  }

  // A free block of order k or more that contains half of (i, k) contains all of it.
  lemma WholeRun(ls: Lists, n: nat, i: nat, k: nat, h: nat, m: nat, j: nat)
    requires Placed(ls, n) && 0 < k <= m && Aligned(i, k) && InList(ls, m, j)
    requires (h == i || h == i + Pow2(k - 1)) && j <= h && h + Pow2(k - 1) <= j + Pow2(m)
    ensures j <= i && i + Pow2(k) <= j + Pow2(m)
  {
    Laminar(i, k, j, m);
  }

  // (i, k) is a maximal naturally aligned block, of order at most MAX_ORDER, inside F.
  ghost predicate MaximalBlock(F: set<nat>, i: nat, k: nat)
  {
    && k <= MAX_ORDER && Aligned(i, k) && BlockFrames(i, k) <= F
    && forall m: nat, j: nat ::
         k < m <= MAX_ORDER && Aligned(j, m) && j <= i && i + Pow2(k) <= j + Pow2(m)
         ==> !(BlockFrames(j, m) <= F)
  }

  lemma AllFreeIffSubset(ls: Lists, n: nat, i: nat, k: nat)
    requires Placed(ls, n)
    ensures AllFree(ls, i, k) <==> BlockFrames(i, k) <= FreeFrames(ls, n)
  {
    if AllFree(ls, i, k) {
      forall f | f in BlockFrames(i, k)
        ensures f in FreeFrames(ls, n)
      {
        assert Inside(f, i, k) && Covered(ls, f);
        var m: nat, j: nat :| InList(ls, m, j) && Inside(f, j, m);
      }
    }
    if BlockFrames(i, k) <= FreeFrames(ls, n) {
      forall f: nat | Inside(f, i, k)
        ensures Covered(ls, f)
      {
        assert f in BlockFrames(i, k);
      }
    }
  }

  // Canonical form: the free lists hold exactly the maximal aligned blocks of the free set.
  lemma CanonicalForm(ls: Lists, n: nat, k: nat, i: nat)
    requires Placed(ls, n) && NoBuddies(ls)
    ensures InList(ls, k, i) <==> MaximalBlock(FreeFrames(ls, n), i, k)
  {
    var F := FreeFrames(ls, n);
    AllFreeIffSubset(ls, n, i, k);
    if InList(ls, k, i) {
      assert AllFree(ls, i, k);
      forall m: nat, j: nat | k < m <= MAX_ORDER && Aligned(j, m) && j <= i && i + Pow2(k) <= j + Pow2(m)
        ensures !(BlockFrames(j, m) <= F)
      {
        AllFreeIffSubset(ls, n, j, m);
        if AllFree(ls, j, m) {
          var m', j' := RunInOneBlock(ls, n, j, m);
        }
      }
    }
    if MaximalBlock(F, i, k) {
      var m, j := RunInOneBlock(ls, n, i, k);
      assert AllFree(ls, j, m);
      AllFreeIffSubset(ls, n, j, m);
      assert k == m;
    }
  }

  // History independence: equal free frames, equal blocks of every order.
  lemma SameFramesSameBlocks(a: Lists, b: Lists, n: nat, k: nat, i: nat)
    requires Placed(a, n) && NoBuddies(a) && Placed(b, n) && NoBuddies(b)
    requires FreeFrames(a, n) == FreeFrames(b, n)
    ensures InList(a, k, i) <==> InList(b, k, i)
  {
    CanonicalForm(a, n, k, i);
    CanonicalForm(b, n, k, i);
  }
}
