/**
 What alloc_pages, free_pages and memory_reserve do to the free lists, as functions on
 values, and what each does to the set of free frames.
 */
module BuddyOps {
  import opened Bits
  import opened FreeLists
  import opened Sequences

  // list_add puts the new block at the head.
  function Add(ls: Lists, k: nat, i: nat): Lists
    requires k < |ls|
  {
    ls[k := [i] + ls[k]]
  }

  function Remove(ls: Lists, k: nat, i: nat): Lists
    requires k < |ls|
  {
    ls[k := Without(ls[k], i)]
  }

  // The smallest order from k upwards with a free block; |ls| when there is none.
  function FirstNonEmpty(ls: Lists, k: nat): (c: nat)
    ensures k < |ls| ==> k <= c <= |ls|
    ensures c < |ls| ==> ls[c] != []
    ensures forall m: nat :: k <= m < c && m < |ls| ==> ls[m] == []
    decreases |ls| - k
  {
    if k >= |ls| then |ls| else if ls[k] != [] then k else FirstNonEmpty(ls, k + 1)
  }

  // The block of order c at i cut down to order k: every right half goes back to its list.
  function Split(ls: Lists, i: nat, c: nat, k: nat): (r: Lists)
    requires k <= c < |ls|
    ensures |r| == |ls|
    decreases c - k
  {
    if k == c then ls else Add(Split(ls, i, c, k + 1), k, i + Pow2(k))
  }

  datatype AllocResult = OutOfMemory | Allocated(head: nat, rest: Lists)

  function Alloc(ls: Lists, k: nat): AllocResult
  {
    var c := FirstNonEmpty(ls, k);
    if k >= |ls| || c >= |ls| then OutOfMemory
    else Allocated(ls[c][0], Split(ls[c := ls[c][1..]], ls[c][0], c, k))
  }

  // The merge test of free_pages.
  predicate CanMerge(ls: Lists, n: nat, i: nat, k: nat)
    requires |ls| == MAX_ORDER + 1
  {
    k < MAX_ORDER && Xor(i, Pow2(k)) < n && Xor(i, Pow2(k)) in ls[k]
  }

  function Lower(a: nat, b: nat): nat
  {
    if b < a then b else a
  }

  // Free the block of order k at i: absorb the buddy while it is free at the same order.
  function Merge(ls: Lists, n: nat, i: nat, k: nat): (r: Lists)
    requires |ls| == MAX_ORDER + 1 && k <= MAX_ORDER
    ensures |r| == |ls|
    decreases MAX_ORDER - k
  {
    var b := Xor(i, Pow2(k));
    if CanMerge(ls, n, i, k) then Merge(Remove(ls, k, b), n, Lower(i, b), k + 1)
    else Add(ls, k, i)
  }

  // ---------- adding and removing one block ----------

  lemma AddPlaced(ls: Lists, n: nat, k: nat, i: nat)
    requires Placed(ls, n)
    requires k <= MAX_ORDER && Aligned(i, k) && i + Pow2(k) <= n && Apart(ls, i, k)
    ensures Placed(Add(ls, k, i), n)
    ensures forall m: nat, j: nat :: InList(Add(ls, k, i), m, j) <==> InList(ls, m, j) || (m == k && j == i)
    ensures forall f: nat :: Covered(Add(ls, k, i), f) <==> Covered(ls, f) || Inside(f, i, k)
  {
    var r := Add(ls, k, i);
    assert forall m: nat, j: nat :: InList(r, m, j) <==> InList(ls, m, j) || (m == k && j == i);
    assert !InList(ls, k, i);
    assert InList(r, k, i);
    forall f: nat | Covered(ls, f)
      ensures Covered(r, f)
    {
      var m: nat, j: nat :| InList(ls, m, j) && Inside(f, j, m);
      assert InList(r, m, j);
    }
  }

  lemma AddNoBuddies(ls: Lists, n: nat, k: nat, i: nat)
    requires Placed(ls, n) && NoBuddies(ls)
    requires k <= MAX_ORDER && Aligned(i, k)
    requires k < MAX_ORDER ==> !InList(ls, k, Buddy(i, k))
    ensures NoBuddies(Add(ls, k, i))
  {
    var r := Add(ls, k, i);
    BuddyShape(i, k);
    forall m: nat | m < MAX_ORDER
      ensures FreeBuddies(r, m) == {}
    {
      forall j | j in FreeBuddies(r, m)
        ensures j in FreeBuddies(ls, m)
      {
        assert InList(ls, m, j) || (m == k && j == i);
        if InList(ls, m, j) {
          BuddyShape(j, m);
        }
      }
    }
  }

  lemma RemovePlaced(ls: Lists, n: nat, k: nat, i: nat)
    requires Placed(ls, n) && InList(ls, k, i)
    ensures Placed(Remove(ls, k, i), n) && Apart(Remove(ls, k, i), i, k)
    ensures forall m: nat, j: nat :: InList(Remove(ls, k, i), m, j) <==> InList(ls, m, j) && !(m == k && j == i)
    ensures forall f: nat :: Covered(Remove(ls, k, i), f) <==> Covered(ls, f) && !Inside(f, i, k)
    ensures forall m: nat :: m < |ls| ==> FreeBuddies(Remove(ls, k, i), m) <= FreeBuddies(ls, m)
    ensures NoBuddies(ls) ==> NoBuddies(Remove(ls, k, i))
  {
    var r := Remove(ls, k, i);
    WithoutElems(ls[k], i);
    assert forall m: nat, j: nat :: InList(r, m, j) <==> InList(ls, m, j) && !(m == k && j == i);
    forall m: nat, j: nat | m < |ls| && j in FreeBuddies(r, m)
      ensures j in FreeBuddies(ls, m)
    {
      assert InList(r, m, j);
    }
    forall f: nat | Covered(ls, f) && !Inside(f, i, k)
      ensures Covered(r, f)
    {
      var m: nat, j: nat :| InList(ls, m, j) && Inside(f, j, m);
      assert InList(r, m, j);
    }
  }

  // ---------- alloc_pages ----------

  // Splitting keeps everything placed: the kept left end and the returned halves make up
  // exactly the block that was taken.
  lemma {:induction false} SplitPlaced(ls: Lists, n: nat, i: nat, c: nat, k: nat)
    requires Loose(ls, n, i, c) && k <= c
    ensures Aligned(i, k) && Pow2(k) <= Pow2(c)
    ensures Placed(Split(ls, i, c, k), n) && NoBuddies(Split(ls, i, c, k)) && Apart(Split(ls, i, c, k), i, k)
    ensures forall f: nat ::
              Covered(Split(ls, i, c, k), f) <==> Covered(ls, f) || (Inside(f, i, c) && !Inside(f, i, k))
    decreases c - k
  {
    if k < c {
      var s := Split(ls, i, c, k + 1);
      var h := i + Pow2(k);
      SplitPlaced(ls, n, i, c, k + 1);
      SecondHalf(i, k);
      BuddyShape(i, k);
      assert Apart(s, h, k) && Apart(s, i, k);
      AddPlaced(s, n, k, h);
      AddNoBuddies(s, n, k, h);
    }
  }

  // The half that one turn of the splitting loop gives back is on no list yet.
  lemma SplitHalf(ls: Lists, n: nat, i: nat, c: nat, k: nat)
    requires Loose(ls, n, i, c) && k < c
    ensures var h, s := i + Pow2(k), Split(ls, i, c, k + 1);
            && h < n && h != i && Inside(h, i, c)
            && (forall m: nat :: !InList(s, m, h))
            && Split(ls, i, c, k) == Add(s, k, h)
  {
    SplitPlaced(ls, n, i, c, k + 1);
    assert Inside(i + Pow2(k), i, k + 1);
  }

  ghost predicate FreeRun(ls: Lists, n: nat, i: nat, k: nat)
  {
    Aligned(i, k) && i + Pow2(k) <= n && AllFree(ls, i, k)
  }

  // Completeness and effect of alloc_pages.
  lemma AllocCorrect(ls: Lists, n: nat, k: nat)
    requires Placed(ls, n) && NoBuddies(ls) && k <= MAX_ORDER
    ensures Alloc(ls, k).OutOfMemory? <==> forall i: nat :: !FreeRun(ls, n, i, k)
    ensures Alloc(ls, k).Allocated? ==>
              var Allocated(i, r) := Alloc(ls, k);
              && FreeRun(ls, n, i, k)
              && Placed(r, n) && NoBuddies(r) && Apart(r, i, k)
              && (forall f: nat :: Covered(r, f) <==> Covered(ls, f) && !Inside(f, i, k))
              && FreeFrames(r, n) == FreeFrames(ls, n) - BlockFrames(i, k)
  {
    var c := FirstNonEmpty(ls, k);
    if c < |ls| {
      var i := ls[c][0];
      var ls' := ls[c := ls[c][1..]];
      assert InList(ls, c, i);
      assert ls' == Remove(ls, c, i);
      RemovePlaced(ls, n, c, i);
      SplitPlaced(ls', n, i, c, k);
      assert AllFree(ls, i, c);
      assert FreeRun(ls, n, i, k);
      assert FreeFrames(Split(ls', i, c, k), n) == FreeFrames(ls, n) - BlockFrames(i, k);
    } else {
      forall i: nat
        ensures !FreeRun(ls, n, i, k)
      {
        if FreeRun(ls, n, i, k) {
          var m, j := RunInOneBlock(ls, n, i, k);
        }
      }
    }
  }

  // ---------- free_pages ----------

  // A block outside the free lists that may be put back as it is, or merged further.
  ghost predicate Loose(ls: Lists, n: nat, i: nat, k: nat)
  {
    && Placed(ls, n) && NoBuddies(ls)
    && k <= MAX_ORDER && Aligned(i, k) && i + Pow2(k) <= n && Apart(ls, i, k)
  }

  lemma MergeStep(ls: Lists, n: nat, i: nat, k: nat)
    requires Loose(ls, n, i, k) && CanMerge(ls, n, i, k)
    ensures var b := Xor(i, Pow2(k));
            && InList(ls, k, b)
            && Loose(Remove(ls, k, b), n, Lower(i, b), k + 1)
            && forall f: nat ::
                 Covered(Remove(ls, k, b), f) || Inside(f, Lower(i, b), k + 1) <==> Covered(ls, f) || Inside(f, i, k)
  {
    var b := Xor(i, Pow2(k));
    XorIsBuddy(i, k);
    BuddyShape(i, k);
    assert InList(ls, k, b);
    RemovePlaced(ls, n, k, b);
  }

  lemma MergeStop(ls: Lists, n: nat, i: nat, k: nat)
    requires Loose(ls, n, i, k) && !CanMerge(ls, n, i, k)
    ensures Placed(Add(ls, k, i), n) && NoBuddies(Add(ls, k, i))
    ensures forall f: nat :: Covered(Add(ls, k, i), f) <==> Covered(ls, f) || Inside(f, i, k)
  {
    XorIsBuddy(i, k);
    assert InList(ls, k, Buddy(i, k)) ==> Buddy(i, k) + Pow2(k) <= n;
    AddPlaced(ls, n, k, i);
    AddNoBuddies(ls, n, k, i);
  }

  lemma {:induction false} MergeCorrect(ls: Lists, n: nat, i: nat, k: nat)
    requires Loose(ls, n, i, k)
    ensures Placed(Merge(ls, n, i, k), n) && NoBuddies(Merge(ls, n, i, k))
    ensures forall f: nat :: Covered(Merge(ls, n, i, k), f) <==> Covered(ls, f) || Inside(f, i, k)
    decreases MAX_ORDER - k
  {
    if CanMerge(ls, n, i, k) {
      var b := Xor(i, Pow2(k));
      MergeStep(ls, n, i, k);
      MergeCorrect(Remove(ls, k, b), n, Lower(i, b), k + 1);
    } else {
      MergeStop(ls, n, i, k);
    }
  }

  lemma FreeCorrect(ls: Lists, n: nat, i: nat, k: nat)
    requires Loose(ls, n, i, k)
    ensures FreeFrames(Merge(ls, n, i, k), n) == FreeFrames(ls, n) + BlockFrames(i, k)
  {
    MergeCorrect(ls, n, i, k);
  }

  // ---------- alloc_pages then free_pages is the identity on the lists ----------

  lemma {:induction false} MergeUndoesSplit(ls: Lists, n: nat, i: nat, c: nat, k: nat)
    requires |ls| == MAX_ORDER + 1 && k <= c <= MAX_ORDER && Aligned(i, c) && i + Pow2(c) <= n
    requires forall m :: k <= m < c ==> ls[m] == []
    ensures Merge(Split(ls, i, c, k), n, i, k) == Merge(ls, n, i, c)
    decreases c - k
  {
    hide Pow2, Aligned;
    if k < c {
      MergeUndoesSplit(ls, n, i, c, k + 1);
      SplitBelow(ls, i, c, k + 1, k);
      AlignedDown(i, k + 1, c);
      AlignedDown(i, k, c);
      Pow2Mono(k + 1, c);
      MergeOneHalf(Split(ls, i, c, k + 1), n, i, k);
    }
  }

  // Splitting down to order k leaves the lists below as they are.
  lemma {:induction false} SplitBelow(ls: Lists, i: nat, c: nat, k: nat, m: nat)
    requires m < k <= c < |ls|
    ensures Split(ls, i, c, k)[m] == ls[m]
    decreases c - k
  {
    if k < c {
      SplitBelow(ls, i, c, k + 1, m);
    }
  }

  // With list k empty but for the upper half, merging the lower one starts by taking it.
  lemma MergeOneHalf(ls: Lists, n: nat, i: nat, k: nat)
    requires |ls| == MAX_ORDER + 1 && k < MAX_ORDER && ls[k] == []
    requires Aligned(i, k) && Aligned(i, k + 1) && i + Pow2(k + 1) <= n
    ensures Merge(Add(ls, k, i + Pow2(k)), n, i, k) == Merge(ls, n, i, k + 1)
  {
    var h := i + Pow2(k);
    var a := Add(ls, k, h);
    XorIsBuddy(i, k);
    assert a[k] == [h];
    assert Remove(a, k, h) == ls;
    MergeUnfold(a, ls, n, i, k, h);
  }

  lemma MergeUnfold(ls: Lists, r: Lists, n: nat, i: nat, k: nat, b: nat)
    requires |ls| == MAX_ORDER + 1 && CanMerge(ls, n, i, k) && b == Xor(i, Pow2(k)) && i < b && r == Remove(ls, k, b)
    ensures Merge(ls, n, i, k) == Merge(r, n, i, k + 1)
  {
  }

  lemma FreeUndoesAlloc(ls: Lists, n: nat, k: nat)
    requires Placed(ls, n) && NoBuddies(ls) && k <= MAX_ORDER
    requires Alloc(ls, k).Allocated?
    ensures |Alloc(ls, k).rest| == MAX_ORDER + 1
    ensures Merge(Alloc(ls, k).rest, n, Alloc(ls, k).head, k) == ls
  {
    var c := FirstNonEmpty(ls, k);
    var i := ls[c][0];
    var ls' := ls[c := ls[c][1..]];
    assert InList(ls, c, i);
    MergeUndoesSplit(ls', n, i, c, k);
    XorIsBuddy(i, c);
    if c < MAX_ORDER {
      assert i !in FreeBuddies(ls, c);
    }
    assert [i] + ls[c][1..] == ls[c];
    assert Add(ls', c, i) == ls;
  }

  // ---------- memory_reserve ----------

  predicate Touches(i: nat, k: nat, s: nat, e: nat)
  {
    i < e && s < i + Pow2(k)
  }

  // While frames [s, e) are being taken out of the free set F: only such frames have gone,
  // and two buddies are both free only where their parent block was cut at an end of [s, e).
  ghost predicate Reserving(ls: Lists, n: nat, F: set<nat>, s: nat, e: nat)
  {
    true == (&& Placed(ls, n)
             && FreeFrames(ls, n) <= F
             && (forall f: nat :: f in F && !(s <= f < e) ==> f in FreeFrames(ls, n))
             && (forall k: nat, i: nat :: k < MAX_ORDER && i in FreeBuddies(ls, k) ==> Touches(Parent(i, k), k + 1, s, e)))
  }

  // No block of order k or above touches [s, e) any more.
  ghost predicate Cleared(ls: Lists, k: nat, s: nat, e: nat)
  {
    forall m: nat, i: nat :: k <= m && InList(ls, m, i) ==> !Touches(i, m, s, e)
  }

  lemma ReserveWhole(ls: Lists, n: nat, F: set<nat>, s: nat, e: nat, k: nat, i: nat)
    requires Reserving(ls, n, F, s, e) && InList(ls, k, i) && s <= i && i + Pow2(k) <= e
    requires Cleared(ls, k + 1, s, e)
    ensures Cleared(Remove(ls, k, i), k + 1, s, e)
    ensures Reserving(Remove(ls, k, i), n, F, s, e)
  {
    RemovePlaced(ls, n, k, i);
    assert forall m: nat :: m < |ls| ==> FreeBuddies(Remove(ls, k, i), m) <= FreeBuddies(ls, m);
  }

  // A block replaced by its two halves.
  function Halve(ls: Lists, k: nat, i: nat): Lists
    requires 0 < k < |ls|
  {
    Add(Add(Remove(ls, k, i), k - 1, i), k - 1, i + Pow2(k - 1))
  }

  // The block taken off its list leaves room for its halves.
  lemma HalvesFit(ls: Lists, n: nat, k: nat, i: nat)
    requires Placed(ls, n) && InList(ls, k, i) && 0 < k
    ensures var r, h := Remove(ls, k, i), i + Pow2(k - 1);
            && Placed(r, n) && Aligned(i, k - 1) && Aligned(h, k - 1) && h + Pow2(k - 1) <= n
            && Apart(r, i, k - 1) && Apart(r, h, k - 1)
            && (forall m: nat, j: nat :: InList(r, m, j) <==> InList(ls, m, j) && !(m == k && j == i))
            && (forall f: nat :: Covered(ls, f) <==> Covered(r, f) || Inside(f, i, k))
  {
    RemovePlaced(ls, n, k, i);
    SecondHalf(i, k - 1);
  }

  lemma HalvePlaced(ls: Lists, n: nat, k: nat, i: nat)
    requires Placed(ls, n) && InList(ls, k, i) && 0 < k
    ensures var r, a := Remove(ls, k, i), Add(Remove(ls, k, i), k - 1, i);
            var h := i + Pow2(k - 1);
            && h < n && i != h
            && (forall m: nat :: !InList(r, m, i)) && (forall m: nat :: !InList(a, m, h))
            && Placed(Halve(ls, k, i), n)
            && (forall m: nat, j: nat :: InList(Halve(ls, k, i), m, j) <==>
                  (InList(ls, m, j) && !(m == k && j == i)) || (m == k - 1 && (j == i || j == h)))
            && (forall f: nat :: Covered(Halve(ls, k, i), f) <==> Covered(ls, f))
  {
    var r, h := Remove(ls, k, i), i + Pow2(k - 1);
    HalvesFit(ls, n, k, i);
    AddPlaced(r, n, k - 1, i);
    var a := Add(r, k - 1, i);
    assert Apart(a, h, k - 1);
    AddPlaced(a, n, k - 1, h);
    forall f: nat
      ensures Inside(f, i, k) <==> Inside(f, i, k - 1) || Inside(f, h, k - 1)
    {
    }
  }

  // The block (j, m) is free after (i, k) has been halved exactly if it is one of the halves
  // or was free before and is not the block itself.
  ghost predicate HalvedAt(ls: Lists, k: nat, i: nat, m: nat, j: nat)
    requires 0 < k < |ls|
  {
    InList(Halve(ls, k, i), m, j) <==>
      (InList(ls, m, j) && !(m == k && j == i)) || (m == k - 1 && (j == i || j == i + Pow2(k - 1)))
  }

  // Two free buddies that halving leaves were free buddies before, or are the two halves.
  lemma HalveBuddies(ls: Lists, k: nat, i: nat, m: nat, j: nat)
    requires 0 < k < |ls| && InList(ls, k, i) && Aligned(i, k) && m < |ls| && Aligned(j, m)
    requires InList(Halve(ls, k, i), m, j) && InList(Halve(ls, k, i), m, Buddy(j, m))
    requires HalvedAt(ls, k, i, m, j) && HalvedAt(ls, k, i, m, Buddy(j, m))
    ensures (m == k - 1 && Parent(j, m) == i) || j in FreeBuddies(ls, m)
  {
    if m == k - 1 {
      HalvesPair(i, k, j);
    }
  }

  // The halves of a block are buddies, and it is their parent.
  lemma HalvesPair(i: nat, k: nat, j: nat)
    requires 0 < k && Aligned(i, k) && Aligned(j, k - 1)
    ensures var h, b := i + Pow2(k - 1), Buddy(j, k - 1);
            && (j == i || j == h ==> Parent(j, k - 1) == i)
            && (b == i || b == h ==> j == i || j == h)
  {
    SecondHalf(i, k - 1);
    BuddyShape(i, k - 1);
    BuddyShape(i + Pow2(k - 1), k - 1);
    BuddyShape(j, k - 1);
  }

  lemma ReserveSplit(ls: Lists, n: nat, F: set<nat>, s: nat, e: nat, k: nat, i: nat)
    requires Reserving(ls, n, F, s, e) && InList(ls, k, i) && Touches(i, k, s, e) && 0 < k
    requires Cleared(ls, k + 1, s, e)
    ensures Reserving(Halve(ls, k, i), n, F, s, e) && Cleared(Halve(ls, k, i), k + 1, s, e)
  {
    HalvePlaced(ls, n, k, i);
    var b := Halve(ls, k, i);
    forall m: nat, j: nat | m < MAX_ORDER && j in FreeBuddies(b, m)
      ensures Touches(Parent(j, m), m + 1, s, e)
    {
      assert InList(b, m, j) && InList(b, m, Buddy(j, m));
      HalveBuddies(ls, k, i, m, j);
    }
    assert FreeFrames(b, n) == FreeFrames(ls, n);
  }

  // Once nothing free touches [s, e), the free frames are F minus [s, e) and no two
  // free buddies are left.
  lemma ReserveDone(ls: Lists, n: nat, F: set<nat>, s: nat, e: nat)
    requires Reserving(ls, n, F, s, e) && Cleared(ls, 0, s, e) && s < e
    ensures NoBuddies(ls)
    ensures FreeFrames(ls, n) == set f | f in F && !(s <= f < e)
  {
    forall k: nat, i: nat | k < MAX_ORDER
      ensures i !in FreeBuddies(ls, k)
    {
      if i in FreeBuddies(ls, k) {
        assert InList(ls, k, i);
        BuddyShape(i, k);
      }
    }
  }

  // What memory_reserve does with a block that touches frames [s, e).
  function ReserveOne(ls: Lists, k: nat, i: nat, s: nat, e: nat): (r: Lists)
    requires k < |ls|
    ensures |r| == |ls|
  {
    if (s <= i && i + Pow2(k) <= e) || k == 0 then Remove(ls, k, i) else Halve(ls, k, i)
  }

  // The walk of memory_reserve over what is left of list k.
  function ReserveList(ls: Lists, k: nat, l: seq<nat>, s: nat, e: nat): (r: Lists)
    requires k < |ls|
    ensures |r| == |ls|
    decreases |l|
  {
    if l == [] then ls
    else if Touches(l[0], k, s, e) then ReserveList(ReserveOne(ls, k, l[0], s, e), k, l[1..], s, e)
    else ReserveList(ls, k, l[1..], s, e)
  }

  // The walks over the lists below order k, largest order first.
  function ReserveBelow(ls: Lists, k: nat, s: nat, e: nat): (r: Lists)
    requires k <= |ls|
    ensures |r| == |ls|
    decreases k
  {
    if k == 0 then ls else ReserveBelow(ReserveList(ls, k - 1, ls[k - 1], s, e), k - 1, s, e)
  }

  // memory_reserve on frames [s, e).
  function Reserve(ls: Lists, s: nat, e: nat): (r: Lists)
    ensures |r| == |ls|
  {
    if s < e then ReserveBelow(ls, |ls|, s, e) else ls
  }

  // What is left of list k has all of its blocks that touch [s, e).
  ghost predicate RestTouches(ls: Lists, k: nat, l: seq<nat>, s: nat, e: nat)
  {
    true == (k < |ls| && NoDup(l) && (forall x :: x in l ==> x in ls[k])
             && (forall x :: x in ls[k] && Touches(x, k, s, e) ==> x in l))
  }

  lemma ReserveOneKeeps(ls: Lists, n: nat, F: set<nat>, s: nat, e: nat, k: nat, i: nat)
    requires Reserving(ls, n, F, s, e) && Cleared(ls, k + 1, s, e) && InList(ls, k, i) && Touches(i, k, s, e)
    ensures Reserving(ReserveOne(ls, k, i, s, e), n, F, s, e) && Cleared(ReserveOne(ls, k, i, s, e), k + 1, s, e)
    ensures ReserveOne(ls, k, i, s, e)[k] == Without(ls[k], i)
  {
    if (s <= i && i + Pow2(k) <= e) || k == 0 {
      ReserveWhole(ls, n, F, s, e, k, i);
    } else {
      ReserveSplit(ls, n, F, s, e, k, i);
    }
  }

  lemma RestTouchesTail(ls: Lists, r: Lists, k: nat, l: seq<nat>, s: nat, e: nat)
    requires RestTouches(ls, k, l, s, e) && l != [] && |r| == |ls|
    requires r[k] == if Touches(l[0], k, s, e) then Without(ls[k], l[0]) else ls[k]
    requires NoDup(ls[k])
    ensures RestTouches(r, k, l[1..], s, e)
  {
    NoDupTail(l);
    WithoutElems(ls[k], l[0]);
  }

  lemma {:induction false} ReserveListKeeps(ls: Lists, n: nat, F: set<nat>, s: nat, e: nat, k: nat, l: seq<nat>)
    requires Reserving(ls, n, F, s, e) && Cleared(ls, k + 1, s, e) && RestTouches(ls, k, l, s, e)
    ensures Reserving(ReserveList(ls, k, l, s, e), n, F, s, e) && Cleared(ReserveList(ls, k, l, s, e), k, s, e)
    decreases |l|
  {
    if l != [] {
      var r := if Touches(l[0], k, s, e) then ReserveOne(ls, k, l[0], s, e) else ls;
      if Touches(l[0], k, s, e) {
        assert InList(ls, k, l[0]);
        ReserveOneKeeps(ls, n, F, s, e, k, l[0]);
      }
      RestTouchesTail(ls, r, k, l, s, e);
      ReserveListKeeps(r, n, F, s, e, k, l[1..]);
    }
  }

  lemma {:induction false} ReserveBelowKeeps(ls: Lists, n: nat, F: set<nat>, s: nat, e: nat, k: nat)
    requires Reserving(ls, n, F, s, e) && k <= |ls| && Cleared(ls, k, s, e)
    ensures Reserving(ReserveBelow(ls, k, s, e), n, F, s, e) && Cleared(ReserveBelow(ls, k, s, e), 0, s, e)
    decreases k
  {
    if k > 0 {
      assert NoDup(ls[k - 1]);
      ReserveListKeeps(ls, n, F, s, e, k - 1, ls[k - 1]);
      ReserveBelowKeeps(ReserveList(ls, k - 1, ls[k - 1], s, e), n, F, s, e, k - 1);
    }
  }

  // memory_reserve takes exactly the frames [s, e) out of the free ones, and leaves no two
  // free buddies.
  lemma ReserveCorrect(ls: Lists, n: nat, s: nat, e: nat)
    requires Placed(ls, n) && NoBuddies(ls)
    ensures Placed(Reserve(ls, s, e), n) && NoBuddies(Reserve(ls, s, e))
    ensures FreeFrames(Reserve(ls, s, e), n) == set f | f in FreeFrames(ls, n) && !(s <= f < e)
  {
    if s < e {
      ReserveBelowKeeps(ls, n, FreeFrames(ls, n), s, e, |ls|);
      ReserveDone(Reserve(ls, s, e), n, FreeFrames(ls, n), s, e);
    }
  }

  // ---------- mm_init step 7 ----------

  // Frames [0, x) are free, each block as large as its index and the end of memory allow.
  ghost predicate GreedyUpTo(ls: Lists, n: nat, x: nat)
  {
    true == (&& Placed(ls, n) && NoBuddies(ls)
             && (forall f: nat :: Covered(ls, f) <==> f < x)
             && (forall k: nat, i: nat :: InList(ls, k, i) && k < MAX_ORDER ==> !(Aligned(i, k + 1) && i + Pow2(k + 1) <= n)))
  }

  lemma EmptyGreedy(n: nat)
    ensures GreedyUpTo(EmptyLists(), n, 0)
  {
  }

  lemma GreedyStep(ls: Lists, n: nat, x: nat, k: nat)
    requires GreedyUpTo(ls, n, x)
    requires k <= MAX_ORDER && Aligned(x, k) && x + Pow2(k) <= n
    requires k < MAX_ORDER ==> !(Aligned(x, k + 1) && x + Pow2(k + 1) <= n)
    ensures Apart(ls, x, k) && GreedyUpTo(Add(ls, k, x), n, x + Pow2(k))
  {
    assert Apart(ls, x, k) by {
      forall m: nat, j: nat | InList(ls, m, j)
        ensures Disjoint(x, k, j, m)
      {
        assert Inside(j + Pow2(m) - 1, j, m) && Covered(ls, j + Pow2(m) - 1);
      }
    }
    BuddyShape(x, k);
    var b := Buddy(x, k);
    assert InList(ls, k, b) ==> Inside(b, b, k) && Covered(ls, b);
    AddPlaced(ls, n, k, x);
    AddNoBuddies(ls, n, k, x);
  }
}
