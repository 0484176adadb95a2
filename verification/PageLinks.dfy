/**
 struct page and its circular doubly linked lists. The slots of one sequence stand for
 frame_array followed by the list heads free_area[0..MAX_ORDER], and links are slot numbers.
 */
module PageLinks {
  import opened FreeLists
  import opened BuddyOps
  import opened Sequences

  datatype FrameState = FREE | USED

  const NIL: int := -1

  datatype Page = Page(
    order: int, state: FrameState, inFreeList: bool,
    chunkSize: nat, chunkPool: int,
    prev: int, next: int)

  // Everything but the links.
  predicate SameMeta(a: Page, b: Page)
  {
    a.(prev := b.prev, next := b.next) == b
  }

  // Position 0 and position |l| + 1 of a ring are its head h.
  function At(h: nat, l: seq<nat>, i: nat): (p: nat)
    ensures p == h || p in l
  {
    if 1 <= i <= |l| then l[i - 1] else h
  }

  // From h, following next visits l in order and returns to h, and prev goes back.
  ghost predicate Ring(pg: seq<Page>, h: nat, l: seq<nat>)
  {
    true == (&& h < |pg| && (forall x :: x in l ==> x < |pg| && x != h)
             && forall i: nat :: i <= |l| ==>
                  pg[At(h, l, i)].next == At(h, l, i + 1) && pg[At(h, l, i + 1)].prev == At(h, l, i))
  }

  ghost predicate RingsOk(pg: seq<Page>, n: nat, ls: Lists)
  {
    true == (&& |pg| == n + MAX_ORDER + 1 && |ls| == MAX_ORDER + 1
             && (forall k: nat :: k < |ls| ==> NoDup(ls[k]) && Ring(pg, n + k, ls[k])))
  }

  ghost predicate MetaOk(pg: seq<Page>, n: nat, ls: Lists)
  {
    true == (&& n <= |pg| && |ls| == MAX_ORDER + 1
             && (forall k: nat, i: nat :: InList(ls, k, i) ==> i < n && pg[i].inFreeList && pg[i].state == FREE && pg[i].order == k)
             && (forall p: nat :: p < n && pg[p].inFreeList ==> 0 <= pg[p].order <= MAX_ORDER && InList(ls, pg[p].order, p)))
  }

  // free_area at pointer level: a ring per order, no page on two lists, and in_free_list
  // set exactly on the pages that are on the list of their own order.
  ghost predicate ListsOk(pg: seq<Page>, n: nat, ls: Lists)
  {
    true == (RingsOk(pg, n, ls) && MetaOk(pg, n, ls))
  }

  // ---------- one ring ----------

  ghost predicate LinksAgree(pg: seq<Page>, pg': seq<Page>, p: nat)
  {
    p < |pg| && |pg| == |pg'| && pg[p].next == pg'[p].next && pg[p].prev == pg'[p].prev
  }

  lemma RingFrame(pg: seq<Page>, pg': seq<Page>, h: nat, l: seq<nat>)
    requires Ring(pg, h, l)
    requires LinksAgree(pg, pg', h) && forall x :: x in l ==> LinksAgree(pg, pg', x)
    ensures Ring(pg', h, l)
  {
    forall i: nat | i <= |l|
      ensures pg'[At(h, l, i)].next == At(h, l, i + 1) && pg'[At(h, l, i + 1)].prev == At(h, l, i)
    {
      assert At(h, l, i) == h || At(h, l, i) in l;
      assert At(h, l, i + 1) == h || At(h, l, i + 1) in l;
    }
  }

  // The links list_add leaves behind: x stands between h and its old successor.
  ghost predicate Linked(pg: seq<Page>, pg': seq<Page>, h: nat, x: nat)
  {
    true == (&& |pg'| == |pg| && h < |pg| && x < |pg| && 0 <= pg[h].next < |pg|
             && var succ := pg[h].next;
               && pg'[x].next == succ && pg'[x].prev == h && pg'[succ].prev == x && pg'[h].next == x
               && (forall p: nat :: p < |pg| && p != x && p != h ==> pg'[p].next == pg[p].next)
               && (forall p: nat :: p < |pg| && p != x && p != succ ==> pg'[p].prev == pg[p].prev))
  }

  lemma RingAdd(pg: seq<Page>, pg': seq<Page>, h: nat, l: seq<nat>, x: nat)
    requires Ring(pg, h, l) && NoDup(l) && x < |pg| && x != h && x !in l
    requires Linked(pg, pg', h, x)
    ensures Ring(pg', h, [x] + l)
  {
    var r := [x] + l;
    assert pg[At(h, l, 0)].next == At(h, l, 1);
    RingDistinct(pg, h, l);
    forall i: nat | i <= |r|
      ensures pg'[At(h, r, i)].next == At(h, r, i + 1) && pg'[At(h, r, i + 1)].prev == At(h, r, i)
    {
      if i >= 2 {
        assert At(h, r, i) == At(h, l, i - 1) && At(h, r, i + 1) == At(h, l, i);
        assert At(h, l, i) != At(h, l, 1) && At(h, l, i - 1) != At(h, l, 0);
      } else if i == 1 {
        assert At(h, r, 1) == x && At(h, r, 2) == At(h, l, 1);
      } else {
        assert At(h, r, 0) == h && At(h, r, 1) == x;
      }
    }
  }

  lemma RingNeighbours(pg: seq<Page>, h: nat, l: seq<nat>, j: nat)
    requires Ring(pg, h, l) && j < |l|
    ensures l[j] < |pg| && pg[l[j]].prev == At(h, l, j) && pg[l[j]].next == At(h, l, j + 2)
  {
    assert At(h, l, j + 1) == l[j];
  }

  lemma AtHeadIsEnd(pg: seq<Page>, h: nat, l: seq<nat>, i: nat)
    requires Ring(pg, h, l) && i <= |l|
    ensures At(h, l, i + 1) == h <==> i == |l|
  {
    if i < |l| {
      assert l[i] in l;
    }
  }

  lemma RingDistinct(pg: seq<Page>, h: nat, l: seq<nat>)
    requires Ring(pg, h, l) && NoDup(l)
    ensures forall i: nat, j: nat :: i < j <= |l| + 1 && (i > 0 || j <= |l|) ==> At(h, l, i) != At(h, l, j)
  {
    forall i: nat, j: nat | i < j <= |l| + 1 && (i > 0 || j <= |l|)
      ensures At(h, l, i) != At(h, l, j)
    {
      if i > 0 && j <= |l| {
        assert l[i - 1] != l[j - 1];
      } else {
        assert l[(if i > 0 then i else j) - 1] in l;
      }
    }
  }

  // The links list_del leaves behind: the neighbours of x point at each other.
  ghost predicate Unlinked(pg: seq<Page>, pg': seq<Page>, x: nat)
  {
    true == (&& |pg'| == |pg| && x < |pg| && 0 <= pg[x].prev < |pg| && 0 <= pg[x].next < |pg|
             && var a, b := pg[x].prev, pg[x].next;
               && pg'[a].next == b && pg'[b].prev == a
               && (forall p: nat :: p < |pg| && p != x && p != a ==> pg'[p].next == pg[p].next)
               && (forall p: nat :: p < |pg| && p != x && p != b ==> pg'[p].prev == pg[p].prev))
  }

  lemma RingDel(pg: seq<Page>, pg': seq<Page>, h: nat, l: seq<nat>, j: nat)
    requires Ring(pg, h, l) && NoDup(l) && j < |l|
    requires Unlinked(pg, pg', l[j])
    ensures Ring(pg', h, l[..j] + l[j + 1..])
  {
    var r := l[..j] + l[j + 1..];
    RingNeighbours(pg, h, l, j);
    RingDistinct(pg, h, l);
    assert forall x :: x in r ==> x in l;
    forall i: nat | i <= |r|
      ensures pg'[At(h, r, i)].next == At(h, r, i + 1) && pg'[At(h, r, i + 1)].prev == At(h, r, i)
    {
      if i < j {
        assert At(h, r, i) == At(h, l, i) && At(h, r, i + 1) == At(h, l, i + 1);
      } else if i > j {
        assert At(h, r, i) == At(h, l, i + 1) && At(h, r, i + 1) == At(h, l, i + 2);
      } else {
        assert At(h, r, i) == At(h, l, i) && At(h, r, i + 1) == At(h, l, i + 2);
      }
    }
  }

  // ---------- all rings ----------

  // Links changed only at the head of list k and at pages that are on list k or on none.
  ghost predicate OnlyNear(pg: seq<Page>, pg': seq<Page>, n: nat, k: nat)
  {
    true == (&& n <= |pg| == |pg'|
             && forall p: nat :: p < |pg| ==>
                  p == n + k || (p < n && (!pg[p].inFreeList || pg[p].order == k)) || LinksAgree(pg, pg', p))
  }

  lemma OtherRings(pg: seq<Page>, pg': seq<Page>, n: nat, ls: Lists, k: nat)
    requires ListsOk(pg, n, ls) && OnlyNear(pg, pg', n, k)
    ensures forall m: nat :: m < |ls| && m != k ==> Ring(pg', n + m, ls[m])
  {
    forall m: nat | m < |ls| && m != k
      ensures Ring(pg', n + m, ls[m])
    {
      assert forall y :: y in ls[m] ==> InList(ls, m, y);
      RingFrame(pg, pg', n + m, ls[m]);
    }
  }

  lemma RingsAdd(pg: seq<Page>, pg': seq<Page>, n: nat, ls: Lists, k: nat, x: nat)
    requires ListsOk(pg, n, ls) && k <= MAX_ORDER && x < n && !pg[x].inFreeList
    requires Linked(pg, pg', n + k, x)
    ensures RingsOk(pg', n, Add(ls, k, x))
  {
    var h := n + k;
    assert !InList(ls, k, x);
    RingAdd(pg, pg', h, ls[k], x);
    assert pg[h].next == h || InList(ls, k, pg[h].next) by {
      assert pg[At(h, ls[k], 0)].next == At(h, ls[k], 1);
    }
    assert OnlyNear(pg, pg', n, k);
    OtherRings(pg, pg', n, ls, k);
    assert NoDup([x] + ls[k]);
  }

  lemma ListsOkAdd(pg: seq<Page>, pg': seq<Page>, n: nat, ls: Lists, k: nat, x: nat)
    requires ListsOk(pg, n, ls) && k <= MAX_ORDER && x < n && !pg[x].inFreeList
    requires Linked(pg, pg', n + k, x)
    requires forall p: nat :: p < n && p != x ==> SameMeta(pg[p], pg'[p])
    requires pg'[x].inFreeList && pg'[x].state == FREE && pg'[x].order == k
    ensures ListsOk(pg', n, Add(ls, k, x))
  {
    RingsAdd(pg, pg', n, ls, k, x);
    var r := Add(ls, k, x);
    assert forall m: nat, i: nat :: InList(r, m, i) <==> InList(ls, m, i) || (m == k && i == x);
  }

  lemma NeighboursNear(pg: seq<Page>, pg': seq<Page>, n: nat, ls: Lists, k: nat, j: nat)
    requires ListsOk(pg, n, ls) && k < |ls| && j < |ls[k]|
    requires Unlinked(pg, pg', ls[k][j])
    ensures OnlyNear(pg, pg', n, k)
  {
    var h, l := n + k, ls[k];
    RingNeighbours(pg, h, l, j);
    assert InList(ls, k, l[j]);
    assert pg[l[j]].prev == h || InList(ls, k, pg[l[j]].prev);
    assert pg[l[j]].next == h || InList(ls, k, pg[l[j]].next);
  }

  lemma RingsDelAt(pg: seq<Page>, pg': seq<Page>, n: nat, ls: Lists, k: nat, j: nat)
    requires ListsOk(pg, n, ls) && k < |ls| && j < |ls[k]|
    requires Unlinked(pg, pg', ls[k][j])
    ensures NoDup(Without(ls[k], ls[k][j])) && Ring(pg', n + k, Without(ls[k], ls[k][j]))
    ensures forall m: nat :: m < |ls| && m != k ==> Ring(pg', n + m, ls[m])
  {
    NeighboursNear(pg, pg', n, ls, k, j);
    OtherRings(pg, pg', n, ls, k);
    RingDel(pg, pg', n + k, ls[k], j);
    WithoutAt(ls[k], j);
    WithoutElems(ls[k], ls[k][j]);
  }

  lemma RingsDel(pg: seq<Page>, pg': seq<Page>, n: nat, ls: Lists, k: nat, x: nat)
    requires ListsOk(pg, n, ls) && InList(ls, k, x)
    requires Unlinked(pg, pg', x)
    ensures RingsOk(pg', n, Remove(ls, k, x))
  {
    var j :| 0 <= j < |ls[k]| && ls[k][j] == x;
    RingsDelAt(pg, pg', n, ls, k, j);
  }

  lemma ListsOkDel(pg: seq<Page>, pg': seq<Page>, n: nat, ls: Lists, k: nat, x: nat)
    requires ListsOk(pg, n, ls) && InList(ls, k, x)
    requires Unlinked(pg, pg', x)
    requires forall p: nat :: p < n && p != x ==> SameMeta(pg[p], pg'[p])
    requires !pg'[x].inFreeList
    ensures ListsOk(pg', n, Remove(ls, k, x))
  {
    RingsDel(pg, pg', n, ls, k, x);
    WithoutElems(ls[k], x);
    var r := Remove(ls, k, x);
    assert forall m: nat, i: nat :: InList(r, m, i) <==> InList(ls, m, i) && !(m == k && i == x);
  }

  // Rewriting the metadata of a page that is on no list keeps every list.
  lemma ListsOkRetag(pg: seq<Page>, n: nat, ls: Lists, x: nat, q: Page)
    requires ListsOk(pg, n, ls) && x < n && !pg[x].inFreeList
    requires q.prev == pg[x].prev && q.next == pg[x].next && !q.inFreeList
    ensures ListsOk(pg[x := q], n, ls)
  {
    forall k: nat | k < |ls|
      ensures Ring(pg[x := q], n + k, ls[k])
    {
      RingFrame(pg, pg[x := q], n + k, ls[k]);
    }
  }

  // What free_pages reads of a page before it merges holds exactly when the page heads a free
  // block of this order, whatever earlier uses have left in its fields.
  lemma MergeTest(pg: seq<Page>, n: nat, ls: Lists, k: nat, b: nat)
    requires ListsOk(pg, n, ls) && b < n && k <= MAX_ORDER
    ensures b < |pg| && (pg[b].inFreeList && pg[b].state == FREE && pg[b].order == k <==> InList(ls, k, b))
  {
  }

  lemma LinksOf(pg: seq<Page>, n: nat, ls: Lists, k: nat, x: nat)
    requires ListsOk(pg, n, ls) && InList(ls, k, x)
    ensures x < |pg| && 0 <= pg[x].prev < |pg| && 0 <= pg[x].next < |pg| && pg[x].prev != x && pg[x].next != x
  {
    var j :| 0 <= j < |ls[k]| && ls[k][j] == x;
    RingNeighbours(pg, n + k, ls[k], j);
    RingDistinct(pg, n + k, ls[k]);
    assert At(n + k, ls[k], j + 1) == x;
  }

  lemma FirstOnList(pg: seq<Page>, n: nat, ls: Lists, k: nat)
    requires ListsOk(pg, n, ls) && k <= MAX_ORDER
    ensures pg[n + k].next == if ls[k] == [] then n + k else ls[k][0]
    ensures ls[k] == [] <==> pg[n + k].next == n + k
  {
    assert ls[k] != [] ==> InList(ls, k, ls[k][0]);
    assert pg[At(n + k, ls[k], 0)].next == At(n + k, ls[k], 1);
  }

  lemma EmptyListsOk(pg: seq<Page>, n: nat)
    requires |pg| == n + MAX_ORDER + 1
    requires forall p :: 0 <= p < n ==> !pg[p].inFreeList
    requires forall p :: n <= p < |pg| ==> pg[p].next == p && pg[p].prev == p
    ensures ListsOk(pg, n, EmptyLists())
  {
  }
}
