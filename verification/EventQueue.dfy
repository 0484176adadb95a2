/**
 The list code timer.c and task.c share: a fixed pool of nodes, a free list, and a sorted
 queue with insertion behind equal keys. The key of a timer is its expiry time; the key of a
 task is its priority negated, so that both queues ascend.
 */
module EventQueue {
  import opened Sequences

  const NONE: int := -1

  // A callback by its address; 0 is no callback.
  datatype Item = Item(callback: nat, arg: nat)

  datatype Entry = Entry(key: int, item: Item)

  datatype Node = Node(key: int, item: Item, next: int)

  const FREE_NODE: Node := Node(0, Item(0, 0), NONE)

  // ---------- sorted sequences ----------

  predicate Sorted(es: seq<Entry>)
  {
    forall i, j :: 0 <= i < j < |es| ==> es[i].key <= es[j].key
  }

  // Insertion behind all entries whose key is not greater.
  function Place(es: seq<Entry>, e: Entry): (r: seq<Entry>)
    ensures |r| == |es| + 1
  {
    if es == [] || e.key < es[0].key then [e] + es else [es[0]] + Place(es[1..], e)
  }

  // The entries with this key, in order.
  function WithKey(es: seq<Entry>, key: int): seq<Entry>
  {
    if es == [] then [] else (if es[0].key == key then [es[0]] else []) + WithKey(es[1..], key)
  }

  lemma {:induction false} PlaceAt(es: seq<Entry>, e: Entry, i: nat)
    requires Leading(es, i, e.key)
    ensures i <= |es| && Place(es, e) == es[..i] + [e] + es[i..]
    decreases |es|
  {
    if i > 0 {
      assert es[1..][i - 1..] == es[i..];
      PlaceAt(es[1..], e, i - 1);
      assert es[..i] == [es[0]] + es[1..][..i - 1];
    } else if es != [] {
      assert es[..0] == [];
    }
  }

  lemma {:induction false} PlaceMembers(es: seq<Entry>, e: Entry)
    ensures multiset(Place(es, e)) == multiset(es) + multiset{e}
  {
    if es != [] && e.key >= es[0].key {
      PlaceMembers(es[1..], e);
      assert es == [es[0]] + es[1..];
    }
  }

  lemma {:induction false} PlaceSorted(es: seq<Entry>, e: Entry)
    requires Sorted(es)
    ensures Sorted(Place(es, e))
  {
    if es != [] && e.key >= es[0].key {
      PlaceSorted(es[1..], e);
      PlaceMembers(es[1..], e);
      var rest := Place(es[1..], e);
      forall j | 0 <= j < |rest|
        ensures es[0].key <= rest[j].key
      {
        assert rest[j] in multiset(rest);
        assert rest[j] == e || rest[j] in es[1..];
      }
    }
  }

  // Among equal keys the new entry comes last and the others keep their order.
  lemma {:induction false} PlaceStable(es: seq<Entry>, e: Entry, key: int)
    requires Sorted(es)
    ensures WithKey(Place(es, e), key) == WithKey(es, key) + if key == e.key then [e] else []
  {
    if es == [] || e.key < es[0].key {
      WithKeyCons(e, es, key);
      if key == e.key {
        NoneWithKey(es, key);
      }
    } else {
      PlaceStable(es[1..], e, key);
      WithKeyCons(es[0], Place(es[1..], e), key);
    }
  }

  lemma WithKeyCons(x: Entry, es: seq<Entry>, key: int)
    ensures WithKey([x] + es, key) == (if x.key == key then [x] else []) + WithKey(es, key)
  {
    assert ([x] + es)[1..] == es;
  }

  lemma {:induction false} NoneWithKey(es: seq<Entry>, key: int)
    requires forall i :: 0 <= i < |es| ==> key < es[i].key
    ensures WithKey(es, key) == []
  {
    if es != [] {
      NoneWithKey(es[1..], key);
    }
  }

  lemma {:induction false} WithKeySnoc(es: seq<Entry>, x: Entry, key: int)
    ensures WithKey(es + [x], key) == WithKey(es, key) + if x.key == key then [x] else []
  {
    if es == [] {
      WithKeyCons(x, [], key);
      assert [x] + [] == es + [x];
    } else {
      var t := es[1..];
      WithKeySnoc(t, x, key);
      WithKeyCons(es[0], t + [x], key);
      assert es + [x] == [es[0]] + (t + [x]);
    }
  }

  lemma HeadFirst(a: seq<Entry>, b: seq<Entry>)
    requires a != []
    ensures a + b == [a[0]] + (a[1..] + b)
  {
  }

  lemma {:induction false} WithKeyParts(a: seq<Entry>, b: seq<Entry>, key: int)
    ensures WithKey(a + b, key) == WithKey(a, key) + WithKey(b, key)
  {
    if a == [] {
      assert a + b == b;
    } else {
      WithKeyParts(a[1..], b, key);
      WithKeyCons(a[0], a[1..] + b, key);
      HeadFirst(a, b);
    }
  }

  lemma {:induction false} WithKeyHas(es: seq<Entry>, x: Entry)
    ensures x in WithKey(es, x.key) <==> x in es
  {
    if es != [] {
      WithKeyHas(es[1..], x);
      assert es == [es[0]] + es[1..];
    }
  }

  // Nothing is taken back from a history.
  predicate Grown(was: seq<Entry>, now: seq<Entry>)
  {
    true == (was <= now)
  }

  // ---------- first in, first out within a key ----------

  // For each key: what has left, then what waits, is what came in, in order of time.
  ghost predicate InOrder(left: seq<Entry>, waiting: seq<Entry>, came: seq<Entry>)
  {
    true == forall key: int :: WithKey(left, key) + WithKey(waiting, key) == WithKey(came, key)
  }

  lemma InOrderPlace(left: seq<Entry>, waiting: seq<Entry>, came: seq<Entry>, e: Entry)
    requires InOrder(left, waiting, came) && Sorted(waiting)
    ensures InOrder(left, Place(waiting, e), came + [e])
  {
    forall key: int
      ensures WithKey(left, key) + WithKey(Place(waiting, e), key) == WithKey(came + [e], key)
    {
      PlaceStable(waiting, e, key);
      WithKeySnoc(came, e, key);
    }
  }

  lemma InOrderTake(left: seq<Entry>, waiting: seq<Entry>, came: seq<Entry>)
    requires InOrder(left, waiting, came) && waiting != []
    ensures InOrder(left + [waiting[0]], waiting[1..], came)
  {
    forall key: int
      ensures WithKey(left + [waiting[0]], key) + WithKey(waiting[1..], key) == WithKey(came, key)
    {
      MoveOne(left, waiting[0], waiting[1..], key);
      assert waiting == [waiting[0]] + waiting[1..];
    }
  }

  lemma MoveOne(left: seq<Entry>, x: Entry, rest: seq<Entry>, key: int)
    ensures WithKey(left + [x], key) + WithKey(rest, key) == WithKey(left, key) + WithKey([x] + rest, key)
  {
    WithKeySnoc(left, x, key);
    WithKeyCons(x, rest, key);
  }

  // Insertion of several entries one after the other.
  function PlaceAll(es: seq<Entry>, news: seq<Entry>): seq<Entry>
  {
    if news == [] then es else Place(PlaceAll(es, news[..|news| - 1]), news[|news| - 1])
  }

  // Entries that come in this order and wait are sorted by key, and by arrival within a key.
  lemma {:induction false} PlaceAllSorts(news: seq<Entry>, key: int)
    ensures Sorted(PlaceAll([], news)) && WithKey(PlaceAll([], news), key) == WithKey(news, key)
    decreases |news|
  {
    if news != [] {
      var before, e := news[..|news| - 1], news[|news| - 1];
      PlaceAllSorts(before, key);
      PlaceSorted(PlaceAll([], before), e);
      PlaceStable(PlaceAll([], before), e, key);
      WithKeySnoc(before, e, key);
      assert news == before + [e];
    }
  }

  lemma PlaceAllSnoc(news: seq<Entry>, e: Entry)
    ensures PlaceAll([], news + [e]) == Place(PlaceAll([], news), e)
  {
    assert (news + [e])[..|news|] == news;
  }

  // An entry whose key is below none of a goes behind all of a.
  lemma {:induction false} PlaceBehind(a: seq<Entry>, es: seq<Entry>, e: Entry)
    requires forall i :: 0 <= i < |a| ==> a[i].key <= e.key
    ensures Place(a + es, e) == a + Place(es, e)
  {
    if a == [] {
      assert a + es == es && a + Place(es, e) == Place(es, e);
    } else {
      assert (a + es)[1..] == a[1..] + es;
      PlaceBehind(a[1..], es, e);
      assert a + Place(es, e) == [a[0]] + (a[1..] + Place(es, e));
    }
  }

  // ---------- linked lists ----------

  function From(l: seq<nat>, i: nat): int
  {
    if i < |l| then l[i] else NONE
  }

  predicate Listed(ns: seq<Node>, head: int, l: seq<nat>)
  {
    true == (head == From(l, 0) && forall i :: 0 <= i < |l| ==> l[i] < |ns| && ns[l[i]].next == From(l, i + 1))
  }

  // Every node of the pool is on exactly one of the two lists, once.
  ghost predicate Divided(n: nat, q: seq<nat>, f: seq<nat>)
  {
    true == (NoDup(q + f) && |q| + |f| == n && forall t: nat :: t < n ==> t in q + f)
  }

  ghost predicate PoolOk(ns: seq<Node>, head: int, q: seq<nat>, free: int, f: seq<nat>)
  {
    true == (Listed(ns, head, q) && Listed(ns, free, f) && Divided(|ns|, q, f))
  }

  function EntryAt(ns: seq<Node>, t: nat): Entry
  {
    if t < |ns| then Entry(ns[t].key, ns[t].item) else Entry(0, Item(0, 0))
  }

  function Entries(ns: seq<Node>, q: seq<nat>): (es: seq<Entry>)
    ensures |es| == |q|
  {
    seq(|q|, i requires 0 <= i < |q| => EntryAt(ns, q[i]))
  }

  // ---------- steps on values ----------

  // The first free node becomes element i of the queue.
  function Inserted(ns: seq<Node>, q: seq<nat>, f: seq<nat>, i: nat, e: Entry): seq<Node>
    requires i <= |q| && f != [] && f[0] < |ns| && (i > 0 ==> q[i - 1] < |ns|)
  {
    var us := ns[f[0] := Node(e.key, e.item, From(q, i))];
    if i == 0 then us else us[q[i - 1] := us[q[i - 1]].(next := f[0])]
  }

  // What the lists know about each other.
  lemma Apart(ns: seq<Node>, head: int, q: seq<nat>, free: int, f: seq<nat>)
    requires PoolOk(ns, head, q, free, f)
    ensures forall k :: 0 <= k < |q| ==> q[k] < |ns|
    ensures forall k :: 0 <= k < |f| ==> f[k] < |ns|
    ensures NoDup(q) && NoDup(f)
    ensures forall j, k :: 0 <= j < |q| && 0 <= k < |f| ==> q[j] != f[k]
  {
    assert Listed(ns, head, q) && Listed(ns, free, f);
    var a := q + f;
    assert NoDup(a);
    assert forall k :: 0 <= k < |q| ==> q[k] == a[k];
    assert forall k :: 0 <= k < |f| ==> f[k] == a[|q| + k];
  }

  lemma InsertKeeps(ns: seq<Node>, head: int, q: seq<nat>, free: int, f: seq<nat>, i: nat, e: Entry)
    requires PoolOk(ns, head, q, free, f) && i <= |q| && f != []
    ensures f[0] < |ns| && (i > 0 ==> q[i - 1] < |ns|)
    ensures var us, r := Inserted(ns, q, f, i, e), q[..i] + [f[0]] + q[i..];
            && PoolOk(us, From(r, 0), r, From(f, 1), f[1..])
            && Entries(us, r) == Entries(ns, q)[..i] + [e] + Entries(ns, q)[i..]
  {
    Apart(ns, head, q, free, f);
    var us, r := Inserted(ns, q, f, i, e), q[..i] + [f[0]] + q[i..];
    InsertedQueue(ns, head, q, f, i, e, us, r);
    InsertedRest(ns, q, free, f, i, e);
    InsertedDivided(|ns|, q, f, i);
  }

  // The insertion behind the leading entries is the sorted one.
  lemma InsertPlaces(ns: seq<Node>, head: int, q: seq<nat>, free: int, f: seq<nat>, i: nat, e: Entry)
    requires PoolOk(ns, head, q, free, f) && i <= |q| && f != [] && Leading(Entries(ns, q), i, e.key)
    ensures f[0] < |ns| && (i > 0 ==> q[i - 1] < |ns|)
    ensures var us, r := Inserted(ns, q, f, i, e), q[..i] + [f[0]] + q[i..];
            PoolOk(us, From(r, 0), r, From(f, 1), f[1..]) && Entries(us, r) == Place(Entries(ns, q), e)
  {
    InsertKeeps(ns, head, q, free, f, i, e);
    PlaceAt(Entries(ns, q), e, i);
  }

  lemma InsertedQueue(ns: seq<Node>, head: int, q: seq<nat>, f: seq<nat>, i: nat, e: Entry, us: seq<Node>, r: seq<nat>)
    requires Listed(ns, head, q) && NoDup(q) && i <= |q| && f != [] && f[0] < |ns| && f[0] !in q
    requires i > 0 ==> q[i - 1] < |ns|
    requires us == Inserted(ns, q, f, i, e) && r == q[..i] + [f[0]] + q[i..]
    ensures Listed(us, From(r, 0), r)
    ensures Entries(us, r) == Entries(ns, q)[..i] + [e] + Entries(ns, q)[i..]
  {
    forall k | 0 <= k < |r|
      ensures r[k] < |us| && us[r[k]].next == From(r, k + 1) && EntryAt(us, r[k]) == if k == i then e else EntryAt(ns, r[k])
    {
      InsertedAt(ns, head, q, f, i, e, us, r, k);
    }
    var es := Entries(ns, q);
    forall k | 0 <= k < |r|
      ensures Entries(us, r)[k] == (es[..i] + [e] + es[i..])[k]
    {
      assert r[k] == if k < i then q[k] else if k == i then f[0] else q[k - 1];
    }
  }

  lemma InsertedAt(ns: seq<Node>, head: int, q: seq<nat>, f: seq<nat>, i: nat, e: Entry, us: seq<Node>, r: seq<nat>, k: nat)
    requires Listed(ns, head, q) && NoDup(q) && i <= |q| && f != [] && f[0] < |ns| && f[0] !in q
    requires i > 0 ==> q[i - 1] < |ns|
    requires us == Inserted(ns, q, f, i, e) && r == q[..i] + [f[0]] + q[i..] && k < |r|
    ensures r[k] < |us| && us[r[k]].next == From(r, k + 1)
    ensures EntryAt(us, r[k]) == if k == i then e else EntryAt(ns, r[k])
  {
    if k < i {
      assert r[k] == q[k];
    } else if k > i {
      assert r[k] == q[k - 1];
    }
  }

  lemma InsertedRest(ns: seq<Node>, q: seq<nat>, free: int, f: seq<nat>, i: nat, e: Entry)
    requires Listed(ns, free, f) && NoDup(f) && i <= |q| && f != [] && f[0] < |ns|
    requires i > 0 ==> q[i - 1] < |ns| && q[i - 1] !in f
    ensures Listed(Inserted(ns, q, f, i, e), From(f, 1), f[1..])
  {
    var us, g := Inserted(ns, q, f, i, e), f[1..];
    forall k | 0 <= k < |g|
      ensures g[k] < |us| && us[g[k]].next == From(g, k + 1)
    {
      assert g[k] == f[k + 1];
    }
  }

  lemma InsertedDivided(n: nat, q: seq<nat>, f: seq<nat>, i: nat)
    requires Divided(n, q, f) && i <= |q| && f != []
    ensures Divided(n, q[..i] + [f[0]] + q[i..], f[1..])
  {
    var a, b := q + f, q[..i] + [f[0]] + q[i..] + f[1..];
    forall k | 0 <= k < |b|
      ensures b[k] == a[if k < i then k else if k == i then |q| else if k <= |q| then k - 1 else k]
    {
    }
    forall t: nat | t < n
      ensures t in b
    {
      assert t in a;
      var k :| 0 <= k < |a| && a[k] == t;
      assert b[if k < i then k else if k < |q| then k + 1 else if k == |q| then i else k] == t;
    }
  }

  lemma PopKeeps(ns: seq<Node>, head: int, q: seq<nat>, free: int, f: seq<nat>)
    requires PoolOk(ns, head, q, free, f) && q != []
    ensures q[0] < |ns|
    ensures var us := ns[q[0] := ns[q[0]].(next := free)];
            && PoolOk(us, From(q, 1), q[1..], q[0], [q[0]] + f)
            && Entries(us, q[1..]) == Entries(ns, q)[1..]
  {
    var n, r, g := q[0], q[1..], [q[0]] + f;
    var us := ns[n := ns[n].(next := free)];
    assert Listed(ns, free, f) && Listed(ns, head, q);
    forall k | 0 <= k < |r|
      ensures us[r[k]].next == From(r, k + 1) && EntryAt(us, r[k]) == EntryAt(ns, q[k + 1])
    {
      assert r[k] == q[k + 1] == (q + f)[k + 1] && n == (q + f)[0];
    }
    forall k | 0 <= k < |g|
      ensures us[g[k]].next == From(g, k + 1)
    {
      if k > 0 {
        assert g[k] == f[k - 1] == (q + f)[|q| + k - 1] && n == (q + f)[0];
      }
    }
    PoppedDivided(|ns|, q, f);
  }

  lemma PoppedDivided(n: nat, q: seq<nat>, f: seq<nat>)
    requires Divided(n, q, f) && q != []
    ensures Divided(n, q[1..], [q[0]] + f)
  {
    var a, b := q + f, q[1..] + ([q[0]] + f);
    forall k | 0 <= k < |b|
      ensures b[k] == a[if k < |q| - 1 then k + 1 else if k == |q| - 1 then 0 else k]
    {
    }
    forall t: nat | t < n
      ensures t in b
    {
      assert t in a;
      var k :| 0 <= k < |a| && a[k] == t;
      assert b[if k == 0 then |q| - 1 else if k < |q| then k - 1 else k] == t;
    }
  }

  // i is the number of leading entries that a new entry with this key goes behind.
  predicate Leading(es: seq<Entry>, i: nat, key: int)
  {
    true == (i <= |es| && (forall j :: 0 <= j < i ==> es[j].key <= key) && (i < |es| ==> key < es[i].key))
  }

  lemma AllSpare(ns: seq<Node>, f: seq<nat>)
    requires |ns| > 0 && |f| == |ns| && forall k :: 0 <= k < |f| ==> f[k] == k
    requires forall k :: 0 <= k < |ns| ==> ns[k].next == if k + 1 < |ns| then k + 1 else NONE
    ensures PoolOk(ns, NONE, [], 0, f)
  {
    assert [] + f == f;
    forall t: nat | t < |ns|
      ensures t in f
    {
      assert f[t] == t;
    }
  }

  // ---------- the queue ----------

  class Queue {
    const pool: array<Node>
    var head: int
    var free: int
    ghost var order: seq<nat>
    ghost var spare: seq<nat>

    ghost predicate Valid()
      reads this, pool
    {
      PoolOk(pool[..], head, order, free, spare)
    }

    // The queued entries, first to last.
    ghost function Contents(): (es: seq<Entry>)
      reads this, pool
    {
      Entries(pool[..], order)
    }

    // No node is lost or on both lists.
    lemma Conserved(t: nat)
      requires Valid() && t < pool.Length
      ensures |Contents()| + |spare| == pool.Length
      ensures (t in order) != (t in spare)
    {
      Apart(pool[..], head, order, free, spare);
      assert t in order + spare;
    }

    // The pool as timer_init and task_init link it.
    constructor (size: nat)
      requires 0 < size
      ensures Valid() && fresh(pool) && pool.Length == size
      ensures Contents() == [] && |spare| == size
    {
      pool := new Node[size];
      head, free, order, spare := NONE, 0, [], seq(size, i => i);
      new;
      for i := 0 to size - 1
        invariant head == NONE && free == 0 && order == [] && spare == seq(size, i => i)
        invariant forall k :: 0 <= k < i ==> pool[k].next == k + 1
      {
        pool[i] := FREE_NODE.(next := i + 1);
      }
      pool[size - 1] := FREE_NODE;
      AllSpare(pool[..], spare);
    }

    // timer_alloc_node and task_alloc_node: the head of the free list, NONE when it is empty.
    method AllocNode() returns (n: int)
      requires Listed(pool[..], free, spare) && NoDup(spare)
      modifies this`free, this`spare, pool
      ensures n == From(old(spare), 0)
      ensures n == NONE ==> free == old(free) && spare == old(spare) == [] && pool[..] == old(pool[..])
      ensures n != NONE ==>
                && 0 <= n < pool.Length && free == From(old(spare), 1) && spare == old(spare)[1..]
                && pool[..] == old(pool[..])[n := old(pool[..])[n].(next := NONE)]
    {
      n := free;
      if n != NONE {
        assert n == spare[0];
        free := pool[n].next;
        pool[n] := pool[n].(next := NONE);
        spare := spare[1..];
      }
    }

    // timer_free_node and task_free_node.
    method FreeNode(n: nat)
      requires n < pool.Length
      modifies this`free, this`spare, pool
      ensures free == n && spare == [n] + old(spare)
      ensures pool[..] == old(pool[..])[n := old(pool[n]).(next := old(free))]
    {
      pool[n] := pool[n].(next := free);
      free := n;
      spare := [n] + spare;
    }

    // The walk to the place of a key that is not below the head's: the last node that stays
    // before it, which is element i - 1.
    method FindPlace(key: int) returns (cur: nat, ghost i: nat)
      requires Listed(pool[..], head, order) && order != [] && order[0] < pool.Length && pool[order[0]].key <= key
      ensures 0 < i <= |order| && cur == order[i - 1] && cur < pool.Length && pool[cur].next == From(order, i)
      ensures Leading(Contents(), i, key)
    {
      ghost var q, ns := order, pool[..];
      cur := head;
      i := 1;
      while pool[cur].next != NONE && pool[pool[cur].next].key <= key
        invariant 1 <= i <= |q| && cur == q[i - 1]
        invariant forall j :: 0 <= j < i ==> EntryAt(ns, q[j]).key <= key
        decreases |q| - i
      {
        assert ns[q[i - 1]].next == From(q, i);
        cur := pool[cur].next;
        i := i + 1;
      }
      assert ns[q[i - 1]].next == From(q, i);
    }

    // The link at the place of the key: i is the number of queued entries that stay before
    // the new one.
    method Link(n: nat, e: Entry) returns (ghost i: nat, first: bool)
      requires Listed(pool[..], head, order) && n < pool.Length && n !in order
      requires pool[n] == Node(e.key, e.item, NONE)
      modifies this`head, pool
      ensures i <= |order| && (i > 0 ==> order[i - 1] < pool.Length)
      ensures Leading(old(Contents()), i, e.key)
      ensures first == (i == 0) && head == if i == 0 then n else old(head)
      ensures pool[..] == var us := old(pool[..])[n := Node(e.key, e.item, From(order, i))];
                          if i == 0 then us else us[order[i - 1] := us[order[i - 1]].(next := n)]
    {
      ghost var q, ns := order, pool[..];
      if head == NONE || e.key < pool[head].key {
        i, first := 0, true;
        pool[n] := pool[n].(next := head);
        head := n;
        return;
      }
      var cur;
      cur, i := FindPlace(e.key);
      first := false;
      pool[n] := pool[n].(next := pool[cur].next);
      pool[cur] := pool[cur].(next := n);
    }

    // The sorted insertion of add_timer and add_task. It fails only when no node is free;
    // first tells that the entry is the new head.
    method Insert(e: Entry) returns (ok: bool, first: bool)
      requires Valid()
      modifies this, pool
      ensures Valid()
      ensures ok <==> old(spare) != []
      ensures !ok ==> !first && Contents() == old(Contents()) && spare == old(spare)
      ensures ok ==> Contents() == Place(old(Contents()), e) && |spare| == |old(spare)| - 1
      ensures ok ==> (first <==> old(Contents()) == [] || e.key < old(Contents())[0].key)
    {
      ghost var ns, q, f, es := pool[..], order, spare, Contents();
      Apart(ns, head, q, free, f);
      var n := AllocNode();
      if n == NONE {
        return false, false;
      }
      pool[n] := Node(e.key, e.item, NONE);
      assert pool[..] == ns[n := Node(e.key, e.item, NONE)];
      OtherNode(ns, head, q, n, e);
      ghost var i;
      i, first := Link(n, e);
      assert pool[..] == Inserted(ns, q, f, i, e);
      InsertPlaces(ns, old(head), q, old(free), f, i, e);
      order := q[..i] + [f[0]] + q[i..];
      ok := true;
    }

    // Taking the first entry off, its node back to the free list.
    method PopFirst() returns (e: Entry)
      requires Valid() && Contents() != []
      modifies this, pool
      ensures Valid()
      ensures e == old(Contents())[0] && Contents() == old(Contents())[1..]
      ensures |spare| == |old(spare)| + 1
    {
      ghost var ns, q := pool[..], order;
      PopKeeps(ns, head, q, free, spare);
      assert head == q[0] && pool[head].next == From(q, 1);
      var n: nat := head;
      head := pool[head].next;
      e := Entry(pool[n].key, pool[n].item);
      FreeNode(n);
      order := order[1..];
    }
  }

  // A node off the queue may change without the queue noticing.
  lemma OtherNode(ns: seq<Node>, head: int, q: seq<nat>, n: nat, e: Entry)
    requires Listed(ns, head, q) && n < |ns| && n !in q
    ensures var us := ns[n := Node(e.key, e.item, NONE)];
            Listed(us, head, q) && Entries(us, q) == Entries(ns, q)
  {
  }
}
