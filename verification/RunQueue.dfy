/**
 The threads of thread.c: a fixed table of task slots and a circular run queue that links
 the runnable ones through their next fields. switch_to is the assignment of current. A task
 is named by its slot; slot 0 is the idle task.
 */
module RunQueue {
  import opened Sequences

  const NONE: int := -1

  datatype TaskState = Unused | Runnable | Running | Zombie

  datatype Task = Task(pid: int, state: TaskState, next: int, isUser: bool, parent: int, status: int)

  // A slot as thread_init and task_reap leave it.
  const FREE_SLOT: Task := Task(-1, Unused, NONE, false, NONE, 0)

  predicate IsRunnable(t: Task)
  {
    t.state == Runnable || t.state == Running
  }

  // ---------- queues as sequences ----------

  ghost function IndexOf(q: seq<nat>, t: nat): (i: nat)
    requires t in q
    ensures i < |q| && q[i] == t
  {
    var i: nat :| i < |q| && q[i] == t;
    i
  }

  lemma IndexIs(q: seq<nat>, i: nat)
    requires NoDup(q) && i < |q|
    ensures IndexOf(q, q[i]) == i
  {
    var j := IndexOf(q, q[i]);
    if i < j || j < i {
      assert false;
    }
  }

  // The task behind index i, around the circle.
  function After(q: seq<nat>, i: nat): nat
    requires i < |q|
  {
    if i + 1 < |q| then q[i + 1] else q[0]
  }

  ghost function Successor(q: seq<nat>, t: nat): nat
    requires t in q
  {
    After(q, IndexOf(q, t))
  }

  // Taking out element i moves those behind it up by one.
  lemma WithoutShift(q: seq<nat>, i: nat)
    requires NoDup(q) && i < |q|
    ensures var w := Without(q, q[i]);
            |w| == |q| - 1 && forall k :: 0 <= k < |w| ==> w[k] == q[if k < i then k else k + 1]
  {
    WithoutAt(q, i);
  }

  lemma WithoutMembers(q: seq<nat>, t: nat)
    requires NoDup(q)
    ensures NoDup(Without(q, t))
    ensures forall x :: x in Without(q, t) <==> x in q && x != t
  {
    WithoutElems(q, t);
  }

  // ---------- the linked ring ----------

  // The next fields link the slots of q in a circle, and no others.
  ghost predicate Linked(ts: seq<Task>, q: seq<nat>)
  {
    true == (&& NoDup(q)
             && (forall i :: 0 <= i < |q| ==> q[i] < |ts|)
             && (forall i {:trigger After(q, i)} :: 0 <= i < |q| ==> ts[q[i]].next == After(q, i))
             && (forall t: nat :: t < |ts| && t !in q ==> ts[t].next == NONE))
  }

  // The tail pointer finds both ends of the queue.
  predicate TailOf(q: seq<nat>, tail: int)
  {
    tail == if q == [] then NONE else q[|q| - 1]
  }

  lemma LinkAt(ts: seq<Task>, q: seq<nat>, j: nat)
    requires Linked(ts, q) && j < |q|
    ensures q[j] < |ts| && ts[q[j]].next == After(q, j)
  {
  }

  // Link t in behind the tail.
  function Enqueued(ts: seq<Task>, q: seq<nat>, t: nat): seq<Task>
    requires Linked(ts, q) && t < |ts|
  {
    if q == [] then ts[t := ts[t].(next := t)]
    else
      var tail := q[|q| - 1];
      var ts1 := ts[t := ts[t].(next := ts[tail].next)];
      ts1[tail := ts1[tail].(next := t)]
  }

  lemma EnqueueLinks(ts: seq<Task>, q: seq<nat>, t: nat)
    requires Linked(ts, q) && t < |ts| && t !in q
    ensures Linked(Enqueued(ts, q, t), q + [t])
  {
    var us, r := Enqueued(ts, q, t), q + [t];
    if q != [] {
      LinkAt(ts, q, |q| - 1);
    }
    forall i | 0 <= i < |r|
      ensures us[r[i]].next == After(r, i)
    {
      if i < |q| {
        LinkAt(ts, q, i);
      }
    }
  }

  // Link t out, prev being the slot before it.
  function Unlinked(ts: seq<Task>, prev: nat, t: nat): seq<Task>
    requires prev < |ts| && t < |ts|
  {
    var ts1 := ts[prev := ts[prev].(next := ts[t].next)];
    ts1[t := ts1[t].(next := NONE)]
  }

  lemma UnlinkLinks(ts: seq<Task>, q: seq<nat>, i: nat)
    requires Linked(ts, q) && i < |q| && |q| >= 2
    ensures var prev := q[if i == 0 then |q| - 1 else i - 1];
            Linked(Unlinked(ts, prev, q[i]), Without(q, q[i]))
  {
    var w := Without(q, q[i]);
    var us := Unlinked(ts, q[if i == 0 then |q| - 1 else i - 1], q[i]);
    WithoutMembers(q, q[i]);
    UnlinkedRing(ts, q, i, us, w);
    UnlinkedOff(ts, q, i, us, w);
  }

  lemma UnlinkedRing(ts: seq<Task>, q: seq<nat>, i: nat, us: seq<Task>, w: seq<nat>)
    requires Linked(ts, q) && i < |q| && |q| >= 2 && w == Without(q, q[i])
    requires us == Unlinked(ts, q[if i == 0 then |q| - 1 else i - 1], q[i])
    ensures forall k {:trigger After(w, k)} :: 0 <= k < |w| ==> w[k] < |us| && us[w[k]].next == After(w, k)
    ensures forall k :: 0 <= k < |w| ==> w[k] < |us|
  {
    WithoutShift(q, i);
    forall k {:trigger After(w, k)} | 0 <= k < |w|
      ensures w[k] < |us| && us[w[k]].next == After(w, k)
    {
      UnlinkedNext(ts, q, i, k);
    }
  }

  lemma UnlinkedOff(ts: seq<Task>, q: seq<nat>, i: nat, us: seq<Task>, w: seq<nat>)
    requires Linked(ts, q) && i < |q| && |q| >= 2 && forall x :: x in w <==> x in q && x != q[i]
    requires us == Unlinked(ts, q[if i == 0 then |q| - 1 else i - 1], q[i])
    ensures forall x: nat :: x < |us| && x !in w ==> us[x].next == NONE
  {
    var prev := q[if i == 0 then |q| - 1 else i - 1];
    assert prev in q;
  }

  // The links behind the removal, one slot at a time.
  lemma UnlinkedNext(ts: seq<Task>, q: seq<nat>, i: nat, k: nat)
    requires Linked(ts, q) && i < |q| && k + 1 < |q|
    ensures var j := if k < i then k else k + 1;
            var us := Unlinked(ts, q[if i == 0 then |q| - 1 else i - 1], q[i]);
            us[q[j]].next == After(Without(q, q[i]), k)
  {
    WithoutShift(q, i);
    var j, p := if k < i then k else k + 1, if i == 0 then |q| - 1 else i - 1;
    LinkAt(ts, q, i);
    LinkAt(ts, q, j);
    assert q[j] != q[i];
    if j != p {
      assert q[j] != q[p];
    }
  }

  // ---------- what every state keeps ----------

  // Slots in use have different pids, all below the next one to be given.
  predicate PidsOk(ts: seq<Task>, nextPid: int)
  {
    true == (&& (forall t :: 0 <= t < |ts| ==>
                   if ts[t].state == Unused then ts[t] == FREE_SLOT else 0 <= ts[t].pid < nextPid)
             && (forall s, t :: 0 <= s < t < |ts| && ts[s].state != Unused && ts[t].state != Unused ==>
                   ts[s].pid != ts[t].pid))
  }

  predicate ParentsOk(ts: seq<Task>)
  {
    true == (forall t :: 0 <= t < |ts| ==> NONE <= ts[t].parent < |ts| && ts[t].parent != t)
  }

  // The queue holds exactly the runnable and running tasks, the idle task among them, and
  // the current task is the only running one.
  predicate StatesOk(ts: seq<Task>, q: seq<nat>, current: nat)
  {
    true == (&& (forall t: nat :: t < |ts| ==> (t in q <==> IsRunnable(ts[t])))
             && 0 in q && current in q
             && (forall t: nat :: t < |ts| ==> (ts[t].state == Running <==> t == current)))
  }

  ghost predicate Consistent(ts: seq<Task>, q: seq<nat>, tail: int, current: nat, nextPid: int)
  {
    true == (&& 0 < |ts| && Linked(ts, q) && TailOf(q, tail) && StatesOk(ts, q, current)
             && PidsOk(ts, nextPid) && ParentsOk(ts) && ts[0].pid == 0)
  }

  // ---------- lookups ----------

  // The task k places ahead of index i around the circle.
  function Ahead(q: seq<nat>, i: nat, k: nat): nat
    requires i < |q| && k <= |q|
  {
    if i + k < |q| then q[i + k] else q[i + k - |q|]
  }

  // The zombies kill_zombies leaves to a parent that will wait for them.
  predicate AwaitsParent(ts: seq<Task>, t: nat)
    requires t < |ts| && NONE <= ts[t].parent < |ts|
  {
    var p := ts[t].parent;
    p != NONE && ts[p].isUser && ts[p].state != Unused && ts[p].state != Zombie
  }

  // A user process that has not ended is in slot p.
  predicate AliveUser(ts: seq<Task>, p: int)
  {
    0 <= p < |ts| && ts[p].isUser && IsRunnable(ts[p])
  }

  // A slot behind kill_zombies.
  function ReapedSlot(ts: seq<Task>, t: nat): Task
    requires ParentsOk(ts) && t < |ts|
  {
    if 0 < t && ts[t].state == Zombie && !AwaitsParent(ts, t) then FREE_SLOT else ts[t]
  }

  function Reaped(ts: seq<Task>): (us: seq<Task>)
    requires ParentsOk(ts)
    ensures |us| == |ts|
    ensures forall t :: 0 <= t < |ts| ==> us[t] == ReapedSlot(ts, t)
  {
    seq(|ts|, t requires 0 <= t < |ts| => ReapedSlot(ts, t))
  }

  lemma ReapedLinked(ts: seq<Task>, q: seq<nat>, current: nat)
    requires Linked(ts, q) && StatesOk(ts, q, current) && ParentsOk(ts)
    ensures Linked(Reaped(ts), q) && StatesOk(Reaped(ts), q, current)
  {
    var us := Reaped(ts);
    forall t: nat | t < |ts|
      ensures us[t] == ts[t] || (t !in q && us[t] == FREE_SLOT && ts[t].state == Zombie)
    {
    }
  }

  lemma ReapedPids(ts: seq<Task>, nextPid: int)
    requires PidsOk(ts, nextPid) && ParentsOk(ts)
    ensures PidsOk(Reaped(ts), nextPid) && ParentsOk(Reaped(ts))
  {
    var us := Reaped(ts);
    forall t: nat | t < |ts|
      ensures us[t] == ts[t] || us[t] == FREE_SLOT
    {
    }
  }

  // Reaping changes neither the queue nor who runs, and frees pids only.
  lemma ReapedConsistent(ts: seq<Task>, q: seq<nat>, tail: int, current: nat, nextPid: int)
    requires Consistent(ts, q, tail, current, nextPid)
    ensures Consistent(Reaped(ts), q, tail, current, nextPid)
  {
    ReapedLinked(ts, q, current);
    ReapedPids(ts, nextPid);
  }

  // Who runs when the current task ends: its parent if that may still run, otherwise the
  // next task in the circle.
  ghost function Heir(ts: seq<Task>, q: seq<nat>, t: nat): nat
    requires t in q && t < |ts| && NONE <= ts[t].parent < |ts|
  {
    var p := ts[t].parent;
    if p != NONE && ts[p].state != Unused && ts[p].state != Zombie then p else Successor(q, t)
  }

  // ---------- steps on values ----------

  // A task as thread_create leaves it.
  function Created(pid: int): Task
  {
    FREE_SLOT.(pid := pid, state := Runnable)
  }

  // The same slots but for their links.
  predicate Relinked(ts: seq<Task>, us: seq<Task>)
  {
    true == (|us| == |ts| && forall t :: 0 <= t < |ts| ==> us[t] == ts[t].(next := us[t].next))
  }

  lemma CreatedLinks(ts: seq<Task>, q: seq<nat>, tail: int, current: nat, nextPid: int, t: nat)
    requires Consistent(ts, q, tail, current, nextPid) && t < |ts| && ts[t].state == Unused
    ensures ts[t] == FREE_SLOT && t !in q && Linked(ts[t := Created(nextPid)], q) && TailOf(q, tail)
  {
  }

  lemma CreateConsistent(ts: seq<Task>, q: seq<nat>, tail: int, current: nat, nextPid: int, t: nat, us: seq<Task>)
    requires Consistent(ts, q, tail, current, nextPid) && t < |ts| && ts[t].state == Unused
    requires Linked(ts[t := Created(nextPid)], q) && us == Enqueued(ts[t := Created(nextPid)], q, t)
    ensures Consistent(us, q + [t], t, current, nextPid + 1)
    ensures Relinked(ts[t := Created(nextPid)], us)
  {
    CreatedLinks(ts, q, tail, current, nextPid, t);
    var ts1 := ts[t := Created(nextPid)];
    EnqueueLinks(ts1, q, t);
    EnqueueRelinks(ts1, q, t);
    CreatedStates(ts, us, q, current, nextPid, t);
    CreatedPids(ts, us, nextPid, t);
  }

  lemma EnqueueRelinks(ts: seq<Task>, q: seq<nat>, t: nat)
    requires Linked(ts, q) && t < |ts|
    ensures Relinked(ts, Enqueued(ts, q, t))
  {
  }

  lemma CreatedStates(ts: seq<Task>, us: seq<Task>, q: seq<nat>, current: nat, pid: int, t: nat)
    requires StatesOk(ts, q, current) && t < |ts| && ts[t].state == Unused && Relinked(ts[t := Created(pid)], us)
    ensures StatesOk(us, q + [t], current)
  {
    var ts1 := ts[t := Created(pid)];
    forall x: nat | x < |ts|
      ensures us[x].state == ts1[x].state && (x in q + [t] <==> x in q || x == t)
    {
    }
    assert 0 in q + [t] && current in q + [t];
  }

  lemma CreatedPids(ts: seq<Task>, us: seq<Task>, nextPid: int, t: nat)
    requires PidsOk(ts, nextPid) && ParentsOk(ts) && 0 <= nextPid
    requires t < |ts| && Relinked(ts[t := Created(nextPid)], us)
    requires forall x :: 0 <= x < |us| && us[x].state == Unused ==> us[x].next == NONE
    ensures PidsOk(us, nextPid + 1) && ParentsOk(us)
  {
    var ts1 := ts[t := Created(nextPid)];
    forall x | 0 <= x < |ts|
      ensures us[x] == ts1[x].(next := us[x].next)
    {
    }
  }

  // t leaves the queue as a zombie with this status, and c is the task that runs then.
  function Ended(ts: seq<Task>, prev: nat, t: nat, status: int, c: nat): seq<Task>
    requires prev < |ts| && t < |ts| && c < |ts|
  {
    var us := Unlinked(ts, prev, t);
    var vs := us[t := us[t].(state := Zombie, status := status)];
    vs[c := vs[c].(state := Running)]
  }

  // us is ts with t a zombie and c the running task, whatever the links.
  predicate Handed(ts: seq<Task>, us: seq<Task>, t: nat, c: nat)
  {
    true == (&& |us| == |ts|
             && (forall x :: 0 <= x < |ts| ==>
                   us[x].state == if x == t then Zombie else if x == c then Running else ts[x].state)
             && (forall x :: 0 <= x < |ts| ==>
                   us[x].pid == ts[x].pid && us[x].parent == ts[x].parent && us[x].isUser == ts[x].isUser)
             && (forall x :: 0 <= x < |ts| && ts[x].state == Unused ==> us[x] == ts[x]))
  }

  predicate SameNext(ts: seq<Task>, us: seq<Task>)
  {
    true == (|us| == |ts| && forall t :: 0 <= t < |ts| ==> us[t].next == ts[t].next)
  }

  lemma EndConsistent(ts: seq<Task>, q: seq<nat>, tail: int, current: nat, nextPid: int, i: nat, status: int, c: nat)
    requires Consistent(ts, q, tail, current, nextPid) && i < |q| && q[i] != 0 && c in q && c != q[i]
    requires q[i] == current || c == current
    ensures |q| >= 2 && q[i] < |ts| && c < |ts|
    ensures var prev, w := q[if i == 0 then |q| - 1 else i - 1], Without(q, q[i]);
            prev < |ts| && |w| >= 1 && Consistent(Ended(ts, prev, q[i], status, c), w, w[|w| - 1], c, nextPid)
  {
    hide Linked, StatesOk, PidsOk, ParentsOk, Ended, Handed;
    TwoQueued(q, i, c);
    var t, prev := q[i], q[if i == 0 then |q| - 1 else i - 1];
    QueuedRuns(ts, q, current, t);
    QueuedRuns(ts, q, current, prev);
    QueuedRuns(ts, q, current, c);
    EndedRing(ts, q, i, status, c);
    EndedSlots(ts, prev, t, status, c);
    var us := Ended(ts, prev, t, status, c);
    EndedStates(ts, us, q, current, t, c);
    EndedPids(ts, us, nextPid, t, c);
  }

  lemma TwoQueued(q: seq<nat>, i: nat, c: nat)
    requires i < |q| && c in q && c != q[i]
    ensures |q| >= 2
  {
  }

  lemma QueuedRuns(ts: seq<Task>, q: seq<nat>, current: nat, t: nat)
    requires Linked(ts, q) && StatesOk(ts, q, current) && t in q
    ensures t < |ts| && IsRunnable(ts[t])
  {
  }

  lemma EndedRing(ts: seq<Task>, q: seq<nat>, i: nat, status: int, c: nat)
    requires Linked(ts, q) && i < |q| && |q| >= 2 && q[i] < |ts| && c < |ts|
    ensures var prev, w := q[if i == 0 then |q| - 1 else i - 1], Without(q, q[i]);
            prev < |ts| && |w| >= 1 && Linked(Ended(ts, prev, q[i], status, c), w)
  {
    var prev := q[if i == 0 then |q| - 1 else i - 1];
    UnlinkLinks(ts, q, i);
    SameLinks(Unlinked(ts, prev, q[i]), Ended(ts, prev, q[i], status, c), Without(q, q[i]));
  }

  lemma SameLinks(ts: seq<Task>, us: seq<Task>, q: seq<nat>)
    requires Linked(ts, q) && SameNext(ts, us)
    ensures Linked(us, q)
  {
  }

  lemma EndedSlots(ts: seq<Task>, prev: nat, t: nat, status: int, c: nat)
    requires prev < |ts| && t < |ts| && c < |ts| && c != t
    requires ts[prev].state != Unused && ts[t].state != Unused && ts[c].state != Unused
    ensures Handed(ts, Ended(ts, prev, t, status, c), t, c)
    ensures SameNext(Unlinked(ts, prev, t), Ended(ts, prev, t, status, c))
  {
  }

  lemma EndedStates(ts: seq<Task>, us: seq<Task>, q: seq<nat>, current: nat, t: nat, c: nat)
    requires Linked(ts, q) && StatesOk(ts, q, current) && t in q && t != 0 && c in q && c != t
    requires t == current || c == current
    requires Handed(ts, us, t, c)
    ensures StatesOk(us, Without(q, t), c)
  {
    WithoutMembers(q, t);
  }

  lemma EndedPids(ts: seq<Task>, us: seq<Task>, nextPid: int, t: nat, c: nat)
    requires PidsOk(ts, nextPid) && ParentsOk(ts) && Handed(ts, us, t, c)
    requires t < |ts| && c < |ts| && ts[t].state != Unused && ts[c].state != Unused
    ensures PidsOk(us, nextPid) && ParentsOk(us)
  {
  }

  // schedule hands the CPU from prev to next; both stay in the queue.
  function Switched(ts: seq<Task>, prev: nat, next: nat): seq<Task>
    requires prev < |ts| && next < |ts|
  {
    var us := ts[prev := ts[prev].(state := Runnable)];
    us[next := us[next].(state := Running)]
  }

  lemma SwitchConsistent(ts: seq<Task>, q: seq<nat>, tail: int, current: nat, nextPid: int, next: nat)
    requires Consistent(ts, q, tail, current, nextPid) && next in q && next != current
    ensures next < |ts| && current < |ts| && Consistent(Switched(ts, current, next), q, tail, next, nextPid)
  {
    assert current in q;
    var us := Switched(ts, current, next);
    forall x: nat | x < |ts|
      ensures us[x] == ts[x].(state := if x == next then Running else if x == current then Runnable else ts[x].state)
    {
    }
    SameLinks(ts, us, q);
    SwitchedPids(ts, us, nextPid);
    SwitchedStates(ts, us, q, current, next);
  }

  lemma SwitchedPids(ts: seq<Task>, us: seq<Task>, nextPid: int)
    requires PidsOk(ts, nextPid) && ParentsOk(ts) && |us| == |ts|
    requires forall x :: 0 <= x < |ts| ==> us[x] == ts[x] || (us[x] == ts[x].(state := us[x].state) && IsRunnable(us[x]) && IsRunnable(ts[x]))
    ensures PidsOk(us, nextPid) && ParentsOk(us)
  {
  }

  lemma SwitchedStates(ts: seq<Task>, us: seq<Task>, q: seq<nat>, current: nat, next: nat)
    requires StatesOk(ts, q, current) && |us| == |ts| && next in q && next != current
    requires forall x :: 0 <= x < |ts| ==> us[x].state == if x == next then Running else if x == current then Runnable else ts[x].state
    ensures StatesOk(us, q, next)
  {
  }

  function At(ts: seq<Task>, t: nat): Task
  {
    if t < |ts| then ts[t] else FREE_SLOT
  }

  lemma AheadLink(ts: seq<Task>, q: seq<nat>, i: nat, k: nat)
    requires Linked(ts, q) && i < |q| && 0 < k <= |q| && Ahead(q, i, k) != q[i]
    ensures k < |q| && Ahead(q, i, k) < |ts| && ts[Ahead(q, i, k)].next == Ahead(q, i, k + 1)
  {
    LinkAt(ts, q, if i + k < |q| then i + k else i + k - |q|);
  }

  lemma PassOne(ts: seq<Task>, q: seq<nat>, i: nat, k: nat)
    requires i < |q| && 0 < k < |q| && Passed(ts, q, i, k) && !IsRunnable(At(ts, Ahead(q, i, k)))
    ensures Passed(ts, q, i, k + 1)
  {
  }

  // All tasks of the queue may run, so the search ends at the first one.
  lemma QueueRuns(ts: seq<Task>, q: seq<nat>, tail: int, current: nat, nextPid: int, r: nat, k: nat)
    requires Consistent(ts, q, tail, current, nextPid) && current in q
    requires 0 < k <= |q| && r == Ahead(q, IndexOf(q, current), k)
    requires Passed(ts, q, IndexOf(q, current), k)
    ensures r == Successor(q, current) && r in q
  {
    var i := IndexOf(q, current);
    var first := Ahead(q, i, 1);
    assert first in q && first < |ts|;
    assert IsRunnable(At(ts, first));
  }

  lemma HeirRuns(ts: seq<Task>, q: seq<nat>, tail: int, current: nat, nextPid: int)
    requires Consistent(ts, q, tail, current, nextPid) && current != 0
    ensures current in q && current < |ts| && Heir(ts, q, current) in q && Heir(ts, q, current) != current
  {
    assert |q| >= 2 by { assert 0 in q && current in q; }
    var i := IndexOf(q, current);
    assert After(q, i) != q[i];
  }

  lemma AdoptConsistent(ts: seq<Task>, q: seq<nat>, tail: int, current: nat, nextPid: int, child: nat)
    requires Consistent(ts, q, tail, current, nextPid) && child < |ts| && ts[child].state == Runnable
    ensures Consistent(ts[child := ts[child].(isUser := true, status := 0, parent := current)], q, tail, current, nextPid)
  {
    assert current in q && current != child;
    var us := ts[child := ts[child].(isUser := true, status := 0, parent := current)];
    SameLinks(ts, us, q);
    SameStates(ts, us, q, current);
    AdoptedPids(ts, current, nextPid, child);
  }

  lemma SameStates(ts: seq<Task>, us: seq<Task>, q: seq<nat>, current: nat)
    requires StatesOk(ts, q, current) && |us| == |ts| && forall x :: 0 <= x < |ts| ==> us[x].state == ts[x].state
    ensures StatesOk(us, q, current)
  {
  }

  lemma AdoptedPids(ts: seq<Task>, current: nat, nextPid: int, child: nat)
    requires PidsOk(ts, nextPid) && ParentsOk(ts) && child < |ts| && ts[child].state == Runnable
    requires current < |ts| && current != child
    ensures var us := ts[child := ts[child].(isUser := true, status := 0, parent := current)];
            PidsOk(us, nextPid) && ParentsOk(us)
  {
  }

  // us is the table when kill_zombies has come to slot i.
  predicate PartlyReaped(ts: seq<Task>, us: seq<Task>, i: nat)
    requires ParentsOk(ts)
  {
    true == (&& |us| == |ts|
             && (forall t :: 0 <= t < i && t < |ts| ==> us[t] == ReapedSlot(ts, t))
             && (forall t :: i <= t < |ts| ==> us[t] == ts[t]))
  }

  // Whether a zombie waits for its parent does not change while others are reaped.
  lemma StillAwaits(ts: seq<Task>, us: seq<Task>, i: nat)
    requires ParentsOk(ts) && 0 < i < |ts| && PartlyReaped(ts, us, i)
    ensures us[i] == ts[i] && AwaitsParent(us, i) == AwaitsParent(ts, i)
    ensures PartlyReaped(ts, if ts[i].state == Zombie && !AwaitsParent(ts, i) then us[i := FREE_SLOT] else us, i + 1)
  {
  }

  lemma FullyReaped(ts: seq<Task>, us: seq<Task>)
    requires ParentsOk(ts) && PartlyReaped(ts, us, |ts|)
    ensures us == Reaped(ts)
  {
  }

  // Every task passed on the way from index i to k places ahead may not run.
  predicate Passed(ts: seq<Task>, q: seq<nat>, i: nat, k: nat)
    requires i < |q| && k <= |q|
  {
    true == forall j :: 0 < j < k ==> !IsRunnable(At(ts, Ahead(q, i, j)))
  }

  // r is the lowest free slot, NONE exactly when there is none.
  predicate LowestFree(ts: seq<Task>, r: int)
  {
    && NONE <= r < |ts|
    && (if r == NONE then forall t :: 0 <= t < |ts| ==> ts[t].state != Unused
        else ts[r].state == Unused && forall t :: 0 <= t < r ==> ts[t].state != Unused)
  }

  // The index before j, around the circle.
  function Previous(q: seq<nat>, j: nat): nat
    requires j < |q|
  {
    if j == 0 then |q| - 1 else j - 1
  }

  // The last slot when t is taken out.
  lemma TailWithout(q: seq<nat>, t: nat)
    requires NoDup(q) && t in q && |q| >= 2
    ensures var w := Without(q, t); |w| == |q| - 1 && w[|w| - 1] == if q[|q| - 1] == t then Before(q, t) else q[|q| - 1]
  {
    WithoutShift(q, IndexOf(q, t));
    if q[|q| - 1] == t {
      IndexIs(q, |q| - 1);
    }
  }

  // The slot before t in the queue.
  ghost function Before(q: seq<nat>, t: nat): nat
    requires t in q
  {
    var i := IndexOf(q, t);
    if i == 0 then q[|q| - 1] else q[i - 1]
  }

  // us is ts after t has left the queue with this status and c runs.
  ghost predicate Left(ts: seq<Task>, us: seq<Task>, q: seq<nat>, t: nat, status: int, c: nat)
  {
    true == (t in q && t < |ts| && c < |ts| && Before(q, t) < |ts| && us == Ended(ts, Before(q, t), t, status, c))
  }

  lemma LeaveConsistent(ts: seq<Task>, q: seq<nat>, tail: int, current: nat, nextPid: int, t: nat, status: int, c: nat)
    requires Consistent(ts, q, tail, current, nextPid) && t in q && t != 0 && c in q && c != t
    requires t == current || c == current
    ensures t < |ts| && c < |ts| && Before(q, t) < |ts|
    ensures var us, w := Ended(ts, Before(q, t), t, status, c), Without(q, t);
            w != [] && Consistent(us, w, w[|w| - 1], c, nextPid) && Handed(ts, us, t, c)
  {
    hide Linked, StatesOk, PidsOk, ParentsOk, Ended, Handed, Without;
    var i := IndexOf(q, t);
    EndConsistent(ts, q, tail, current, nextPid, i, status, c);
    assert Before(q, t) == q[if i == 0 then |q| - 1 else i - 1];
    QueuedRuns(ts, q, current, t);
    QueuedRuns(ts, q, current, Before(q, t));
    QueuedRuns(ts, q, current, c);
    EndedSlots(ts, Before(q, t), t, status, c);
  }

  // A task that task_kill ends: alive, not idle, and of this pid.
  predicate Killable(ts: seq<Task>, t: int, pid: int)
  {
    0 < t < |ts| && IsRunnable(ts[t]) && ts[t].pid == pid
  }

  // t has left the queue as a zombie with this status; only if it was the current task does
  // another one run, its heir.
  ghost predicate EndedTask(ts: seq<Task>, us: seq<Task>, q: seq<nat>, w: seq<nat>, current: nat, c: nat, t: int, status: int)
  {
    true == (&& 0 <= t < |ts| && t in q && NONE <= ts[t].parent < |ts|
             && w == Without(q, t) && Left(ts, us, q, t, status, c)
             && c == if t == current then Heir(ts, q, t) else current)
  }

  predicate NoneKillable(ts: seq<Task>, pid: int)
  {
    true == forall t :: 0 <= t < |ts| ==> !Killable(ts, t, pid)
  }

  // Only the slot task_find_by_pid finds can be meant.
  lemma PidUnique(ts: seq<Task>, nextPid: int, pid: int, t: int)
    requires PidsOk(ts, nextPid) && NONE <= t < |ts|
    requires t != NONE ==> ts[t].state != Unused && ts[t].pid == pid
    requires t == NONE ==> forall x :: 0 <= x < |ts| && ts[x].state != Unused ==> ts[x].pid != pid
    ensures if t > 0 && ts[t].state != Zombie then Killable(ts, t, pid) else NoneKillable(ts, pid)
  {
  }

  lemma RunnableQueued(ts: seq<Task>, q: seq<nat>, tail: int, current: nat, nextPid: int, t: nat)
    requires Consistent(ts, q, tail, current, nextPid) && t < |ts| && IsRunnable(ts[t])
    ensures t in q && current in q && current < |ts| && ts[current].state == Running
  {
  }

  lemma StatusConsistent(ts: seq<Task>, q: seq<nat>, tail: int, current: nat, nextPid: int, status: int)
    requires Consistent(ts, q, tail, current, nextPid)
    ensures current < |ts|
    ensures var us := ts[current := ts[current].(status := status)];
            Consistent(us, q, tail, current, nextPid)
  {
    assert current in q && current < |ts|;
    var us := ts[current := ts[current].(status := status)];
    SameLinks(ts, us, q);
    SameStates(ts, us, q, current);
    assert PidsOk(us, nextPid) && ParentsOk(us);
  }

  lemma EndedStatus(ts: seq<Task>, us: seq<Task>, q: seq<nat>, w: seq<nat>, current: nat, c: nat, status: int)
    requires current < |ts| && EndedTask(ts[current := ts[current].(status := status)], us, q, w, current, c, current, status)
    requires c != current
    ensures EndedTask(ts, us, q, w, current, c, current, status)
  {
  }

  // What a task's end means for every slot: it is a zombie and off the queue, all others
  // keep state, pid and parent, but for the one that runs.
  lemma EndedMeans(ts: seq<Task>, us: seq<Task>, q: seq<nat>, w: seq<nat>, current: nat, c: nat, t: nat, status: int)
    requires EndedTask(ts, us, q, w, current, c, t, status) && NoDup(q) && c != t && c < |ts|
    requires ts[t].state != Unused && ts[c].state != Unused && ts[Before(q, t)].state != Unused
    ensures us[t].state == Zombie && us[t].status == status && t !in w && us[c].state == Running
    ensures forall x :: x in w <==> x in q && x != t
    ensures forall x :: 0 <= x < |ts| ==> us[x].pid == ts[x].pid && us[x].parent == ts[x].parent
    ensures forall x :: 0 <= x < |ts| && x != t && x != c ==> us[x].state == ts[x].state
  {
    WithoutMembers(q, t);
    EndedSlots(ts, Before(q, t), t, status, c);
  }

  // ---------- who forked whom ----------

  // Parents are recorded as slots; forker tells the pid that was in the slot then. No task
  // but the one in that slot can have this pid, though the slot may have passed to another.
  ghost predicate LineageOk(ts: seq<Task>, forker: seq<int>, nextPid: int)
  {
    true == (|forker| == |ts| && forall t: nat :: t < |ts| && ts[t].parent != NONE ==>
               forker[t] < nextPid && OnlyIn(ts, forker[t], ts[t].parent))
  }

  ghost predicate OnlyIn(ts: seq<Task>, pid: int, slot: int)
  {
    true == (forall s :: 0 <= s < |ts| && ts[s].state != Unused && ts[s].pid == pid ==> s == slot)
  }

  // A slot keeps its parent or loses it, and keeps its pid, is cleared, or gets a new pid.
  predicate Succeeds(t: Task, u: Task, nextPid: int)
  {
    && (u.parent == NONE || u.parent == t.parent)
    && (u.state == Unused || u.pid >= nextPid || (t.state != Unused && u.pid == t.pid))
  }

  predicate AllSucceed(ts: seq<Task>, us: seq<Task>, nextPid: int)
  {
    true == (|us| == |ts| && forall t :: 0 <= t < |ts| ==> Succeeds(ts[t], us[t], nextPid))
  }

  lemma LineageStep(ts: seq<Task>, us: seq<Task>, forker: seq<int>, nextPid: int, later: int)
    requires LineageOk(ts, forker, nextPid) && AllSucceed(ts, us, nextPid) && nextPid <= later
    ensures LineageOk(us, forker, later)
  {
    forall t: nat | t < |us| && us[t].parent != NONE
      ensures forker[t] < later && OnlyIn(us, forker[t], us[t].parent)
    {
      assert Succeeds(ts[t], us[t], nextPid);
      assert forall s :: 0 <= s < |ts| ==> Succeeds(ts[s], us[s], nextPid);
    }
  }

  lemma ReapedSucceed(ts: seq<Task>, nextPid: int)
    requires ParentsOk(ts)
    ensures AllSucceed(ts, Reaped(ts), nextPid)
  {
  }

  lemma CreatedSucceed(ts: seq<Task>, us: seq<Task>, t: nat, nextPid: int)
    requires t < |ts| && Relinked(ts[t := Created(nextPid)], us)
    ensures AllSucceed(ts, us, nextPid)
  {
    forall x | 0 <= x < |ts|
      ensures Succeeds(ts[x], us[x], nextPid)
    {
      assert us[x] == ts[t := Created(nextPid)][x].(next := us[x].next);
    }
  }

  lemma HandedSucceed(ts: seq<Task>, us: seq<Task>, t: nat, c: nat, nextPid: int)
    requires Handed(ts, us, t, c)
    ensures AllSucceed(ts, us, nextPid)
  {
  }

  lemma SwitchLineage(ts: seq<Task>, prev: nat, next: nat, forker: seq<int>, nextPid: int)
    requires LineageOk(ts, forker, nextPid) && prev < |ts| && next < |ts|
    requires ts[prev].state != Unused && ts[next].state != Unused
    ensures LineageOk(Switched(ts, prev, next), forker, nextPid)
  {
    LineageStep(ts, Switched(ts, prev, next), forker, nextPid, nextPid);
  }

  lemma AdoptLineage(ts: seq<Task>, q: seq<nat>, tail: int, current: nat, nextPid: int, forker: seq<int>, child: nat)
    requires Consistent(ts, q, tail, current, nextPid) && LineageOk(ts, forker, nextPid)
    requires child < |ts| && ts[child].state == Runnable
    ensures current < |ts|
    ensures LineageOk(ts[child := ts[child].(isUser := true, status := 0, parent := current)], forker[child := ts[current].pid], nextPid)
  {
    assert current in q && current < |ts| && IsRunnable(ts[current]);
    var us, fs := ts[child := ts[child].(isUser := true, status := 0, parent := current)], forker[child := ts[current].pid];
    OnlyCurrent(ts, nextPid, current);
    forall t: nat | t < |us| && us[t].parent != NONE
      ensures fs[t] < nextPid && OnlyIn(us, fs[t], us[t].parent)
    {
      assert OnlyIn(ts, fs[t], us[t].parent);
      assert forall s :: 0 <= s < |ts| ==> us[s].pid == ts[s].pid && us[s].state == ts[s].state;
    }
  }

  lemma OnlyCurrent(ts: seq<Task>, nextPid: int, t: nat)
    requires PidsOk(ts, nextPid) && t < |ts| && ts[t].state != Unused
    ensures OnlyIn(ts, ts[t].pid, t) && ts[t].pid < nextPid
  {
  }

  // The heir of a forked task is the very task that forked it exactly if the parent's slot
  // still carries the pid recorded at the fork and is neither unused nor a zombie.
  lemma HeirIsForker(ts: seq<Task>, q: seq<nat>, tail: int, current: nat, nextPid: int, forker: seq<int>)
    requires Consistent(ts, q, tail, current, nextPid) && LineageOk(ts, forker, nextPid)
    requires current != 0
    ensures current in q && current < |ts| && NONE <= ts[current].parent < |ts| && Heir(ts, q, current) < |ts|
    ensures ts[current].parent != NONE ==>
              var p := ts[ts[current].parent];
              (ts[Heir(ts, q, current)].pid == forker[current] <==>
               p.pid == forker[current] && p.state != Unused && p.state != Zombie)
  {
    HeirRuns(ts, q, tail, current, nextPid);
    var h := Heir(ts, q, current);
    assert h in q && h < |ts| && IsRunnable(ts[h]);
    if ts[current].parent != NONE {
      assert OnlyIn(ts, forker[current], ts[current].parent);
    }
  }

  // ---------- round robin ----------

  // The tasks that run in k successive schedules from t on, the queue staying q.
  ghost function Turns(q: seq<nat>, t: nat, k: nat): (r: seq<nat>)
    requires t in q
    ensures |r| == k
    decreases k
  {
    if k == 0 then [] else [Successor(q, t)] + Turns(q, Successor(q, t), k - 1)
  }

  lemma {:induction false} TurnsForward(q: seq<nat>, i: nat, k: nat)
    requires NoDup(q) && i + k < |q|
    ensures Turns(q, q[i], k) == q[i + 1..i + 1 + k]
    decreases k
  {
    if k > 0 {
      IndexIs(q, i);
      TurnsForward(q, i + 1, k - 1);
      assert q[i + 1..i + 1 + k] == [q[i + 1]] + q[i + 2..i + 1 + k];
    }
  }

  lemma Prepended(a: seq<nat>, b: seq<nat>)
    requires a != []
    ensures [a[0]] + (a[1..] + b) == a + b
  {
  }

  // From index i on, the first k turns reach the end of the queue and the rest start over.
  lemma {:induction false} TurnsAround(q: seq<nat>, i: nat, k: nat)
    requires NoDup(q) && i < |q| && |q| - i <= k <= |q|
    ensures Turns(q, q[i], k) == q[i + 1..] + q[..i + 1 + k - |q|]
    decreases |q| - i
  {
    IndexIs(q, i);
    if i + 1 < |q| {
      TurnsAround(q, i + 1, k - 1);
      Prepended(q[i + 1..], q[..i + 1 + k - |q|]);
      assert q[i + 1..][1..] == q[i + 2..];
    } else {
      TurnsForward(q, 0, k - 1);
      assert q[..k] == [q[0]] + q[1..k];
      assert q[i + 1..] == [];
    }
  }

  lemma Rotated(a: seq<nat>, b: seq<nat>)
    requires NoDup(a + b)
    ensures multiset(b + a) == multiset(a + b) && NoDup(b + a)
  {
    var q, r := a + b, b + a;
    forall j, k | 0 <= j < k < |r|
      ensures r[j] != r[k]
    {
      assert r[j] == q[if j < |b| then |a| + j else j - |b|];
      assert r[k] == q[if k < |b| then |a| + k else k - |b|];
    }
  }

  // n schedules on a queue of n tasks run every task exactly once and come back.
  lemma RoundRobin(q: seq<nat>, t: nat)
    requires NoDup(q) && t in q
    ensures multiset(Turns(q, t, |q|)) == multiset(q)
    ensures Turns(q, t, |q|)[|q| - 1] == t
    ensures NoDup(Turns(q, t, |q|))
  {
    var i := IndexOf(q, t);
    TurnsAround(q, i, |q|);
    assert q == q[..i + 1] + q[i + 1..];
    Rotated(q[..i + 1], q[i + 1..]);
  }

  // ---------- the scheduler ----------

  class Scheduler {
    const tasks: array<Task>
    var tail: int
    var current: nat
    var nextPid: int
    ghost var queue: seq<nat>
    // For each slot, the pid of the task that last adopted its task.
    ghost var forker: seq<int>

    ghost predicate Valid()
      reads this, tasks
    {
      Consistent(tasks[..], queue, tail, current, nextPid) && LineageOk(tasks[..], forker, nextPid)
    }

    // thread_init
    constructor (slots: nat)
      requires 0 < slots
      ensures Valid() && fresh(tasks) && tasks.Length == slots
      ensures queue == [0] && current == 0 && nextPid == 1 && tasks[0] == Task(0, Running, 0, false, NONE, 0)
      ensures forall t :: 0 < t < slots ==> tasks[t] == FREE_SLOT
    {
      tasks := new Task[slots];
      tail, current, nextPid, queue, forker := NONE, 0, 1, [], seq(slots, i => 0);
      new;
      for i := 0 to slots
        invariant forall t :: 0 <= t < i ==> tasks[t] == FREE_SLOT
        invariant tail == NONE && current == 0 && nextPid == 1 && queue == [] && tasks.Length == slots
        invariant |forker| == slots
      {
        tasks[i] := FREE_SLOT;
      }
      tasks[0] := tasks[0].(pid := 0, state := Running);
      RunqAdd(0);
      assert tasks[0] == Task(0, Running, 0, false, NONE, 0);
    }

    // runq_add
    method RunqAdd(t: nat)
      requires t < tasks.Length && Linked(tasks[..], queue) && TailOf(queue, tail) && t !in queue
      modifies this`tail, this`queue, tasks
      ensures tasks[..] == Enqueued(old(tasks[..]), old(queue), t)
      ensures queue == old(queue) + [t] && tail == t
    {
      ghost var before := tasks[..];
      if tail == NONE {
        tail := t;
        tasks[t] := tasks[t].(next := t);
      } else {
        tasks[t] := tasks[t].(next := tasks[tail].next);
        tasks[tail] := tasks[tail].(next := t);
        tail := t;
      }
      assert tasks[..] == Enqueued(before, queue, t);
      queue := queue + [t];
    }

    // runq_remove
    method RunqRemove(t: nat)
      requires t < tasks.Length && Linked(tasks[..], queue) && TailOf(queue, tail)
      modifies this`tail, this`queue, tasks
      ensures queue == Without(old(queue), t) && TailOf(queue, tail)
      ensures t !in old(queue) ==> tasks[..] == old(tasks[..])
      ensures t in old(queue) ==>
                Before(old(queue), t) < tasks.Length && tasks[..] == Unlinked(old(tasks[..]), Before(old(queue), t), t)
    {
      ghost var before, q := tasks[..], queue;
      if tail == NONE {
        return;
      }
      if tasks[t].next == t {
        assert t in q;
        LinkAt(before, q, IndexOf(q, t));
        assert |q| == 1;
        tail := NONE;
        tasks[t] := tasks[t].(next := NONE);
        queue := [];
        return;
      }
      var prev, found := FindBefore(t);
      if !found {
        return;
      }
      LinkAt(before, q, IndexOf(q, t));
      tasks[prev] := tasks[prev].(next := tasks[t].next);
      if tail == t {
        tail := prev;
      }
      tasks[t] := tasks[t].(next := NONE);
      queue := Without(queue, t);
      TailWithout(q, t);
    }

    // The walk of runq_remove from the tail to the slot whose successor is t.
    method FindBefore(t: nat) returns (prev: nat, found: bool)
      requires Linked(tasks[..], queue) && TailOf(queue, tail) && queue != []
      ensures found <==> t in queue
      ensures found ==> prev == Before(queue, t) && prev < tasks.Length
    {
      ghost var q, ts := queue, tasks[..];
      prev := tail;
      ghost var j := 0;
      LinkAt(ts, q, |q| - 1);
      while tasks[prev].next != t
        invariant j < |q| && prev == q[Previous(q, j)]
        invariant t !in q[..j]
        decreases |q| - j
      {
        LinkAt(ts, q, Previous(q, j));
        assert q[..j + 1] == q[..j] + [q[j]];
        prev := tasks[prev].next;
        if prev == tail {
          assert j == |q| - 1 && q[..j + 1] == q;
          return prev, false;
        }
        j := j + 1;
      }
      LinkAt(ts, q, Previous(q, j));
      IndexIs(q, j);
      found := true;
    }

    // pick_next: k places ahead is the first task that may run; after a full circle it is
    // the current task again.
    method PickNext() returns (r: nat, ghost k: nat)
      requires Linked(tasks[..], queue) && current in queue
      ensures 0 < k <= |queue| && r == Ahead(queue, IndexOf(queue, current), k)
      ensures Passed(tasks[..], queue, IndexOf(queue, current), k)
      ensures r == current || IsRunnable(At(tasks[..], r))
    {
      ghost var i, ts, q := IndexOf(queue, current), tasks[..], queue;
      LinkAt(ts, q, i);
      r := tasks[current].next;
      k := 1;
      while r != current
        invariant 0 < k <= |q| && r == Ahead(q, i, k) && Passed(ts, q, i, k)
        decreases |q| - k
      {
        AheadLink(ts, q, i, k);
        if IsRunnable(tasks[r]) {
          return;
        }
        PassOne(ts, q, i, k);
        r := tasks[r].next;
        k := k + 1;
      }
    }

    // schedule: the next task in the circle runs; every task stays in the queue.
    method Schedule()
      requires Valid()
      modifies this`current, tasks
      ensures Valid()
      ensures current == Successor(queue, old(current))
      ensures tasks[..] == if current == old(current) then old(tasks[..]) else Switched(old(tasks[..]), old(current), current)
    {
      ghost var before := tasks[..];
      var next, k := PickNext();
      QueueRuns(before, queue, tail, current, nextPid, next, k);
      if next == current {
        return;
      }
      SwitchConsistent(before, queue, tail, current, nextPid, next);
      SwitchLineage(before, current, next, forker, nextPid);
      if tasks[current].state == Running {
        tasks[current] := tasks[current].(state := Runnable);
      }
      tasks[next] := tasks[next].(state := Running);
      current := next;
    }

    // task_reap
    method TaskReap(t: nat)
      requires t < tasks.Length
      modifies tasks
      ensures tasks[..] == if t != 0 && old(tasks[t].state) == Zombie then old(tasks[..])[t := FREE_SLOT] else old(tasks[..])
    {
      if t == 0 {
        return;
      }
      if tasks[t].state != Zombie {
        return;
      }
      tasks[t] := FREE_SLOT;
    }

    // kill_zombies
    method KillZombies()
      requires Valid()
      modifies tasks
      ensures Valid() && tasks[..] == Reaped(old(tasks[..]))
      ensures forall t :: 0 <= t < tasks.Length && old(tasks[t]).state == Zombie ==>
                (tasks[t] == old(tasks[t]) <==> t == 0 || AliveUser(old(tasks[..]), old(tasks[t]).parent))
                && (tasks[t] != old(tasks[t]) ==> tasks[t] == FREE_SLOT)
      ensures forall t :: 0 <= t < tasks.Length && old(tasks[t]).state != Zombie ==> tasks[t] == old(tasks[t])
    {
      ghost var before := tasks[..];
      ReapedConsistent(before, queue, tail, current, nextPid);
      ReapedSucceed(before, nextPid);
      LineageStep(before, Reaped(before), forker, nextPid, nextPid);
      for i := 1 to tasks.Length
        invariant PartlyReaped(before, tasks[..], i)
      {
        StillAwaits(before, tasks[..], i);
        ReapIfDue(i);
      }
      FullyReaped(before, tasks[..]);
    }

    // One turn of the loop of kill_zombies.
    method ReapIfDue(i: nat)
      requires 0 < i < tasks.Length && NONE <= tasks[i].parent < tasks.Length
      modifies tasks
      ensures tasks[..] == if old(tasks[i].state) == Zombie && !AwaitsParent(old(tasks[..]), i)
                           then old(tasks[..])[i := FREE_SLOT] else old(tasks[..])
    {
      var p := tasks[i].parent;
      if tasks[i].state != Zombie {
        return;
      }
      if p != NONE && tasks[p].isUser && tasks[p].state != Unused && tasks[p].state != Zombie {
        return;
      }
      TaskReap(i);
    }

    // alloc_task: the lowest free slot after reaping, none exactly when no slot is free.
    method AllocTask() returns (r: int)
      requires Valid()
      modifies tasks
      ensures Valid() && tasks[..] == Reaped(old(tasks[..]))
      ensures LowestFree(tasks[..], r)
    {
      KillZombies();
      r := FindFree();
    }

    method FindFree() returns (r: int)
      ensures LowestFree(tasks[..], r)
    {
      for i := 0 to tasks.Length
        invariant forall t :: 0 <= t < i ==> tasks[t].state != Unused
      {
        if tasks[i].state == Unused {
          return i;
        }
      }
      r := NONE;
    }

    // thread_create
    method ThreadCreate() returns (r: int)
      requires Valid() && nextPid < 0x7fff_ffff
      modifies this`tail, this`queue, this`nextPid, tasks
      ensures Valid()
      ensures LowestFree(Reaped(old(tasks[..])), r)
      ensures r == NONE ==> tasks[..] == Reaped(old(tasks[..])) && queue == old(queue) && nextPid == old(nextPid)
      ensures r != NONE ==>
                && queue == old(queue) + [r] && nextPid == old(nextPid) + 1
                && Relinked(Reaped(old(tasks[..]))[r := Created(old(nextPid))], tasks[..])
                && tasks[r] == Task(old(nextPid), Runnable, tasks[r].next, false, NONE, 0)
      ensures forall t :: 0 <= t < tasks.Length && old(tasks[t]).state == Zombie && AliveUser(old(tasks[..]), old(tasks[t]).parent) ==>
                t != r && tasks[t] == old(tasks[t]).(next := tasks[t].next)
    {
      hide Linked, PidsOk, ParentsOk, StatesOk, LineageOk, AllSucceed;
      r := AllocTask();
      if r == NONE {
        return;
      }
      ghost var before := tasks[..];
      CreatedLinks(before, queue, tail, current, nextPid, r);
      StartTask(r);
      CreateConsistent(before, old(queue), old(tail), current, old(nextPid), r, tasks[..]);
      CreatedSucceed(before, tasks[..], r, old(nextPid));
      LineageStep(before, tasks[..], forker, old(nextPid), nextPid);
    }

    // The part of thread_create that fills the slot it has found.
    method StartTask(r: nat)
      requires r < tasks.Length && tasks[r] == FREE_SLOT && r !in queue && TailOf(queue, tail)
      requires Linked(tasks[..][r := Created(nextPid)], queue)
      modifies this`tail, this`queue, this`nextPid, tasks
      ensures tail == r && queue == old(queue) + [r] && nextPid == old(nextPid) + 1
      ensures tasks[..] == Enqueued(old(tasks[..])[r := Created(old(nextPid))], old(queue), r)
    {
      ghost var before := tasks[..];
      tasks[r] := tasks[r].(pid := nextPid, state := Runnable, next := NONE);
      nextPid := nextPid + 1;
      assert tasks[..] == before[r := Created(nextPid - 1)];
      RunqAdd(r);
    }

    // What user_fork and user_process_create add: the caller becomes the parent.
    method Adopt(child: nat)
      requires Valid() && child < tasks.Length && tasks[child].state == Runnable
      modifies tasks, this`forker
      ensures Valid()
      ensures current < tasks.Length && forker == old(forker)[child := old(tasks[current]).pid]
      ensures tasks[..] == old(tasks[..])[child := old(tasks[child]).(isUser := true, status := 0, parent := current)]
    {
      ghost var before := tasks[..];
      AdoptLineage(before, queue, tail, current, nextPid, forker, child);
      forker := forker[child := tasks[current].pid];
      tasks[child] := tasks[child].(isUser := true, status := 0, parent := current);
      AdoptConsistent(before, queue, tail, current, nextPid, child);
      assert tasks[..] == before[child := before[child].(isUser := true, status := 0, parent := current)];
    }

    // The first half of thread_exit: who runs next.
    method ChooseHeir() returns (next: nat)
      requires Valid() && current != 0
      ensures current in queue && next == Heir(tasks[..], queue, current)
    {
      HeirRuns(tasks[..], queue, tail, current, nextPid);
      var p := tasks[current].parent;
      if p != NONE && tasks[p].state != Unused && tasks[p].state != Zombie {
        next := p;
      } else {
        ghost var k;
        next, k := PickNext();
        QueueRuns(tasks[..], queue, tail, current, nextPid, next, k);
      }
    }

    // thread_exit of a task other than idle: it leaves the queue as a zombie, and its parent
    // or the next task runs. What runs is the task that forked it exactly if the parent's slot
    // still holds that task, alive.
    method ThreadExit()
      requires Valid() && current != 0
      modifies this, tasks
      ensures Valid() && nextPid == old(nextPid) && forker == old(forker) && current != old(current)
      ensures old(current) < tasks.Length && current < tasks.Length && NONE <= old(tasks[current]).parent < tasks.Length
      ensures old(tasks[current]).parent != NONE ==>
                var p := old(tasks[..])[old(tasks[current]).parent];
                (tasks[current].pid == forker[old(current)] <==>
                 p.pid == forker[old(current)] && p.state != Unused && p.state != Zombie)
      ensures EndedTask(old(tasks[..]), tasks[..], old(queue), queue, old(current), current, old(current), old(tasks[current].status))
      ensures Handed(old(tasks[..]), tasks[..], old(current), current)
    {
      HeirRuns(tasks[..], queue, tail, current, nextPid);
      var next := ChooseHeir();
      ghost var before, prev := tasks[..], current;
      LeaveConsistent(before, queue, tail, prev, nextPid, prev, before[prev].status, next);
      HeirIsForker(before, queue, tail, prev, nextPid, forker);
      SwitchAway(next);
      HandedSucceed(before, tasks[..], prev, next, nextPid);
      LineageStep(before, tasks[..], forker, nextPid, nextPid);
    }

    // The second half of thread_exit.
    method SwitchAway(next: nat)
      requires Linked(tasks[..], queue) && TailOf(queue, tail) && current in queue && next in queue && next != current
      requires current < tasks.Length && next < tasks.Length && Before(queue, current) < tasks.Length
      modifies this, tasks
      ensures queue == Without(old(queue), old(current)) && TailOf(queue, tail)
      ensures current == next && nextPid == old(nextPid) && forker == old(forker)
      ensures tasks[..] == Ended(old(tasks[..]), Before(old(queue), old(current)), old(current), old(tasks[current].status), next)
    {
      ghost var before := tasks[..];
      var prev, heir := current, next;
      RunqRemove(prev);
      tasks[prev] := tasks[prev].(state := Zombie);
      if heir == prev {
        heir := 0;
      }
      tasks[heir] := tasks[heir].(state := Running);
      current := heir;
      assert tasks[..] == Ended(before, Before(old(queue), prev), prev, before[prev].status, next);
    }

    // task_find_by_pid
    method FindByPid(pid: int) returns (r: int)
      ensures NONE <= r < tasks.Length
      ensures r != NONE ==> tasks[r].state != Unused && tasks[r].pid == pid
      ensures r == NONE ==> forall t :: 0 <= t < tasks.Length && tasks[t].state != Unused ==> tasks[t].pid != pid
    {
      for i := 0 to tasks.Length
        invariant forall t :: 0 <= t < i && tasks[t].state != Unused ==> tasks[t].pid != pid
      {
        if tasks[i].state != Unused && tasks[i].pid == pid {
          return i;
        }
      }
      r := NONE;
    }

    // task_kill: -1 for a pid no live task other than idle has; the current task ends as in
    // thread_exit, another one leaves the queue and the current task runs on.
    method TaskKill(pid: int, status: int) returns (r: int, ghost t: int)
      requires Valid()
      modifies this, tasks
      ensures Valid() && nextPid == old(nextPid) && forker == old(forker)
      ensures r == (if t == NONE then -1 else 0)
      ensures t == NONE ==>
                && NoneKillable(old(tasks[..]), pid)
                && tasks[..] == old(tasks[..]) && queue == old(queue) && current == old(current)
      ensures t != NONE ==>
                && Killable(old(tasks[..]), t, pid)
                && EndedTask(old(tasks[..]), tasks[..], old(queue), queue, old(current), current, t, status)
    {
      var found := FindByPid(pid);
      t := if found > 0 && tasks[found].state != Zombie then found else NONE;
      PidUnique(tasks[..], nextPid, pid, found);
      if found == NONE {
        return -1, t;
      }
      if found == 0 {
        return -1, t;
      }
      if tasks[found].state == Zombie {
        return -1, t;
      }
      if found == current {
        KillSelf(status);
        return 0, t;
      }
      KillOther(found, status);
      r := 0;
    }

    method RecordStatus(status: int)
      requires Valid()
      modifies tasks
      ensures Valid()
      ensures tasks[..] == old(tasks[..])[current := old(tasks[current]).(status := status)]
    {
      ghost var before := tasks[..];
      StatusConsistent(before, queue, tail, current, nextPid, status);
      LineageStep(before, before[current := before[current].(status := status)], forker, nextPid, nextPid);
      tasks[current] := tasks[current].(status := status);
      assert tasks[..] == before[current := before[current].(status := status)];
    }

    // The end of task_kill for the current task.
    method KillSelf(status: int)
      requires Valid() && current != 0
      modifies this, tasks
      ensures Valid() && nextPid == old(nextPid) && forker == old(forker)
      ensures EndedTask(old(tasks[..]), tasks[..], old(queue), queue, old(current), current, old(current), status)
    {
      ghost var before := tasks[..];
      RecordStatus(status);
      ThreadExit();
      EndedStatus(before, tasks[..], old(queue), queue, old(current), current, status);
    }

    // The end of task_kill for a task that is not on the CPU.
    method KillOther(t: nat, status: int)
      requires Valid() && 0 < t < tasks.Length && IsRunnable(tasks[t]) && t != current
      modifies this`tail, this`queue, tasks
      ensures Valid()
      ensures EndedTask(old(tasks[..]), tasks[..], old(queue), queue, current, current, t, status)
    {
      ghost var before := tasks[..];
      RunnableQueued(before, queue, tail, current, nextPid, t);
      LeaveConsistent(before, queue, tail, current, nextPid, t, status, current);
      Unqueue(t, status);
      HandedSucceed(before, tasks[..], t, current, nextPid);
      LineageStep(before, tasks[..], forker, nextPid, nextPid);
    }

    method Unqueue(t: nat, status: int)
      requires Linked(tasks[..], queue) && TailOf(queue, tail) && t in queue && t != current
      requires t < tasks.Length && Before(queue, t) < tasks.Length
      requires current < tasks.Length && tasks[current].state == Running
      modifies this`tail, this`queue, tasks
      ensures queue == Without(old(queue), t) && TailOf(queue, tail)
      ensures tasks[..] == Ended(old(tasks[..]), Before(old(queue), t), t, status, current)
    {
      ghost var before := tasks[..];
      RunqRemove(t);
      tasks[t] := tasks[t].(state := Zombie, status := status);
      assert tasks[..] == Ended(before, Before(old(queue), t), t, status, current);
    }
  }

  // ---------- a task that inherits the CPU from one it does not know ----------

  // A slot, its link and status left open.
  predicate Holds(ts: seq<Task>, t: nat, pid: int, state: TaskState, isUser: bool, parent: int)
  {
    true == (t < |ts| && ts[t] == Task(pid, state, ts[t].next, isUser, parent, ts[t].status))
  }

  // Slots below k are in use and not zombies, the others free.
  predicate FreeFrom(ts: seq<Task>, k: nat)
  {
    true == forall t :: 0 <= t < |ts| ==> if t < k then ts[t].state != Unused && ts[t].state != Zombie else ts[t] == FREE_SLOT
  }

  // Idle has started task 1 in slot 1, which runs.
  ghost predicate OneStarted(s: Scheduler)
    reads s, s.tasks
  {
    true == (&& s.Valid() && s.queue == [0, 1] && s.current == 1 && s.nextPid == 2 && FreeFrom(s.tasks[..], 2)
             && Holds(s.tasks[..], 0, 0, Runnable, false, NONE) && Holds(s.tasks[..], 1, 1, Running, true, 0))
  }

  // Task 1 has forked tasks 2 and 3 and still runs.
  ghost predicate ThreeStarted(s: Scheduler)
    reads s, s.tasks
  {
    true == (&& s.Valid() && s.queue == [0, 1, 2, 3] && s.current == 1 && s.nextPid == 4
             && Holds(s.tasks[..], 0, 0, Runnable, false, NONE) && Holds(s.tasks[..], 1, 1, Running, true, 0)
             && Holds(s.tasks[..], 2, 2, Runnable, true, 1) && Holds(s.tasks[..], 3, 3, Runnable, true, 1)
             && s.forker[2] == 1)
  }

  // Task 1 has ended.
  ghost predicate OneEnded(s: Scheduler)
    reads s, s.tasks
  {
    true == (&& s.Valid() && s.queue == [0, 2, 3] && s.current == 0 && s.nextPid == 4
             && Holds(s.tasks[..], 0, 0, Running, false, NONE) && Holds(s.tasks[..], 1, 1, Zombie, true, 0)
             && Holds(s.tasks[..], 2, 2, Runnable, true, 1) && s.forker[2] == 1)
  }

  // Task 4 has the slot of task 1; task 2 runs.
  ghost predicate SlotReused(s: Scheduler)
    reads s, s.tasks
  {
    true == (&& s.Valid() && s.queue == [0, 2, 3, 1] && s.current == 2
             && Holds(s.tasks[..], 1, 4, Runnable, false, NONE) && Holds(s.tasks[..], 2, 2, Running, true, 1)
             && s.forker[2] == 1)
  }

  // Which slot thread_create takes.
  lemma TakesSlot(ts: seq<Task>, r: int, k: nat)
    requires ParentsOk(ts) && k < |ts| && LowestFree(Reaped(ts), r) && ReapedSlot(ts, k).state == Unused
    requires forall j :: 0 <= j < k ==> ReapedSlot(ts, j).state != Unused
    ensures r == k
  {
    var us := Reaped(ts);
    assert us[k].state == Unused && forall j :: 0 <= j < k ==> us[j].state != Unused;
  }

  lemma NothingToReap(ts: seq<Task>, k: nat)
    requires ParentsOk(ts) && FreeFrom(ts, k)
    ensures Reaped(ts) == ts
  {
  }

  // The current task forks into slot k.
  method ForkInto(s: Scheduler, k: nat)
    requires s.Valid() && 0 < k < s.tasks.Length && FreeFrom(s.tasks[..], k) && s.nextPid < 0x7fff_ffff
    modifies s`tail, s`queue, s`nextPid, s`forker, s.tasks
    ensures s.Valid() && s.queue == old(s.queue) + [k] && s.nextPid == old(s.nextPid) + 1 && FreeFrom(s.tasks[..], k + 1)
    ensures forall t :: 0 <= t < k ==> s.tasks[t] == old(s.tasks[..])[t].(next := s.tasks[t].next)
    ensures Holds(s.tasks[..], k, old(s.nextPid), Runnable, true, s.current)
    ensures s.current < s.tasks.Length && s.forker == old(s.forker)[k := old(s.tasks[s.current].pid)]
  {
    hide LineageOk, Linked, StatesOk, TailOf;
    ghost var ts := s.tasks[..];
    NothingToReap(ts, k);
    var r := s.ThreadCreate();
    TakesSlot(ts, r, k);
    ghost var us := s.tasks[..];
    assert forall t :: 0 <= t < |us| ==> us[t] == ts[k := Created(s.nextPid - 1)][t].(next := us[t].next);
    s.Adopt(r);
    assert forall t :: 0 <= t < |us| && t != k ==> s.tasks[t] == us[t];
  }

  method StartOne(slots: nat) returns (s: Scheduler)
    requires 4 <= slots
    ensures fresh(s) && fresh(s.tasks) && s.tasks.Length == slots && OneStarted(s)
  {
    s := new Scheduler(slots);
    assert s.tasks[0] == Task(0, Running, s.tasks[0].next, false, NONE, 0);
    ForkInto(s, 1);
    IndexIs(s.queue, 0);
    s.Schedule();
  }

  method ForkTwo(s: Scheduler)
    requires OneStarted(s) && 4 <= s.tasks.Length
    modifies s, s.tasks
    ensures ThreeStarted(s)
  {
    ForkInto(s, 2);
    ForkInto(s, 3);
  }

  method EndOne(s: Scheduler)
    requires ThreeStarted(s)
    modifies s, s.tasks
    ensures OneEnded(s)
  {
    WithoutAt([0, 1, 2, 3], 1);
    s.ThreadExit();
  }

  method ReuseSlot(s: Scheduler)
    requires OneEnded(s)
    modifies s, s.tasks
    ensures SlotReused(s)
  {
    ghost var ts := s.tasks[..];
    var c := s.ThreadCreate();
    TakesSlot(ts, c, 1);
    IndexIs(s.queue, 0);
    s.Schedule();
  }

  // Task 2 ends. Its parent pointer still names slot 1, so task 4 runs, which neither forked
  // it, since task 1 did, nor comes next in the circle, where task 3 does.
  method StrangerInherits(slots: nat) returns (s: Scheduler)
    requires 4 <= slots
    ensures s.Valid() && s.tasks.Length == slots && s.tasks[2].state == Zombie && s.tasks[2].parent == 1
    ensures s.current == 1 && s.tasks[1].pid == 4 && |s.forker| == slots && s.forker[2] == 1
    ensures s.queue == [0, 3, 1] && Successor([0, 2, 3, 1], 2) == 3
  {
    s := StartOne(slots);
    ForkTwo(s);
    EndOne(s);
    ReuseSlot(s);
    IndexIs(s.queue, 1);
    WithoutAt([0, 2, 3, 1], 1);
    s.ThreadExit();
  }
}
