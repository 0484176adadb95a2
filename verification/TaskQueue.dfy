/**
 The preemptive task queue of task.c. A trap taken while a callback runs enters
 run_pending_task again, so nested traps are nested calls; what a callback does, as far as
 the queue can tell, is a script.
 */
module TaskQueue {
  import opened EventQueue

  // task_current_priority when no callback runs.
  const IDLE: int := -2147483647
  const INT_MIN: int := -2147483648
  const INT_MAX: int := 2147483647
  const TASK_POOL_SIZE: nat := 64

  function Priority(e: Entry): int
  {
    -e.key
  }

  predicate IntKeys(es: seq<Entry>)
  {
    forall i :: 0 <= i < |es| ==> INT_MIN <= Priority(es[i]) <= INT_MAX
  }

  // The priorities of the callbacks that have begun and not ended, innermost last: none is
  // below the one it interrupted, and the innermost is the current priority.
  predicate StackOk(stack: seq<int>, current: int)
  {
    && current == Top(stack)
    && (forall i :: 0 <= i < |stack| ==> IDLE <= stack[i])
    && (forall i, j :: 0 <= i < j < |stack| ==> stack[i] <= stack[j])
  }

  function Top(stack: seq<int>): int
  {
    if stack == [] then IDLE else stack[|stack| - 1]
  }

  // Nothing that waits may interrupt a callback of this priority.
  predicate AllBelow(es: seq<Entry>, current: int)
  {
    forall i :: 0 <= i < |es| ==> Priority(es[i]) < current
  }

  lemma HeadDecides(es: seq<Entry>, current: int)
    requires Sorted(es)
    ensures AllBelow(es, current) <==> es == [] || Priority(es[0]) < current
  {
  }

  // With no callback running, only tasks of the lowest int priority are left waiting.
  lemma IdleLeaves(es: seq<Entry>)
    requires Sorted(es) && IntKeys(es)
    ensures AllBelow(es, IDLE) <==> forall i :: 0 <= i < |es| ==> Priority(es[i]) == INT_MIN
  {
  }

  lemma PlaceKeepsInts(es: seq<Entry>, e: Entry)
    requires IntKeys(es) && INT_MIN <= Priority(e) <= INT_MAX
    ensures IntKeys(Place(es, e))
  {
    PlaceMembers(es, e);
    var r := Place(es, e);
    forall i | 0 <= i < |r|
      ensures INT_MIN <= Priority(r[i]) <= INT_MAX
    {
      assert r[i] in multiset(r);
      assert r[i] == e || r[i] in es;
    }
  }

  // What a callback does before it ends: add tasks, and be interrupted by traps, each with
  // the scripts of the callbacks that run in it.
  datatype Script = Ends | Adds(item: Item, priority: int, more: Script) | Interrupted(inner: Scripts, more: Script)

  datatype Scripts = NoMore | More(first: Script, others: Scripts)

  // Priorities are C ints.
  predicate InRange(s: Script)
  {
    match s
    case Ends => true
    case Adds(_, p, t) => INT_MIN <= p <= INT_MAX && InRange(t)
    case Interrupted(i, t) => AllInRange(i) && InRange(t)
  }

  predicate AllInRange(ss: Scripts)
  {
    match ss
    case NoMore => true
    case More(s, o) => InRange(s) && AllInRange(o)
  }

  // What every step keeps: order, range and stack; no task lost or run twice; within a
  // priority the tasks begin in the order they were accepted; none below IDLE begins.
  ghost predicate Steady(es: seq<Entry>, stack: seq<int>, current: int, accepted: seq<Entry>, begun: seq<Entry>)
  {
    true == (&& Sorted(es) && IntKeys(es) && StackOk(stack, current)
             && multiset(es) + multiset(begun) == multiset(accepted)
             && InOrder(begun, es, accepted) && NoneBelow(begun, IDLE))
  }

  predicate NoneBelow(es: seq<Entry>, low: int)
  {
    true == forall i :: 0 <= i < |es| ==> low <= Priority(es[i])
  }

  lemma SteadyAdd(es: seq<Entry>, stack: seq<int>, current: int, accepted: seq<Entry>, begun: seq<Entry>, e: Entry)
    requires Steady(es, stack, current, accepted, begun) && INT_MIN <= Priority(e) <= INT_MAX
    ensures Steady(Place(es, e), stack, current, accepted + [e], begun)
  {
    PlaceSorted(es, e);
    PlaceMembers(es, e);
    PlaceKeepsInts(es, e);
    InOrderPlace(begun, es, accepted, e);
  }

  lemma SteadyBegin(es: seq<Entry>, stack: seq<int>, current: int, accepted: seq<Entry>, begun: seq<Entry>)
    requires Steady(es, stack, current, accepted, begun) && es != [] && current <= Priority(es[0])
    ensures Steady(es[1..], stack + [Priority(es[0])], Priority(es[0]), accepted, begun + [es[0]])
  {
    assert es == [es[0]] + es[1..];
    InOrderTake(begun, es, accepted);
  }

  // Over every run the tasks of one priority begin in the order they were accepted.
  lemma FifoOverRuns(es: seq<Entry>, stack: seq<int>, current: int, accepted: seq<Entry>, begun: seq<Entry>, priority: int)
    requires Steady(es, stack, current, accepted, begun)
    ensures WithKey(begun, -priority) <= WithKey(accepted, -priority)
    ensures WithKey(begun, -priority) + WithKey(es, -priority) == WithKey(accepted, -priority)
  {
    var all := WithKey(accepted, -priority);
    assert all[..|WithKey(begun, -priority)|] == WithKey(begun, -priority);
  }

  // A task of the lowest int priority never begins, however long the run: it waits for ever.
  lemma LowestNeverBegins(es: seq<Entry>, stack: seq<int>, current: int, accepted: seq<Entry>, begun: seq<Entry>, e: Entry)
    requires Steady(es, stack, current, accepted, begun) && Priority(e) == INT_MIN
    ensures e !in begun && (e in accepted ==> e in es)
  {
    assert e in accepted ==> e in multiset(accepted);
  }

  // When run_pending_task has completed with no callback running, a task that was accepted
  // has begun exactly if its priority is not the lowest int, and only the others wait.
  lemma BegunWhenIdle(es: seq<Entry>, accepted: seq<Entry>, begun: seq<Entry>, e: Entry)
    requires Steady(es, [], IDLE, accepted, begun) && AllBelow(es, IDLE) && e in accepted
    ensures e in begun <==> Priority(e) != INT_MIN
    ensures e in es <==> Priority(e) == INT_MIN
  {
    assert e in multiset(accepted);
    IdleLeaves(es);
    if Priority(e) == INT_MIN {
      LowestNeverBegins(es, [], IDLE, accepted, begun, e);
    }
  }

  // ---------- what the queue goes through ----------

  // What matters of a state: the queued tasks, the number of free nodes, the current
  // priority, and the tasks begun so far.
  datatype Machine = Machine(queue: seq<Entry>, room: nat, current: int, begun: seq<Entry>)

  function Added(m: Machine, item: Item, priority: int): Machine
  {
    if item.callback == 0 || m.room == 0 then m
    else m.(queue := Place(m.queue, Entry(-priority, item)), room := m.room - 1)
  }

  function Begun(m: Machine): Machine
    requires m.queue != []
  {
    var e := m.queue[0];
    m.(queue := m.queue[1..], room := m.room + 1, current := Priority(e), begun := m.begun + [e])
  }

  predicate Blocked(m: Machine)
  {
    m.queue == [] || Priority(m.queue[0]) < m.current
  }

  // The state behind run_pending_task when its callbacks do what the scripts say.
  function AfterPending(m: Machine, scripts: Scripts): Machine
    decreases scripts
  {
    if Blocked(m) || scripts == NoMore then m
    else AfterPending(AfterCallback(Begun(m), scripts.first).(current := m.current), scripts.others)
  }

  function AfterCallback(m: Machine, script: Script): Machine
    decreases script
  {
    match script
    case Ends => m
    case Adds(item, priority, s) => AfterCallback(Added(m, item, priority), s)
    case Interrupted(inner, s) => AfterCallback(AfterPending(m, inner), s)
  }

  // However traps nest, a callback leaves the current priority as it found it.
  lemma {:induction false} PendingRestores(m: Machine, scripts: Scripts)
    ensures AfterPending(m, scripts).current == m.current
    decreases scripts
  {
    if !Blocked(m) && scripts != NoMore {
      PendingRestores(AfterCallback(Begun(m), scripts.first).(current := m.current), scripts.others);
    }
  }

  class TaskRunner {
    const queue: Queue
    var current: int
    ghost var stack: seq<int>
    // Every task that was accepted, and those whose callback has begun, in order of time.
    ghost var accepted: seq<Entry>
    ghost var begun: seq<Entry>

    ghost predicate Valid()
      reads this, queue, queue.pool
    {
      && queue.Valid() && Steady(queue.Contents(), stack, current, accepted, begun)
    }

    ghost function View(): Machine
      reads this, queue, queue.pool
    {
      Machine(queue.Contents(), |queue.spare|, current, begun)
    }

    // task_init
    constructor ()
      ensures Valid() && fresh(queue) && fresh(queue.pool) && queue.pool.Length == TASK_POOL_SIZE
      ensures queue.Contents() == [] && stack == [] && current == IDLE
      ensures accepted == [] && begun == []
    {
      queue := new Queue(TASK_POOL_SIZE);
      current, stack, accepted, begun := IDLE, [], [], [];
    }

    // add_task: 0 unless there is no callback or no free node.
    method AddTask(item: Item, priority: int) returns (r: int)
      requires Valid() && INT_MIN <= priority <= INT_MAX
      modifies this`accepted, queue, queue.pool
      ensures Valid() && stack == old(stack) && begun == old(begun)
      ensures r == if item.callback == 0 || old(queue.spare) == [] then -1 else 0
      ensures queue.Contents() == if r == 0 then Place(old(queue.Contents()), Entry(-priority, item)) else old(queue.Contents())
      ensures |queue.spare| == |old(queue.spare)| - if r == 0 then 1 else 0
      ensures View() == Added(old(View()), item, priority)
      ensures accepted == old(accepted) + if r == 0 then [Entry(-priority, item)] else []
    {
      if item.callback == 0 {
        return -1;
      }
      ghost var es := queue.Contents();
      var e := Entry(-priority, item);
      var ok, first := queue.Insert(e);
      if !ok {
        return -1;
      }
      SteadyAdd(es, stack, current, accepted, begun, e);
      accepted := accepted + [e];
      r := 0;
    }

    // The preemption test of run_pending_task.
    method MayBegin() returns (yes: bool)
      requires Valid()
      ensures yes <==> !AllBelow(queue.Contents(), current)
      ensures yes <==> !Blocked(View())
    {
      HeadDecides(queue.Contents(), current);
      if queue.head == NONE {
        return false;
      }
      HeadEntry(queue.pool[..], queue.head, queue.order);
      yes := !(current > -queue.pool[queue.head].key);
    }

    // The first half of a turn of run_pending_task: the callback of the first of the highest
    // tasks begins.
    method Begin() returns (item: Item, prev: int)
      requires Valid() && !AllBelow(queue.Contents(), current)
      modifies this, queue, queue.pool
      ensures Valid() && accepted == old(accepted)
      ensures prev == old(current) && old(queue.Contents()) != []
      ensures item == old(queue.Contents())[0].item && queue.Contents() == old(queue.Contents())[1..]
      ensures stack == old(stack) + [Priority(old(queue.Contents())[0])]
      ensures begun == old(begun) + [old(queue.Contents())[0]]
      ensures View() == Begun(old(View()))
    {
      ghost var es := queue.Contents();
      HeadDecides(es, current);
      SteadyBegin(es, stack, current, accepted, begun);
      var e := queue.PopFirst();
      prev, item := current, e.item;
      current := -e.key;
      stack := stack + [Priority(e)];
      begun := begun + [e];
    }

    // The second half: the callback has ended and the interrupted priority counts again.
    method Finish(prev: int)
      requires Valid() && stack != [] && prev == Top(stack[..|stack| - 1])
      modifies this`current, this`stack
      ensures Valid() && stack == old(stack)[..|old(stack)| - 1]
      ensures View() == old(View()).(current := prev)
    {
      current := prev;
      stack := stack[..|stack| - 1];
    }

    // run_pending_task, with one script for each callback it runs. It is complete when no
    // further task may begin, and incomplete when the scripts end before; either way every callback it began has ended, and the
    // current priority is the one it found.
    method RunPending(scripts: Scripts) returns (complete: bool)
      requires Valid() && AllInRange(scripts)
      modifies this, queue, queue.pool
      ensures Valid() && stack == old(stack) && current == old(current)
      ensures Grown(old(begun), begun) && Grown(old(accepted), accepted)
      ensures complete <==> AllBelow(queue.Contents(), current)
      ensures NoneBelow(begun, IDLE)
      ensures complete && stack == [] ==> forall e :: e in accepted ==> (e in begun <==> Priority(e) != INT_MIN)
      ensures View() == AfterPending(old(View()), scripts)
      decreases scripts
    {
      var left := scripts;
      while true
        invariant Valid() && stack == old(stack) && AllInRange(left)
        invariant Grown(old(begun), begun) && Grown(old(accepted), accepted)
        invariant AfterPending(View(), left) == AfterPending(old(View()), scripts)
        decreases left
      {
        var yes := MayBegin();
        if !yes {
          if stack == [] {
            Drained();
          }
          return true;
        }
        if left == NoMore {
          return false;
        }
        RunOne(left.first);
        left := left.others;
      }
    }

    // What a completed run from idle has begun.
    lemma Drained()
      requires Valid() && stack == [] && AllBelow(queue.Contents(), current)
      ensures forall e :: e in accepted ==> (e in begun <==> Priority(e) != INT_MIN)
    {
      forall e | e in accepted
        ensures e in begun <==> Priority(e) != INT_MIN
      {
        BegunWhenIdle(queue.Contents(), accepted, begun, e);
      }
    }

    // One turn of run_pending_task: the first callback begins, runs and ends.
    method RunOne(script: Script)
      requires Valid() && InRange(script) && !AllBelow(queue.Contents(), current)
      modifies this, queue, queue.pool
      ensures Valid() && stack == old(stack)
      ensures Grown(old(begun), begun) && Grown(old(accepted), accepted)
      ensures old(queue.Contents()) != [] && View() == AfterCallback(Begun(old(View())), script).(current := old(current))
      decreases script, 1
    {
      assert current == Top(stack);
      hide Steady, AfterCallback;
      var item, prev := Begin();
      RunCallback(script);
      Finish(prev);
    }

    // A callback with interrupts enabled, until it ends.
    method RunCallback(script: Script)
      requires Valid() && InRange(script)
      modifies this, queue, queue.pool
      ensures Valid() && stack == old(stack)
      ensures Grown(old(begun), begun) && Grown(old(accepted), accepted)
      ensures View() == AfterCallback(old(View()), script)
      decreases script, 0
    {
      match script
      case Ends =>
      case Adds(item, priority, s) =>
        var r := AddTask(item, priority);
        RunCallback(s);
      case Interrupted(inner, s) =>
        var complete := RunPending(inner);
        RunCallback(s);
    }
  }

  lemma HeadEntry(ns: seq<Node>, head: int, q: seq<nat>)
    requires Listed(ns, head, q) && head != NONE
    ensures q != [] && 0 <= head < |ns| && Entries(ns, q)[0] == EntryAt(ns, head)
  {
  }
}
