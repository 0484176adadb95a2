/**
 The software timers and the scheduler tick of timer.c, which share one hardware deadline.
 Each read_time is an input, never below the one before; sbi_set_timer is an assignment to
 deadline.
 */
module Timer {
  import opened EventQueue
  import TaskQueue

  const TIMER_FREQ: nat := 24000000
  const TIMER_HZ: nat := 32
  const TIMER_POOL_SIZE: nat := 32
  const INTERVAL: nat := TIMER_FREQ / TIMER_HZ

  // Expired timers become tasks of priority 1.
  function AsTask(e: Entry): Entry
  {
    Entry(-1, e.item)
  }

  function AsTasks(es: seq<Entry>): (r: seq<Entry>)
    ensures |r| == |es|
  {
    if es == [] then [] else AsTasks(es[..|es| - 1]) + [AsTask(es[|es| - 1])]
  }

  // The earlier of the next tick and the first expiry.
  function Due(nextTick: int, es: seq<Entry>): int
  {
    if es != [] && es[0].key < nextTick then es[0].key else nextTick
  }

  lemma DueIsLeast(nextTick: int, es: seq<Entry>)
    requires Sorted(es)
    ensures Due(nextTick, es) <= nextTick && forall i :: 0 <= i < |es| ==> Due(nextTick, es) <= es[i].key
    ensures Due(nextTick, es) == nextTick || exists i :: 0 <= i < |es| && es[i].key == Due(nextTick, es)
  {
  }

  // No timer has expired at this time.
  predicate AllLater(es: seq<Entry>, now: int)
  {
    forall i :: 0 <= i < |es| ==> now < es[i].key
  }

  // The timers of a queue are sorted and have callbacks.
  predicate TimersOk(es: seq<Entry>)
  {
    true == (Sorted(es) && forall i :: 0 <= i < |es| ==> es[i].item.callback != 0)
  }

  lemma PlaceTimer(es: seq<Entry>, e: Entry)
    requires TimersOk(es) && e.item.callback != 0
    ensures TimersOk(Place(es, e))
  {
    PlaceSorted(es, e);
    PlaceMembers(es, e);
    var r := Place(es, e);
    forall i | 0 <= i < |r|
      ensures r[i].item.callback != 0
    {
      assert r[i] in multiset(r);
      assert r[i] == e || r[i] in es;
    }
  }

  lemma PopTimers(es: seq<Entry>)
    requires TimersOk(es) && es != []
    ensures TimersOk(es[1..]) && es[0].item.callback != 0
  {
  }

  // Tasks of one priority enter the task queue behind those that wait, in the order given.
  lemma {:induction false} InTurn(es: seq<Entry>, news: seq<Entry>)
    requires Sorted(es)
    ensures Sorted(PlaceAll(es, AsTasks(news)))
    ensures WithKey(PlaceAll(es, AsTasks(news)), -1) == WithKey(es, -1) + AsTasks(news)
    decreases |news|
  {
    if news != [] {
      var before := news[..|news| - 1];
      var e := AsTask(news[|news| - 1]);
      InTurn(es, before);
      assert AsTasks(news)[..|news| - 1] == AsTasks(before);
      PlaceStable(PlaceAll(es, AsTasks(before)), e, -1);
      PlaceSorted(PlaceAll(es, AsTasks(before)), e);
    }
  }

  // A timer that a callback adds, and when.
  datatype Request = Request(item: Item, sec: int, at: nat)

  // The timer of a request: it expires sec seconds after it was set.
  function TimerEntry(r: Request): (e: Entry)
    ensures e.key == r.at + r.sec * (TIMER_HZ * INTERVAL) == r.at + r.sec * 24_000_000 && e.item == r.item
  {
    Entry(r.at + r.sec * TIMER_FREQ, r.item)
  }

  // One turn of the interrupt handler: the time it reads, and what the callback of the timer
  // it takes does should it have to run there and then.
  datatype Turn = Turn(now: nat, direct: seq<Request>)

  // The clock does not go back.
  predicate RequestsFollow(rs: seq<Request>, last: nat)
  {
    rs == [] || (last <= rs[0].at && RequestsFollow(rs[1..], rs[0].at))
  }

  function LastRequest(rs: seq<Request>, last: nat): nat
  {
    if rs == [] then last else LastRequest(rs[1..], rs[0].at)
  }

  predicate TurnsFollow(ts: seq<Turn>, last: nat)
  {
    ts == [] || (last <= ts[0].now && RequestsFollow(ts[0].direct, ts[0].now)
                 && TurnsFollow(ts[1..], LastRequest(ts[0].direct, ts[0].now)))
  }

  // ---------- what the timers go through ----------

  // The timers, the free nodes, the next tick, the hardware deadline, and the task queue with
  // its free nodes.
  datatype Timers = Timers(queue: seq<Entry>, room: nat, nextTick: int, deadline: int, tasks: seq<Entry>, taskRoom: nat)

  // timer_program_next_locked
  function Programmed(m: Timers): Timers
  {
    m.(deadline := Due(m.nextTick, m.queue))
  }

  // The deadline is the earlier of the next tick and the first expiry.
  predicate Right(m: Timers)
  {
    m.deadline == Due(m.nextTick, m.queue)
  }

  predicate Accepts(room: nat, r: Request)
  {
    r.item.callback != 0 && 0 <= r.sec && 0 < room
  }

  // The timer becomes the first of the queue.
  predicate ComesFirst(es: seq<Entry>, e: Entry)
  {
    es == [] || e.key < es[0].key
  }

  function Joined(m: Timers, e: Entry): Timers
    requires m.room > 0
  {
    m.(queue := Place(m.queue, e), room := m.room - 1)
  }

  // add_timer
  function Set(m: Timers, r: Request): Timers
  {
    if !Accepts(m.room, r) then m
    else if ComesFirst(m.queue, TimerEntry(r)) then Programmed(Joined(m, TimerEntry(r)))
    else Joined(m, TimerEntry(r))
  }

  function SetAll(m: Timers, rs: seq<Request>): Timers
    decreases |rs|
  {
    if rs == [] then m else SetAll(Set(m, rs[0]), rs[1..])
  }

  // The tick moved on to its first value after now.
  function CaughtUp(nextTick: int, now: int): (t: int)
    ensures now < t && nextTick <= t && (nextTick <= now ==> t <= now + INTERVAL)
    decreases now - nextTick
  {
    if nextTick <= now then CaughtUp(nextTick + INTERVAL, now) else nextTick
  }

  predicate Expired(es: seq<Entry>, now: int)
  {
    es != [] && es[0].key <= now
  }

  function Popped(m: Timers): Timers
    requires m.queue != []
  {
    m.(queue := m.queue[1..], room := m.room + 1)
  }

  function Queued(m: Timers, item: Item): Timers
    requires m.taskRoom > 0
  {
    m.(tasks := Place(m.tasks, Entry(-1, item)), taskRoom := m.taskRoom - 1)
  }

  // The first timer becomes a task, or its callback runs at once.
  function Take(m: Timers, direct: seq<Request>): Timers
    requires m.queue != []
  {
    if m.taskRoom > 0 then Queued(Popped(m), m.queue[0].item) else SetAll(Popped(m), direct)
  }

  // timer_handle_interrupt, and whether it was done when the turns were over.
  function Handled(m: Timers, turns: seq<Turn>): (Timers, bool)
    decreases |turns|
  {
    if turns == [] then (m, false) else
    var c := m.(nextTick := CaughtUp(m.nextTick, turns[0].now));
    if Expired(c.queue, turns[0].now) then Handled(Take(c, turns[0].direct), turns[1..]) else (Programmed(c), true)
  }

  // ---------- when the handler ends ----------

  // How many entries have expired at this time.
  function Count(es: seq<Entry>, now: int): (c: nat)
    ensures c <= |es|
  {
    if es == [] then 0 else (if es[0].key <= now then 1 else 0) + Count(es[1..], now)
  }

  lemma CountCons(x: Entry, es: seq<Entry>, now: int)
    ensures Count([x] + es, now) == Count(es, now) + if x.key <= now then 1 else 0
  {
    assert ([x] + es)[1..] == es;
  }

  lemma {:induction false} CountSnoc(es: seq<Entry>, x: Entry, now: int)
    ensures Count(es + [x], now) == Count(es, now) + if x.key <= now then 1 else 0
  {
    if es == [] {
      assert es + [x] == [x] + [];
      CountCons(x, [], now);
    } else {
      CountSnoc(es[1..], x, now);
      CountCons(es[0], es[1..] + [x], now);
      assert es + [x] == [es[0]] + (es[1..] + [x]);
    }
  }

  lemma {:induction false} CountPlace(es: seq<Entry>, x: Entry, now: int)
    ensures Count(Place(es, x), now) == Count(es, now) + if x.key <= now then 1 else 0
  {
    if es == [] || x.key < es[0].key {
      CountCons(x, es, now);
    } else {
      CountPlace(es[1..], x, now);
      CountCons(es[0], Place(es[1..], x), now);
    }
  }

  // In a sorted queue something has expired exactly if its first entry has.
  lemma {:induction false} CountSorted(es: seq<Entry>, now: int)
    requires Sorted(es)
    ensures Count(es, now) > 0 <==> Expired(es, now)
  {
    if es != [] {
      CountSorted(es[1..], now);
    }
  }

  // All timers there ever were in a run of the handler, in no particular order, with the
  // places left for timers and tasks.
  datatype Supply = Supply(all: seq<Entry>, room: nat, taskRoom: nat)

  function Supplied(s: Supply, rs: seq<Request>): Supply
    decreases |rs|
  {
    if rs == [] then s
    else if Accepts(s.room, rs[0]) then Supplied(s.(all := s.all + [TimerEntry(rs[0])], room := s.room - 1), rs[1..])
    else Supplied(s, rs[1..])
  }

  function SupplyAfter(s: Supply, turn: Turn): Supply
  {
    if s.taskRoom > 0 then s.(room := s.room + 1, taskRoom := s.taskRoom - 1)
    else Supplied(s.(room := s.room + 1), turn.direct)
  }

  // At the time of some turn no more timers have expired than turns have passed.
  predicate RunsDry(s: Supply, turns: seq<Turn>, k: nat)
    decreases |turns|
  {
    turns != [] && (Count(s.all, turns[0].now) <= k || RunsDry(SupplyAfter(s, turns[0]), turns[1..], k + 1))
  }

  // The queue holds what was supplied but for k timers that had expired.
  ghost predicate Behind(m: Timers, s: Supply, k: nat, last: int)
  {
    true == (&& Sorted(m.queue) && m.room == s.room && m.taskRoom == s.taskRoom
             && forall now: int :: last <= now ==> Count(s.all, now) == k + Count(m.queue, now))
  }

  lemma BehindSet(m: Timers, s: Supply, k: nat, last: int, r: Request)
    requires Behind(m, s, k, last)
    ensures Behind(Set(m, r),
                   if Accepts(s.room, r) then s.(all := s.all + [TimerEntry(r)], room := s.room - 1) else s, k, last)
  {
    if Accepts(s.room, r) {
      var e := TimerEntry(r);
      PlaceSorted(m.queue, e);
      forall now: int | last <= now
        ensures Count(s.all + [e], now) == k + Count(Place(m.queue, e), now)
      {
        CountSnoc(s.all, e, now);
        CountPlace(m.queue, e, now);
      }
    }
  }

  lemma {:induction false} BehindSetAll(m: Timers, s: Supply, k: nat, last: int, rs: seq<Request>)
    requires Behind(m, s, k, last)
    ensures Behind(SetAll(m, rs), Supplied(s, rs), k, last)
    decreases |rs|
  {
    if rs != [] {
      BehindSet(m, s, k, last, rs[0]);
      BehindSetAll(Set(m, rs[0]), if Accepts(s.room, rs[0]) then s.(all := s.all + [TimerEntry(rs[0])], room := s.room - 1) else s,
                   k, last, rs[1..]);
    }
  }

  lemma BehindTake(m: Timers, s: Supply, k: nat, last: int, turn: Turn)
    requires Behind(m, s, k, last) && last <= turn.now && Expired(m.queue, turn.now)
    ensures Behind(Take(m, turn.direct), SupplyAfter(s, turn), k + 1, turn.now)
  {
    var n := Popped(m);
    assert Behind(n, s.(room := s.room + 1), k + 1, turn.now);
    if m.taskRoom == 0 {
      BehindSetAll(n, s.(room := s.room + 1), k + 1, turn.now, turn.direct);
    }
  }

  // The handler is done exactly if it runs dry: at some turn all that has expired by then has
  // been taken, whether as a task or by running the callback at once.
  lemma {:induction false} DoneIffDry(m: Timers, s: Supply, turns: seq<Turn>, k: nat, last: nat)
    requires Behind(m, s, k, last) && TurnsFollow(turns, last)
    ensures Handled(m, turns).1 <==> RunsDry(s, turns, k)
    decreases |turns|
  {
    if turns != [] {
      var turn := turns[0];
      var c := m.(nextTick := CaughtUp(m.nextTick, turn.now));
      CountSorted(m.queue, turn.now);
      if Expired(m.queue, turn.now) {
        BehindTake(c, s, k, last, turn);
        LastIsLate(turn.direct, turn.now);
        FollowEarlier(turns[1..], LastRequest(turn.direct, turn.now), turn.now);
        DoneIffDry(Take(c, turn.direct), SupplyAfter(s, turn), turns[1..], k + 1, turn.now);
      }
    }
  }

  // The timers of a state as a supply.
  function Supplies(m: Timers): Supply
  {
    Supply(m.queue, m.room, m.taskRoom)
  }

  function Requests(turns: seq<Turn>): nat
    decreases |turns|
  {
    if turns == [] then 0 else |turns[0].direct| + Requests(turns[1..])
  }

  lemma {:induction false} SuppliedSize(s: Supply, rs: seq<Request>)
    ensures |Supplied(s, rs).all| <= |s.all| + |rs|
    decreases |rs|
  {
    if rs != [] {
      SuppliedSize(if Accepts(s.room, rs[0]) then s.(all := s.all + [TimerEntry(rs[0])], room := s.room - 1) else s, rs[1..]);
    }
  }

  // More turns than there are timers and requests are enough, full task queue or not.
  lemma {:induction false} EnoughTurns(s: Supply, turns: seq<Turn>, k: nat)
    requires |s.all| + Requests(turns) < k + |turns|
    ensures turns != [] ==> RunsDry(s, turns, k)
    decreases |turns|
  {
    if turns != [] && Count(s.all, turns[0].now) > k {
      SuppliedSize(s.(room := s.room + 1), turns[0].direct);
      EnoughTurns(SupplyAfter(s, turns[0]), turns[1..], k + 1);
    }
  }

  // Whatever the room, the handler is done exactly if it runs dry, and it runs dry within one
  // turn more than there are timers and requests.
  lemma HandlerEnds(m: Timers, turns: seq<Turn>, last: nat)
    requires Sorted(m.queue) && TurnsFollow(turns, last)
    ensures Handled(m, turns).1 <==> RunsDry(Supplies(m), turns, 0)
    ensures |m.queue| + Requests(turns) < |turns| ==> Handled(m, turns).1
  {
    DoneIffDry(m, Supplies(m), turns, 0, last);
    if |m.queue| + Requests(turns) < |turns| {
      EnoughTurns(Supplies(m), turns, 0);
    }
  }

  // n turns in each of which the callback, run at once, sets itself again for 0 seconds.
  function Spinning(item: Item, now: nat, n: nat): (turns: seq<Turn>)
    ensures |turns| == n
    decreases n
  {
    if n == 0 then [] else [Turn(now, [Request(item, 0, now)])] + Spinning(item, now + 1, n - 1)
  }

  // With a full task queue such a callback keeps the handler in its loop for any number of
  // turns, though the clock moves on.
  lemma {:induction false} NeedNotEnd(m: Timers, item: Item, now: nat, n: nat)
    requires item.callback != 0 && m.taskRoom == 0
    requires |m.queue| == 1 && m.queue[0].item == item && m.queue[0].key <= now
    ensures TurnsFollow(Spinning(item, now, n), now) && |Spinning(item, now, n)| == n
    ensures !Handled(m, Spinning(item, now, n)).1
    decreases n
  {
    if n > 0 {
      var turns := Spinning(item, now, n);
      var c := m.(nextTick := CaughtUp(m.nextTick, now));
      SpinOnce(c, item, now);
      NeedNotEnd(Take(c, turns[0].direct), item, now + 1, n - 1);
      assert turns[1..] == Spinning(item, now + 1, n - 1);
      FollowEarlier(turns[1..], now + 1, now);
    }
  }

  lemma SpinOnce(m: Timers, item: Item, now: nat)
    requires item.callback != 0 && m.taskRoom == 0 && |m.queue| == 1
    ensures var t := Take(m, [Request(item, 0, now)]);
            t.queue == [Entry(now, item)] && t.taskRoom == 0
    ensures LastRequest([Request(item, 0, now)], now) == now && RequestsFollow([Request(item, 0, now)], now)
  {
    var rs := [Request(item, 0, now)];
    var n := Popped(m);
    assert rs[1..] == [] && n.queue == [];
    assert SetAll(Set(n, rs[0]), []) == Set(n, rs[0]);
  }

  // ---------- the deadline over runs ----------

  // add_timer, timer_trigger_now, and a timer interrupt.
  datatype Act = SetTimer(r: Request) | Trigger(now: nat) | Interrupt(turns: seq<Turn>)

  function Acted(m: Timers, a: Act): Timers
  {
    match a
    case SetTimer(r) => Set(m, r)
    case Trigger(now) => m.(deadline := now)
    case Interrupt(turns) => Handled(m, turns).0
  }

  function ActedAll(m: Timers, acts: seq<Act>): Timers
  {
    if acts == [] then m else Acted(ActedAll(m, acts[..|acts| - 1]), acts[|acts| - 1])
  }

  // Every interrupt of the run has been handled to its end.
  predicate HandlersDone(m: Timers, acts: seq<Act>)
  {
    acts == [] ||
      var before := acts[..|acts| - 1];
      && HandlersDone(m, before)
      && match acts[|acts| - 1]
         case Interrupt(turns) => Handled(ActedAll(m, before), turns).1
         case _ => true
  }

  // The time of a trigger that nothing has overwritten since.
  datatype Forced = Free | At(now: nat)

  function ForcedBy(m: Timers, acts: seq<Act>): Forced
  {
    if acts == [] then Free else
    var before := acts[..|acts| - 1];
    match acts[|acts| - 1]
    case Trigger(now) => At(now)
    case Interrupt(_) => Free
    case SetTimer(r) =>
      var now := ActedAll(m, before);
      if Accepts(now.room, r) && ComesFirst(now.queue, TimerEntry(r)) then Free else ForcedBy(m, before)
  }

  lemma {:induction false} HandledIsRight(m: Timers, turns: seq<Turn>)
    requires Handled(m, turns).1
    ensures Right(Handled(m, turns).0)
    decreases |turns|
  {
    var c := m.(nextTick := CaughtUp(m.nextTick, turns[0].now));
    if Expired(c.queue, turns[0].now) {
      HandledIsRight(Take(c, turns[0].direct), turns[1..]);
    }
  }

  // A timer that does not come first leaves the minimum as it was.
  lemma SetKeepsDue(m: Timers, r: Request)
    requires !(Accepts(m.room, r) && ComesFirst(m.queue, TimerEntry(r)))
    ensures Set(m, r).deadline == m.deadline && Due(m.nextTick, Set(m, r).queue) == Due(m.nextTick, m.queue)
  {
  }

  // Only a new first timer sets the deadline.
  lemma SetDeadline(m: Timers, r: Request)
    requires Accepts(m.room, r)
    ensures Right(Set(m, r)) <==> ComesFirst(m.queue, TimerEntry(r)) || Right(m)
  {
    if !ComesFirst(m.queue, TimerEntry(r)) {
      SetKeepsDue(m, r);
    }
  }

  // From a right deadline, any run leaves it right exactly if no trigger is left standing, or
  // the one that is asked for just the time that is due.
  lemma {:induction false} DeadlineOverRuns(m: Timers, acts: seq<Act>)
    requires Right(m) && HandlersDone(m, acts)
    ensures var n := ActedAll(m, acts);
            match ForcedBy(m, acts)
            case Free => Right(n)
            case At(t) => n.deadline == t && (Right(n) <==> t == Due(n.nextTick, n.queue))
    decreases |acts|
  {
    if acts != [] {
      var before := acts[..|acts| - 1];
      DeadlineOverRuns(m, before);
      match acts[|acts| - 1]
      case Interrupt(turns) => HandledIsRight(ActedAll(m, before), turns);
      case SetTimer(r) =>
        if !(Accepts(ActedAll(m, before).room, r) && ComesFirst(ActedAll(m, before).queue, TimerEntry(r))) {
          SetKeepsDue(ActedAll(m, before), r);
        }
      case Trigger(_) =>
    }
  }

  // The timers as timer_init leaves them at time 0.
  const BOOTED: Timers := Timers([], TIMER_POOL_SIZE, INTERVAL, INTERVAL, [], TaskQueue.TASK_POOL_SIZE)

  // A timer set, a trigger, and a later timer: the deadline stays at the time of the trigger.
  lemma TriggerStands(item: Item)
    requires item.callback != 0
    ensures var acts := [SetTimer(Request(item, 5, 0)), Trigger(10), SetTimer(Request(item, 6, 11))];
            && Right(BOOTED) && HandlersDone(BOOTED, acts) && ForcedBy(BOOTED, acts) == At(10)
            && ActedAll(BOOTED, acts).deadline == 10 && !Right(ActedAll(BOOTED, acts))
  {
    var a, b, c := SetTimer(Request(item, 5, 0)), Trigger(10), SetTimer(Request(item, 6, 11));
    var e, f := TimerEntry(a.r), TimerEntry(c.r);
    var m1 := Programmed(BOOTED.(queue := [e], room := TIMER_POOL_SIZE - 1));
    assert Set(BOOTED, a.r) == m1;
    assert [e][1..] == [] && Place([], f) == [f];
    assert Place([e], f) == [e, f];
    var m3 := m1.(queue := [e, f], room := TIMER_POOL_SIZE - 2, deadline := 10);
    assert Set(m1.(deadline := 10), c.r) == m3;
    ActedThrice(BOOTED, a, b, c);
  }

  lemma ActedThrice(m: Timers, a: Act, b: Act, c: Act)
    requires !a.Interrupt? && b.Trigger? && c.SetTimer?
    ensures var n := Acted(Acted(m, a), b);
            && HandlersDone(m, [a, b, c]) && ActedAll(m, [a, b, c]) == Acted(n, c)
            && (!(Accepts(n.room, c.r) && ComesFirst(n.queue, TimerEntry(c.r))) ==> ForcedBy(m, [a, b, c]) == At(b.now))
  {
    assert [a, b, c][..2] == [a, b] && [a, b][..1] == [a] && [a][..0] == [];
    assert ActedAll(m, [a]) == Acted(m, a);
    assert ActedAll(m, [a, b]) == Acted(Acted(m, a), b);
    assert HandlersDone(m, [a]);
    assert HandlersDone(m, [a, b]);
    assert ForcedBy(m, [a, b]) == At(b.now);
  }

  // ---------- order over runs ----------

  // The timers taken so far, then those that wait, are all timers ever registered, sorted by
  // expiry and by registration within one expiry; those taken had expired.
  predicate History(taken: seq<Entry>, es: seq<Entry>, registered: seq<Entry>, now: int)
  {
    true == (taken + es == PlaceAll([], registered) && forall i :: 0 <= i < |taken| ==> taken[i].key <= now)
  }

  lemma HistoryAdd(taken: seq<Entry>, es: seq<Entry>, registered: seq<Entry>, now: int, e: Entry)
    requires History(taken, es, registered, now) && now <= e.key
    ensures History(taken, Place(es, e), registered + [e], now)
  {
    PlaceAllSnoc(registered, e);
    PlaceBehind(taken, es, e);
  }

  lemma HistoryTake(taken: seq<Entry>, es: seq<Entry>, registered: seq<Entry>, now: int)
    requires History(taken, es, registered, now) && Expired(es, now)
    ensures History(taken + [es[0]], es[1..], registered, now)
  {
    assert taken + [es[0]] + es[1..] == taken + es;
  }

  lemma HistoryLater(taken: seq<Entry>, es: seq<Entry>, registered: seq<Entry>, now: int, later: int)
    requires History(taken, es, registered, now) && now <= later
    ensures History(taken, es, registered, later)
  {
  }

  lemma TakenInOrder(taken: seq<Entry>, es: seq<Entry>, registered: seq<Entry>, now: int, key: int)
    requires History(taken, es, registered, now)
    ensures Sorted(taken + es) && forall i :: 0 <= i < |taken| ==> taken[i].key <= now
    ensures WithKey(taken, key) + WithKey(es, key) == WithKey(registered, key)
  {
    PlaceAllSorts(registered, key);
    WithKeyParts(taken, es, key);
  }

  // The first k timers, all expired by now, have left the queue and entered the task queue in
  // their order.
  predicate Taken(es: seq<Entry>, rest: seq<Entry>, waiting: seq<Entry>, tasks: seq<Entry>, k: nat, now: int)
  {
    true == (&& k <= |es| && rest == es[k..] && tasks == PlaceAll(waiting, AsTasks(es[..k]))
             && forall j :: 0 <= j < k ==> es[j].key <= now)
  }

  lemma TakenOneMore(es: seq<Entry>, rest: seq<Entry>, waiting: seq<Entry>, tasks: seq<Entry>, k: nat, last: int, now: int)
    requires Taken(es, rest, waiting, tasks, k, last) && rest != [] && last <= now && rest[0].key <= now
    ensures k < |es| && Taken(es, rest[1..], waiting, Place(tasks, AsTask(rest[0])), k + 1, now)
  {
    var all := AsTasks(es[..k + 1]);
    assert es[..k + 1][..k] == es[..k] && es[k] == rest[0];
    assert all[..k] == AsTasks(es[..k]) && all[k] == AsTask(rest[0]);
  }

  lemma TakenBy(es: seq<Entry>, rest: seq<Entry>, waiting: seq<Entry>, tasks: seq<Entry>, k: nat, last: int, now: int)
    requires Taken(es, rest, waiting, tasks, k, last) && last <= now
    ensures Taken(es, rest, waiting, tasks, k, now)
  {
  }

  // From m to v, while there is room in the task queue, k timers have been taken and k places
  // filled.
  predicate Progress(m: Timers, v: Timers, k: nat, now: int)
  {
    true == (&& (k <= m.taskRoom ==> Taken(m.queue, v.queue, m.tasks, v.tasks, k, now) && v.taskRoom == m.taskRoom - k)
             && (|m.queue| <= m.taskRoom ==> k <= |m.queue|))
  }

  lemma ProgressOne(m: Timers, v: Timers, turn: Turn, k: nat, last: int, next: int)
    requires Progress(m, v, k, last) && last <= turn.now && Expired(v.queue, turn.now)
    requires v.taskRoom > 0 ==> next == turn.now
    ensures Progress(m, Take(v.(nextTick := CaughtUp(v.nextTick, turn.now)), turn.direct), k + 1, next)
  {
    if k <= m.taskRoom {
      TakenOneMore(m.queue, v.queue, m.tasks, v.tasks, k, last, turn.now);
    }
  }

  // A turn that takes nothing leaves the progress, and at the end of the handler nothing is
  // left for it to do.
  lemma ProgressLast(m: Timers, v: Timers, turn: Turn, k: nat, last: int)
    requires Progress(m, v, k, last) && last <= turn.now
    ensures Progress(m, Programmed(v.(nextTick := CaughtUp(v.nextTick, turn.now))), k, turn.now)
  {
    if k <= m.taskRoom {
      TakenBy(m.queue, v.queue, m.tasks, v.tasks, k, last, turn.now);
    }
  }

  // The rest of the handler's run from v gives what the whole gives from m.
  predicate Resumes(m: Timers, turns: seq<Turn>, v: Timers, left: seq<Turn>)
  {
    true == (Handled(v, left) == Handled(m, turns))
  }

  lemma ResumesOne(m: Timers, turns: seq<Turn>, v: Timers, left: seq<Turn>)
    requires Resumes(m, turns, v, left) && left != []
    ensures var c := v.(nextTick := CaughtUp(v.nextTick, left[0].now));
            if Expired(v.queue, left[0].now) then Resumes(m, turns, Take(c, left[0].direct), left[1..])
            else Handled(m, turns) == (Programmed(c), true)
  {
  }

  lemma {:induction false} LastIsLate(rs: seq<Request>, last: nat)
    requires RequestsFollow(rs, last)
    ensures last <= LastRequest(rs, last)
  {
    if rs != [] {
      LastIsLate(rs[1..], rs[0].at);
    }
  }

  lemma FollowEarlier(ts: seq<Turn>, last: nat, earlier: nat)
    requires TurnsFollow(ts, last) && earlier <= last
    ensures TurnsFollow(ts, earlier)
  {
  }

  // The tick stays on the grid that starts at boot, at most one interval ahead of the clock.
  predicate OnGrid(bootTime: nat, nextTick: int, ticks: nat, lastRead: nat)
  {
    true == (&& bootTime <= lastRead && 1 <= ticks && nextTick == bootTime + ticks * INTERVAL
             && nextTick <= lastRead + INTERVAL)
  }

  lemma GridStep(bootTime: nat, nextTick: int, ticks: nat, lastRead: nat)
    requires OnGrid(bootTime, nextTick, ticks, lastRead) && nextTick <= lastRead
    ensures OnGrid(bootTime, nextTick + INTERVAL, ticks + 1, lastRead)
  {
  }

  class TimerUnit {
    const queue: Queue
    const tasks: TaskQueue.TaskRunner
    const bootTime: nat
    var nextTick: int
    var deadline: int
    // How many intervals nextTick is past the boot time, and the last time read.
    ghost var ticks: nat
    ghost var lastRead: nat
    // Every timer that was registered, and those the handler has taken, in order of time.
    ghost var registered: seq<Entry>
    ghost var taken: seq<Entry>

    ghost predicate Apart()
      reads this, tasks
    {
      queue != tasks.queue && queue.pool != tasks.queue.pool
    }

    ghost predicate Valid()
      reads this, queue, queue.pool, tasks, tasks.queue, tasks.queue.pool
    {
      true == (&& Apart() && queue.Valid() && tasks.Valid() && TimersOk(queue.Contents())
               && OnGrid(bootTime, nextTick, ticks, lastRead)
               && History(taken, queue.Contents(), registered, lastRead))
    }

    ghost function View(): Timers
      reads this, queue, queue.pool, tasks, tasks.queue, tasks.queue.pool
    {
      Timers(queue.Contents(), |queue.spare|, nextTick, deadline, tasks.queue.Contents(), |tasks.queue.spare|)
    }

    // timer_init
    constructor (now: nat, runner: TaskQueue.TaskRunner)
      requires runner.Valid()
      ensures Valid() && fresh(queue) && fresh(queue.pool) && tasks == runner && bootTime == now && lastRead == now
      ensures queue.Contents() == [] && nextTick == now + INTERVAL && deadline == nextTick
      ensures |queue.spare| == TIMER_POOL_SIZE && registered == taken == []
    {
      queue := new Queue(TIMER_POOL_SIZE);
      tasks := runner;
      bootTime, nextTick, deadline, ticks, lastRead := now, now + INTERVAL, now + INTERVAL, 1, now;
      registered, taken := [], [];
    }

    // The timers the handler has taken so far, over the whole run, left in the order of their
    // expiry, and in the order of their registration where they expire together.
    lemma ExpiryOrder(key: int)
      requires Valid()
      ensures Sorted(taken + queue.Contents()) && forall i :: 0 <= i < |taken| ==> taken[i].key <= lastRead
      ensures WithKey(taken, key) + WithKey(queue.Contents(), key) == WithKey(registered, key)
    {
      TakenInOrder(taken, queue.Contents(), registered, lastRead, key);
    }

    // timer_program_next_locked
    method Program()
      requires Valid()
      modifies this`deadline
      ensures Valid() && deadline == Due(nextTick, queue.Contents())
      ensures View() == Programmed(old(View()))
    {
      var next := nextTick;
      if queue.head != NONE {
        TaskQueue.HeadEntry(queue.pool[..], queue.head, queue.order);
        if queue.pool[queue.head].key < next {
          next := queue.pool[queue.head].key;
        }
      }
      deadline := next;
    }

    // add_timer at time now. Only a new first timer sets the deadline, so afterwards the
    // deadline is right exactly if the timer came first or the deadline was right before.
    method AddTimer(item: Item, sec: int, now: nat) returns (r: int)
      requires Valid() && lastRead <= now
      modifies this`deadline, this`lastRead, this`registered, queue, queue.pool
      ensures Valid() && lastRead == now
      ensures r == if item.callback == 0 || sec < 0 || old(queue.spare) == [] then -1 else 0
      ensures r != 0 ==>
                queue.Contents() == old(queue.Contents()) && |queue.spare| == |old(queue.spare)| && deadline == old(deadline)
      ensures r == 0 ==>
                var e := TimerEntry(Request(item, sec, now));
                && queue.Contents() == Place(old(queue.Contents()), e)
                && |queue.spare| == |old(queue.spare)| - 1
                && (deadline == Due(nextTick, queue.Contents()) <==>
                    old(queue.Contents()) == [] || e.key < old(queue.Contents())[0].key
                    || old(deadline) == Due(nextTick, old(queue.Contents())))
      ensures View() == Set(old(View()), Request(item, sec, now))
      ensures registered == old(registered) + if r == 0 then [TimerEntry(Request(item, sec, now))] else []
    {
      HistoryLater(taken, queue.Contents(), registered, lastRead, now);
      lastRead := now;
      if item.callback == 0 || sec < 0 {
        return -1;
      }
      ghost var m := View();
      var e := TimerEntry(Request(item, sec, now));
      var ok, first := InsertTimer(e);
      if !ok {
        return -1;
      }
      if first {
        Program();
      }
      SetDeadline(m, Request(item, sec, now));
      r := 0;
    }

    // The insertion of add_timer.
    method InsertTimer(e: Entry) returns (ok: bool, first: bool)
      requires Valid() && e.item.callback != 0 && lastRead <= e.key
      modifies this`registered, queue, queue.pool
      ensures Valid() && ok == (old(queue.spare) != [])
      ensures registered == old(registered) + if ok then [e] else []
      ensures View() == if ok then Joined(old(View()), e) else old(View())
      ensures ok ==> first == ComesFirst(old(queue.Contents()), e)
    {
      ghost var es := queue.Contents();
      ok, first := queue.Insert(e);
      if !ok {
        return;
      }
      PlaceTimer(es, e);
      HistoryAdd(taken, es, registered, lastRead, e);
      registered := registered + [e];
    }

    // timer_trigger_now
    method TriggerNow(now: nat)
      requires Valid() && lastRead <= now
      modifies this`deadline, this`lastRead
      ensures Valid() && lastRead == now && deadline == now
      ensures View() == Acted(old(View()), Trigger(now))
    {
      HistoryLater(taken, queue.Contents(), registered, lastRead, now);
      lastRead := now;
      deadline := now;
    }

    // The tick moves on to its first value after now.
    method CatchUp(now: nat)
      requires OnGrid(bootTime, nextTick, ticks, lastRead) && lastRead <= now
      modifies this`nextTick, this`ticks, this`lastRead
      ensures OnGrid(bootTime, nextTick, ticks, lastRead) && lastRead == now && now < nextTick <= now + INTERVAL
      ensures nextTick == CaughtUp(old(nextTick), now)
    {
      lastRead := now;
      while nextTick <= now
        invariant OnGrid(bootTime, nextTick, ticks, lastRead) && lastRead == now
        invariant CaughtUp(nextTick, now) == CaughtUp(old(nextTick), now)
        decreases now - nextTick
      {
        GridStep(bootTime, nextTick, ticks, lastRead);
        nextTick := nextTick + INTERVAL;
        ticks := ticks + 1;
      }
    }

    // A callback that runs in the handler because the task queue is full.
    method RunDirectly(requests: seq<Request>)
      requires Valid() && RequestsFollow(requests, lastRead)
      modifies this`deadline, this`lastRead, this`registered, queue, queue.pool
      ensures Valid() && lastRead == LastRequest(requests, old(lastRead))
      ensures View() == SetAll(old(View()), requests) && Grown(old(registered), registered)
      decreases |requests|
    {
      if requests == [] {
        return;
      }
      var first := requests[0];
      var r := AddTimer(first.item, first.sec, first.at);
      RunDirectly(requests[1..]);
    }

    // timer_handle_interrupt, for as many turns as the clock is read. When it is done, the
    // tick is after the time last read, no timer that has expired is left, and the deadline
    // is right. While the task queue has room, the k timers it takes are the first k, and
    // they enter the task queue in their order; with room for all of them one turn more than
    // there are timers is enough. Whatever the room, it is done exactly if it runs dry, and
    // more turns than there are timers and requests are enough.
    method HandleInterrupt(turns: seq<Turn>) returns (done: bool, ghost k: nat)
      requires Valid() && TurnsFollow(turns, lastRead)
      modifies this, queue, queue.pool, tasks`accepted, tasks.queue, tasks.queue.pool
      ensures Valid() && k <= |turns|
      ensures done ==> lastRead < nextTick <= lastRead + INTERVAL && AllLater(queue.Contents(), lastRead)
      ensures done ==> deadline == Due(nextTick, queue.Contents())
      ensures k <= |old(tasks.queue.spare)| ==>
                Taken(old(queue.Contents()), queue.Contents(), old(tasks.queue.Contents()), tasks.queue.Contents(), k, lastRead)
      ensures |old(queue.Contents())| <= |old(tasks.queue.spare)| && |old(queue.Contents())| < |turns| ==> done
      ensures done <==> RunsDry(Supplies(old(View())), turns, 0)
      ensures |old(queue.Contents())| + Requests(turns) < |turns| ==> done
      ensures (View(), done) == Handled(old(View()), turns)
      ensures Grown(old(taken), taken) && Grown(old(registered), registered) && |taken| == |old(taken)| + k
    {
      ghost var m, was, reg := View(), taken, registered;
      HandlerEnds(m, turns, lastRead);
      k := 0;
      done := false;
      var left := turns;
      Setout(turns);
      while left != []
        invariant Midway(m, turns, was, reg, left, k)
        decreases |left|
      {
        done := NextTurn(m, turns, was, reg, left, k);
        if done {
          return;
        }
        left := left[1..];
        k := k + 1;
      }
      OutOfTurns(m, turns, was, reg, k);
    }

    lemma Setout(turns: seq<Turn>)
      requires Valid() && TurnsFollow(turns, lastRead)
      ensures Midway(View(), turns, taken, registered, turns, 0)
    {
    }

    lemma OutOfTurns(m: Timers, turns: seq<Turn>, was: seq<Entry>, reg: seq<Entry>, k: nat)
      requires Midway(m, turns, was, reg, [], k)
      ensures Valid() && k == |turns| && Progress(m, View(), k, lastRead) && Handled(m, turns) == (View(), false)
      ensures Grown(was, taken) && |taken| == |was| + k && Grown(reg, registered)
    {
    }

    // From m on k of the turns are over, and left are to come.
    ghost predicate Midway(m: Timers, turns: seq<Turn>, was: seq<Entry>, reg: seq<Entry>, left: seq<Turn>, k: nat)
      reads this, queue, queue.pool, tasks, tasks.queue, tasks.queue.pool
    {
      true == (&& Valid() && k + |left| == |turns| && TurnsFollow(left, lastRead)
               && Progress(m, View(), k, lastRead) && Resumes(m, turns, View(), left)
               && Grown(was, taken) && |taken| == |was| + k && Grown(reg, registered))
    }

    // One turn of the run.
    method NextTurn(ghost m: Timers, ghost turns: seq<Turn>, ghost was: seq<Entry>, ghost reg: seq<Entry>, left: seq<Turn>, ghost k: nat)
      returns (done: bool)
      requires Midway(m, turns, was, reg, left, k) && left != []
      modifies this, queue, queue.pool, tasks`accepted, tasks.queue, tasks.queue.pool
      ensures !done ==> Midway(m, turns, was, reg, left[1..], k + 1)
      ensures done ==>
                && Valid() && k < |turns| && Progress(m, View(), k, lastRead) && Handled(m, turns) == (View(), true)
                && Grown(was, taken) && |taken| == |was| + k && Grown(reg, registered)
                && lastRead < nextTick <= lastRead + INTERVAL && AllLater(queue.Contents(), lastRead)
                && deadline == Due(nextTick, queue.Contents())
    {
      ghost var v, last := View(), lastRead;
      var turn := left[0];
      ResumesOne(m, turns, v, left);
      var more := OneTurn(turn);
      if !more {
        ProgressLast(m, v, turn, k, last);
        return true;
      }
      ProgressOne(m, v, turn, k, last, lastRead);
      FollowEarlier(left[1..], LastRequest(turn.direct, turn.now), lastRead);
      done := false;
    }

    // One turn of the handler; the last one finds nothing expired and programs the deadline.
    // A timer that is taken becomes the next accepted task if the task queue has room.
    method OneTurn(turn: Turn) returns (more: bool)
      requires Valid() && lastRead <= turn.now && RequestsFollow(turn.direct, turn.now)
      modifies this, queue, queue.pool, tasks`accepted, tasks.queue, tasks.queue.pool
      ensures Valid() && lastRead <= LastRequest(turn.direct, turn.now)
      ensures var c := old(View()).(nextTick := CaughtUp(old(nextTick), turn.now));
              && more == Expired(c.queue, turn.now)
              && View() == if more then Take(c, turn.direct) else Programmed(c)
      ensures !more ==>
                && AllLater(queue.Contents(), lastRead) && deadline == Due(nextTick, queue.Contents())
                && lastRead == turn.now && lastRead < nextTick <= lastRead + INTERVAL
                && taken == old(taken) && registered == old(registered) && tasks.accepted == old(tasks.accepted)
      ensures more ==>
                && taken == old(taken) + [old(queue.Contents())[0]] && Grown(old(registered), registered)
                && tasks.accepted == old(tasks.accepted) + if old(tasks.queue.spare) == [] then [] else [AsTask(old(queue.Contents())[0])]
      ensures more && old(tasks.queue.spare) != [] ==> lastRead == turn.now
    {
      hide History, OnGrid, TimersOk, RequestsFollow, Due;
      LastIsLate(turn.direct, turn.now);
      HistoryLater(taken, queue.Contents(), registered, lastRead, turn.now);
      CatchUp(turn.now);
      more := HeadExpired(turn.now);
      if !more {
        Program();
        return;
      }
      TakeOne(turn.direct);
    }

    // The test of the handler for its end.
    method HeadExpired(now: nat) returns (yes: bool)
      requires Valid()
      ensures !yes ==> AllLater(queue.Contents(), now)
      ensures yes <==> Expired(queue.Contents(), now)
    {
      if queue.head == NONE {
        return false;
      }
      TaskQueue.HeadEntry(queue.pool[..], queue.head, queue.order);
      yes := !(queue.pool[queue.head].key > now);
    }

    // The first timer leaves the queue and becomes a task, or runs at once if it cannot.
    method TakeOne(direct: seq<Request>)
      requires Valid() && Expired(queue.Contents(), lastRead) && RequestsFollow(direct, lastRead)
      modifies this`deadline, this`lastRead, this`registered, this`taken
      modifies queue, queue.pool, tasks`accepted, tasks.queue, tasks.queue.pool
      ensures Valid() && lastRead <= LastRequest(direct, old(lastRead))
      ensures View() == Take(old(View()), direct)
      ensures taken == old(taken) + [old(queue.Contents())[0]] && Grown(old(registered), registered)
      ensures tasks.accepted == old(tasks.accepted) + if old(tasks.queue.spare) == [] then [] else [AsTask(old(queue.Contents())[0])]
      ensures old(tasks.queue.spare) != [] ==> lastRead == old(lastRead)
    {
      LastIsLate(direct, lastRead);
      var item := PopTimer();
      if item.callback != 0 {
        var r := QueueTask(item);
        if r < 0 {
          RunDirectly(direct);
        }
      }
    }

    method PopTimer() returns (item: Item)
      requires Valid() && Expired(queue.Contents(), lastRead)
      modifies this`taken, queue, queue.pool
      ensures Valid() && View() == Popped(old(View()))
      ensures item == old(queue.Contents())[0].item && item.callback != 0
      ensures taken == old(taken) + [old(queue.Contents())[0]]
    {
      PopTimers(queue.Contents());
      HistoryTake(taken, queue.Contents(), registered, lastRead);
      var e := queue.PopFirst();
      item := e.item;
      taken := taken + [e];
    }

    method QueueTask(item: Item) returns (r: int)
      requires Valid() && item.callback != 0
      modifies tasks`accepted, tasks.queue, tasks.queue.pool
      ensures Valid() && r == if old(tasks.queue.spare) == [] then -1 else 0
      ensures View() == if r == 0 then Queued(old(View()), item) else old(View())
      ensures tasks.accepted == old(tasks.accepted) + if r == 0 then [Entry(-1, item)] else []
    {
      r := tasks.AddTask(item, 1);
    }
  }
}
