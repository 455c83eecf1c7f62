/**
 The method queue as a monitor with any number of producers and consumers, and the worker threads
 that drain it.  A step is one critical section, or one of the three actions of the destructor.
 */
module MethodQueue {
  import opened Wrappers

  datatype Item = Item(name: string, data: string)

  type Thread = nat
  type Ticket = nat  // position of an item in the order of delivery

  /** `entering` threads have tested their stop flag and have yet to take the lock in Dequeue; `sleeping`
      ones are blocked on the condition variable; `notified` ones have been woken and have
      yet to test the condition again; `held` maps a worker to the item it is handling.  `enqueued`,
      `delivered` and `handled` record what has happened. */
  datatype State = State(
    queue: seq<Item>,
    stop: bool,           // mStop
    broadcast: bool,      // the destructor has notified everyone
    workersStop: bool,    // mMethodTrhead_Stop
    entering: set<Thread>,
    sleeping: set<Thread>,
    notified: set<Thread>,
    held: map<Thread, Ticket>,
    exited: set<Thread>,
    enqueued: seq<Item>,
    delivered: seq<Item>,
    handled: seq<Ticket>
  )

  datatype Event =
    | Enqueue(item: Item, woken: Option<Thread>)  // notify_one picks a sleeper if there is one
    | Test(t: Thread)        // a worker tests its stop flag, without the lock
    | Enter(t: Thread)       // and takes the lock in Dequeue
    | Recheck(t: Thread)     // a woken thread tests the condition again
    | Spurious(t: Thread)
    | Handle(t: Thread)      // a worker finishes handling its item
    | SetStop | NotifyAll | ClearQueue  // the destructor
    | StopWorkers            // ServiceBaseDeinit

  const INIT := State([], false, false, false, {}, {}, {}, map[], {}, [], [], [])

  predicate Free(s: State, t: Thread) {
    t !in s.entering && t !in s.sleeping && t !in s.notified && t !in s.held && t !in s.exited
  }

  predicate Enabled(s: State, e: Event) {
    match e
    case Enqueue(_, None) => s.sleeping == {}
    case Enqueue(_, Some(t)) => t in s.sleeping
    case Test(t) => Free(s, t)
    case Enter(t) => t in s.entering
    case Recheck(t) => t in s.notified
    case Spurious(t) => t in s.sleeping
    case Handle(t) => t in s.held
    case NotifyAll => s.stop
    case ClearQueue => s.broadcast
    case _ => true
  }

  /** The condition waited for. */
  predicate Ready(s: State) {
    s.stop || s.queue != []
  }

  /** The rest of Dequeue once the condition holds. */
  function Take(s: State, t: Thread): State {
    if s.queue == [] then s
    else if s.stop then s.(queue := [])
    else s.(queue := s.queue[1..], delivered := s.delivered + [s.queue[0]], held := s.held[t := |s.delivered|])
  }

  function Step(s: State, e: Event): State {
    match e
    case Enqueue(item, woken) =>
      var s := s.(queue := s.queue + [item], enqueued := s.enqueued + [item]);
      if woken.Some?
      then s.(sleeping := s.sleeping - {woken.value}, notified := s.notified + {woken.value})
      else s
    case Test(t) =>
      if s.workersStop then s.(exited := s.exited + {t}) else s.(entering := s.entering + {t})
    case Enter(t) =>
      var s := s.(entering := s.entering - {t});
      if Ready(s) then Take(s, t) else s.(sleeping := s.sleeping + {t})
    case Recheck(t) =>
      var s := s.(notified := s.notified - {t});
      if Ready(s) then Take(s, t) else s.(sleeping := s.sleeping + {t})
    case Spurious(t) => s.(sleeping := s.sleeping - {t}, notified := s.notified + {t})
    case Handle(t) => if t in s.held then s.(held := s.held - {t}, handled := s.handled + [s.held[t]]) else s
    case SetStop => s.(stop := true)
    case NotifyAll => s.(broadcast := true, sleeping := {}, notified := s.notified + s.sleeping)
    case ClearQueue => s.(queue := [])
    case StopWorkers => s.(workersStop := true)
  }

  function Exec(s: State, es: seq<Event>): State {
    if es == [] then s else Step(Exec(s, es[..|es| - 1]), es[|es| - 1])
  }

  predicate Possible(s: State, es: seq<Event>) {
    es == [] ||
    (Possible(s, es[..|es| - 1]) && Enabled(Exec(s, es[..|es| - 1]), es[|es| - 1]))
  }

  lemma RunSnoc(s: State, es: seq<Event>, e: Event)
    requires Possible(s, es) && Enabled(Exec(s, es), e)
    ensures Possible(s, es + [e]) && Exec(s, es + [e]) == Step(Exec(s, es), e)
  {
    assert (es + [e])[..|es|] == es;
  }

  lemma {:induction false} RunConcat(s: State, es: seq<Event>, more: seq<Event>)
    ensures Exec(s, es + more) == Exec(Exec(s, es), more)
    ensures Possible(s, es + more) <==> Possible(s, es) && Possible(Exec(s, es), more)
  {
    if more == [] {
      assert es + more == es;
    } else {
      var n := |more| - 1;
      RunConcat(s, es, more[..n]);
      assert (es + more)[..|es + more| - 1] == es + more[..n];
    }
  }

  // ---- What a step does, queue by queue and thread by thread ----

  /** An item is put at the back; what is taken is the front one, or everything once the stop is set. */
  lemma QueueStep(s: State, e: Event)
    requires Enabled(s, e)
    ensures Step(s, e).queue ==
      match e
      case Enqueue(item, _) => s.queue + [item]
      case Enter(_) => if s.stop || s.queue == [] then [] else s.queue[1..]
      case Recheck(_) => if s.stop || s.queue == [] then [] else s.queue[1..]
      case ClearQueue => []
      case _ => s.queue
    ensures Step(s, e).enqueued == s.enqueued + if e.Enqueue? then [e.item] else []
    ensures Step(s, e).delivered ==
      s.delivered + if (e.Enter? || e.Recheck?) && !s.stop && s.queue != [] then [s.queue[0]] else []
    ensures Step(s, e).stop == (s.stop || e == SetStop) && Step(s, e).workersStop == (s.workersStop || e == StopWorkers)
    ensures Step(s, e).broadcast == (s.broadcast || e == NotifyAll)
  {}

  /** Where a thread is in the worker's loop. */
  datatype Place = AtTest | PastTest | Asleep | Woken | Handling(ticket: Ticket) | Gone

  function PlaceOf(s: State, t: Thread): Place {
    if t in s.entering then PastTest else if t in s.sleeping then Asleep else if t in s.notified then Woken
    else if t in s.held then Handling(s.held[t]) else if t in s.exited then Gone else AtTest
  }

  /** A thread is at one place. */
  predicate OnePlace(s: State, t: Thread) {
    && (t in s.entering ==> t !in s.sleeping && t !in s.notified && t !in s.held && t !in s.exited)
    && (t in s.sleeping ==> t !in s.notified && t !in s.held && t !in s.exited)
    && (t in s.notified ==> t !in s.held && t !in s.exited)
    && (t in s.held ==> t !in s.exited)
  }

  /** Where Dequeue leaves a thread that has the lock. */
  function AfterDequeue(s: State): Place {
    if s.stop then AtTest else if s.queue == [] then Asleep else Handling(|s.delivered|)
  }

  /** Each thread goes through the worker's loop: it tests its flag and exits or goes on, takes the lock and
      sleeps or comes out with an item or, after the stop, without one, and handles its item; it is woken
      by the notification that picks it, by the broadcast, or spuriously; and no step of another thread
      moves it otherwise. */
  lemma ThreadStep(s: State, e: Event, t: Thread)
    requires OnePlace(s, t) && Enabled(s, e)
    ensures OnePlace(Step(s, e), t)
    ensures PlaceOf(Step(s, e), t) ==
      match e
      case Test(u) => if u != t then PlaceOf(s, t) else if s.workersStop then Gone else PastTest
      case Enter(u) => if u == t then AfterDequeue(s) else PlaceOf(s, t)
      case Recheck(u) => if u == t then AfterDequeue(s) else PlaceOf(s, t)
      case Handle(u) => if u == t then AtTest else PlaceOf(s, t)
      case Enqueue(_, woken) => if woken == Some(t) then Woken else PlaceOf(s, t)
      case Spurious(u) => if u == t then Woken else PlaceOf(s, t)
      case NotifyAll => if PlaceOf(s, t) == Asleep then Woken else PlaceOf(s, t)
      case _ => PlaceOf(s, t)
  {}

  /** In every run every thread is at one place. */
  lemma {:induction false} AlwaysOnePlace(es: seq<Event>, t: Thread)
    requires Possible(INIT, es)
    ensures OnePlace(Exec(INIT, es), t)
  {
    if es == [] {
    } else {
      AlwaysOnePlace(es[..|es| - 1], t);
      ThreadStep(Exec(INIT, es[..|es| - 1]), es[|es| - 1], t);
    }
  }

  /** Handling is recorded when it ends, with the ticket of the item handled. */
  lemma HandledStep(s: State, e: Event)
    requires Enabled(s, e)
    ensures Step(s, e).handled == s.handled + if e.Handle? then [s.held[e.t]] else []
  {}

  // ---- No wake-up is lost ----

  /** A thread is at one place. */
  predicate Apart(s: State) {
    s.sleeping !! s.notified && s.entering !! s.sleeping + s.notified
  }

  /** While anyone sleeps, every queued item is matched by a thread that has been woken for it and will
      test the condition again; once everyone has been notified nobody sleeps. */
  predicate WakeupsCovered(s: State) {
    && Apart(s)
    && (s.sleeping != {} ==> |s.queue| <= |s.notified|)
    && (s.broadcast ==> s.stop && s.sleeping == {})
  }

  lemma ApartStep(s: State, e: Event)
    requires Apart(s) && Enabled(s, e)
    ensures Apart(Step(s, e))
  {}

  /** A notification adds one to the woken threads and a recheck takes one away. */
  lemma NotifiedStep(s: State, e: Event)
    requires Apart(s) && Enabled(s, e)
    ensures
      var r := Step(s, e);
      match e
      case Enqueue(_, Some(_)) => |r.notified| == |s.notified| + 1
      case Spurious(_) => |r.notified| == |s.notified| + 1
      case Recheck(_) => |r.notified| == |s.notified| - 1
      case NotifyAll => |r.notified| == |s.notified| + |s.sleeping|
      case _ => r.notified == s.notified
  {}

  lemma WakeupsStep(s: State, e: Event)
    requires WakeupsCovered(s) && Enabled(s, e)
    ensures WakeupsCovered(Step(s, e))
  {
    ApartStep(s, e);
    NotifiedStep(s, e);
  }

  lemma {:induction false} NoLostWakeup(es: seq<Event>)
    requires Possible(INIT, es)
    ensures WakeupsCovered(Exec(INIT, es))
  {
    if es == [] {
    } else {
      var n := |es| - 1;
      NoLostWakeup(es[..n]);
      WakeupsStep(Exec(INIT, es[..n]), es[n]);
    }
  }

  /** The consequence for a waiting consumer: an item never sits in the queue with everybody asleep. */
  lemma SleeperNeverMissesItem(es: seq<Event>, t: Thread)
    requires Possible(INIT, es) && t in Exec(INIT, es).sleeping && Exec(INIT, es).queue != []
    ensures exists u :: u in Exec(INIT, es).notified
  {
    NoLostWakeup(es);
    var s := Exec(INIT, es);
    assert |s.notified| > 0;
    var u :| u in s.notified;
  }

  // ---- What ends a sleep ----

  /** The event notifies this very thread. */
  predicate Wakes(e: Event, t: Thread) {
    match e
    case Enqueue(_, woken) => woken == Some(t)
    case NotifyAll => true
    case Spurious(u) => u == t
    case _ => false
  }

  /** A sleeping thread leaves its sleep at a step if and only if the step wakes it. */
  lemma SleepEndsExactly(s: State, e: Event, t: Thread)
    requires t in s.sleeping && t !in s.exited && Enabled(s, e)
    ensures t !in Step(s, e).sleeping <==> Wakes(e, t)
    ensures t !in Step(s, e).exited
  {}

  predicate NeverWoken(es: seq<Event>, t: Thread) {
    forall k | 0 <= k < |es| :: !Wakes(es[k], t)
  }

  /** Asleep at the end of the run and of each of its prefixes. */
  predicate AsleepThroughout(s: State, es: seq<Event>, t: Thread) {
    t in Exec(s, es).sleeping && (es == [] || AsleepThroughout(s, es[..|es| - 1], t))
  }

  /** Through a whole run a sleeping thread sleeps on if and only if no event wakes it; and then it does
      not exit. */
  lemma {:induction false} SleepsOnExactly(s: State, es: seq<Event>, t: Thread)
    requires t in s.sleeping && t !in s.exited && Possible(s, es)
    ensures AsleepThroughout(s, es, t) <==> NeverWoken(es, t)
    ensures NeverWoken(es, t) ==> t in Exec(s, es).sleeping && t !in Exec(s, es).exited
  {
    if es == [] {
    } else {
      var n := |es| - 1;
      SleepsOnExactly(s, es[..n], t);
      assert NeverWoken(es, t) <==> NeverWoken(es[..n], t) && !Wakes(es[n], t);
      if NeverWoken(es[..n], t) {
        SleepEndsExactly(Exec(s, es[..n]), es[n], t);
      }
    }
  }

  /** The two ways to miss the stop: a worker that sleeps on an empty queue when it comes, and one that
      has tested its flag before and takes the lock after. */
  function MissesStop(t: Thread, late: bool): seq<Event> {
    [Test(t)] + if late then [StopWorkers, Enter(t)] else [Enter(t), StopWorkers]
  }

  lemma StopCanBeMissed(t: Thread, late: bool)
    ensures Possible(INIT, MissesStop(t, late))
    ensures Exec(INIT, MissesStop(t, late)) == INIT.(sleeping := {t}, workersStop := true)
  {
    var es := MissesStop(t, late);
    assert es == es[..2] + [es[2]] && es[..2] == es[..1] + [es[1]] && es[..1] == [] + [es[0]];
    RunSnoc(INIT, [], es[0]);
    RunSnoc(INIT, es[..1], es[1]);
    RunSnoc(INIT, es[..2], es[2]);
  }

  /** Either way, as long as nothing wakes the worker, it never exits. */
  lemma StoppedWorkerSleepsOn(t: Thread, late: bool, more: seq<Event>)
    requires Possible(INIT, MissesStop(t, late) + more) && NeverWoken(more, t)
    ensures
      var s := Exec(INIT, MissesStop(t, late) + more);
      t in s.sleeping && t !in s.exited
  {
    var start := MissesStop(t, late);
    StopCanBeMissed(t, late);
    RunConcat(INIT, start, more);
    SleepsOnExactly(Exec(INIT, start), more, t);
  }

  // ---- Order, conservation, and what happens after the stop ----

  /** Until the stop the delivered items followed by the queued ones are the enqueued ones; always the
      delivered ones are the first of the enqueued ones. */
  predicate FirstInFirstOut(s: State) {
    && (!s.stop ==> s.delivered + s.queue == s.enqueued)
    && s.delivered <= s.enqueued
    && (s.broadcast ==> s.stop)
  }

  lemma FifoStep(s: State, e: Event)
    requires FirstInFirstOut(s) && Enabled(s, e)
    ensures FirstInFirstOut(Step(s, e))
    ensures s.stop ==> Step(s, e).delivered == s.delivered && Step(s, e).stop
  {
    if e.Enter? || e.Recheck? {
      if s.queue != [] {
        assert s.delivered + s.queue == s.delivered + [s.queue[0]] + s.queue[1..];
      }
    }
  }

  lemma {:induction false} DeliveredInOrder(es: seq<Event>)
    requires Possible(INIT, es)
    ensures FirstInFirstOut(Exec(INIT, es))
  {
    if es == [] {
    } else {
      var n := |es| - 1;
      DeliveredInOrder(es[..n]);
      FifoStep(Exec(INIT, es[..n]), es[n]);
    }
  }

  lemma {:induction false} NothingDeliveredAfterStop(es: seq<Event>, k: nat)
    requires Possible(INIT, es) && k <= |es| && Exec(INIT, es[..k]).stop
    ensures Exec(INIT, es).delivered == Exec(INIT, es[..k]).delivered && Exec(INIT, es).stop
  {
    if k < |es| {
      var n := |es| - 1;
      assert es[..n][..k] == es[..k];
      NothingDeliveredAfterStop(es[..n], k);
      DeliveredInOrder(es[..n]);
      FifoStep(Exec(INIT, es[..n]), es[n]);
    } else {
      assert es[..k] == es;
    }
  }

  /** The same from the state in which the stop is set, for any continuation of the run. */
  lemma DeliveryEndsAtStop(es: seq<Event>, more: seq<Event>)
    requires Possible(INIT, es) && Exec(INIT, es).stop && Possible(Exec(INIT, es), more)
    ensures Exec(Exec(INIT, es), more).delivered == Exec(INIT, es).delivered
  {
    RunConcat(INIT, es, more);
    assert (es + more)[..|es|] == es;
    NothingDeliveredAfterStop(es + more, |es|);
  }

  /** After the broadcast nobody falls asleep again. */
  lemma {:induction false} NoSleepAfterBroadcast(s: State, es: seq<Event>)
    requires WakeupsCovered(s) && s.broadcast && Possible(s, es)
    ensures WakeupsCovered(Exec(s, es)) && Exec(s, es).broadcast && Exec(s, es).sleeping == {}
  {
    if es == [] {
    } else {
      var n := |es| - 1;
      NoSleepAfterBroadcast(s, es[..n]);
      WakeupsStep(Exec(s, es[..n]), es[n]);
    }
  }

  // ---- What asking the workers to stop achieves ----

  /** The threads that are inside Dequeue, or past their test and so about to enter it. */
  function Inside(s: State): set<Thread> {
    s.entering + s.sleeping + s.notified
  }

  lemma InsideLocked(s: State, e: Event)
    requires Apart(s) && Enabled(s, e) && (e.Enter? || e.Recheck?)
    ensures
      var r := Step(s, e);
      && Apart(r) && Inside(r) == (if Ready(s) then Inside(s) - {e.t} else Inside(s))
      && |r.delivered| <= |s.delivered| + if Ready(s) then 1 else 0
  {}

  lemma InsideUnchanged(s: State, e: Event)
    requires s.workersStop && Apart(s) && Enabled(s, e) && !e.Enter? && !e.Recheck?
    ensures Inside(Step(s, e)) == Inside(s) && Apart(Step(s, e))
    ensures Step(s, e).delivered == s.delivered
  {}

  lemma InsideStep(s: State, e: Event)
    requires s.workersStop && Apart(s) && Enabled(s, e)
    ensures
      var r := Step(s, e);
      && r.workersStop && Apart(r) && Inside(r) <= Inside(s)
      && |r.delivered| + |Inside(r)| <= |s.delivered| + |Inside(s)|
  {
    if e.Enter? || e.Recheck? {
      InsideLocked(s, e);
      assert e.t in Inside(s);
    } else {
      InsideUnchanged(s, e);
    }
  }

  /** Once the workers have been asked to stop, no further one comes to enter Dequeue, and at most one more
      item is delivered for each that was inside or past its test. */
  lemma {:induction false} DeliveriesAfterStopWorkers(s: State, es: seq<Event>)
    requires s.workersStop && Apart(s) && Possible(s, es)
    ensures
      var r := Exec(s, es);
      && r.workersStop && Apart(r) && Inside(r) <= Inside(s)
      && |r.delivered| + |Inside(r)| <= |s.delivered| + |Inside(s)|
  {
    if es == [] {
    } else {
      var n := |es| - 1;
      DeliveriesAfterStopWorkers(s, es[..n]);
      InsideStep(Exec(s, es[..n]), es[n]);
    }
  }

  /** The test and the entry are not one step: a worker past its test gets an item after the stop, with
      nobody in Dequeue when the stop came. */
  lemma DeliveredPastTest(t: Thread, item: Item)
    ensures
      var before := [Enqueue(item, None), Test(t), StopWorkers];
      && Possible(INIT, before + [Enter(t)])
      && Exec(INIT, before).sleeping + Exec(INIT, before).notified == {} && Inside(Exec(INIT, before)) == {t}
      && Exec(INIT, before).delivered == [] && Exec(INIT, before + [Enter(t)]).delivered == [item]
  {
    var before := [Enqueue(item, None), Test(t), StopWorkers];
    assert before == before[..2] + [StopWorkers] && before[..2] == before[..1] + [Test(t)];
    assert before[..1] == [] + [Enqueue(item, None)];
    RunSnoc(INIT, [], Enqueue(item, None));
    RunSnoc(INIT, before[..1], Test(t));
    RunSnoc(INIT, before[..2], StopWorkers);
    RunSnoc(INIT, before, Enter(t));
  }

  // ---- Every delivered item is handled once ----

  predicate Handled(s: State, k: Ticket) {
    exists i | 0 <= i < |s.handled| :: s.handled[i] == k
  }

  predicate Held(s: State, k: Ticket) {
    exists t | t in s.held :: s.held[t] == k
  }

  /** Each delivered item is in exactly one place: in one worker's hands, or handled once. */
  ghost predicate ExactlyOnce(s: State) {
    && (forall k: nat :: k < |s.delivered| <==> Handled(s, k) || Held(s, k))
    && (forall k: nat :: !(Handled(s, k) && Held(s, k)))
    && (forall i, j | 0 <= i < j < |s.handled| :: s.handled[i] != s.handled[j])
    && (forall t, u | t in s.held && u in s.held && t != u :: s.held[t] != s.held[u])
  }

  lemma SamePlaces(s: State, r: State)
    requires ExactlyOnce(s) && r.delivered == s.delivered && r.held == s.held && r.handled == s.handled
    ensures ExactlyOnce(r)
  {
    assert forall k: nat :: Handled(r, k) <==> Handled(s, k);
    assert forall k: nat :: Held(r, k) <==> Held(s, k);
  }

  lemma TakeOnce(s: State, t: Thread)
    requires ExactlyOnce(s) && t !in s.held
    ensures ExactlyOnce(Take(s, t))
  {
    var r := Take(s, t);
    if s.queue == [] || s.stop {
      SamePlaces(s, r);
    } else {
      var n := |s.delivered|;
      assert r.held[t] == n;
      forall k: nat ensures Held(r, k) <==> Held(s, k) || k == n {
        if Held(s, k) {
          var u :| u in s.held && s.held[u] == k;
          assert r.held[u] == k;
        }
      }
      assert forall k: nat :: Handled(r, k) <==> Handled(s, k);
      assert forall u | u in s.held :: Held(s, s.held[u]);
    }
  }

  lemma HandleOnce(s: State, t: Thread)
    requires ExactlyOnce(s) && t in s.held
    ensures ExactlyOnce(Step(s, Handle(t)))
  {
    var r := Step(s, Handle(t));
    var x := s.held[t];
    assert Held(s, x);
    forall k: nat ensures Held(r, k) <==> Held(s, k) && k != x {
      if Held(s, k) && k != x {
        var u :| u in s.held && s.held[u] == k;
        assert u in r.held && r.held[u] == k;
      }
    }
    forall k: nat ensures Handled(r, k) <==> Handled(s, k) || k == x {
      assert r.handled[|s.handled|] == x;
      if Handled(s, k) {
        var i :| 0 <= i < |s.handled| && s.handled[i] == k;
        assert r.handled[i] == k;
      }
    }
    forall i | 0 <= i < |s.handled| ensures s.handled[i] != x {
      assert Handled(s, s.handled[i]);
    }
  }

  /** A worker with an item in hand is not blocked. */
  predicate HoldersAwake(s: State) {
    forall t | t in s.held :: t !in s.entering && t !in s.sleeping && t !in s.notified
  }

  lemma OnceStep(s: State, e: Event)
    requires ExactlyOnce(s) && HoldersAwake(s) && Apart(s) && Enabled(s, e)
    ensures ExactlyOnce(Step(s, e)) && HoldersAwake(Step(s, e))
  {
    match e
    case Enter(t) =>
      var s' := s.(entering := s.entering - {t});
      SamePlaces(s, s');
      TakeOnce(s', t);
      SamePlaces(s, s'.(sleeping := s'.sleeping + {t}));
    case Recheck(t) =>
      var s' := s.(notified := s.notified - {t});
      SamePlaces(s, s');
      TakeOnce(s', t);
      SamePlaces(s, s'.(sleeping := s'.sleeping + {t}));
    case Handle(t) => HandleOnce(s, t);
    case _ => SamePlaces(s, Step(s, e));
  }

  /** For any number of workers. */
  lemma {:induction false} EveryItemHandledOnce(es: seq<Event>)
    requires Possible(INIT, es)
    ensures ExactlyOnce(Exec(INIT, es)) && HoldersAwake(Exec(INIT, es))
  {
    if es == [] {
    } else {
      var n := |es| - 1;
      EveryItemHandledOnce(es[..n]);
      NoLostWakeup(es[..n]);
      OnceStep(Exec(INIT, es[..n]), es[n]);
    }
  }

  // ---- A single worker handles in order ----

  predicate OnlyWorker(es: seq<Event>, w: Thread) {
    forall k | 0 <= k < |es| ::
      match es[k]
      case Test(t) => t == w
      case Enter(t) => t == w
      case Recheck(t) => t == w
      case Handle(t) => t == w
      case _ => true
  }

  /** The items handled, in the order in which they were handled. */
  function HandledItems(s: State): seq<Item>
    requires forall i | 0 <= i < |s.handled| :: s.handled[i] < |s.delivered|
  {
    seq(|s.handled|, i requires 0 <= i < |s.handled| => s.delivered[s.handled[i]])
  }

  predicate InOrder(s: State, w: Thread) {
    && (forall i | 0 <= i < |s.handled| :: s.handled[i] == i)
    && s.held.Keys <= {w}
    && |s.handled| + (if w in s.held then 1 else 0) == |s.delivered|
    && (w in s.held ==> s.held[w] == |s.handled|)
    && (w in s.held ==> w !in s.entering && w !in s.sleeping && w !in s.notified)
    && Apart(s)
  }

  lemma InOrderStep(s: State, e: Event, w: Thread)
    requires InOrder(s, w) && Enabled(s, e) && OnlyWorker([e], w)
    ensures InOrder(Step(s, e), w)
  {
    assert [e][0] == e;
  }

  /** With one worker the items handled are the first of the items enqueued, in the order in which they
      were enqueued, and at most the one in its hands separates them from the items delivered. */
  lemma {:induction false} SingleWorkerInOrder(es: seq<Event>, w: Thread)
    requires Possible(INIT, es) && OnlyWorker(es, w)
    ensures InOrder(Exec(INIT, es), w)
    ensures HandledItems(Exec(INIT, es)) <= Exec(INIT, es).enqueued
  {
    if es == [] {
    } else {
      var n := |es| - 1;
      SingleWorkerInOrder(es[..n], w);
      InOrderStep(Exec(INIT, es[..n]), es[n], w);
    }
    DeliveredInOrder(es);
  }
}
