/** The queue in the program's own form. */
module MethodQueueMonitor {
  import opened Wrappers
  import opened MethodQueue

  class Queue {
    var mQueue: seq<Item>
    var mStop: bool
    var broadcast: bool
    var workersStop: bool
    var entering: set<Thread>  // workers between their test and the lock
    var sleeping: set<Thread>  // the condition variable's waiters
    var notified: set<Thread>
    var held: map<Thread, Ticket>
    var exited: set<Thread>
    ghost var enqueued: seq<Item>
    var delivered: seq<Item>
    var handled: seq<Ticket>
    ghost var history: seq<Event>

    ghost function Snapshot(): State
      reads this
    {
      State(mQueue, mStop, broadcast, workersStop, entering, sleeping, notified, held, exited, enqueued,
            delivered, handled)
    }

    /** The queue is where the steps taken so far, each possible in its turn, lead. */
    ghost predicate Valid()
      reads this
    {
      Possible(INIT, history) && Snapshot() == Exec(INIT, history)
    }

    /** What the theorems about runs say of the fields, between any two steps. */
    ghost predicate Sound()
      reads this
    {
      WakeupsCovered(Snapshot()) && FirstInFirstOut(Snapshot()) && ExactlyOnce(Snapshot())
    }

    lemma AtAnyTime()
      requires Valid()
      ensures Sound()
    {
      NoLostWakeup(history);
      DeliveredInOrder(history);
      EveryItemHandledOnce(history);
    }

    /** Adds the step just taken to the history. */
    ghost method Record(before: State, e: Event)
      requires Possible(INIT, history) && before == Exec(INIT, history)
      requires Enabled(before, e) && Snapshot() == Step(before, e)
      modifies `history
      ensures Valid() && history == old(history) + [e] && Sound()
      ensures Snapshot() == old(Snapshot())
    {
      RunSnoc(INIT, history, e);
      history := history + [e];
      AtAnyTime();
    }

    constructor ()
      ensures Valid() && history == []
      ensures Snapshot() == INIT
    {
      mQueue, mStop, broadcast, workersStop := [], false, false, false;
      entering, sleeping, notified, held, exited := {}, {}, {}, map[], {};
      enqueued, delivered, handled := [], [], [];
      history := [];
    }

    method Wake(t: Thread)
      modifies this`sleeping, this`notified
      ensures sleeping == old(sleeping) - {t} && notified == old(notified) + {t}
    {
      sleeping := sleeping - {t};
      notified := notified + {t};
    }

    /** `woken` is the thread that notify_one picks. */
    method Enqueue(item: Item, woken: Option<Thread>) returns (ok: bool)
      requires Valid()
      requires Enabled(Snapshot(), MethodQueue.Enqueue(item, woken))
      modifies this
      ensures ok && Snapshot() == Step(old(Snapshot()), MethodQueue.Enqueue(item, woken))
      ensures Valid() && history == old(history) + [MethodQueue.Enqueue(item, woken)] && Sound()
    {
      ghost var before := Snapshot();
      mQueue := mQueue + [item];
      enqueued := enqueued + [item];
      if woken.Some? {
        Wake(woken.value);
      }
      Record(before, MethodQueue.Enqueue(item, woken));
      return true;
    }

    /** A sleeper is woken without notification. */
    method SpuriousWake(t: Thread)
      requires Valid()
      requires Enabled(Snapshot(), Spurious(t))
      modifies this
      ensures Snapshot() == Step(old(Snapshot()), Spurious(t))
      ensures Valid() && history == old(history) + [Spurious(t)] && Sound()
    {
      ghost var before := Snapshot();
      Wake(t);
      Record(before, Spurious(t));
    }

    /** The head of the worker's loop: the stop flag is read without the lock. */
    method TestStop(t: Thread) returns (goOn: bool)
      requires Valid()
      requires Enabled(Snapshot(), Test(t))
      modifies this
      ensures Snapshot() == Step(old(Snapshot()), Test(t)) && goOn == !old(workersStop)
      ensures Valid() && history == old(history) + [Test(t)] && Sound()
    {
      ghost var before := Snapshot();
      goOn := !workersStop;
      if goOn {
        entering := entering + {t};
      } else {
        exited := exited + {t};
      }
      Record(before, Test(t));
    }

    /** Dequeue after its wait. */
    method DequeueRest(t: Thread) returns (item: Option<Item>)
      modifies this
      ensures Snapshot() == Take(old(Snapshot()), t) && history == old(history)
      ensures delivered == old(delivered) + if item.Some? then [item.value] else []
    {
      if mQueue == [] {
        return None;
      }
      if mStop {
        mQueue := [];
        return None;
      }
      item := Some(mQueue[0]);
      held := held[t := |delivered|];
      delivered := delivered + [mQueue[0]];
      mQueue := mQueue[1..];
    }

    /** Dequeue up to its return or its wait. */
    method DequeueEnter(t: Thread) returns (item: Option<Item>)
      requires Valid()
      requires Enabled(Snapshot(), Enter(t))
      modifies this
      ensures Snapshot() == Step(old(Snapshot()), Enter(t))
      ensures Valid() && history == old(history) + [Enter(t)] && Sound()
      ensures delivered == old(delivered) + if item.Some? then [item.value] else []
    {
      ghost var before := Snapshot();
      item := None;
      entering := entering - {t};
      if mQueue == [] && !mStop {
        sleeping := sleeping + {t};
      } else {
        item := DequeueRest(t);
      }
      Record(before, Enter(t));
    }

    /** Dequeue from a wake-up to its return or back to its wait. */
    method DequeueRecheck(t: Thread) returns (item: Option<Item>)
      requires Valid()
      requires Enabled(Snapshot(), Recheck(t))
      modifies this
      ensures Snapshot() == Step(old(Snapshot()), Recheck(t))
      ensures Valid() && history == old(history) + [Recheck(t)] && Sound()
      ensures delivered == old(delivered) + if item.Some? then [item.value] else []
    {
      ghost var before := Snapshot();
      item := None;
      notified := notified - {t};
      if mQueue == [] && !mStop {
        sleeping := sleeping + {t};
      } else {
        item := DequeueRest(t);
      }
      Record(before, Recheck(t));
    }

    /** The worker returns from handling its item. */
    method FinishHandling(t: Thread)
      requires Valid()
      requires Enabled(Snapshot(), Handle(t))
      modifies this
      ensures Snapshot() == Step(old(Snapshot()), Handle(t))
      ensures Valid() && history == old(history) + [Handle(t)] && Sound()
      ensures !Handled(old(Snapshot()), old(held[t]))
      ensures Handled(Snapshot(), old(held[t])) && !Held(Snapshot(), old(held[t]))
    {
      ghost var before := Snapshot();
      AtAnyTime();
      assert Held(before, held[t]);
      handled := handled + [held[t]];
      held := held - {t};
      Record(before, Handle(t));
      assert handled[|handled| - 1] == before.held[t];
    }

    /** The destructor's critical section. */
    method DestructSetStop()
      requires Valid()
      modifies this
      ensures Snapshot() == Step(old(Snapshot()), SetStop)
      ensures Valid() && history == old(history) + [SetStop] && Sound()
      ensures forall es | Possible(Snapshot(), es) :: Exec(Snapshot(), es).delivered == old(delivered)
    {
      ghost var before := Snapshot();
      mStop := true;
      Record(before, SetStop);
      forall es | Possible(Snapshot(), es) ensures Exec(Snapshot(), es).delivered == delivered {
        DeliveryEndsAtStop(history, es);
      }
    }

    /** The destructor's notify_all. */
    method DestructNotifyAll()
      requires Valid()
      requires Enabled(Snapshot(), NotifyAll)
      modifies this
      ensures Snapshot() == Step(old(Snapshot()), NotifyAll)
      ensures Valid() && history == old(history) + [NotifyAll] && Sound()
      ensures forall es | Possible(Snapshot(), es) :: Exec(Snapshot(), es).sleeping == {}
    {
      ghost var before := Snapshot();
      broadcast := true;
      notified := notified + sleeping;
      sleeping := {};
      Record(before, NotifyAll);
      forall es | Possible(Snapshot(), es) ensures Exec(Snapshot(), es).sleeping == {} {
        NoSleepAfterBroadcast(Snapshot(), es);
      }
    }

    /** The destructor's last act, outside the lock. */
    method DestructClear()
      requires Valid()
      requires Enabled(Snapshot(), ClearQueue)
      modifies this
      ensures Snapshot() == Step(old(Snapshot()), ClearQueue)
      ensures Valid() && history == old(history) + [ClearQueue] && Sound()
      ensures forall es | Possible(Snapshot(), es) :: Exec(Snapshot(), es).delivered == old(delivered)
    {
      ghost var before := Snapshot();
      mQueue := [];
      Record(before, ClearQueue);
      forall es | Possible(Snapshot(), es) ensures Exec(Snapshot(), es).delivered == delivered {
        DeliveryEndsAtStop(history, es);
      }
    }

    /** ServiceBaseDeinit. */
    method StopService()
      requires Valid()
      modifies this
      ensures Snapshot() == Step(old(Snapshot()), StopWorkers)
      ensures Valid() && history == old(history) + [StopWorkers] && Sound()
      ensures forall es | Possible(Snapshot(), es) ::
        |Exec(Snapshot(), es).delivered| <= |old(delivered)| + |old(entering + sleeping + notified)|
    {
      ghost var before := Snapshot();
      workersStop := true;
      Record(before, StopWorkers);
      forall es | Possible(Snapshot(), es)
        ensures |Exec(Snapshot(), es).delivered| <= |delivered| + |entering + sleeping + notified|
      {
        DeliveriesAfterStopWorkers(Snapshot(), es);
      }
    }
  }
}
