/**
 The counting semaphore that parks fibers instead of threads. `Sem` is its value together with its
 history; the class is the object the source updates in place under its lock.
 */
module FiberSemaphores {
  import opened Options
  import opened RunQueues

  /**
   `concurrency` and `waiters` are the stored state. The rest is history: how many notifies there
   were, how many units were given out (`granted`), how many of the calls that were given a unit have
   come back to their caller (`completed`), and the waiters in order of arrival and of hand-off.
   */
  datatype Sem = Sem(initial: nat, concurrency: nat, waiters: seq<FiberId>,
                     notified: nat, granted: nat, completed: nat,
                     arrivals: seq<FiberId>, handed: seq<FiberId>)

  function NewSem(initial: nat): Sem {
    Sem(initial, initial, [], 0, 0, 0, [], [])
  }

  /** A unit is free: `wait` and `tryWait` take it at once. */
  function Acquire(m: Sem): Sem
    requires m.concurrency > 0
  {
    m.(concurrency := m.concurrency - 1, granted := m.granted + 1, completed := m.completed + 1)
  }

  /** No unit is free: `wait` queues the calling fiber. */
  function Park(m: Sem, f: FiberId): Sem
    requires m.concurrency == 0
  {
    m.(waiters := m.waiters + [f], arrivals := m.arrivals + [f])
  }

  /** `notify` gives its unit to the longest-waiting fiber, and only else to the count. */
  function Release(m: Sem): Sem {
    if m.waiters != [] then
      m.(waiters := m.waiters[1..], notified := m.notified + 1, granted := m.granted + 1,
         handed := m.handed + [m.waiters[0]])
    else
      m.(concurrency := m.concurrency + 1, notified := m.notified + 1)
  }

  /**
   Units are never both free and waited for, no unit appears or disappears, and units are handed to
   waiters exactly in the order of arrival.
   */
  ghost predicate Sound(m: Sem) {
    && (m.concurrency > 0 ==> m.waiters == [])
    && m.initial + m.notified == m.granted + m.concurrency
    && m.arrivals == m.handed + m.waiters
  }

  lemma SoundSteps(m: Sem, f: FiberId)
    requires Sound(m)
    ensures m.concurrency > 0 ==> Sound(Acquire(m))
    ensures m.concurrency == 0 ==> Sound(Park(m, f))
    ensures Sound(Release(m))
  {
    if m.waiters != [] {
      assert m.handed + m.waiters == (m.handed + [m.waiters[0]]) + m.waiters[1..];
    }
    if m.concurrency == 0 {
      assert m.handed + m.waiters + [f] == m.handed + (m.waiters + [f]);
    }
  }

  class FiberSemaphore {
    var concurrency: nat
    var waiters: seq<(RunQueue, FiberId)>
    ghost var history: Sem

    ghost predicate Valid()
      reads this
    {
      && history.concurrency == concurrency
      && history.waiters == Fibers(waiters)
      && Sound(history)
    }

    static function Fibers(ws: seq<(RunQueue, FiberId)>): (fs: seq<FiberId>)
      ensures |fs| == |ws| && forall i | 0 <= i < |ws| :: fs[i] == ws[i].1
    {
      seq(|ws|, i requires 0 <= i < |ws| => ws[i].1)
    }

    constructor (initialConcurrency: nat)
      ensures Valid() && history == NewSem(initialConcurrency)
    {
      concurrency, waiters := initialConcurrency, [];
      history := NewSem(initialConcurrency);
    }

    method TryWait() returns (acquired: bool)
      requires Valid()
      modifies this
      ensures Valid()
      ensures acquired <==> old(history).concurrency > 0
      ensures acquired ==> history == Acquire(old(history))
      ensures acquired <==> old(concurrency) > 0
      ensures concurrency == old(concurrency) - (if acquired then 1 else 0) && waiters == old(waiters)
      ensures !acquired ==> unchanged(this)
    {
      SoundSteps(history, 0);
      if concurrency > 0 {
        concurrency := concurrency - 1;
        history := Acquire(history);
        return true;
      }
      return false;
    }

    /** `parked` tells that the fiber was queued and must now yield; it is then on the list for `scheduler`. */
    method Wait(scheduler: RunQueue, current: FiberId) returns (parked: bool)
      requires Valid()
      modifies this
      ensures Valid()
      ensures parked <==> old(history).concurrency == 0
      ensures history == if parked then Park(old(history), current) else Acquire(old(history))
      ensures waiters == if parked then old(waiters) + [(scheduler, current)] else old(waiters)
      ensures if parked then concurrency == old(concurrency) == 0 else concurrency == old(concurrency) - 1
    {
      SoundSteps(history, current);
      if concurrency > 0 {
        concurrency := concurrency - 1;
        history := Acquire(history);
        return false;
      }
      waiters := waiters + [(scheduler, current)];
      history := Park(history, current);
      return true;
    }

    /** The front waiter, if any, is put unpinned on its own scheduler's list; no other list changes. */
    method Notify()
      requires Valid()
      requires forall w | w in waiters :: w.0.Valid()
      modifies this, (set w | w in waiters :: w.0)`fibers
      ensures Valid()
      ensures history == Release(old(history))
      ensures old(waiters) != [] ==>
                && waiters == old(waiters)[1..]
                && concurrency == old(concurrency)
                && old(waiters)[0].0.fibers == old(waiters[0].0.fibers) + [Entry(FiberTask(old(waiters)[0].1), None)]
      ensures old(waiters) == [] ==> waiters == [] && concurrency == old(concurrency) + 1
      ensures forall w | w in old(waiters) && (w.0 != old(waiters)[0].0) :: w.0.fibers == old(w.0.fibers)
    {
      SoundSteps(history, 0);
      if waiters != [] {
        var next := waiters[0];
        assert next in waiters;
        waiters := waiters[1..];
        history := Release(history);
        var _ := next.0.ScheduleNoLock(FiberTask(next.1), None);
      } else {
        concurrency := concurrency + 1;
        history := Release(history);
      }
    }
  }
}
