/**
 Fibers that are to be run again are found again. What is said here is read off the list, the states of the
 fibers and the places where they wait; none of it rests on the record of tickets.
 */
module SchedulerWakeups {
  import opened Options
  import opened RunQueues
  import opened FiberSemaphores
  import opened SchedulerProtocol
  import opened SchedulerSafety

  // ---------------------------------------------------------------- what each step does

  /** The list after a step. */
  function ListOf(s: State, a: Action): seq<Entry>
    requires Enabled(s, a)
  {
    match a
    case ScanTake(w) => s.queue[..s.pc[w].at] + s.queue[s.pc[w].at + 1..]
    case Settle(w) => s.queue + if s.st[s.pc[w].fiber] == READY then [Entry(FiberTask(s.pc[w].fiber), None)] else []
    case Wake(k, thread) => s.queue + [Entry(FiberTask(s.regs[k]), thread)]
    case SwitchTo(w, thread) => s.queue + [Entry(FiberTask(s.pc[w].fiber), thread)]
    case SemNotify(m) =>
      s.queue + if s.sems[m].waiters != [] then [Entry(FiberTask(s.sems[m].waiters[0]), None)] else []
    case ScheduleFiber(f, thread) => s.queue + [Entry(FiberTask(f), thread)]
    case ScheduleCb(cb, thread) => s.queue + [Entry(CallbackTask(cb), thread)]
    case _ => s.queue
  }

  /** The states of the fibers after a step. */
  function StatesOf(s: State, a: Action): map<FiberId, FiberState>
    requires Enabled(s, a)
  {
    match a
    case Enter(w) => s.st[s.pc[w].entry.task.fiber := RUNNING]
    case EnterCb(w, f) => s.st[f := RUNNING]
    case StoreState(w, x) => s.st[s.pc[w].fiber := x]
    case Settle(w) =>
      var f := s.pc[w].fiber;
      if s.st[f] == READY then s.st
      else if s.st[f] != END && s.st[f] != EXCEPT then s.st[f := HOLD]
      else if s.pc[w].byCb then s.st[f := INIT]
      else s.st
    case Create(f) => s.st[f := INIT]
    case _ => s.st
  }

  /** The registrations after a step. */
  function RegistrationsOf(s: State, a: Action): map<WakerKey, FiberId>
    requires Enabled(s, a)
  {
    match a
    case Register(w, k) => s.regs[k := s.pc[w].fiber]
    case Wake(k, _) => s.regs - {k}
    case Unregister(k) => s.regs - {k}
    case _ => s.regs
  }

  /** Who waits for a semaphore after a step. */
  function WaitersOf(s: State, a: Action, m: SemId): seq<FiberId>
    requires Enabled(s, a) && m in s.sems
  {
    match a
    case SemWait(w, m') =>
      s.sems[m].waiters + if m' == m && s.sems[m].concurrency == 0 then [s.pc[w].fiber] else []
    case SemNotify(m') => if m' == m && s.sems[m].waiters != [] then s.sems[m].waiters[1..] else s.sems[m].waiters
    case _ => s.sems[m].waiters
  }

  /** The free units of a semaphore after a step. */
  function UnitsOf(s: State, a: Action, m: SemId): int
    requires m in s.sems
  {
    s.sems[m].concurrency
    + (if a == SemNotify(m) && s.sems[m].waiters == [] then 1 else 0)
    - (if (a.SemWait? || a.SemTryWait?) && a.m == m && s.sems[m].concurrency > 0 then 1 else 0)
  }

  ghost predicate SemsDo(s: State, a: Action, s': State)
    requires Enabled(s, a)
  {
    forall m | m in s.sems ::
      m in s'.sems && s'.sems[m].waiters == WaitersOf(s, a, m) && s'.sems[m].concurrency == UnitsOf(s, a, m)
  }

  /** All of that. */
  ghost predicate Does(s: State, a: Action, s': State)
    requires Enabled(s, a)
  {
    && s'.queue == ListOf(s, a) && s'.st == StatesOf(s, a) && s'.regs == RegistrationsOf(s, a)
    && SemsDo(s, a, s')
  }

  lemma EnteredDoes(s: State, w: ThreadId, f: FiberId, byCb: bool)
    ensures var s' := Entered(s, w, f, byCb);
            && s'.queue == s.queue && s'.regs == s.regs && s'.st == s.st[f := RUNNING]
            && forall m | m in s.sems ::
                 && m in s'.sems && s'.sems[m].waiters == s.sems[m].waiters
                 && s'.sems[m].concurrency == s.sems[m].concurrency
  {
  }

  lemma PushDoes(s: State, task: Task, thread: Option<ThreadId>)
    requires !task.NoTask?
    ensures var s' := Push(s, task, thread);
            s'.queue == s.queue + [Entry(task, thread)] && s'.regs == s.regs && s'.st == s.st && s'.sems == s.sems
  {
  }

  lemma SettleDoes(s: State, w: ThreadId)
    requires CanSettle(s, w)
    ensures w in s.pc && s.pc[w].Settling? && s.pc[w].fiber in s.st
    ensures var s', f := DoSettle(s, w), s.pc[w].fiber;
            && s'.queue == s.queue + (if s.st[f] == READY then [Entry(FiberTask(f), None)] else [])
            && s'.regs == s.regs && s'.sems == s.sems
            && s'.st == if s.st[f] == READY then s.st
                        else if s.st[f] != END && s.st[f] != EXCEPT then s.st[f := HOLD]
                        else if s.pc[w].byCb then s.st[f := INIT]
                        else s.st
  {
    hide Push;
    if s.st[s.pc[w].fiber] == READY {
      PushDoes(Goto(Released(s, w), w, Top).(tickets := s.tickets + {s.pc[w].fiber}), FiberTask(s.pc[w].fiber), None);
    }
  }

  lemma ScanDoes(s: State, a: Action)
    requires Enabled(s, a) && ByScan(a)
    ensures Does(s, a, Apply(s, a))
  {
    hide SemsDo;
    SemsKept(s, a, Apply(s, a));
  }

  lemma WorkerDoes(s: State, a: Action)
    requires Enabled(s, a) && ByWorker(a)
    ensures Does(s, a, Apply(s, a))
  {
    hide Entered, DoSettle, CanSettle;
    match a {
      case Enter(w) => EnteredDoes(s, w, s.pc[w].entry.task.fiber, false);
      case EnterCb(w, f) => EnteredDoes(s.(cbFiber := s.cbFiber[w := f]), w, f, true);
      case Settle(w) => SettleDoes(s, w);
      case DropEnded(w) =>
    }
  }

  predicate BySem(a: Action) {
    a.SemWait? || a.SemTryWait? || a.SemNotify?
  }

  lemma WaitDoes(s: State, a: Action)
    requires Enabled(s, a) && (a.SemWait? || a.SemTryWait?)
    ensures Does(s, a, Apply(s, a))
  {
    hide SemsDo, Acquire, Park;
    if s.sems[a.m].concurrency > 0 {
      SemsAcquired(s, a, Apply(s, a));
    } else if a.SemWait? {
      SemsParked(s, a, Apply(s, a));
    } else {
      SemsKept(s, a, Apply(s, a));
    }
  }

  lemma SemsAcquired(s: State, a: Action, s': State)
    requires Enabled(s, a) && (a.SemWait? || a.SemTryWait?) && a.m in s.sems && s.sems[a.m].concurrency > 0
    requires s'.sems == s.sems[a.m := Acquire(s.sems[a.m])]
    ensures SemsDo(s, a, s')
  {
    hide Enabled;
  }

  lemma SemsParked(s: State, a: Action, s': State)
    requires Enabled(s, a) && a.SemWait? && a.m in s.sems && s.sems[a.m].concurrency == 0 && Running(s, a.w)
    requires s'.sems == s.sems[a.m := Park(s.sems[a.m], s.pc[a.w].fiber)]
    ensures SemsDo(s, a, s')
  {
    hide Enabled;
  }

  lemma SemsKept(s: State, a: Action, s': State)
    requires Enabled(s, a) && s'.sems == s.sems && !a.SemNotify?
    requires a.SemWait? || a.SemTryWait? ==> a.SemTryWait? && a.m in s.sems && s.sems[a.m].concurrency == 0
    ensures SemsDo(s, a, s')
  {
    hide Enabled;
  }

  lemma NotifyDoes(s: State, m: SemId)
    requires CanSemNotify(s, m)
    ensures Does(s, SemNotify(m), DoSemNotify(s, m))
  {
    hide Push, Release, SemsDo;
    if s.sems[m].waiters != [] {
      PushDoes(s.(sems := s.sems[m := Release(s.sems[m])]), FiberTask(s.sems[m].waiters[0]), None);
    }
    assert DoSemNotify(s, m).sems == s.sems[m := Release(s.sems[m])];
    SemsNotified(s, m, DoSemNotify(s, m));
  }

  lemma SemsNotified(s: State, m: SemId, s': State)
    requires CanSemNotify(s, m) && s'.sems == s.sems[m := Release(s.sems[m])]
    ensures SemsDo(s, SemNotify(m), s')
  {
  }

  lemma SemDoes(s: State, a: Action)
    requires Enabled(s, a) && BySem(a)
    ensures Does(s, a, Apply(s, a))
  {
    if a.SemNotify? {
      hide Does, DoSemNotify;
      NotifyDoes(s, a.m);
    } else {
      hide Enabled, Apply, Does;
      WaitDoes(s, a);
    }
  }

  lemma ClientDoes(s: State, a: Action)
    requires Enabled(s, a) && !ByScan(a) && !ByWorker(a) && !BySem(a)
    ensures Does(s, a, Apply(s, a))
  {
    hide Push, CanSchedule;
    match a {
      case Wake(k, thread) => PushDoes(s.(regs := s.regs - {k}), FiberTask(s.regs[k]), thread);
      case SwitchTo(w, thread) =>
        PushDoes(s.(tickets := s.tickets + {s.pc[w].fiber}), FiberTask(s.pc[w].fiber), thread);
      case ScheduleFiber(f, thread) => PushDoes(s.(tickets := s.tickets + {f}), FiberTask(f), thread);
      case ScheduleCb(cb, thread) => PushDoes(s, CallbackTask(cb), thread);
      case _ =>
    }
  }

  /** What each step does to the list, the states, the registrations and the semaphores. */
  lemma StepDoes(s: State, a: Action)
    requires Enabled(s, a)
    ensures Does(s, a, Apply(s, a))
  {
    hide Enabled, Apply, Does;
    if ByScan(a) {
      ScanDoes(s, a);
    } else if ByWorker(a) {
      WorkerDoes(s, a);
    } else if BySem(a) {
      SemDoes(s, a);
    } else {
      ClientDoes(s, a);
    }
  }

  // ---------------------------------------------------------------- the units of a semaphore

  /** How often `m` is notified in the first `n` steps. */
  function Notifies(run: seq<Action>, m: SemId, n: nat): nat
    requires n <= |run|
  {
    if n == 0 then 0 else Notifies(run, m, n - 1) + if run[n - 1] == SemNotify(m) then 1 else 0
  }

  /** A unit of `m` is given to somebody: to a caller that finds it free, or to the first who waits. */
  predicate Gives(s: State, a: Action, m: SemId) {
    && m in s.sems
    && if a == SemNotify(m) then s.sems[m].waiters != []
       else (a.SemWait? || a.SemTryWait?) && a.m == m && s.sems[m].concurrency > 0
  }

  ghost function Given(s0: State, run: seq<Action>, m: SemId, n: nat): nat
    requires Legal(s0, run) && n <= |run|
  {
    if n == 0 then 0
    else Given(s0, run, m, n - 1) + if Gives(StateAt(s0, run, n - 1), run[n - 1], m) then 1 else 0
  }

  /** Units are neither made nor lost: what was given out and what is free is what there was and the notifications. */
  lemma {:induction false} UnitsCounted(s0: State, run: seq<Action>, m: SemId, n: nat)
    requires Legal(s0, run) && n <= |run| && m in s0.sems
    ensures m in StateAt(s0, run, n).sems
    ensures Given(s0, run, m, n) + StateAt(s0, run, n).sems[m].concurrency ==
            s0.sems[m].concurrency + Notifies(run, m, n)
    decreases n
  {
    hide Enabled, Apply;
    if n > 0 {
      UnitsCounted(s0, run, m, n - 1);
      StepAt(s0, run, n - 1);
      StepDoes(StateAt(s0, run, n - 1), run[n - 1]);
    }
  }

  // ---------------------------------------------------------------- what is on the list stays to be found

  /** A worker has taken `f` off the list and not acted on it. */
  predicate Holding(s: State, w: ThreadId, f: FiberId) {
    w in s.pc && s.pc[w].Popped? && s.pc[w].entry.task == FiberTask(f)
  }

  /** `f` is on the list, or a worker has just taken it from there. */
  ghost predicate Found(s: State, f: FiberId) {
    (exists i: nat :: i < |s.queue| && s.queue[i].task == FiberTask(f)) || exists w :: Holding(s, w, f)
  }

  /** A worker enters `f`, or drops it because it has ended. */
  predicate Arrives(s: State, a: Action, f: FiberId) {
    (a.Enter? || a.DropEnded?) && Holding(s, a.w, f)
  }

  lemma HeldStays(s: State, a: Action, w: ThreadId, f: FiberId)
    requires Enabled(s, a) && Holding(s, w, f) && !Arrives(s, a, f)
    ensures Holding(Apply(s, a), w, f)
  {
    if (ByScan(a) || ByWorker(a)) && a.w == w {
      assert false;
    }
    hide Enabled, Apply;
    StepMoves(s, a);
  }

  lemma FoundStays(s: State, a: Action, f: FiberId)
    requires Enabled(s, a) && Found(s, f) && !Arrives(s, a, f)
    ensures Found(Apply(s, a), f)
  {
    hide Enabled, Apply;
    if w :| Holding(s, w, f) {
      HeldStays(s, a, w, f);
    } else {
      var i: nat :| i < |s.queue| && s.queue[i].task == FiberTask(f);
      var q, q' := s.queue, Apply(s, a).queue;
      StepMoves(s, a);
      if a.ScanTake? {
        var j := s.pc[a.w].at;
        if i == j {
          assert Holding(Apply(s, a), a.w, f);
        } else {
          assert q'[if i < j then i else i - 1] == q[i];
        }
      } else {
        assert q'[i] == q'[..|q|][i];
      }
    }
  }

  /** The steps that are to bring `f` back: whoever wakes it, and its own worker when it has yielded READY. */
  predicate Recalls(s: State, a: Action, f: FiberId) {
    match a
    case Wake(k, _) => k in s.regs && s.regs[k] == f
    case SemNotify(m) => m in s.sems && s.sems[m].waiters != [] && s.sems[m].waiters[0] == f
    case SwitchTo(w, _) => w in s.pc && s.pc[w].Executing? && s.pc[w].fiber == f
    case ScheduleFiber(f', _) => f' == f
    case Settle(w) => w in s.pc && s.pc[w].Settling? && s.pc[w].fiber == f && f in s.st && s.st[f] == READY
    case _ => false
  }

  lemma RecalledIsFound(s: State, a: Action, f: FiberId)
    requires Enabled(s, a) && Recalls(s, a, f)
    ensures Found(Apply(s, a), f)
  {
    StepDoes(s, a);
    hide Enabled, Apply;
    assert Apply(s, a).queue[|s.queue|].task == FiberTask(f);
  }

  /** A fiber that was recalled is on the list or in the hands of a worker until one enters it, or drops it ended. */
  lemma {:induction false} RecalledStays(s0: State, run: seq<Action>, i: nat, n: nat, f: FiberId)
    requires Legal(s0, run) && i < n <= |run| && Recalls(StateAt(s0, run, i), run[i], f)
    requires forall j | i < j < n :: !Arrives(StateAt(s0, run, j), run[j], f)
    ensures Found(StateAt(s0, run, n), f)
    decreases n
  {
    hide Enabled, Apply, Recalls, Arrives, Found;
    StepAt(s0, run, n - 1);
    if n == i + 1 {
      RecalledIsFound(StateAt(s0, run, i), run[i], f);
    } else {
      RecalledStays(s0, run, i, n - 1, f);
      FoundStays(StateAt(s0, run, n - 1), run[n - 1], f);
    }
  }

  // ---------------------------------------------------------------- who waits stays to be woken

  /** A registration lasts until it is woken or taken back. */
  lemma {:induction false} RegisteredStays(s0: State, run: seq<Action>, i: nat, n: nat, k: WakerKey)
    requires Legal(s0, run) && i < n <= |run| && run[i].Register? && run[i].k == k
    requires forall j | i < j < n :: !(run[j].Wake? && run[j].k == k) && !(run[j].Unregister? && run[j].k == k)
    ensures var s, w := StateAt(s0, run, i), run[i].w;
            && w in s.pc && s.pc[w].Executing?
            && k in StateAt(s0, run, n).regs && StateAt(s0, run, n).regs[k] == s.pc[w].fiber
    decreases n
  {
    var s := StateAt(s0, run, n - 1);
    StepAt(s0, run, n - 1);
    StepDoes(s, run[n - 1]);
    if n > i + 1 {
      hide Enabled, Apply;
      RegisteredStays(s0, run, i, n - 1, k);
    }
  }

  /** Who is parked in a semaphore stays until a notification finds it first. */
  lemma {:induction false} ParkedStays(s0: State, run: seq<Action>, i: nat, n: nat, m: SemId)
    requires Legal(s0, run) && i < n <= |run| && run[i].SemWait? && run[i].m == m
    requires var s := StateAt(s0, run, i);
             m in s.sems && s.sems[m].concurrency == 0 && run[i].w in s.pc && s.pc[run[i].w].Executing?
    requires var f := StateAt(s0, run, i).pc[run[i].w].fiber;
             forall j | i < j < n :: !(run[j] == SemNotify(m) && Recalls(StateAt(s0, run, j), run[j], f))
    ensures var f := StateAt(s0, run, i).pc[run[i].w].fiber;
            m in StateAt(s0, run, n).sems && f in StateAt(s0, run, n).sems[m].waiters
    decreases n
  {
    var s := StateAt(s0, run, n - 1);
    StepAt(s0, run, n - 1);
    hide Enabled, Apply, ListOf, StatesOf, RegistrationsOf, UnitsOf;
    if n > i + 1 {
      ParkedStays(s0, run, i, n - 1, m);
    }
    StepDoes(s, run[n - 1]);
  }

  // ---------------------------------------------------------------- fibers that have yielded READY

  predicate IsReady(s: State, f: FiberId) {
    f in s.st && s.st[f] == READY
  }

  /** A fiber that has yielded READY is still on its worker's stack, on the list, or taken from there. */
  ghost predicate ReadyFound(s: State) {
    forall f | IsReady(s, f) :: Owned(s, f) || Found(s, f)
  }

  lemma OwnerStays(s: State, a: Action, w: ThreadId, f: FiberId)
    requires Enabled(s, a) && Owns(s, w, f) && a != Settle(w)
    ensures Owns(Apply(s, a), w, f)
  {
    if ByScan(a) && a.w == w {
      ScanMoves(s, a);
      hide Apply;
      assert OnStack(Apply(s, a).pc[w]) && Apply(s, a).pc[w].fiber == f by {
        OnStackStays(s, a);
      }
    } else if ByWorker(a) && a.w == w {
      assert false;
    } else {
      hide Enabled, Apply;
      StepMoves(s, a);
    }
  }

  lemma OnStackStays(s: State, a: Action)
    requires Enabled(s, a) && ByScan(a) && a.w in s.pc && OnStack(s.pc[a.w])
    ensures a.w in Apply(s, a).pc && OnStack(Apply(s, a).pc[a.w]) && Apply(s, a).pc[a.w].fiber == s.pc[a.w].fiber
  {
  }

  lemma StoresReady(s: State, a: Action, f: FiberId)
    requires Enabled(s, a) && a.StoreState? && f == s.pc[a.w].fiber
    ensures Owned(Apply(s, a), f)
  {
    assert Owns(Apply(s, a), a.w, f);
  }

  /** Whoever enters a fiber makes it RUNNING, and one that is dropped has ended. */
  lemma ReadyHasNotArrived(s: State, a: Action, f: FiberId)
    requires Enabled(s, a) && f in s.st && s.st[f] == READY && Arrives(s, a, f)
    ensures Apply(s, a).st[f] == RUNNING
  {
  }

  lemma WasReady(s: State, a: Action, f: FiberId)
    requires Enabled(s, a) && f in Apply(s, a).st && Apply(s, a).st[f] == READY
    ensures (a.StoreState? && f == s.pc[a.w].fiber) || (f in s.st && s.st[f] == READY)
  {
    StepDoes(s, a);
    hide Apply;
  }

  lemma ReadyStep(s: State, a: Action, f: FiberId)
    requires ReadyFound(s) && Enabled(s, a) && IsReady(Apply(s, a), f)
    ensures Owned(Apply(s, a), f) || Found(Apply(s, a), f)
  {
    WasReady(s, a, f);
    if a.StoreState? && f == s.pc[a.w].fiber {
      StoresReady(s, a, f);
    } else {
      hide Apply, Found, Arrives;
      if Owned(s, f) {
        var w :| Owns(s, w, f);
        if a == Settle(w) {
          RecalledIsFound(s, a, f);
        } else {
          OwnerStays(s, a, w, f);
        }
      } else {
        if Arrives(s, a, f) {
          ReadyHasNotArrived(s, a, f);
        }
        FoundStays(s, a, f);
      }
    }
  }

  lemma {:induction false} ReadyIsFound(s0: State, run: seq<Action>, n: nat)
    requires Init(s0) && Legal(s0, run) && n <= |run|
    ensures ReadyFound(StateAt(s0, run, n))
    decreases n
  {
    if n > 0 {
      hide Enabled, Apply, Owned, Found;
      var s, s' := StateAt(s0, run, n - 1), StateAt(s0, run, n);
      ReadyIsFound(s0, run, n - 1);
      StepAt(s0, run, n - 1);
      forall f | IsReady(s', f) ensures Owned(s', f) || Found(s', f) {
        ReadyStep(s, run[n - 1], f);
      }
    }
  }
}
