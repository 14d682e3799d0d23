/**
 The hand-over of fibers between worker threads, as a transition system. Each step is one atomic
 action of the source: examining one list entry under the lock, storing one fiber state, or leaving a
 fiber's stack. Any number of threads and fibers interleave freely.

 Between a fiber's last instruction and the moment its worker is off its stack, another thread may
 already find it on the list. What keeps it from being entered twice is the state RUNNING, which its
 worker replaces by HOLD only after the switch.
 */
module SchedulerProtocol {
  import opened Options
  import opened RunQueues
  import opened FiberSemaphores

  type SemId = nat
  /** A place a fiber can register itself to be woken from: an fd/event context or a sleep timer. */
  type WakerKey = nat

  datatype Pc =
    | Top                                        // about to lock the list
    | Scanning(at: nat)                          // holds the lock, next looks at entry `at`
    | Popped(entry: Entry)                       // took an entry, has not acted on it
    | Executing(fiber: FiberId, byCb: bool)      // on the fiber's stack; `byCb`: it is this worker's cb_fiber
    | Leaving(fiber: FiberId, byCb: bool)        // state READY/END/EXCEPT stored, still on the fiber's stack
    | Returned(fiber: FiberId, byCb: bool)       // swapIn has returned, entry still counted as active
    | Settling(fiber: FiberId, byCb: bool)       // no longer counted, about to inspect the fiber's state

  /**
   `tickets`: the fibers that are registered with a waker or have a wake-up under way. It is a record
   of the clients' doing; `Ticketed` below ties it to where each such fiber is actually found.
   `blocked`: the semaphore each fiber is inside `wait` of. `scheduled` and `retired` count entries.
   */
  datatype State = State(
    queue: seq<Entry>, lock: Option<ThreadId>, active: int,
    st: map<FiberId, FiberState>, pc: map<ThreadId, Pc>, cbFiber: map<ThreadId, FiberId>,
    sems: map<SemId, Sem>, regs: map<WakerKey, FiberId>,
    tickets: set<FiberId>, blocked: map<FiberId, SemId>,
    scheduled: nat, retired: nat)

  // ---------------------------------------------------------------- where fibers are

  datatype Loc = InQueue(i: nat) | InWorker(w: ThreadId) | InSem(m: SemId, j: nat) | InReg(k: WakerKey)

  /** What `w` has taken off the list and not acted on. */
  function PoppedBy(s: State, w: ThreadId): Task {
    if w in s.pc && s.pc[w].Popped? then s.pc[w].entry.task else NoTask
  }

  /** A ticket for `f` is found at `l`. */
  predicate At(s: State, l: Loc, f: FiberId) {
    match l
    case InQueue(i) => i < |s.queue| && s.queue[i].task == FiberTask(f)
    case InWorker(w) => PoppedBy(s, w) == FiberTask(f)
    case InSem(m, j) => m in s.sems && j < |s.sems[m].waiters| && s.sems[m].waiters[j] == f
    case InReg(k) => k in s.regs && s.regs[k] == f
  }

  predicate OnStack(p: Pc) {
    p.Executing? || p.Leaving? || p.Returned? || p.Settling?
  }

  /** The fiber `w` is responsible for: it runs on it, or has not yet dealt with its return. */
  function OwnedBy(s: State, w: ThreadId): Option<FiberId> {
    if w in s.pc && OnStack(s.pc[w]) then Some(s.pc[w].fiber) else None
  }

  predicate Owns(s: State, w: ThreadId, f: FiberId) {
    OwnedBy(s, w) == Some(f)
  }

  ghost predicate Owned(s: State, f: FiberId) {
    exists w :: Owns(s, w, f)
  }

  predicate HoldsEntry(p: Pc) {
    p.Popped? || p.Executing? || p.Leaving? || p.Returned?
  }

  function Holders(s: State): set<ThreadId> {
    set w | w in s.pc && HoldsEntry(s.pc[w])
  }

  // ---------------------------------------------------------------- the steps

  datatype Action =
    | ScanStart(w: ThreadId) | ScanSkip(w: ThreadId) | ScanTake(w: ThreadId) | ScanEnd(w: ThreadId)
    | Enter(w: ThreadId) | DropEnded(w: ThreadId) | EnterCb(w: ThreadId, f: FiberId)
    | StoreState(w: ThreadId, x: FiberState) | SwitchOut(w: ThreadId)
    | Uncount(w: ThreadId) | Settle(w: ThreadId)
    | Register(w: ThreadId, k: WakerKey) | Wake(k: WakerKey, thread: Option<ThreadId>) | Unregister(k: WakerKey)
    | SwitchTo(w: ThreadId, thread: Option<ThreadId>)
    | SemTryWait(w: ThreadId, m: SemId) | SemWait(w: ThreadId, m: SemId) | SemNotify(m: SemId)
    | Create(f: FiberId) | ScheduleFiber(f: FiberId, thread: Option<ThreadId>)
    | ScheduleCb(cb: Callback, thread: Option<ThreadId>)

  predicate Finished(x: FiberState) {
    x == END || x == EXCEPT
  }

  // ---------------------------------------------------------------- worker steps

  /** Worker `w` goes on to `p`. */
  function Goto(s: State, w: ThreadId, p: Pc): State {
    s.(pc := s.pc[w := p])
  }

  predicate CanScan(s: State, w: ThreadId) {
    w in s.pc && s.pc[w].Top? && s.lock.None?
  }

  function DoScanStart(s: State, w: ThreadId): State {
    Goto(s, w, Scanning(0)).(lock := Some(w))
  }

  predicate Looking(s: State, w: ThreadId) {
    w in s.pc && s.pc[w].Scanning? && s.pc[w].at < |s.queue|
  }

  predicate CanSkip(s: State, w: ThreadId) {
    Looking(s, w) && !Eligible(s.queue[s.pc[w].at], w, s.st)
  }

  function DoSkip(s: State, w: ThreadId): State
    requires CanSkip(s, w)
  {
    Goto(s, w, Scanning(s.pc[w].at + 1))
  }

  predicate CanTake(s: State, w: ThreadId) {
    Looking(s, w) && Eligible(s.queue[s.pc[w].at], w, s.st)
  }

  function DoTake(s: State, w: ThreadId): State
    requires CanTake(s, w)
  {
    var i := s.pc[w].at;
    Goto(s, w, Popped(s.queue[i])).(queue := RemoveAt(s.queue, i), lock := None, active := s.active + 1)
  }

  predicate CanScanEnd(s: State, w: ThreadId) {
    w in s.pc && s.pc[w].Scanning? && s.pc[w].at == |s.queue|
  }

  function DoScanEnd(s: State, w: ThreadId): State {
    Goto(s, w, Top).(lock := None)
  }

  predicate HasFiber(s: State, w: ThreadId) {
    w in s.pc && s.pc[w].Popped? && s.pc[w].entry.task.FiberTask? && s.pc[w].entry.task.fiber in s.st
  }

  predicate CanEnter(s: State, w: ThreadId) {
    HasFiber(s, w) && !Finished(s.st[s.pc[w].entry.task.fiber])
  }

  /** A fiber is switched to: the wake-up that led here is used up, and a `wait` it was in returns. */
  function Entered(s: State, w: ThreadId, f: FiberId, byCb: bool): State {
    var s := Goto(s, w, Executing(f, byCb)).(st := s.st[f := RUNNING], tickets := s.tickets - {f});
    if f in s.blocked && s.blocked[f] in s.sems then
      var m := s.blocked[f];
      s.(blocked := s.blocked - {f}, sems := s.sems[m := s.sems[m].(completed := s.sems[m].completed + 1)])
    else s
  }

  function DoEnter(s: State, w: ThreadId): State
    requires CanEnter(s, w)
  {
    Entered(s, w, s.pc[w].entry.task.fiber, false)
  }

  predicate CanDrop(s: State, w: ThreadId) {
    HasFiber(s, w) && Finished(s.st[s.pc[w].entry.task.fiber])
  }

  /** An entry for a fiber that has already ended is dropped unrun. */
  function DoDrop(s: State, w: ThreadId): State
    requires CanDrop(s, w)
  {
    Goto(s, w, Top).(active := s.active - 1, retired := s.retired + 1,
                     tickets := s.tickets - {s.pc[w].entry.task.fiber})
  }

  /** A callback is run on the fiber the worker kept from an earlier callback, or on a new one. */
  predicate CanEnterCb(s: State, w: ThreadId, f: FiberId) {
    && w in s.pc && s.pc[w].Popped? && s.pc[w].entry.task.CallbackTask?
    && (if w in s.cbFiber then f == s.cbFiber[w] else f !in s.st)
  }

  function DoEnterCb(s: State, w: ThreadId, f: FiberId): State {
    Entered(s.(cbFiber := s.cbFiber[w := f]), w, f, true)
  }

  predicate Running(s: State, w: ThreadId) {
    w in s.pc && s.pc[w].Executing?
  }

  predicate CanStore(s: State, w: ThreadId, x: FiberState) {
    Running(s, w) && (x == READY || Finished(x)) && s.pc[w].fiber !in s.tickets
  }

  function DoStore(s: State, w: ThreadId, x: FiberState): State
    requires CanStore(s, w, x)
  {
    Goto(s, w, Leaving(s.pc[w].fiber, s.pc[w].byCb)).(st := s.st[s.pc[w].fiber := x])
  }

  /** Off the fiber's stack; a fiber that just yields is still RUNNING here. */
  predicate CanSwitchOut(s: State, w: ThreadId) {
    w in s.pc && (s.pc[w].Executing? || s.pc[w].Leaving?)
  }

  function DoSwitchOut(s: State, w: ThreadId): State
    requires CanSwitchOut(s, w)
  {
    Goto(s, w, Returned(s.pc[w].fiber, s.pc[w].byCb))
  }

  predicate CanUncount(s: State, w: ThreadId) {
    w in s.pc && s.pc[w].Returned?
  }

  function DoUncount(s: State, w: ThreadId): State
    requires CanUncount(s, w)
  {
    Goto(s, w, Settling(s.pc[w].fiber, s.pc[w].byCb)).(active := s.active - 1, retired := s.retired + 1)
  }

  predicate CanSettle(s: State, w: ThreadId) {
    && w in s.pc && s.pc[w].Settling? && s.pc[w].fiber in s.st
    && (s.st[s.pc[w].fiber] == READY ==> s.lock.None?)
  }

  /** A callback fiber that has not ended is no longer kept. */
  function Released(s: State, w: ThreadId): State
    requires w in s.pc && OnStack(s.pc[w])
  {
    if s.pc[w].byCb then s.(cbFiber := s.cbFiber - {w}) else s
  }

  /**
   What the worker does with a fiber that came back: READY is scheduled again, a finished callback
   fiber is kept for reuse, and anything else, being still RUNNING, becomes HOLD.
   */
  function DoSettle(s: State, w: ThreadId): State
    requires CanSettle(s, w)
  {
    var f := s.pc[w].fiber;
    if s.st[f] == READY then Push(Goto(Released(s, w), w, Top).(tickets := s.tickets + {f}), FiberTask(f), None)
    else if !Finished(s.st[f]) then Goto(Released(s, w), w, Top).(st := s.st[f := HOLD])
    else if s.pc[w].byCb then Goto(s, w, Top).(st := s.st[f := INIT])
    else Goto(s, w, Top)
  }

  // ---------------------------------------------------------------- client and waker steps

  /** The entry scheduled for `f` (or a callback) goes to the end of the list; the lock must be free. */
  function Push(s: State, task: Task, thread: Option<ThreadId>): State {
    s.(queue := Scheduled(s.queue, task, thread), scheduled := s.scheduled + 1)
  }

  predicate CanRegister(s: State, w: ThreadId, k: WakerKey) {
    Running(s, w) && s.pc[w].fiber !in s.tickets && k !in s.regs
  }

  function DoRegister(s: State, w: ThreadId, k: WakerKey): State
    requires CanRegister(s, w, k)
  {
    s.(regs := s.regs[k := s.pc[w].fiber], tickets := s.tickets + {s.pc[w].fiber})
  }

  predicate CanWake(s: State, k: WakerKey) {
    k in s.regs && s.lock.None?
  }

  function DoWake(s: State, k: WakerKey, thread: Option<ThreadId>): State
    requires CanWake(s, k)
  {
    Push(s.(regs := s.regs - {k}), FiberTask(s.regs[k]), thread)
  }

  function DoUnregister(s: State, k: WakerKey): State
    requires k in s.regs
  {
    s.(regs := s.regs - {k}, tickets := s.tickets - {s.regs[k]})
  }

  predicate CanSwitchTo(s: State, w: ThreadId) {
    Running(s, w) && s.pc[w].fiber !in s.tickets && s.lock.None?
  }

  /** The running fiber puts itself on the list, for `thread`, before it yields. */
  function DoSwitchTo(s: State, w: ThreadId, thread: Option<ThreadId>): State
    requires CanSwitchTo(s, w)
  {
    Push(s.(tickets := s.tickets + {s.pc[w].fiber}), FiberTask(s.pc[w].fiber), thread)
  }

  predicate CanSemTryWait(s: State, w: ThreadId, m: SemId) {
    Running(s, w) && m in s.sems && s.pc[w].fiber !in s.blocked
  }

  function DoSemTryWait(s: State, m: SemId): State
    requires m in s.sems
  {
    if s.sems[m].concurrency > 0 then s.(sems := s.sems[m := Acquire(s.sems[m])]) else s
  }

  predicate CanSemWait(s: State, w: ThreadId, m: SemId) {
    CanSemTryWait(s, w, m) && (s.sems[m].concurrency == 0 ==> s.pc[w].fiber !in s.tickets)
  }

  function DoSemWait(s: State, w: ThreadId, m: SemId): State
    requires CanSemWait(s, w, m)
  {
    if s.sems[m].concurrency > 0 then s.(sems := s.sems[m := Acquire(s.sems[m])])
    else
      var f := s.pc[w].fiber;
      s.(sems := s.sems[m := Park(s.sems[m], f)], tickets := s.tickets + {f}, blocked := s.blocked[f := m])
  }

  predicate CanSemNotify(s: State, m: SemId) {
    m in s.sems && s.lock.None?
  }

  function DoSemNotify(s: State, m: SemId): State
    requires CanSemNotify(s, m)
  {
    var s1 := s.(sems := s.sems[m := Release(s.sems[m])]);
    if s.sems[m].waiters != [] then Push(s1, FiberTask(s.sems[m].waiters[0]), None) else s1
  }

  /** A fiber that nobody runs, keeps or is going to wake may be scheduled from outside. */
  ghost predicate CanSchedule(s: State, f: FiberId) {
    f in s.st && f !in s.tickets && !Owned(s, f) && (forall w | w in s.cbFiber :: s.cbFiber[w] != f) && s.lock.None?
  }

  function DoSchedule(s: State, f: FiberId, thread: Option<ThreadId>): State {
    Push(s.(tickets := s.tickets + {f}), FiberTask(f), thread)
  }

  // ---------------------------------------------------------------- all steps together

  /**
   When an action may happen. For the worker's own steps this is the program order and the branch
   conditions. For the clients' steps it also holds the rule they have to keep: a fiber registers
   itself, or stores READY or END, only while it has no registration and no wake-up under way.
   */
  ghost predicate Enabled(s: State, a: Action) {
    match a
    case ScanStart(w) => CanScan(s, w)
    case ScanSkip(w) => CanSkip(s, w)
    case ScanTake(w) => CanTake(s, w)
    case ScanEnd(w) => CanScanEnd(s, w)
    case Enter(w) => CanEnter(s, w)
    case DropEnded(w) => CanDrop(s, w)
    case EnterCb(w, f) => CanEnterCb(s, w, f)
    case StoreState(w, x) => CanStore(s, w, x)
    case SwitchOut(w) => CanSwitchOut(s, w)
    case Uncount(w) => CanUncount(s, w)
    case Settle(w) => CanSettle(s, w)
    case Register(w, k) => CanRegister(s, w, k)
    case Wake(k, _) => CanWake(s, k)
    case Unregister(k) => k in s.regs
    case SwitchTo(w, _) => CanSwitchTo(s, w)
    case SemTryWait(w, m) => CanSemTryWait(s, w, m)
    case SemWait(w, m) => CanSemWait(s, w, m)
    case SemNotify(m) => CanSemNotify(s, m)
    case Create(f) => f !in s.st
    case ScheduleFiber(f, _) => CanSchedule(s, f)
    case ScheduleCb(_, _) => s.lock.None?
  }

  function Apply(s: State, a: Action): State
    requires Enabled(s, a)
  {
    match a
    case ScanStart(w) => DoScanStart(s, w)
    case ScanSkip(w) => DoSkip(s, w)
    case ScanTake(w) => DoTake(s, w)
    case ScanEnd(w) => DoScanEnd(s, w)
    case Enter(w) => DoEnter(s, w)
    case DropEnded(w) => DoDrop(s, w)
    case EnterCb(w, f) => DoEnterCb(s, w, f)
    case StoreState(w, x) => DoStore(s, w, x)
    case SwitchOut(w) => DoSwitchOut(s, w)
    case Uncount(w) => DoUncount(s, w)
    case Settle(w) => DoSettle(s, w)
    case Register(w, k) => DoRegister(s, w, k)
    case Wake(k, thread) => DoWake(s, k, thread)
    case Unregister(k) => DoUnregister(s, k)
    case SwitchTo(w, thread) => DoSwitchTo(s, w, thread)
    case SemTryWait(_, m) => DoSemTryWait(s, m)
    case SemWait(w, m) => DoSemWait(s, w, m)
    case SemNotify(m) => DoSemNotify(s, m)
    case Create(f) => s.(st := s.st[f := INIT])
    case ScheduleFiber(f, thread) => DoSchedule(s, f, thread)
    case ScheduleCb(cb, thread) => Push(s, CallbackTask(cb), thread)
  }

  // ---------------------------------------------------------------- runs

  /** Threads about to look for work, no fiber known to anyone, semaphores unused. */
  ghost predicate Init(s: State) {
    && s.queue == [] && s.lock.None? && s.active == 0
    && (forall f | f in s.st :: s.st[f] == INIT)
    && (forall w | w in s.pc :: s.pc[w].Top?)
    && s.cbFiber == map[] && s.regs == map[] && s.tickets == {} && s.blocked == map[]
    && (forall m | m in s.sems :: s.sems[m] == NewSem(s.sems[m].initial))
    && s.scheduled == 0 && s.retired == 0
  }

  ghost predicate Legal(s: State, run: seq<Action>)
    decreases |run|
  {
    run != [] ==> Enabled(s, run[0]) && Legal(Apply(s, run[0]), run[1..])
  }

  function After(s: State, run: seq<Action>): State
    requires Legal(s, run)
    decreases |run|
  {
    if run == [] then s else After(Apply(s, run[0]), run[1..])
  }
}
