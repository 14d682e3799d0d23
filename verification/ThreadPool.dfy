/**
 The thread pool as a transition system: a queue under a lock, a counting semaphore, and the owner's
 protocol for starting and shutting down. Each step is one atomic action of the source.
 */
module ThreadPools {

  type Task = nat
  type Client = nat

  datatype Phase = STOP | RUNNING | STOPPING

  datatype Worker =
    | Waiting              // in the semaphore's wait
    | Woken                // has taken a token, has not locked the queue yet
    | Running(task: Task)
    | Exited

  /** Where the owner is: in `init`, between `init` and the destructor, or in the destructor. */
  datatype Owner = Fresh | Creating | Open | Signalling | Joining(next: nat) | Gone

  /**
   `count` is the number of threads asked for. A client in `checked` has seen RUNNING and is going to push
   its task; one in `pushed` has pushed and is going to notify. `unsent` are the stop signals still to be
   sent. `crashed`: an empty queue was popped. `enqueued`, `taken` and `done` record what happened.
   */
  datatype Pool = Pool(
    count: nat, phase: Phase, owner: Owner, workers: seq<Worker>,
    queue: seq<Task>, tokens: nat, unsent: nat,
    checked: map<Client, Task>, pushed: set<Client>, crashed: bool,
    enqueued: seq<Task>, taken: seq<Task>, done: multiset<Task>)

  function NewPool(count: nat): Pool {
    Pool(count, STOP, Fresh, [], [], 0, 0, map[], {}, false, [], [], multiset{})
  }

  datatype Step =
    | InitStep | Spawn | InitEnd
    | BeginStop | Signal | SignalsSent | Join | Destroyed
    | Wake(w: nat) | Acquire(w: nat) | Finish(w: nat)
    | Check(c: Client, t: Task) | Push(c: Client) | Notify(c: Client)

  predicate WorkerAt(p: Pool, w: nat, x: Worker) {
    w < |p.workers| && p.workers[w] == x
  }

  /**
   When a step may happen: program order, blocking in `wait` and `join`, and the one rule for callers, that
   the destructor does not start while an `enqueue` is under way.
   */
  predicate Enabled(p: Pool, a: Step) {
    match a
    case InitStep => p.owner.Fresh? || p.owner.Open?
    case Spawn => p.owner.Creating? && |p.workers| < p.count
    case InitEnd => p.owner.Creating? && |p.workers| == p.count
    case BeginStop => (p.owner.Fresh? || p.owner.Open?) && p.checked == map[] && p.pushed == {}
    case Signal => p.owner.Signalling? && p.unsent > 0
    case SignalsSent => p.owner.Signalling? && p.unsent == 0
    case Join => p.owner.Joining? && WorkerAt(p, p.owner.next, Exited)
    case Destroyed => p.owner.Joining? && p.owner.next == |p.workers|
    case Wake(w) => WorkerAt(p, w, Waiting) && p.tokens > 0
    case Acquire(w) => WorkerAt(p, w, Woken)
    case Finish(w) => w < |p.workers| && p.workers[w].Running?
    case Check(c, _) => c !in p.checked && c !in p.pushed
    case Push(c) => c in p.checked
    case Notify(c) => c in p.pushed
  }

  function Goto(p: Pool, w: nat, x: Worker): Pool
    requires w < |p.workers|
  {
    p.(workers := p.workers[w := x])
  }

  /** A woken worker locks the queue: it leaves, or takes the front task. */
  function DoAcquire(p: Pool, w: nat): Pool
    requires w < |p.workers|
  {
    if p.phase == STOPPING && p.queue == [] then Goto(p, w, Exited)
    else if p.phase == STOP then Goto(p, w, Exited)
    else if p.queue == [] then Goto(p, w, Exited).(crashed := true)
    else Goto(p, w, Running(p.queue[0])).(queue := p.queue[1..], taken := p.taken + [p.queue[0]])
  }

  function Apply(p: Pool, a: Step): Pool
    requires Enabled(p, a)
  {
    match a
    case InitStep => if p.phase != STOP then p else p.(phase := RUNNING, owner := Creating)
    case Spawn => p.(workers := p.workers + [Waiting])
    case InitEnd => p.(owner := Open)
    case BeginStop =>
      if p.phase != RUNNING then p.(owner := Gone)
      else p.(phase := STOPPING, owner := Signalling, unsent := |p.workers|)
    case Signal => p.(unsent := p.unsent - 1, tokens := p.tokens + 1)
    case SignalsSent => p.(owner := Joining(0))
    case Join => p.(owner := Joining(p.owner.next + 1))
    case Destroyed => p.(phase := STOP, owner := Gone)
    case Wake(w) => Goto(p, w, Woken).(tokens := p.tokens - 1)
    case Acquire(w) => DoAcquire(p, w)
    case Finish(w) => Goto(p, w, Waiting).(done := p.done + multiset{p.workers[w].task})
    case Check(c, t) => if p.phase == RUNNING then p.(checked := p.checked[c := t]) else p
    case Push(c) =>
      p.(checked := p.checked - {c}, pushed := p.pushed + {c},
         queue := p.queue + [p.checked[c]], enqueued := p.enqueued + [p.checked[c]])
    case Notify(c) => p.(pushed := p.pushed - {c}, tokens := p.tokens + 1)
  }

  // ---------------------------------------------------------------- counting workers

  predicate Alive(x: Worker) { !x.Exited? }

  predicate IsWoken(x: Worker) { x.Woken? }

  function Number(ws: seq<Worker>, p: Worker -> bool): nat {
    if ws == [] then 0 else (if p(ws[0]) then 1 else 0) + Number(ws[1..], p)
  }

  /** The task in a worker's hands. */
  function Hand(x: Worker): multiset<Task> {
    if x.Running? then multiset{x.task} else multiset{}
  }

  function InHand(ws: seq<Worker>): multiset<Task> {
    if ws == [] then multiset{} else Hand(ws[0]) + InHand(ws[1..])
  }

  lemma {:induction false} NumberAfter(ws: seq<Worker>, w: nat, x: Worker, p: Worker -> bool)
    requires w < |ws|
    ensures Number(ws[w := x], p) == Number(ws, p) - (if p(ws[w]) then 1 else 0) + (if p(x) then 1 else 0)
  {
    if w > 0 {
      NumberAfter(ws[1..], w - 1, x, p);
      assert ws[w := x][1..] == ws[1..][w - 1 := x];
    } else {
      assert ws[0 := x][1..] == ws[1..];
    }
  }

  lemma {:induction false} InHandAfter(ws: seq<Worker>, w: nat, x: Worker)
    requires w < |ws|
    ensures Hand(ws[w]) <= InHand(ws)
    ensures InHand(ws[w := x]) == InHand(ws) - Hand(ws[w]) + Hand(x)
  {
    hide Hand;
    if w > 0 {
      InHandAfter(ws[1..], w - 1, x);
      assert ws[w := x][1..] == ws[1..][w - 1 := x];
    } else {
      assert ws[0 := x][1..] == ws[1..];
    }
  }

  lemma {:induction false} OneMore(ws: seq<Worker>, p: Worker -> bool)
    ensures Number(ws + [Waiting], p) == Number(ws, p) + if p(Waiting) then 1 else 0
    ensures InHand(ws + [Waiting]) == InHand(ws)
  {
    if ws != [] {
      OneMore(ws[1..], p);
      assert (ws + [Waiting])[1..] == ws[1..] + [Waiting];
    }
  }

  predicate IsRunning(x: Worker) { x.Running? }

  /** Every worker is of one kind; only those that are not of the kind `p` are left out. */
  lemma {:induction false} NumberIsAll(ws: seq<Worker>, p: Worker -> bool)
    ensures Number(ws, p) <= |ws|
    ensures Number(ws, p) == |ws| <==> forall i | 0 <= i < |ws| :: p(ws[i])
    ensures Number(ws, p) == 0 <==> forall i | 0 <= i < |ws| :: !p(ws[i])
  {
    if ws != [] {
      NumberIsAll(ws[1..], p);
      assert forall i | 0 < i < |ws| :: ws[i] == ws[1..][i - 1];
      assert forall i | 0 <= i < |ws| - 1 :: ws[1..][i] == ws[i + 1];
    }
  }

  // ---------------------------------------------------------------- the invariant

  /** Where the owner is decides what it has set up. */
  predicate OwnerInv(p: Pool) {
    match p.owner
    case Fresh => p.phase == STOP && p.workers == [] && p.checked == map[] && p.pushed == {} && p.enqueued == []
      && p.tokens == 0 == p.unsent
    case Creating => p.phase == RUNNING && |p.workers| <= p.count
    case Open => p.phase == RUNNING && |p.workers| == p.count
    case Signalling => p.phase == STOPPING && |p.workers| == p.count
    case Joining(next) => p.phase == STOPPING && |p.workers| == p.count && p.unsent == 0 && next <= p.count
    case Gone => p.phase == STOP && ((p.workers == [] && p.enqueued == []) || |p.workers| == p.count)
  }

  /** The workers joined so far have exited; in the end all of them. */
  predicate JoinInv(p: Pool) {
    && (p.owner.Joining? ==> forall i | 0 <= i < p.owner.next && i < |p.workers| :: p.workers[i].Exited?)
    && (p.owner.Gone? ==> Number(p.workers, Alive) == 0)
  }

  /**
   The semaphore's tokens, with those under way, stand for the queued tasks; once the pool is stopping, for
   the workers still there as well.
   */
  predicate TokenInv(p: Pool) {
    && (p.phase == RUNNING ==>
        Number(p.workers, Alive) == |p.workers| && p.unsent == 0
        && p.tokens + Number(p.workers, IsWoken) + |p.pushed| == |p.queue|)
    && (p.phase == STOPPING ==>
        p.checked == map[] && p.pushed == {}
        && p.tokens + Number(p.workers, IsWoken) + p.unsent == |p.queue| + Number(p.workers, Alive))
    && (p.phase == STOP ==> p.checked == map[] && p.pushed == {} && Number(p.workers, IsWoken) == 0)
    && (Number(p.workers, Alive) < |p.workers| ==> p.queue == [])
    && p.checked.Keys !! p.pushed
  }

  /** Tasks are taken in the order they were put in; what was taken is done or in a worker's hands. */
  predicate TaskInv(p: Pool) {
    && p.enqueued == p.taken + p.queue
    && multiset(p.taken) == p.done + InHand(p.workers)
    && (p.workers == [] ==> p.taken == [])
  }

  predicate Inv(p: Pool) {
    OwnerInv(p) && JoinInv(p) && TokenInv(p) && TaskInv(p) && !p.crashed
  }

  lemma InitInv(count: nat)
    ensures Inv(NewPool(count))
  {
  }

  lemma SpawnInv(p: Pool)
    requires Inv(p) && Enabled(p, Spawn)
    ensures Inv(Apply(p, Spawn))
  {
    hide Number, InHand;
    OneMore(p.workers, Alive);
    OneMore(p.workers, IsWoken);
  }

  /** The destructor's end: all workers have exited. */
  lemma DestroyedInv(p: Pool)
    requires Inv(p) && Enabled(p, Destroyed)
    ensures Inv(Apply(p, Destroyed))
  {
    hide Number, InHand;
    NumberIsAll(p.workers, Alive);
    NumberIsAll(p.workers, IsWoken);
  }

  /** The destructor's beginning: one stop signal for each worker. */
  lemma BeginStopInv(p: Pool)
    requires Inv(p) && Enabled(p, BeginStop)
    ensures Inv(Apply(p, BeginStop))
  {
    NumberNone();
    hide Number, InHand;
  }

  lemma OwnerStepInv(p: Pool, a: Step)
    requires Inv(p) && Enabled(p, a)
    requires a.InitStep? || a.InitEnd? || a.Signal? || a.SignalsSent? || a.Join?
    ensures Inv(Apply(p, a))
  {
    NumberNone();
    hide Number, InHand;
  }

  lemma NumberNone()
    ensures Number([], Alive) == Number([], IsWoken) == 0
  {
  }

  lemma ClientStepInv(p: Pool, a: Step)
    requires Inv(p) && Enabled(p, a) && (a.Check? || a.Push? || a.Notify?)
    ensures Inv(Apply(p, a))
  {
    hide Number, InHand;
    if a.Push? {
      assert p.enqueued + [p.checked[a.c]] == p.taken + (p.queue + [p.checked[a.c]]);
    }
  }

  /** What a worker's move from `ws[w]` to `x` does to the counts. */
  lemma Move(ws: seq<Worker>, w: nat, x: Worker)
    requires w < |ws|
    ensures Number(ws[w := x], Alive) ==
            Number(ws, Alive) - (if ws[w].Exited? then 0 else 1) + (if x.Exited? then 0 else 1)
    ensures Number(ws[w := x], IsWoken) ==
            Number(ws, IsWoken) - (if ws[w].Woken? then 1 else 0) + (if x.Woken? then 1 else 0)
    ensures InHand(ws[w := x]) == InHand(ws) - Hand(ws[w]) + Hand(x) && Hand(ws[w]) <= InHand(ws)
    ensures Number(ws, Alive) <= |ws| && Number(ws, IsWoken) <= |ws|
    ensures ws[w].Woken? ==> Number(ws, IsWoken) > 0
    ensures !ws[w].Exited? ==> Number(ws, Alive) > 0
  {
    hide Number, InHand;
    NumberIsAll(ws, Alive);
    NumberIsAll(ws, IsWoken);
    NumberAfter(ws, w, x, Alive);
    NumberAfter(ws, w, x, IsWoken);
    InHandAfter(ws, w, x);
  }

  /** A worker that moves without a task does nothing to the tasks; the owner's part is about exits only. */
  lemma IdleMove(p: Pool, w: nat, x: Worker)
    requires w < |p.workers| && !p.workers[w].Running? && !x.Running? && !p.workers[w].Exited?
    ensures InHand(p.workers[w := x]) == InHand(p.workers)
    ensures JoinInv(p) && !x.Exited? ==> JoinInv(Goto(p, w, x))
  {
    hide Number, InHand;
    Move(p.workers, w, x);
  }

  lemma WakeKeepsTokens(p: Pool, w: nat)
    requires Inv(p) && Enabled(p, Wake(w))
    ensures TokenInv(Apply(p, Wake(w)))
  {
    hide Number, InHand, Hand;
    Move(p.workers, w, Woken);
  }

  lemma WakeInv(p: Pool, w: nat)
    requires Inv(p) && Enabled(p, Wake(w))
    ensures Inv(Apply(p, Wake(w)))
  {
    hide Number, InHand, TokenInv;
    WakeKeepsTokens(p, w);
    IdleMove(p, w, Woken);
  }

  lemma FinishKeepsOwner(p: Pool, w: nat)
    requires OwnerInv(p) && Enabled(p, Finish(w))
    ensures OwnerInv(Apply(p, Finish(w)))
  {
  }

  lemma FinishKeepsTokens(p: Pool, w: nat)
    requires TokenInv(p) && Enabled(p, Finish(w))
    ensures TokenInv(Apply(p, Finish(w)))
  {
    hide Number, InHand;
    Move(p.workers, w, Waiting);
  }

  lemma FinishInv(p: Pool, w: nat)
    requires Inv(p) && Enabled(p, Finish(w))
    ensures Inv(Apply(p, Finish(w)))
  {
    hide Number, InHand, OwnerInv, TokenInv;
    Move(p.workers, w, Waiting);
    assert OwnerInv(Apply(p, Finish(w))) by {
      FinishKeepsOwner(p, w);
    }
    assert TokenInv(Apply(p, Finish(w))) by {
      FinishKeepsTokens(p, w);
    }
  }

  lemma AcquireKeepsTokens(p: Pool, w: nat)
    requires Inv(p) && Enabled(p, Acquire(w))
    ensures TokenInv(Apply(p, Acquire(w))) && p.phase != STOP && (p.queue == [] ==> p.phase == STOPPING)
  {
    hide Number, InHand, Hand, JoinInv, TaskInv;
    Move(p.workers, w, Apply(p, Acquire(w)).workers[w]);
  }

  lemma Hands(t: Task)
    ensures Hand(Woken) == multiset{} && Hand(Running(t)) == multiset{t}
  {
  }

  lemma AcquireKeepsTasks(p: Pool, w: nat)
    requires TaskInv(p) && Enabled(p, Acquire(w)) && p.phase != STOP && (p.queue == [] ==> p.phase == STOPPING)
    ensures TaskInv(Apply(p, Acquire(w)))
  {
    hide Number, InHand, Hand;
    if p.queue == [] {
      IdleMove(p, w, Exited);
    } else {
      var t := p.queue[0];
      InHandAfter(p.workers, w, Running(t));
      Hands(t);
      assert p.taken + p.queue == (p.taken + [t]) + p.queue[1..];
      assert multiset(p.taken + [t]) == multiset(p.taken) + multiset{t};
    }
  }

  /** A worker that finds no task does so only while the pool is stopping: it never pops an empty queue. */
  lemma AcquireInv(p: Pool, w: nat)
    requires Inv(p) && Enabled(p, Acquire(w))
    ensures Inv(Apply(p, Acquire(w)))
    ensures p.queue == [] ==> p.phase == STOPPING
  {
    hide Number, InHand, TokenInv, TaskInv;
    AcquireKeepsTokens(p, w);
    AcquireKeepsTasks(p, w);
    Move(p.workers, w, Apply(p, Acquire(w)).workers[w]);
  }

  lemma StepInv(p: Pool, a: Step)
    requires Inv(p) && Enabled(p, a)
    ensures Inv(Apply(p, a))
  {
    hide Inv, Apply;
    match a
    case Wake(w) => WakeInv(p, w);
    case Acquire(w) => AcquireInv(p, w);
    case Finish(w) => FinishInv(p, w);
    case Check(_, _) => ClientStepInv(p, a);
    case Push(_) => ClientStepInv(p, a);
    case Notify(_) => ClientStepInv(p, a);
    case Spawn => SpawnInv(p);
    case BeginStop => BeginStopInv(p);
    case Destroyed => DestroyedInv(p);
    case _ => OwnerStepInv(p, a);
  }

  // ---------------------------------------------------------------- runs

  predicate Legal(p: Pool, run: seq<Step>)
    decreases |run|
  {
    run != [] ==> Enabled(p, run[0]) && Legal(Apply(p, run[0]), run[1..])
  }

  function After(p: Pool, run: seq<Step>): Pool
    requires Legal(p, run)
    decreases |run|
  {
    if run == [] then p else After(Apply(p, run[0]), run[1..])
  }

  lemma {:induction false} RunInv(p: Pool, run: seq<Step>)
    requires Inv(p) && Legal(p, run)
    ensures Inv(After(p, run)) && After(p, run).count == p.count
    decreases |run|
  {
    hide Inv;
    if run != [] {
      StepInv(p, run[0]);
      RunInv(Apply(p, run[0]), run[1..]);
    }
  }

  // ---------------------------------------------------------------- what is submitted

  /** The phase after each step. */
  lemma PhaseAfter(p: Pool, a: Step)
    requires Enabled(p, a)
    ensures Apply(p, a).phase ==
            if a.InitStep? && p.phase == STOP then RUNNING
            else if a.BeginStop? && p.phase == RUNNING then STOPPING
            else if a.Destroyed? then STOP
            else p.phase
  {
  }

  /**
   The tasks that are submitted, in the order of the pushes: each push brings the task of its caller's latest
   check that found the pool RUNNING. `waiting` are the tasks of the callers between the two.
   */
  function Submitted(p: Pool, run: seq<Step>, waiting: map<Client, Task>): seq<Task>
    requires Legal(p, run)
    decreases |run|
  {
    if run == [] then []
    else
      match run[0]
      case Check(c, t) =>
        Submitted(Apply(p, run[0]), run[1..], if p.phase == RUNNING then waiting[c := t] else waiting)
      case Push(c) =>
        (if c in waiting then [waiting[c]] else []) + Submitted(Apply(p, run[0]), run[1..], waiting - {c})
      case _ => Submitted(Apply(p, run[0]), run[1..], waiting)
  }

  /** What is put into the queue is just what is submitted. */
  lemma {:induction false} EnqueuesSubmitted(p: Pool, run: seq<Step>)
    requires Legal(p, run)
    ensures After(p, run).enqueued == p.enqueued + Submitted(p, run, p.checked)
    decreases |run|
  {
    if run != [] {
      EnqueuesStep(p, run[0]);
      hide Apply, Enabled;
      EnqueuesSubmitted(Apply(p, run[0]), run[1..]);
    }
  }

  lemma EnqueuesStep(p: Pool, a: Step)
    requires Enabled(p, a)
    ensures var p' := Apply(p, a);
            match a
            case Check(c, t) =>
              p'.checked == (if p.phase == RUNNING then p.checked[c := t] else p.checked) && p'.enqueued == p.enqueued
            case Push(c) =>
              c in p.checked && p'.checked == p.checked - {c} && p'.enqueued == p.enqueued + [p.checked[c]]
            case _ => p'.checked == p.checked && p'.enqueued == p.enqueued
  {
  }

  /** The steps of a caller lie open to it: having found the pool RUNNING it may push, and then notify. */
  lemma MayGoOn(p: Pool, c: Client, t: Task)
    requires Enabled(p, Check(c, t)) && p.phase == RUNNING
    ensures Enabled(Apply(p, Check(c, t)), Push(c))
    ensures Enabled(Apply(Apply(p, Check(c, t)), Push(c)), Notify(c))
  {
  }

  /** Nobody else's step takes that away. */
  lemma MayStill(p: Pool, a: Step, c: Client)
    requires Enabled(p, a)
    ensures Enabled(p, Push(c)) && a != Push(c) ==> Enabled(Apply(p, a), Push(c))
    ensures Enabled(p, Notify(c)) && a != Notify(c) ==> Enabled(Apply(p, a), Notify(c))
  {
  }

  // ---------------------------------------------------------------- coming to rest

  /** What a caller does of its own accord; everything else has to go on by itself. */
  predicate Voluntary(a: Step) {
    a.Check? || a.InitStep? || a.BeginStop?
  }

  /** How many steps the pool can still make by itself. */
  function Remaining(p: Pool): nat {
    6 * |p.checked| + 4 * |p.pushed| + 3 * p.unsent + 2 * p.tokens + Number(p.workers, IsWoken) + |p.queue|
    + Number(p.workers, IsRunning) + OwnerSteps(p)
  }

  function OwnerSteps(p: Pool): nat {
    match p.owner
    case Creating => if |p.workers| <= p.count then p.count - |p.workers| + 1 else 0
    case Signalling => |p.workers| + 2
    case Joining(next) => if next <= |p.workers| then |p.workers| - next + 1 else 0
    case _ => 0
  }

  lemma MoveRemaining(ws: seq<Worker>, w: nat, x: Worker)
    requires w < |ws|
    ensures Number(ws[w := x], IsRunning) ==
            Number(ws, IsRunning) - (if ws[w].Running? then 1 else 0) + (if x.Running? then 1 else 0)
    ensures Number(ws[w := x], IsWoken) ==
            Number(ws, IsWoken) - (if ws[w].Woken? then 1 else 0) + (if x.Woken? then 1 else 0)
  {
    hide Number, InHand;
    NumberAfter(ws, w, x, IsRunning);
    NumberAfter(ws, w, x, IsWoken);
  }

  lemma SameOwner(p: Pool, p': Pool)
    ensures p'.owner == p.owner && p'.count == p.count && |p'.workers| == |p.workers| ==>
            OwnerSteps(p') == OwnerSteps(p)
  {
  }

  lemma ProgressByWake(p: Pool, w: nat)
    requires Enabled(p, Wake(w))
    ensures Remaining(Apply(p, Wake(w))) < Remaining(p)
  {
    hide Number, InHand, OwnerSteps;
    MoveRemaining(p.workers, w, Apply(p, Wake(w)).workers[w]);
    SameOwner(p, Apply(p, Wake(w)));
  }

  lemma ProgressByAcquire(p: Pool, w: nat)
    requires Enabled(p, Acquire(w))
    ensures Remaining(Apply(p, Acquire(w))) < Remaining(p)
  {
    hide Number, InHand, OwnerSteps;
    MoveRemaining(p.workers, w, Apply(p, Acquire(w)).workers[w]);
    SameOwner(p, Apply(p, Acquire(w)));
  }

  lemma ProgressByFinish(p: Pool, w: nat)
    requires Enabled(p, Finish(w))
    ensures Remaining(Apply(p, Finish(w))) < Remaining(p)
  {
    hide Number, InHand, OwnerSteps;
    MoveRemaining(p.workers, w, Apply(p, Finish(w)).workers[w]);
    SameOwner(p, Apply(p, Finish(w)));
  }

  lemma ProgressBySpawn(p: Pool)
    requires Inv(p) && Enabled(p, Spawn)
    ensures Remaining(Apply(p, Spawn)) < Remaining(p)
  {
    hide Number, InHand, Inv;
    OneMore(p.workers, IsRunning);
    OneMore(p.workers, IsWoken);
  }

  lemma ProgressByPush(p: Pool, c: Client)
    requires c in p.checked && c !in p.pushed
    ensures Remaining(Apply(p, Push(c))) < Remaining(p)
  {
    hide Number, InHand;
    RemoveOne(p.checked, c);
    assert |p.pushed + {c}| == |p.pushed| + 1;
  }

  lemma PushesOnce(p: Pool, c: Client)
    requires Inv(p) && Enabled(p, Push(c))
    ensures c in p.checked && c !in p.pushed
  {
  }

  lemma ProgressByNotify(p: Pool, c: Client)
    requires c in p.pushed
    ensures Remaining(Apply(p, Notify(c))) < Remaining(p)
  {
    hide Number, InHand;
    assert |p.pushed - {c}| == |p.pushed| - 1;
  }

  lemma ProgressByOwner(p: Pool, a: Step)
    requires Inv(p) && Enabled(p, a) && (a.InitEnd? || a.Signal? || a.SignalsSent? || a.Join? || a.Destroyed?)
    ensures Remaining(Apply(p, a)) < Remaining(p)
  {
    hide Number, InHand, JoinInv, TaskInv;
  }

  lemma RemoveOne(m: map<Client, Task>, c: Client)
    requires c in m
    ensures |m - {c}| == |m| - 1
  {
    assert (m - {c}).Keys == m.Keys - {c};
    assert |m.Keys - {c}| == |m.Keys| - 1;
    assert |(m - {c}).Keys| == |m - {c}| && |m.Keys| == |m|;
  }

  /** Every step that is not a caller's choice brings the end nearer. */
  lemma StepProgress(p: Pool, a: Step)
    requires Inv(p) && Enabled(p, a) && !Voluntary(a)
    ensures Remaining(Apply(p, a)) < Remaining(p)
  {
    hide Inv, Apply, Remaining;
    if a.Wake? {
      ProgressByWake(p, a.w);
    } else if a.Acquire? {
      ProgressByAcquire(p, a.w);
    } else if a.Finish? {
      ProgressByFinish(p, a.w);
    } else if a.Push? {
      assert a.c in p.checked && a.c !in p.pushed by {
        PushesOnce(p, a.c);
      }
      ProgressByPush(p, a.c);
    } else if a.Notify? {
      ProgressByNotify(p, a.c);
    } else if a.Spawn? {
      ProgressBySpawn(p);
    } else {
      ProgressByOwner(p, a);
    }
  }

  /** Left to itself the pool comes to rest: no run without a caller's choice is longer than `Remaining`. */
  lemma {:induction false} RunsEnd(p: Pool, run: seq<Step>)
    requires Inv(p) && Legal(p, run) && forall i | 0 <= i < |run| :: !Voluntary(run[i])
    ensures |run| <= Remaining(p)
    decreases |run|
  {
    hide Inv, Apply, Remaining;
    if run != [] {
      StepInv(p, run[0]);
      StepProgress(p, run[0]);
      RunsEnd(Apply(p, run[0]), run[1..]);
    }
  }

  /** Nothing goes on unless a caller chooses to. */
  ghost predicate AtRest(p: Pool) {
    forall a | Enabled(p, a) :: Voluntary(a)
  }

  lemma RestingWorkers(p: Pool)
    requires Inv(p) && AtRest(p)
    ensures p.checked == map[] && p.pushed == {}
    ensures forall i | 0 <= i < |p.workers| :: p.workers[i].Exited? || (p.workers[i].Waiting? && p.tokens == 0)
    ensures Number(p.workers, IsWoken) == 0 && InHand(p.workers) == multiset{}
  {
    hide Number, InHand;
    forall c: Client ensures c !in p.checked && c !in p.pushed {
      assert !Enabled(p, Push(c)) && !Enabled(p, Notify(c));
    }
    forall i | 0 <= i < |p.workers| ensures p.workers[i].Exited? || (p.workers[i].Waiting? && p.tokens == 0) {
      assert !Enabled(p, Wake(i)) && !Enabled(p, Acquire(i)) && !Enabled(p, Finish(i));
    }
    NumberIsAll(p.workers, IsWoken);
    NothingInHand(p.workers);
  }

  lemma {:induction false} NothingInHand(ws: seq<Worker>)
    requires forall i | 0 <= i < |ws| :: !ws[i].Running?
    ensures InHand(ws) == multiset{}
  {
    if ws != [] {
      NothingInHand(ws[1..]);
    }
  }

  /** The owner is never left waiting: at rest it is before `init`, between `init` and the end, or gone. */
  lemma RestingOwner(p: Pool)
    requires Inv(p) && AtRest(p)
    ensures p.owner.Fresh? || p.owner.Open? || p.owner.Gone?
  {
    hide Number, InHand;
    RestingWorkers(p);
    NumberIsAll(p.workers, Alive);
    assert !Enabled(p, Spawn) && !Enabled(p, InitEnd) && !Enabled(p, Signal);
    assert !Enabled(p, SignalsSent) && !Enabled(p, Join) && !Enabled(p, Destroyed);
  }

  /**
   The pool's promise. In every run no worker pops an empty queue and tasks start in the order they were put
   in. When everything has come to rest, the owner is not stuck, and every task has been done just once; if
   the pool has been destroyed all its workers have exited. Only a pool of no threads does nothing.
   */
  lemma EveryTaskOnce(count: nat, run: seq<Step>)
    requires Legal(NewPool(count), run)
    ensures var p := After(NewPool(count), run);
            && !p.crashed && p.taken <= p.enqueued
            && multiset(p.enqueued) == p.done + InHand(p.workers) + multiset(p.queue)
            && p.enqueued == Submitted(NewPool(count), run, map[])
    ensures var p := After(NewPool(count), run);
            AtRest(p) ==>
              && (p.owner.Fresh? || p.owner.Open? || p.owner.Gone?)
              && (p.owner.Gone? ==> forall i | 0 <= i < |p.workers| :: p.workers[i].Exited?)
              && (p.done == multiset(p.enqueued) && p.queue == [] <==> count > 0 || p.enqueued == [])
  {
    var p := After(NewPool(count), run);
    EnqueuesSubmitted(NewPool(count), run);
    assert p.enqueued == Submitted(NewPool(count), run, map[]);
    hide Submitted;
    InitInv(count);
    RunInv(NewPool(count), run);
    assert multiset(p.enqueued) == multiset(p.taken) + multiset(p.queue) by {
      hide *;
      assert p.enqueued == p.taken + p.queue by {
        TasksOf(p);
      }
    }
    if AtRest(p) {
      RestResult(p);
    }
  }

  lemma TasksOf(p: Pool)
    requires Inv(p)
    ensures p.enqueued == p.taken + p.queue && multiset(p.taken) == p.done + InHand(p.workers)
  {
  }

  lemma RestResult(p: Pool)
    requires Inv(p) && AtRest(p)
    ensures p.owner.Fresh? || p.owner.Open? || p.owner.Gone?
    ensures p.owner.Gone? ==> forall i | 0 <= i < |p.workers| :: p.workers[i].Exited?
    ensures p.done == multiset(p.enqueued) && p.queue == [] <==> p.count > 0 || p.enqueued == []
  {
    hide Number, InHand;
    RestingWorkers(p);
    RestingOwner(p);
    NumberIsAll(p.workers, Alive);
    if p.queue == [] {
      assert p.enqueued == p.taken;
    }
  }
}
