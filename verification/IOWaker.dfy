/**
 The I/O manager as one of the wakers of the fiber protocol: a fiber in an event context is a registration,
 triggering is a wake-up, deleting takes the registration back. Each is a step that the protocol allows, so
 this waker keeps its part of the clients' rule.
 */
module IOWakers {
  import opened Options
  import opened RunQueues
  import opened SchedulerProtocol
  import opened SchedulerSafety
  import IO = IOManagers

  /** The place where a fiber waits for an event of a descriptor; every third place is left for timers. */
  function Key(fd: nat, e: IO.Event): WakerKey {
    3 * fd + if e == IO.READ then 0 else 1
  }

  predicate IsEvent(k: WakerKey) {
    k % 3 != 2
  }

  function FdOf(k: WakerKey): nat {
    k / 3
  }

  function EventOf(k: WakerKey): IO.Event {
    if k % 3 == 0 then IO.READ else IO.WRITE
  }

  lemma KeyReadsBack(fd: nat, e: IO.Event)
    ensures IsEvent(Key(fd, e)) && FdOf(Key(fd, e)) == fd && EventOf(Key(fd, e)) == e
  {
  }

  /** The fiber that waits at `k`; a callback is nobody's registration. */
  function FiberAt(table: seq<IO.Row>, k: WakerKey): Option<FiberId> {
    if IsEvent(k) && FdOf(k) < |table| && IO.Has(table[FdOf(k)].events, EventOf(k))
    then IO.ContextOf(table[FdOf(k)], EventOf(k)).fiber else None
  }

  /** The registrations of the protocol, but for sleepers, are those of the manager. */
  ghost predicate Reflects(s: State, table: seq<IO.Row>) {
    && (forall k | IsEvent(k) :: k in s.regs <==> FiberAt(table, k).Some?)
    && (forall k | IsEvent(k) && k in s.regs :: FiberAt(table, k) == Some(s.regs[k]))
  }

  lemma OtherKeys(table: seq<IO.Row>, fd: nat, e: IO.Event, r: IO.Row, k: WakerKey)
    requires fd < |table| && k != Key(fd, e)
    requires forall e' | e' != e ::
             IO.Has(r.events, e') == IO.Has(table[fd].events, e') && IO.ContextOf(r, e') == IO.ContextOf(table[fd], e')
    ensures FiberAt(table[fd := r], k) == FiberAt(table, k)
  {
    if IsEvent(k) && FdOf(k) == fd {
      assert EventOf(k) != e;
    }
  }

  lemma AfterEntered(table: seq<IO.Row>, fd: nat, e: IO.Event, c: IO.EventContext, n: nat, k: WakerKey)
    requires fd < |table|
    ensures FiberAt(table[fd := IO.Entered(table[fd], e, c, n)], k) ==
            if k == Key(fd, e) then c.fiber else FiberAt(table, k)
  {
    KeyReadsBack(fd, e);
    if k != Key(fd, e) {
      OtherKeys(table, fd, e, IO.Entered(table[fd], e, c, n), k);
    }
  }

  lemma AfterCleared(table: seq<IO.Row>, fd: nat, e: IO.Event, k: WakerKey)
    requires fd < |table|
    ensures FiberAt(table[fd := IO.Cleared(table[fd], e)], k) == if k == Key(fd, e) then None else FiberAt(table, k)
  {
    KeyReadsBack(fd, e);
    if k != Key(fd, e) {
      OtherKeys(table, fd, e, IO.Cleared(table[fd], e), k);
    }
  }

  lemma ContextInUse(table: seq<IO.Row>, g: IO.Log, fd: nat, e: IO.Event)
    requires IO.Books(table, g) && fd < |table| && IO.Has(table[fd].events, e)
    ensures IO.InUse(IO.ContextOf(table[fd], e))
  {
    assert IO.RowOk(table[fd], fd, g, e);
  }

  /** At first neither has any. */
  lemma NoneAtFirst(s: State, n: nat)
    requires Init(s)
    ensures Reflects(s, IO.Blanks(n))
  {
    forall k: WakerKey ensures FiberAt(IO.Blanks(n), k) == None {
      assert FdOf(k) < n ==> IO.Blanks(n)[FdOf(k)] == IO.BLANK;
    }
  }

  /** Entering the running fiber, which is registered nowhere, is a registration at a free place. */
  lemma AddIsRegister(s: State, table: seq<IO.Row>, w: ThreadId, fd: nat, e: IO.Event, c: IO.EventContext, n: nat)
    requires Reflects(s, table) && fd < |table| && !IO.Has(table[fd].events, e)
    requires Running(s, w) && s.pc[w].fiber !in s.tickets && c.fiber == Some(s.pc[w].fiber)
    ensures Enabled(s, Register(w, Key(fd, e)))
    ensures Reflects(Apply(s, Register(w, Key(fd, e))), table[fd := IO.Entered(table[fd], e, c, n)])
  {
    KeyReadsBack(fd, e);
    assert FiberAt(table, Key(fd, e)) == None;
    forall k
      ensures FiberAt(table[fd := IO.Entered(table[fd], e, c, n)], k) ==
              if k == Key(fd, e) then c.fiber else FiberAt(table, k)
    {
      AfterEntered(table, fd, e, c, n, k);
    }
  }

  /** Entering a callback registers no fiber. */
  lemma AddCallbackRegistersNone(s: State, table: seq<IO.Row>, fd: nat, e: IO.Event, c: IO.EventContext, n: nat)
    requires Reflects(s, table) && fd < |table| && !IO.Has(table[fd].events, e) && c.fiber == None
    ensures Reflects(s, table[fd := IO.Entered(table[fd], e, c, n)])
  {
    KeyReadsBack(fd, e);
    assert FiberAt(table, Key(fd, e)) == None;
    forall k ensures FiberAt(table[fd := IO.Entered(table[fd], e, c, n)], k) == FiberAt(table, k) {
      AfterEntered(table, fd, e, c, n, k);
    }
  }

  /** What triggering an event is in the protocol: waking the fiber that waits, or scheduling the callback. */
  function TriggerStep(table: seq<IO.Row>, fd: nat, e: IO.Event): Action
    requires fd < |table| && IO.Has(table[fd].events, e) && IO.InUse(IO.ContextOf(table[fd], e))
  {
    var c := IO.ContextOf(table[fd], e);
    if c.cb.Some? then ScheduleCb(c.cb.value, None) else Wake(Key(fd, e), None)
  }

  /** Triggering is a step the protocol allows, and it puts on the list what the manager hands over. */
  lemma TriggerIsWake(s: State, table: seq<IO.Row>, g: IO.Log, fd: nat, e: IO.Event)
    requires Reflects(s, table) && IO.Books(table, g) && fd < |table| && IO.Has(table[fd].events, e) && s.lock.None?
    ensures IO.InUse(IO.ContextOf(table[fd], e))
    ensures var a := TriggerStep(table, fd, e);
            && Enabled(s, a) && Reflects(Apply(s, a), table[fd := IO.Cleared(table[fd], e)])
            && Apply(s, a).queue == s.queue + [Entry(IO.TaskOf(IO.ContextOf(table[fd], e)), None)]
  {
    ContextInUse(table, g, fd, e);
    KeyReadsBack(fd, e);
    assert FiberAt(table, Key(fd, e)) == IO.ContextOf(table[fd], e).fiber;
    forall k
      ensures FiberAt(table[fd := IO.Cleared(table[fd], e)], k) ==
              if k == Key(fd, e) then None else FiberAt(table, k)
    {
      AfterCleared(table, fd, e, k);
    }
  }

  /** Deleting a fiber's registration takes it back. */
  lemma DeleteIsUnregister(s: State, table: seq<IO.Row>, fd: nat, e: IO.Event)
    requires Reflects(s, table) && fd < |table| && IO.Has(table[fd].events, e)
    ensures var t := table[fd := IO.Cleared(table[fd], e)];
            if IO.ContextOf(table[fd], e).fiber.Some?
            then Enabled(s, Unregister(Key(fd, e))) && Reflects(Apply(s, Unregister(Key(fd, e))), t)
            else Reflects(s, t)
  {
    KeyReadsBack(fd, e);
    assert FiberAt(table, Key(fd, e)) == IO.ContextOf(table[fd], e).fiber;
    forall k
      ensures FiberAt(table[fd := IO.Cleared(table[fd], e)], k) ==
              if k == Key(fd, e) then None else FiberAt(table, k)
    {
      AfterCleared(table, fd, e, k);
    }
  }

  /** A step at the place of an event. */
  predicate AtEvent(a: Action) {
    (a.Register? || a.Wake? || a.Unregister?) && IsEvent(a.k)
  }

  /** All other steps, those of sleepers among them, leave the registrations as they are. */
  lemma OthersKeep(s: State, a: Action, table: seq<IO.Row>)
    requires Reflects(s, table) && Enabled(s, a) && !AtEvent(a)
    ensures Reflects(Apply(s, a), table)
  {
    assert forall k | IsEvent(k) ::
           (k in Apply(s, a).regs <==> k in s.regs) && (k in s.regs ==> Apply(s, a).regs[k] == s.regs[k]);
  }

  /**
   In every reachable state of the protocol that the manager's books reflect, no fiber waits for two events,
   and one that waits is not on the list, in a worker's hands or in a semaphore.
   */
  lemma WaitsOnce(s0: State, run: seq<Action>, table: seq<IO.Row>, k: WakerKey, f: FiberId)
    requires Init(s0) && Legal(s0, run) && Reflects(After(s0, run), table) && FiberAt(table, k) == Some(f)
    ensures forall k' | FiberAt(table, k') == Some(f) :: k' == k
    ensures forall l | At(After(s0, run), l, f) :: l == InReg(k)
  {
    var s := After(s0, run);
    InitInv(s0);
    RunInv(s0, run);
    assert At(s, InReg(k), f);
    forall k' | FiberAt(table, k') == Some(f) ensures k' == k {
      assert At(s, InReg(k'), f);
    }
  }
}
