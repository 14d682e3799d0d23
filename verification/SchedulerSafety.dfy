/**
 What every step of the scheduler keeps, and what follows for every run: no fiber is ever executed by
 two threads, no wake-up is lost or doubled, no task is lost, and semaphores count correctly.
 */
module SchedulerSafety {
  import opened Options
  import opened RunQueues
  import opened FiberSemaphores
  import opened SchedulerProtocol

  // ---------------------------------------------------------------- the invariant

  ghost predicate HasTicket(s: State, f: FiberId) {
    exists l :: At(s, l, f)
  }

  /** A fiber has at most one ticket, and has one exactly when its clients count on it. */
  ghost predicate TicketsInv(s: State) {
    && (forall l1, l2, f {:trigger At(s, l1, f), At(s, l2, f)} :: At(s, l1, f) && At(s, l2, f) ==> l1 == l2)
    && (forall l, f {:trigger At(s, l, f)} :: At(s, l, f) ==> f in s.tickets)
    && (forall f :: f in s.tickets ==> f in s.st && HasTicket(s, f))
  }

  predicate PcOk(s: State, p: Pc) {
    match p
    case Top => true
    case Scanning(i) => i <= |s.queue|
    case Popped(e) => e.task.FiberTask? || e.task.CallbackTask?
    case Executing(f, _) => f in s.st && s.st[f] == RUNNING
    case Leaving(f, _) => f in s.st && (s.st[f] == READY || Finished(s.st[f])) && f !in s.tickets
    case Returned(f, _) =>
      f in s.st && (s.st[f] == RUNNING || ((s.st[f] == READY || Finished(s.st[f])) && f !in s.tickets))
    case Settling(f, _) =>
      f in s.st && (s.st[f] == RUNNING || ((s.st[f] == READY || Finished(s.st[f])) && f !in s.tickets))
  }

  ghost predicate WorkersInv(s: State) {
    && (forall w | w in s.pc :: PcOk(s, s.pc[w]) && (s.pc[w].Popped? ==> !PinnedElsewhere(s.pc[w].entry, w)))
    && (forall w | w in s.pc :: s.pc[w].Scanning? <==> s.lock == Some(w))
    && (s.lock.Some? ==> s.lock.value in s.pc)
    && (forall e | e in s.queue :: !e.task.NoTask?)
  }

  /** A fiber has at most one owner; it has one exactly while its state is RUNNING or being read. */
  ghost predicate OwnersInv(s: State) {
    && (forall w1, w2, f {:trigger Owns(s, w1, f), Owns(s, w2, f)} :: Owns(s, w1, f) && Owns(s, w2, f) ==> w1 == w2)
    && (forall f | f in s.st && s.st[f] == RUNNING :: Owned(s, f))
    && (forall w, f {:trigger At(s, InWorker(w), f)} :: At(s, InWorker(w), f) ==> !Owned(s, f))
  }

  predicate RunsCb(s: State, w: ThreadId) {
    w in s.pc && OnStack(s.pc[w]) && s.pc[w].byCb
  }

  /** The fiber a worker keeps for callbacks is either the one it is running, or at rest and known to nobody. */
  ghost predicate CbFibersInv(s: State) {
    && (forall w | w in s.cbFiber :: w in s.pc && s.cbFiber[w] in s.st)
    && (forall w | RunsCb(s, w) :: w in s.cbFiber && s.cbFiber[w] == s.pc[w].fiber)
    && (forall w | w in s.cbFiber && !RunsCb(s, w) :: s.cbFiber[w] !in s.tickets && !Owned(s, s.cbFiber[w]))
    && (forall w1, w2 | w1 in s.cbFiber && w2 in s.cbFiber && s.cbFiber[w1] == s.cbFiber[w2] :: w1 == w2)
  }

  ghost predicate CountsInv(s: State) {
    && s.active == |Holders(s)|
    && |s.queue| + s.active + s.retired == s.scheduled
  }

  /** Fibers given a unit of `m` that have not yet come back from `wait`. */
  function InTransit(s: State, m: SemId): set<FiberId>
    requires m in s.sems
  {
    set f | f in s.blocked && s.blocked[f] == m && f !in s.sems[m].waiters
  }

  /** Every unit given out is either back with its caller or on its way there. */
  ghost predicate UnitsOk(x: Sem, transit: set<FiberId>) {
    Sound(x) && x.completed + |transit| == x.granted
  }

  ghost predicate SemsInv(s: State) {
    && (forall m | m in s.sems :: UnitsOk(s.sems[m], InTransit(s, m)))
    && (forall m, f | m in s.sems && f in s.sems[m].waiters :: f in s.blocked && s.blocked[f] == m)
    && (forall f | f in s.blocked :: && f in s.tickets && s.blocked[f] in s.sems
                                     && f in s.st && (s.st[f] == RUNNING || s.st[f] == HOLD))
    && (forall k | k in s.regs :: s.regs[k] !in s.blocked)
  }

  ghost predicate Inv(s: State) {
    TicketsInv(s) && WorkersInv(s) && OwnersInv(s) && CbFibersInv(s) && CountsInv(s) && SemsInv(s)
  }

  lemma InitInv(s: State)
    requires Init(s)
    ensures Inv(s)
  {
    assert Holders(s) == {};
    forall m | m in s.sems
      ensures |InTransit(s, m)| == 0
    {
      assert InTransit(s, m) == {};
    }
  }

  // ---------------------------------------------------------------- tickets

  function Waiting(s: State, m: SemId): seq<FiberId> {
    if m in s.sems then s.sems[m].waiters else []
  }

  /** Tickets found at the same places. */
  ghost predicate SameAt(s: State, s': State) {
    && s'.queue == s.queue && s'.regs == s.regs
    && (forall m :: Waiting(s', m) == Waiting(s, m))
    && (forall w, f :: PoppedBy(s', w) == FiberTask(f) <==> PoppedBy(s, w) == FiberTask(f))
  }

  lemma AtSame(s: State, s': State, l: Loc, f: FiberId)
    requires SameAt(s, s')
    ensures At(s', l, f) <==> At(s, l, f)
  {
    match l
    case InSem(m, j) => assert Waiting(s', m) == Waiting(s, m);
    case _ =>
  }

  lemma KeepTickets(s: State, s': State)
    requires TicketsInv(s) && s.st.Keys <= s'.st.Keys && s'.tickets == s.tickets && SameAt(s, s')
    ensures TicketsInv(s')
  {
    forall l, f ensures At(s', l, f) <==> At(s, l, f) { AtSame(s, s', l, f); }
    forall f | f in s.tickets ensures HasTicket(s', f) {
      var l :| At(s, l, f);
      assert At(s', l, f);
    }
  }

  lemma AddTicket(s: State, s': State, f: FiberId, l: Loc)
    requires TicketsInv(s) && s.st.Keys <= s'.st.Keys && f in s'.st && f !in s.tickets && s'.tickets == s.tickets + {f}
    requires forall x, g {:trigger At(s', x, g)} :: At(s', x, g) <==> At(s, x, g) || (x == l && g == f)
    ensures TicketsInv(s')
  {
    forall g | g in s'.tickets ensures HasTicket(s', g) {
      if g in s.tickets {
        var x :| At(s, x, g);
        assert At(s', x, g);
      } else {
        assert At(s', l, f);
      }
    }
  }

  lemma LoseTicket(s: State, s': State, f: FiberId, l: Loc)
    requires TicketsInv(s) && s.st.Keys <= s'.st.Keys && At(s, l, f) && s'.tickets == s.tickets - {f}
    requires forall x, g {:trigger At(s', x, g)} :: At(s', x, g) <==> At(s, x, g) && x != l
    ensures TicketsInv(s')
  {
    forall g | g in s'.tickets ensures HasTicket(s', g) {
      var x :| At(s, x, g);
      assert At(s', x, g);
    }
  }

  /** A ticket goes from `l` to a place `l'` that held none; nothing else moves. */
  lemma MoveTicket(s: State, s': State, f: FiberId, l: Loc, l': Loc)
    requires TicketsInv(s) && s.st.Keys <= s'.st.Keys && At(s, l, f) && s'.tickets == s.tickets
    requires forall x, g {:trigger At(s', x, g)} :: At(s', x, g) <==> (At(s, x, g) && x != l) || (x == l' && g == f)
    ensures TicketsInv(s')
  {
    forall g | g in s'.tickets ensures HasTicket(s', g) {
      var x :| At(s, x, g);
      if x == l { assert At(s', l', f); } else { assert At(s', x, g); }
    }
  }

  /** The front waiter of `m` goes to the end of the list; the other waiters move up. */
  lemma NotifyTickets(s: State, s': State, m: SemId)
    requires TicketsInv(s) && m in s.sems && s.sems[m].waiters != []
    requires s'.sems == s.sems[m := Release(s.sems[m])]
    requires s'.queue == Scheduled(s.queue, FiberTask(s.sems[m].waiters[0]), None)
    requires s'.pc == s.pc && s'.regs == s.regs && s'.st == s.st && s'.tickets == s.tickets
    ensures TicketsInv(s')
  {
    var back := (l: Loc) =>
      if l == InQueue(|s.queue|) then InSem(m, 0)
      else if l.InSem? && l.m == m then InSem(m, l.j + 1)
      else l;
    forall l, f | At(s', l, f) ensures At(s, back(l), f) {}
    forall f | f in s.tickets ensures HasTicket(s', f) {
      var l :| At(s, l, f);
      var l' := if l == InSem(m, 0) then InQueue(|s.queue|) else if l.InSem? && l.m == m then InSem(m, l.j - 1) else l;
      assert At(s', l', f);
    }
  }

  lemma TakeTickets(s: State, s': State, w: ThreadId, i: nat)
    requires TicketsInv(s) && i < |s.queue| && PoppedBy(s, w) == NoTask
    requires s'.queue == RemoveAt(s.queue, i) && PoppedBy(s', w) == s.queue[i].task
    requires forall w' | w' != w :: PoppedBy(s', w') == PoppedBy(s, w')
    requires s'.sems == s.sems && s'.regs == s.regs && s'.st == s.st && s'.tickets == s.tickets
    ensures TicketsInv(s')
  {
    var back := (l: Loc) =>
      if l == InWorker(w) then InQueue(i)
      else if l.InQueue? && l.i >= i then InQueue(l.i + 1)
      else l;
    forall l, f | At(s', l, f)
      ensures At(s, back(l), f)
    {
    }
    forall f | f in s.tickets ensures HasTicket(s', f) {
      var l :| At(s, l, f);
      var l' := if l == InQueue(i) then InWorker(w) else if l.InQueue? && l.i > i then InQueue(l.i - 1) else l;
      assert At(s', l', f);
    }
  }

  // ---------------------------------------------------------------- owners

  lemma KeepOwners(s: State, s': State)
    requires OwnersInv(s)
    requires forall w :: OwnedBy(s', w) == OwnedBy(s, w)
    requires forall f | f in s'.st && s'.st[f] == RUNNING :: f in s.st && s.st[f] == RUNNING
    requires forall w, f :: PoppedBy(s', w) == FiberTask(f) ==> PoppedBy(s, w) == FiberTask(f) || !Owned(s, f)
    ensures OwnersInv(s')
    ensures forall f :: Owned(s', f) <==> Owned(s, f)
  {
    forall f ensures Owned(s', f) <==> Owned(s, f) {
      if Owned(s, f) { var w :| Owns(s, w, f); assert Owns(s', w, f); }
      if Owned(s', f) { var w :| Owns(s', w, f); assert Owns(s, w, f); }
    }
    forall w1, w2, f | Owns(s', w1, f) && Owns(s', w2, f) ensures w1 == w2 {
      assert Owns(s, w1, f) && Owns(s, w2, f);
    }
    forall w, f | At(s', InWorker(w), f) ensures !Owned(s', f) {
      assert PoppedBy(s, w) == FiberTask(f) ==> At(s, InWorker(w), f);
    }
  }

  /** `w` takes charge of a fiber nobody owned. */
  lemma GainOwner(s: State, s': State, w: ThreadId, f: FiberId)
    requires OwnersInv(s) && OwnedBy(s, w) == None && !Owned(s, f)
    requires OwnedBy(s', w) == Some(f) && (forall w' | w' != w :: OwnedBy(s', w') == OwnedBy(s, w'))
    requires s'.st == s.st[f := RUNNING]
    requires forall w', g :: PoppedBy(s', w') == FiberTask(g) ==> PoppedBy(s, w') == FiberTask(g) && g != f
    ensures OwnersInv(s')
    ensures forall g :: Owned(s', g) <==> Owned(s, g) || g == f
  {
    forall g ensures Owned(s', g) <==> Owned(s, g) || g == f {
      if Owned(s, g) { var w' :| Owns(s, w', g); assert Owns(s', w', g); }
      if Owned(s', g) { var w' :| Owns(s', w', g); assert w' != w ==> Owns(s, w', g); }
      if g == f { assert Owns(s', w, f); }
    }
    assert forall w', g | Owns(s', w', g) :: w' == w <==> g == f by {
      assert forall w' :: !Owns(s, w', f);
      assert forall w', g | w' != w :: Owns(s', w', g) <==> Owns(s, w', g);
    }
    forall w1, w2, g | Owns(s', w1, g) && Owns(s', w2, g) ensures w1 == w2 {
      assert w1 != w && w2 != w ==> Owns(s, w1, g) && Owns(s, w2, g);
    }
    forall w', g | At(s', InWorker(w'), g) ensures !Owned(s', g) {
      assert At(s, InWorker(w'), g);
    }
  }

  /** `w` is done with its fiber, which is no longer RUNNING. */
  lemma LoseOwner(s: State, s': State, w: ThreadId, f: FiberId)
    requires OwnersInv(s) && OwnedBy(s, w) == Some(f)
    requires OwnedBy(s', w) == None && (forall w' | w' != w :: OwnedBy(s', w') == OwnedBy(s, w'))
    requires f in s'.st && s'.st[f] != RUNNING
    requires forall g | g in s'.st && s'.st[g] == RUNNING :: g in s.st && s.st[g] == RUNNING
    requires forall w', g :: PoppedBy(s', w') == FiberTask(g) ==> PoppedBy(s, w') == FiberTask(g)
    ensures OwnersInv(s')
    ensures forall g :: Owned(s', g) <==> Owned(s, g) && g != f
  {
    assert Owns(s, w, f);
    forall g ensures Owned(s', g) <==> Owned(s, g) && g != f {
      if Owned(s, g) && g != f { var w' :| Owns(s, w', g); assert Owns(s', w', g); }
      if Owned(s', g) {
        var w' :| Owns(s', w', g);
        assert w' != w && Owns(s, w', g);
      }
    }
    forall w1, w2, g | Owns(s', w1, g) && Owns(s', w2, g) ensures w1 == w2 {
      assert Owns(s, w1, g) && Owns(s, w2, g);
    }
    forall w', g | At(s', InWorker(w'), g) ensures !Owned(s', g) {
      assert At(s, InWorker(w'), g);
    }
  }

  /** Whatever is listed and not RUNNING is nobody's: it may be taken. */
  lemma ListedIsFree(s: State, f: FiberId)
    requires WorkersInv(s) && f in s.tickets && f in s.st && s.st[f] != RUNNING
    ensures !Owned(s, f)
  {
    forall w ensures !Owns(s, w, f) {
      if w in s.pc { assert PcOk(s, s.pc[w]); }
    }
  }

  // ---------------------------------------------------------------- counts

  lemma KeepCounts(s: State, s': State, joined: set<ThreadId>, left: set<ThreadId>)
    requires CountsInv(s)
    requires forall w | w !in joined && w !in left ::
             (w in s'.pc && HoldsEntry(s'.pc[w])) <==> (w in s.pc && HoldsEntry(s.pc[w]))
    requires joined <= Holders(s') && joined !! Holders(s) && left <= Holders(s) && left !! Holders(s')
    requires s'.active == s.active + |joined| - |left|
    requires |s'.queue| + s'.active + s'.retired - s'.scheduled == |s.queue| + s.active + s.retired - s.scheduled
    ensures CountsInv(s')
  {
    assert Holders(s') == (Holders(s) - left) + joined;
    assert |Holders(s) - left| == |Holders(s)| - |left|;
  }

  // ---------------------------------------------------------------- workers

  /**
   Only worker `w` moves and only fiber `f0` changes, which no other worker owns; the list changes only
   under a free lock or under `w`'s.
   */
  lemma KeepWorkers(s: State, s': State, w: Option<ThreadId>, f0: Option<FiberId>)
    requires WorkersInv(s)
    requires s'.pc.Keys == s.pc.Keys && (forall x | x in s.pc && Some(x) != w :: s'.pc[x] == s.pc[x])
    requires w.Some? ==> && w.value in s.pc && PcOk(s', s'.pc[w.value]) && (s'.pc[w.value].Scanning? <==> s'.lock == w)
                         && (s'.pc[w.value].Popped? ==> !PinnedElsewhere(s'.pc[w.value].entry, w.value))
    requires s'.lock == s.lock || (w.Some? && (s.lock == None || s.lock == w) && (s'.lock == None || s'.lock == w))
    requires s'.queue == s.queue || s.lock == None || (w.Some? && s.lock == w)
    requires forall e | e in s'.queue :: e in s.queue || !e.task.NoTask?
    requires forall f | f in s.st && Some(f) != f0 ::
             f in s'.st && s'.st[f] == s.st[f] && (f in s'.tickets ==> f in s.tickets)
    requires f0.Some? ==> forall x: ThreadId | Some(x) != w :: OwnedBy(s, x) != f0
    ensures WorkersInv(s')
  {
    forall x | x in s'.pc ensures PcOk(s', s'.pc[x]) {
      if Some(x) != w {
        assert PcOk(s, s.pc[x]);
        assert OnStack(s.pc[x]) ==> OwnedBy(s, x) == Some(s.pc[x].fiber);
      }
    }
  }

  // ---------------------------------------------------------------- callback fibers

  lemma KeepCbFibers(s: State, s': State)
    requires CbFibersInv(s) && s'.cbFiber == s.cbFiber && s'.pc.Keys == s.pc.Keys && s.st.Keys <= s'.st.Keys
    requires forall w :: RunsCb(s', w) <==> RunsCb(s, w)
    requires forall w | RunsCb(s, w) :: OwnedBy(s', w) == OwnedBy(s, w)
    requires forall w | w in s.cbFiber && !RunsCb(s, w) && s.cbFiber[w] !in s.tickets && !Owned(s, s.cbFiber[w]) ::
               s.cbFiber[w] !in s'.tickets && !Owned(s', s.cbFiber[w])
    ensures CbFibersInv(s')
  {
  }

  // ---------------------------------------------------------------- semaphores

  lemma KeepSems(s: State, s': State)
    requires SemsInv(s) && s'.sems == s.sems && s'.blocked == s.blocked
    requires forall f | f in s.blocked && f in s.tickets && f in s.st && (s.st[f] == RUNNING || s.st[f] == HOLD) ::
               f in s'.tickets && f in s'.st && (s'.st[f] == RUNNING || s'.st[f] == HOLD)
    requires forall k | k in s'.regs :: (k in s.regs && s'.regs[k] == s.regs[k]) || s'.regs[k] !in s.blocked
    ensures SemsInv(s')
  {
    hide UnitsOk;
    forall m | m in s.sems ensures InTransit(s', m) == InTransit(s, m) {}
  }

  /** Only the semaphore `m` changes, and its units still add up. */
  lemma ChangeSem(s: State, s': State, m: SemId)
    requires SemsInv(s) && m in s.sems && m in s'.sems && s'.sems == s.sems[m := s'.sems[m]]
    requires UnitsOk(s'.sems[m], InTransit(s', m))
    requires forall f :: f in s'.sems[m].waiters ==> f in s'.blocked && s'.blocked[f] == m
    requires forall f | f in s'.blocked :: && f in s'.tickets && s'.blocked[f] in s.sems
                                           && f in s'.st && (s'.st[f] == RUNNING || s'.st[f] == HOLD)
    requires forall f :: f in s.blocked && s.blocked[f] != m <==> f in s'.blocked && s'.blocked[f] != m
    requires forall f | f in s.blocked && s.blocked[f] != m :: s'.blocked[f] == s.blocked[f]
    requires forall k | k in s'.regs :: s'.regs[k] !in s'.blocked
    ensures SemsInv(s')
  {
    hide UnitsOk;
    forall x | x in s.sems && x != m ensures InTransit(s', x) == InTransit(s, x) {}
  }

  lemma AcquireSems(s: State, s': State, m: SemId)
    requires SemsInv(s) && m in s.sems && s.sems[m].concurrency > 0
    requires s' == s.(sems := s.sems[m := Acquire(s.sems[m])])
    ensures SemsInv(s')
  {
    assert UnitsOk(s.sems[m], InTransit(s, m));
    SoundSteps(s.sems[m], 0);
    assert InTransit(s', m) == InTransit(s, m);
    ChangeSem(s, s', m);
  }

  lemma ParkSems(s: State, s': State, m: SemId, f: FiberId)
    requires SemsInv(s) && m in s.sems && s.sems[m].concurrency == 0 && f !in s.tickets && f in s.st
             && s.st[f] == RUNNING
    requires s'.sems == s.sems[m := Park(s.sems[m], f)] && s'.blocked == s.blocked[f := m]
    requires s'.tickets == s.tickets + {f} && s'.st == s.st && s'.regs == s.regs
    requires forall k | k in s.regs :: s.regs[k] != f
    ensures SemsInv(s')
  {
    assert UnitsOk(s.sems[m], InTransit(s, m));
    SoundSteps(s.sems[m], f);
    assert InTransit(s', m) == InTransit(s, m);
    ChangeSem(s, s', m);
  }

  /** A waiting fiber is queued once. */
  lemma WaitsOnce(s: State, m: SemId, j: nat, f: FiberId)
    requires TicketsInv(s) && At(s, InSem(m, j), f)
    ensures forall i | 0 <= i < |s.sems[m].waiters| && i != j :: s.sems[m].waiters[i] != f
  {
    forall i | 0 <= i < |s.sems[m].waiters| && i != j ensures s.sems[m].waiters[i] != f {
      assert At(s, InSem(m, i), s.sems[m].waiters[i]);
    }
  }

  lemma UnitsRelease(x: Sem, transit: set<FiberId>, transit': set<FiberId>)
    requires UnitsOk(x, transit)
    requires if x.waiters == [] then transit' == transit
             else x.waiters[0] !in transit && transit' == transit + {x.waiters[0]}
    ensures UnitsOk(Release(x), transit')
  {
    SoundSteps(x, 0);
  }

  lemma ReleaseTransit(s: State, s': State, m: SemId)
    requires TicketsInv(s) && m in s.sems && s.sems[m].waiters != []
    requires s'.sems == s.sems[m := Release(s.sems[m])] && s'.blocked == s.blocked
    requires s.sems[m].waiters[0] in s.blocked && s.blocked[s.sems[m].waiters[0]] == m
    ensures InTransit(s', m) == InTransit(s, m) + {s.sems[m].waiters[0]}
  {
    hide TicketsInv;
    var ws := s.sems[m].waiters;
    WaitsOnce(s, m, 0, ws[0]);
    forall g ensures g in ws <==> g == ws[0] || g in ws[1..] {
      assert ws == [ws[0]] + ws[1..];
    }
    assert ws[0] !in ws[1..];
  }

  /** A hand-off: the fiber is no longer waiting but not yet back. */
  lemma NotifySems(s: State, s': State, m: SemId)
    requires SemsInv(s) && TicketsInv(s) && m in s.sems && s'.sems == s.sems[m := Release(s.sems[m])]
    requires s'.blocked == s.blocked && s'.tickets == s.tickets && s'.st == s.st && s'.regs == s.regs
    ensures SemsInv(s')
  {
    hide UnitsOk, TicketsInv;
    var ws := s.sems[m].waiters;
    if ws == [] {
      assert InTransit(s', m) == InTransit(s, m);
    } else {
      assert ws[0] in ws;
      ReleaseTransit(s, s', m);
    }
    UnitsRelease(s.sems[m], InTransit(s, m), InTransit(s', m));
    ChangeSem(s, s', m);
  }

  lemma UnitsReturn(x: Sem, transit: set<FiberId>, f: FiberId)
    requires UnitsOk(x, transit) && f in transit
    ensures UnitsOk(x.(completed := x.completed + 1), transit - {f})
  {
  }

  lemma PoppedNotWaiting(s: State, w: ThreadId, f: FiberId, m: SemId)
    requires TicketsInv(s) && At(s, InWorker(w), f) && m in s.sems
    ensures f !in s.sems[m].waiters
  {
    forall j | 0 <= j < |s.sems[m].waiters| ensures s.sems[m].waiters[j] != f {
      assert At(s, InSem(m, j), s.sems[m].waiters[j]);
    }
  }

  /** `s'` differs from `s` by what entering `f` does to states, tickets and semaphores. */
  ghost predicate EnteredFields(s: State, s': State, f: FiberId) {
    && s'.st == s.st[f := RUNNING] && s'.tickets == s.tickets - {f} && s'.regs == s.regs && s'.queue == s.queue
    && s'.lock == s.lock && s'.active == s.active && s'.retired == s.retired && s'.scheduled == s.scheduled
    && (if f in s.blocked && s.blocked[f] in s.sems then
          && s'.blocked == s.blocked - {f}
          && s'.sems == s.sems[s.blocked[f] := s.sems[s.blocked[f]].(completed := s.sems[s.blocked[f]].completed + 1)]
        else s'.blocked == s.blocked && s'.sems == s.sems)
  }

  /** A fiber that is entered comes back from the `wait` it was handed a unit for. */
  lemma EnterSems(s: State, s': State, w: ThreadId, f: FiberId)
    requires SemsInv(s) && TicketsInv(s) && At(s, InWorker(w), f) && EnteredFields(s, s', f)
    ensures SemsInv(s')
  {
    hide UnitsOk, TicketsInv;
    if f in s.blocked {
      var m := s.blocked[f];
      PoppedNotWaiting(s, w, f, m);
      assert InTransit(s', m) == InTransit(s, m) - {f};
      UnitsReturn(s.sems[m], InTransit(s, m), f);
      ChangeSem(s, s', m);
    } else {
      KeepSems(s, s');
    }
  }

  // ---------------------------------------------------------------- facts read off the invariant

  lemma Listed(s: State, l: Loc, f: FiberId)
    requires TicketsInv(s) && At(s, l, f)
    ensures f in s.tickets && f in s.st
  {
  }

  /** A fiber on a worker's stack has no second owner and is nobody's resting callback fiber. */
  lemma OnlyOwner(s: State, w: ThreadId, f: FiberId)
    requires OwnersInv(s) && CbFibersInv(s) && Owns(s, w, f)
    ensures Owned(s, f)
    ensures forall w' | w' != w :: OwnedBy(s, w') != Some(f)
    ensures forall x | x in s.cbFiber && !RunsCb(s, x) :: s.cbFiber[x] != f
    ensures forall x | x in s.cbFiber && s.cbFiber[x] == f :: x == w && RunsCb(s, w)
    ensures forall x :: PoppedBy(s, x) != FiberTask(f)
  {
    forall w' | w' != w ensures OwnedBy(s, w') != Some(f) {
      assert !Owns(s, w', f);
    }
    forall x ensures PoppedBy(s, x) != FiberTask(f) {
      assert !At(s, InWorker(x), f);
    }
    forall x | x in s.cbFiber && s.cbFiber[x] == f ensures x == w && RunsCb(s, w) {
      if RunsCb(s, x) { assert Owns(s, x, f); }
    }
  }

  lemma NoTicketNoReg(s: State, f: FiberId)
    requires TicketsInv(s) && f !in s.tickets
    ensures forall k | k in s.regs :: s.regs[k] != f
    ensures forall i | 0 <= i < |s.queue| :: s.queue[i].task != FiberTask(f)
    ensures forall x :: PoppedBy(s, x) != FiberTask(f)
  {
    forall k | k in s.regs ensures s.regs[k] != f { assert At(s, InReg(k), s.regs[k]); }
    forall i | 0 <= i < |s.queue| ensures s.queue[i].task != FiberTask(f) {
      assert !At(s, InQueue(i), f);
    }
    forall x ensures PoppedBy(s, x) != FiberTask(f) {
      assert !At(s, InWorker(x), f);
    }
  }

  /** A popped fiber is on nobody's stack and in no one else's hands. */
  lemma PoppedIsFree(s: State, w: ThreadId, f: FiberId)
    requires TicketsInv(s) && OwnersInv(s) && At(s, InWorker(w), f)
    ensures !Owned(s, f) && f in s.tickets && f in s.st && s.st[f] != RUNNING
    ensures forall w' :: OwnedBy(s, w') != Some(f)
    ensures forall w' | w' != w :: PoppedBy(s, w') != FiberTask(f)
  {
    forall w' ensures OwnedBy(s, w') != Some(f) {
      assert !Owns(s, w', f);
    }
    forall w' | w' != w ensures PoppedBy(s, w') != FiberTask(f) {
      assert !At(s, InWorker(w'), f);
    }
  }

  lemma EnteredTickets(s: State, s': State, w: ThreadId, f: FiberId)
    requires TicketsInv(s) && At(s, InWorker(w), f) && PoppedBy(s', w) == NoTask
    requires forall w' | w' != w :: PoppedBy(s', w') == PoppedBy(s, w')
    requires s'.queue == s.queue && s'.regs == s.regs && s.st.Keys <= s'.st.Keys && s'.tickets == s.tickets - {f}
    requires forall m :: Waiting(s', m) == Waiting(s, m)
    ensures TicketsInv(s')
  {
    forall x, g ensures At(s', x, g) <==> At(s, x, g) && x != InWorker(w) {
      match x
      case InSem(m, j) => assert Waiting(s', m) == Waiting(s, m);
      case _ =>
    }
    LoseTicket(s, s', f, InWorker(w));
  }

  lemma EnterCbFibers(s: State, s': State, w: ThreadId, f: FiberId)
    requires CbFibersInv(s) && f in s.tickets && OwnedBy(s, w) == None && !RunsCb(s', w)
    requires s'.cbFiber == s.cbFiber && s'.pc.Keys == s.pc.Keys && s.st.Keys <= s'.st.Keys && s'.tickets <= s.tickets
    requires forall x | x != w && x in s.pc :: s'.pc[x] == s.pc[x]
    requires forall g :: Owned(s', g) ==> Owned(s, g) || g == f
    ensures CbFibersInv(s')
  {
  }

  lemma NotBlocked(s: State, f: FiberId)
    requires SemsInv(s)
    ensures f !in s.tickets ==> f !in s.blocked
    ensures forall k | k in s.regs :: s.regs[k] !in s.blocked
  {
  }

  // ---------------------------------------------------------------- one lemma for each kind of step

  /** A step in which `w` only moves on: same fiber, same tickets; it may stop holding its entry. */
  lemma MoveOnInv(s: State, s': State, w: ThreadId, left: set<ThreadId>)
    requires Inv(s) && w in s.pc && w in s'.pc && s'.pc == s.pc[w := s'.pc[w]]
    requires s' == s.(pc := s'.pc, lock := s'.lock, active := s.active - |left|, retired := s.retired + |left|)
    requires PoppedBy(s, w) == PoppedBy(s', w) == NoTask && OwnedBy(s', w) == OwnedBy(s, w)
    requires RunsCb(s', w) == RunsCb(s, w) && HoldsEntry(s'.pc[w]) == (HoldsEntry(s.pc[w]) && w !in left)
    requires left <= {w} && (w in left ==> HoldsEntry(s.pc[w]))
    requires PcOk(s', s'.pc[w]) && !s'.pc[w].Popped? && (s'.pc[w].Scanning? <==> s'.lock == Some(w))
    requires s'.lock == s.lock || ((s.lock == None || s.lock == Some(w)) && (s'.lock == None || s'.lock == Some(w)))
    ensures Inv(s')
  {
    hide TicketsInv, OwnersInv, WorkersInv, CbFibersInv, CountsInv, SemsInv;
    assert TicketsInv(s') by { KeepTickets(s, s'); }
    KeepOwners(s, s');
    assert WorkersInv(s') by { KeepWorkers(s, s', Some(w), None); }
    assert CbFibersInv(s') by { KeepCbFibers(s, s'); }
    assert CountsInv(s') by { KeepCounts(s, s', {}, left); }
    assert SemsInv(s') by { KeepSems(s, s'); }
  }

  /** What a step of clients or wakers leaves alone: workers, owners, kept fibers and counts. */
  lemma ClientInv(s: State, s': State, f0: Option<FiberId>)
    requires WorkersInv(s) && OwnersInv(s) && CbFibersInv(s) && CountsInv(s)
    requires s'.pc == s.pc && s'.lock == s.lock && s'.cbFiber == s.cbFiber && s'.active == s.active
             && s'.retired == s.retired
    requires s.st.Keys <= s'.st.Keys && (forall f | f in s.st :: s'.st[f] == s.st[f])
    requires forall f | f in s'.st && s'.st[f] == RUNNING :: f in s.st
    requires forall f | f in s.st && Some(f) != f0 :: f in s'.tickets ==> f in s.tickets
    requires f0.Some? ==> forall w | OwnedBy(s, w) == f0 :: w in s.pc && s.pc[w].Executing?
    requires f0.Some? ==> forall w | w in s.cbFiber && !RunsCb(s, w) :: s.cbFiber[w] != f0.value
    requires forall f | f !in s.st :: f !in s'.tickets
    requires s'.queue == s.queue || s.lock.None?
    requires forall e | e in s'.queue :: e in s.queue || !e.task.NoTask?
    requires |s'.queue| - |s.queue| == s'.scheduled - s.scheduled
    ensures WorkersInv(s') && OwnersInv(s') && CbFibersInv(s') && CountsInv(s')
  {
    hide OwnersInv, CountsInv;
    KeepOwners(s, s');
    assert CbFibersInv(s') by { KeepCbFibers(s, s'); }
    assert CountsInv(s') by { KeepCounts(s, s', {}, {}); }
    forall x | x in s'.pc ensures PcOk(s', s'.pc[x]) {
      assert PcOk(s, s.pc[x]);
      assert OnStack(s.pc[x]) ==> OwnedBy(s, x) == Some(s.pc[x].fiber);
    }
  }

  lemma ScanStartInv(s: State, w: ThreadId)
    requires Inv(s) && CanScan(s, w)
    ensures Inv(DoScanStart(s, w))
  {
    hide TicketsInv, OwnersInv, CbFibersInv, CountsInv, SemsInv;
    MoveOnInv(s, DoScanStart(s, w), w, {});
  }

  lemma SkipInv(s: State, w: ThreadId)
    requires Inv(s) && CanSkip(s, w)
    ensures Inv(DoSkip(s, w))
  {
    hide TicketsInv, OwnersInv, CbFibersInv, CountsInv, SemsInv;
    MoveOnInv(s, DoSkip(s, w), w, {});
  }

  lemma ScanEndInv(s: State, w: ThreadId)
    requires Inv(s) && CanScanEnd(s, w)
    ensures Inv(DoScanEnd(s, w))
  {
    hide TicketsInv, OwnersInv, CbFibersInv, CountsInv, SemsInv;
    MoveOnInv(s, DoScanEnd(s, w), w, {});
  }

  lemma SwitchOutInv(s: State, w: ThreadId)
    requires Inv(s) && CanSwitchOut(s, w)
    ensures Inv(DoSwitchOut(s, w))
  {
    hide TicketsInv, OwnersInv, CbFibersInv, CountsInv, SemsInv;
    assert PcOk(s, s.pc[w]);
    MoveOnInv(s, DoSwitchOut(s, w), w, {});
  }

  lemma UncountInv(s: State, w: ThreadId)
    requires Inv(s) && CanUncount(s, w)
    ensures Inv(DoUncount(s, w))
  {
    hide TicketsInv, OwnersInv, CbFibersInv, CountsInv, SemsInv;
    assert PcOk(s, s.pc[w]);
    MoveOnInv(s, DoUncount(s, w), w, {w});
  }

  lemma TakeInv(s: State, w: ThreadId)
    requires Inv(s) && CanTake(s, w)
    ensures Inv(DoTake(s, w))
  {
    hide TicketsInv, OwnersInv, CbFibersInv, CountsInv, SemsInv;
    var s' := DoTake(s, w);
    var i := s.pc[w].at;
    var e := s.queue[i];
    assert e in s.queue;
    assert TicketsInv(s') by { TakeTickets(s, s', w, i); }
    if e.task.FiberTask? {
      Listed(s, InQueue(i), e.task.fiber);
      ListedIsFree(s, e.task.fiber);
    }
    KeepOwners(s, s');
    assert WorkersInv(s') by { KeepWorkers(s, s', Some(w), None); }
    assert CbFibersInv(s') by { KeepCbFibers(s, s'); }
    assert CountsInv(s') by { KeepCounts(s, s', {w}, {}); }
    assert SemsInv(s') by { KeepSems(s, s'); }
  }

  lemma StoreInv(s: State, w: ThreadId, x: FiberState)
    requires Inv(s) && CanStore(s, w, x)
    ensures Inv(DoStore(s, w, x))
  {
    hide TicketsInv, OwnersInv, CbFibersInv, CountsInv, SemsInv;
    var s' := DoStore(s, w, x);
    assert PcOk(s, s.pc[w]);
    var f := s.pc[w].fiber;
    OnlyOwner(s, w, f);
    assert TicketsInv(s') by { KeepTickets(s, s'); }
    KeepOwners(s, s');
    assert WorkersInv(s') by { KeepWorkers(s, s', Some(w), Some(f)); }
    assert CbFibersInv(s') by { KeepCbFibers(s, s'); }
    assert CountsInv(s') by { KeepCounts(s, s', {}, {}); }
    assert SemsInv(s') by { KeepSems(s, s'); }
  }

  lemma EnterInv(s: State, w: ThreadId)
    requires Inv(s) && CanEnter(s, w)
    ensures Inv(DoEnter(s, w))
  {
    hide TicketsInv, OwnersInv, CbFibersInv, CountsInv, SemsInv;
    var s' := DoEnter(s, w);
    var f := s.pc[w].entry.task.fiber;
    assert At(s, InWorker(w), f);
    PoppedIsFree(s, w, f);
    assert EnteredFields(s, s', f);
    assert TicketsInv(s') by { EnteredTickets(s, s', w, f); }
    GainOwner(s, s', w, f);
    assert WorkersInv(s') by { KeepWorkers(s, s', Some(w), Some(f)); }
    assert CbFibersInv(s') by { EnterCbFibers(s, s', w, f); }
    assert CountsInv(s') by { KeepCounts(s, s', {}, {}); }
    assert SemsInv(s') by { EnterSems(s, s', w, f); }
  }

  lemma DropInv(s: State, w: ThreadId)
    requires Inv(s) && CanDrop(s, w)
    ensures Inv(DoDrop(s, w))
  {
    hide TicketsInv, OwnersInv, CbFibersInv, CountsInv, SemsInv;
    var s' := DoDrop(s, w);
    var f := s.pc[w].entry.task.fiber;
    assert At(s, InWorker(w), f);
    PoppedIsFree(s, w, f);
    assert TicketsInv(s') by { EnteredTickets(s, s', w, f); }
    KeepOwners(s, s');
    assert WorkersInv(s') by { KeepWorkers(s, s', Some(w), None); }
    assert CbFibersInv(s') by { KeepCbFibers(s, s'); }
    assert CountsInv(s') by { KeepCounts(s, s', {}, {w}); }
    assert SemsInv(s') by { KeepSems(s, s'); }
  }

  lemma EnterCbInv(s: State, w: ThreadId, f: FiberId)
    requires Inv(s) && CanEnterCb(s, w, f)
    ensures Inv(DoEnterCb(s, w, f))
  {
    hide TicketsInv, OwnersInv, CbFibersInv, CountsInv, SemsInv;
    var s' := DoEnterCb(s, w, f);
    CbFiberIsFree(s, w, f);
    NotBlocked(s, f);
    assert EnteredFields(s, s', f);
    assert TicketsInv(s') by { KeepTickets(s, s'); }
    GainOwner(s, s', w, f);
    assert WorkersInv(s') by { KeepWorkers(s, s', Some(w), Some(f)); }
    assert CbFibersInv(s') by { StartCbFibers(s, s', w, f); }
    assert CountsInv(s') by { KeepCounts(s, s', {}, {}); }
    assert SemsInv(s') by { KeepSems(s, s'); }
  }

  /** The fiber for the next callback is at rest. */
  lemma CbFiberIsFree(s: State, w: ThreadId, f: FiberId)
    requires Inv(s) && CanEnterCb(s, w, f)
    ensures f !in s.tickets && !Owned(s, f)
    ensures forall x :: OwnedBy(s, x) != Some(f)
    ensures forall x :: PoppedBy(s, x) != FiberTask(f)
    ensures forall x | x in s.cbFiber && s.cbFiber[x] == f :: x == w
  {
    hide OwnersInv, CountsInv, SemsInv;
    forall x ensures OwnedBy(s, x) != Some(f) {
      if w !in s.cbFiber && x in s.pc { assert PcOk(s, s.pc[x]); }
      assert w in s.cbFiber ==> !Owns(s, x, f);
    }
    NoTicketNoReg(s, f);
  }

  lemma StartCbFibers(s: State, s': State, w: ThreadId, f: FiberId)
    requires CbFibersInv(s) && OwnedBy(s, w) == None && w in s.pc
    requires forall x | x in s.cbFiber && s.cbFiber[x] == f :: x == w
    requires s'.cbFiber == s.cbFiber[w := f] && s'.pc == s.pc[w := Executing(f, true)]
    requires s'.st == s.st[f := RUNNING] && s'.tickets <= s.tickets
    requires forall g :: Owned(s', g) ==> Owned(s, g) || g == f
    ensures CbFibersInv(s')
  {
  }

  /** `w` is done with `f`; a callback fiber stays with it only if it ended. */
  lemma LeaveCbFibers(s: State, s': State, w: ThreadId, f: FiberId, keep: bool)
    requires CbFibersInv(s) && Owns(s, w, f)
    requires forall x | x in s.cbFiber && s.cbFiber[x] == f :: x == w && RunsCb(s, w)
    requires s'.cbFiber == if RunsCb(s, w) && !keep then s.cbFiber - {w} else s.cbFiber
    requires s'.pc == s.pc[w := Top] && s.st.Keys <= s'.st.Keys && s'.tickets <= s.tickets + {f}
    requires keep ==> f !in s'.tickets
    requires forall g :: Owned(s', g) <==> Owned(s, g) && g != f
    ensures CbFibersInv(s')
  {
  }

  /** A fiber's ticket joins the list. */
  lemma PushTicket(s: State, s': State, f: FiberId, thread: Option<ThreadId>)
    requires TicketsInv(s) && f !in s.tickets && f in s'.st && s.st.Keys <= s'.st.Keys && s'.tickets == s.tickets + {f}
    requires s'.queue == s.queue + [Entry(FiberTask(f), thread)] && s'.regs == s.regs
    requires forall m :: Waiting(s', m) == Waiting(s, m)
    requires forall w, g :: PoppedBy(s', w) == FiberTask(g) <==> PoppedBy(s, w) == FiberTask(g)
    ensures TicketsInv(s')
  {
    forall x, g ensures At(s', x, g) <==> At(s, x, g) || (x == InQueue(|s.queue|) && g == f) {
      match x
      case InSem(m, j) => assert Waiting(s', m) == Waiting(s, m);
      case _ =>
    }
    AddTicket(s, s', f, InQueue(|s.queue|));
  }

  /** What letting go of a fiber does to the workers, whatever becomes of the fiber. */
  lemma LetGo(s: State, s': State, w: ThreadId, f: FiberId, keep: bool)
    requires WorkersInv(s) && OwnersInv(s) && CbFibersInv(s)
    requires w in s.pc && s.pc[w].Settling? && s.pc[w].fiber == f && s'.pc == s.pc[w := Top] && s'.lock == s.lock
    requires s'.cbFiber == if s.pc[w].byCb && !keep then s.cbFiber - {w} else s.cbFiber
    requires f in s.st && f in s'.st && s'.st == s.st[f := s'.st[f]] && s'.st[f] != RUNNING
    requires s'.tickets <= s.tickets + {f} && (keep ==> f !in s'.tickets)
    requires s'.queue == s.queue || (s.lock.None? && s'.queue == s.queue + [Entry(FiberTask(f), None)])
    ensures WorkersInv(s') && OwnersInv(s') && CbFibersInv(s')
  {
    hide OwnersInv, CbFibersInv;
    OnlyOwner(s, w, f);
    LoseOwner(s, s', w, f);
    assert WorkersInv(s') by { KeepWorkers(s, s', Some(w), Some(f)); }
    LeaveCbFibers(s, s', w, f, keep);
  }

  lemma SettlingFiber(s: State, w: ThreadId)
    requires WorkersInv(s) && w in s.pc && s.pc[w].Settling?
    ensures var f := s.pc[w].fiber;
            f in s.st && (s.st[f] == RUNNING || ((s.st[f] == READY || Finished(s.st[f])) && f !in s.tickets))
  {
    assert PcOk(s, s.pc[w]);
  }

  lemma SettleReadyInv(s: State, s': State, w: ThreadId, f: FiberId)
    requires Inv(s) && w in s.pc && s.pc[w].Settling? && s.pc[w].fiber == f && s.lock.None? && f in s.st
             && s.st[f] == READY && f !in s.tickets
    requires s' == Push(Goto(Released(s, w), w, Top).(tickets := s.tickets + {f}), FiberTask(f), None)
    ensures Inv(s')
  {
    hide TicketsInv, OwnersInv, WorkersInv, CbFibersInv, CountsInv, SemsInv;
    LetGo(s, s', w, f, false);
    assert TicketsInv(s') by { PushTicket(s, s', f, None); }
    assert CountsInv(s') by { KeepCounts(s, s', {}, {}); }
    assert SemsInv(s') by { KeepSems(s, s'); }
  }

  lemma SettleHoldInv(s: State, s': State, w: ThreadId, f: FiberId)
    requires Inv(s) && w in s.pc && s.pc[w].Settling? && s.pc[w].fiber == f && f in s.st && s.st[f] == RUNNING
    requires s' == Goto(Released(s, w), w, Top).(st := s.st[f := HOLD])
    ensures Inv(s')
  {
    hide TicketsInv, OwnersInv, WorkersInv, CbFibersInv, CountsInv, SemsInv;
    LetGo(s, s', w, f, false);
    assert TicketsInv(s') by { KeepTickets(s, s'); }
    assert CountsInv(s') by { KeepCounts(s, s', {}, {}); }
    assert SemsInv(s') by { KeepSems(s, s'); }
  }

  lemma SettleEndInv(s: State, s': State, w: ThreadId, f: FiberId)
    requires Inv(s) && w in s.pc && s.pc[w].Settling? && s.pc[w].fiber == f && f in s.st && Finished(s.st[f])
             && f !in s.tickets
    requires s' == Goto(s, w, Top).(st := if s.pc[w].byCb then s.st[f := INIT] else s.st)
    ensures Inv(s')
  {
    hide TicketsInv, OwnersInv, WorkersInv, CbFibersInv, CountsInv, SemsInv;
    LetGo(s, s', w, f, s.pc[w].byCb);
    assert TicketsInv(s') by { KeepTickets(s, s'); }
    assert CountsInv(s') by { KeepCounts(s, s', {}, {}); }
    assert SemsInv(s') by { KeepSems(s, s'); }
  }

  lemma SettleInv(s: State, w: ThreadId)
    requires Inv(s) && CanSettle(s, w)
    ensures Inv(DoSettle(s, w))
  {
    hide TicketsInv, OwnersInv, WorkersInv, CbFibersInv, CountsInv, SemsInv;
    var s', f := DoSettle(s, w), s.pc[w].fiber;
    SettlingFiber(s, w);
    if s.st[f] == READY { SettleReadyInv(s, s', w, f); }
    else if Finished(s.st[f]) { SettleEndInv(s, s', w, f); }
    else { SettleHoldInv(s, s', w, f); }
  }

  lemma RunningFiber(s: State, w: ThreadId, f: FiberId)
    requires WorkersInv(s) && OwnersInv(s) && CbFibersInv(s) && Running(s, w) && s.pc[w].fiber == f
    ensures f in s.st && s.st[f] == RUNNING
    ensures forall x :: OwnedBy(s, x) == Some(f) ==> x == w
    ensures forall x | x in s.cbFiber && !RunsCb(s, x) :: s.cbFiber[x] != f
  {
    hide OwnersInv, CbFibersInv;
    assert PcOk(s, s.pc[w]);
    OnlyOwner(s, w, f);
  }

  lemma TicketsKnown(s: State)
    requires TicketsInv(s)
    ensures forall f | f in s.tickets :: f in s.st
  {
  }

  lemma RegisterInv(s: State, w: ThreadId, k: WakerKey)
    requires Inv(s) && CanRegister(s, w, k)
    ensures Inv(DoRegister(s, w, k))
  {
    hide TicketsInv, OwnersInv, WorkersInv, CbFibersInv, CountsInv, SemsInv;
    var s' := DoRegister(s, w, k);
    TicketsKnown(s);
    var f := s.pc[w].fiber;
    RunningFiber(s, w, f);
    NotBlocked(s, f);
    forall x, g ensures At(s', x, g) <==> At(s, x, g) || (x == InReg(k) && g == f) {}
    AddTicket(s, s', f, InReg(k));
    ClientInv(s, s', Some(f));
    assert SemsInv(s') by { KeepSems(s, s'); }
  }

  lemma SwitchToInv(s: State, w: ThreadId, thread: Option<ThreadId>)
    requires Inv(s) && CanSwitchTo(s, w)
    ensures Inv(DoSwitchTo(s, w, thread))
  {
    hide TicketsInv, OwnersInv, WorkersInv, CbFibersInv, CountsInv, SemsInv;
    var s' := DoSwitchTo(s, w, thread);
    TicketsKnown(s);
    var f := s.pc[w].fiber;
    RunningFiber(s, w, f);
    assert TicketsInv(s') by { PushTicket(s, s', f, thread); }
    ClientInv(s, s', Some(f));
    assert SemsInv(s') by { KeepSems(s, s'); }
  }

  lemma WakeInv(s: State, k: WakerKey, thread: Option<ThreadId>)
    requires Inv(s) && CanWake(s, k)
    ensures Inv(DoWake(s, k, thread))
  {
    hide TicketsInv, OwnersInv, WorkersInv, CbFibersInv, CountsInv, SemsInv;
    var s' := DoWake(s, k, thread);
    TicketsKnown(s);
    var f := s.regs[k];
    forall x, g ensures At(s', x, g) <==> (At(s, x, g) && x != InReg(k)) || (x == InQueue(|s.queue|) && g == f) {}
    MoveTicket(s, s', f, InReg(k), InQueue(|s.queue|));
    ClientInv(s, s', None);
    assert SemsInv(s') by { KeepSems(s, s'); }
  }

  lemma UnregisterInv(s: State, k: WakerKey)
    requires Inv(s) && k in s.regs
    ensures Inv(DoUnregister(s, k))
  {
    hide TicketsInv, OwnersInv, WorkersInv, CbFibersInv, CountsInv, SemsInv;
    var s' := DoUnregister(s, k);
    TicketsKnown(s);
    var f := s.regs[k];
    NotBlocked(s, f);
    forall x, g ensures At(s', x, g) <==> At(s, x, g) && x != InReg(k) {}
    LoseTicket(s, s', f, InReg(k));
    ClientInv(s, s', None);
    assert SemsInv(s') by { KeepSems(s, s'); }
  }

  lemma SemTryWaitInv(s: State, w: ThreadId, m: SemId)
    requires Inv(s) && CanSemTryWait(s, w, m)
    ensures Inv(DoSemTryWait(s, m))
  {
    hide TicketsInv, OwnersInv, WorkersInv, CbFibersInv, CountsInv, SemsInv;
    var s' := DoSemTryWait(s, m);
    TicketsKnown(s);
    if s.sems[m].concurrency > 0 {
      assert SemsInv(s') by { AcquireSems(s, s', m); }
      assert TicketsInv(s') by { KeepTickets(s, s'); }
      ClientInv(s, s', None);
    }
  }

  lemma SemWaitInv(s: State, w: ThreadId, m: SemId)
    requires Inv(s) && CanSemWait(s, w, m)
    ensures Inv(DoSemWait(s, w, m))
  {
    hide TicketsInv, OwnersInv, WorkersInv, CbFibersInv, CountsInv, SemsInv;
    var s' := DoSemWait(s, w, m);
    TicketsKnown(s);
    if s.sems[m].concurrency > 0 {
      SemTryWaitInv(s, w, m);
    } else {
      var f := s.pc[w].fiber;
      RunningFiber(s, w, f);
      NoTicketNoReg(s, f);
      assert TicketsInv(s') by { ParkTickets(s, s', m, f); }
      assert SemsInv(s') by { ParkSems(s, s', m, f); }
      ClientInv(s, s', Some(f));
    }
  }

  lemma ParkTickets(s: State, s': State, m: SemId, f: FiberId)
    requires TicketsInv(s) && f !in s.tickets && f in s.st && m in s.sems && s.sems[m].concurrency == 0
    requires s'.sems == s.sems[m := Park(s.sems[m], f)] && s'.tickets == s.tickets + {f}
    requires s'.queue == s.queue && s'.regs == s.regs && s'.pc == s.pc && s'.st == s.st
    ensures TicketsInv(s')
  {
    forall x, g ensures At(s', x, g) <==> At(s, x, g) || (x == InSem(m, |s.sems[m].waiters|) && g == f) {}
    AddTicket(s, s', f, InSem(m, |s.sems[m].waiters|));
  }

  lemma SemNotifyInv(s: State, m: SemId)
    requires Inv(s) && CanSemNotify(s, m)
    ensures Inv(DoSemNotify(s, m))
  {
    hide TicketsInv, OwnersInv, WorkersInv, CbFibersInv, CountsInv, SemsInv;
    var s' := DoSemNotify(s, m);
    TicketsKnown(s);
    if s.sems[m].waiters != [] {
      assert TicketsInv(s') by { NotifyTickets(s, s', m); }
    } else {
      assert TicketsInv(s') by { KeepTickets(s, s'); }
    }
    assert SemsInv(s') by { NotifySems(s, s', m); }
    ClientInv(s, s', None);
  }

  lemma ScheduleInv(s: State, f: FiberId, thread: Option<ThreadId>)
    requires Inv(s) && CanSchedule(s, f)
    ensures Inv(DoSchedule(s, f, thread))
  {
    hide TicketsInv, OwnersInv, WorkersInv, CbFibersInv, CountsInv, SemsInv;
    var s' := DoSchedule(s, f, thread);
    TicketsKnown(s);
    forall x ensures OwnedBy(s, x) != Some(f) {
      assert !Owns(s, x, f);
    }
    NotBlocked(s, f);
    assert TicketsInv(s') by { PushTicket(s, s', f, thread); }
    ClientInv(s, s', Some(f));
    assert SemsInv(s') by { KeepSems(s, s'); }
  }

  lemma ScheduleCbInv(s: State, cb: Callback, thread: Option<ThreadId>)
    requires Inv(s) && s.lock.None?
    ensures Inv(Push(s, CallbackTask(cb), thread))
  {
    hide TicketsInv, OwnersInv, WorkersInv, CbFibersInv, CountsInv, SemsInv;
    var s' := Push(s, CallbackTask(cb), thread);
    TicketsKnown(s);
    assert TicketsInv(s') by { PushCbTickets(s, s', cb, thread); }
    ClientInv(s, s', None);
    assert SemsInv(s') by { KeepSems(s, s'); }
  }

  lemma PushCbTickets(s: State, s': State, cb: Callback, thread: Option<ThreadId>)
    requires TicketsInv(s) && s' == Push(s, CallbackTask(cb), thread)
    ensures TicketsInv(s')
  {
    forall x, g ensures At(s', x, g) <==> At(s, x, g) {}
    forall f | f in s.tickets ensures HasTicket(s', f) {
      var l :| At(s, l, f);
      assert At(s', l, f);
    }
  }

  lemma CreateInv(s: State, f: FiberId)
    requires Inv(s) && f !in s.st
    ensures Inv(s.(st := s.st[f := INIT]))
  {
    hide TicketsInv, OwnersInv, WorkersInv, CbFibersInv, CountsInv, SemsInv;
    var s' := s.(st := s.st[f := INIT]);
    TicketsKnown(s);
    assert TicketsInv(s') by { KeepTickets(s, s'); }
    ClientInv(s, s', None);
    assert SemsInv(s') by { KeepSems(s, s'); }
  }

  // ---------------------------------------------------------------- every step, every run

  lemma StepInv(s: State, a: Action)
    requires Inv(s) && Enabled(s, a)
    ensures Inv(Apply(s, a))
  {
    hide Inv;
    match a
    case ScanStart(w) => ScanStartInv(s, w);
    case ScanSkip(w) => SkipInv(s, w);
    case ScanTake(w) => TakeInv(s, w);
    case ScanEnd(w) => ScanEndInv(s, w);
    case Enter(w) => EnterInv(s, w);
    case DropEnded(w) => DropInv(s, w);
    case EnterCb(w, f) => EnterCbInv(s, w, f);
    case StoreState(w, x) => StoreInv(s, w, x);
    case SwitchOut(w) => SwitchOutInv(s, w);
    case Uncount(w) => UncountInv(s, w);
    case Settle(w) => SettleInv(s, w);
    case Register(w, k) => RegisterInv(s, w, k);
    case Wake(k, thread) => WakeInv(s, k, thread);
    case Unregister(k) => UnregisterInv(s, k);
    case SwitchTo(w, thread) => SwitchToInv(s, w, thread);
    case SemTryWait(w, m) => SemTryWaitInv(s, w, m);
    case SemWait(w, m) => SemWaitInv(s, w, m);
    case SemNotify(m) => SemNotifyInv(s, m);
    case Create(f) => CreateInv(s, f);
    case ScheduleFiber(f, thread) => ScheduleInv(s, f, thread);
    case ScheduleCb(cb, thread) => ScheduleCbInv(s, cb, thread);
  }

  lemma {:induction false} RunInv(s: State, run: seq<Action>)
    requires Inv(s) && Legal(s, run)
    ensures Inv(After(s, run))
    decreases |run|
  {
    if run != [] {
      StepInv(s, run[0]);
      RunInv(Apply(s, run[0]), run[1..]);
    }
  }

  // ---------------------------------------------------------------- what holds in every reachable state

  /** `f` has a ticket at exactly one place. */
  ghost predicate OneTicket(s: State, f: FiberId) {
    exists l :: At(s, l, f) && forall l' :: At(s, l', f) ==> l' == l
  }

  /** On the fiber's own stack, its final instructions included. */
  predicate Executes(s: State, w: ThreadId, f: FiberId) {
    w in s.pc && (s.pc[w].Executing? || s.pc[w].Leaving?) && s.pc[w].fiber == f
  }

  /**
   No fiber is on two threads at once, and a worker about to enter a fiber finds it off every stack and
   not RUNNING, so the check inside `swapIn` never fails.
   */
  lemma ExclusiveExecution(s0: State, run: seq<Action>)
    requires Init(s0) && Legal(s0, run)
    ensures var s := After(s0, run);
            && (forall w1, w2, f | Executes(s, w1, f) && Executes(s, w2, f) :: w1 == w2)
            && (forall w, f | PoppedBy(s, w) == FiberTask(f) ::
                  && f in s.st && s.st[f] != RUNNING && !Owned(s, f)
                  && (forall w' | PoppedBy(s, w') == FiberTask(f) :: w' == w))
            && (forall w, f | Executes(s, w, f) :: f in s.st && (s.st[f] == RUNNING || f !in s.tickets))
  {
    InitInv(s0);
    RunInv(s0, run);
    var s := After(s0, run);
    forall w1, w2, f | Executes(s, w1, f) && Executes(s, w2, f) ensures w1 == w2 {
      assert Owns(s, w1, f) && Owns(s, w2, f);
    }
    forall w, f | PoppedBy(s, w) == FiberTask(f)
      ensures f in s.st && s.st[f] != RUNNING && !Owned(s, f)
      ensures forall w' | PoppedBy(s, w') == FiberTask(f) :: w' == w
    {
      PoppedIsFree(s, w, f);
    }
    forall w, f | Executes(s, w, f) ensures f in s.st && (s.st[f] == RUNNING || f !in s.tickets) {
      assert PcOk(s, s.pc[w]);
    }
  }

  /** A registered or woken fiber is in exactly one place; any other fiber is in none. */
  lemma NoTicketLostOrDoubled(s0: State, run: seq<Action>, f: FiberId)
    requires Init(s0) && Legal(s0, run)
    ensures f in After(s0, run).tickets <==> HasTicket(After(s0, run), f)
    ensures f in After(s0, run).tickets ==> OneTicket(After(s0, run), f)
  {
    InitInv(s0);
    RunInv(s0, run);
    var s := After(s0, run);
    if f in s.tickets {
      var l :| At(s, l, f);
      assert forall l' | At(s, l', f) :: l' == l;
    }
  }

  /** The only steps that may use up the ticket of `f`. */
  ghost predicate Consumes(s: State, a: Action, f: FiberId) {
    match a
    case Enter(w) => PoppedBy(s, w) == FiberTask(f)
    case DropEnded(w) => PoppedBy(s, w) == FiberTask(f)
    case Unregister(k) => k in s.regs && s.regs[k] == f
    case _ => false
  }

  ghost predicate Untouched(s: State, run: seq<Action>, f: FiberId)
    requires Legal(s, run)
    decreases |run|
  {
    run != [] ==> !Consumes(s, run[0], f) && Untouched(Apply(s, run[0]), run[1..], f)
  }

  lemma StepKeepsTicket(s: State, a: Action, f: FiberId)
    requires Inv(s) && Enabled(s, a) && f in s.tickets && !Consumes(s, a, f)
    ensures f in Apply(s, a).tickets
  {
    hide TicketsInv, WorkersInv, OwnersInv, CountsInv, SemsInv;
    if a.EnterCb? {
      CbFiberIsFree(s, a.w, a.f);
    }
  }

  /**
   A wake-up is never lost: whatever the other threads and clients do, a registered or woken fiber
   keeps exactly one ticket until a worker enters it or its registration is taken back.
   */
  lemma {:induction false} WakeUpSurvives(s: State, run: seq<Action>, f: FiberId)
    requires Inv(s) && Legal(s, run) && f in s.tickets && Untouched(s, run, f)
    ensures f in After(s, run).tickets && OneTicket(After(s, run), f)
    decreases |run|
  {
    if run == [] {
      var l :| At(s, l, f);
      assert forall l' | At(s, l', f) :: l' == l;
    } else {
      StepKeepsTicket(s, run[0], f);
      StepInv(s, run[0]);
      WakeUpSurvives(Apply(s, run[0]), run[1..], f);
    }
  }

  ghost predicate Queued(s: State, f: FiberId) {
    exists i: nat :: i < |s.queue| && s.queue[i].task == FiberTask(f)
  }

  /** The state after the first `n` steps of a run. */
  ghost function StateAt(s: State, run: seq<Action>, n: nat): State
    requires Legal(s, run) && n <= |run|
    decreases n
  {
    if n == 0 then s else StateAt(Apply(s, run[0]), run[1..], n - 1)
  }

  lemma {:induction false} StepAt(s: State, run: seq<Action>, n: nat)
    requires Legal(s, run) && n < |run|
    ensures Enabled(StateAt(s, run, n), run[n]) && StateAt(s, run, n + 1) == Apply(StateAt(s, run, n), run[n])
    decreases n
  {
    hide Enabled, Apply;
    if n > 0 {
      StepAt(Apply(s, run[0]), run[1..], n - 1);
    }
  }

  lemma {:induction false} InvAt(s: State, run: seq<Action>, n: nat)
    requires Inv(s) && Legal(s, run) && n <= |run|
    ensures Inv(StateAt(s, run, n))
    decreases n
  {
    hide Inv, Enabled, Apply;
    if n > 0 {
      StepInv(s, run[0]);
      InvAt(Apply(s, run[0]), run[1..], n - 1);
    }
  }

  lemma {:induction false} LastState(s: State, run: seq<Action>)
    requires Legal(s, run)
    ensures StateAt(s, run, |run|) == After(s, run)
    decreases |run|
  {
    hide Enabled, Apply;
    if run != [] {
      LastState(Apply(s, run[0]), run[1..]);
    }
  }

  /** A fiber woken while it is still RUNNING stays on the list whatever happens, as long as it is RUNNING. */
  lemma {:induction false} EarlyWakeUpStaysQueued(s: State, run: seq<Action>, f: FiberId, n: nat)
    requires Legal(s, run) && n <= |run| && Queued(s, f)
    requires forall i | 0 <= i < n :: f in StateAt(s, run, i).st && StateAt(s, run, i).st[f] == RUNNING
    ensures Queued(StateAt(s, run, n), f)
  {
    hide Enabled, Apply, Queued;
    if n > 0 {
      EarlyWakeUpStaysQueued(s, run, f, n - 1);
      StepAt(s, run, n - 1);
      EarlyWakeUpStep(StateAt(s, run, n - 1), run[n - 1], f);
    }
  }

  lemma EarlyWakeUpStep(s: State, a: Action, f: FiberId)
    requires Enabled(s, a) && Queued(s, f) && f in s.st && s.st[f] == RUNNING
    ensures Queued(Apply(s, a), f)
  {
    var i: nat :| i < |s.queue| && s.queue[i].task == FiberTask(f);
    var q, q' := s.queue, Apply(s, a).queue;
    if a.ScanTake? {
      var j := s.pc[a.w].at;
      assert i != j;
      assert q'[if i < j then i else i - 1] == q[i];
    } else {
      hide Enabled, Apply;
      StepMoves(s, a);
      assert q'[i] == q'[..|q|][i];
    }
  }

  // ---------------------------------------------------------------- what one step moves

  predicate ByScan(a: Action) {
    a.ScanStart? || a.ScanSkip? || a.ScanTake? || a.ScanEnd? || a.StoreState? || a.SwitchOut? || a.Uncount?
  }

  predicate ByWorker(a: Action) {
    a.Enter? || a.DropEnded? || a.EnterCb? || a.Settle?
  }

  /** What a worker goes on to with the entry it holds: the same entry, or the fiber it is run on. */
  predicate Continues(p: Pc, p': Pc) {
    if p.Popped? then
      p'.Executing? && if p'.byCb then p.entry.task.CallbackTask? else p.entry.task == FiberTask(p'.fiber)
    else
      OnStack(p) && OnStack(p') && p'.fiber == p.fiber && p'.byCb == p.byCb
  }

  predicate Releases(a: Action) {
    a.DropEnded? || a.Uncount?
  }

  /** A worker's own step moves that worker alone: it begins, goes on with or ends a search, takes an entry or not. */
  predicate Moved(s: State, a: Action, s': State)
    requires ByScan(a) || ByWorker(a)
  {
    && a.w in s.pc && a.w in s'.pc && s'.pc == s.pc[a.w := s'.pc[a.w]]
    && (s.pc[a.w].Scanning? <==> a.ScanSkip? || a.ScanTake? || a.ScanEnd?)
    && (s'.pc[a.w].Scanning? <==> a.ScanStart? || a.ScanSkip?)
    && (a.ScanStart? ==> s'.pc[a.w].at == 0)
    && (a.ScanSkip? ==> s'.pc[a.w].at == s.pc[a.w].at + 1)
    && (HoldsEntry(s'.pc[a.w]) <==> a.ScanTake? || (HoldsEntry(s.pc[a.w]) && !Releases(a)))
    && (Releases(a) ==> HoldsEntry(s.pc[a.w]) && s'.queue == s.queue)
    && (HoldsEntry(s.pc[a.w]) && HoldsEntry(s'.pc[a.w]) ==> Continues(s.pc[a.w], s'.pc[a.w]))
    && s'.retired == s.retired + if Releases(a) then 1 else 0
  }

  /** An entry leaves the list for the hands of the worker that looks at it. */
  predicate Took(s: State, w: ThreadId, s': State) {
    && Looking(s, w) && w in s'.pc && s'.pc[w] == Popped(s.queue[s.pc[w].at])
    && s'.queue == RemoveAt(s.queue, s.pc[w].at) && s'.scheduled == s.scheduled
  }

  /** The list is as it was, or there is one more entry at its end, put there while nobody held the lock. */
  predicate Appended(s: State, s': State) {
    if s'.queue == s.queue then s'.scheduled == s.scheduled
    else
      && s.lock.None? && |s'.queue| == |s.queue| + 1 && s'.queue[..|s.queue|] == s.queue
      && s'.scheduled == s.scheduled + 1
  }

  lemma PushAppends(s: State, task: Task, thread: Option<ThreadId>)
    requires !task.NoTask?
    ensures var s' := Push(s, task, thread);
            s'.pc == s.pc && s'.retired == s.retired && (s.lock.None? ==> Appended(s, s'))
  {
  }

  lemma EnteredMoves(s: State, w: ThreadId, f: FiberId, byCb: bool)
    ensures var s' := Entered(s, w, f, byCb);
            && s'.pc == s.pc[w := Executing(f, byCb)] && s'.queue == s.queue
            && s'.retired == s.retired && s'.scheduled == s.scheduled
  {
  }

  lemma SettleMoves(s: State, w: ThreadId)
    requires CanSettle(s, w)
    ensures w in s.pc && s.pc[w].Settling?
    ensures DoSettle(s, w).pc == s.pc[w := Top] && DoSettle(s, w).retired == s.retired && Appended(s, DoSettle(s, w))
  {
    hide Push, Scheduled, Finished;
    var f := s.pc[w].fiber;
    if s.st[f] == READY {
      var s1 := Goto(Released(s, w), w, Top).(tickets := s.tickets + {f});
      assert s1.pc == s.pc[w := Top] && s1.queue == s.queue && s1.lock == s.lock;
      PushAppends(s1, FiberTask(f), None);
    }
  }

  lemma ScanMoves(s: State, a: Action)
    requires Enabled(s, a) && ByScan(a)
    ensures Moved(s, a, Apply(s, a))
    ensures if a.ScanTake? then Took(s, a.w, Apply(s, a))
            else Apply(s, a).queue == s.queue && Apply(s, a).scheduled == s.scheduled
  {
  }

  lemma WorkerMoves(s: State, a: Action)
    requires Enabled(s, a) && ByWorker(a)
    ensures Moved(s, a, Apply(s, a)) && Appended(s, Apply(s, a))
  {
    hide Entered, CanSettle, DoSettle;
    match a {
      case Enter(w) => EnteredMoves(s, w, s.pc[w].entry.task.fiber, false);
      case EnterCb(w, f) => EnteredMoves(s.(cbFiber := s.cbFiber[w := f]), w, f, true);
      case DropEnded(w) =>
      case Settle(w) => SettleMoves(s, w);
    }
  }

  lemma ClientMoves(s: State, a: Action)
    requires Enabled(s, a) && !ByScan(a) && !ByWorker(a)
    ensures Apply(s, a).pc == s.pc && Apply(s, a).retired == s.retired && Appended(s, Apply(s, a))
  {
    hide Acquire, Park, Release, Push;
    match a {
      case Wake(k, thread) => PushAppends(s.(regs := s.regs - {k}), FiberTask(s.regs[k]), thread);
      case SwitchTo(w, thread) =>
        PushAppends(s.(tickets := s.tickets + {s.pc[w].fiber}), FiberTask(s.pc[w].fiber), thread);
      case SemNotify(m) =>
        if s.sems[m].waiters != [] {
          PushAppends(s.(sems := s.sems[m := Release(s.sems[m])]), FiberTask(s.sems[m].waiters[0]), None);
        }
      case ScheduleFiber(f, thread) => PushAppends(s.(tickets := s.tickets + {f}), FiberTask(f), thread);
      case ScheduleCb(cb, thread) => PushAppends(s, CallbackTask(cb), thread);
      case _ =>
    }
  }

  /** All steps together. */
  lemma StepMoves(s: State, a: Action)
    requires Enabled(s, a)
    ensures var s' := Apply(s, a);
            if ByScan(a) || ByWorker(a) then Moved(s, a, s') else s'.pc == s.pc && s'.retired == s.retired
    ensures if a.ScanTake? then Took(s, a.w, Apply(s, a)) else Appended(s, Apply(s, a))
  {
    hide Enabled, Apply, ByWorker, Moved;
    if ByScan(a) {
      ScanMoves(s, a);
    } else if ByWorker(a) {
      WorkerMoves(s, a);
    } else {
      ClientMoves(s, a);
    }
  }

  /** Units given to callers that are back never exceed what was there at first plus the notifications. */
  lemma SemaphoreBound(s0: State, run: seq<Action>, m: SemId)
    requires Init(s0) && Legal(s0, run) && m in After(s0, run).sems
    ensures var x := After(s0, run).sems[m];
            && x.completed + |InTransit(After(s0, run), m)| + x.concurrency == x.initial + x.notified
            && (x.concurrency > 0 ==> x.waiters == [])
            && x.handed <= x.arrivals
            && x.arrivals[|x.handed|..] == x.waiters
  {
    InitInv(s0);
    RunInv(s0, run);
    var s := After(s0, run);
    assert UnitsOk(s.sems[m], InTransit(s, m));
  }

  // ---------------------------------------------------------------- the search, while others go on

  predicate Scans(s: State, w: ThreadId) {
    w in s.pc && s.pc[w].Scanning?
  }

  /** While `w` searches, nobody else changes the list: its own steps pass over an entry or end the search. */
  lemma HeldStep(s: State, a: Action, w: ThreadId)
    requires WorkersInv(s) && Enabled(s, a) && Scans(s, w)
    ensures var s' := Apply(s, a);
            if a == ScanSkip(w) then s'.queue == s.queue && Scans(s', w) && s'.pc[w].at == s.pc[w].at + 1
            else if a == ScanTake(w) || a == ScanEnd(w) then !Scans(s', w)
            else s'.queue == s.queue && Scans(s', w) && s'.pc[w] == s.pc[w]
  {
    hide Enabled, Apply, PcOk, PinnedElsewhere;
    StepMoves(s, a);
    assert s.lock == Some(w);
    if ByScan(a) {
      ScanMoves(s, a);
    }
  }

  /** A search begins at the front of the list. */
  lemma BeginStep(s: State, a: Action, w: ThreadId)
    requires Enabled(s, a) && !Scans(s, w) && Scans(Apply(s, a), w)
    ensures a == ScanStart(w) && Apply(s, a).queue == s.queue && Apply(s, a).pc[w].at == 0
  {
    hide Enabled, Apply;
    StepMoves(s, a);
    if a == ScanStart(w) {
      ScanMoves(s, a);
    }
  }

  /** At step `n`, `w` looked at position `i` and might not take what was there. */
  ghost predicate PassedOver(s0: State, run: seq<Action>, w: ThreadId, n: nat, i: nat, e: Entry)
    requires Legal(s0, run) && n < |run|
  {
    var s := StateAt(s0, run, n);
    && run[n] == ScanSkip(w) && Scans(s, w) && s.pc[w].at == i && i < |s.queue| && s.queue[i] == e
    && !Eligible(e, w, s.st)
  }

  /**
   After `n` steps `w` searches, and has done so since step `a`; the list is as it was then, and each entry
   before `w`'s position was passed over at some step in between.
   */
  ghost predicate SearchesSince(s0: State, run: seq<Action>, w: ThreadId, n: nat, a: nat)
    requires Legal(s0, run) && n <= |run|
  {
    var s := StateAt(s0, run, n);
    && a < n && run[a] == ScanStart(w) && Scans(s, w) && s.pc[w].at <= |s.queue|
    && s.queue == StateAt(s0, run, a).queue
    && forall i | 0 <= i < s.pc[w].at :: PassedBetween(s0, run, w, a, n, i, s.queue[i])
  }

  ghost predicate PassedBetween(s0: State, run: seq<Action>, w: ThreadId, a: nat, n: nat, i: nat, e: Entry)
    requires Legal(s0, run) && n <= |run|
  {
    exists t: nat :: a < t < n && PassedOver(s0, run, w, t, i, e)
  }

  lemma {:induction false} SearchHistory(s0: State, run: seq<Action>, w: ThreadId, n: nat) returns (a: nat)
    requires Inv(s0) && Legal(s0, run) && n <= |run| && !Scans(s0, w) && Scans(StateAt(s0, run, n), w)
    ensures SearchesSince(s0, run, w, n, a)
    decreases n
  {
    hide Enabled, Apply, Inv, Eligible;
    assert n > 0;
    var s, s' := StateAt(s0, run, n - 1), StateAt(s0, run, n);
    var step := run[n - 1];
    StepAt(s0, run, n - 1);
    if !Scans(s, w) {
      BeginStep(s, step, w);
      a := n - 1;
      assert SearchesSince(s0, run, w, n, a);
    } else {
      assert WorkersInv(s) by {
        InvAt(s0, run, n - 1);
        WorkersOf(s);
      }
      HeldStep(s, step, w);
      a := SearchHistory(s0, run, w, n - 1);
      if step == ScanSkip(w) {
        SkipsIneligible(s, step, w);
      }
      forall i | 0 <= i < s'.pc[w].at ensures PassedBetween(s0, run, w, a, n, i, s'.queue[i]) {
        if i < s.pc[w].at {
          assert PassedBetween(s0, run, w, a, n - 1, i, s.queue[i]);
        } else {
          assert PassedOver(s0, run, w, n - 1, i, s'.queue[i]);
        }
      }
    }
  }

  lemma WorkersOf(s: State)
    requires Inv(s)
    ensures WorkersInv(s)
  {
  }

  lemma SkipsIneligible(s: State, a: Action, w: ThreadId)
    requires Enabled(s, a) && a == ScanSkip(w)
    ensures Scans(s, w) && s.pc[w].at < |s.queue| && !Eligible(s.queue[s.pc[w].at], w, s.st)
  {
    hide Eligible;
  }

  /**
   At step `k`, `w` took entry `e`: it was eligible then, and each entry before it, on a list that had not
   changed since the search began at step `a`, was not eligible when it was looked at.
   */
  ghost predicate TookFirst(s0: State, run: seq<Action>, w: ThreadId, k: nat, a: nat, e: Entry)
    requires Legal(s0, run) && k < |run|
  {
    var s := StateAt(s0, run, k);
    && run[k] == ScanTake(w) && SearchesSince(s0, run, w, k, a)
    && s.pc[w].at < |s.queue| && s.queue[s.pc[w].at] == e && Eligible(e, w, s.st)
  }

  /** Whatever others do during a search, the entry taken is the first that could be taken when it was looked at. */
  lemma TakenWasFirst(s0: State, run: seq<Action>, w: ThreadId, k: nat) returns (a: nat, e: Entry)
    requires Inv(s0) && Legal(s0, run) && k < |run| && run[k] == ScanTake(w) && !Scans(s0, w)
    ensures TookFirst(s0, run, w, k, a, e)
    ensures var s' := StateAt(s0, run, k + 1); w in s'.pc && s'.pc[w] == Popped(e)
  {
    hide Inv, Eligible;
    StepAt(s0, run, k);
    a := SearchHistory(s0, run, w, k);
    var s := StateAt(s0, run, k);
    e := s.queue[s.pc[w].at];
  }

  predicate Holds(s: State, w: ThreadId) {
    w in s.pc && HoldsEntry(s.pc[w])
  }

  /** `w` has held an entry since it took one at step `k`. */
  ghost predicate HeldSince(s0: State, run: seq<Action>, w: ThreadId, n: nat, k: nat)
    requires Legal(s0, run) && n <= |run|
  {
    k < n && run[k] == ScanTake(w) && forall t | k < t <= n :: Holds(StateAt(s0, run, t), w)
  }

  /** Only taking an entry makes a worker hold one. */
  lemma HoldStep(s: State, a: Action, w: ThreadId)
    requires Enabled(s, a) && !Holds(s, w) && Holds(Apply(s, a), w)
    ensures a == ScanTake(w)
  {
    hide Enabled, Apply;
    StepMoves(s, a);
  }

  /** A worker that takes an entry held none. */
  lemma {:induction false} HeldWasTaken(s0: State, run: seq<Action>, w: ThreadId, n: nat) returns (k: nat)
    requires Legal(s0, run) && n <= |run| && !Holds(s0, w) && Holds(StateAt(s0, run, n), w)
    ensures HeldSince(s0, run, w, n, k)
    decreases n
  {
    hide Enabled, Apply, Holds;
    assert n > 0;
    StepAt(s0, run, n - 1);
    var s := StateAt(s0, run, n - 1);
    if Holds(s, w) {
      k := HeldWasTaken(s0, run, w, n - 1);
    } else {
      HoldStep(s, run[n - 1], w);
      k := n - 1;
    }
  }

  // ---------------------------------------------------------------- the search in small steps and in one

  /** `n` skips from position `at` on, then `last`. */
  function SkipsThen(w: ThreadId, n: nat, last: Action): seq<Action> {
    if n == 0 then [last] else [ScanSkip(w)] + SkipsThen(w, n - 1, last)
  }

  lemma SetTwice<K, V>(m: map<K, V>, k: K, a: V, b: V)
    ensures m[k := a][k := b] == m[k := b]
  {
  }

  /** From position `k` on, with nothing eligible before `i`, the scan reaches `i`. */
  lemma {:induction false} ScanFrom(s: State, w: ThreadId, k: nat, i: nat)
    requires w in s.pc && s.pc[w] == Scanning(k) && k <= i && IsFirstEligible(s.queue, w, s.st, i)
    ensures var run := SkipsThen(w, i - k, if i < |s.queue| then ScanTake(w) else ScanEnd(w));
            && Legal(s, run)
            && After(s, run) == if i < |s.queue|
                                then s.(queue := RemoveAt(s.queue, i), lock := None, active := s.active + 1,
                                        pc := s.pc[w := Popped(s.queue[i])])
                                else s.(lock := None, pc := s.pc[w := Top])
    decreases i - k
  {
    var last := if i < |s.queue| then ScanTake(w) else ScanEnd(w);
    if k == i {
      assert Legal(Apply(s, last), []);
      assert [last][1..] == [];
      assert After(s, [last]) == After(Apply(s, last), []);
    } else {
      var run := SkipsThen(w, i - k, last);
      assert run[0] == ScanSkip(w) && run[1..] == SkipsThen(w, i - k - 1, last);
      var s1 := Apply(s, ScanSkip(w));
      ScanFrom(s1, w, k + 1, i);
      SetTwice(s.pc, w, s1.pc[w], if i < |s.queue| then Popped(s.queue[i]) else Top);
    }
  }

  /**
   A search nobody disturbs takes the first eligible entry and leaves the others in order: the small
   steps amount to the one locked search of `RunQueue.Take`.
   */
  lemma UndisturbedScan(s: State, w: ThreadId, i: nat)
    requires CanScan(s, w) && IsFirstEligible(s.queue, w, s.st, i)
    ensures var run := [ScanStart(w)] + SkipsThen(w, i, if i < |s.queue| then ScanTake(w) else ScanEnd(w));
            && Legal(s, run)
            && After(s, run) == if i < |s.queue|
                                then s.(queue := RemoveAt(s.queue, i), active := s.active + 1,
                                        pc := s.pc[w := Popped(s.queue[i])])
                                else s
  {
    var rest := SkipsThen(w, i, if i < |s.queue| then ScanTake(w) else ScanEnd(w));
    var run := [ScanStart(w)] + rest;
    assert run[0] == ScanStart(w) && run[1..] == rest;
    var s1 := Apply(s, ScanStart(w));
    ScanFrom(s1, w, 0, i);
    SetTwice(s.pc, w, s1.pc[w], if i < |s.queue| then Popped(s.queue[i]) else Top);
    assert s.pc[w := Top] == s.pc;
  }
}
