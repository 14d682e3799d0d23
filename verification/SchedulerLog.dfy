/**
 What becomes of each entry that is scheduled. A run of the protocol is followed with a log that numbers the
 entries in the order of scheduling and records where each of them is.
 */
module SchedulerLogs {
  import opened Options
  import opened RunQueues
  import opened SchedulerProtocol
  import opened SchedulerSafety

  /** All entries made, and the numbers of those on the list, in the workers' hands, and done with. */
  datatype Log = Log(made: seq<Entry>, queue: seq<nat>, held: map<ThreadId, nat>, done: seq<nat>)

  /** What `w` is at comes of entry `e`. */
  predicate Carries(p: Pc, e: Entry) {
    match p
    case Popped(x) => x == e
    case Executing(f, byCb) => if byCb then e.task.CallbackTask? else e.task == FiberTask(f)
    case Leaving(f, byCb) => if byCb then e.task.CallbackTask? else e.task == FiberTask(f)
    case Returned(f, byCb) => if byCb then e.task.CallbackTask? else e.task == FiberTask(f)
    case _ => false
  }

  // ---------------------------------------------------------------- keeping the log

  function LogTake(g: Log, w: ThreadId, i: nat): Log {
    if i < |g.queue| then g.(queue := RemoveAt(g.queue, i), held := g.held[w := g.queue[i]]) else g
  }

  function LogRelease(g: Log, w: ThreadId): Log {
    if w in g.held then g.(held := g.held - {w}, done := g.done + [g.held[w]]) else g
  }

  function LogPush(g: Log, e: Entry): Log {
    g.(made := g.made + [e], queue := g.queue + [|g.made|])
  }

  ghost function Logged(s: State, a: Action, g: Log): Log
    requires Enabled(s, a)
  {
    var q, q' := s.queue, Apply(s, a).queue;
    if a.ScanTake? then LogTake(g, a.w, s.pc[a.w].at)
    else if Releases(a) then LogRelease(g, a.w)
    else if |q'| > |q| then LogPush(g, q'[|q|])
    else g
  }

  /** The log after `n` steps. */
  ghost function LogAt(s0: State, run: seq<Action>, n: nat): Log
    requires Legal(s0, run) && n <= |run|
    decreases n
  {
    if n == 0 then Log([], [], map[], [])
    else
      StepAt(s0, run, n - 1);
      Logged(StateAt(s0, run, n - 1), run[n - 1], LogAt(s0, run, n - 1))
  }

  // ---------------------------------------------------------------- what it shows

  datatype Spot = Listed(i: nat) | With(w: ThreadId) | Done(j: nat)

  /** Entry number `n` is at `l`. */
  predicate AtSpot(g: Log, l: Spot, n: nat) {
    match l
    case Listed(i) => i < |g.queue| && g.queue[i] == n
    case With(w) => w in g.held && g.held[w] == n
    case Done(j) => j < |g.done| && g.done[j] == n
  }

  ghost predicate Somewhere(g: Log, n: nat) {
    exists l :: AtSpot(g, l, n)
  }

  /** Each entry made is at exactly one spot. */
  ghost predicate Conserved(g: Log) {
    && (forall l, n: nat | AtSpot(g, l, n) :: n < |g.made|)
    && (forall n: nat | n < |g.made| :: Somewhere(g, n))
    && (forall l, l', n: nat | AtSpot(g, l, n) && AtSpot(g, l', n) :: l == l')
  }

  /** The list is the entries that are listed, and a worker holds, or runs, the entry it is logged with. */
  ghost predicate Shows(s: State, g: Log) {
    && |g.made| == s.scheduled && |g.done| == s.retired && |g.queue| == |s.queue|
    && (forall i | 0 <= i < |g.queue| :: g.queue[i] < |g.made| && g.made[g.queue[i]] == s.queue[i])
    && (forall w :: w in g.held <==> Holds(s, w))
    && (forall w | w in g.held :: g.held[w] < |g.made| && Carries(s.pc[w], g.made[g.held[w]]))
  }

  lemma TakeConserves(g: Log, w: ThreadId, i: nat)
    requires Conserved(g) && i < |g.queue| && w !in g.held
    ensures Conserved(LogTake(g, w, i))
  {
    var g' := LogTake(g, w, i);
    forall n: nat | n < |g.made| ensures Somewhere(g', n) {
      assert Somewhere(g, n);
      var l :| AtSpot(g, l, n);
      var l' := if l == Listed(i) then With(w) else if l.Listed? && l.i > i then Listed(l.i - 1) else l;
      assert AtSpot(g', l', n);
    }
    forall l, n: nat | AtSpot(g', l, n) ensures AtSpot(g, SpotBefore(l, w, i), n) {
    }
    forall l, l', n: nat | AtSpot(g', l, n) && AtSpot(g', l', n) ensures l == l' {
      assert SpotBefore(l, w, i) == SpotBefore(l', w, i);
    }
  }

  function SpotBefore(l: Spot, w: ThreadId, i: nat): Spot {
    if l == With(w) then Listed(i) else if l.Listed? && l.i >= i then Listed(l.i + 1) else l
  }

  lemma ReleaseConserves(g: Log, w: ThreadId)
    requires Conserved(g) && w in g.held
    ensures Conserved(LogRelease(g, w))
  {
    var g' := LogRelease(g, w);
    forall n: nat | n < |g.made| ensures Somewhere(g', n) {
      assert Somewhere(g, n);
      var l :| AtSpot(g, l, n);
      assert AtSpot(g', if l == With(w) then Done(|g.done|) else l, n);
    }
    forall l, n: nat | AtSpot(g', l, n) ensures AtSpot(g, if l == Done(|g.done|) then With(w) else l, n) {
    }
  }

  lemma PushConserves(g: Log, e: Entry)
    requires Conserved(g)
    ensures Conserved(LogPush(g, e))
  {
    var g' := LogPush(g, e);
    assert AtSpot(g', Listed(|g.queue|), |g.made|);
    forall n: nat | n < |g.made| ensures Somewhere(g', n) {
      assert Somewhere(g, n);
      var l :| AtSpot(g, l, n);
      assert AtSpot(g', l, n);
    }
    forall l, n: nat | AtSpot(g', l, n) ensures (l == Listed(|g.queue|) && n == |g.made|) || AtSpot(g, l, n) {
    }
  }

  lemma ContinuesCarries(p: Pc, p': Pc, e: Entry)
    requires HoldsEntry(p) && HoldsEntry(p') && Continues(p, p') && Carries(p, e)
    ensures Carries(p', e)
  {
  }

  lemma TakeShows(s: State, a: Action, g: Log)
    requires Enabled(s, a) && Shows(s, g) && Conserved(g) && a.ScanTake?
    requires Moved(s, a, Apply(s, a)) && Took(s, a.w, Apply(s, a))
    ensures Shows(Apply(s, a), Logged(s, a, g)) && Conserved(Logged(s, a, g))
  {
    hide Enabled, Apply, Conserved, Continues;
    TakeConserves(g, a.w, s.pc[a.w].at);
  }

  lemma ReleaseShows(s: State, a: Action, g: Log)
    requires Enabled(s, a) && Shows(s, g) && Conserved(g) && Releases(a)
    requires Moved(s, a, Apply(s, a)) && Appended(s, Apply(s, a))
    ensures Shows(Apply(s, a), Logged(s, a, g)) && Conserved(Logged(s, a, g))
  {
    hide Enabled, Apply, Conserved, Continues, Carries;
    ReleaseConserves(g, a.w);
  }

  lemma PushShows(s: State, a: Action, g: Log)
    requires Enabled(s, a) && Shows(s, g) && Conserved(g) && !a.ScanTake? && !Releases(a)
             && |Apply(s, a).queue| > |s.queue|
    requires if ByScan(a) || ByWorker(a) then Moved(s, a, Apply(s, a))
             else Apply(s, a).pc == s.pc && Apply(s, a).retired == s.retired
    requires Appended(s, Apply(s, a))
    ensures Shows(Apply(s, a), Logged(s, a, g)) && Conserved(Logged(s, a, g))
  {
    hide Enabled, Apply, Conserved, Continues, Carries;
    PushConserves(g, Apply(s, a).queue[|s.queue|]);
    StillCarried(s, a, g);
  }

  lemma OthersShow(s: State, a: Action, g: Log)
    requires Enabled(s, a) && Shows(s, g) && Conserved(g) && !a.ScanTake? && !Releases(a)
             && |Apply(s, a).queue| <= |s.queue|
    requires if ByScan(a) || ByWorker(a) then Moved(s, a, Apply(s, a))
             else Apply(s, a).pc == s.pc && Apply(s, a).retired == s.retired
    requires Appended(s, Apply(s, a))
    ensures Shows(Apply(s, a), Logged(s, a, g)) && Conserved(Logged(s, a, g))
  {
    hide Enabled, Apply, Conserved, Continues, Carries;
    StillCarried(s, a, g);
  }

  /** Who goes on holding an entry goes on with the same. */
  lemma StillCarried(s: State, a: Action, g: Log)
    requires Enabled(s, a) && Shows(s, g) && !a.ScanTake? && !Releases(a)
    requires if ByScan(a) || ByWorker(a) then Moved(s, a, Apply(s, a)) else Apply(s, a).pc == s.pc
    ensures forall w :: Holds(Apply(s, a), w) <==> Holds(s, w)
    ensures forall w | w in g.held :: Carries(Apply(s, a).pc[w], g.made[g.held[w]])
  {
    hide Enabled, Apply, Continues, Carries;
    if ByScan(a) || ByWorker(a) {
      if Holds(s, a.w) {
        ContinuesCarries(s.pc[a.w], Apply(s, a).pc[a.w], g.made[g.held[a.w]]);
      }
    }
  }

  lemma StepShows(s: State, a: Action, g: Log)
    requires Enabled(s, a) && Shows(s, g) && Conserved(g)
    ensures Shows(Apply(s, a), Logged(s, a, g)) && Conserved(Logged(s, a, g))
  {
    hide Enabled, Apply, Conserved, Carries, Shows, Moved, Took, Appended;
    StepMoves(s, a);
    if a.ScanTake? {
      TakeShows(s, a, g);
    } else if Releases(a) {
      ReleaseShows(s, a, g);
    } else if |Apply(s, a).queue| > |s.queue| {
      PushShows(s, a, g);
    } else {
      OthersShow(s, a, g);
    }
  }

  // ---------------------------------------------------------------- every run

  lemma {:induction false} LogShows(s0: State, run: seq<Action>, n: nat)
    requires Init(s0) && Legal(s0, run) && n <= |run|
    ensures Shows(StateAt(s0, run, n), LogAt(s0, run, n)) && Conserved(LogAt(s0, run, n))
    decreases n
  {
    hide Enabled, Apply, Logged;
    if n > 0 {
      StepAt(s0, run, n - 1);
      LogShows(s0, run, n - 1);
      StepShows(StateAt(s0, run, n - 1), run[n - 1], LogAt(s0, run, n - 1));
    }
  }

  /** A step that does not take, drop or finish the entry of `w` leaves it as it is logged. */
  lemma StaysLogged(s: State, a: Action, g: Log, w: ThreadId)
    requires Enabled(s, a) && Shows(s, g) && Holds(s, w) && Holds(Apply(s, a), w)
    ensures var g' := Logged(s, a, g); w in g'.held && g'.held[w] == g.held[w] && g.made <= g'.made
  {
    hide Enabled, Apply, Carries, Continues;
    StepMoves(s, a);
  }

  /** What `w` holds or runs is entry `e`, and that is what is logged. */
  predicate HoldsIt(s: State, g: Log, w: ThreadId, e: Entry) {
    Holds(s, w) && Carries(s.pc[w], e) && w in g.held && g.held[w] < |g.made| && g.made[g.held[w]] == e
  }

  lemma HeldBefore(s0: State, run: seq<Action>, w: ThreadId, n: nat, k: nat)
    requires Legal(s0, run) && n <= |run| && HeldSince(s0, run, w, n, k)
    ensures k < n && Holds(StateAt(s0, run, n), w)
    ensures n > k + 1 ==> HeldSince(s0, run, w, n - 1, k) && Holds(StateAt(s0, run, n - 1), w)
  {
    hide Legal, Holds;
  }

  lemma JustTook(s0: State, run: seq<Action>, w: ThreadId, k: nat, a: nat, e: Entry)
    requires Init(s0) && Legal(s0, run) && k < |run| && TookFirst(s0, run, w, k, a, e)
    ensures HoldsIt(StateAt(s0, run, k + 1), LogAt(s0, run, k + 1), w, e)
  {
    hide Enabled, Legal, Conserved, SearchesSince, Eligible;
    var s := StateAt(s0, run, k);
    StepAt(s0, run, k);
    LogShows(s0, run, k + 1);
    var s' := StateAt(s0, run, k + 1);
    assert s'.pc[w] == Popped(e);
  }

  /** Since `w` took entry `e`, that is what it holds or runs. */
  lemma {:induction false} HoldsWhatItTook(s0: State, run: seq<Action>, w: ThreadId, n: nat, k: nat, a: nat, e: Entry)
    requires Init(s0) && Legal(s0, run) && n <= |run|
    requires HeldSince(s0, run, w, n, k) && TookFirst(s0, run, w, k, a, e)
    ensures HoldsIt(StateAt(s0, run, n), LogAt(s0, run, n), w, e)
    decreases n
  {
    hide Enabled, Apply, Conserved, Carries, Legal, TookFirst, HeldSince, Holds, Logged;
    HeldBefore(s0, run, w, n, k);
    if n == k + 1 {
      JustTook(s0, run, w, k, a, e);
    } else {
      StepAt(s0, run, n - 1);
      LogShows(s0, run, n - 1);
      LogShows(s0, run, n);
      HoldsWhatItTook(s0, run, w, n - 1, k, a, e);
      StaysLogged(StateAt(s0, run, n - 1), run[n - 1], LogAt(s0, run, n - 1), w);
    }
  }

  lemma NobodyAtFirst(s: State)
    requires Init(s)
    ensures forall w :: !Holds(s, w) && !Scans(s, w)
  {
  }

  lemma CountedAndMeant(s: State)
    requires Inv(s)
    ensures s.active == |Holders(s)| && |s.queue| + |Holders(s)| + s.retired == s.scheduled
    ensures forall w | w in s.pc && s.pc[w].Popped? ::
              s.pc[w].entry.thread == None || s.pc[w].entry.thread == Some(w)
  {
  }

  /**
   No task is lost or run twice: each entry scheduled is on the list, in the hands of one worker, or done with,
   and at one of these once. What a worker holds or runs is the entry it has had since it took it as the first
   that it might take; entries are held only by threads they are meant for, and the count is right.
   */
  lemma TasksConserved(s0: State, run: seq<Action>)
    requires Init(s0) && Legal(s0, run)
    ensures var s, g := After(s0, run), LogAt(s0, run, |run|);
            && Shows(s, g) && Conserved(g)
            && s.active == |Holders(s)|
            && |s.queue| + |Holders(s)| + s.retired == s.scheduled
            && (forall w | w in s.pc && s.pc[w].Popped? ::
                  s.pc[w].entry.thread == None || s.pc[w].entry.thread == Some(w))
    ensures var s, g := After(s0, run), LogAt(s0, run, |run|);
            forall w | Holds(s, w) :: exists k: nat, a: nat, e ::
              HeldSince(s0, run, w, |run|, k) && TookFirst(s0, run, w, k, a, e) && HoldsIt(s, g, w, e)
  {
    hide Inv, Legal, Shows, Conserved, HoldsIt, TookFirst, Holds;
    InitInv(s0);
    RunInv(s0, run);
    CountedAndMeant(After(s0, run));
    LastState(s0, run);
    LogShows(s0, run, |run|);
    NobodyAtFirst(s0);
    forall w | Holds(After(s0, run), w)
      ensures var s, g := After(s0, run), LogAt(s0, run, |run|);
              exists k: nat, a: nat, e ::
                HeldSince(s0, run, w, |run|, k) && TookFirst(s0, run, w, k, a, e) && HoldsIt(s, g, w, e)
    {
      var k := HeldWasTaken(s0, run, w, |run|);
      var a, e := TakenWasFirst(s0, run, w, k);
      HoldsWhatItTook(s0, run, w, |run|, k, a, e);
    }
  }
}
