/**
 What happens while a thread sleeps: any operations of any clients, in any order. The sleeper is told of a timer
 that is due before it wakes up of itself.
 */
module TimerRuns {
  import opened Options
  import opened Timers

  /** An operation, with the time that it reads. Asking is what another thread does before it sleeps. */
  datatype Op =
    | Adding(t: Timer, now: uint64, ms: uint64, cb: Option<Callback>)
    | Cancelling(t: Timer)
    | Refreshing(t: Timer, now: uint64)
    | Resetting(t: Timer, now: uint64, ms: uint64, fromNow: bool)
    | Asking
    | Expiring(now: uint64)

  ghost function Do(s: Moment, op: Op): Moment {
    match op
    case Adding(t, now, ms, cb) => Placed(s, t, Snap(Wrap(now + ms), ms, cb))
    case Cancelling(t) => Cancelled(s, t)
    case Refreshing(t, now) => Refreshed(s, t, now)
    case Resetting(t, now, ms, fromNow) => WasReset(s, t, now, ms, fromNow)
    case Asking => s.(tickled := false)
    case Expiring(now) => Swept(s, now)
  }

  /** Whether the operation announces a new front. */
  ghost predicate Tells(s: Moment, op: Op) {
    match op
    case Adding(t, now, ms, _) => Announces(s, t, Wrap(now + ms))
    case Resetting(t, now, ms, fromNow) =>
      Resets(s, t, ms, fromNow) && Announces(s, t, NewEnd(s, t, now, ms, fromNow))
    case _ => false
  }

  ghost function Run(s: Moment, ops: seq<Op>): Moment
    decreases |ops|
  {
    if ops == [] then s else Run(Do(s, ops[0]), ops[1..])
  }

  /** Whether any of them does. */
  ghost predicate Told(s: Moment, ops: seq<Op>)
    decreases |ops|
  {
    ops != [] && (Tells(s, ops[0]) || Told(Do(s, ops[0]), ops[1..]))
  }

  /** What an operation that does not tell anybody puts into the set is no earlier than `seen`. */
  ghost predicate NotEarly(s: Moment, op: Op, seen: nat) {
    match op
    case Refreshing(t, now) => Live(s, t) ==> Wrap(now + s.ends[t].ms) >= seen
    case Expiring(now) => forall t | t in s.ends && t.recurring && IsDue(s, t, now) :: Wrap(now + s.ends[t].ms) >= seen
    case _ => true
  }

  /** One operation keeps the guarantee exactly if it tells, or nothing that it puts back untold is early. */
  lemma StepExactly(s: Moment, op: Op, seen: nat)
    requires !s.tickled && NoneBefore(s.ends, seen)
    ensures Tells(s, op) || (!Do(s, op).tickled && (NoneBefore(Do(s, op).ends, seen) <==> NotEarly(s, op, seen)))
  {
    hide Placed, Announces, NoneBefore, Swept;
    match op {
      case Adding(t, now, ms, cb) =>
        PlacedFlag(s, t, Snap(Wrap(now + ms), ms, cb));
        PlacedKeeps(s, t, Snap(Wrap(now + ms), ms, cb), seen);
      case Cancelling(t) => CancelledKeeps(s, t, seen, 0);
      case Refreshing(t, now) => RefreshedKeeps(s, t, now, seen);
      case Resetting(t, now, ms, fromNow) =>
        if Resets(s, t, ms, fromNow) {
          ResetKeeps(s, t, now, ms, fromNow, seen, 0);
        }
      case Asking =>
      case Expiring(now) =>
        SweptFields(s, now);
        SweptKeeps(s, now, seen);
    }
  }

  /** What each operation puts back is not early, when its turn comes. */
  ghost predicate NoneEarly(s: Moment, ops: seq<Op>, seen: nat)
    decreases |ops|
  {
    ops != [] ==> NotEarly(s, ops[0], seen) && NoneEarly(Do(s, ops[0]), ops[1..], seen)
  }

  lemma {:induction false} ToldInTime(s: Moment, ops: seq<Op>, seen: nat)
    requires !s.tickled && NoneBefore(s.ends, seen) && NoneEarly(s, ops, seen)
    ensures Told(s, ops) || NoneBefore(Run(s, ops).ends, seen)
    decreases |ops|
  {
    hide NoneBefore, Tells, Do, NotEarly;
    if ops != [] && !Tells(s, ops[0]) {
      StepExactly(s, ops[0], seen);
      ToldInTime(Do(s, ops[0]), ops[1..], seen);
    }
  }

  // ---------------------------------------------------------------- a clock that is steady

  function TimeOf(op: Op): uint64 {
    if op.Cancelling? || op.Asking? || (op.Resetting? && !op.fromNow) then 0 else op.now
  }

  /**
   A step of a steady clock: times before `clock` may have been read by now, and what is read under the lock is
   not before them; an expiry may use an older time, but not by so much that it takes the clock for turned back.
   No period that begins now ends past the end of time.
   */
  ghost predicate Steady(s: Moment, op: Op, clock: nat, longest: nat) {
    && TimeOf(op) + longest <= FOREVER && (op.Adding? || op.Resetting? ==> op.ms <= longest)
    && (op.Refreshing? ==> clock <= op.now)
    && (op.Expiring? ==> s.ends == map[] || !RolledBack(op.now, s.before))
  }

  ghost predicate AllSteady(s: Moment, ops: seq<Op>, clock: nat, longest: nat)
    decreases |ops|
  {
    ops != [] ==>
      && Steady(s, ops[0], clock, longest)
      && AllSteady(Do(s, ops[0]), ops[1..], Max(clock, TimeOf(ops[0])), longest)
  }

  ghost predicate Short(ends: map<Timer, Snap>, longest: nat) {
    forall t | t in ends :: ends[t].ms <= longest
  }

  /** Deadlines are a period, of at most `longest`, after a time up to `clock`. */
  ghost predicate Regular(s: Moment, clock: nat, longest: nat) {
    clock + longest <= FOREVER && OnTime(s.ends, clock) && Short(s.ends, longest)
  }

  lemma StaysShort(s: Moment, op: Op, clock: nat, longest: nat)
    requires Short(s.ends, longest) && Steady(s, op, clock, longest)
    ensures Short(Do(s, op).ends, longest)
  {
    hide Announces, IsDue;
    if op.Expiring? {
      hide Swept;
      forall t | t in Swept(s, op.now).ends ensures Swept(s, op.now).ends[t].ms <= longest {
        SweptAt(s, op.now, t);
      }
    }
  }

  lemma ShortHasRoom(ends: map<Timer, Snap>, now: uint64, longest: nat)
    requires Short(ends, longest) && now + longest <= FOREVER
    ensures Room(ends, now)
  {
  }

  lemma StaysOnTime(s: Moment, op: Op, clock: nat, longest: nat)
    requires Regular(s, clock, longest) && Steady(s, op, clock, longest)
    ensures OnTime(Do(s, op).ends, Max(clock, TimeOf(op)))
  {
    hide Placed, Announces, OnTime, Swept;
    ClockMoves(s.ends, clock, Max(clock, TimeOf(op)));
    match op {
      case Adding(t, now, ms, cb) => PlacedOnTime(s, t, Snap(Wrap(now + ms), ms, cb), Max(clock, now));
      case Cancelling(t) => CancelledKeeps(s, t, 0, clock);
      case Refreshing(t, now) => RefreshedOnTime(s, t, now, 0, clock);
      case Resetting(t, now, ms, fromNow) =>
        if Resets(s, t, ms, fromNow) {
          Began(s.ends, t, clock);
          ResetKeeps(s, t, now, ms, fromNow, 0, Max(clock, TimeOf(op)));
        }
      case Asking =>
      case Expiring(now) =>
        ShortHasRoom(s.ends, now, longest);
        SweptOnTime(s, now, 0, clock);
    }
  }

  lemma Began(ends: map<Timer, Snap>, t: Timer, clock: nat)
    requires OnTime(ends, clock) && t in ends
    ensures 0 <= ends[t].next - ends[t].ms <= clock
  {
  }

  /** What a steady clock puts back is not early. */
  lemma SteadyIsNotEarly(s: Moment, op: Op, clock: nat, longest: nat, seen: nat)
    requires Regular(s, clock, longest) && Steady(s, op, clock, longest) && NoneBefore(s.ends, seen)
    ensures NotEarly(s, op, seen)
  {
  }

  /**
   Under a steady clock nobody oversleeps: whatever is done while a thread sleeps, it is told, or no timer is due
   before `seen`, to which it sleeps. Deadlines stay regular, so that it may ask again.
   */
  lemma {:induction false} NobodyOversleeps(s: Moment, ops: seq<Op>, clock: nat, longest: nat, seen: nat)
    requires !s.tickled && NoneBefore(s.ends, seen)
    requires Regular(s, clock, longest) && AllSteady(s, ops, clock, longest)
    ensures Told(s, ops) || NoneBefore(Run(s, ops).ends, seen)
    decreases |ops|
  {
    hide NoneBefore, Tells, Do, NotEarly, OnTime, Short, Steady, Swept;
    if ops != [] && !Tells(s, ops[0]) {
      var op := ops[0];
      SteadyIsNotEarly(s, op, clock, longest, seen);
      StepExactly(s, op, seen);
      StaysRegular(s, op, clock, longest);
      NobodyOversleeps(Do(s, op), ops[1..], Max(clock, TimeOf(op)), longest, seen);
    }
  }

  /** If there is no timer to sleep to, there is none until somebody is told. */
  lemma NoneUntold(s: Moment, ops: seq<Op>, clock: nat, longest: nat)
    requires !s.tickled && s.ends == map[] && clock + longest <= FOREVER && AllSteady(s, ops, clock, longest)
    ensures Told(s, ops) || Run(s, ops).ends == map[]
  {
    NobodyOversleeps(s, ops, clock, longest, FOREVER + 1);
  }

  lemma StaysRegular(s: Moment, op: Op, clock: nat, longest: nat)
    requires Regular(s, clock, longest) && Steady(s, op, clock, longest)
    ensures Regular(Do(s, op), Max(clock, TimeOf(op)), longest)
  {
    hide OnTime, Short, Do;
    StaysOnTime(s, op, clock, longest);
    StaysShort(s, op, clock, longest);
  }

  /** So it is in the end, told or not. */
  lemma {:induction false} RunStaysRegular(s: Moment, ops: seq<Op>, clock: nat, longest: nat) returns (clock': nat)
    requires Regular(s, clock, longest) && AllSteady(s, ops, clock, longest)
    ensures Regular(Run(s, ops), clock', longest)
    decreases |ops|
  {
    hide Regular, Do, Steady;
    if ops == [] {
      clock' := clock;
    } else {
      StaysRegular(s, ops[0], clock, longest);
      clock' := RunStaysRegular(Do(s, ops[0]), ops[1..], Max(clock, TimeOf(ops[0])), longest);
    }
  }

  // ---------------------------------------------------------------- a clock that goes back

  /** A timer that is refreshed may then be due long before the sleeper wakes up, and nobody is told. */
  method RefreshedTooEarly() returns (m: TimerManager, delay: uint64)
    ensures m.Valid() && delay == 100 && !m.tickled && exists t | t in m.timers :: t.next == 600 < 1000 + delay
  {
    hide Sorted, TimerManager.Now, TimerManager.Woken, TimerManager.Timely;
    m := new TimerManager(1000);
    var t, _ := m.AddTimer(1, 1000, 100, Some(0), false);
    assert t in m.timers && m.timers[0] in m.timers;
    delay := m.GetNextTimer(1000);
    var _ := m.Refresh(t, 500);
    assert t in m.timers;
  }
}
