/**
 Timers in a set ordered by deadline and address. A timer's key changes only while it is out of the set.
 Times are 64-bit and wrap.
 */
module Timers {
  import opened Options
  import RunQueues

  type Callback = RunQueues.Callback

  type uint64 = x: int | 0 <= x < 0x1_0000_0000_0000_0000

  const FOREVER: uint64 := 0xffff_ffff_ffff_ffff

  const HOUR: uint64 := 3600000

  function Wrap(x: int): uint64 {
    x % 0x1_0000_0000_0000_0000
  }

  function Max(x: nat, y: nat): nat {
    if x > y then x else y
  }

  class Timer {
    const addr: nat
    const recurring: bool
    /** Whether the timer was made with a callback; an empty one may be passed. */
    ghost const given: bool
    var ms: uint64
    var next: uint64
    var cb: Option<Callback>

    constructor (addr: nat, now: uint64, ms: uint64, cb: Option<Callback>, recurring: bool)
      ensures this.addr == addr && this.recurring == recurring && given == cb.Some?
      ensures this.ms == ms && next == Wrap(now + ms) && this.cb == cb
    {
      this.addr, this.recurring, this.given := addr, recurring, cb.Some?;
      this.ms, this.next, this.cb := ms, Wrap(now + ms), cb;
    }
  }

  predicate Earlier(next: uint64, addr: nat, next': uint64, addr': nat) {
    next < next' || (next == next' && addr < addr')
  }

  /** The order of the set: null pointers first, then by deadline, then by address. */
  predicate Before(l: Timer?, r: Timer?)
    reads l, r
  {
    if l == null && r == null then false
    else if l == null then true
    else if r == null then false
    else if l.next < r.next then true
    else if r.next < l.next then false
    else l.addr < r.addr
  }

  /** A strict order in which two pointers are equivalent only if they have the same key. */
  lemma BeforeIsAnOrder(a: Timer?, b: Timer?, c: Timer?)
    ensures !Before(a, a) && !(Before(a, b) && Before(b, a))
    ensures Before(a, b) && Before(b, c) ==> Before(a, c)
    ensures !Before(a, b) && !Before(b, a) <==>
            (a == null && b == null) || (a != null && b != null && a.next == b.next && a.addr == b.addr)
  {
  }

  ghost predicate Sorted(ts: seq<Timer>)
    reads ts
  {
    forall i, j | 0 <= i < j < |ts| :: Before(ts[i], ts[j])
  }

  lemma AllBefore(ts: seq<Timer>, k: nat)
    requires Sorted(ts) && k < |ts|
    ensures forall i | 0 <= i < k :: Before(ts[i], ts[k])
  {
  }

  lemma AfterFirst(ts: seq<Timer>, i: nat)
    requires Sorted(ts) && i < |ts|
    ensures forall k | i <= k < |ts| :: ts[i].next <= ts[k].next
  {
    forall k | i <= k < |ts| ensures ts[i].next <= ts[k].next {
      assert i < k ==> Before(ts[i], ts[k]);
    }
  }

  /** A timer put in at the right place comes first if and only if it comes before every other. */
  lemma FrontIsFirst(ts: seq<Timer>, t: Timer, i: nat)
    requires i <= |ts| && Sorted(ts[..i] + [t] + ts[i..])
    ensures i == 0 <==> forall k | 0 <= k < |ts| :: Before(t, ts[k])
    ensures i > 0 ==> ts[0].next <= t.next
  {
    var all := ts[..i] + [t] + ts[i..];
    AllBefore(all, i);
    if i > 0 {
      assert all[0] == ts[0] && Before(ts[0], t);
      assert !Before(t, ts[0]);
    } else {
      forall k | 0 <= k < |ts| ensures Before(t, ts[k]) {
        AllBefore(all, k + 1);
        assert all[0] == t && all[k + 1] == ts[k];
      }
    }
  }

  /** The clock has gone back by more than an hour; early on, the hour before wraps round. */
  predicate RolledBack(now: uint64, before: uint64) {
    now < before && (before < HOUR || now + HOUR < before)
  }

  // -------------------------------------------------------------- the operations on values

  /** The fields of a timer at some time. */
  datatype Snap = Snap(next: uint64, ms: uint64, cb: Option<Callback>)

  ghost function SnapOf(t: Timer): Snap
    reads t
  {
    Snap(t.next, t.ms, t.cb)
  }

  /** All that a manager remembers: the timers in the set, the flag, and the time of the latest expiry. */
  datatype Moment = Moment(ends: map<Timer, Snap>, tickled: bool, before: uint64)

  /** With deadline `next`, `t` comes before every other timer. */
  ghost predicate ComesFirst(ends: map<Timer, Snap>, t: Timer, next: uint64) {
    forall u | u in ends && u != t :: Earlier(next, t.addr, ends[u].next, u.addr)
  }

  ghost predicate Announces(s: Moment, t: Timer, next: uint64) {
    !s.tickled && ComesFirst(s.ends, t, next)
  }

  /** Put a timer in: if it comes first, and the flag is not raised, that is announced and the flag raised. */
  ghost function Placed(s: Moment, t: Timer, x: Snap): Moment {
    s.(ends := s.ends[t := x], tickled := s.tickled || Announces(s, t, x.next))
  }

  predicate Live(s: Moment, t: Timer) {
    t in s.ends && s.ends[t].cb.Some?
  }

  function Cancelled(s: Moment, t: Timer): Moment {
    if Live(s, t) then s.(ends := s.ends - {t}) else s
  }

  function Refreshed(s: Moment, t: Timer, now: uint64): Moment {
    if Live(s, t) then s.(ends := s.ends[t := s.ends[t].(next := Wrap(now + s.ends[t].ms))]) else s
  }

  /** Whether there is anything to be changed. */
  predicate Resets(s: Moment, t: Timer, ms: uint64, fromNow: bool) {
    Live(s, t) && (ms != s.ends[t].ms || fromNow)
  }

  function NewEnd(s: Moment, t: Timer, now: uint64, ms: uint64, fromNow: bool): uint64
    requires t in s.ends
  {
    Wrap((if fromNow then now else Wrap(s.ends[t].next - s.ends[t].ms)) + ms)
  }

  ghost function WasReset(s: Moment, t: Timer, now: uint64, ms: uint64, fromNow: bool): Moment {
    if Resets(s, t, ms, fromNow) then Placed(s, t, Snap(NewEnd(s, t, now, ms, fromNow), ms, s.ends[t].cb)) else s
  }

  predicate IsDue(s: Moment, t: Timer, now: uint64)
    requires t in s.ends
  {
    RolledBack(now, s.before) || s.ends[t].next <= now
  }

  /** What is due leaves the set, but recurring timers start again; unannounced. */
  ghost function Swept(s: Moment, now: uint64): Moment {
    if s.ends == map[] then s
    else
      s.(before := now,
         ends := map t | t in s.ends && (t.recurring || !IsDue(s, t, now)) ::
                   if IsDue(s, t, now) then s.ends[t].(next := Wrap(now + s.ends[t].ms)) else s.ends[t])
  }

  // -------------------------------------------------------------- what they keep

  /** No deadline is earlier than `seen`. */
  ghost predicate NoneBefore(ends: map<Timer, Snap>, seen: nat) {
    forall t | t in ends :: ends[t].next >= seen
  }

  /** A deadline is a period after some time up to `clock`. */
  ghost predicate OnTime(ends: map<Timer, Snap>, clock: nat) {
    forall t | t in ends :: ends[t].ms <= ends[t].next <= clock + ends[t].ms
  }

  /** No deadline has passed, but for timers that start again at once: with period 0, or past the end of time. */
  ghost predicate NoneDue(ends: map<Timer, Snap>, now: uint64) {
    forall t | t in ends :: ends[t].next > now || (t.recurring && (ends[t].ms == 0 || now + ends[t].ms > FOREVER))
  }

  /** No recurring timer would start again past the end of time. */
  ghost predicate Room(ends: map<Timer, Snap>, now: uint64) {
    forall t | t in ends && t.recurring :: now + ends[t].ms <= FOREVER
  }

  lemma PlacedFlag(s: Moment, t: Timer, x: Snap)
    ensures Placed(s, t, x).tickled == (s.tickled || Announces(s, t, x.next)) && Placed(s, t, x).before == s.before
    ensures Announces(s, t, x.next) ==> !s.tickled
  {
  }

  lemma ClockMoves(ends: map<Timer, Snap>, clock: nat, clock': nat)
    requires clock <= clock'
    ensures OnTime(ends, clock) ==> OnTime(ends, clock')
  {
  }

  /** A deadline before all others is announced, so any other is no earlier than what was seen. */
  lemma PlacedKeeps(s: Moment, t: Timer, x: Snap, seen: nat)
    ensures s.tickled || NoneBefore(s.ends, seen) ==> Placed(s, t, x).tickled || NoneBefore(Placed(s, t, x).ends, seen)
  {
    if NoneBefore(s.ends, seen) && !Placed(s, t, x).tickled {
      var u :| u in s.ends && u != t && !Earlier(x.next, t.addr, s.ends[u].next, u.addr);
    }
  }

  lemma PlacedOnTime(s: Moment, t: Timer, x: Snap, clock: nat)
    ensures OnTime(s.ends, clock) && x.ms <= x.next <= clock + x.ms ==> OnTime(Placed(s, t, x).ends, clock)
  {
  }

  lemma CancelledKeeps(s: Moment, t: Timer, seen: nat, clock: nat)
    ensures NoneBefore(s.ends, seen) ==> NoneBefore(Cancelled(s, t).ends, seen)
    ensures OnTime(s.ends, clock) ==> OnTime(Cancelled(s, t).ends, clock)
  {
  }

  /** A reset is announced if it has to be, whatever the clock; it is on time unless time ends. */
  lemma ResetKeeps(s: Moment, t: Timer, now: uint64, ms: uint64, fromNow: bool, seen: nat, clock: nat)
    requires Resets(s, t, ms, fromNow)
    ensures var s' := WasReset(s, t, now, ms, fromNow);
            && s'.tickled == (s.tickled || Announces(s, t, NewEnd(s, t, now, ms, fromNow)))
            && s'.before == s.before
            && (s.tickled || NoneBefore(s.ends, seen) ==> s'.tickled || NoneBefore(s'.ends, seen))
            && (var end := if fromNow then now + ms else s.ends[t].next - s.ends[t].ms + ms;
                OnTime(s.ends, clock) && (fromNow ==> now <= clock) && end <= FOREVER ==> OnTime(s'.ends, clock))
  {
    hide Placed, Announces, ComesFirst, NoneBefore;
    var x := Snap(NewEnd(s, t, now, ms, fromNow), ms, s.ends[t].cb);
    PlacedFlag(s, t, x);
    PlacedKeeps(s, t, x, seen);
    PlacedOnTime(s, t, x, clock);
  }

  lemma PutAgain(ends: map<Timer, Snap>, t: Timer, x: Snap)
    ensures (ends - {t})[t := x] == ends[t := x]
  {
  }

  /** What is put back unannounced keeps the guarantee if and only if it is no earlier than what was seen. */
  lemma RefreshedKeeps(s: Moment, t: Timer, now: uint64, seen: nat)
    requires NoneBefore(s.ends, seen)
    ensures NoneBefore(Refreshed(s, t, now).ends, seen) <==> (Live(s, t) ==> Wrap(now + s.ends[t].ms) >= seen)
  {
    var s' := Refreshed(s, t, now);
    if Live(s, t) {
      assert s'.ends[t].next == Wrap(now + s.ends[t].ms);
    }
  }

  /** Under a clock that does not go back, and as long as time does not end, it always is. */
  lemma RefreshedOnTime(s: Moment, t: Timer, now: uint64, seen: nat, clock: nat)
    requires OnTime(s.ends, clock) && (Live(s, t) ==> now + s.ends[t].ms <= FOREVER)
    ensures OnTime(Refreshed(s, t, now).ends, Max(now, clock))
    ensures clock <= now && NoneBefore(s.ends, seen) ==> NoneBefore(Refreshed(s, t, now).ends, seen)
  {
  }

  /** So does an expiry if and only if all that starts again is due no earlier than what was seen. */
  lemma SweptKeeps(s: Moment, now: uint64, seen: nat)
    requires NoneBefore(s.ends, seen)
    ensures NoneBefore(Swept(s, now).ends, seen) <==>
            forall t | t in s.ends && t.recurring && IsDue(s, t, now) :: Wrap(now + s.ends[t].ms) >= seen
  {
    var s' := Swept(s, now);
    forall t | t in s.ends && t.recurring && IsDue(s, t, now)
      ensures t in s'.ends && s'.ends[t].next == Wrap(now + s.ends[t].ms)
    {
    }
  }

  lemma SweptFields(s: Moment, now: uint64)
    ensures Swept(s, now) == s.(ends := Swept(s, now).ends, before := if s.ends == map[] then s.before else now)
  {
  }

  lemma SweptAt(s: Moment, now: uint64, t: Timer)
    requires t in Swept(s, now).ends
    ensures t in s.ends
    ensures if IsDue(s, t, now) && s.ends != map[] then
              t.recurring && Swept(s, now).ends[t] == s.ends[t].(next := Wrap(now + s.ends[t].ms))
            else
              Swept(s, now).ends[t] == s.ends[t]
  {
  }

  lemma SweptLeavesNone(s: Moment, now: uint64)
    ensures NoneDue(Swept(s, now).ends, now)
  {
    hide Swept;
    forall t | t in Swept(s, now).ends
      ensures var x := Swept(s, now).ends[t]; x.next > now || (t.recurring && (x.ms == 0 || now + x.ms > FOREVER))
    {
      SweptAt(s, now, t);
    }
  }

  lemma SweptOnTime(s: Moment, now: uint64, seen: nat, clock: nat)
    requires Room(s.ends, now)
    ensures OnTime(s.ends, clock) ==> OnTime(Swept(s, now).ends, Max(now, clock))
    ensures NoneBefore(s.ends, seen) && (s.ends == map[] || !RolledBack(now, s.before)) ==>
            NoneBefore(Swept(s, now).ends, seen)
  {
    hide Swept;
    forall t | t in Swept(s, now).ends
      ensures t in s.ends
      ensures OnTime(s.ends, clock) ==>
              var x := Swept(s, now).ends[t]; x.ms <= x.next <= Max(now, clock) + x.ms
      ensures NoneBefore(s.ends, seen) && !RolledBack(now, s.before) ==> Swept(s, now).ends[t].next >= seen
    {
      SweptAt(s, now, t);
    }
  }

  // -------------------------------------------------------------- the manager

  class TimerManager {
    var timers: seq<Timer>
    var tickled: bool
    var previouseTime: uint64
    /** Every timer that somebody still has a pointer to. */
    ghost var known: set<Timer>
    /** The earliest deadline that the latest `GetNextTimer` saw, and the latest time read. */
    ghost var seen: nat
    ghost var clock: nat
    /** How often the front has been announced, in all and up to the latest `GetNextTimer`. */
    ghost var announced: nat
    ghost var announcedBefore: nat

    /** The set is sorted, and a timer made with a callback is in it just as long as it has one. */
    ghost predicate Valid()
      reads `timers, `known, timers, known
    {
      ValidBut(null)
    }

    /** The same while `out` is taken out. */
    ghost predicate ValidBut(out: Timer?)
      reads `timers, `known, timers, known
    {
      && Sorted(timers)
      && (forall t | t in timers :: t in known)
      && (forall t, u | t in known && u in known && t.addr == u.addr :: t == u)
      && (forall t | t in known :: t.cb.Some? ==> t.given && (t != out ==> t in timers))
      && (forall t | t in timers && t != out :: t.given ==> t.cb.Some?)
    }

    ghost function Ends(): map<Timer, Snap>
      reads `timers, timers
    {
      map t | t in timers :: SnapOf(t)
    }

    ghost function Now(): Moment
      reads this, timers
    {
      Moment(Ends(), tickled, previouseTime)
    }

    /** Whoever sleeps until the deadline seen last is woken in time: by that deadline, or by the announcement. */
    ghost predicate Woken()
      reads this, timers
    {
      && announcedBefore <= announced && (tickled ==> announcedBefore < announced)
      && (tickled || NoneBefore(Ends(), seen))
    }

    /** A deadline is a period after some time that has passed. */
    ghost predicate Timely()
      reads `timers, `clock, timers
    {
      OnTime(Ends(), clock)
    }

    constructor (now: uint64)
      ensures Valid() && Woken() && Timely() && timers == [] && known == {}
      ensures !tickled && clock == now == previouseTime && seen == FOREVER && announced == announcedBefore == 0
    {
      timers, known := [], {};
      tickled, previouseTime := false, now;
      seen, clock := FOREVER, now;
      announced, announcedBefore := 0, 0;
    }

    // -------------------------------------------------------------- the ordered set

    /** The first element that is not before a timer with the given key. */
    method LowerBound(next: uint64, addr: nat) returns (i: nat)
      requires Sorted(timers)
      ensures i <= |timers|
      ensures forall j | 0 <= j < i :: Earlier(timers[j].next, timers[j].addr, next, addr)
      ensures forall j | i <= j < |timers| :: !Earlier(timers[j].next, timers[j].addr, next, addr)
    {
      i := 0;
      while i < |timers| && Earlier(timers[i].next, timers[i].addr, next, addr)
        invariant i <= |timers|
        invariant forall j | 0 <= j < i :: Earlier(timers[j].next, timers[j].addr, next, addr)
      {
        i := i + 1;
      }
      forall j | i <= j < |timers| ensures !Earlier(timers[j].next, timers[j].addr, next, addr) {
        assert j > i ==> Before(timers[i], timers[j]);
      }
    }

    /** A timer that is in the set is found. */
    method Find(t: Timer) returns (i: nat)
      requires ValidBut(t) && t in known
      ensures i <= |timers| && (i < |timers| ==> timers[i] == t)
      ensures i < |timers| <==> t in timers
    {
      i := LowerBound(t.next, t.addr);
      var u := if i < |timers| then timers[i] else t;
      forall k | 0 <= k < |timers| && timers[k] == t ensures u == t {
        AllBefore(timers, k);
      }
      if i < |timers| && Before(t, timers[i]) {
        i := |timers|;
      }
    }

    lemma EndsAre()
      ensures forall u :: u in Ends() <==> u in timers
      ensures forall u | u in timers :: Ends()[u] == SnapOf(u)
    {
    }

    /** Put in a timer whose key no other has. */
    method Insert(t: Timer) returns (i: nat)
      requires Sorted(timers) && forall u | u in timers :: u.addr != t.addr
      modifies `timers
      ensures i <= |old(timers)| && timers == old(timers)[..i] + [t] + old(timers)[i..]
      ensures Sorted(timers) && forall u :: u in timers <==> u in old(timers) || u == t
      ensures Ends() == old(Ends())[t := SnapOf(t)]
    {
      i := LowerBound(t.next, t.addr);
      timers := timers[..i] + [t] + timers[i..];
    }

    method Erase(i: nat)
      requires Sorted(timers) && i < |timers|
      modifies `timers
      ensures timers == old(timers)[..i] + old(timers)[i + 1..] && Sorted(timers)
      ensures forall u :: u in timers <==> u in old(timers) && u != old(timers)[i]
    {
      ghost var t := timers[i];
      assert forall j | 0 <= j < |timers| && j != i :: timers[j] != t by {
        forall j | 0 <= j < |timers| && j != i ensures timers[j] != t {
          assert if j < i then Before(timers[j], timers[i]) else Before(timers[i], timers[j]);
        }
      }
      timers := timers[..i] + timers[i + 1..];
    }

    // -------------------------------------------------------------- adding

    /** Take out a timer that is in the set. */
    method TakeOut(t: Timer)
      requires ValidBut(t) && t in timers
      modifies `timers
      ensures ValidBut(t) && forall u :: u in timers <==> u in old(timers) && u != t
      ensures Ends() == old(Ends()) - {t}
    {
      hide Sorted;
      var i := Find(t);
      Erase(i);
    }

    /** Put back a timer that was taken out. */
    method PutBack(t: Timer)
      requires ValidBut(t) && t !in timers && t in known && (t.given ==> t.cb.Some?)
      modifies `timers
      ensures Valid() && forall u :: u in timers <==> u in old(timers) || u == t
      ensures Ends() == old(Ends())[t := SnapOf(t)]
    {
      hide Sorted, Ends;
      var _ := Insert(t);
    }

    lemma FirstIs(t: Timer)
      requires t !in timers
      ensures ComesFirst(Ends(), t, t.next) <==> forall k | 0 <= k < |timers| :: Before(t, timers[k])
    {
      assert forall k | 0 <= k < |timers| :: timers[k] in Ends() && Ends()[timers[k]] == SnapOf(timers[k]);
    }

    /** Put a timer in and announce it when it has become the first and nothing has been announced yet. */
    method Place(t: Timer) returns (atFront: bool)
      requires ValidBut(t) && t !in timers && t in known && (t.given ==> t.cb.Some?)
      modifies `timers, `tickled, `announced
      ensures Valid() && forall u :: u in timers <==> u in old(timers) || u == t
      ensures Now() == Placed(old(Now()), t, SnapOf(t)) && atFront == Announces(old(Now()), t, t.next)
      ensures tickled == (old(tickled) || atFront) && announced == old(announced) + (if atFront then 1 else 0)
      ensures old(Woken()) ==> Woken()
    {
      hide Ends, Earlier, Before, NoneBefore;
      FirstIs(t);
      PlacedKeeps(Now(), t, SnapOf(t), seen);
      var i := Insert(t);
      atFront := i == 0 && !tickled;
      FrontIsFirst(old(timers), t, i);
      if atFront {
        tickled := true;
        announced := announced + 1;
      }
    }

    /** A new timer, `ms` from now. The time was read before the lock was taken, so it may be an old one. */
    method AddTimer(addr: nat, now: uint64, ms: uint64, cb: Option<Callback>, recurring: bool)
      returns (t: Timer, atFront: bool)
      requires Valid() && forall u | u in known :: u.addr != addr
      modifies `timers, `known, `clock, `tickled, `announced
      ensures Valid() && fresh(t) && known == old(known) + {t}
      ensures forall u :: u in timers <==> u in old(timers) || u == t
      ensures t.addr == addr && t.ms == ms && t.next == Wrap(now + ms) && t.cb == cb && t.recurring == recurring
      ensures Now() == Placed(old(Now()), t, SnapOf(t)) && atFront == Announces(old(Now()), t, t.next)
      ensures tickled == (old(tickled) || atFront) && announced == old(announced) + (if atFront then 1 else 0)
      ensures clock == Max(now, old(clock))
      ensures t.next == (now + ms) % 0x1_0000_0000_0000_0000
      ensures atFront <==> !old(tickled) && forall i | 0 <= i < |old(timers)| ::
                var u := old(timers)[i];
                t.next < old(u.next) || (t.next == old(u.next) && t.addr < u.addr)
      ensures old(Woken()) ==> Woken()
      ensures old(Timely()) && now + ms <= FOREVER ==> Timely()
    {
      hide Sorted, Ends, Placed, ComesFirst, NoneBefore, OnTime;
      t := new Timer(addr, now, ms, cb, recurring);
      known := known + {t};
      ClockMoves(Ends(), clock, Max(now, clock));
      clock := Max(now, clock);
      FirstIs(t);
      PlacedOnTime(Now(), t, SnapOf(t), clock);
      PlacedFlag(Now(), t, SnapOf(t));
      atFront := Place(t);
    }

    /**
     The last pointer to a timer outside the set goes away. Its address may then belong to a new timer. The set
     itself holds pointers, so that a timer in it stays.
     */
    ghost method Forget(t: Timer)
      requires Valid() && t in known && t !in timers
      modifies `known
      ensures Valid() && known == old(known) - {t}
      ensures forall u | u in known :: u.addr != t.addr
      ensures Now() == old(Now()) && (old(Woken()) ==> Woken())
    {
      known := known - {t};
    }

    // -------------------------------------------------------------- changing

    /** Take a timer out for good. */
    method Cancel(t: Timer) returns (ok: bool)
      requires Valid() && t in known
      modifies `timers, t`cb
      ensures Valid() && ok == old(t.cb.Some?) && t.cb == None
      ensures forall u :: u in timers <==> u in old(timers) && !(ok && u == t)
      ensures Now() == Cancelled(old(Now()), t)
      ensures old(Woken()) ==> Woken()
      ensures old(Timely()) ==> Timely()
    {
      hide Sorted, Ends, NoneBefore, OnTime;
      EndsAre();
      CancelledKeeps(Now(), t, seen, clock);
      if t.cb == None {
        return false;
      }
      TakeOut(t);
      t.cb := None;
      return true;
    }

    /**
     Move the deadline to a period from now; it is put back without announcing anything. So the guarantee that
     sleepers are woken survives exactly if a front has been announced or the new deadline is no earlier than
     the one that was seen; under a clock that does not go back it always is.
     */
    method Refresh(t: Timer, now: uint64) returns (ok: bool)
      requires Valid() && t in known
      modifies `timers, `clock, t`next
      ensures Valid() && (t.given ==> ok == old(t.cb.Some?)) && (ok <==> old(t.cb.Some?))
      ensures t.next == if ok then Wrap(now + t.ms) else old(t.next)
      ensures forall u :: u in timers <==> u in old(timers)
      ensures Now() == Refreshed(old(Now()), t, now) && clock == if ok then Max(now, old(clock)) else old(clock)
      ensures old(Woken()) ==> (Woken() <==> !ok || tickled || t.next >= seen)
      ensures old(Timely()) && now + t.ms <= FOREVER ==> Timely()
      ensures old(Woken() && Timely() && clock <= now) && now + t.ms <= FOREVER ==> Woken() && Timely()
    {
      hide Sorted, Ends, NoneBefore, OnTime, Wrap, Max;
      ghost var s := Now();
      EndsAre();
      if NoneBefore(s.ends, seen) {
        RefreshedKeeps(s, t, now, seen);
      }
      if Timely() && now + t.ms <= FOREVER {
        RefreshedOnTime(s, t, now, seen, clock);
      }
      if t.cb == None {
        return false;
      }
      TakeOut(t);
      clock := Max(now, clock);
      t.next := Wrap(now + t.ms);
      PutBack(t);
      PutAgain(s.ends, t, SnapOf(t));
      return true;
    }

    /** Change the period, counted from now or from where the old one began; asking for nothing new succeeds always. */
    method Reset(t: Timer, now: uint64, ms: uint64, fromNow: bool) returns (ok: bool, atFront: bool)
      requires Valid() && t in known
      modifies `timers, `tickled, `announced, `clock, t`next, t`ms
      ensures Valid()
      ensures var same := ms == old(t.ms) && !fromNow;
              && (ok <==> same || old(t.cb.Some?))
              && (same || !ok ==> t.ms == old(t.ms) && t.next == old(t.next) && !atFront)
              && (!same && ok ==>
                 t.ms == ms && t.next == Wrap((if fromNow then now else Wrap(old(t.next) - old(t.ms))) + ms))
      ensures forall u :: u in timers <==> u in old(timers)
      ensures Now() == WasReset(old(Now()), t, now, ms, fromNow)
      ensures atFront <==> Resets(old(Now()), t, ms, fromNow) && Announces(old(Now()), t, t.next)
      ensures tickled == (old(tickled) || atFront) && announced == old(announced) + (if atFront then 1 else 0)
      ensures clock == if fromNow && ok then Max(now, old(clock)) else old(clock)
      ensures old(Woken()) ==> Woken()
      ensures var end := if fromNow then now + ms else old(t.next) - old(t.ms) + ms;
              old(Timely()) && (ok ==> end <= FOREVER) ==> Timely()
    {
      hide Sorted, Ends, Placed, Announces, NoneBefore, OnTime, Wrap;
      ghost var s := Now();
      EndsAre();
      if ms == t.ms && !fromNow {
        return true, false;
      }
      if t.cb == None {
        return false, false;
      }
      if fromNow {
        ClockMoves(Ends(), clock, Max(now, clock));
        clock := Max(now, clock);
      }
      ResetKeeps(s, t, now, ms, fromNow, seen, clock);
      atFront := Reschedule(t, ms, if fromNow then now else Wrap(t.next - t.ms));
      return true, atFront;
    }

    /** Take a timer out, change its key, and put it back in. */
    method Reschedule(t: Timer, ms: uint64, start: uint64) returns (atFront: bool)
      requires Valid() && t in timers && t.cb.Some?
      modifies `timers, `tickled, `announced, t`next, t`ms
      ensures Valid() && forall u :: u in timers <==> u in old(timers)
      ensures t.ms == ms && t.next == Wrap(start + ms)
      ensures Now() == Placed(old(Now()), t, SnapOf(t)) && atFront == Announces(old(Now()), t, t.next)
      ensures tickled == (old(tickled) || atFront) && announced == old(announced) + (if atFront then 1 else 0)
    {
      hide Sorted, Ends, ComesFirst;
      ghost var s := Now();
      TakeOut(t);
      t.ms := ms;
      t.next := Wrap(start + ms);
      FirstOfOthers(s.ends, t, t.next);
      PutAgain(s.ends, t, SnapOf(t));
      atFront := Place(t);
    }

    lemma FirstOfOthers(ends: map<Timer, Snap>, t: Timer, next: uint64)
      ensures ComesFirst(ends - {t}, t, next) <==> ComesFirst(ends, t, next)
    {
      assert forall u | u in ends && u != t :: u in ends - {t} && (ends - {t})[u] == ends[u];
    }

    // -------------------------------------------------------------- expiry

    /** How long to sleep: up to the earliest deadline, or for ever. */
    method GetNextTimer(now: uint64) returns (delay: uint64)
      requires Valid()
      modifies `tickled, `seen, `clock, `announcedBefore
      ensures Valid() && !tickled && Now() == old(Now()).(tickled := false) && clock == Max(now, old(clock))
      ensures seen == (if timers == [] then FOREVER else timers[0].next) && announcedBefore == announced
      ensures Woken() && (old(Timely()) ==> Timely())
      ensures if timers == [] then delay == 0xffff_ffff_ffff_ffff else
              var first := timers[0].next; delay == if now >= first then 0 else first - now
      ensures forall t | t in timers :: seen <= t.next && (now + delay <= t.next || delay == 0)
      ensures delay > 0 ==> NoneBefore(Ends(), now + delay)
    {
      hide Sorted, Ends, NoneBefore, OnTime;
      ClockMoves(Ends(), clock, Max(now, clock));
      tickled := false;
      clock := Max(now, clock);
      announcedBefore := announced;
      SeesFirst();
      NoneAtAll(now);
      if timers == [] {
        seen := FOREVER;
        return FOREVER;
      }
      var next := timers[0];
      seen := next.next;
      return if now >= next.next then 0 else next.next - now;
    }

    lemma NoneAtAll(now: uint64)
      ensures timers == [] ==> NoneBefore(Ends(), now + FOREVER)
    {
    }

    lemma SeesFirst()
      requires Sorted(timers)
      ensures var first := if timers == [] then FOREVER else timers[0].next;
              NoneBefore(Ends(), first) && forall t | t in timers :: first <= t.next
    {
      if timers != [] {
        AfterFirst(timers, 0);
      }
    }

    /** Whether the clock has gone back, in the arithmetic of the code. */
    method DetectClockRollover(now: uint64) returns (rollover: bool)
      modifies `previouseTime
      ensures previouseTime == now
      ensures rollover <==> RolledBack(now, old(previouseTime))
    {
      rollover := now < previouseTime && now < Wrap(previouseTime - HOUR);
      previouseTime := now;
    }

    /** How many timers have expired by `now`; the probe's own address, whatever it is, does not matter. */
    method Expired(now: uint64, rollover: bool, probe: nat) returns (n: nat)
      requires Sorted(timers)
      ensures n <= |timers|
      ensures forall i | 0 <= i < |timers| :: i < n <==> rollover || timers[i].next <= now
    {
      if rollover {
        n := |timers|;
      } else {
        n := LowerBound(now, probe);
      }
      while n < |timers| && timers[n].next == now
        invariant n <= |timers|
        invariant forall i | 0 <= i < n :: rollover || timers[i].next <= now
        invariant forall i | n <= i < |timers| :: !rollover && timers[i].next >= now
      {
        n := n + 1;
      }
      if n < |timers| {
        AfterFirst(timers, n);
      }
    }

    /** The state between the removal of `expired` and the treatment of its elements from `i` on. */
    ghost predicate Rearming(rest: seq<Timer>, expired: seq<Timer>, i: nat, now: uint64)
      reads `timers, `known, timers, known, rest, expired
    {
      && i <= |expired| && Sorted(timers)
      && (forall t, u | t in known && u in known && t.addr == u.addr :: t == u)
      && (forall j, k | 0 <= j < k < |expired| :: expired[j] != expired[k])
      && (forall u | u in expired :: u in known && u !in rest)
      && (forall u | u in rest :: u in known && u in timers)
      && (forall u | u in timers :: u in rest || (u in expired && u.recurring))
      && (forall j | 0 <= j < i :: Treated(expired[j], now))
      && (forall j | i <= j < |expired| :: expired[j] !in timers)
    }

    /** A recurring timer starts again, a period from now; another has lost its callback. */
    ghost predicate Treated(t: Timer, now: uint64)
      reads `timers, t
    {
      if t.recurring then t in timers && t.next == Wrap(now + t.ms) else t !in timers && t.cb == None
    }

    method Treat(t: Timer, now: uint64, ghost rest: seq<Timer>, ghost expired: seq<Timer>, ghost i: nat)
      requires Rearming(rest, expired, i, now) && i < |expired| && t == expired[i]
      modifies `timers, t`next, t`cb
      ensures Rearming(rest, expired, i + 1, now)
      ensures t.recurring ==> t.cb == old(t.cb)
    {
      hide Sorted, Before;
      if t.recurring {
        t.next := Wrap(now + t.ms);
        var _ := Insert(t);
      } else {
        t.cb := None;
      }
    }

    /** Take out what has expired and treat it in order; `cbs` collects the callbacks. */
    method Rearm(expired: seq<Timer>, now: uint64, ghost rest: seq<Timer>) returns (cbs: seq<Option<Callback>>)
      requires Rearming(rest, expired, 0, now)
      modifies `timers, expired`next, expired`cb
      ensures Rearming(rest, expired, |expired|, now)
      ensures |cbs| == |expired| && forall j | 0 <= j < |expired| :: cbs[j] == old(expired[j].cb)
      ensures forall j | 0 <= j < |expired| :: expired[j].recurring ==> expired[j].cb == old(expired[j].cb)
    {
      hide Rearming;
      cbs := [];
      for i := 0 to |expired|
        invariant Rearming(rest, expired, i, now)
        invariant |cbs| == i && forall j | 0 <= j < i :: cbs[j] == old(expired[j].cb)
        invariant forall j | 0 <= j < |expired| && (i <= j || expired[j].recurring) ::
                  expired[j].cb == old(expired[j].cb)
      {
        assert expired[i] in expired;
        cbs := cbs + [expired[i].cb];
        Different(rest, expired, i, now);
        Treat(expired[i], now, rest, expired, i);
      }
    }

    lemma Different(rest: seq<Timer>, expired: seq<Timer>, i: nat, now: uint64)
      requires Rearming(rest, expired, i, now) && i < |expired|
      ensures forall j | 0 <= j < |expired| && j != i :: expired[j] != expired[i]
    {
    }

    /** Treat the first `n` timers. */
    method Expire(n: nat, now: uint64) returns (cbs: seq<Option<Callback>>)
      requires Valid() && n <= |timers|
      modifies `timers, timers`next, timers`cb
      ensures Valid() && |cbs| == n && Extracted(old(timers), old(Snaps(timers)), n, now)
      ensures forall i | 0 <= i < n :: cbs[i] == old(Snaps(timers))[i].cb
    {
      hide Sorted, Before, Rearming, Treated;
      ghost var all, was := timers, Snaps(timers);
      AllDifferent(all);
      var expired := timers[..n];
      timers := timers[n..];
      Begin(all, n, now);
      cbs := Rearm(expired, now, all[n..]);
      Finished(all, was, n, now);
    }

    lemma Begin(all: seq<Timer>, n: nat, now: uint64)
      requires n <= |all| && timers == all[n..] && Sorted(all)
      requires forall t, u | t in known && u in known && t.addr == u.addr :: t == u
      requires forall t | t in all :: t in known
      ensures Rearming(all[n..], all[..n], 0, now)
      ensures forall j | n <= j < |all| :: all[j] !in all[..n]
    {
      AllDifferent(all);
    }

    /** Of the timers `all`, which were as in `was`, the first `n` have been treated; the others are untouched. */
    ghost predicate Extracted(all: seq<Timer>, was: seq<Snap>, n: nat, now: uint64)
      reads `timers, all
    {
      && n <= |all| == |was|
      && (forall i | 0 <= i < |all| :: all[i].ms == was[i].ms)
      && (forall i | 0 <= i < n :: Treated(all[i], now) && (all[i].recurring ==> all[i].cb == was[i].cb))
      && (forall i | n <= i < |all| :: all[i] in timers && all[i].next == was[i].next && all[i].cb == was[i].cb)
      && (forall t | t in timers :: t in all)
    }

    lemma Finished(all: seq<Timer>, was: seq<Snap>, n: nat, now: uint64)
      requires n <= |all| == |was| && Rearming(all[n..], all[..n], n, now)
      requires forall i | 0 <= i < |all| :: all[i].ms == was[i].ms
      requires forall i | 0 <= i < n :: all[i].recurring ==> all[i].cb == was[i].cb
      requires forall i | n <= i < |all| :: all[i].next == was[i].next && all[i].cb == was[i].cb
      requires forall t | t in known && t !in all :: t.cb == None
      requires forall i | 0 <= i < |all| :: all[i].given <==> was[i].cb.Some?
      ensures Extracted(all, was, n, now) && Valid()
    {
      assert forall i | 0 <= i < n :: all[..n][i] == all[i] && Treated(all[i], now);
      assert forall i | n <= i < |all| :: all[i] == all[n..][i - n];
    }

    /** How many timers are to be extracted, and whether because the clock was turned back. */
    method Due(now: uint64, probe: nat) returns (n: nat, back: bool)
      requires Valid()
      modifies `previouseTime
      ensures n <= |timers| && forall i | 0 <= i < |timers| :: i < n <==> back || timers[i].next <= now
      ensures back <==> timers != [] && RolledBack(now, old(previouseTime))
      ensures previouseTime == if timers == [] then old(previouseTime) else now
    {
      if timers == [] {
        return 0, false;
      }
      back := DetectClockRollover(now);
      if !back && timers[0].next > now {
        AfterFirst(timers, 0);
        assert forall i | 0 <= i < |timers| :: timers[i].next > now;
        return 0, false;
      }
      n := Expired(now, back, probe);
    }

    /** Take out what is due, treat it, and collect the callbacks, in order. */
    method Sweep(now: uint64, probe: nat) returns (cbs: seq<Option<Callback>>, ghost back: bool)
      requires Valid()
      modifies `timers, `previouseTime, timers`next, timers`cb
      ensures Valid() && |cbs| <= |old(timers)| && Now() == Swept(old(Now()), now)
      ensures back <==> old(timers) != [] && RolledBack(now, old(previouseTime))
      ensures previouseTime == if old(timers) == [] then old(previouseTime) else now
      ensures var was := old(Snaps(timers));
              && (forall i | 0 <= i < |was| :: i < |cbs| <==> back || was[i].next <= now)
              && (forall i | 0 <= i < |cbs| :: cbs[i] == was[i].cb)
              && Extracted(old(timers), was, |cbs|, now)
    {
      hide Sorted, Valid, ValidBut, Extracted, Ends, Snaps, Swept;
      ghost var all, was, s := timers, Snaps(timers), Now();
      SnapsAre();
      var n;
      n, back := Due(now, probe);
      assert forall i | 0 <= i < |all| :: was[i].next == all[i].next;
      assert forall i | 0 <= i < |all| :: i < n <==> back || was[i].next <= now;
      cbs := Expire(n, now);
      SweptIs(all, was, n, now, s);
      SweptFields(s, now);
    }

    /**
     The callbacks of all timers whose deadline has passed (of all timers when the clock was turned back), in
     order. The recurring ones start again from now, the others are done with; nothing else changes. No
     deadline that has passed is left, unless its period is 0.
     */
    method ListExpiredCb(now: uint64, probe: nat) returns (cbs: seq<Option<Callback>>, ghost back: bool)
      requires Valid()
      modifies `timers, `previouseTime, `clock, timers`next, timers`cb
      ensures Valid() && |cbs| <= |old(timers)| && clock == Max(now, old(clock))
      ensures back <==> old(timers) != [] && RolledBack(now, old(previouseTime))
      ensures back <==> old(timers) != [] && now < old(previouseTime)
                        && (old(previouseTime) < 3600000 || now + 3600000 < old(previouseTime))
      ensures previouseTime == if old(timers) == [] then old(previouseTime) else now
      ensures var was := old(Snaps(timers));
              && (forall i | 0 <= i < |was| :: i < |cbs| <==> back || was[i].next <= now)
              && (forall i | 0 <= i < |cbs| :: cbs[i] == was[i].cb)
              && Extracted(old(timers), was, |cbs|, now)
      ensures Now() == Swept(old(Now()), now) && NoneDue(Ends(), now)
      ensures Room(old(Ends()), now) && old(Timely()) ==> Timely()
      ensures Room(old(Ends()), now) && old(Woken()) && !back ==> Woken()
    {
      hide Sorted, Valid, ValidBut, Extracted, Ends, OnTime, NoneBefore, NoneDue, Room, Snaps, Swept;
      ghost var s := Now();
      SnapsAre();
      SweptFields(s, now);
      SweptLeavesNone(s, now);
      if Room(s.ends, now) {
        SweptOnTime(s, now, seen, clock);
      }
      clock := Max(now, clock);
      cbs, back := Sweep(now, probe);
    }

    lemma SnapsAre()
      ensures forall i | 0 <= i < |timers| :: timers[i] in Ends() && Ends()[timers[i]] == Snaps(timers)[i]
      ensures (forall t | t in Ends() :: t in timers) && (timers == [] <==> Ends() == map[])
    {
      assert timers != [] ==> timers[0] in Ends();
      assert forall i | 0 <= i < |timers| :: timers[i] in timers;
    }

    /** The extraction of just what is due, on values. */
    lemma SweptIs(all: seq<Timer>, was: seq<Snap>, n: nat, now: uint64, s: Moment)
      requires Extracted(all, was, n, now)
      requires forall i | 0 <= i < |all| :: all[i] in s.ends && s.ends[all[i]] == was[i]
      requires forall t | t in s.ends :: t in all
      requires forall i | 0 <= i < |all| :: i < n <==> IsDue(s, all[i], now)
      ensures Ends() == Swept(s, now).ends
    {
      var ends := Swept(s, now).ends;
      forall i | 0 <= i < |all|
        ensures all[i] in timers <==> all[i] in ends
        ensures all[i] in timers ==> SnapOf(all[i]) == ends[all[i]]
      {
        if i < n {
          assert Treated(all[i], now);
        }
      }
      assert forall u :: u in Ends() <==> u in ends;
    }
  }

  ghost function Snaps(ts: seq<Timer>): (d: seq<Snap>)
    reads ts
    ensures |d| == |ts| && forall i | 0 <= i < |ts| :: d[i] == Snap(ts[i].next, ts[i].ms, ts[i].cb)
  {
    if ts == [] then [] else Snaps(ts[..|ts| - 1]) + [Snap(ts[|ts| - 1].next, ts[|ts| - 1].ms, ts[|ts| - 1].cb)]
  }

  lemma AllDifferent(ts: seq<Timer>)
    requires Sorted(ts)
    ensures forall i, j | 0 <= i < j < |ts| :: ts[i] != ts[j]
  {
    forall i, j | 0 <= i < j < |ts| ensures ts[i] != ts[j] {
      assert Before(ts[i], ts[j]);
    }
  }
}
