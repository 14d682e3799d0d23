/**
 The registrations of an I/O manager: who waits for which descriptor to become readable or writable, what
 the kernel has been asked to report, and how a registration ends: it is scheduled, once, or deleted.
 */
module IOManagers {
  import opened Options
  import opened RunQueues

  type SchedulerId = nat

  datatype Event = READ | WRITE

  /** The bits of an event mask; EPOLLIN and EPOLLOUT have the values of READ and WRITE. */
  datatype Mask = Mask(read: bool, write: bool)

  const NONE := Mask(false, false)

  predicate Has(m: Mask, e: Event) {
    match e
    case READ => m.read
    case WRITE => m.write
  }

  function Put(m: Mask, e: Event, b: bool): Mask {
    match e
    case READ => m.(read := b)
    case WRITE => m.(write := b)
  }

  function Bits(m: Mask): nat {
    (if m.read then 1 else 0) + if m.write then 1 else 0
  }

  function Nones(n: nat): seq<Mask> {
    seq(n, _ => NONE)
  }

  /** Bits set in all masks. */
  function Sum(ms: seq<Mask>): nat {
    if ms == [] then 0 else Sum(ms[..|ms| - 1]) + Bits(ms[|ms| - 1])
  }

  lemma {:induction false} SumAfter(ms: seq<Mask>, i: nat, m: Mask)
    requires i < |ms|
    ensures Sum(ms[i := m]) == Sum(ms) - Bits(ms[i]) + Bits(m)
    ensures Sum(ms) >= Bits(ms[i])
  {
    var n := |ms| - 1;
    if i < n {
      SumAfter(ms[..n], i, m);
      assert ms[i := m][..n] == ms[..n][i := m];
    } else {
      assert ms[i := m][..n] == ms[..n];
    }
  }

  lemma {:induction false} SumMore(ms: seq<Mask>, n: nat)
    ensures Sum(ms + Nones(n)) == Sum(ms)
  {
    if n > 0 {
      SumMore(ms, n - 1);
      assert (ms + Nones(n))[..|ms| + n - 1] == ms + Nones(n - 1);
    } else {
      assert ms + Nones(0) == ms;
    }
  }

  /** Who is to be scheduled, and with which scheduler. */
  datatype EventContext = EventContext(scheduler: Option<SchedulerId>, fiber: Option<FiberId>, cb: Option<Callback>)

  const UNUSED := EventContext(None, None, None)

  /** A scheduler and exactly one of a fiber and a callback. */
  predicate InUse(c: EventContext) {
    c.scheduler.Some? && (c.fiber.Some? <==> c.cb.None?)
  }

  function TaskOf(c: EventContext): Task {
    if c.cb.Some? then CallbackTask(c.cb.value) else if c.fiber.Some? then FiberTask(c.fiber.value) else NoTask
  }

  datatype Handed = Handed(scheduler: SchedulerId, task: Task)

  /** What became of a registration. */
  datatype Fate = Pending(fd: nat, event: Event) | Scheduled(at: nat) | Deleted

  datatype EpollOp = ADD | MOD | DEL

  // ---------------------------------------------------------------- the books

  /** What a descriptor's context holds: the bits, who waits for each, and the numbers of those registrations. */
  datatype Row = Row(events: Mask, read: EventContext, write: EventContext, readId: nat, writeId: nat)

  const BLANK := Row(NONE, UNUSED, UNUSED, 0, 0)

  function Blanks(n: nat): seq<Row> {
    seq(n, _ => BLANK)
  }

  function ContextOf(r: Row, e: Event): EventContext {
    match e
    case READ => r.read
    case WRITE => r.write
  }

  function IdOf(r: Row, e: Event): nat {
    match e
    case READ => r.readId
    case WRITE => r.writeId
  }

  function Entered(r: Row, e: Event, c: EventContext, k: nat): Row {
    match e
    case READ => r.(events := Put(r.events, READ, true), read := c, readId := k)
    case WRITE => r.(events := Put(r.events, WRITE, true), write := c, writeId := k)
  }

  lemma EnteredEvents(r: Row, e: Event, c: EventContext, k: nat)
    ensures Entered(r, e, c, k).events == Put(r.events, e, true)
    ensures !Has(r.events, e) ==> Bits(Entered(r, e, c, k).events) == Bits(r.events) + 1
  {
  }

  lemma ClearedEvents(r: Row, e: Event)
    ensures Cleared(r, e).events == Put(r.events, e, false)
    ensures Has(r.events, e) ==> Bits(Cleared(r, e).events) == Bits(r.events) - 1
  {
  }

  function Cleared(r: Row, e: Event): Row {
    match e
    case READ => r.(events := Put(r.events, READ, false), read := UNUSED)
    case WRITE => r.(events := Put(r.events, WRITE, false), write := UNUSED)
  }

  /**
   All registrations made, what became of each, what was handed to schedulers, for which ones, and how many were
   deleted.
   */
  datatype Log = Log(made: seq<EventContext>, fate: seq<Fate>, scheduled: seq<Handed>, order: seq<nat>, deleted: nat)

  const NO_LOG := Log([], [], [], [], 0)

  function Register(g: Log, fd: nat, e: Event, c: EventContext): Log {
    g.(made := g.made + [c], fate := g.fate + [Pending(fd, e)])
  }

  function Hand(g: Log, k: nat, c: EventContext): Log
    requires k < |g.fate| && c.scheduler.Some?
  {
    g.(fate := g.fate[k := Scheduled(|g.order|)], order := g.order + [k],
       scheduled := g.scheduled + [Handed(c.scheduler.value, TaskOf(c))])
  }

  function Delete(g: Log, k: nat): Log
    requires k < |g.fate|
  {
    g.(fate := g.fate[k := Deleted], deleted := g.deleted + 1)
  }

  /** A bit is set just when its context is in use, by a registration that is still pending. */
  predicate RowOk(r: Row, fd: nat, g: Log, e: Event) {
    if Has(r.events, e) then
      && InUse(ContextOf(r, e)) && IdOf(r, e) < |g.made| && IdOf(r, e) < |g.fate|
      && g.made[IdOf(r, e)] == ContextOf(r, e) && g.fate[IdOf(r, e)] == Pending(fd, e)
    else ContextOf(r, e) == UNUSED
  }

  /** Registration `k` is pending in its context, or was scheduled as it was made, or deleted. */
  predicate FateOk(table: seq<Row>, g: Log, k: nat)
    requires k < |g.fate|
  {
    match g.fate[k]
    case Pending(fd, e) => fd < |table| && Has(table[fd].events, e) && IdOf(table[fd], e) == k
    case Scheduled(p) => p < |g.order| && g.order[p] == k
    case Deleted => true
  }

  predicate OrderOk(g: Log, p: nat)
    requires p < |g.order|
  {
    && g.order[p] < |g.fate| && g.order[p] < |g.made| && g.fate[g.order[p]] == Scheduled(p)
    && InUse(g.made[g.order[p]])
    && p < |g.scheduled| && g.scheduled[p] == Handed(g.made[g.order[p]].scheduler.value, TaskOf(g.made[g.order[p]]))
  }

  ghost predicate Books(table: seq<Row>, g: Log) {
    && |g.made| == |g.fate| && |g.order| == |g.scheduled|
    && (forall i, e | 0 <= i < |table| :: RowOk(table[i], i, g, e))
    && (forall k | 0 <= k < |g.fate| :: FateOk(table, g, k))
    && (forall p | 0 <= p < |g.order| :: OrderOk(g, p))
  }

  function EventsOf(table: seq<Row>): (ms: seq<Mask>)
    ensures |ms| == |table| && forall i | 0 <= i < |table| :: ms[i] == table[i].events
  {
    seq(|table|, i requires 0 <= i < |table| => table[i].events)
  }

  /** Bits set in the whole table. */
  function Bitcount(table: seq<Row>): nat {
    Sum(EventsOf(table))
  }

  lemma BitcountAfter(table: seq<Row>, i: nat, r: Row)
    requires i < |table|
    ensures Bitcount(table[i := r]) == Bitcount(table) - Bits(table[i].events) + Bits(r.events)
    ensures EventsOf(table[i := r]) == EventsOf(table)[i := r.events]
    ensures Bitcount(table) >= Bits(table[i].events)
  {
    assert EventsOf(table[i := r]) == EventsOf(table)[i := r.events];
    SumAfter(EventsOf(table), i, r.events);
  }

  /** What is settled stays settled, and what was handed over is not taken back. */
  predicate Extends(g: Log, g': Log) {
    && g.made <= g'.made && g.scheduled <= g'.scheduled && |g.fate| <= |g'.fate|
    && forall k | 0 <= k < |g.fate| && !g.fate[k].Pending? :: g'.fate[k] == g.fate[k]
  }

  lemma ExtendsItself(g: Log)
    ensures Extends(g, g)
  {
  }

  lemma ExtendsOn(g: Log, g': Log, g'': Log)
    requires Extends(g, g') && Extends(g', g'')
    ensures Extends(g, g'')
  {
  }

  lemma BooksRegister(table: seq<Row>, g: Log, fd: nat, e: Event, c: EventContext)
    requires Books(table, g) && fd < |table| && !Has(table[fd].events, e) && InUse(c)
    ensures Books(table[fd := Entered(table[fd], e, c, |g.made|)], Register(g, fd, e, c))
    ensures Extends(g, Register(g, fd, e, c))
  {
    var t', g' := table[fd := Entered(table[fd], e, c, |g.made|)], Register(g, fd, e, c);
    forall i, e' | 0 <= i < |t'| ensures RowOk(t'[i], i, g', e') {
      assert RowOk(table[i], i, g, e');
    }
    forall k | 0 <= k < |g'.fate| ensures FateOk(t', g', k) {
      assert k < |g.fate| ==> FateOk(table, g, k);
    }
    forall p | 0 <= p < |g'.order| ensures OrderOk(g', p) {
      assert OrderOk(g, p);
    }
  }

  lemma BooksHand(table: seq<Row>, g: Log, fd: nat, e: Event)
    requires Books(table, g) && fd < |table| && Has(table[fd].events, e)
    ensures RowOk(table[fd], fd, g, e) && IdOf(table[fd], e) < |g.fate|
    ensures Books(table[fd := Cleared(table[fd], e)], Hand(g, IdOf(table[fd], e), ContextOf(table[fd], e)))
    ensures Extends(g, Hand(g, IdOf(table[fd], e), ContextOf(table[fd], e)))
  {
    var k := IdOf(table[fd], e);
    assert RowOk(table[fd], fd, g, e);
    var t', g' := table[fd := Cleared(table[fd], e)], Hand(g, k, ContextOf(table[fd], e));
    forall i, e' | 0 <= i < |t'| ensures RowOk(t'[i], i, g', e') {
      assert RowOk(table[i], i, g, e');
    }
    forall j | 0 <= j < |g'.fate| ensures FateOk(t', g', j) {
      assert FateOk(table, g, j);
    }
    forall p | 0 <= p < |g'.order| ensures OrderOk(g', p) {
      assert p < |g.order| ==> OrderOk(g, p);
    }
  }

  lemma BooksDelete(table: seq<Row>, g: Log, fd: nat, e: Event)
    requires Books(table, g) && fd < |table| && Has(table[fd].events, e)
    ensures IdOf(table[fd], e) < |g.fate|
    ensures Books(table[fd := Cleared(table[fd], e)], Delete(g, IdOf(table[fd], e)))
    ensures Extends(g, Delete(g, IdOf(table[fd], e)))
  {
    var k := IdOf(table[fd], e);
    assert RowOk(table[fd], fd, g, e);
    var t', g' := table[fd := Cleared(table[fd], e)], Delete(g, k);
    forall i, e' | 0 <= i < |t'| ensures RowOk(t'[i], i, g', e') {
      assert RowOk(table[i], i, g, e');
    }
    forall j | 0 <= j < |g'.fate| ensures FateOk(t', g', j) {
      assert FateOk(table, g, j);
    }
    forall p | 0 <= p < |g'.order| ensures OrderOk(g', p) {
      assert OrderOk(g, p);
    }
  }

  lemma BooksGrow(table: seq<Row>, g: Log, n: nat)
    requires Books(table, g)
    ensures Books(table + Blanks(n), g)
    ensures EventsOf(table + Blanks(n)) == EventsOf(table) + Nones(n)
    ensures Bitcount(table + Blanks(n)) == Bitcount(table)
  {
    var t' := table + Blanks(n);
    forall i, e' | 0 <= i < |t'| ensures RowOk(t'[i], i, g, e') {
      assert i < |table| ==> RowOk(table[i], i, g, e');
    }
    forall j | 0 <= j < |g.fate| ensures FateOk(t', g, j) {
      assert FateOk(table, g, j);
    }
    assert EventsOf(t') == EventsOf(table) + Nones(n);
    SumMore(EventsOf(table), n);
  }

  /** No registration is scheduled twice, and none that was deleted or is still pending is scheduled. */
  lemma ScheduledOnce(table: seq<Row>, g: Log)
    requires Books(table, g)
    ensures forall p, q | 0 <= p < q < |g.order| :: g.order[p] != g.order[q]
    ensures forall p | 0 <= p < |g.order| :: g.order[p] < |g.fate| && g.fate[g.order[p]].Scheduled?
  {
    forall p, q | 0 <= p < q < |g.order| ensures g.order[p] != g.order[q] {
      assert OrderOk(g, p) && OrderOk(g, q);
    }
    forall p | 0 <= p < |g.order| ensures g.order[p] < |g.fate| && g.fate[g.order[p]].Scheduled? {
      assert OrderOk(g, p);
    }
  }

  /** The registration that `row` has for `e` is scheduled, as it was made. */
  predicate HandedOver(g: Log, g': Log, row: Row, e: Event) {
    && IdOf(row, e) < |g.fate| && ContextOf(row, e).scheduler.Some?
    && g' == Hand(g, IdOf(row, e), ContextOf(row, e))
  }

  /** The same for all events of a mask, reading first. */
  predicate HandedAll(g: Log, g': Log, row: Row, m: Mask) {
    && (m.read ==> row.readId < |g.fate| && row.read.scheduler.Some?)
    && (m.write ==> row.writeId < |g.fate| && row.write.scheduler.Some?)
    && var h := if m.read then Hand(g, row.readId, row.read) else g;
       g' == if m.write then Hand(h, row.writeId, row.write) else h
  }

  function ClearedAll(row: Row, m: Mask): Row {
    var r := if m.read then Cleared(row, READ) else row;
    if m.write then Cleared(r, WRITE) else r
  }

  predicate Within(m: Mask, n: Mask) {
    (m.read ==> n.read) && (m.write ==> n.write)
  }

  function And(m: Mask, n: Mask): Mask {
    Mask(m.read && n.read, m.write && n.write)
  }

  function Minus(m: Mask, n: Mask): Mask {
    Mask(m.read && !n.read, m.write && !n.write)
  }

  /** What the kernel reports: the wake-up pipe, or a descriptor with IN, OUT and ERR or HUP bits. */
  datatype Report = Tickle | Ready(fd: nat, bits: Mask, broken: bool)

  /** The events to be triggered; an error or hang-up stands for all that is waited for. */
  function Real(r: Report, events: Mask): Mask
    requires r.Ready?
  {
    if r.broken then Mask(r.bits.read || events.read, r.bits.write || events.write) else r.bits
  }

  /** Whether handling a report runs into the assertion of `triggerEvent`: it reports what is waited for, and more. */
  predicate Overshoots(r: Report, events: Mask) {
    r.Ready? && And(events, Real(r, events)) != NONE && !Within(r.bits, events)
  }

  /** The events that a report triggers. */
  function Hits(r: Report, fails: bool, events: Mask): Mask {
    if r.Tickle? || fails || And(events, Real(r, events)) == NONE then NONE else Real(r, events)
  }

  function HandIf(g: Log, k: nat, c: EventContext, b: bool): Log {
    if b && k < |g.fate| && c.scheduler.Some? then Hand(g, k, c) else g
  }

  /** The table and the log when a report has been handled. */
  function TableAfter(table: seq<Row>, r: Report, fails: bool): (t: seq<Row>)
    ensures |t| == |table|
  {
    if r.Ready? && r.fd < |table| then table[r.fd := ClearedAll(table[r.fd], Hits(r, fails, table[r.fd].events))]
    else table
  }

  function LogAfter(table: seq<Row>, g: Log, r: Report, fails: bool): Log {
    if r.Ready? && r.fd < |table| then
      var row := table[r.fd];
      var m := Hits(r, fails, row.events);
      HandIf(HandIf(g, row.readId, row.read, m.read), row.writeId, row.write, m.write)
    else g
  }

  lemma HandedIsLogged(table: seq<Row>, g: Log, g': Log, r: Report)
    requires r.Ready? && r.fd < |table| && And(table[r.fd].events, Real(r, table[r.fd].events)) != NONE
    requires HandedAll(g, g', table[r.fd], Real(r, table[r.fd].events))
    ensures g' == LogAfter(table, g, r, false)
  {
  }

  lemma NothingHit(table: seq<Row>, g: Log, r: Report, fails: bool)
    requires r.Ready? ==> r.fd < |table| && (fails || And(table[r.fd].events, Real(r, table[r.fd].events)) == NONE)
    ensures TableAfter(table, r, fails) == table && LogAfter(table, g, r, fails) == g
  {
  }

  // ---------------------------------------------------------------- who is woken by a report

  /** An event that somebody waits for is due when it is reported, or when the descriptor is broken. */
  predicate IsDue(row: Row, r: Report, e: Event) {
    && r.Ready?
    && match e
       case READ => row.events.read && (r.bits.read || r.broken)
       case WRITE => row.events.write && (r.bits.write || r.broken)
  }

  /** Whoever waits, with the scheduler noted for it: a callback or a fiber. */
  function HandedOf(c: EventContext): seq<Handed> {
    if c.scheduler == None then []
    else if c.cb.Some? then [Handed(c.scheduler.value, CallbackTask(c.cb.value))]
    else if c.fiber.Some? then [Handed(c.scheduler.value, FiberTask(c.fiber.value))]
    else []
  }

  /** Whom a report wakes, reading first; nobody if the kernel does not agree. */
  function WokenBy(row: Row, r: Report, fails: bool): seq<Handed> {
    (if !fails && IsDue(row, r, READ) then HandedOf(row.read) else [])
    + if !fails && IsDue(row, r, WRITE) then HandedOf(row.write) else []
  }

  /** Somebody waits for one of the events reported, and nobody for another. */
  predicate IsStale(row: Row, r: Report) {
    && (IsDue(row, r, READ) || IsDue(row, r, WRITE))
    && ((r.bits.read && !row.events.read) || (r.bits.write && !row.events.write))
  }

  /** What is due is no longer waited for; all else is as it was. */
  predicate Answered(row: Row, row': Row, r: Report, fails: bool) {
    && row'.events.read == (row.events.read && (fails || !IsDue(row, r, READ)))
    && row'.events.write == (row.events.write && (fails || !IsDue(row, r, WRITE)))
    && (row'.events.read ==> row'.read == row.read && row'.readId == row.readId)
    && (row'.events.write ==> row'.write == row.write && row'.writeId == row.writeId)
  }

  /** One event is no longer waited for, and the other is as it was. */
  predicate Forgotten(row: Row, row': Row, e: Event) {
    && row'.events == (if e == READ then Mask(false, row.events.write) else Mask(row.events.read, false))
    && (e == READ ==> row'.write == row.write) && (e == WRITE ==> row'.read == row.read)
  }

  lemma ClearedIsForgotten(row: Row, e: Event)
    ensures Forgotten(row, Cleared(row, e), e)
  {
  }

  /** What is handed over for a registration is whoever waits. */
  lemma HandsWaiter(table: seq<Row>, g: Log, fd: nat, e: Event)
    requires Books(table, g) && fd < |table| && Has(table[fd].events, e)
    ensures InUse(ContextOf(table[fd], e))
    ensures HandedOf(ContextOf(table[fd], e)) ==
            [Handed(ContextOf(table[fd], e).scheduler.value, TaskOf(ContextOf(table[fd], e)))]
  {
    assert RowOk(table[fd], fd, g, e);
  }

  lemma StaleOvershoots(row: Row, r: Report)
    requires r.Ready?
    ensures Overshoots(r, row.events) <==> IsStale(row, r)
  {
  }

  /** Handling a report that is not stale wakes whom it should, and nobody else. */
  lemma ReportWakes(table: seq<Row>, g: Log, r: Report, fails: bool)
    requires Books(table, g) && r.Ready? && r.fd < |table| && (fails || !IsStale(table[r.fd], r))
    ensures var row, g' := table[r.fd], LogAfter(table, g, r, fails);
            && Answered(row, TableAfter(table, r, fails)[r.fd], r, fails)
            && g'.scheduled == g.scheduled + WokenBy(row, r, fails)
            && (!fails && IsDue(row, r, READ) ==> row.readId < |g'.fate| && g'.fate[row.readId].Scheduled?)
            && (!fails && IsDue(row, r, WRITE) ==> row.writeId < |g'.fate| && g'.fate[row.writeId].Scheduled?)
  {
    hide FateOk, OrderOk;
    var row := table[r.fd];
    assert RowOk(row, r.fd, g, READ) && RowOk(row, r.fd, g, WRITE);
  }

  /** Whom a batch wakes, report by report, when each descriptor is reported once. */
  function WokenByAll(table: seq<Row>, rs: seq<Report>, fails: seq<bool>): seq<Handed>
    requires |fails| == |rs|
  {
    var n := |rs| - 1;
    if n < 0 then []
    else
      WokenByAll(table, rs[..n], fails[..n])
      + if rs[n].Ready? && rs[n].fd < |table| then WokenBy(table[rs[n].fd], rs[n], fails[n]) else []
  }

  /** The table and the log when a batch has been handled, one report after the other. */
  function TableOf(table: seq<Row>, rs: seq<Report>, fails: seq<bool>): (t: seq<Row>)
    requires |fails| == |rs|
    ensures |t| == |table|
  {
    var n := |rs| - 1;
    if n < 0 then table else TableAfter(TableOf(table, rs[..n], fails[..n]), rs[n], fails[n])
  }

  function LogOf(table: seq<Row>, g: Log, rs: seq<Report>, fails: seq<bool>): Log
    requires |fails| == |rs|
  {
    var n := |rs| - 1;
    if n < 0 then g
    else LogAfter(TableOf(table, rs[..n], fails[..n]), LogOf(table, g, rs[..n], fails[..n]), rs[n], fails[n])
  }

  predicate Distinct(rs: seq<Report>) {
    forall i, j | 0 <= i < j < |rs| :: rs[i].Ready? && rs[j].Ready? ==> rs[i].fd != rs[j].fd
  }

  predicate Reports(rs: seq<Report>, fd: nat) {
    exists i | 0 <= i < |rs| :: rs[i].Ready? && rs[i].fd == fd
  }

  /** What is not reported is not changed. */
  lemma {:induction false} NotReported(table: seq<Row>, rs: seq<Report>, fails: seq<bool>, fd: nat)
    requires |fails| == |rs| && fd < |table| && !Reports(rs, fd)
    ensures TableOf(table, rs, fails)[fd] == table[fd]
  {
    hide ClearedAll, Hits;
    var n := |rs| - 1;
    if n >= 0 {
      assert !Reports(rs[..n], fd) by {
        assert forall i | 0 <= i < n :: rs[..n][i] == rs[i];
      }
      NotReported(table, rs[..n], fails[..n], fd);
    }
  }

  /** In a batch that reports each descriptor once, each is handled as if it were alone. */
  lemma {:induction false} EachOnItsOwn(table: seq<Row>, rs: seq<Report>, fails: seq<bool>, i: nat)
    requires |fails| == |rs| && i < |rs| && rs[i].Ready? && rs[i].fd < |table| && Distinct(rs)
    ensures TableOf(table, rs, fails)[rs[i].fd] == TableAfter(table, rs[i], fails[i])[rs[i].fd]
    decreases |rs|
  {
    hide ClearedAll, Hits;
    var n := |rs| - 1;
    assert forall j | 0 <= j < n :: rs[..n][j] == rs[j] && fails[..n][j] == fails[j];
    if i < n {
      EachOnItsOwn(table, rs[..n], fails[..n], i);
    } else {
      assert !Reports(rs[..n], rs[n].fd);
      NotReported(table, rs[..n], fails[..n], rs[n].fd);
    }
  }

  /** Report `i` of a batch runs into the assertion. */
  predicate OvershootsAt(table: seq<Row>, rs: seq<Report>, fails: seq<bool>, i: nat)
    requires |fails| == |rs| && i < |rs|
  {
    && !fails[i] && rs[i].Ready? && rs[i].fd < |table|
    && Overshoots(rs[i], TableOf(table, rs[..i], fails[..i])[rs[i].fd].events)
  }

  // ---------------------------------------------------------------- the contexts

  class FdContext {
    const fd: nat
    var events: Mask
    var read: EventContext
    var write: EventContext

    constructor (fd: nat)
      ensures this.fd == fd && events == NONE && read == write == UNUSED
    {
      this.fd, events, read, write := fd, NONE, UNUSED, UNUSED;
    }

    ghost predicate Shows(r: Row)
      reads this
    {
      events == r.events && read == r.read && write == r.write
    }

    function GetContext(e: Event): EventContext
      reads this
    {
      match e
      case READ => read
      case WRITE => write
    }

    method SetContext(e: Event, c: EventContext)
      modifies `read, `write
      ensures read == if e == READ then c else old(read)
      ensures write == if e == WRITE then c else old(write)
    {
      match e {
        case READ => read := c;
        case WRITE => write := c;
      }
    }
  }

  class IOManager {
    var fdContexts: seq<FdContext>
    var pendingEventCount: nat
    /** What has been handed to schedulers, in order. */
    var scheduled: seq<Handed>
    /** What the kernel reports. */
    ghost var interest: seq<Mask>
    ghost var table: seq<Row>
    ghost var log: Log

    /** The contexts are as in the books. */
    ghost predicate Shown()
      reads `fdContexts, `table, fdContexts
    {
      && |fdContexts| == |table|
      && forall i | 0 <= i < |table| :: fdContexts[i].fd == i && fdContexts[i].Shows(table[i])
    }

    /** All but the count and the kernel's view, which are not changed at the same moment. */
    ghost predicate Kept()
      reads `fdContexts, `table, `log, `scheduled, `interest, fdContexts
    {
      && Shown() && Books(table, log) && log.scheduled == scheduled
      && |interest| == |table| >= 32
      && |log.made| == |log.scheduled| + Bitcount(table) + log.deleted
    }

    /** The kernel reports just what is registered, and the count is that of the bits set in all contexts. */
    ghost predicate Valid()
      reads this, fdContexts
    {
      Kept() && interest == EventsOf(table) && pendingEventCount == Bitcount(table)
    }

    constructor ()
      ensures Valid() && table == Blanks(32) && log == NO_LOG && pendingEventCount == 0 && fresh(fdContexts)
    {
      fdContexts, interest, table, log := [], [], [], NO_LOG;
      pendingEventCount, scheduled := 0, [];
      new;
      Resize(32);
      BooksGrow([], NO_LOG, 32);
      assert [] + Blanks(32) == table;
      assert [] + Nones(32) == interest;
    }

    /** Grow the table; the new contexts are unused. */
    method Resize(size: nat)
      requires Shown() && size >= |fdContexts| && |interest| == |table|
      modifies `fdContexts, `table, `interest
      ensures Shown() && |fdContexts| == size && old(fdContexts) <= fdContexts
      ensures forall i | |old(fdContexts)| <= i < size :: fresh(fdContexts[i])
      ensures table == old(table) + Blanks(size - |old(table)|)
      ensures interest == old(interest) + Nones(size - |old(table)|)
    {
      ghost var n := |fdContexts|;
      while |fdContexts| < size
        invariant n <= |fdContexts| <= size && old(fdContexts) <= fdContexts && Shown()
        invariant forall i | n <= i < |fdContexts| :: fresh(fdContexts[i])
        invariant table == old(table) + Blanks(|fdContexts| - n)
        invariant interest == old(interest) + Nones(|fdContexts| - n)
      {
        var c := new FdContext(|fdContexts|);
        fdContexts, table, interest := fdContexts + [c], table + [BLANK], interest + [NONE];
      }
    }

    /** The kernel is asked to report `m`: it refuses, or does so. The operation fits what it has. */
    method EpollCtl(op: EpollOp, fd: nat, m: Mask, fails: bool) returns (rt: int)
      requires fd < |interest| && (op == ADD <==> interest[fd] == NONE) && (op == DEL ==> m == NONE)
      modifies `interest
      ensures if fails then rt != 0 && interest == old(interest) else rt == 0 && interest == old(interest)[fd := m]
    {
      if fails {
        return -1;
      }
      interest := interest[fd := m];
      return 0;
    }

    /** The context of `fd`, in a table grown for it if need be. */
    method Provide(fd: nat) returns (c: FdContext)
      requires Valid()
      modifies `fdContexts, `table, `interest
      ensures Valid() && fd < |fdContexts| && c == fdContexts[fd]
      ensures old(fdContexts) <= fdContexts && forall i | |old(fdContexts)| <= i < |fdContexts| :: fresh(fdContexts[i])
      ensures table == old(table) + Blanks(|table| - |old(table)|) && |old(table)| <= |table|
    {
      if |fdContexts| <= fd {
        var size := fd + fd / 2;
        BooksGrow(table, log, size - |table|);
        Resize(size);
      }
      return fdContexts[fd];
    }

    /** Set the bit of `e` in a context and note who waits for it. */
    method Enter(ctx: FdContext, e: Event, c: EventContext, ghost k: nat)
      requires Shown() && ctx.fd < |fdContexts| && ctx == fdContexts[ctx.fd]
      modifies `table, ctx
      ensures Shown() && table == old(table)[ctx.fd := Entered(old(table)[ctx.fd], e, c, k)]
    {
      ghost var fd := ctx.fd;
      assert ctx.Shows(table[fd]);
      ctx.events := Put(ctx.events, e, true);
      ctx.SetContext(e, c);
      table := table[fd := Entered(table[fd], e, c, k)];
      assert ctx.Shows(table[fd]);
    }

    /** Clear the bit of `e` in a context and what is noted for it. */
    method Reset(ctx: FdContext, e: Event)
      requires Shown() && ctx.fd < |fdContexts| && ctx == fdContexts[ctx.fd]
      modifies `table, ctx
      ensures Shown() && table == old(table)[ctx.fd := Cleared(old(table)[ctx.fd], e)]
    {
      ghost var fd := ctx.fd;
      assert ctx.Shows(table[fd]);
      ctx.events := Put(ctx.events, e, false);
      ctx.SetContext(e, UNUSED);
      table := table[fd := Cleared(table[fd], e)];
      assert ctx.Shows(table[fd]);
    }

    method AddTo(ctx: FdContext, fd: nat, e: Event, c: EventContext, fails: bool) returns (rt: int)
      requires Valid() && fd < |fdContexts| && ctx == fdContexts[fd] && !Has(table[fd].events, e) && InUse(c)
      modifies `pendingEventCount, `interest, `table, `log, ctx
      ensures Valid() && Extends(old(log), log)
      ensures if fails then rt == -1 && table == old(table) && log == old(log)
              && pendingEventCount == old(pendingEventCount)
              else rt == 0 && table == old(table)[fd := Entered(old(table)[fd], e, c, |old(log).made|)]
                   && log == Register(old(log), fd, e, c) && pendingEventCount == old(pendingEventCount) + 1
    {
      hide Books, RowOk, Bitcount, Entered;
      var op := if ctx.events == NONE then ADD else MOD;
      assert ctx.Shows(table[fd]);
      BooksRegister(table, log, fd, e, c);
      BitcountAfter(table, fd, Entered(table[fd], e, c, |log.made|));
      EnteredEvents(table[fd], e, c, |log.made|);
      var r := EpollCtl(op, fd, Put(ctx.events, e, true), fails);
      if r != 0 {
        return -1;
      }
      pendingEventCount := pendingEventCount + 1;
      Enter(ctx, e, c, |log.made|);
      log := Register(log, fd, e, c);
      return 0;
    }

    /**
     Register the caller's fiber, or a callback, for one event that nobody waits for yet. If the kernel
     refuses nothing is registered.
     */
    method AddEvent(fd: nat, e: Event, cb: Option<Callback>, fiber: FiberId, scheduler: SchedulerId, fails: bool)
      returns (rt: int)
      requires Valid() && (fd < |table| ==> !Has(table[fd].events, e))
      modifies this, fdContexts
      ensures Valid() && |old(table)| <= |table| && fd < |table| && Extends(old(log), log)
      ensures old(fdContexts) <= fdContexts && forall i | |old(fdContexts)| <= i < |fdContexts| :: fresh(fdContexts[i])
      ensures scheduled == old(scheduled)
      ensures var grown := old(table) + Blanks(|table| - |old(table)|);
              var c := EventContext(Some(scheduler), if cb.Some? then None else Some(fiber), cb);
              if fails then rt == -1 && table == grown && log == old(log) && pendingEventCount == old(pendingEventCount)
              else rt == 0 && table == grown[fd := Entered(grown[fd], e, c, |old(log).made|)]
                   && log == Register(old(log), fd, e, c) && pendingEventCount == old(pendingEventCount) + 1
      ensures !fails ==>
              var c := EventContext(Some(scheduler), if cb.Some? then None else Some(fiber), cb);
              var was := if fd < |old(table)| then old(table)[fd] else BLANK;
              && table[fd].events == (if e == READ then Mask(true, was.events.write) else Mask(was.events.read, true))
              && table[fd].read == (if e == READ then c else was.read)
              && table[fd].write == (if e == WRITE then c else was.write)
    {
      hide Books, Bitcount;
      var ctx := Provide(fd);
      var c := EventContext(Some(scheduler), if cb.Some? then None else Some(fiber), cb);
      rt := AddTo(ctx, fd, e, c, fails);
    }

    /** The kernel is asked to report no longer `e`; if it refuses nothing is changed. */
    method Withdraw(ctx: FdContext, fd: nat, e: Event, fails: bool) returns (rt: int)
      requires Valid() && fd < |fdContexts| && ctx == fdContexts[fd] && Has(table[fd].events, e)
      modifies `interest
      ensures if fails then rt != 0 && interest == old(interest)
              else rt == 0 && interest == EventsOf(table)[fd := Put(table[fd].events, e, false)]
    {
      hide Books, Bitcount;
      assert ctx.Shows(table[fd]);
      var left := Put(ctx.events, e, false);
      rt := EpollCtl(if left != NONE then MOD else DEL, fd, left, fails);
    }

    /** Drop a registration: it will not be scheduled. */
    method DelEvent(fd: nat, e: Event, fails: bool) returns (ok: bool)
      requires Valid()
      modifies `pendingEventCount, `interest, `table, `log, fdContexts
      ensures Valid() && Extends(old(log), log)
      ensures ok <==> !fails && fd < |table| && Has(old(table)[fd].events, e)
      ensures ok ==> table == old(table)[fd := Cleared(old(table)[fd], e)] && IdOf(old(table)[fd], e) < |old(log).fate|
                     && log == Delete(old(log), IdOf(old(table)[fd], e))
                     && pendingEventCount == old(pendingEventCount) - 1
      ensures scheduled == old(scheduled)
      ensures ok ==> Forgotten(old(table)[fd], table[fd], e)
      ensures !ok ==> table == old(table) && log == old(log) && pendingEventCount == old(pendingEventCount)
    {
      hide Books, Bitcount, Cleared, RowOk;
      if |fdContexts| <= fd {
        return false;
      }
      var ctx := fdContexts[fd];
      assert ctx.Shows(table[fd]);
      if !Has(ctx.events, e) {
        return false;
      }
      BooksDelete(table, log, fd, e);
      ClearedIsForgotten(table[fd], e);
      ClearedEvents(table[fd], e);
      BitcountAfter(table, fd, Cleared(table[fd], e));
      var rt := Withdraw(ctx, fd, e, fails);
      if rt != 0 {
        return false;
      }
      pendingEventCount := pendingEventCount - 1;
      log := Delete(log, IdOf(table[fd], e));
      Reset(ctx, e);
      return true;
    }

    /**
     Clear a bit and hand over what is registered. The pointer overloads of `schedule` move the fiber or the
     callback out, so the context is left unused.
     */
    method TriggerEvent(ctx: FdContext, e: Event)
      requires Kept() && ctx.fd < |fdContexts| && ctx == fdContexts[ctx.fd] && Has(table[ctx.fd].events, e)
      modifies `scheduled, `table, `log, ctx
      ensures Kept() && Bitcount(table) == Bitcount(old(table)) - 1 && Extends(old(log), log)
      ensures table == old(table)[ctx.fd := Cleared(old(table)[ctx.fd], e)]
      ensures HandedOver(old(log), log, old(table)[ctx.fd], e)
    {
      hide Books, Bitcount, Cleared;
      ghost var row := table[ctx.fd];
      BooksHand(table, log, ctx.fd, e);
      ClearedEvents(row, e);
      BitcountAfter(table, ctx.fd, Cleared(row, e));
      assert ctx.Shows(row);
      var c := ctx.GetContext(e);
      scheduled := scheduled + [Handed(c.scheduler.value, TaskOf(c))];
      log := Hand(log, IdOf(row, e), c);
      Reset(ctx, e);
    }

    /** Cancel a registration: whoever waits is scheduled now. */
    method CancelEvent(fd: nat, e: Event, fails: bool) returns (ok: bool)
      requires Valid()
      modifies `scheduled, `pendingEventCount, `interest, `table, `log, fdContexts
      ensures Valid() && Extends(old(log), log)
      ensures ok <==> !fails && fd < |table| && Has(old(table)[fd].events, e)
      ensures ok ==> table == old(table)[fd := Cleared(old(table)[fd], e)]
                     && HandedOver(old(log), log, old(table)[fd], e)
                     && pendingEventCount == old(pendingEventCount) - 1
      ensures ok ==> Forgotten(old(table)[fd], table[fd], e)
      ensures !ok ==> scheduled == old(scheduled)
      ensures ok ==> var row := old(table)[fd];
                     scheduled == old(scheduled) + HandedOf(if e == READ then row.read else row.write)
      ensures !ok ==> table == old(table) && log == old(log) && pendingEventCount == old(pendingEventCount)
    {
      hide Books, Bitcount, Cleared;
      if |fdContexts| <= fd {
        return false;
      }
      var ctx := fdContexts[fd];
      assert ctx.Shows(table[fd]);
      if !Has(ctx.events, e) {
        return false;
      }
      BitcountAfter(table, fd, Cleared(table[fd], e));
      ClearedIsForgotten(table[fd], e);
      HandsWaiter(table, log, fd, e);
      ClearedEvents(table[fd], e);
      var rt := Withdraw(ctx, fd, e, fails);
      if rt != 0 {
        return false;
      }
      TriggerEvent(ctx, e);
      pendingEventCount := pendingEventCount - 1;
      return true;
    }

    /** Trigger all events of `m`, up to an assertion that fails. */
    method TriggerAll(ctx: FdContext, m: Mask) returns (aborted: bool)
      requires Kept() && ctx.fd < |fdContexts| && ctx == fdContexts[ctx.fd] && pendingEventCount == Bitcount(table)
      modifies `scheduled, `pendingEventCount, `table, `log, ctx
      ensures aborted <==> !Within(m, old(table)[ctx.fd].events)
      ensures !aborted ==>
        && Kept() && pendingEventCount == Bitcount(table) && pendingEventCount == old(pendingEventCount) - Bits(m)
        && Extends(old(log), log)
        && table == old(table)[ctx.fd := ClearedAll(old(table)[ctx.fd], m)]
        && HandedAll(old(log), log, old(table)[ctx.fd], m)
    {
      hide Books, Bitcount;
      if m.read {
        assert ctx.Shows(table[ctx.fd]);
        if !Has(ctx.events, READ) {
          return true;
        }
        TriggerEvent(ctx, READ);
        pendingEventCount := pendingEventCount - 1;
      }
      if m.write {
        assert ctx.Shows(table[ctx.fd]);
        if !Has(ctx.events, WRITE) {
          return true;
        }
        TriggerEvent(ctx, WRITE);
        pendingEventCount := pendingEventCount - 1;
      }
      return false;
    }

    /** Cancel all registrations of a descriptor. */
    method CancelAll(fd: nat, fails: bool) returns (ok: bool)
      requires Valid()
      modifies `scheduled, `pendingEventCount, `interest, `table, `log, fdContexts
      ensures Valid() && Extends(old(log), log)
      ensures ok <==> !fails && fd < |table| && old(table)[fd].events != NONE
      ensures ok ==> table == old(table)[fd := ClearedAll(old(table)[fd], old(table)[fd].events)]
                     && table[fd].events == NONE
                     && HandedAll(old(log), log, old(table)[fd], old(table)[fd].events)
                     && pendingEventCount == old(pendingEventCount) - Bits(old(table)[fd].events)
      ensures ok ==> var row := old(table)[fd];
                     scheduled == old(scheduled) + (if row.events.read then HandedOf(row.read) else [])
                                                 + (if row.events.write then HandedOf(row.write) else [])
      ensures !ok ==> scheduled == old(scheduled)
      ensures !ok ==> table == old(table) && log == old(log) && pendingEventCount == old(pendingEventCount)
    {
      hide Books, Bitcount, InUse, HandedOf;
      if |fdContexts| <= fd {
        return false;
      }
      var ctx := fdContexts[fd];
      assert ctx.Shows(table[fd]);
      if ctx.events == NONE {
        return false;
      }
      if table[fd].events.read {
        HandsWaiter(table, log, fd, READ);
      }
      if table[fd].events.write {
        HandsWaiter(table, log, fd, WRITE);
      }
      var rt := EpollCtl(DEL, fd, NONE, fails);
      if rt != 0 {
        return false;
      }
      var _ := TriggerAll(ctx, ctx.events);
      return true;
    }

    /** One report of the kernel, as `idle` handles it. */
    method Dispatch(r: Report, fails: bool) returns (aborted: bool)
      requires Valid() && (r.Ready? ==> r.fd < |fdContexts|)
      modifies `scheduled, `pendingEventCount, `interest, `table, `log, fdContexts
      ensures r.Tickle? ==> !aborted
      ensures r.Ready? ==> (aborted <==> !fails && Overshoots(r, old(table)[r.fd].events))
      ensures !aborted ==> Valid() && Extends(old(log), log) && |table| == |old(table)|
      ensures !aborted ==> forall fd | 0 <= fd < |table| && !(r.Ready? && r.fd == fd) :: table[fd] == old(table)[fd]
      ensures !aborted ==> table == TableAfter(old(table), r, fails) && log == LogAfter(old(table), old(log), r, fails)
      ensures !aborted && r.Ready? ==>
        var hits := Hits(r, fails, old(table)[r.fd].events);
        pendingEventCount == old(pendingEventCount) - Bits(hits)
          && (hits != NONE ==> HandedAll(old(log), log, old(table)[r.fd], hits))
      ensures !aborted && r.Tickle? ==> pendingEventCount == old(pendingEventCount)
      ensures r.Ready? ==> (aborted <==> !fails && IsStale(old(table)[r.fd], r))
      ensures !aborted && r.Tickle? ==> scheduled == old(scheduled)
      ensures !aborted && r.Ready? ==>
        var row := old(table)[r.fd];
        && scheduled == old(scheduled) + WokenBy(row, r, fails)
        && Answered(row, table[r.fd], r, fails)
        && (!fails && IsDue(row, r, READ) ==> row.readId < |log.fate| && log.fate[row.readId].Scheduled?)
        && (!fails && IsDue(row, r, WRITE) ==> row.writeId < |log.fate| && log.fate[row.writeId].Scheduled?)
    {
      hide Books, Bitcount, HandedAll, LogAfter, Answered, IsStale, WokenBy;
      if r.Ready? {
        StaleOvershoots(table[r.fd], r);
        if fails || !IsStale(table[r.fd], r) {
          ReportWakes(table, log, r, fails);
        }
      }
      if r.Tickle? {
        NothingHit(table, log, r, fails);
        return false;
      }
      var ctx := fdContexts[r.fd];
      assert ctx.Shows(table[r.fd]);
      ghost var t, g := table, log;
      var hits := Real(r, ctx.events);
      if And(ctx.events, hits) == NONE {
        NothingHit(table, log, r, fails);
        return false;
      }
      var left := Minus(ctx.events, hits);
      var rt := EpollCtl(if left != NONE then MOD else DEL, r.fd, left, fails);
      if rt != 0 {
        NothingHit(table, log, r, fails);
        return false;
      }
      aborted := TriggerAll(ctx, hits);
      if !aborted {
        HandedIsLogged(t, g, log, r);
      }
    }

    /**
     A batch of reports: it aborts exactly if some report runs into the assertion when its turn comes, and else
     each has been handled in turn. If each descriptor is reported at most once, and only for what it is
     registered for when the batch is handled, no assertion fails.
     */
    method DispatchAll(rs: seq<Report>, fails: seq<bool>) returns (aborted: bool)
      requires Valid() && |fails| == |rs|
      requires forall i | 0 <= i < |rs| && rs[i].Ready? :: rs[i].fd < |fdContexts|
      modifies `scheduled, `pendingEventCount, `interest, `table, `log, fdContexts
      ensures aborted <==> exists i | 0 <= i < |rs| :: OvershootsAt(old(table), rs, fails, i)
      ensures !aborted ==>
        && Valid() && Extends(old(log), log)
        && table == TableOf(old(table), rs, fails) && log == LogOf(old(table), old(log), rs, fails)
      ensures Distinct(rs) ==> (aborted <==> SomeStale(old(table), rs, fails))
      ensures !aborted && Distinct(rs) ==> scheduled == old(scheduled) + WokenByAll(old(table), rs, fails)
      ensures !aborted && Distinct(rs) ==> AllAnswered(old(table), table, rs, fails)
      ensures Distinct(rs)
              && (forall i | 0 <= i < |rs| && rs[i].Ready? :: Within(rs[i].bits, old(table)[rs[i].fd].events)) ==>
              !aborted
    {
      hide Books, Bitcount, HandedAll, TableAfter, LogAfter, Extends, Hits, Overshoots, IsStale, SomeStale,
           Answered, AllAnswered, WokenBy, Distinct;
      ExtendsItself(log);
      if Distinct(rs) {
        StaleInTurn(table, rs, fails);
      }
      assert rs[..0] == [] && fails[..0] == [];
      for i := 0 to |rs|
        invariant Valid() && Extends(old(log), log) && |table| == |old(table)|
        invariant table == TableOf(old(table), rs[..i], fails[..i])
                  && log == LogOf(old(table), old(log), rs[..i], fails[..i])
        invariant forall j | 0 <= j < i :: !OvershootsAt(old(table), rs, fails, j)
        invariant Distinct(rs) ==> scheduled == old(scheduled) + WokenByAll(old(table), rs[..i], fails[..i])
      {
        ghost var g := log;
        if Distinct(rs) {
          NotYet(old(table), rs, fails, i);
        }
        assert rs[..i + 1][..i] == rs[..i] && fails[..i + 1][..i] == fails[..i];
        aborted := Dispatch(rs[i], fails[i]);
        if aborted {
          assert OvershootsAt(old(table), rs, fails, i);
          OnlyWithin(old(table), rs, fails, i);
          return true;
        }
        ExtendsOn(old(log), g, log);
      }
      assert rs[..|rs|] == rs && fails[..|rs|] == fails;
      if Distinct(rs) {
        BatchAnswers(old(table), rs, fails);
      }
      return false;
    }
  }

  /** What is due by some report of the batch is no longer waited for, and all else is as it was. */
  predicate AllAnswered(table: seq<Row>, table': seq<Row>, rs: seq<Report>, fails: seq<bool>)
    requires |fails| == |rs| && |table'| == |table|
  {
    forall i | 0 <= i < |rs| && rs[i].Ready? && rs[i].fd < |table| ::
      Answered(table[rs[i].fd], table'[rs[i].fd], rs[i], fails[i])
  }

  /** The kernel agrees to some report that is stale. */
  ghost predicate SomeStale(table: seq<Row>, rs: seq<Report>, fails: seq<bool>)
    requires |fails| == |rs|
  {
    exists i | 0 <= i < |rs| && rs[i].Ready? && rs[i].fd < |table| :: !fails[i] && IsStale(table[rs[i].fd], rs[i])
  }

  /** With each descriptor reported once, a report is stale in its turn exactly if it is at first. */
  lemma StaleInTurn(table: seq<Row>, rs: seq<Report>, fails: seq<bool>)
    requires |fails| == |rs| && Distinct(rs) && forall i | 0 <= i < |rs| && rs[i].Ready? :: rs[i].fd < |table|
    ensures (exists i | 0 <= i < |rs| :: OvershootsAt(table, rs, fails, i)) <==>
            SomeStale(table, rs, fails)
  {
    hide IsStale, Overshoots, Distinct;
    forall i | 0 <= i < |rs|
      ensures OvershootsAt(table, rs, fails, i) <==> rs[i].Ready? && !fails[i] && IsStale(table[rs[i].fd], rs[i])
    {
      NotYet(table, rs, fails, i);
      if rs[i].Ready? {
        StaleOvershoots(table[rs[i].fd], rs[i]);
      }
    }
  }

  lemma ReportAnswers(table: seq<Row>, r: Report, fails: bool)
    requires r.Ready? && r.fd < |table| && (fails || !Overshoots(r, table[r.fd].events))
    ensures Answered(table[r.fd], TableAfter(table, r, fails)[r.fd], r, fails)
  {
  }

  lemma BatchAnswers(table: seq<Row>, rs: seq<Report>, fails: seq<bool>)
    requires |fails| == |rs| && Distinct(rs) && forall i | 0 <= i < |rs| :: !OvershootsAt(table, rs, fails, i)
    ensures AllAnswered(table, TableOf(table, rs, fails), rs, fails)
  {
    hide Answered, TableAfter, Overshoots, Distinct;
    forall i | 0 <= i < |rs| && rs[i].Ready? && rs[i].fd < |table|
      ensures Answered(table[rs[i].fd], TableOf(table, rs, fails)[rs[i].fd], rs[i], fails[i])
    {
      EachOnItsOwn(table, rs, fails, i);
      NotYet(table, rs, fails, i);
      assert !OvershootsAt(table, rs, fails, i);
      ReportAnswers(table, rs[i], fails[i]);
    }
  }

  /** With each descriptor reported once, what is reported now is as it was, and will not be reported again. */
  lemma NotYet(table: seq<Row>, rs: seq<Report>, fails: seq<bool>, i: nat)
    requires |fails| == |rs| && i < |rs| && Distinct(rs)
    ensures rs[i].Ready? && rs[i].fd < |table| ==> TableOf(table, rs[..i], fails[..i])[rs[i].fd] == table[rs[i].fd]
    ensures forall j | 0 <= j < i && rs[i].Ready? && rs[j].Ready? :: rs[j].fd != rs[i].fd
  {
    if rs[i].Ready? && rs[i].fd < |table| {
      assert !Reports(rs[..i], rs[i].fd) by {
        assert forall j | 0 <= j < i :: rs[..i][j] == rs[j];
      }
      NotReported(table, rs[..i], fails[..i], rs[i].fd);
    }
  }

  /**
   With each descriptor reported once, a report overshoots only if it is not within what was registered before
   the batch.
   */
  lemma OnlyWithin(table: seq<Row>, rs: seq<Report>, fails: seq<bool>, i: nat)
    requires |fails| == |rs| && i < |rs| && OvershootsAt(table, rs, fails, i)
    ensures Distinct(rs) ==> !Within(rs[i].bits, table[rs[i].fd].events)
  {
    if Distinct(rs) {
      assert !Reports(rs[..i], rs[i].fd) by {
        assert forall j | 0 <= j < i :: rs[..i][j] == rs[j];
      }
      NotReported(table, rs[..i], fails[..i], rs[i].fd);
    }
  }

  /**
   A report can be stale: the kernel reports both events of a descriptor, one of them is deleted before the
   report is handled, and handling it runs into the assertion.
   */
  method StaleReport(fd: nat, reader: FiberId, writer: FiberId, scheduler: SchedulerId) returns (aborted: bool)
    ensures aborted
  {
    hide Books, Bitcount;
    var m := new IOManager();
    var _ := m.AddEvent(fd, READ, None, reader, scheduler, false);
    assert m.table[fd] == Entered(BLANK, READ, EventContext(Some(scheduler), Some(reader), None), 0);
    var _ := m.AddEvent(fd, WRITE, None, writer, scheduler, false);
    var report := Ready(fd, Mask(true, true), false);
    assert Within(report.bits, m.interest[fd]);
    var _ := m.DelEvent(fd, WRITE, false);
    aborted := m.Dispatch(report, false);
  }
}
