/**
 The scheduler's shared list of tasks and the search a worker makes in it.
 A list entry is a fiber or a callback, possibly pinned to one thread.
 */
module RunQueues {
  import opened Options

  type FiberId = nat
  type ThreadId = nat
  type Callback = nat

  datatype FiberState = INIT | HOLD | RUNNING | END | READY | EXCEPT

  datatype Task = NoTask | FiberTask(fiber: FiberId) | CallbackTask(cb: Callback)

  /** `thread` is None where the source stores -1 (any thread may take the entry). */
  datatype Entry = Entry(task: Task, thread: Option<ThreadId>)

  /** Pinned to some other thread: passed over, and another thread must be woken for it. */
  predicate PinnedElsewhere(e: Entry, tid: ThreadId) {
    e.thread.Some? && e.thread.value != tid
  }

  /** A fiber that some thread has not finished leaving: passed over until it is off its stack. */
  predicate StillRunning(e: Entry, st: map<FiberId, FiberState>) {
    e.task.FiberTask? && e.task.fiber in st && st[e.task.fiber] == RUNNING
  }

  predicate Eligible(e: Entry, tid: ThreadId, st: map<FiberId, FiberState>) {
    !PinnedElsewhere(e, tid) && !StillRunning(e, st)
  }

  /** `i` is the place of the first entry that `tid` may take, or the end of the list. */
  ghost predicate IsFirstEligible(q: seq<Entry>, tid: ThreadId, st: map<FiberId, FiberState>, i: nat) {
    && i <= |q|
    && (forall j | 0 <= j < i :: !Eligible(q[j], tid, st))
    && (i < |q| ==> Eligible(q[i], tid, st))
  }

  function RemoveAt<T>(q: seq<T>, i: nat): seq<T>
    requires i < |q|
  {
    q[..i] + q[i + 1..]
  }

  /** What `scheduleNoLock` leaves in the list: an empty task is not stored. */
  function Scheduled(q: seq<Entry>, task: Task, thread: Option<ThreadId>): seq<Entry> {
    if task.NoTask? then q else q + [Entry(task, thread)]
  }

  /** The same for several tasks in turn. */
  function ScheduledAll(q: seq<Entry>, tasks: seq<Task>): seq<Entry> {
    if tasks == [] then q else Scheduled(ScheduledAll(q, tasks[..|tasks| - 1]), tasks[|tasks| - 1], None)
  }

  class RunQueue {
    var fibers: seq<Entry>
    var activeThreadCount: nat

    constructor ()
      ensures fibers == [] && activeThreadCount == 0
    {
      fibers, activeThreadCount := [], 0;
    }

    /** Every stored entry has something to run. */
    ghost predicate Valid()
      reads this
    {
      forall e | e in fibers :: !e.task.NoTask?
    }

    /** Append; the answer says whether the list was empty, so that an idle thread must be woken. */
    method ScheduleNoLock(task: Task, thread: Option<ThreadId>) returns (needTickle: bool)
      requires Valid()
      modifies this`fibers
      ensures Valid()
      ensures fibers == Scheduled(old(fibers), task, thread)
      ensures fibers == old(fibers) + if task == NoTask then [] else [Entry(task, thread)]
      ensures needTickle <==> old(fibers) == []
    {
      needTickle := fibers == [];
      if task != NoTask {
        fibers := fibers + [Entry(task, thread)];
      }
    }

    /** Append several tasks, for any thread, under one lock; all of them, whatever the answers in between. */
    method ScheduleAll(tasks: seq<Task>) returns (needTickle: bool)
      requires Valid()
      modifies this`fibers
      ensures Valid() && fibers == ScheduledAll(old(fibers), tasks)
      ensures needTickle <==> old(fibers) == [] && tasks != []
    {
      needTickle := false;
      assert tasks[..|tasks|] == tasks;
      for i := 0 to |tasks|
        invariant Valid() && fibers == ScheduledAll(old(fibers), tasks[..i])
        invariant old(fibers) != [] ==> fibers != []
        invariant needTickle <==> old(fibers) == [] && i > 0
      {
        assert tasks[..i + 1][..i] == tasks[..i];
        var first := ScheduleNoLock(tasks[i], None);
        needTickle := first || needTickle;
      }
    }

    /**
     One locked search by thread `tid`: takes the first entry that is neither pinned elsewhere nor a
     fiber still RUNNING, and leaves all others in their order. `tickleMe` asks for another thread to
     be woken: an entry for another thread was passed over, or entries remain behind the one taken.
     */
    method Take(tid: ThreadId, st: map<FiberId, FiberState>) returns (ft: Option<Entry>, tickleMe: bool, ghost at: nat)
      requires Valid()
      modifies this
      ensures Valid()
      ensures IsFirstEligible(old(fibers), tid, st, at)
      ensures at < old(|fibers|) ==> ft == Some(old(fibers)[at]) && fibers == RemoveAt(old(fibers), at)
                                     && activeThreadCount == old(activeThreadCount) + 1
      ensures ft.Some? ==>
                var e := ft.value;
                && (e.thread == None || e.thread == Some(tid))
                && !(e.task.FiberTask? && e.task.fiber in st && st[e.task.fiber] == RUNNING)
      ensures forall j | 0 <= j < at ::
                var e := old(fibers)[j];
                || (e.thread != None && e.thread != Some(tid))
                || (e.task.FiberTask? && e.task.fiber in st && st[e.task.fiber] == RUNNING)
      ensures at == old(|fibers|) ==> ft == None && unchanged(this)
      ensures tickleMe <==> (exists j | 0 <= j < at :: PinnedElsewhere(old(fibers)[j], tid)) || at + 1 < old(|fibers|)
    {
      var it := 0;
      tickleMe := false;
      ft := None;
      while it < |fibers|
        invariant 0 <= it <= |fibers| && unchanged(this) && ft == None
        invariant forall j | 0 <= j < it :: !Eligible(fibers[j], tid, st)
        invariant tickleMe <==> exists j | 0 <= j < it :: PinnedElsewhere(fibers[j], tid)
      {
        if fibers[it].thread != None && fibers[it].thread != Some(tid) {
          it := it + 1;
          tickleMe := true;
          continue;
        }
        assert fibers[it] in fibers;
        if fibers[it].task.FiberTask? && fibers[it].task.fiber in st && st[fibers[it].task.fiber] == RUNNING {
          it := it + 1;
          continue;
        }
        ft := Some(fibers[it]);
        fibers := fibers[..it] + fibers[it + 1..];
        activeThreadCount := activeThreadCount + 1;
        break;
      }
      at := it;
      tickleMe := tickleMe || it < |fibers|;
    }
  }
}
