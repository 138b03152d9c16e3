/**
 The thread pool of ngx_thread_pool.c: one event-loop thread that posts tasks and completes them,
 and any number of workers, interleaved instruction by instruction.

 Both threads' critical sections are entered through a lock word; a signal wakes one waiting worker,
 of the schedule's choosing, and a worker may also wake up by itself.
 */
module ThreadPool {
  import opened Counting

  type Task = nat

  datatype Owner = Free | ByMain | ByWorker(index: nat)

  /** The next instruction of a worker (ngx_thread_pool_cycle). */
  datatype Worker =
    | Lock                     // ngx_thread_mutex_lock
    | Decrement                // tp->waiting--
    | Check                    // test the queue; wait, or take the first task
    | Waiting                  // in pthread_cond_wait, not signalled
    | Woken                    // signalled, has to retake the mutex
    | Release(task: Task)      // ngx_thread_mutex_unlock
    | Handler(task: Task)      // task->handler
    | DoneLock(task: Task)     // ngx_spinlock
    | Append(task: Task)       // onto the done list
    | DoneUnlock
    | Notify

  /** The next instruction of the event loop. */
  datatype Poster =
    | Loop                     // between events, or in a completion handler
    | Test(task: Task)         // ngx_thread_task_post: is it active?
    | PostLock(task: Task)
    | Full(task: Task)         // is the queue full? else mark it active
    | Signal(task: Task)
    | Enqueue(task: Task)
    | Increment                // tp->waiting++
    | PostUnlock
    | GrabLock                 // ngx_thread_pool_handler
    | Grab
    | GrabUnlock

  /** What happened so far: tasks enqueued, dequeued, run, put on the done list, completed, and those
      whose signal failed. */
  datatype Log = Log(posted: seq<Task>, taken: seq<Task>, ran: seq<Task>, appended: seq<Task>, completed: seq<Task>, lost: seq<Task>)

  datatype State = State(
    mutex: Owner, queue: seq<Task>, waiting: int,
    doneLock: Owner, done: seq<Task>, notified: bool,
    active: set<Task>, main: Poster, batch: seq<Task>, workers: seq<Worker>, log: Log)

  /** What the schedule decides. */
  datatype Choice = Post(task: Task) | Handle | Complete | Wake(index: nat) | Fail | Spurious | Go

  // ---------------------------------------------------------------- the workers

  function WorkerStep(s: State, i: nat, a: Choice): State
    requires i < |s.workers|
  {
    var w := Advance(s, i, a);
    var s1 := s.(workers := s.workers[i := w]);
    match s.workers[i]
    case Lock => s1.(mutex := if s.mutex.Free? then ByWorker(i) else s.mutex)
    case Decrement => s1.(waiting := s.waiting - 1)
    case Check =>
      if s.queue == [] then s1.(mutex := Free)
      else s1.(queue := s.queue[1..], log := s.log.(taken := s.log.taken + [s.queue[0]]))
    case Waiting => s1
    case Woken => s1.(mutex := if s.mutex.Free? then ByWorker(i) else s.mutex)
    case Release(_) => s1.(mutex := Free)
    case Handler(t) => s1.(log := s.log.(ran := s.log.ran + [t]))
    case DoneLock(_) => s1.(doneLock := if s.doneLock.Free? then ByWorker(i) else s.doneLock)
    case Append(t) => s1.(done := s.done + [t], log := s.log.(appended := s.log.appended + [t]))
    case DoneUnlock => s1.(doneLock := Free)
    case Notify => s1.(notified := true)
  }

  /** Where worker i is after its next instruction. */
  function Advance(s: State, i: nat, a: Choice): Worker
    requires i < |s.workers|
  {
    match s.workers[i]
    case Lock => if s.mutex.Free? then Decrement else Lock
    case Decrement => Check
    case Check => if s.queue == [] then Waiting else Release(s.queue[0])
    case Waiting => if a.Spurious? then Woken else Waiting
    case Woken => if s.mutex.Free? then Check else Woken
    case Release(t) => Handler(t)
    case Handler(t) => DoneLock(t)
    case DoneLock(t) => if s.doneLock.Free? then Append(t) else DoneLock(t)
    case Append(_) => DoneUnlock
    case DoneUnlock => Notify
    case Notify => Lock
  }

  // ---------------------------------------------------------------- the event loop

  function MainStep(s: State, max: int, a: Choice): State {
    match s.main
    case Loop =>
      if a.Post? then s.(main := Test(a.task))
      else if a.Handle? && s.notified && s.batch == [] then s.(notified := false, main := GrabLock)
      else if a.Complete? && s.batch != [] then
        s.(active := s.active - {s.batch[0]}, batch := s.batch[1..], log := s.log.(completed := s.log.completed + [s.batch[0]]))
      else s
    case Test(t) => s.(main := if t in s.active then Loop else PostLock(t))
    case PostLock(t) => if s.mutex.Free? then s.(mutex := ByMain, main := Full(t)) else s
    case Full(t) => if s.waiting >= max then s.(main := PostUnlock) else s.(active := s.active + {t}, main := Signal(t))
    case Signal(t) =>
      if a.Fail? then s.(main := PostUnlock, log := s.log.(lost := s.log.lost + [t]))
      else s.(workers := Signalled(s.workers, if a.Wake? then a.index else 0), main := Enqueue(t))
    case Enqueue(t) => s.(queue := s.queue + [t], log := s.log.(posted := s.log.posted + [t]), main := Increment)
    case Increment => s.(waiting := s.waiting + 1, main := PostUnlock)
    case PostUnlock => s.(mutex := Free, main := Loop)
    case GrabLock => if s.doneLock.Free? then s.(doneLock := ByMain, main := Grab) else s
    case Grab => s.(batch := s.done, done := [], main := GrabUnlock)
    case GrabUnlock => s.(doneLock := Free, main := Loop)
  }

  /** One waiting worker wakes up, if there is any: the preferred one, or else the first. */
  function Signalled(ws: seq<Worker>, prefer: nat): (r: seq<Worker>)
    ensures |r| == |ws|
  {
    if prefer < |ws| && ws[prefer].Waiting? then ws[prefer := Woken] else WakeFirst(ws)
  }

  function WakeFirst(ws: seq<Worker>): (r: seq<Worker>)
    ensures |r| == |ws|
  {
    if ws == [] then []
    else if ws[0].Waiting? then [Woken] + ws[1..]
    else [ws[0]] + WakeFirst(ws[1..])
  }

  datatype Thread = EventLoop | Pooled(index: nat)

  function Step(s: State, max: int, who: Thread, a: Choice): State
    requires who.Pooled? ==> who.index < |s.workers|
  {
    if who.EventLoop? then MainStep(s, max, a) else WorkerStep(s, who.index, a)
  }

  // ---------------------------------------------------------------- kinds of workers

  predicate InMutex(w: Worker) { w.Decrement? || w.Check? || w.Release? }

  predicate InDone(w: Worker) { w.Append? || w.DoneUnlock? }

  predicate MainInMutex(m: Poster) {
    m.Full? || m.Signal? || m.Enqueue? || m.Increment? || m.PostUnlock?
  }

  predicate MainInDone(m: Poster) { m.Grab? || m.GrabUnlock? }

  /** Past its decrement and without a task yet. */
  predicate Counted(w: Worker) { w.Check? || w.Waiting? || w.Woken? }

  predicate Asleep(w: Worker) { w.Waiting? }

  /** Certain to look at the queue before it waits again. */
  predicate Heading(w: Worker) { w.Decrement? || w.Check? || w.Woken? }

  predicate Notifying(w: Worker) { w.DoneUnlock? || w.Notify? }

  /** Holds task t, whose handler has not run yet. */
  predicate Pending(w: Worker, t: Task) {
    (w.Release? || w.Handler?) && w.task == t
  }

  /** Holds task t, whose handler has run. */
  predicate Finished(w: Worker, t: Task) {
    (w.DoneLock? || w.Append?) && w.task == t
  }

  function One(b: bool): nat { if b then 1 else 0 }

  function PendingIn(ws: seq<Worker>, t: Task): nat {
    if ws == [] then 0 else One(Pending(ws[0], t)) + PendingIn(ws[1..], t)
  }

  function FinishedIn(ws: seq<Worker>, t: Task): nat {
    if ws == [] then 0 else One(Finished(ws[0], t)) + FinishedIn(ws[1..], t)
  }

  lemma {:induction false} HoldersSet(ws: seq<Worker>, i: nat, w: Worker, t: Task)
    requires i < |ws|
    ensures PendingIn(ws[i := w], t) + One(Pending(ws[i], t)) == PendingIn(ws, t) + One(Pending(w, t))
    ensures FinishedIn(ws[i := w], t) + One(Finished(ws[i], t)) == FinishedIn(ws, t) + One(Finished(w, t))
  {
    if i == 0 {
      assert ws[i := w] == [w] + ws[1..];
    } else {
      assert ws[i := w] == [ws[0]] + ws[1..][i - 1 := w];
      HoldersSet(ws[1..], i - 1, w, t);
    }
  }

  /** How often t occurs in s. */
  function Occ(s: seq<Task>, t: Task): nat {
    if s == [] then 0 else One(s[0] == t) + Occ(s[1..], t)
  }

  lemma {:induction false} OccConcat(a: seq<Task>, b: seq<Task>, t: Task)
    ensures Occ(a + b, t) == Occ(a, t) + Occ(b, t)
  {
    if a == [] {
      assert a + b == b;
    } else {
      assert (a + b)[1..] == a[1..] + b;
      OccConcat(a[1..], b, t);
    }
  }

  lemma OccAppend(s: seq<Task>, x: Task, t: Task)
    ensures Occ(s + [x], t) == Occ(s, t) + One(x == t)
  {
    OccConcat(s, [x], t);
    assert [x][1..] == [];
    assert Occ([x], t) == One(x == t) + Occ([], t);
  }

  /** A signal changes one waiting worker, exactly when there is one. */
  lemma {:induction false} WakeFirstOne(ws: seq<Worker>) returns (i: nat)
    ensures i <= |ws| && |WakeFirst(ws)| == |ws|
    ensures if i < |ws| then ws[i].Waiting? && WakeFirst(ws) == ws[i := Woken] else WakeFirst(ws) == ws && Count(ws, Asleep) == 0
  {
    if ws == [] || ws[0].Waiting? {
      i := 0;
    } else {
      i := WakeFirstOne(ws[1..]);
      i := i + 1;
      assert i < |ws| ==> ws[i := Woken] == [ws[0]] + ws[1..][i - 1 := Woken];
    }
  }

  lemma SignalledOne(ws: seq<Worker>, prefer: nat) returns (i: nat)
    ensures i <= |ws| && |Signalled(ws, prefer)| == |ws|
    ensures if i < |ws| then ws[i].Waiting? && Signalled(ws, prefer) == ws[i := Woken]
            else Signalled(ws, prefer) == ws && Count(ws, Asleep) == 0
  {
    if prefer < |ws| && ws[prefer].Waiting? {
      i := prefer;
    } else {
      i := WakeFirstOne(ws);
    }
  }

  // ---------------------------------------------------------------- the invariant

  /** Who is inside which critical section. */
  ghost predicate Locks(s: State) {
    && (MainInMutex(s.main) <==> s.mutex.ByMain?) && (MainInDone(s.main) <==> s.doneLock.ByMain?)
    && (s.mutex.ByWorker? ==> s.mutex.index < |s.workers|) && (s.doneLock.ByWorker? ==> s.doneLock.index < |s.workers|)
    && forall i :: 0 <= i < |s.workers| ==> LockedBy(s, i)
  }

  ghost predicate LockedBy(s: State, i: nat)
    requires i < |s.workers|
  {
    && (InMutex(s.workers[i]) <==> s.mutex == ByWorker(i))
    && (InDone(s.workers[i]) <==> s.doneLock == ByWorker(i))
  }

  /** How often t is in the hands of the poster, queued, with a worker, done, in the batch, or lost. */
  ghost function Places(s: State, t: Task): nat {
    One((s.main.Signal? || s.main.Enqueue?) && s.main.task == t) + Occ(s.queue, t)
    + PendingIn(s.workers, t) + FinishedIn(s.workers, t) + Occ(s.done, t) + Occ(s.batch, t) + Occ(s.log.lost, t)
  }

  /** Each active task is in exactly one place; a task about to be posted is not active. */
  ghost predicate Placed(s: State) {
    && (forall t :: Places(s, t) == One(t in s.active))
    && (s.main.PostLock? || s.main.Full? ==> s.main.task !in s.active)
  }

  /** Tasks leave the queue and the done list in the order they came. */
  ghost predicate InOrder(s: State) {
    && s.log.posted == s.log.taken + s.queue
    && s.log.appended == s.log.completed + s.batch + s.done
    && (s.main.GrabLock? || s.main.Grab? ==> s.batch == [])
  }

  /** Every task taken runs once, and goes to the done list once. */
  ghost predicate RunsOnce(s: State) {
    forall t :: RunOnce(s, t)
  }

  ghost predicate RunOnce(s: State, t: Task) {
    && Occ(s.log.taken, t) == PendingIn(s.workers, t) + Occ(s.log.ran, t)
    && Occ(s.log.ran, t) == FinishedIn(s.workers, t) + Occ(s.log.appended, t)
  }

  /** `waiting` is the length of the queue less the workers that wait for a task. */
  ghost predicate Tally(s: State) {
    s.waiting == |s.queue| - Count(s.workers, Counted) - if s.main.Increment? then 1 else 0
  }

  /** While a worker sleeps, every queued task has a worker on its way. */
  ghost predicate Served(s: State) {
    Count(s.workers, Asleep) > 0 ==>
      |s.queue| + (if s.main.Enqueue? then 1 else 0) <= Count(s.workers, Heading)
  }

  /** A task on the done list is announced, or about to be. */
  ghost predicate Announced(s: State) {
    s.done == [] || s.notified || Count(s.workers, Notifying) > 0 || s.main.GrabLock? || s.main.Grab?
  }

  ghost predicate Inv(s: State) {
    Locks(s) && Placed(s) && InOrder(s) && RunsOnce(s) && Tally(s) && Served(s) && Announced(s)
  }

  // ---------------------------------------------------------------- each part is kept

  lemma WorkerShape(s: State, i: nat, a: Choice)
    requires i < |s.workers|
    ensures var s' := WorkerStep(s, i, a);
            s'.workers == s.workers[i := Advance(s, i, a)] && s'.main == s.main && s'.batch == s.batch && s'.active == s.active
  {
  }

  predicate Takes(s: State, w: Worker) { w.Check? && s.queue != [] }

  /** The sequences after an instruction of a worker that is at w. */
  ghost predicate WorkerMoves(s: State, s': State, w: Worker) {
    && s'.queue == (if Takes(s, w) then s.queue[1..] else s.queue)
    && s'.done == (if w.Append? then s.done + [w.task] else s.done)
    && s'.log.taken == (if Takes(s, w) then s.log.taken + [s.queue[0]] else s.log.taken)
    && s'.log.ran == (if w.Handler? then s.log.ran + [w.task] else s.log.ran)
    && s'.log.appended == (if w.Append? then s.log.appended + [w.task] else s.log.appended)
    && s'.log.lost == s.log.lost
  }

  /** The worker's own task before and after. */
  ghost predicate HandlesOver(s: State, w: Worker, w': Worker, t: Task) {
    && (Pending(w', t) <==> (Takes(s, w) && s.queue[0] == t) || (Pending(w, t) && !w.Handler?))
    && (Finished(w', t) <==> (w.Handler? && w.task == t) || (Finished(w, t) && !w.Append?))
  }

  lemma WorkerMove(s: State, i: nat, a: Choice, t: Task)
    requires i < |s.workers|
    ensures WorkerMoves(s, WorkerStep(s, i, a), s.workers[i]) && HandlesOver(s, s.workers[i], Advance(s, i, a), t)
  {
  }

  lemma WorkerLocks(s: State, i: nat, a: Choice)
    requires Locks(s) && i < |s.workers|
    ensures Locks(WorkerStep(s, i, a))
  {
    WorkerShape(s, i, a);
    assert LockedBy(s, i);
    WorkerTakes(s, i, a);
    WorkerLocksKept(s, WorkerStep(s, i, a), i, Advance(s, i, a));
  }

  /** The owner of a lock after an instruction of worker i. */
  ghost predicate Passed(was: Owner, now: Owner, i: nat, inside: bool) {
    && (now == ByWorker(i) <==> inside)
    && (now == was || ((was.Free? || was == ByWorker(i)) && (now.Free? || now == ByWorker(i))))
  }

  /** A worker takes a lock only if it is free, and gives up only its own. */
  lemma WorkerTakes(s: State, i: nat, a: Choice)
    requires i < |s.workers| && LockedBy(s, i)
    ensures Passed(s.mutex, WorkerStep(s, i, a).mutex, i, InMutex(Advance(s, i, a)))
    ensures Passed(s.doneLock, WorkerStep(s, i, a).doneLock, i, InDone(Advance(s, i, a)))
  {
  }

  lemma WorkerLocksKept(s: State, s': State, i: nat, w: Worker)
    requires Locks(s) && i < |s.workers| && s'.workers == s.workers[i := w] && s'.main == s.main
    requires Passed(s.mutex, s'.mutex, i, InMutex(w)) && Passed(s.doneLock, s'.doneLock, i, InDone(w))
    ensures Locks(s')
  {
    forall j | 0 <= j < |s'.workers| ensures LockedBy(s', j) {
      assert LockedBy(s, j);
    }
  }

  lemma WorkerPlaced(s: State, i: nat, a: Choice)
    requires Placed(s) && i < |s.workers|
    ensures Placed(WorkerStep(s, i, a))
  {
    WorkerShape(s, i, a);
    forall t ensures Places(WorkerStep(s, i, a), t) == Places(s, t) {
      WorkerPlaces(s, i, a, t);
    }
  }

  lemma WorkerPlaces(s: State, i: nat, a: Choice, t: Task)
    requires i < |s.workers|
    ensures Places(WorkerStep(s, i, a), t) == Places(s, t)
  {
    WorkerMove(s, i, a, t);
    WorkerShape(s, i, a);
    SamePlaces(s, WorkerStep(s, i, a), i, Advance(s, i, a), t);
  }

  /** A task only passes between the queue, a worker and the done list. */
  lemma SamePlaces(s: State, s': State, i: nat, w: Worker, t: Task)
    requires i < |s.workers| && s'.workers == s.workers[i := w] && s'.main == s.main && s'.batch == s.batch
    requires WorkerMoves(s, s', s.workers[i]) && HandlesOver(s, s.workers[i], w, t)
    ensures Places(s', t) == Places(s, t)
  {
    HoldersSet(s.workers, i, w, t);
    if Takes(s, s.workers[i]) {
      assert Occ(s.queue, t) == One(s.queue[0] == t) + Occ(s.queue[1..], t);
    } else if s.workers[i].Append? {
      OccAppend(s.done, s.workers[i].task, t);
    }
  }

  lemma WorkerInOrder(s: State, i: nat, a: Choice)
    requires InOrder(s) && i < |s.workers|
    ensures InOrder(WorkerStep(s, i, a))
  {
    WorkerShape(s, i, a);
    if s.workers[i].Check? && s.queue != [] { assert s.queue == [s.queue[0]] + s.queue[1..]; }
  }

  lemma WorkerRunsOnce(s: State, i: nat, a: Choice)
    requires RunsOnce(s) && i < |s.workers|
    ensures RunsOnce(WorkerStep(s, i, a))
  {
    forall t ensures RunOnce(WorkerStep(s, i, a), t) {
      assert RunOnce(s, t);
      WorkerRunOnce(s, i, a, t);
    }
  }

  lemma WorkerRunOnce(s: State, i: nat, a: Choice, t: Task)
    requires RunOnce(s, t) && i < |s.workers|
    ensures RunOnce(WorkerStep(s, i, a), t)
  {
    WorkerMove(s, i, a, t);
    WorkerShape(s, i, a);
    SameRuns(s, WorkerStep(s, i, a), i, Advance(s, i, a), t);
  }

  lemma SameRuns(s: State, s': State, i: nat, w: Worker, t: Task)
    requires RunOnce(s, t) && i < |s.workers| && s'.workers == s.workers[i := w]
    requires WorkerMoves(s, s', s.workers[i]) && HandlesOver(s, s.workers[i], w, t)
    ensures RunOnce(s', t)
  {
    HoldersSet(s.workers, i, w, t);
    if Takes(s, s.workers[i]) {
      OccAppend(s.log.taken, s.queue[0], t);
    } else if s.workers[i].Handler? {
      OccAppend(s.log.ran, s.workers[i].task, t);
    } else if s.workers[i].Append? {
      OccAppend(s.log.appended, s.workers[i].task, t);
    }
  }

  lemma WorkerCounts(s: State, i: nat, a: Choice)
    requires Locks(s) && Tally(s) && Served(s) && Announced(s) && i < |s.workers|
    ensures Tally(WorkerStep(s, i, a)) && Served(WorkerStep(s, i, a)) && Announced(WorkerStep(s, i, a))
  {
    WorkerShape(s, i, a);
    var s' := WorkerStep(s, i, a);
    assert LockedBy(s, i);
    CountSet(s.workers, i, Advance(s, i, a), Counted);
    CountSet(s.workers, i, Advance(s, i, a), Asleep);
    CountSet(s.workers, i, Advance(s, i, a), Heading);
    CountSet(s.workers, i, Advance(s, i, a), Notifying);
  }

  // the event loop

  lemma MainLocks(s: State, max: int, a: Choice)
    requires Locks(s)
    ensures Locks(MainStep(s, max, a))
  {
    MainWorkers(s, max, a);
    MainLocksOthers(s, max, a);
    var k := SignalledOne(s.workers, if a.Wake? then a.index else 0);
    LocksKept(s, MainStep(s, max, a), k);
  }

  lemma LocksKept(s: State, s': State, k: nat)
    requires Locks(s) && (MainInMutex(s'.main) <==> s'.mutex.ByMain?) && (MainInDone(s'.main) <==> s'.doneLock.ByMain?)
    requires forall i :: s'.mutex == ByWorker(i) <==> s.mutex == ByWorker(i)
    requires forall i :: s'.doneLock == ByWorker(i) <==> s.doneLock == ByWorker(i)
    requires s'.workers == s.workers || (k < |s.workers| && s.workers[k].Waiting? && s'.workers == s.workers[k := Woken])
    ensures Locks(s')
  {
    forall j | 0 <= j < |s'.workers| ensures LockedBy(s', j) {
      assert LockedBy(s, j);
    }
  }

  /** The event loop takes a lock only if it is free, and gives up only its own. */
  lemma MainLocksOthers(s: State, max: int, a: Choice)
    requires (MainInMutex(s.main) <==> s.mutex.ByMain?) && (MainInDone(s.main) <==> s.doneLock.ByMain?)
    ensures var s' := MainStep(s, max, a);
            && (forall i :: s'.mutex == ByWorker(i) <==> s.mutex == ByWorker(i)) && (forall i :: s'.doneLock == ByWorker(i) <==> s.doneLock == ByWorker(i))
            && (MainInMutex(s'.main) <==> s'.mutex.ByMain?) && (MainInDone(s'.main) <==> s'.doneLock.ByMain?)
  {
  }

  lemma MainWorkers(s: State, max: int, a: Choice)
    ensures MainStep(s, max, a).workers
            == if s.main.Signal? && !a.Fail? then Signalled(s.workers, if a.Wake? then a.index else 0) else s.workers
  {
  }

  /** Waking a worker moves no task. */
  lemma WakeHolders(s: State, max: int, a: Choice, t: Task)
    ensures PendingIn(MainStep(s, max, a).workers, t) == PendingIn(s.workers, t)
    ensures FinishedIn(MainStep(s, max, a).workers, t) == FinishedIn(s.workers, t)
  {
    MainWorkers(s, max, a);
    var k := SignalledOne(s.workers, if a.Wake? then a.index else 0);
    if k < |s.workers| { HoldersSet(s.workers, k, Woken, t); }
  }

  lemma MainPlaced(s: State, max: int, a: Choice)
    requires Placed(s) && InOrder(s)
    ensures Placed(MainStep(s, max, a))
  {
    var s' := MainStep(s, max, a);
    forall t ensures Places(s', t) == One(t in s'.active) {
      assert Places(s, t) == One(t in s.active);
      MainPlaces(s, max, a, t);
    }
    MainPosting(s, max, a);
  }

  lemma MainPosting(s: State, max: int, a: Choice)
    requires s.main.PostLock? || s.main.Full? ==> s.main.task !in s.active
    ensures var s' := MainStep(s, max, a); s'.main.PostLock? || s'.main.Full? ==> s'.main.task !in s'.active
  {
  }

  lemma MainPlaces(s: State, max: int, a: Choice, t: Task)
    requires Places(s, t) == One(t in s.active) && (s.main.Full? ==> s.main.task !in s.active) && (s.main.Grab? ==> s.batch == [])
    ensures Places(MainStep(s, max, a), t) == One(t in MainStep(s, max, a).active)
  {
    WakeHolders(s, max, a, t);
    MainMove(s, max, a);
    MainHandOver(s, MainStep(s, max, a), max, a, t);
  }

  predicate Completes(s: State, a: Choice) { s.main.Loop? && a.Complete? && s.batch != [] }

  /** The sequences and the active tasks after an instruction of the event loop. */
  ghost predicate MainMoves(s: State, s': State, max: int, a: Choice) {
    && s'.queue == (if s.main.Enqueue? then s.queue + [s.main.task] else s.queue)
    && s'.done == (if s.main.Grab? then [] else s.done)
    && s'.batch == (if s.main.Grab? then s.done else if Completes(s, a) then s.batch[1..] else s.batch)
    && s'.log.lost == (if s.main.Signal? && a.Fail? then s.log.lost + [s.main.task] else s.log.lost)
    && s'.active == (if s.main.Full? && s.waiting < max then s.active + {s.main.task}
                     else if Completes(s, a) then s.active - {s.batch[0]} else s.active)
    && (s.main.Full? ==> s'.main == if s.waiting < max then Signal(s.main.task) else PostUnlock)
    && (s.main.Signal? ==> s'.main == if a.Fail? then PostUnlock else Enqueue(s.main.task))
    && (!s.main.Full? && !s.main.Signal? ==> !s'.main.Signal? && !s'.main.Enqueue?)
  }

  lemma MainMove(s: State, max: int, a: Choice)
    ensures MainMoves(s, MainStep(s, max, a), max, a)
  {
  }

  lemma MainHandOver(s: State, s': State, max: int, a: Choice, t: Task)
    requires MainMoves(s, s', max, a) && Places(s, t) == One(t in s.active)
    requires PendingIn(s'.workers, t) == PendingIn(s.workers, t) && FinishedIn(s'.workers, t) == FinishedIn(s.workers, t)
    requires (s.main.Full? ==> s.main.task !in s.active) && (s.main.Grab? ==> s.batch == [])
    ensures Places(s', t) == One(t in s'.active)
  {
    if Completes(s, a) {
      assert Occ(s.batch, t) == One(s.batch[0] == t) + Occ(s.batch[1..], t);
    } else if s.main.Signal? {
      OccAppend(s.log.lost, s.main.task, t);
    } else if s.main.Enqueue? {
      OccAppend(s.queue, s.main.task, t);
    }
  }

  lemma MainInOrder(s: State, max: int, a: Choice)
    requires InOrder(s)
    ensures InOrder(MainStep(s, max, a))
  {
    if Completes(s, a) {
      HeadOver(s.log.completed, s.batch, s.done);
    } else if s.main.Grab? {
      assert s.log.completed + [] + s.done == s.log.completed + s.done + [];
    } else if s.main.Enqueue? {
      assert s.log.taken + s.queue + [s.main.task] == s.log.taken + (s.queue + [s.main.task]);
    }
  }

  lemma HeadOver(a: seq<Task>, b: seq<Task>, c: seq<Task>)
    requires b != []
    ensures a + [b[0]] + b[1..] + c == a + b + c
  {
    assert b == [b[0]] + b[1..];
  }

  lemma MainRunsOnce(s: State, max: int, a: Choice)
    requires RunsOnce(s)
    ensures RunsOnce(MainStep(s, max, a))
  {
    var s' := MainStep(s, max, a);
    forall t ensures RunOnce(s', t) {
      assert RunOnce(s, t);
      WakeHolders(s, max, a, t);
    }
  }

  /** The counted quantities after an instruction of the event loop. */
  lemma MainTallies(s: State, max: int, a: Choice)
    ensures var s' := MainStep(s, max, a);
            && s'.waiting == s.waiting + One(s.main.Increment?)
            && |s'.queue| == |s.queue| + One(s.main.Enqueue?)
            && s'.main.Increment? == s.main.Enqueue?
            && s'.main.Enqueue? == (s.main.Signal? && !a.Fail?)
  {
  }

  lemma MainAnnounced(s: State, max: int, a: Choice)
    requires Announced(s)
    ensures var s' := MainStep(s, max, a);
            s'.done == [] || s'.notified || s'.main.GrabLock? || s'.main.Grab? || Count(s.workers, Notifying) > 0
  {
  }

  lemma MainCounts(s: State, max: int, a: Choice)
    requires Tally(s) && Served(s) && Announced(s)
    ensures Tally(MainStep(s, max, a)) && Served(MainStep(s, max, a)) && Announced(MainStep(s, max, a))
  {
    MainWorkers(s, max, a);
    MainTallies(s, max, a);
    MainAnnounced(s, max, a);
    SignalCounts(s, MainStep(s, max, a), a);
  }

  lemma SignalCounts(s: State, s': State, a: Choice)
    requires Tally(s) && Served(s)
    requires s'.workers == if s.main.Signal? && !a.Fail? then Signalled(s.workers, if a.Wake? then a.index else 0) else s.workers
    requires s'.waiting == s.waiting + One(s.main.Increment?) && |s'.queue| == |s.queue| + One(s.main.Enqueue?)
    requires s'.main.Increment? == s.main.Enqueue? && s'.main.Enqueue? == (s.main.Signal? && !a.Fail?)
    ensures Tally(s') && Served(s') && Count(s'.workers, Notifying) == Count(s.workers, Notifying)
  {
    var k := SignalledOne(s.workers, if a.Wake? then a.index else 0);
    if k < |s.workers| {
      CountSet(s.workers, k, Woken, Counted);
      CountSet(s.workers, k, Woken, Asleep);
      CountSet(s.workers, k, Woken, Heading);
      CountSet(s.workers, k, Woken, Notifying);
    }
  }

  // ---------------------------------------------------------------- whole runs

  ghost predicate Init(s: State) {
    && s.mutex.Free? && s.queue == [] && s.waiting == 0 && s.doneLock.Free? && s.done == [] && !s.notified
    && s.active == {} && s.main == Loop && s.batch == [] && s.log == Log([], [], [], [], [], [])
    && |s.workers| > 0 && forall i :: 0 <= i < |s.workers| ==> s.workers[i] == Lock
  }

  lemma {:induction false} NoHolders(ws: seq<Worker>, t: Task)
    requires forall i :: 0 <= i < |ws| ==> ws[i] == Lock
    ensures PendingIn(ws, t) == 0 && FinishedIn(ws, t) == 0
  {
    if ws != [] { NoHolders(ws[1..], t); }
  }

  lemma InitInv(s: State)
    requires Init(s)
    ensures Inv(s)
  {
    CountNone(s.workers, Counted);
    CountNone(s.workers, Asleep);
    forall t ensures Places(s, t) == 0 && RunOnce(s, t) {
      NoHolders(s.workers, t);
    }
  }

  lemma StepInv(s: State, max: int, who: Thread, a: Choice)
    requires Inv(s) && (who.Pooled? ==> who.index < |s.workers|)
    ensures Inv(Step(s, max, who, a)) && |Step(s, max, who, a).workers| == |s.workers|
  {
    if who.EventLoop? {
      MainLocks(s, max, a);
      MainPlaced(s, max, a);
      MainInOrder(s, max, a);
      MainRunsOnce(s, max, a);
      MainCounts(s, max, a);
      MainWorkers(s, max, a);
      var k := SignalledOne(s.workers, if a.Wake? then a.index else 0);
    } else {
      WorkerLocks(s, who.index, a);
      WorkerPlaced(s, who.index, a);
      WorkerInOrder(s, who.index, a);
      WorkerRunsOnce(s, who.index, a);
      WorkerCounts(s, who.index, a);
      WorkerShape(s, who.index, a);
    }
  }

  predicate Legal(n: nat, move: (Thread, Choice)) {
    move.0.Pooled? ==> move.0.index < n
  }

  /** An interleaving: which thread moves next, and what it does where it has a choice. */
  function Run(s: State, max: int, moves: seq<(Thread, Choice)>): State
    requires forall k :: 0 <= k < |moves| ==> Legal(|s.workers|, moves[k])
    decreases |moves|
  {
    if moves == [] then s
    else
      assert Legal(|s.workers|, moves[0]);
      var s1 := Step(s, max, moves[0].0, moves[0].1);
      assert |s1.workers| == |s.workers| && forall k :: 0 <= k < |moves[1..]| ==> moves[1..][k] == moves[k + 1];
      Run(s1, max, moves[1..])
  }

  lemma {:induction false} RunInv(s: State, max: int, moves: seq<(Thread, Choice)>)
    requires Inv(s) && forall k :: 0 <= k < |moves| ==> Legal(|s.workers|, moves[k])
    ensures Inv(Run(s, max, moves)) && |Run(s, max, moves).workers| == |s.workers|
    decreases |moves|
  {
    if moves != [] {
      assert Legal(|s.workers|, moves[0]);
      StepInv(s, max, moves[0].0, moves[0].1);
      RunInv(Step(s, max, moves[0].0, moves[0].1), max, moves[1..]);
    }
  }

  /** A state some interleaving of a new pool leads to. */
  ghost predicate Reached(s: State, s0: State, max: int, moves: seq<(Thread, Choice)>) {
    Init(s0) && (forall k :: 0 <= k < |moves| ==> Legal(|s0.workers|, moves[k])) && s == Run(s0, max, moves)
  }

  lemma ReachedInv(s: State, s0: State, max: int, moves: seq<(Thread, Choice)>)
    requires Reached(s, s0, max, moves)
    ensures Inv(s) && |s.workers| > 0
  {
    InitInv(s0);
    RunInv(s0, max, moves);
  }

  /** In every interleaving each active task is in exactly one place and no other task is anywhere. */
  lemma OnePlace(s: State, s0: State, max: int, moves: seq<(Thread, Choice)>, t: Task)
    requires Reached(s, s0, max, moves)
    ensures Places(s, t) == if t in s.active then 1 else 0
  {
    ReachedInv(s, s0, max, moves);
  }

  /** In every interleaving tasks are dequeued in the order of their posts, and a handler runs once per post:
      the runs of a task lag behind its posts by at most the one copy that is queued or held by a worker. */
  lemma FifoOnce(s: State, s0: State, max: int, moves: seq<(Thread, Choice)>, t: Task)
    requires Reached(s, s0, max, moves)
    ensures s.log.taken <= s.log.posted && s.log.posted == s.log.taken + s.queue
    ensures Occ(s.log.posted, t) == Occ(s.log.ran, t) + PendingIn(s.workers, t) + Occ(s.queue, t)
    ensures Occ(s.log.ran, t) <= Occ(s.log.posted, t) <= Occ(s.log.ran, t) + 1
    ensures t !in s.active ==> Occ(s.log.posted, t) == Occ(s.log.ran, t) == Occ(s.log.completed, t)
  {
    ReachedInv(s, s0, max, moves);
    OccConcat(s.log.taken, s.queue, t);
    OccConcat(s.log.completed + s.batch, s.done, t);
    OccConcat(s.log.completed, s.batch, t);
    assert RunOnce(s, t) && Places(s, t) == One(t in s.active);
  }

  /** In every interleaving `waiting` is the queue's length less the workers past their decrement and still without a
      task, except between the two instructions that post a task. */
  lemma WaitingTally(s: State, s0: State, max: int, moves: seq<(Thread, Choice)>)
    requires Reached(s, s0, max, moves)
    ensures s.waiting == |s.queue| - Count(s.workers, Counted) - if s.main.Increment? then 1 else 0
    ensures s.mutex.Free? ==> s.waiting == |s.queue| - Count(s.workers, Counted)
  {
    ReachedInv(s, s0, max, moves);
  }

  /** A queued task never meets a pool of sleeping workers. */
  lemma NoSleepingPool(s: State, s0: State, max: int, moves: seq<(Thread, Choice)>) returns (i: nat)
    requires Reached(s, s0, max, moves) && s.queue != []
    ensures i < |s.workers| && !s.workers[i].Waiting?
  {
    ReachedInv(s, s0, max, moves);
    if s.workers[0].Waiting? {
      CountSet(s.workers, 0, s.workers[0], Asleep);
      i := CountSome(s.workers, Heading);
    } else {
      i := 0;
    }
  }

  /** While some worker sleeps, there are at least as many workers on their way to the queue as tasks in it. */
  lemma WorkConserving(s: State, s0: State, max: int, moves: seq<(Thread, Choice)>)
    requires Reached(s, s0, max, moves) && Count(s.workers, Asleep) > 0
    ensures |s.queue| <= Count(s.workers, Heading)
  {
    ReachedInv(s, s0, max, moves);
  }

  /** A task whose signal failed stays active for ever, so that every later post of it is refused. */
  lemma {:induction false} LostForever(s: State, max: int, moves: seq<(Thread, Choice)>, t: Task)
    requires Inv(s) && Occ(s.log.lost, t) > 0 && forall k :: 0 <= k < |moves| ==> Legal(|s.workers|, moves[k])
    ensures t in Run(s, max, moves).active && Occ(Run(s, max, moves).log.lost, t) > 0
    decreases |moves|
  {
    if moves == [] {
      assert Places(s, t) == One(t in s.active);
    } else {
      assert Legal(|s.workers|, moves[0]);
      var s1 := Step(s, max, moves[0].0, moves[0].1);
      StepInv(s, max, moves[0].0, moves[0].1);
      LostGrows(s, max, moves[0].0, moves[0].1, t);
      LostForever(s1, max, moves[1..], t);
    }
  }

  /** Such a task: in a new pool it is posted and its signal fails. */
  lemma SignalFails(s0: State, max: int, t: Task) returns (moves: seq<(Thread, Choice)>, s: State)
    requires Init(s0) && max > 0
    ensures Reached(s, s0, max, moves) && t in s.active && s.queue == [] && Occ(s.log.lost, t) == 1
  {
    var s1 := MainStep(s0, max, Post(t));
    var s2 := MainStep(s1, max, Go);
    var s3 := MainStep(s2, max, Go);
    var s4 := MainStep(s3, max, Go);
    s := MainStep(s4, max, Fail);
    moves := [(EventLoop, Post(t)), (EventLoop, Go), (EventLoop, Go), (EventLoop, Go), (EventLoop, Fail)];
    OccAppend([], t, t);
    assert [] + [t] == [t];
    RunOne(s4, max, Fail, []);
    RunOne(s3, max, Go, [(EventLoop, Fail)]);
    RunOne(s2, max, Go, [(EventLoop, Go), (EventLoop, Fail)]);
    RunOne(s1, max, Go, [(EventLoop, Go), (EventLoop, Go), (EventLoop, Fail)]);
    RunOne(s0, max, Post(t), [(EventLoop, Go), (EventLoop, Go), (EventLoop, Go), (EventLoop, Fail)]);
  }

  /** The event loop goes first. */
  lemma RunOne(s: State, max: int, a: Choice, rest: seq<(Thread, Choice)>)
    requires forall k :: 0 <= k < |rest| ==> rest[k].0.EventLoop?
    ensures Run(s, max, [(EventLoop, a)] + rest) == Run(MainStep(s, max, a), max, rest)
  {
    var moves := [(EventLoop, a)] + rest;
    assert moves[1..] == rest && moves[0] == (EventLoop, a);
  }

  lemma LostGrows(s: State, max: int, who: Thread, a: Choice, t: Task)
    requires who.Pooled? ==> who.index < |s.workers|
    ensures Occ(Step(s, max, who, a).log.lost, t) >= Occ(s.log.lost, t)
  {
    if who.EventLoop? {
      MainMove(s, max, a);
      if s.main.Signal? { OccAppend(s.log.lost, s.main.task, t); }
    } else {
      WorkerMove(s, who.index, a, t);
    }
  }
}
