/**
 The thread pool comes to rest: every instruction that is not a new post or a spurious wakeup uses
 up some of a finite amount of work, and as long as there is work left some thread can go on.  So
 no interleaving can deadlock, and what has been posted can always be completed.
 */
module ThreadProgress {
  import opened Counting
  import opened ThreadPool

  // ---------------------------------------------------------------- the work left

  /** The work of a worker until it waits, including what it leaves to the event loop. */
  function WorkerWork(w: Worker): nat {
    match w
    case Waiting => 0
    case Check => 1
    case Decrement => 2
    case Woken => 2
    case Lock => 3
    case Notify => 8
    case DoneUnlock => 9
    case Append(_) => 11
    case DoneLock(_) => 12
    case Handler(_) => 13
    case Release(_) => 14
  }

  function MainWork(m: Poster): nat {
    match m
    case Loop => 0
    case GrabUnlock => 1
    case Grab => 2
    case GrabLock => 3
    case PostUnlock => 1
    case Increment => 2
    case Enqueue(_) => 17
    case Signal(_) => 20
    case Full(_) => 21
    case PostLock(_) => 22
    case Test(_) => 23
  }

  function Total(ws: seq<Worker>): nat {
    if ws == [] then 0 else WorkerWork(ws[0]) + Total(ws[1..])
  }

  function Work(s: State): nat {
    MainWork(s.main) + 14 * |s.queue| + |s.done| + |s.batch| + (if s.notified then 4 else 0) + Total(s.workers)
  }

  lemma {:induction false} TotalSet(ws: seq<Worker>, i: nat, w: Worker)
    requires i < |ws|
    ensures Total(ws[i := w]) + WorkerWork(ws[i]) == Total(ws) + WorkerWork(w)
  {
    if i == 0 {
      assert ws[i := w] == [w] + ws[1..];
    } else {
      assert ws[i := w] == [ws[0]] + ws[1..][i - 1 := w];
      TotalSet(ws[1..], i - 1, w);
    }
  }

  /** Waits for a lock that another thread has, or for a signal. */
  predicate Blocked(s: State, w: Worker) {
    w.Waiting? || ((w.Lock? || w.Woken?) && !s.mutex.Free?) || (w.DoneLock? && !s.doneLock.Free?)
  }

  /** A worker that is blocked changes nothing; otherwise its instruction uses up work. */
  lemma WorkerUses(s: State, i: nat, a: Choice)
    requires i < |s.workers| && !a.Spurious?
    ensures if Blocked(s, s.workers[i]) then WorkerStep(s, i, a) == s else Work(WorkerStep(s, i, a)) < Work(s)
  {
    TotalSet(s.workers, i, Advance(s, i, a));
    WorkerShape(s, i, a);
    if Blocked(s, s.workers[i]) { assert s.workers[i := s.workers[i]] == s.workers; }
  }

  /** Has nothing to do, or waits for a lock. */
  predicate Idle(s: State, a: Choice) {
    match s.main
    case Loop => !(a.Handle? && s.notified && s.batch == []) && !(a.Complete? && s.batch != [])
    case PostLock(_) => !s.mutex.Free?
    case GrabLock => !s.doneLock.Free?
    case _ => false
  }

  /** The same for the event loop, unless a new task is posted. */
  lemma MainUses(s: State, max: int, a: Choice)
    requires !a.Post?
    ensures if Idle(s, a) then MainStep(s, max, a) == s else Work(MainStep(s, max, a)) < Work(s)
  {
    if s.main.Signal? {
      var k := SignalledOne(s.workers, if a.Wake? then a.index else 0);
      if k < |s.workers| { TotalSet(s.workers, k, Woken); }
    }
  }

  /** Every instruction, other than a new post and a spurious wakeup, changes nothing or uses up work. */
  lemma StepUses(s: State, max: int, who: Thread, a: Choice)
    requires (who.Pooled? ==> who.index < |s.workers|) && !a.Post? && !a.Spurious?
    ensures Step(s, max, who, a) == s || Work(Step(s, max, who, a)) < Work(s)
  {
    if who.EventLoop? { MainUses(s, max, a); } else { WorkerUses(s, who.index, a); }
  }

  // ---------------------------------------------------------------- no deadlock

  /** All workers wait and the event loop has nothing to do. */
  ghost predicate Resting(s: State) {
    s.main.Loop? && s.batch == [] && !s.notified && forall i :: 0 <= i < |s.workers| ==> s.workers[i].Waiting?
  }

  /** What a thread does without new posts, failing signals and spurious wakeups. */
  predicate Own(a: Choice) { a.Go? || a.Handle? || a.Complete? }

  /** The worker that has a lock is not blocked. */
  lemma HolderMoves(s: State, i: nat)
    requires Locks(s) && i < |s.workers| && (s.mutex == ByWorker(i) || s.doneLock == ByWorker(i))
    ensures !Blocked(s, s.workers[i])
  {
    assert LockedBy(s, i);
  }

  /** Unless the pool is at rest, some thread can go on. */
  lemma SomeMoves(s: State, max: int) returns (who: Thread, a: Choice)
    requires Locks(s) && !Resting(s)
    ensures (who.Pooled? ==> who.index < |s.workers|) && Own(a) && Work(Step(s, max, who, a)) < Work(s)
  {
    a := if !s.main.Loop? then Go else if s.batch != [] then Complete else Handle;
    if !Idle(s, a) {
      who := EventLoop;
      MainUses(s, max, a);
      return;
    }
    a := Go;
    var i := Mover(s);
    who := Pooled(i);
    WorkerUses(s, i, a);
  }

  /** A worker that is not blocked, when the event loop is. */
  lemma Mover(s: State) returns (i: nat)
    requires Locks(s) && !Resting(s) && (s.main.Loop? ==> !s.notified && s.batch == [])
    requires s.main.Loop? || (s.main.PostLock? && !s.mutex.Free?) || (s.main.GrabLock? && !s.doneLock.Free?)
    ensures i < |s.workers| && !Blocked(s, s.workers[i])
  {
    if s.mutex.ByWorker? {
      i := s.mutex.index;
      HolderMoves(s, i);
    } else if s.doneLock.ByWorker? {
      i := s.doneLock.index;
      HolderMoves(s, i);
    } else {
      i :| 0 <= i < |s.workers| && !s.workers[i].Waiting?;
    }
  }

  // ---------------------------------------------------------------- at rest

  /** At rest everything posted is completed, except for the tasks whose signal failed. */
  lemma AtRest(s: State, t: Task)
    requires Inv(s) && Resting(s) && |s.workers| > 0
    ensures s.queue == [] && s.done == [] && s.mutex.Free? && s.doneLock.Free? && s.waiting == -|s.workers|
    ensures t in s.active <==> Occ(s.log.lost, t) > 0
    ensures Occ(s.log.completed, t) == Occ(s.log.ran, t) == Occ(s.log.posted, t)
  {
    CountAll(s.workers, Asleep);
    CountAll(s.workers, Counted);
    CountNone(s.workers, Heading);
    CountNone(s.workers, Notifying);
    forall i | 0 <= i < |s.workers| ensures s.mutex != ByWorker(i) && s.doneLock != ByWorker(i) {
      assert LockedBy(s, i);
    }
    NoneHeld(s.workers, t);
    assert Places(s, t) == One(t in s.active) && RunOnce(s, t);
    assert s.log.posted == s.log.taken && s.log.appended == s.log.completed;
  }

  lemma {:induction false} NoneHeld(ws: seq<Worker>, t: Task)
    requires forall i :: 0 <= i < |ws| ==> ws[i].Waiting?
    ensures PendingIn(ws, t) == 0 && FinishedIn(ws, t) == 0
  {
    if ws != [] { NoneHeld(ws[1..], t); }
  }

  // ---------------------------------------------------------------- whole runs

  ghost predicate Ours(n: nat, moves: seq<(Thread, Choice)>) {
    forall k :: 0 <= k < |moves| ==> Legal(n, moves[k]) && Own(moves[k].1)
  }

  /** From every reachable state the threads can bring the pool to rest by themselves. */
  lemma {:induction false} Drains(s: State, max: int) returns (moves: seq<(Thread, Choice)>)
    requires Inv(s)
    ensures Ours(|s.workers|, moves) && Resting(Run(s, max, moves)) && Inv(Run(s, max, moves))
    ensures Run(s, max, moves).log.lost == s.log.lost && |Run(s, max, moves).workers| == |s.workers|
    decreases Work(s)
  {
    moves := [];
    if !Resting(s) {
      var who, a := SomeMoves(s, max);
      StepInv(s, max, who, a);
      NothingLost(s, max, who, a);
      var s1 := Step(s, max, who, a);
      var rest := Drains(s1, max);
      moves := [(who, a)] + rest;
      assert moves[1..] == rest && moves[0] == (who, a);
      assert Legal(|s.workers|, moves[0]);
      assert Run(s, max, moves) == Run(s1, max, rest);
    }
  }

  lemma NothingLost(s: State, max: int, who: Thread, a: Choice)
    requires (who.Pooled? ==> who.index < |s.workers|) && Own(a)
    ensures Step(s, max, who, a).log.lost == s.log.lost
  {
  }

  /** In every interleaving, whatever has been posted so far can still be completed, and is, once per post, when the
      pool has come to rest. */
  lemma PostsComplete(s: State, s0: State, max: int, before: seq<(Thread, Choice)>) returns (moves: seq<(Thread, Choice)>)
    requires Reached(s, s0, max, before)
    ensures Ours(|s.workers|, moves) && Resting(Run(s, max, moves)) && Run(s, max, moves).queue == []
    ensures forall t :: t in Run(s, max, moves).active <==> Occ(s.log.lost, t) > 0
    ensures forall t :: CompletedAll(Run(s, max, moves).log, t)
  {
    ReachedInv(s, s0, max, before);
    moves := Drains(s, max);
    var s' := Run(s, max, moves);
    AtRest(s', 0);
    forall t ensures (t in s'.active <==> Occ(s.log.lost, t) > 0) && CompletedAll(s'.log, t) {
      AtRest(s', t);
    }
  }

  ghost predicate CompletedAll(log: Log, t: Task) {
    Occ(log.completed, t) == Occ(log.ran, t) == Occ(log.posted, t)
  }
}
