/**
 What a post, a round of a worker and the completion of tasks do when their thread runs alone.
 */
module ThreadCalls {
  import opened ThreadPool

  /** One thread alone: a first choice, and n further instructions. */
  function Alone(who: Thread, first: Choice, a: Choice, n: nat): (moves: seq<(Thread, Choice)>)
    ensures |moves| == n + 1 && forall k :: 0 <= k <= n ==> moves[k].0 == who
  {
    [(who, first)] + seq(n, _ => (who, a))
  }

  ghost predicate AllLegal(n: nat, moves: seq<(Thread, Choice)>) {
    forall k :: 0 <= k < |moves| ==> Legal(n, moves[k])
  }

  lemma StepSize(s: State, max: int, who: Thread, a: Choice)
    requires who.Pooled? ==> who.index < |s.workers|
    ensures |Step(s, max, who, a).workers| == |s.workers|
  {
    if who.EventLoop? { MainWorkers(s, max, a); } else { WorkerShape(s, who.index, a); }
  }

  lemma RunAlone(s: State, max: int, who: Thread, first: Choice, a: Choice, n: nat)
    requires who.Pooled? ==> who.index < |s.workers|
    ensures |Step(s, max, who, first).workers| == |s.workers|
    ensures AllLegal(|s.workers|, Alone(who, first, a, n))
    ensures n == 0 ==> Run(s, max, Alone(who, first, a, n)) == Step(s, max, who, first)
    ensures n > 0 ==>
              && AllLegal(|s.workers|, Alone(who, a, a, n - 1))
              && Run(s, max, Alone(who, first, a, n)) == Run(Step(s, max, who, first), max, Alone(who, a, a, n - 1))
  {
    StepSize(s, max, who, first);
    var moves := Alone(who, first, a, n);
    assert Legal(|s.workers|, moves[0]);
    if n == 0 {
      assert moves[1..] == [];
    } else {
      assert moves[1..] == Alone(who, a, a, n - 1);
    }
  }

  /** Two instructions of many. */
  lemma RunTwo(s: State, max: int, who: Thread, first: Choice, a: Choice, n: nat, s2: State)
    requires (who.Pooled? ==> who.index < |s.workers|) && n >= 2
    requires |Step(s, max, who, first).workers| == |s.workers| && s2 == Step(Step(s, max, who, first), max, who, a)
    ensures |s2.workers| == |s.workers|
    ensures AllLegal(|s.workers|, Alone(who, first, a, n))
    ensures AllLegal(|s.workers|, Alone(who, a, a, n - 2))
    ensures Run(s, max, Alone(who, first, a, n)) == Run(s2, max, Alone(who, a, a, n - 2))
  {
    RunAlone(s, max, who, first, a, n);
    RunAlone(Step(s, max, who, first), max, who, a, a, n - 1);
  }

  // ---------------------------------------------------------------- ngx_thread_task_post

  /** The signal of a post. */
  predicate Signals(a: Choice) { a.Go? || a.Wake? || a.Fail? }

  /** What a post that is carried through leaves: refused exactly for an active task or a full queue. */
  function Posted(s: State, max: int, t: Task, a: Choice): State {
    if t in s.active || s.waiting >= max then s
    else if a.Fail? then s.(active := s.active + {t}, log := s.log.(lost := s.log.lost + [t]))
    else s.(active := s.active + {t}, queue := s.queue + [t], waiting := s.waiting + 1,
            workers := Signalled(s.workers, if a.Wake? then a.index else 0), log := s.log.(posted := s.log.posted + [t]))
  }

  /** Between events the loop does nothing by itself. */
  lemma {:induction false} LoopAlone(s: State, max: int, a: Choice, n: nat)
    requires s.main.Loop? && Signals(a)
    ensures AllLegal(|s.workers|, Alone(EventLoop, a, a, n))
    ensures Run(s, max, Alone(EventLoop, a, a, n)) == s
  {
    RunAlone(s, max, EventLoop, a, a, n);
    if n > 0 { LoopAlone(s, max, a, n - 1); }
  }

  /** From the point where the post holds the mutex. */
  lemma FullAlone(s: State, max: int, t: Task, a: Choice)
    requires s.main == Full(t) && s.mutex.ByMain? && Signals(a)
    ensures AllLegal(|s.workers|, Alone(EventLoop, a, a, 4))
    ensures Run(s, max, Alone(EventLoop, a, a, 4)) ==
              if s.waiting >= max then s.(main := Loop, mutex := Free)
              else Posted(s.(active := s.active - {t}), max, t, a).(main := Loop, mutex := Free, active := s.active + {t})
  {
    var s1 := MainStep(s, max, a);
    var s2 := MainStep(s1, max, a);
    MainWorkers(s, max, a);
    MainWorkers(s1, max, a);
    RunTwo(s, max, EventLoop, a, a, 4, s2);
    if s.waiting >= max || a.Fail? {
      if s.waiting >= max {
        LoopAlone(s2, max, a, 2);
      } else {
        RunAlone(s2, max, EventLoop, a, a, 2);
        LoopAlone(MainStep(s2, max, a), max, a, 1);
      }
    } else {
      var s3 := MainStep(s2, max, a);
      var s4 := MainStep(s3, max, a);
      RunTwo(s2, max, EventLoop, a, a, 2, s4);
      RunAlone(s4, max, EventLoop, a, a, 0);
    }
  }

  /** A post with the mutex free is accepted exactly when the task is not active and the queue is not full; if the signal
      succeeds the task is queued last, and a refused post changes nothing. */
  lemma PostAlone(s: State, max: int, t: Task, a: Choice)
    requires s.main.Loop? && s.mutex.Free? && Signals(a)
    ensures AllLegal(|s.workers|, Alone(EventLoop, Post(t), a, 7))
    ensures Run(s, max, Alone(EventLoop, Post(t), a, 7)) == Posted(s, max, t, a)
  {
    var s2 := MainStep(MainStep(s, max, Post(t)), max, a);
    RunTwo(s, max, EventLoop, Post(t), a, 7, s2);
    if t in s.active {
      LoopAlone(s2, max, a, 5);
    } else {
      RunAlone(s2, max, EventLoop, a, a, 5);
      FullAlone(MainStep(s2, max, a), max, t, a);
      assert s.active - {t} == s.active;
    }
  }

  /** The same, in terms of what a caller sees. */
  lemma AcceptedIff(s: State, s0: State, max: int, before: seq<(Thread, Choice)>, t: Task)
    requires Reached(s, s0, max, before) && s.main.Loop? && s.mutex.Free?
    ensures AllLegal(|s.workers|, Alone(EventLoop, Post(t), Go, 7))
    ensures var s' := Run(s, max, Alone(EventLoop, Post(t), Go, 7));
            && s'.main.Loop? && s'.mutex.Free?
            && (if t !in s.active && s.waiting < max
                then s'.queue == s.queue + [t] && s'.log == s.log.(posted := s.log.posted + [t]) && s'.active == s.active + {t}
                else s' == s)
  {
    PostAlone(s, max, t, Go);
  }

  // ---------------------------------------------------------------- ngx_thread_pool_cycle

  /** A round of a worker, from waiting for the mutex to waiting for it again. */
  function Round(s: State): State
    requires s.queue != []
  {
    var t := s.queue[0];
    s.(queue := s.queue[1..], done := s.done + [t], notified := true,
       log := s.log.(taken := s.log.taken + [t], ran := s.log.ran + [t], appended := s.log.appended + [t]))
  }

  /** With both locks free a worker that holds the mutex takes the first task, runs it, puts it last on the done list and
      notifies the event loop. */
  lemma CheckAlone(s: State, max: int, i: nat)
    requires i < |s.workers| && s.workers[i].Check? && s.mutex == ByWorker(i) && s.doneLock.Free? && s.queue != []
    ensures AllLegal(|s.workers|, Alone(Pooled(i), Go, Go, 6))
    ensures Run(s, max, Alone(Pooled(i), Go, Go, 6)) == Round(s).(mutex := Free, workers := s.workers[i := Lock])
  {
    var s1 := WorkerStep(s, i, Go);
    var s2 := WorkerStep(s1, i, Go);
    RunTwo(s, max, Pooled(i), Go, Go, 6, s2);
    assert s2.workers == s.workers[i := Handler(s.queue[0])];
    HandlerAlone(s2, max, i, s.queue[0]);
  }

  lemma HandlerAlone(s: State, max: int, i: nat, t: Task)
    requires i < |s.workers| && s.workers[i] == Handler(t) && s.doneLock.Free?
    ensures AllLegal(|s.workers|, Alone(Pooled(i), Go, Go, 4))
    ensures Run(s, max, Alone(Pooled(i), Go, Go, 4))
            == s.(done := s.done + [t], notified := true, workers := s.workers[i := Lock],
                  log := s.log.(ran := s.log.ran + [t], appended := s.log.appended + [t]))
  {
    var s2 := WorkerStep(WorkerStep(s, i, Go), i, Go);
    RunTwo(s, max, Pooled(i), Go, Go, 4, s2);
    var s4 := WorkerStep(WorkerStep(s2, i, Go), i, Go);
    RunTwo(s2, max, Pooled(i), Go, Go, 2, s4);
    RunAlone(s4, max, Pooled(i), Go, Go, 0);
  }

  /** A worker at the start of its round, with a task queued. */
  lemma ServeAlone(s: State, max: int, i: nat)
    requires i < |s.workers| && s.workers[i].Lock? && s.mutex.Free? && s.doneLock.Free? && s.queue != []
    ensures AllLegal(|s.workers|, Alone(Pooled(i), Go, Go, 8))
    ensures Run(s, max, Alone(Pooled(i), Go, Go, 8)) == Round(s).(waiting := s.waiting - 1)
  {
    var s2 := WorkerStep(WorkerStep(s, i, Go), i, Go);
    RunTwo(s, max, Pooled(i), Go, Go, 8, s2);
    CheckAlone(s2, max, i);
    assert s.workers[i := Lock] == s.workers;
  }

  /** With an empty queue it waits, and gives the mutex up. */
  lemma SleepAlone(s: State, max: int, i: nat)
    requires i < |s.workers| && s.workers[i].Lock? && s.mutex.Free? && s.queue == []
    ensures AllLegal(|s.workers|, Alone(Pooled(i), Go, Go, 2))
    ensures Run(s, max, Alone(Pooled(i), Go, Go, 2)) == s.(waiting := s.waiting - 1, workers := s.workers[i := Waiting])
  {
    var s2 := WorkerStep(WorkerStep(s, i, Go), i, Go);
    RunTwo(s, max, Pooled(i), Go, Go, 2, s2);
    RunAlone(s2, max, Pooled(i), Go, Go, 0);
  }

  /** A worker that was woken goes on where it waited. */
  lemma WokenAlone(s: State, max: int, i: nat)
    requires i < |s.workers| && s.workers[i].Woken? && s.mutex.Free? && s.doneLock.Free? && s.queue != []
    ensures AllLegal(|s.workers|, Alone(Pooled(i), Go, Go, 7))
    ensures Run(s, max, Alone(Pooled(i), Go, Go, 7)) == Round(s).(workers := s.workers[i := Lock])
  {
    RunAlone(s, max, Pooled(i), Go, Go, 7);
    CheckAlone(WorkerStep(s, i, Go), max, i);
  }

  // ---------------------------------------------------------------- ngx_thread_pool_handler

  /** The handler takes the whole done list over. */
  lemma HandleAlone(s: State, max: int)
    requires s.main.Loop? && s.notified && s.batch == [] && s.doneLock.Free?
    ensures AllLegal(|s.workers|, Alone(EventLoop, Handle, Go, 3))
    ensures Run(s, max, Alone(EventLoop, Handle, Go, 3)) == s.(notified := false, batch := s.done, done := [])
  {
    var s2 := MainStep(MainStep(s, max, Handle), max, Go);
    RunTwo(s, max, EventLoop, Handle, Go, 3, s2);
    RunAlone(s2, max, EventLoop, Go, Go, 1);
    RunAlone(MainStep(s2, max, Go), max, EventLoop, Go, Go, 0);
  }

  /** It completes its tasks in their order; each of them may then be posted again. */
  lemma CompleteOne(s: State, max: int)
    requires s.main.Loop? && s.batch != []
    ensures MainStep(s, max, Complete)
            == s.(active := s.active - {s.batch[0]}, batch := s.batch[1..], log := s.log.(completed := s.log.completed + [s.batch[0]]))
  {
  }
}
