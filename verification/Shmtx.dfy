/**
 The inter-process mutex of ngx_shmtx.c with its semaphore: any number of processes run its
 instructions in any order.

 Process i has pid i + 1.  How often a process spins before it registers as a waiter is left to the
 schedule.  A process may die between calls or while it holds the lock; only the pid of a dead
 process is passed to ngx_shmtx_force_unlock.
 */
module Shmtx {
  import opened Counting

  const WORD: nat := 0x1_0000_0000_0000_0000
  const HALF: nat := 0x8000_0000_0000_0000

  /** The next instruction of a process. */
  datatype Pc =
    | Idle
    | TryRead | TryCas                      // ngx_shmtx_trylock
    | LockRead | LockCas                    // ngx_shmtx_lock, spinning
    | Register                              // fetch_add(wait, 1)
    | WaitRead | WaitCas                    // the attempt after registering
    | Deregister                            // fetch_add(wait, -1), lock already taken
    | Blocked                               // sem_wait
    | Held
    | Unlock                                // compare-and-set to 0
    | ForceUnlock(victim: nat)
    | WakeRead | WakeCas(seen: nat)         // ngx_shmtx_wakeup
    | Post
    | Dead

  datatype State = State(lock: nat, wait: nat, sem: nat, pc: seq<Pc>)

  /** What the schedule decides: the call an idle process makes, or whether it spins, is interrupted or dies. */
  datatype Choice = TryLock | Lock | CallUnlock | Force(victim: nat) | Spin | Interrupt | Die | Go

  function Pid(i: nat): nat { i + 1 }

  /** (ngx_atomic_int_t) wait */
  function Signed(w: nat): int {
    if w < HALF then w else w - WORD
  }

  /** 64-bit wrap-around. */
  function Inc(w: nat): nat { if w == WORD - 1 then 0 else w + 1 }

  function Dec(w: nat): nat { if w == 0 then WORD - 1 else w - 1 }

  // ---------------------------------------------------------------- the instructions

  /** Process i executes its next instruction. */
  function Step(s: State, i: nat, a: Choice): State
    requires i < |s.pc|
  {
    var s1 := s.(pc := s.pc[i := Advance(s, i, a)]);
    match s.pc[i]
    case TryCas => s1.(lock := if s.lock == 0 then Pid(i) else s.lock)
    case LockCas => s1.(lock := if s.lock == 0 then Pid(i) else s.lock)
    case Register => s1.(wait := Inc(s.wait))
    case WaitCas => s1.(lock := if s.lock == 0 then Pid(i) else s.lock)
    case Deregister => s1.(wait := Dec(s.wait))
    case Blocked => s1.(sem := if s.sem > 0 && !a.Interrupt? then s.sem - 1 else s.sem)
    case Unlock => s1.(lock := if s.lock == Pid(i) then 0 else s.lock)
    case ForceUnlock(v) => s1.(lock := if s.lock == Pid(v) then 0 else s.lock)
    case WakeCas(seen) => s1.(wait := if s.wait == seen then Dec(seen) else s.wait)
    case Post => s1.(sem := s.sem + 1)
    case _ => s1
  }

  /** Where process i is after its next instruction. */
  function Advance(s: State, i: nat, a: Choice): Pc
    requires i < |s.pc|
  {
    match s.pc[i]
    case Idle => Called(s, a)
    case TryRead => if s.lock == 0 then TryCas else Idle
    case TryCas => if s.lock == 0 then Held else Idle
    case LockRead => if s.lock == 0 then LockCas else if a.Spin? then LockRead else Register
    case LockCas => if s.lock == 0 then Held else if a.Spin? then LockRead else Register
    case Register => WaitRead
    case WaitRead => if s.lock == 0 then WaitCas else Blocked
    case WaitCas => if s.lock == 0 then Deregister else Blocked
    case Deregister => Held
    case Blocked => if s.sem > 0 && !a.Interrupt? then LockRead else Blocked
    case Held => if a.Die? then Dead else Unlock
    case Unlock => if s.lock == Pid(i) then WakeRead else Idle
    case ForceUnlock(v) => if s.lock == Pid(v) then WakeRead else Idle
    case WakeRead => if Signed(s.wait) <= 0 then Idle else WakeCas(s.wait)
    case WakeCas(seen) => if s.wait == seen then Post else WakeRead
    case Post => Idle
    case Dead => Dead
  }

  /** The function an idle process calls. */
  function Called(s: State, a: Choice): Pc {
    match a
    case TryLock => TryRead
    case Lock => LockRead
    case CallUnlock => Unlock
    case Force(v) => if v < |s.pc| && s.pc[v].Dead? then ForceUnlock(v) else Idle
    case Die => Dead
    case _ => Idle
  }

  // ---------------------------------------------------------------- kinds of processes

  /** Inside the critical section. */
  predicate Owns(p: Pc) {
    p.Held? || p.Deregister?
  }

  /** Counted in `wait`, or owed a semaphore post. */
  predicate Registered(p: Pc) {
    p.WaitRead? || p.WaitCas? || p.Deregister? || p.Blocked?
  }

  predicate Posting(p: Pc) { p.Post? }

  /** Still on its way to take the lock, or to wake somebody. */
  predicate Stirring(p: Pc) {
    p.LockRead? || p.LockCas? || p.Register? || p.WaitRead? || p.WaitCas? || p.WakeRead? || p.WakeCas? || p.Post?
  }

  ghost function Waiters(s: State): nat { Count(s.pc, Registered) }

  ghost function Posts(s: State): nat { Count(s.pc, Posting) }

  // ---------------------------------------------------------------- the invariant

  /** Who may own the lock word: also a process that is about to give it back, or that died. */
  predicate MayOwn(p: Pc) {
    Owns(p) || p.Unlock? || p.Dead?
  }

  /** The lock word names its one owner. */
  ghost predicate Owned(s: State) {
    && (forall i :: 0 <= i < |s.pc| ==> Truthful(s, i))
    && (s.lock != 0 ==> s.lock <= |s.pc| && MayOwn(s.pc[s.lock - 1]))
  }

  ghost predicate Truthful(s: State, i: nat)
    requires i < |s.pc|
  {
    && (Owns(s.pc[i]) ==> s.lock == Pid(i))
    && (s.pc[i].ForceUnlock? ==> s.pc[i].victim < |s.pc| && s.pc[s.pc[i].victim].Dead?)
  }

  /** Every registered waiter is counted in `wait`, in the semaphore or in a post about to happen. */
  ghost predicate Accounted(s: State) {
    && |s.pc| < HALF - 1
    && s.wait < WORD
    && Signed(s.wait) + s.sem + Posts(s) == Waiters(s)
    && s.sem + Posts(s) <= |s.pc|
    && forall i :: 0 <= i < |s.pc| && s.pc[i].WakeCas? ==> 0 < Signed(s.pc[i].seen) && s.pc[i].seen < WORD
  }

  /** With the lock free, a blocked process has a post to consume or somebody else is up. */
  ghost predicate Awake(s: State) {
    s.lock == 0 && (exists i :: 0 <= i < |s.pc| && s.pc[i].Blocked?) ==>
      s.sem > 0 || exists i :: 0 <= i < |s.pc| && Stirring(s.pc[i])
  }

  ghost predicate Inv(s: State) {
    Owned(s) && Accounted(s) && Awake(s)
  }

  ghost predicate Init(s: State) {
    s.lock == 0 && s.wait == 0 && s.sem == 0 && |s.pc| < HALF - 1 && forall i :: 0 <= i < |s.pc| ==> s.pc[i] == Idle
  }

  lemma InitInv(s: State)
    requires Init(s)
    ensures Inv(s)
  {
    CountNone(s.pc, Registered);
    CountNone(s.pc, Posting);
  }

  /** What one instruction can do to the lock word. */
  lemma StepLock(s: State, i: nat, a: Choice)
    requires i < |s.pc|
    ensures var s' := Step(s, i, a); |s'.pc| == |s.pc| && s'.pc == s.pc[i := s'.pc[i]] && (s.pc[i].Dead? ==> s'.pc[i].Dead?)
    ensures var s' := Step(s, i, a);
            || (s'.lock == s.lock && (Owns(s'.pc[i]) ==> Owns(s.pc[i])) && (MayOwn(s.pc[i]) && s.lock == Pid(i) ==> MayOwn(s'.pc[i])))
            || (s.lock == 0 && s'.lock == Pid(i) && Owns(s'.pc[i]))
            || (s'.lock == 0 && !Owns(s'.pc[i]) && s.lock == Pid(i) && s.pc[i].Unlock?)
            || (s'.lock == 0 && !Owns(s'.pc[i]) && s.pc[i].ForceUnlock? && s.lock == Pid(s.pc[i].victim))
    ensures var s' := Step(s, i, a); s'.pc[i].ForceUnlock? ==> s'.pc[i].victim < |s.pc| && s.pc[s'.pc[i].victim].Dead?
  {
  }

  lemma StepOwned(s: State, i: nat, a: Choice)
    requires Owned(s) && i < |s.pc|
    ensures Owned(Step(s, i, a))
  {
    StepLock(s, i, a);
    var s' := Step(s, i, a);
    assert Truthful(s, i);
    forall j | 0 <= j < |s'.pc| ensures Truthful(s', j) {
      assert Truthful(s, j);
    }
  }

  function One(b: bool): int { if b then 1 else 0 }

  /** What one instruction does to the four quantities of the account. */
  lemma StepBalance(s: State, i: nat, a: Choice)
    requires i < |s.pc| && s.wait < WORD && 0 - HALF < Signed(s.wait) < HALF - 1
    ensures |Step(s, i, a).pc| == |s.pc| && Step(s, i, a).wait < WORD
    ensures var s' := Step(s, i, a);
            Signed(s'.wait) - Signed(s.wait) + s'.sem - s.sem + One(s'.pc[i].Post?) - One(s.pc[i].Post?)
            == One(Registered(s'.pc[i])) - One(Registered(s.pc[i]))
  {
  }

  /** A post is promised only while `wait` is positive. */
  lemma StepPromise(s: State, i: nat, a: Choice)
    requires i < |s.pc| && s.wait < WORD && (s.pc[i].WakeCas? ==> 0 < Signed(s.pc[i].seen))
    ensures |Step(s, i, a).pc| == |s.pc|
    ensures var s' := Step(s, i, a); var more := s'.sem - s.sem + One(s'.pc[i].Post?) - One(s.pc[i].Post?);
            more <= 0 || (more == 1 && Signed(s.wait) > 0)
    ensures var q := Step(s, i, a).pc[i]; q.WakeCas? ==> 0 < Signed(q.seen) && q.seen < WORD
  {
  }

  lemma StepAccounted(s: State, i: nat, a: Choice)
    requires Accounted(s) && i < |s.pc|
    ensures Accounted(Step(s, i, a))
  {
    var s' := Step(s, i, a);
    StepLock(s, i, a);
    CountMax(s.pc, Registered);
    CountSet(s.pc, i, s'.pc[i], Registered);
    CountSet(s.pc, i, s'.pc[i], Posting);
    StepBalance(s, i, a);
    StepPromise(s, i, a);
  }

  /** What can end the wait for somebody to be up. */
  lemma StepAwake(s: State, i: nat, a: Choice)
    requires Accounted(s) && Awake(s) && i < |s.pc|
    ensures Awake(Step(s, i, a))
  {
    var s' := Step(s, i, a);
    StepLock(s, i, a);
    if s'.lock == 0 && (exists j :: 0 <= j < |s'.pc| && s'.pc[j].Blocked?) && s'.sem == 0 && !Stirring(s'.pc[i]) {
      var j :| 0 <= j < |s'.pc| && s'.pc[j].Blocked?;
      if s.pc[i].WakeRead? {
        CountSet(s.pc, j, s.pc[j], Registered);
        var k := CountSome(s.pc, Posting);
        assert Stirring(s'.pc[k]);
      } else {
        StillUp(s, i, a);
        var k :| 0 <= k < |s.pc| && Stirring(s.pc[k]);
        assert Stirring(s'.pc[k]);
      }
    }
  }

  lemma StillUp(s: State, i: nat, a: Choice)
    requires i < |s.pc| && !s.pc[i].WakeRead?
    requires var s' := Step(s, i, a); s'.lock == 0 && s'.sem == 0 && !Stirring(s'.pc[i])
    ensures var s' := Step(s, i, a);
            s.lock == 0 && s.sem == 0 && !Stirring(s.pc[i]) && (s'.pc[i].Blocked? ==> s.pc[i].Blocked?)
  {
  }

  lemma StepInv(s: State, i: nat, a: Choice)
    requires Inv(s) && i < |s.pc|
    ensures Inv(Step(s, i, a)) && |Step(s, i, a).pc| == |s.pc|
  {
    StepLock(s, i, a);
    StepOwned(s, i, a);
    StepAccounted(s, i, a);
    StepAwake(s, i, a);
  }

  // ---------------------------------------------------------------- whole runs

  function Run(s: State, moves: seq<(nat, Choice)>): (r: State)
    requires forall k :: 0 <= k < |moves| ==> moves[k].0 < |s.pc|
    ensures |r.pc| == |s.pc|
    decreases |moves|
  {
    if moves == [] then s else Run(Step(s, moves[0].0, moves[0].1), moves[1..])
  }

  lemma {:induction false} RunInv(s: State, moves: seq<(nat, Choice)>)
    requires Inv(s) && forall k :: 0 <= k < |moves| ==> moves[k].0 < |s.pc|
    ensures Inv(Run(s, moves))
    decreases |moves|
  {
    if moves != [] {
      StepInv(s, moves[0].0, moves[0].1);
      RunInv(Step(s, moves[0].0, moves[0].1), moves[1..]);
    }
  }

  /** In every interleaving at most one process is inside. */
  lemma MutualExclusion(s: State, moves: seq<(nat, Choice)>, i: nat, j: nat)
    requires Init(s) && forall k :: 0 <= k < |moves| ==> moves[k].0 < |s.pc|
    requires i < |s.pc| && j < |s.pc| && Owns(Run(s, moves).pc[i]) && Owns(Run(s, moves).pc[j])
    ensures i == j && Run(s, moves).lock == Pid(i)
  {
    InitInv(s);
    RunInv(s, moves);
    assert Truthful(Run(s, moves), i) && Truthful(Run(s, moves), j);
  }

  /** In every interleaving each registered waiter is counted once, and `wait` stays in range. */
  lemma WaitersAccounted(s: State, moves: seq<(nat, Choice)>)
    requires Init(s) && forall k :: 0 <= k < |moves| ==> moves[k].0 < |s.pc|
    ensures var r := Run(s, moves);
            && Signed(r.wait) + r.sem + Posts(r) == Waiters(r)
            && 0 - |s.pc| <= Signed(r.wait) <= |s.pc| && r.sem <= |s.pc|
  {
    InitInv(s);
    RunInv(s, moves);
    CountMax(Run(s, moves).pc, Registered);
  }

  /** In no interleaving is a wakeup lost. */
  lemma NoLostWakeup(s: State, moves: seq<(nat, Choice)>, i: nat)
    requires Init(s) && forall k :: 0 <= k < |moves| ==> moves[k].0 < |s.pc|
    requires i < |s.pc| && Run(s, moves).lock == 0 && Run(s, moves).pc[i].Blocked?
    ensures var r := Run(s, moves); r.sem > 0 || exists j :: 0 <= j < |r.pc| && Stirring(r.pc[j])
  {
    InitInv(s);
    RunInv(s, moves);
  }

  // ---------------------------------------------------------------- progress

  predicate Wants(p: Pc) {
    p.LockRead? || p.LockCas? || p.Register? || p.WaitRead? || p.WaitCas? || p.Blocked?
  }

  /** The moves bring w, who wanted the lock, inside. */
  ghost predicate Admits(s: State, moves: seq<(nat, Choice)>, w: nat) {
    && (forall k :: 0 <= k < |moves| ==> moves[k].0 < |s.pc|)
    && w < |s.pc| && Wants(s.pc[w]) && Owns(Run(s, moves).pc[w]) && Run(s, moves).lock == Pid(w)
  }

  lemma Before(s: State, i: nat, a: Choice, moves: seq<(nat, Choice)>, w: nat)
    requires i < |s.pc| && w < |s.pc| && Wants(s.pc[w]) && Admits(Step(s, i, a), moves, w)
    ensures Admits(s, [(i, a)] + moves, w)
  {
    StepLock(s, i, a);
    var all := [(i, a)] + moves;
    assert all[1..] == moves && all[0] == (i, a);
    assert forall k :: 0 < k < |all| ==> all[k] == moves[k - 1];
  }

  /** A process that wants a free lock and is scheduled gets it. */
  lemma {:induction false} TrierEnters(s: State, w: nat) returns (moves: seq<(nat, Choice)>)
    requires s.lock == 0 && w < |s.pc| && Wants(s.pc[w]) && (s.pc[w].Blocked? ==> s.sem > 0)
    ensures Admits(s, moves, w)
    decreases match s.pc[w] case Blocked => 3 case Register => 3 case LockRead => 2 case WaitRead => 2 case _ => 1
  {
    var s1 := Step(s, w, Go);
    StepLock(s, w, Go);
    if s.pc[w].LockCas? || s.pc[w].WaitCas? {
      moves := [(w, Go)];
      assert moves[1..] == [];
      assert Run(s1, []) == s1;
    } else {
      var rest := TrierEnters(s1, w);
      Before(s, w, Go, rest, w);
      moves := [(w, Go)] + rest;
    }
  }

  /** A blocked process gets in once a post is pending. */
  lemma PosterWakes(s: State, w: nat, j: nat) returns (moves: seq<(nat, Choice)>)
    requires s.lock == 0 && w < |s.pc| && s.pc[w].Blocked? && j < |s.pc| && s.pc[j].Post?
    ensures Admits(s, moves, w)
  {
    StepLock(s, j, Go);
    var rest := TrierEnters(Step(s, j, Go), w);
    Before(s, j, Go, rest, w);
    moves := [(j, Go)] + rest;
  }

  /** A process that has released the lock wakes a blocked one, unless a post is under way already. */
  lemma {:induction false} WakerWakes(s: State, w: nat, j: nat) returns (moves: seq<(nat, Choice)>)
    requires Inv(s) && s.lock == 0 && w < |s.pc| && s.pc[w].Blocked?
    requires j < |s.pc| && (s.pc[j].WakeRead? || s.pc[j].WakeCas?)
    ensures Admits(s, moves, w)
    decreases if s.pc[j].WakeRead? then 1 else if s.pc[j].seen == s.wait then 0 else 2
  {
    var s1 := Step(s, j, Go);
    StepLock(s, j, Go);
    if s.pc[j].WakeRead? && Signed(s.wait) <= 0 {
      CountSet(s.pc, w, s.pc[w], Registered);
      if s.sem > 0 {
        moves := TrierEnters(s, w);
      } else {
        var k := CountSome(s.pc, Posting);
        moves := PosterWakes(s, w, k);
      }
      return;
    }
    StepInv(s, j, Go);
    var rest;
    if s.pc[j].WakeCas? && s.pc[j].seen == s.wait {
      rest := PosterWakes(s1, w, j);
    } else {
      rest := WakerWakes(s1, w, j);
    }
    Before(s, j, Go, rest, w);
    moves := [(j, Go)] + rest;
  }

  /** Whenever the lock is free and somebody is blocked, some schedule lets a waiting process in. */
  lemma NeverStuck(s: State, i: nat) returns (moves: seq<(nat, Choice)>, w: nat)
    requires Inv(s) && s.lock == 0 && i < |s.pc| && s.pc[i].Blocked?
    ensures Admits(s, moves, w)
  {
    w := i;
    if s.sem > 0 {
      moves := TrierEnters(s, i);
      return;
    }
    var j :| 0 <= j < |s.pc| && Stirring(s.pc[j]);
    if s.pc[j].Post? {
      moves := PosterWakes(s, i, j);
    } else if s.pc[j].WakeRead? || s.pc[j].WakeCas? {
      moves := WakerWakes(s, i, j);
    } else {
      w := j;
      moves := TrierEnters(s, j);
    }
  }
}
