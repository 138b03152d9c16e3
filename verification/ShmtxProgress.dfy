/**
 What the calls of the mutex do when a process runs them without interference, and when a process
 that waits for the lock can still be let in.
 */
module ShmtxProgress {
  import opened Counting
  import opened Shmtx

  // ---------------------------------------------------------------- one process alone

  /** Process i alone: a first choice, and n further instructions. */
  function Alone(i: nat, first: Choice, n: nat): (moves: seq<(nat, Choice)>)
    ensures |moves| == n + 1 && forall k :: 0 <= k <= n ==> moves[k].0 == i
  {
    [(i, first)] + seq(n, _ => (i, Go))
  }

  lemma RunAlone(s: State, i: nat, first: Choice, n: nat)
    requires i < |s.pc|
    ensures |Step(s, i, first).pc| == |s.pc|
    ensures n > 0 ==> Run(s, Alone(i, first, n)) == Run(Step(s, i, first), Alone(i, Go, n - 1))
    ensures n == 0 ==> Run(s, Alone(i, first, n)) == Step(s, i, first)
  {
    StepLock(s, i, first);
    var moves := Alone(i, first, n);
    if n == 0 {
      assert moves[1..] == [];
    } else {
      assert moves[1..] == Alone(i, Go, n - 1);
    }
  }

  /** One instruction of process i leads from s to t; said of everything equal to s, so that a proof does not unfold it. */
  ghost predicate Goes(s: State, i: nat, a: Choice, t: State) {
    |t.pc| == |s.pc| && forall x {:trigger Step(x, i, a)} :: x == s && i < |x.pc| ==> Step(x, i, a) == t
  }

  /** n + 1 instructions do. */
  ghost predicate Leads(s: State, i: nat, first: Choice, n: nat, t: State) {
    |t.pc| == |s.pc| && forall m {:trigger Run(s, m)} :: m == Alone(i, first, n) && i < |s.pc| ==> Run(s, m) == t
  }

  lemma LeadsOne(s: State, i: nat, a: Choice, t: State)
    requires i < |s.pc| && Goes(s, i, a, t)
    ensures Leads(s, i, a, 0, t)
  {
    RunAlone(s, i, a, 0);
  }

  lemma LeadsOn(s: State, i: nat, a: Choice, s1: State, n: nat, t: State)
    requires i < |s.pc| && Goes(s, i, a, s1) && Leads(s1, i, Go, n, t)
    ensures Leads(s, i, a, n + 1, t)
  {
    RunAlone(s, i, a, n + 1);
  }

  lemma LeadsTwo(s: State, i: nat, a: Choice, s1: State, s2: State, n: nat, t: State)
    requires i < |s.pc| && Goes(s, i, a, s1) && Goes(s1, i, Go, s2) && Leads(s2, i, Go, n, t)
    ensures Leads(s, i, a, n + 2, t)
  {
    LeadsOn(s1, i, Go, s2, n, t);
    LeadsOn(s, i, a, s1, n + 1, t);
  }

  /** Three instructions, with the states between them. */
  lemma LeadsThree(s: State, i: nat, a: Choice, s1: State, s2: State, t: State)
    requires i < |s.pc| && Goes(s, i, a, s1) && Goes(s1, i, Go, s2) && Goes(s2, i, Go, t)
    ensures Leads(s, i, a, 2, t)
  {
    LeadsOne(s2, i, Go, t);
    LeadsTwo(s, i, a, s1, s2, 0, t);
  }

  lemma RunIs(s: State, i: nat, a: Choice, n: nat, t: State)
    requires i < |s.pc| && Leads(s, i, a, n, t)
    ensures Run(s, Alone(i, a, n)) == t
  {
  }

  /** Process i of s, put at p. */
  ghost function Put(s: State, i: nat, p: Pc): State
    requires i < |s.pc|
  {
    s.(pc := s.pc[i := p])
  }

  lemma PutTwice(s: State, i: nat, p: Pc, q: Pc)
    requires i < |s.pc|
    ensures |Put(s, i, p).pc| == |s.pc| && Put(s, i, p).pc[i := q] == s.pc[i := q] && Put(s, i, s.pc[i]) == s
  {
  }

  lemma GoIdle(s: State, i: nat)
    requires i < |s.pc| && s.pc[i].Idle?
    ensures Goes(s, i, Go, s)
  {
    PutTwice(s, i, Idle, Idle);
  }

  lemma GoCall(s: State, i: nat, a: Choice)
    requires i < |s.pc| && s.pc[i].Idle?
    ensures Goes(s, i, a, Put(s, i, Called(s, a)))
  {
  }

  lemma GoTry(s: State, i: nat)
    requires i < |s.pc|
    ensures Goes(Put(s, i, TryRead), i, Go, Put(s, i, if s.lock == 0 then TryCas else Idle))
    ensures s.lock == 0 ==> Goes(Put(s, i, TryCas), i, Go, Put(s, i, Held).(lock := Pid(i)))
  {
    PutTwice(s, i, TryRead, if s.lock == 0 then TryCas else Idle);
    PutTwice(s, i, TryCas, Held);
  }

  lemma GoLock(s: State, i: nat)
    requires i < |s.pc|
    ensures Goes(Put(s, i, LockRead), i, Go, Put(s, i, if s.lock == 0 then LockCas else Register))
    ensures s.lock == 0 ==> Goes(Put(s, i, LockCas), i, Go, Put(s, i, Held).(lock := Pid(i)))
  {
    PutTwice(s, i, LockRead, if s.lock == 0 then LockCas else Register);
    PutTwice(s, i, LockCas, Held);
  }

  lemma GoRegister(s: State, i: nat)
    requires i < |s.pc|
    ensures Goes(Put(s, i, Register), i, Go, Put(s, i, WaitRead).(wait := Inc(s.wait)))
    ensures s.lock != 0 ==> Goes(Put(s, i, WaitRead), i, Go, Put(s, i, Blocked))
  {
    PutTwice(s, i, Register, WaitRead);
    PutTwice(s, i, WaitRead, Blocked);
  }

  lemma GoUnlock(s: State, i: nat)
    requires i < |s.pc|
    ensures Goes(Put(s, i, Unlock), i, Go, if s.lock == Pid(i) then Put(s, i, WakeRead).(lock := 0) else Put(s, i, Idle))
  {
    PutTwice(s, i, Unlock, if s.lock == Pid(i) then WakeRead else Idle);
  }

  lemma GoForce(s: State, i: nat, v: nat)
    requires i < |s.pc|
    ensures Goes(Put(s, i, ForceUnlock(v)), i, Go, if s.lock == Pid(v) then Put(s, i, WakeRead).(lock := 0) else Put(s, i, Idle))
  {
    PutTwice(s, i, ForceUnlock(v), if s.lock == Pid(v) then WakeRead else Idle);
  }

  lemma GoWake(s: State, i: nat)
    requires i < |s.pc|
    ensures Goes(Put(s, i, WakeRead), i, Go, Put(s, i, if Signed(s.wait) <= 0 then Idle else WakeCas(s.wait)))
    ensures Goes(Put(s, i, WakeCas(s.wait)), i, Go, Put(s, i, Post).(wait := Dec(s.wait)))
  {
    PutTwice(s, i, WakeRead, if Signed(s.wait) <= 0 then Idle else WakeCas(s.wait));
    PutTwice(s, i, WakeCas(s.wait), Post);
  }

  lemma GoPost(s: State, i: nat)
    requires i < |s.pc|
    ensures Goes(Put(s, i, Post), i, Go, Put(s, i, Idle).(sem := s.sem + 1))
  {
    PutTwice(s, i, Post, Idle);
  }

  /** ngx_shmtx_trylock takes the lock exactly when it is free, and otherwise changes nothing. */
  lemma TryLockAlone(s: State, i: nat)
    requires i < |s.pc| && s.pc[i].Idle?
    ensures Run(s, Alone(i, TryLock, 2)) == if s.lock == 0 then s.(lock := Pid(i), pc := s.pc[i := Held]) else s
  {
    TryLockLeads(s, i);
    RunIs(s, i, TryLock, 2, if s.lock == 0 then s.(lock := Pid(i), pc := s.pc[i := Held]) else s);
  }

  lemma TryLockLeads(s: State, i: nat)
    requires i < |s.pc| && s.pc[i].Idle?
    ensures Leads(s, i, TryLock, 2, if s.lock == 0 then s.(lock := Pid(i), pc := s.pc[i := Held]) else s)
  {
    GoCall(s, i, TryLock);
    GoTry(s, i);
    if s.lock == 0 {
      LeadsThree(s, i, TryLock, Put(s, i, TryRead), Put(s, i, TryCas), Put(s, i, Held).(lock := Pid(i)));
    } else {
      GoIdle(s, i);
      PutTwice(s, i, TryRead, Idle);
      LeadsThree(s, i, TryLock, Put(s, i, TryRead), s, s);
    }
  }

  /** ngx_shmtx_lock takes a free lock at once; otherwise it registers and blocks. */
  lemma LockAlone(s: State, i: nat)
    requires i < |s.pc| && s.pc[i].Idle?
    ensures s.lock == 0 ==> Run(s, Alone(i, Lock, 2)) == s.(lock := Pid(i), pc := s.pc[i := Held])
    ensures s.lock != 0 ==> Run(s, Alone(i, Lock, 3)) == s.(wait := Inc(s.wait), pc := s.pc[i := Blocked])
  {
    if s.lock == 0 {
      LockLeads(s, i);
      RunIs(s, i, Lock, 2, s.(lock := Pid(i), pc := s.pc[i := Held]));
    } else {
      WaitLeads(s, i);
      RunIs(s, i, Lock, 3, s.(wait := Inc(s.wait), pc := s.pc[i := Blocked]));
    }
  }

  lemma LockLeads(s: State, i: nat)
    requires i < |s.pc| && s.pc[i].Idle? && s.lock == 0
    ensures Leads(s, i, Lock, 2, s.(lock := Pid(i), pc := s.pc[i := Held]))
  {
    GoCall(s, i, Lock);
    GoLock(s, i);
    LeadsThree(s, i, Lock, Put(s, i, LockRead), Put(s, i, LockCas), Put(s, i, Held).(lock := Pid(i)));
  }

  lemma WaitLeads(s: State, i: nat)
    requires i < |s.pc| && s.pc[i].Idle? && s.lock != 0
    ensures Leads(s, i, Lock, 3, s.(wait := Inc(s.wait), pc := s.pc[i := Blocked]))
  {
    var t := s.(wait := Inc(s.wait));
    GoCall(s, i, Lock);
    GoLock(s, i);
    GoRegister(s, i);
    GoRegister(t, i);
    LeadsThree(Put(s, i, LockRead), i, Go, Put(s, i, Register), Put(t, i, WaitRead), Put(t, i, Blocked));
    LeadsOn(s, i, Lock, Put(s, i, LockRead), 2, Put(t, i, Blocked));
  }

  /** sem_wait consumes a post, and without one, or interrupted, it goes on waiting. */
  lemma SemWaits(s: State, i: nat, a: Choice)
    requires i < |s.pc| && s.pc[i].Blocked?
    ensures Step(s, i, a) == if s.sem > 0 && !a.Interrupt? then s.(sem := s.sem - 1, pc := s.pc[i := LockRead]) else s
  {
    assert s.pc[i := Blocked] == s.pc;
  }

  /** The state after ngx_shmtx_wakeup: one waiter less, if there is any, and a post for it. */
  function Woken(s: State): State {
    if Signed(s.wait) > 0 then s.(wait := Dec(s.wait), sem := s.sem + 1) else s
  }

  lemma WakeLeads(s: State, i: nat)
    requires i < |s.pc|
    ensures Leads(Put(s, i, WakeRead), i, Go, 2, Put(Woken(s), i, Idle))
  {
    GoWake(s, i);
    if Signed(s.wait) <= 0 {
      var t := Put(s, i, Idle);
      GoIdle(t, i);
      LeadsThree(Put(s, i, WakeRead), i, Go, t, t, t);
    } else {
      var t := s.(wait := Dec(s.wait));
      GoPost(t, i);
      LeadsThree(Put(s, i, WakeRead), i, Go, Put(s, i, WakeCas(s.wait)), Put(t, i, Post), Put(t, i, Idle).(sem := s.sem + 1));
    }
  }

  /** ngx_shmtx_wakeup */
  lemma WakeAlone(s: State, i: nat)
    requires i < |s.pc| && s.pc[i].WakeRead?
    ensures Run(s, Alone(i, Go, 2)) == Woken(s).(pc := s.pc[i := Idle])
  {
    WakeLeads(s, i);
    PutTwice(s, i, WakeRead, Idle);
    RunIs(s, i, Go, 2, Woken(s).(pc := s.pc[i := Idle]));
  }

  /** Three more instructions of an idle process change nothing. */
  lemma IdleLeads(s: State, i: nat)
    requires i < |s.pc| && s.pc[i].Idle?
    ensures Leads(s, i, Go, 2, s)
  {
    GoIdle(s, i);
    LeadsThree(s, i, Go, s, s, s);
  }

  /** ngx_shmtx_unlock by the owner frees the lock and wakes a waiter, if there is any. */
  lemma UnlockAlone(s: State, i: nat)
    requires i < |s.pc| && s.pc[i].Held? && s.lock == Pid(i)
    ensures Run(s, Alone(i, Go, 4)) == Woken(s).(lock := 0, pc := s.pc[i := Idle])
  {
    UnlockLeads(s, i);
    RunIs(s, i, Go, 4, Woken(s).(lock := 0, pc := s.pc[i := Idle]));
  }

  lemma UnlockLeads(s: State, i: nat)
    requires i < |s.pc| && s.pc[i].Held? && s.lock == Pid(i)
    ensures Leads(s, i, Go, 4, Woken(s).(lock := 0, pc := s.pc[i := Idle]))
  {
    var t := s.(lock := 0);
    GoHeld(s, i);
    GoUnlock(s, i);
    WakeLeads(t, i);
    LeadsTwo(s, i, Go, Put(s, i, Unlock), Put(t, i, WakeRead), 2, Put(Woken(t), i, Idle));
  }

  lemma GoHeld(s: State, i: nat)
    requires i < |s.pc| && s.pc[i].Held?
    ensures Goes(s, i, Go, Put(s, i, Unlock))
  {
  }

  /** By anybody else it does nothing. */
  lemma UnlockStranger(s: State, i: nat)
    requires i < |s.pc| && s.pc[i].Idle? && s.lock != Pid(i)
    ensures Run(s, Alone(i, CallUnlock, 4)) == s
  {
    StrangerLeads(s, i);
    RunIs(s, i, CallUnlock, 4, s);
  }

  lemma StrangerLeads(s: State, i: nat)
    requires i < |s.pc| && s.pc[i].Idle? && s.lock != Pid(i)
    ensures Leads(s, i, CallUnlock, 4, s)
  {
    GoCall(s, i, CallUnlock);
    GoUnlock(s, i);
    PutTwice(s, i, Unlock, Idle);
    IdleLeads(s, i);
    LeadsTwo(s, i, CallUnlock, Put(s, i, Unlock), s, 2, s);
  }

  /** ngx_shmtx_force_unlock for a dead owner frees the lock and wakes a waiter; for any other process it does nothing. */
  lemma ForceAlone(s: State, i: nat, v: nat)
    requires i < |s.pc| && s.pc[i].Idle? && v < |s.pc| && s.pc[v].Dead?
    ensures Run(s, Alone(i, Force(v), 4)) == if s.lock == Pid(v) then Woken(s).(lock := 0, pc := s.pc[i := Idle]) else s
  {
    ForceLeads(s, i, v);
    RunIs(s, i, Force(v), 4, if s.lock == Pid(v) then Woken(s).(lock := 0, pc := s.pc[i := Idle]) else s);
  }

  lemma ForceLeads(s: State, i: nat, v: nat)
    requires i < |s.pc| && s.pc[i].Idle? && v < |s.pc| && s.pc[v].Dead?
    ensures Leads(s, i, Force(v), 4, if s.lock == Pid(v) then Woken(s).(lock := 0, pc := s.pc[i := Idle]) else s)
  {
    GoCall(s, i, Force(v));
    GoForce(s, i, v);
    if s.lock == Pid(v) {
      var t := s.(lock := 0);
      WakeLeads(t, i);
      LeadsTwo(s, i, Force(v), Put(s, i, ForceUnlock(v)), Put(t, i, WakeRead), 2, Put(Woken(t), i, Idle));
    } else {
      PutTwice(s, i, ForceUnlock(v), Idle);
      IdleLeads(s, i);
      LeadsTwo(s, i, Force(v), Put(s, i, ForceUnlock(v)), s, 2, s);
    }
  }

  // ---------------------------------------------------------------- the lock becomes free

  /** The moves free the lock; i only moves itself, and a blocked process stays blocked. */
  ghost predicate Frees(s: State, moves: seq<(nat, Choice)>, i: nat) {
    && (forall k :: 0 <= k < |moves| ==> moves[k].0 == i) && i < |s.pc|
    && Run(s, moves).lock == 0 && Helper(Run(s, moves).pc[i]) && forall j :: 0 <= j < |s.pc| && j != i ==> Run(s, moves).pc[j] == s.pc[j]
  }

  lemma FreesBefore(s: State, i: nat, a: Choice, moves: seq<(nat, Choice)>)
    requires i < |s.pc| && |Step(s, i, a).pc| == |s.pc| && Frees(Step(s, i, a), moves, i)
    ensures Frees(s, [(i, a)] + moves, i) && Run(s, [(i, a)] + moves) == Run(Step(s, i, a), moves)
  {
    StepLock(s, i, a);
    var all := [(i, a)] + moves;
    assert all[1..] == moves && all[0] == (i, a);
    forall k | 0 <= k < |all| ensures all[k].0 == i {
      if k > 0 { assert all[k] == moves[k - 1]; }
    }
  }

  lemma FreesNow(s: State, i: nat)
    requires i < |s.pc| && s.lock == 0 && Helper(s.pc[i])
    ensures Frees(s, [], i)
  {
  }

  /** A live owner, scheduled alone, frees the lock and ends outside. */
  lemma {:induction false} OwnerFrees(s: State, i: nat) returns (moves: seq<(nat, Choice)>)
    requires Inv(s) && i < |s.pc| && s.lock == Pid(i) && !s.pc[i].Dead?
    ensures Frees(s, moves, i) && Run(s, moves).pc[i].Idle?
    decreases match s.pc[i] case Deregister => 3 case Held => 2 case _ => 1
  {
    assert MayOwn(s.pc[s.lock - 1]);
    var s1 := Step(s, i, Go);
    StepLock(s, i, Go);
    var rest;
    if s.pc[i].Unlock? {
      rest := Alone(i, Go, 2);
      WakeAlone(s1, i);
    } else {
      StepInv(s, i, Go);
      rest := OwnerFrees(s1, i);
    }
    FreesBefore(s, i, Go, rest);
    moves := [(i, Go)] + rest;
  }

  /** Neither dead nor on its way to take the lock. */
  predicate Helper(p: Pc) { !p.Dead? && !Wants(p) }

  /** A process that can call ngx_shmtx_force_unlock, alone, frees the lock of a dead owner. */
  lemma {:induction false} HelperFrees(s: State, i: nat, v: nat) returns (moves: seq<(nat, Choice)>)
    requires Inv(s) && i < |s.pc| && Helper(s.pc[i]) && v < |s.pc| && s.pc[v].Dead? && s.lock == Pid(v)
    ensures Frees(s, moves, i)
    decreases match s.pc[i]
              case ForceUnlock(x) => if x == v then 0 else 2
              case Idle => 1
              case WakeRead => 5
              case WakeCas(seen) => if seen == s.wait then 4 else 6
              case Post => 3
              case _ => 2
  {
    assert Truthful(s, i) && Truthful(s, v);
    var a := Force(v);
    var s1 := Step(s, i, a);
    StepLock(s, i, a);
    StepInv(s, i, a);
    var rest;
    if s.pc[i].ForceUnlock? && s.pc[i].victim == v {
      rest := [];
      FreesNow(s1, i);
    } else {
      assert s1.lock == s.lock && Helper(s1.pc[i]);
      rest := HelperFrees(s1, i, v);
    }
    FreesBefore(s, i, a, rest);
    moves := [(i, a)] + rest;
  }

  // ---------------------------------------------------------------- who can be let in

  /** The owner is dead, and every other process is dead too or waits for the lock: nobody can free it. */
  ghost predicate Abandoned(s: State) {
    s.lock != 0 && s.lock <= |s.pc| && s.pc[s.lock - 1].Dead? && forall i :: 0 <= i < |s.pc| ==> !Helper(s.pc[i])
  }

  lemma {:induction false} RunTwice(s: State, a: seq<(nat, Choice)>, b: seq<(nat, Choice)>)
    requires forall k :: 0 <= k < |a| ==> a[k].0 < |s.pc|
    requires forall k :: 0 <= k < |b| ==> b[k].0 < |s.pc|
    ensures forall k :: 0 <= k < |a + b| ==> (a + b)[k].0 < |s.pc|
    ensures Run(s, a + b) == Run(Run(s, a), b)
    decreases |a|
  {
    if a == [] {
      assert a + b == b;
    } else {
      StepLock(s, a[0].0, a[0].1);
      RunTwice(Step(s, a[0].0, a[0].1), a[1..], b);
      assert (a + b)[1..] == a[1..] + b;
    }
  }

  lemma AfterFreed(s: State, first: seq<(nat, Choice)>, j: nat, i: nat) returns (moves: seq<(nat, Choice)>, w: nat)
    requires Inv(s) && Frees(s, first, j) && i < |s.pc| && i != j && s.pc[i].Blocked?
    ensures Admits(s, moves, w)
  {
    var s1 := Run(s, first);
    RunInv(s, first);
    var rest;
    rest, w := NeverStuck(s1, i);
    moves := first + rest;
    RunTwice(s, first, rest);
  }

  /** Whenever somebody is blocked, some schedule lets a waiting process in, unless the lock is abandoned. */
  lemma LetIn(s: State, i: nat) returns (moves: seq<(nat, Choice)>, w: nat)
    requires Inv(s) && i < |s.pc| && s.pc[i].Blocked? && !Abandoned(s)
    ensures Admits(s, moves, w)
  {
    if s.lock == 0 {
      moves, w := NeverStuck(s, i);
    } else {
      var v := s.lock - 1;
      var first;
      if s.pc[v].Dead? {
        var j :| 0 <= j < |s.pc| && Helper(s.pc[j]);
        first := HelperFrees(s, j, v);
        moves, w := AfterFreed(s, first, j, i);
      } else {
        first := OwnerFrees(s, v);
        moves, w := AfterFreed(s, first, v, i);
      }
    }
  }

  lemma StepAbandoned(s: State, i: nat, a: Choice)
    requires Abandoned(s) && Inv(s) && i < |s.pc|
    ensures Abandoned(Step(s, i, a)) && Step(s, i, a).lock == s.lock
  {
    StepLock(s, i, a);
    var s' := Step(s, i, a);
    assert Truthful(s, i) && !Helper(s.pc[i]);
    forall j | 0 <= j < |s'.pc| ensures !Helper(s'.pc[j]) {
      assert !Helper(s.pc[j]);
    }
  }

  /** An abandoned lock stays so in every continuation, and nobody gets in. */
  lemma {:induction false} StaysAbandoned(s: State, moves: seq<(nat, Choice)>, w: nat)
    requires Inv(s) && Abandoned(s) && w < |s.pc| && forall k :: 0 <= k < |moves| ==> moves[k].0 < |s.pc|
    ensures Abandoned(Run(s, moves)) && !Owns(Run(s, moves).pc[w]) && !Admits(s, moves, w)
    decreases |moves|
  {
    if moves == [] {
      assert Truthful(s, w);
    } else {
      StepAbandoned(s, moves[0].0, moves[0].1);
      StepInv(s, moves[0].0, moves[0].1);
      StaysAbandoned(Step(s, moves[0].0, moves[0].1), moves[1..], w);
    }
  }

  /** In every interleaving: a process that is blocked can be let in, or another that waits, exactly unless the lock is
      abandoned. */
  lemma AdmitsIff(s0: State, before: seq<(nat, Choice)>, i: nat)
    requires Init(s0) && (forall k :: 0 <= k < |before| ==> before[k].0 < |s0.pc|) && i < |s0.pc| && Run(s0, before).pc[i].Blocked?
    ensures (exists moves, w :: Admits(Run(s0, before), moves, w)) <==> !Abandoned(Run(s0, before))
  {
    InitInv(s0);
    RunInv(s0, before);
    var s := Run(s0, before);
    if Abandoned(s) {
      forall moves, w | Admits(s, moves, w) ensures false {
        StaysAbandoned(s, moves, w);
      }
    } else {
      var moves, w := LetIn(s, i);
    }
  }

}
