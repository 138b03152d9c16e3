/**
 The reader-writer spin lock of ngx_rwlock.c: one shared word, changed by separate read,
 compare-and-set and store instructions of any number of processes.
 */
module Rwlock {
  import opened Counting

  const WORD: nat := 0x1_0000_0000_0000_0000

  /** NGX_RWLOCK_WLOCK */
  const WLOCK: nat := 0xFFFF_FFFF_FFFF_FFFF

  /** The next instruction of a process.  `writer` in the unlock states says which lock it holds. */
  datatype Pc =
    | Idle
    | WriteRead | WriteCas
    | ReadRead | ReadCas(seen: nat)
    | Reading | Writing
    | UnlockRead(writer: bool)
    | UnlockStore
    | UnlockCas(seen: nat)
    | UnlockReread

  datatype State = State(lock: nat, pc: seq<Pc>)

  /** What an idle process calls. */
  datatype Call = WantWrite | WantRead

  // ---------------------------------------------------------------- the instructions

  /** The instruction process i executes next, or the call it makes when it is between calls. */
  function Step(s: State, i: nat, call: Call): State
    requires i < |s.pc|
  {
    match s.pc[i]
    case Idle => s.(pc := s.pc[i := if call.WantWrite? then WriteRead else ReadRead])
    case WriteRead => s.(pc := s.pc[i := if s.lock == 0 then WriteCas else WriteRead])
    case WriteCas => if s.lock == 0 then State(WLOCK, s.pc[i := Writing]) else s.(pc := s.pc[i := WriteRead])
    case ReadRead => s.(pc := s.pc[i := if s.lock != WLOCK then ReadCas(s.lock) else ReadRead])
    case ReadCas(seen) =>
      if s.lock == seen then State((seen + 1) % WORD, s.pc[i := Reading]) else s.(pc := s.pc[i := ReadRead])
    case Reading => s.(pc := s.pc[i := UnlockRead(false)])
    case Writing => s.(pc := s.pc[i := UnlockRead(true)])
    case UnlockRead(_) => s.(pc := s.pc[i := if s.lock == WLOCK then UnlockStore else UnlockCas(s.lock)])
    case UnlockStore => State(0, s.pc[i := Idle])
    case UnlockCas(seen) =>
      if s.lock == seen then State((seen - 1) % WORD, s.pc[i := Idle]) else s.(pc := s.pc[i := UnlockReread])
    case UnlockReread => s.(pc := s.pc[i := UnlockCas(s.lock)])
  }

  predicate HoldsRead(p: Pc) {
    p == Reading || p == UnlockRead(false) || p.UnlockCas? || p == UnlockReread
  }

  predicate HoldsWrite(p: Pc) {
    p == Writing || p == UnlockRead(true) || p == UnlockStore
  }

  ghost function Readers(s: State): nat { Count(s.pc, HoldsRead) }

  ghost function Writers(s: State): nat { Count(s.pc, HoldsWrite) }

  // ---------------------------------------------------------------- safety

  /** The word says who holds the lock, and a pending increment never starts from WLOCK. */
  ghost predicate Inv(s: State) {
    && |s.pc| < WLOCK
    && (if s.lock == WLOCK then Writers(s) == 1 && Readers(s) == 0 else Writers(s) == 0 && s.lock == Readers(s))
    && forall i :: 0 <= i < |s.pc| && s.pc[i].ReadCas? ==> s.pc[i].seen != WLOCK
  }

  ghost predicate Init(s: State) {
    s.lock == 0 && |s.pc| < WLOCK && forall i :: 0 <= i < |s.pc| ==> s.pc[i] == Idle
  }

  lemma InitInv(s: State)
    requires Init(s)
    ensures Inv(s)
  {
    CountNone(s.pc, HoldsRead);
    CountNone(s.pc, HoldsWrite);
  }

  lemma StepInv(s: State, i: nat, call: Call)
    requires Inv(s) && i < |s.pc|
    ensures Inv(Step(s, i, call))
  {
    var s' := Step(s, i, call);
    Held(s, i);
    StepWord(s, i, call);
    Tallies(s, s', i);
    CountMax(s'.pc, HoldsRead);
    assert s'.pc == s.pc[i := s'.pc[i]];
  }

  /** An instruction changes the word exactly when it changes what its process holds. */
  lemma StepWord(s: State, i: nat, call: Call)
    requires i < |s.pc| < WLOCK && (s.pc[i].ReadCas? ==> s.pc[i].seen != WLOCK)
    requires HoldsWrite(s.pc[i]) ==> s.lock == WLOCK
    requires HoldsRead(s.pc[i]) ==> 1 <= s.lock <= |s.pc|
    requires s.lock == WLOCK || s.lock <= |s.pc|
    ensures var s' := Step(s, i, call); var p, q := s.pc[i], s'.pc[i];
            && s'.pc == s.pc[i := q] && (q.ReadCas? ==> q.seen != WLOCK)
            && ((HoldsRead(p) == HoldsRead(q) && HoldsWrite(p) == HoldsWrite(q) && s'.lock == s.lock)
                || (!HoldsRead(p) && HoldsRead(q) && !HoldsWrite(p) && !HoldsWrite(q) && s.lock != WLOCK && s'.lock == s.lock + 1)
                || (HoldsRead(p) && !HoldsRead(q) && !HoldsWrite(p) && !HoldsWrite(q) && s'.lock == s.lock - 1)
                || (!HoldsRead(p) && !HoldsRead(q) && !HoldsWrite(p) && HoldsWrite(q) && s.lock == 0 && s'.lock == WLOCK)
                || (!HoldsRead(p) && !HoldsRead(q) && HoldsWrite(p) && !HoldsWrite(q) && s'.lock == 0))
  {
    assert s.lock < WORD - 1 ==> (s.lock + 1) % WORD == s.lock + 1;
    assert 0 < s.lock < WORD ==> (s.lock - 1) % WORD == s.lock - 1;
  }

  /** What a holder knows about the word. */
  lemma Held(s: State, i: nat)
    requires Inv(s) && i < |s.pc|
    ensures HoldsWrite(s.pc[i]) ==> s.lock == WLOCK
    ensures HoldsRead(s.pc[i]) ==> 1 <= s.lock <= |s.pc|
    ensures s.lock == WLOCK || s.lock <= |s.pc|
  {
    CountSet(s.pc, i, s.pc[i], HoldsRead);
    CountSet(s.pc, i, s.pc[i], HoldsWrite);
    CountMax(s.pc, HoldsRead);
  }

  lemma Tallies(s: State, s': State, i: nat)
    requires i < |s.pc| && |s'.pc| == |s.pc| && s'.pc == s.pc[i := s'.pc[i]]
    ensures Readers(s') == Readers(s) - (if HoldsRead(s.pc[i]) then 1 else 0) + if HoldsRead(s'.pc[i]) then 1 else 0
    ensures Writers(s') == Writers(s) - (if HoldsWrite(s.pc[i]) then 1 else 0) + if HoldsWrite(s'.pc[i]) then 1 else 0
  {
    CountSet(s.pc, i, s'.pc[i], HoldsRead);
    CountSet(s.pc, i, s'.pc[i], HoldsWrite);
  }

  /** A schedule: which process moves, and what it calls if it is idle. */
  function Run(s: State, schedule: seq<(nat, Call)>): (r: State)
    requires forall k :: 0 <= k < |schedule| ==> schedule[k].0 < |s.pc|
    ensures |r.pc| == |s.pc|
    decreases |schedule|
  {
    if schedule == [] then s else Run(Step(s, schedule[0].0, schedule[0].1), schedule[1..])
  }

  /** In every interleaving the word is WLOCK exactly for one writer alone, and else counts the readers. */
  lemma {:induction false} Exclusion(s: State, schedule: seq<(nat, Call)>)
    requires forall k :: 0 <= k < |schedule| ==> schedule[k].0 < |s.pc|
    requires Inv(s)
    ensures var r := Run(s, schedule);
            && Inv(r)
            && (r.lock == WLOCK <==> Writers(r) == 1) && (Writers(r) >= 1 ==> Writers(r) == 1 && Readers(r) == 0)
            && (r.lock != WLOCK ==> r.lock == Readers(r))
    decreases |schedule|
  {
    if schedule != [] {
      StepInv(s, schedule[0].0, schedule[0].1);
      Exclusion(Step(s, schedule[0].0, schedule[0].1), schedule[1..]);
    }
  }

  /** No two processes are inside together unless both read. */
  lemma NoConflict(s: State, i: nat, j: nat)
    requires Inv(s) && i < |s.pc| && j < |s.pc| && i != j && HoldsWrite(s.pc[i])
    ensures !HoldsWrite(s.pc[j]) && !HoldsRead(s.pc[j])
  {
    CountSet(s.pc, i, s.pc[i], HoldsWrite);
    CountSet(s.pc, j, s.pc[j], HoldsRead);
    if HoldsWrite(s.pc[j]) { CountOne(s.pc, HoldsWrite, i, j); }
  }

  // ---------------------------------------------------------------- progress

  /** Two instructions of a process that wants the lock, if nobody interferes. */
  lemma Tries(s: State, i: nat, call: Call)
    requires Inv(s) && i < |s.pc|
    ensures s.pc[i] == WriteRead ==>
              Step(Step(s, i, call), i, call).pc[i] == if Writers(s) == 0 && Readers(s) == 0 then Writing else WriteRead
    ensures s.pc[i] == ReadRead ==>
              Step(Step(s, i, call), i, call).pc[i] == if Writers(s) == 0 then Reading else ReadRead
  {
  }

  ghost function Thrice(s: State, i: nat, call: Call): State
    requires i < |s.pc|
  {
    Run(s, [(i, call), (i, call), (i, call)])
  }

  lemma ThriceIs(s: State, i: nat, call: Call)
    requires i < |s.pc|
    ensures |Step(s, i, call).pc| == |s.pc| && |Step(Step(s, i, call), i, call).pc| == |s.pc|
    ensures Thrice(s, i, call) == Step(Step(Step(s, i, call), i, call), i, call)
  {
    var s1 := Step(s, i, call);
    var m := (i, call);
    var one: seq<(nat, Call)> := [m];
    assert [m, m, m][1..] == [m, m] && [m, m][1..] == one && one[1..] == [];
    var s2 := Step(s1, i, call);
    assert Run(s2, one) == Run(Step(s2, i, call), []);
    assert Run(s1, [m, m]) == Run(s2, one);
    assert Run(s, [m, m, m]) == Run(s1, [m, m]);
  }

  /** A call that nobody interferes with gets the lock in three instructions exactly when the other holders allow it,
      and goes on trying otherwise. */
  lemma Acquires(s: State, i: nat, call: Call)
    requires Inv(s) && i < |s.pc| && s.pc[i] == Idle
    ensures call.WantWrite? ==> Thrice(s, i, call).pc[i] == if Writers(s) == 0 && Readers(s) == 0 then Writing else WriteRead
    ensures call.WantRead? ==> Thrice(s, i, call).pc[i] == if Writers(s) == 0 then Reading else ReadRead
  {
    var s1 := Step(s, i, call);
    ThriceIs(s, i, call);
    StepInv(s, i, call);
    assert s1.pc == s.pc[i := s1.pc[i]];
    Tallies(s, s1, i);
    Tries(s1, i, call);
  }

  /** A release is over after three instructions when nobody interferes, and takes back exactly one hold. */
  lemma Releases(s: State, i: nat, call: Call)
    requires Inv(s) && i < |s.pc| && (s.pc[i] == Reading || s.pc[i] == Writing)
    ensures var r := Thrice(s, i, call);
            && r.pc[i] == Idle
            && Readers(r) == Readers(s) - (if s.pc[i] == Writing then 0 else 1)
            && Writers(r) == Writers(s) - (if s.pc[i] == Writing then 1 else 0)
  {
    var s1 := Step(s, i, call);
    ThriceIs(s, i, call);
    StepInv(s, i, call);
    assert s1.pc == s.pc[i := s1.pc[i]];
    Tallies(s, s1, i);
    Unlocks(s1, i, call);
  }

  lemma Unlocks(s: State, i: nat, call: Call)
    requires Inv(s) && i < |s.pc| && s.pc[i].UnlockRead?
    ensures var r := Step(Step(s, i, call), i, call);
            && r.pc[i] == Idle
            && Readers(r) == Readers(s) - (if s.pc[i].writer then 0 else 1)
            && Writers(r) == Writers(s) - (if s.pc[i].writer then 1 else 0)
  {
    StepInv(s, i, call);
    var s1 := Step(s, i, call);
    var s2 := Step(s1, i, call);
    Held(s, i);
    assert s1.pc == s.pc[i := s1.pc[i]] && s2.pc == s1.pc[i := Idle];
    Tallies(s, s1, i);
    Tallies(s1, s2, i);
  }
}
