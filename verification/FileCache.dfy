/**
 The cache of open files (ngx_open_file_cache.c), without vnode events: entries looked up by name, a
 queue of the same entries by last use, and handles that keep an entry's descriptor open.

 Opening and examining a file is an outcome of the environment.  Entries live in one table and are
 never reused, so that a freed entry can be told from a live one.
 */
module FileCache {
  import opened Counting
  import opened Lists

  type Name = string

  /** NGX_INVALID_FILE */
  const INVALID: int := -1

  /** In the tree, taken out of it while handles remain, or freed. */
  datatype Status = InCache | Detached | Freed

  /** A cached file; `handles` is the number of handles that have been given out and not released.
      While `err` is set, `close` and `isDir` mean nothing. */
  datatype File = File(
    name: Name, status: Status, handles: nat, fd: int, err: nat, isDir: bool, uniq: nat,
    count: nat, close: bool, uses: nat, created: int, accessed: int)

  /** What ngx_open_and_stat_file may find: an error; the same file as before, still open; a directory; or a file
      opened with a new descriptor.  `Same` says whether the old descriptor now belongs to a directory. */
  datatype Outcome = Failed(err: nat) | Same(isDir: bool) | Directory(uniq: nat) | Opened(fd: nat, uniq: nat)

  /** `open`: the open descriptors, each with the entry it belongs to. */
  datatype State = State(files: seq<File>, queue: seq<nat>, current: nat, open: map<int, nat>)

  predicate Live(f: File) { f.status.InCache? }

  /** An entry by itself: its handles are counted, and while there are any it has a descriptor; out of the tree it
      only waits for its handles. */
  ghost predicate Fits(f: File) {
    match f.status
    case Freed => f.fd == INVALID && f.handles == 0
    case Detached => f.count == f.handles > 0 && f.fd != INVALID && f.close
    case InCache =>
      && f.count == f.handles
      && (f.err != 0 || f.isDir ==> f.fd == INVALID)
      && (f.count > 0 ==> f.fd != INVALID)
      && (f.err == 0 ==> !f.close)
  }

  ghost predicate Owns(s: State, i: nat)
    requires i < |s.files|
  {
    s.files[i].fd != INVALID ==> s.files[i].fd in s.open && s.open[s.files[i].fd] == i
  }

  ghost predicate Owned(s: State, d: int)
    requires d in s.open
  {
    d != INVALID && s.open[d] < |s.files| && s.files[s.open[d]].fd == d
  }

  ghost predicate SameName(s: State, i: nat, j: nat)
    requires i < |s.files| && j < |s.files|
  {
    s.files[i].status.InCache? && s.files[j].status.InCache? && s.files[i].name == s.files[j].name
  }

  /** Every open descriptor belongs to one entry, entries in the tree have different names, and `current` counts them. */
  ghost predicate Base(s: State) {
    && (forall i :: 0 <= i < |s.files| ==> Fits(s.files[i]) && Owns(s, i))
    && (forall d :: d in s.open ==> Owned(s, d))
    && (forall i, j :: 0 <= i < j < |s.files| ==> !SameName(s, i, j))
    && s.current == Count(s.files, Live)
  }

  /** The queue holds the entries of the tree, once each, except for x. */
  ghost predicate Queued(s: State, x: int) {
    Distinct(s.queue) && forall i :: i in s.queue <==> 0 <= i < |s.files| && s.files[i].status.InCache? && i != x
  }

  ghost predicate Inv(s: State) {
    Base(s) && Queued(s, -1)
  }

  /** Handles that are not released keep their entry and its descriptor. */
  ghost predicate Stable(s: State, s': State) {
    && |s.files| <= |s'.files|
    && forall i :: 0 <= i < |s.files| && s.files[i].handles > 0 && s'.files[i].handles > 0 ==> s'.files[i].fd == s.files[i].fd
  }

  // ---------------------------------------------------------------- changing one entry

  /** The descriptors after entry i has given up `old` and got `fd`. */
  ghost function Redescribed(open: map<int, nat>, i: nat, given: int, fd: int): map<int, nat> {
    if fd == given then open
    else if fd == INVALID then open - {given}
    else (open - {given})[fd := i]
  }

  lemma Change(s: State, s': State, i: nat, f: File)
    requires Base(s) && i < |s.files| && Fits(f) && f.name == s.files[i].name && (f.status.InCache? ==> s.files[i].status.InCache?)
    requires f.fd == s.files[i].fd || f.fd == INVALID || f.fd !in s.open
    requires s'.files == s.files[i := f] && s'.open == Redescribed(s.open, i, s.files[i].fd, f.fd)
    requires s'.current == s.current - (if s.files[i].status.InCache? && !f.status.InCache? then 1 else 0)
    ensures Base(s')
  {
    CountSet(s.files, i, f, Live);
    forall j | 0 <= j < |s'.files| ensures Fits(s'.files[j]) && Owns(s', j) {
      assert Fits(s.files[j]) && Owns(s, j) && Owns(s, i);
    }
    forall d | d in s'.open ensures Owned(s', d) {
      if d in s.open { assert Owned(s, d); }
    }
    forall j, k | 0 <= j < k < |s'.files| ensures !SameName(s', j, k) {
      assert !SameName(s, j, k);
    }
  }

  /** A new entry of the tree, under a name that is not there. */
  lemma Add(s: State, s': State, f: File)
    requires Base(s) && Fits(f) && f.status.InCache? && forall j :: 0 <= j < |s.files| ==> !(s.files[j].status.InCache? && s.files[j].name == f.name)
    requires f.fd == INVALID || f.fd !in s.open
    requires s'.files == s.files + [f] && s'.current == s.current + 1
    requires s'.open == if f.fd == INVALID then s.open else s.open[f.fd := |s.files|]
    ensures Base(s')
  {
    CountAppend(s.files, f, Live);
    forall j | 0 <= j < |s'.files| ensures Fits(s'.files[j]) && Owns(s', j) {
      if j < |s.files| { assert Fits(s.files[j]) && Owns(s, j); }
    }
    forall d | d in s'.open ensures Owned(s', d) {
      if d in s.open { assert Owned(s, d); }
    }
    forall j, k | 0 <= j < k < |s'.files| ensures !SameName(s', j, k) {
      if k < |s.files| { assert !SameName(s, j, k); }
    }
  }

  lemma {:induction false} CountAppend(s: seq<File>, f: File, p: File -> bool)
    ensures Count(s + [f], p) == Count(s, p) + if p(f) then 1 else 0
  {
    if s == [] {
      assert s + [f] == [f] && [f][1..] == [];
      assert Count([f], p) == Count([], p) + if p(f) then 1 else 0;
    } else {
      assert (s + [f])[1..] == s[1..] + [f];
      CountAppend(s[1..], f, p);
    }
  }

  // ---------------------------------------------------------------- the queue

  lemma DistinctTail(q: seq<nat>)
    requires Distinct(q) && q != []
    ensures forall x :: x in q <==> x == q[0] || x in q[1..]
  {
    assert q == [q[0]] + q[1..];
  }

  /** ngx_queue_remove */
  function Without(q: seq<nat>, i: nat): (r: seq<nat>)
    ensures forall x :: x in r ==> x in q
  {
    if q == [] then [] else if q[0] == i then q[1..] else [q[0]] + Without(q[1..], i)
  }

  lemma {:induction false} WithoutOk(q: seq<nat>, i: nat)
    requires Distinct(q)
    ensures Distinct(Without(q, i)) && forall x :: x in Without(q, i) <==> x in q && x != i
  {
    if q != [] {
      DistinctTail(q);
      if q[0] != i {
        WithoutOk(q[1..], i);
        var r := [q[0]] + Without(q[1..], i);
        assert r[1..] == Without(q[1..], i);
      }
    }
  }

  lemma {:induction false} DistinctFront(q: seq<nat>)
    requires Distinct(q) && q != []
    ensures Distinct(q[..|q| - 1]) && forall x :: x in q[..|q| - 1] <==> x in q && x != q[|q| - 1]
  {
    var n := |q| - 1;
    DistinctTail(q);
    if n > 0 {
      DistinctFront(q[1..]);
      assert q[..n][1..] == q[1..][..n - 1];
      assert q[..n] == [q[0]] + q[1..][..n - 1];
      assert q[n] == q[1..][n - 1] && q[n] in q[1..];
    }
  }

  /** The queue plays no part in the rest. */
  lemma Requeued(s: State, q: seq<nat>)
    requires Base(s)
    ensures Base(s.(queue := q))
  {
    var s' := s.(queue := q);
    forall i | 0 <= i < |s'.files| ensures Fits(s'.files[i]) && Owns(s', i) {
      assert Fits(s.files[i]) && Owns(s, i);
    }
    forall d | d in s'.open ensures Owned(s', d) {
      assert Owned(s, d);
    }
    forall i, j | 0 <= i < j < |s'.files| ensures !SameName(s', i, j) {
      assert !SameName(s, i, j);
    }
  }

  // ---------------------------------------------------------------- what becomes of an entry

  /** An entry taken out of the tree: freed at once, its descriptor closed, unless it has handles. */
  function TakenOut(f: File): File {
    if f.count == 0 then f.(status := Freed, fd := INVALID) else f.(status := Detached, close := true)
  }

  /** What ngx_open_cached_file has in `of` after ngx_open_and_stat_file; `isNew`: the descriptor was opened just now. */
  datatype Info = Info(fd: int, err: nat, isDir: bool, uniq: nat, isNew: bool)

  /** ngx_open_and_stat_file, called with the descriptor and the identity known so far. */
  function Examined(o: Outcome, fd: int, uniq: nat): Info {
    match o
    case Failed(err) => Info(INVALID, err, false, uniq, false)
    case Same(isDir) => Info(fd, 0, isDir, uniq, false)
    case Directory(u) => Info(INVALID, 0, true, u, false)
    case Opened(d, u) => Info(d, 0, false, u, true)
  }

  /** Whether the caller gets a handle. */
  predicate Gives(of: Info) { of.err == 0 && !of.isDir }

  /** The assignments at the labels `update` and `found`, with the handle that the caller gets. */
  function Updated(f: File, of: Info, now: int): File {
    if of.err != 0 then f.(fd := of.fd, err := of.err, created := now, accessed := now)
    else
      var more := if of.isDir then 0 else 1;
      f.(fd := of.fd, err := 0, uniq := of.uniq, close := false, isDir := of.isDir,
         count := f.count + more, handles := f.handles + more, created := now, accessed := now)
  }

  /** The outcomes for which an entry with an open descriptor may stay: a descriptor does not turn into that of a
      directory, and a file opened anew is not the file that is open already. */
  predicate Plausible(f: File, o: Outcome) {
    f.fd != INVALID ==> o != Same(true) && !(o.Opened? && o.uniq == f.uniq)
  }

  // ---------------------------------------------------------------- the end of ngx_open_cached_file

  /** The labels `update` and `found` for entry i. */
  ghost function UpdateTo(s: State, i: nat, of: Info, now: int): State
    requires i < |s.files|
  {
    s.(files := s.files[i := Updated(s.files[i], of, now)], queue := [i] + s.queue,
       open := if of.isNew then s.open[of.fd := i] else s.open)
  }

  /** Exactly the handles there were and one more for entry id, if there is such an entry. */
  ghost predicate Given(was: seq<File>, files: seq<File>, id: int) {
    && |was| <= |files|
    && forall j :: 0 <= j < |files| ==> files[j].handles == (if j < |was| then was[j].handles else 0) + if j == id then 1 else 0
  }

  lemma PushQueue(s: State, i: nat)
    requires Queued(s, i) && i < |s.files| && s.files[i].status.InCache?
    ensures Queued(s.(queue := [i] + s.queue), -1)
  {
    assert ([i] + s.queue)[1..] == s.queue;
  }

  lemma PopQueue(s: State)
    requires Queued(s, -1) && s.queue != []
    ensures var i := s.queue[|s.queue| - 1]; Queued(s.(queue := s.queue[..|s.queue| - 1]), i) && i < |s.files| && s.files[i].status.InCache?
  {
    DistinctFront(s.queue);
    assert s.queue[|s.queue| - 1] in s.queue;
  }

  /** What `of` may say to an entry: an error or a directory without a descriptor, a new descriptor, or the entry's own. */
  ghost predicate Welcome(s: State, f: File, of: Info) {
    && (of.err != 0 || of.isDir ==> of.fd == INVALID && !of.isNew)
    && (Gives(of) ==> of.fd != INVALID && (if of.isNew then of.fd !in s.open else of.fd == f.fd))
    && (f.fd != INVALID ==> of.fd == f.fd)
  }

  lemma UpdateOk(s: State, i: nat, of: Info, now: int)
    requires Base(s) && Queued(s, i) && i < |s.files| && s.files[i].status.InCache? && Welcome(s, s.files[i], of)
    ensures Inv(UpdateTo(s, i, of, now)) && Stable(s, UpdateTo(s, i, of, now))
    ensures Given(s.files, UpdateTo(s, i, of, now).files, if Gives(of) then i else -1)
  {
    var f, s' := s.files[i], UpdateTo(s, i, of, now);
    assert Fits(f) && Owns(s, i);
    var s1 := s'.(queue := s.queue);
    Change(s, s1, i, Updated(f, of, now));
    Requeued(s1, s'.queue);
    PushQueue(s1, i);
  }

  /** An entry left with a descriptor that is closed, or that belongs to another entry. */
  lemma Dangles(s: State, i: nat, of: Info, now: int)
    requires i < |s.files| && of.fd != INVALID && !of.isNew && (of.fd !in s.open || s.open[of.fd] != i)
    ensures var s' := UpdateTo(s, i, of, now); !Owns(s', i) && !Base(s')
  {
    var s' := UpdateTo(s, i, of, now);
    assert !Owns(s', i);
  }

  /** An entry with an open descriptor gets another: the old one stays open and no entry holds it. */
  lemma Leaks(s: State, i: nat, of: Info, now: int)
    requires Base(s) && i < |s.files| && s.files[i].fd != INVALID && of.isNew && of.fd !in s.open
    ensures var s' := UpdateTo(s, i, of, now);
            s.files[i].fd in s'.open && (forall j :: 0 <= j < |s'.files| ==> s'.files[j].fd != s.files[i].fd) && !Base(s')
  {
    var d, s' := s.files[i].fd, UpdateTo(s, i, of, now);
    assert Owns(s, i);
    forall j | 0 <= j < |s'.files| ensures s'.files[j].fd != d {
      assert Owns(s, j);
    }
    assert !Owned(s', d);
  }

  /** A new entry, before it is updated. */
  function Fresh(name: Name): File {
    File(name, InCache, 0, INVALID, 0, false, 0, 0, false, 1, 0, 0)
  }

  /** The label `create`: the entry is put into the tree. */
  lemma CreateOk(s: State, name: Name)
    requires Inv(s) && forall j :: 0 <= j < |s.files| ==> !(s.files[j].status.InCache? && s.files[j].name == name)
    ensures var s' := s.(files := s.files + [Fresh(name)], current := s.current + 1);
            Base(s') && Queued(s', |s.files|) && Stable(s, s') && Given(s.files, s'.files, -1)
  {
    Add(s, s.(files := s.files + [Fresh(name)], current := s.current + 1), Fresh(name));
  }

  ghost predicate Named(s: State, j: nat, name: Name) {
    j < |s.files| && s.files[j].status.InCache? && s.files[j].name == name
  }

  /** The entry of the tree that has the name; the length of the table if there is none. */
  ghost function Entry(s: State, name: Name): (i: nat)
    ensures i <= |s.files|
  {
    if j: nat :| Named(s, j, name) then j else |s.files|
  }

  // ---------------------------------------------------------------- what expires, and what is most recent

  /** Not used for longer than `inactive`. */
  predicate Idle(f: File, inactive: int, now: int) { now - f.accessed > inactive }

  /** Exactly the entries at the end of the queue have been taken out. */
  ghost predicate Trimmed(was: State, s: State) {
    && s.queue <= was.queue && |s.files| == |was.files|
    && forall j :: 0 <= j < |was.files| ==> s.files[j] == if j in was.queue && j !in s.queue then TakenOut(was.files[j]) else was.files[j]
  }

  /** At most `room` entries have been taken out, each of them idle, except that the first one need not be if `forced`. */
  ghost predicate OnlyIdle(was: State, s: State, room: nat, forced: bool, inactive: int, now: int)
    requires Trimmed(was, s)
  {
    && |was.queue| - |s.queue| <= room
    && forall k :: |s.queue| <= k < |was.queue| && was.queue[k] < |was.files| ==>
         Idle(was.files[was.queue[k]], inactive, now) || (forced && k == |was.queue| - 1)
  }

  lemma TrimMore(was: State, s: State, s': State, room: nat, forced: bool, inactive: int, now: int)
    requires Trimmed(was, s) && OnlyIdle(was, s, room, forced, inactive, now) && Queued(s, -1) && s.queue != []
    requires var n, i := |s.queue| - 1, s.queue[|s.queue| - 1];
             && i < |s.files| && s'.queue == s.queue[..n] && s'.files == s.files[i := TakenOut(s.files[i])]
             && (Idle(s.files[i], inactive, now) || (forced && |s.queue| == |was.queue|))
    ensures Trimmed(was, s') && OnlyIdle(was, s', room + 1, forced, inactive, now)
  {
    DistinctFront(s.queue);
    var n := |s.queue| - 1;
    var i := s.queue[n];
    assert was.queue[n] == i && i in was.queue && i in s.queue;
  }

  /** After k rounds of ngx_expire_old_cached_files. */
  ghost predicate Expiring(was: State, s: State, k: nat, forced: bool, inactive: int, now: int) {
    && Stable(was, s) && Trimmed(was, s) && OnlyIdle(was, s, k, forced, inactive, now)
    && |s.queue| + k == |was.queue| && s.current + k == was.current && forall d :: d in s.open ==> d in was.open
  }

  lemma ExpiringMore(was: State, s: State, s': State, k: nat, forced: bool, inactive: int, now: int)
    requires Expiring(was, s, k, forced, inactive, now) && Queued(s, -1) && s.queue != []
    requires Stable(s, s') && s'.current + 1 == s.current && forall d :: d in s'.open ==> d in s.open
    requires var n, i := |s.queue| - 1, s.queue[|s.queue| - 1];
             && i < |s.files| && s'.queue == s.queue[..n] && s'.files == s.files[i := TakenOut(s.files[i])]
             && (Idle(s.files[i], inactive, now) || (forced && |s.queue| == |was.queue|))
    ensures Expiring(was, s', k + 1, forced, inactive, now)
  {
    TrimMore(was, s, s', k, forced, inactive, now);
  }

  /** Entry id is the most recent one; behind it the queue and its entries are as before, up to the end if not `full`. */
  ghost predicate Placed(was: State, s: State, id: nat, full: bool) {
    && s.queue != [] && s.queue[0] == id < |s.files| && s.files[id].status.InCache? && |was.files| <= |s.files|
    && s.queue[1..] <= was.queue && (!full ==> s.queue[1..] == was.queue)
    && forall j :: j in s.queue[1..] && j < |was.files| ==> s.files[j] == was.files[j]
  }

  lemma PlacedOne(s: State, s': State, i: nat)
    requires Queued(s, i) && i < |s.files| && |s'.files| == |s.files| && s'.files == s.files[i := s'.files[i]]
    requires s'.files[i].status.InCache? && s'.queue == [i] + s.queue
    ensures Placed(s, s', i, false)
  {
    assert s'.queue[1..] == s.queue;
  }

  /** Nothing is lost but the end of the queue. */
  ghost predicate Kept(was: State, s: State, full: bool) {
    && |was.files| == |s.files| && s.queue <= was.queue && (!full ==> s.queue == was.queue)
    && forall j :: j in s.queue && j < |was.files| ==> s.files[j] == was.files[j]
  }

  lemma PlacedNew(was: State, s: State, s': State, full: bool)
    requires Kept(was, s, full) && Queued(s, -1) && |s'.files| == |s.files| + 1 && s'.files[..|s.files|] == s.files
    requires s'.files[|s.files|].status.InCache? && s'.queue == [|s.files|] + s.queue
    ensures Placed(was, s', |s.files|, full)
  {
    assert s'.queue[1..] == s.queue;
    forall j | j in s'.queue[1..] && j < |was.files| ensures s'.files[j] == was.files[j] {
      assert s'.files[j] == s'.files[..|s.files|][j];
    }
  }

  /** What is known of the file has been stored. */
  ghost predicate Told(f: File, of: Info, now: int) {
    f.fd == of.fd && f.err == of.err && (of.err == 0 ==> f.isDir == of.isDir && f.uniq == of.uniq) && f.created == f.accessed == now
  }

  /** The entry can answer by itself: it knows something, of the file that is asked for, and not for too long. */
  ghost predicate Usable(f: File, valid: int, uniq: nat, now: int) {
    (f.fd != INVALID || f.err != 0 || f.isDir) && (uniq == 0 || uniq == f.uniq) && now < f.created + valid
  }

  /** A failure that is not to be remembered. */
  ghost predicate Fatal(o: Outcome, errors: bool) { o.Failed? && !(errors && o.err != 0) }

  /** What ngx_open_cached_file answers for a name that is not in the cache, and leaves there. */
  ghost predicate AnswerNew(was: State, s: State, name: Name, errors: bool, now: int, o: Outcome, full: bool, ok: bool, fd: int, id: nat) {
    if Fatal(o, errors) then !ok && fd == INVALID && s == was
    else
      var of := Examined(o, INVALID, 0);
      && id == |was.files| && Placed(was, s, id, full) && s.files[id].name == name
      && Told(s.files[id], of, now) && s.files[id].uses == 1 && ok == (of.err == 0) && fd == of.fd
  }

  /** What it answers for the name of entry i: from the entry if that is fresh, otherwise from the file system. */
  ghost predicate AnswerFound(was: State, s: State, i: nat, recent: bool, errors: bool, now: int, o: Outcome, full: bool, ok: bool, fd: int, id: nat)
    requires i < |was.files|
  {
    var f := was.files[i];
    var rest := was.(queue := Without(was.queue, i));
    if recent then
      && id == i && Placed(rest, s, i, false) && ok == (f.err == 0) && fd == f.fd
      && s.files[i] == f.(uses := f.uses + 1, accessed := now, count := s.files[i].count, handles := s.files[i].handles)
    else if Fatal(o, errors) then
      !ok && fd == INVALID && s.queue == rest.queue && s.files == was.files[i := TakenOut(f.(uses := f.uses + 1))]
    else
      var of := Examined(o, f.fd, f.uniq);
      && Placed(rest, s, id, full) && s.files[id].name == f.name && Told(s.files[id], of, now)
      && s.files[id].uses == (if id == i then f.uses + 1 else 1) && ok == !o.Failed? && fd == of.fd
      && (id == i <==> f.count == 0 || f.fd == INVALID || (of.err == 0 && !of.isDir && of.uniq == f.uniq))
  }

  /** A handle of entry i has been released, and nothing else has changed but the order of the queue. */
  ghost predicate LetGo(was: State, s: State, i: nat, minUses: nat, now: int)
    requires i < |was.files|
  {
    var f, last := was.files[i], was.files[i].handles == 1;
    && |s.files| == |was.files| && s.files == was.files[i := s.files[i]] && s.files[i].handles == f.handles - 1
    && s.files[i].name == f.name && s.files[i].uses == f.uses
    && s.files[i].status == (if f.status.Detached? && last then Freed else f.status)
    && s.files[i].fd == (if last && (f.status.Detached? || f.uses < minUses) then INVALID else f.fd)
    && (f.status.InCache? ==> s.files[i].accessed == now && s.queue == [i] + Without(was.queue, i))
    && (f.status.Detached? ==> s.queue == was.queue)
  }

  lemma PlacedSame(was: State, s: State, s': State, i: nat, id: nat, full: bool)
    requires Queued(was, i) && i < |was.files| == |s.files| && s.queue == was.queue && s.files == was.files[i := s.files[i]]
    requires Placed(s, s', id, full)
    ensures Placed(was, s', id, full)
  {
    forall j | j in s'.queue[1..] && j < |was.files| ensures s'.files[j] == was.files[j] {
      assert j in was.queue;
    }
  }

  lemma PlacedRest(was: State, touched: State, s: State, i: nat, id: nat, full: bool)
    requires Distinct(was.queue) && i < |was.files| == |touched.files| && touched.queue == Without(was.queue, i)
    requires touched.files == was.files[i := touched.files[i]] && Placed(touched, s, id, full)
    ensures Placed(was.(queue := Without(was.queue, i)), s, id, full)
  {
    WithoutOk(was.queue, i);
    forall j | j in s.queue[1..] && j < |was.files| ensures s.files[j] == was.files[j] {
      assert j in touched.queue;
    }
  }

  /** s1 is s with entry i out of the queue and one more use of it. */
  ghost predicate Touched(s: State, s1: State, i: nat)
    requires i < |s.files|
  {
    s1.files == s.files[i := s.files[i].(uses := s.files[i].uses + 1)] && s1.queue == Without(s.queue, i)
  }

  lemma AnswerHit(was: State, s: State, s': State, i: nat, errors: bool, now: int, o: Outcome, full: bool)
    requires Inv(was) && i < |was.files| && Touched(was, s, i) && Placed(s, s', i, false)
    requires s'.files[i] == s.files[i].(accessed := now, count := s'.files[i].count, handles := s'.files[i].handles)
    ensures AnswerFound(was, s', i, true, errors, now, o, full, was.files[i].err == 0, was.files[i].fd, i)
  {
    PlacedRest(was, s, s', i, i, false);
  }

  lemma AnswerRetest(was: State, s: State, s': State, i: nat, errors: bool, now: int, o: Outcome, full: bool, id: nat)
    requires Inv(was) && i < |was.files| && Touched(was, s, i) && Placed(s, s', id, full) && !Fatal(o, errors)
    requires s'.files[id].name == s.files[i].name && Told(s'.files[id], Examined(o, s.files[i].fd, s.files[i].uniq), now)
    requires s'.files[id].uses == if id == i then s.files[i].uses else 1
    requires var f, of := s.files[i], Examined(o, s.files[i].fd, s.files[i].uniq);
             id == i <==> f.count == 0 || f.fd == INVALID || (of.err == 0 && !of.isDir && of.uniq == f.uniq)
    ensures AnswerFound(was, s', i, false, errors, now, o, full, !o.Failed?, Examined(o, s.files[i].fd, s.files[i].uniq).fd, id)
  {
    PlacedRest(was, s, s', i, id, full);
  }

  class Cache {
    const max: nat
    const inactive: int
    var files: seq<File>
    var queue: seq<nat>         // expire_queue, most recently used first
    var current: nat
    var open: map<int, nat>     // the descriptors the process has open, and for which entry

    ghost function St(): State
      reads this
    {
      State(files, queue, current, open)
    }

    /** The tree, the queue and `current` describe the same entries, no more than `max`; handles are counted; open
        descriptors belong to one entry each. */
    ghost predicate Valid()
      reads this
    {
      Inv(St()) && (max >= 1 ==> current <= max)
    }

    constructor (max: nat, inactive: int)
      ensures Valid() && files == [] && open == map[] && this.max == max && this.inactive == inactive
    {
      this.max, this.inactive := max, inactive;
      files, queue, current, open := [], [], 0, map[];
    }

    /** ngx_close_file */
    method Close(fd: int)
      requires fd in open
      modifies this`open
      ensures open == old(open) - {fd}
    {
      open := open - {fd};
    }

    /** ngx_open_file_lookup */
    method Lookup(name: Name) returns (i: nat)
      requires Base(St())
      ensures i == Entry(St(), name)
      ensures i <= |files| && (i < |files| ==> files[i].status.InCache? && files[i].name == name)
      ensures i == |files| ==> forall j :: 0 <= j < |files| ==> !(files[j].status.InCache? && files[j].name == name)
    {
      i := 0;
      while i < |files|
        invariant i <= |files| && forall j :: 0 <= j < i ==> !(files[j].status.InCache? && files[j].name == name)
      {
        if files[i].status.InCache? && files[i].name == name {
          NameGone(St(), i);
          assert Named(St(), i, name);
          return;
        }
        i := i + 1;
      }
    }

    /** Entry i, which is out of the queue, leaves the tree; without handles it is freed. */
    method TakeOut(i: nat)
      requires Base(St()) && Queued(St(), i) && i < |files| && files[i].status.InCache?
      modifies this`files, this`current, this`open
      ensures Inv(St()) && Stable(old(St()), St()) && current == old(current) - 1
      ensures forall d :: d in open ==> d in old(open)
      ensures files == old(files)[i := TakenOut(old(files)[i])]
      ensures forall j :: 0 <= j < |files| ==> files[j].handles == old(files)[j].handles
    {
      ghost var s := St();
      assert Fits(files[i]) && Owns(s, i);
      CountSet(files, i, files[i], Live);
      if files[i].count == 0 && files[i].fd != INVALID {
        Close(files[i].fd);
      }
      files, current := files[i := TakenOut(files[i])], current - 1;
      assert open == Redescribed(s.open, i, s.files[i].fd, files[i].fd);
      Change(s, St(), i, files[i]);
    }

    /** The least recently used entry leaves the queue and the tree. */
    method ExpireLast()
      requires Inv(St()) && queue != []
      modifies this`files, this`queue, this`current, this`open
      ensures Inv(St()) && Stable(old(St()), St()) && current == old(current) - 1 && |files| == |old(files)|
      ensures forall d :: d in open ==> d in old(open)
      ensures queue == old(queue)[..|old(queue)| - 1]
      ensures var i := old(queue)[|old(queue)| - 1]; i < |old(files)| && files == old(files)[i := TakenOut(old(files)[i])]
    {
      var i := queue[|queue| - 1];
      PopQueue(St());
      Requeued(St(), queue[..|queue| - 1]);
      queue := queue[..|queue| - 1];
      TakeOut(i);
    }

    /** ngx_expire_old_cached_files */
    method Expire(first: nat, now: int)
      requires Inv(St()) && first < 3
      modifies this`files, this`queue, this`current, this`open
      ensures Inv(St()) && Stable(old(St()), St()) && |files| == |old(files)| && current <= old(current)
      ensures first == 0 && old(queue) != [] ==> current < old(current)
      ensures forall d :: d in open ==> d in old(open)
      ensures Trimmed(old(St()), St()) && OnlyIdle(old(St()), St(), 3 - first, first == 0, inactive, now)
      ensures |queue| + 3 - first == |old(queue)| || queue == [] ||
              (queue[|queue| - 1] < |files| && !Idle(files[queue[|queue| - 1]], inactive, now))
    {
      var n := first;
      while n < 3
        invariant first <= n <= 3 && Inv(St()) && Expiring(old(St()), St(), n - first, first == 0, inactive, now)
        decreases 3 - n
      {
        if queue == [] {
          return;
        }
        var i := queue[|queue| - 1];
        assert i in queue;
        if n != 0 && now - files[i].accessed <= inactive {
          return;
        }
        n := n + 1;
        ghost var s := St();
        ExpireLast();
        ExpiringMore(old(St()), s, St(), n - 1 - first, first == 0, inactive, now);
      }
    }

    /** Entry i is out of the queue, with one more use. */
    method Touch(i: nat)
      requires Inv(St()) && i < |files| && files[i].status.InCache?
      modifies this`files, this`queue
      ensures Base(St()) && Queued(St(), i) && Stable(old(St()), St()) && Given(old(files), files, -1)
      ensures Touched(old(St()), St(), i)
    {
      ghost var s := St();
      WithoutOk(queue, i);
      queue := Without(queue, i);
      Requeued(s, queue);
      ghost var s1 := St();
      assert Fits(files[i]);
      files := files[i := files[i].(uses := files[i].uses + 1)];
      Change(s1, St(), i, files[i]);
    }

    /** The labels `update` and `found`. */
    method Update(i: nat, of: Info, now: int)
      requires i < |files|
      modifies this`files, this`queue, this`open
      ensures St() == UpdateTo(old(St()), i, of, now)
    {
      files, queue := files[i := Updated(files[i], of, now)], [i] + queue;
      open := if of.isNew then open[of.fd := i] else open;
    }

    /** The start of the label `create`: room for one more entry. */
    method MakeRoom(now: int)
      requires Valid()
      modifies this`files, this`queue, this`current, this`open
      ensures Inv(St()) && Stable(old(St()), St()) && Given(old(files), files, -1) && (max >= 1 ==> current < max)
      ensures (forall d :: d in open ==> d in old(open)) && |files| == |old(files)|
      ensures forall j :: 0 <= j < |files| ==> files[j].name == old(files)[j].name
      ensures forall j :: 0 <= j < |files| && files[j].status.InCache? ==> old(files)[j].status.InCache?
      ensures Kept(old(St()), St(), old(current) >= max)
    {
      if current >= max {
        QueueSize(St());
        Expire(0, now);
      }
    }

    /** The label `create`, and what follows. */
    method Create(name: Name, of: Info, now: int) returns (i: nat)
      requires Valid() && forall j :: 0 <= j < |files| ==> !(files[j].status.InCache? && files[j].name == name)
      requires of.isNew ==> of.fd !in open
      modifies this
      ensures i == |old(files)| < |files| && files[i].name == name && Told(files[i], of, now) && files[i].uses == 1
      ensures Placed(old(St()), St(), i, old(current) >= max)
      ensures old(Welcome(St(), Fresh(name), of)) ==> Valid() && Stable(old(St()), St())
      ensures old(Welcome(St(), Fresh(name), of)) ==> Given(old(files), files, if Gives(of) then i else -1)
      ensures of.fd != INVALID && !of.isNew ==> !Base(St())
      ensures forall d :: d in open ==> d in old(open) || (of.isNew && d == of.fd)
    {
      MakeRoom(now);
      ghost var s := St();
      i := Insert(name, of, now);
      PlacedNew(old(St()), s, St(), old(current) >= max);
    }

    method Insert(name: Name, of: Info, now: int) returns (i: nat)
      requires Inv(St()) && (max >= 1 ==> current < max)
      requires forall j :: 0 <= j < |files| ==> !(files[j].status.InCache? && files[j].name == name)
      requires of.isNew ==> of.fd !in open
      modifies this`files, this`queue, this`current, this`open
      ensures i == |old(files)| && |files| == i + 1 && files[..i] == old(files) && queue == [i] + old(queue)
      ensures files[i].status.InCache? && files[i].name == name && Told(files[i], of, now) && files[i].uses == 1
      ensures old(Welcome(St(), Fresh(name), of)) ==> Valid() && Stable(old(St()), St())
      ensures old(Welcome(St(), Fresh(name), of)) ==> Given(old(files), files, if Gives(of) then i else -1)
      ensures of.fd != INVALID && !of.isNew ==> !Base(St())
      ensures open == if of.isNew then old(open)[of.fd := i] else old(open)
    {
      CreateOk(St(), name);
      i := |files|;
      files, current := files + [Fresh(name)], current + 1;
      if Welcome(St(), files[i], of) { UpdateOk(St(), i, of, now); }
      if of.fd != INVALID && !of.isNew {
        OtherOwner(St(), i, of.fd);
        Dangles(St(), i, of, now);
      }
      Update(i, of, now);
    }

    /** A cached entry is examined again: it is updated in place, or replaced, or it gives way to a new entry. */
    method Retest(i: nat, o: Outcome, now: int) returns (id: nat)
      requires Base(St()) && Queued(St(), i) && i < |files| && files[i].status.InCache? && (max >= 1 ==> current <= max)
      requires (o.Failed? ==> o.err != 0) && (o.Opened? ==> o.fd !in open && o.fd != INVALID) && (o.Same? ==> files[i].fd != INVALID)
      modifies this
      ensures id < |files| && files[id].name == old(files)[i].name && Told(files[id], Examined(o, old(files)[i].fd, old(files)[i].uniq), now)
      ensures Placed(old(St()), St(), id, max == 0) && files[id].uses == if id == i then old(files)[i].uses else 1
      ensures Plausible(old(files)[i], o) ==>
                && Valid() && Stable(old(St()), St())
                && Given(old(files), files, if Gives(Examined(o, old(files)[i].fd, 0)) then id else -1)
      ensures !Plausible(old(files)[i], o) ==> !Base(St())
      ensures var f, of := old(files)[i], Examined(o, old(files)[i].fd, old(files)[i].uniq);
              id == i <==> f.count == 0 || f.fd == INVALID || (of.err == 0 && !of.isDir && of.uniq == f.uniq)
    {
      var f := files[i];
      var of := Examined(o, f.fd, f.uniq);
      id := i;
      assert Fits(f) && Owns(St(), i);
      if (f.fd == INVALID && f.err == 0 && !f.isDir) || f.isDir || f.err != 0 || (Gives(of) && of.uniq == f.uniq) {
        if Plausible(f, o) { UpdateOk(St(), i, of, now); } else { Leaks(St(), i, of, now); }
        Update(i, of, now);
        PlacedOne(old(St()), St(), i);
      } else if f.count == 0 {
        Replace(i, of, now);
      } else {
        id := GiveWay(i, of, now);
      }
    }

    /** The file has changed and the entry has handles: it leaves the tree and a new entry is created. */
    method GiveWay(i: nat, of: Info, now: int) returns (id: nat)
      requires Base(St()) && Queued(St(), i) && i < |files| && files[i].status.InCache? && (max >= 1 ==> current <= max)
      requires of.isNew ==> of.fd !in open
      modifies this
      ensures i < id < |files| && files[id].name == old(files)[i].name && Told(files[id], of, now) && files[id].uses == 1
      ensures Placed(old(St()), St(), id, max == 0)
      ensures old(Welcome(St(), Fresh(files[i].name), of)) ==>
                Valid() && Stable(old(St()), St()) && Given(old(files), files, if Gives(of) then id else -1)
      ensures of.fd != INVALID && !of.isNew ==> !Base(St())
    {
      var name := files[i].name;
      NameGone(St(), i);
      TakeOut(i);
      ghost var s := St();
      id := Create(name, of, now);
      PlacedSame(old(St()), s, St(), i, id, s.current >= max);
    }

    /** A cached entry that is fresh enough is used as it is. */
    method Hit(i: nat, now: int)
      requires Base(St()) && Queued(St(), i) && i < |files| && files[i].status.InCache?
      requires files[i].fd != INVALID || files[i].err != 0 || files[i].isDir
      modifies this`files, this`queue
      ensures Inv(St()) && Stable(old(St()), St()) && |files| == |old(files)| && files[i].fd == old(files)[i].fd && files[i].err == old(files)[i].err
      ensures files[i].name == old(files)[i].name && files[i].isDir == old(files)[i].isDir
      ensures Given(old(files), files, if files[i].err == 0 && !files[i].isDir then i else -1)
      ensures Placed(old(St()), St(), i, false)
      ensures files[i] == old(files)[i].(accessed := now, count := files[i].count, handles := files[i].handles)
    {
      ghost var s := St();
      assert Fits(files[i]);
      var more := if files[i].err == 0 && !files[i].isDir then 1 else 0;
      files := files[i := files[i].(count := files[i].count + more, handles := files[i].handles + more, accessed := now)];
      Change(s, St(), i, files[i]);
      PushQueue(St(), i);
      Requeued(St(), [i] + queue);
      queue := [i] + queue;
      PlacedOne(s, St(), i);
    }

    /** Whether a cached entry has to be examined again. */
    predicate Stale(f: File, valid: int, uniq: nat, now: int) {
      (f.fd == INVALID && f.err == 0 && !f.isDir) || !((uniq == 0 || uniq == f.uniq) && now - f.created < valid)
    }

    /** What the environment can answer: a new descriptor is not open yet, and only a known descriptor can be kept. */
    ghost predicate Possible(name: Name, valid: int, uniq: nat, now: int, o: Outcome)
      reads this
    {
      var i := Entry(St(), name);
      && (o.Opened? ==> o.fd !in open)
      && (o.Same? ==> i < |files| && files[i].fd != INVALID && !Usable(files[i], valid, uniq, now))
    }

    /** The outcomes that keep the cache sound. */
    ghost predicate Sound(name: Name, valid: int, uniq: nat, now: int, o: Outcome)
      reads this
    {
      var i := Entry(St(), name);
      i < |files| && !Usable(files[i], valid, uniq, now) ==> Plausible(files[i], o)
    }

    /** ngx_open_cached_file: `valid`, `uniq` and `errors` come from the caller, `o` from the file system. */
    method Open(name: Name, valid: int, uniq: nat, errors: bool, now: int, o: Outcome) returns (ok: bool, fd: int, id: nat)
      requires Valid() && Possible(name, valid, uniq, now, o)
      modifies this
      ensures old(Sound(name, valid, uniq, now, o)) <==> Valid()
      ensures Valid() ==> Stable(old(St()), St()) && Given(old(files), files, if ok && fd != INVALID then id else -1)
      ensures Valid() && ok && fd != INVALID ==> id < |files| && files[id].name == name && files[id].fd == fd && fd in open
      ensures old(Entry(St(), name)) == |old(files)| ==> forall d :: d in open ==> d in old(open) || (o.Opened? && d == o.fd)
      ensures var i := old(Entry(St(), name));
              if i == |old(files)| then AnswerNew(old(St()), St(), name, errors, now, o, old(current) >= max, ok, fd, id)
              else AnswerFound(old(St()), St(), i, Usable(old(files)[i], valid, uniq, now), errors, now, o, max == 0, ok, fd, id)
    {
      var i := Lookup(name);
      if i == |files| {
        ok, fd, id := OpenNew(name, errors, now, o);
      } else {
        ok, fd, id := OpenFound(i, valid, uniq, errors, now, o);
      }
    }

    /** The name is not in the cache. */
    method OpenNew(name: Name, errors: bool, now: int, o: Outcome) returns (ok: bool, fd: int, id: nat)
      requires Valid() && !o.Same? && (o.Opened? ==> o.fd !in open)
      requires forall j :: 0 <= j < |files| ==> !(files[j].status.InCache? && files[j].name == name)
      modifies this
      ensures Valid() && Stable(old(St()), St()) && Given(old(files), files, if ok && fd != INVALID then id else -1)
      ensures ok && fd != INVALID ==> id < |files| && files[id].name == name && files[id].fd == fd && fd in open
      ensures AnswerNew(old(St()), St(), name, errors, now, o, old(current) >= max, ok, fd, id)
      ensures forall d :: d in open ==> d in old(open) || (o.Opened? && d == o.fd)
    {
      id, fd, ok := 0, INVALID, false;
      if o.Failed? && (o.err == 0 || !errors) {
        return;
      }
      var of := Examined(o, INVALID, 0);
      id := Create(name, of, now);
      fd, ok := of.fd, of.err == 0;
      assert Owns(St(), id);
    }

    /** The name is in the cache, as entry i. */
    method OpenFound(i: nat, valid: int, uniq: nat, errors: bool, now: int, o: Outcome) returns (ok: bool, fd: int, id: nat)
      requires Valid() && i < |files| && files[i].status.InCache? && (o.Opened? ==> o.fd !in open)
      requires o.Same? ==> files[i].fd != INVALID && !Usable(files[i], valid, uniq, now)
      modifies this
      ensures (!Usable(old(files)[i], valid, uniq, now) ==> Plausible(old(files)[i], o)) <==> Valid()
      ensures Valid() ==> Stable(old(St()), St()) && Given(old(files), files, if ok && fd != INVALID then id else -1)
      ensures Valid() && ok && fd != INVALID ==> id < |files| && files[id].name == old(files)[i].name && files[id].fd == fd && fd in open
      ensures AnswerFound(old(St()), St(), i, Usable(old(files)[i], valid, uniq, now), errors, now, o, max == 0, ok, fd, id)
    {
      if Stale(files[i], valid, uniq, now) {
        ok, fd, id := Reopen(i, errors, now, o);
      } else {
        ok, fd := Reuse(i, errors, now, o);
        id := i;
      }
    }

    /** The entry is fresh. */
    method Reuse(i: nat, errors: bool, now: int, ghost o: Outcome) returns (ok: bool, fd: int)
      requires Valid() && i < |files| && files[i].status.InCache? && !(files[i].fd == INVALID && files[i].err == 0 && !files[i].isDir)
      modifies this
      ensures Valid() && Stable(old(St()), St()) && Given(old(files), files, if ok && fd != INVALID then i else -1)
      ensures ok && fd != INVALID ==> files[i].name == old(files)[i].name && files[i].fd == fd && fd in open
      ensures AnswerFound(old(St()), St(), i, true, errors, now, o, max == 0, ok, fd, i)
    {
      assert Fits(files[i]);
      Touch(i);
      ghost var s := St();
      ok, fd := files[i].err == 0, files[i].fd;
      Hit(i, now);
      assert Owns(St(), i) && Fits(files[i]);
      AnswerHit(old(St()), s, St(), i, errors, now, o, max == 0);
    }

    /** The entry has to be examined again. */
    method Reopen(i: nat, errors: bool, now: int, o: Outcome) returns (ok: bool, fd: int, id: nat)
      requires Valid() && i < |files| && files[i].status.InCache? && (o.Opened? ==> o.fd !in open) && (o.Same? ==> files[i].fd != INVALID)
      modifies this
      ensures Plausible(old(files)[i], o) <==> Valid()
      ensures Valid() ==> Stable(old(St()), St()) && Given(old(files), files, if ok && fd != INVALID then id else -1)
      ensures Valid() && ok && fd != INVALID ==> id < |files| && files[id].name == old(files)[i].name && files[id].fd == fd && fd in open
      ensures AnswerFound(old(St()), St(), i, false, errors, now, o, max == 0, ok, fd, id)
    {
      if o.Failed? && (o.err == 0 || !errors) {
        Forget(i, errors, now, o);
        id, fd, ok := i, INVALID, false;
      } else {
        ok, fd, id := Reexamine(i, errors, now, o);
      }
    }

    /** The file cannot be opened: its name leaves the cache. */
    method Forget(i: nat, errors: bool, now: int, ghost o: Outcome)
      requires Valid() && i < |files| && files[i].status.InCache? && Fatal(o, errors)
      modifies this
      ensures Valid() && Stable(old(St()), St()) && Given(old(files), files, -1)
      ensures AnswerFound(old(St()), St(), i, false, errors, now, o, max == 0, false, INVALID, i)
    {
      Touch(i);
      TakeOut(i);
    }

    /** The entry is examined, and the outcome is remembered. */
    method Reexamine(i: nat, errors: bool, now: int, o: Outcome) returns (ok: bool, fd: int, id: nat)
      requires Valid() && i < |files| && files[i].status.InCache? && (o.Opened? ==> o.fd !in open) && (o.Same? ==> files[i].fd != INVALID)
      requires !Fatal(o, errors)
      modifies this
      ensures Plausible(old(files)[i], o) <==> Valid()
      ensures Valid() ==> Stable(old(St()), St()) && Given(old(files), files, if ok && fd != INVALID then id else -1)
      ensures Valid() && ok && fd != INVALID ==> id < |files| && files[id].name == old(files)[i].name && files[id].fd == fd && fd in open
      ensures AnswerFound(old(St()), St(), i, false, errors, now, o, max == 0, ok, fd, id)
    {
      Touch(i);
      ghost var s := St();
      var f := files[i];
      id := Retest(i, o, now);
      AnswerRetest(old(St()), s, St(), i, errors, now, o, max == 0, id);
      fd, ok := Examined(o, f.fd, f.uniq).fd, !o.Failed?;
      if Plausible(f, o) { assert Owns(St(), id); }
    }

    /** ngx_open_file_cleanup, when a handle is released. */
    method Release(i: nat, minUses: nat, now: int)
      requires Valid() && i < |files| && files[i].handles > 0
      modifies this
      ensures Valid() && Stable(old(St()), St()) && |files| == |old(files)|
      ensures forall j :: 0 <= j < |files| ==> files[j].handles == old(files)[j].handles - if j == i then 1 else 0
      ensures exists s :: LetGo(old(St()), s, i, minUses, now) && Trimmed(s, St()) && OnlyIdle(s, St(), 2, false, inactive, now)
    {
      CloseCached(i, minUses, now);
      ghost var s := St();
      Expire(1, now);
      assert LetGo(old(St()), s, i, minUses, now) && Trimmed(s, St());
    }

    /** ngx_close_cached_file, with one handle less: the last handle closes the descriptor if the entry is out of the
        tree, which then is freed, or was not used often enough. */
    method CloseCached(i: nat, minUses: nat, now: int)
      requires Valid() && i < |files| && files[i].handles > 0
      modifies this`files, this`queue, this`open
      ensures Valid() && Stable(old(St()), St()) && |files| == |old(files)|
      ensures LetGo(old(St()), St(), i, minUses, now)
    {
      ghost var s := St();
      assert Fits(files[i]) && Owns(s, i);
      var f := files[i].(count := files[i].count - 1, handles := files[i].handles - 1);
      if !f.close {
        f := f.(accessed := now);
        if f.uses < minUses && f.count == 0 {
          Close(f.fd);
          f := f.(fd := INVALID);
        }
      } else if f.count == 0 {
        Close(f.fd);
        f := f.(fd := INVALID, status := Freed);
      }
      files := files[i := f];
      Change(s, St(), i, f);
      if !f.close {
        MoveFirst(i);
      }
    }

    /** ngx_queue_remove and ngx_queue_insert_head */
    method MoveFirst(i: nat)
      requires Valid() && i < |files| && files[i].status.InCache?
      modifies this`queue
      ensures Valid() && queue == [i] + Without(old(queue), i)
    {
      WithoutOk(queue, i);
      ghost var s1 := St().(queue := Without(queue, i));
      PushQueue(s1, i);
      Requeued(St(), [i] + Without(queue, i));
      queue := [i] + Without(queue, i);
    }

    /** The file has changed and the entry has no handles: its descriptor is closed and the entry updated. */
    method Replace(i: nat, of: Info, now: int)
      requires Base(St()) && Queued(St(), i) && i < |files| && files[i].status.InCache? && files[i].count == 0
      requires files[i].fd != INVALID && (of.isNew ==> of.fd !in open && of.fd != INVALID)
      modifies this`files, this`queue, this`open
      ensures |files| == |old(files)| && files[i].name == old(files)[i].name && Told(files[i], of, now) && current == old(current)
      ensures Placed(old(St()), St(), i, false) && files[i].uses == old(files)[i].uses
      ensures old(Welcome(St(), Fresh(files[i].name), of)) ==>
                Inv(St()) && Stable(old(St()), St()) && Given(old(files), files, if Gives(of) then i else -1)
      ensures of.fd == old(files)[i].fd && !of.isNew ==> !Base(St())
    {
      ghost var s := St();
      assert Fits(files[i]) && Owns(s, i);
      Close(files[i].fd);
      files := files[i := files[i].(fd := INVALID)];
      Change(s, St(), i, files[i]);
      if Welcome(s, Fresh(files[i].name), of) { UpdateOk(St(), i, of, now); }
      if of.fd == s.files[i].fd && !of.isNew { Dangles(St(), i, of, now); }
      Update(i, of, now);
      PlacedOne(s, St(), i);
    }
  }

  /** No other entry of the tree has this one's name. */
  lemma NameGone(s: State, i: nat)
    requires Base(s) && i < |s.files| && s.files[i].status.InCache?
    ensures forall j :: 0 <= j < |s.files| && j != i && s.files[j].status.InCache? ==> s.files[j].name != s.files[i].name
  {
    forall j | 0 <= j < |s.files| && j != i && s.files[j].status.InCache? ensures s.files[j].name != s.files[i].name {
      if j < i { assert !SameName(s, j, i); } else { assert !SameName(s, i, j); }
    }
  }

  /** A descriptor that is not new belongs to an old entry, if to any. */
  lemma OtherOwner(s: State, i: nat, d: int)
    requires Base(s) && i + 1 == |s.files| && s.files[i].fd == INVALID && d != INVALID
    ensures d !in s.open || s.open[d] != i
  {
    if d in s.open { assert Owned(s, d); }
  }

  /** An empty queue means an empty tree. */
  lemma QueueSize(s: State)
    requires Inv(s)
    ensures s.queue == [] ==> s.current == 0
  {
    if s.current > 0 {
      var i := CountSome(s.files, Live);
      assert i in s.queue;
    }
  }

  // ---------------------------------------------------------------- how long an entry answers

  /** What a caller asks for, and when. */
  datatype Request = Request(valid: int, uniq: nat, errors: bool, now: int)

  /** Two calls for a name that was not in the cache, with nothing between them: as long as the first answer is valid, and
      for the same file, the second call repeats it whatever has become of the file; from then on it answers with what
      the file system says.  `asked` is false if the outcome makes no sense for the second call, as nothing is open. */
  method OpenTwice(c: Cache, name: Name, r1: Request, o1: Outcome, r2: Request, o2: Outcome)
      returns (ok1: bool, fd1: int, asked: bool, ok2: bool, fd2: int)
    requires c.Valid() && Entry(c.St(), name) == |c.files| && !o1.Same? && (o1.Opened? ==> o1.fd !in c.open) && !Fatal(o1, r1.errors)
    requires o2.Opened? ==> o2.fd !in c.open && (o1.Opened? ==> o1.fd != o2.fd)
    modifies c
    ensures ok1 == !o1.Failed? && fd1 == if o1.Opened? then o1.fd else INVALID
    ensures asked <==> (o2.Same? ==> o1.Opened? && !((r2.uniq == 0 || r2.uniq == o1.uniq) && r2.now - r1.now < r2.valid))
    ensures asked && (r2.uniq == 0 || (!o1.Failed? && r2.uniq == o1.uniq)) && r2.now - r1.now < r2.valid ==> ok2 == ok1 && fd2 == fd1
    ensures asked && (r2.now - r1.now >= r2.valid || (r2.uniq != 0 && !o1.Failed? && r2.uniq != o1.uniq)) ==>
              if Fatal(o2, r2.errors) then !ok2 && fd2 == INVALID
              else ok2 == !o2.Failed? && fd2 == match o2 case Opened(d, _) => d case Same(_) => fd1 case _ => INVALID
  {
    var id1, id2;
    ok1, fd1, id1 := c.Open(name, r1.valid, r1.uniq, r1.errors, r1.now, o1);
    NamedIs(c.St(), id1, name);
    ok2, fd2 := false, INVALID;
    asked := !o2.Same? || (c.files[id1].fd != INVALID && c.Stale(c.files[id1], r2.valid, r2.uniq, r2.now));
    if asked {
      ok2, fd2, id2 := c.Open(name, r2.valid, r2.uniq, r2.errors, r2.now, o2);
    }
  }

  lemma NamedIs(s: State, i: nat, name: Name)
    requires Base(s) && Named(s, i, name)
    ensures Entry(s, name) == i
  {
    NameGone(s, i);
  }
}
