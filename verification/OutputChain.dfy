/**
 ngx_output_chain for buffers in memory: input that may not be passed on as it is gets copied into a
 bounded number of temporary buffers, which are recycled once the output filter has sent them.

 The output filter is any consumer that takes bytes in order, as many and whenever it likes.
 */
module OutputChain {
  import opened Chains
  import opened Lists
  import opened ChainState
  import opened Routing

  datatype Rc = OK | AGAIN | ERROR | DONE

  // ---------------------------------------------------------------- the whole account

  /** The chains, the chain `more` with the output filter and not yet busy, and the histories. */
  datatype Account = Account(st: State, more: seq<nat>, made: nat, num: nat, failed: bool,
                             sent: seq<Unit>, passed: seq<Unit>, supplied: seq<Unit>,
                             needTemp: bool, told: map<nat, Buf>, plain: seq<nat>, handed: seq<nat>)

  ghost function Book(a: Account): Ledger {
    Ledger(a.sent, PendingBytes(a.st), a.passed, OutBytes(a.st), InBytes(a.st), a.supplied)
  }

  ghost function Ways(a: Account): Route {
    Route(a.st.table, a.needTemp, a.made, a.told, a.plain, a.handed, a.st.out, a.st.inq)
  }

  ghost predicate Linked(a: Account) {
    && Chained(a.st) && (a.failed || Kept(a.st, a.more)) && a.made == OwnCount(a.st.table) <= a.num && AllProper(a.st.table)
    && Distinct(a.more) && Apart(a.more, a.st.busy) && Lie(a.st.place, a.more, Gone)
  }

  /** Everything supplied has been passed on or is still in ctx->in, everything passed on has been sent or waits
      unchanged, only what must be copied is copied, at most bufs.num buffers were allocated and none is lost. */
  ghost predicate Whole(a: Account) {
    Linked(a) && Booked(Book(a)) && Tracked(Ways(a))
  }

  /** `Whole`, said of everything equal to a so that a proof unfolds it only where it names it. */
  ghost predicate Steady(a: Account) {
    forall b {:trigger Whole(b)} :: b == a ==> Whole(b)
  }

  lemma StartSteady(num: nat, needTemp: bool)
    ensures Steady(Account(State([], [], [], [], [], [], []), [], 0, num, false, [], [], [], needTemp, map[], [], []))
  {
    StartBooked();
    StartTracked(needTemp);
    var a := Account(State([], [], [], [], [], [], []), [], 0, num, false, [], [], [], needTemp, map[], [], []);
    assert Linked(a);
    assert Whole(a);
  }

  /** What may be relied on about a buffer of the table. */
  lemma Sound(a: Account, i: nat)
    requires Steady(a) && i < |a.st.table|
    ensures BufOk(a.st.table[i]) && Proper(a.st.table[i])
  {
    assert Whole(a);
  }

  /** The heads of the chains are in the table. */
  lemma Heads(a: Account)
    requires Steady(a)
    ensures a.st.inq != [] ==> a.st.inq[0] < |a.st.table| == |a.st.place| && !a.st.table[a.st.inq[0]].own && a.st.inq[0] in a.told
    ensures a.st.pending != [] ==> a.st.pending[0] < |a.st.table|
    ensures a.st.busy != [] ==> a.st.busy[0] < |a.st.table| == |a.st.place|
    ensures a.st.free != [] ==> a.st.free[0] < |a.st.table| == |a.st.place|
  {
    assert Whole(a);
    assert Kinded(Ways(a));
    assert a.st.inq != [] ==> a.st.inq[0] in a.st.inq;
    assert a.st.pending != [] ==> a.st.pending[0] in a.st.pending;
    assert a.st.busy != [] ==> a.st.busy[0] in a.st.busy;
    assert a.st.free != [] ==> a.st.free[0] in a.st.free;
  }

  lemma Lengths(a: Account)
    requires Steady(a)
    ensures |a.passed| + |OutBytes(a.st)| + |InBytes(a.st)| == |a.supplied| && a.made <= a.num
  {
    assert Whole(a);
    BookedLength(Book(a));
  }

  /** A buffer in hand is one of ours, and empty. */
  lemma InHand(a: Account, d: nat)
    requires Steady(a) && d < |a.st.table| == |a.st.place| && a.st.place[d].Hand?
    ensures var b := a.st.table[d]; |b.data| >= 1 && b.pos == 0 && b.kind.Temporary?
    ensures a.st.inq != [] ==> a.st.inq[0] != d
  {
    assert Whole(a);
    assert a.st.inq != [] ==> a.st.inq[0] in a.st.inq;
  }

  /** An empty input buffer is dropped. */
  lemma DropSteady(a: Account, a': Account)
    requires Steady(a) && a.more == [] && a.st.inq != [] && a.st.inq[0] < |a.st.table| == |a.st.place|
    requires var b := a.st.table[a.st.inq[0]]; Size(b) == 0 && !b.kind.Special?
    requires a' == a.(st := a.st.(inq := a.st.inq[1..], place := a.st.place[a.st.inq[0] := Gone]))
    ensures Steady(a') && InBytes(a'.st) == InBytes(a.st)
  {
    assert Whole(a);
    DropInput(a.st, a'.st);
    DropTracked(Ways(a), Ways(a'));
    assert Whole(a');
  }

  /** An input buffer is passed on as it is. */
  lemma MoveSteady(a: Account, a': Account)
    requires Steady(a) && a.more == [] && a.st.inq != [] && a.st.inq[0] < |a.st.table| == |a.st.place|
    requires !(a.needTemp && a.st.table[a.st.inq[0]].kind.Memory?)
    requires a' == a.(st := a.st.(inq := a.st.inq[1..], out := a.st.out + [a.st.inq[0]], place := a.st.place[a.st.inq[0] := Out]))
    ensures Steady(a') && |InBytes(a'.st)| <= |InBytes(a.st)|
  {
    assert Whole(a);
    MoveInput(a.st, a'.st);
    BookMove(Book(a), Book(a'));
    MoveTracked(Ways(a), Ways(a'));
    assert Whole(a');
    ChainedWithin(a.st);
    BytesHead(a.st.table, a.st.inq);
  }

  /** Some or all of the first input buffer is copied to d. */
  lemma CopySteady(a: Account, a': Account, d: nat, b: Buf, bytes: seq<Unit>)
    requires Steady(a) && a.more == [] && d < |a.st.table| == |a.st.place| && a.st.place[d].Hand? && 0 < |bytes| <= |a.st.table[d].data|
    requires a.st.inq != [] && a.st.inq[0] < |a.st.table| && b == a.st.table[a.st.inq[0]] && |bytes| <= Size(b)
    requires b.pos + |bytes| <= |b.data| && bytes == b.data[b.pos..b.pos + |bytes|] && a.needTemp && b.kind.Memory?
    requires var t := a.st.table[d := Filled(a.st.table[d], bytes)];
             a' == a.(st := a.st.(table := t[a.st.inq[0] := b.(pos := b.pos + |bytes|)], place := a.st.place[d := Out], out := a.st.out + [d]))
    ensures Steady(a') && |InBytes(a'.st)| < |InBytes(a.st)|
  {
    assert Whole(a);
    CopyLinked(a, a', d, b, bytes);
    BookMove(Book(a), Book(a'));
    CopyRoute(a, a', d, b, bytes);
    assert Whole(a');
  }

  lemma CopyLinked(a: Account, a': Account, d: nat, b: Buf, bytes: seq<Unit>)
    requires Linked(a) && a.more == [] && d < |a.st.table| == |a.st.place| && a.st.place[d].Hand? && 0 < |bytes| <= |a.st.table[d].data|
    requires a.st.inq != [] && a.st.inq[0] < |a.st.table| && b == a.st.table[a.st.inq[0]] && |bytes| <= Size(b)
    requires b.pos + |bytes| <= |b.data| && bytes == b.data[b.pos..b.pos + |bytes|]
    requires var t := a.st.table[d := Filled(a.st.table[d], bytes)];
             a' == a.(st := a.st.(table := t[a.st.inq[0] := b.(pos := b.pos + |bytes|)], place := a.st.place[d := Out], out := a.st.out + [d]))
    ensures Linked(a') && PendingBytes(a'.st) == PendingBytes(a.st)
    ensures OutBytes(a'.st) + InBytes(a'.st) == OutBytes(a.st) + InBytes(a.st) && |InBytes(a'.st)| < |InBytes(a.st)|
  {
    var s := a.st;
    Copied(s, s.(table := s.table[d := Filled(s.table[d], bytes)], place := s.place[d := Out], out := s.out + [d]), a'.st, d, b, bytes);
    ProperCopy(s, d, b, bytes);
  }

  lemma CopyRoute(a: Account, a': Account, d: nat, b: Buf, bytes: seq<Unit>)
    requires Linked(a) && Tracked(Ways(a)) && d < |a.st.table| == |a.st.place| && a.st.place[d].Hand? && |bytes| <= |a.st.table[d].data|
    requires a.st.inq != [] && a.st.inq[0] < |a.st.table| && b == a.st.table[a.st.inq[0]] && a.needTemp && b.kind.Memory?
    requires var t := a.st.table[d := Filled(a.st.table[d], bytes)];
             a' == a.(st := a.st.(table := t[a.st.inq[0] := b.(pos := b.pos + |bytes|)], place := a.st.place[d := Out], out := a.st.out + [d]))
    ensures Tracked(Ways(a'))
  {
    assert a.st.inq[0] in a.st.inq;
    CopyTracked(Ways(a), Ways(a'), d, |bytes|, bytes);
  }

  /** The first free buffer is taken in hand. */
  lemma TakeSteady(a: Account, a': Account)
    requires Steady(a) && a.more == [] && a.st.free != [] && a.st.free[0] < |a.st.place|
    requires a' == a.(st := a.st.(free := a.st.free[1..], place := a.st.place[a.st.free[0] := Hand]))
    ensures Steady(a') && InBytes(a'.st) == InBytes(a.st)
  {
    assert Whole(a);
    TakeFree(a.st, a'.st);
    assert Whole(a');
  }

  /** A new buffer in hand. */
  lemma NewSteady(a: Account, a': Account, b: Buf)
    requires Steady(a) && a.more == [] && BufOk(b) && Proper(b) && b.own && b.pos == 0 && b.last == 0 && a.made < a.num && a.needTemp
    requires a' == a.(st := a.st.(table := a.st.table + [b], place := a.st.place + [Hand]), made := a.made + 1)
    ensures Steady(a') && InBytes(a'.st) == InBytes(a.st) && |a'.st.place| == |a'.st.table|
  {
    assert Whole(a);
    NewBuf(a.st, a'.st, b);
    ProperMore(a.st.table, b);
    NewTracked(Ways(a), Ways(a'), b);
    assert Whole(a');
  }

  /** The consumer takes its first buffer. */
  lemma SendSteady(a: Account, a': Account, b: Buf)
    requires Steady(a) && a.st.pending != [] && a.st.pending[0] < |a.st.table| && b == a.st.table[a.st.pending[0]] && b.pos <= b.last <= |b.data|
    requires a' == a.(st := a.st.(table := a.st.table[a.st.pending[0] := b.(pos := b.last)], pending := a.st.pending[1..]),
                      sent := a.sent + b.data[b.pos..b.last])
    ensures Steady(a')
  {
    assert Whole(a);
    SendLinked(a, a', b);
    BookSend(Book(a), Book(a'), b.data[b.pos..b.last]);
    SentRoute(a, a', b, b.last);
    assert Whole(a');
  }

  lemma SendLinked(a: Account, a': Account, b: Buf)
    requires Linked(a) && a.st.pending != [] && a.st.pending[0] < |a.st.table| && b == a.st.table[a.st.pending[0]] && b.pos <= b.last <= |b.data|
    requires a' == a.(st := a.st.(table := a.st.table[a.st.pending[0] := b.(pos := b.last)], pending := a.st.pending[1..]), sent := a'.sent)
    ensures Linked(a') && InBytes(a'.st) == InBytes(a.st) && OutBytes(a'.st) == OutBytes(a.st)
    ensures PendingBytes(a.st) == b.data[b.pos..b.last] + PendingBytes(a'.st)
  {
    SendAll(a.st, a'.st, a.more);
    ProperPos(a.st.table, a.st.pending[0], b.last, b.last);
  }

  /** The consumer sends n bytes of its first buffer. */
  lemma PartSteady(a: Account, a': Account, b: Buf, n: nat)
    requires Steady(a) && a.st.pending != [] && a.st.pending[0] < |a.st.table| && b == a.st.table[a.st.pending[0]] && n < Size(b) && b.last <= |b.data|
    requires a' == a.(st := a.st.(table := a.st.table[a.st.pending[0] := b.(pos := b.pos + n)]), sent := a.sent + b.data[b.pos..b.pos + n])
    ensures Steady(a')
  {
    assert Whole(a);
    PartLinked(a, a', b, n);
    BookSend(Book(a), Book(a'), b.data[b.pos..b.pos + n]);
    SentRoute(a, a', b, b.pos + n);
    assert Whole(a');
  }

  lemma PartLinked(a: Account, a': Account, b: Buf, n: nat)
    requires Linked(a) && a.st.pending != [] && a.st.pending[0] < |a.st.table| && b == a.st.table[a.st.pending[0]] && n < Size(b) && b.last <= |b.data|
    requires a' == a.(st := a.st.(table := a.st.table[a.st.pending[0] := b.(pos := b.pos + n)]), sent := a'.sent)
    ensures Linked(a') && InBytes(a'.st) == InBytes(a.st) && OutBytes(a'.st) == OutBytes(a.st)
    ensures PendingBytes(a.st) == b.data[b.pos..b.pos + n] + PendingBytes(a'.st)
  {
    SendPart(a.st, a'.st, n, a.more);
    ProperPos(a.st.table, a.st.pending[0], b.pos + n, b.last);
  }

  lemma SentRoute(a: Account, a': Account, b: Buf, pos: nat)
    requires Linked(a) && Tracked(Ways(a)) && a.st.pending != [] && a.st.pending[0] < |a.st.table| && b == a.st.table[a.st.pending[0]]
    requires Ways(a') == Ways(a).(table := a.st.table[a.st.pending[0] := b.(pos := pos)])
    ensures Tracked(Ways(a'))
  {
    var i := a.st.pending[0];
    assert i in a.st.pending;
    GoneOutside(a.st, i);
    SetTracked(Ways(a), Ways(a'), i, b.(pos := pos));
  }

  /** The consumer takes a chain over. */
  lemma HandSteady(a: Account, a': Account)
    requires Steady(a) && a.more == []
    requires a' == a.(st := a.st.(pending := a.st.pending + a.st.out, out := [], place := Marked(a.st.place, a.st.out)), more := a.st.out,
                      passed := a.passed + OutBytes(a.st), handed := a.handed + a.st.out)
    ensures Steady(a')
  {
    assert Whole(a);
    HandOver(a.st, a'.st);
    BookHand(Book(a), Book(a'));
    HandTracked(Ways(a), Ways(a'));
    assert Whole(a');
  }

  /** The chain handed over joins the busy chain. */
  lemma JoinSteady(a: Account, a': Account)
    requires Steady(a) && a' == a.(st := a.st.(busy := a.st.busy + a.more), more := [])
    ensures Steady(a')
  {
    assert Whole(a);
    JoinBusy(a.st, a'.st, a.more);
    assert Whole(a');
  }

  /** The first busy buffer is not ours. */
  lemma ForgetSteady(a: Account, a': Account)
    requires Steady(a) && a.more == [] && a.st.busy != [] && a.st.busy[0] < |a.st.table| && !a.st.table[a.st.busy[0]].own
    requires a' == a.(st := a.st.(busy := a.st.busy[1..]))
    ensures Steady(a')
  {
    assert Whole(a);
    Forget(a.st, a'.st);
    assert Whole(a');
  }

  /** The first busy buffer is ours and becomes free. */
  lemma RecycleSteady(a: Account, a': Account, b: Buf)
    requires Steady(a) && a.more == [] && a.st.busy != [] && a.st.busy[0] < |a.st.table| == |a.st.place|
    requires b == a.st.table[a.st.busy[0]] && b.own && Size(b) == 0
    requires var i := a.st.busy[0];
             a' == a.(st := a.st.(table := a.st.table[i := b.(pos := 0, last := 0)], place := a.st.place[i := Free],
                                  busy := a.st.busy[1..], free := [i] + a.st.free))
    ensures Steady(a')
  {
    assert Whole(a);
    var i := a.st.busy[0];
    assert i in a.st.busy;
    Recycle(a.st, a'.st);
    ProperPos(a.st.table, i, 0, 0);
    SetTracked(Ways(a), Ways(a'), i, a'.st.table[i]);
    assert Whole(a');
  }

  /** A buffer joins the input. */
  lemma AddSteady(a: Account, a': Account, b: Buf)
    requires Steady(a) && a.more == [] && Incoming(b)
    requires var n := |a.st.table|;
             a' == a.(st := a.st.(table := a.st.table + [b], place := a.st.place + [In], inq := a.st.inq + [n]),
                      supplied := a.supplied + Live(b), told := a.told[n := b], plain := a.plain + PlainOne(a.needTemp, b, n))
    ensures Steady(a')
  {
    assert Whole(a);
    NewInput(a.st, a'.st, b);
    ProperMore(a.st.table, b);
    BookSupply(Book(a), Book(a'), Live(b));
    AddTracked(Ways(a), b);
    assert Whole(a');
  }

  /** A chain of buffers that were supplied need not be kept. */
  lemma PassSteady(a: Account)
    requires Steady(a) && forall x :: x in a.more ==> x in a.told
    ensures Steady(a.(more := []))
  {
    assert Whole(a);
    ToldNotOurs(Ways(a));
    if !a.failed { NotOurs(a.st, a.more); }
    assert Whole(a.(more := []));
  }

  /** After an error nothing is recycled. */
  lemma FailSteady(a: Account)
    requires Steady(a)
    ensures Steady(a.(more := [], failed := true))
  {
    assert Whole(a);
    assert Whole(a.(more := [], failed := true));
  }

  /** What holds between calls, written out: bytes and marks in order; no read-only buffer handed over where buffers must
      be temporary, none allocated where they need not be; and what needs no copy handed over itself, in order. */
  lemma Promise(a: Account)
    requires Steady(a) && a.st.out == []
    ensures a.sent + PendingBytes(a.st) + InBytes(a.st) == a.supplied && a.sent + PendingBytes(a.st) == a.passed
    ensures forall x :: x in a.handed ==> x < |a.st.table| && !(a.needTemp && a.st.table[x].kind.Memory?)
    ensures !a.needTemp ==> a.made == 0
    ensures Only(a.handed + a.st.inq, a.plain) == a.plain
    ensures forall x :: x in a.told ==> x < |a.st.table| && a.st.table[x] == a.told[x].(pos := a.st.table[x].pos)
  {
    assert Whole(a);
    assert Balanced(Book(a));
    EmptyOut(a.st);
    assert [] + InBytes(a.st) == InBytes(a.st);
    Delivered(Ways(a));
  }

  // ---------------------------------------------------------------- the context

  class Context {
    const num: nat          // bufs.num
    const size: nat         // bufs.size
    const needTemp: bool    // need_in_temp
    var table: seq<Buf>
    var inq: seq<nat>       // ctx->in
    var busy: seq<nat>
    var free: seq<nat>
    var made: nat           // ctx->allocated
    var pending: seq<nat>   // what the consumer has not sent yet
    ghost var place: seq<Place>
    ghost var supplied: seq<Unit>
    ghost var passed: seq<Unit>
    ghost var sent: seq<Unit>
    ghost var told: map<nat, Buf>  // the buffers supplied, as they came
    ghost var plain: seq<nat>      // those of them that carry something and may be handed over as they are
    ghost var handed: seq<nat>     // the buffers handed to the output filter
    ghost var answer: Rc           // what the output filter has returned last
    ghost var failed: bool         // the output filter has reported an error

    ghost function St(out: seq<nat>): State
      reads this`table, this`place, this`inq, this`pending, this`busy, this`free
    {
      State(table, place, inq, out, pending, busy, free)
    }

    /** `out` is the chain under construction, `more` the one with the output filter. */
    ghost function Acc(out: seq<nat>, more: seq<nat>): Account
      reads this
    {
      Account(St(out), more, made, num, failed, sent, passed, supplied, needTemp, told, plain, handed)
    }

    ghost predicate Holds(out: seq<nat>, more: seq<nat>)
      reads this
    {
      size >= 1 && Steady(Acc(out, more))
    }

    ghost predicate Valid()
      reads this
    {
      Holds([], [])
    }

    /** The next input has to be copied and all bufs.num buffers are on their way. */
    ghost predicate Stuck()
      reads this
    {
      inq != [] && inq[0] < |table| && needTemp && table[inq[0]].kind.Memory? && Size(table[inq[0]]) > 0 && free == [] && made == num
    }

    constructor (num: nat, size: nat, needTemp: bool)
      requires size >= 1
      ensures Valid() && supplied == [] && told == map[] && plain == [] && !failed
      ensures this.num == num && this.size == size && this.needTemp == needTemp
    {
      this.num, this.size, this.needTemp := num, size, needTemp;
      table, inq, busy, free, pending, made, place := [], [], [], [], [], 0, [];
      supplied, passed, sent, told, plain, handed, failed := [], [], [], map[], [], [], false;
      StartSteady(num, needTemp);
    }

    /** ngx_output_chain_as_is */
    predicate AsIs(b: Buf) {
      !(needTemp && b.kind.Memory?)
    }

    /** ngx_output_chain_get_buf: the size of a new buffer. */
    function NewSize(b: Buf): nat
      requires Size(b) > 0
    {
      if b.lastInChain && (Size(b) < size || (num == 1 && Size(b) < size + size / 4)) then Size(b) else size
    }

    /** ngx_output_chain_copy_buf: as much of the first input buffer as fits into d. */
    method CopyBuf(d: nat, out: seq<nat>) returns (out': seq<nat>)
      requires Holds(out, []) && d < |table| == |place| && place[d].Hand? && inq != [] && inq[0] < |table| && Size(table[inq[0]]) > 0
      requires needTemp && table[inq[0]].kind.Memory?
      modifies this`table, this`place
      ensures Holds(out', []) && out' == out + [d] && |table| == |old(table)| && table[inq[0]].kind.Memory?
      ensures Size(table[inq[0]]) == 0 || Size(table[d]) == |table[d].data|
      ensures |InBytes(St(out'))| < |old(InBytes(St(out)))|
    {
      ghost var a := Acc(out, []);
      Sound(a, inq[0]);
      InHand(a, d);
      var src, dst := table[inq[0]], table[d];
      var n := if Size(src) <= |dst.data| then Size(src) else |dst.data|;
      var bytes := src.data[src.pos..src.pos + n];
      table, place := table[d := Filled(dst, bytes)][inq[0] := src.(pos := src.pos + n)], place[d := Out];
      out' := out + [d];
      CopySteady(a, Acc(out', []), d, src, bytes);
    }

    /** The first free buffer. */
    method TakeFreeBuf(out: seq<nat>) returns (d: nat)
      requires Holds(out, []) && free != []
      modifies this`place, this`free
      ensures Holds(out, []) && InBytes(St(out)) == old(InBytes(St(out))) && d < |table| == |place| && place[d].Hand?
    {
      ghost var a := Acc(out, []);
      Heads(a);
      d := free[0];
      place, free := place[d := Hand], free[1..];
      TakeSteady(a, Acc(out, []));
    }

    /** ngx_output_chain_get_buf */
    method GetBuf(out: seq<nat>) returns (d: nat)
      requires Holds(out, []) && needTemp && made < num && inq != [] && inq[0] < |table| && Size(table[inq[0]]) > 0
      modifies this`table, this`place, this`made
      ensures Holds(out, []) && InBytes(St(out)) == old(InBytes(St(out))) && d < |table| == |place| && place[d].Hand?
      ensures |table| == |old(table)| + 1 && table[..|old(table)|] == old(table) && d == |old(table)| && made == old(made) + 1 && !table[d].lastInChain
      ensures var b := table[inq[0]];
              if b.lastInChain && num == 1 && size <= Size(b) < size + size / 4 then |table[d].data| == Size(b)
              else |table[d].data| <= size && (|table[d].data| < size <==> b.lastInChain && Size(b) < size) && (|table[d].data| < size ==> |table[d].data| == Size(b))
    {
      ghost var a := Acc(out, []);
      d := |table|;
      var b := Buf(Temporary, true, seq(NewSize(table[inq[0]]), _ => Octet(0)), 0, 0, false);
      table, place, made := table + [b], place + [Hand], made + 1;
      NewSteady(a, Acc(out, []), b);
    }

    /** The first input buffer is empty. */
    method DropFirst(out: seq<nat>)
      requires Holds(out, []) && inq != [] && inq[0] < |table| && Size(table[inq[0]]) == 0 && !table[inq[0]].kind.Special?
      modifies this`place, this`inq
      ensures Holds(out, []) && inq == old(inq)[1..] && InBytes(St(out)) == old(InBytes(St(out)))
    {
      ghost var a := Acc(out, []);
      Heads(a);
      place, inq := place[inq[0] := Gone], inq[1..];
      DropSteady(a, Acc(out, []));
    }

    /** The first input buffer is passed on as it is. */
    method MoveFirst(out: seq<nat>) returns (out': seq<nat>)
      requires Holds(out, []) && inq != [] && inq[0] < |table| && !(needTemp && table[inq[0]].kind.Memory?)
      modifies this`place, this`inq
      ensures Holds(out', []) && out' == out + [old(inq)[0]] && inq == old(inq)[1..]
      ensures |InBytes(St(out'))| <= |old(InBytes(St(out)))|
    {
      ghost var a := Acc(out, []);
      Heads(a);
      out', place, inq := out + [inq[0]], place[inq[0] := Out], inq[1..];
      MoveSteady(a, Acc(out', []));
    }

    /** The first input buffer is copied, if there is a buffer to copy it to. */
    method CopyFirst(out: seq<nat>) returns (out': seq<nat>, stop: bool)
      requires Holds(out, []) && inq != [] && inq[0] < |table| && Size(table[inq[0]]) > 0 && needTemp && table[inq[0]].kind.Memory?
      modifies this`table, this`place, this`inq, this`free, this`made
      ensures Holds(out', [])
      ensures stop ==> out' == out && inq == old(inq) && table == old(table) && free == [] && (out == [] ==> made == num)
      ensures !stop ==> |InBytes(St(out'))| < |old(InBytes(St(out)))| && |inq| <= |old(inq)|
    {
      var d;
      Lengths(Acc(out, []));
      if free != [] {
        d := TakeFreeBuf(out);
      } else if out != [] || made == num {
        return out, true;
      } else {
        d := GetBuf(out);
      }
      out' := CopyBuf(d, out);
      stop := false;
      if Size(table[inq[0]]) == 0 {
        DropFirst(out');
      }
    }

    /** The inner loop of ngx_output_chain: from ctx->in to the chain for the output filter. */
    method Fill() returns (out: seq<nat>)
      requires Valid()
      modifies this`table, this`place, this`inq, this`free, this`made
      ensures Holds(out, [])
      ensures |inq| <= |old(inq)| + |OutBytes(St(out))|
      ensures out != [] ==> |inq| < |old(inq)| + |OutBytes(St(out))|
      ensures inq != [] ==> inq[0] < |table| && needTemp && table[inq[0]].kind.Memory? && Size(table[inq[0]]) > 0 && free == []
      ensures inq != [] && out == [] ==> made == num
    {
      out := [];
      Lengths(Acc(out, []));
      while inq != []
        invariant Holds(out, [])
        invariant |InBytes(St(out))| + |inq| <= |old(InBytes(St([])))| + |old(inq)|
        invariant out != [] ==> |InBytes(St(out))| + |inq| < |old(InBytes(St([])))| + |old(inq)|
        decreases |InBytes(St(out))| + |inq|
      {
        Heads(Acc(out, []));
        Sound(Acc(out, []), inq[0]);
        var b := table[inq[0]];
        if Size(b) == 0 && !b.kind.Special? {
          DropFirst(out);
        } else if AsIs(b) {
          out := MoveFirst(out);
        } else {
          var stop;
          out, stop := CopyFirst(out);
          if stop {
            break;
          }
        }
      }
      Lengths(Acc(out, []));
    }

    /** The consumer is done with its first buffer. */
    method SendFirst(ghost more: seq<nat>)
      requires Holds([], more) && pending != [] && pending[0] < |table|
      modifies this`table, this`pending, this`sent
      ensures Holds([], more) && old(sent) <= sent && pending == old(pending)[1..]
      ensures Octets(sent) == Octets(old(sent)) + Size(old(table)[old(pending)[0]])
    {
      ghost var a := Acc([], more);
      Sound(a, pending[0]);
      var b := table[pending[0]];
      table, pending, sent := table[pending[0] := b.(pos := b.last)], pending[1..], sent + b.data[b.pos..b.last];
      SendSteady(a, Acc([], more), b);
      OctetsSent(a.sent, b, b.last - b.pos);
    }

    /** The consumer sends some bytes of its first buffer. */
    method SendSome(n: nat, ghost more: seq<nat>)
      requires Holds([], more) && pending != [] && pending[0] < |table| && n < Size(table[pending[0]])
      modifies this`table, this`sent
      ensures Holds([], more) && old(sent) <= sent && Octets(sent) == Octets(old(sent)) + n
      ensures |table| == |old(table)| && table[pending[0]].kind == old(table)[pending[0]].kind
    {
      ghost var a := Acc([], more);
      Sound(a, pending[0]);
      var b := table[pending[0]];
      table, sent := table[pending[0] := b.(pos := b.pos + n)], sent + b.data[b.pos..b.pos + n];
      PartSteady(a, Acc([], more), b, n);
      OctetsSent(a.sent, b, n);
    }

    /** What the output filter sends: ngx_chain_update_sent on the consumer's chain. */
    method UpdateSent(limit: nat, ghost more: seq<nat>)
      requires Holds([], more)
      modifies this`table, this`pending, this`sent
      ensures Holds([], more) && old(sent) <= sent
      ensures Octets(sent) <= Octets(old(sent)) + limit && (Octets(sent) < Octets(old(sent)) + limit ==> pending == [])
      ensures pending != [] ==> pending[0] < |table| && !table[pending[0]].kind.Special?
    {
      var left: nat := limit;
      while pending != []
        invariant Holds([], more) && old(sent) <= sent
        invariant Octets(sent) + left == Octets(old(sent)) + limit
        decreases |pending|
      {
        Heads(Acc([], more));
        Sound(Acc([], more), pending[0]);
        var b := table[pending[0]];
        if b.kind.Special? {
          SendFirst(more);
          continue;
        }
        if left == 0 {
          break;
        }
        if left >= Size(b) {
          left := left - Size(b);
          SendFirst(more);
        } else {
          SendSome(left, more);
          break;
        }
      }
    }

    /** The consumer takes a chain over. */
    method TakeOver(out: seq<nat>)
      requires Holds(out, [])
      modifies this`place, this`pending, this`passed, this`handed
      ensures Holds([], out) && passed == old(passed) + old(OutBytes(St(out))) && handed == old(handed) + out
    {
      ghost var a := Acc(out, []);
      pending, place := pending + out, Marked(place, out);
      passed, handed := passed + OutBytes(a.st), handed + out;
      HandSteady(a, Acc([], out));
    }

    /** The output filter: takes the chain over, sends as much as it likes and returns any code. */
    method OutputFilter(out: seq<nat>) returns (rc: Rc)
      requires Holds(out, [])
      modifies this`table, this`place, this`pending, this`passed, this`sent, this`handed, this`answer
      ensures rc == answer
      ensures Holds([], out) && passed == old(passed) + old(OutBytes(St(out))) && handed == old(handed) + out && old(sent) <= sent
    {
      TakeOver(out);
      var limit: nat := *;
      UpdateSent(limit, out);
      rc := *;
      answer := rc;
    }

    /** The first busy buffer is sent: ours becomes free. */
    method RecycleFirst()
      requires Valid() && busy != [] && busy[0] < |table| && Size(table[busy[0]]) == 0
      modifies this`table, this`place, this`busy, this`free
      ensures Valid() && busy == old(busy)[1..] && free == (if old(table)[old(busy)[0]].own then [old(busy)[0]] else []) + old(free)
    {
      ghost var a := Acc([], []);
      Heads(a);
      var i := busy[0];
      var b := table[i];
      busy := busy[1..];
      if b.own {
        table, place, free := table[i := b.(pos := 0, last := 0)], place[i := Free], [i] + free;
        RecycleSteady(a, Acc([], []), b);
      } else {
        ForgetSteady(a, Acc([], []));
      }
    }

    /** ngx_chain_update_chains */
    method UpdateChains(out: seq<nat>)
      requires Holds([], out)
      modifies this`table, this`place, this`busy, this`free
      ensures Valid()
      ensures busy != [] ==> busy[0] < |table| && Size(table[busy[0]]) != 0
    {
      ghost var a := Acc([], out);
      busy := busy + out;
      JoinSteady(a, Acc([], []));
      while busy != []
        invariant Valid()
        decreases |busy|
      {
        Heads(Acc([], []));
        if Size(table[busy[0]]) != 0 {
          break;
        }
        RecycleFirst();
      }
    }

    /** ngx_output_chain_add_copy: the buffers of the incoming chain join ctx->in. */
    method AddCopy(chain: seq<Buf>)
      requires Valid() && AllIncoming(chain)
      modifies this`table, this`place, this`inq, this`supplied, this`told, this`plain
      ensures Valid() && supplied == old(supplied) + AllBytes(chain)
      ensures told == old(told) + Numbered(chain, |old(table)|) && plain == old(plain) + Plain(needTemp, chain, |old(table)|)
      ensures chain == [] ==> inq == old(inq)
      ensures |chain| == 1 ==> inq == old(inq) + [|old(table)|] && table == old(table) + [chain[0]]
    {
      var k := 0;
      assert chain[..0] == [];
      while k < |chain|
        invariant k <= |chain| && Valid() && supplied == old(supplied) + AllBytes(chain[..k])
        invariant Arrived(old(Ways(Acc([], []))), Ways(Acc([], [])), chain[..k])
      {
        ghost var r := Ways(Acc([], []));
        AddOne(chain[k]);
        ArrivedMore(old(Ways(Acc([], []))), r, Ways(Acc([], [])), chain, k);
        AllBytesMore(chain, k);
        Shift(old(supplied), AllBytes(chain[..k]), Live(chain[k]));
        k := k + 1;
      }
      assert chain[..k] == chain;
      ArrivedFew(old(Ways(Acc([], []))), Ways(Acc([], [])), chain);
    }

    method AddOne(b: Buf)
      requires Valid() && Incoming(b)
      modifies this`table, this`place, this`inq, this`supplied, this`told, this`plain
      ensures Valid() && supplied == old(supplied) + Live(b) && Ways(Acc([], [])) == Joined(old(Ways(Acc([], []))), b)
    {
      ghost var a := Acc([], []);
      supplied, told, plain := supplied + Live(b), told[|table| := b], plain + PlainOne(needTemp, b, |table|);
      inq, table, place := inq + [|table|], table + [b], place + [In];
      AddSteady(a, Acc([], []), b);
    }

    /** The short path of ngx_output_chain: the output filter gets the incoming chain itself. */
    method PassOn(chain: seq<Buf>) returns (rc: Rc)
      requires Valid() && inq == [] && AllIncoming(chain) && |chain| <= 1 && (chain != [] ==> !(needTemp && chain[0].kind.Memory?))
      modifies this`table, this`place, this`inq, this`supplied, this`told, this`plain, this`pending, this`passed, this`sent, this`handed, this`answer
      ensures Valid() && supplied == old(supplied) + AllBytes(chain)
      ensures told == old(told) + Numbered(chain, |old(table)|) && plain == old(plain) + Plain(needTemp, chain, |old(table)|)
      ensures inq == [] && old(passed) <= passed && old(sent) <= sent && rc == answer
      ensures handed == old(handed) + if chain == [] then [] else [|old(table)|]
    {
      AddCopy(chain);
      rc := PassAll();
    }

    /** The only input buffer, if any, goes to the output filter. */
    method PassAll() returns (rc: Rc)
      requires Valid() && |inq| <= 1 && (inq != [] && inq[0] < |table| ==> !(needTemp && table[inq[0]].kind.Memory?))
      modifies this`table, this`place, this`inq, this`pending, this`passed, this`sent, this`handed, this`answer
      ensures rc == answer
      ensures Valid() && inq == [] && old(passed) <= passed && old(sent) <= sent && handed == old(handed) + old(inq)
    {
      var out: seq<nat> := [];
      Heads(Acc([], []));
      if inq != [] {
        out := MoveFirst(out);
      }
      assert out == old(inq);
      rc := OutputFilter(out);
      PassSteady(Acc([], out));
    }

    /** The output filter is called, and what it has sent is recycled. */
    method Emit(out: seq<nat>) returns (rc: Rc)
      requires Holds(out, []) && !failed
      modifies this`table, this`place, this`free, this`pending, this`passed, this`sent, this`busy, this`failed, this`handed, this`answer
      ensures Valid() && old(sent) <= sent && passed == old(passed) + old(OutBytes(St(out))) && handed == old(handed) + out
      ensures rc == answer && (failed <==> rc == ERROR || rc == DONE)
    {
      rc := OutputFilter(out);
      if rc == ERROR || rc == DONE {
        FailSteady(Acc([], out));
        failed := true;
      } else {
        UpdateChains(out);
      }
    }

    /** One round of the outer loop; `called`: the output filter has been called. */
    method Round(called: bool) returns (done: bool, rc: Rc)
      requires Valid() && !failed
      modifies this`table, this`place, this`inq, this`free, this`made, this`pending, this`passed, this`sent, this`busy, this`failed, this`handed, this`answer
      ensures Valid() && old(passed) <= passed && old(sent) <= sent && old(handed) <= handed
      ensures done ==> called && !failed && (inq != [] ==> Stuck()) && answer == old(answer)
      ensures !done ==> rc == answer && (failed <==> rc == ERROR || rc == DONE)
      ensures !done && !failed ==> |inq| - |passed| <= |old(inq)| - |old(passed)| - if called then 1 else 0
    {
      var out := Fill();
      done, rc := out == [] && called, OK;
      if !done {
        rc := Emit(out);
      }
    }

    /** The outer loop of ngx_output_chain. */
    method Pump() returns (rc: Rc)
      requires Valid() && !failed
      modifies this`table, this`place, this`inq, this`free, this`made, this`pending, this`passed, this`sent, this`busy, this`failed, this`handed, this`answer
      ensures Valid() && old(passed) <= passed && old(sent) <= sent && old(handed) <= handed
      ensures failed <==> answer == ERROR || answer == DONE
      ensures rc == (if inq != [] && !failed then AGAIN else answer) && (inq != [] && !failed ==> Stuck())
    {
      var last, called := OK, false;
      while true
        invariant Valid() && !failed && last != ERROR && last != DONE && (called ==> last == answer)
        invariant old(passed) <= passed && old(sent) <= sent && old(handed) <= handed
        decreases |supplied| - |passed| + |inq| + if called then 0 else 1
      {
        Lengths(Acc([], []));
        var done, next := Round(called);
        if done {
          return if inq != [] then AGAIN else last;
        }
        if next == ERROR || next == DONE {
          return next;
        }
        last, called := next, true;
        Lengths(Acc([], []));
      }
    }

    /** ngx_output_chain */
    method Output(chain: seq<Buf>) returns (rc: Rc)
      requires Valid() && !failed && AllIncoming(chain)
      modifies this
      ensures Valid() && supplied == old(supplied) + AllBytes(chain)
      ensures told == old(told) + Numbered(chain, |old(table)|) && plain == old(plain) + Plain(needTemp, chain, |old(table)|)
      ensures old(passed) <= passed && old(sent) <= sent && old(handed) <= handed
      ensures rc == (if inq != [] && !failed then AGAIN else answer) && (failed ==> answer == ERROR || answer == DONE)
      ensures inq != [] && !failed ==> Stuck()
      ensures old(inq) == [] && old(busy) == [] && (chain == [] || (|chain| == 1 && !(needTemp && chain[0].kind.Memory?)))
              ==> busy == [] && handed == old(handed) + if chain == [] then [] else [|old(table)|]
    {
      if inq == [] && busy == [] && (chain == [] || (|chain| == 1 && AsIs(chain[0]))) {
        rc := PassOn(chain);
      } else {
        AddCopy(chain);
        rc := Pump();
      }
    }
  }
}
