/**
 Where the buffers of an output chain are, step by step (ngx_output_chain.c, ngx_buf.c): in the input, in the chain
 under construction, with the consumer, busy or free.
 */
module ChainState {
  import opened Chains
  import opened Lists

  /** How many buffers of a table are recycled ones. */
  ghost function OwnCount(table: seq<Buf>): nat {
    if table == [] then 0 else OwnCount(table[..|table| - 1]) + if table[|table| - 1].own then 1 else 0
  }

  lemma {:induction false} OwnCountSet(table: seq<Buf>, i: nat, b: Buf)
    requires i < |table| && b.own == table[i].own
    ensures OwnCount(table[i := b]) == OwnCount(table)
  {
    var n := |table| - 1;
    if i == n {
      assert table[i := b][..n] == table[..n];
    } else {
      assert table[i := b][..n] == table[..n][i := b];
      OwnCountSet(table[..n], i, b);
    }
  }

  // ---------------------------------------------------------------- where a buffer is

  /** In ctx->in, in the output chain under construction, handed over, in ctx->free, or in hand. */
  datatype Place = In | Out | Gone | Free | Hand

  /** The chains of the context, the chain `out` under construction and the consumer's chain. */
  datatype State = State(table: seq<Buf>, place: seq<Place>, inq: seq<nat>, out: seq<nat>, pending: seq<nat>, busy: seq<nat>, free: seq<nat>)

  ghost predicate Lie(place: seq<Place>, chain: seq<nat>, p: Place) {
    forall x :: x in chain ==> x < |place| && place[x] == p
  }

  /** Input is not recycled; a recycled buffer has bytes in the output and none when it is free or fresh. */
  ghost predicate Fits(b: Buf, p: Place) {
    match p
    case In => !b.own
    case Out => b.own ==> Size(b) > 0
    case Gone => true
    case Free => b.own && b.pos == 0 && b.last == 0
    case Hand => b.own && b.pos == 0 && b.last == 0
  }

  ghost predicate Unsent(table: seq<Buf>, chain: seq<nat>) {
    forall x :: x in chain && x < |table| && table[x].own ==> Size(table[x]) > 0
  }

  /** A buffer is in one place, once, and a recycled one is free only when none of its bytes are unsent. */
  ghost predicate Chained(s: State) {
    && TableOk(s.table) && |s.place| == |s.table|
    && (forall x :: 0 <= x < |s.table| ==> Fits(s.table[x], s.place[x]))
    && Lie(s.place, s.inq, In) && Lie(s.place, s.out, Out) && Lie(s.place, s.pending, Gone) && Lie(s.place, s.busy, Gone) && Lie(s.place, s.free, Free)
    && Distinct(s.inq) && Distinct(s.out) && Distinct(s.pending) && Distinct(s.busy) && Distinct(s.free)
    && Unsent(s.table, s.pending)
  }

  lemma ChainedWithin(s: State)
    requires Chained(s)
    ensures Within(s.table, s.inq) && Within(s.table, s.out) && Within(s.table, s.pending)
  {
  }

  ghost function InBytes(s: State): seq<Unit>
  {
    if TableOk(s.table) && Within(s.table, s.inq) then Bytes(s.table, s.inq) else []
  }

  ghost function OutBytes(s: State): seq<Unit>
  {
    if TableOk(s.table) && Within(s.table, s.out) then Bytes(s.table, s.out) else []
  }

  ghost function PendingBytes(s: State): seq<Unit>
  {
    if TableOk(s.table) && Within(s.table, s.pending) then Bytes(s.table, s.pending) else []
  }

  lemma EmptyOut(s: State)
    requires s.out == []
    ensures OutBytes(s) == []
  {
  }

  // ---------------------------------------------------------------- single steps

  /** Buffer d moves to place p and becomes b; the chains stay, and so do their bytes. */
  lemma Change(s: State, s': State, d: nat, b: Buf, p: Place)
    requires Chained(s) && d < |s.table| && BufOk(b) && b.own == s.table[d].own && Fits(b, p)
    requires s' == s.(table := s.table[d := b], place := s.place[d := p])
    requires p == s.place[d] || s.place[d].Hand?
    requires s.place[d].Gone? ==> d !in s.pending
    ensures Chained(s') && OwnCount(s'.table) == OwnCount(s.table) && PendingBytes(s') == PendingBytes(s)
    ensures !s.place[d].Out? ==> OutBytes(s') == OutBytes(s)
    ensures !s.place[d].In? ==> InBytes(s') == InBytes(s)
  {
    OwnCountSet(s.table, d, b);
    BytesFrame(s.table, s'.table, s.pending);
    if !s.place[d].Out? { BytesFrame(s.table, s'.table, s.out); }
    if !s.place[d].In? { BytesFrame(s.table, s'.table, s.inq); }
  }

  /** No recycled buffer is lost: each is free, in the output, in hand, or on the busy chain or the chain `more`. */
  ghost predicate Kept(s: State, more: seq<nat>) {
    forall x :: 0 <= x < |s.table| && x < |s.place| && s.table[x].own ==> KeptAt(s, more, x)
  }

  ghost predicate KeptAt(s: State, more: seq<nat>, x: nat)
    requires x < |s.place|
  {
    match s.place[x]
    case In => false
    case Out => x in s.out
    case Gone => x in s.busy || x in more
    case Free => x in s.free
    case Hand => true
  }

  // input

  /** The first input buffer is empty and is dropped. */
  lemma DropInput(s: State, s': State)
    requires Chained(s) && s.inq != [] && s.inq[0] < |s.table| && Size(s.table[s.inq[0]]) == 0 && !s.table[s.inq[0]].kind.Special?
    requires s' == s.(inq := s.inq[1..], place := s.place[s.inq[0] := Gone])
    ensures Chained(s') && InBytes(s') == InBytes(s) && OutBytes(s') == OutBytes(s) && PendingBytes(s') == PendingBytes(s)
    ensures Kept(s, []) ==> Kept(s', [])
  {
    DistinctTail(s.inq);
    ChainedWithin(s);
    BytesHead(s.table, s.inq);
    if Kept(s, []) { KeepAll(s, s', s.inq[0]); }
  }

  /** One buffer, not recycled, has moved. */
  lemma KeepAll(s: State, s': State, i: nat)
    requires Kept(s, []) && i < |s.table| == |s.place| && !s.table[i].own
    requires s'.table == s.table && |s'.place| == |s.place| && (forall x :: 0 <= x < |s.place| && x != i ==> s'.place[x] == s.place[x])
    requires s'.busy == s.busy && s'.free == s.free && s.out <= s'.out
    ensures Kept(s', [])
  {
    forall x | 0 <= x < |s'.table| && x < |s'.place| && s'.table[x].own ensures KeptAt(s', [], x) {
      assert KeptAt(s, [], x);
      assert s'.out == s.out + s'.out[|s.out|..];
    }
  }

  /** The first input buffer is passed on as it is. */
  lemma MoveInput(s: State, s': State)
    requires Chained(s) && s.inq != [] && s.inq[0] < |s.table|
    requires s' == s.(inq := s.inq[1..], out := s.out + [s.inq[0]], place := s.place[s.inq[0] := Out])
    ensures Chained(s') && OutBytes(s') + InBytes(s') == OutBytes(s) + InBytes(s) && PendingBytes(s') == PendingBytes(s)
    ensures Kept(s, []) ==> Kept(s', [])
  {
    var i := s.inq[0];
    DistinctTail(s.inq);
    Append(s.out, i);
    assert Chained(s');
    ChainedWithin(s);
    BytesMove(s.table, s.out, s.inq);
    if Kept(s, []) { KeepAll(s, s', i); }
  }

  lemma Append(chain: seq<nat>, i: nat)
    requires Distinct(chain) && i !in chain
    ensures Distinct(chain + [i]) && forall x :: x in chain + [i] <==> x in chain || x == i
  {
    DistinctOne(i);
    assert forall x :: x in [i] <==> x == i;
    DistinctConcat(chain, [i]);
  }

  /** n bytes are taken from the first input buffer. */
  lemma TakeInput(s: State, s': State, b: Buf, bytes: seq<Unit>)
    requires Chained(s) && s.inq != [] && s.inq[0] < |s.table| && b == s.table[s.inq[0]] && |bytes| <= Size(b)
    requires b.pos + |bytes| <= |b.data| && bytes == b.data[b.pos..b.pos + |bytes|]
    requires s' == s.(table := s.table[s.inq[0] := b.(pos := b.pos + |bytes|)])
    ensures Chained(s') && OwnCount(s'.table) == OwnCount(s.table)
    ensures InBytes(s) == bytes + InBytes(s')
    ensures OutBytes(s') == OutBytes(s) && PendingBytes(s') == PendingBytes(s)
    ensures Kept(s, []) ==> Kept(s', [])
  {
    var i := s.inq[0];
    assert i in s.inq;
    TakenInput(s, s', |bytes|);
    assert s'.place == s.place[i := In];
    Change(s, s', i, s'.table[i], In);
    if Kept(s, []) { SameKept(s, s'); }
  }

  lemma TakenInput(s: State, s': State, n: nat)
    requires Chained(s) && s.inq != [] && s.inq[0] < |s.table| && n <= Size(s.table[s.inq[0]])
    requires var i := s.inq[0]; s' == s.(table := s.table[i := s.table[i].(pos := s.table[i].pos + n)])
    ensures var b := s.table[s.inq[0]]; b.pos + n <= b.last <= |b.data| && InBytes(s) == b.data[b.pos..b.pos + n] + InBytes(s')
  {
    ChainedWithin(s);
    BytesTaken(s.table, s.inq, n);
  }

  lemma SameKept(s: State, s': State)
    requires Kept(s, []) && |s'.table| == |s.table| && s'.place == s.place && s'.busy == s.busy && s'.free == s.free && s'.out == s.out
    requires forall x :: 0 <= x < |s.table| ==> s'.table[x].own == s.table[x].own
    ensures Kept(s', [])
  {
    forall x | 0 <= x < |s'.table| && x < |s'.place| && s'.table[x].own ensures KeptAt(s', [], x) {
      assert KeptAt(s, [], x);
    }
  }

  // output

  /** The buffer in hand is filled and joins the output. */
  lemma FillOutput(s: State, s': State, d: nat, bytes: seq<Unit>)
    requires Chained(s) && d < |s.table| && s.place[d].Hand? && 0 < |bytes| <= |s.table[d].data|
    requires s' == s.(table := s.table[d := Filled(s.table[d], bytes)], place := s.place[d := Out], out := s.out + [d])
    ensures Chained(s') && OwnCount(s'.table) == OwnCount(s.table)
    ensures OutBytes(s') == OutBytes(s) + bytes && InBytes(s') == InBytes(s) && PendingBytes(s') == PendingBytes(s)
    ensures Kept(s, []) ==> Kept(s', [])
  {
    var f := Filled(s.table[d], bytes);
    assert Live(f) == bytes;
    var s1 := s.(table := s.table[d := f], place := s.place[d := Out]);
    Change(s, s1, d, f, Out);
    Append(s.out, d);
    assert Chained(s');
    ChainedWithin(s1);
    BytesOne(s'.table, d);
    BytesConcat(s'.table, s.out, [d]);
    if Kept(s, []) {
      forall x | 0 <= x < |s'.table| && x < |s'.place| && s'.table[x].own ensures KeptAt(s', [], x) {
        assert KeptAt(s, [], x);
      }
    }
  }

  /** The first free buffer is taken in hand. */
  lemma TakeFree(s: State, s': State)
    requires Chained(s) && s.free != [] && s.free[0] < |s.place| && s' == s.(free := s.free[1..], place := s.place[s.free[0] := Hand])
    ensures Chained(s') && InBytes(s') == InBytes(s) && OutBytes(s') == OutBytes(s) && PendingBytes(s') == PendingBytes(s)
    ensures s.free[0] < |s.table| && s'.place[s.free[0]].Hand?
    ensures Kept(s, []) ==> Kept(s', [])
  {
    DistinctTail(s.free);
    if Kept(s, []) {
      forall x | 0 <= x < |s'.table| && x < |s'.place| && s'.table[x].own ensures KeptAt(s', [], x) {
        assert KeptAt(s, [], x);
      }
    }
  }

  /** A new buffer is taken in hand. */
  lemma NewBuf(s: State, s': State, b: Buf)
    requires Chained(s) && BufOk(b) && b.own && b.pos == 0 && b.last == 0
    requires s' == s.(table := s.table + [b], place := s.place + [Hand])
    ensures Chained(s') && OwnCount(s'.table) == OwnCount(s.table) + 1
    ensures InBytes(s') == InBytes(s) && OutBytes(s') == OutBytes(s) && PendingBytes(s') == PendingBytes(s)
    ensures Kept(s, []) ==> Kept(s', [])
  {
    assert s'.table[..|s.table|] == s.table;
    assert Chained(s');
    ChainedWithin(s);
    BytesFrame(s.table, s'.table, s.inq);
    BytesFrame(s.table, s'.table, s.out);
    BytesFrame(s.table, s'.table, s.pending);
    if Kept(s, []) {
      forall x | 0 <= x < |s'.table| && x < |s'.place| && s'.table[x].own ensures KeptAt(s', [], x) {
        if x < |s.table| { assert KeptAt(s, [], x); }
      }
    }
  }

  /** A new input buffer. */
  lemma NewInput(s: State, s': State, b: Buf)
    requires Chained(s) && BufOk(b) && !b.own
    requires s' == s.(table := s.table + [b], place := s.place + [In], inq := s.inq + [|s.table|])
    ensures Chained(s') && OwnCount(s'.table) == OwnCount(s.table)
    ensures InBytes(s') == InBytes(s) + Live(b) && OutBytes(s') == OutBytes(s) && PendingBytes(s') == PendingBytes(s)
    ensures Kept(s, []) ==> Kept(s', [])
  {
    var n := |s.table|;
    assert s'.table[..n] == s.table;
    Append(s.inq, n);
    assert Chained(s');
    ChainedWithin(s);
    BytesFrame(s.table, s'.table, s.inq);
    BytesFrame(s.table, s'.table, s.out);
    BytesFrame(s.table, s'.table, s.pending);
    BytesOne(s'.table, n);
    BytesConcat(s'.table, s.inq, [n]);
    if Kept(s, []) {
      forall x | 0 <= x < |s'.table| && x < |s'.place| && s'.table[x].own ensures KeptAt(s', [], x) {
        assert KeptAt(s, [], x);
      }
    }
  }

  /** Copying: the buffer in hand is filled from the first input buffer. */
  lemma Copied(s: State, s1: State, s': State, d: nat, b: Buf, bytes: seq<Unit>)
    requires Chained(s) && d < |s.table| && s.place[d].Hand? && 0 < |bytes| <= |s.table[d].data|
    requires s1 == s.(table := s.table[d := Filled(s.table[d], bytes)], place := s.place[d := Out], out := s.out + [d])
    requires s.inq != [] && s.inq[0] < |s.table| && |bytes| <= Size(s.table[s.inq[0]])
    requires b == s.table[s.inq[0]] && b.pos + |bytes| <= |b.data| && bytes == b.data[b.pos..b.pos + |bytes|]
    requires s' == s1.(table := s1.table[s.inq[0] := b.(pos := b.pos + |bytes|)])
    ensures Chained(s') && OwnCount(s'.table) == OwnCount(s.table) && PendingBytes(s') == PendingBytes(s)
    ensures OutBytes(s') + InBytes(s') == OutBytes(s) + InBytes(s) && |InBytes(s')| < |InBytes(s)|
    ensures Kept(s, []) ==> Kept(s', [])
  {
    var i := s.inq[0];
    assert i in s.inq && i != d;
    FillOutput(s, s1, d, bytes);
    assert s1.table[i] == b;
    TakeInput(s1, s', b, bytes);
    Shifted(OutBytes(s), OutBytes(s'), bytes, InBytes(s), InBytes(s'));
  }

  lemma Shifted(out: seq<Unit>, out': seq<Unit>, bytes: seq<Unit>, inq: seq<Unit>, inq': seq<Unit>)
    requires out' == out + bytes && inq == bytes + inq' && bytes != []
    ensures out' + inq' == out + inq && |inq'| < |inq|
  {
    Shift(out, bytes, inq');
  }

  lemma ProperPos(table: seq<Buf>, i: nat, pos: nat, last: nat)
    requires AllProper(table) && i < |table|
    ensures AllProper(table[i := table[i].(pos := pos, last := last)])
  {
    assert Proper(table[i]);
    ProperSet(table, i, table[i].(pos := pos, last := last));
  }

  lemma ProperCopy(s: State, d: nat, b: Buf, bytes: seq<Unit>)
    requires Chained(s) && AllProper(s.table) && d < |s.table| && s.place[d].Hand? && s.inq != [] && s.inq[0] < |s.table|
    requires b == s.table[s.inq[0]] && 0 < |bytes| <= Size(b) && |bytes| <= |s.table[d].data|
    requires b.pos + |bytes| <= |b.data| && bytes == b.data[b.pos..b.pos + |bytes|]
    ensures AllProper(s.table[d := Filled(s.table[d], bytes)][s.inq[0] := b.(pos := b.pos + |bytes|)])
  {
    var i := s.inq[0];
    assert i in s.inq && i != d;
    assert Proper(s.table[d]) && Proper(b);
    var f := Filled(s.table[d], bytes);
    ProperSet(s.table, d, f);
    ProperPos(s.table[d := f], i, b.pos + |bytes|, b.last);
  }

  /** A buffer as filters pass it on: a special one stands for one mark. */
  ghost predicate Incoming(b: Buf) {
    BufOk(b) && Proper(b) && !b.own && (b.kind.Special? ==> b.pos + 1 == b.last)
  }

  ghost predicate AllIncoming(chain: seq<Buf>) {
    forall k :: 0 <= k < |chain| ==> Incoming(chain[k])
  }

  /** What was handed over is not input. */
  lemma GoneOutside(s: State, i: nat)
    requires Chained(s) && i < |s.place| && s.place[i].Gone?
    ensures i !in s.inq
  {
  }

  // handing over, sending, recycling

  ghost function Marked(place: seq<Place>, chain: seq<nat>): (r: seq<Place>)
    ensures |r| == |place| && forall x :: 0 <= x < |place| ==> r[x] == if x in chain then Gone else place[x]
  {
    seq(|place|, x requires 0 <= x < |place| => if x in chain then Gone else place[x])
  }

  /** The output chain is handed to the consumer. */
  lemma HandOver(s: State, s': State)
    requires Chained(s) && s' == s.(pending := s.pending + s.out, out := [], place := Marked(s.place, s.out))
    ensures Chained(s') && PendingBytes(s') == PendingBytes(s) + OutBytes(s) && InBytes(s') == InBytes(s) && OutBytes(s') == []
    ensures Apart(s.out, s.busy) && Lie(s'.place, s.out, Gone)
    ensures Kept(s, []) ==> Kept(s', s.out)
  {
    DistinctConcat(s.pending, s.out);
    assert Chained(s');
    ChainedWithin(s);
    BytesConcat(s.table, s.pending, s.out);
    if Kept(s, []) {
      forall x | 0 <= x < |s'.table| && x < |s'.place| && s'.table[x].own ensures KeptAt(s', s.out, x) {
        assert KeptAt(s, [], x);
      }
    }
  }

  /** A buffer the consumer works on changes its position only. */
  lemma SendChained(s: State, i: nat, pos: nat, rest: seq<nat>)
    requires Chained(s) && i in s.pending && i < |s.table| && s.table[i].pos <= pos <= s.table[i].last
    requires Distinct(rest) && (forall x :: x in rest ==> x in s.pending) && (i in rest ==> pos < s.table[i].last)
    ensures Chained(s.(table := s.table[i := s.table[i].(pos := pos)], pending := rest))
  {
  }

  lemma SendFrame(s: State, s': State, i: nat)
    requires Chained(s) && Chained(s') && i in s.pending && i < |s.table| && s'.inq == s.inq && s'.out == s.out
    requires |s'.table| == |s.table| && (forall x :: 0 <= x < |s.table| && x != i ==> s'.table[x] == s.table[x])
    ensures InBytes(s') == InBytes(s) && OutBytes(s') == OutBytes(s)
  {
    ChainedWithin(s);
    BytesFrame(s.table, s'.table, s.inq);
    BytesFrame(s.table, s'.table, s.out);
  }

  /** The consumer takes n bytes of its first buffer, but not all of it. */
  lemma SendPart(s: State, s': State, n: nat, more: seq<nat>)
    requires Chained(s) && s.pending != [] && s.pending[0] < |s.table| && n < Size(s.table[s.pending[0]])
    requires var i := s.pending[0]; s' == s.(table := s.table[i := s.table[i].(pos := s.table[i].pos + n)])
    ensures Chained(s') && OwnCount(s'.table) == OwnCount(s.table) && InBytes(s') == InBytes(s) && OutBytes(s') == OutBytes(s)
    ensures var b := s.table[s.pending[0]]; PendingBytes(s) == b.data[b.pos..b.pos + n] + PendingBytes(s')
    ensures Kept(s, more) ==> Kept(s', more)
  {
    var i := s.pending[0];
    SendChained(s, i, s.table[i].pos + n, s.pending);
    SendFrame(s, s', i);
    SentPart(s, s', n);
    OwnCountSet(s.table, i, s'.table[i]);
    if Kept(s, more) { StillKept(s, s', more); }
  }

  lemma SentPart(s: State, s': State, n: nat)
    requires Chained(s) && s.pending != [] && s.pending[0] < |s.table| && n < Size(s.table[s.pending[0]])
    requires var i := s.pending[0]; s' == s.(table := s.table[i := s.table[i].(pos := s.table[i].pos + n)])
    ensures var b := s.table[s.pending[0]]; b.pos + n <= b.last <= |b.data| && PendingBytes(s) == b.data[b.pos..b.pos + n] + PendingBytes(s')
  {
    ChainedWithin(s);
    BytesTaken(s.table, s.pending, n);
  }

  lemma StillKept(s: State, s': State, more: seq<nat>)
    requires Kept(s, more) && |s'.table| == |s.table| && s'.place == s.place && s'.busy == s.busy && s'.free == s.free && s'.out == s.out
    requires forall x :: 0 <= x < |s.table| ==> s'.table[x].own == s.table[x].own
    ensures Kept(s', more)
  {
    forall x | 0 <= x < |s'.table| && x < |s'.place| && s'.table[x].own ensures KeptAt(s', more, x) {
      assert KeptAt(s, more, x);
    }
  }

  /** The consumer takes its first buffer. */
  lemma SendAll(s: State, s': State, more: seq<nat>)
    requires Chained(s) && s.pending != [] && s.pending[0] < |s.table|
    requires var i := s.pending[0];
             s' == s.(table := s.table[i := s.table[i].(pos := s.table[i].last)], pending := s.pending[1..])
    ensures Chained(s') && OwnCount(s'.table) == OwnCount(s.table) && InBytes(s') == InBytes(s) && OutBytes(s') == OutBytes(s)
    ensures var b := s.table[s.pending[0]]; PendingBytes(s) == b.data[b.pos..b.last] + PendingBytes(s')
    ensures Kept(s, more) ==> Kept(s', more)
  {
    var i := s.pending[0];
    DistinctTail(s.pending);
    SendChained(s, i, s.table[i].last, s.pending[1..]);
    SendFrame(s, s', i);
    ChainedWithin(s);
    BytesHead(s.table, s.pending);
    BytesFrame(s.table, s'.table, s.pending[1..]);
    OwnCountSet(s.table, i, s'.table[i]);
    if Kept(s, more) { StillKept(s, s', more); }
  }

  /** The chain that was handed over joins the busy chain. */
  lemma JoinBusy(s: State, s': State, chain: seq<nat>)
    requires Chained(s) && Distinct(chain) && Apart(chain, s.busy) && Lie(s.place, chain, Gone) && s' == s.(busy := s.busy + chain)
    ensures Chained(s') && InBytes(s') == InBytes(s) && OutBytes(s') == OutBytes(s) && PendingBytes(s') == PendingBytes(s)
    ensures Kept(s, chain) ==> Kept(s', [])
  {
    DistinctConcat(s.busy, chain);
    if Kept(s, chain) {
      forall x | 0 <= x < |s'.table| && x < |s'.place| && s'.table[x].own ensures KeptAt(s', [], x) {
        assert KeptAt(s, chain, x);
      }
    }
  }

  /** The first busy buffer, which is not ours and is sent, is forgotten. */
  lemma Forget(s: State, s': State)
    requires Chained(s) && s.busy != [] && s.busy[0] < |s.table| && !s.table[s.busy[0]].own && s' == s.(busy := s.busy[1..])
    ensures Chained(s') && InBytes(s') == InBytes(s) && OutBytes(s') == OutBytes(s) && PendingBytes(s') == PendingBytes(s)
    ensures Kept(s, []) ==> Kept(s', [])
  {
    DistinctTail(s.busy);
    if Kept(s, []) {
      forall x | 0 <= x < |s'.table| && x < |s'.place| && s'.table[x].own ensures KeptAt(s', [], x) {
        assert KeptAt(s, [], x);
      }
    }
  }

  lemma RecycleChained(s: State, s': State, i: nat)
    requires Chained(s) && s.busy != [] && i == s.busy[0] && i < |s.table| && s.table[i].own && Size(s.table[i]) == 0
    requires s' == s.(table := s.table[i := s.table[i].(pos := 0, last := 0)], place := s.place[i := Free],
                      busy := s.busy[1..], free := [i] + s.free)
    ensures Chained(s') && i !in s.pending && s.place[i].Gone?
  {
    DistinctTail(s.busy);
    assert ([i] + s.free)[1..] == s.free;
    assert i !in s.pending && i !in s.free;
  }

  /** The first busy buffer, which is ours and is sent, becomes free. */
  lemma Recycle(s: State, s': State)
    requires Chained(s) && s.busy != [] && s.busy[0] < |s.table| && s.table[s.busy[0]].own && Size(s.table[s.busy[0]]) == 0
    requires var i := s.busy[0];
             s' == s.(table := s.table[i := s.table[i].(pos := 0, last := 0)], place := s.place[i := Free],
                      busy := s.busy[1..], free := [i] + s.free)
    ensures Chained(s') && OwnCount(s'.table) == OwnCount(s.table)
    ensures InBytes(s') == InBytes(s) && OutBytes(s') == OutBytes(s) && PendingBytes(s') == PendingBytes(s)
    ensures Kept(s, []) ==> Kept(s', [])
  {
    var i := s.busy[0];
    DistinctTail(s.busy);
    RecycleChained(s, s', i);
    ChainedWithin(s);
    BytesFrame(s.table, s'.table, s.inq);
    BytesFrame(s.table, s'.table, s.out);
    BytesFrame(s.table, s'.table, s.pending);
    OwnCountSet(s.table, i, s'.table[i]);
    if Kept(s, []) {
      forall x | 0 <= x < |s'.table| && x < |s'.place| && s'.table[x].own ensures KeptAt(s', [], x) {
        assert KeptAt(s, [], x);
      }
    }
  }

  // ---------------------------------------------------------------- the account of bytes

  /** What the consumer has sent and not sent, what was passed on, what is about to be and what is not yet, and
      what was supplied. */
  datatype Ledger = Ledger(sent: seq<Unit>, pending: seq<Unit>, passed: seq<Unit>, out: seq<Unit>, inq: seq<Unit>, supplied: seq<Unit>)

  ghost predicate Balanced(l: Ledger) {
    l.sent + l.pending == l.passed && l.passed + (l.out + l.inq) == l.supplied
  }

  /** `Balanced`, said of everything equal to l so that a proof unfolds it only where it names it. */
  ghost predicate Booked(l: Ledger) {
    forall m {:trigger Balanced(m)} :: m == l ==> Balanced(m)
  }

  lemma StartBooked()
    ensures Booked(Ledger([], [], [], [], [], []))
  {
  }

  lemma BookedLength(l: Ledger)
    requires Booked(l)
    ensures |l.passed| + |l.out| + |l.inq| == |l.supplied|
  {
    assert Balanced(l);
  }

  /** Input goes to the output. */
  lemma BookMove(l: Ledger, l': Ledger)
    requires Booked(l) && l' == l.(out := l'.out, inq := l'.inq) && l'.out + l'.inq == l.out + l.inq
    ensures Booked(l')
  {
    assert Balanced(l);
  }

  lemma BookSend(l: Ledger, l': Ledger, part: seq<Unit>)
    requires Booked(l) && l.pending == part + l'.pending && l' == l.(sent := l.sent + part, pending := l'.pending)
    ensures Booked(l')
  {
    assert Balanced(l);
    Shift(l.sent, part, l'.pending);
  }

  lemma BookHand(l: Ledger, l': Ledger)
    requires Booked(l) && l' == l.(pending := l.pending + l.out, passed := l.passed + l.out, out := [])
    ensures Booked(l')
  {
    assert Balanced(l);
    Shift(l.sent, l.pending, l.out);
    Shift(l.passed, l.out, l.inq);
    assert [] + l.inq == l.inq;
  }

  lemma BookSupply(l: Ledger, l': Ledger, part: seq<Unit>)
    requires Booked(l) && l' == l.(inq := l.inq + part, supplied := l.supplied + part)
    ensures Booked(l')
  {
    assert Balanced(l);
    Shift(l.passed, l.out + l.inq, part);
    Shift(l.out, l.inq, part);
  }

  /** A chain without recycled buffers need not be kept. */
  lemma NotOurs(s: State, chain: seq<nat>)
    requires Kept(s, chain) && forall x :: x in chain && x < |s.table| ==> !s.table[x].own
    ensures Kept(s, [])
  {
    forall x | 0 <= x < |s.table| && x < |s.place| && s.table[x].own ensures KeptAt(s, [], x) {
      assert KeptAt(s, chain, x);
    }
  }

  ghost function AllBytes(bufs: seq<Buf>): seq<Unit>
    requires AllIncoming(bufs)
  {
    if bufs == [] then [] else AllBytes(bufs[..|bufs| - 1]) + Live(bufs[|bufs| - 1])
  }

  lemma AllBytesMore(bufs: seq<Buf>, k: nat)
    requires k < |bufs| && AllIncoming(bufs)
    ensures AllBytes(bufs[..k + 1]) == AllBytes(bufs[..k]) + Live(bufs[k])
  {
    assert bufs[..k + 1][..k] == bufs[..k];
  }
}
