/**
 Chains of buffers and the bytes in them (ngx_buf.c).

 Buffers live in one table; a chain is a sequence of indices into it.  A buffer owns its storage,
 of which the bytes from `pos` to `last` are live.  A special buffer has no bytes; between its `pos` and
 `last` is the mark (flush, last_buf, sync) it stands for, until the consumer has seen it.
 */
module Chains {
  import opened Lists

  /** What goes through a chain: bytes and, between them, the marks of special buffers. */
  datatype Unit = Octet(value: bv8) | Mark(note: nat)

  /** `Memory` may not be modified in place, `Temporary` may; `Special` has no bytes (flush, last_buf, sync). */
  datatype Kind = Memory | Temporary | Special

  /** `own`: carries the tag of the output chain, so that it is recycled. */
  datatype Buf = Buf(kind: Kind, own: bool, data: seq<Unit>, pos: nat, last: nat, lastInChain: bool)

  /** A recycled buffer is temporary and has room. */
  ghost predicate BufOk(b: Buf) {
    && b.pos <= b.last <= |b.data|
    && (b.own ==> b.kind.Temporary? && |b.data| >= 1)
  }

  /** ngx_buf_size */
  function Size(b: Buf): int { if b.kind.Special? then 0 else b.last - b.pos }

  /** A temporary buffer with new content. */
  function Filled(b: Buf, bytes: seq<Unit>): Buf
    requires |bytes| <= |b.data|
  {
    b.(data := bytes + b.data[|bytes|..], last := |bytes|)
  }

  ghost function Live(b: Buf): seq<Unit>
    requires BufOk(b)
  {
    b.data[b.pos..b.last]
  }

  /** A special buffer holds marks, any other holds bytes. */
  ghost predicate Proper(b: Buf) {
    forall k :: 0 <= k < |b.data| ==> b.data[k].Mark? == b.kind.Special?
  }

  ghost predicate AllProper(table: seq<Buf>) {
    forall i {:trigger Proper(table[i])} :: 0 <= i < |table| ==> Proper(table[i])
  }

  lemma ProperSet(table: seq<Buf>, i: nat, b: Buf)
    requires AllProper(table) && i < |table| && Proper(b)
    ensures AllProper(table[i := b])
  {
  }

  lemma ProperMore(table: seq<Buf>, b: Buf)
    requires AllProper(table) && Proper(b)
    ensures AllProper(table + [b])
  {
    forall i | 0 <= i < |table| + 1 ensures Proper((table + [b])[i]) {
      if i < |table| { assert Proper(table[i]); }
    }
  }

  /** The number of bytes, not counting marks. */
  ghost function Octets(u: seq<Unit>): nat {
    if u == [] then 0 else Octets(u[..|u| - 1]) + if u[|u| - 1].Octet? then 1 else 0
  }

  lemma {:induction false} OctetsMore(u: seq<Unit>, more: seq<Unit>, bytes: bool)
    requires forall k :: 0 <= k < |more| ==> more[k].Octet? == bytes
    ensures Octets(u + more) == Octets(u) + if bytes then |more| else 0
    decreases |more|
  {
    if more == [] {
      assert u + more == u;
    } else {
      var n := |more| - 1;
      OctetsMore(u, more[..n], bytes);
      assert (u + more)[..|u| + n] == u + more[..n];
      assert (u + more)[|u| + n] == more[n];
    }
  }

  /** Sending bytes of a buffer, or its mark. */
  lemma OctetsSent(u: seq<Unit>, b: Buf, n: nat)
    requires Proper(b) && b.pos + n <= |b.data|
    ensures Octets(u + b.data[b.pos..b.pos + n]) == Octets(u) + if b.kind.Special? then 0 else n
  {
    OctetsMore(u, b.data[b.pos..b.pos + n], !b.kind.Special?);
  }

  ghost predicate TableOk(table: seq<Buf>) {
    forall i :: 0 <= i < |table| ==> BufOk(table[i])
  }

  ghost predicate Within(table: seq<Buf>, chain: seq<nat>) {
    forall x :: x in chain ==> x < |table|
  }

  ghost predicate Apart(a: seq<nat>, b: seq<nat>) {
    forall x :: x in a ==> x !in b
  }

  ghost function Bytes(table: seq<Buf>, chain: seq<nat>): seq<Unit>
    requires TableOk(table) && Within(table, chain)
  {
    if chain == [] then [] else
      assert chain[0] in chain && forall x :: x in chain[1..] ==> x in chain;
      Live(table[chain[0]]) + Bytes(table, chain[1..])
  }

  lemma Shift(a: seq<Unit>, b: seq<Unit>, c: seq<Unit>)
    ensures a + b + c == a + (b + c)
  {
  }

  lemma BytesHead(table: seq<Buf>, chain: seq<nat>)
    requires TableOk(table) && Within(table, chain) && chain != []
    ensures chain[0] < |table| && Within(table, chain[1..])
    ensures Bytes(table, chain) == Live(table[chain[0]]) + Bytes(table, chain[1..])
  {
    assert chain[0] in chain && forall x :: x in chain[1..] ==> x in chain;
  }

  lemma {:induction false} BytesConcat(table: seq<Buf>, a: seq<nat>, b: seq<nat>)
    requires TableOk(table) && Within(table, a) && Within(table, b)
    ensures Within(table, a + b) && Bytes(table, a + b) == Bytes(table, a) + Bytes(table, b)
  {
    if a == [] {
      assert a + b == b;
    } else {
      assert (a + b)[1..] == a[1..] + b && forall x :: x in a[1..] ==> x in a;
      BytesConcat(table, a[1..], b);
    }
  }

  lemma BytesOne(table: seq<Buf>, i: nat)
    requires TableOk(table) && i < |table|
    ensures Bytes(table, [i]) == Live(table[i])
  {
    assert [i][1..] == [];
    assert Bytes(table, [i]) == Live(table[i]) + Bytes(table, []);
  }

  /** Buffers outside a chain do not matter. */
  lemma {:induction false} BytesFrame(table: seq<Buf>, table': seq<Buf>, chain: seq<nat>)
    requires TableOk(table) && TableOk(table') && |table| <= |table'| && Within(table, chain)
    requires forall x :: x in chain && x < |table| ==> table'[x] == table[x]
    ensures Within(table', chain) && Bytes(table', chain) == Bytes(table, chain)
  {
    if chain != [] {
      assert chain[0] in chain && forall x :: x in chain[1..] ==> x in chain;
      BytesFrame(table, table', chain[1..]);
    }
  }

  /** One buffer changes, and it is not in the chain. */
  lemma BytesOther(table: seq<Buf>, i: nat, b: Buf, chain: seq<nat>)
    requires TableOk(table) && Within(table, chain) && i < |table| && BufOk(b) && i !in chain
    ensures TableOk(table[i := b]) && Within(table[i := b], chain) && Bytes(table[i := b], chain) == Bytes(table, chain)
  {
    BytesFrame(table, table[i := b], chain);
  }

  /** The first n bytes of the first buffer of a chain are taken away. */
  lemma BytesTaken(table: seq<Buf>, chain: seq<nat>, n: nat)
    requires TableOk(table) && Within(table, chain) && chain != [] && Distinct(chain)
    requires chain[0] < |table| && n <= Size(table[chain[0]])
    ensures var b := table[chain[0]]; var t := table[chain[0] := b.(pos := b.pos + n)];
            && TableOk(t) && Within(t, chain)
            && Bytes(table, chain) == b.data[b.pos..b.pos + n] + Bytes(t, chain)
  {
    var i := chain[0];
    var b := table[i];
    var b' := b.(pos := b.pos + n);
    BytesHead(table, chain);
    BytesOther(table, i, b', chain[1..]);
    assert Within(table[i := b'], chain);
    BytesHead(table[i := b'], chain);
    LiveSplit(b, n, Bytes(table, chain[1..]));
  }

  lemma LiveSplit(b: Buf, n: nat, rest: seq<Unit>)
    requires BufOk(b) && n <= Size(b)
    ensures BufOk(b.(pos := b.pos + n)) && Live(b) + rest == b.data[b.pos..b.pos + n] + (Live(b.(pos := b.pos + n)) + rest)
  {
    assert Live(b) == b.data[b.pos..b.pos + n] + Live(b.(pos := b.pos + n));
  }

  /** The first buffer of one chain goes to the end of another. */
  lemma BytesMove(table: seq<Buf>, to: seq<nat>, chain: seq<nat>)
    requires TableOk(table) && Within(table, to) && Within(table, chain) && chain != []
    ensures Within(table, to + [chain[0]]) && Within(table, chain[1..])
    ensures Bytes(table, to + [chain[0]]) + Bytes(table, chain[1..]) == Bytes(table, to) + Bytes(table, chain)
  {
    BytesHead(table, chain);
    BytesOne(table, chain[0]);
    BytesConcat(table, to, [chain[0]]);
    Shift(Bytes(table, to), Live(table[chain[0]]), Bytes(table, chain[1..]));
  }

  lemma DistinctTail(chain: seq<nat>)
    requires Distinct(chain) && chain != []
    ensures Distinct(chain[1..]) && chain[0] !in chain[1..] && chain[0] in chain
    ensures forall x :: x in chain <==> x == chain[0] || x in chain[1..]
  {
    assert chain == [chain[0]] + chain[1..];
  }

  lemma {:induction false} DistinctConcat(a: seq<nat>, b: seq<nat>)
    requires Distinct(a) && Distinct(b) && Apart(a, b)
    ensures Distinct(a + b)
  {
    if a == [] {
      assert a + b == b;
    } else {
      DistinctTail(a);
      assert (a + b)[1..] == a[1..] + b;
      DistinctConcat(a[1..], b);
    }
  }

  lemma DistinctOne(i: nat)
    ensures Distinct([i])
  {
    assert [i][1..] == [];
  }
}
