/**
 Which buffers ngx_output_chain hands over itself and which it copies.
 */
module Routing {
  import opened Chains

  /** `told` are the buffers supplied as they came, `plain` those of them that carry something and need no copy,
      `handed` the buffers handed over. */
  datatype Route = Route(table: seq<Buf>, needTemp: bool, made: nat, told: map<nat, Buf>, plain: seq<nat>,
                         handed: seq<nat>, out: seq<nat>, inq: seq<nat>)

  // ---------------------------------------------------------------- order

  ghost function One(x: nat, keep: seq<nat>): seq<nat> {
    if x in keep then [x] else []
  }

  /** The members of a chain that are in `keep`. */
  ghost function Only(chain: seq<nat>, keep: seq<nat>): seq<nat> {
    if chain == [] then [] else One(chain[0], keep) + Only(chain[1..], keep)
  }

  lemma {:induction false} OnlyConcat(a: seq<nat>, b: seq<nat>, keep: seq<nat>)
    ensures Only(a + b, keep) == Only(a, keep) + Only(b, keep)
  {
    if a == [] {
      assert a + b == b;
    } else {
      assert (a + b)[1..] == a[1..] + b;
      OnlyConcat(a[1..], b, keep);
    }
  }

  lemma OnlyOne(x: nat, keep: seq<nat>)
    ensures Only([x], keep) == One(x, keep)
  {
    assert [x][1..] == [] && Only([], keep) == [];
  }

  lemma {:induction false} OnlyWider(chain: seq<nat>, keep: seq<nat>, x: nat)
    requires x !in chain
    ensures Only(chain, keep + [x]) == Only(chain, keep)
  {
    if chain != [] { OnlyWider(chain[1..], keep, x); }
  }

  /** The members of `keep` are on the chain, once each and in order. */
  ghost predicate InOrder(chain: seq<nat>, keep: seq<nat>) {
    Only(chain, keep) == keep
  }

  lemma OnlyAside(a: seq<nat>, d: nat, keep: seq<nat>)
    requires d !in keep
    ensures Only(a + [d], keep) == Only(a, keep)
  {
    OnlyConcat(a, [d], keep);
    OnlyOne(d, keep);
  }

  lemma OrderAside(a: seq<nat>, d: nat, c: seq<nat>, keep: seq<nat>)
    requires d !in keep
    ensures InOrder(a + [d] + c, keep) <==> InOrder(a + c, keep)
  {
    OnlyConcat(a, c, keep);
    OnlyConcat(a + [d], c, keep);
    OnlyAside(a, d, keep);
  }

  lemma OrderAdd(a: seq<nat>, n: nat, keep: seq<nat>)
    requires InOrder(a, keep) && n !in a && n !in keep
    ensures InOrder(a + [n], keep) && InOrder(a + [n], keep + [n])
  {
    OnlyConcat(a, [n], keep);
    OnlyConcat(a, [n], keep + [n]);
    OnlyOne(n, keep);
    OnlyOne(n, keep + [n]);
    OnlyWider(a, keep, n);
  }

  // ---------------------------------------------------------------- kinds

  /** Fit to be handed over. */
  ghost predicate Allowed(r: Route, x: nat) {
    x < |r.table| && !(r.needTemp && r.table[x].kind.Memory?)
  }

  /** A buffer supplied is not recycled, and nothing but its position changes. */
  ghost predicate Recorded(r: Route, x: nat)
    requires x in r.told
  {
    x < |r.table| && !r.table[x].own && r.table[x] == r.told[x].(pos := r.table[x].pos)
  }

  ghost predicate Plainly(r: Route, x: nat) {
    x in r.told && Allowed(r, x) && (x in r.inq ==> r.table[x].pos < r.table[x].last)
  }

  /** Where buffers must be temporary, none in read-only memory is handed over; where they need not be, no buffer
      is allocated.  Every buffer that carries something and needs no copy is itself handed over, in order. */
  ghost predicate Kinded(r: Route) {
    && (!r.needTemp ==> r.made == 0)
    && (forall x :: x in r.told ==> Recorded(r, x))
    && (forall x :: x in r.inq ==> x in r.told)
    && (forall x :: x in r.plain ==> Plainly(r, x))
    && (forall x :: x in r.handed + r.out ==> Allowed(r, x))
    && InOrder(r.handed + r.out + r.inq, r.plain)
  }

  /** `Kinded`, said of everything equal to r so that a proof unfolds it only where it names it. */
  ghost predicate Tracked(r: Route) {
    forall q {:trigger Kinded(q)} :: q == r ==> Kinded(q)
  }

  lemma StartTracked(needTemp: bool)
    ensures Tracked(Route([], needTemp, 0, map[], [], [], [], []))
  {
    var none: seq<nat> := [];
    assert none + none + none == none;
  }

  /** A buffer supplied is not recycled. */
  lemma ToldNotOurs(r: Route)
    requires Tracked(r)
    ensures forall x :: x in r.told && x < |r.table| ==> !r.table[x].own
  {
    assert Kinded(r);
  }

  lemma Delivered(r: Route)
    requires Tracked(r) && r.out == []
    ensures forall x :: x in r.handed ==> x < |r.table| && !(r.needTemp && r.table[x].kind.Memory?)
    ensures !r.needTemp ==> r.made == 0
    ensures Only(r.handed + r.inq, r.plain) == r.plain
    ensures forall x :: x in r.told ==> x < |r.table| && r.table[x] == r.told[x].(pos := r.table[x].pos)
  {
    assert Kinded(r);
    assert r.handed + r.out == r.handed;
    forall x | x in r.handed ensures x < |r.table| && !(r.needTemp && r.table[x].kind.Memory?) { assert Allowed(r, x); }
    forall x | x in r.told ensures x < |r.table| && r.table[x] == r.told[x].(pos := r.table[x].pos) { assert Recorded(r, x); }
  }

  /** The first input buffer carries nothing and is dropped. */
  lemma DropTracked(r: Route, r': Route)
    requires Tracked(r) && r.inq != [] && r.inq[0] < |r.table| && r.table[r.inq[0]].pos == r.table[r.inq[0]].last
    requires r' == r.(inq := r.inq[1..])
    ensures Tracked(r')
  {
    assert Kinded(r) && Plainly(r, r.inq[0]) == Plainly(r, r.inq[0]);
    assert r.inq == [r.inq[0]] + r.inq[1..] && r.inq[0] in r.inq;
    OrderAside(r.handed + r.out, r.inq[0], r'.inq, r.plain);
    assert r.handed + r.out + r.inq == r.handed + r.out + [r.inq[0]] + r'.inq;
    forall x | x in r'.plain ensures Plainly(r', x) { assert Plainly(r, x); }
    forall x | x in r'.told ensures Recorded(r', x) { assert Recorded(r, x); }
    forall x | x in r'.handed + r'.out ensures Allowed(r', x) { assert Allowed(r, x); }
    assert Kinded(r');
  }

  /** The first input buffer is handed on itself. */
  lemma MoveTracked(r: Route, r': Route)
    requires Tracked(r) && r.inq != [] && Allowed(r, r.inq[0]) && r' == r.(inq := r.inq[1..], out := r.out + [r.inq[0]])
    ensures Tracked(r')
  {
    assert Kinded(r);
    assert r.inq == [r.inq[0]] + r.inq[1..];
    assert r'.handed + r'.out + r'.inq == r.handed + r.out + r.inq;
    forall x | x in r'.plain ensures Plainly(r', x) { assert Plainly(r, x); }
    forall x | x in r'.told ensures Recorded(r', x) { assert Recorded(r, x); }
    forall x | x in r'.handed + r'.out ensures Allowed(r', x) { assert x in r.handed + r.out ==> Allowed(r, x); }
    assert Kinded(r');
  }

  /** The output chain is handed over. */
  lemma HandTracked(r: Route, r': Route)
    requires Tracked(r) && r' == r.(handed := r.handed + r.out, out := [])
    ensures Tracked(r')
  {
    assert Kinded(r);
    assert r'.handed + r'.out == r.handed + r.out;
    forall x | x in r'.plain ensures Plainly(r', x) { assert Plainly(r, x); }
    forall x | x in r'.told ensures Recorded(r', x) { assert Recorded(r, x); }
    forall x | x in r'.handed + r'.out ensures Allowed(r', x) { assert Allowed(r, x); }
    assert Kinded(r');
  }

  /** A buffer of ours changes, or the position of another that is no input to be handed over. */
  lemma SetTracked(r: Route, r': Route, i: nat, b: Buf)
    requires Tracked(r) && i < |r.table| && r' == r.(table := r.table[i := b])
    requires b.kind == r.table[i].kind && b.own == r.table[i].own && (!b.own ==> b == r.table[i].(pos := b.pos))
    requires i !in r.inq || !Allowed(r, i)
    ensures Tracked(r')
  {
    assert Kinded(r);
    forall x | x in r'.plain ensures Plainly(r', x) { assert Plainly(r, x); }
    forall x | x in r'.told ensures Recorded(r', x) { assert Recorded(r, x); }
    forall x | x in r'.handed + r'.out ensures Allowed(r', x) { assert Allowed(r, x); }
    assert Kinded(r');
  }

  /** A new buffer of ours. */
  lemma NewTracked(r: Route, r': Route, b: Buf)
    requires Tracked(r) && r.needTemp && r' == r.(table := r.table + [b], made := r.made + 1)
    ensures Tracked(r')
  {
    assert Kinded(r);
    forall x | x in r'.plain ensures Plainly(r', x) { assert Plainly(r, x); }
    forall x | x in r'.told ensures Recorded(r', x) { assert Recorded(r, x); }
    forall x | x in r'.handed + r'.out ensures Allowed(r', x) { assert Allowed(r, x); }
    assert Kinded(r');
  }

  /** One of our buffers joins the output. */
  lemma OursTracked(r: Route, r': Route, d: nat)
    requires Tracked(r) && d < |r.table| && r.table[d].own && r.table[d].kind.Temporary? && r' == r.(out := r.out + [d])
    ensures Tracked(r')
  {
    assert Kinded(r);
    assert d !in r.told;
    OrderAside(r.handed + r.out, d, r.inq, r.plain);
    assert r'.handed + r'.out == r.handed + r.out + [d];
    forall x | x in r'.plain ensures Plainly(r', x) { assert Plainly(r, x); }
    forall x | x in r'.told ensures Recorded(r', x) { assert Recorded(r, x); }
    forall x | x in r'.handed + r'.out ensures Allowed(r', x) { assert x in r.handed + r.out ==> Allowed(r, x); }
    assert Kinded(r');
  }

  /** Some of the first input buffer, which must be copied, is copied to d, which is ours. */
  lemma CopyTracked(r: Route, r': Route, d: nat, n: nat, bytes: seq<Unit>)
    requires Tracked(r) && r.inq != [] && d < |r.table| && r.inq[0] < |r.table| && d != r.inq[0] && d !in r.inq
    requires r.needTemp && r.table[r.inq[0]].kind.Memory? && r.table[d].own && r.table[d].kind.Temporary? && !r.table[r.inq[0]].own
    requires |bytes| <= |r.table[d].data|
    requires var i := r.inq[0];
             r' == r.(table := r.table[d := Filled(r.table[d], bytes)][i := r.table[i].(pos := r.table[i].pos + n)], out := r.out + [d])
    ensures Tracked(r')
  {
    var i := r.inq[0];
    var r1 := r.(table := r.table[d := Filled(r.table[d], bytes)]);
    SetTracked(r, r1, d, Filled(r.table[d], bytes));
    var r2 := r1.(table := r'.table);
    SetTracked(r1, r2, i, r'.table[i]);
    OursTracked(r2, r', d);
  }

  // ---------------------------------------------------------------- input

  /** The buffers of an incoming chain that carry something and need no copy, numbered from n. */
  ghost function Plain(needTemp: bool, chain: seq<Buf>, n: nat): seq<nat> {
    if chain == [] then [] else
      var k := |chain| - 1;
      Plain(needTemp, chain[..k], n) + PlainOne(needTemp, chain[k], n + k)
  }

  ghost function PlainOne(needTemp: bool, b: Buf, n: nat): seq<nat> {
    if b.pos < b.last && !(needTemp && b.kind.Memory?) then [n] else []
  }

  /** The buffers of an incoming chain, numbered from n. */
  ghost function Numbered(chain: seq<Buf>, n: nat): map<nat, Buf> {
    if chain == [] then map[] else
      var k := |chain| - 1;
      Numbered(chain[..k], n)[n + k := chain[k]]
  }

  ghost function Joined(r: Route, b: Buf): Route {
    var n := |r.table|;
    r.(table := r.table + [b], told := r.told[n := b], plain := r.plain + PlainOne(r.needTemp, b, n), inq := r.inq + [n])
  }

  /** A buffer joins the input. */
  lemma AddTracked(r: Route, b: Buf)
    requires Tracked(r) && !b.own
    ensures Tracked(Joined(r, b))
  {
    assert Kinded(r);
    var n, r' := |r.table|, Joined(r, b);
    assert n !in r.told;
    AddOrder(r, n);
    assert r.handed + r.out + (r.inq + [n]) == r.handed + r.out + r.inq + [n] && r.plain + [] == r.plain;
    assert InOrder(r'.handed + r'.out + r'.inq, r'.plain);
    forall x | x in r'.plain ensures Plainly(r', x) { assert x in r.plain ==> Plainly(r, x); }
    forall x | x in r'.told ensures Recorded(r', x) { assert x in r.told ==> Recorded(r, x); }
    forall x | x in r'.handed + r'.out ensures Allowed(r', x) { assert Allowed(r, x); }
    assert Kinded(r');
  }

  lemma AddOrder(r: Route, n: nat)
    requires Kinded(r) && n == |r.table| && n !in r.told
    ensures InOrder(r.handed + r.out + r.inq + [n], r.plain) && InOrder(r.handed + r.out + r.inq + [n], r.plain + [n])
  {
    OrderAdd(r.handed + r.out + r.inq, n, r.plain);
  }

  /** A chain has joined the input. */
  ghost predicate Arrived(r: Route, r': Route, chain: seq<Buf>) {
    && r'.table == r.table + chain && r'.told == r.told + Numbered(chain, |r.table|)
    && r'.plain == r.plain + Plain(r.needTemp, chain, |r.table|)
    && r'.inq == r.inq + seq(|chain|, k => |r.table| + k)
  }

  lemma ArrivedFew(r: Route, r': Route, chain: seq<Buf>)
    requires Arrived(r, r', chain)
    ensures chain == [] ==> r'.inq == r.inq
    ensures |chain| == 1 ==> r'.inq == r.inq + [|r.table|] && r'.table == r.table + [chain[0]]
  {
  }

  lemma MapMore(a: map<nat, Buf>, b: map<nat, Buf>, x: nat, v: Buf)
    ensures a + b[x := v] == (a + b)[x := v]
  {
  }

  lemma ArrivedMore(r: Route, r1: Route, r2: Route, chain: seq<Buf>, k: nat)
    requires k < |chain| && Arrived(r, r1, chain[..k]) && r1.needTemp == r.needTemp && r2 == Joined(r1, chain[k])
    ensures Arrived(r, r2, chain[..k + 1])
  {
    assert chain[..k + 1] == chain[..k] + [chain[k]];
    assert chain[..k + 1][..k] == chain[..k];
    var n := |r.table|;
    MapMore(r.told, Numbered(chain[..k], n), n + k, chain[k]);
  }
}
