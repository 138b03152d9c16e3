/**
 The page records of a slab pool and the circular doubly linked lists through them.

 A record is the source's `ngx_slab_page_t`.  Pages, the head of the free list and the
 heads of the slot lists are all such records, so they live in one table and a pointer is
 an index into it (`NULL` is -1).  The low two bits of the source's `prev` word are `tag`,
 the rest is `prev`.  Only `next` of a head is meaningful.
 */
module SlabRings {

  const NULL: int := -1

  datatype Node = Node(slab: nat, next: int, prev: int, tag: nat)

  ghost predicate Distinct(list: seq<nat>) {
    forall i, j :: 0 <= i < j < |list| ==> list[i] != list[j]
  }

  /** `list` is what a walk along `next` from `head` meets before it is back at `head`;
      every member carries the mark `tag` and points back at its predecessor. */
  ghost predicate Ring(ns: seq<Node>, head: nat, list: seq<nat>, tag: nat) {
    && head < |ns|
    && head !in list
    && Distinct(list)
    && (forall k :: 0 <= k < |list| ==> list[k] < |ns|)
    && ns[head].next == (if |list| == 0 then head else list[0])
    && forall k :: 0 <= k < |list| ==> Linked(ns, head, list, tag, k)
  }

  ghost predicate Linked(ns: seq<Node>, head: nat, list: seq<nat>, tag: nat, k: nat)
    requires k < |list| && list[k] < |ns|
  {
    && ns[list[k]].next == After(head, list, k)
    && ns[list[k]].prev == Before(head, list, k)
    && ns[list[k]].tag == tag
  }

  function After(head: nat, list: seq<nat>, k: nat): nat
    requires k < |list|
  {
    if k + 1 < |list| then list[k + 1] else head
  }

  function Before(head: nat, list: seq<nat>, k: nat): nat
    requires k < |list|
  {
    if k == 0 then head else list[k - 1]
  }

  function WithoutAt(list: seq<nat>, k: nat): seq<nat>
    requires k < |list|
  {
    list[..k] + list[k + 1..]
  }

  function With(list: seq<nat>, k: nat, q: nat): (w: seq<nat>)
    requires k < |list|
    ensures |w| == |list| && w[k] == q
  {
    list[k := q]
  }

  /** `p` has been taken out of its list: prev->next = p->next, p->next->prev = p->prev. */
  ghost predicate Unlinked(ns: seq<Node>, ns': seq<Node>, p: nat) {
    && |ns'| == |ns|
    && p < |ns|
    && forall i :: 0 <= i < |ns'| ==>
         ns'[i] == Node(ns[i].slab,
                        if i == ns[p].prev then ns[p].next else ns[i].next,
                        if i == ns[p].next then ns[p].prev else ns[i].prev,
                        if i == ns[p].next then ns[p].tag else ns[i].tag)
  }

  /** `p` has been linked in directly after `head`. */
  ghost predicate Pushed(ns: seq<Node>, ns': seq<Node>, head: nat, p: nat, tag: nat) {
    && |ns'| == |ns|
    && head < |ns|
    && ns'[head].next == p
    && forall i :: 0 <= i < |ns'| && i != head ==>
         ns'[i] == Node(ns[i].slab,
                        if i == p then ns[head].next else ns[i].next,
                        if i == ns[head].next then p else if i == p then head else ns[i].prev,
                        if i == ns[head].next || i == p then tag else ns[i].tag)
  }

  /** `q` has taken over the place of `p`. */
  ghost predicate Replaced(ns: seq<Node>, ns': seq<Node>, p: nat, q: nat) {
    && |ns'| == |ns|
    && p < |ns|
    && forall i :: 0 <= i < |ns'| ==>
         && ns'[i].next == (if i == ns[p].prev then q else if i == q then ns[p].next else ns[i].next)
         && ns'[i].prev == (if i == ns[p].next then q else if i == q then ns[p].prev else ns[i].prev)
         && ns'[i].tag == (if i == ns[p].next then 0 else if i == q then ns[p].tag else ns[i].tag)
  }

  /** The fields a list depends on are untouched. */
  ghost predicate SameLinks(ns: seq<Node>, ns': seq<Node>, head: nat, list: seq<nat>) {
    && |ns| == |ns'|
    && head < |ns|
    && ns[head].next == ns'[head].next
    && forall k :: 0 <= k < |list| && list[k] < |ns| ==>
         && ns[list[k]].next == ns'[list[k]].next
         && ns[list[k]].prev == ns'[list[k]].prev
         && ns[list[k]].tag == ns'[list[k]].tag
  }

  lemma RingFrame(ns: seq<Node>, ns': seq<Node>, head: nat, list: seq<nat>, tag: nat)
    requires Ring(ns, head, list, tag) && SameLinks(ns, ns', head, list)
    ensures Ring(ns', head, list, tag)
  {
    forall k | 0 <= k < |list| ensures Linked(ns', head, list, tag, k) {
      assert Linked(ns, head, list, tag, k);
    }
  }

  lemma RingNeighbours(ns: seq<Node>, head: nat, list: seq<nat>, tag: nat, k: nat)
    requires Ring(ns, head, list, tag) && k < |list|
    ensures list[k] < |ns| && list[k] != head && ns[list[k]].tag == tag
    ensures ns[list[k]].next == After(head, list, k) < |ns|
    ensures ns[list[k]].prev == Before(head, list, k) < |ns|
    ensures After(head, list, k) != list[k] && Before(head, list, k) != list[k]
  {
    assert Linked(ns, head, list, tag, k);
  }

  lemma RingUnlink(ns: seq<Node>, ns': seq<Node>, head: nat, list: seq<nat>, tag: nat, k: nat)
    requires Ring(ns, head, list, tag) && k < |list| && Unlinked(ns, ns', list[k])
    ensures Ring(ns', head, WithoutAt(list, k), tag)
  {
    RingNeighbours(ns, head, list, tag, k);
    var w := WithoutAt(list, k);
    WithoutFacts(list, k);
    forall j | 0 <= j < |w|
      ensures w[j] < |ns| && Linked(ns', head, w, tag, j)
    {
      var m := if j < k then j else j + 1;
      assert w[j] == list[m];
      RingNeighbours(ns, head, list, tag, m);
    }
  }

  lemma RingPush(ns: seq<Node>, ns': seq<Node>, head: nat, list: seq<nat>, tag: nat, p: nat)
    requires Ring(ns, head, list, tag) && p < |ns| && p !in list && p != head
    requires Pushed(ns, ns', head, p, tag)
    ensures Ring(ns', head, [p] + list, tag)
  {
    var w := [p] + list;
    forall j | 0 <= j < |w|
      ensures w[j] < |ns| && Linked(ns', head, w, tag, j)
    {
      if j > 0 { RingNeighbours(ns, head, list, tag, j - 1); }
    }
  }

  lemma RingReplace(ns: seq<Node>, ns': seq<Node>, head: nat, list: seq<nat>, k: nat, q: nat)
    requires Ring(ns, head, list, 0) && k < |list| && q < |ns| && q !in list && q != head
    requires Replaced(ns, ns', list[k], q)
    ensures Ring(ns', head, With(list, k, q), 0)
  {
    var w := With(list, k, q);
    RingNeighbours(ns, head, list, 0, k);
    forall j | 0 <= j < |w| ensures w[j] < |ns| && Linked(ns', head, w, 0, j) {
      RingNeighbours(ns, head, list, 0, j);
    }
  }

  lemma WithFacts(list: seq<nat>, k: nat, q: nat)
    requires Distinct(list) && k < |list|
    ensures forall x: nat :: x in With(list, k, q) <==> x == q || (x in list && x != list[k])
  {
    var w := With(list, k, q);
    forall x: nat | x in list && x != list[k] ensures x in w {
      var j :| 0 <= j < |list| && list[j] == x;
      assert w[j] == x;
    }
  }

  lemma WithoutFacts(list: seq<nat>, k: nat)
    requires Distinct(list) && k < |list|
    ensures Distinct(WithoutAt(list, k))
    ensures forall x :: x in WithoutAt(list, k) <==> x in list && x != list[k]
  {
    var w := WithoutAt(list, k);
    assert forall j :: 0 <= j < |w| ==> w[j] == if j < k then list[j] else list[j + 1];
    forall x | x in list && x != list[k] ensures x in w {
      var j :| 0 <= j < |list| && list[j] == x;
      assert w[if j < k then j else j - 1] == x;
    }
  }
}
