/**
 Trie nodes linked by `left`, `right` and `parent`, with a list of free nodes linked by `right`.
 */
module RadixHeap {
  import opened RadixShape

  const NULL: int := -1

  datatype Rec = Rec(left: int, right: int, parent: int, value: int)

  // ---------------------------------------------------------------- addresses

  ghost function Ids(t: Trie): set<nat> {
    match t
    case Leaf => {}
    case Node(i, _, l, r) => Ids(l) + {i} + Ids(r)
  }

  ghost function CtxIds(c: Ctx): set<nat> {
    match c
    case Top => {}
    case InL(up, i, _, r) => CtxIds(up) + {i} + Ids(r)
    case InR(up, i, _, l) => CtxIds(up) + {i} + Ids(l)
  }

  ghost predicate Apart(t: Trie) {
    match t
    case Leaf => true
    case Node(i, _, l, r) => Apart(l) && Apart(r) && i !in Ids(l) && i !in Ids(r) && Ids(l) !! Ids(r)
  }

  ghost predicate CtxApart(c: Ctx) {
    match c
    case Top => true
    case InL(up, i, _, r) => CtxApart(up) && Apart(r) && i !in Ids(r) && i !in CtxIds(up) && Ids(r) !! CtxIds(up)
    case InR(up, i, _, l) => CtxApart(up) && Apart(l) && i !in Ids(l) && i !in CtxIds(up) && Ids(l) !! CtxIds(up)
  }

  lemma {:induction false} PlugIds(c: Ctx, t: Trie)
    ensures Ids(Plug(c, t)) == Ids(t) + CtxIds(c)
    decreases c
  {
    match c
    case Top =>
    case InL(up, i, v, r) => PlugIds(up, Node(i, v, t, r));
    case InR(up, i, v, l) => PlugIds(up, Node(i, v, l, t));
  }

  // ---------------------------------------------------------------- records

  /** The records reachable from x, whose parent is p, are the trie t. */
  ghost predicate Tied(h: seq<Rec>, t: Trie, x: int, p: int) {
    match t
    case Leaf => x == NULL
    case Node(i, v, l, r) =>
      && x == i < |h| && h[i].value == v && h[i].parent == p
      && Tied(h, l, h[i].left, i) && Tied(h, r, h[i].right, i)
  }

  function ParentOf(c: Ctx): int { if c.Top? then NULL else c.id }

  /** The records around the pointer x, up to the root, are the context c. */
  ghost predicate Hung(h: seq<Rec>, root: int, c: Ctx, x: int) {
    match c
    case Top => root == x
    case InL(up, i, v, r) =>
      && i < |h| && h[i].value == v && h[i].parent == ParentOf(up)
      && h[i].left == x && Tied(h, r, h[i].right, i) && Hung(h, root, up, i)
    case InR(up, i, v, l) =>
      && i < |h| && h[i].value == v && h[i].parent == ParentOf(up)
      && h[i].right == x && Tied(h, l, h[i].left, i) && Hung(h, root, up, i)
  }

  ghost predicate At(h: seq<Rec>, root: int, c: Ctx, t: Trie, x: int) {
    Tied(h, t, x, ParentOf(c)) && Hung(h, root, c, x) && CtxApart(c) && Apart(t) && Ids(t) !! CtxIds(c)
  }

  lemma Down(h: seq<Rec>, root: int, c: Ctx, t: Trie, x: int)
    requires At(h, root, c, t, x) && t.Node?
    ensures 0 <= x < |h| && x == t.id && h[x].value == t.value && h[x].parent == ParentOf(c)
    ensures At(h, root, InL(c, t.id, t.value, t.right), t.left, h[x].left)
    ensures At(h, root, InR(c, t.id, t.value, t.left), t.right, h[x].right)
    ensures h[x].left == NULL <==> t.left.Leaf?
    ensures h[x].right == NULL <==> t.right.Leaf?
  {
  }

  function Around(c: Ctx, t: Trie): (r: Trie)
    requires !c.Top?
    ensures r.Node? && r.id == c.id && r.value == c.value && Plug(c, t) == Plug(c.up, r)
  {
    match c
    case InL(_, i, v, r) => Node(i, v, t, r)
    case InR(_, i, v, l) => Node(i, v, l, t)
  }

  lemma Up(h: seq<Rec>, root: int, c: Ctx, t: Trie, x: int)
    requires At(h, root, c, t, x) && !c.Top?
    ensures At(h, root, c.up, Around(c, t), c.id)
  {
  }

  lemma {:induction false} Close(h: seq<Rec>, root: int, c: Ctx, t: Trie, x: int)
    requires At(h, root, c, t, x)
    ensures At(h, root, Top, Plug(c, t), root)
    decreases c
  {
    if !c.Top? {
      Up(h, root, c, t, x);
      Close(h, root, c.up, Around(c, t), c.id);
    }
  }

  // ---------------------------------------------------------------- frames

  lemma {:induction false} TiedFrame(h: seq<Rec>, h': seq<Rec>, t: Trie, x: int, p: int)
    requires Tied(h, t, x, p) && |h'| == |h| && forall i :: i in Ids(t) && i < |h| ==> h'[i] == h[i]
    ensures Tied(h', t, x, p)
    decreases t
  {
    if t.Node? {
      assert x in Ids(t);
      TiedFrame(h, h', t.left, h[x].left, x);
      TiedFrame(h, h', t.right, h[x].right, x);
    }
  }

  lemma {:induction false} HungFrame(h: seq<Rec>, h': seq<Rec>, root: int, c: Ctx, x: int)
    requires Hung(h, root, c, x) && |h'| == |h| && forall i :: i in CtxIds(c) && i < |h| ==> h'[i] == h[i]
    ensures Hung(h', root, c, x)
    decreases c
  {
    match c
    case Top =>
    case InL(up, i, _, r) =>
      TiedFrame(h, h', r, h[i].right, i);
      HungFrame(h, h', root, up, i);
    case InR(up, i, _, l) =>
      TiedFrame(h, h', l, h[i].left, i);
      HungFrame(h, h', root, up, i);
  }

  /** The node in focus gets a value. */
  lemma SetValue(h: seq<Rec>, root: int, c: Ctx, t: Trie, x: int, v: int)
    requires At(h, root, c, t, x) && t.Node? && 0 <= x < |h|
    ensures At(h[x := h[x].(value := v)], root, c, t.(value := v), x)
  {
    var h' := h[x := h[x].(value := v)];
    assert x in Ids(t);
    TiedFrame(h, h', t.left, h[x].left, x);
    TiedFrame(h, h', t.right, h[x].right, x);
    HungFrame(h, h', root, c, x);
    assert Ids(t.(value := v)) == Ids(t);
  }

  /** The record at the other end of the pointer in focus. */
  function Relinked(r: Rec, c: Ctx, y: int): Rec
    requires !c.Top?
  {
    if c.InL? then r.(left := y) else r.(right := y)
  }

  lemma HungRelink(h: seq<Rec>, h': seq<Rec>, root: int, c: Ctx, x: int, y: int)
    requires Hung(h, root, c, x) && CtxApart(c) && !c.Top? && |h'| == |h| && c.id < |h|
    requires h'[c.id] == Relinked(h[c.id], c, y) && forall i :: i in CtxIds(c) && i < |h| && i != c.id ==> h'[i] == h[i]
    ensures Hung(h', root, c, y)
  {
    match c
    case InL(up, i, _, r) =>
      TiedFrame(h, h', r, h[i].right, i);
      HungFrame(h, h', root, up, i);
    case InR(up, i, _, l) =>
      TiedFrame(h, h', l, h[i].left, i);
      HungFrame(h, h', root, up, i);
  }

  /** A new node in place of a missing child. */
  lemma Grow(h: seq<Rec>, root: int, c: Ctx, y: nat)
    requires At(h, root, c, Leaf, NULL) && !c.Top? && y < |h| && y !in CtxIds(c) && c.id < |h|
    ensures At(h[y := Rec(NULL, NULL, c.id, NONE)][c.id := Relinked(h[c.id], c, y)], root, c, Node(y, NONE, Leaf, Leaf), y)
  {
    var h' := h[y := Rec(NULL, NULL, c.id, NONE)][c.id := Relinked(h[c.id], c, y)];
    HungRelink(h, h', root, c, NULL, y);
    var n := Node(y, NONE, Leaf, Leaf);
    assert Ids(Leaf) == {} && Ids(n) == {y};
    assert Tied(h', Leaf, NULL, y);
  }

  /** The node in focus, which has no children, is cut off; its record may be used for anything. */
  lemma Cut(h: seq<Rec>, root: int, c: Ctx, t: Trie, x: nat, r: Rec)
    requires At(h, root, c, t, x) && Childless(t) && !c.Top? && x < |h| && c.id < |h|
    ensures x != c.id && At(h[c.id := Relinked(h[c.id], c, NULL)][x := r], root, c, Leaf, NULL)
  {
    var h' := h[c.id := Relinked(h[c.id], c, NULL)][x := r];
    assert x in Ids(t) && c.id in CtxIds(c);
    HungRelink(h, h', root, c, x, NULL);
    assert Ids(Leaf) == {};
  }

  // ---------------------------------------------------------------- free nodes

  ghost predicate Chain(h: seq<Rec>, x: int, list: seq<nat>)
    decreases |list|
  {
    if list == [] then x == NULL
    else x == list[0] < |h| && Chain(h, h[list[0]].right, list[1..])
  }

  lemma {:induction false} ChainFrame(h: seq<Rec>, h': seq<Rec>, x: int, list: seq<nat>)
    requires Chain(h, x, list) && |h'| == |h| && forall i :: i in list && i < |h| ==> h'[i] == h[i]
    ensures Chain(h', x, list)
    decreases |list|
  {
    if list != [] {
      assert list[0] in list && forall i :: i in list[1..] ==> i in list;
      ChainFrame(h, h', h[list[0]].right, list[1..]);
    }
  }
}
