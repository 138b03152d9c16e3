/**
 Node records linked by `left`, `right` and `parent`, and what it means that they form a tree.

 Records live in one table; a pointer is an index into it and NULL is -1.  `nil` is the sentinel
 shared by all leaves: its `parent` is scratch space.  The `parent` of the root is not looked at.
 */
module RbHeap {
  import opened RbShape

  const KEYS: nat := 0x1_0000_0000_0000_0000

  datatype Rec = Rec(key: nat, left: int, right: int, parent: int, red: bool)

  /** A key is its rank reduced to 64 bits. */
  ghost predicate Holds(r: Rec, x: Item, red: bool) {
    r.key == x.rank % KEYS && r.red == red
  }

  ghost predicate ChildOf(h: seq<Rec>, t: Tree, p: int) {
    t.Node? ==> t.item.id < |h| && h[t.item.id].parent == p
  }

  /** The records reachable from x are the tree t. */
  ghost predicate Tied(h: seq<Rec>, nil: nat, t: Tree, x: int)
    decreases t
  {
    match t
    case Leaf => x == nil
    case Node(l, i, red, r) =>
      && x == i.id != nil && i.id < |h| && Holds(h[i.id], i, red)
      && Tied(h, nil, l, h[i.id].left) && Tied(h, nil, r, h[i.id].right)
      && ChildOf(h, l, i.id) && ChildOf(h, r, i.id)
  }

  /** The records around the pointer x, up to the root, are the context c. */
  ghost predicate Hung(h: seq<Rec>, nil: nat, root: int, c: Ctx, x: int)
    decreases c
  {
    match c
    case Top => root == x
    case InL(up, i, red, r) =>
      && i.id < |h| && i.id != nil && Holds(h[i.id], i, red)
      && h[i.id].left == x && Tied(h, nil, r, h[i.id].right) && ChildOf(h, r, i.id)
      && Hung(h, nil, root, up, i.id) && (!up.Top? ==> h[i.id].parent == up.item.id)
    case InR(up, i, red, l) =>
      && i.id < |h| && i.id != nil && Holds(h[i.id], i, red)
      && h[i.id].right == x && Tied(h, nil, l, h[i.id].left) && ChildOf(h, l, i.id)
      && Hung(h, nil, root, up, i.id) && (!up.Top? ==> h[i.id].parent == up.item.id)
  }

  /** The whole tree, seen from the pointer x. */
  ghost predicate At(h: seq<Rec>, nil: nat, root: int, c: Ctx, t: Tree, x: int) {
    && nil < |h| && !h[nil].red
    && Tied(h, nil, t, x) && Hung(h, nil, root, c, x)
    && (!c.Top? ==> ChildOf(h, t, c.item.id))
    && AllApart(c, t)
  }

  /** One level of a tree and its records. */
  lemma Open(h: seq<Rec>, nil: nat, t: Tree, x: int)
    requires Tied(h, nil, t, x) && Apart(t)
    ensures t.Leaf? <==> x == nil
    ensures t.Node? ==>
              && 0 <= x < |h| && x == t.item.id && Holds(h[x], t.item, t.red)
              && Tied(h, nil, t.left, h[x].left) && Tied(h, nil, t.right, h[x].right)
              && ChildOf(h, t.left, x) && ChildOf(h, t.right, x)
              && Apart(t.left) && Apart(t.right) && Ids(t.left) !! Ids(t.right)
              && x !in Ids(t.left) && x !in Ids(t.right) && x in Ids(t)
              && Ids(t) == Ids(t.left) + {t.item.id} + Ids(t.right)
  {
  }

  // ---------------------------------------------------------------- moving the focus

  lemma Down(h: seq<Rec>, nil: nat, root: int, c: Ctx, t: Tree, x: int)
    requires At(h, nil, root, c, t, x) && t.Node?
    ensures 0 <= x < |h|
    ensures At(h, nil, root, InL(c, t.item, t.red, t.right), t.left, h[x].left)
    ensures At(h, nil, root, InR(c, t.item, t.red, t.left), t.right, h[x].right)
    ensures Plug(InL(c, t.item, t.red, t.right), t.left) == Plug(c, t)
    ensures Plug(InR(c, t.item, t.red, t.left), t.right) == Plug(c, t)
  {
  }

  function Around(c: Ctx, t: Tree): (r: Tree)
    requires !c.Top?
    ensures r.Node? && r.red == c.red && r.item == c.item
  {
    match c
    case InL(_, x, red, r) => Node(t, x, red, r)
    case InR(_, x, red, l) => Node(l, x, red, t)
  }

  lemma Up(h: seq<Rec>, nil: nat, root: int, c: Ctx, t: Tree, x: int)
    requires At(h, nil, root, c, t, x) && !c.Top?
    ensures At(h, nil, root, c.up, Around(c, t), c.item.id)
    ensures Plug(c, t) == Plug(c.up, Around(c, t))
    ensures t.Node? ==> h[x].parent == c.item.id
  {
  }

  /** The tree seen from its root. */
  lemma {:induction false} Close(h: seq<Rec>, nil: nat, root: int, c: Ctx, t: Tree, x: int)
    requires At(h, nil, root, c, t, x)
    ensures At(h, nil, root, Top, Plug(c, t), root)
    decreases c
  {
    if !c.Top? {
      Up(h, nil, root, c, t, x);
      Close(h, nil, root, c.up, Around(c, t), c.item.id);
    }
  }

  /** The pointer is the root exactly when the context is empty. */
  lemma {:induction false} RootIsTop(h: seq<Rec>, nil: nat, root: int, c: Ctx, t: Tree, x: int)
    requires At(h, nil, root, c, t, x)
    ensures t.Node? ==> (x == root <==> c.Top?)
    ensures !c.Top? ==> 0 <= root < |h| && root != nil && root in CtxIds(c)
  {
    if !c.Top? { RootInCtx(h, nil, root, c, x); }
  }

  lemma {:induction false} RootInCtx(h: seq<Rec>, nil: nat, root: int, c: Ctx, x: int)
    requires Hung(h, nil, root, c, x) && !c.Top?
    ensures 0 <= root < |h| && root != nil && root in CtxIds(c)
    decreases c
  {
    if !c.up.Top? { RootInCtx(h, nil, root, c.up, c.item.id); }
  }

  lemma {:induction false} IdsInHeap(h: seq<Rec>, nil: nat, t: Tree, x: int)
    requires Tied(h, nil, t, x)
    ensures forall i :: i in Ids(t) ==> i < |h| && i != nil
    decreases t
  {
    if t.Node? {
      IdsInHeap(h, nil, t.left, h[x].left);
      IdsInHeap(h, nil, t.right, h[x].right);
    }
  }

  lemma {:induction false} CtxIdsInHeap(h: seq<Rec>, nil: nat, root: int, c: Ctx, x: int)
    requires Hung(h, nil, root, c, x)
    ensures forall i :: i in CtxIds(c) ==> i < |h| && i != nil
    decreases c
  {
    match c
    case Top =>
    case InL(up, i, _, r) =>
      IdsInHeap(h, nil, r, h[i.id].right);
      CtxIdsInHeap(h, nil, root, up, i.id);
    case InR(up, i, _, l) =>
      IdsInHeap(h, nil, l, h[i.id].left);
      CtxIdsInHeap(h, nil, root, up, i.id);
  }

  // ---------------------------------------------------------------- frames

  /** Nothing changed in the records of `s`, except that `top` may have a new parent. */
  ghost predicate Same(h: seq<Rec>, h': seq<Rec>, s: set<nat>, top: int) {
    && |h'| == |h|
    && forall i :: i in s && i < |h| ==> h'[i] == if i == top then h[i].(parent := h'[i].parent) else h[i]
  }

  lemma {:induction false} TiedFrame(h: seq<Rec>, h': seq<Rec>, nil: nat, t: Tree, x: int)
    requires Tied(h, nil, t, x) && Apart(t) && Same(h, h', Ids(t), x)
    ensures Tied(h', nil, t, x)
    decreases t
  {
    if t.Node? {
      var l, r := t.left, t.right;
      if l.Node? { assert l.item.id in Ids(l); }
      if r.Node? { assert r.item.id in Ids(r); }
      assert x in Ids(t);
      assert forall i :: i in Ids(l) ==> i in Ids(t) && i != x;
      assert forall i :: i in Ids(r) ==> i in Ids(t) && i != x;
      TiedFrame(h, h', nil, l, h[x].left);
      TiedFrame(h, h', nil, r, h[x].right);
    }
  }

  lemma {:induction false} HungFrame(h: seq<Rec>, h': seq<Rec>, nil: nat, root: int, c: Ctx, x: int)
    requires Hung(h, nil, root, c, x) && CtxApart(c) && Same(h, h', CtxIds(c), -1)
    ensures Hung(h', nil, root, c, x)
    decreases c
  {
    match c
    case Top =>
    case InL(up, i, red, r) =>
      if r.Node? { assert r.item.id in Ids(r); }
      TiedFrame(h, h', nil, r, h[i.id].right);
      HungFrame(h, h', nil, root, up, i.id);
    case InR(up, i, red, l) =>
      if l.Node? { assert l.item.id in Ids(l); }
      TiedFrame(h, h', nil, l, h[i.id].left);
      HungFrame(h, h', nil, root, up, i.id);
  }

  /** The pointer that leads to the focus, with y in place of what it held. */
  ghost predicate Relinked(h: seq<Rec>, h': seq<Rec>, root: int, root': int, c: Ctx, y: int) {
    && |h'| == |h|
    && (match c
        case Top => root' == y
        case InL(_, i, _, _) => root' == root && i.id < |h| && h'[i.id] == h[i.id].(left := y)
        case InR(_, i, _, _) => root' == root && i.id < |h| && h'[i.id] == h[i.id].(right := y))
    && forall i :: i in CtxIds(c) && i < |h| && (c.Top? || i != c.item.id) ==> h'[i] == h[i]
  }

  lemma HungRelink(h: seq<Rec>, h': seq<Rec>, nil: nat, root: int, root': int, c: Ctx, x: int, y: int)
    requires Hung(h, nil, root, c, x) && CtxApart(c) && Relinked(h, h', root, root', c, y)
    ensures Hung(h', nil, root', c, y)
  {
    match c
    case Top =>
    case InL(up, i, red, r) =>
      if r.Node? { assert r.item.id in Ids(r); }
      TiedFrame(h, h', nil, r, h[i.id].right);
      HungFrame(h, h', nil, root, up, i.id);
    case InR(up, i, red, l) =>
      if l.Node? { assert l.item.id in Ids(l); }
      TiedFrame(h, h', nil, l, h[i.id].left);
      HungFrame(h, h', nil, root, up, i.id);
  }

  // ---------------------------------------------------------------- colours

  lemma DyeTied(h: seq<Rec>, h': seq<Rec>, nil: nat, t: Tree, x: int, red: bool)
    requires Tied(h, nil, t, x) && Apart(t) && t.Node? && 0 <= x < |h| && h' == h[x := h[x].(red := red)]
    ensures Tied(h', nil, t.(red := red), x)
  {
    Open(h, nil, t, x);
    Open(h, nil, t.left, h[x].left);
    Open(h, nil, t.right, h[x].right);
    TiedFrame(h, h', nil, t.left, h[x].left);
    TiedFrame(h, h', nil, t.right, h[x].right);
  }

  lemma DyeTop(h: seq<Rec>, h': seq<Rec>, nil: nat, root: int, c: Ctx, t: Tree, x: int, red: bool)
    requires At(h, nil, root, c, t, x) && t.Node? && 0 <= x < |h| && h' == h[x := h[x].(red := red)]
    ensures At(h', nil, root, c, t.(red := red), x)
    ensures Inorder(Plug(c, t.(red := red))) == Inorder(Plug(c, t))
  {
    var t' := t.(red := red);
    Open(h, nil, t, x);
    DyeTied(h, h', nil, t, x, red);
    HungFrame(h, h', nil, root, c, x);
    InorderPlug(c, t);
    InorderPlug(c, t');
    assert Ids(t') == Ids(t) && Apart(t') && Inorder(t') == Inorder(t);
  }

  lemma DyeLeft(h: seq<Rec>, h': seq<Rec>, nil: nat, root: int, c: Ctx, t: Tree, x: int, red: bool)
    requires At(h, nil, root, c, t, x) && t.Node? && t.left.Node? && 0 <= x < |h| && 0 <= h[x].left < |h|
    requires h' == h[h[x].left := h[h[x].left].(red := red)]
    ensures At(h', nil, root, c, t.(left := t.left.(red := red)), x)
    ensures Inorder(Plug(c, t.(left := t.left.(red := red)))) == Inorder(Plug(c, t))
  {
    Down(h, nil, root, c, t, x);
    var c', l := InL(c, t.item, t.red, t.right), t.left;
    DyeTop(h, h', nil, root, c', l, h[x].left, red);
    Up(h', nil, root, c', l.(red := red), h[x].left);
  }

  lemma DyeRight(h: seq<Rec>, h': seq<Rec>, nil: nat, root: int, c: Ctx, t: Tree, x: int, red: bool)
    requires At(h, nil, root, c, t, x) && t.Node? && t.right.Node? && 0 <= x < |h| && 0 <= h[x].right < |h|
    requires h' == h[h[x].right := h[h[x].right].(red := red)]
    ensures At(h', nil, root, c, t.(right := t.right.(red := red)), x)
    ensures Inorder(Plug(c, t.(right := t.right.(red := red)))) == Inorder(Plug(c, t))
  {
    Down(h, nil, root, c, t, x);
    var c', r := InR(c, t.item, t.red, t.left), t.right;
    DyeTop(h, h', nil, root, c', r, h[x].right, red);
    Up(h', nil, root, c', r.(red := red), h[x].right);
  }

  /** The colour read through a pointer is the colour of the subtree there. */
  lemma ColourAt(h: seq<Rec>, nil: nat, root: int, c: Ctx, t: Tree, x: int)
    requires At(h, nil, root, c, t, x)
    ensures 0 <= x < |h| && h[x].red == Red(t) && (x == nil <==> t.Leaf?)
    ensures t.Node? ==> 0 <= h[x].left < |h| && 0 <= h[x].right < |h|
    ensures t.Node? ==> h[h[x].left].red == Red(t.left) && h[h[x].right].red == Red(t.right)
    ensures t.Node? ==> (h[x].left == nil <==> t.left.Leaf?) && (h[x].right == nil <==> t.right.Leaf?)
  {
    Open(h, nil, t, x);
    if t.Node? {
      Open(h, nil, t.left, h[x].left);
      Open(h, nil, t.right, h[x].right);
    }
  }
}
