/**
 Which records an operation on a linked tree touches: those of the tree and the sentinel.
 */
module RbFrame {
  import opened RbShape
  import opened RbHeap
  import opened RbRotate
  import opened RbSplice

  // ---------------------------------------------------------------- addresses of items

  ghost function IdSet(s: seq<Item>): set<nat> {
    set i | 0 <= i < |s| :: s[i].id
  }

  lemma IdSetConcat(a: seq<Item>, b: seq<Item>)
    ensures IdSet(a + b) == IdSet(a) + IdSet(b)
  {
    forall id | id in IdSet(a) + IdSet(b) ensures id in IdSet(a + b) {
      if id in IdSet(a) {
        var i :| 0 <= i < |a| && a[i].id == id;
        assert (a + b)[i].id == id;
      } else {
        var i :| 0 <= i < |b| && b[i].id == id;
        assert (a + b)[|a| + i].id == id;
      }
    }
  }

  lemma IdSetOne(x: Item)
    ensures IdSet([x]) == {x.id}
  {
    assert [x][0].id in IdSet([x]);
  }

  /** The in-order sequence has the tree's addresses. */
  lemma {:induction false} IdsAreItems(t: Tree)
    ensures Ids(t) == IdSet(Inorder(t))
  {
    if t.Node? {
      IdsAreItems(t.left);
      IdsAreItems(t.right);
      IdSetOne(t.item);
      IdSetConcat(Inorder(t.left), [t.item]);
      IdSetConcat(Inorder(t.left) + [t.item], Inorder(t.right));
    }
  }

  lemma {:induction false} CtxIdsAreItems(c: Ctx)
    ensures CtxIds(c) == IdSet(Pre(c)) + IdSet(Post(c))
  {
    match c
    case Top =>
    case InL(up, x, _, r) =>
      CtxIdsAreItems(up);
      IdsAreItems(r);
      IdSetOne(x);
      IdSetConcat([x], Inorder(r));
      IdSetConcat([x] + Inorder(r), Post(up));
    case InR(up, x, _, l) =>
      CtxIdsAreItems(up);
      IdsAreItems(l);
      IdSetOne(x);
      IdSetConcat(Pre(up), Inorder(l));
      IdSetConcat(Pre(up) + Inorder(l), [x]);
  }

  /** No address occurs twice in the sequence. */
  lemma {:induction false} OncePerId(t: Tree, i: nat, j: nat)
    requires Apart(t) && i < |Inorder(t)| && j < |Inorder(t)| && Inorder(t)[i].id == Inorder(t)[j].id
    ensures i == j
    decreases t
  {
    var l, n := Inorder(t.left), |Inorder(t.left)|;
    SideOf(t, i);
    SideOf(t, j);
    if i < n && j < n {
      OncePerId(t.left, i, j);
    } else if i > n && j > n {
      OncePerId(t.right, i - n - 1, j - n - 1);
    }
  }

  lemma SideOf(t: Tree, i: nat)
    requires t.Node? && i < |Inorder(t)|
    ensures var n := |Inorder(t.left)|; var x := Inorder(t)[i];
            if i < n then x == Inorder(t.left)[i] && x.id in Ids(t.left)
            else if i == n then x == t.item
            else i - n - 1 < |Inorder(t.right)| && x == Inorder(t.right)[i - n - 1] && x.id in Ids(t.right)
  {
    IdsAreItems(t.left);
    IdsAreItems(t.right);
  }

  /** One item more. */
  lemma IdsInserted(t: Tree, t': Tree, a: seq<Item>, x: Item, b: seq<Item>)
    requires Inorder(t) == a + b && Inorder(t') == a + [x] + b
    ensures Ids(t') == Ids(t) + {x.id}
  {
    IdsAreItems(t);
    IdsAreItems(t');
    IdSetOne(x);
    IdSetConcat(a, b);
    IdSetConcat(a, [x]);
    IdSetConcat(a + [x], b);
  }

  /** One item less. */
  lemma IdsRemoved(c: Ctx, t: Tree, t': Tree)
    requires t.Node? && AllApart(c, t) && Inorder(t') == Pre(c) + (Inorder(t.left) + Inorder(t.right)) + Post(c)
    ensures Ids(t') == Ids(Plug(c, t)) - {t.item.id}
  {
    FewerIds(c, t, Inorder(t'));
    IdsAreItems(t');
  }

  // ---------------------------------------------------------------- frames

  /** Only records of w have changed. */
  ghost predicate Framed(h: seq<Rec>, h': seq<Rec>, w: set<nat>) {
    |h'| == |h| && forall i :: 0 <= i < |h| && i !in w ==> h'[i] == h[i]
  }

  lemma FramedTwice(h: seq<Rec>, h1: seq<Rec>, h2: seq<Rec>, w: set<nat>)
    requires Framed(h, h1, w) && Framed(h1, h2, w)
    ensures Framed(h, h2, w)
  {
  }

  lemma FramedMore(h: seq<Rec>, h': seq<Rec>, w: set<nat>, w': set<nat>)
    requires Framed(h, h', w) && w <= w'
    ensures Framed(h, h', w')
  {
  }

  /** Only colours of records of w have changed. */
  ghost predicate Dyed(h: seq<Rec>, h': seq<Rec>, w: set<nat>) {
    |h'| == |h| && forall i :: 0 <= i < |h| ==> h'[i] == if i in w then h[i].(red := h'[i].red) else h[i]
  }

  /** The links of record i stay in w. */
  ghost predicate Enclosed(h: seq<Rec>, root: int, w: set<nat>, i: nat) {
    i < |h| && h[i].left in w && h[i].right in w && (i != root ==> h[i].parent in w)
  }

  ghost predicate Closed(h: seq<Rec>, nil: nat, root: int, w: set<nat>) {
    forall i :: i in w && i != nil ==> Enclosed(h, root, w, i)
  }

  /** The records of a tree, and the sentinel. */
  ghost function Scope(nil: nat, items: seq<Item>): set<nat> {
    IdSet(items) + {nil}
  }

  lemma PtrInScope(h: seq<Rec>, nil: nat, t: Tree, x: int)
    requires Tied(h, nil, t, x)
    ensures x in Ids(t) + {nil}
  {
  }

  /** The links of a tree lead nowhere else. */
  lemma AtClosed(h: seq<Rec>, nil: nat, root: int, t: Tree)
    requires At(h, nil, root, Top, t, root)
    ensures Closed(h, nil, root, Ids(t) + {nil})
  {
    var w := Ids(t) + {nil};
    forall i | i in w && i != nil ensures Enclosed(h, root, w, i) {
      var c, s := Focus(h, nil, root, t, i);
      PlugApart(c, s);
      Open(h, nil, s, i);
      PtrInScope(h, nil, s.left, h[i].left);
      PtrInScope(h, nil, s.right, h[i].right);
      RootIsTop(h, nil, root, c, s, i);
      if !c.Top? { ParentSide(h, nil, root, c, s, i); }
    }
  }

  /** The same, seen from inside. */
  lemma InScope(h: seq<Rec>, nil: nat, root: int, c: Ctx, t: Tree, x: int, items: seq<Item>)
    requires At(h, nil, root, c, t, x) && Inorder(Plug(c, t)) == items
    ensures Closed(h, nil, root, Scope(nil, items)) && x in Scope(nil, items)
    ensures !c.Top? ==> c.item.id in Scope(nil, items) && c.item.id != nil
    ensures !c.Top? && !c.up.Top? ==> c.up.item.id in Scope(nil, items) && c.up.item.id != nil
  {
    Close(h, nil, root, c, t, x);
    AtClosed(h, nil, root, Plug(c, t));
    IdsAreItems(Plug(c, t));
    AncestorIds(h, nil, root, c, t, x, Ids(Plug(c, t)));
  }

  lemma AncestorIds(h: seq<Rec>, nil: nat, root: int, c: Ctx, t: Tree, x: int, ids: set<nat>)
    requires At(h, nil, root, c, t, x) && ids == Ids(Plug(c, t))
    ensures x in ids + {nil}
    ensures !c.Top? ==> c.item.id in ids && c.item.id != nil
    ensures !c.Top? && !c.up.Top? ==> c.up.item.id in ids && c.up.item.id != nil
  {
    PlugApart(c, t);
    PtrInScope(h, nil, t, x);
    if !c.Top? { HeadIds(h, nil, root, c, x); }
  }

  lemma HeadIds(h: seq<Rec>, nil: nat, root: int, c: Ctx, x: int)
    requires Hung(h, nil, root, c, x) && !c.Top?
    ensures c.item.id in CtxIds(c) && c.item.id != nil
    ensures !c.up.Top? ==> c.up.item.id in CtxIds(c) && c.up.item.id != nil
  {
    if !c.up.Top? { assert c.up.item.id in CtxIds(c.up); }
  }

  lemma DyedClosed(h: seq<Rec>, h': seq<Rec>, nil: nat, root: int, w: set<nat>)
    requires Closed(h, nil, root, w) && Dyed(h, h', w)
    ensures Closed(h', nil, root, w) && Framed(h, h', w)
  {
    forall i | i in w && i != nil ensures Enclosed(h', root, w, i) {
      assert Enclosed(h, root, w, i);
    }
  }

  /** Recolouring and a rotation stay inside. */
  lemma LeftFrame(h: seq<Rec>, h1: seq<Rec>, h2: seq<Rec>, nil: nat, root: int, root': int, x: nat, w: set<nat>)
    requires Closed(h, nil, root, w) && Dyed(h, h1, w) && LeftRotated(h1, h2, nil, root, root', x)
    requires x in w && x != nil && h[x].right != nil
    ensures Framed(h, h2, w)
  {
    DyedClosed(h, h1, nil, root, w);
    assert Enclosed(h1, root, w, x);
    var y := h1[x].right;
    assert Enclosed(h1, root, w, y);
    forall i | 0 <= i < |h| && i !in w ensures h2[i] == h[i] {
      assert LeftRotatedAt(h1, h2[i], nil, root, x, i);
    }
  }

  lemma RightFrame(h: seq<Rec>, h1: seq<Rec>, h2: seq<Rec>, nil: nat, root: int, root': int, x: nat, w: set<nat>)
    requires Closed(h, nil, root, w) && Dyed(h, h1, w) && RightRotated(h1, h2, nil, root, root', x)
    requires x in w && x != nil && h[x].left != nil
    ensures Framed(h, h2, w)
  {
    DyedClosed(h, h1, nil, root, w);
    assert Enclosed(h1, root, w, x);
    var y := h1[x].left;
    assert Enclosed(h1, root, w, y);
    forall i | 0 <= i < |h| && i !in w ensures h2[i] == h[i] {
      assert RightRotatedAt(h1, h2[i], nil, root, x, i);
    }
  }

  // ---------------------------------------------------------------- one round

  /** The record at x, its children, and their children. */
  ghost predicate Near(h: seq<Rec>, nil: nat, x: nat, i: nat)
    requires x < |h|
  {
    i == x || i == h[x].left || i == h[x].right || NextTo(h, nil, h[x].left, i) || NextTo(h, nil, h[x].right, i)
  }

  ghost predicate NextTo(h: seq<Rec>, nil: nat, x: int, i: nat) {
    x != nil && 0 <= x < |h| && (i == h[x].left || i == h[x].right)
  }

  /** At most the colours of i, j and k have changed. */
  ghost predicate Recoloured(h: seq<Rec>, h': seq<Rec>, i: nat, j: nat, k: nat) {
    && |h'| == |h| && i < |h| && j < |h| && k < |h|
    && h'[i] == h[i].(red := h'[i].red) && h'[j] == h[j].(red := h'[j].red) && h'[k] == h[k].(red := h'[k].red)
    && forall n :: 0 <= n < |h| && n != i && n != j && n != k ==> h'[n] == h[n]
  }

  lemma NearScope(h: seq<Rec>, nil: nat, root: int, w: set<nat>, x: nat, i: nat)
    requires Closed(h, nil, root, w) && nil in w && x in w && x != nil && x < |h| && Near(h, nil, x, i)
    ensures i in w
  {
    assert Enclosed(h, root, w, x);
    if NextTo(h, nil, h[x].left, i) { assert Enclosed(h, root, w, h[x].left); }
    if NextTo(h, nil, h[x].right, i) { assert Enclosed(h, root, w, h[x].right); }
  }

  /** Recolouring around x stays inside. */
  lemma ColourFrame(h: seq<Rec>, h': seq<Rec>, nil: nat, root: int, c: Ctx, t: Tree, x: nat, items: seq<Item>, i: nat, j: nat, k: nat)
    requires At(h, nil, root, c, t, x) && t.Node? && Inorder(Plug(c, t)) == items && x < |h|
    requires Near(h, nil, x, i) && Near(h, nil, x, j) && Near(h, nil, x, k) && Recoloured(h, h', i, j, k)
    ensures Closed(h, nil, root, Scope(nil, items)) && Dyed(h, h', Scope(nil, items)) && Framed(h, h', Scope(nil, items))
    ensures x in Scope(nil, items) && x != nil
  {
    var w := Scope(nil, items);
    InScope(h, nil, root, c, t, x, items);
    Open(h, nil, t, x);
    NearScope(h, nil, root, w, x, i);
    NearScope(h, nil, root, w, x, j);
    NearScope(h, nil, root, w, x, k);
    RecolouredDyed(h, h', i, j, k, w);
  }

  lemma RecolouredDyed(h: seq<Rec>, h': seq<Rec>, i: nat, j: nat, k: nat, w: set<nat>)
    requires Recoloured(h, h', i, j, k) && i in w && j in w && k in w
    ensures Dyed(h, h', w) && Framed(h, h', w)
  {
  }

  /** Recolouring around x and a rotation at x stay inside. */
  lemma TurnLeftFrame(h: seq<Rec>, h1: seq<Rec>, h2: seq<Rec>, nil: nat, root: int, root': int, c: Ctx, t: Tree, x: nat,
                      items: seq<Item>, i: nat, j: nat, k: nat)
    requires At(h, nil, root, c, t, x) && CanRotL(t) && Inorder(Plug(c, t)) == items && x < |h|
    requires Near(h, nil, x, i) && Near(h, nil, x, j) && Near(h, nil, x, k) && Recoloured(h, h1, i, j, k)
    requires LeftRotated(h1, h2, nil, root, root', x)
    ensures Framed(h, h2, Scope(nil, items))
  {
    ColourFrame(h, h1, nil, root, c, t, x, items, i, j, k);
    LeftFacts(h, nil, root, c, t, x);
    LeftFrame(h, h1, h2, nil, root, root', x, Scope(nil, items));
  }

  lemma TurnRightFrame(h: seq<Rec>, h1: seq<Rec>, h2: seq<Rec>, nil: nat, root: int, root': int, c: Ctx, t: Tree, x: nat,
                       items: seq<Item>, i: nat, j: nat, k: nat)
    requires At(h, nil, root, c, t, x) && CanRotR(t) && Inorder(Plug(c, t)) == items && x < |h|
    requires Near(h, nil, x, i) && Near(h, nil, x, j) && Near(h, nil, x, k) && Recoloured(h, h1, i, j, k)
    requires RightRotated(h1, h2, nil, root, root', x)
    ensures Framed(h, h2, Scope(nil, items))
  {
    ColourFrame(h, h1, nil, root, c, t, x, items, i, j, k);
    RightFacts(h, nil, root, c, t, x);
    RightFrame(h, h1, h2, nil, root, root', x, Scope(nil, items));
  }

  /** A record that takes over the place of x. */
  lemma ReplacedFrame(h: seq<Rec>, h': seq<Rec>, nil: nat, root: int, root': int, x: nat, y: nat, w: set<nat>)
    requires Replaced(h, h', nil, root, root', x, y) && x in w && y in w && nil in w && Enclosed(h, root, w, x)
    ensures Framed(h, h', w)
  {
    forall i | 0 <= i < |h| && i !in w ensures h'[i] == h[i] {
      assert ReplacedAt(h, h'[i], nil, root, x, y, i);
    }
  }

  /** A node with at most one child is taken out. */
  lemma SelfFrame(h: seq<Rec>, h': seq<Rec>, nil: nat, root: int, c: Ctx, t: Tree, x: nat, s: Tree, temp: nat)
    requires At(h, nil, root, c, t, x) && !c.Top? && Splices(t, s) && temp == Ptr(nil, s)
    requires c.item.id < |h| && temp < |h| && x < |h|
    requires h' == h[c.item.id := Redirected(h[c.item.id], x, temp)][temp := h[temp].(parent := c.item.id)][x := Cleared(h[x])]
    ensures Framed(h, h', Ids(Plug(c, t)) + {nil})
  {
    AncestorIds(h, nil, root, c, t, x, Ids(Plug(c, t)));
    PlugApart(c, t);
    Open(h, nil, t, x);
    PtrInIds(nil, s);
  }

  lemma PtrInIds(nil: nat, t: Tree)
    ensures Ptr(nil, t) in Ids(t) + {nil}
  {
  }

  /** The successor of a node takes its place. */
  lemma SuccessorFrame(h: seq<Rec>, h2: seq<Rec>, h': seq<Rec>, nil: nat, root: int, root': int, c: Ctx, t: Tree, d: Ctx, u: Tree, x: nat, y: nat, temp: nat)
    requires Pair(h, nil, root, c, t, d, u, x, y) && temp == Ptr(nil, u.right) && temp < |h|
    requires x < |h| && y < |h| && 0 <= h[y].parent < |h| && temp != h[y].parent && temp != y && h[y].parent != y
    requires var h1 := h[h[y].parent := Redirected(h[h[y].parent], y, temp)];
             Replaced(h1[temp := h1[temp].(parent := h[y].parent)], h2, nil, root, root', x, y)
    requires x < |h2| && h' == h2[x := Cleared(h2[x])]
    ensures Framed(h, h', Ids(Plug(c, t)) + {nil})
  {
    var w := Ids(Plug(c, t)) + {nil};
    var hA := h[h[y].parent := Redirected(h[h[y].parent], y, temp)][temp := h[temp].(parent := h[y].parent)];
    SuccessorScope(h, nil, root, c, t, d, u, x, y, temp, w);
    assert Framed(h, hA, w);
    assert Enclosed(hA, root, w, x);
    ReplacedFrame(hA, h2, nil, root, root', x, y, w);
    FramedTwice(h, hA, h2, w);
  }

  lemma SuccessorScope(h: seq<Rec>, nil: nat, root: int, c: Ctx, t: Tree, d: Ctx, u: Tree, x: nat, y: nat, temp: nat, w: set<nat>)
    requires Pair(h, nil, root, c, t, d, u, x, y) && temp == Ptr(nil, u.right) && temp < |h| && w == Ids(Plug(c, t)) + {nil}
    ensures x in w && y in w && temp in w && h[y].parent in w && x < |h| && y < |h| && Enclosed(h, root, w, x) && temp != x
  {
    var k := Onto(d, InR(c, t.item, t.red, t.left));
    PairIds(h, nil, root, c, t, d, u, x, y);
    PairParent(h, nil, root, c, t, d, u, x, y);
    PlugOnto(d, InR(c, t.item, t.red, t.left), u);
    assert Plug(k, u) == Plug(c, t);
    AncestorIds(h, nil, root, k, u, y, Ids(Plug(c, t)));
    AncestorIds(h, nil, root, c, t, x, Ids(Plug(c, t)));
    PlugApart(k, u);
    PtrInIds(nil, u.right);
    Close(h, nil, root, c, t, x);
    AtClosed(h, nil, root, Plug(c, t));
  }

  lemma FewerIds(c: Ctx, t: Tree, items: seq<Item>)
    requires t.Node? && AllApart(c, t) && items == Pre(c) + (Inorder(t.left) + Inorder(t.right)) + Post(c)
    ensures IdSet(items) == Ids(Plug(c, t)) - {t.item.id}
  {
    var l, r := Inorder(t.left), Inorder(t.right);
    IdsAreItems(t.left);
    IdsAreItems(t.right);
    CtxIdsAreItems(c);
    PlugApart(c, t);
    IdSetConcat(l, r);
    IdSetConcat(Pre(c), l + r);
    IdSetConcat(Pre(c) + (l + r), Post(c));
  }
}
