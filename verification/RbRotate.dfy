/**
 The two rotations: what they do to the records and to the tree.
 */
module RbRotate {
  import opened RbShape
  import opened RbHeap

  predicate CanRotL(t: Tree) { t.Node? && t.right.Node? }

  predicate CanRotR(t: Tree) { t.Node? && t.left.Node? }

  function RotL(t: Tree): Tree
    requires CanRotL(t)
  {
    Node(Node(t.left, t.item, t.red, t.right.left), t.right.item, t.right.red, t.right.right)
  }

  function RotR(t: Tree): Tree
    requires CanRotR(t)
  {
    Node(t.left.left, t.left.item, t.left.red, Node(t.left.right, t.item, t.red, t.right))
  }

  lemma RotInorderL(t: Tree)
    requires CanRotL(t)
    ensures Inorder(RotL(t)) == Inorder(t) && Ids(RotL(t)) == Ids(t)
    ensures Apart(t) ==> Apart(RotL(t))
  {
    var a, b, c := t.left, t.right.left, t.right.right;
    assert Inorder(t.right) == Inorder(b) + [t.right.item] + Inorder(c);
    assert Inorder(RotL(t).left) == Inorder(a) + [t.item] + Inorder(b);
    assert Inorder(a) + [t.item] + (Inorder(b) + [t.right.item] + Inorder(c))
        == (Inorder(a) + [t.item] + Inorder(b)) + [t.right.item] + Inorder(c);
    assert Ids(t.right) == Ids(b) + {t.right.item.id} + Ids(c);
    assert Ids(RotL(t).left) == Ids(a) + {t.item.id} + Ids(b);
    assert Apart(t) ==> Apart(t.right) && Apart(RotL(t).left);
  }

  lemma RotInorderR(t: Tree)
    requires CanRotR(t)
    ensures Inorder(RotR(t)) == Inorder(t) && Ids(RotR(t)) == Ids(t)
    ensures Apart(t) ==> Apart(RotR(t))
  {
    var a, b, c := t.left.left, t.left.right, t.right;
    assert Inorder(t.left) == Inorder(a) + [t.left.item] + Inorder(b);
    assert Inorder(RotR(t).right) == Inorder(b) + [t.item] + Inorder(c);
    assert (Inorder(a) + [t.left.item] + Inorder(b)) + [t.item] + Inorder(c)
        == Inorder(a) + [t.left.item] + (Inorder(b) + [t.item] + Inorder(c));
    assert Ids(t.left) == Ids(a) + {t.left.item.id} + Ids(b);
    assert Ids(RotR(t).right) == Ids(b) + {t.item.id} + Ids(c);
    assert Apart(t) ==> Apart(t.left) && Apart(RotR(t).right);
  }

  /** The six assignments of ngx_rbtree_left_rotate. */
  ghost predicate LeftRotated(h: seq<Rec>, h': seq<Rec>, nil: nat, root: int, root': int, x: nat) {
    && |h'| == |h| && x < |h| && 0 <= h[x].right < |h|
    && root' == (if x == root then h[x].right else root)
    && forall i :: 0 <= i < |h| ==> LeftRotatedAt(h, h'[i], nil, root, x, i)
  }

  ghost predicate LeftRotatedAt(h: seq<Rec>, r: Rec, nil: nat, root: int, x: nat, i: nat)
    requires x < |h| && i < |h| && 0 <= h[x].right < |h|
  {
    var y, p := h[x].right, h[x].parent;
    var b := h[y].left;
    r == if i == x then h[x].(right := b, parent := y)
         else if i == y then h[y].(left := x, parent := p)
         else if i == b && b != nil then h[i].(parent := x)
         else if x != root && i == p then (if h[i].left == x then h[i].(left := y) else h[i].(right := y))
         else h[i]
  }

  ghost predicate RightRotated(h: seq<Rec>, h': seq<Rec>, nil: nat, root: int, root': int, x: nat) {
    && |h'| == |h| && x < |h| && 0 <= h[x].left < |h|
    && root' == (if x == root then h[x].left else root)
    && forall i :: 0 <= i < |h| ==> RightRotatedAt(h, h'[i], nil, root, x, i)
  }

  ghost predicate RightRotatedAt(h: seq<Rec>, r: Rec, nil: nat, root: int, x: nat, i: nat)
    requires x < |h| && i < |h| && 0 <= h[x].left < |h|
  {
    var y, p := h[x].left, h[x].parent;
    var b := h[y].right;
    r == if i == x then h[x].(left := b, parent := y)
         else if i == y then h[y].(right := x, parent := p)
         else if i == b && b != nil then h[i].(parent := x)
         else if x != root && i == p then (if h[i].right == x then h[i].(right := y) else h[i].(left := y))
         else h[i]
  }

  /** A node's parent record points at it from the side the context says, and from that side only. */
  lemma ParentSide(h: seq<Rec>, nil: nat, root: int, c: Ctx, t: Tree, x: int)
    requires At(h, nil, root, c, t, x) && t.Node? && !c.Top?
    ensures 0 <= x < |h| && x != root && 0 <= h[x].parent < |h| && h[x].parent == c.item.id && h[x].parent !in Ids(t)
    ensures h[x].parent != nil && h[x].parent in CtxIds(c)
    ensures c.InL? <==> h[h[x].parent].left == x
    ensures c.InR? <==> h[h[x].parent].right == x
  {
    RootIsTop(h, nil, root, c, t, x);
    Open(h, nil, t, x);
    match c
    case InL(up, i, _, r) => Open(h, nil, r, h[i.id].right);
    case InR(up, i, _, l) => Open(h, nil, l, h[i.id].left);
  }

  /** The distinctness the rotation relies on. */
  lemma LeftFacts(h: seq<Rec>, nil: nat, root: int, c: Ctx, t: Tree, x: int)
    requires At(h, nil, root, c, t, x) && CanRotL(t)
    ensures 0 <= x < |h| && x != nil && 0 <= h[x].right < |h| && h[x].right != nil && h[x].right != x
    ensures var b := h[h[x].right].left; 0 <= b < |h| && b != x && b != h[x].right
    ensures x == root <==> c.Top?
    ensures x != root ==> 0 <= h[x].parent < |h| && h[x].parent != x && h[x].parent != h[x].right
    ensures x != root ==> h[x].parent != h[h[x].right].left && h[x].parent != nil
    ensures h[x].right == t.right.item.id
  {
    RootIsTop(h, nil, root, c, t, x);
    Open(h, nil, t, x);
    Open(h, nil, t.right, h[x].right);
    Open(h, nil, t.right.left, h[h[x].right].left);
    if !c.Top? { ParentSide(h, nil, root, c, t, x); }
  }

  /** The three subtrees a rotation moves around are untouched inside. */
  lemma LeftParts(h: seq<Rec>, h': seq<Rec>, nil: nat, root: int, root': int, c: Ctx, t: Tree, x: int)
    requires At(h, nil, root, c, t, x) && CanRotL(t) && 0 <= x && LeftRotated(h, h', nil, root, root', x)
    ensures 0 <= h[x].right < |h|
    ensures var y := h[x].right;
            && Tied(h', nil, t.left, h[x].left) && ChildOf(h', t.left, x)
            && Tied(h', nil, t.right.left, h[y].left) && ChildOf(h', t.right.left, x)
            && Tied(h', nil, t.right.right, h[y].right) && ChildOf(h', t.right.right, y)
  {
    LeftFacts(h, nil, root, c, t, x);
    var y := h[x].right;
    var a, b, d := t.left, t.right.left, t.right.right;
    if !c.Top? { ParentSide(h, nil, root, c, t, x); }
    Open(h, nil, t, x);
    Open(h, nil, t.right, y);
    Open(h, nil, a, h[x].left); Open(h, nil, b, h[y].left); Open(h, nil, d, h[y].right);
    IdsInHeap(h, nil, t, x);
    forall i | i in Ids(a) || i in Ids(d) ensures h'[i] == h[i] {
      assert LeftRotatedAt(h, h'[i], nil, root, x, i);
    }
    forall i | i in Ids(b) ensures h'[i] == if i == h[y].left then h[i].(parent := x) else h[i] {
      assert LeftRotatedAt(h, h'[i], nil, root, x, i);
    }
    TiedFrame(h, h', nil, a, h[x].left);
    TiedFrame(h, h', nil, b, h[y].left);
    TiedFrame(h, h', nil, d, h[y].right);
  }

  lemma LeftTied(h: seq<Rec>, h': seq<Rec>, nil: nat, root: int, root': int, c: Ctx, t: Tree, x: int)
    requires At(h, nil, root, c, t, x) && CanRotL(t) && 0 <= x && LeftRotated(h, h', nil, root, root', x)
    ensures Tied(h', nil, RotL(t), h[x].right)
  {
    LeftFacts(h, nil, root, c, t, x);
    LeftParts(h, h', nil, root, root', c, t, x);
    var y := h[x].right;
    Open(h, nil, t, x);
    Open(h, nil, t.right, y);
    assert LeftRotatedAt(h, h'[x], nil, root, x, x) && LeftRotatedAt(h, h'[y], nil, root, x, y);
    assert Tied(h', nil, RotL(t).left, x);
  }

  lemma RotateLeft(h: seq<Rec>, h': seq<Rec>, nil: nat, root: int, root': int, c: Ctx, t: Tree, x: int)
    requires At(h, nil, root, c, t, x) && CanRotL(t) && 0 <= x && LeftRotated(h, h', nil, root, root', x)
    ensures At(h', nil, root', c, RotL(t), h[x].right)
    ensures Inorder(Plug(c, RotL(t))) == Inorder(Plug(c, t))
  {
    LeftFacts(h, nil, root, c, t, x);
    LeftTied(h, h', nil, root, root', c, t, x);
    RotInorderL(t);
    InorderPlug(c, t);
    InorderPlug(c, RotL(t));
    LeftHung(h, h', nil, root, root', c, t, x);
    var y := h[x].right;
    assert LeftRotatedAt(h, h'[nil], nil, root, x, nil) && LeftRotatedAt(h, h'[y], nil, root, x, y);
    if !c.Top? { ParentSide(h, nil, root, c, t, x); }
  }

  lemma LeftHung(h: seq<Rec>, h': seq<Rec>, nil: nat, root: int, root': int, c: Ctx, t: Tree, x: int)
    requires At(h, nil, root, c, t, x) && CanRotL(t) && 0 <= x && LeftRotated(h, h', nil, root, root', x)
    ensures Hung(h', nil, root', c, h[x].right)
  {
    LeftFacts(h, nil, root, c, t, x);
    CtxIdsInHeap(h, nil, root, c, x);
    if !c.Top? { ParentSide(h, nil, root, c, t, x); }
    var y := h[x].right;
    Open(h, nil, t, x);
    Open(h, nil, t.right, y);
    Open(h, nil, t.right.left, h[y].left);
    forall i | i in CtxIds(c) && (c.Top? || i != c.item.id) ensures h'[i] == h[i] {
      assert LeftRotatedAt(h, h'[i], nil, root, x, i);
    }
    if !c.Top? { assert LeftRotatedAt(h, h'[c.item.id], nil, root, x, c.item.id); }
    HungRelink(h, h', nil, root, root', c, x, y);
  }

  /** The distinctness the rotation relies on. */
  lemma RightFacts(h: seq<Rec>, nil: nat, root: int, c: Ctx, t: Tree, x: int)
    requires At(h, nil, root, c, t, x) && CanRotR(t)
    ensures 0 <= x < |h| && x != nil && 0 <= h[x].left < |h| && h[x].left != nil && h[x].left != x
    ensures var b := h[h[x].left].right; 0 <= b < |h| && b != x && b != h[x].left
    ensures x == root <==> c.Top?
    ensures x != root ==> 0 <= h[x].parent < |h| && h[x].parent != x && h[x].parent != h[x].left
    ensures x != root ==> h[x].parent != h[h[x].left].right && h[x].parent != nil
    ensures h[x].left == t.left.item.id
  {
    RootIsTop(h, nil, root, c, t, x);
    Open(h, nil, t, x);
    Open(h, nil, t.left, h[x].left);
    Open(h, nil, t.left.right, h[h[x].left].right);
    if !c.Top? { ParentSide(h, nil, root, c, t, x); }
  }

  /** The three subtrees a rotation moves around are untouched inside. */
  lemma RightParts(h: seq<Rec>, h': seq<Rec>, nil: nat, root: int, root': int, c: Ctx, t: Tree, x: int)
    requires At(h, nil, root, c, t, x) && CanRotR(t) && 0 <= x && RightRotated(h, h', nil, root, root', x)
    ensures 0 <= h[x].left < |h|
    ensures var y := h[x].left;
            && Tied(h', nil, t.left.left, h[y].left) && ChildOf(h', t.left.left, y)
            && Tied(h', nil, t.left.right, h[y].right) && ChildOf(h', t.left.right, x)
            && Tied(h', nil, t.right, h[x].right) && ChildOf(h', t.right, x)
  {
    RightFacts(h, nil, root, c, t, x);
    var y := h[x].left;
    var a, b, d := t.left.left, t.left.right, t.right;
    if !c.Top? { ParentSide(h, nil, root, c, t, x); }
    Open(h, nil, t, x);
    Open(h, nil, t.left, y);
    Open(h, nil, a, h[y].left); Open(h, nil, b, h[y].right); Open(h, nil, d, h[x].right);
    IdsInHeap(h, nil, t, x);
    forall i | i in Ids(a) || i in Ids(d) ensures h'[i] == h[i] {
      assert RightRotatedAt(h, h'[i], nil, root, x, i);
    }
    forall i | i in Ids(b) ensures h'[i] == if i == h[y].right then h[i].(parent := x) else h[i] {
      assert RightRotatedAt(h, h'[i], nil, root, x, i);
    }
    TiedFrame(h, h', nil, a, h[y].left);
    TiedFrame(h, h', nil, b, h[y].right);
    TiedFrame(h, h', nil, d, h[x].right);
  }

  lemma RightTied(h: seq<Rec>, h': seq<Rec>, nil: nat, root: int, root': int, c: Ctx, t: Tree, x: int)
    requires At(h, nil, root, c, t, x) && CanRotR(t) && 0 <= x && RightRotated(h, h', nil, root, root', x)
    ensures Tied(h', nil, RotR(t), h[x].left)
  {
    RightFacts(h, nil, root, c, t, x);
    RightParts(h, h', nil, root, root', c, t, x);
    var y := h[x].left;
    Open(h, nil, t, x);
    Open(h, nil, t.left, y);
    assert RightRotatedAt(h, h'[x], nil, root, x, x) && RightRotatedAt(h, h'[y], nil, root, x, y);
    assert Tied(h', nil, RotR(t).right, x);
  }

  lemma RotateRight(h: seq<Rec>, h': seq<Rec>, nil: nat, root: int, root': int, c: Ctx, t: Tree, x: int)
    requires At(h, nil, root, c, t, x) && CanRotR(t) && 0 <= x && RightRotated(h, h', nil, root, root', x)
    ensures At(h', nil, root', c, RotR(t), h[x].left)
    ensures Inorder(Plug(c, RotR(t))) == Inorder(Plug(c, t))
  {
    RightFacts(h, nil, root, c, t, x);
    RightTied(h, h', nil, root, root', c, t, x);
    RotInorderR(t);
    InorderPlug(c, t);
    InorderPlug(c, RotR(t));
    RightHung(h, h', nil, root, root', c, t, x);
    var y := h[x].left;
    assert RightRotatedAt(h, h'[nil], nil, root, x, nil) && RightRotatedAt(h, h'[y], nil, root, x, y);
    if !c.Top? { ParentSide(h, nil, root, c, t, x); }
  }

  lemma RightHung(h: seq<Rec>, h': seq<Rec>, nil: nat, root: int, root': int, c: Ctx, t: Tree, x: int)
    requires At(h, nil, root, c, t, x) && CanRotR(t) && 0 <= x && RightRotated(h, h', nil, root, root', x)
    ensures Hung(h', nil, root', c, h[x].left)
  {
    RightFacts(h, nil, root, c, t, x);
    CtxIdsInHeap(h, nil, root, c, x);
    if !c.Top? { ParentSide(h, nil, root, c, t, x); }
    var y := h[x].left;
    Open(h, nil, t, x);
    Open(h, nil, t.left, y);
    Open(h, nil, t.left.right, h[y].right);
    forall i | i in CtxIds(c) && (c.Top? || i != c.item.id) ensures h'[i] == h[i] {
      assert RightRotatedAt(h, h'[i], nil, root, x, i);
    }
    if !c.Top? { assert RightRotatedAt(h, h'[c.item.id], nil, root, x, c.item.id); }
    HungRelink(h, h', nil, root, root', c, x, y);
  }
}
