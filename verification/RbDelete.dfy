/**
 Deletion from a red-black tree, on trees and on records: taking a node out and the four cases of
 the repair.
 */
module RbDelete {
  import opened RbShape
  import opened RbHeap
  import opened RbRotate

  function Blackened(t: Tree): Tree {
    if t.Node? then t.(red := false) else t
  }

  /** The subtree in focus is one black node short; painting it black would repair it if it is red. */
  ghost predicate Deleting(c: Ctx, t: Tree) {
    RedBlack(Blackened(t)) && CtxRedBlack(c, BlackHeight(t) + 1) && TopBlack(c)
  }

  /** A black node that is one short has a sibling. */
  lemma SiblingExists(c: Ctx, t: Tree)
    requires Deleting(c, t) && !c.Top? && !Red(t)
    ensures Sibling(c).Node? && RedBlack(Sibling(c)) && BlackHeight(Sibling(c)) == BlackHeight(t) + 1 && RedBlack(t)
    ensures c.red ==> !Red(Sibling(c)) && !CtxRed(c.up)
    ensures CtxRedBlack(c.up, BlackHeight(t) + 1 + if c.red then 0 else 1) && (c.up.Top? ==> !c.red) && TopBlack(c.up)
    ensures var w := Sibling(c); RedBlack(w.left) && RedBlack(w.right) && BlackHeight(w.left) == BlackHeight(w.right)
    ensures Red(Sibling(c)) ==> !Red(Sibling(c).left) && !Red(Sibling(c).right)
  {
    CtxLevel(c, BlackHeight(t) + 1);
  }

  /** When the repair is over the root only has to be black. */
  lemma Repaired(c: Ctx, t: Tree)
    requires Deleting(c, t) && (c.Top? || Red(t))
    ensures RedBlack(Plug(c, Blackened(t))) && !Red(Plug(c, Blackened(t)))
  {
    PlugRedBlack(c, Blackened(t));
  }

  // ---------------------------------------------------------------- the focus is a left child

  /** A red sibling is rotated above the parent. */
  lemma RedSiblingL(c: Ctx, t: Tree)
    requires Deleting(c, t) && !Red(t) && c.InL? && Red(c.right)
    ensures Deleting(InL(InL(c.up, c.right.item, false, c.right.right), c.item, true, c.right.left), t)
    ensures c.right.left.Node? && !Red(c.right.left) && !c.red
  {
    SiblingExists(c, t);
    var u := InL(c.up, c.right.item, false, c.right.right);
    CtxLevel(u, BlackHeight(t) + 1);
    CtxLevel(InL(u, c.item, true, c.right.left), BlackHeight(t) + 1);
  }

  /** A black sibling with black children turns red and the shortage moves up. */
  lemma BlackNephewsL(c: Ctx, t: Tree)
    requires Deleting(c, t) && !Red(t) && c.InL? && c.right.Node? && !Red(c.right) && !Red(c.right.left) && !Red(c.right.right)
    ensures Deleting(c.up, Node(t, c.item, c.red, c.right.(red := true)))
  {
    SiblingExists(c, t);
    assert RedBlack(c.right.(red := true));
  }

  /** A red inner nephew is rotated outwards. */
  lemma InnerNephewL(c: Ctx, t: Tree, w: Tree)
    requires Deleting(c, t) && !Red(t) && c.InL? && c.right.Node? && !Red(c.right) && !Red(c.right.right) && Red(c.right.left)
    requires w == Node(c.right.left.left, c.right.left.item, false, Node(c.right.left.right, c.right.item, true, c.right.right))
    ensures Deleting(InL(c.up, c.item, c.red, w), t) && Red(w.right)
  {
    SiblingExists(c, t);
    assert RedBlack(w.right) && RedBlack(w);
    CtxLevel(InL(c.up, c.item, c.red, w), BlackHeight(t) + 1);
  }

  /** A red outer nephew: one rotation makes up for the shortage. */
  lemma OuterNephewL(c: Ctx, t: Tree, g: Tree)
    requires Deleting(c, t) && !Red(t) && c.InL? && c.right.Node? && !Red(c.right) && Red(c.right.right)
    requires g == Node(Node(t, c.item, false, c.right.left), c.right.item, c.red, c.right.right.(red := false))
    ensures Deleting(Top, Plug(c.up, g))
  {
    SiblingExists(c, t);
    assert RedBlack(g.left) && RedBlack(g.right) && RedBlack(g);
    PlugRedBlack(c.up, g);
    assert RedBlack(Blackened(Plug(c.up, g)));
  }

  lemma RedSiblingLAt(h: seq<Rec>, h1: seq<Rec>, h2: seq<Rec>, nil: nat, root: int, root': int, c: Ctx, t: Tree, x: int, p: nat, w: nat)
    requires c.InL?
    requires At(h, nil, root, c.up, Node(t, c.item, c.red, c.right), p) && p < |h| && h[p].left == x && w == h[p].right && w < |h| && w != p
    requires Red(c.right)
    requires h1 == h[w := h[w].(red := false)][p := h[p].(red := true)]
    requires LeftRotated(h1, h2, nil, root, root', p)
    ensures var c' := InL(InL(c.up, c.right.item, false, c.right.right), c.item, true, c.right.left);
            At(h2, nil, root', c', t, x) && Inorder(Plug(c', t)) == Inorder(Plug(c.up, Node(t, c.item, c.red, c.right)))
    ensures h2[nil] == h[nil]
  {
    var P := Node(t, c.item, c.red, c.right);
    var h' := h[w := h[w].(red := false)];
    DyeRight(h, h', nil, root, c.up, P, p, false);
    var P1 := P.(right := c.right.(red := false));
    DyeTop(h', h1, nil, root, c.up, P1, p, true);
    var P2 := P1.(red := true);
    LeftFacts(h1, nil, root, c.up, P2, p);
    RotateLeft(h1, h2, nil, root, root', c.up, P2, p);
    assert LeftRotatedAt(h1, h2[p], nil, root, p, p) && LeftRotatedAt(h1, h2[w], nil, root, p, w);
    assert LeftRotatedAt(h1, h2[nil], nil, root, p, nil);
    var Q := RotL(P2);
    Down(h2, nil, root', c.up, Q, w);
    Down(h2, nil, root', InL(c.up, c.right.item, false, c.right.right), Q.left, p);
  }

  lemma InnerNephewLAt(h: seq<Rec>, h1: seq<Rec>, h2: seq<Rec>, nil: nat, root: int, root': int, c: Ctx, t: Tree, x: int, p: nat, w: nat, v: Tree)
    requires c.InL?
    requires At(h, nil, root, c.up, Node(t, c.item, c.red, c.right), p) && p < |h| && h[p].left == x && w == h[p].right && w < |h|
    requires c.right.Node? && Red(c.right.left) && 0 <= h[w].left < |h| && h[w].left != w
    requires v == Node(c.right.left.left, c.right.left.item, false, Node(c.right.left.right, c.right.item, true, c.right.right))
    requires h1 == h[h[w].left := h[h[w].left].(red := false)][w := h[w].(red := true)]
    requires RightRotated(h1, h2, nil, root, root', w)
    ensures At(h2, nil, root', InL(c.up, c.item, c.red, v), t, x)
    ensures Inorder(Plug(InL(c.up, c.item, c.red, v), t)) == Inorder(Plug(c.up, Node(t, c.item, c.red, c.right)))
    ensures h2[nil] == h[nil]
  {
    var P := Node(t, c.item, c.red, c.right);
    Down(h, nil, root, c.up, P, p);
    var cw := InR(c.up, c.item, c.red, t);
    var h' := h[h[w].left := h[h[w].left].(red := false)];
    DyeLeft(h, h', nil, root, cw, c.right, w, false);
    var W1 := c.right.(left := c.right.left.(red := false));
    DyeTop(h', h1, nil, root, cw, W1, w, true);
    var W2 := W1.(red := true);
    RightFacts(h1, nil, root, cw, W2, w);
    RotateRight(h1, h2, nil, root, root', cw, W2, w);
    assert RightRotatedAt(h1, h2[nil], nil, root, w, nil);
    Up(h2, nil, root', cw, v, h1[w].left);
    Down(h2, nil, root', c.up, Node(t, c.item, c.red, v), p);
    ParentSide(h1, nil, root, cw, W2, w);
    assert RightRotatedAt(h1, h2[p], nil, root, w, p);
  }

  lemma OuterNephewLAt(h: seq<Rec>, h1: seq<Rec>, h2: seq<Rec>, nil: nat, root: int, root': int, c: Ctx, t: Tree, p: nat, w: nat, g: Tree)
    requires c.InL?
    requires At(h, nil, root, c.up, Node(t, c.item, c.red, c.right), p) && p < |h| && w == h[p].right && w < |h| && w != p
    requires c.right.Node? && Red(c.right.right) && 0 <= h[w].right < |h| && h[w].right != w && h[w].right != p
    requires g == Node(Node(t, c.item, false, c.right.left), c.right.item, c.red, c.right.right.(red := false))
    requires h1 == h[w := h[w].(red := c.red)][p := h[p].(red := false)][h[w].right := h[h[w].right].(red := false)]
    requires LeftRotated(h1, h2, nil, root, root', p)
    ensures At(h2, nil, root', c.up, g, w) && Inorder(Plug(c.up, g)) == Inorder(Plug(c.up, Node(t, c.item, c.red, c.right)))
  {
    var P, n := Node(t, c.item, c.red, c.right), h[w].right;
    var ha := h[w := h[w].(red := c.red)];
    var hb := ha[p := ha[p].(red := false)];
    DyeRight(h, ha, nil, root, c.up, P, p, c.red);
    var W1 := c.right.(red := c.red);
    var P1 := P.(right := W1);
    DyeTop(ha, hb, nil, root, c.up, P1, p, false);
    var P2 := P1.(red := false);
    Down(hb, nil, root, c.up, P2, p);
    var cw := InR(c.up, c.item, false, t);
    DyeRight(hb, h1, nil, root, cw, W1, w, false);
    var W2 := W1.(right := W1.right.(red := false));
    Up(h1, nil, root, cw, W2, w);
    var P3 := Node(t, c.item, false, W2);
    RotateLeft(h1, h2, nil, root, root', c.up, P3, p);
  }

  // ---------------------------------------------------------------- the focus is a right child

  /** A red sibling is rotated above the parent. */
  lemma RedSiblingR(c: Ctx, t: Tree)
    requires Deleting(c, t) && !Red(t) && c.InR? && Red(c.left)
    ensures Deleting(InR(InR(c.up, c.left.item, false, c.left.left), c.item, true, c.left.right), t)
    ensures c.left.right.Node? && !Red(c.left.right) && !c.red
  {
    SiblingExists(c, t);
    var u := InR(c.up, c.left.item, false, c.left.left);
    CtxLevel(u, BlackHeight(t) + 1);
    CtxLevel(InR(u, c.item, true, c.left.right), BlackHeight(t) + 1);
  }

  /** A black sibling with black children turns red and the shortage moves up. */
  lemma BlackNephewsR(c: Ctx, t: Tree)
    requires Deleting(c, t) && !Red(t) && c.InR? && c.left.Node? && !Red(c.left) && !Red(c.left.left) && !Red(c.left.right)
    ensures Deleting(c.up, Node(c.left.(red := true), c.item, c.red, t))
  {
    SiblingExists(c, t);
    assert RedBlack(c.left.(red := true));
  }

  /** A red inner nephew is rotated outwards. */
  lemma InnerNephewR(c: Ctx, t: Tree, w: Tree)
    requires Deleting(c, t) && !Red(t) && c.InR? && c.left.Node? && !Red(c.left) && !Red(c.left.left) && Red(c.left.right)
    requires w == Node(Node(c.left.left, c.left.item, true, c.left.right.left), c.left.right.item, false, c.left.right.right)
    ensures Deleting(InR(c.up, c.item, c.red, w), t) && Red(w.left)
  {
    SiblingExists(c, t);
    assert RedBlack(w.left) && RedBlack(w);
    CtxLevel(InR(c.up, c.item, c.red, w), BlackHeight(t) + 1);
  }

  /** A red outer nephew: one rotation makes up for the shortage. */
  lemma OuterNephewR(c: Ctx, t: Tree, g: Tree)
    requires Deleting(c, t) && !Red(t) && c.InR? && c.left.Node? && !Red(c.left) && Red(c.left.left)
    requires g == Node(c.left.left.(red := false), c.left.item, c.red, Node(c.left.right, c.item, false, t))
    ensures Deleting(Top, Plug(c.up, g))
  {
    SiblingExists(c, t);
    assert RedBlack(g.right) && RedBlack(g.left) && RedBlack(g);
    PlugRedBlack(c.up, g);
    assert RedBlack(Blackened(Plug(c.up, g)));
  }

  lemma RedSiblingRAt(h: seq<Rec>, h1: seq<Rec>, h2: seq<Rec>, nil: nat, root: int, root': int, c: Ctx, t: Tree, x: int, p: nat, w: nat)
    requires c.InR?
    requires At(h, nil, root, c.up, Node(c.left, c.item, c.red, t), p) && p < |h| && h[p].right == x && w == h[p].left && w < |h| && w != p
    requires Red(c.left)
    requires h1 == h[w := h[w].(red := false)][p := h[p].(red := true)]
    requires RightRotated(h1, h2, nil, root, root', p)
    ensures var c' := InR(InR(c.up, c.left.item, false, c.left.left), c.item, true, c.left.right);
            At(h2, nil, root', c', t, x) && Inorder(Plug(c', t)) == Inorder(Plug(c.up, Node(c.left, c.item, c.red, t)))
    ensures h2[nil] == h[nil]
  {
    var P := Node(c.left, c.item, c.red, t);
    var h' := h[w := h[w].(red := false)];
    DyeLeft(h, h', nil, root, c.up, P, p, false);
    var P1 := P.(left := c.left.(red := false));
    DyeTop(h', h1, nil, root, c.up, P1, p, true);
    var P2 := P1.(red := true);
    RightFacts(h1, nil, root, c.up, P2, p);
    RotateRight(h1, h2, nil, root, root', c.up, P2, p);
    assert RightRotatedAt(h1, h2[p], nil, root, p, p) && RightRotatedAt(h1, h2[w], nil, root, p, w);
    assert RightRotatedAt(h1, h2[nil], nil, root, p, nil);
    var Q := RotR(P2);
    Down(h2, nil, root', c.up, Q, w);
    Down(h2, nil, root', InR(c.up, c.left.item, false, c.left.left), Q.right, p);
  }

  lemma InnerNephewRAt(h: seq<Rec>, h1: seq<Rec>, h2: seq<Rec>, nil: nat, root: int, root': int, c: Ctx, t: Tree, x: int, p: nat, w: nat, v: Tree)
    requires c.InR?
    requires At(h, nil, root, c.up, Node(c.left, c.item, c.red, t), p) && p < |h| && h[p].right == x && w == h[p].left && w < |h|
    requires c.left.Node? && Red(c.left.right) && 0 <= h[w].right < |h| && h[w].right != w
    requires v == Node(Node(c.left.left, c.left.item, true, c.left.right.left), c.left.right.item, false, c.left.right.right)
    requires h1 == h[h[w].right := h[h[w].right].(red := false)][w := h[w].(red := true)]
    requires LeftRotated(h1, h2, nil, root, root', w)
    ensures At(h2, nil, root', InR(c.up, c.item, c.red, v), t, x)
    ensures Inorder(Plug(InR(c.up, c.item, c.red, v), t)) == Inorder(Plug(c.up, Node(c.left, c.item, c.red, t)))
    ensures h2[nil] == h[nil]
  {
    var P := Node(c.left, c.item, c.red, t);
    Down(h, nil, root, c.up, P, p);
    var cw := InL(c.up, c.item, c.red, t);
    var h' := h[h[w].right := h[h[w].right].(red := false)];
    DyeRight(h, h', nil, root, cw, c.left, w, false);
    var W1 := c.left.(right := c.left.right.(red := false));
    DyeTop(h', h1, nil, root, cw, W1, w, true);
    var W2 := W1.(red := true);
    LeftFacts(h1, nil, root, cw, W2, w);
    RotateLeft(h1, h2, nil, root, root', cw, W2, w);
    assert LeftRotatedAt(h1, h2[nil], nil, root, w, nil);
    Up(h2, nil, root', cw, v, h1[w].right);
    Down(h2, nil, root', c.up, Node(v, c.item, c.red, t), p);
    ParentSide(h1, nil, root, cw, W2, w);
    assert LeftRotatedAt(h1, h2[p], nil, root, w, p);
  }

  lemma OuterNephewRAt(h: seq<Rec>, h1: seq<Rec>, h2: seq<Rec>, nil: nat, root: int, root': int, c: Ctx, t: Tree, p: nat, w: nat, g: Tree)
    requires c.InR?
    requires At(h, nil, root, c.up, Node(c.left, c.item, c.red, t), p) && p < |h| && w == h[p].left && w < |h| && w != p
    requires c.left.Node? && Red(c.left.left) && 0 <= h[w].left < |h| && h[w].left != w && h[w].left != p
    requires g == Node(c.left.left.(red := false), c.left.item, c.red, Node(c.left.right, c.item, false, t))
    requires h1 == h[w := h[w].(red := c.red)][p := h[p].(red := false)][h[w].left := h[h[w].left].(red := false)]
    requires RightRotated(h1, h2, nil, root, root', p)
    ensures At(h2, nil, root', c.up, g, w) && Inorder(Plug(c.up, g)) == Inorder(Plug(c.up, Node(c.left, c.item, c.red, t)))
  {
    var P, n := Node(c.left, c.item, c.red, t), h[w].left;
    var ha := h[w := h[w].(red := c.red)];
    var hb := ha[p := ha[p].(red := false)];
    DyeLeft(h, ha, nil, root, c.up, P, p, c.red);
    var W1 := c.left.(red := c.red);
    var P1 := P.(left := W1);
    DyeTop(ha, hb, nil, root, c.up, P1, p, false);
    var P2 := P1.(red := false);
    Down(hb, nil, root, c.up, P2, p);
    var cw := InL(c.up, c.item, false, t);
    DyeLeft(hb, h1, nil, root, cw, W1, w, false);
    var W2 := W1.(left := W1.left.(red := false));
    Up(h1, nil, root, cw, W2, w);
    var P3 := Node(W2, c.item, false, t);
    RotateRight(h1, h2, nil, root, root', c.up, P3, p);
  }
}
