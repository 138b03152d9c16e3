/**
 The red-black tree of ngx_rbtree.c.
 */
module RbTree {
  import opened RbShape
  import opened RbHeap
  import opened RbRotate
  import opened RbDelete
  import opened RbSplice
  import opened RbFrame

  const NULL: int := -1

  function Depth(c: Ctx): nat {
    if c.Top? then 0 else 1 + Depth(c.up)
  }

  // ---------------------------------------------------------------- insertion, on trees

  /** A red node may hang under a red parent; everything else is in order. */
  ghost predicate Inserting(c: Ctx, t: Tree) {
    Red(t) && RedBlack(t) && CtxRedBlack(c, BlackHeight(t)) && TopBlack(c)
  }

  /** A red parent is not the root. */
  lemma HasGrandparent(c: Ctx, t: Tree)
    requires Inserting(c, t) && CtxRed(c)
    ensures !c.up.Top? && !CtxRed(c.up)
    ensures !Red(Sibling(c)) && RedBlack(Sibling(c)) && BlackHeight(Sibling(c)) == BlackHeight(t)
    ensures RedBlack(Sibling(c.up)) && BlackHeight(Sibling(c.up)) == BlackHeight(t)
    ensures CtxRedBlack(c.up, BlackHeight(t))
    ensures CtxRedBlack(c.up.up, BlackHeight(t) + 1) && TopBlack(c.up.up) && TopBlack(c.up)
  {
    CtxLevel(c, BlackHeight(t));
    if !c.up.Top? {
      CtxLevel(c.up, BlackHeight(t));
    }
  }

  /** The uncle is red: the colours move up one level. */
  lemma RedUncle(c: Ctx, t: Tree, p: Tree, u: Tree, g: Tree)
    requires Inserting(c, t) && CtxRed(c) && !c.up.Top?
    requires Red(u) && u == Sibling(c.up) && p.Node? && p == Around(c, t)
    requires g == if c.up.InL? then Node(p.(red := false), c.up.item, true, u.(red := false))
                  else Node(u.(red := false), c.up.item, true, p.(red := false))
    ensures Inserting(c.up.up, g)
  {
    HasGrandparent(c, t);
    assert RedBlack(p.(red := false));
    assert RedBlack(u.(red := false));
  }

  /** The uncle is black: one or two rotations and the parent is black. */
  lemma BlackUncleL(c: Ctx, t: Tree)
    requires Inserting(c, t) && CtxRed(c) && c.InL? && c.up.InL? && !Red(c.up.right)
    ensures Inserting(InL(c.up.up, c.item, false, Node(c.right, c.up.item, true, c.up.right)), t)
  {
    HasGrandparent(c, t);
    var p := InL(c.up.up, c.item, false, Node(c.right, c.up.item, true, c.up.right));
    assert RedBlack(p.right);
    CtxLevel(p, BlackHeight(t));
  }

  lemma BlackUncleR(c: Ctx, t: Tree)
    requires Inserting(c, t) && CtxRed(c) && c.InR? && c.up.InR? && !Red(c.up.left)
    ensures Inserting(InR(c.up.up, c.item, false, Node(c.up.left, c.up.item, true, c.left)), t)
  {
    HasGrandparent(c, t);
    var p := InR(c.up.up, c.item, false, Node(c.up.left, c.up.item, true, c.left));
    assert RedBlack(p.left);
    CtxLevel(p, BlackHeight(t));
  }

  /** An inner grandchild is first rotated outwards; parent and child swap roles. */
  lemma InnerL(c: Ctx, t: Tree)
    requires Inserting(c, t) && CtxRed(c) && c.InR? && c.up.InL?
    ensures Inserting(InL(c.up, t.item, true, t.right), Node(c.left, c.item, true, t.left))
  {
    HasGrandparent(c, t);
    assert RedBlack(Node(c.left, c.item, true, t.left));
    CtxLevel(InL(c.up, t.item, true, t.right), BlackHeight(t));
  }

  lemma InnerR(c: Ctx, t: Tree)
    requires Inserting(c, t) && CtxRed(c) && c.InL? && c.up.InR?
    ensures Inserting(InR(c.up, t.item, true, t.left), Node(t.right, c.item, true, c.right))
  {
    HasGrandparent(c, t);
    assert RedBlack(Node(t.right, c.item, true, c.right));
    CtxLevel(InR(c.up, t.item, true, t.left), BlackHeight(t));
  }

  /** Parent and uncle become black, the grandparent red. */
  lemma RecolourL(h: seq<Rec>, h': seq<Rec>, nil: nat, root: int, c: Ctx, t: Tree, p: nat, u: nat, g: nat) returns (t': Tree)
    requires Inserting(c, t) && CtxRed(c) && c.up.InL? && Red(c.up.right)
    requires At(h, nil, root, c.up.up, Around(c.up, Around(c, t)), g) && g < |h|
    requires p == h[g].left && p < |h| && u == h[g].right && u < |h| && p != u && p != g && u != g
    requires h' == h[p := h[p].(red := false)][u := h[u].(red := false)][g := h[g].(red := true)]
    ensures At(h', nil, root, c.up.up, t', g) && Inserting(c.up.up, t')
    ensures Inorder(Plug(c.up.up, t')) == Inorder(Plug(c.up.up, Around(c.up, Around(c, t))))
  {
    var P, U, C := Around(c, t), c.up.right, c.up.up;
    var h1 := h[p := h[p].(red := false)];
    var h2 := h1[u := h1[u].(red := false)];
    var g0 := Around(c.up, P);
    DyeLeft(h, h1, nil, root, C, g0, g, false);
    var g1 := g0.(left := P.(red := false));
    DyeRight(h1, h2, nil, root, C, g1, g, false);
    var g2 := g1.(right := U.(red := false));
    DyeTop(h2, h', nil, root, C, g2, g, true);
    t' := g2.(red := true);
    RedUncle(c, t, P, U, t');
  }

  /** Parent and uncle become black, the grandparent red. */
  lemma RecolourR(h: seq<Rec>, h': seq<Rec>, nil: nat, root: int, c: Ctx, t: Tree, p: nat, u: nat, g: nat) returns (t': Tree)
    requires Inserting(c, t) && CtxRed(c) && c.up.InR? && Red(c.up.left)
    requires At(h, nil, root, c.up.up, Around(c.up, Around(c, t)), g) && g < |h|
    requires p == h[g].right && p < |h| && u == h[g].left && u < |h| && p != u && p != g && u != g
    requires h' == h[p := h[p].(red := false)][u := h[u].(red := false)][g := h[g].(red := true)]
    ensures At(h', nil, root, c.up.up, t', g) && Inserting(c.up.up, t')
    ensures Inorder(Plug(c.up.up, t')) == Inorder(Plug(c.up.up, Around(c.up, Around(c, t))))
  {
    var P, U, C := Around(c, t), c.up.left, c.up.up;
    var h1 := h[p := h[p].(red := false)];
    var h2 := h1[u := h1[u].(red := false)];
    var g0 := Around(c.up, P);
    DyeRight(h, h1, nil, root, C, g0, g, false);
    var g1 := g0.(right := P.(red := false));
    DyeLeft(h1, h2, nil, root, C, g1, g, false);
    var g2 := g1.(left := U.(red := false));
    DyeTop(h2, h', nil, root, C, g2, g, true);
    t' := g2.(red := true);
    RedUncle(c, t, P, U, t');
  }

  /** Parent black, grandparent red, and the grandparent rotated under the parent. */
  lemma OuterL(h: seq<Rec>, h1: seq<Rec>, h2: seq<Rec>, nil: nat, root: int, root': int, c: Ctx, t: Tree, x: int, p: nat, g: nat)
    requires Inserting(c, t) && CtxRed(c) && c.InL? && c.up.InL? && !Red(c.up.right)
    requires At(h, nil, root, c.up.up, Around(c.up, Around(c, t)), g) && g < |h|
    requires p == h[g].left && p < |h| && p != g && x == h[p].left
    requires h1 == h[p := h[p].(red := false)][g := h[g].(red := true)]
    requires RightRotated(h1, h2, nil, root, root', g)
    ensures var c' := InL(c.up.up, c.item, false, Node(c.right, c.up.item, true, c.up.right));
            && At(h2, nil, root', c', t, x) && Inserting(c', t)
            && Inorder(Plug(c', t)) == Inorder(Plug(c.up.up, Around(c.up, Around(c, t))))
  {
    var P, C := Around(c, t), c.up.up;
    var g0 := Around(c.up, P);
    var h' := h[p := h[p].(red := false)];
    DyeLeft(h, h', nil, root, C, g0, g, false);
    var g1 := g0.(left := P.(red := false));
    DyeTop(h', h1, nil, root, C, g1, g, true);
    var g2 := g1.(red := true);
    RotateRight(h1, h2, nil, root, root', C, g2, g);
    RightFacts(h1, nil, root, C, g2, g);
    assert RightRotatedAt(h1, h2[p], nil, root, g, p);
    Down(h2, nil, root', C, RotR(g2), p);
    BlackUncleL(c, t);
  }

  /** The parent rotated under an inner child. */
  lemma InnerLAt(h: seq<Rec>, h': seq<Rec>, nil: nat, root: int, root': int, c: Ctx, t: Tree, p: nat)
    requires Inserting(c, t) && CtxRed(c) && c.InR? && c.up.InL?
    requires At(h, nil, root, c.up, Around(c, t), p) && LeftRotated(h, h', nil, root, root', p)
    ensures var c', t' := InL(c.up, t.item, true, t.right), Node(c.left, c.item, true, t.left);
            && At(h', nil, root', c', t', p) && Inserting(c', t')
            && Inorder(Plug(c', t')) == Inorder(Plug(c.up, Around(c, t)))
  {
    var P := Around(c, t);
    RotateLeft(h, h', nil, root, root', c.up, P, p);
    LeftFacts(h, nil, root, c.up, P, p);
    assert LeftRotatedAt(h, h'[h[p].right], nil, root, p, h[p].right);
    Down(h', nil, root', c.up, RotL(P), h[p].right);
    InnerL(c, t);
  }

  lemma OuterFactsL(h: seq<Rec>, h1: seq<Rec>, nil: nat, root: int, c: Ctx, t: Tree, p: nat, g: nat)
    requires Inserting(c, t) && CtxRed(c) && c.InL? && c.up.InL?
    requires At(h, nil, root, c.up.up, Around(c.up, Around(c, t)), g) && g < |h|
    requires p == h[g].left && p < |h| && p != g
    requires h1 == h[p := h[p].(red := false)][g := h[g].(red := true)]
    ensures var b := h1[h1[g].left].right;
            && g != nil && h1[g].left == p && 0 <= b < |h| && b != g && b != p
            && (g != root ==> 0 <= h1[g].parent < |h| && h1[g].parent != g && h1[g].parent != p && h1[g].parent != b)
  {
    RightFacts(h, nil, root, c.up.up, Around(c.up, Around(c, t)), g);
  }

  /** Parent black, grandparent red, and the grandparent rotated under the parent. */
  lemma OuterR(h: seq<Rec>, h1: seq<Rec>, h2: seq<Rec>, nil: nat, root: int, root': int, c: Ctx, t: Tree, x: int, p: nat, g: nat)
    requires Inserting(c, t) && CtxRed(c) && c.InR? && c.up.InR? && !Red(c.up.left)
    requires At(h, nil, root, c.up.up, Around(c.up, Around(c, t)), g) && g < |h|
    requires p == h[g].right && p < |h| && p != g && x == h[p].right
    requires h1 == h[p := h[p].(red := false)][g := h[g].(red := true)]
    requires LeftRotated(h1, h2, nil, root, root', g)
    ensures var c' := InR(c.up.up, c.item, false, Node(c.up.left, c.up.item, true, c.left));
            && At(h2, nil, root', c', t, x) && Inserting(c', t)
            && Inorder(Plug(c', t)) == Inorder(Plug(c.up.up, Around(c.up, Around(c, t))))
  {
    var P, C := Around(c, t), c.up.up;
    var g0 := Around(c.up, P);
    var h' := h[p := h[p].(red := false)];
    DyeRight(h, h', nil, root, C, g0, g, false);
    var g1 := g0.(right := P.(red := false));
    DyeTop(h', h1, nil, root, C, g1, g, true);
    var g2 := g1.(red := true);
    RotateLeft(h1, h2, nil, root, root', C, g2, g);
    LeftFacts(h1, nil, root, C, g2, g);
    assert LeftRotatedAt(h1, h2[p], nil, root, g, p);
    Down(h2, nil, root', C, RotL(g2), p);
    BlackUncleR(c, t);
  }

  /** The parent rotated under an inner child. */
  lemma InnerRAt(h: seq<Rec>, h': seq<Rec>, nil: nat, root: int, root': int, c: Ctx, t: Tree, p: nat)
    requires Inserting(c, t) && CtxRed(c) && c.InL? && c.up.InR?
    requires At(h, nil, root, c.up, Around(c, t), p) && RightRotated(h, h', nil, root, root', p)
    ensures var c', t' := InR(c.up, t.item, true, t.left), Node(t.right, c.item, true, c.right);
            && At(h', nil, root', c', t', p) && Inserting(c', t')
            && Inorder(Plug(c', t')) == Inorder(Plug(c.up, Around(c, t)))
  {
    var P := Around(c, t);
    RotateRight(h, h', nil, root, root', c.up, P, p);
    RightFacts(h, nil, root, c.up, P, p);
    assert RightRotatedAt(h, h'[h[p].left], nil, root, p, h[p].left);
    Down(h', nil, root', c.up, RotR(P), h[p].left);
    InnerR(c, t);
  }

  lemma OuterFactsR(h: seq<Rec>, h1: seq<Rec>, nil: nat, root: int, c: Ctx, t: Tree, p: nat, g: nat)
    requires Inserting(c, t) && CtxRed(c) && c.InR? && c.up.InR?
    requires At(h, nil, root, c.up.up, Around(c.up, Around(c, t)), g) && g < |h|
    requires p == h[g].right && p < |h| && p != g
    requires h1 == h[p := h[p].(red := false)][g := h[g].(red := true)]
    ensures var b := h1[h1[g].right].left;
            && g != nil && h1[g].right == p && 0 <= b < |h| && b != g && b != p
            && (g != root ==> 0 <= h1[g].parent < |h| && h1[g].parent != g && h1[g].parent != p && h1[g].parent != b)
  {
    LeftFacts(h, nil, root, c.up.up, Around(c.up, Around(c, t)), g);
  }

  // ---------------------------------------------------------------- the order of keys

  const HALF: nat := 0x8000_0000_0000_0000

  /** `node->key < temp->key`, or for timers the sign of their difference as a 64-bit integer. */
  predicate Less(timer: bool, a: nat, b: nat) {
    if timer then (a - b) % KEYS >= HALF else a < b
  }

  /** Ranks for which comparing the keys is meaningful. */
  ghost predicate Comparable(timer: bool, r: int, q: int) {
    if timer then 0 - HALF <= r - q < HALF else 0 <= r < KEYS && 0 <= q < KEYS
  }

  lemma LessIsRank(timer: bool, r: int, q: int)
    requires Comparable(timer, r, q)
    ensures Less(timer, r % KEYS, q % KEYS) <==> r < q
  {
    if timer {
      var d := (r % KEYS - q % KEYS) % KEYS;
      assert (r % KEYS - q % KEYS - (r - q)) % KEYS == 0 by {
        assert r == KEYS * (r / KEYS) + r % KEYS && q == KEYS * (q / KEYS) + q % KEYS;
      }
      assert d == (r - q) % KEYS;
    }
  }

  lemma SortedAround(a: seq<Item>, l: seq<Item>, x: Item, m: seq<Item>, b: seq<Item>)
    requires Sorted(a + (l + [x] + m) + b)
    ensures forall i :: 0 <= i < |l| ==> l[i].rank <= x.rank
    ensures forall i :: 0 <= i < |m| ==> x.rank <= m[i].rank
  {
    var s := a + (l + [x] + m) + b;
    assert s[|a| + |l|] == x;
    forall i | 0 <= i < |l| ensures l[i].rank <= x.rank { assert s[|a| + i] == l[i]; }
    forall i | 0 <= i < |m| ensures x.rank <= m[i].rank { assert s[|a| + |l| + 1 + i] == m[i]; }
  }

  /** Going left or right keeps the place of the new item between what was passed. */
  lemma Descend(c: Ctx, t: Tree, r: int)
    requires t.Node? && Sorted(Inorder(Plug(c, t))) && Between(Pre(c), r, Post(c))
    ensures r < t.item.rank ==> Between(Pre(c), r, [t.item] + Inorder(t.right) + Post(c))
    ensures t.item.rank <= r ==> Between(Pre(c) + Inorder(t.left) + [t.item], r, Post(c))
  {
    InorderPlug(c, t);
    SortedAround(Pre(c), Inorder(t.left), t.item, Inorder(t.right), Post(c));
  }

  /** The search for the place of rank r has come down to the pointer x. */
  ghost predicate Seeking(h: seq<Rec>, nil: nat, root: int, tree: Tree, c: Ctx, t: Tree, x: int, r: int) {
    At(h, nil, root, c, t, x) && Plug(c, t) == tree && Between(Pre(c), r, Post(c))
  }

  lemma SeekDown(h: seq<Rec>, nil: nat, root: int, tree: Tree, c: Ctx, t: Tree, x: int, r: int, timer: bool)
    requires Seeking(h, nil, root, tree, c, t, x, r) && t.Node? && Sorted(Inorder(tree))
    requires forall i :: 0 <= i < |Inorder(tree)| ==> Comparable(timer, r, Inorder(tree)[i].rank)
    ensures 0 <= x < |h| && x == t.item.id
    ensures if Less(timer, r % KEYS, h[x].key)
            then Seeking(h, nil, root, tree, InL(c, t.item, t.red, t.right), t.left, h[x].left, r) && (h[x].left == nil <==> t.left.Leaf?)
            else Seeking(h, nil, root, tree, InR(c, t.item, t.red, t.left), t.right, h[x].right, r) && (h[x].right == nil <==> t.right.Leaf?)
    ensures 0 <= h[x].left < |h| && 0 <= h[x].right < |h|
  {
    ColourAt(h, nil, root, c, t, x);
    Open(h, nil, t, x);
    ItemAt(c, t);
    LessIsRank(timer, r, t.item.rank);
    Descend(c, t, r);
    Down(h, nil, root, c, t, x);
  }

  lemma InsertSorted(a: seq<Item>, x: Item, b: seq<Item>)
    requires Sorted(a + b) && Between(a, x.rank, b)
    ensures Sorted(a + [x] + b)
  {
    var s := a + [x] + b;
    forall i, j | 0 <= i < j < |s| ensures s[i].rank <= s[j].rank {
      if i < |a| && j > |a| { assert s[i] == (a + b)[i] && s[j] == (a + b)[j - 1]; }
      if j < |a| { assert s[i] == (a + b)[i] && s[j] == (a + b)[j]; }
      if i > |a| { assert s[i] == (a + b)[i - 1] && s[j] == (a + b)[j - 1]; }
    }
  }

  // ---------------------------------------------------------------- attaching and closing

  /** A new red node in place of a leaf. */
  lemma Graft(h: seq<Rec>, h': seq<Rec>, nil: nat, root: int, c: Ctx, x: Item)
    requires At(h, nil, root, c, Leaf, nil) && !c.Top?
    requires x.id < |h| && x.id != nil && x.id !in CtxIds(c) && h[x.id].key == x.rank % KEYS
    requires |h'| == |h| && c.item.id < |h|
    requires forall i :: 0 <= i < |h| && i != x.id && i != c.item.id ==> h'[i] == h[i]
    requires h'[c.item.id] == if c.InL? then h[c.item.id].(left := x.id) else h[c.item.id].(right := x.id)
    requires h'[x.id] == Rec(h[x.id].key, nil, nil, c.item.id, true)
    ensures At(h', nil, root, c, Node(Leaf, x, true, Leaf), x.id)
  {
    CtxIdsInHeap(h, nil, root, c, nil);
    HungRelink(h, h', nil, root, root, c, nil, x.id);
    var t := Node(Leaf, x, true, Leaf);
    assert Ids(Leaf) == {} && Ids(t) == {x.id};
    assert Tied(h', nil, Leaf, nil);
    assert nil != c.item.id;
  }

  /** The sequence and the colours with a red leaf more. */
  lemma NewItem(tree: Tree, c: Ctx, x: Item) returns (k: nat)
    requires Plug(c, Leaf) == tree && RedBlack(tree) && !Red(tree) && !c.Top? && Sorted(Inorder(tree)) && Between(Pre(c), x.rank, Post(c))
    ensures Inserting(c, Node(Leaf, x, true, Leaf)) && Inorder(tree) == Pre(c) + Post(c)
    ensures Inorder(Plug(c, Node(Leaf, x, true, Leaf))) == Pre(c) + [x] + Post(c) && Sorted(Pre(c) + [x] + Post(c))
    ensures k <= |Inorder(tree)| && Inorder(tree)[..k] == Pre(c) && Inorder(tree)[k..] == Post(c)
  {
    k := |Pre(c)|;
    InorderPlug(c, Leaf);
    assert Inorder(tree) == Pre(c) + Post(c);
    InorderPlug(c, Node(Leaf, x, true, Leaf));
    assert Inorder(Node(Leaf, x, true, Leaf)) == [x];
    InsertSorted(Pre(c), x, Post(c));
    NewLeaf(c, tree, x);
  }

  /** A red leaf put into a red-black tree. */
  lemma NewLeaf(c: Ctx, tree: Tree, x: Item)
    requires Plug(c, Leaf) == tree && RedBlack(tree) && !Red(tree) && !c.Top?
    ensures Inserting(c, Node(Leaf, x, true, Leaf))
  {
    PlugRedBlack(c, Leaf);
  }

  lemma ParentColour(h: seq<Rec>, nil: nat, root: int, c: Ctx, t: Tree, x: int)
    requires At(h, nil, root, c, t, x) && t.Node? && !c.Top?
    ensures 0 <= x < |h| && 0 <= h[x].parent < |h| && h[h[x].parent].red == CtxRed(c)
  {
    ParentSide(h, nil, root, c, t, x);
  }

  /** The item in focus is part of the sequence. */
  lemma ItemAt(c: Ctx, t: Tree)
    requires t.Node?
    ensures var k := |Pre(c)| + |Inorder(t.left)|; k < |Inorder(Plug(c, t))| && Inorder(Plug(c, t))[k] == t.item
  {
    InorderPlug(c, t);
  }

  lemma LastOf(c: Ctx, t: Tree)
    requires t.Node? && t.right.Leaf?
    ensures |Pre(c)| + |Inorder(t)| == |Pre(c)| + |Inorder(t.left)| + 1
  {
  }

  lemma RemoveSorted(a: seq<Item>, x: Item, b: seq<Item>)
    requires Sorted(a + [x] + b)
    ensures Sorted(a + b)
  {
    var s := a + [x] + b;
    forall i, j | 0 <= i < j < |a + b| ensures (a + b)[i].rank <= (a + b)[j].rank {
      assert (a + b)[i] == s[if i < |a| then i else i + 1] && (a + b)[j] == s[if j < |a| then j else j + 1];
    }
  }

  /** The in-order sequence without the item in focus. */
  lemma Without(c: Ctx, t: Tree) returns (k: nat)
    requires t.Node? && Sorted(Inorder(Plug(c, t)))
    ensures k < |Inorder(Plug(c, t))| && Inorder(Plug(c, t))[k] == t.item
    ensures Inorder(Plug(c, t))[..k] + Inorder(Plug(c, t))[k + 1..] == Pre(c) + (Inorder(t.left) + Inorder(t.right)) + Post(c)
    ensures Sorted(Pre(c) + (Inorder(t.left) + Inorder(t.right)) + Post(c))
  {
    InorderPlug(c, t);
    k := WithoutRoot(Inorder(Plug(c, t)), Pre(c), t, Post(c));
  }

  lemma WithoutRoot(s: seq<Item>, p: seq<Item>, t: Tree, q: seq<Item>) returns (k: nat)
    requires t.Node? && s == p + Inorder(t) + q && Sorted(s)
    ensures k < |s| && s[k] == t.item
    ensures s[..k] + s[k + 1..] == p + (Inorder(t.left) + Inorder(t.right)) + q
    ensures Sorted(p + (Inorder(t.left) + Inorder(t.right)) + q)
  {
    k := |p| + |Inorder(t.left)|;
    WithoutItem(s, p, Inorder(t.left), t.item, Inorder(t.right), q);
  }

  lemma WithoutItem(s: seq<Item>, p: seq<Item>, l: seq<Item>, x: Item, r: seq<Item>, q: seq<Item>)
    requires s == p + (l + [x] + r) + q && Sorted(s)
    ensures var k := |p| + |l|; s[k] == x && s[..k] + s[k + 1..] == p + (l + r) + q
    ensures Sorted(p + (l + r) + q)
  {
    var k := |p| + |l|;
    var a, b := s[..k], s[k + 1..];
    assert s == a + [x] + b;
    RemoveSorted(a, x, b);
    assert a == p + l && b == r + q;
    assert a + b == p + (l + r) + q;
  }

  /** r comes next after the node, or is NULL when the node is the last. */
  ghost predicate Follows(items: seq<Item>, node: nat, r: int) {
    exists k :: 0 <= k < |items| && items[k].id == node && r == IdAt(items, k + 1)
  }

  function IdAt(items: seq<Item>, k: nat): int {
    if k < |items| then items[k].id else NULL
  }

  lemma FollowsAt(items: seq<Item>, node: nat, r: int, k: nat)
    requires k < |items| && items[k].id == node
    requires r == IdAt(items, k + 1)
    ensures Follows(items, node, r)
  {
  }

  /** What one round of the repair loop leaves behind, in the records h. */
  ghost predicate InRepair(h: seq<Rec>, nil: nat, root: int, c: Ctx, t: Tree, x: int, items: seq<Item>) {
    At(h, nil, root, c, t, x) && Deleting(c, t) && Inorder(Plug(c, t)) == items && Aimed(h, c, x)
  }

  lemma KinNil(h: seq<Rec>, nil: nat, root: int, c: Ctx, t: Tree, x: int, p: nat, w: nat)
    requires !c.Top? && At(h, nil, root, c.up, Around(c, t), p) && Sibling(c).Node? && p < |h|
    requires w == if c.InL? then h[p].right else h[p].left
    ensures w != nil && Plug(c, t) == Plug(c.up, Around(c, t))
  {
    Open(h, nil, Around(c, t), p);
    Open(h, nil, Sibling(c), w);
  }

  /** A rotation at the parent ends the repair. */
  lemma OuterNephewLDone(h: seq<Rec>, h1: seq<Rec>, h2: seq<Rec>, nil: nat, root: int, root': int, c: Ctx, t: Tree, x: int,
                       p: nat, w: nat, n: nat, items: seq<Item>) returns (t': Tree)
    requires InRepair(h, nil, root, c, t, x, items) && c.InL? && !Red(t) && c.right.Node? && !Red(c.right) && Red(c.right.right)
    requires At(h, nil, root, c.up, Around(c, t), p) && p < |h| && w == h[p].right && w < |h| && w != p
    requires n == h[w].right && n < |h| && n != w && n != p
    requires h1 == h[w := h[w].(red := c.red)][p := h[p].(red := false)][n := h[n].(red := false)] && LeftRotated(h1, h2, nil, root, root', p)
    ensures InRepair(h2, nil, root', Top, t', root', items) && Framed(h, h2, Scope(nil, items))
  {
    var g := Node(Node(t, c.item, false, c.right.left), c.right.item, c.red, c.right.right.(red := false));
    KinNil(h, nil, root, c, t, x, p, w);
    TurnLeftFrame(h, h1, h2, nil, root, root', c.up, Around(c, t), p, items, w, p, n);
    OuterNephewLAt(h, h1, h2, nil, root, root', c, t, p, w, g);
    OuterNephewL(c, t, g);
    Close(h2, nil, root', c.up, g, w);
    t' := Plug(c.up, g);
  }

  /** A rotation at the parent ends the repair. */
  lemma OuterNephewRDone(h: seq<Rec>, h1: seq<Rec>, h2: seq<Rec>, nil: nat, root: int, root': int, c: Ctx, t: Tree, x: int,
                       p: nat, w: nat, n: nat, items: seq<Item>) returns (t': Tree)
    requires InRepair(h, nil, root, c, t, x, items) && c.InR? && !Red(t) && c.left.Node? && !Red(c.left) && Red(c.left.left)
    requires At(h, nil, root, c.up, Around(c, t), p) && p < |h| && w == h[p].left && w < |h| && w != p
    requires n == h[w].left && n < |h| && n != w && n != p
    requires h1 == h[w := h[w].(red := c.red)][p := h[p].(red := false)][n := h[n].(red := false)] && RightRotated(h1, h2, nil, root, root', p)
    ensures InRepair(h2, nil, root', Top, t', root', items) && Framed(h, h2, Scope(nil, items))
  {
    var g := Node(c.left.left.(red := false), c.left.item, c.red, Node(c.left.right, c.item, false, t));
    KinNil(h, nil, root, c, t, x, p, w);
    TurnRightFrame(h, h1, h2, nil, root, root', c.up, Around(c, t), p, items, w, p, n);
    OuterNephewRAt(h, h1, h2, nil, root, root', c, t, p, w, g);
    OuterNephewR(c, t, g);
    Close(h2, nil, root', c.up, g, w);
    t' := Plug(c.up, g);
  }

  lemma InnerNephewLDone(h: seq<Rec>, h1: seq<Rec>, h2: seq<Rec>, nil: nat, root: int, root': int, c: Ctx, t: Tree, x: int,
                       p: nat, w: nat, n: nat, items: seq<Item>) returns (c': Ctx)
    requires InRepair(h, nil, root, c, t, x, items) && c.InL? && !Red(t) && c.right.Node? && !Red(c.right) && !Red(c.right.right) && Red(c.right.left)
    requires At(h, nil, root, c.up, Around(c, t), p) && p < |h| && h[p].left == x && w == h[p].right && w < |h|
    requires n == h[w].left && n < |h| && n != w
    requires h1 == h[n := h[n].(red := false)][w := h[w].(red := true)] && RightRotated(h1, h2, nil, root, root', w)
    ensures InRepair(h2, nil, root', c', t, x, items) && Framed(h, h2, Scope(nil, items))
    ensures c'.InL? && !Red(c'.right) && c'.right.Node? && Red(c'.right.right)
  {
    var v := Node(c.right.left.left, c.right.left.item, false, Node(c.right.left.right, c.right.item, true, c.right.right));
    KinNil(h, nil, root, c, t, x, p, w);
    Down(h, nil, root, c.up, Around(c, t), p);
    TurnRightFrame(h, h1, h2, nil, root, root', InR(c.up, c.item, c.red, t), c.right, w, items, n, w, w);
    InnerNephewLAt(h, h1, h2, nil, root, root', c, t, x, p, w, v);
    InnerNephewL(c, t, v);
    c' := InL(c.up, c.item, c.red, v);
    Aim(h, h2, nil, root', c', t, x);
  }

  lemma InnerNephewRDone(h: seq<Rec>, h1: seq<Rec>, h2: seq<Rec>, nil: nat, root: int, root': int, c: Ctx, t: Tree, x: int,
                       p: nat, w: nat, n: nat, items: seq<Item>) returns (c': Ctx)
    requires InRepair(h, nil, root, c, t, x, items) && c.InR? && !Red(t) && c.left.Node? && !Red(c.left) && !Red(c.left.left) && Red(c.left.right)
    requires At(h, nil, root, c.up, Around(c, t), p) && p < |h| && h[p].right == x && w == h[p].left && w < |h|
    requires n == h[w].right && n < |h| && n != w
    requires h1 == h[n := h[n].(red := false)][w := h[w].(red := true)] && LeftRotated(h1, h2, nil, root, root', w)
    ensures InRepair(h2, nil, root', c', t, x, items) && Framed(h, h2, Scope(nil, items))
    ensures c'.InR? && !Red(c'.left) && c'.left.Node? && Red(c'.left.left)
  {
    var v := Node(Node(c.left.left, c.left.item, true, c.left.right.left), c.left.right.item, false, c.left.right.right);
    KinNil(h, nil, root, c, t, x, p, w);
    Down(h, nil, root, c.up, Around(c, t), p);
    TurnLeftFrame(h, h1, h2, nil, root, root', InL(c.up, c.item, c.red, t), c.left, w, items, n, w, w);
    InnerNephewRAt(h, h1, h2, nil, root, root', c, t, x, p, w, v);
    InnerNephewR(c, t, v);
    c' := InR(c.up, c.item, c.red, v);
    Aim(h, h2, nil, root', c', t, x);
  }

  lemma RedSiblingLDone(h: seq<Rec>, h1: seq<Rec>, h2: seq<Rec>, nil: nat, root: int, root': int, c: Ctx, t: Tree, x: int,
                       p: nat, w: nat, items: seq<Item>) returns (c': Ctx)
    requires InRepair(h, nil, root, c, t, x, items) && c.InL? && !Red(t) && Red(c.right)
    requires At(h, nil, root, c.up, Around(c, t), p) && p < |h| && h[p].left == x && w == h[p].right && w < |h| && w != p
    requires h1 == h[w := h[w].(red := false)][p := h[p].(red := true)] && LeftRotated(h1, h2, nil, root, root', p)
    ensures InRepair(h2, nil, root', c', t, x, items) && Framed(h, h2, Scope(nil, items))
    ensures c'.InL? && !Red(c'.right) && CtxRed(c')
  {
    KinNil(h, nil, root, c, t, x, p, w);
    TurnLeftFrame(h, h1, h2, nil, root, root', c.up, Around(c, t), p, items, w, p, p);
    RedSiblingLAt(h, h1, h2, nil, root, root', c, t, x, p, w);
    RedSiblingL(c, t);
    c' := InL(InL(c.up, c.right.item, false, c.right.right), c.item, true, c.right.left);
    Aim(h, h2, nil, root', c', t, x);
  }

  lemma RedSiblingRDone(h: seq<Rec>, h1: seq<Rec>, h2: seq<Rec>, nil: nat, root: int, root': int, c: Ctx, t: Tree, x: int,
                       p: nat, w: nat, items: seq<Item>) returns (c': Ctx)
    requires InRepair(h, nil, root, c, t, x, items) && c.InR? && !Red(t) && Red(c.left)
    requires At(h, nil, root, c.up, Around(c, t), p) && p < |h| && h[p].right == x && w == h[p].left && w < |h| && w != p
    requires h1 == h[w := h[w].(red := false)][p := h[p].(red := true)] && RightRotated(h1, h2, nil, root, root', p)
    ensures InRepair(h2, nil, root', c', t, x, items) && Framed(h, h2, Scope(nil, items))
    ensures c'.InR? && !Red(c'.left) && CtxRed(c')
  {
    KinNil(h, nil, root, c, t, x, p, w);
    TurnRightFrame(h, h1, h2, nil, root, root', c.up, Around(c, t), p, items, w, p, p);
    RedSiblingRAt(h, h1, h2, nil, root, root', c, t, x, p, w);
    RedSiblingR(c, t);
    c' := InR(InR(c.up, c.left.item, false, c.left.left), c.item, true, c.left.right);
    Aim(h, h2, nil, root', c', t, x);
  }

  /** Parent and uncle become black, the grandparent red. */
  lemma RedUncleDone(h: seq<Rec>, h': seq<Rec>, nil: nat, root: int, c: Ctx, t: Tree, x: int, p: nat, u: nat, g: nat, items: seq<Item>) returns (t': Tree)
    requires Inserting(c, t) && CtxRed(c) && !c.up.Top? && Red(Sibling(c.up)) && Inorder(Plug(c.up.up, Around(c.up, Around(c, t)))) == items
    requires At(h, nil, root, c.up.up, Around(c.up, Around(c, t)), g) && g < |h|
    requires p < |h| && u < |h| && p != u && p != g && u != g
    requires if c.up.InL? then p == h[g].left && u == h[g].right else p == h[g].right && u == h[g].left
    requires h' == h[p := h[p].(red := false)][u := h[u].(red := false)][g := h[g].(red := true)]
    ensures At(h', nil, root, c.up.up, t', g) && Inserting(c.up.up, t') && Inorder(Plug(c.up.up, t')) == items && Framed(h, h', Scope(nil, items))
  {
    ColourFrame(h, h', nil, root, c.up.up, Around(c.up, Around(c, t)), g, items, p, u, g);
    if c.up.InL? {
      t' := RecolourL(h, h', nil, root, c, t, p, u, g);
    } else {
      t' := RecolourR(h, h', nil, root, c, t, p, u, g);
    }
  }

  class Rbtree {
    const nil: nat
    const timer: bool
    const nodes: array<Rec>
    var root: int
    ghost var tree: Tree

    /** The records are the tree, which is a search tree in rank order and red-black. */
    ghost predicate Valid()
      reads this, nodes
    {
      && At(nodes[..], nil, root, Top, tree, root)
      && RedBlack(tree) && !Red(tree)
      && Sorted(Inorder(tree))
    }

    /** ngx_rbtree_init: the sentinel is black and it is the root. */
    constructor (records: nat, sentinel: nat, timers: bool)
      requires sentinel < records
      ensures Valid() && tree == Leaf && nil == sentinel && timer == timers && nodes.Length == records && fresh(nodes)
    {
      nil, timer := sentinel, timers;
      nodes := new Rec[records](i => Rec(0, NULL, NULL, NULL, false));
      root, tree := sentinel, Leaf;
    }

    // ------------------------------------------------------------ rotations

    method LeftRotate(x: nat)
      requires x < nodes.Length && x != nil && 0 <= nodes[x].right < nodes.Length && nodes[x].right != x
      requires var b := nodes[nodes[x].right].left; 0 <= b < nodes.Length && b != x && b != nodes[x].right
      requires x != root ==> 0 <= nodes[x].parent < nodes.Length && nodes[x].parent != x && nodes[x].parent != nodes[x].right
      requires x != root ==> nodes[x].parent != nodes[nodes[x].right].left
      modifies this`root, nodes
      ensures LeftRotated(old(nodes[..]), nodes[..], nil, old(root), root, x)
    {
      var temp := nodes[x].right;
      nodes[x] := nodes[x].(right := nodes[temp].left);
      if nodes[temp].left != nil {
        var b := nodes[temp].left;
        nodes[b] := nodes[b].(parent := x);
      }
      nodes[temp] := nodes[temp].(parent := nodes[x].parent);
      if x == root {
        root := temp;
      } else {
        Redirect(nodes[x].parent, x, temp);
      }
      nodes[temp] := nodes[temp].(left := x);
      nodes[x] := nodes[x].(parent := temp);
    }

    method RightRotate(x: nat)
      requires x < nodes.Length && x != nil && 0 <= nodes[x].left < nodes.Length && nodes[x].left != x
      requires var b := nodes[nodes[x].left].right; 0 <= b < nodes.Length && b != x && b != nodes[x].left
      requires x != root ==> 0 <= nodes[x].parent < nodes.Length && nodes[x].parent != x && nodes[x].parent != nodes[x].left
      requires x != root ==> nodes[x].parent != nodes[nodes[x].left].right
      modifies this`root, nodes
      ensures RightRotated(old(nodes[..]), nodes[..], nil, old(root), root, x)
    {
      var temp := nodes[x].left;
      nodes[x] := nodes[x].(left := nodes[temp].right);
      if nodes[temp].right != nil {
        var b := nodes[temp].right;
        nodes[b] := nodes[b].(parent := x);
      }
      nodes[temp] := nodes[temp].(parent := nodes[x].parent);
      if x == root {
        root := temp;
      } else {
        RedirectRight(nodes[x].parent, x, temp);
      }
      nodes[temp] := nodes[temp].(right := x);
      nodes[x] := nodes[x].(parent := temp);
    }

    // ------------------------------------------------------------ insertion

    /** What one round of the rebalancing loop leaves behind. */
    ghost predicate Rebalancing(c: Ctx, t: Tree, x: int, items: seq<Item>)
      reads this, nodes
    {
      At(nodes[..], nil, root, c, t, x) && Inserting(c, t) && Inorder(Plug(c, t)) == items
    }

    /** The records around a node whose parent is red. */
    lemma Family(c: Ctx, t: Tree, x: int)
      requires At(nodes[..], nil, root, c, t, x) && Inserting(c, t) && CtxRed(c) && !c.up.Top?
      ensures var p := nodes[x].parent;
              && 0 <= x < nodes.Length && 0 <= p < nodes.Length && p == c.item.id
              && At(nodes[..], nil, root, c.up, Around(c, t), p)
              && var g := nodes[p].parent;
              && 0 <= g < nodes.Length && g == c.up.item.id
              && At(nodes[..], nil, root, c.up.up, Around(c.up, Around(c, t)), g)
              && (c.up.InL? ==> nodes[g].left == p && 0 <= nodes[g].right < nodes.Length && nodes[nodes[g].right].red == Red(c.up.right))
              && (c.up.InR? ==> nodes[g].right == p && nodes[g].left != p && 0 <= nodes[g].left < nodes.Length && nodes[nodes[g].left].red == Red(c.up.left))
              && (c.InL? <==> nodes[p].left == x) && (c.InR? <==> nodes[p].right == x)
              && Plug(c, t) == Plug(c.up.up, Around(c.up, Around(c, t)))
    {
      var h := nodes[..];
      Up(h, nil, root, c, t, x);
      ParentSide(h, nil, root, c, t, x);
      var p := Around(c, t);
      Up(h, nil, root, c.up, p, c.item.id);
      ParentSide(h, nil, root, c.up, p, c.item.id);
      ColourAt(h, nil, root, c.up.up, Around(c.up, p), c.up.item.id);
    }

    method FixRedUncle(x: nat, temp: nat, ghost c: Ctx, ghost t: Tree, ghost items: seq<Item>) returns (x': nat, ghost t': Tree)
      requires Rebalancing(c, t, x, items) && CtxRed(c) && !c.up.Top? && Red(Sibling(c.up))
      requires 0 <= nodes[x].parent < nodes.Length && 0 <= nodes[nodes[x].parent].parent < nodes.Length
      requires var gp := nodes[nodes[x].parent].parent; temp == if c.up.InL? then nodes[gp].right else nodes[gp].left
      modifies nodes
      ensures Rebalancing(c.up.up, t', x', items)
      ensures Framed(old(nodes[..]), nodes[..], Scope(nil, items))
    {
      Family(c, t, x);
      var parent := nodes[x].parent;
      var gp := nodes[parent].parent;
      ghost var h := nodes[..];
      nodes[parent] := nodes[parent].(red := false);
      nodes[temp] := nodes[temp].(red := false);
      nodes[gp] := nodes[gp].(red := true);
      x' := gp;
      t' := RedUncleDone(h, nodes[..], nil, root, c, t, x, parent, temp, gp, items);
    }

    method FixOuterL(x: nat, ghost c: Ctx, ghost t: Tree, ghost items: seq<Item>) returns (ghost c': Ctx)
      requires Rebalancing(c, t, x, items) && CtxRed(c) && c.InL? && c.up.InL? && !Red(c.up.right)
      modifies this`root, nodes
      ensures Rebalancing(c', t, x, items) && !CtxRed(c')
      ensures Framed(old(nodes[..]), nodes[..], Scope(nil, items))
    {
      Family(c, t, x);
      var parent := nodes[x].parent;
      var gp := nodes[parent].parent;
      ghost var h := nodes[..];
      nodes[parent] := nodes[parent].(red := false);
      nodes[gp] := nodes[gp].(red := true);
      ghost var h1, root0 := nodes[..], root;
      OuterFactsL(h, h1, nil, root, c, t, parent, gp);
      RightRotate(gp);
      TurnRightFrame(h, h1, nodes[..], nil, root0, root, c.up.up, Around(c.up, Around(c, t)), gp, items, gp, parent, gp);
      OuterL(h, h1, nodes[..], nil, root0, root, c, t, x, parent, gp);
      c' := InL(c.up.up, c.item, false, Node(c.right, c.up.item, true, c.up.right));
    }

    method FixInnerL(x: nat, ghost c: Ctx, ghost t: Tree, ghost items: seq<Item>) returns (x': nat, ghost c': Ctx, ghost t': Tree)
      requires Rebalancing(c, t, x, items) && CtxRed(c) && c.InR? && c.up.InL?
      modifies this`root, nodes
      ensures Rebalancing(c', t', x', items) && CtxRed(c') && c'.InL? && c'.up == c.up
      ensures Framed(old(nodes[..]), nodes[..], Scope(nil, items))
    {
      Family(c, t, x);
      ghost var h, root0 := nodes[..], root;
      x' := nodes[x].parent;
      LeftFacts(h, nil, root, c.up, Around(c, t), x');
      LeftRotate(x');
      TurnLeftFrame(h, h, nodes[..], nil, root0, root, c.up, Around(c, t), x', items, x', x', x');
      InnerLAt(h, nodes[..], nil, root0, root, c, t, x');
      c', t' := InL(c.up, t.item, true, t.right), Node(c.left, c.item, true, t.left);
    }

    method FixOuterR(x: nat, ghost c: Ctx, ghost t: Tree, ghost items: seq<Item>) returns (ghost c': Ctx)
      requires Rebalancing(c, t, x, items) && CtxRed(c) && c.InR? && c.up.InR? && !Red(c.up.left)
      modifies this`root, nodes
      ensures Rebalancing(c', t, x, items) && !CtxRed(c')
      ensures Framed(old(nodes[..]), nodes[..], Scope(nil, items))
    {
      Family(c, t, x);
      var parent := nodes[x].parent;
      var gp := nodes[parent].parent;
      ghost var h := nodes[..];
      nodes[parent] := nodes[parent].(red := false);
      nodes[gp] := nodes[gp].(red := true);
      ghost var h1, root0 := nodes[..], root;
      OuterFactsR(h, h1, nil, root, c, t, parent, gp);
      LeftRotate(gp);
      TurnLeftFrame(h, h1, nodes[..], nil, root0, root, c.up.up, Around(c.up, Around(c, t)), gp, items, gp, parent, gp);
      OuterR(h, h1, nodes[..], nil, root0, root, c, t, x, parent, gp);
      c' := InR(c.up.up, c.item, false, Node(c.up.left, c.up.item, true, c.left));
    }

    method FixInnerR(x: nat, ghost c: Ctx, ghost t: Tree, ghost items: seq<Item>) returns (x': nat, ghost c': Ctx, ghost t': Tree)
      requires Rebalancing(c, t, x, items) && CtxRed(c) && c.InL? && c.up.InR?
      modifies this`root, nodes
      ensures Rebalancing(c', t', x', items) && CtxRed(c') && c'.InR? && c'.up == c.up
      ensures Framed(old(nodes[..]), nodes[..], Scope(nil, items))
    {
      Family(c, t, x);
      ghost var h, root0 := nodes[..], root;
      x' := nodes[x].parent;
      RightFacts(h, nil, root, c.up, Around(c, t), x');
      RightRotate(x');
      TurnRightFrame(h, h, nodes[..], nil, root0, root, c.up, Around(c, t), x', items, x', x', x');
      InnerRAt(h, nodes[..], nil, root0, root, c, t, x');
      c', t' := InR(c.up, t.item, true, t.left), Node(t.right, c.item, true, c.right);
    }

    /** One round of the rebalancing loop. */
    method FixStep(x: nat, ghost c: Ctx, ghost t: Tree, ghost items: seq<Item>) returns (x': nat, ghost c': Ctx, ghost t': Tree)
      requires Rebalancing(c, t, x, items) && CtxRed(c)
      modifies this`root, nodes
      ensures Rebalancing(c', t', x', items)
      ensures CtxRed(c') ==> Depth(c') < Depth(c)
      ensures Framed(old(nodes[..]), nodes[..], Scope(nil, items))
    {
      ghost var h := nodes[..];
      HasGrandparent(c, t);
      Family(c, t, x);
      var parent := nodes[x].parent;
      var gp := nodes[parent].parent;
      if parent == nodes[gp].left {
        var temp := nodes[gp].right;
        if nodes[temp].red {
          x', t' := FixRedUncle(x, temp, c, t, items);
          c' := c.up.up;
        } else {
          x', c', t' := x, c, t;
          if x == nodes[parent].right {
            x', c', t' := FixInnerL(x, c, t, items);
          }
          ghost var h1 := nodes[..];
          c' := FixOuterL(x', c', t', items);
          FramedTwice(h, h1, nodes[..], Scope(nil, items));
        }
      } else {
        var temp := nodes[gp].left;
        if nodes[temp].red {
          x', t' := FixRedUncle(x, temp, c, t, items);
          c' := c.up.up;
        } else {
          x', c', t' := x, c, t;
          if x == nodes[parent].left {
            x', c', t' := FixInnerR(x, c, t, items);
          }
          ghost var h1 := nodes[..];
          c' := FixOuterR(x', c', t', items);
          FramedTwice(h, h1, nodes[..], Scope(nil, items));
        }
      }
    }

    /** The descent of ngx_rbtree_insert_value and ngx_rbtree_insert_timer_value. */
    method FindLeaf(key: nat, ghost rank: int) returns (temp: nat, left: bool, ghost c: Ctx)
      requires Valid() && root != nil && key == rank % KEYS
      requires forall i :: 0 <= i < |Inorder(tree)| ==> Comparable(timer, rank, Inorder(tree)[i].rank)
      ensures temp < nodes.Length && !c.Top? && temp == c.item.id && left == c.InL?
      ensures At(nodes[..], nil, root, c, Leaf, nil) && Plug(c, Leaf) == tree && Between(Pre(c), rank, Post(c))
    {
      ghost var t, h := tree, nodes[..];
      c := Top;
      ColourAt(h, nil, root, c, t, root);
      temp := root;
      while true
        invariant temp < nodes.Length && t.Node? && Seeking(h, nil, root, tree, c, t, temp, rank)
        decreases t
      {
        SeekDown(h, nil, root, tree, c, t, temp, rank, timer);
        left := Less(timer, key, nodes[temp].key);
        var next := if left then nodes[temp].left else nodes[temp].right;
        if left {
          c, t := InL(c, t.item, t.red, t.right), t.left;
        } else {
          c, t := InR(c, t.item, t.red, t.left), t.right;
        }
        if next == nil {
          break;
        }
        temp := next;
      }
    }

    /** The new leaf. */
    method InsertLeaf(node: nat, ghost rank: int) returns (ghost c: Ctx)
      requires Valid() && root != nil && node < nodes.Length && node != nil && node !in Ids(tree)
      requires nodes[node].key == rank % KEYS
      requires forall i :: 0 <= i < |Inorder(tree)| ==> Comparable(timer, rank, Inorder(tree)[i].rank)
      modifies nodes
      ensures !c.Top? && At(nodes[..], nil, root, c, Node(Leaf, Item(rank, node), true, Leaf), node)
      ensures Plug(c, Leaf) == tree && Between(Pre(c), rank, Post(c))
      ensures Framed(old(nodes[..]), nodes[..], Ids(tree) + {node} + {nil})
    {
      var temp, left;
      temp, left, c := FindLeaf(nodes[node].key, rank);
      PlugApart(c, Leaf);
      ghost var h := nodes[..];
      if left {
        nodes[temp] := nodes[temp].(left := node);
      } else {
        nodes[temp] := nodes[temp].(right := node);
      }
      nodes[node] := nodes[node].(parent := temp, left := nil, right := nil, red := true);
      Graft(h, nodes[..], nil, root, c, Item(rank, node));
    }

    /** ngx_rbtree_insert */
    method Insert(node: nat, ghost rank: int) returns (ghost k: nat)
      requires Valid() && node < nodes.Length && node != nil && node !in Ids(tree)
      requires nodes[node].key == rank % KEYS
      requires forall i :: 0 <= i < |Inorder(tree)| ==> Comparable(timer, rank, Inorder(tree)[i].rank)
      modifies this, nodes
      ensures Valid()
      ensures k <= |old(Inorder(tree))| && Between(old(Inorder(tree))[..k], rank, old(Inorder(tree))[k..])
      ensures Inorder(tree) == old(Inorder(tree))[..k] + [Item(rank, node)] + old(Inorder(tree))[k..]
      ensures Ids(tree) == old(Ids(tree)) + {node} && Framed(old(nodes[..]), nodes[..], Ids(tree) + {nil})
    {
      if root == nil {
        InsertFirst(node, rank);
        k := 0;
      } else {
        k := InsertBelow(node, rank);
      }
    }

    /** The tree is empty. */
    method InsertFirst(node: nat, ghost rank: int)
      requires Valid() && root == nil && node < nodes.Length && node != nil && nodes[node].key == rank % KEYS
      modifies this, nodes
      ensures Valid() && old(tree).Leaf? && Inorder(tree) == [Item(rank, node)]
      ensures Ids(tree) == {node} && Framed(old(nodes[..]), nodes[..], {node})
    {
      ColourAt(nodes[..], nil, root, Top, tree, root);
      nodes[node] := Rec(nodes[node].key, nil, nil, NULL, false);
      root := node;
      tree := Node(Leaf, Item(rank, node), false, Leaf);
      assert Tied(nodes[..], nil, Leaf, nil) && Ids(Leaf) == {};
    }

    /** The tree has nodes. */
    method InsertBelow(node: nat, ghost rank: int) returns (ghost k: nat)
      requires Valid() && root != nil && node < nodes.Length && node != nil && node !in Ids(tree)
      requires nodes[node].key == rank % KEYS
      requires forall i :: 0 <= i < |Inorder(tree)| ==> Comparable(timer, rank, Inorder(tree)[i].rank)
      modifies this, nodes
      ensures Valid()
      ensures k <= |old(Inorder(tree))| && Between(old(Inorder(tree))[..k], rank, old(Inorder(tree))[k..])
      ensures Inorder(tree) == old(Inorder(tree))[..k] + [Item(rank, node)] + old(Inorder(tree))[k..]
      ensures Ids(tree) == old(Ids(tree)) + {node} && Framed(old(nodes[..]), nodes[..], Ids(tree) + {nil})
    {
      ghost var h, before, x := nodes[..], tree, Item(rank, node);
      ghost var c := InsertLeaf(node, rank);
      ghost var h1, items := nodes[..], Pre(c) + [x] + Post(c);
      k := NewItem(before, c, x);
      Rebalance(node, c, Node(Leaf, x, true, Leaf), items);
      IdsInserted(before, tree, Pre(c), x, Post(c));
      IdsAreItems(tree);
      FramedTwice(h, h1, nodes[..], Ids(tree) + {nil});
    }

    method Rebalance(node: nat, ghost c0: Ctx, ghost t0: Tree, ghost items: seq<Item>)
      requires Rebalancing(c0, t0, node, items) && Sorted(items)
      modifies this, nodes
      ensures Valid() && Inorder(tree) == items
      ensures Framed(old(nodes[..]), nodes[..], Scope(nil, items))
    {
      var x := node;
      ghost var c, t := c0, t0;
      RootIsTop(nodes[..], nil, root, c, t, x);
      if !c.Top? { ParentColour(nodes[..], nil, root, c, t, x); }
      while x != root && nodes[nodes[x].parent].red
        invariant 0 <= x < nodes.Length && Rebalancing(c, t, x, items)
        invariant x == root <==> c.Top?
        invariant Framed(old(nodes[..]), nodes[..], Scope(nil, items))
        invariant x != root ==> 0 <= nodes[x].parent < nodes.Length && nodes[nodes[x].parent].red == CtxRed(c)
        decreases if CtxRed(c) then Depth(c) + 1 else 0
      {
        ghost var h := nodes[..];
        x, c, t := FixStep(x, c, t, items);
        FramedTwice(old(nodes[..]), h, nodes[..], Scope(nil, items));
        ColourAt(nodes[..], nil, root, c, t, x);
        RootIsTop(nodes[..], nil, root, c, t, x);
        if !c.Top? { ParentColour(nodes[..], nil, root, c, t, x); }
      }
      ghost var h := nodes[..];
      BlackenRoot(c, t, x, items);
      FramedTwice(old(nodes[..]), h, nodes[..], Scope(nil, items));
    }

    /** The end of ngx_rbtree_insert: ngx_rbt_black(*root). */
    method BlackenRoot(ghost c: Ctx, ghost t: Tree, ghost x: int, ghost items: seq<Item>)
      requires Rebalancing(c, t, x, items) && Sorted(items) && !CtxRed(c)
      modifies this, nodes
      ensures Valid() && Inorder(tree) == items
      ensures Framed(old(nodes[..]), nodes[..], Scope(nil, items))
    {
      ghost var h := nodes[..];
      RootIsTop(h, nil, root, c, t, x);
      Close(h, nil, root, c, t, x);
      PlugRedBlack(c, t);
      tree := Plug(c, t);
      ColourAt(h, nil, root, Top, tree, root);
      InScope(h, nil, root, Top, tree, root, items);
      nodes[root] := nodes[root].(red := false);
      DyeTop(h, nodes[..], nil, root, Top, tree, root, false);
      tree := tree.(red := false);
    }

    // ------------------------------------------------------------ deletion

    /** What one round of the repair loop leaves behind; `temp` may be the sentinel, whose `parent` then matters. */
    ghost predicate Repairing(c: Ctx, t: Tree, x: int, items: seq<Item>)
      reads this, nodes
    {
      InRepair(nodes[..], nil, root, c, t, x, items)
    }

    /** The records around a black pointer that is one black node short. */
    lemma Kin(c: Ctx, t: Tree, x: int)
      requires At(nodes[..], nil, root, c, t, x) && Deleting(c, t) && !Red(t) && !c.Top? && Aimed(nodes[..], c, x)
      ensures var p := nodes[x].parent;
              && 0 <= x < nodes.Length && 0 <= p < nodes.Length && p == c.item.id
              && At(nodes[..], nil, root, c.up, Around(c, t), p)
              && Plug(c, t) == Plug(c.up, Around(c, t))
              && nodes[p].red == c.red
              && (c.InL? <==> nodes[p].left == x) && (c.InR? <==> nodes[p].right == x)
              && var w := if c.InL? then nodes[p].right else nodes[p].left;
              && Sibling(c).Node? && 0 <= w < nodes.Length && w != p && w != x && nodes[w].red == Red(Sibling(c))
              && 0 <= nodes[w].left < nodes.Length && 0 <= nodes[w].right < nodes.Length
              && nodes[w].left != w && nodes[w].right != w && nodes[w].left != p && nodes[w].right != p
              && nodes[nodes[w].left].red == Red(Sibling(c).left) && nodes[nodes[w].right].red == Red(Sibling(c).right)
    {
      var h := nodes[..];
      SiblingExists(c, t);
      Up(h, nil, root, c, t, x);
      var p := Around(c, t);
      Down(h, nil, root, c.up, p, c.item.id);
      ColourAt(h, nil, root, c.up, p, c.item.id);
      Open(h, nil, t, x);
      Open(h, nil, p, c.item.id);
      if c.InL? {
        ColourAt(h, nil, root, InR(c.up, c.item, c.red, t), c.right, h[c.item.id].right);
        KinApart(h, nil, c.right, h[c.item.id].right, c.item.id);
      } else {
        ColourAt(h, nil, root, InL(c.up, c.item, c.red, t), c.left, h[c.item.id].left);
        KinApart(h, nil, c.left, h[c.item.id].left, c.item.id);
      }
    }

    /** The sibling is red: it goes above the parent, and the new sibling is black. */
    method FixRedSiblingL(temp: nat, ghost c: Ctx, ghost t: Tree, ghost items: seq<Item>) returns (ghost c': Ctx)
      requires Repairing(c, t, temp, items) && c.InL? && !Red(t) && Red(c.right)
      modifies this`root, nodes
      ensures Repairing(c', t, temp, items) && c'.InL? && !Red(c'.right) && CtxRed(c')
      ensures Framed(old(nodes[..]), nodes[..], Scope(nil, items))
    {
      Kin(c, t, temp);
      var p := nodes[temp].parent;
      var w := nodes[p].right;
      ghost var h, root0 := nodes[..], root;
      nodes[w] := nodes[w].(red := false);
      nodes[p] := nodes[p].(red := true);
      ghost var h1 := nodes[..];
      LeftFacts(h, nil, root, c.up, Around(c, t), p);
      LeftRotate(p);
      c' := RedSiblingLDone(h, h1, nodes[..], nil, root0, root, c, t, temp, p, w, items);
    }

    /** The inner nephew is red: it becomes the sibling. */
    method FixInnerNephewL(temp: nat, ghost c: Ctx, ghost t: Tree, ghost items: seq<Item>) returns (ghost c': Ctx)
      requires Repairing(c, t, temp, items) && c.InL? && !Red(t) && c.right.Node? && !Red(c.right)
      requires !Red(c.right.right) && Red(c.right.left)
      modifies this`root, nodes
      ensures Repairing(c', t, temp, items) && c'.InL? && !Red(c'.right) && c'.right.Node? && Red(c'.right.right)
      ensures Framed(old(nodes[..]), nodes[..], Scope(nil, items))
    {
      Kin(c, t, temp);
      var p := nodes[temp].parent;
      var w := nodes[p].right;
      var n := nodes[w].left;
      ghost var h, root0 := nodes[..], root;
      Down(h, nil, root, c.up, Around(c, t), p);
      RightFacts(h, nil, root, InR(c.up, c.item, c.red, t), c.right, w);
      nodes[n] := nodes[n].(red := false);
      nodes[w] := nodes[w].(red := true);
      ghost var h1 := nodes[..];
      RightRotate(w);
      c' := InnerNephewLDone(h, h1, nodes[..], nil, root0, root, c, t, temp, p, w, n, items);
    }

    /** The outer nephew is red: a rotation at the parent ends the repair. */
    method FixOuterNephewL(temp: nat, ghost c: Ctx, ghost t: Tree, ghost items: seq<Item>) returns (ghost t': Tree)
      requires Repairing(c, t, temp, items) && c.InL? && !Red(t) && c.right.Node? && !Red(c.right) && Red(c.right.right)
      modifies this`root, nodes
      ensures Repairing(Top, t', root, items)
      ensures Framed(old(nodes[..]), nodes[..], Scope(nil, items))
    {
      Kin(c, t, temp);
      var p := nodes[temp].parent;
      var w := nodes[p].right;
      var n := nodes[w].right;
      ghost var h, root0 := nodes[..], root;
      LeftFacts(h, nil, root, c.up, Around(c, t), p);
      nodes[w] := nodes[w].(red := nodes[p].red);
      nodes[p] := nodes[p].(red := false);
      nodes[n] := nodes[n].(red := false);
      ghost var h1 := nodes[..];
      LeftRotate(p);
      t' := OuterNephewLDone(h, h1, nodes[..], nil, root0, root, c, t, temp, p, w, n, items);
    }

    /** Both nephews are black: the sibling turns red and the parent is now one short. */
    method FixBlackNephewsL(temp: nat, ghost c: Ctx, ghost t: Tree, ghost items: seq<Item>) returns (temp': nat, ghost t': Tree)
      requires Repairing(c, t, temp, items) && c.InL? && !Red(t) && c.right.Node? && !Red(c.right)
      requires !Red(c.right.left) && !Red(c.right.right)
      modifies nodes
      ensures Repairing(c.up, t', temp', items) && Red(t') == c.red
      ensures Framed(old(nodes[..]), nodes[..], Scope(nil, items))
    {
      Kin(c, t, temp);
      temp' := nodes[temp].parent;
      var w := nodes[temp'].right;
      ghost var h, p := nodes[..], Around(c, t);
      nodes[w] := nodes[w].(red := true);
      ColourFrame(h, nodes[..], nil, root, c.up, p, temp', items, w, w, w);
      DyeRight(h, nodes[..], nil, root, c.up, p, temp', true);
      t' := p.(right := c.right.(red := true));
      BlackNephewsL(c, t);
      Aim(h, nodes[..], nil, root, c.up, t', temp');
    }

    /** One round of the repair loop, on the left side. */
    method RepairStepL(temp: nat, ghost c: Ctx, ghost t: Tree, ghost items: seq<Item>) returns (temp': nat, ghost c': Ctx, ghost t': Tree)
      requires Repairing(c, t, temp, items) && c.InL? && !Red(t)
      modifies this`root, nodes
      ensures Repairing(c', t', temp', items)
      ensures c'.Top? || Red(t') || Depth(c') < Depth(c)
      ensures Framed(old(nodes[..]), nodes[..], Scope(nil, items))
    {
      ghost var h, s := nodes[..], Scope(nil, items);
      Kin(c, t, temp);
      temp', c' := temp, c;
      var w := nodes[nodes[temp].parent].right;
      if nodes[w].red {
        c' := FixRedSiblingL(temp, c, t, items);
        Kin(c', t, temp);
        w := nodes[nodes[temp].parent].right;
      }
      ghost var h1 := nodes[..];
      if !nodes[nodes[w].left].red && !nodes[nodes[w].right].red {
        temp', t' := FixBlackNephewsL(temp, c', t, items);
        c' := c'.up;
        FramedTwice(h, h1, nodes[..], s);
      } else {
        if !nodes[nodes[w].right].red {
          c' := FixInnerNephewL(temp, c', t, items);
        }
        FramedTwice(h, h1, nodes[..], s);
        ghost var h2 := nodes[..];
        t' := FixOuterNephewL(temp, c', t, items);
        temp', c' := root, Top;
        FramedTwice(h, h2, nodes[..], s);
      }
    }

    /** The sibling is red: it goes above the parent, and the new sibling is black. */
    method FixRedSiblingR(temp: nat, ghost c: Ctx, ghost t: Tree, ghost items: seq<Item>) returns (ghost c': Ctx)
      requires Repairing(c, t, temp, items) && c.InR? && !Red(t) && Red(c.left)
      modifies this`root, nodes
      ensures Repairing(c', t, temp, items) && c'.InR? && !Red(c'.left) && CtxRed(c')
      ensures Framed(old(nodes[..]), nodes[..], Scope(nil, items))
    {
      Kin(c, t, temp);
      var p := nodes[temp].parent;
      var w := nodes[p].left;
      ghost var h, root0 := nodes[..], root;
      nodes[w] := nodes[w].(red := false);
      nodes[p] := nodes[p].(red := true);
      ghost var h1 := nodes[..];
      RightFacts(h, nil, root, c.up, Around(c, t), p);
      RightRotate(p);
      c' := RedSiblingRDone(h, h1, nodes[..], nil, root0, root, c, t, temp, p, w, items);
    }

    /** The inner nephew is red: it becomes the sibling. */
    method FixInnerNephewR(temp: nat, ghost c: Ctx, ghost t: Tree, ghost items: seq<Item>) returns (ghost c': Ctx)
      requires Repairing(c, t, temp, items) && c.InR? && !Red(t) && c.left.Node? && !Red(c.left)
      requires !Red(c.left.left) && Red(c.left.right)
      modifies this`root, nodes
      ensures Repairing(c', t, temp, items) && c'.InR? && !Red(c'.left) && c'.left.Node? && Red(c'.left.left)
      ensures Framed(old(nodes[..]), nodes[..], Scope(nil, items))
    {
      Kin(c, t, temp);
      var p := nodes[temp].parent;
      var w := nodes[p].left;
      var n := nodes[w].right;
      ghost var h, root0 := nodes[..], root;
      Down(h, nil, root, c.up, Around(c, t), p);
      LeftFacts(h, nil, root, InL(c.up, c.item, c.red, t), c.left, w);
      nodes[n] := nodes[n].(red := false);
      nodes[w] := nodes[w].(red := true);
      ghost var h1 := nodes[..];
      LeftRotate(w);
      c' := InnerNephewRDone(h, h1, nodes[..], nil, root0, root, c, t, temp, p, w, n, items);
    }

    /** The outer nephew is red: a rotation at the parent ends the repair. */
    method FixOuterNephewR(temp: nat, ghost c: Ctx, ghost t: Tree, ghost items: seq<Item>) returns (ghost t': Tree)
      requires Repairing(c, t, temp, items) && c.InR? && !Red(t) && c.left.Node? && !Red(c.left) && Red(c.left.left)
      modifies this`root, nodes
      ensures Repairing(Top, t', root, items)
      ensures Framed(old(nodes[..]), nodes[..], Scope(nil, items))
    {
      Kin(c, t, temp);
      var p := nodes[temp].parent;
      var w := nodes[p].left;
      var n := nodes[w].left;
      ghost var h, root0 := nodes[..], root;
      RightFacts(h, nil, root, c.up, Around(c, t), p);
      nodes[w] := nodes[w].(red := nodes[p].red);
      nodes[p] := nodes[p].(red := false);
      nodes[n] := nodes[n].(red := false);
      ghost var h1 := nodes[..];
      RightRotate(p);
      t' := OuterNephewRDone(h, h1, nodes[..], nil, root0, root, c, t, temp, p, w, n, items);
    }

    /** Both nephews are black: the sibling turns red and the parent is now one short. */
    method FixBlackNephewsR(temp: nat, ghost c: Ctx, ghost t: Tree, ghost items: seq<Item>) returns (temp': nat, ghost t': Tree)
      requires Repairing(c, t, temp, items) && c.InR? && !Red(t) && c.left.Node? && !Red(c.left)
      requires !Red(c.left.right) && !Red(c.left.left)
      modifies nodes
      ensures Repairing(c.up, t', temp', items) && Red(t') == c.red
      ensures Framed(old(nodes[..]), nodes[..], Scope(nil, items))
    {
      Kin(c, t, temp);
      temp' := nodes[temp].parent;
      var w := nodes[temp'].left;
      ghost var h, p := nodes[..], Around(c, t);
      nodes[w] := nodes[w].(red := true);
      ColourFrame(h, nodes[..], nil, root, c.up, p, temp', items, w, w, w);
      DyeLeft(h, nodes[..], nil, root, c.up, p, temp', true);
      t' := p.(left := c.left.(red := true));
      BlackNephewsR(c, t);
      Aim(h, nodes[..], nil, root, c.up, t', temp');
    }

    /** One round of the repair loop, on the right side. */
    method RepairStepR(temp: nat, ghost c: Ctx, ghost t: Tree, ghost items: seq<Item>) returns (temp': nat, ghost c': Ctx, ghost t': Tree)
      requires Repairing(c, t, temp, items) && c.InR? && !Red(t)
      modifies this`root, nodes
      ensures Repairing(c', t', temp', items)
      ensures c'.Top? || Red(t') || Depth(c') < Depth(c)
      ensures Framed(old(nodes[..]), nodes[..], Scope(nil, items))
    {
      ghost var h, s := nodes[..], Scope(nil, items);
      Kin(c, t, temp);
      temp', c' := temp, c;
      var w := nodes[nodes[temp].parent].left;
      if nodes[w].red {
        c' := FixRedSiblingR(temp, c, t, items);
        Kin(c', t, temp);
        w := nodes[nodes[temp].parent].left;
      }
      ghost var h1 := nodes[..];
      if !nodes[nodes[w].left].red && !nodes[nodes[w].right].red {
        temp', t' := FixBlackNephewsR(temp, c', t, items);
        c' := c'.up;
        FramedTwice(h, h1, nodes[..], s);
      } else {
        if !nodes[nodes[w].left].red {
          c' := FixInnerNephewR(temp, c', t, items);
        }
        FramedTwice(h, h1, nodes[..], s);
        ghost var h2 := nodes[..];
        t' := FixOuterNephewR(temp, c', t, items);
        temp', c' := root, Top;
        FramedTwice(h, h2, nodes[..], s);
      }
    }

    /** The loop at the end of ngx_rbtree_delete. */
    method Repair(start: nat, ghost c0: Ctx, ghost t0: Tree, ghost items: seq<Item>)
      requires Repairing(c0, t0, start, items) && Sorted(items)
      modifies this, nodes
      ensures Valid() && Inorder(tree) == items
      ensures Framed(old(nodes[..]), nodes[..], Scope(nil, items))
    {
      var temp := start;
      ghost var c, t := c0, t0;
      ColourAt(nodes[..], nil, root, c, t, temp);
      RootIsTop(nodes[..], nil, root, c, t, temp);
      while temp != root && !nodes[temp].red
        invariant 0 <= temp < nodes.Length && Repairing(c, t, temp, items)
        invariant Framed(old(nodes[..]), nodes[..], Scope(nil, items))
        invariant (temp == root <==> c.Top?) && nodes[temp].red == Red(t)
        decreases if c.Top? || Red(t) then 0 else Depth(c) + 1
      {
        ghost var h := nodes[..];
        Kin(c, t, temp);
        if temp == nodes[nodes[temp].parent].left {
          temp, c, t := RepairStepL(temp, c, t, items);
        } else {
          temp, c, t := RepairStepR(temp, c, t, items);
        }
        FramedTwice(old(nodes[..]), h, nodes[..], Scope(nil, items));
        ColourAt(nodes[..], nil, root, c, t, temp);
        RootIsTop(nodes[..], nil, root, c, t, temp);
      }
      ghost var h := nodes[..];
      Finish(temp, c, t, items);
      FramedTwice(old(nodes[..]), h, nodes[..], Scope(nil, items));
    }

    /** The end of ngx_rbtree_delete: ngx_rbt_black(temp). */
    method Finish(temp: nat, ghost c: Ctx, ghost t: Tree, ghost items: seq<Item>)
      requires temp < nodes.Length && Repairing(c, t, temp, items) && Sorted(items) && (c.Top? || Red(t))
      modifies this, nodes
      ensures Valid() && Inorder(tree) == items
      ensures Framed(old(nodes[..]), nodes[..], Scope(nil, items))
    {
      ghost var h := nodes[..];
      Open(h, nil, t, temp);
      InScope(h, nil, root, c, t, temp, items);
      nodes[temp] := nodes[temp].(red := false);
      Repaired(c, t);
      tree := Plug(c, Blackened(t));
      if t.Node? {
        DyeTop(h, nodes[..], nil, root, c, t, temp, false);
      } else {
        assert nodes[..] == h;
      }
      Close(nodes[..], nil, root, c, Blackened(t), temp);
    }

    // ------------------------------------------------------------ taking a node out

    /** ngx_rbtree_min */
    method Min(x: nat, ghost c: Ctx, ghost t: Tree) returns (y: nat, ghost d: Ctx, ghost u: Tree)
      requires At(nodes[..], nil, root, c, t, x) && t.Node?
      ensures Plug(d, u) == t && u.Node? && u.left.Leaf? && u.item.id == y && Pre(d) == []
      ensures y < nodes.Length && At(nodes[..], nil, root, Onto(d, c), u, y)
    {
      y, d, u := x, Top, t;
      ColourAt(nodes[..], nil, root, Onto(d, c), u, y);
      while nodes[y].left != nil
        invariant y < nodes.Length && Plug(d, u) == t && u.Node? && Pre(d) == []
        invariant At(nodes[..], nil, root, Onto(d, c), u, y)
        invariant nodes[y].left == nil <==> u.left.Leaf?
        decreases u
      {
        Down(nodes[..], nil, root, Onto(d, c), u, y);
        y, d, u := nodes[y].left, InL(d, u.item, u.red, u.right), u.left;
        ColourAt(nodes[..], nil, root, Onto(d, c), u, y);
      }
      Open(nodes[..], nil, u, y);
    }

    /** The leftmost node comes first. */
    method First() returns (y: nat)
      requires Valid() && root != nil
      ensures |Inorder(tree)| > 0 && y == Inorder(tree)[0].id
      ensures forall i :: 0 <= i < |Inorder(tree)| ==> Inorder(tree)[0].rank <= Inorder(tree)[i].rank
    {
      ColourAt(nodes[..], nil, root, Top, tree, root);
      ghost var d, u;
      y, d, u := Min(root, Top, tree);
      FirstOf(d, u);
    }

    /** ngx_rbtree_next */
    method Next(node: nat) returns (r: int)
      requires Valid() && node in Ids(tree)
      ensures Follows(Inorder(tree), node, r)
    {
      ghost var c, t := Focus(nodes[..], nil, root, tree, node);
      ColourAt(nodes[..], nil, root, c, t, node);
      ItemAt(c, t);
      ghost var k := |Pre(c)| + |Inorder(t.left)|;
      if nodes[node].right != nil {
        r := FirstRight(node, c, t);
      } else {
        LastOf(c, t);
        r := Climb(node, c, t, k);
      }
      FollowsAt(Inorder(tree), node, r, k);
    }

    method FirstRight(node: nat, ghost c: Ctx, ghost t: Tree) returns (r: nat)
      requires node < nodes.Length && At(nodes[..], nil, root, c, t, node) && t.Node? && nodes[node].right != nil
      ensures var k := |Pre(c)| + |Inorder(t.left)|; k + 1 < |Inorder(Plug(c, t))| && Inorder(Plug(c, t))[k + 1].id == r
    {
      ColourAt(nodes[..], nil, root, c, t, node);
      Down(nodes[..], nil, root, c, t, node);
      ghost var d, u;
      r, d, u := Min(nodes[node].right, InR(c, t.item, t.red, t.left), t.right);
      Follower(c, t, d, u);
    }

    /** Up to the first ancestor that is entered from its left. */
    method Climb(node: nat, ghost c0: Ctx, ghost t0: Tree, ghost k: nat) returns (r: int)
      requires Valid() && node < nodes.Length && At(nodes[..], nil, root, c0, t0, node) && t0.Node? && Plug(c0, t0) == tree
      requires |Pre(c0)| + |Inorder(t0)| == k + 1
      ensures r == if k + 1 < |Inorder(tree)| then Inorder(tree)[k + 1].id else NULL
    {
      var x := node;
      ghost var c, t := c0, t0;
      while true
        invariant 0 <= x < nodes.Length && At(nodes[..], nil, root, c, t, x) && t.Node? && Plug(c, t) == tree
        invariant |Pre(c)| + |Inorder(t)| == k + 1
        decreases Depth(c)
      {
        RootIsTop(nodes[..], nil, root, c, t, x);
        InorderPlug(c, t);
        var parent := nodes[x].parent;
        if x == root {
          return NULL;
        }
        ParentSide(nodes[..], nil, root, c, t, x);
        if x == nodes[parent].left {
          assert Post(c)[0] == c.item;
          return parent;
        }
        Up(nodes[..], nil, root, c, t, x);
        x, c, t := parent, c.up, Around(c, t);
      }
    }

    /** The pointer to x in its parent p becomes y. */
    method Redirect(p: nat, x: nat, y: nat)
      requires p < nodes.Length
      modifies nodes
      ensures nodes[..] == old(nodes[..])[p := if old(nodes[p].left) == x then old(nodes[p]).(left := y) else old(nodes[p]).(right := y)]
    {
      if nodes[p].left == x {
        nodes[p] := nodes[p].(left := y);
      } else {
        nodes[p] := nodes[p].(right := y);
      }
    }

    /** The same, with the right child looked at first. */
    method RedirectRight(p: nat, x: nat, y: nat)
      requires p < nodes.Length
      modifies nodes
      ensures nodes[..] == old(nodes[..])[p := if old(nodes[p].right) == x then old(nodes[p]).(right := y) else old(nodes[p]).(left := y)]
    {
      if nodes[p].right == x {
        nodes[p] := nodes[p].(right := y);
      } else {
        nodes[p] := nodes[p].(left := y);
      }
    }

    /** `subst`, whose old place now holds `temp`, inherits the links and the colour of `node`. */
    method TakeOver(node: nat, subst: nat, temp: nat)
      requires Succeeds(nodes[..], nil, root, node, subst, temp)
      modifies this`root, nodes
      ensures var p := old(nodes[subst].parent); var h := old(nodes[..]);
              Replaced(h[temp := h[temp].(parent := p)], nodes[..], nil, old(root), root, node, subst)
      ensures nodes[temp].parent == if old(nodes[subst].parent) == node then subst else old(nodes[subst].parent)
    {
      ghost var h, root0 := nodes[..], root;
      ghost var q := if nodes[subst].parent == node then subst else nodes[subst].parent;
      CopyLinks(node, subst, temp);
      if node == root {
        root := subst;
      } else {
        Redirect(nodes[node].parent, node, subst);
      }
      ghost var h2 := nodes[..];
      Adopt(subst);
      Inherit(h, h2, nodes[..], nil, root0, root, node, subst, temp, q);
    }

    /** The parent of `temp`, and the links and the colour of `subst`. */
    method CopyLinks(node: nat, subst: nat, temp: nat)
      requires node < nodes.Length && subst < nodes.Length && temp < nodes.Length && temp != subst && temp != node && node != subst
      modifies nodes
      ensures var h := old(nodes[..]); var q := if h[subst].parent == node then subst else h[subst].parent;
              nodes[..] == h[temp := h[temp].(parent := q)][subst := h[node].(key := h[subst].key)]
    {
      if nodes[subst].parent == node {
        nodes[temp] := nodes[temp].(parent := subst);
      } else {
        nodes[temp] := nodes[temp].(parent := nodes[subst].parent);
      }
      nodes[subst] := nodes[subst].(left := nodes[node].left, right := nodes[node].right, parent := nodes[node].parent);
      nodes[subst] := nodes[subst].(red := nodes[node].red);
    }

    /** The children of x, if any, get x as their parent. */
    method Adopt(x: nat)
      requires x < nodes.Length && 0 <= nodes[x].left < nodes.Length && 0 <= nodes[x].right < nodes.Length
      requires nodes[x].left != x && nodes[x].right != x
      modifies nodes
      ensures Adopted(old(nodes[..]), nodes[..], nil, x)
    {
      var l := nodes[x].left;
      if l != nil {
        nodes[l] := nodes[l].(parent := x);
      }
      var r := nodes[x].right;
      if r != nil {
        nodes[r] := nodes[r].(parent := x);
      }
    }

    // ------------------------------------------------------------ ngx_rbtree_delete

    /** The record to take out and the one that fills its place. */
    method Choose(node: nat, ghost c: Ctx, ghost t: Tree) returns (subst: nat, temp: int, ghost d: Ctx, ghost u: Tree, ghost s: Tree)
      requires node < nodes.Length && At(nodes[..], nil, root, c, t, node) && t.Node?
      ensures subst < nodes.Length && temp == Ptr(nil, s) && (subst == node ==> u == t)
      ensures Chosen(nodes[..], nil, root, c, t, d, u, s, node, subst)
    {
      ColourAt(nodes[..], nil, root, c, t, node);
      Open(nodes[..], nil, t, node);
      Open(nodes[..], nil, t.left, nodes[node].left);
      Open(nodes[..], nil, t.right, nodes[node].right);
      d, u := Top, t;
      if nodes[node].left == nil {
        temp, subst, s := nodes[node].right, node, t.right;
      } else if nodes[node].right == nil {
        temp, subst, s := nodes[node].left, node, t.left;
      } else {
        Down(nodes[..], nil, root, c, t, node);
        subst, d, u := Min(nodes[node].right, InR(c, t.item, t.red, t.left), t.right);
        PairIds(nodes[..], nil, root, c, t, d, u, node, subst);
        PairParent(nodes[..], nil, root, c, t, d, u, node, subst);
        Open(nodes[..], nil, u, subst);
        s := u.right;
        var l, r := nodes[subst].left, nodes[subst].right;
        if l != nil {
          temp := l;
        } else {
          temp := r;
        }
      }
    }

    /** `temp` replaces the root. */
    method DropRoot(node: nat, temp: nat, ghost t: Tree, ghost s: Tree, ghost items: seq<Item>)
      requires node < nodes.Length && At(nodes[..], nil, root, Top, t, node) && Splices(t, s) && temp == Ptr(nil, s)
      requires RedBlack(t) && !Red(t) && Inorder(s) == items && Sorted(items)
      modifies this, nodes
      ensures Valid() && Inorder(tree) == items && Framed(old(nodes[..]), nodes[..], Ids(t) + {nil})
    {
      ghost var h, root0 := nodes[..], root;
      Open(h, nil, t, node);
      ColourAt(h, nil, root, Top, t, node);
      root := temp;
      nodes[temp] := nodes[temp].(red := false);
      ghost var h1 := nodes[..];
      nodes[node] := Cleared(nodes[node]);
      tree := Blackened(s);
      RootOut(h, h1, nodes[..], nil, root0, t, node, s, temp);
    }

    /** The links and colours of everything but the node to delete. */
    method Unhook(node: nat, subst: nat, temp: nat, ghost c: Ctx, ghost t: Tree, ghost d: Ctx, ghost u: Tree, ghost s: Tree)
        returns (ghost c': Ctx)
      requires node < nodes.Length && subst < nodes.Length && subst != root && temp == Ptr(nil, s)
      requires At(nodes[..], nil, root, c, t, node)
      requires Chosen(nodes[..], nil, root, c, t, d, u, s, node, subst)
      modifies this`root, nodes
      ensures c' == After(c, t, d, u, node, subst)
      ensures At(nodes[..], nil, root, c', s, temp) && Aimed(nodes[..], c', temp)
      ensures Framed(old(nodes[..]), nodes[..], Ids(Plug(c, t)) + {nil})
    {
      UnhookFacts(nodes[..], nil, root, c, t, d, u, s, node, subst, temp);
      c' := After(c, t, d, u, node, subst);
      if subst == node {
        UnhookSelf(node, temp, c, t, s);
      } else {
        UnhookSuccessor(node, subst, temp, c, t, d, u);
      }
    }

    /** The node has at most one child. */
    method UnhookSelf(node: nat, temp: nat, ghost c: Ctx, ghost t: Tree, ghost s: Tree)
      requires node < nodes.Length && temp < nodes.Length && !c.Top? && At(nodes[..], nil, root, c, t, node) && Splices(t, s) && temp == Ptr(nil, s)
      requires nodes[node].parent == c.item.id < nodes.Length && c.item.id != node && temp != c.item.id && temp != node
      modifies nodes
      ensures At(nodes[..], nil, root, c, s, temp) && Aimed(nodes[..], c, temp)
      ensures Framed(old(nodes[..]), nodes[..], Ids(Plug(c, t)) + {nil})
    {
      ghost var h := nodes[..];
      Redirect(nodes[node].parent, node, temp);
      nodes[temp] := nodes[temp].(parent := nodes[node].parent);
      nodes[node] := Cleared(nodes[node]);
      SelfOut(h, nodes[..], nil, root, c, t, node, s, temp);
      SelfFrame(h, nodes[..], nil, root, c, t, node, s, temp);
    }

    /** `temp` goes to the place of `subst`, and that to the place of `node`. */
    method MoveUp(node: nat, subst: nat, temp: nat)
      requires subst < nodes.Length && temp < nodes.Length && 0 <= nodes[subst].parent < nodes.Length && nodes[subst].parent != subst
      requires var h := nodes[..]; Succeeds(h[h[subst].parent := Redirected(h[h[subst].parent], subst, temp)], nil, root, node, subst, temp)
      modifies this`root, nodes
      ensures var h := old(nodes[..]); var h1 := h[h[subst].parent := Redirected(h[h[subst].parent], subst, temp)];
              Replaced(h1[temp := h1[temp].(parent := h[subst].parent)], nodes[..], nil, old(root), root, node, subst)
      ensures nodes[temp].parent == if old(nodes[subst].parent) == node then subst else old(nodes[subst].parent)
    {
      Redirect(nodes[subst].parent, subst, temp);
      TakeOver(node, subst, temp);
    }

    /** The successor takes the node's place. */
    method UnhookSuccessor(node: nat, subst: nat, temp: nat, ghost c: Ctx, ghost t: Tree, ghost d: Ctx, ghost u: Tree)
      requires node < nodes.Length && subst < nodes.Length && temp < nodes.Length && Pair(nodes[..], nil, root, c, t, d, u, node, subst)
      requires temp == Ptr(nil, u.right) && 0 <= nodes[subst].parent < nodes.Length && temp != subst && temp != nodes[subst].parent
      requires var h := nodes[..]; Succeeds(h[h[subst].parent := Redirected(h[h[subst].parent], subst, temp)], nil, root, node, subst, temp)
      requires temp != node && nodes[subst].parent != subst
      modifies this`root, nodes
      ensures At(nodes[..], nil, root, Moved(c, t, d, u.item), u.right, temp) && Aimed(nodes[..], Moved(c, t, d, u.item), temp)
      ensures Framed(old(nodes[..]), nodes[..], Ids(Plug(c, t)) + {nil})
    {
      ghost var h, root0 := nodes[..], root;
      MoveUp(node, subst, temp);
      ghost var h1 := nodes[..];
      nodes[node] := Cleared(nodes[node]);
      SuccessorOut(h, h1, nodes[..], nil, root0, root, c, t, d, u, node, subst, temp);
      SuccessorFrame(h, h1, nodes[..], nil, root0, root, c, t, d, u, node, subst, temp);
    }

    /** ngx_rbtree_delete */
    method Delete(node: nat) returns (ghost k: nat)
      requires Valid() && node in Ids(tree)
      modifies this, nodes
      ensures Valid()
      ensures k < |old(Inorder(tree))| && old(Inorder(tree))[k].id == node
      ensures Inorder(tree) == old(Inorder(tree))[..k] + old(Inorder(tree))[k + 1..]
      ensures Ids(tree) == old(Ids(tree)) - {node} && Framed(old(nodes[..]), nodes[..], old(Ids(tree)) + {nil})
    {
      ghost var c, t := Focus(nodes[..], nil, root, tree, node);
      k := Without(c, t);
      ghost var items := Inorder(tree)[..k] + Inorder(tree)[k + 1..];
      TakeAway(node, c, t, items);
      IdsRemoved(c, t, tree);
    }

    method TakeAway(node: nat, ghost c: Ctx, ghost t: Tree, ghost items: seq<Item>)
      requires Valid() && At(nodes[..], nil, root, c, t, node) && Plug(c, t) == tree && t.Node? && t.item.id == node
      requires items == Pre(c) + (Inorder(t.left) + Inorder(t.right)) + Post(c) && Sorted(items)
      modifies this, nodes
      ensures Valid() && Inorder(tree) == items && Framed(old(nodes[..]), nodes[..], old(Ids(tree)) + {nil})
    {
      ColourAt(nodes[..], nil, root, c, t, node);
      ghost var d, u, s;
      var subst, temp;
      subst, temp, d, u, s := Choose(node, c, t);
      RootIsTop(nodes[..], nil, root, c, t, node);
      Outcome(nodes[..], nil, root, c, t, d, u, s, node, subst);
      if subst == root {
        DropRoot(node, temp, t, s, items);
        return;
      }
      FewerIds(c, t, items);
      TakeOff(node, subst, temp, c, t, d, u, s, items);
    }

    /** The node to take off is not the root. */
    method TakeOff(node: nat, subst: nat, temp: nat, ghost c: Ctx, ghost t: Tree, ghost d: Ctx, ghost u: Tree, ghost s: Tree, ghost items: seq<Item>)
      requires node < nodes.Length && subst < nodes.Length && subst != root && temp == Ptr(nil, s)
      requires At(nodes[..], nil, root, c, t, node) && Plug(c, t) == tree && t.Node? && u.Node?
      requires Chosen(nodes[..], nil, root, c, t, d, u, s, node, subst) && nodes[subst].red == u.red
      requires Settled(After(c, t, d, u, node, subst), s, u.red, items) && Sorted(items) && IdSet(items) <= Ids(tree)
      modifies this, nodes
      ensures Valid() && Inorder(tree) == items && Framed(old(nodes[..]), nodes[..], old(Ids(tree)) + {nil})
    {
      var red := nodes[subst].red;
      ghost var ids := Ids(tree) + {nil};
      ghost var c' := Unhook(node, subst, temp, c, t, d, u, s);
      if red {
        tree := Plug(c', s);
        Close(nodes[..], nil, root, c', s, temp);
        return;
      }
      ghost var h := nodes[..];
      Repair(temp, c', s, items);
      FramedMore(h, nodes[..], Scope(nil, items), ids);
      FramedTwice(old(nodes[..]), h, nodes[..], ids);
    }
  }

  lemma BackAgain(items: seq<Item>, more: seq<Item>, again: seq<Item>, x: Item, k: nat)
    requires k <= |items| && more == items[..k] + [x] + items[k..] && again == more[..k] + more[k + 1..]
    ensures again == items
  {
  }

  /** An insertion and the deletion of the same node are inverse. */
  method InsertThenDelete(t: Rbtree, node: nat, ghost rank: int)
    requires t.Valid() && node < t.nodes.Length && node != t.nil && node !in Ids(t.tree) && t.nodes[node].key == rank % KEYS
    requires forall i :: 0 <= i < |Inorder(t.tree)| ==> Comparable(t.timer, rank, Inorder(t.tree)[i].rank)
    modifies t, t.nodes
    ensures t.Valid() && Inorder(t.tree) == old(Inorder(t.tree)) && Ids(t.tree) == old(Ids(t.tree))
    ensures Framed(old(t.nodes[..]), t.nodes[..], Ids(t.tree) + {node} + {t.nil})
  {
    ghost var items := Inorder(t.tree);
    ghost var k := t.Insert(node, rank);
    ghost var more, h := t.tree, t.nodes[..];
    ghost var j := t.Delete(node);
    FramedTwice(old(t.nodes[..]), h, t.nodes[..], Ids(more) + {t.nil});
    OncePerId(more, k, j);
    BackAgain(items, Inorder(more), Inorder(t.tree), Item(rank, node), k);
  }
}
