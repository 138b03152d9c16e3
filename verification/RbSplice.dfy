/**
 Taking a node out of a linked tree: the node itself when it has at most one child, otherwise its
 successor, which then takes over the place of the node.
 */
module RbSplice {
  import opened RbShape
  import opened RbHeap
  import opened RbRotate
  import opened RbDelete

  // ---------------------------------------------------------------- contexts inside contexts

  /** The context d, continued outwards by c. */
  function Onto(d: Ctx, c: Ctx): Ctx {
    match d
    case Top => c
    case InL(up, x, red, r) => InL(Onto(up, c), x, red, r)
    case InR(up, x, red, l) => InR(Onto(up, c), x, red, l)
  }

  function Ptr(nil: nat, t: Tree): nat {
    if t.Leaf? then nil else t.item.id
  }

  lemma {:induction false} PlugOnto(d: Ctx, c: Ctx, t: Tree)
    ensures Plug(Onto(d, c), t) == Plug(c, Plug(d, t))
    decreases d
  {
    match d
    case Top =>
    case InL(up, x, red, r) => PlugOnto(up, c, Node(t, x, red, r));
    case InR(up, x, red, l) => PlugOnto(up, c, Node(l, x, red, t));
  }

  /** Moving the focus down along d. */
  lemma {:induction false} Inward(h: seq<Rec>, nil: nat, root: int, d: Ctx, c: Ctx, t: Tree, x: int)
    requires At(h, nil, root, c, Plug(d, t), x)
    ensures At(h, nil, root, Onto(d, c), t, Ptr(nil, t))
    decreases d
  {
    match d
    case Top =>
    case InL(up, i, red, r) =>
      var p := Node(t, i, red, r);
      Inward(h, nil, root, up, c, p, x);
      Down(h, nil, root, Onto(up, c), p, i.id);
    case InR(up, i, red, l) =>
      var p := Node(l, i, red, t);
      Inward(h, nil, root, up, c, p, x);
      Down(h, nil, root, Onto(up, c), p, i.id);
  }

  /** Moving the focus up along d. */
  lemma {:induction false} Outward(h: seq<Rec>, nil: nat, root: int, d: Ctx, c: Ctx, t: Tree, x: int)
    requires At(h, nil, root, Onto(d, c), t, x)
    ensures At(h, nil, root, c, Plug(d, t), Ptr(nil, Plug(d, t)))
    decreases d
  {
    match d
    case Top =>
    case InL(up, i, red, r) =>
      Up(h, nil, root, Onto(d, c), t, x);
      Outward(h, nil, root, up, c, Node(t, i, red, r), i.id);
    case InR(up, i, red, l) =>
      Up(h, nil, root, Onto(d, c), t, x);
      Outward(h, nil, root, up, c, Node(l, i, red, t), i.id);
  }

  /** Every address of a tree is the root of some subtree. */
  lemma {:induction false} Locate(t: Tree, id: nat) returns (c: Ctx, s: Tree)
    requires id in Ids(t)
    ensures Plug(c, s) == t && s.Node? && s.item.id == id
    decreases t
  {
    if t.item.id == id {
      c, s := Top, t;
    } else if id in Ids(t.left) {
      var d;
      d, s := Locate(t.left, id);
      c := Onto(d, InL(Top, t.item, t.red, t.right));
      PlugOnto(d, InL(Top, t.item, t.red, t.right), s);
    } else {
      var d;
      d, s := Locate(t.right, id);
      c := Onto(d, InR(Top, t.item, t.red, t.left));
      PlugOnto(d, InR(Top, t.item, t.red, t.left), s);
    }
  }

  lemma {:induction false} Focus(h: seq<Rec>, nil: nat, root: int, t: Tree, id: nat) returns (c: Ctx, s: Tree)
    requires At(h, nil, root, Top, t, root) && id in Ids(t)
    ensures At(h, nil, root, c, s, id) && Plug(c, s) == t && s.Node? && s.item.id == id
  {
    c, s := Locate(t, id);
    Inward(h, nil, root, c, Top, s, root);
    OntoTop(c);
  }

  lemma {:induction false} OntoTop(c: Ctx)
    ensures Onto(c, Top) == c
    decreases c
  {
    if !c.Top? { OntoTop(c.up); }
  }

  // ---------------------------------------------------------------- splicing a node out

  /** The only child of a node that has at most one. */
  predicate Splices(t: Tree, s: Tree) {
    t.Node? && ((t.left.Leaf? && s == t.right) || (t.right.Leaf? && s == t.left))
  }

  lemma Splice(h: seq<Rec>, h': seq<Rec>, nil: nat, root: int, root': int, c: Ctx, t: Tree, x: int, s: Tree)
    requires At(h, nil, root, c, t, x) && Splices(t, s)
    requires Relinked(h, h', root, root', c, Ptr(nil, s))
    requires Same(h, h', Ids(s), Ptr(nil, s)) && !h'[nil].red
    requires !c.Top? ==> ChildOf(h', s, c.item.id)
    ensures At(h', nil, root', c, s, Ptr(nil, s))
  {
    Open(h, nil, t, x);
    Open(h, nil, t.left, h[x].left);
    Open(h, nil, t.right, h[x].right);
    TiedFrame(h, h', nil, s, Ptr(nil, s));
    HungRelink(h, h', nil, root, root', c, x, Ptr(nil, s));
  }

  /** Taking a red node away, or leaving a shortage where a black one was. */
  lemma SpliceColours(c: Ctx, t: Tree, s: Tree)
    requires RedBlack(Plug(c, t)) && !Red(Plug(c, t)) && Splices(t, s)
    ensures t.red ==> RedBlack(Plug(c, s)) && !Red(Plug(c, s))
    ensures !t.red ==> Deleting(c, s)
  {
    PlugRedBlack(c, t);
    PlugRedBlack(c, s);
    if t.red { assert s.Leaf? && !c.Top?; }
  }

  // ---------------------------------------------------------------- taking over a node's place

  /** The record y has taken the place of x, which has both its links and its colour. */
  ghost predicate Replaced(h: seq<Rec>, h': seq<Rec>, nil: nat, root: int, root': int, x: nat, y: nat) {
    && |h'| == |h| && x < |h| && y < |h|
    && root' == (if x == root then y else root)
    && forall i :: 0 <= i < |h| && i != x ==> ReplacedAt(h, h'[i], nil, root, x, y, i)
  }

  ghost predicate ReplacedAt(h: seq<Rec>, r: Rec, nil: nat, root: int, x: nat, y: nat, i: nat)
    requires x < |h| && y < |h| && i < |h|
  {
    r == if i == y then h[x].(key := h[y].key)
         else if i == nil then h[nil].(parent := r.parent)
         else if i == h[x].left || i == h[x].right then h[i].(parent := y)
         else if x != root && i == h[x].parent then (if h[i].left == x then h[i].(left := y) else h[i].(right := y))
         else h[i]
  }

  lemma Replace(h: seq<Rec>, h': seq<Rec>, nil: nat, root: int, root': int, c: Ctx, t: Tree, x: nat, y: Item)
    requires At(h, nil, root, c, t, x) && t.Node?
    requires Replaced(h, h', nil, root, root', x, y.id) && y.id != nil && y.id !in Ids(t) && y.id !in CtxIds(c)
    requires h[y.id].key == y.rank % KEYS
    ensures At(h', nil, root', c, t.(item := y), y.id)
  {
    Open(h, nil, t, x);
    RootIsTop(h, nil, root, c, t, x);
    if !c.Top? { ParentSide(h, nil, root, c, t, x); }
    ReplaceTied(h, h', nil, root, root', c, t, x, y);
    ReplaceHung(h, h', nil, root, root', c, t, x, y);
    assert ReplacedAt(h, h'[nil], nil, root, x, y.id, nil) && ReplacedAt(h, h'[y.id], nil, root, x, y.id, y.id);
    assert Ids(t.(item := y)) == Ids(t) - {x} + {y.id};
  }

  lemma ReplaceTied(h: seq<Rec>, h': seq<Rec>, nil: nat, root: int, root': int, c: Ctx, t: Tree, x: nat, y: Item)
    requires At(h, nil, root, c, t, x) && t.Node?
    requires Replaced(h, h', nil, root, root', x, y.id) && y.id != nil && y.id !in Ids(t) && y.id !in CtxIds(c)
    requires h[y.id].key == y.rank % KEYS
    ensures Tied(h', nil, t.(item := y), y.id)
  {
    Open(h, nil, t, x);
    Open(h, nil, t.left, h[x].left);
    Open(h, nil, t.right, h[x].right);
    if !c.Top? { ParentSide(h, nil, root, c, t, x); }
    RootIsTop(h, nil, root, c, t, x);
    IdsInHeap(h, nil, t, x);
    forall i | i in Ids(t.left) ensures h'[i] == if i == h[x].left then h[i].(parent := y.id) else h[i] {
      assert ReplacedAt(h, h'[i], nil, root, x, y.id, i);
    }
    forall i | i in Ids(t.right) ensures h'[i] == if i == h[x].right then h[i].(parent := y.id) else h[i] {
      assert ReplacedAt(h, h'[i], nil, root, x, y.id, i);
    }
    TiedFrame(h, h', nil, t.left, h[x].left);
    TiedFrame(h, h', nil, t.right, h[x].right);
    assert ReplacedAt(h, h'[y.id], nil, root, x, y.id, y.id);
  }

  lemma ReplaceHung(h: seq<Rec>, h': seq<Rec>, nil: nat, root: int, root': int, c: Ctx, t: Tree, x: nat, y: Item)
    requires At(h, nil, root, c, t, x) && t.Node?
    requires Replaced(h, h', nil, root, root', x, y.id) && y.id != nil && y.id !in Ids(t) && y.id !in CtxIds(c)
    ensures Hung(h', nil, root', c, y.id)
  {
    Open(h, nil, t, x);
    Open(h, nil, t.left, h[x].left);
    Open(h, nil, t.right, h[x].right);
    RootIsTop(h, nil, root, c, t, x);
    CtxIdsInHeap(h, nil, root, c, x);
    if !c.Top? { ParentSide(h, nil, root, c, t, x); }
    forall i | i in CtxIds(c) && (c.Top? || i != c.item.id) ensures h'[i] == h[i] {
      assert ReplacedAt(h, h'[i], nil, root, x, y.id, i);
    }
    if !c.Top? { assert ReplacedAt(h, h'[c.item.id], nil, root, x, y.id, c.item.id); }
    HungRelink(h, h', nil, root, root', c, x, y.id);
  }

  ghost predicate Adopted(h: seq<Rec>, h': seq<Rec>, nil: nat, x: nat) {
    && |h'| == |h| && x < |h|
    && forall i :: 0 <= i < |h| ==> h'[i] == if i != nil && (i == h[x].left || i == h[x].right) then h[i].(parent := x) else h[i]
  }

  /** `temp` has replaced `subst` below `node`: which records are distinct. */
  ghost predicate Succeeds(h: seq<Rec>, nil: nat, root: int, node: nat, subst: nat, temp: nat) {
    && node < |h| && subst < |h| && temp < |h| && nil < |h|
    && node != subst && node != nil && subst != nil && temp != node && temp != subst
    && Distinct(h, nil, node, subst, temp, h[node].left, h[node].right)
    && (node != root ==> Outside(h, nil, node, subst, temp, h[node].parent))
  }

  ghost predicate Distinct(h: seq<Rec>, nil: nat, node: nat, subst: nat, temp: nat, l: int, r: int)
    requires subst < |h|
  {
    && 0 <= l < |h| && l != node && l != subst && (l != temp || l == nil) && (l != r || l == nil)
    && 0 <= r < |h| && r != node && r != subst
    && (temp != nil ==> (r == temp <==> h[subst].parent == node))
  }

  ghost predicate Outside(h: seq<Rec>, nil: nat, node: nat, subst: nat, temp: nat, g: int)
    requires node < |h|
  {
    0 <= g < |h| && g != nil && g != node && g != subst && g != temp && g != h[node].left && g != h[node].right
  }

  /** The steps by which `subst` inherits the links of `node`. */
  lemma Inherit(h: seq<Rec>, h2: seq<Rec>, h3: seq<Rec>, nil: nat, root: int, root': int, node: nat, subst: nat, temp: nat, q: int)
    requires Succeeds(h, nil, root, node, subst, temp)
    requires q == if h[subst].parent == node then subst else h[subst].parent
    requires root' == if node == root then subst else root
    requires var h1 := h[temp := h[temp].(parent := q)][subst := h[node].(key := h[subst].key)];
             var g := h[node].parent;
             h2 == if node == root then h1 else h1[g := if h1[g].left == node then h1[g].(left := subst) else h1[g].(right := subst)]
    requires Adopted(h2, h3, nil, subst)
    ensures Replaced(h[temp := h[temp].(parent := h[subst].parent)], h3, nil, root, root', node, subst)
    ensures h3[temp].parent == q
  {
    var hA := h[temp := h[temp].(parent := h[subst].parent)];
    forall i | 0 <= i < |h| && i != node ensures ReplacedAt(hA, h3[i], nil, root, node, subst, i) {
    }
  }

  // ---------------------------------------------------------------- the successor case

  /** The tree around the successor y once it has taken the place of t's own item. */
  function Moved(c: Ctx, t: Tree, d: Ctx, y: Item): Ctx
    requires t.Node?
  {
    Onto(d, InR(c, y, t.red, t.left))
  }

  /** Colours when the successor is taken out and then put in the place of the node. */
  lemma SuccessorColours(c: Ctx, t: Tree, d: Ctx, u: Tree)
    requires t.Node? && t.right == Plug(d, u) && u.Node? && u.left.Leaf?
    requires RedBlack(Plug(c, t)) && !Red(Plug(c, t))
    ensures u.red ==> RedBlack(Plug(Moved(c, t, d, u.item), u.right)) && !Red(Plug(Moved(c, t, d, u.item), u.right))
    ensures !u.red ==> Deleting(Moved(c, t, d, u.item), u.right)
  {
    SameColours(c, t, u.item);
    PlugOnto(d, InR(c, u.item, t.red, t.left), u);
    SpliceColours(Moved(c, t, d, u.item), u, u.right);
  }

  lemma SameColours(c: Ctx, t: Tree, y: Item)
    requires t.Node? && RedBlack(Plug(c, t)) && !Red(Plug(c, t))
    ensures RedBlack(Plug(c, t.(item := y))) && !Red(Plug(c, t.(item := y)))
  {
    PlugRedBlack(c, t);
    PlugRedBlack(c, t.(item := y));
  }

  /** Only the node itself has left the in-order sequence. */
  lemma SuccessorOrder(c: Ctx, t: Tree, d: Ctx, u: Tree)
    requires t.Node? && t.right == Plug(d, u) && u.Node? && u.left.Leaf? && Pre(d) == []
    ensures Inorder(Plug(Moved(c, t, d, u.item), u.right)) == Pre(c) + (Inorder(t.left) + Inorder(t.right)) + Post(c)
  {
    FirstOf(d, u);
    MovedPlug(c, t, d, u.item, u.right);
    OrderAfter(c, t, u.item, Plug(d, u.right));
  }

  lemma OrderAfter(c: Ctx, t: Tree, y: Item, r: Tree)
    requires t.Node? && Inorder(t.right) == [y] + Inorder(r)
    ensures Inorder(Plug(c, Node(t.left, y, t.red, r))) == Pre(c) + (Inorder(t.left) + Inorder(t.right)) + Post(c)
  {
    var n := Node(t.left, y, t.red, r);
    InorderPlug(c, n);
    InorderNode(n, Inorder(t.right));
  }

  lemma InorderNode(n: Tree, s: seq<Item>)
    requires n.Node? && s == [n.item] + Inorder(n.right)
    ensures Inorder(n) == Inorder(n.left) + s
  {
  }

  lemma MovedPlug(c: Ctx, t: Tree, d: Ctx, y: Item, s: Tree)
    requires t.Node?
    ensures Plug(Moved(c, t, d, y), s) == Plug(c, Node(t.left, y, t.red, Plug(d, s)))
  {
    PlugOnto(d, InR(c, y, t.red, t.left), s);
  }

  lemma FirstOf(d: Ctx, u: Tree)
    requires u.Node? && u.left.Leaf? && Pre(d) == []
    ensures Inorder(Plug(d, u)) == [u.item] + Inorder(Plug(d, u.right))
  {
    InorderPlug(d, u);
    InorderPlug(d, u.right);
    assert Inorder(u) == [u.item] + Inorder(u.right);
    assert [] + Inorder(u) + Post(d) == [u.item] + ([] + Inorder(u.right) + Post(d));
  }

  /** The first item of the right subtree comes next. */
  lemma Follower(c: Ctx, t: Tree, d: Ctx, u: Tree)
    requires t.Node? && t.right == Plug(d, u) && u.Node? && u.left.Leaf? && Pre(d) == []
    ensures var k := |Pre(c)| + |Inorder(t.left)|; k + 1 < |Inorder(Plug(c, t))| && Inorder(Plug(c, t))[k + 1] == u.item
  {
    FirstOf(d, u);
    Second(c, t, u.item, Inorder(Plug(d, u.right)));
  }

  lemma Second(c: Ctx, t: Tree, y: Item, s: seq<Item>)
    requires t.Node? && Inorder(t.right) == [y] + s
    ensures var k := |Pre(c)| + |Inorder(t.left)|; k + 1 < |Inorder(Plug(c, t))| && Inorder(Plug(c, t))[k + 1] == y
  {
    InorderPlug(c, t);
    assert ([y] + s)[0] == y;
  }

  // ---------------------------------------------------------------- the parent of the pointer in focus

  /** The `parent` field leads to the parent, also when the pointer is the sentinel. */
  ghost predicate Aimed(h: seq<Rec>, c: Ctx, x: int) {
    !c.Top? ==> 0 <= x < |h| && h[x].parent == c.item.id
  }

  lemma Aim(h: seq<Rec>, h': seq<Rec>, nil: nat, root: int, c: Ctx, t: Tree, x: int)
    requires At(h', nil, root, c, t, x)
    requires t.Leaf? && !c.Top? ==> nil < |h| && |h'| == |h| && h'[nil] == h[nil] && h[nil].parent == c.item.id
    ensures Aimed(h', c, x)
  {
    if !c.Top? { Up(h', nil, root, c, t, x); }
    Open(h', nil, t, x);
  }

  lemma KinApart(h: seq<Rec>, nil: nat, w: Tree, x: int, p: nat)
    requires Tied(h, nil, w, x) && Apart(w) && w.Node? && p !in Ids(w) && p != nil
    ensures 0 <= x < |h| && x != p && h[x].left != x && h[x].right != x && h[x].left != p && h[x].right != p
  {
    Open(h, nil, w, x);
    Open(h, nil, w.left, h[x].left);
    Open(h, nil, w.right, h[x].right);
  }

  // ---------------------------------------------------------------- whole surgeries

  function Cleared(r: Rec): Rec {
    r.(key := 0, left := -1, right := -1, parent := -1)
  }

  function Redirected(r: Rec, x: int, y: int): Rec {
    if r.left == x then r.(left := y) else r.(right := y)
  }

  /** A node with at most one child gives its place to that child. */
  lemma SelfOut(h: seq<Rec>, h': seq<Rec>, nil: nat, root: int, c: Ctx, t: Tree, x: nat, s: Tree, temp: nat)
    requires At(h, nil, root, c, t, x) && !c.Top? && Splices(t, s) && temp == Ptr(nil, s)
    requires c.item.id < |h| && temp < |h| && x < |h| && temp != c.item.id && temp != x
    requires h' == h[c.item.id := Redirected(h[c.item.id], x, temp)][temp := h[temp].(parent := c.item.id)][x := Cleared(h[x])]
    ensures At(h', nil, root, c, s, temp) && Aimed(h', c, temp)
  {
    Open(h, nil, t, x);
    Open(h, nil, s, temp);
    ParentSide(h, nil, root, c, t, x);
    CtxIdsInHeap(h, nil, root, c, x);
    assert x !in CtxIds(c) && x !in Ids(s) && Ids(s) <= Ids(t) && c.item.id !in Ids(s) && temp !in CtxIds(c);
    SelfLinks(h, h', nil, root, c, x, Ids(s), temp);
    Splice(h, h', nil, root, root, c, t, x, s);
  }

  lemma SelfLinks(h: seq<Rec>, h': seq<Rec>, nil: nat, root: int, c: Ctx, x: nat, ids: set<nat>, temp: nat)
    requires Hung(h, nil, root, c, x) && CtxApart(c) && !c.Top? && c.item.id < |h| && temp < |h| && x < |h| && temp != c.item.id && temp != x
    requires (c.InL? <==> h[c.item.id].left == x) && c.item.id != x
    requires x !in CtxIds(c) && temp !in CtxIds(c) && x !in ids && c.item.id !in ids
    requires h' == h[c.item.id := Redirected(h[c.item.id], x, temp)][temp := h[temp].(parent := c.item.id)][x := Cleared(h[x])]
    ensures Relinked(h, h', root, root, c, temp) && Same(h, h', ids, temp)
    ensures h'[temp] == h[temp].(parent := c.item.id)
  {
    CtxIdsInHeap(h, nil, root, c, x);
  }

  lemma {:induction false} OntoIds(d: Ctx, c: Ctx, t: Tree)
    ensures CtxIds(Onto(d, c)) == CtxIds(d) + CtxIds(c)
    ensures !d.Top? ==> Plug(d, t).Node? && Plug(d, t).item.id in CtxIds(d)
    ensures !d.Top? ==> Onto(d, c).item == d.item
    decreases d
  {
    match d
    case Top =>
    case InL(up, x, red, r) => OntoIds(up, c, Node(t, x, red, r));
    case InR(up, x, red, l) => OntoIds(up, c, Node(l, x, red, t));
  }

  /** The node, its successor u and what is between them. */
  ghost predicate Pair(h: seq<Rec>, nil: nat, root: int, c: Ctx, t: Tree, d: Ctx, u: Tree, x: nat, y: nat) {
    && At(h, nil, root, c, t, x) && t.Node? && t.left.Node? && t.right == Plug(d, u)
    && u.Node? && u.left.Leaf? && u.item.id == y && At(h, nil, root, Onto(d, InR(c, t.item, t.red, t.left)), u, y)
  }

  lemma PairIds(h: seq<Rec>, nil: nat, root: int, c: Ctx, t: Tree, d: Ctx, u: Tree, x: nat, y: nat)
    requires Pair(h, nil, root, c, t, d, u, x, y)
    ensures x < |h| && y < |h| && x != y && x != nil && y != nil && x == t.item.id
    ensures y !in CtxIds(c) && y !in CtxIds(d) && y !in Ids(t.left) && y !in Ids(u.right)
    ensures x !in CtxIds(c) && x !in CtxIds(d) && x !in Ids(t.left) && x !in Ids(u)
    ensures CtxIds(d) !! CtxIds(c) && CtxIds(d) !! Ids(t.left) && CtxIds(d) !! Ids(u) && Ids(u) !! Ids(t.left) && Ids(u) !! CtxIds(c)
    ensures Ids(u.right) <= Ids(u)
    ensures CtxApart(d) && AllApart(d, u.right)
  {
    Open(h, nil, t, x);
    Open(h, nil, u, y);
    PlugApart(d, u);
    OntoIds(d, InR(c, t.item, t.red, t.left), u);
  }

  /** The successor's parent. */
  lemma PairParent(h: seq<Rec>, nil: nat, root: int, c: Ctx, t: Tree, d: Ctx, u: Tree, x: nat, y: nat)
    requires Pair(h, nil, root, c, t, d, u, x, y)
    ensures x < |h| && y < |h| && 0 <= h[x].left < |h| && 0 <= h[x].right < |h|
    ensures h[y].parent == if d.Top? then x else d.item.id
    ensures h[x].right == Ptr(nil, Plug(d, u)) && h[x].left == t.left.item.id && h[y].right == Ptr(nil, u.right)
    ensures d.Top? || h[x].right in CtxIds(d)
    ensures !d.Top? ==> d.item.id in CtxIds(d)
    ensures var k := Onto(d, InR(c, t.item, t.red, t.left)); !k.Top? && k.item.id == h[y].parent
  {
    var k := Onto(d, InR(c, t.item, t.red, t.left));
    ParentSide(h, nil, root, k, u, y);
    Open(h, nil, t, x);
    Open(h, nil, t.left, h[x].left);
    Open(h, nil, t.right, h[x].right);
    Open(h, nil, u, y);
    Open(h, nil, u.right, h[y].right);
    OntoIds(d, InR(c, t.item, t.red, t.left), u);
  }

  /** `temp` in the place of the successor: the records that the takeover needs to be distinct. */
  lemma PairDistinct(h: seq<Rec>, h1: seq<Rec>, nil: nat, root: int, c: Ctx, t: Tree, d: Ctx, u: Tree, x: nat, y: nat, temp: nat)
    requires Pair(h, nil, root, c, t, d, u, x, y) && temp == Ptr(nil, u.right)
    requires y < |h| && 0 <= h[y].parent < |h| && h1 == h[h[y].parent := Redirected(h[h[y].parent], y, temp)]
    ensures Succeeds(h1, nil, root, x, y, temp)
  {
    PairIds(h, nil, root, c, t, d, u, x, y);
    PairParent(h, nil, root, c, t, d, u, x, y);
    ParentSide(h, nil, root, Onto(d, InR(c, t.item, t.red, t.left)), u, y);
    RootIsTop(h, nil, root, c, t, x);
    Open(h, nil, t, x);
    Open(h, nil, u.right, temp);
    assert d.Top? ==> h1[x].right == temp;
    assert h1[x].left == h[x].left && h1[y] == h[y] && h1[x].parent == h[x].parent;
    if !c.Top? { ParentSide(h, nil, root, c, t, x); }
  }

  /** The successor taken out, with its child in its place. */
  lemma PairSplice(h: seq<Rec>, h1: seq<Rec>, nil: nat, root: int, c: Ctx, t: Tree, d: Ctx, u: Tree, x: nat, y: nat, temp: nat)
    requires Pair(h, nil, root, c, t, d, u, x, y) && temp == Ptr(nil, u.right) && temp < |h|
    requires y < |h| && 0 <= h[y].parent < |h| && temp != h[y].parent
    requires h1 == h[h[y].parent := Redirected(h[h[y].parent], y, temp)][temp := h[temp].(parent := h[y].parent)]
    ensures At(h1, nil, root, c, Node(t.left, t.item, t.red, Plug(d, u.right)), x)
  {
    var e := InR(c, t.item, t.red, t.left);
    var k := Onto(d, e);
    PairIds(h, nil, root, c, t, d, u, x, y);
    PairParent(h, nil, root, c, t, d, u, x, y);
    ParentSide(h, nil, root, k, u, y);
    CtxIdsInHeap(h, nil, root, k, y);
    Open(h, nil, u, y);
    Open(h, nil, u.right, temp);
    assert temp !in CtxIds(k) && k.item.id !in Ids(u.right) && k.item.id in CtxIds(k);
    PairLinks(h, h1, nil, root, k, y, Ids(u.right), temp);
    Splice(h, h1, nil, root, root, k, u, y, u.right);
    Outward(h1, nil, root, d, e, u.right, temp);
    Up(h1, nil, root, e, Plug(d, u.right), Ptr(nil, Plug(d, u.right)));
    Open(h, nil, t, x);
  }

  lemma PairLinks(h: seq<Rec>, h1: seq<Rec>, nil: nat, root: int, k: Ctx, y: nat, ids: set<nat>, temp: nat)
    requires Hung(h, nil, root, k, y) && !k.Top? && k.item.id < |h| && temp < |h| && temp != k.item.id
    requires (k.InL? <==> h[k.item.id].left == y) && temp !in CtxIds(k) && k.item.id !in ids
    requires h1 == h[k.item.id := Redirected(h[k.item.id], y, temp)][temp := h[temp].(parent := k.item.id)]
    ensures Relinked(h, h1, root, root, k, temp) && Same(h, h1, ids, temp)
    ensures h1[temp] == h[temp].(parent := k.item.id) && (nil < |h| ==> h1[nil].red == h[nil].red)
  {
    CtxIdsInHeap(h, nil, root, k, y);
  }

  /** The successor in the place of the node. */
  lemma PairMoved(h: seq<Rec>, h1: seq<Rec>, h': seq<Rec>, nil: nat, root: int, root': int, c: Ctx, t: Tree, d: Ctx, u: Tree, x: nat, y: nat, temp: nat)
    requires Pair(h, nil, root, c, t, d, u, x, y) && temp == Ptr(nil, u.right)
    requires At(h1, nil, root, c, Node(t.left, t.item, t.red, Plug(d, u.right)), x)
    requires Replaced(h1, h', nil, root, root', x, y) && h1[y].key == h[y].key
    requires temp < |h'| && h'[temp].parent == if d.Top? then y else d.item.id
    ensures At(h', nil, root', Moved(c, t, d, u.item), u.right, temp) && Aimed(h', Moved(c, t, d, u.item), temp)
  {
    var t' := Node(t.left, t.item, t.red, Plug(d, u.right));
    PairIds(h, nil, root, c, t, d, u, x, y);
    PlugApart(d, u.right);
    Open(h, nil, u, y);
    Replace(h1, h', nil, root, root', c, t', x, u.item);
    var e := InR(c, u.item, t.red, t.left);
    Down(h', nil, root', c, t'.(item := u.item), y);
    Inward(h', nil, root', d, e, u.right, h'[y].right);
    OntoIds(d, e, u.right);
  }

  // ---------------------------------------------------------------- the choice

  /** Either the node itself goes and s fills its place, or its successor u does. */
  ghost predicate Chosen(h: seq<Rec>, nil: nat, root: int, c: Ctx, t: Tree, d: Ctx, u: Tree, s: Tree, node: nat, subst: nat) {
    if subst == node then u == t && Splices(t, s)
    else Pair(h, nil, root, c, t, d, u, node, subst) && Pre(d) == [] && s == u.right
  }

  ghost function After(c: Ctx, t: Tree, d: Ctx, u: Tree, node: nat, subst: nat): Ctx
    requires t.Node? && u.Node?
  {
    if subst == node then c else Moved(c, t, d, u.item)
  }

  /** Colours and order after a node of the given colour is out. */
  ghost predicate Settled(c: Ctx, s: Tree, red: bool, items: seq<Item>) {
    && (if red then RedBlack(Plug(c, s)) && !Red(Plug(c, s)) else Deleting(c, s))
    && Inorder(Plug(c, s)) == items
  }

  lemma Outcome(h: seq<Rec>, nil: nat, root: int, c: Ctx, t: Tree, d: Ctx, u: Tree, s: Tree, node: nat, subst: nat)
    requires At(h, nil, root, c, t, node) && t.Node? && RedBlack(Plug(c, t)) && !Red(Plug(c, t))
    requires Chosen(h, nil, root, c, t, d, u, s, node, subst)
    ensures Settled(After(c, t, d, u, node, subst), s, u.red, Pre(c) + (Inorder(t.left) + Inorder(t.right)) + Post(c))
    ensures 0 <= subst < |h| && h[subst].red == u.red
    ensures subst == root <==> subst == node && c.Top?
    ensures c.Top? && subst == node ==> Inorder(s) == Pre(c) + (Inorder(t.left) + Inorder(t.right)) + Post(c)
  {
    RootIsTop(h, nil, root, c, t, node);
    Open(h, nil, t, node);
    if subst == node {
      SpliceColours(c, t, s);
      InorderPlug(c, s);
      assert Inorder(s) == Inorder(t.left) + Inorder(t.right);
    } else {
      SuccessorColours(c, t, d, u);
      SuccessorOrder(c, t, d, u);
      PairIds(h, nil, root, c, t, d, u, node, subst);
      Open(h, nil, u, subst);
      RootIsTop(h, nil, root, Onto(d, InR(c, t.item, t.red, t.left)), u, subst);
      PairParent(h, nil, root, c, t, d, u, node, subst);
    }
  }

  lemma RootOut(h: seq<Rec>, h1: seq<Rec>, h': seq<Rec>, nil: nat, root: int, t: Tree, x: nat, s: Tree, temp: nat)
    requires At(h, nil, root, Top, t, x) && Splices(t, s) && temp == Ptr(nil, s) && x < |h| && temp < |h|
    requires h1 == h[temp := h[temp].(red := false)] && h' == h1[x := Cleared(h1[x])]
    requires RedBlack(t)
    ensures At(h', nil, temp, Top, Blackened(s), temp)
    ensures RedBlack(Blackened(s)) && !Red(Blackened(s)) && Inorder(Blackened(s)) == Inorder(s)
  {
    Open(h, nil, t, x);
    Open(h, nil, t.left, h[x].left);
    Open(h, nil, t.right, h[x].right);
    Open(h, nil, s, temp);
    if s.Node? { DyeTied(h, h1, nil, s, temp, false); }
    var b := Blackened(s);
    assert Apart(b) && Ids(b) == Ids(s);
    TiedFrame(h1, h', nil, b, temp);
  }

  lemma UnhookFacts(h: seq<Rec>, nil: nat, root: int, c: Ctx, t: Tree, d: Ctx, u: Tree, s: Tree, node: nat, subst: nat, temp: nat)
    requires At(h, nil, root, c, t, node) && t.Node? && Chosen(h, nil, root, c, t, d, u, s, node, subst)
    requires temp == Ptr(nil, s) && subst != root && subst < |h|
    ensures 0 <= h[subst].parent < |h| && temp < |h| && temp != subst && temp != h[subst].parent
    ensures subst == node ==> !c.Top? && h[subst].parent == c.item.id && c.item.id != node
    ensures subst != node ==> Succeeds(h[h[subst].parent := Redirected(h[h[subst].parent], subst, temp)], nil, root, node, subst, temp)
  {
    RootIsTop(h, nil, root, c, t, node);
    Open(h, nil, t, node);
    if subst == node {
      ParentSide(h, nil, root, c, t, node);
      Open(h, nil, t.left, h[node].left);
      Open(h, nil, t.right, h[node].right);
    } else {
      PairIds(h, nil, root, c, t, d, u, node, subst);
      PairParent(h, nil, root, c, t, d, u, node, subst);
      ParentSide(h, nil, root, Onto(d, InR(c, t.item, t.red, t.left)), u, subst);
      PairDistinct(h, h[h[subst].parent := Redirected(h[h[subst].parent], subst, temp)], nil, root, c, t, d, u, node, subst, temp);
      Open(h, nil, u, subst);
      Open(h, nil, u.right, h[subst].right);
    }
  }

  lemma SuccessorOut(h: seq<Rec>, h2: seq<Rec>, h': seq<Rec>, nil: nat, root: int, root': int, c: Ctx, t: Tree, d: Ctx, u: Tree, x: nat, y: nat, temp: nat)
    requires Pair(h, nil, root, c, t, d, u, x, y) && temp == Ptr(nil, u.right) && temp < |h| && temp != x
    requires x < |h| && y < |h| && 0 <= h[y].parent < |h| && temp != h[y].parent && temp != y && h[y].parent != y
    requires var h1 := h[h[y].parent := Redirected(h[h[y].parent], y, temp)];
             Replaced(h1[temp := h1[temp].(parent := h[y].parent)], h2, nil, root, root', x, y)
    requires temp < |h2| && h2[temp].parent == if h[y].parent == x then y else h[y].parent
    requires x < |h2| && h' == h2[x := Cleared(h2[x])]
    ensures At(h', nil, root', Moved(c, t, d, u.item), u.right, temp) && Aimed(h', Moved(c, t, d, u.item), temp)
  {
    var hA := h[h[y].parent := Redirected(h[h[y].parent], y, temp)][temp := h[temp].(parent := h[y].parent)];
    PairSplice(h, hA, nil, root, c, t, d, u, x, y, temp);
    PairIds(h, nil, root, c, t, d, u, x, y);
    PairParent(h, nil, root, c, t, d, u, x, y);
    forall i | 0 <= i < |h| && i != x ensures ReplacedAt(hA, h'[i], nil, root, x, y, i) {
      assert ReplacedAt(hA, h2[i], nil, root, x, y, i);
    }
    PairMoved(h, hA, h', nil, root, root', c, t, d, u, x, y, temp);
  }
}
