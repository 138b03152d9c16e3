/**
 Red-black trees as values, with a focus: a subtree and the context it hangs in.
 */
module RbShape {
  import opened Words

  /** What a node contributes to the in-order sequence: its place in the order and its address. */
  datatype Item = Item(rank: int, id: nat)

  datatype Tree = Leaf | Node(left: Tree, item: Item, red: bool, right: Tree)

  /** The rest of a tree around a subtree: the hole is the left child, or the right child, of `item`. */
  datatype Ctx =
    | Top
    | InL(up: Ctx, item: Item, red: bool, right: Tree)
    | InR(up: Ctx, item: Item, red: bool, left: Tree)

  function Plug(c: Ctx, t: Tree): Tree {
    match c
    case Top => t
    case InL(up, x, red, r) => Plug(up, Node(t, x, red, r))
    case InR(up, x, red, l) => Plug(up, Node(l, x, red, t))
  }

  // ---------------------------------------------------------------- order

  function Inorder(t: Tree): seq<Item> {
    match t
    case Leaf => []
    case Node(l, x, _, r) => Inorder(l) + [x] + Inorder(r)
  }

  function Pre(c: Ctx): seq<Item> {
    match c
    case Top => []
    case InL(up, _, _, _) => Pre(up)
    case InR(up, x, _, l) => Pre(up) + Inorder(l) + [x]
  }

  function Post(c: Ctx): seq<Item> {
    match c
    case Top => []
    case InL(up, x, _, r) => [x] + Inorder(r) + Post(up)
    case InR(up, _, _, _) => Post(up)
  }

  lemma Regroup(a: seq<Item>, b: seq<Item>, c: seq<Item>, d: seq<Item>)
    ensures a + (b + c) + d == a + b + (c + d)
    ensures a + (b + c) + d == (a + b) + c + d
  {
  }

  lemma {:induction false} InorderPlug(c: Ctx, t: Tree)
    ensures Inorder(Plug(c, t)) == Pre(c) + Inorder(t) + Post(c)
    decreases c
  {
    match c
    case Top =>
    case InL(up, x, red, r) =>
      InorderPlug(up, Node(t, x, red, r));
      Regroup(Pre(up), Inorder(t), [x] + Inorder(r), Post(up));
      assert Inorder(t) + [x] + Inorder(r) == Inorder(t) + ([x] + Inorder(r));
    case InR(up, x, red, l) =>
      InorderPlug(up, Node(l, x, red, t));
      Regroup(Pre(up), Inorder(l) + [x], Inorder(t), Post(up));
      assert Pre(up) + Inorder(l) + [x] == Pre(up) + (Inorder(l) + [x]);
  }

  ghost predicate Sorted(s: seq<Item>) {
    forall i, j :: 0 <= i < j < |s| ==> s[i].rank <= s[j].rank
  }

  /** Everything in `a` goes before a new item of rank r, everything in `b` after it. */
  ghost predicate Between(a: seq<Item>, r: int, b: seq<Item>) {
    && (forall i :: 0 <= i < |a| ==> a[i].rank <= r)
    && (forall i :: 0 <= i < |b| ==> r < b[i].rank)
  }

  // ---------------------------------------------------------------- addresses

  ghost function Ids(t: Tree): set<nat> {
    match t
    case Leaf => {}
    case Node(l, x, _, r) => Ids(l) + {x.id} + Ids(r)
  }

  ghost function CtxIds(c: Ctx): set<nat> {
    match c
    case Top => {}
    case InL(up, x, _, r) => CtxIds(up) + {x.id} + Ids(r)
    case InR(up, x, _, l) => CtxIds(up) + {x.id} + Ids(l)
  }

  /** No address occurs twice. */
  ghost predicate Apart(t: Tree) {
    match t
    case Leaf => true
    case Node(l, x, _, r) => Apart(l) && Apart(r) && x.id !in Ids(l) && x.id !in Ids(r) && Ids(l) !! Ids(r)
  }

  ghost predicate CtxApart(c: Ctx) {
    match c
    case Top => true
    case InL(up, x, _, r) => CtxApart(up) && Apart(r) && x.id !in Ids(r) && x.id !in CtxIds(up) && Ids(r) !! CtxIds(up)
    case InR(up, x, _, l) => CtxApart(up) && Apart(l) && x.id !in Ids(l) && x.id !in CtxIds(up) && Ids(l) !! CtxIds(up)
  }

  ghost predicate AllApart(c: Ctx, t: Tree) {
    CtxApart(c) && Apart(t) && Ids(t) !! CtxIds(c)
  }

  lemma {:induction false} PlugApart(c: Ctx, t: Tree)
    ensures AllApart(c, t) <==> Apart(Plug(c, t))
    ensures Ids(Plug(c, t)) == Ids(t) + CtxIds(c)
    decreases c
  {
    match c
    case Top =>
    case InL(up, x, red, r) => PlugApart(up, Node(t, x, red, r));
    case InR(up, x, red, l) => PlugApart(up, Node(l, x, red, t));
  }

  // ---------------------------------------------------------------- colours

  predicate Red(t: Tree) {
    t.Node? && t.red
  }

  predicate CtxRed(c: Ctx) {
    !c.Top? && c.red
  }

  function BlackHeight(t: Tree): nat {
    match t
    case Leaf => 0
    case Node(l, _, red, _) => BlackHeight(l) + if red then 0 else 1
  }

  /** No red node has a red child and every path has the same number of black nodes. */
  ghost predicate RedBlack(t: Tree) {
    match t
    case Leaf => true
    case Node(l, _, red, r) =>
      RedBlack(l) && RedBlack(r) && BlackHeight(l) == BlackHeight(r) && (red ==> !Red(l) && !Red(r))
  }

  /** The context is in order for a subtree of black height n. */
  ghost predicate CtxRedBlack(c: Ctx, n: int) {
    match c
    case Top => true
    case InL(up, _, red, r) =>
      RedBlack(r) && BlackHeight(r) == n && (red ==> !Red(r) && !CtxRed(up)) && CtxRedBlack(up, n + if red then 0 else 1)
    case InR(up, _, red, l) =>
      RedBlack(l) && BlackHeight(l) == n && (red ==> !Red(l) && !CtxRed(up)) && CtxRedBlack(up, n + if red then 0 else 1)
  }

  ghost predicate TopBlack(c: Ctx) {
    match c
    case Top => true
    case InL(up, _, red, _) => if up.Top? then !red else TopBlack(up)
    case InR(up, _, red, _) => if up.Top? then !red else TopBlack(up)
  }

  function Sibling(c: Ctx): Tree
    requires !c.Top?
  {
    if c.InL? then c.right else c.left
  }

  /** One level of the conditions on a context. */
  lemma CtxLevel(c: Ctx, n: int)
    requires !c.Top?
    ensures CtxRedBlack(c, n) <==>
              && RedBlack(Sibling(c)) && BlackHeight(Sibling(c)) == n
              && (c.red ==> !Red(Sibling(c)) && !CtxRed(c.up))
              && CtxRedBlack(c.up, n + if c.red then 0 else 1)
    ensures TopBlack(c) <==> if c.up.Top? then !c.red else TopBlack(c.up)
  {
  }

  lemma {:induction false} PlugRedBlack(c: Ctx, t: Tree)
    ensures RedBlack(Plug(c, t)) <==> RedBlack(t) && CtxRedBlack(c, BlackHeight(t)) && !(CtxRed(c) && Red(t))
    ensures c.Top? || (Red(Plug(c, t)) <==> !TopBlack(c))
    decreases c
  {
    match c
    case Top =>
    case InL(up, x, red, r) => PlugRedBlack(up, Node(t, x, red, r));
    case InR(up, x, red, l) => PlugRedBlack(up, Node(l, x, red, t));
  }

  function Size(t: Tree): nat {
    match t
    case Leaf => 0
    case Node(l, _, _, r) => Size(l) + 1 + Size(r)
  }

  function Height(t: Tree): nat {
    match t
    case Leaf => 0
    case Node(l, _, _, r) => 1 + if Height(l) >= Height(r) then Height(l) else Height(r)
  }

  lemma {:induction false} HeightByBlack(t: Tree)
    requires RedBlack(t)
    ensures Height(t) <= 2 * BlackHeight(t) + if Red(t) then 1 else 0
    ensures Pow2(BlackHeight(t)) <= Size(t) + 1
  {
    match t
    case Leaf =>
    case Node(l, _, _, r) =>
      HeightByBlack(l);
      HeightByBlack(r);
  }

  lemma {:induction false} SizeInorder(t: Tree)
    ensures Size(t) == |Inorder(t)|
  {
    match t
    case Leaf =>
    case Node(l, _, _, r) => SizeInorder(l); SizeInorder(r);
  }

  lemma {:induction false} Pow2Double(n: nat)
    ensures Pow2(2 * n) == Pow2(n) * Pow2(n)
  {
    if n > 0 {
      Pow2Double(n - 1);
      assert Pow2(2 * n) == 4 * Pow2(2 * (n - 1));
    }
  }

  /** Height is at most 2 log2(n + 1). */
  lemma HeightBound(t: Tree)
    requires RedBlack(t) && !Red(t)
    ensures Pow2(Height(t)) <= (|Inorder(t)| + 1) * (|Inorder(t)| + 1)
  {
    SizeInorder(t);
    HeightByBlack(t);
    var b, m := Pow2(BlackHeight(t)), Size(t) + 1;
    Pow2Mono(Height(t), 2 * BlackHeight(t));
    Pow2Double(BlackHeight(t));
    SquareMono(b, m);
  }

  lemma SquareMono(b: nat, m: nat)
    requires b <= m
    ensures b * b <= m * m
  {
    assert b * b <= m * b;
    assert m * b <= m * m;
  }
}
