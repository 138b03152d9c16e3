/**
 Binary tries as values: what they map prefixes to, and the node in focus.
 */
module RadixShape {
  /** NGX_RADIX_NO_VALUE */
  const NONE: int := -1

  datatype Trie = Leaf | Node(id: nat, value: int, left: Trie, right: Trie)

  /** The rest of a trie around a subtree. */
  datatype Ctx = Top | InL(up: Ctx, id: nat, value: int, right: Trie) | InR(up: Ctx, id: nat, value: int, left: Trie)

  function Plug(c: Ctx, t: Trie): Trie {
    match c
    case Top => t
    case InL(up, i, v, r) => Plug(up, Node(i, v, t, r))
    case InR(up, i, v, l) => Plug(up, Node(i, v, l, t))
  }

  /** The bits that lead from the root to the focus. */
  function Path(c: Ctx): seq<bool> {
    match c
    case Top => []
    case InL(up, _, _, _) => Path(up) + [false]
    case InR(up, _, _, _) => Path(up) + [true]
  }

  /** The value stored under a prefix. */
  function Get(t: Trie, p: seq<bool>): int {
    match t
    case Leaf => NONE
    case Node(_, v, l, r) => if p == [] then v else Get(if p[0] then r else l, p[1..])
  }

  /** The subtree under a prefix. */
  function Sub(t: Trie, p: seq<bool>): Trie
    decreases |p|
  {
    if t.Leaf? || p == [] then t else Sub(if p[0] then t.right else t.left, p[1..])
  }

  lemma {:induction false} GetSub(t: Trie, p: seq<bool>)
    ensures Get(t, p) == if Sub(t, p).Node? then Sub(t, p).value else NONE
    decreases |p|
  {
    if t.Node? && p != [] { GetSub(if p[0] then t.right else t.left, p[1..]); }
  }

  /** Inside the focus, subtrees are those of the subtree in focus. */
  lemma {:induction false} SubInside(c: Ctx, t: Trie, q: seq<bool>)
    ensures Sub(Plug(c, t), Path(c) + q) == Sub(t, q)
    decreases c
  {
    match c
    case Top =>
      assert Path(c) + q == q;
    case InL(up, i, v, r) =>
      SubInside(up, Node(i, v, t, r), [false] + q);
      assert Path(up) + ([false] + q) == Path(c) + q;
      assert ([false] + q)[1..] == q;
    case InR(up, i, v, l) =>
      SubInside(up, Node(i, v, l, t), [true] + q);
      assert Path(up) + ([true] + q) == Path(c) + q;
      assert ([true] + q)[1..] == q;
  }

  /** Nodes are added on the way along p only. */
  ghost predicate Adds(t: Trie, t': Trie, p: seq<bool>) {
    forall q :: Sub(t', q).Node? ==> Sub(t, q).Node? || q <= p
  }

  lemma {:induction false} PlugAdds(c: Ctx, t: Trie, t': Trie, p: seq<bool>)
    requires Adds(t, t', p)
    ensures Adds(Plug(c, t), Plug(c, t'), Path(c) + p)
    decreases c
  {
    match c
    case Top =>
      assert Path(c) + p == p;
    case InL(up, i, v, r) =>
      BitAdds(i, v, t, r, t', r, false, p);
      PlugAdds(up, Node(i, v, t, r), Node(i, v, t', r), [false] + p);
      assert Path(up) + ([false] + p) == Path(c) + p;
    case InR(up, i, v, l) =>
      BitAdds(i, v, l, t, l, t', true, p);
      PlugAdds(up, Node(i, v, l, t), Node(i, v, l, t'), [true] + p);
      assert Path(up) + ([true] + p) == Path(c) + p;
  }

  lemma BitAdds(i: nat, v: int, l: Trie, r: Trie, l': Trie, r': Trie, b: bool, p: seq<bool>)
    requires if b then l == l' && Adds(r, r', p) else r == r' && Adds(l, l', p)
    ensures Adds(Node(i, v, l, r), Node(i, v, l', r'), [b] + p)
  {
    var t, t' := Node(i, v, l, r), Node(i, v, l', r');
    forall q | Sub(t', q).Node? ensures Sub(t, q).Node? || q <= [b] + p {
      if q != [] && q[0] == b && q[1..] <= p {
        assert q == [b] + q[1..];
      }
    }
  }

  /** Inside the focus, the map of the whole trie is that of the subtree. */
  lemma {:induction false} GetInside(c: Ctx, t: Trie, q: seq<bool>)
    ensures Get(Plug(c, t), Path(c) + q) == Get(t, q)
    decreases c
  {
    match c
    case Top =>
      assert Path(c) + q == q;
    case InL(up, i, v, r) =>
      GetInside(up, Node(i, v, t, r), [false] + q);
      assert Path(up) + ([false] + q) == Path(c) + q;
      assert ([false] + q)[1..] == q;
    case InR(up, i, v, l) =>
      GetInside(up, Node(i, v, l, t), [true] + q);
      assert Path(up) + ([true] + q) == Path(c) + q;
      assert ([true] + q)[1..] == q;
  }

  /** Outside it, the subtree does not matter. */
  lemma {:induction false} GetOutside(c: Ctx, t: Trie, t': Trie, p: seq<bool>)
    requires !(Path(c) <= p)
    ensures Get(Plug(c, t), p) == Get(Plug(c, t'), p)
    decreases c, 0
  {
    match c
    case Top =>
    case InL(up, i, v, r) => Beside(up, i, v, t, r, t', r, false, p);
    case InR(up, i, v, l) => Beside(up, i, v, l, t, l, t', true, p);
  }

  lemma OneBit(path: seq<bool>, b: bool, q: seq<bool>)
    requires q != [] && q[0] == b
    ensures path + [b] <= path + q
  {
    assert path + q == path + [b] + q[1..];
  }

  lemma {:induction false} Beside(up: Ctx, i: nat, v: int, l: Trie, r: Trie, l': Trie, r': Trie, b: bool, p: seq<bool>)
    requires !(Path(up) + [b] <= p) && (if b then l == l' else r == r')
    ensures Get(Plug(up, Node(i, v, l, r)), p) == Get(Plug(up, Node(i, v, l', r')), p)
    decreases up, 1
  {
    var n, n' := Node(i, v, l, r), Node(i, v, l', r');
    if Path(up) <= p {
      var q := p[|Path(up)|..];
      assert p == Path(up) + q;
      GetInside(up, n, q);
      GetInside(up, n', q);
      if q != [] && q[0] == b { OneBit(Path(up), b, q); }
    } else {
      GetOutside(up, n, n', p);
    }
  }

  /** Replacing the subtree in focus changes the map as it changes the subtree's. */
  ghost predicate Changes(t: Trie, t': Trie, p: seq<bool>, v: int) {
    forall q :: Get(t', q) == if q == p then v else Get(t, q)
  }

  lemma PlugChanges(c: Ctx, t: Trie, t': Trie, p: seq<bool>, v: int)
    requires Changes(t, t', p, v)
    ensures Changes(Plug(c, t), Plug(c, t'), Path(c) + p, v)
  {
    forall q ensures Get(Plug(c, t'), q) == if q == Path(c) + p then v else Get(Plug(c, t), q) {
      if Path(c) <= q {
        var r := q[|Path(c)|..];
        assert q == Path(c) + r;
        GetInside(c, t, r);
        GetInside(c, t', r);
        if r != p { assert (Path(c) + p)[|Path(c)|..] == p; }
      } else {
        GetOutside(c, t, t', q);
      }
    }
  }

  // ---------------------------------------------------------------- the longest prefix

  /** The value of the deepest node on the way. */
  function Deepest(t: Trie, p: seq<bool>): int {
    match t
    case Leaf => NONE
    case Node(_, v, l, r) =>
      if p == [] then v
      else var d := Deepest(if p[0] then r else l, p[1..]); if d != NONE then d else v
  }

  /** It belongs to the longest prefix that has a value. */
  lemma {:induction false} DeepestIsLongest(t: Trie, p: seq<bool>) returns (k: int)
    ensures -1 <= k <= |p| && (k == -1 <==> Deepest(t, p) == NONE)
    ensures k >= 0 ==> Get(t, p[..k]) == Deepest(t, p)
    ensures forall j :: k < j <= |p| ==> Get(t, p[..j]) == NONE
    decreases t
  {
    if t.Leaf? {
      k := -1;
    } else if p == [] {
      k := if t.value == NONE then -1 else 0;
      assert p[..0] == [];
    } else {
      var child := if p[0] then t.right else t.left;
      k := DeepestIsLongest(child, p[1..]);
      forall j | 1 <= j <= |p| ensures Get(t, p[..j]) == Get(child, p[1..][..j - 1]) {
        assert p[..j][1..] == p[1..][..j - 1];
      }
      if k >= 0 {
        k := k + 1;
      } else {
        assert p[..0] == [];
        k := if t.value == NONE then -1 else 0;
      }
    }
  }

  // ---------------------------------------------------------------- shape

  function Depth(c: Ctx): nat { if c.Top? then 0 else 1 + Depth(c.up) }

  /** No more than m levels. */
  ghost predicate Within(t: Trie, m: int) {
    match t
    case Leaf => m >= 0
    case Node(_, _, l, r) => Within(l, m - 1) && Within(r, m - 1)
  }

  lemma {:induction false} WithinLevels(t: Trie, m: int)
    requires Within(t, m)
    ensures m >= 0 && (t.Node? ==> m >= 1)
  {
    if t.Node? { WithinLevels(t.left, m - 1); }
  }

  ghost predicate CtxWithin(c: Ctx, m: int) {
    match c
    case Top => true
    case InL(up, _, _, r) => Within(r, m - Depth(c)) && CtxWithin(up, m)
    case InR(up, _, _, l) => Within(l, m - Depth(c)) && CtxWithin(up, m)
  }

  lemma {:induction false} PlugWithin(c: Ctx, t: Trie, m: int)
    ensures Within(Plug(c, t), m) <==> Within(t, m - Depth(c)) && CtxWithin(c, m)
    decreases c
  {
    match c
    case Top =>
    case InL(up, i, v, r) => PlugWithin(up, Node(i, v, t, r), m);
    case InR(up, i, v, l) => PlugWithin(up, Node(i, v, l, t), m);
  }

  predicate Childless(t: Trie) { t.Node? && t.left.Leaf? && t.right.Leaf? }

  /** No node without value and children, except where the trie itself is one. */
  ghost predicate Pruned(t: Trie) {
    t.Node? ==> Tidy(t.left) && Tidy(t.right)
  }

  ghost predicate Tidy(t: Trie) {
    t.Node? ==> Tidy(t.left) && Tidy(t.right) && (Childless(t) ==> t.value != NONE)
  }

  /** The parts of a pruned trie around the focus. */
  ghost predicate CtxTidy(c: Ctx) {
    match c
    case Top => true
    case InL(up, _, _, r) => Tidy(r) && CtxTidy(up)
    case InR(up, _, _, l) => Tidy(l) && CtxTidy(up)
  }

  lemma {:induction false} PlugTidy(c: Ctx, t: Trie)
    requires t.Node?
    ensures Pruned(Plug(c, t)) <==> CtxTidy(c) && (if c.Top? then Pruned(t) else Tidy(t))
    decreases c
  {
    match c
    case Top =>
    case InL(up, i, v, r) => PlugTidy(up, Node(i, v, t, r));
    case InR(up, i, v, l) => PlugTidy(up, Node(i, v, l, t));
  }
}
