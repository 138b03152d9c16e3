/**
 The radix tree of 32-bit keys (ngx_radix_tree.c).
 */
module RadixTree {
  import opened Words
  import opened RadixShape
  import opened RadixHeap
  import opened Lists

  datatype Rc = OK | BUSY | ERROR

  const BITS: nat := 32

  // ---------------------------------------------------------------- keys and masks

  /** The bit after d others, from the high end. */
  predicate BitAt(key: nat, d: nat) {
    d < BITS && Bit(key, BITS - 1 - d)
  }

  /** The first n bits of a key. */
  ghost function Prefix(key: nat, n: nat): (p: seq<bool>)
    ensures |p| == n && forall d :: 0 <= d < n ==> p[d] == BitAt(key, d)
  {
    seq(n, d requires 0 <= d < n => BitAt(key, d))
  }

  /** The mask has n leading ones. */
  ghost predicate IsMask(mask: nat, n: nat) {
    n <= BITS && forall d :: 0 <= d < BITS ==> (BitAt(mask, d) <==> d < n)
  }

  /** The moving bit after d shifts to the right. */
  function Moving(d: nat): nat { if d < BITS then Pow2(BITS - 1 - d) else 0 }

  lemma MovingTest(w: nat, d: nat)
    ensures And(w, Moving(d)) != 0 <==> BitAt(w, d)
  {
    if d < BITS { TestBit(w, BITS - 1 - d); } else { And0(w); }
  }

  lemma MovingShift(d: nat)
    ensures Moving(d) / 2 == Moving(d + 1)
  {
    if d + 1 < BITS { assert Pow2(BITS - 1 - d) == 2 * Pow2(BITS - 1 - (d + 1)); }
    assert Pow2(0) == 1;
  }

  /** The moving bit goes on by one. */
  lemma NextBit(key: nat, mask: nat, d: nat, bit: nat)
    requires bit == Moving(d)
    ensures And(key, bit) != 0 <==> BitAt(key, d)
    ensures bit / 2 == Moving(d + 1) && (And(mask, bit / 2) != 0 <==> BitAt(mask, d + 1))
    ensures Prefix(key, d + 1) == Prefix(key, d) + [BitAt(key, d)]
  {
    MovingTest(key, d);
    MovingShift(d);
    MovingTest(mask, d + 1);
    PrefixStep(key, d);
  }

  /** A path extended by one bit of the key. */
  lemma PrefixStep(key: nat, d: nat)
    ensures Prefix(key, d + 1) == Prefix(key, d) + [BitAt(key, d)]
  {
  }

  // ---------------------------------------------------------------- what the operations do to the map

  /** The trie is the map with one entry changed. */
  lemma ValueChanges(c: Ctx, t: Trie, v: int)
    requires t.Node?
    ensures Changes(Plug(c, t), Plug(c, t.(value := v)), Path(c), v)
  {
    assert Changes(t, t.(value := v), [], v);
    PlugChanges(c, t, t.(value := v), [], v);
    assert Path(c) + [] == Path(c);
  }

  /** A node without value is like none. */
  lemma NothingChanges(c: Ctx, i: nat)
    ensures forall q :: Get(Plug(c, Node(i, NONE, Leaf, Leaf)), q) == Get(Plug(c, Leaf), q)
  {
    var n := Node(i, NONE, Leaf, Leaf);
    forall q ensures Get(n, q) == Get(Leaf, q) {
    }
    assert Changes(Leaf, n, [], NONE);
    PlugChanges(c, Leaf, n, [], NONE);
    forall q ensures Get(Plug(c, n), q) == Get(Plug(c, Leaf), q) {
      assert Path(c) + [] == Path(c);
      GetInside(c, Leaf, []);
    }
  }

  /** The value stored for the longest prefix of the key that has one, or NONE when no prefix has. */
  ghost predicate LongestMatch(t: Trie, key: nat, value: int) {
    if value == NONE then forall j :: 0 <= j <= BITS ==> Get(t, Prefix(key, j)) == NONE
    else exists k :: 0 <= k <= BITS && Get(t, Prefix(key, k)) == value && forall j :: k < j <= BITS ==> Get(t, Prefix(key, j)) == NONE
  }

  class Tree {
    const nodes: array<Rec>
    var used: nat       // nodes handed out so far
    var free: int
    var root: int
    ghost var trie: Trie
    ghost var list: seq<nat>

    ghost predicate Free(ids: set<nat>)
      reads this, nodes
    {
      && used <= nodes.Length && Chain(nodes[..], free, list) && Distinct(list)
      && (forall i :: i in list ==> i !in ids && i < used)
      && (forall i :: i in ids ==> i < used)
      && (forall i :: 0 <= i < used ==> i in ids || i in list)
    }

    ghost predicate Valid()
      reads this, nodes
    {
      && At(nodes[..], root, Top, trie, root) && trie.Node? && Within(trie, BITS + 1)
      && Free(Ids(trie))
    }

    /** ngx_radix_tree_create without preallocation */
    constructor (capacity: nat)
      requires capacity > 0
      ensures Valid() && Pruned(trie) && fresh(nodes) && nodes.Length == capacity && Childless(trie) && forall p :: Get(trie, p) == NONE
    {
      nodes := new Rec[capacity](_ => Rec(NULL, NULL, NULL, NONE));
      used, free, root := 1, NULL, 0;
      trie, list := Node(0, NONE, Leaf, Leaf), [];
      new;
      assert Ids(Leaf) == {} && Tied(nodes[..], Leaf, NULL, 0);
    }

    /** ngx_radix_alloc */
    method Alloc(ghost ids: set<nat>) returns (p: int)
      requires Free(ids)
      modifies this`used, this`free, this`list
      ensures p == NULL ==> used == old(used) && free == old(free) && list == old(list) && used == nodes.Length && free == NULL
      ensures p != NULL ==> 0 <= p < nodes.Length && p !in ids && Free(ids + {p})
      ensures old(free) != NULL ==> p == old(free) && used == old(used) && list == old(list)[1..]
    {
      if free != NULL {
        p := free;
        assert list == [list[0]] + list[1..];
        free, list := nodes[free].right, list[1..];
        return;
      }
      if used == nodes.Length {
        return NULL;
      }
      p := used;
      used := used + 1;
    }

    /** ngx_radix32tree_find */
    method Find(key: nat) returns (value: int)
      requires Valid()
      ensures LongestMatch(trie, key, value)
    {
      var bit, node := 0x8000_0000, root;
      ghost var c, t, d := Top, trie, 0;
      assert Moving(0) == 0x8000_0000 by { Pow2At31(); }
      value := NONE;
      while node != NULL
        invariant At(nodes[..], root, c, t, node) && (node == NULL <==> t.Leaf?) && Within(t, BITS + 1 - d) && d <= BITS + 1
        invariant bit == Moving(d)
        invariant (if d <= BITS then OrElse(Deepest(t, Prefix(key, BITS)[d..]), value) else value)
                  == Deepest(trie, Prefix(key, BITS))
        decreases t
      {
        Down(nodes[..], root, c, t, node);
        MovingTest(key, d);
        MovingShift(d);
        WithinLevels(t, BITS + 1 - d);
        FindStep(t, key, d, value);
        if nodes[node].value != NONE {
          value := nodes[node].value;
        }
        if And(key, bit) != 0 {
          c, t, node := InR(c, t.id, t.value, t.left), t.right, nodes[node].right;
        } else {
          c, t, node := InL(c, t.id, t.value, t.right), t.left, nodes[node].left;
        }
        bit, d := bit / 2, d + 1;
      }
      ghost var k := DeepestIsLongest(trie, Prefix(key, BITS));
      forall j | 0 <= j <= BITS ensures Prefix(key, BITS)[..j] == Prefix(key, j) {
      }
    }

    /** Down along the bits of the prefix, as far as there are nodes. */
    method Descend(key: nat, mask: nat, ghost n: nat) returns (node: nat, bit: nat, found: bool, ghost c: Ctx, ghost t: Trie)
      requires Valid() && IsMask(mask, n)
      ensures node < nodes.Length && At(nodes[..], root, c, t, node) && t.Node? && Plug(c, t) == trie
      ensures Depth(c) <= n && bit == Moving(Depth(c)) && Path(c) == Prefix(key, Depth(c))
      ensures found == (Depth(c) == n)
      ensures !found ==> (if BitAt(key, Depth(c)) then t.right else t.left).Leaf?
    {
      bit, node := 0x8000_0000, root;
      c, t, found := Top, trie, true;
      assert Moving(0) == 0x8000_0000 by { Pow2At31(); }
      MovingTest(mask, 0);
      while And(mask, bit) != 0
        invariant node < nodes.Length && At(nodes[..], root, c, t, node) && t.Node? && Plug(c, t) == trie && found
        invariant Depth(c) <= n && bit == Moving(Depth(c)) && Path(c) == Prefix(key, Depth(c))
        invariant And(mask, bit) != 0 <==> Depth(c) < n
        decreases t
      {
        Down(nodes[..], root, c, t, node);
        MovingTest(key, Depth(c));
        PrefixStep(key, Depth(c));
        MovingShift(Depth(c));
        MovingTest(mask, Depth(c) + 1);
        var next := if And(key, bit) != 0 then nodes[node].right else nodes[node].left;
        if next == NULL {
          found := false;
          break;
        }
        if And(key, bit) != 0 {
          c, t := InR(c, t.id, t.value, t.left), t.right;
        } else {
          c, t := InL(c, t.id, t.value, t.right), t.left;
        }
        bit, node := bit / 2, next;
      }
    }

    /** ngx_radix32tree_insert */
    method Insert(key: nat, mask: nat, value: int, ghost n: nat) returns (rc: Rc)
      requires Valid() && IsMask(mask, n) && value != NONE
      modifies this, nodes
      ensures Valid()
      ensures rc == BUSY <==> old(Get(trie, Prefix(key, n))) != NONE
      ensures rc == OK ==> Changes(old(trie), trie, Prefix(key, n), value) && (old(Pruned(trie)) ==> Pruned(trie))
      ensures rc == BUSY ==> trie == old(trie)
      ensures Adds(old(trie), trie, Prefix(key, n))
      ensures rc == ERROR ==> used == nodes.Length && free == NULL && forall q :: Get(trie, q) == old(Get(trie, q))
    {
      var node, bit, found;
      ghost var c, t;
      node, bit, found, c, t := Descend(key, mask, n);
      GetInside(c, t, []);
      assert Path(c) + [] == Path(c);
      if found {
        Down(nodes[..], root, c, t, node);
        if nodes[node].value != NONE {
          return BUSY;
        }
        SetTo(node, value, c, t);
        return OK;
      }
      rc := Extend(key, mask, value, node, bit, n, c, t);
    }

    /** The node in focus gets a value. */
    method SetTo(node: nat, value: int, ghost c: Ctx, ghost t: Trie)
      requires Valid() && node < nodes.Length && At(nodes[..], root, c, t, node) && t.Node? && Plug(c, t) == trie
      modifies nodes, this`trie
      ensures Valid() && trie == Plug(c, t.(value := value)) && Changes(old(trie), trie, Path(c), value)
      ensures old(Pruned(trie)) && (value != NONE || !Childless(t) || c.Top?) ==> Pruned(trie)
      ensures Adds(old(trie), trie, [])
    {
      ghost var t' := t.(value := value);
      SetValue(nodes[..], root, c, t, node, value);
      PlugIds(c, t);
      PlugIds(c, t');
      PlugWithin(c, t, BITS + 1);
      PlugWithin(c, t', BITS + 1);
      PlugTidy(c, t);
      PlugTidy(c, t');
      ValueChanges(c, t, value);
      ValueAdds(c, t, value);
      assert Ids(t') == Ids(t) && node in Ids(t);
      ghost var h := nodes[..];
      nodes[node] := nodes[node].(value := value);
      assert nodes[..] == h[node := h[node].(value := value)];
      ChainFrame(h, nodes[..], free, list);
      Close(nodes[..], root, c, t', node);
      PlugNode(c, t');
      trie := Plug(c, t');
    }

    method Extend(key: nat, mask: nat, value: int, node: nat, bit: nat, ghost n: nat, ghost c: Ctx, ghost t: Trie) returns (rc: Rc)
      requires Valid() && IsMask(mask, n) && value != NONE
      requires node < nodes.Length && At(nodes[..], root, c, t, node) && t.Node? && Plug(c, t) == trie && Depth(c) < n
      requires bit == Moving(Depth(c)) && Path(c) == Prefix(key, Depth(c))
      requires (if BitAt(key, Depth(c)) then t.right else t.left).Leaf?
      modifies this, nodes
      ensures Valid() && rc != BUSY && old(Get(trie, Prefix(key, n))) == NONE
      ensures rc == OK ==> Changes(old(trie), trie, Prefix(key, n), value) && (old(Pruned(trie)) ==> Pruned(trie))
      ensures rc == ERROR ==> used == nodes.Length && free == NULL && forall q :: Get(trie, q) == old(Get(trie, q))
      ensures Adds(old(trie), trie, Prefix(key, n))
    {
      Missing(c, t, key, n);
      PlugTidy(c, t);
      var x;
      ghost var d, u;
      x, d, u := GrowPath(key, mask, node, bit, n, c, t);
      if x == NULL {
        return ERROR;
      }
      SetTo(x, value, d, u);
      SameStart(old(trie), Plug(d, u), trie, Path(d), value);
      AddsTwice(old(trie), Plug(d, u), trie, Prefix(key, n), []);
      PlugTidy(d, u.(value := value));
      return OK;
    }

    /** Nodes for the rest of the prefix. */
    method GrowPath(key: nat, mask: nat, node: nat, bit: nat, ghost n: nat, ghost c: Ctx, ghost t: Trie) returns (x: int, ghost d: Ctx, ghost u: Trie)
      requires Valid() && IsMask(mask, n)
      requires node < nodes.Length && At(nodes[..], root, c, t, node) && t.Node? && Plug(c, t) == trie && Depth(c) < n
      requires bit == Moving(Depth(c)) && Path(c) == Prefix(key, Depth(c))
      requires (if BitAt(key, Depth(c)) then t.right else t.left).Leaf?
      modifies this, nodes
      ensures Valid() && Adds(old(trie), trie, Prefix(key, n)) && forall q :: Get(trie, q) == old(Get(trie, q))
      ensures x == NULL ==> used == nodes.Length && free == NULL
      ensures x != NULL ==>
                && 0 <= x < nodes.Length && At(nodes[..], root, d, u, x) && u.Node? && Plug(d, u) == trie && Path(d) == Prefix(key, n)
                && (TidyAt(c, t) ==> TidyAt(d, u))
    {
      var b := bit;
      x, d, u := node, c, t;
      MovingTest(mask, Depth(c));
      while And(mask, b) != 0
        invariant Valid() && 0 <= x < nodes.Length && At(nodes[..], root, d, u, x) && u.Node? && Plug(d, u) == trie
        invariant Adds(old(trie), trie, Prefix(key, n)) && forall q :: Get(trie, q) == old(Get(trie, q))
        invariant OnTrack(key, mask, n, d, b) && (TidyAt(c, t) ==> TidyAt(d, u))
        invariant Depth(d) < n ==> (if BitAt(key, Depth(d)) then u.right else u.left).Leaf?
        decreases n - Depth(d)
      {
        NextBit(key, mask, Depth(d), b);
        var right := And(key, b) != 0;
        ghost var before := trie;
        var next := GrowOne(right, x, d, u);
        if next == NULL {
          return NULL, d, u;
        }
        PrefixOrder(key, Depth(d) + 1, n);
        AddsTwice(old(trie), before, trie, Prefix(key, n), Path(d) + [right]);
        NextNode(key, mask, n, d, u, b, right, next);
        d, u := ChildCtx(d, u, right), Node(next, NONE, Leaf, Leaf);
        b, x := b / 2, next;
      }
    }

    /** A node is allocated and becomes a child of the node in focus. */
    method GrowOne(right: bool, node: nat, ghost c: Ctx, ghost t: Trie) returns (next: int)
      requires Valid() && node < nodes.Length && At(nodes[..], root, c, t, node) && t.Node? && Plug(c, t) == trie && Depth(c) < BITS
      requires (if right then t.right else t.left).Leaf?
      modifies this, nodes
      ensures Valid() && forall q :: Get(trie, q) == old(Get(trie, q))
      ensures next == NULL ==> trie == old(trie) && used == nodes.Length && free == NULL
      ensures next != NULL ==>
                && 0 <= next < nodes.Length && At(nodes[..], root, ChildCtx(c, t, right), Node(next, NONE, Leaf, Leaf), next)
                && trie == Plug(ChildCtx(c, t, right), Node(next, NONE, Leaf, Leaf)) && Adds(old(trie), trie, Path(c) + [right])
    {
      ghost var h, ids, b := nodes[..], Ids(trie), ChildCtx(c, t, right);
      Down(h, root, c, t, node);
      PlugIds(b, Leaf);
      next := Alloc(ids);
      if next == NULL {
        return;
      }
      ghost var n := Node(next, NONE, Leaf, Leaf);
      nodes[next] := Rec(NULL, NULL, node, NONE);
      nodes[node] := if right then nodes[node].(right := next) else nodes[node].(left := next);
      assert node in ids;
      assert nodes[..] == h[next := Rec(NULL, NULL, node, NONE)][node := Relinked(h[node], b, next)];
      Grow(h, root, b, next);
      ChainFrame(h, nodes[..], free, list);
      Grown(c, t, right, next);
      Close(nodes[..], root, b, n, next);
      trie := Plug(b, n);
    }

    /** The node stored under exactly the prefix, if there is one. */
    method Seek(key: nat, mask: nat, ghost n: nat) returns (node: int, ghost c: Ctx, ghost t: Trie)
      requires Valid() && IsMask(mask, n)
      ensures node == NULL ==> Get(trie, Prefix(key, n)) == NONE && Sub(trie, Prefix(key, n)).Leaf?
      ensures node != NULL ==>
                && 0 <= node < nodes.Length && At(nodes[..], root, c, t, node) && t.Node? && Plug(c, t) == trie
                && Path(c) == Prefix(key, n) && Depth(c) == n && Get(trie, Prefix(key, n)) == t.value
                && Sub(trie, Prefix(key, n)) == t
    {
      var bit, found;
      node, bit, found, c, t := Descend(key, mask, n);
      if !found {
        Missing(c, t, key, n);
        return NULL, c, t;
      }
      GetInside(c, t, []);
      SubInside(c, t, []);
      assert Path(c) + [] == Path(c);
    }

    /** ngx_radix32tree_delete */
    method Delete(key: nat, mask: nat, ghost n: nat) returns (rc: Rc)
      requires Valid() && IsMask(mask, n) && n > 0
      modifies this, nodes
      ensures Valid() && rc != BUSY && Changes(old(trie), trie, Prefix(key, n), NONE)
      ensures rc == OK <==> old(Get(trie, Prefix(key, n))) != NONE || old(Childless(Sub(trie, Prefix(key, n))))
      ensures old(Pruned(trie)) ==> Pruned(trie) && (rc == OK <==> old(Get(trie, Prefix(key, n))) != NONE)
    {
      var node;
      ghost var c, t;
      node, c, t := Seek(key, mask, n);
      if node == NULL {
        return ERROR;
      }
      Down(nodes[..], root, c, t, node);
      PlugTidy(c, t);
      if nodes[node].right != NULL || nodes[node].left != NULL {
        if nodes[node].value != NONE {
          SetTo(node, NONE, c, t);
          return OK;
        }
        return ERROR;
      }
      Prune(node, c, t);
      return OK;
    }

    /** The loop of ngx_radix32tree_delete: the node goes, and with it every ancestor left without value and children. */
    method Prune(start: nat, ghost c0: Ctx, ghost t0: Trie)
      requires Valid() && start < nodes.Length && At(nodes[..], root, c0, t0, start) && Childless(t0) && !c0.Top? && Plug(c0, t0) == trie
      modifies this, nodes
      ensures Valid() && Changes(old(trie), trie, Path(c0), NONE)
      ensures old(Pruned(trie)) ==> Pruned(trie)
    {
      var node := start;
      ghost var c, t := c0, t0;
      LeafChanges(c, t);
      PlugTidy(c, t);
      while true
        invariant Valid() && node < nodes.Length && At(nodes[..], root, c, t, node) && Childless(t) && !c.Top? && Plug(c, t) == trie
        invariant Changes(old(trie), Plug(c, Leaf), Path(c0), NONE)
        invariant old(Pruned(trie)) ==> CtxTidy(c)
        decreases c
      {
        var parent := CutOff(node, c, t);
        ghost var u := Around(c, Leaf);
        c, t, node := c.up, u, parent;
        Down(nodes[..], root, c, t, node);
        PlugTidy(c, t);
        if nodes[node].right != NULL || nodes[node].left != NULL {
          break;
        }
        if nodes[node].value != NONE {
          break;
        }
        if nodes[node].parent == NULL {
          break;
        }
        NothingChanges(c, t.id);
        SameChanges(old(trie), trie, Plug(c, Leaf), Path(c0), NONE);
      }
    }

    /** A node without children is cut off and put on the free list. */
    method CutOff(node: nat, ghost c: Ctx, ghost t: Trie) returns (parent: nat)
      requires Valid() && node < nodes.Length && At(nodes[..], root, c, t, node) && Childless(t) && !c.Top? && Plug(c, t) == trie
      modifies this, nodes
      ensures Valid() && trie == Plug(c, Leaf)
      ensures parent < nodes.Length && At(nodes[..], root, c.up, Around(c, Leaf), parent)
    {
      ghost var h := nodes[..];
      Down(h, root, c, t, node);
      Up(h, root, c, t, node);
      Down(h, root, c.up, Around(c, t), c.id);
      parent := nodes[node].parent;
      Unlink(node, parent, c, t);
      CutList(h, nodes[..], c, t, node, free, list, used);
      free, list := node, [node] + list;
      Cut(h, root, c, t, node, nodes[node]);
      Up(nodes[..], root, c, Leaf, NULL);
      Close(nodes[..], root, c, Leaf, NULL);
      CutShape(c, t);
      trie := Plug(c, Leaf);
    }

    /** The link from the parent is cleared and the node linked in front of the free nodes. */
    method Unlink(node: nat, parent: nat, ghost c: Ctx, ghost t: Trie)
      requires node < nodes.Length && parent < nodes.Length && At(nodes[..], root, c, t, node) && t.Node? && !c.Top? && parent == c.id
      modifies nodes
      ensures nodes[..] == old(nodes[..])[parent := Relinked(old(nodes[parent]), c, NULL)][node := nodes[node]]
      ensures nodes[node].right == free
    {
      Sides(nodes[..], root, c, t, node);
      assert node in Ids(t) && c.id in CtxIds(c);
      if nodes[parent].right == node {
        nodes[parent] := nodes[parent].(right := NULL);
      } else {
        nodes[parent] := nodes[parent].(left := NULL);
      }
      nodes[node] := nodes[node].(right := free);
    }
  }

  /** The free nodes after one more. */
  lemma CutList(h: seq<Rec>, h': seq<Rec>, c: Ctx, t: Trie, x: nat, free: int, list: seq<nat>, used: nat)
    requires Childless(t) && t.id == x < |h| && !c.Top? && c.id < |h| && Ids(t) !! CtxIds(c)
    requires |h'| == |h| && h' == h[c.id := Relinked(h[c.id], c, NULL)][x := h'[x]] && h'[x].right == free
    requires Chain(h, free, list) && Distinct(list) && forall i :: i in list ==> i !in Ids(Plug(c, t)) && i < used
    requires forall i :: i in Ids(Plug(c, t)) ==> i < used
    requires forall i :: 0 <= i < used ==> i in Ids(Plug(c, t)) || i in list
    ensures Chain(h', x, [x] + list) && Distinct([x] + list)
    ensures forall i :: i in [x] + list ==> i !in Ids(Plug(c, Leaf)) && i < used
    ensures forall i :: i in Ids(Plug(c, Leaf)) ==> i < used
    ensures forall i :: 0 <= i < used ==> i in Ids(Plug(c, Leaf)) || i in [x] + list
  {
    PlugIds(c, t);
    PlugIds(c, Leaf);
    assert x in Ids(t) && c.id in CtxIds(c) && Ids(Leaf) == {} && Ids(t) == {x};
    ChainFrame(h, h', free, list);
    assert ([x] + list)[1..] == list;
  }

  lemma CutShape(c: Ctx, t: Trie)
    requires Childless(t) && !c.Top? && Within(Plug(c, t), BITS + 1)
    ensures Within(Plug(c, Leaf), BITS + 1) && Plug(c, Leaf).Node?
  {
    PlugWithin(c, t, BITS + 1);
    PlugWithin(c, Leaf, BITS + 1);
    WithinLevels(t, BITS + 1 - Depth(c));
    PlugNode(c, Leaf);
  }

  lemma SameStart(t: Trie, t1: Trie, t2: Trie, p: seq<bool>, v: int)
    requires Changes(t1, t2, p, v) && forall q :: Get(t1, q) == Get(t, q)
    ensures Changes(t, t2, p, v)
  {
  }

  /** Maps that agree have changed alike. */
  lemma SameChanges(t: Trie, t1: Trie, t2: Trie, p: seq<bool>, v: int)
    requires Changes(t, t1, p, v) && forall q :: Get(t2, q) == Get(t1, q)
    ensures Changes(t, t2, p, v)
  {
  }

  /** Cutting a node without children off forgets its value only. */
  lemma LeafChanges(c: Ctx, t: Trie)
    requires Childless(t)
    ensures Changes(Plug(c, t), Plug(c, Leaf), Path(c), NONE)
  {
    forall q ensures Get(Leaf, q) == if q == [] then NONE else Get(t, q) {
    }
    PlugChanges(c, t, Leaf, [], NONE);
    assert Path(c) + [] == Path(c);
  }

  /** The parent points at a node from one side. */
  lemma Sides(h: seq<Rec>, root: int, c: Ctx, t: Trie, x: nat)
    requires At(h, root, c, t, x) && t.Node? && !c.Top? && x < |h| && c.id < |h|
    ensures h[c.id].right == x <==> c.InR?
  {
    assert x in Ids(t);
    match c
    case InL(_, i, _, r) => if r.Node? { assert r.id in Ids(r); }
    case InR(_, i, _, l) => if l.Node? { assert l.id in Ids(l); }
  }

  /** The context is that of a prefix of the key, and the bit is the one that comes next. */
  ghost predicate OnTrack(key: nat, mask: nat, n: nat, c: Ctx, bit: nat) {
    && Depth(c) <= n && bit == Moving(Depth(c)) && Path(c) == Prefix(key, Depth(c))
    && (And(mask, bit) != 0 <==> Depth(c) < n)
  }

  ghost predicate TidyAt(c: Ctx, t: Trie) {
    CtxTidy(c) && (t.Node? ==> Tidy(t.left) && Tidy(t.right))
  }

  lemma NextNode(key: nat, mask: nat, n: nat, c: Ctx, t: Trie, bit: nat, right: bool, next: nat)
    requires IsMask(mask, n) && OnTrack(key, mask, n, c, bit) && Depth(c) < n && t.Node? && right == BitAt(key, Depth(c))
    ensures OnTrack(key, mask, n, ChildCtx(c, t, right), bit / 2)
    ensures TidyAt(c, t) ==> TidyAt(ChildCtx(c, t, right), Node(next, NONE, Leaf, Leaf))
  {
    NextBit(key, mask, Depth(c), bit);
    assert Depth(ChildCtx(c, t, right)) == Depth(c) + 1;
  }

  /** The place of a child of the node in focus. */
  function ChildCtx(c: Ctx, t: Trie, right: bool): Ctx
    requires t.Node?
  {
    if right then InR(c, t.id, t.value, t.left) else InL(c, t.id, t.value, t.right)
  }

  /** A node more: the map stays, the levels suffice, and its address is new. */
  lemma Grown(c: Ctx, t: Trie, right: bool, next: nat)
    requires t.Node? && (if right then t.right else t.left).Leaf? && Depth(c) < BITS && Within(Plug(c, t), BITS + 1)
    ensures var b, n := ChildCtx(c, t, right), Node(next, NONE, Leaf, Leaf);
            && (forall q :: Get(Plug(b, n), q) == Get(Plug(c, t), q))
            && Within(Plug(b, n), BITS + 1) && Ids(Plug(b, n)) == Ids(Plug(c, t)) + {next} && Plug(b, n).Node?
            && Adds(Plug(c, t), Plug(b, n), Path(c) + [right])
  {
    var b, n := ChildCtx(c, t, right), Node(next, NONE, Leaf, Leaf);
    ChildAdds(b, n);
    assert Plug(b, Leaf) == Plug(c, t);
    NothingChanges(b, next);
    PlugWithin(b, Leaf, BITS + 1);
    PlugWithin(b, n, BITS + 1);
    PlugIds(b, Leaf);
    PlugIds(b, n);
    assert Ids(Leaf) == {} && Ids(n) == {next};
    PlugNode(b, n);
  }

  lemma NothingBelow(t: Trie, q: seq<bool>)
    requires (t.Leaf? || Childless(t)) && q != []
    ensures Sub(t, q).Leaf?
  {
    assert Sub(Leaf, q[1..]).Leaf?;
  }

  lemma ChildAdds(c: Ctx, n: Trie)
    requires Childless(n)
    ensures Adds(Plug(c, Leaf), Plug(c, n), Path(c))
  {
    forall q | q != [] ensures Sub(n, q).Leaf? {
      NothingBelow(n, q);
    }
    PlugAdds(c, Leaf, n, []);
    assert Path(c) + [] == Path(c);
  }

  lemma ValueAdds(c: Ctx, t: Trie, v: int)
    requires t.Node?
    ensures Adds(Plug(c, t), Plug(c, t.(value := v)), [])
  {
    var t' := t.(value := v);
    forall q | Sub(Plug(c, t'), q).Node? ensures Sub(Plug(c, t), q).Node? || q <= [] {
      SameNodes(c, t, v, q);
    }
  }

  /** A value does not matter to which nodes there are. */
  lemma {:induction false} SameNodes(c: Ctx, t: Trie, v: int, q: seq<bool>)
    requires t.Node?
    ensures Sub(Plug(c, t.(value := v)), q).Node? <==> Sub(Plug(c, t), q).Node?
  {
    var t' := t.(value := v);
    assert Adds(t, t', []) && Adds(t', t, []);
    PlugAdds(c, t, t', []);
    PlugAdds(c, t', t, []);
    assert Path(c) + [] == Path(c);
    if q <= Path(c) {
      OnTheWay(c, t, q);
      OnTheWay(c, t', q);
    }
  }

  /** There are nodes all the way to the focus. */
  lemma {:induction false} OnTheWay(c: Ctx, t: Trie, q: seq<bool>)
    requires t.Node? && q <= Path(c)
    ensures Sub(Plug(c, t), q).Node?
    decreases c
  {
    if q == Path(c) {
      SubInside(c, t, []);
      assert Path(c) + [] == Path(c);
    } else {
      match c
      case InL(up, i, w, r) => OnTheWay(up, Node(i, w, t, r), q);
      case InR(up, i, w, l) => OnTheWay(up, Node(i, w, l, t), q);
    }
  }

  lemma AddsTwice(t: Trie, t1: Trie, t2: Trie, p: seq<bool>, q: seq<bool>)
    requires Adds(t, t1, p) && Adds(t1, t2, q) && q <= p
    ensures Adds(t, t2, p)
  {
    forall x | Sub(t2, x).Node? ensures Sub(t, x).Node? || x <= p {
      if x <= q { assert x <= p; } else { assert Sub(t1, x).Node?; }
    }
  }

  lemma PrefixOrder(key: nat, d: nat, n: nat)
    requires d <= n
    ensures Prefix(key, d) <= Prefix(key, n)
  {
  }

  /** Nothing is stored below a missing child. */
  lemma Missing(c: Ctx, t: Trie, key: nat, n: nat)
    requires t.Node? && Depth(c) < n && Path(c) == Prefix(key, Depth(c)) && (if BitAt(key, Depth(c)) then t.right else t.left).Leaf?
    ensures Get(Plug(c, t), Prefix(key, n)) == NONE && Sub(Plug(c, t), Prefix(key, n)).Leaf?
  {
    var d := Depth(c);
    var q := Prefix(key, n)[d..];
    assert Prefix(key, n) == Path(c) + q && q[0] == BitAt(key, d);
    GetInside(c, t, q);
    SubInside(c, t, q);
  }

  lemma {:induction false} PlugNode(c: Ctx, t: Trie)
    ensures t.Node? || !c.Top? ==> Plug(c, t).Node?
    decreases c
  {
    match c
    case Top =>
    case InL(up, i, v, r) => PlugNode(up, Node(i, v, t, r));
    case InR(up, i, v, l) => PlugNode(up, Node(i, v, l, t));
  }

  function OrElse(v: int, w: int): int { if v != NONE then v else w }

  lemma Pow2At31()
    ensures Pow2(31) == 0x8000_0000
  {
    assert Pow2(8) == 256;
    assert Pow2(16) == 65536;
    assert Pow2(24) == 0x100_0000;
  }

  /** One level of the search. */
  lemma FindStep(t: Trie, key: nat, d: nat, value: int)
    requires t.Node? && d <= BITS && Within(t, BITS + 1 - d)
    ensures var child := if BitAt(key, d) then t.right else t.left;
            OrElse(Deepest(t, Prefix(key, BITS)[d..]), value)
            == if d < BITS then OrElse(Deepest(child, Prefix(key, BITS)[d + 1..]), OrElse(t.value, value)) else OrElse(t.value, value)
    ensures d == BITS ==> t.left.Leaf? && t.right.Leaf?
  {
    var p := Prefix(key, BITS)[d..];
    if d < BITS {
      assert p[0] == BitAt(key, d) && p[1..] == Prefix(key, BITS)[d + 1..];
    } else {
      WithinLevels(t.left, 0);
      WithinLevels(t.right, 0);
    }
  }

  // ---------------------------------------------------------------- a stray node

  /** In a tree with room for two nodes an insertion under two bits fails and leaves a node under the first bit; deleting
      that absent prefix then reports success. */
  method StrayNode(key: nat, value: int) returns (tree: Tree, inserted: Rc, deleted: Rc)
    requires value != NONE
    ensures inserted == ERROR && deleted == OK && forall p :: Get(tree.trie, p) == NONE
  {
    tree := new Tree(2);
    MaskOk(1);
    MaskOk(2);
    ghost var start := tree.trie;
    inserted := tree.Insert(key, Mask(2), value, 2);
    OneStep(start, tree.trie, key);
    deleted := tree.Delete(key, Mask(1), 1);
  }

  /** n leading ones. */
  function Mask(n: nat): nat
    requires n <= BITS
  {
    Shl(Pow2(n) - 1, BITS - n)
  }

  lemma MaskOk(n: nat)
    requires n <= BITS
    ensures IsMask(Mask(n), n)
  {
    Ones(n);
    forall d | 0 <= d < BITS ensures BitAt(Mask(n), d) <==> d < n {
      ShlBit(Pow2(n) - 1, BITS - n, BITS - 1 - d);
    }
  }

  /** A second node on the way along the key: it is under the first bit, and has no children. */
  lemma OneStep(t: Trie, t': Trie, key: nat)
    requires Childless(t) && t'.Node? && Apart(t') && Adds(t, t', Prefix(key, 2)) && forall i :: i in Ids(t') ==> i < 2
    ensures Sub(t', Prefix(key, 2)).Leaf? && Get(t', Prefix(key, 2)) == NONE
    ensures 0 in Ids(t') && 1 in Ids(t') ==> Childless(Sub(t', Prefix(key, 1)))
  {
    var b := BitAt(key, 0);
    var child, other := if b then t'.right else t'.left, if b then t'.left else t'.right;
    assert Prefix(key, 1)[0] == b && Prefix(key, 2)[0] == b;
    assert Sub(t', Prefix(key, 1)) == child;
    ghost var q := [!b];
    assert Sub(t', q) == other;
    assert Sub(t, q).Leaf?;
    assert other.Leaf?;
    if child.Node? {
      assert child.id in Ids(child) && t'.id in Ids(t');
      TwoOnly(child, t'.id);
    }
    var rest := Prefix(key, 2)[1..];
    assert Sub(t', Prefix(key, 2)) == Sub(child, rest);
    NothingBelow(child, rest);
    GetSub(t', Prefix(key, 2));
  }

  lemma TwoOnly(t: Trie, i: nat)
    requires t.Node? && Apart(t) && i !in Ids(t) && i < 2 && forall j :: j in Ids(t) ==> j < 2
    ensures Childless(t)
  {
    OwnId(t);
    OwnId(t.left);
    OwnId(t.right);
    assert Ids(t.left) <= Ids(t) && Ids(t.right) <= Ids(t);
  }

  lemma OwnId(t: Trie)
    ensures t.Node? ==> t.id in Ids(t)
  {
  }
}
