/**
 How the page records, the free list and the slot lists encode what the pages are used for,
 and what each kind of relinking does to that encoding.

 List 0 is the free list; list 1 + s is the list of slot s.  The head of list h is the record
 at index |own| + h.
 */
module SlabTable {
  import opened Words
  import opened SlabRings
  import opened SlabOwnership

  const START: nat := 0x8000_0000_0000_0000
  const BUSY: nat := 0xffff_ffff_ffff_ffff
  const SHIFT_MASK: nat := 0xf
  const MAP_SHIFT: nat := 32
  const MAP_MASK: nat := 0xffff_ffff_0000_0000
  const LISTS: nat := 10

  /** NGX_SLAB_SMALL, NGX_SLAB_EXACT, NGX_SLAB_BIG; NGX_SLAB_PAGE is 0. */
  function TypeOf(shift: nat): nat {
    if shift < EXACT_SHIFT then 3 else if shift == EXACT_SHIFT then 2 else 1
  }

  function ListTag(h: nat): nat {
    if h == 0 then 0 else TypeOf(h - 1 + MIN_SHIFT)
  }

  /** The list page x has to be on, or -1. */
  ghost function Home(own: seq<Own>, x: nat): int
    requires x < |own|
  {
    match own[x]
    case Free(s, _) => if s == x then 0 else -1
    case Run(_, _) => -1
    case Chunks(shift, _) => if ChunksOk(own[x]) && Full(own[x]) then -1 else shift - MIN_SHIFT + 1
  }

  /** The `slab` word of a page of chunks: the shift for small ones, the bitmap itself for
      exact ones, the bitmap above the shift for big ones. */
  ghost predicate SlabWord(w: nat, shift: nat, busy: set<nat>) {
    if shift < EXACT_SHIFT then w == shift
    else if shift == EXACT_SHIFT then Encodes(w, busy)
    else And(w, SHIFT_MASK) == shift && Encodes(Shr(w, MAP_SHIFT), busy)
  }

  ghost predicate Matches(ns: seq<Node>, own: seq<Own>, i: nat)
    requires i < |own| <= |ns|
  {
    var n := ns[i];
    match own[i]
    case Free(s, l) =>
      && n.tag == 0
      && (if i == s then n.slab == l
          else n.slab == 0 && n.next == NULL && (i + 1 == s + l && i + 1 < |own| ==> n.prev == s))
    case Run(s, l) =>
      n.tag == 0 && n.next == NULL && n.slab == (if i == s then START + l else BUSY)
    case Chunks(shift, busy) =>
      && n.tag == TypeOf(shift)
      && SlabWord(n.slab, shift, busy)
      && (Home(own, i) == -1 ==> n.next == NULL)
  }

  ghost predicate OnList(own: seq<Own>, lists: seq<seq<nat>>, h: nat)
    requires h < |lists|
  {
    forall x: nat :: x in lists[h] <==> x < |own| && Home(own, x) == h
  }

  ghost predicate HasRing(ns: seq<Node>, own: seq<Own>, lists: seq<seq<nat>>, h: nat)
    requires h < |lists|
  {
    Ring(ns, |own| + h, lists[h], ListTag(h))
  }

  /** Everything agrees, except that the records of [lo, hi) are not looked at. */
  ghost predicate Shape(ns: seq<Node>, own: seq<Own>, lists: seq<seq<nat>>, lo: nat, hi: nat) {
    && |ns| == |own| + LISTS
    && |lists| == LISTS
    && Partition(own) && Coalesced(own)
    && (forall i :: 0 <= i < |own| && !(lo <= i < hi) ==> Matches(ns, own, i))
    && (forall h :: 0 <= h < LISTS ==> HasRing(ns, own, lists, h))
    && (forall h :: 0 <= h < LISTS ==> OnList(own, lists, h))
  }

  /** Nothing but `slab` words and unlisted records of [lo, hi) changed. */
  ghost predicate Touched(ns: seq<Node>, ns': seq<Node>, own: seq<Own>, lo: nat, hi: nat) {
    && |ns'| == |ns| == |own| + LISTS
    && (forall i :: 0 <= i < |ns| && !(lo <= i < hi) ==> ns'[i] == ns[i])
    && (forall i :: lo <= i < hi && i < |own| && Home(own, i) != -1 ==> ns'[i] == ns[i].(slab := ns'[i].slab))
  }

  lemma TouchShape(ns: seq<Node>, ns': seq<Node>, own: seq<Own>, lists: seq<seq<nat>>, lo: nat, hi: nat)
    requires Shape(ns, own, lists, lo, hi) && Touched(ns, ns', own, lo, hi) && hi <= |own|
    ensures Shape(ns', own, lists, lo, hi)
  {
    forall h | 0 <= h < LISTS ensures HasRing(ns', own, lists, h) {
      assert OnList(own, lists, h) && HasRing(ns, own, lists, h);
      forall k | 0 <= k < |lists[h]|
        ensures ns[lists[h][k]] == ns'[lists[h][k]].(slab := ns[lists[h][k]].slab)
      {
        assert lists[h][k] in lists[h];
      }
      RingFrame(ns, ns', |own| + h, lists[h], ListTag(h));
    }
    forall i | 0 <= i < |own| && !(lo <= i < hi) ensures Matches(ns', own, i) {
      assert Matches(ns, own, i);
    }
  }

  lemma WidenHole(ns: seq<Node>, own: seq<Own>, lists: seq<seq<nat>>, lo: nat, hi: nat)
    requires Shape(ns, own, lists, 0, 0)
    ensures Shape(ns, own, lists, lo, hi)
  {
  }

  /** A hole closes when its records match. */
  lemma CloseHole(ns: seq<Node>, own: seq<Own>, lists: seq<seq<nat>>, lo: nat, hi: nat)
    requires Shape(ns, own, lists, lo, hi)
    requires forall i :: lo <= i < hi && i < |own| ==> Matches(ns, own, i)
    ensures Shape(ns, own, lists, 0, 0)
  {
  }

  /** The owners change inside [lo, hi) only. */
  ghost predicate OnlyInside(own: seq<Own>, own': seq<Own>, lo: nat, hi: nat) {
    && |own'| == |own|
    && hi <= |own|
    && forall i :: 0 <= i < |own| && !(lo <= i < hi) ==> own'[i] == own[i]
  }

  /** Outside [lo, hi) only the head and the members of list h were relinked. */
  ghost predicate LocalTo(ns: seq<Node>, ns': seq<Node>, own: seq<Own>, h: nat, lo: nat, hi: nat) {
    && |ns'| == |ns| == |own| + LISTS
    && forall i :: 0 <= i < |ns| && i != |own| + h && !(lo <= i < hi) ==>
         if i < |own| && Home(own, i) == h
         then ns'[i].slab == ns[i].slab && ns'[i].tag == ns[i].tag
         else ns'[i] == ns[i]
  }

  /** Then the other lists are as before ... */
  lemma LocalRing(ns: seq<Node>, ns': seq<Node>, own: seq<Own>, lists: seq<seq<nat>>, h: nat, g: nat, lo: nat, hi: nat)
    requires LocalTo(ns, ns', own, h, lo, hi) && g < |lists| == LISTS && h != g && hi <= |own|
    requires HasRing(ns, own, lists, g) && OnList(own, lists, g)
    requires forall i :: lo <= i < hi ==> Home(own, i) == -1 || Home(own, i) == h
    ensures HasRing(ns', own, lists, g)
  {
    forall j | 0 <= j < |lists[g]| ensures ns'[lists[g][j]] == ns[lists[g][j]] {
      assert lists[g][j] in lists[g];
    }
    RingFrame(ns, ns', |own| + g, lists[g], ListTag(g));
  }

  /** ... and so is what the records say. */
  lemma LocalMatches(ns: seq<Node>, ns': seq<Node>, own: seq<Own>, own': seq<Own>, h: nat, lo: nat, hi: nat, i: nat)
    requires LocalTo(ns, ns', own, h, lo, hi) && OnlyInside(own, own', lo, hi)
    requires i < |own| && !(lo <= i < hi) && Matches(ns, own, i)
    ensures Matches(ns', own', i)
  {
    assert Home(own', i) == Home(own, i);
  }

  /** List h holds the pages homed at h outside [lo, hi), and `inside`. */
  ghost predicate Rehomed(own: seq<Own>, lists: seq<seq<nat>>, lists': seq<seq<nat>>, h: nat, lo: nat, hi: nat, inside: set<nat>)
    requires h < |lists| == |lists'|
  {
    && lists' == lists[h := lists'[h]]
    && forall x: nat :: x in lists'[h] <==> x in inside || (x in lists[h] && !(lo <= x < hi))
  }

  lemma RehomedLists(own: seq<Own>, own': seq<Own>, lists: seq<seq<nat>>, lists': seq<seq<nat>>, h: nat, g: nat, lo: nat, hi: nat, inside: set<nat>)
    requires h < |lists| == |lists'| && g < |lists| && OnList(own, lists, g)
    requires Rehomed(own, lists, lists', h, lo, hi, inside) && OnlyInside(own, own', lo, hi)
    requires forall i :: lo <= i < hi ==> Home(own, i) == -1 || Home(own, i) == h
    requires forall i :: lo <= i < hi ==> Home(own', i) == if i in inside then h else -1
    requires forall i :: i in inside ==> lo <= i < hi
    ensures OnList(own', lists', g)
  {
    forall x: nat ensures x in lists'[g] <==> x < |own'| && Home(own', x) == g {
      if x < |own| && !(lo <= x < hi) { assert Home(own', x) == Home(own, x); }
    }
  }

  /** The three relinkings have the same consequences for everything else. */
  lemma RelinkShape(ns: seq<Node>, ns': seq<Node>, own: seq<Own>, own': seq<Own>,
                    lists: seq<seq<nat>>, lists': seq<seq<nat>>,
                    lo: nat, hi: nat, lo': nat, hi': nat, h: nat, inside: set<nat>)
    requires Shape(ns, own, lists, lo, hi) && h < LISTS == |lists'| && lo' <= lo && hi <= hi'
    requires Partition(own') && Coalesced(own') && OnlyInside(own, own', lo', hi')
    requires LocalTo(ns, ns', own, h, lo', hi')
    requires Rehomed(own, lists, lists', h, lo', hi', inside)
    requires forall i :: lo' <= i < hi' ==> Home(own, i) == -1 || Home(own, i) == h
    requires forall i :: lo' <= i < hi' ==> Home(own', i) == if i in inside then h else -1
    requires forall i :: i in inside ==> lo' <= i < hi'
    requires HasRing(ns', own', lists', h)
    ensures Shape(ns', own', lists', lo', hi')
  {
    forall g | 0 <= g < LISTS ensures OnList(own', lists', g) && HasRing(ns', own', lists', g) {
      assert OnList(own, lists, g) && HasRing(ns, own, lists, g);
      RehomedLists(own, own', lists, lists', h, g, lo', hi', inside);
      if g != h { LocalRing(ns, ns', own, lists, h, g, lo', hi'); }
    }
    forall i | 0 <= i < |own'| && !(lo' <= i < hi') ensures Matches(ns', own', i) {
      assert Matches(ns, own, i);
      LocalMatches(ns, ns', own, own', h, lo', hi', i);
    }
  }

  /** Both neighbours of a list member are its list's head or members of the same list. */
  lemma NeighbourHomes(ns: seq<Node>, own: seq<Own>, lists: seq<seq<nat>>, h: nat, k: nat)
    requires |ns| == |own| + LISTS && |lists| == LISTS && h < LISTS && k < |lists[h]|
    requires OnList(own, lists, h) && HasRing(ns, own, lists, h)
    ensures var p := lists[h][k];
            && p < |own| && ns[p].tag == ListTag(h) && Home(own, p) == h
            && (ns[p].prev == |own| + h || (0 <= ns[p].prev < |own| && Home(own, ns[p].prev) == h))
            && (ns[p].next == |own| + h || (0 <= ns[p].next < |own| && Home(own, ns[p].next) == h && ns[ns[p].next].tag == ListTag(h)))
  {
    RingNeighbours(ns, |own| + h, lists[h], ListTag(h), k);
    assert lists[h][k] in lists[h];
    if k > 0 { assert lists[h][k - 1] in lists[h]; }
    if k + 1 < |lists[h]| {
      assert lists[h][k + 1] in lists[h];
      RingNeighbours(ns, |own| + h, lists[h], ListTag(h), k + 1);
    }
  }

  lemma UnlinkIsLocal(ns: seq<Node>, ns': seq<Node>, own: seq<Own>, lists: seq<seq<nat>>, h: nat, k: nat, lo: nat, hi: nat)
    requires |ns| == |own| + LISTS && |lists| == LISTS && h < LISTS && k < |lists[h]|
    requires OnList(own, lists, h) && HasRing(ns, own, lists, h) && Unlinked(ns, ns', lists[h][k])
    ensures LocalTo(ns, ns', own, h, lo, hi)
  {
    NeighbourHomes(ns, own, lists, h, k);
  }

  /** Taking a page off list h. */
  lemma UnlinkShape(ns: seq<Node>, ns': seq<Node>, own: seq<Own>, own': seq<Own>, lists: seq<seq<nat>>,
                    lo: nat, hi: nat, lo': nat, hi': nat, h: nat, k: nat)
    requires Shape(ns, own, lists, lo, hi) && h < LISTS && k < |lists[h]| && lo' <= lo && hi <= hi'
    requires Partition(own') && Coalesced(own') && OnlyInside(own, own', lo', hi')
    requires Unlinked(ns, ns', lists[h][k]) && lo' <= lists[h][k] < hi'
    requires forall i :: lo' <= i < hi' ==> Home(own', i) == -1 && (Home(own, i) != -1 ==> i == lists[h][k])
    ensures Shape(ns', own', lists[h := WithoutAt(lists[h], k)], lo', hi')
  {
    var lists' := lists[h := WithoutAt(lists[h], k)];
    assert OnList(own, lists, h) && HasRing(ns, own, lists, h);
    UnlinkIsLocal(ns, ns', own, lists, h, k, lo', hi');
    RingUnlink(ns, ns', |own| + h, lists[h], ListTag(h), k);
    assert Rehomed(own, lists, lists', h, lo', hi', {}) by { WithoutFacts(lists[h], k); }
    RelinkShape(ns, ns', own, own', lists, lists', lo, hi, lo', hi', h, {});
  }

  /** Putting page p at the front of list h. */
  lemma PushShape(ns: seq<Node>, ns': seq<Node>, own: seq<Own>, own': seq<Own>, lists: seq<seq<nat>>,
                  lo: nat, hi: nat, h: nat, p: nat)
    requires Shape(ns, own, lists, lo, hi) && h < LISTS && lo <= p < hi
    requires Partition(own') && Coalesced(own') && OnlyInside(own, own', lo, hi)
    requires forall i :: lo <= i < hi ==> Home(own, i) == -1
    requires forall i :: lo <= i < hi ==> Home(own', i) == if i == p then h else -1
    requires Pushed(ns, ns', |own| + h, p, ListTag(h))
    ensures Shape(ns', own', lists[h := [p] + lists[h]], lo, hi)
  {
    var lists' := lists[h := [p] + lists[h]];
    assert OnList(own, lists, h) && HasRing(ns, own, lists, h);
    RingPush(ns, ns', |own| + h, lists[h], ListTag(h), p);
    if |lists[h]| > 0 { NeighbourHomes(ns, own, lists, h, 0); }
    assert LocalTo(ns, ns', own, h, lo, hi);
    assert Rehomed(own, lists, lists', h, lo, hi, {p});
    RelinkShape(ns, ns', own, own', lists, lists', lo, hi, lo, hi, h, {p});
  }

  /** Page q takes the place of another on the free list. */
  lemma ReplaceShape(ns: seq<Node>, ns': seq<Node>, own: seq<Own>, own': seq<Own>, lists: seq<seq<nat>>,
                     lo: nat, hi: nat, k: nat, q: nat)
    requires Shape(ns, own, lists, lo, hi) && k < |lists[0]|
    requires Partition(own') && Coalesced(own') && OnlyInside(own, own', lo, hi)
    requires lo <= lists[0][k] < hi && lo <= q < hi && q != lists[0][k]
    requires forall i :: lo <= i < hi ==> Home(own, i) == if i == lists[0][k] then 0 else -1
    requires forall i :: lo <= i < hi ==> Home(own', i) == if i == q then 0 else -1
    requires Replaced(ns, ns', lists[0][k], q)
    requires forall i :: 0 <= i < |ns| && !(lo <= i < hi) ==> ns'[i].slab == ns[i].slab
    ensures Shape(ns', own', lists[0 := With(lists[0], k, q)], lo, hi)
  {
    var p, lists' := lists[0][k], lists[0 := With(lists[0], k, q)];
    assert OnList(own, lists, 0);
    assert HasRing(ns, own, lists, 0);
    NeighbourHomes(ns, own, lists, 0, k);
    RingReplace(ns, ns', |own|, lists[0], k, q);
    assert LocalTo(ns, ns', own, 0, lo, hi);
    assert Rehomed(own, lists, lists', 0, lo, hi, {q}) by { WithFacts(lists[0], k, q); }
    RelinkShape(ns, ns', own, own', lists, lists', lo, hi, lo, hi, 0, {q});
  }
}
