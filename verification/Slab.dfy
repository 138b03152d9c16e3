/**
 The slab pool: a page allocator (first fit, split at the front, coalescing through the tail
 back pointer) under a chunk allocator with three bitmap layouts.
 */
module Slab {
  import opened Words
  import opened SlabRings
  import opened SlabOwnership
  import opened SlabTable
  import opened SlabRuns
  import opened SlabChunks

  const SLOTS: nat := 9
  const MAX_SIZE: nat := 2048

  datatype Stat = Stat(total: nat, used: nat, reqs: nat, fails: nat)

  /** `used` and `total` of a slot count its chunks in use and its chunks altogether. */
  ghost predicate StatOk(own: seq<Own>, stats: seq<Stat>, s: nat)
    requires s < |stats|
  {
    && stats[s].used == Tally(own, s + MIN_SHIFT, false)
    && stats[s].total == Tally(own, s + MIN_SHIFT, true)
  }

  ghost predicate StatsOk(own: seq<Own>, stats: seq<Stat>) {
    |stats| == SLOTS && forall s :: 0 <= s < SLOTS ==> StatOk(own, stats, s)
  }

  /** A page of chunks keeps those of its bitmap and has at least one in use. */
  ghost predicate InUse(o: Own) {
    o.Chunks? && ChunksOk(o) ==> Below(Reserved(o.shift)) < o.busy
  }

  ghost predicate AllInUse(own: seq<Own>) {
    forall i :: 0 <= i < |own| ==> InUse(own[i])
  }

  lemma GiveInUse(mem: seq<nat>, own: seq<Own>, p: nat)
    requires Partition(own) && Holds(own, p, 1) && MapsOk(mem, own)
    requires forall i :: 0 <= i < |own| && i != p ==> InUse(own[i])
    ensures AllInUse(Give(own, p, 1)) && MapsOk(mem, Give(own, p, 1))
  {
    GivePages(own, p, 1);
    MapsFrame(mem, own, Give(own, p, 1));
  }

  lemma FreshOk(shift: nat)
    requires MIN_SHIFT <= shift <= MAX_SHIFT
    ensures var o := Chunks(shift, Below(Reserved(shift) + 1));
            ChunksOk(o) && !Full(o) && InUse(o)
  {
    ReservedFacts(shift);
    assert ChunkCount(shift) - 1 in Below(ChunkCount(shift)) && ChunkCount(shift) - 1 !in Below(Reserved(shift) + 1);
    assert Reserved(shift) in Below(Reserved(shift) + 1) && Reserved(shift) !in Below(Reserved(shift));
  }

  lemma FreshInUse(own: seq<Own>, page: nat, shift: nat)
    requires AllInUse(own) && page < |own| && MIN_SHIFT <= shift <= MAX_SHIFT
    ensures AllInUse(own[page := Chunks(shift, Below(Reserved(shift) + 1))])
  {
    FreshOk(shift);
  }

  // ---------------------------------------------------------------- counters

  /** Chunk c of a page becomes busy. */
  lemma StatGrab(own: seq<Own>, stats: seq<Stat>, page: nat, c: nat, s: nat)
    requires StatsOk(own, stats) && Partition(own) && page < |own| && own[page].Chunks?
    requires ChunksOk(own[page]) && c < ChunkCount(own[page].shift) && c !in own[page].busy && own[page].shift == s + MIN_SHIFT
    ensures StatsOk(own[page := Chunks(own[page].shift, own[page].busy + {c})], stats[s := stats[s].(used := stats[s].used + 1)])
  {
    var o := Chunks(own[page].shift, own[page].busy + {c});
    var own', stats' := own[page := o], stats[s := stats[s].(used := stats[s].used + 1)];
    forall t | 0 <= t < SLOTS ensures StatOk(own', stats', t) {
      assert StatOk(own, stats, t);
      TallyUpdate(own, page, o, t + MIN_SHIFT, false);
      TallyUpdate(own, page, o, t + MIN_SHIFT, true);
    }
  }

  /** A page just allocated is cut into chunks, one of them busy. */
  lemma StatOpen(own: seq<Own>, stats: seq<Stat>, page: nat, s: nat)
    requires StatsOk(own, stats) && page < |own| && !own[page].Chunks? && s < SLOTS
    ensures var shift := s + MIN_SHIFT;
            && ChunkCount(shift) >= Reserved(shift)
            && StatsOk(own[page := Chunks(shift, Below(Reserved(shift) + 1))],
                       stats[s := stats[s].(used := stats[s].used + 1, total := stats[s].total + (ChunkCount(shift) - Reserved(shift)))])
  {
    var shift := s + MIN_SHIFT;
    var o := Chunks(shift, Below(Reserved(shift) + 1));
    FreshOk(shift);
    SomeUsable(shift);
    BelowSize(Reserved(shift) + 1);
    var d := ChunkCount(shift) - Reserved(shift);
    var stats' := stats[s := stats[s].(used := stats[s].used + 1, total := stats[s].total + d)];
    var own' := own[page := o];
    forall t | 0 <= t < SLOTS ensures StatOk(own', stats', t) {
      assert StatOk(own, stats, t);
      StatOpenAt(own, stats, stats', page, o, s, t, d);
    }
  }

  lemma StatOpenAt(own: seq<Own>, stats: seq<Stat>, stats': seq<Stat>, page: nat, o: Own, s: nat, t: nat, d: nat)
    requires |stats| == SLOTS && s < SLOTS && t < SLOTS && StatOk(own, stats, t) && page < |own| && !own[page].Chunks?
    requires o.Chunks? && o.shift == s + MIN_SHIFT && ChunksOk(o) && |o.busy| == Reserved(o.shift) + 1
    requires d == ChunkCount(o.shift) - Reserved(o.shift)
    requires stats' == stats[s := stats[s].(used := stats[s].used + 1, total := stats[s].total + d)]
    ensures StatOk(own[page := o], stats', t)
  {
    TallyUpdate(own, page, o, t + MIN_SHIFT, false);
    TallyUpdate(own, page, o, t + MIN_SHIFT, true);
  }

  lemma StatTake(own: seq<Own>, stats: seq<Stat>, p: nat, n: nat)
    requires StatsOk(own, stats) && Partition(own) && p < |own| && own[p].Free? && own[p].start == p && 1 <= n <= own[p].len
    ensures StatsOk(Take(own, p, n), stats)
  {
    forall t | 0 <= t < SLOTS ensures StatOk(Take(own, p, n), stats, t) {
      assert StatOk(own, stats, t);
      TallyTake(own, p, n, t + MIN_SHIFT, false);
      TallyTake(own, p, n, t + MIN_SHIFT, true);
    }
  }

  /** Chunk c of a page becomes free. */
  lemma StatDrop(own: seq<Own>, stats: seq<Stat>, page: nat, c: nat, s: nat)
    requires StatsOk(own, stats) && Partition(own) && page < |own| && own[page].Chunks?
    requires ChunksOk(own[page]) && c in own[page].busy && own[page].shift == s + MIN_SHIFT && AllInUse(own)
    ensures stats[s].used >= 1
    ensures StatsOk(own[page := Chunks(own[page].shift, own[page].busy - {c})], stats[s := stats[s].(used := stats[s].used - 1)])
  {
    var o := Chunks(own[page].shift, own[page].busy - {c});
    var own' := own[page := o];
    assert StatOk(own, stats, s);
    TallyUpdate(own, page, o, s + MIN_SHIFT, false);
    assert InUse(own[page]);
    forall i | 0 <= i < |own| ensures Guarded(own[i]) { assert InUse(own[i]); }
    TallySome(own, page, s + MIN_SHIFT);
    var stats' := stats[s := stats[s].(used := stats[s].used - 1)];
    forall t | 0 <= t < SLOTS ensures StatOk(own', stats', t) {
      assert StatOk(own, stats, t);
      StatDropAt(own, stats, stats', page, o, c, s, t);
    }
  }

  lemma StatDropAt(own: seq<Own>, stats: seq<Stat>, stats': seq<Stat>, page: nat, o: Own, c: nat, s: nat, t: nat)
    requires |stats| == SLOTS && s < SLOTS && t < SLOTS && StatOk(own, stats, t) && page < |own| && own[page].Chunks? && ChunksOk(own[page])
    requires own[page].shift == s + MIN_SHIFT && c in own[page].busy && o == Chunks(own[page].shift, own[page].busy - {c})
    requires stats[s].used >= 1 && stats' == stats[s := stats[s].(used := stats[s].used - 1)]
    ensures StatOk(own[page := o], stats', t)
  {
    TallyUpdate(own, page, o, t + MIN_SHIFT, false);
    TallyUpdate(own, page, o, t + MIN_SHIFT, true);
  }

  /** A page without busy chunks, or a page run, goes back. */
  lemma StatGive(own: seq<Own>, stats: seq<Stat>, p: nat, n: nat, s: nat)
    requires StatsOk(own, stats) && Partition(own) && Holds(own, p, n) && s < SLOTS
    requires own[p].Chunks? ==> ChunksOk(own[p]) && own[p].busy == Below(Reserved(own[p].shift)) && own[p].shift == s + MIN_SHIFT
    ensures var d := if own[p].Chunks? then ChunkCount(s + MIN_SHIFT) - Reserved(s + MIN_SHIFT) else 0;
            && 0 <= d <= stats[s].total
            && StatsOk(Give(own, p, n), stats[s := stats[s].(total := stats[s].total - d)])
  {
    var d := if own[p].Chunks? then ChunkCount(s + MIN_SHIFT) - Reserved(s + MIN_SHIFT) else 0;
    StatGiveBound(own, stats, p, n, s, d);
    BelowSize(Reserved(s + MIN_SHIFT));
    var stats' := stats[s := stats[s].(total := stats[s].total - d)];
    forall t | 0 <= t < SLOTS ensures StatOk(Give(own, p, n), stats', t) {
      assert StatOk(own, stats, t);
      StatGiveAt(own, stats, stats', p, n, s, t, d);
    }
  }

  /** The chunks of the page are counted in `total`. */
  lemma StatGiveBound(own: seq<Own>, stats: seq<Stat>, p: nat, n: nat, s: nat, d: int)
    requires StatsOk(own, stats) && Partition(own) && Holds(own, p, n) && s < SLOTS
    requires own[p].Chunks? ==> ChunksOk(own[p]) && own[p].shift == s + MIN_SHIFT
    requires d == if own[p].Chunks? then ChunkCount(s + MIN_SHIFT) - Reserved(s + MIN_SHIFT) else 0
    ensures 0 <= d <= stats[s].total
  {
    SomeUsable(s + MIN_SHIFT);
    assert StatOk(own, stats, s);
    TallyGive(own, p, n, s + MIN_SHIFT, true);
    TallyNonNegative(Give(own, p, n), s + MIN_SHIFT, true);
  }

  lemma StatGiveAt(own: seq<Own>, stats: seq<Stat>, stats': seq<Stat>, p: nat, n: nat, s: nat, t: nat, d: nat)
    requires |stats| == SLOTS && s < SLOTS && t < SLOTS && StatOk(own, stats, t) && Partition(own) && Holds(own, p, n)
    requires own[p].Chunks? ==> ChunksOk(own[p]) && own[p].shift == s + MIN_SHIFT && |own[p].busy| == Reserved(own[p].shift)
    requires d == if own[p].Chunks? then ChunkCount(s + MIN_SHIFT) - Reserved(s + MIN_SHIFT) else 0
    requires d <= stats[s].total && stats' == stats[s := stats[s].(total := stats[s].total - d)]
    ensures StatOk(Give(own, p, n), stats', t)
  {
    TallyGive(own, p, n, t + MIN_SHIFT, false);
    TallyGive(own, p, n, t + MIN_SHIFT, true);
  }

  /** Only `used` and `total` are tied to the pages. */
  lemma StatSame(own: seq<Own>, stats: seq<Stat>, stats': seq<Stat>)
    requires StatsOk(own, stats) && |stats'| == |stats|
    requires forall s :: 0 <= s < |stats| ==> stats'[s].used == stats[s].used && stats'[s].total == stats[s].total
    ensures StatsOk(own, stats')
  {
    forall s | 0 <= s < SLOTS ensures StatOk(own, stats', s) {
      assert StatOk(own, stats, s);
    }
  }

  /** A page on no slot list of its class has no free chunk. */
  lemma NoRoom(own: seq<Own>, lists: seq<seq<nat>>, shift: nat)
    requires |lists| == LISTS && MIN_SHIFT <= shift <= MAX_SHIFT
    requires OnList(own, lists, shift - MIN_SHIFT + 1) && lists[shift - MIN_SHIFT + 1] == []
    ensures forall i :: 0 <= i < |own| && own[i].Chunks? && ChunksOk(own[i]) && own[i].shift == shift ==> Full(own[i])
  {
    forall i | 0 <= i < |own| && own[i].Chunks? && ChunksOk(own[i]) && own[i].shift == shift
      ensures Full(own[i])
    {
      assert i !in lists[shift - MIN_SHIFT + 1];
    }
  }

  lemma BusyBeyond(o: Own, c: nat)
    requires o.Chunks? && ChunksOk(o) && Guarded(o) && c !in o.busy
    ensures InUse(Chunks(o.shift, o.busy + {c}))
  {
    assert c !in Below(Reserved(o.shift));
  }

  /** The least power of two, at least 8, that holds the request. */
  ghost predicate IsClass(shift: nat, size: nat) {
    && MIN_SHIFT <= shift <= MAX_SHIFT
    && size <= Pow2(shift)
    && (shift == MIN_SHIFT || Pow2(shift - 1) < size)
  }

  function PagesFor(size: nat): (n: nat)
    ensures (n - 1) * PAGE < size || size == 0
    ensures size <= n * PAGE
  {
    size / PAGE + if size % PAGE != 0 then 1 else 0
  }

  /** Some page of the class has a free chunk. */
  ghost predicate HasRoom(own: seq<Own>, shift: nat) {
    exists i :: 0 <= i < |own| && own[i].Chunks? && ChunksOk(own[i]) && own[i].shift == shift && !Full(own[i])
  }

  // ---------------------------------------------------------------- the pool as a whole

  /** Every page that is not free carries a live block. */
  lemma SomeLive(own: seq<Own>, i: nat) returns (off: nat)
    requires Partition(own) && AllInUse(own) && i < |own| && !own[i].Free?
    ensures off in LiveSet(own)
  {
    assert Segment(own, i) && InUse(own[i]);
    match own[i]
    case Run(s, n) =>
      assert own[s] == own[i];
      off := PAGE * s;
      assert IsLive(own, off);
    case Chunks(shift, busy) =>
      var c :| c in busy && c !in Below(Reserved(shift));
      assert c in Below(ChunkCount(shift));
      LiveHere(own, i, c);
      ChunkBounds(i, shift, c);
      off := ChunkAt(i, shift, c);
  }

  /** A pool in which nothing is allocated is one free run. */
  lemma NothingLive(own: seq<Own>)
    requires Partition(own) && Coalesced(own) && AllInUse(own) && |own| >= 1 && LiveSet(own) == {}
    ensures forall i :: 0 <= i < |own| ==> own[i] == Free(0, |own|)
    ensures |FreeSet(own)| == |own|
  {
    forall i | 0 <= i < |own| ensures own[i].Free? {
      if !own[i].Free? {
        var off := SomeLive(own, i);
      }
    }
    AllFreeIsOneRun(own);
  }

  /** ngx_align_ptr(p, ngx_pagesize) */
  function PageUp(p: nat): (r: nat)
    ensures p <= r < p + PAGE && r % PAGE == 0
  {
    (p + PAGE - 1) / PAGE * PAGE
  }

  const RECORD: nat := 24
  const STAT: nat := 32

  /** Where the page table begins: behind the slots and their counters. */
  function Tables(slots: nat): nat { slots + SLOTS * (RECORD + STAT) }

  /** n pages fit behind the tables and the records of n pages. */
  predicate PagesFit(slots: nat, end: nat, n: nat) {
    PageUp(Tables(slots) + RECORD * n) + PAGE * n <= end
  }

  /** The page table of ngx_slab_init: where pages start and how many there are. */
  function Layout(slots: nat, end: nat): (r: (nat, nat))
    requires PagesFit(slots, end, 1)
  {
    var p := Tables(slots);
    var pages := (end - p) / (PAGE + RECORD);
    var start := PageUp(p + pages * RECORD);
    var m := pages - (end - start) / PAGE;
    GuessBounds(p, end, pages, start, m);
    (start, if m > 0 then pages - m else pages)
  }

  /** The first guess is at most one page too large. */
  lemma GuessBounds(p: nat, end: nat, pages: nat, start: nat, m: int)
    requires PageUp(p + RECORD) + PAGE <= end && pages == (end - p) / (PAGE + RECORD)
    requires start == PageUp(p + pages * RECORD) && m == pages - (end - start) / PAGE
    ensures pages >= 1 && m <= 1 && p + (PAGE + RECORD) * pages <= end < p + (PAGE + RECORD) * (pages + 1)
    ensures m <= 0 <==> start + PAGE * pages <= end
  {
  }

  lemma PageUpMono(a: nat, b: nat)
    requires a <= b
    ensures PageUp(a) <= PageUp(b)
  {
    assert (a + PAGE - 1) / PAGE <= (b + PAGE - 1) / PAGE;
  }

  /** The pool has as many pages as fit, and they start no later than one more record would make them. */
  lemma LayoutGreatest(slots: nat, end: nat)
    requires PagesFit(slots, end, 1)
    ensures var (start, pages) := Layout(slots, end);
            && pages >= 1 && start % PAGE == 0 && Tables(slots) + RECORD * pages <= start && start + PAGE * pages <= end
            && (start == PageUp(Tables(slots) + RECORD * pages) || start == PageUp(Tables(slots) + RECORD * (pages + 1)))
            && forall n: nat :: PagesFit(slots, end, n) <==> n <= pages
  {
    var p := Tables(slots);
    var guess := (end - p) / (PAGE + RECORD);
    var start := PageUp(p + guess * RECORD);
    GuessBounds(p, end, guess, start, guess - (end - start) / PAGE);
    var pages := Layout(slots, end).1;
    assert pages == guess || pages + 1 == guess;
    forall n: nat ensures PagesFit(slots, end, n) <==> n <= pages {
      if n <= guess { PageUpMono(p + RECORD * n, p + guess * RECORD); }
    }
    assert PagesFit(slots, end, 1);
  }

  function FreshLists(n: nat): seq<seq<nat>> {
    seq(n, h => if h == 0 then [0] else [])
  }

  lemma InitShape(ns: seq<Node>, own: seq<Own>, pages: nat)
    requires pages >= 1 && |own| == pages && |ns| == pages + LISTS
    requires forall i :: 0 <= i < pages ==> own[i] == Free(0, pages)
    requires ns[0] == Node(pages, pages, pages, 0)
    requires forall i :: 0 < i < pages ==> ns[i] == Node(0, NULL, NULL, 0)
    requires ns[pages].next == 0
    requires forall i :: pages < i < pages + LISTS ==> ns[i].next == i
    ensures Shape(ns, own, FreshLists(LISTS), 0, 0)
    ensures |FreeSet(own)| == pages
  {
    var lists := FreshLists(LISTS);
    forall i | 0 <= i < |own| ensures Segment(own, i) && Matches(ns, own, i) {
    }
    forall i | 0 < i < |own| ensures NoSeam(own, i) {
    }
    forall h | 0 <= h < LISTS ensures HasRing(ns, own, lists, h) && OnList(own, lists, h) {
      if h == 0 { assert Linked(ns, pages, [0], 0, 0); }
    }
    assert FreeSet(own) == Below(pages);
    BelowSize(pages);
  }

  lemma {:induction false} NoChunks(own: seq<Own>, shift: nat, all: bool)
    requires forall i :: 0 <= i < |own| ==> !own[i].Chunks?
    ensures Tally(own, shift, all) == 0
  {
    if |own| > 0 { NoChunks(own[..|own| - 1], shift, all); }
  }

  class Pool {
    const start: nat
    const end: nat
    const pages: nat
    const nodes: array<Node>
    const mem: array<nat>
    const stats: array<Stat>
    var pfree: nat
    ghost var own: seq<Own>
    ghost var lists: seq<seq<nat>>

    /** The records and lists encode the owners. */
    ghost predicate Base()
      reads this, nodes
    {
      && 1 <= pages < START - 1
      && |own| == pages
      && nodes.Length == pages + LISTS
      && Shape(nodes[..], own, lists, 0, 0)
    }

    ghost predicate Inv()
      reads this, nodes
    {
      Base() && pfree == |FreeSet(own)|
    }

    ghost predicate Mapped()
      reads this, nodes, mem
    {
      Inv() && MapsOk(mem[..], own)
    }

    /** The invariant of the pool between calls. */
    ghost predicate Valid()
      reads this, nodes, mem, stats
    {
      Mapped() && StatsOk(own, stats[..]) && AllInUse(own)
      && start > 0 && start % PAGE == 0 && start + PAGE * pages <= end
    }

    /** ngx_slab_init: `slots` is the address after the pool header, `end` the end of the zone. */
    constructor (slots: nat, end: nat)
      requires PagesFit(slots, end, 1) && end < START
      ensures Valid() && fresh(nodes) && fresh(mem) && fresh(stats) && this.end == end
      ensures forall n: nat :: PagesFit(slots, end, n) <==> n <= pages
      ensures start == PageUp(Tables(slots) + RECORD * pages) || start == PageUp(Tables(slots) + RECORD * (pages + 1))
      ensures LiveSet(own) == {} && pfree == pages
      ensures forall s :: 0 <= s < SLOTS ==> stats[s] == Stat(0, 0, 0, 0)
    {
      LayoutGreatest(slots, end);
      var (first, count) := Layout(slots, end);
      start, pages, this.end := first, count, end;
      nodes := new Node[count + LISTS](i =>
        if i == 0 then Node(count, count, count, 0)
        else if i < count then Node(0, NULL, NULL, 0)
        else if i == count then Node(0, 0, NULL, 0)
        else Node(0, i, NULL, 0));
      mem := new nat[PAGE_WORDS * count];
      stats := new Stat[SLOTS](_ => Stat(0, 0, 0, 0));
      pfree := count;
      own := seq(count, _ => SlabOwnership.Free(0, count));
      lists := FreshLists(LISTS);
      new;
      InitShape(nodes[..], own, count);
      forall s | 0 <= s < SLOTS ensures StatOk(own, stats[..], s) {
        NoChunks(own, s + MIN_SHIFT, false);
        NoChunks(own, s + MIN_SHIFT, true);
      }
      forall i | 0 <= i < count ensures PageMap(mem[..], own, i) {
      }
      forall off: nat ensures !IsLive(own, off) {
      }
    }

    // ------------------------------------------------------------ linking

    /** prev->next = p->next; p->next->prev = p->prev */
    method Unlink(p: nat)
      requires p < nodes.Length && 0 <= nodes[p].next < nodes.Length && 0 <= nodes[p].prev < nodes.Length
      requires nodes[p].next != p && nodes[p].prev != p
      modifies nodes
      ensures Unlinked(old(nodes[..]), nodes[..], p)
    {
      var n, v, t := nodes[p].next, nodes[p].prev, nodes[p].tag;
      nodes[v] := nodes[v].(next := n);
      nodes[n] := nodes[n].(prev := v, tag := t);
    }

    /** q takes over the links of p, which is on the free list. */
    method ReplaceBy(p: nat, q: nat)
      requires p < nodes.Length && q < nodes.Length && p != q
      requires 0 <= nodes[p].next < nodes.Length && 0 <= nodes[p].prev < nodes.Length
      requires p != nodes[p].next && p != nodes[p].prev && q != nodes[p].next && q != nodes[p].prev
      modifies nodes
      ensures Replaced(old(nodes[..]), nodes[..], p, q)
      ensures forall i :: 0 <= i < nodes.Length ==> nodes[i].slab == old(nodes[i].slab)
    {
      nodes[q] := nodes[q].(next := nodes[p].next, prev := nodes[p].prev, tag := nodes[p].tag);
      var v := nodes[p].prev;
      nodes[v] := nodes[v].(next := q);
      var x := nodes[p].next;
      nodes[x] := nodes[x].(prev := q, tag := 0);
    }

    /** Puts p at the front of the list whose head is record `head`. */
    method PushFront(head: nat, p: nat, tag: nat)
      requires p < nodes.Length && head < nodes.Length && p != head
      requires 0 <= nodes[head].next < nodes.Length && nodes[head].next != p
      modifies nodes
      ensures Pushed(old(nodes[..]), nodes[..], head, p, tag)
    {
      nodes[p] := nodes[p].(prev := head, tag := tag, next := nodes[head].next);
      var x := nodes[p].next;
      nodes[x] := nodes[x].(prev := p, tag := tag);
      nodes[head] := nodes[head].(next := p);
    }

    // ------------------------------------------------------------ page runs

    /** The scan of ngx_slab_alloc_pages: the first run on the free list with n pages. */
    method FindRun(n: nat) returns (page: int, ghost k: nat)
      requires Base() && n >= 1
      ensures page == NULL <==> forall a: nat :: !FreeStretch(own, a, n)
      ensures page != NULL ==>
                && 0 <= page < pages && k < |lists[0]| && lists[0][k] == page
                && own[page].Free? && own[page].start == page && n <= own[page].len
    {
      HeadLink(nodes[..], own, lists, 0, 0);
      assert HasRing(nodes[..], own, lists, 0) && OnList(own, lists, 0);
      page := nodes[pages].next;
      k := 0;
      while page != pages
        invariant 0 <= k <= |lists[0]|
        invariant page == if k < |lists[0]| then lists[0][k] else pages
        invariant forall j :: 0 <= j < k ==> lists[0][j] < pages && own[lists[0][j]].Free? && own[lists[0][j]].len < n
        decreases |lists[0]| - k
      {
        FreeMember(nodes[..], own, lists, 0, 0, k);
        if nodes[page].slab >= n {
          FitsSomewhere(own, page, n);
          return;
        }
        page := nodes[page].next;
        k := k + 1;
      }
      NothingFits(own, lists, n);
      page := NULL;
    }

    /** ngx_slab_alloc_pages */
    method AllocPages(n: nat) returns (page: int)
      requires Inv() && n >= 1
      modifies this, nodes
      ensures Inv()
      ensures page == NULL <==> forall a: nat :: !FreeStretch(old(own), a, n)
      ensures page == NULL ==> own == old(own) && nodes[..] == old(nodes[..]) && lists == old(lists)
      ensures page != NULL ==>
                && 0 <= page < pages
                && old(own)[page].Free? && old(own)[page].start == page && n <= old(own)[page].len
                && own == Take(old(own), page, n)
                && lists == old(lists)[0 := lists[0]]
    {
      ghost var k;
      page, k := FindRun(n);
      if page != NULL {
        TakeCount(own, page, n);
        pfree := pfree - n;
        TakeRun(page, n, k);
      }
    }

    method TakeRun(page: nat, n: nat, ghost k: nat)
      requires Base() && k < |lists[0]| && lists[0][k] == page < pages && n >= 1
      requires own[page].Free? && own[page].start == page && n <= own[page].len
      modifies this`own, this`lists, nodes
      ensures Base() && own == Take(old(own), page, n) && lists == old(lists)[0 := lists[0]]
    {
      ghost var end := page + own[page].len;
      FreeMember(nodes[..], own, lists, 0, 0, k);
      if nodes[page].slab > n {
        SplitRun(page, n, k);
      } else {
        ghost var ns := nodes[..];
        Unlink(page);
        DropShape(ns, nodes[..], own, lists, page, n, k);
        lists := lists[0 := WithoutAt(lists[0], k)];
      }
      own := Take(own, page, n);
      ghost var ns := nodes[..];
      MarkBusy(page, n);
      TakeShape(ns, nodes[..], own, lists, page, n, end);
    }

    method MarkBusy(page: nat, n: nat)
      requires n >= 1 && page + n <= nodes.Length
      modifies nodes
      ensures forall i :: 0 <= i < nodes.Length && !(page <= i < page + n) ==> nodes[i] == old(nodes[i])
      ensures forall i :: page <= i < page + n ==> nodes[i] == Node(if i == page then START + n else BUSY, NULL, NULL, 0)
    {
      nodes[page] := Node(START + n, NULL, NULL, 0);
      var p := page + 1;
      while p < page + n
        invariant page + 1 <= p <= page + n
        invariant forall i :: 0 <= i < nodes.Length && !(page <= i < p) ==> nodes[i] == old(nodes[i])
        invariant forall i :: page <= i < p ==> nodes[i] == Node(if i == page then START + n else BUSY, NULL, NULL, 0)
      {
        nodes[p] := Node(BUSY, NULL, NULL, 0);
        p := p + 1;
      }
    }

    method SplitRun(page: nat, n: nat, ghost k: nat)
      requires Base() && k < |lists[0]| && lists[0][k] == page < pages && n >= 1
      requires own[page].Free? && own[page].start == page && n < own[page].len
      modifies this`lists, nodes
      ensures page + own[page].len <= pages && |lists| == LISTS && lists == old(lists)[0 := lists[0]]
      ensures Shape(nodes[..], Take(own, page, n), lists, page, page + own[page].len)
      ensures forall i :: page + n <= i < page + own[page].len ==> Matches(nodes[..], Take(own, page, n), i)
    {
      ghost var ns0 := nodes[..];
      FreeMember(ns0, own, lists, 0, 0, k);
      InsideRun(ns0, own, lists, 0, 0, page);
      var tail, q := page + nodes[page].slab - 1, page + n;
      assert q != nodes[page].next && q != nodes[page].prev && tail != page;
      nodes[tail] := nodes[tail].(prev := q, tag := 0);
      ghost var ns1 := nodes[..];
      ReplaceBy(page, q);
      nodes[q] := nodes[q].(slab := nodes[page].slab - n);
      SplitShape(ns0, ns1, nodes[..], own, lists, page, n, k);
      lists := lists[0 := With(lists[0], k, q)];
    }

    // ------------------------------------------------------------ giving pages back

    ghost predicate InLimbo(lo: nat, len: nat)
      reads this, nodes
    {
      && 1 <= pages < START - 1 && |own| == pages && nodes.Length == pages + LISTS
      && Limbo(nodes[..], own, lists, lo, len)
    }

    /** ngx_slab_free_pages */
    method FreePages(page: nat, n: nat)
      requires Inv() && Holds(own, page, n)
      modifies this, nodes
      ensures Inv() && own == Give(old(own), page, n)
    {
      GiveCount(own, page, n);
      pfree := pfree + n;
      Detach(page, n);
      var left := AbsorbNext(page, n - 1);
      ghost var own2 := own;
      var start, last := AbsorbPrev(page, left);
      ghost var own3 := own;
      Settle(start, last);
      GiveInSteps(old(own), own2, own3, own, page, n, start, left, last);
    }

    method Blank(page: nat, n: nat)
      requires n >= 1 && page + n <= nodes.Length
      modifies nodes
      ensures forall j :: 0 <= j < nodes.Length && !(page <= j < page + n) ==> nodes[j] == old(nodes[j])
      ensures nodes[page] == old(nodes[page]).(slab := n)
      ensures forall j :: page < j < page + n ==> nodes[j] == Node(0, NULL, NULL, 0)
    {
      nodes[page] := nodes[page].(slab := n);
      var i := 1;
      while i < n
        invariant 1 <= i <= n
        invariant forall j :: 0 <= j < nodes.Length && !(page <= j < page + i) ==> nodes[j] == old(nodes[j])
        invariant nodes[page] == old(nodes[page]).(slab := n)
        invariant forall j :: page < j < page + i ==> nodes[j] == Node(0, NULL, NULL, 0)
      {
        nodes[page + i] := Node(0, NULL, NULL, 0);
        i := i + 1;
      }
    }

    method Detach(page: nat, n: nat)
      requires Base() && Holds(own, page, n)
      modifies this`own, this`lists, nodes
      ensures InLimbo(page, n) && own == Paint(old(own), page, page + n, Run(page, n))
    {
      ghost var ns0 := nodes[..];
      Blank(page, n);
      ghost var ns1 := nodes[..];
      BlankShape(ns0, ns1, own, lists, page, n);
      LinklessIsHomeless(ns1, own, lists, page, page + n, page);
      if nodes[page].next != NULL {
        assert ns0[page].next == ns1[page].next && Matches(ns0, own, page);
        ghost var h := Home(own, page);
        ghost var k := FindMember(ns1, own, lists, page, page + n, h, page);
        assert HasRing(ns1, own, lists, h) && OnList(own, lists, h);
        RingNeighbours(ns1, pages + h, lists[h], ListTag(h), k);
        NeighbourHomes(ns1, own, lists, h, k);
        Unlink(page);
        DetachListed(ns1, nodes[..], own, lists, page, n, h, k);
        lists := lists[h := WithoutAt(lists[h], k)];
      } else {
        DetachUnlisted(ns1, own, lists, page, n);
      }
      own := Paint(own, page, page + n, Run(page, n));
    }

    method AbsorbNext(page: nat, left: nat) returns (left': nat)
      requires InLimbo(page, left + 1)
      modifies this`own, this`lists, nodes
      ensures InLimbo(page, left' + 1)
      ensures page + left' + 1 == RightEnd(old(own), page + left + 1)
      ensures own == Paint(old(own), page, page + left' + 1, Run(page, left' + 1))
      ensures page + left' + 1 < pages ==> !own[page + left' + 1].Free?
      ensures page > 0 ==> own[page - 1] == old(own)[page - 1]
    {
      left' := left;
      var join := page + nodes[page].slab;
      assert own == Paint(own, page, join, Run(page, left + 1)) by { assert Segment(own, page); }
      if join < pages {
        NextRecord(nodes[..], own, lists, page, left + 1);
        if nodes[join].tag == 0 && nodes[join].next != NULL {
          left' := left' + nodes[join].slab;
          JoinNext(page, join, left, left');
        }
      }
    }

    method JoinNext(page: nat, join: nat, ghost left: nat, ghost left': nat)
      requires InLimbo(page, left + 1) && join == page + left + 1 < pages && own[join].Free? && own[join].start == join
      requires left' == left + own[join].len && page + left' + 1 <= pages
      modifies this`own, this`lists, nodes
      ensures InLimbo(page, left' + 1)
      ensures own == Paint(old(own), page, page + left' + 1, Run(page, left' + 1))
    {
      ghost var ns0 := nodes[..];
      ghost var k := FindMember(ns0, own, lists, page, page + (left + 1), 0, join);
      FreeMember(ns0, own, lists, page, page + (left + 1), k);
      ghost var mid := MergeNext(page, join);
      JoinNextShape(ns0, ns0[page := ns0[page].(slab := left' + 1)], mid, nodes[..], own, lists, page, left + 1, left' + 1, k);
      lists := lists[0 := WithoutAt(lists[0], k)];
      own := Paint(own, page, page + (left' + 1), Run(page, left' + 1));
    }

    /** page->slab += join->slab, join leaves its list and is blanked. */
    method MergeNext(page: nat, join: nat) returns (ghost mid: seq<Node>)
      requires page < nodes.Length && join < nodes.Length && page != join
      requires 0 <= nodes[join].next < nodes.Length && 0 <= nodes[join].prev < nodes.Length
      requires nodes[join].next != join && nodes[join].prev != join
      modifies nodes
      ensures var ns := old(nodes[..]);
              && Unlinked(ns[page := ns[page].(slab := ns[page].slab + ns[join].slab)], mid, join)
              && nodes[..] == mid[join := Node(0, NULL, NULL, 0)]
    {
      nodes[page] := nodes[page].(slab := nodes[page].slab + nodes[join].slab);
      assert nodes[..] == old(nodes[..])[page := nodes[page]];
      Unlink(join);
      mid := nodes[..];
      nodes[join] := Node(0, NULL, NULL, 0);
    }

    /** join->slab += page->slab, join leaves its list and page is blanked. */
    method MergePrev(page: nat, join: nat) returns (ghost mid: seq<Node>)
      requires page < nodes.Length && join < nodes.Length && page != join
      requires 0 <= nodes[join].next < nodes.Length && 0 <= nodes[join].prev < nodes.Length
      requires nodes[join].next != join && nodes[join].prev != join
      modifies nodes
      ensures var ns := old(nodes[..]);
              && Unlinked(ns, mid, join)
              && nodes[..] == mid[join := mid[join].(slab := ns[join].slab + ns[page].slab)][page := Node(0, NULL, NULL, 0)]
    {
      var size := nodes[join].slab + nodes[page].slab;
      Unlink(join);
      mid := nodes[..];
      nodes[join] := nodes[join].(slab := size);
      nodes[page] := Node(0, NULL, NULL, 0);
    }

    method AbsorbPrev(page: nat, left: nat) returns (start: nat, left': nat)
      requires InLimbo(page, left + 1)
      modifies this`own, this`lists, nodes
      ensures start == LeftEnd(old(own), page) && start + left' == page + left
      ensures InLimbo(start, left' + 1)
      ensures own == Paint(old(own), start, page + left + 1, Run(start, left' + 1))
      ensures start > 0 ==> !own[start - 1].Free?
      ensures page + left + 1 < pages ==> own[page + left + 1] == old(own)[page + left + 1]
    {
      start, left' := page, left;
      assert own == Paint(own, page, page + left + 1, Run(page, left + 1)) by { assert Segment(own, page); }
      if page > 0 {
        PrevRecord(nodes[..], own, lists, page, left + 1);
        var join := page - 1;
        if nodes[join].tag == 0 {
          if nodes[join].slab == 0 {
            join := nodes[join].prev;
          }
          if nodes[join].next != NULL {
            start, left' := join, left' + nodes[join].slab;
            JoinPrev(page, join, left, left');
          }
        }
      }
    }

    method JoinPrev(page: nat, join: nat, ghost left: nat, ghost left': nat)
      requires InLimbo(page, left + 1) && page > 0 && own[page - 1].Free? && join == own[page - 1].start < page
      requires own[join] == own[page - 1]
      requires join + left' == page + left
      modifies this`own, this`lists, nodes
      ensures InLimbo(join, left' + 1)
      ensures own == Paint(old(own), join, page + left + 1, Run(join, left' + 1))
    {
      ghost var ns0 := nodes[..];
      ghost var k := FindMember(ns0, own, lists, page, page + (left + 1), 0, join);
      FreeMember(ns0, own, lists, page, page + (left + 1), k);
      ghost var mid := MergePrev(page, join);
      JoinPrevShape(ns0, mid, nodes[..], own, lists, page, left + 1, join, left' + 1, k);
      lists := lists[0 := WithoutAt(lists[0], k)];
      own := Paint(own, join, join + (left' + 1), Run(join, left' + 1));
    }

    method Settle(start: nat, left: nat)
      requires InLimbo(start, left + 1)
      requires start > 0 ==> !own[start - 1].Free?
      requires start + left + 1 < pages ==> !own[start + left + 1].Free?
      modifies this`own, this`lists, nodes
      ensures Base() && own == Paint(old(own), start, start + left + 1, Free(start, left + 1))
    {
      ghost var ns0, end := nodes[..], start + left + 1;
      HeadLink(ns0, own, lists, start, end);
      if left != 0 {
        nodes[start + left] := nodes[start + left].(prev := start, tag := 0);
      }
      ghost var ns1 := nodes[..];
      assert own[start] == Run(start, left + 1);
      PushFront(pages, start, 0);
      SettleShape(ns0, ns1, nodes[..], own, lists, start, left + 1);
      lists := lists[0 := [start] + lists[0]];
      own := Paint(own, start, end, Free(start, left + 1));
    }

    // ------------------------------------------------------------ finding a chunk

    /** The first clear bit of a word that has one below n, counting from bit `from`. */
    method FirstClear(w: nat, from: nat, n: nat, ghost bits: set<nat>) returns (i: nat)
      requires Encodes(Shr(w, from), bits) && exists j: nat :: j < n && j !in bits
      ensures i < n && i !in bits && forall j :: 0 <= j < i ==> j in bits
    {
      i := 0;
      HighUpdate(w, from, 0, bits);
      while And(w, Pow2(from + i)) != 0
        invariant i < n
        invariant forall j :: 0 <= j < i ==> j in bits
        invariant And(w, Pow2(from + i)) != 0 <==> i in bits
        decreases n - i
      {
        i := i + 1;
        HighUpdate(w, from, i, bits);
      }
    }

    /** The first bitmap word of a page of small chunks that is not NGX_SLAB_BUSY. */
    method FirstWord(page: nat, shift: nat) returns (n: nat)
      requires MapsOk(mem[..], own) && page < |own| && own[page].Chunks? && ChunksOk(own[page]) && !Full(own[page])
      requires own[page].shift == shift < EXACT_SHIFT
      ensures n < MapWords(shift) && PAGE_WORDS * page + n < mem.Length
      ensures Encodes(mem[PAGE_WORDS * page + n], WordBits(own[page].busy, n))
      ensures exists j: nat :: j < 64 && j !in WordBits(own[page].busy, n)
      ensures forall w :: 0 <= w < n ==> WordBits(own[page].busy, w) == Below(64)
    {
      ghost var busy := own[page].busy;
      var words := MapWords(shift);
      MapSize(shift);
      FullByWords(busy, words);
      n := 0;
      WordFull(mem[..], own, page, 0);
      while n < words && mem[PAGE_WORDS * page + n] == BUSY
        invariant 0 <= n <= words
        invariant n < words ==> PAGE_WORDS * page + n < mem.Length
        invariant forall w :: 0 <= w < n ==> WordBits(busy, w) == Below(64)
      {
        WordFull(mem[..], own, page, n);
        n := n + 1;
        if n < words { WordFull(mem[..], own, page, n); }
      }
      WordFull(mem[..], own, page, n);
      assert exists j: nat :: j < 64 && j !in WordBits(busy, n);
    }

    /** A page of small chunks: the bitmap is in the page's first words. */
    method GrabSmall(page: nat, shift: nat) returns (c: nat, full: bool)
      requires MapsOk(mem[..], own) && page < |own| && own[page].Chunks? && ChunksOk(own[page]) && !Full(own[page])
      requires own[page].shift == shift < EXACT_SHIFT
      modifies mem
      ensures c < ChunkCount(shift) && c !in own[page].busy
      ensures MapsOk(mem[..], own[page := Chunks(shift, own[page].busy + {c})])
      ensures full <==> own[page].busy + {c} == Below(ChunkCount(shift))
    {
      ghost var busy := own[page].busy;
      MapSize(shift);
      var n := FirstWord(page, shift);
      var i := FirstClear(mem[PAGE_WORDS * page + n], 0, 64, WordBits(busy, n));
      c := 64 * n + i;
      assert c / 64 == n && c % 64 == i;
      MapSet(mem[..], own, page, c);
      mem[PAGE_WORDS * page + n] := Or(mem[PAGE_WORDS * page + n], Pow2(i));
      ghost var own' := own[page := Chunks(shift, busy + {c})];
      forall w | 0 <= w < n ensures WordBits(busy + {c}, w) == Below(64) { WordBitsChange(busy, c, w); }
      full := AllBusy(page, shift, n, own');
    }

    /** Whether word n and all later words of the bitmap are NGX_SLAB_BUSY. */
    method AllBusy(page: nat, shift: nat, n: nat, ghost own': seq<Own>) returns (full: bool)
      requires MapsOk(mem[..], own') && page < |own'| && own'[page].Chunks? && ChunksOk(own'[page])
      requires own'[page].shift == shift < EXACT_SHIFT && n < MapWords(shift)
      requires forall w :: 0 <= w < n ==> WordBits(own'[page].busy, w) == Below(64)
      ensures full <==> own'[page].busy == Below(ChunkCount(shift))
    {
      ghost var busy := own'[page].busy;
      var words := MapWords(shift);
      MapSize(shift);
      FullByWords(busy, words);
      var k := n;
      WordFull(mem[..], own', page, k);
      while k < words && mem[PAGE_WORDS * page + k] == BUSY
        invariant n <= k <= words
        invariant k < words ==> PAGE_WORDS * page + k < mem.Length
        invariant forall w :: 0 <= w < k ==> WordBits(busy, w) == Below(64)
      {
        WordFull(mem[..], own', page, k);
        k := k + 1;
        if k < words { WordFull(mem[..], own', page, k); }
      }
      if k < words { WordFull(mem[..], own', page, k); }
      full := k == words;
    }

    /** A page of 64 chunks: the bitmap is the `slab` word. */
    method GrabExact(page: nat) returns (c: nat, full: bool)
      requires page < |own| <= nodes.Length && Matches(nodes[..], own, page)
      requires own[page].Chunks? && ChunksOk(own[page]) && !Full(own[page])
      requires own[page].shift == EXACT_SHIFT
      modifies nodes
      ensures c < ChunkCount(EXACT_SHIFT) && c !in own[page].busy
      ensures nodes[..] == old(nodes[..])[page := old(nodes[page]).(slab := nodes[page].slab)]
      ensures SlabWord(nodes[page].slab, EXACT_SHIFT, own[page].busy + {c})
      ensures full <==> own[page].busy + {c} == Below(ChunkCount(EXACT_SHIFT))
    {
      ghost var busy := own[page].busy;
      CountInWord(EXACT_SHIFT);
      assert exists j: nat :: j < 64 && j !in busy;
      c := FirstClear(nodes[page].slab, 0, 64, busy);
      SetBit(nodes[page].slab, c, busy);
      nodes[page] := nodes[page].(slab := Or(nodes[page].slab, Pow2(c)));
      EncodesFull(nodes[page].slab, busy + {c}, 64);
      Pow2Values();
      full := nodes[page].slab == BUSY;
    }

    /** A page of at most 32 chunks: the bitmap is the upper half of the `slab` word. */
    method GrabBig(page: nat, shift: nat) returns (c: nat, full: bool)
      requires page < |own| <= nodes.Length && Matches(nodes[..], own, page)
      requires own[page].Chunks? && ChunksOk(own[page]) && !Full(own[page])
      requires own[page].shift == shift > EXACT_SHIFT
      modifies nodes
      ensures c < ChunkCount(shift) && c !in own[page].busy
      ensures nodes[..] == old(nodes[..])[page := old(nodes[page]).(slab := nodes[page].slab)]
      ensures SlabWord(nodes[page].slab, shift, own[page].busy + {c})
      ensures full <==> own[page].busy + {c} == Below(ChunkCount(shift))
    {
      ghost var busy := own[page].busy;
      var count := ChunkCount(shift);
      assert exists j: nat :: j < count && j !in busy;
      var w := nodes[page].slab;
      c := FirstClear(w, MAP_SHIFT, count, busy);
      var w' := Or(w, Pow2(MAP_SHIFT + c));
      BigBitSet(w, w', shift, busy, c);
      BigFull(w', shift, busy + {c}, count);
      nodes[page] := nodes[page].(slab := w');
      full := And(w', MAP_MASK) == Shl(Pow2(count) - 1, MAP_SHIFT);
    }

    // ------------------------------------------------------------ chunks

    /** Takes a chunk from a page that has one; a page left without any leaves its slot list. */
    method Grab(page: nat, shift: nat) returns (c: nat)
      requires Mapped() && page < pages && own[page].Chunks? && ChunksOk(own[page]) && !Full(own[page])
      requires own[page].shift == shift
      modifies this`own, this`lists, nodes, mem
      ensures Mapped() && c < ChunkCount(shift) && c !in old(own)[page].busy
      ensures own == old(own)[page := Chunks(shift, old(own)[page].busy + {c})]
    {
      ghost var ns0 := nodes[..];
      assert Matches(ns0, own, page);
      var full;
      if shift < EXACT_SHIFT {
        c, full := GrabSmall(page, shift);
      } else {
        if shift == EXACT_SHIFT {
          c, full := GrabExact(page);
        } else {
          c, full := GrabBig(page, shift);
        }
        MapsOther(mem[..], own, page, Chunks(shift, own[page].busy + {c}));
      }
      Relist(page, shift, Chunks(shift, own[page].busy + {c}), full, ns0);
    }

    method Relist(page: nat, shift: nat, ghost o: Own, full: bool, ghost ns0: seq<Node>)
      requires 1 <= pages < START - 1 && |own| == pages && nodes.Length == pages + LISTS && pfree == |FreeSet(own)|
      requires Shape(ns0, own, lists, 0, 0) && page < pages && own[page].Chunks? && ChunksOk(own[page]) && !Full(own[page])
      requires o.Chunks? && ChunksOk(o) && o.shift == shift == own[page].shift && (full <==> Full(o))
      requires nodes[..] == ns0[page := ns0[page].(slab := nodes[page].slab)]
      requires SlabWord(nodes[page].slab, shift, o.busy)
      requires MapsOk(mem[..], own[page := o])
      modifies this`own, this`lists, nodes
      ensures Mapped() && own == old(own)[page := o]
    {
      ghost var ns1, w := nodes[..], nodes[page].slab;
      ChunkKeeps(own, page, o);
      if full {
        ghost var h := shift - MIN_SHIFT + 1;
        ghost var k := FindMember(ns0, own, lists, 0, 0, h, page);
        assert HasRing(ns0, own, lists, h);
        RingNeighbours(ns0, pages + h, lists[h], ListTag(h), k);
        Unlink(page);
        ghost var ns2 := nodes[..];
        nodes[page] := nodes[page].(next := NULL, prev := NULL, tag := TypeOf(shift));
        FillShape(ns0, ns1, ns2, nodes[..], own, o, lists, page, h, k, w);
        lists := lists[h := WithoutAt(lists[h], k)];
      } else {
        StayShape(ns0, ns1, own, o, lists, page, w);
      }
      own := own[page := o];
    }

    /** Cuts a page just allocated into chunks and takes the first that may be handed out. */
    method Open(page: nat, shift: nat) returns (c: nat)
      requires Mapped() && page < pages && own[page] == Run(page, 1) && MIN_SHIFT <= shift <= MAX_SHIFT
      requires lists[shift - MIN_SHIFT + 1] == []
      modifies this`own, this`lists, nodes, mem
      ensures Mapped() && c == Reserved(shift)
      ensures own == old(own)[page := Chunks(shift, Below(Reserved(shift) + 1))]
    {
      c := Reserved(shift);
      FreshOk(shift);
      if shift < EXACT_SHIFT {
        InitMap(page, shift);
      } else {
        MapsOther(mem[..], own, page, Chunks(shift, Below(Reserved(shift) + 1)));
      }
      var w := InitWord(shift);
      OpenOnly(page, shift, Chunks(shift, Below(Reserved(shift) + 1)), w);
    }

    /** The page becomes the only one of its slot list. */
    method OpenOnly(page: nat, shift: nat, ghost o: Own, w: nat)
      requires Inv() && page < pages && own[page] == Run(page, 1) && MIN_SHIFT <= shift <= MAX_SHIFT
      requires o.Chunks? && ChunksOk(o) && !Full(o) && o.shift == shift && SlabWord(w, shift, o.busy)
      requires MapsOk(mem[..], own[page := o]) && lists[shift - MIN_SHIFT + 1] == []
      modifies this`own, this`lists, nodes
      ensures Mapped() && own == old(own)[page := o]
    {
      ghost var ns0, h := nodes[..], shift - MIN_SHIFT + 1;
      var head := pages + 1 + shift - MIN_SHIFT;
      ChunkKeeps(own, page, o);
      SlotFirst(ns0, own, lists, 0, 0, h);
      nodes[page] := nodes[page].(slab := w);
      ghost var ns1 := nodes[..];
      nodes[page] := nodes[page].(next := head, prev := head, tag := TypeOf(shift));
      nodes[head] := nodes[head].(next := page);
      OpenShape(ns0, ns1, nodes[..], own, o, lists, page, h, w);
      lists := lists[h := [page] + lists[h]];
      own := own[page := o];
    }

    /** The first `slab` word of a page of chunks. */
    method InitWord(shift: nat) returns (w: nat)
      requires MIN_SHIFT <= shift <= MAX_SHIFT
      ensures SlabWord(w, shift, Below(Reserved(shift) + 1))
    {
      if shift < EXACT_SHIFT {
        w := shift;
      } else if shift == EXACT_SHIFT {
        w := 1;
        Ones(1);
      } else {
        w := Or(Pow2(MAP_SHIFT), shift);
        assert Pow2(4) == 16;
        FreshHigh(MAP_SHIFT, shift, 4);
        assert Below(1) == {0};
      }
    }

    method InitMap(page: nat, shift: nat)
      requires MapsOk(mem[..], own) && page < |own| && MIN_SHIFT <= shift < EXACT_SHIFT
      modifies mem
      ensures MapsOk(mem[..], own[page := Chunks(shift, Below(Reserved(shift) + 1))])
    {
      MapSize(shift);
      var words, base := MapWords(shift), PAGE_WORDS * page;
      var n := Reserved(shift);
      ShlPow2(1, n);
      assert Pow2(1) == 2;
      FillMap(base, words, Shl(2, n) - 1);
      MapFresh(old(mem[..]), mem[..], own, page, shift);
    }

    /** The first word of a bitmap, and zeroes. */
    method FillMap(base: nat, words: nat, first: nat)
      requires 1 <= words && base + words <= mem.Length
      modifies mem
      ensures forall a :: 0 <= a < mem.Length && !(base <= a < base + words) ==> mem[a] == old(mem[a])
      ensures forall a :: base <= a < base + words ==> mem[a] == if a == base then first else 0
    {
      mem[base] := first;
      var i := 1;
      while i < words
        invariant 1 <= i <= words
        invariant forall a :: 0 <= a < mem.Length && !(base <= a < base + i) ==> mem[a] == old(mem[a])
        invariant forall a :: base <= a < base + i ==> mem[a] == if a == base then first else 0
      {
        mem[base + i] := 0;
        i := i + 1;
      }
    }

    /** Sets the `slab` word of a page on no list and puts it at the front of its slot list. */
    method OpenAs(page: nat, shift: nat, ghost o: Own, w: nat)
      requires Inv() && page < pages && (own[page].Chunks? || own[page] == Run(page, 1)) && Home(own, page) == -1
      requires o.Chunks? && ChunksOk(o) && !Full(o) && o.shift == shift && SlabWord(w, shift, o.busy)
      requires MapsOk(mem[..], own[page := o])
      modifies this`own, this`lists, nodes
      ensures Mapped() && own == old(own)[page := o]
    {
      ghost var ns0 := nodes[..];
      ghost var h := shift - MIN_SHIFT + 1;
      var head := pages + 1 + shift - MIN_SHIFT;
      ChunkKeeps(own, page, o);
      SlotFirst(ns0, own, lists, 0, 0, h);
      nodes[page] := nodes[page].(slab := w);
      ghost var ns1 := nodes[..];
      PushFront(head, page, TypeOf(shift));
      OpenShape(ns0, ns1, nodes[..], own, o, lists, page, h, w);
      lists := lists[h := [page] + lists[h]];
      own := own[page := o];
    }

    /** Clears a bit of an in-page bitmap. */
    method ClearSmall(page: nat, shift: nat, c: nat) returns (empty: bool)
      requires MapsOk(mem[..], own) && page < |own| && own[page].Chunks? && ChunksOk(own[page])
      requires own[page].shift == shift < EXACT_SHIFT && c in own[page].busy
      modifies mem
      ensures MapsOk(mem[..], own[page := Chunks(shift, own[page].busy - {c})]) && mem[..] != old(mem[..])
      ensures empty <==> own[page].busy - {c} <= Below(Reserved(shift))
    {
      MapClear(mem[..], own, page, c);
      ClearDiffers(mem[..], own, page, c);
      MapSize(shift);
      var a := PAGE_WORDS * page + c / 64;
      mem[a] := AndNot(mem[a], Pow2(c % 64));
      assert mem[..][a] != old(mem[..])[a];
      empty := NoneBusy(page, shift, own[page := Chunks(shift, own[page].busy - {c})]);
    }

    /** The `slab` word without the bit of a chunk. */
    method ClearWord(slab: nat, shift: nat, c: nat, ghost busy: set<nat>) returns (w: nat, empty: bool)
      requires EXACT_SHIFT <= shift <= MAX_SHIFT && SlabWord(slab, shift, busy) && c in busy && busy <= Below(ChunkCount(shift))
      ensures SlabWord(w, shift, busy - {c}) && (empty <==> busy - {c} == {})
    {
      if shift == EXACT_SHIFT {
        w := AndNot(slab, Pow2(c));
        ExactBitClear(slab, w, c, busy);
        empty := w == 0;
      } else {
        w := AndNot(slab, Pow2(MAP_SHIFT + c));
        BigBitClear(slab, w, shift, c, busy);
        empty := And(w, MAP_MASK) == 0;
      }
    }

    /** Whether a page has no free chunk: the exact layout looks at the word, the others at the link. */
    method WasFull(page: nat, shift: nat) returns (full: bool)
      requires Base() && page < pages && own[page].Chunks? && ChunksOk(own[page]) && own[page].shift == shift
      ensures full <==> Full(own[page])
    {
      assert Matches(nodes[..], own, page);
      LinklessIsHomeless(nodes[..], own, lists, 0, 0, page);
      if shift == EXACT_SHIFT {
        CountInWord(shift);
        Pow2Values();
        EncodesFull(nodes[page].slab, own[page].busy, 64);
        full := nodes[page].slab == BUSY;
      } else {
        full := nodes[page].next == NULL;
      }
    }

    /** Frees a chunk; a page that was full is put back on its slot list. */
    method Release(page: nat, shift: nat, c: nat) returns (empty: bool)
      requires Mapped() && page < pages && own[page].Chunks? && ChunksOk(own[page]) && own[page].shift == shift
      requires c in own[page].busy
      modifies this`own, this`lists, nodes, mem
      ensures Mapped() && own == old(own)[page := Chunks(shift, old(own)[page].busy - {c})]
      ensures empty <==> old(own)[page].busy - {c} <= Below(Reserved(shift))
      ensures shift < EXACT_SHIFT ==> mem[..] != old(mem[..])
    {
      ghost var o := Chunks(shift, own[page].busy - {c});
      var full := WasFull(page, shift);
      var w := nodes[page].slab;
      assert Matches(nodes[..], own, page);
      if shift < EXACT_SHIFT {
        empty := ClearSmall(page, shift, c);
      } else {
        w, empty := ClearWord(w, shift, c, own[page].busy);
        MapsOther(mem[..], own, page, o);
        assert Below(0) == {};
      }
      assert c in Below(ChunkCount(shift)) && c !in o.busy;
      if full {
        OpenAs(page, shift, o, w);
      } else {
        Rewrite(page, o, w);
      }
    }

    method Rewrite(page: nat, ghost o: Own, w: nat)
      requires Inv() && page < pages && own[page].Chunks? && ChunksOk(own[page]) && !Full(own[page])
      requires o.Chunks? && ChunksOk(o) && !Full(o) && o.shift == own[page].shift && SlabWord(w, o.shift, o.busy)
      requires MapsOk(mem[..], own[page := o])
      modifies this`own, nodes
      ensures Mapped() && own == old(own)[page := o]
    {
      ghost var ns0 := nodes[..];
      ChunkKeeps(own, page, o);
      nodes[page] := nodes[page].(slab := w);
      StayShape(ns0, nodes[..], own, o, lists, page, w);
      own := own[page := o];
    }

    /** Whether nothing but the bitmap's own chunks is busy. */
    method NoneBusy(page: nat, shift: nat, ghost own': seq<Own>) returns (empty: bool)
      requires MapsOk(mem[..], own') && page < |own'| && own'[page].Chunks? && ChunksOk(own'[page])
      requires own'[page].shift == shift < EXACT_SHIFT
      ensures empty <==> own'[page].busy <= Below(Reserved(shift))
    {
      EmptyTest(mem[..], own', page);
      if AndNot(mem[PAGE_WORDS * page], Pow2(Reserved(shift)) - 1) != 0 {
        return false;
      }
      empty := RestZero(page, shift, MapWords(shift), own');
    }

    method RestZero(page: nat, shift: nat, words: nat, ghost own': seq<Own>) returns (zero: bool)
      requires MapsOk(mem[..], own') && page < |own'| && own'[page].Chunks?
      requires MIN_SHIFT <= own'[page].shift == shift < EXACT_SHIFT && words == MapWords(shift)
      ensures zero <==> forall w :: 1 <= w < words ==> WordBits(own'[page].busy, w) == {}
    {
      var i := 1;
      while i < words
        invariant 1 <= i
        invariant forall w :: 1 <= w < i ==> WordBits(own'[page].busy, w) == {}
      {
        WordFull(mem[..], own', page, i);
        if mem[PAGE_WORDS * page + i] != 0 {
          return false;
        }
        i := i + 1;
      }
      return true;
    }

    /** The part of ngx_slab_free_locked shared by the three kinds of chunks.  A chunk of a page's own bitmap, too, has
        its bit cleared: the structure stays, but the pool no longer protects the bitmap. */
    method DropChunk(page: nat, shift: nat, c: nat)
      requires Valid() && page < pages && own[page].Chunks? && ChunksOk(own[page]) && own[page].shift == shift
      requires c in own[page].busy
      modifies this, nodes, mem, stats
      ensures Reserved(shift) <= c ==> Valid() && LiveChange(old(own), own, {}, {ChunkAt(page, shift, c)})
      ensures c < Reserved(shift) ==>
                Exposed() && own == old(own)[page := Chunks(shift, old(own)[page].busy - {c})] && mem[..] != old(mem[..])
    {
      ghost var own0 := own;
      var empty := ReleaseCounted(page, shift, c);
      ghost var own1 := own;
      StillInUse(own0, own1, page, c);
      if empty {
        DropPage(page, shift);
        LiveThen(own0, own1, own, {ChunkAt(page, shift, c)});
      }
    }

    /** Frees a chunk, and `used` follows. */
    method ReleaseCounted(page: nat, shift: nat, c: nat) returns (empty: bool)
      requires Valid() && page < pages && own[page].Chunks? && ChunksOk(own[page]) && own[page].shift == shift && c in own[page].busy
      modifies this`own, this`lists, nodes, mem, stats
      ensures Mapped() && own == old(own)[page := Chunks(shift, old(own)[page].busy - {c})] && StatsOk(own, stats[..])
      ensures empty <==> old(own)[page].busy - {c} <= Below(Reserved(shift))
      ensures shift < EXACT_SHIFT ==> mem[..] != old(mem[..])
    {
      var slot := shift - MIN_SHIFT;
      StatDrop(own, stats[..], page, c, slot);
      empty := Release(page, shift, c);
      stats[slot] := stats[slot].(used := stats[slot].used - 1);
    }

    /** Everything but the protection of the bitmaps. */
    ghost predicate Exposed()
      reads this, nodes, mem
    {
      Mapped() && !AllInUse(own)
    }

    /** A page without live chunks goes back to the free pages. */
    method DropPage(page: nat, shift: nat)
      requires Mapped() && StatsOk(own, stats[..]) && start > 0 && start % PAGE == 0 && start + PAGE * pages <= end
      requires page < pages && own[page].Chunks? && ChunksOk(own[page]) && own[page].shift == shift
      requires own[page].busy == Below(Reserved(shift)) && forall i :: 0 <= i < |own| && i != page ==> InUse(own[i])
      modifies this, nodes, stats
      ensures Valid()
      ensures LiveChange(old(own), own, {}, {})
    {
      var slot := shift - MIN_SHIFT;
      EmptyPageGone(mem[..], own, stats[..], page, slot);
      FreePages(page, 1);
      stats[slot] := stats[slot].(total := stats[slot].total - (ChunkCount(shift) - Reserved(shift)));
    }

    /** ngx_slab_free_locked */
    method FreeBlock(p: nat)
      requires Valid()
      requires start <= p <= end ==> p - start < PAGE * pages
      modifies this, nodes, mem, stats
      ensures if p >= start && AtBitmap(old(own), p - start)
              then Unguarded(old(own), own, p - start) && Exposed() && mem[..] != old(mem[..])
              else if p >= start && IsLive(old(own), p - start)
              then Valid() && LiveChange(old(own), own, {}, {p - start})
              else Valid() && own == old(own) && nodes[..] == old(nodes[..]) && mem[..] == old(mem[..]) && stats[..] == old(stats[..])
    {
      if p < start {
        return;
      }
      ghost var at: nat := p - start;
      PastPages(own, at);
      if p > end {
        return;
      }
      var off := p - start;
      if nodes[off / PAGE].tag != 0 {
        FreeChunk(off);
      } else {
        FreePage(off);
      }
    }

    /** The case NGX_SLAB_PAGE of the switch. */
    method FreePage(off: nat)
      requires Valid() && off < PAGE * pages && nodes[off / PAGE].tag == 0
      modifies this, nodes
      ensures Valid() && !AtBitmap(old(own), off) && mem[..] == old(mem[..]) && stats[..] == old(stats[..])
      ensures if IsLive(old(own), off) then LiveChange(old(own), own, {}, {off})
              else own == old(own) && nodes[..] == old(nodes[..])
    {
      var n := off / PAGE;
      var slab := nodes[n].slab;
      assert Segment(own, n) && Matches(nodes[..], own, n);
      NotChunks(own, off);
      if off % PAGE != 0 {
        return;
      }
      if slab < START {
        return;
      }
      if slab == BUSY {
        return;
      }
      FreeRun(n, slab - START);
    }

    /** The switch of ngx_slab_free_locked, for an offset into a page of chunks. */
    method FreeChunk(off: nat)
      requires Valid() && off < PAGE * pages && nodes[off / PAGE].tag != 0
      modifies this, nodes, mem, stats
      ensures if AtBitmap(old(own), off)
              then Unguarded(old(own), own, off) && Exposed() && mem[..] != old(mem[..])
              else if IsLive(old(own), off)
              then Valid() && LiveChange(old(own), own, {}, {off})
              else Valid() && own == old(own) && nodes[..] == old(nodes[..]) && mem[..] == old(mem[..]) && stats[..] == old(stats[..])
    {
      var n, shift, c, busy := FindChunk(off);
      if busy {
        DropChunk(n, shift, c);
      }
    }

    /** Which chunk of which page is at the offset, and whether its bit is set. */
    method FindChunk(off: nat) returns (n: nat, shift: nat, c: nat, busy: bool)
      requires Valid() && off < PAGE * pages && nodes[off / PAGE].tag != 0
      ensures busy <==> IsLive(own, off) || AtBitmap(own, off)
      ensures busy ==> n == off / PAGE < pages && own[n].Chunks? && ChunksOk(own[n]) && own[n].shift == shift && c in own[n].busy
      ensures busy ==> off == ChunkAt(n, shift, c) && c == Shr(off % PAGE, shift) && (AtBitmap(own, off) <==> c < Reserved(shift))
    {
      n, c, busy := off / PAGE, 0, false;
      assert Segment(own, n) && Matches(nodes[..], own, n) && InUse(own[n]);
      shift := ShiftOf(n);
      Locate(own, off);
      if And(off % PAGE, Pow2(shift) - 1) == 0 {
        c := Shr(off % PAGE, shift);
        busy := ChunkBit(n, shift, c);
        assert c < Reserved(shift) ==> c in Below(Reserved(shift));
      }
    }

    method ShiftOf(n: nat) returns (shift: nat)
      requires n < |own| <= nodes.Length && Matches(nodes[..], own, n) && ChunksOk(own[n]) && nodes[n].tag != 0
      ensures own[n].Chunks? && own[n].shift == shift
    {
      assert Pow2(4) == 16;
      MaskedSmall(own[n].shift, 4);
      if nodes[n].tag == 2 {
        shift := EXACT_SHIFT;
      } else {
        shift := And(nodes[n].slab, SHIFT_MASK);
      }
    }

    /** The bit that says whether a chunk is busy. */
    method ChunkBit(n: nat, shift: nat, c: nat) returns (busy: bool)
      requires n < |own| <= nodes.Length && Matches(nodes[..], own, n) && MapsOk(mem[..], own)
      requires own[n].Chunks? && ChunksOk(own[n]) && own[n].shift == shift && c < ChunkCount(shift)
      ensures busy <==> c in own[n].busy
    {
      if shift < EXACT_SHIFT {
        MapTest(mem[..], own, n, c);
        busy := And(mem[PAGE_WORDS * n + c / 64], Pow2(c % 64)) != 0;
      } else if shift == EXACT_SHIFT {
        TestBit(nodes[n].slab, c);
        busy := And(nodes[n].slab, Pow2(c)) != 0;
      } else {
        HighUpdate(nodes[n].slab, MAP_SHIFT, c, own[n].busy);
        busy := And(nodes[n].slab, Pow2(MAP_SHIFT + c)) != 0;
      }
    }

    method FreeRun(page: nat, n: nat)
      requires Valid() && page < pages && own[page] == Run(page, n)
      modifies this, nodes
      ensures Valid() && mem[..] == old(mem[..]) && stats[..] == old(stats[..])
      ensures LiveChange(old(own), own, {}, {PAGE * page})
    {
      assert Segment(own, page);
      GiveLive(own, page, n);
      StatGive(own, stats[..], page, n, 0);
      GivePages(own, page, n);
      FreePages(page, n);
      assert stats[..] == stats[..][0 := stats[0].(total := stats[0].total - 0)];
      MapsFrame(mem[..], old(own), own);
    }

    // ------------------------------------------------------------ allocating

    /** The size class of a request: the least power of two, at least 8, that holds it. */
    method ClassOf(size: nat) returns (shift: nat)
      requires size <= MAX_SIZE
      ensures IsClass(shift, size)
    {
      assert Pow2(3) == 8 && Pow2(11) == 2048;
      if size > 8 {
        shift := 1;
        var s := (size - 1) / 2;
        ShrStep(size - 1, 0);
        while s != 0
          invariant shift >= 1 && s == Shr(size - 1, shift)
          invariant Pow2(shift - 1) < size
          decreases s
        {
          ShrZero(size - 1, shift);
          shift := shift + 1;
          ShrStep(size - 1, shift - 1);
          s := s / 2;
        }
        ShrZero(size - 1, shift);
        if shift < MIN_SHIFT { Pow2Mono(shift, MIN_SHIFT); }
        if shift > MAX_SHIFT { Pow2Mono(MAX_SHIFT, shift - 1); }
      } else {
        shift := MIN_SHIFT;
      }
    }

    /** The page at the front of the slot list; the list is empty when its head points at itself. */
    method FirstWithRoom(shift: nat) returns (page: int)
      requires Base() && MIN_SHIFT <= shift <= MAX_SHIFT
      ensures page == NULL ==> lists[shift - MIN_SHIFT + 1] == [] && !HasRoom(own, shift)
      ensures page != NULL ==>
                && 0 <= page < pages && own[page].Chunks? && ChunksOk(own[page])
                && own[page].shift == shift && !Full(own[page]) && HasRoom(own, shift)
    {
      ghost var h := shift - MIN_SHIFT + 1;
      SlotFirst(nodes[..], own, lists, 0, 0, h);
      page := nodes[pages + 1 + shift - MIN_SHIFT].next;
      if nodes[page].next == page {
        assert OnList(own, lists, h);
        NoRoom(own, lists, shift);
        page := NULL;
      } else {
        assert Segment(own, page);
      }
    }

    method AllocChunk(shift: nat) returns (p: nat)
      requires Valid() && MIN_SHIFT <= shift <= MAX_SHIFT
      modifies this, nodes, mem, stats
      ensures Valid()
      ensures p == 0 <==> !HasRoom(old(own), shift) && forall i :: 0 <= i < pages ==> !old(own)[i].Free?
      ensures p == 0 ==> own == old(own)
      ensures p != 0 ==> p >= start && LiveChange(old(own), own, {p - start}, {}) && BlockSize(own, p - start) == Pow2(shift)
      ensures var slot := shift - MIN_SHIFT;
              && stats[slot].reqs == old(stats[slot].reqs) + 1
              && stats[slot].fails == old(stats[slot].fails) + (if p == 0 then 1 else 0)
    {
      var slot := shift - MIN_SHIFT;
      stats[slot] := stats[slot].(reqs := stats[slot].reqs + 1);
      StatSame(own, old(stats[..]), stats[..]);
      var page := FirstWithRoom(shift);
      if page != NULL {
        p := FromPage(page, shift);
      } else {
        p := FromFreshPage(shift);
      }
    }

    method FromPage(page: nat, shift: nat) returns (p: nat)
      requires Valid() && page < pages && own[page].Chunks? && ChunksOk(own[page]) && !Full(own[page]) && own[page].shift == shift
      modifies this, nodes, mem, stats
      ensures Valid()
      ensures p >= start > 0 && LiveChange(old(own), own, {p - start}, {}) && BlockSize(own, p - start) == Pow2(shift)
      ensures stats[..] == old(stats[..])[shift - MIN_SHIFT := old(stats[shift - MIN_SHIFT]).(used := old(stats[shift - MIN_SHIFT].used) + 1)]
    {
      ghost var own0 := own;
      var c := Grab(page, shift);
      GrabLive(own0, page, c);
      StatGrab(own0, stats[..], page, c, shift - MIN_SHIFT);
      stats[shift - MIN_SHIFT] := stats[shift - MIN_SHIFT].(used := stats[shift - MIN_SHIFT].used + 1);
      p := start + PAGE * page + Shl(c, shift);
      assert InUse(own[page]) by { BusyBeyond(own0[page], c); }
    }

    method FromFreshPage(shift: nat) returns (p: nat)
      requires Valid() && MIN_SHIFT <= shift <= MAX_SHIFT && lists[shift - MIN_SHIFT + 1] == []
      modifies this, nodes, mem, stats
      ensures Valid()
      ensures p == 0 <==> forall i :: 0 <= i < pages ==> !old(own)[i].Free?
      ensures p == 0 ==> own == old(own)
      ensures p != 0 ==> p >= start && LiveChange(old(own), own, {p - start}, {}) && BlockSize(own, p - start) == Pow2(shift)
      ensures var slot := shift - MIN_SHIFT;
              && stats[slot].reqs == old(stats[slot].reqs)
              && stats[slot].fails == old(stats[slot].fails) + (if p == 0 then 1 else 0)
    {
      ghost var own0 := own;
      var page := AllocPages(1);
      if page == NULL {
        p := 0;
        forall i | 0 <= i < pages ensures !own0[i].Free? { assert !FreeStretch(own0, i, 1); }
        stats[shift - MIN_SHIFT] := stats[shift - MIN_SHIFT].(fails := stats[shift - MIN_SHIFT].fails + 1);
        StatSame(own, old(stats[..]), stats[..]);
      } else {
        FreshLive(own0, page, shift);
        StatTake(own0, stats[..], page, 1);
        MapsFrame(mem[..], own0, own);
        p := CutPage(page, shift);
      }
    }

    method CutPage(page: nat, shift: nat) returns (p: nat)
      requires Mapped() && StatsOk(own, stats[..]) && AllInUse(own)
      requires start > 0 && start % PAGE == 0 && start + PAGE * pages <= end
      requires page < pages && own[page] == Run(page, 1) && MIN_SHIFT <= shift <= MAX_SHIFT && lists[shift - MIN_SHIFT + 1] == []
      modifies this`own, this`lists, nodes, mem, stats
      ensures Valid() && own == old(own)[page := Chunks(shift, Below(Reserved(shift) + 1))]
      ensures p == start + ChunkAt(page, shift, Reserved(shift))
      ensures stats.Length == SLOTS && forall s :: 0 <= s < SLOTS ==>
                stats[s].reqs == old(stats[s].reqs) && stats[s].fails == old(stats[s].fails)
    {
      ghost var own0, stats0 := own, stats[..];
      SomeUsable(shift);
      var c := Open(page, shift);
      CountPage(shift - MIN_SHIFT, ChunkCount(shift) - c);
      p := start + PAGE * page + Shl(c, shift);
      PageCut(own0, stats0, stats[..], page, shift, ChunkCount(shift) - c);
    }

    /** One chunk more in use, of as many more as a page has. */
    method CountPage(slot: nat, chunks: nat)
      requires slot < stats.Length
      modifies stats
      ensures stats[..] == old(stats[..])[slot := old(stats[slot]).(used := old(stats[slot]).used + 1, total := old(stats[slot]).total + chunks)]
    {
      stats[slot] := stats[slot].(used := stats[slot].used + 1, total := stats[slot].total + chunks);
    }

    /** Whenever every block has been freed the pool is as it was created: one free run of all its pages. */
    lemma Drained()
      requires Valid() && LiveSet(own) == {}
      ensures pfree == pages && forall i :: 0 <= i < pages ==> own[i] == SlabOwnership.Free(0, pages)
    {
      NothingLive(own);
    }

    /** ngx_slab_alloc_locked; 0 is NULL. */
    method Alloc(size: nat) returns (p: nat, ghost shift: nat)
      requires Valid()
      modifies this, nodes, mem, stats
      ensures Valid()
      ensures p == 0 ==> own == old(own)
      ensures p != 0 ==> p >= start && LiveChange(old(own), own, {p - start}, {})
      ensures size > MAX_SIZE ==>
                && (p == 0 <==> forall a: nat :: !FreeStretch(old(own), a, PagesFor(size)))
                && (p != 0 ==> BlockSize(own, p - start) == PAGE * PagesFor(size))
      ensures size <= MAX_SIZE ==>
                && IsClass(shift, size)
                && (p == 0 <==> !HasRoom(old(own), shift) && forall i :: 0 <= i < pages ==> !old(own)[i].Free?)
                && (p != 0 ==> BlockSize(own, p - start) == Pow2(shift))
    {
      if size > MAX_SIZE {
        shift := 0;
        p := AllocLarge(PagesFor(size));
      } else {
        var cls := ClassOf(size);
        shift := cls;
        p := AllocChunk(cls);
      }
    }

    method AllocLarge(n: nat) returns (p: nat)
      requires Valid() && n >= 1
      modifies this, nodes
      ensures Valid()
      ensures p == 0 ==> own == old(own)
      ensures p == 0 <==> forall a: nat :: !FreeStretch(old(own), a, n)
      ensures p != 0 ==> p >= start && LiveChange(old(own), own, {p - start}, {}) && BlockSize(own, p - start) == PAGE * n
    {
      ghost var own0 := own;
      var page := AllocPages(n);
      if page != NULL {
        p := start + PAGE * page;
        TakeLive(own0, page, n);
        StatTake(own0, stats[..], page, n);
        MapsFrame(mem[..], own0, own);
      } else {
        p := 0;
      }
    }
  }

  /** Setting the bit of chunk c in the upper half of the word. */
  lemma BigBitSet(w: nat, w': nat, shift: nat, busy: set<nat>, c: nat)
    requires shift > EXACT_SHIFT && SlabWord(w, shift, busy) && w' == Or(w, Pow2(MAP_SHIFT + c))
    ensures SlabWord(w', shift, busy + {c})
  {
    HighUpdate(w, MAP_SHIFT, c, busy);
    LowUntouched(w, MAP_SHIFT, c, 4);
    assert Pow2(4) == 16;
  }

  /** Clearing the bit of chunk c in the word. */
  lemma ExactBitClear(w: nat, w': nat, c: nat, busy: set<nat>)
    requires SlabWord(w, EXACT_SHIFT, busy) && w' == AndNot(w, Pow2(c))
    ensures SlabWord(w', EXACT_SHIFT, busy - {c}) && (w' == 0 <==> busy - {c} == {})
  {
    ClearBit(w, c, busy);
    EncodesZero(w', busy - {c});
  }

  /** Clearing it in the upper half. */
  lemma BigBitClear(w: nat, w': nat, shift: nat, c: nat, busy: set<nat>)
    requires EXACT_SHIFT < shift <= MAX_SHIFT && SlabWord(w, shift, busy) && w' == AndNot(w, Pow2(MAP_SHIFT + c)) && busy <= Below(ChunkCount(shift))
    ensures SlabWord(w', shift, busy - {c}) && (And(w', MAP_MASK) == 0 <==> busy - {c} == {})
  {
    BigClearWord(w, w', shift, c, busy);
    CountInWord(shift);
    MapHalf(w', busy - {c}, ChunkCount(shift));
  }

  lemma BigClearWord(w: nat, w': nat, shift: nat, c: nat, busy: set<nat>)
    requires shift > EXACT_SHIFT && SlabWord(w, shift, busy) && w' == AndNot(w, Pow2(MAP_SHIFT + c))
    ensures SlabWord(w', shift, busy - {c})
  {
    HighUpdate(w, MAP_SHIFT, c, busy);
    LowUntouched(w, MAP_SHIFT, c, 4);
    assert Pow2(4) == 16;
  }

  /** The test whether all bits are set. */
  lemma BigFull(w: nat, shift: nat, busy: set<nat>, count: nat)
    requires EXACT_SHIFT < shift <= MAX_SHIFT && SlabWord(w, shift, busy) && count == ChunkCount(shift) && busy <= Below(count)
    ensures And(w, MAP_MASK) == Shl(Pow2(count) - 1, MAP_SHIFT) <==> busy == Below(count)
  {
    CountInWord(shift);
    MapHalf(w, busy, count);
  }

  /** The counters and the pages after a page has been cut. */
  lemma PageCut(own: seq<Own>, stats: seq<Stat>, stats': seq<Stat>, page: nat, shift: nat, chunks: nat)
    requires StatsOk(own, stats) && AllInUse(own) && page < |own| && !own[page].Chunks? && MIN_SHIFT <= shift <= MAX_SHIFT
    requires chunks == ChunkCount(shift) - Reserved(shift)
    requires var s := shift - MIN_SHIFT; stats' == stats[s := stats[s].(used := stats[s].used + 1, total := stats[s].total + chunks)]
    ensures var own' := own[page := Chunks(shift, Below(Reserved(shift) + 1))]; StatsOk(own', stats') && AllInUse(own')
    ensures |stats'| == SLOTS && forall s :: 0 <= s < SLOTS ==> stats'[s].reqs == stats[s].reqs && stats'[s].fails == stats[s].fails
  {
    StatOpen(own, stats, page, shift - MIN_SHIFT);
    FreshInUse(own, page, shift);
  }

  /** What the words of a page's bitmap tell: the first beyond the bitmap's own bits, and all others. */
  lemma EmptyTest(mem: seq<nat>, own: seq<Own>, page: nat)
    requires MapsOk(mem, own) && page < |own| && own[page].Chunks? && ChunksOk(own[page]) && own[page].shift < EXACT_SHIFT
    ensures PAGE_WORDS * page < |mem|
    ensures var shift, busy := own[page].shift, own[page].busy;
            busy <= Below(Reserved(shift)) <==>
              AndNot(mem[PAGE_WORDS * page], Pow2(Reserved(shift)) - 1) == 0
              && forall w :: 1 <= w < MapWords(shift) ==> WordBits(busy, w) == {}
  {
    var shift, busy := own[page].shift, own[page].busy;
    MapSize(shift);
    ReservedInWord(shift);
    EmptyByWords(busy, MapWords(shift), Reserved(shift));
    WordFull(mem, own, page, 0);
    AboveMask(mem[PAGE_WORDS * page], Reserved(shift), WordBits(busy, 0));
  }

  /** Nothing is at an offset past the pages. */
  lemma PastPages(own: seq<Own>, off: nat)
    ensures off >= PAGE * |own| ==> !AtBitmap(own, off) && !IsLive(own, off)
    ensures off < PAGE * |own| ==> off / PAGE < |own|
  {
  }

  /** `off` is the aligned start of one of the chunks that hold a page's own bitmap. */
  ghost predicate AtBitmap(own: seq<Own>, off: nat) {
    var i := off / PAGE;
    && i < |own| && own[i].Chunks? && ChunksOk(own[i])
    && And(off % PAGE, Pow2(own[i].shift) - 1) == 0 && Shr(off % PAGE, own[i].shift) < Reserved(own[i].shift)
  }

  lemma NotChunks(own: seq<Own>, off: nat)
    requires off / PAGE < |own| && !own[off / PAGE].Chunks?
    ensures !AtBitmap(own, off) && (IsLive(own, off) <==> own[off / PAGE].Run? && off == PAGE * own[off / PAGE].start)
  {
  }

  /** That chunk is no longer marked busy, and nothing else has changed. */
  ghost predicate Unguarded(own: seq<Own>, own': seq<Own>, off: nat)
    requires AtBitmap(own, off)
  {
    var i := off / PAGE;
    var c := Shr(off % PAGE, own[i].shift);
    c in own[i].busy && own' == own[i := Chunks(own[i].shift, own[i].busy - {c})] && !Guarded(own'[i])
  }

  /** Every page of small chunks begins with such a chunk. */
  lemma BitmapFirst(own: seq<Own>, page: nat)
    requires page < |own| && own[page].Chunks? && ChunksOk(own[page]) && own[page].shift < EXACT_SHIFT
    ensures AtBitmap(own, PAGE * page) && !IsLive(own, PAGE * page)
  {
    var shift := own[page].shift;
    ReservedFacts(shift);
    ChunkBounds(page, shift, 0);
    LiveHere(own, page, 0);
    ShlZero(shift);
  }

  /** What becomes of the pages when chunk c is no longer busy. */
  lemma StillInUse(own: seq<Own>, own': seq<Own>, page: nat, c: nat)
    requires Partition(own) && AllInUse(own) && page < |own| && own[page].Chunks? && ChunksOk(own[page]) && c in own[page].busy
    requires own' == own[page := Chunks(own[page].shift, own[page].busy - {c})]
    ensures Reserved(own[page].shift) <= c ==>
              && LiveChange(own, own', {}, {ChunkAt(page, own[page].shift, c)}) && Guarded(own'[page])
              && (AllInUse(own') <==> !(own'[page].busy <= Below(Reserved(own[page].shift))))
    ensures c < Reserved(own[page].shift) ==>
              !Guarded(own'[page]) && !AllInUse(own') && !(own'[page].busy <= Below(Reserved(own[page].shift)))
    ensures forall i :: 0 <= i < |own| && i != page ==> InUse(own'[i])
  {
    var r := Below(Reserved(own[page].shift));
    assert InUse(own[page]);
    var d :| d in own[page].busy && d !in r;
    if Reserved(own[page].shift) <= c {
      DropLive(own, page, c);
      assert c !in r;
    } else {
      assert c in r && c !in own'[page].busy && d in own'[page].busy;
      assert !InUse(own'[page]);
    }
  }

  /** What becomes of the rest of the state when a page without live chunks becomes free. */
  lemma EmptyPageGone(mem: seq<nat>, own: seq<Own>, stats: seq<Stat>, p: nat, s: nat)
    requires Partition(own) && p < |own| && own[p].Chunks? && ChunksOk(own[p]) && own[p].busy == Below(Reserved(own[p].shift))
    requires s < SLOTS && own[p].shift == s + MIN_SHIFT && StatsOk(own, stats) && MapsOk(mem, own)
    requires forall i :: 0 <= i < |own| && i != p ==> InUse(own[i])
    ensures Holds(own, p, 1) && LiveChange(own, Give(own, p, 1), {}, {})
    ensures AllInUse(Give(own, p, 1)) && MapsOk(mem, Give(own, p, 1))
    ensures var d := ChunkCount(s + MIN_SHIFT) - Reserved(s + MIN_SHIFT);
            0 <= d <= stats[s].total && StatsOk(Give(own, p, 1), stats[s := stats[s].(total := stats[s].total - d)])
  {
    assert Segment(own, p);
    GiveLive(own, p, 1);
    StatGive(own, stats, p, 1, s);
    GiveInUse(mem, own, p);
  }

  lemma LiveThen(own: seq<Own>, own1: seq<Own>, own2: seq<Own>, lost: set<nat>)
    requires LiveChange(own, own1, {}, lost) && LiveChange(own1, own2, {}, {})
    ensures LiveChange(own, own2, {}, lost)
  {
  }
}
