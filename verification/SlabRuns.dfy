/**
 The steps of ngx_slab_alloc_pages and ngx_slab_free_pages, as changes of the page table.
 */
module SlabRuns {
  import opened Words
  import opened SlabRings
  import opened SlabOwnership
  import opened SlabTable

  // ---------------------------------------------------------------- taking a run

  lemma FitsSomewhere(own: seq<Own>, page: nat, n: nat)
    requires Partition(own) && page < |own| && own[page].Free? && own[page].start == page && own[page].len >= n
    ensures FreeStretch(own, page, n)
  {
    assert Segment(own, page);
  }

  /** First fit gives up only when no n consecutive pages are free. */
  lemma NothingFits(own: seq<Own>, lists: seq<seq<nat>>, n: nat)
    requires Partition(own) && Coalesced(own) && |lists| == LISTS && OnList(own, lists, 0) && n >= 1
    requires forall j :: 0 <= j < |lists[0]| ==> lists[0][j] < |own| && own[lists[0][j]].Free? && own[lists[0][j]].len < n
    ensures forall a: nat :: !FreeStretch(own, a, n)
  {
    forall s: nat | s < |own| && own[s].Free? && own[s].start == s ensures own[s].len < n {
      assert Home(own, s) == 0;
      assert s in lists[0];
    }
    forall a: nat ensures !FreeStretch(own, a, n) {
      if FreeStretch(own, a, n) { StretchInOneRun(own, a, n); }
    }
  }

  /** A member of the free list starts a free run and its record gives the length. */
  lemma FreeMember(ns: seq<Node>, own: seq<Own>, lists: seq<seq<nat>>, lo: nat, hi: nat, k: nat)
    requires Shape(ns, own, lists, lo, hi) && k < |lists[0]|
    ensures var p := lists[0][k];
            && p < |own| && own[p].Free? && own[p].start == p
            && 1 <= own[p].len && p + own[p].len <= |own|
            && (!(lo <= p < hi) ==> ns[p].slab == own[p].len)
            && ns[p].tag == 0
            && ns[p].next == (if k + 1 < |lists[0]| then lists[0][k + 1] else |own|)
            && p != ns[p].next && p != ns[p].prev
            && 0 <= ns[p].next < |ns| && 0 <= ns[p].prev < |ns|
            && (ns[p].next < |own| ==> Home(own, ns[p].next) == 0)
            && (ns[p].prev < |own| ==> Home(own, ns[p].prev) == 0)
  {
    var p := lists[0][k];
    assert OnList(own, lists, 0) && HasRing(ns, own, lists, 0);
    assert p in lists[0];
    NeighbourHomes(ns, own, lists, 0, k);
    RingNeighbours(ns, |own|, lists[0], 0, k);
    assert Segment(own, p);
    if !(lo <= p < hi) { assert Matches(ns, own, p); }
  }

  lemma FindMember(ns: seq<Node>, own: seq<Own>, lists: seq<seq<nat>>, lo: nat, hi: nat, h: nat, p: nat) returns (k: nat)
    requires Shape(ns, own, lists, lo, hi) && h < LISTS && p < |own| && Home(own, p) == h
    ensures k < |lists[h]| && lists[h][k] == p
  {
    assert OnList(own, lists, h);
    assert p in lists[h];
    k :| 0 <= k < |lists[h]| && lists[h][k] == p;
  }

  /** After the records of an allocated run have been written nothing is left open. */
  lemma TakeShape(ns: seq<Node>, ns': seq<Node>, own: seq<Own>, lists: seq<seq<nat>>, page: nat, n: nat, end: nat)
    requires Shape(ns, own, lists, page, end) && page + n <= end <= |own| && n >= 1
    requires forall i :: page <= i < page + n ==> own[i] == Run(page, n)
    requires forall i :: page + n <= i < end ==> Matches(ns, own, i)
    requires |ns'| == |ns|
    requires forall i :: 0 <= i < |ns| && !(page <= i < page + n) ==> ns'[i] == ns[i]
    requires forall i :: page <= i < page + n ==> ns'[i] == Node(if i == page then START + n else BUSY, NULL, NULL, 0)
    ensures Shape(ns', own, lists, 0, 0)
  {
    TouchShape(ns, ns', own, lists, page, end);
    forall i | page <= i < end ensures Matches(ns', own, i) {
      if page + n <= i { assert Matches(ns, own, i); }
    }
    CloseHole(ns', own, lists, page, end);
  }

  /** A run used up whole leaves the free list. */
  lemma DropShape(ns: seq<Node>, ns': seq<Node>, own: seq<Own>, lists: seq<seq<nat>>, page: nat, n: nat, k: nat)
    requires Shape(ns, own, lists, 0, 0) && k < |lists[0]| && lists[0][k] == page < |own| && n >= 1
    requires own[page].Free? && own[page].start == page && own[page].len == n
    requires Unlinked(ns, ns', page)
    ensures Shape(ns', Take(own, page, n), lists[0 := WithoutAt(lists[0], k)], page, page + n)
  {
    TakeKeeps(own, page, n);
    WidenHole(ns, own, lists, page, page + n);
    UnlinkShape(ns, ns', own, Take(own, page, n), lists, page, page + n, page, page + n, 0, k);
  }

  /** The remainder of a split run replaces it on the free list. */
  lemma SplitShape(ns0: seq<Node>, ns1: seq<Node>, ns2: seq<Node>, own: seq<Own>, lists: seq<seq<nat>>,
                   page: nat, n: nat, k: nat)
    requires Shape(ns0, own, lists, 0, 0) && k < |lists[0]| && lists[0][k] == page < |own| && n >= 1
    requires own[page].Free? && own[page].start == page && n < own[page].len && page + own[page].len <= |own|
    requires ns1 == ns0[page + own[page].len - 1 := ns0[page + own[page].len - 1].(prev := page + n, tag := 0)]
    requires Replaced(ns1, ns2, page, page + n)
    requires forall i :: 0 <= i < |ns0| && i != page + n ==> ns2[i].slab == ns0[i].slab
    requires ns2[page + n].slab == own[page].len - n
    ensures Shape(ns2, Take(own, page, n), lists[0 := With(lists[0], k, page + n)], page, page + own[page].len)
    ensures forall i :: page + n <= i < page + own[page].len ==> Matches(ns2, Take(own, page, n), i)
  {
    var own', end := Take(own, page, n), page + own[page].len;
    TakeKeeps(own, page, n);
    WidenHole(ns0, own, lists, page, end);
    assert Matches(ns0, own, end - 1);
    TouchShape(ns0, ns1, own, lists, page, end);
    ReplaceShape(ns1, ns2, own, own', lists, page, end, k, page + n);
    FreeMember(ns1, own, lists, page, end, k);
    forall i | page + n <= i < end ensures Matches(ns2, own', i) {
      assert Matches(ns0, own, i);
    }
  }

  // ---------------------------------------------------------------- giving a run back

  /** [lo, lo + len) is off every list and its records are blank but for the length. */
  ghost predicate Limbo(ns: seq<Node>, own: seq<Own>, lists: seq<seq<nat>>, lo: nat, len: nat) {
    && Shape(ns, own, lists, lo, lo + len)
    && Holds(own, lo, len) && own[lo].Run?
    && ns[lo].slab == len
    && forall i :: lo < i < lo + len ==> ns[i].slab == 0 && ns[i].next == NULL && ns[i].tag == 0
  }

  /** A page whose `next` is NULL is on no list. */
  lemma LinklessIsHomeless(ns: seq<Node>, own: seq<Own>, lists: seq<seq<nat>>, lo: nat, hi: nat, p: nat)
    requires Shape(ns, own, lists, lo, hi) && p < |own|
    ensures ns[p].next == NULL ==> Home(own, p) == -1
    ensures Home(own, p) == -1 || 0 <= Home(own, p) < LISTS
  {
    assert Segment(own, p);
    if Home(own, p) != -1 {
      var h := Home(own, p);
      var k := FindMember(ns, own, lists, lo, hi, h, p);
      assert HasRing(ns, own, lists, h);
      RingNeighbours(ns, |own| + h, lists[h], ListTag(h), k);
    }
  }

  /** Repainting pages without moving any of them to another list. */
  lemma RepaintShape(ns: seq<Node>, own: seq<Own>, own': seq<Own>, lists: seq<seq<nat>>, lo: nat, hi: nat)
    requires Shape(ns, own, lists, lo, hi) && Partition(own') && Coalesced(own') && OnlyInside(own, own', lo, hi)
    requires forall i :: lo <= i < hi ==> Home(own, i) == Home(own', i)
    ensures Shape(ns, own', lists, lo, hi)
  {
    forall g | 0 <= g < LISTS ensures OnList(own', lists, g) && HasRing(ns, own', lists, g) {
      assert OnList(own, lists, g) && HasRing(ns, own, lists, g);
      forall x: nat ensures x in lists[g] <==> x < |own'| && Home(own', x) == g {
        if x < |own| && !(lo <= x < hi) { assert Home(own', x) == Home(own, x); }
      }
    }
    forall i | 0 <= i < |own'| && !(lo <= i < hi) ensures Matches(ns, own', i) {
      assert Matches(ns, own, i) && Home(own', i) == Home(own, i);
    }
  }

  /** Blanking a page's segment, before it is unlinked. */
  lemma BlankShape(ns: seq<Node>, ns': seq<Node>, own: seq<Own>, lists: seq<seq<nat>>, page: nat, n: nat)
    requires Shape(ns, own, lists, 0, 0) && Holds(own, page, n)
    requires |ns'| == |ns|
    requires forall j :: 0 <= j < |ns| && !(page <= j < page + n) ==> ns'[j] == ns[j]
    requires ns'[page] == ns[page].(slab := n)
    ensures Shape(ns', own, lists, page, page + n)
    ensures forall i :: page < i < page + n ==> Home(own, i) == -1
  {
    assert Segment(own, page);
    WidenHole(ns, own, lists, page, page + n);
    TouchShape(ns, ns', own, lists, page, page + n);
  }

  /** The segment is on no list: it only changes owner. */
  lemma DetachUnlisted(ns: seq<Node>, own: seq<Own>, lists: seq<seq<nat>>, page: nat, n: nat)
    requires Shape(ns, own, lists, page, page + n) && Holds(own, page, n) && ns[page].next == NULL
    requires forall i :: page < i < page + n ==> Home(own, i) == -1
    ensures Shape(ns, Paint(own, page, page + n, Run(page, n)), lists, page, page + n)
  {
    LinklessIsHomeless(ns, own, lists, page, page + n, page);
    HoldKeeps(own, page, n);
    RepaintShape(ns, own, Paint(own, page, page + n, Run(page, n)), lists, page, page + n);
  }

  /** The segment is a page of chunks on its slot list. */
  lemma DetachListed(ns: seq<Node>, ns': seq<Node>, own: seq<Own>, lists: seq<seq<nat>>, page: nat, n: nat, h: nat, k: nat)
    requires Shape(ns, own, lists, page, page + n) && Holds(own, page, n)
    requires h < LISTS && k < |lists[h]| && lists[h][k] == page && Unlinked(ns, ns', page)
    requires forall i :: page < i < page + n ==> Home(own, i) == -1
    ensures Shape(ns', Paint(own, page, page + n, Run(page, n)), lists[h := WithoutAt(lists[h], k)], page, page + n)
  {
    HoldKeeps(own, page, n);
    UnlinkShape(ns, ns', own, Paint(own, page, page + n, Run(page, n)), lists, page, page + n, page, page + n, h, k);
  }

  /** What the record after a segment in limbo tells. */
  lemma NextRecord(ns: seq<Node>, own: seq<Own>, lists: seq<seq<nat>>, page: nat, len: nat)
    requires Limbo(ns, own, lists, page, len) && page + len < |own|
    ensures var join := page + len;
            && (own[join].Free? <==> ns[join].tag == 0 && ns[join].next != NULL)
            && (own[join].Free? ==>
                  && ns[join].slab == own[join].len && own[join].start == join
                  && join + own[join].len <= |own|
                  && (join + own[join].len < |own| ==> !own[join + own[join].len].Free?))
  {
    var join := page + len;
    assert Segment(own, page) && Segment(own, join) && Matches(ns, own, join);
    if own[join].Free? {
      AbsorbNextKeeps(own, page, len);
      var k := FindMember(ns, own, lists, page, page + len, 0, join);
      FreeMember(ns, own, lists, page, page + len, k);
    }
  }

  /** Inside a free run only its first page is on a list, and the others are blank. */
  lemma InsideRun(ns: seq<Node>, own: seq<Own>, lists: seq<seq<nat>>, lo: nat, hi: nat, p: nat)
    requires Shape(ns, own, lists, lo, hi) && p < |own| && own[p].Free? && own[p].start == p
    requires p + own[p].len <= lo || hi <= p
    ensures p + own[p].len <= |own|
    ensures forall i :: p < i < p + own[p].len ==>
              Home(own, i) == -1 && ns[i].slab == 0 && ns[i].next == NULL && ns[i].tag == 0
    ensures p + own[p].len < |own| && own[p].len > 1 ==> ns[p + own[p].len - 1].prev == p
  {
    assert Segment(own, p);
    forall i | p < i < p + own[p].len
      ensures Home(own, i) == -1 && ns[i].slab == 0 && ns[i].next == NULL && ns[i].tag == 0
      ensures i + 1 == p + own[p].len < |own| ==> ns[i].prev == p
    {
      assert own[i] == own[p];
      assert Matches(ns, own, i);
    }
  }

  /** The free run after the segment joins it. */
  lemma JoinNextShape(ns0: seq<Node>, ns1: seq<Node>, ns2: seq<Node>, ns3: seq<Node>, own: seq<Own>,
                      lists: seq<seq<nat>>, page: nat, len: nat, total: nat, k: nat)
    requires Limbo(ns0, own, lists, page, len) && page + len < |own| && own[page + len].Free?
    requires total == len + own[page + len].len && page + total <= |own|
    requires k < |lists[0]| && lists[0][k] == page + len
    requires ns1 == ns0[page := ns0[page].(slab := total)]
    requires Unlinked(ns1, ns2, page + len)
    requires ns3 == ns2[page + len := Node(0, NULL, NULL, 0)]
    ensures Limbo(ns3, Paint(own, page, page + total, Run(page, total)), lists[0 := WithoutAt(lists[0], k)], page, total)
  {
    var join, end := page + len, page + total;
    AbsorbNextKeeps(own, page, len);
    var own', lists' := Paint(own, page, end, Run(page, total)), lists[0 := WithoutAt(lists[0], k)];
    assert Segment(own, page);
    InsideRun(ns0, own, lists, page, join, join);
    forall i | page <= i < end ensures Home(own', i) == -1 && (Home(own, i) != -1 ==> i == join) {
      if i < join { assert own[i] == own[page]; }
    }
    TouchShape(ns0, ns1, own, lists, page, join);
    UnlinkShape(ns1, ns2, own, own', lists, page, join, page, end, 0, k);
    TouchShape(ns2, ns3, own', lists', page, end);
    assert ns3[page].slab == total;
    forall i | page < i < end ensures ns3[i].slab == 0 && ns3[i].next == NULL && ns3[i].tag == 0 {
      if i != join {
        UnlinkSpares(ns1, ns2, own, lists, page, join, k, i);
      }
    }
  }

  /** A page on no list is untouched when another leaves the free list. */
  lemma UnlinkSpares(ns: seq<Node>, ns': seq<Node>, own: seq<Own>, lists: seq<seq<nat>>, lo: nat, hi: nat, k: nat, i: nat)
    requires Shape(ns, own, lists, lo, hi) && k < |lists[0]| && Unlinked(ns, ns', lists[0][k])
    requires i < |own| && Home(own, i) == -1
    ensures ns'[i] == ns[i]
  {
    FreeMember(ns, own, lists, lo, hi, k);
  }

  /** The free run before the segment joins it. */
  lemma JoinPrevShape(ns0: seq<Node>, ns1: seq<Node>, ns2: seq<Node>, own: seq<Own>,
                      lists: seq<seq<nat>>, page: nat, len: nat, join: nat, total: nat, k: nat)
    requires Limbo(ns0, own, lists, page, len) && page > 0 && own[page - 1].Free? && join == own[page - 1].start < page
    requires join + total == page + len
    requires k < |lists[0]| && lists[0][k] == join
    requires Unlinked(ns0, ns1, join)
    requires ns2 == ns1[join := ns1[join].(slab := ns0[join].slab + ns0[page].slab)][page := Node(0, NULL, NULL, 0)]
    ensures Limbo(ns2, Paint(own, join, join + total, Run(join, total)), lists[0 := WithoutAt(lists[0], k)], join, total)
  {
    var end := join + total;
    var own', lists' := Paint(own, join, end, Run(join, total)), lists[0 := WithoutAt(lists[0], k)];
    JoinPrevUnlink(ns0, ns1, own, lists, page, len, join, total, k);
    AbsorbPrevKeeps(own, page, len);
    assert Segment(own, page);
    InsideRun(ns0, own, lists, page, end, join);
    FreeMember(ns0, own, lists, page, end, k);
    TouchShape(ns1, ns2, own', lists', join, end);
    forall i | join < i < end ensures ns2[i].slab == 0 && ns2[i].next == NULL && ns2[i].tag == 0 {
      if i != page {
        UnlinkSpares(ns0, ns1, own, lists, page, end, k, i);
      }
    }
  }

  /** The free run before it leaves its list. */
  lemma JoinPrevUnlink(ns0: seq<Node>, ns1: seq<Node>, own: seq<Own>, lists: seq<seq<nat>>, page: nat, len: nat, join: nat, total: nat, k: nat)
    requires Limbo(ns0, own, lists, page, len) && page > 0 && own[page - 1].Free? && join == own[page - 1].start < page
    requires join + total == page + len && k < |lists[0]| && lists[0][k] == join && Unlinked(ns0, ns1, join)
    ensures Shape(ns1, Paint(own, join, join + total, Run(join, total)), lists[0 := WithoutAt(lists[0], k)], join, join + total)
  {
    var end := join + total;
    AbsorbPrevKeeps(own, page, len);
    var own' := Paint(own, join, end, Run(join, total));
    assert Segment(own, page);
    InsideRun(ns0, own, lists, page, end, join);
    forall i | join <= i < end ensures Home(own', i) == -1 && (Home(own, i) != -1 ==> i == join) {
      if i > page { assert own[i] == own[page]; }
    }
    UnlinkShape(ns0, ns1, own, own', lists, page, end, join, end, 0, k);
  }

  /** What the record before a segment in limbo tells. */
  lemma PrevRecord(ns: seq<Node>, own: seq<Own>, lists: seq<seq<nat>>, page: nat, len: nat)
    requires Limbo(ns, own, lists, page, len) && page > 0
    ensures ns[page - 1].tag != 0 ==> !own[page - 1].Free?
    ensures ns[page - 1].tag == 0 && ns[page - 1].slab == 0 ==>
              own[page - 1].Free? && ns[page - 1].prev == own[page - 1].start
    ensures ns[page - 1].tag == 0 && ns[page - 1].slab != 0 ==>
              if own[page - 1].Free? then own[page - 1].start == page - 1 else ns[page - 1].next == NULL
    ensures own[page - 1].Free? ==>
              && own[page - 1].start < page && own[own[page - 1].start] == own[page - 1]
              && (own[page - 1].start > 0 ==> !own[own[page - 1].start - 1].Free?)
              && ns[own[page - 1].start].next != NULL
              && ns[own[page - 1].start].slab == page - own[page - 1].start
  {
    assert Segment(own, page) && Segment(own, page - 1) && Matches(ns, own, page - 1);
    if own[page - 1].Free? {
      AbsorbPrevKeeps(own, page, len);
      var k := FindMember(ns, own, lists, page, page + len, 0, own[page - 1].start);
      FreeMember(ns, own, lists, page, page + len, k);
      InsideRun(ns, own, lists, page, page + len, own[page - 1].start);
    }
  }

  /** The joined segment goes to the front of the free list. */
  lemma SettlePush(ns0: seq<Node>, ns1: seq<Node>, ns2: seq<Node>, own: seq<Own>, lists: seq<seq<nat>>, start: nat, len: nat)
    requires Limbo(ns0, own, lists, start, len)
    requires start > 0 ==> !own[start - 1].Free?
    requires start + len < |own| ==> !own[start + len].Free?
    requires ns1 == if len == 1 then ns0 else ns0[start + len - 1 := ns0[start + len - 1].(prev := start, tag := 0)]
    requires Pushed(ns1, ns2, |own|, start, 0)
    ensures Shape(ns2, Paint(own, start, start + len, Free(start, len)), lists[0 := [start] + lists[0]], start, start + len)
  {
    var end := start + len;
    SettleKeeps(own, start, len);
    var own' := Paint(own, start, end, Free(start, len));
    assert Segment(own, start);
    TouchShape(ns0, ns1, own, lists, start, end);
    PushShape(ns1, ns2, own, own', lists, start, end, 0, start);
  }

  lemma SettleShape(ns0: seq<Node>, ns1: seq<Node>, ns2: seq<Node>, own: seq<Own>, lists: seq<seq<nat>>, start: nat, len: nat)
    requires Limbo(ns0, own, lists, start, len)
    requires start > 0 ==> !own[start - 1].Free?
    requires start + len < |own| ==> !own[start + len].Free?
    requires ns1 == if len == 1 then ns0 else ns0[start + len - 1 := ns0[start + len - 1].(prev := start, tag := 0)]
    requires Pushed(ns1, ns2, |own|, start, 0)
    ensures Shape(ns2, Paint(own, start, start + len, Free(start, len)), lists[0 := [start] + lists[0]], 0, 0)
  {
    var end := start + len;
    SettlePush(ns0, ns1, ns2, own, lists, start, len);
    SettleKeeps(own, start, len);
    var own', lists' := Paint(own, start, end, Free(start, len)), lists[0 := [start] + lists[0]];
    assert Segment(own, start);
    TouchShape(ns0, ns1, own, lists, start, end);
    HeadLink(ns1, own, lists, start, end);
    forall i | start <= i < end ensures Matches(ns2, own', i) {
      assert own[i] == own[start] && Home(own, i) == -1;
    }
    CloseHole(ns2, own', lists', start, end);
  }

  /** The head of the free list points at itself or at a free run. */
  lemma HeadLink(ns: seq<Node>, own: seq<Own>, lists: seq<seq<nat>>, lo: nat, hi: nat)
    requires Shape(ns, own, lists, lo, hi)
    ensures 0 <= ns[|own|].next <= |own|
    ensures ns[|own|].next < |own| ==> Home(own, ns[|own|].next) == 0
  {
    assert HasRing(ns, own, lists, 0) && OnList(own, lists, 0);
    if |lists[0]| > 0 { assert lists[0][0] in lists[0]; }
  }
}
