/**
 What a slab pool has handed out, page by page, without any of the records that encode it.

 Every page belongs to a free run, to a multi-page allocation or is cut into chunks of one
 size class.  Offsets are byte distances from `pool->start`.
 */
module SlabOwnership {
  import opened Words

  const PAGE: nat := 4096
  const PAGE_SHIFT: nat := 12
  const MIN_SHIFT: nat := 3
  const MAX_SHIFT: nat := 11
  const EXACT_SHIFT: nat := 6

  datatype Own =
    | Free(start: nat, len: nat)
    | Run(start: nat, len: nat)
    | Chunks(shift: nat, busy: set<nat>)

  // ---------------------------------------------------------------- size classes

  /** pagesize >> shift */
  function ChunkCount(shift: nat): (n: nat)
    requires MIN_SHIFT <= shift <= MAX_SHIFT
    ensures 2 <= n <= 512
    ensures n == Pow2(PAGE_SHIFT - shift)
  {
    PowersSmall(PAGE_SHIFT - shift);
    Pow2(PAGE_SHIFT - shift)
  }

  lemma PowersSmall(k: nat)
    requires 1 <= k <= 9
    ensures 2 <= Pow2(k) <= 512
  {
    assert Pow2(1) == 2 && Pow2(2) == 4 && Pow2(3) == 8 && Pow2(4) == 16 && Pow2(5) == 32 && Pow2(6) == 64;
    assert Pow2(7) == 128 && Pow2(8) == 256 && Pow2(9) == 512;
  }

  /** Bitmap words kept at the start of a page of small chunks. */
  function MapWords(shift: nat): nat
    requires MIN_SHIFT <= shift <= MAX_SHIFT
  {
    ChunkCount(shift) / WORD_BITS
  }

  /** a / b */
  function Over(a: nat, b: nat): nat
    requires b > 0
  {
    if a < b then 0 else 1 + Over(a - b, b)
  }

  lemma {:induction false} OverIsDivision(a: nat, b: nat)
    requires b > 0
    ensures b * Over(a, b) <= a < b * (Over(a, b) + 1)
  {
    if a >= b { OverIsDivision(a - b, b); }
  }

  /** Chunks given up to that bitmap. */
  function Reserved(shift: nat): nat
    requires MIN_SHIFT <= shift <= MAX_SHIFT
  {
    if shift < EXACT_SHIFT then
      var n := Over(ChunkCount(shift), 8 * Pow2(shift));
      if n == 0 then 1 else n
    else 0
  }

  /** The reserved chunks hold the bitmap and leave room for allocations. */
  lemma ReservedFacts(shift: nat)
    requires MIN_SHIFT <= shift <= MAX_SHIFT
    ensures shift < EXACT_SHIFT ==> 8 * MapWords(shift) <= Shl(Reserved(shift), shift)
    ensures shift < EXACT_SHIFT ==> 1 <= Reserved(shift) <= 8 && MapWords(shift) >= 2
    ensures shift < EXACT_SHIFT ==> ChunkCount(shift) == 64 * MapWords(shift)
    ensures shift == EXACT_SHIFT ==> ChunkCount(shift) == 64
    ensures shift > EXACT_SHIFT ==> ChunkCount(shift) <= 32
    ensures Reserved(shift) + 1 < ChunkCount(shift) || (shift == MAX_SHIFT && Reserved(shift) == 0 && ChunkCount(shift) == 2)
    ensures 8 <= Pow2(shift) <= 2048
  {
    ChunkCounts(shift);
    ReservedValues(shift);
    ReservedBytes(shift, Reserved(shift));
  }

  lemma ChunkCounts(shift: nat)
    requires MIN_SHIFT <= shift <= MAX_SHIFT
    ensures shift == 3 ==> ChunkCount(shift) == 512 && Pow2(shift) == 8
    ensures shift == 4 ==> ChunkCount(shift) == 256 && Pow2(shift) == 16
    ensures shift == 5 ==> ChunkCount(shift) == 128 && Pow2(shift) == 32
    ensures shift == 6 ==> ChunkCount(shift) == 64
    ensures shift == 11 ==> ChunkCount(shift) == 2
    ensures 7 <= shift < 11 ==> 4 <= ChunkCount(shift) <= 32
    ensures 8 <= Pow2(shift) <= 2048
  {
    assert Pow2(1) == 2 && Pow2(2) == 4 && Pow2(3) == 8 && Pow2(4) == 16 && Pow2(5) == 32 && Pow2(6) == 64;
    assert Pow2(7) == 128 && Pow2(8) == 256 && Pow2(9) == 512 && Pow2(10) == 1024 && Pow2(11) == 2048;
  }

  lemma ReservedValues(shift: nat)
    requires MIN_SHIFT <= shift <= MAX_SHIFT
    ensures Reserved(shift) == if shift == 3 then 8 else if shift == 4 then 2 else if shift == 5 then 1 else 0
  {
    ChunkCounts(shift);
    assert Over(512, 64) == 8 && Over(256, 128) == 2 && Over(128, 256) == 0;
  }

  lemma ReservedBytes(shift: nat, reserved: nat)
    requires reserved == if shift == 3 then 8 else if shift == 4 then 2 else if shift == 5 then 1 else 0
    ensures shift == 3 ==> Shl(reserved, shift) == 64
    ensures 4 <= shift <= 5 ==> Shl(reserved, shift) == 32
  {
    assert Shl(8, 3) == 64 && Shl(2, 4) == 32 && Shl(1, 5) == 32;
  }

  /** The number of chunks whose bits fit into a word, or into half of one. */
  lemma CountInWord(shift: nat)
    requires EXACT_SHIFT <= shift <= MAX_SHIFT
    ensures ChunkCount(EXACT_SHIFT) == 64 && (shift > EXACT_SHIFT ==> ChunkCount(shift) <= 32) && Reserved(shift) == 0
  {
    ReservedFacts(shift);
    ReservedFacts(EXACT_SHIFT);
  }

  lemma ReservedInWord(shift: nat)
    requires MIN_SHIFT <= shift <= MAX_SHIFT
    ensures Reserved(shift) <= 8
  {
    ReservedFacts(shift);
  }

  lemma SomeUsable(shift: nat)
    requires MIN_SHIFT <= shift <= MAX_SHIFT
    ensures Reserved(shift) < ChunkCount(shift)
  {
    ReservedFacts(shift);
  }

  ghost predicate ChunksOk(o: Own) {
    o.Chunks? ==>
      && MIN_SHIFT <= o.shift <= MAX_SHIFT
      && o.busy <= Below(ChunkCount(o.shift))
  }

  /** The chunks that hold a page's own bitmap are marked busy. */
  ghost predicate Guarded(o: Own) {
    o.Chunks? && ChunksOk(o) ==> Below(Reserved(o.shift)) <= o.busy
  }

  ghost predicate Full(o: Own)
    requires o.Chunks? && ChunksOk(o)
  {
    o.busy == Below(ChunkCount(o.shift))
  }

  // ---------------------------------------------------------------- the partition

  ghost predicate Segment(own: seq<Own>, i: nat)
    requires i < |own|
  {
    && ChunksOk(own[i])
    && (!own[i].Chunks? ==>
          && own[i].start <= i < own[i].start + own[i].len <= |own|
          && forall j :: own[i].start <= j < own[i].start + own[i].len ==> own[j] == own[i])
  }

  ghost predicate Partition(own: seq<Own>) {
    forall i :: 0 <= i < |own| ==> Segment(own, i)
  }

  ghost predicate NoSeam(own: seq<Own>, i: nat)
    requires 0 < i < |own|
  {
    own[i - 1].Free? && own[i].Free? ==> own[i - 1] == own[i]
  }

  /** No two free runs touch. */
  ghost predicate Coalesced(own: seq<Own>) {
    forall i :: 0 < i < |own| ==> NoSeam(own, i)
  }

  ghost function FreeSet(own: seq<Own>): set<nat> {
    set i: nat | 0 <= i < |own| && own[i].Free?
  }

  ghost predicate FreeStretch(own: seq<Own>, a: nat, n: nat) {
    a + n <= |own| && forall i :: a <= i < a + n ==> own[i].Free?
  }

  /** A stretch of free pages lies inside one free run. */
  lemma {:induction false} StretchInOneRun(own: seq<Own>, a: nat, n: nat)
    requires Partition(own) && Coalesced(own) && n >= 1 && FreeStretch(own, a, n)
    ensures own[a].len >= n && own[a + n - 1] == own[a]
    ensures own[a].start < |own| && own[own[a].start] == own[a]
    decreases n
  {
    assert Segment(own, a);
    if n > 1 {
      StretchInOneRun(own, a, n - 1);
      assert NoSeam(own, a + n - 1);
      assert Segment(own, a + n - 1);
    }
  }

  /** When nothing is handed out the pool is one free run of all its pages. */
  lemma AllFreeIsOneRun(own: seq<Own>)
    requires Partition(own) && Coalesced(own) && |own| >= 1
    requires forall i :: 0 <= i < |own| ==> own[i].Free?
    ensures forall i :: 0 <= i < |own| ==> own[i] == Free(0, |own|)
    ensures |FreeSet(own)| == |own|
  {
    StretchInOneRun(own, 0, |own|);
    assert Segment(own, 0) && Segment(own, |own| - 1);
    assert FreeSet(own) == Below(|own|);
    BelowSize(|own|);
  }

  // ---------------------------------------------------------------- transitions

  /** The first n pages of the free run at p become an allocation. */
  ghost function Take(own: seq<Own>, p: nat, n: nat): (r: seq<Own>)
    requires p < |own| && own[p].Free? && own[p].start == p && 1 <= n <= own[p].len
    ensures |r| == |own|
  {
    seq(|own|, i requires 0 <= i < |own| =>
      if p <= i < p + n then Run(p, n)
      else if p + n <= i < p + own[p].len then Free(p + n, own[p].len - n)
      else own[i])
  }

  /** Every page of [lo, hi) gets the same new owner. */
  ghost function Paint(own: seq<Own>, lo: nat, hi: nat, o: Own): (r: seq<Own>)
    ensures |r| == |own|
  {
    seq(|own|, i requires 0 <= i < |own| => if lo <= i < hi then o else own[i])
  }

  ghost function LeftEnd(own: seq<Own>, p: nat): nat
    requires p <= |own|
  {
    if p > 0 && own[p - 1].Free? then own[p - 1].start else p
  }

  ghost function RightEnd(own: seq<Own>, q: nat): nat
    requires q <= |own|
  {
    if q < |own| && own[q].Free? then q + own[q].len else q
  }

  /** [p, p + n) is given back and joined with the free runs on either side. */
  ghost function Give(own: seq<Own>, p: nat, n: nat): (r: seq<Own>)
    requires p + n <= |own|
    ensures |r| == |own|
  {
    var lo, hi := LeftEnd(own, p), RightEnd(own, p + n);
    Paint(own, lo, hi, Free(lo, if hi >= lo then hi - lo else 0))
  }

  /** [lo, hi) is a union of whole segments. */
  ghost predicate Closed(own: seq<Own>, lo: nat, hi: nat) {
    && lo < hi <= |own|
    && forall j :: lo <= j < hi && !own[j].Chunks? ==> lo <= own[j].start && own[j].start + own[j].len <= hi
  }

  lemma PaintKeeps(own: seq<Own>, lo: nat, hi: nat, o: Own)
    requires Partition(own) && Coalesced(own) && Closed(own, lo, hi)
    requires o == Run(lo, hi - lo) || o == Free(lo, hi - lo)
    requires o.Free? ==> (lo > 0 ==> !own[lo - 1].Free?) && (hi < |own| ==> !own[hi].Free?)
    ensures Partition(Paint(own, lo, hi, o)) && Coalesced(Paint(own, lo, hi, o))
  {
    var r := Paint(own, lo, hi, o);
    forall i | 0 <= i < |r| ensures Segment(r, i) {
      assert Segment(own, i);
      if !(lo <= i < hi) && !own[i].Chunks? {
        forall j | own[i].start <= j < own[i].start + own[i].len ensures r[j] == own[i] {
          assert own[j] == own[i];
        }
      }
    }
    forall i | 0 < i < |r| ensures NoSeam(r, i) {
      assert NoSeam(own, i);
    }
  }

  lemma TakeKeeps(own: seq<Own>, p: nat, n: nat)
    requires Partition(own) && Coalesced(own)
    requires p < |own| && own[p].Free? && own[p].start == p && 1 <= n <= own[p].len
    ensures Partition(Take(own, p, n)) && Coalesced(Take(own, p, n))
    ensures p + own[p].len <= |own| && forall i :: p <= i < p + own[p].len ==> own[i] == own[p]
  {
    var r, len := Take(own, p, n), own[p].len;
    assert Segment(own, p);
    forall i | 0 <= i < |r| ensures Segment(r, i) {
      assert Segment(own, i);
      if !(p <= i < p + len) && !own[i].Chunks? {
        forall j | own[i].start <= j < own[i].start + own[i].len ensures r[j] == own[i] {
          assert own[j] == own[i];
        }
      }
    }
    forall i | 0 < i < |r| ensures NoSeam(r, i) {
      assert NoSeam(own, i) && Segment(own, i) && Segment(own, i - 1);
    }
  }

  lemma TakeCount(own: seq<Own>, p: nat, n: nat)
    requires Partition(own)
    requires p < |own| && own[p].Free? && own[p].start == p && 1 <= n <= own[p].len
    ensures |FreeSet(own)| == |FreeSet(Take(own, p, n))| + n
  {
    assert Segment(own, p);
    var got := Span(p, n);
    SpanSize(p, n);
    assert FreeSet(own) == FreeSet(Take(own, p, n)) + got;
    assert FreeSet(Take(own, p, n)) !! got;
  }

  ghost function Span(p: nat, n: nat): (s: set<nat>)
    ensures forall i: nat :: i in s <==> p <= i < p + n
  {
    if n == 0 then {} else Span(p, n - 1) + {p + n - 1}
  }

  lemma {:induction false} SpanSize(p: nat, n: nat)
    ensures |Span(p, n)| == n
  {
    if n > 0 { SpanSize(p, n - 1); }
  }

  /** A segment [p, p + n) that is not free may be repainted as one allocation. */
  ghost predicate Holds(own: seq<Own>, p: nat, n: nat) {
    && n >= 1
    && p + n <= |own|
    && ((own[p].Run? && own[p] == Run(p, n)) || (own[p].Chunks? && n == 1))
  }

  lemma HoldKeeps(own: seq<Own>, p: nat, n: nat)
    requires Partition(own) && Coalesced(own) && Holds(own, p, n)
    ensures Partition(Paint(own, p, p + n, Run(p, n))) && Coalesced(Paint(own, p, p + n, Run(p, n)))
    ensures FreeSet(Paint(own, p, p + n, Run(p, n))) == FreeSet(own)
  {
    assert Segment(own, p);
    PaintKeeps(own, p, p + n, Run(p, n));
  }

  lemma AbsorbNextKeeps(own: seq<Own>, p: nat, n: nat)
    requires Partition(own) && Coalesced(own) && Holds(own, p, n) && own[p].Run?
    requires p + n < |own| && own[p + n].Free?
    ensures own[p + n].start == p + n && own[p + n].len >= 1 && p + n + own[p + n].len <= |own|
    ensures var r := Paint(own, p, p + n + own[p + n].len, Run(p, n + own[p + n].len));
            && Partition(r) && Coalesced(r) && Holds(r, p, n + own[p + n].len)
            && (p + n + own[p + n].len < |own| ==> !r[p + n + own[p + n].len].Free?)
            && (p > 0 ==> r[p - 1] == own[p - 1])
  {
    var l := own[p + n].len;
    assert Segment(own, p) && Segment(own, p + n);
    assert own[p + n - 1] == own[p] != own[p + n];
    PaintKeeps(own, p, p + n + l, Run(p, n + l));
    if p + n + l < |own| {
      assert NoSeam(own, p + n + l) && own[p + n + l - 1] == own[p + n];
      assert Segment(own, p + n + l);
    }
  }

  lemma AbsorbPrevKeeps(own: seq<Own>, p: nat, n: nat)
    requires Partition(own) && Coalesced(own) && Holds(own, p, n) && own[p].Run?
    requires p > 0 && own[p - 1].Free?
    ensures own[p - 1].start + own[p - 1].len == p && own[p - 1].len >= 1
    ensures own[own[p - 1].start] == own[p - 1]
    ensures var lo := own[p - 1].start;
            var r := Paint(own, lo, p + n, Run(lo, p + n - lo));
            && Partition(r) && Coalesced(r) && Holds(r, lo, p + n - lo)
            && (lo > 0 ==> !r[lo - 1].Free?)
            && (p + n < |own| ==> r[p + n] == own[p + n])
  {
    var lo := own[p - 1].start;
    assert Segment(own, p) && Segment(own, p - 1);
    assert own[p] != own[p - 1];
    PaintKeeps(own, lo, p + n, Run(lo, p + n - lo));
    if lo > 0 {
      assert NoSeam(own, lo) && own[lo] == own[p - 1];
      assert Segment(own, lo - 1);
    }
  }

  lemma SettleKeeps(own: seq<Own>, p: nat, n: nat)
    requires Partition(own) && Coalesced(own) && Holds(own, p, n) && own[p].Run?
    requires p > 0 ==> !own[p - 1].Free?
    requires p + n < |own| ==> !own[p + n].Free?
    ensures Partition(Paint(own, p, p + n, Free(p, n))) && Coalesced(Paint(own, p, p + n, Free(p, n)))
  {
    assert Segment(own, p);
    PaintKeeps(own, p, p + n, Free(p, n));
  }

  /** What Give adds on either side was free already. */
  lemma GiveRange(own: seq<Own>, p: nat, n: nat)
    requires Partition(own) && Holds(own, p, n)
    ensures LeftEnd(own, p) <= p && p + n <= RightEnd(own, p + n) <= |own|
    ensures forall i :: LeftEnd(own, p) <= i < p ==> own[i].Free?
    ensures forall i :: p <= i < p + n ==> own[i] == own[p]
    ensures forall i :: p + n <= i < RightEnd(own, p + n) ==> own[i].Free?
  {
    assert Segment(own, p);
    if p > 0 { assert Segment(own, p - 1); }
    if p + n < |own| {
      assert Segment(own, p + n) && own[p + n - 1] == own[p];
    }
  }

  lemma GiveCount(own: seq<Own>, p: nat, n: nat)
    requires Partition(own) && Holds(own, p, n)
    ensures |FreeSet(Give(own, p, n))| == |FreeSet(own)| + n
  {
    var r := Give(own, p, n);
    SpanSize(p, n);
    GiveRange(own, p, n);
    assert FreeSet(own) !! Span(p, n);
    assert FreeSet(r) == FreeSet(own) + Span(p, n);
  }

  /** Detaching, absorbing to the right, to the left and settling amount to Give. */
  lemma GiveInSteps(own0: seq<Own>, own2: seq<Own>, own3: seq<Own>, own4: seq<Own>,
                    page: nat, n: nat, start: nat, left: nat, last: nat)
    requires Partition(own0) && Holds(own0, page, n) && page + left + 1 <= |own0|
    requires page + left + 1 == RightEnd(Paint(own0, page, page + n, Run(page, n)), page + n)
    requires own2 == Paint(Paint(own0, page, page + n, Run(page, n)), page, page + left + 1, Run(page, left + 1))
    requires start == LeftEnd(own2, page) && start + last == page + left
    requires own3 == Paint(own2, start, page + left + 1, Run(start, last + 1))
    requires own4 == Paint(own3, start, start + last + 1, Free(start, last + 1))
    ensures own4 == Give(own0, page, n)
  {
    assert Segment(own0, page);
    if page > 0 { assert Segment(own0, page - 1) && own2[page - 1] == own0[page - 1]; }
    assert start == LeftEnd(own0, page) && page + left + 1 == RightEnd(own0, page + n);
    assert n <= left + 1 && start <= page;
  }
}
