/**
 The pool allocator and the arrays that grow inside it (ngx_palloc.c, ngx_array.c).

 Addresses are numbers.  Where the system puts a new block or a large allocation is up to the
 environment, as long as it overlaps nothing; -1 means that there is no memory.
 */
module Palloc {
  const ALIGN: nat := 8
  const POOL_HEADER: nat := 80       // sizeof(ngx_pool_t)
  const DATA_HEADER: nat := 32       // sizeof(ngx_pool_data_t)
  const LARGE_HEADER: nat := 16      // sizeof(ngx_pool_large_t)
  const MAX_SMALL: nat := 4095       // NGX_MAX_ALLOC_FROM_POOL
  const ARRAY_RECORD: nat := 40      // sizeof(ngx_array_t)
  const WORD: nat := 0x1_0000_0000_0000_0000
  const NULL: int := -1

  datatype Range = Range(start: nat, size: nat)

  datatype Block = Block(start: nat, end: nat, last: nat, failed: nat)

  /** ngx_align_ptr */
  function AlignUp(m: nat): nat { (m + ALIGN - 1) / ALIGN * ALIGN }

  lemma AlignUpOk(m: nat)
    ensures m <= AlignUp(m) < m + ALIGN && AlignUp(m) % ALIGN == 0
    ensures m % ALIGN == 0 ==> AlignUp(m) == m
  {
  }

  // ---------------------------------------------------------------- the test for space

  /** (size_t) (end - m) >= size */
  predicate HasSpace(end: nat, m: nat, size: nat) {
    (end - m) % WORD >= size
  }

  /** The unsigned difference tells whether there is room, as long as m has not passed the end. */
  lemma SpaceBelow(end: nat, m: nat, size: nat)
    requires m <= end < WORD
    ensures HasSpace(end, m, size) <==> m + size <= end
  {
  }

  /** When it has, there seems to be room for anything. */
  lemma SpaceBeyond(end: nat, m: nat, size: nat)
    requires end < m < end + ALIGN && size <= WORD - ALIGN
    ensures HasSpace(end, m, size)
  {
    assert (end - m) % WORD == WORD + (end - m);
  }

  /** The test for space is right for every position in a block exactly when the block ends on an aligned address. */
  lemma TestIsRight(end: nat)
    requires end < WORD
    ensures (forall last, size :: 0 <= last <= end && 0 <= size <= WORD - ALIGN ==> RightAt(end, last, size)) <==> end % ALIGN == 0
  {
    if end % ALIGN == 0 {
      forall last, size | 0 <= last <= end && 0 <= size <= WORD - ALIGN ensures RightAt(end, last, size) {
        AlignedBelow(last, end);
        SpaceBelow(end, AlignUp(last), size);
      }
    } else {
      AlignUpOk(end);
      SpaceBeyond(end, AlignUp(end), 1);
      assert !RightAt(end, end, 1);
    }
  }

  predicate RightAt(end: nat, last: nat, size: nat) {
    HasSpace(end, AlignUp(last), size) <==> AlignUp(last) + size <= end
  }

  lemma AlignedBelow(last: nat, end: nat)
    requires last <= end && end % ALIGN == 0
    ensures AlignUp(last) <= end
  {
    AlignUpOk(last);
    var k := AlignUp(last);
    assert k == ALIGN * (k / ALIGN) && end == ALIGN * (end / ALIGN);
  }

  // ---------------------------------------------------------------- ranges

  ghost predicate Apart(a: Range, b: Range) {
    a.size == 0 || b.size == 0 || a.start + a.size <= b.start || b.start + b.size <= a.start
  }

  /** Where allocations of block i may begin. */
  ghost function Head(blocks: seq<Block>, i: nat): nat
    requires i < |blocks|
  {
    blocks[i].start + if i == 0 then POOL_HEADER else DATA_HEADER
  }

  ghost predicate BlockOk(blocks: seq<Block>, i: nat, psize: nat)
    requires i < |blocks|
  {
    var b := blocks[i];
    && b.start % ALIGN == 0 && b.end == b.start + psize < WORD && Head(blocks, i) <= b.last <= b.end
  }

  ghost predicate BlocksApart(blocks: seq<Block>, i: nat, j: nat)
    requires i < |blocks| && j < |blocks|
  {
    blocks[i].end <= blocks[j].start || blocks[j].end <= blocks[i].start
  }

  /** The range is in the used part of block i. */
  ghost predicate InBlock(blocks: seq<Block>, i: nat, r: Range)
    requires i < |blocks|
  {
    Head(blocks, i) <= r.start && r.start + r.size <= blocks[i].last
  }

  ghost predicate Outside(blocks: seq<Block>, i: nat, r: Range)
    requires i < |blocks|
  {
    r.start + r.size <= blocks[i].start || blocks[i].end <= r.start
  }

  /** An allocation is in the used part of some block, or a large one outside all blocks. */
  ghost predicate Housed(blocks: seq<Block>, r: Range) {
    r.size == 0 || (exists i :: 0 <= i < |blocks| && InBlock(blocks, i, r)) || forall i :: 0 <= i < |blocks| ==> Outside(blocks, i, r)
  }

  datatype State = State(blocks: seq<Block>, psize: nat, live: seq<Range>)

  /** Blocks overlap nowhere, and neither do allocations, which are in the used parts of blocks or outside them. */
  ghost predicate Inv(s: State) {
    && |s.blocks| > 0 && s.psize % ALIGN == 0
    && (forall i :: 0 <= i < |s.blocks| ==> BlockOk(s.blocks, i, s.psize))
    && (forall i, j :: 0 <= i < j < |s.blocks| ==> BlocksApart(s.blocks, i, j))
    && (forall k :: 0 <= k < |s.live| ==> Housed(s.blocks, s.live[k]))
    && (forall j, k :: 0 <= j < k < |s.live| ==> Apart(s.live[j], s.live[k]))
  }

  /** Free room at the end of block i meets no allocation. */
  lemma FreeRoom(s: State, i: nat, r: Range, k: nat)
    requires Inv(s) && i < |s.blocks| && k < |s.live| && s.blocks[i].last <= r.start && r.start + r.size <= s.blocks[i].end
    ensures Apart(r, s.live[k])
  {
    var q := s.live[k];
    assert Housed(s.blocks, q) && BlockOk(s.blocks, i, s.psize);
    if q.size == 0 {
    } else if j :| 0 <= j < |s.blocks| && InBlock(s.blocks, j, q) {
      assert BlockOk(s.blocks, j, s.psize);
      if j < i { assert BlocksApart(s.blocks, j, i); } else if i < j { assert BlocksApart(s.blocks, i, j); }
    } else {
      assert Outside(s.blocks, i, q);
    }
  }

  /** The top of block i moves up to `last`; the allocations stay where they are housed. */
  lemma Raise(s: State, i: nat, last: nat, failed: nat)
    requires Inv(s) && i < |s.blocks| && s.blocks[i].last <= last <= s.blocks[i].end
    ensures Inv(s.(blocks := s.blocks[i := s.blocks[i].(last := last, failed := failed)]))
  {
    var blocks' := s.blocks[i := s.blocks[i].(last := last, failed := failed)];
    forall j | 0 <= j < |blocks'| ensures BlockOk(blocks', j, s.psize) {
      assert BlockOk(s.blocks, j, s.psize);
    }
    forall j, k | 0 <= j < k < |blocks'| ensures BlocksApart(blocks', j, k) {
      assert BlocksApart(s.blocks, j, k);
    }
    forall k | 0 <= k < |s.live| ensures Housed(blocks', s.live[k]) {
      StillHoused(s.blocks, blocks', i, s.live[k]);
    }
  }

  lemma StillHoused(blocks: seq<Block>, blocks': seq<Block>, i: nat, r: Range)
    requires Housed(blocks, r) && i < |blocks| == |blocks'| && blocks[i].last <= blocks'[i].last
    requires blocks' == blocks[i := blocks[i].(last := blocks'[i].last, failed := blocks'[i].failed)]
    ensures Housed(blocks', r)
  {
    if r.size == 0 {
    } else if j :| 0 <= j < |blocks| && InBlock(blocks, j, r) {
      assert InBlock(blocks', j, r);
    } else {
      forall j | 0 <= j < |blocks'| ensures Outside(blocks', j, r) {
        assert Outside(blocks, j, r);
      }
    }
  }

  /** One allocation more. */
  lemma More(s: State, r: Range)
    requires Inv(s) && Housed(s.blocks, r) && forall k :: 0 <= k < |s.live| ==> Apart(r, s.live[k])
    ensures Inv(s.(live := s.live + [r]))
  {
  }

  /** A new block with one allocation at its beginning. */
  lemma Append(s: State, at: nat, size: nat)
    requires Inv(s) && FreshBlock(s, at) && DATA_HEADER + size <= s.psize
    ensures var r := Range(at + DATA_HEADER, size);
            Inv(State(s.blocks + [Block(at, at + s.psize, at + DATA_HEADER + size, 0)], s.psize, s.live + [r]))
  {
    var b, r := Block(at, at + s.psize, at + DATA_HEADER + size, 0), Range(at + DATA_HEADER, size);
    var blocks', n := s.blocks + [b], |s.blocks|;
    forall i | 0 <= i < |blocks'| ensures BlockOk(blocks', i, s.psize) {
      if i < n { assert BlockOk(s.blocks, i, s.psize); }
    }
    forall i, j | 0 <= i < j < |blocks'| ensures BlocksApart(blocks', i, j) {
      if j < n { assert BlocksApart(s.blocks, i, j); } else { assert Outside(s.blocks, i, Range(at, s.psize)); }
    }
    forall k | 0 <= k < |s.live| ensures Housed(blocks', s.live[k]) && Apart(s.live[k], r) {
      assert Apart(Range(at, s.psize), s.live[k]);
      HousedMore(s.blocks, b, s.live[k]);
    }
    assert InBlock(blocks', n, r);
  }

  lemma HousedMore(blocks: seq<Block>, b: Block, r: Range)
    requires Housed(blocks, r) && (r.size > 0 ==> r.start + r.size <= b.start || b.end <= r.start)
    ensures Housed(blocks + [b], r)
  {
    var blocks' := blocks + [b];
    if r.size == 0 {
    } else if i :| 0 <= i < |blocks| && InBlock(blocks, i, r) {
      assert InBlock(blocks', i, r);
    } else {
      forall i | 0 <= i < |blocks'| ensures Outside(blocks', i, r) {
        if i < |blocks| { assert Outside(blocks, i, r); }
      }
    }
  }

  /** Memory from the system for a block: it overlaps no block and no allocation. */
  ghost predicate FreshBlock(s: State, at: nat) {
    && at % ALIGN == 0 && at + s.psize < WORD
    && (forall i :: 0 <= i < |s.blocks| ==> Outside(s.blocks, i, Range(at, s.psize)))
    && forall k :: 0 <= k < |s.live| ==> Apart(Range(at, s.psize), s.live[k])
  }

  /** Memory from the system for a large allocation. */
  ghost predicate FreshRange(s: State, r: Range) {
    && (forall i :: 0 <= i < |s.blocks| ==> Outside(s.blocks, i, r))
    && forall k :: 0 <= k < |s.live| ==> Apart(r, s.live[k])
  }

  /** A byte never written is 0. */
  function ByteAt(mem: map<nat, nat>, a: nat): (b: nat)
    ensures if a in mem then b == mem[a] else b == 0
  {
    if a in mem then mem[a] else 0
  }

  ghost predicate SameByte(mem0: map<nat, nat>, src: nat, mem: map<nat, nat>, dst: nat, k: nat) {
    ByteAt(mem, dst + k) == ByteAt(mem0, src + k)
  }

  /** The n bytes at dst are those that were at src. */
  ghost predicate Copied(mem0: map<nat, nat>, src: nat, mem: map<nat, nat>, dst: nat, n: nat) {
    forall k: nat :: k < n ==> SameByte(mem0, src, mem, dst, k)
  }

  /** Only bytes of the range have changed. */
  ghost predicate Kept(mem0: map<nat, nat>, mem: map<nat, nat>, r: Range) {
    forall a: nat :: !(r.start <= a < r.start + r.size) ==> ByteAt(mem, a) == ByteAt(mem0, a)
  }

  lemma CopyStep(mem0: map<nat, nat>, mem: map<nat, nat>, src: nat, dst: nat, n: nat, k: nat)
    requires k < n && (dst + n <= src || src + n <= dst) && Copied(mem0, src, mem, dst, k) && Kept(mem0, mem, Range(dst, k))
    ensures var mem' := mem[dst + k := ByteAt(mem, src + k)]; Copied(mem0, src, mem', dst, k + 1) && Kept(mem0, mem', Range(dst, k + 1))
  {
    var mem' := mem[dst + k := ByteAt(mem, src + k)];
    forall j: nat | j < k + 1 ensures SameByte(mem0, src, mem', dst, j) {
      if j < k { assert SameByte(mem0, src, mem, dst, j); }
    }
  }

  /** A range apart from the one that was written to. */
  lemma KeptElsewhere(mem0: map<nat, nat>, mem: map<nat, nat>, w: Range, r: Range, q: Range)
    requires Kept(mem0, mem, w) && w.start == r.start && w.size <= r.size && Apart(q, r)
    ensures Copied(mem0, q.start, mem, q.start, q.size)
  {
  }

  /** The bytes of all allocations are as they were. */
  ghost predicate Intact(live: seq<Range>, mem0: map<nat, nat>, mem: map<nat, nat>) {
    forall k :: 0 <= k < |live| ==> Copied(mem0, live[k].start, mem, live[k].start, live[k].size)
  }

  lemma Untouched(live: seq<Range>, mem: map<nat, nat>, a: nat, n: nat)
    ensures Intact(live, mem, mem) && Copied(mem, a, mem, a, n)
  {
  }

  /** The allocations are as they were, except perhaps the one at slot; there may be more. */
  ghost predicate Others(live: seq<Range>, live': seq<Range>, slot: nat) {
    |live| <= |live'| && forall k :: 0 <= k < |live| && k != slot ==> live'[k] == live[k]
  }

  // ---------------------------------------------------------------- arrays

  datatype Array = Array(elts: nat, nelts: nat, size: nat, nalloc: nat)

  /** Of positive capacity and element size. */
  ghost predicate ArrayOk(a: Array) {
    a.size > 0 && a.nalloc > 0 && a.nelts <= a.nalloc
  }

  /** size * n: the bytes of n elements. */
  function Span(size: nat, n: nat): nat {
    if n == 0 then 0 else Span(size, n - 1) + size
  }

  lemma {:induction false} SpanIsProduct(size: nat, n: nat)
    ensures Span(size, n) == size * n
  {
    if n > 0 { SpanIsProduct(size, n - 1); }
  }

  lemma {:induction false} SpanAdd(size: nat, a: nat, b: nat)
    ensures Span(size, a + b) == Span(size, a) + Span(size, b)
  {
    if b > 0 { SpanAdd(size, a, b - 1); }
  }

  /** The elements are a part of the array, and that is not empty. */
  lemma Spans(size: nat, nelts: nat, nalloc: nat, more: nat)
    requires size > 0 && 0 < nalloc && nelts <= nalloc <= more
    ensures Span(size, nelts) <= Span(size, nalloc) <= Span(size, more) && 0 < Span(size, nalloc)
  {
    SpanAdd(size, nelts, nalloc - nelts);
    SpanAdd(size, nalloc, more - nalloc);
    SpanAdd(size, 1, nalloc - 1);
  }

  /** An allocation that ends at the top of the first block is in it. */
  lemma TopOfFirst(s: State, slot: nat)
    requires Inv(s) && slot < |s.live| && s.live[slot].size > 0 && s.live[slot].start + s.live[slot].size == s.blocks[0].last
    ensures InBlock(s.blocks, 0, s.live[slot])
  {
    var r := s.live[slot];
    assert Housed(s.blocks, r) && BlockOk(s.blocks, 0, s.psize);
    if j :| 0 <= j < |s.blocks| && InBlock(s.blocks, j, r) {
      if j > 0 { EndsElsewhere(s, j, r); }
    } else {
      EndsOutside(s, r);
    }
  }

  lemma EndsOutside(s: State, r: Range)
    requires Inv(s) && Outside(s.blocks, 0, r) && r.size > 0
    ensures r.start + r.size != s.blocks[0].last
  {
    assert BlockOk(s.blocks, 0, s.psize);
  }

  lemma EndsElsewhere(s: State, j: nat, r: Range)
    requires Inv(s) && 0 < j < |s.blocks| && InBlock(s.blocks, j, r) && r.size > 0
    ensures r.start + r.size != s.blocks[0].last
  {
    assert BlockOk(s.blocks, 0, s.psize) && BlockOk(s.blocks, j, s.psize) && BlocksApart(s.blocks, 0, j);
  }

  /** The allocation at the top of the first block goes; what is below stays. */
  lemma Sink(s: State, slot: nat)
    requires Inv(s) && slot < |s.live| && s.live[slot].size > 0 && InBlock(s.blocks, 0, s.live[slot])
    requires s.live[slot].start + s.live[slot].size == s.blocks[0].last
    ensures var start := s.live[slot].start;
            Inv(State(s.blocks[0 := s.blocks[0].(last := start)], s.psize, s.live[slot := Range(start, 0)]))
  {
    var start := s.live[slot].start;
    var blocks', live' := s.blocks[0 := s.blocks[0].(last := start)], s.live[slot := Range(start, 0)];
    forall j | 0 <= j < |blocks'| ensures BlockOk(blocks', j, s.psize) {
      assert BlockOk(s.blocks, j, s.psize);
    }
    forall j, k | 0 <= j < k < |blocks'| ensures BlocksApart(blocks', j, k) {
      assert BlocksApart(s.blocks, j, k);
    }
    forall k | 0 <= k < |live'| ensures Housed(blocks', live'[k]) {
      if k != slot {
        if k < slot { assert Apart(s.live[k], s.live[slot]); } else { assert Apart(s.live[slot], s.live[k]); }
        HousedBelow(s.blocks, blocks', s.live[k], s.live[slot]);
      }
    }
    forall j, k | 0 <= j < k < |live'| ensures Apart(live'[j], live'[k]) {
      assert Apart(s.live[j], s.live[k]);
    }
  }

  lemma HousedBelow(blocks: seq<Block>, blocks': seq<Block>, r: Range, top: Range)
    requires |blocks| > 0 && Housed(blocks, r) && (Apart(r, top) || Apart(top, r)) && top.size > 0
    requires top.start + top.size == blocks[0].last && blocks' == blocks[0 := blocks[0].(last := top.start)]
    ensures Housed(blocks', r)
  {
    if r.size == 0 {
    } else if j :| 0 <= j < |blocks| && InBlock(blocks, j, r) {
      assert InBlock(blocks', j, r);
    } else {
      forall j | 0 <= j < |blocks'| ensures Outside(blocks', j, r) {
        assert Outside(blocks, j, r);
      }
    }
  }

  /** The allocation at the top of the first block takes up free room. */
  lemma Widen(s: State, s': State, slot: nat, extra: nat)
    requires Inv(s) && Inv(s') && slot < |s.live| && s.live[slot].start + s.live[slot].size == s.blocks[0].last && s'.live == s.live
    requires s.blocks[0].last + extra <= s.blocks[0].end && |s'.blocks| > 0 && s.live[slot].size > 0
    requires InBlock(s'.blocks, 0, Range(s.live[slot].start, s.live[slot].size + extra))
    ensures Inv(s'.(live := s'.live[slot := Range(s.live[slot].start, s.live[slot].size + extra)]))
  {
    var r := Range(s.live[slot].start, s.live[slot].size + extra);
    var live' := s'.live[slot := r];
    assert Housed(s'.blocks, r);
    forall k | 0 <= k < |live'| && k != slot ensures Apart(r, live'[k]) {
      FreeRoom(s, 0, Range(s.blocks[0].last, extra), k);
      if k < slot { assert Apart(s.live[k], s.live[slot]); } else { assert Apart(s.live[slot], s.live[k]); }
    }
    forall k | 0 <= k < |live'| ensures Housed(s'.blocks, live'[k]) {
    }
    forall j, k | 0 <= j < k < |live'| ensures Apart(live'[j], live'[k]) {
      if j == slot || k == slot { assert Apart(r, live'[if j == slot then k else j]); } else { assert Apart(s.live[j], s.live[k]); }
    }
  }

  /** The blocks are where they were; there may be a new one. */
  ghost predicate SamePlaces(blocks: seq<Block>, blocks': seq<Block>, at: int, psize: nat) {
    && |blocks| <= |blocks'| <= |blocks| + 1
    && (forall i :: 0 <= i < |blocks| ==> blocks'[i].start == blocks[i].start && blocks'[i].end == blocks[i].end)
    && (|blocks'| > |blocks| ==> at >= 0 && blocks'[|blocks|].start == at && blocks'[|blocks|].end == at + psize)
  }

  ghost predicate InSome(blocks: seq<Block>, r: Range) {
    exists i :: 0 <= i < |blocks| && InBlock(blocks, i, r)
  }

  /** A large allocation stays clear of the header that was allocated for it. */
  lemma LargeOk(s: State, s': State, r: Range, at: int, header: nat)
    requires Inv(s) && Inv(s') && FreshRange(s, r) && SamePlaces(s.blocks, s'.blocks, at, s'.psize)
    requires s'.live == s.live + [Range(header, LARGE_HEADER)] && InSome(s'.blocks, Range(header, LARGE_HEADER))
    requires at >= 0 ==> r.start + r.size <= at || at + s'.psize <= r.start
    ensures Housed(s'.blocks, r) && forall k :: 0 <= k < |s'.live| ==> Apart(r, s'.live[k])
  {
    forall i | 0 <= i < |s'.blocks| ensures Outside(s'.blocks, i, r) {
      if i < |s.blocks| { assert Outside(s.blocks, i, r); }
    }
    var i :| 0 <= i < |s'.blocks| && InBlock(s'.blocks, i, Range(header, LARGE_HEADER));
    assert BlockOk(s'.blocks, i, s'.psize) && Outside(s'.blocks, i, r);
  }

  /** Where an allocation in the block would start. */
  function Place(b: Block, align: bool): nat { if align then AlignUp(b.last) else b.last }

  /** No block from lo up to hi has room. */
  ghost predicate NoRoom(blocks: seq<Block>, lo: nat, hi: nat, size: nat, align: bool) {
    forall p :: lo <= p < hi && p < |blocks| ==> Place(blocks[p], align) + size > blocks[p].end
  }

  /** The first block from `current` on that has room is used. */
  ghost predicate FirstFit(blocks: seq<Block>, blocks': seq<Block>, current: nat, m: int, size: nat, align: bool) {
    exists p :: current <= p < |blocks| && NoRoom(blocks, current, p, size, align) && m == Place(blocks[p], align) && m + size <= blocks[p].end
                && blocks' == blocks[p := blocks[p].(last := m + size)]
  }

  class Pool {
    const psize: nat
    const max: nat
    var blocks: seq<Block>
    var current: nat
    var mem: map<nat, nat>
    ghost var live: seq<Range>

    ghost function St(): State
      reads this
    {
      State(blocks, psize, live)
    }

    ghost predicate Valid()
      reads this
    {
      && Inv(St()) && current < |blocks| && psize >= POOL_HEADER
      && max == if psize - POOL_HEADER < MAX_SMALL then psize - POOL_HEADER else MAX_SMALL
    }

    /** ngx_create_pool */
    constructor (at: nat, size: nat)
      requires at % ALIGN == 0 && size % ALIGN == 0 && POOL_HEADER <= size && at + size < WORD
      ensures Valid() && live == [] && psize == size && current == 0
      ensures blocks == [Block(at, at + size, at + POOL_HEADER, 0)]
      ensures max <= MAX_SMALL && POOL_HEADER + max <= size && (max == MAX_SMALL || POOL_HEADER + max == size)
    {
      psize := size;
      max := if size - POOL_HEADER < MAX_SMALL then size - POOL_HEADER else MAX_SMALL;
      blocks := [Block(at, at + size, at + POOL_HEADER, 0)];
      current, mem, live := 0, map[], [];
    }

    /** ngx_palloc_small */
    method PallocSmall(size: nat, align: bool, at: int) returns (m: int)
      requires Valid() && DATA_HEADER + size <= psize && at >= NULL && (at != NULL ==> FreshBlock(St(), at))
      modifies this`blocks, this`current, this`live
      ensures Valid() && (m == NULL ==> live == old(live) && at == NULL)
      ensures m != NULL ==> m >= 0 && live == old(live) + [Range(m, size)] && (align ==> m % ALIGN == 0)
      ensures SamePlaces(old(blocks), blocks, at, psize) && (m != NULL ==> InSome(blocks, Range(m, size)))
      ensures FirstFit(old(blocks), blocks, old(current), m, size, align) ||
              (NoRoom(old(blocks), old(current), |old(blocks)|, size, align) && (m != NULL ==> m == at + DATA_HEADER))
    {
      var p := current;
      while p < |blocks|
        invariant current <= p <= |blocks| && blocks == old(blocks) && live == old(live) && current == old(current)
        invariant NoRoom(blocks, current, p, size, align)
      {
        assert BlockOk(blocks, p, psize);
        m := blocks[p].last;
        if align {
          m := AlignUp(m);
          EndAligned(blocks[p].start, psize);
          AlignedBelow(blocks[p].last, blocks[p].end);
          AlignUpOk(blocks[p].last);
        }
        SpaceBelow(blocks[p].end, m, size);
        assert m == Place(blocks[p], align);
        if HasSpace(blocks[p].end, m, size) {
          Commit(p, m, size);
          assert FirstFit(old(blocks), blocks, old(current), m, size, align);
          return;
        }
        p := p + 1;
      }
      m := PallocBlock(size, at);
    }

    /** The range from m on becomes an allocation of block p. */
    method Commit(p: nat, m: nat, size: nat)
      requires Valid() && p < |blocks| && blocks[p].last <= m && m + size <= blocks[p].end
      modifies this`blocks, this`live
      ensures Valid() && live == old(live) + [Range(m, size)] && blocks == old(blocks)[p := old(blocks)[p].(last := m + size)]
      ensures SamePlaces(old(blocks), blocks, NULL, psize) && InSome(blocks, Range(m, size))
    {
      ghost var s, r := St(), Range(m, size);
      forall k | 0 <= k < |live| ensures Apart(r, live[k]) {
        FreeRoom(s, p, r, k);
      }
      Raise(s, p, m + size, blocks[p].failed);
      assert BlockOk(blocks, p, psize);
      blocks := blocks[p := blocks[p].(last := m + size)];
      assert InBlock(blocks, p, r);
      More(St(), r);
      live := live + [r];
    }

    /** ngx_palloc_block */
    method PallocBlock(size: nat, at: int) returns (m: int)
      requires Valid() && DATA_HEADER + size <= psize && at >= NULL && (at != NULL ==> FreshBlock(St(), at))
      modifies this`blocks, this`current, this`live
      ensures Valid() && (m == NULL ==> live == old(live) && at == NULL)
      ensures m != NULL ==> m == at + DATA_HEADER && live == old(live) + [Range(m, size)] && m % ALIGN == 0
      ensures SamePlaces(old(blocks), blocks, at, psize) && (m != NULL ==> InSome(blocks, Range(m, size)))
    {
      if at == NULL {
        return NULL;
      }
      m := AlignUp(at + DATA_HEADER);
      HeaderAligned(at);
      BumpFailed();
      StillFresh(old(St()), St(), at);
      Append(St(), at, size);
      blocks := blocks + [Block(at, at + psize, m + size, 0)];
      assert InBlock(blocks, |blocks| - 1, Range(m, size));
      live := live + [Range(m, size)];
    }

    /** Blocks that have failed too often are no longer tried first. */
    method BumpFailed()
      requires Valid()
      modifies this`blocks, this`current
      ensures Valid() && |blocks| == |old(blocks)|
      ensures forall i :: 0 <= i < |blocks| ==> blocks[i] == old(blocks)[i].(failed := blocks[i].failed)
      ensures forall i :: 0 <= i < |blocks| ==> blocks[i].failed == old(blocks)[i].failed + if old(current) <= i < |blocks| - 1 then 1 else 0
      ensures old(current) <= current && (current > old(current) ==> old(blocks)[current - 1].failed > 4)
      ensures forall i :: current <= i < |blocks| - 1 ==> old(blocks)[i].failed <= 4
    {
      var p := current;
      while p + 1 < |blocks|
        invariant Valid() && |blocks| == |old(blocks)| && old(current) <= current <= p < |blocks|
        invariant forall i :: 0 <= i < |blocks| ==> blocks[i].failed == old(blocks)[i].failed + if old(current) <= i < p then 1 else 0
        invariant (current > old(current) ==> old(blocks)[current - 1].failed > 4) && forall i :: current <= i < p ==> old(blocks)[i].failed <= 4
        invariant forall i :: 0 <= i < |blocks| ==> blocks[i] == old(blocks)[i].(failed := blocks[i].failed)
      {
        assert BlockOk(blocks, p, psize);
        Raise(St(), p, blocks[p].last, blocks[p].failed + 1);
        if blocks[p].failed > 4 {
          current := p + 1;
        }
        blocks := blocks[p := blocks[p].(failed := blocks[p].failed + 1)];
        p := p + 1;
      }
    }

    /** ngx_palloc: `at` is where a new block would go, `big` where a large allocation would. */
    method Palloc(size: nat, at: int, big: int) returns (m: int)
      requires Valid() && at >= NULL && big >= NULL
      requires at != NULL ==> FreshBlock(St(), at)
      requires big != NULL ==> FreshRange(St(), Range(big, size))
      requires at != NULL && big != NULL ==> big + size <= at || at + psize <= big
      modifies this`blocks, this`current, this`live
      ensures Valid() && (m == NULL ==> live == old(live) && (at == NULL || (size > max && big == NULL)))
      ensures m != NULL ==> m >= 0 && |live| > |old(live)| && live[..|old(live)|] == old(live) && live[|live| - 1] == Range(m, size)
      ensures m != NULL ==> if size <= max then m % ALIGN == 0 && InSome(blocks, Range(m, size)) else m == big
      ensures m != NULL && size > max ==> |live| == |old(live)| + 2 && live[|live| - 2].size == LARGE_HEADER && live[|live| - 2].start % ALIGN == 0
      ensures size <= max ==> FirstFit(old(blocks), blocks, old(current), m, size, true) ||
                              (NoRoom(old(blocks), old(current), |old(blocks)|, size, true) && (m != NULL ==> m == at + DATA_HEADER))
    {
      if size <= max {
        m := PallocSmall(size, true, at);
        return;
      }
      if big == NULL {
        return NULL;
      }
      ghost var n := |blocks|;
      var large := PallocSmall(LARGE_HEADER, true, at);
      if large == NULL {
        return NULL;
      }
      m := big;
      ghost var r := Range(big, size);
      LargeOk(old(St()), St(), r, at, large);
      More(St(), r);
      live := live + [r];
    }

    /** ngx_memcpy */
    method Copy(dst: nat, src: nat, n: nat)
      requires n > 0 ==> dst + n <= src || src + n <= dst
      modifies this`mem
      ensures Copied(old(mem), src, mem, dst, n) && Kept(old(mem), mem, Range(dst, n))
    {
      var k := 0;
      while k < n
        invariant k <= n && Copied(old(mem), src, mem, dst, k) && Kept(old(mem), mem, Range(dst, k))
      {
        CopyStep(old(mem), mem, src, dst, n, k);
        mem := mem[dst + k := ByteAt(mem, src + k)];
        k := k + 1;
      }
    }

    /** The array is the last allocation of the first block, which has room for n more elements. */
    ghost predicate CanGrow(a: Array, n: nat)
      reads this`blocks
    {
      blocks != [] && a.elts + Span(a.size, a.nalloc) == blocks[0].last && blocks[0].last + Span(a.size, n) <= blocks[0].end
    }

    /** ngx_array_push_n, and for n == 1 ngx_array_push */
    method PushN(a: Array, n: nat, at: int, big: int, ghost slot: nat) returns (a': Array, elt: int, ghost slot': nat)
      requires Valid() && ArrayOk(a) && n > 0 && at >= NULL && big >= NULL
      requires slot < |live| && live[slot] == Range(a.elts, Span(a.size, a.nalloc))
      requires at != NULL ==> FreshBlock(St(), at)
      requires var need := Span(a.size, 2 * if n >= a.nalloc then n else a.nalloc);
               && (big != NULL ==> FreshRange(St(), Range(big, need)))
               && (at != NULL && big != NULL ==> big + need <= at || at + psize <= big)
      modifies this
      ensures Valid() && ArrayOk(a') && a'.size == a.size && slot' < |live| && live[slot'] == Range(a'.elts, Span(a'.size, a'.nalloc))
      ensures elt == NULL ==> a' == a && mem == old(mem) && a.nelts + n > a.nalloc && (at == NULL || big == NULL)
      ensures a.nelts + n <= a.nalloc ==> a' == a.(nelts := a.nelts + n)
      ensures a.nelts + n > a.nalloc && old(CanGrow(a, n)) ==> a' == a.(nelts := a.nelts + n, nalloc := a.nalloc + n)
      ensures a.nelts + n > a.nalloc && !old(CanGrow(a, n)) && elt != NULL ==> a'.nalloc == 2 * if n >= a.nalloc then n else a.nalloc
      ensures elt != NULL ==> a'.nelts == a.nelts + n && elt == a'.elts + Span(a'.size, a.nelts)
      ensures Copied(old(mem), a.elts, mem, a'.elts, Span(a.size, a.nelts))
      ensures Others(old(live), live, slot) && Intact(old(live), old(mem), mem)
    {
      a', slot' := a, slot;
      Untouched(live, mem, a.elts, Span(a.size, a.nelts));
      if a.nelts + n > a.nalloc {
        var ok;
        a', ok, slot' := MakeRoom(a, n, at, big, slot);
        if !ok {
          return a, NULL, slot;
        }
      }
      elt := a'.elts + Span(a'.size, a'.nelts);
      a' := a'.(nelts := a'.nelts + n);
    }

    /** The array is full. */
    method MakeRoom(a: Array, n: nat, at: int, big: int, ghost slot: nat) returns (a': Array, ok: bool, ghost slot': nat)
      requires Valid() && ArrayOk(a) && n > 0 && at >= NULL && big >= NULL && a.nelts + n > a.nalloc
      requires slot < |live| && live[slot] == Range(a.elts, Span(a.size, a.nalloc))
      requires at != NULL ==> FreshBlock(St(), at)
      requires var need := Span(a.size, 2 * if n >= a.nalloc then n else a.nalloc);
               && (big != NULL ==> FreshRange(St(), Range(big, need)))
               && (at != NULL && big != NULL ==> big + need <= at || at + psize <= big)
      modifies this
      ensures Valid() && Others(old(live), live, slot) && Intact(old(live), old(mem), mem)
      ensures !ok ==> mem == old(mem) && live[slot] == old(live)[slot] && (at == NULL || big == NULL) && !old(CanGrow(a, n))
      ensures ok ==> a' == a.(elts := a'.elts, nalloc := a'.nalloc) && slot' < |live| && live[slot'] == Range(a'.elts, Span(a'.size, a'.nalloc))
      ensures ok && old(CanGrow(a, n)) ==> a' == a.(nalloc := a.nalloc + n)
      ensures ok && !old(CanGrow(a, n)) ==> a'.nalloc == 2 * if n >= a.nalloc then n else a.nalloc
      ensures ok ==> Copied(old(mem), a.elts, mem, a'.elts, Span(a.size, a.nelts))
    {
      if a.elts + Span(a.size, a.nalloc) == blocks[0].last && blocks[0].last + Span(a.size, n) <= blocks[0].end {
        Untouched(live, mem, a.elts, Span(a.size, a.nelts));
        a' := Lengthen(a, n, slot);
        ok, slot' := true, slot;
      } else {
        a', ok, slot' := Relocate(a, 2 * if n >= a.nalloc then n else a.nalloc, at, big, slot);
      }
    }

    /** The array is the last allocation of the first block and grows there. */
    method Lengthen(a: Array, n: nat, ghost slot: nat) returns (a': Array)
      requires Valid() && ArrayOk(a) && slot < |live| && live[slot] == Range(a.elts, Span(a.size, a.nalloc))
      requires CanGrow(a, n)
      modifies this`blocks, this`live
      ensures Valid() && a' == a.(nalloc := a.nalloc + n) && live == old(live)[slot := Range(a'.elts, Span(a'.size, a'.nalloc))]
    {
      Spans(a.size, a.nelts, a.nalloc, a.nalloc);
      GrowInPlace(Span(a.size, n), slot);
      SpanAdd(a.size, a.nalloc, n);
      a' := a.(nalloc := a.nalloc + n);
    }

    /** A new, larger place for the elements. */
    method Relocate(a: Array, nalloc: nat, at: int, big: int, ghost slot: nat) returns (a': Array, ok: bool, ghost slot': nat)
      requires Valid() && ArrayOk(a) && at >= NULL && big >= NULL && a.nalloc <= nalloc
      requires slot < |live| && live[slot] == Range(a.elts, Span(a.size, a.nalloc))
      requires at != NULL ==> FreshBlock(St(), at)
      requires big != NULL ==> FreshRange(St(), Range(big, Span(a.size, nalloc)))
      requires at != NULL && big != NULL ==> big + Span(a.size, nalloc) <= at || at + psize <= big
      modifies this
      ensures Valid() && |old(live)| <= |live| && live[..|old(live)|] == old(live)
      ensures !ok ==> mem == old(mem) && (at == NULL || big == NULL)
      ensures ok ==> a' == a.(elts := a'.elts, nalloc := nalloc) && slot' < |live| && live[slot'] == Range(a'.elts, Span(a.size, nalloc))
      ensures ok ==> Copied(old(mem), a.elts, mem, a'.elts, Span(a.size, a.nelts))
      ensures Intact(old(live), old(mem), mem)
    {
      a', slot' := a, slot;
      ghost var before := live;
      Spans(a.size, a.nelts, a.nalloc, nalloc);
      var moved := Palloc(Span(a.size, nalloc), at, big);
      if moved == NULL {
        ok := false;
        return;
      }
      slot' := |live| - 1;
      ghost var mem0 := mem;
      assert live[slot] == before[slot] && Apart(live[slot], live[slot']);
      Copy(moved, a.elts, Span(a.size, a.nelts));
      forall k | 0 <= k < |before| ensures Copied(mem0, before[k].start, mem, before[k].start, before[k].size) {
        assert live[k] == before[k] && Apart(live[k], live[slot']);
        KeptElsewhere(mem0, mem, Range(moved, Span(a.size, a.nelts)), Range(moved, Span(a.size, nalloc)), before[k]);
      }
      a', ok := a.(elts := moved, nalloc := nalloc), true;
    }

    /** The allocation at the top of the first block grows. */
    method GrowInPlace(extra: nat, ghost slot: nat)
      requires Valid() && slot < |live| && live[slot].size > 0 && live[slot].start + live[slot].size == blocks[0].last
      requires blocks[0].last + extra <= blocks[0].end
      modifies this`blocks, this`live
      ensures Valid() && live == old(live)[slot := Range(old(live)[slot].start, old(live)[slot].size + extra)]
    {
      ghost var s := St();
      TopOfFirst(s, slot);
      Raise(s, 0, blocks[0].last + extra, blocks[0].failed);
      blocks := blocks[0 := blocks[0].(last := blocks[0].last + extra)];
      ghost var r := Range(live[slot].start, live[slot].size + extra);
      assert InBlock(blocks, 0, r);
      Widen(s, St(), slot, extra);
      live := live[slot := r];
    }

    /** The allocation is given back if it is the last one of the first block. */
    method GiveBack(start: nat, size: nat, ghost slot: nat)
      requires Valid() && size > 0 && slot < |live| && live[slot] == Range(start, size)
      modifies this`blocks, this`live
      ensures Valid() && blocks != [] && old(blocks) != []
      ensures live == if start + size == old(blocks)[0].last then old(live)[slot := Range(start, 0)] else old(live)
      ensures blocks[0].last == if start + size == old(blocks)[0].last then start else old(blocks)[0].last
    {
      if start + size == blocks[0].last {
        TopOfFirst(St(), slot);
        Sink(St(), slot);
        blocks := blocks[0 := blocks[0].(last := start)];
        live := live[slot := Range(start, 0)];
      }
    }

    /** ngx_array_destroy: the elements, and then the array's own record of 40 bytes at `record`. */
    method Destroy(a: Array, record: nat, ghost slot: nat, ghost recordSlot: nat)
      requires Valid() && ArrayOk(a) && slot < |live| && live[slot] == Range(a.elts, Span(a.size, a.nalloc))
      requires recordSlot < |live| && recordSlot != slot && live[recordSlot] == Range(record, ARRAY_RECORD)
      modifies this`blocks, this`live
      ensures Valid() && |live| == |old(live)| && forall k :: 0 <= k < |live| && k != slot && k != recordSlot ==> live[k] == old(live)[k]
      ensures old(blocks) != [] && live[slot] == Range(a.elts, if a.elts + Span(a.size, a.nalloc) == old(blocks)[0].last then 0 else Span(a.size, a.nalloc))
      ensures var top := if a.elts + Span(a.size, a.nalloc) == old(blocks)[0].last then a.elts else old(blocks)[0].last;
              live[recordSlot] == Range(record, if record + ARRAY_RECORD == top then 0 else ARRAY_RECORD)
    {
      Spans(a.size, a.nelts, a.nalloc, a.nalloc);
      GiveBack(a.elts, Span(a.size, a.nalloc), slot);
      GiveBack(record, ARRAY_RECORD, recordSlot);
    }

    /** ngx_reset_pool: the allocations are all given up. */
    method Reset()
      requires Valid()
      modifies this`blocks, this`current, this`live
      ensures Valid() && live == [] && |blocks| == |old(blocks)| && current == 0
      ensures forall i :: 0 <= i < |blocks| ==> blocks[i] == old(blocks)[i].(last := old(blocks)[i].start + POOL_HEADER, failed := 0)
    {
      live := [];
      var i := 0;
      while i < |blocks|
        invariant i <= |blocks| == |old(blocks)| && Inv(St()) && live == []
        invariant forall j :: i <= j < |blocks| ==> blocks[j] == old(blocks)[j]
        invariant forall j :: 0 <= j < i ==> blocks[j] == old(blocks)[j].(last := old(blocks)[j].start + POOL_HEADER, failed := 0)
      {
        Lower(St(), i);
        blocks := blocks[i := blocks[i].(last := blocks[i].start + POOL_HEADER, failed := 0)];
        i := i + 1;
      }
      current := 0;
    }
  }

  lemma EndAligned(start: nat, psize: nat)
    requires start % ALIGN == 0 && psize % ALIGN == 0
    ensures (start + psize) % ALIGN == 0
  {
  }

  lemma HeaderAligned(at: nat)
    requires at % ALIGN == 0
    ensures AlignUp(at + DATA_HEADER) == at + DATA_HEADER && (at + DATA_HEADER) % ALIGN == 0
  {
    EndAligned(at, DATA_HEADER);
    AlignUpOk(at + DATA_HEADER);
  }

  /** Counting failures changes nothing else. */
  lemma StillFresh(s: State, s': State, at: nat)
    requires FreshBlock(s, at) && s'.psize == s.psize && s'.live == s.live && |s'.blocks| == |s.blocks|
    requires forall i :: 0 <= i < |s.blocks| ==> s'.blocks[i] == s.blocks[i].(failed := s'.blocks[i].failed)
    ensures FreshBlock(s', at)
  {
    forall i | 0 <= i < |s'.blocks| ensures Outside(s'.blocks, i, Range(at, s.psize)) {
      assert Outside(s.blocks, i, Range(at, s.psize));
    }
  }

  /** An empty block again: later blocks, too, restart behind a whole pool header. */
  lemma Lower(s: State, i: nat)
    requires Inv(s) && s.live == [] && i < |s.blocks| && s.psize >= POOL_HEADER
    ensures Inv(s.(blocks := s.blocks[i := s.blocks[i].(last := s.blocks[i].start + POOL_HEADER, failed := 0)]))
  {
    var blocks' := s.blocks[i := s.blocks[i].(last := s.blocks[i].start + POOL_HEADER, failed := 0)];
    forall j | 0 <= j < |blocks'| ensures BlockOk(blocks', j, s.psize) {
      assert BlockOk(s.blocks, j, s.psize);
    }
    forall j, k | 0 <= j < k < |blocks'| ensures BlocksApart(blocks', j, k) {
      assert BlocksApart(s.blocks, j, k);
    }
  }
}
