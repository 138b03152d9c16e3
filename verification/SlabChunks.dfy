/**
 Chunks: which blocks a pool has handed out, where they lie, and how the three bitmap layouts
 record them.
 */
module SlabChunks {
  import opened Words
  import opened SlabRings
  import opened SlabOwnership
  import opened SlabTable
  import opened SlabRuns

  // ---------------------------------------------------------------- live blocks

  ghost function ChunkAt(page: nat, shift: nat, c: nat): nat {
    PAGE * page + Shl(c, shift)
  }

  /** `off` is the start of a block the pool has handed out. */
  ghost predicate IsLive(own: seq<Own>, off: nat) {
    var i := off / PAGE;
    && i < |own|
    && match own[i]
       case Free(_, _) => false
       case Run(s, _) => off == PAGE * s
       case Chunks(shift, busy) =>
         MIN_SHIFT <= shift <= MAX_SHIFT && exists c :: c in busy && Reserved(shift) <= c && off == ChunkAt(i, shift, c)
  }

  ghost function LiveSet(own: seq<Own>): set<nat> {
    set off: nat | off < PAGE * |own| && IsLive(own, off)
  }

  ghost function BlockSize(own: seq<Own>, off: nat): nat
    requires IsLive(own, off)
  {
    match own[off / PAGE]
    case Run(_, n) => PAGE * n
    case Chunks(shift, _) => Pow2(shift)
  }

  lemma InLiveSet(own: seq<Own>, off: nat)
    ensures off in LiveSet(own) <==> IsLive(own, off)
  {
  }

  /** A chunk lies inside its page, at a multiple of its size. */
  lemma ChunkBounds(page: nat, shift: nat, c: nat)
    requires MIN_SHIFT <= shift <= MAX_SHIFT && c < ChunkCount(shift)
    ensures ChunkAt(page, shift, c) + Pow2(shift) <= PAGE * page + PAGE
    ensures ChunkAt(page, shift, c) / PAGE == page
    ensures ChunkAt(page, shift, c) % PAGE == Shl(c, shift)
    ensures Shr(ChunkAt(page, shift, c) % PAGE, shift) == c
    ensures And(ChunkAt(page, shift, c) % PAGE, Pow2(shift) - 1) == 0
  {
    ShlMono(c, ChunkCount(shift), shift);
    ShlPow2(PAGE_SHIFT - shift, shift);
    assert Pow2(6) == 64;
    assert Pow2(PAGE_SHIFT) == PAGE;
    assert Pow2(shift) >= 1;
    ShrShl(c, shift);
    Aligned(Shl(c, shift), shift);
  }

  /** Every live block is inside the pool, aligned to its class and clear of the page's bitmap. */
  lemma LiveBounds(own: seq<Own>, off: nat)
    requires Partition(own) && IsLive(own, off)
    ensures off + BlockSize(own, off) <= PAGE * |own|
    ensures own[off / PAGE].Run? ==> off % PAGE == 0
    ensures own[off / PAGE].Chunks? ==>
              var shift := own[off / PAGE].shift;
              && And(off % PAGE, BlockSize(own, off) - 1) == 0
              && off % PAGE + BlockSize(own, off) <= PAGE
              && (shift < EXACT_SHIFT ==> 8 * MapWords(shift) <= off % PAGE)
  {
    var i := off / PAGE;
    assert Segment(own, i);
    match own[i]
    case Run(s, n) =>
    case Chunks(shift, busy) =>
      var c :| c in busy && Reserved(shift) <= c && off == ChunkAt(i, shift, c);
      ChunkBounds(i, shift, c);
      ClearOfMap(i, shift, c);
  }

  /** A chunk that may be handed out begins behind the bitmap. */
  lemma ClearOfMap(page: nat, shift: nat, c: nat)
    requires MIN_SHIFT <= shift <= MAX_SHIFT && Reserved(shift) <= c < ChunkCount(shift)
    ensures shift < EXACT_SHIFT ==> 8 * MapWords(shift) <= ChunkAt(page, shift, c) % PAGE
  {
    ChunkBounds(page, shift, c);
    ReservedFacts(shift);
    if Reserved(shift) < c { ShlMono(Reserved(shift), c, shift); }
  }

  /** Two different live blocks do not overlap. */
  lemma LiveDisjoint(own: seq<Own>, a: nat, b: nat)
    requires Partition(own) && IsLive(own, a) && IsLive(own, b) && a < b
    ensures a + BlockSize(own, a) <= b
  {
    var i, j := a / PAGE, b / PAGE;
    assert i <= j && i < |own| && j < |own|;
    assert Segment(own, i) && Segment(own, j);
    assert own[i].Run? ==> own[j] != own[i];
    match own[i]
    case Run(s, n) =>
    case Chunks(shift, busy) =>
      var c :| c in busy && Reserved(shift) <= c && a == ChunkAt(i, shift, c);
      ChunkBounds(i, shift, c);
      if i == j {
        var d :| d in busy && Reserved(shift) <= d && b == ChunkAt(i, shift, d);
        if d < c { ShlMono(d, c, shift); }
        ShlMono(c, d, shift);
      }
  }

  // ---------------------------------------------------------------- what operations do to the live blocks

  /** The live blocks and their sizes are the same but for `gained` and `lost`. */
  ghost predicate LiveChange(own: seq<Own>, own': seq<Own>, gained: set<nat>, lost: set<nat>) {
    && LiveSet(own') == (LiveSet(own) - lost) + gained
    && gained !! LiveSet(own) && lost <= LiveSet(own)
    && forall off :: off in LiveSet(own) && off in LiveSet(own') ==> BlockSize(own', off) == BlockSize(own, off)
  }

  lemma TakeLive(own: seq<Own>, p: nat, n: nat)
    requires Partition(own)
    requires p < |own| && own[p].Free? && own[p].start == p && 1 <= n <= own[p].len
    ensures LiveChange(own, Take(own, p, n), {PAGE * p}, {})
    ensures BlockSize(Take(own, p, n), PAGE * p) == PAGE * n
  {
    var own' := Take(own, p, n);
    assert Segment(own, p);
    forall off: nat
      ensures IsLive(own', off) <==> IsLive(own, off) || off == PAGE * p
      ensures IsLive(own, off) ==> IsLive(own', off) && BlockSize(own', off) == BlockSize(own, off)
    {
      var i := off / PAGE;
      if i < |own| { assert own'[i] == own[i] || p <= i < p + own[p].len; }
    }
    assert !IsLive(own, PAGE * p);
  }

  lemma GivePages(own: seq<Own>, p: nat, n: nat)
    requires Partition(own) && Holds(own, p, n)
    ensures forall i :: p <= i < p + n ==> Give(own, p, n)[i].Free? && own[i] == own[p]
    ensures forall i :: 0 <= i < |own| && !(p <= i < p + n) ==>
              Give(own, p, n)[i] == own[i] || (Give(own, p, n)[i].Free? && own[i].Free?)
  {
    GiveRange(own, p, n);
  }

  lemma GiveLive(own: seq<Own>, p: nat, n: nat)
    requires Partition(own) && Holds(own, p, n)
    requires own[p].Chunks? ==> ChunksOk(own[p]) && own[p].busy <= Below(Reserved(own[p].shift))
    ensures LiveChange(own, Give(own, p, n), {}, if own[p].Run? then {PAGE * p} else {})
  {
    var own' := Give(own, p, n);
    var gone := if own[p].Run? then {PAGE * p} else {};
    assert Segment(own, p);
    GivePages(own, p, n);
    forall off: nat
      ensures IsLive(own', off) <==> IsLive(own, off) && off !in gone
      ensures IsLive(own', off) ==> BlockSize(own', off) == BlockSize(own, off)
    {
      var i := off / PAGE;
      if i < |own| && p <= i < p + n { assert own[i] == own[p]; }
    }
  }

  /** A page may get a new set of busy chunks; the partition does not see it. */
  lemma ChunkKeeps(own: seq<Own>, page: nat, o: Own)
    requires Partition(own) && Coalesced(own) && page < |own|
    requires own[page].Chunks? || own[page] == Run(page, 1)
    requires o.Chunks? && ChunksOk(o)
    ensures Partition(own[page := o]) && Coalesced(own[page := o])
    ensures FreeSet(own[page := o]) == FreeSet(own)
  {
    var own' := own[page := o];
    assert Segment(own, page);
    forall i | 0 <= i < |own'| ensures Segment(own', i) {
      assert Segment(own, i);
      if i != page && !own[i].Chunks? {
        forall j | own[i].start <= j < own[i].start + own[i].len ensures own'[j] == own[i] {
          assert own[j] == own[i];
        }
      }
    }
    forall i | 0 < i < |own'| ensures NoSeam(own', i) {
      assert NoSeam(own, i);
    }
  }

  lemma LiveElsewhere(own: seq<Own>, page: nat, o: Own, off: nat)
    requires page < |own| && off / PAGE != page
    ensures IsLive(own[page := o], off) <==> IsLive(own, off)
    ensures IsLive(own, off) ==> BlockSize(own[page := o], off) == BlockSize(own, off)
  {
  }

  lemma LiveHere(own: seq<Own>, page: nat, c: nat)
    requires page < |own| && own[page].Chunks? && ChunksOk(own[page]) && c < ChunkCount(own[page].shift)
    ensures IsLive(own, ChunkAt(page, own[page].shift, c)) <==> c in own[page].busy && Reserved(own[page].shift) <= c
    ensures IsLive(own, ChunkAt(page, own[page].shift, c)) ==>
              BlockSize(own, ChunkAt(page, own[page].shift, c)) == Pow2(own[page].shift)
  {
    var shift := own[page].shift;
    ChunkBounds(page, shift, c);
    if IsLive(own, ChunkAt(page, shift, c)) {
      var d :| d in own[page].busy && Reserved(shift) <= d && ChunkAt(page, shift, c) == ChunkAt(page, shift, d);
      ChunkBounds(page, shift, d);
    }
  }

  /** Chunk c of a page becomes busy. */
  lemma GrabLive(own: seq<Own>, page: nat, c: nat)
    requires Partition(own) && page < |own| && own[page].Chunks? && ChunksOk(own[page]) && c < ChunkCount(own[page].shift) && c !in own[page].busy
    requires Guarded(own[page])
    ensures var shift, busy := own[page].shift, own[page].busy;
            var own' := own[page := Chunks(shift, busy + {c})];
            && LiveChange(own, own', {ChunkAt(page, shift, c)}, {})
            && BlockSize(own', ChunkAt(page, shift, c)) == Pow2(shift)
  {
    assert Segment(own, page);
    var shift, busy := own[page].shift, own[page].busy;
    var o := Chunks(shift, busy + {c});
    var own' := own[page := o];
    assert Reserved(shift) <= c;
    BusyLive(own, own', page, busy + {c});
    LiveHere(own, page, c);
    LiveHere(own', page, c);
  }

  /** Chunk c of a page becomes free. */
  lemma DropLive(own: seq<Own>, page: nat, c: nat)
    requires Partition(own) && page < |own| && own[page].Chunks? && ChunksOk(own[page]) && c in own[page].busy && Reserved(own[page].shift) <= c
    ensures var shift, busy := own[page].shift, own[page].busy;
            LiveChange(own, own[page := Chunks(shift, busy - {c})], {}, {ChunkAt(page, shift, c)})
  {
    assert Segment(own, page);
    var shift, busy := own[page].shift, own[page].busy;
    var own' := own[page := Chunks(shift, busy - {c})];
    BusyLive(own, own', page, busy - {c});
    LiveHere(own, page, c);
    LiveHere(own', page, c);
  }

  /** Apart from one chunk two states of a page have the same live chunks. */
  lemma BusyLive(own: seq<Own>, own': seq<Own>, page: nat, busy': set<nat>)
    requires page < |own| && own[page].Chunks? && ChunksOk(own[page])
    requires own' == own[page := Chunks(own[page].shift, busy')] && ChunksOk(own'[page])
    ensures forall off: nat :: off / PAGE != page ==> (IsLive(own', off) <==> IsLive(own, off))
    ensures forall off: nat :: IsLive(own, off) && IsLive(own', off) ==> BlockSize(own', off) == BlockSize(own, off)
    ensures forall off: nat :: IsLive(own', off) && !IsLive(own, off) ==>
              exists c :: c in busy' && c !in own[page].busy && off == ChunkAt(page, own[page].shift, c)
    ensures forall off: nat :: IsLive(own, off) && !IsLive(own', off) ==>
              exists c :: c !in busy' && c in own[page].busy && off == ChunkAt(page, own[page].shift, c)
  {
  }

  // ---------------------------------------------------------------- counters

  /** Chunks of a class on one page: those in use, or those there are. */
  ghost function Weight(o: Own, shift: nat, all: bool): int {
    if o.Chunks? && o.shift == shift && ChunksOk(o)
    then (if all then ChunkCount(shift) else |o.busy|) - Reserved(shift)
    else 0
  }

  ghost function Tally(own: seq<Own>, shift: nat, all: bool): int {
    if |own| == 0 then 0
    else Tally(own[..|own| - 1], shift, all) + Weight(own[|own| - 1], shift, all)
  }

  lemma {:induction false} TallyUpdate(own: seq<Own>, i: nat, o: Own, shift: nat, all: bool)
    requires i < |own|
    ensures Tally(own[i := o], shift, all) == Tally(own, shift, all) - Weight(own[i], shift, all) + Weight(o, shift, all)
    decreases |own|
  {
    var n := |own| - 1;
    if i < n {
      assert own[i := o][..n] == own[..n][i := o];
      TallyUpdate(own[..n], i, o, shift, all);
    } else {
      assert own[i := o][..n] == own[..n];
    }
  }

  lemma {:induction false} TallySame(own: seq<Own>, own': seq<Own>, shift: nat, all: bool)
    requires |own| == |own'|
    requires forall i :: 0 <= i < |own| ==> Weight(own[i], shift, all) == Weight(own'[i], shift, all)
    ensures Tally(own, shift, all) == Tally(own', shift, all)
    decreases |own|
  {
    if |own| > 0 { TallySame(own[..|own| - 1], own'[..|own| - 1], shift, all); }
  }

  lemma WeightNonNegative(o: Own, shift: nat, all: bool)
    requires all || Guarded(o)
    ensures Weight(o, shift, all) >= 0
  {
    if o.Chunks? && o.shift == shift && ChunksOk(o) {
      ReservedFacts(shift);
      BelowSize(Reserved(shift));
      if !all { SubsetSize(Below(Reserved(shift)), o.busy); }
    }
  }

  lemma {:induction false} SubsetSize(a: set<nat>, b: set<nat>)
    requires a <= b
    ensures |a| <= |b|
  {
    assert b == a + (b - a);
  }

  lemma {:induction false} TallyNonNegative(own: seq<Own>, shift: nat, all: bool)
    requires all || forall i :: 0 <= i < |own| ==> Guarded(own[i])
    ensures Tally(own, shift, all) >= 0
  {
    if |own| > 0 {
      TallyNonNegative(own[..|own| - 1], shift, all);
      WeightNonNegative(own[|own| - 1], shift, all);
    }
  }

  /** A page with a chunk in use is counted. */
  lemma TallySome(own: seq<Own>, page: nat, shift: nat)
    requires page < |own| && own[page].Chunks? && ChunksOk(own[page]) && own[page].shift == shift && Below(Reserved(shift)) < own[page].busy
    requires forall i :: 0 <= i < |own| ==> Guarded(own[i])
    ensures Tally(own, shift, false) >= 1
  {
    var rest := own[page := Run(page, 1)];
    TallyUpdate(own, page, Run(page, 1), shift, false);
    TallyNonNegative(rest, shift, false);
    BelowSize(Reserved(shift));
    var c :| c in own[page].busy && c !in Below(Reserved(shift));
    SubsetSize(Below(Reserved(shift)) + {c}, own[page].busy);
  }

  /** Page runs do not count. */
  lemma TallyTake(own: seq<Own>, p: nat, n: nat, shift: nat, all: bool)
    requires Partition(own) && p < |own| && own[p].Free? && own[p].start == p && 1 <= n <= own[p].len
    ensures Tally(Take(own, p, n), shift, all) == Tally(own, shift, all)
  {
    assert Segment(own, p);
    TallySame(own, Take(own, p, n), shift, all);
  }

  lemma TallyGive(own: seq<Own>, p: nat, n: nat, shift: nat, all: bool)
    requires Partition(own) && Holds(own, p, n)
    ensures Tally(Give(own, p, n), shift, all) ==
              Tally(own, shift, all) - (if own[p].Chunks? then Weight(own[p], shift, all) else 0)
  {
    GivePages(own, p, n);
    if own[p].Chunks? {
      TallyUpdate(own, p, Run(p, 1), shift, all);
      TallySame(own[p := Run(p, 1)], Give(own, p, n), shift, all);
    } else {
      TallySame(own, Give(own, p, n), shift, all);
    }
  }

  // ---------------------------------------------------------------- bitmaps of small chunks

  const PAGE_WORDS: nat := 512

  ghost function WordBits(busy: set<nat>, w: nat): (s: set<nat>)
    ensures forall b: nat :: b in s <==> b < 64 && 64 * w + b in busy
  {
    set b: nat | b in Below(64) && 64 * w + b in busy
  }

  ghost predicate MapWord(mem: seq<nat>, page: nat, w: nat, busy: set<nat>)
    requires PAGE_WORDS * page + w < |mem|
  {
    Encodes(mem[PAGE_WORDS * page + w], WordBits(busy, w))
  }

  ghost predicate SmallMap(mem: seq<nat>, page: nat, shift: nat, busy: set<nat>)
    requires MIN_SHIFT <= shift < EXACT_SHIFT && PAGE_WORDS * page + 8 <= |mem|
  {
    forall w :: 0 <= w < MapWords(shift) && w < 8 ==> MapWord(mem, page, w, busy)
  }

  ghost predicate PageMap(mem: seq<nat>, own: seq<Own>, i: nat)
    requires |mem| == PAGE_WORDS * |own| && i < |own|
  {
    own[i].Chunks? && MIN_SHIFT <= own[i].shift < EXACT_SHIFT ==> SmallMap(mem, i, own[i].shift, own[i].busy)
  }

  /** The in-page bitmaps of all pages of small chunks. */
  ghost predicate MapsOk(mem: seq<nat>, own: seq<Own>) {
    |mem| == PAGE_WORDS * |own| && forall i :: 0 <= i < |own| ==> PageMap(mem, own, i)
  }

  lemma MapSize(shift: nat)
    requires MIN_SHIFT <= shift < EXACT_SHIFT
    ensures 2 <= MapWords(shift) <= 8 && ChunkCount(shift) == 64 * MapWords(shift)
  {
    ReservedFacts(shift);
  }

  /** One word of one page's bitmap is rewritten. */
  lemma MapUpdate(mem: seq<nat>, own: seq<Own>, page: nat, w: nat, v: nat, busy': set<nat>)
    requires MapsOk(mem, own) && page < |own| && own[page].Chunks? && MIN_SHIFT <= own[page].shift < EXACT_SHIFT
    requires w < MapWords(own[page].shift)
    requires Encodes(v, WordBits(busy', w))
    requires forall x :: 0 <= x < MapWords(own[page].shift) && x != w ==> WordBits(busy', x) == WordBits(own[page].busy, x)
    ensures PAGE_WORDS * page + w < |mem|
    ensures MapsOk(mem[PAGE_WORDS * page + w := v], own[page := Chunks(own[page].shift, busy')])
  {
    var shift := own[page].shift;
    MapSize(shift);
    var mem', own' := mem[PAGE_WORDS * page + w := v], own[page := Chunks(shift, busy')];
    forall i | 0 <= i < |own'| ensures PageMap(mem', own', i) {
      assert PageMap(mem, own, i);
      if own'[i].Chunks? && MIN_SHIFT <= own'[i].shift < EXACT_SHIFT {
        forall x | 0 <= x < MapWords(own'[i].shift) && x < 8 ensures MapWord(mem', i, x, own'[i].busy) {
          assert MapWord(mem, i, x, own[i].busy);
        }
      }
    }
  }

  lemma WordBitsChange(busy: set<nat>, c: nat, x: nat)
    ensures WordBits(busy + {c}, x) == if x == c / 64 then WordBits(busy, x) + {c % 64} else WordBits(busy, x)
    ensures WordBits(busy - {c}, x) == if x == c / 64 then WordBits(busy, x) - {c % 64} else WordBits(busy, x)
  {
    forall b: nat
      ensures b in WordBits(busy + {c}, x) <==> b in WordBits(busy, x) || (x == c / 64 && b == c % 64)
      ensures b in WordBits(busy - {c}, x) <==> b in WordBits(busy, x) && !(x == c / 64 && b == c % 64)
    {
      if b < 64 { assert 64 * x + b == c <==> x == c / 64 && b == c % 64; }
    }
  }

  lemma MapTest(mem: seq<nat>, own: seq<Own>, page: nat, c: nat)
    requires MapsOk(mem, own) && page < |own| && own[page].Chunks? && MIN_SHIFT <= own[page].shift < EXACT_SHIFT
    requires c < ChunkCount(own[page].shift)
    ensures var a := PAGE_WORDS * page + c / 64;
            a < |mem| && (And(mem[a], Pow2(c % 64)) != 0 <==> c in own[page].busy)
  {
    MapSize(own[page].shift);
    assert PageMap(mem, own, page) && MapWord(mem, page, c / 64, own[page].busy);
    TestBit(mem[PAGE_WORDS * page + c / 64], c % 64);
  }

  lemma MapSet(mem: seq<nat>, own: seq<Own>, page: nat, c: nat)
    requires MapsOk(mem, own) && page < |own| && own[page].Chunks? && MIN_SHIFT <= own[page].shift < EXACT_SHIFT
    requires c < ChunkCount(own[page].shift)
    ensures var a := PAGE_WORDS * page + c / 64;
            && a < |mem|
            && MapsOk(mem[a := Or(mem[a], Pow2(c % 64))], own[page := Chunks(own[page].shift, own[page].busy + {c})])
  {
    var shift, busy, w, b := own[page].shift, own[page].busy, c / 64, c % 64;
    MapSize(shift);
    assert PageMap(mem, own, page) && MapWord(mem, page, w, busy);
    var v := mem[PAGE_WORDS * page + w];
    SetBit(v, b, WordBits(busy, w));
    WordBitsChange(busy, c, w);
    forall x | 0 <= x < MapWords(shift) && x != w ensures WordBits(busy + {c}, x) == WordBits(busy, x) {
      WordBitsChange(busy, c, x);
    }
    MapUpdate(mem, own, page, w, Or(v, Pow2(b)), busy + {c});
  }

  lemma MapClear(mem: seq<nat>, own: seq<Own>, page: nat, c: nat)
    requires MapsOk(mem, own) && page < |own| && own[page].Chunks? && MIN_SHIFT <= own[page].shift < EXACT_SHIFT
    requires c < ChunkCount(own[page].shift)
    ensures var a := PAGE_WORDS * page + c / 64;
            && a < |mem|
            && MapsOk(mem[a := AndNot(mem[a], Pow2(c % 64))], own[page := Chunks(own[page].shift, own[page].busy - {c})])
  {
    var shift, busy, w, b := own[page].shift, own[page].busy, c / 64, c % 64;
    MapSize(shift);
    assert PageMap(mem, own, page) && MapWord(mem, page, w, busy);
    var v := mem[PAGE_WORDS * page + w];
    ClearBit(v, b, WordBits(busy, w));
    WordBitsChange(busy, c, w);
    forall x | 0 <= x < MapWords(shift) && x != w ensures WordBits(busy - {c}, x) == WordBits(busy, x) {
      WordBitsChange(busy, c, x);
    }
    MapUpdate(mem, own, page, w, AndNot(v, Pow2(b)), busy - {c});
  }

  /** Clearing a bit that is set changes the word. */
  lemma ClearDiffers(mem: seq<nat>, own: seq<Own>, page: nat, c: nat)
    requires MapsOk(mem, own) && page < |own| && own[page].Chunks? && MIN_SHIFT <= own[page].shift < EXACT_SHIFT
    requires c < ChunkCount(own[page].shift) && c in own[page].busy
    ensures var a := PAGE_WORDS * page + c / 64; a < |mem| && AndNot(mem[a], Pow2(c % 64)) != mem[a]
  {
    MapSize(own[page].shift);
    assert PageMap(mem, own, page) && MapWord(mem, page, c / 64, own[page].busy);
    AndNotBit(mem[PAGE_WORDS * page + c / 64], Pow2(c % 64), c % 64);
    Pow2Bit(c % 64, c % 64);
    assert 64 * (c / 64) + c % 64 == c;
  }

  /** A bitmap word is NGX_SLAB_BUSY, or zero, exactly when its 64 chunks are all busy, or free. */
  lemma WordFull(mem: seq<nat>, own: seq<Own>, page: nat, w: nat)
    requires MapsOk(mem, own) && page < |own| && own[page].Chunks? && MIN_SHIFT <= own[page].shift < EXACT_SHIFT
    requires w < MapWords(own[page].shift)
    ensures PAGE_WORDS * page + w < |mem|
    ensures Encodes(mem[PAGE_WORDS * page + w], WordBits(own[page].busy, w))
    ensures mem[PAGE_WORDS * page + w] == BUSY <==> WordBits(own[page].busy, w) == Below(64)
    ensures mem[PAGE_WORDS * page + w] == 0 <==> WordBits(own[page].busy, w) == {}
  {
    var busy := own[page].busy;
    MapSize(own[page].shift);
    assert PageMap(mem, own, page) && MapWord(mem, page, w, busy);
    Pow2Values();
    EncodesFull(mem[PAGE_WORDS * page + w], WordBits(busy, w), 64);
    EncodesZero(mem[PAGE_WORDS * page + w], WordBits(busy, w));
  }

  lemma FullByWords(busy: set<nat>, words: nat)
    requires busy <= Below(64 * words)
    ensures busy == Below(64 * words) <==> forall w :: 0 <= w < words ==> WordBits(busy, w) == Below(64)
  {
    if forall w :: 0 <= w < words ==> WordBits(busy, w) == Below(64) {
      forall c: nat | c < 64 * words ensures c in busy {
        assert WordBits(busy, c / 64) == Below(64);
        assert c % 64 in WordBits(busy, c / 64);
      }
    }
    if busy == Below(64 * words) {
      forall w | 0 <= w < words ensures WordBits(busy, w) == Below(64) {
        assert forall b: nat :: b in WordBits(busy, w) <==> b in Below(64);
      }
    }
  }

  /** Nothing but the bitmap's own chunks is busy. */
  lemma EmptyByWords(busy: set<nat>, words: nat, reserved: nat)
    requires busy <= Below(64 * words) && reserved <= 64
    ensures busy <= Below(reserved) <==>
              WordBits(busy, 0) <= Below(reserved) && forall w :: 1 <= w < words ==> WordBits(busy, w) == {}
  {
    if WordBits(busy, 0) <= Below(reserved) && (forall w :: 1 <= w < words ==> WordBits(busy, w) == {}) {
      forall c: nat | c in busy ensures c < reserved {
        assert c % 64 in WordBits(busy, c / 64);
      }
    }
  }

  /** Pages that are not cut into chunks have no bitmap. */
  lemma MapsFrame(mem: seq<nat>, own: seq<Own>, own': seq<Own>)
    requires MapsOk(mem, own) && |own'| == |own|
    requires forall i :: 0 <= i < |own| && own'[i].Chunks? ==> own'[i] == own[i]
    ensures MapsOk(mem, own')
  {
    forall i | 0 <= i < |own'| ensures PageMap(mem, own', i) {
      assert PageMap(mem, own, i);
    }
  }

  /** Pages of larger chunks have no bitmap either. */
  lemma MapsOther(mem: seq<nat>, own: seq<Own>, page: nat, o: Own)
    requires MapsOk(mem, own) && page < |own| && o.Chunks? && o.shift >= EXACT_SHIFT
    ensures MapsOk(mem, own[page := o])
  {
    var own' := own[page := o];
    forall i | 0 <= i < |own'| ensures PageMap(mem, own', i) {
      assert PageMap(mem, own, i);
    }
  }

  /** A fresh page of small chunks: the bitmap's own chunks and the first one after them. */
  lemma MapFresh(mem: seq<nat>, mem': seq<nat>, own: seq<Own>, page: nat, shift: nat)
    requires MapsOk(mem, own) && page < |own| && MIN_SHIFT <= shift < EXACT_SHIFT && |mem'| == |mem|
    requires forall a :: 0 <= a < |mem| && !(PAGE_WORDS * page <= a < PAGE_WORDS * page + MapWords(shift)) ==> mem'[a] == mem[a]
    requires PAGE_WORDS * page + MapWords(shift) <= |mem|
    requires forall a :: PAGE_WORDS * page <= a < PAGE_WORDS * page + MapWords(shift) ==>
               mem'[a] == if a == PAGE_WORDS * page then Pow2(Reserved(shift) + 1) - 1 else 0
    ensures MapsOk(mem', own[page := Chunks(shift, Below(Reserved(shift) + 1))])
  {
    var busy := Below(Reserved(shift) + 1);
    var own' := own[page := Chunks(shift, busy)];
    MapSize(shift);
    ReservedFacts(shift);
    forall i | 0 <= i < |own'| ensures PageMap(mem', own', i) {
      assert PageMap(mem, own, i);
      if i == page {
        forall w | 0 <= w < MapWords(shift) && w < 8 ensures MapWord(mem', page, w, busy) {
          FreshWord(Reserved(shift) + 1, w);
        }
      } else if own'[i].Chunks? && MIN_SHIFT <= own'[i].shift < EXACT_SHIFT {
        MapSize(own'[i].shift);
        forall w | 0 <= w < MapWords(own'[i].shift) && w < 8 ensures MapWord(mem', i, w, own'[i].busy) {
          assert MapWord(mem, i, w, own[i].busy);
        }
      }
    }
  }

  lemma FreshWord(r: nat, w: nat)
    requires r <= 64
    ensures Encodes(if w == 0 then Pow2(r) - 1 else 0, WordBits(Below(r), w))
  {
    if w == 0 {
      Ones(r);
      assert WordBits(Below(r), 0) == Below(r);
    } else {
      forall i: nat ensures !Bit(0, i) && i !in WordBits(Below(r), w) { ZeroBit(i); }
    }
  }

  // ---------------------------------------------------------------- the page table under chunk operations

  /** A page keeps its place while its busy chunks change. */
  lemma StayShape(ns: seq<Node>, ns': seq<Node>, own: seq<Own>, o: Own, lists: seq<seq<nat>>, page: nat, w: nat)
    requires Shape(ns, own, lists, 0, 0) && page < |own| && own[page].Chunks?
    requires o.Chunks? && ChunksOk(o) && o.shift == own[page].shift
    requires Home(own[page := o], page) == Home(own, page)
    requires ns' == ns[page := ns[page].(slab := w)] && SlabWord(w, o.shift, o.busy)
    ensures Shape(ns', own[page := o], lists, 0, 0)
  {
    var own' := own[page := o];
    assert Matches(ns, own, page);
    ChunkKeeps(own, page, o);
    WidenHole(ns, own, lists, page, page + 1);
    TouchShape(ns, ns', own, lists, page, page + 1);
    RepaintShape(ns', own, own', lists, page, page + 1);
    assert Matches(ns', own', page);
    CloseHole(ns', own', lists, page, page + 1);
  }

  /** A page whose last chunk went leaves its slot list. */
  lemma FillShape(ns0: seq<Node>, ns1: seq<Node>, ns2: seq<Node>, ns3: seq<Node>, own: seq<Own>, o: Own,
                  lists: seq<seq<nat>>, page: nat, h: nat, k: nat, w: nat)
    requires Shape(ns0, own, lists, 0, 0) && page < |own| && own[page].Chunks?
    requires o.Chunks? && ChunksOk(o) && o.shift == own[page].shift && Full(o)
    requires h < LISTS && k < |lists[h]| && lists[h][k] == page
    requires ns1 == ns0[page := ns0[page].(slab := w)] && SlabWord(w, o.shift, o.busy)
    requires Unlinked(ns1, ns2, page)
    requires ns3 == ns2[page := Node(w, NULL, NULL, TypeOf(o.shift))]
    ensures Shape(ns3, own[page := o], lists[h := WithoutAt(lists[h], k)], 0, 0)
  {
    var own', lists' := own[page := o], lists[h := WithoutAt(lists[h], k)];
    ChunkKeeps(own, page, o);
    WidenHole(ns0, own, lists, page, page + 1);
    TouchShape(ns0, ns1, own, lists, page, page + 1);
    UnlinkShape(ns1, ns2, own, own', lists, page, page + 1, page, page + 1, h, k);
    TouchShape(ns2, ns3, own', lists', page, page + 1);
    assert Matches(ns3, own', page);
    CloseHole(ns3, own', lists', page, page + 1);
  }

  /** A page on no list, full until now or just allocated, opens at the front of its slot list. */
  lemma OpenShape(ns0: seq<Node>, ns1: seq<Node>, ns2: seq<Node>, own: seq<Own>, o: Own, lists: seq<seq<nat>>, page: nat, h: nat, w: nat)
    requires Shape(ns0, own, lists, 0, 0) && page < |own|
    requires own[page].Chunks? || own[page] == Run(page, 1)
    requires Home(own, page) == -1
    requires o.Chunks? && ChunksOk(o) && !Full(o) && h == o.shift - MIN_SHIFT + 1
    requires ns1 == ns0[page := ns0[page].(slab := w)] && SlabWord(w, o.shift, o.busy)
    requires Pushed(ns1, ns2, |own| + h, page, ListTag(h))
    ensures Shape(ns2, own[page := o], lists[h := [page] + lists[h]], 0, 0)
  {
    var own', lists' := own[page := o], lists[h := [page] + lists[h]];
    ChunkKeeps(own, page, o);
    WidenHole(ns0, own, lists, page, page + 1);
    TouchShape(ns0, ns1, own, lists, page, page + 1);
    PushShape(ns1, ns2, own, own', lists, page, page + 1, h, page);
    assert Home(own', page) == h;
    SlotFirst(ns1, own, lists, page, page + 1, h);
    assert Matches(ns2, own', page);
    CloseHole(ns2, own', lists', page, page + 1);
  }

  /** A list head points at itself or at a page that belongs on the list. */
  lemma SlotFirst(ns: seq<Node>, own: seq<Own>, lists: seq<seq<nat>>, lo: nat, hi: nat, h: nat)
    requires Shape(ns, own, lists, lo, hi) && h < LISTS
    ensures var first := ns[|own| + h].next;
            && 0 <= first < |ns|
            && (|lists[h]| == 0 <==> first == |own| + h)
            && (|lists[h]| > 0 ==> first == lists[h][0] < |own| && Home(own, first) == h && ns[first].next != first)
  {
    assert HasRing(ns, own, lists, h) && OnList(own, lists, h);
    if |lists[h]| > 0 {
      assert lists[h][0] in lists[h];
      RingNeighbours(ns, |own| + h, lists[h], ListTag(h), 0);
    }
  }

  /** `slab & NGX_SLAB_MAP_MASK` tells whether all, or none, of a big page's chunks are busy. */
  lemma MapHalf(w: nat, busy: set<nat>, count: nat)
    requires Encodes(Shr(w, MAP_SHIFT), busy) && busy <= Below(count) && count <= 32
    ensures And(w, MAP_MASK) == Shl(Pow2(count) - 1, MAP_SHIFT) <==> busy == Below(count)
    ensures And(w, MAP_MASK) == 0 <==> busy == {}
  {
    var high := Shr(w, MAP_SHIFT);
    assert And(w, MAP_MASK) == Shl(high, MAP_SHIFT) by {
      MaskValue();
      MaskedHigh(w, MAP_SHIFT, 32, busy);
    }
    EncodesFull(high, busy, count);
    EncodesZero(high, busy);
    ShlInjective(high, Pow2(count) - 1, MAP_SHIFT);
    ShlInjective(high, 0, MAP_SHIFT);
    ShlZero(MAP_SHIFT);
  }

  lemma {:induction false} ShlZero(k: nat)
    ensures Shl(0, k) == 0
  {
    if k > 0 { ShlZero(k - 1); }
  }

  lemma {:induction false} ShlTimes(a: nat, k: nat)
    ensures Shl(a, k) == a * Pow2(k)
  {
    if k > 0 {
      ShlTimes(a, k - 1);
      assert a * Pow2(k) == 2 * (a * Pow2(k - 1));
    }
  }

  lemma MaskValue()
    ensures MAP_MASK == Shl(Pow2(32) - 1, MAP_SHIFT)
  {
    Pow2Values();
    ShlTimes(Pow2(32) - 1, MAP_SHIFT);
  }

  /** From an address to the chunk it names. */
  lemma Locate(own: seq<Own>, off: nat)
    requires off / PAGE < |own| && own[off / PAGE].Chunks? && ChunksOk(own[off / PAGE])
    ensures var i, shift := off / PAGE, own[off / PAGE].shift;
            var c := Shr(off % PAGE, shift);
            && c < ChunkCount(shift)
            && (if And(off % PAGE, Pow2(shift) - 1) == 0
                then off == ChunkAt(i, shift, c) && (IsLive(own, off) <==> c in own[i].busy && Reserved(shift) <= c)
                else !IsLive(own, off))
  {
    var i, shift := off / PAGE, own[off / PAGE].shift;
    var r := off % PAGE;
    assert Pow2(6) == 64;
    assert Pow2(PAGE_SHIFT) == PAGE;
    ShrBound(r, shift, PAGE_SHIFT - shift);
    Aligned(r, shift);
    if And(r, Pow2(shift) - 1) == 0 {
      LiveHere(own, i, Shr(r, shift));
    } else if IsLive(own, off) {
      var c :| c in own[i].busy && Reserved(shift) <= c && off == ChunkAt(i, shift, c);
      ChunkBounds(i, shift, c);
    }
  }

  /** A free page is taken and cut into chunks, of which one is handed out. */
  lemma FreshLive(own: seq<Own>, p: nat, shift: nat)
    requires Partition(own) && p < |own| && own[p].Free? && own[p].start == p && 1 <= own[p].len
    requires MIN_SHIFT <= shift <= MAX_SHIFT
    ensures var own' := Take(own, p, 1)[p := Chunks(shift, Below(Reserved(shift) + 1))];
            && LiveChange(own, own', {ChunkAt(p, shift, Reserved(shift))}, {})
            && BlockSize(own', ChunkAt(p, shift, Reserved(shift))) == Pow2(shift)
  {
    var o := Chunks(shift, Below(Reserved(shift) + 1));
    var own1 := Take(own, p, 1);
    var own', off := own1[p := o], ChunkAt(p, shift, Reserved(shift));
    ReservedFacts(shift);
    TakeLive(own, p, 1);
    ChunkBounds(p, shift, Reserved(shift));
    LiveHere(own', p, Reserved(shift));
    forall x: nat
      ensures IsLive(own', x) <==> (IsLive(own1, x) && x != PAGE * p) || x == off
      ensures IsLive(own1, x) && x != PAGE * p ==> x / PAGE != p && BlockSize(own', x) == BlockSize(own1, x)
    {
      FreshAt(own1, p, o, off, x);
    }
    LiveReplaced(own, own1, own', PAGE * p, off);
  }

  /** The run of one page gives way to its first usable chunk. */
  lemma FreshAt(own: seq<Own>, p: nat, o: Own, off: nat, x: nat)
    requires p < |own| && own[p] == Run(p, 1)
    requires o.Chunks? && ChunksOk(o) && o.busy == Below(Reserved(o.shift) + 1) && Reserved(o.shift) < ChunkCount(o.shift)
    requires off == ChunkAt(p, o.shift, Reserved(o.shift))
    ensures IsLive(own[p := o], x) <==> (IsLive(own, x) && x != PAGE * p) || x == off
    ensures IsLive(own, x) && x != PAGE * p ==> x / PAGE != p && BlockSize(own[p := o], x) == BlockSize(own, x)
  {
    ChunkBounds(p, o.shift, Reserved(o.shift));
    LiveHere(own[p := o], p, Reserved(o.shift));
    if x / PAGE != p {
      LiveElsewhere(own, p, o, x);
    } else if IsLive(own[p := o], x) {
      var c :| c in o.busy && Reserved(o.shift) <= c && x == ChunkAt(p, o.shift, c);
    }
  }

  /** One block gained and another in its place. */
  lemma LiveReplaced(own: seq<Own>, own1: seq<Own>, own': seq<Own>, a: nat, b: nat)
    requires LiveChange(own, own1, {a}, {})
    requires forall x: nat :: IsLive(own', x) <==> (IsLive(own1, x) && x != a) || x == b
    requires forall x: nat :: IsLive(own1, x) && x != a ==> BlockSize(own', x) == BlockSize(own1, x)
    requires !IsLive(own1, b) || a == b
    ensures LiveChange(own, own', {b}, {})
  {
    forall x ensures x in LiveSet(own') <==> x in LiveSet(own) || x == b {
      InLiveSet(own', x);
      InLiveSet(own1, x);
      InLiveSet(own, x);
    }
  }
}
