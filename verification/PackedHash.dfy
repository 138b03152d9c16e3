/**
 The buckets of ngx_hash.c: records of different lengths packed one after the other, with a null
 value at the end, and the lookup that strides over them.

 Addresses are numbers; a record is stored whole at its address, and the room it takes up is what
 ngx_hash.c computes for it.  Pointers have 8 bytes, a cache line 64.
 */
module PackedHash {
  const PTR: nat := 8
  const LINE: nat := 64
  const SHORT: nat := 0x1_0000

  datatype Name = Name(key: string, hash: nat, value: nat)

  /** A record; the value 0 ends a bucket. */
  datatype Elt = Elt(value: nat, name: string)

  function Align(n: nat, a: nat): nat
    requires a > 0
  {
    (n + a - 1) / a * a
  }

  /** NGX_HASH_ELT_SIZE */
  function EltSize(key: string): nat { PTR + Align(|key| + 2, PTR) }

  lemma AlignOk(n: nat)
    ensures Align(n, PTR) >= n && Align(n, PTR) < n + PTR && Align(n, PTR) % PTR == 0
    ensures n % PTR == 0 ==> Align(n, PTR) == n
  {
  }

  lemma AlignLine(n: nat)
    ensures Align(n, LINE) >= n && Align(n, LINE) % LINE == 0
  {
  }

  /** From an aligned record the next aligned address after the name is the next record. */
  lemma Stride(elt: nat, len: nat)
    requires elt % PTR == 0
    ensures Align(elt + PTR + 2 + len, PTR) == elt + PTR + Align(len + 2, PTR)
    ensures (PTR + Align(len + 2, PTR)) % PTR == 0
  {
    var q := elt / PTR;
    assert elt == PTR * q;
    assert (elt + PTR + 2 + len + PTR - 1) / PTR == q + 1 + (len + 2 + PTR - 1) / PTR;
  }

  // ---------------------------------------------------------------- the names of a bucket

  /** hash % size: the bucket of a hash. */
  function Slot(hash: nat, size: nat): (i: nat)
    requires size > 0
    ensures i < size
  {
    if hash < size then hash else Slot(hash - size, size)
  }

  lemma {:induction false} SlotIsRemainder(hash: nat, size: nat) returns (q: nat)
    requires size > 0
    ensures hash == size * q + Slot(hash, size)
  {
    q := 0;
    if hash >= size {
      q := SlotIsRemainder(hash - size, size);
      q := q + 1;
    }
  }

  /** The names with the hash of bucket i, in their order. */
  function Bucket(names: seq<Name>, size: nat, i: nat): seq<Name>
    requires size > 0
  {
    if names == [] then []
    else
      var n := |names| - 1;
      var front := Bucket(names[..n], size, i);
      if Slot(names[n].hash, size) == i then front + [names[n]] else front
  }

  function Total(list: seq<Name>): nat {
    if list == [] then 0 else Total(list[..|list| - 1]) + EltSize(list[|list| - 1].key)
  }

  lemma BucketStep(names: seq<Name>, size: nat, i: nat, n: nat)
    requires size > 0 && n < |names|
    ensures Bucket(names[..n + 1], size, i)
            == if Slot(names[n].hash, size) == i then Bucket(names[..n], size, i) + [names[n]] else Bucket(names[..n], size, i)
  {
    assert names[..n + 1][..n] == names[..n];
  }

  lemma TotalStep(list: seq<Name>, x: Name)
    ensures Total(list + [x]) == Total(list) + EltSize(x.key)
  {
    assert (list + [x])[..|list|] == list;
  }

  /** A bucket grows with the names. */
  lemma {:induction false} TotalMono(names: seq<Name>, size: nat, i: nat, n: nat)
    requires size > 0 && n <= |names|
    ensures Total(Bucket(names[..n], size, i)) <= Total(Bucket(names, size, i))
    ensures Bucket(names[..n], size, i) <= Bucket(names, size, i)
    decreases |names| - n
  {
    if n == |names| {
      assert names[..n] == names;
    } else {
      TotalMono(names, size, i, n + 1);
      BucketStep(names, size, i, n);
      if Slot(names[n].hash, size) == i { TotalStep(Bucket(names[..n], size, i), names[n]); }
    }
  }

  /** Exactly the names of the list. */
  lemma {:induction false} BucketMembers(names: seq<Name>, size: nat, x: Name)
    requires size > 0
    ensures x in names <==> x in Bucket(names, size, Slot(x.hash, size))
    ensures forall i, y :: y in Bucket(names, size, i) ==> y in names && Slot(y.hash, size) == i
  {
    if names != [] {
      var n := |names| - 1;
      BucketMembers(names[..n], size, x);
      assert names == names[..n] + [names[n]];
    }
  }

  // ---------------------------------------------------------------- records in memory

  /** The records of the list stand one after the other from `at` on. */
  ghost predicate Packed(mem: map<nat, Elt>, at: nat, list: seq<Name>) {
    if list == [] then true
    else
      var n := |list| - 1;
      var a := at + Total(list[..n]);
      Packed(mem, at, list[..n]) && a in mem && mem[a] == Elt(list[n].value, list[n].key)
  }

  /** Writing behind the records, or in front of them, leaves them alone. */
  lemma {:induction false} PackedFrame(mem: map<nat, Elt>, at: nat, list: seq<Name>, a: nat, e: Elt)
    requires Packed(mem, at, list) && (a < at || at + Total(list) <= a)
    ensures Packed(mem[a := e], at, list)
    decreases |list|
  {
    if list != [] { PackedFrame(mem, at, list[..|list| - 1], a, e); }
  }

  lemma PackedMore(mem: map<nat, Elt>, mem': map<nat, Elt>, at: nat, list: seq<Name>, all: seq<Name>, x: Name, a: nat)
    requires Packed(mem, at, list) && a == at + Total(list) && mem' == mem[a := Elt(x.value, x.key)] && all == list + [x]
    ensures Packed(mem', at, all)
  {
    PackedFrame(mem, at, list, a, Elt(x.value, x.key));
    assert all[..|all| - 1] == list && all[|all| - 1] == x;
  }

  /** The k-th record. */
  lemma {:induction false} PackedAt(mem: map<nat, Elt>, at: nat, list: seq<Name>, k: nat)
    requires Packed(mem, at, list) && k < |list|
    ensures var a := at + Total(list[..k]); a in mem && mem[a] == Elt(list[k].value, list[k].key)
    ensures Total(list[..k + 1]) == Total(list[..k]) + EltSize(list[k].key) && Total(list[..k + 1]) <= Total(list)
    decreases |list|
  {
    var n := |list| - 1;
    if k < n {
      PackedAt(mem, at, list[..n], k);
      assert list[..n][..k] == list[..k] && list[..n][..k + 1] == list[..k + 1];
    } else {
      assert list[..k + 1] == list;
    }
  }

  // ---------------------------------------------------------------- looking up

  /** The value of the first name equal to the key, or 0. */
  function First(list: seq<Name>, key: string): nat {
    if list == [] then 0 else if list[0].key == key then list[0].value else First(list[1..], key)
  }

  /** A bucket that starts at `at`: aligned records and a null value behind them. */
  ghost predicate Stored(mem: map<nat, Elt>, at: nat, list: seq<Name>) {
    && at % PTR == 0 && Packed(mem, at, list) && (forall k :: 0 <= k < |list| ==> list[k].value != 0)
    && at + Total(list) in mem && mem[at + Total(list)].value == 0
  }

  lemma {:induction false} TotalAligned(list: seq<Name>)
    ensures Total(list) % PTR == 0
  {
    if list != [] {
      var n := |list| - 1;
      TotalAligned(list[..n]);
      Stride(0, |list[n].key|);
      SumAligned(Total(list[..n]), EltSize(list[n].key));
    }
  }

  lemma SumAligned(a: nat, b: nat)
    requires a % PTR == 0 && b % PTR == 0
    ensures (a + b) % PTR == 0
  {
  }

  /** What the k-th step of the lookup sees. */
  lemma StoredAt(mem: map<nat, Elt>, at: nat, list: seq<Name>, k: nat)
    requires Stored(mem, at, list) && k <= |list|
    ensures var a := at + Total(list[..k]); a % PTR == 0 && a in mem && (mem[a].value == 0 <==> k == |list|)
    ensures k < |list| ==> mem[at + Total(list[..k])] == Elt(list[k].value, list[k].key)
    ensures k < |list| ==> Total(list[..k + 1]) == Total(list[..k]) + EltSize(list[k].key)
  {
    TotalAligned(list[..k]);
    SumAligned(at, Total(list[..k]));
    if k < |list| {
      PackedAt(mem, at, list, k);
    } else {
      assert list[..k] == list;
    }
  }

  /** The lookup stands at the k-th record. */
  ghost predicate Seen(mem: map<nat, Elt>, at: nat, list: seq<Name>, k: nat, elt: nat) {
    k <= |list| && elt == at + Total(list[..k]) && elt in mem && (mem[elt].value == 0 <==> k == |list|)
  }

  /** ngx_hash_find, in the bucket of the key */
  method FindIn(mem: map<nat, Elt>, at: nat, key: string, ghost list: seq<Name>) returns (value: nat)
    requires Stored(mem, at, list)
    ensures value == First(list, key)
  {
    var elt: nat := at;
    ghost var k: nat := 0;
    StoredAt(mem, at, list, 0);
    assert list[0..] == list && list[..0] == [];
    while mem[elt].value != 0
      invariant Seen(mem, at, list, k, elt)
      invariant First(list[k..], key) == First(list, key)
      decreases |list| - k
    {
      FirstStep(list, key, k);
      NextElt(mem, at, list, k, elt);
      if |mem[elt].name| == |key| && mem[elt].name == key {
        return mem[elt].value;
      }
      elt := Align(elt + PTR + 2 + |mem[elt].name|, PTR);
      k := k + 1;
    }
    assert list[k..] == [];
    return 0;
  }

  lemma FirstStep(list: seq<Name>, key: string, k: nat)
    requires k < |list|
    ensures First(list[k..], key) == if list[k].key == key then list[k].value else First(list[k + 1..], key)
  {
    assert list[k..][0] == list[k] && list[k..][1..] == list[k + 1..];
  }

  lemma NextElt(mem: map<nat, Elt>, at: nat, list: seq<Name>, k: nat, elt: nat)
    requires Stored(mem, at, list) && k < |list| && Seen(mem, at, list, k, elt)
    ensures mem[elt] == Elt(list[k].value, list[k].key)
    ensures Seen(mem, at, list, k + 1, Align(elt + PTR + 2 + |list[k].key|, PTR))
  {
    StoredAt(mem, at, list, k);
    StoredAt(mem, at, list, k + 1);
    Stride(elt, |list[k].key|);
  }

  /** With different keys the first equal name is the only one. */
  lemma {:induction false} FirstIs(list: seq<Name>, key: string)
    requires forall j, k :: 0 <= j < k < |list| ==> list[j].key != list[k].key
    requires forall k :: 0 <= k < |list| ==> list[k].value != 0
    ensures forall x :: x in list && x.key == key ==> First(list, key) == x.value
    ensures First(list, key) == 0 <==> forall x :: x in list ==> x.key != key
  {
    if list != [] {
      assert list == [list[0]] + list[1..];
      FirstIs(list[1..], key);
    }
  }

  // ---------------------------------------------------------------- building

  /** The bytes reserved for a bucket: its records and the null value, in whole cache lines; nothing for an empty one. */
  function Reserved(list: seq<Name>): nat {
    if list == [] then 0 else Align(PTR + Total(list), LINE)
  }

  /** Where bucket i begins. */
  function Base(names: seq<Name>, size: nat, start: nat, i: nat): nat
    requires size > 0
  {
    if i == 0 then start else Base(names, size, start, i - 1) + Reserved(Bucket(names, size, i - 1))
  }

  /** No bucket's total overflows the 16-bit counters. */
  ghost predicate Fits(names: seq<Name>, size: nat)
    requires size > 0
  {
    forall i :: 0 <= i < size ==> Reserved(Bucket(names, size, i)) < SHORT
  }

  lemma {:induction false} BaseMono(names: seq<Name>, size: nat, start: nat, i: nat, j: nat)
    requires size > 0 && i < j
    ensures Base(names, size, start, i) + Reserved(Bucket(names, size, i)) <= Base(names, size, start, j)
    decreases j
  {
    if i + 1 < j { BaseMono(names, size, start, i, j - 1); }
  }

  lemma {:induction false} BaseAligned(names: seq<Name>, size: nat, start: nat, i: nat)
    requires size > 0 && start % LINE == 0
    ensures Base(names, size, start, i) % LINE == 0 && Base(names, size, start, i) % PTR == 0
  {
    if i > 0 {
      BaseAligned(names, size, start, i - 1);
      AlignLine(PTR + Total(Bucket(names, size, i - 1)));
      LineSum(Base(names, size, start, i - 1), Reserved(Bucket(names, size, i - 1)));
    } else {
      LineSum(start, 0);
    }
  }

  lemma LineSum(a: nat, b: nat)
    requires a % LINE == 0 && b % LINE == 0
    ensures (a + b) % LINE == 0 && (a + b) % PTR == 0
  {
    assert a + b == LINE * (a / LINE + b / LINE);
    LineIsPtr(a + b);
  }

  lemma LineIsPtr(n: nat)
    requires n % LINE == 0
    ensures n % PTR == 0
  {
    assert n == PTR * (8 * (n / LINE));
  }

  lemma ReservedEnough(list: seq<Name>)
    requires list != []
    ensures Total(list) + PTR <= Reserved(list)
  {
    AlignLine(PTR + Total(list));
  }

  /** The bytes of the first n names in bucket i. */
  ghost function Room(names: seq<Name>, size: nat, n: nat, i: nat): nat
    requires size > 0 && n <= |names|
  {
    Total(Bucket(names[..n], size, i))
  }

  lemma RoomStep(names: seq<Name>, size: nat, n: nat, i: nat)
    requires size > 0 && n < |names|
    ensures Room(names, size, n + 1, i) == Room(names, size, n, i) + if Slot(names[n].hash, size) == i then EltSize(names[n].key) else 0
  {
    BucketStep(names, size, i, n);
    if Slot(names[n].hash, size) == i { TotalStep(Bucket(names[..n], size, i), names[n]); }
  }

  lemma RoomEnds(names: seq<Name>, size: nat, i: nat)
    requires size > 0
    ensures Room(names, size, 0, i) == 0 && Room(names, size, |names|, i) == Total(Bucket(names, size, i))
  {
    assert names[..0] == [] && names[..|names|] == names;
  }

  lemma RoomBound(names: seq<Name>, size: nat, n: nat)
    requires size > 0 && Fits(names, size) && n < |names|
    ensures var i := Slot(names[n].hash, size); PTR + Room(names, size, n, i) + EltSize(names[n].key) < SHORT
  {
    var i := Slot(names[n].hash, size);
    BucketStep(names, size, i, n);
    RoomStep(names, size, n, i);
    Bounded(names, size, i, n + 1);
  }

  /** The counters after n names. */
  ghost predicate Counts(test: seq<nat>, names: seq<Name>, size: nat, n: nat, off: nat)
    requires size > 0 && n <= |names|
  {
    |test| == size && forall i :: 0 <= i < size ==> test[i] == off + Room(names, size, n, i)
  }

  lemma CountsStart(names: seq<Name>, size: nat, off: nat, test: seq<nat>)
    requires size > 0 && |test| == size && forall i :: 0 <= i < size ==> test[i] == off
    ensures Counts(test, names, size, 0, off)
  {
    forall i | 0 <= i < size ensures Room(names, size, 0, i) == 0 {
      RoomEnds(names, size, i);
    }
  }

  lemma CountsStep(test: seq<nat>, names: seq<Name>, size: nat, n: nat, off: nat, key: nat, room: nat)
    requires size > 0 && Fits(names, size) && n < |names| && off <= PTR && Counts(test, names, size, n, off)
    requires key == Slot(names[n].hash, size) && room == (test[key] + EltSize(names[n].key)) % SHORT
    ensures Counts(test[key := room], names, size, n + 1, off)
  {
    RoomBound(names, size, n);
    SmallMod(test[key] + EltSize(names[n].key));
    var test' := test[key := room];
    forall i | 0 <= i < size ensures test'[i] == off + Room(names, size, n + 1, i) {
      RoomStep(names, size, n, i);
    }
  }

  /** The room of the n-th name is added to the counter of its bucket. */
  method Add(test: array<nat>, names: seq<Name>, size: nat, n: nat, ghost off: nat)
    requires size > 0 && Fits(names, size) && n < |names| && off <= PTR && test.Length == size && Counts(test[..], names, size, n, off)
    modifies test
    ensures Counts(test[..], names, size, n + 1, off)
  {
    var key := Slot(names[n].hash, size);
    ghost var t := test[..];
    var room := (test[key] + EltSize(names[n].key)) % SHORT;
    CountsStep(t, names, size, n, off, key, room);
    test[key] := room;
    assert test[..] == t[key := room];
  }

  /** The second pass: the room each bucket needs, counted in 16 bits. */
  method Measure(names: seq<Name>, size: nat) returns (test: array<nat>)
    requires size > 0 && Fits(names, size)
    ensures fresh(test) && test.Length == size && Counts(test[..], names, size, |names|, PTR)
  {
    test := new nat[size](_ => PTR);
    CountsStart(names, size, PTR, test[..]);
    var n := 0;
    while n < |names|
      invariant n <= |names| && Counts(test[..], names, size, n, PTR)
    {
      Add(test, names, size, n, PTR);
      n := n + 1;
    }
  }

  lemma AllTotals(test: seq<nat>, names: seq<Name>, size: nat)
    requires size > 0 && Counts(test, names, size, |names|, PTR)
    ensures |test| == size && forall j :: 0 <= j < size ==> test[j] == PTR + Total(Bucket(names, size, j))
  {
    forall j | 0 <= j < size ensures test[j] == PTR + Total(Bucket(names, size, j)) {
      RoomEnds(names, size, j);
    }
  }

  ghost predicate LaidAt(names: seq<Name>, size: nat, start: nat, buckets: seq<int>, i: nat)
    requires size > 0
  {
    i < |buckets| && buckets[i] == if Bucket(names, size, i) == [] then -1 else Base(names, size, start, i)
  }

  /** Whole cache lines, and the beginning of each bucket; -1 for an empty one. */
  method Lay(names: seq<Name>, size: nat, start: nat, test: array<nat>) returns (buckets: seq<int>, end: nat)
    requires size > 0 && Fits(names, size) && test.Length == size && Counts(test[..], names, size, |names|, PTR)
    ensures Laid(names, size, start, buckets) && end == Base(names, size, start, size)
  {
    AllTotals(test[..], names, size);
    var i := 0;
    buckets, end := [], start;
    while i < size
      invariant LaidUpTo(names, size, start, buckets, i, end) && i <= size
    {
      assert test[..][i] == test[i];
      LayStep(names, size, start, buckets, i, end, test[i]);
      if test[i] == PTR {
        buckets := buckets + [-1];
      } else {
        buckets, end := buckets + [end], end + Align(test[i], LINE) % SHORT;
      }
      i := i + 1;
    }
  }

  ghost predicate LaidUpTo(names: seq<Name>, size: nat, start: nat, buckets: seq<int>, i: nat, end: nat)
    requires size > 0
  {
    |buckets| == i && end == Base(names, size, start, i) && forall j :: 0 <= j < i ==> LaidAt(names, size, start, buckets, j)
  }

  lemma LayStep(names: seq<Name>, size: nat, start: nat, buckets: seq<int>, i: nat, end: nat, room: nat)
    requires size > 0 && Fits(names, size) && i < size && LaidUpTo(names, size, start, buckets, i, end)
    requires room == PTR + Total(Bucket(names, size, i))
    ensures if room == PTR then LaidUpTo(names, size, start, buckets + [-1], i + 1, end)
            else LaidUpTo(names, size, start, buckets + [end], i + 1, end + Align(room, LINE) % SHORT)
  {
    var list := Bucket(names, size, i);
    NonEmptyTotal(list);
    assert Reserved(list) < SHORT;
    var next := if room == PTR then buckets + [-1] else buckets + [end];
    forall j | 0 <= j < i + 1 ensures LaidAt(names, size, start, next, j) {
      if j < i { assert LaidAt(names, size, start, buckets, j); }
    }
    SmallMod(Reserved(list));
  }

  lemma SmallMod(x: nat)
    requires x < SHORT
    ensures x % SHORT == x
  {
  }

  lemma NonEmptyTotal(list: seq<Name>)
    ensures Total(list) == 0 <==> list == []
  {
  }

  /** The counters stay below 16 bits. */
  lemma Bounded(names: seq<Name>, size: nat, i: nat, n: nat)
    requires size > 0 && i < size && Fits(names, size) && n <= |names| && Bucket(names[..n], size, i) != []
    ensures PTR + Total(Bucket(names[..n], size, i)) < SHORT
  {
    TotalMono(names, size, i, n);
    ReservedEnough(Bucket(names, size, i));
  }

  /** The first n names are in their buckets. */
  ghost predicate FilledAt(mem: map<nat, Elt>, names: seq<Name>, size: nat, start: nat, n: nat, i: nat)
    requires size > 0 && n <= |names|
  {
    Packed(mem, Base(names, size, start, i), Bucket(names[..n], size, i))
  }

  /** What is in use of a bucket, and its null value, lie inside the room reserved for it. */
  lemma Inside(names: seq<Name>, size: nat, start: nat, n: nat, i: nat)
    requires size > 0 && n <= |names|
    ensures Room(names, size, n, i) <= Total(Bucket(names, size, i)) <= Reserved(Bucket(names, size, i))
    ensures Bucket(names, size, i) != [] ==> Total(Bucket(names, size, i)) + PTR <= Reserved(Bucket(names, size, i))
    ensures Base(names, size, start, i + 1) == Base(names, size, start, i) + Reserved(Bucket(names, size, i))
  {
    TotalMono(names, size, i, n);
    if Bucket(names, size, i) != [] { ReservedEnough(Bucket(names, size, i)); }
  }

  /** The next record of bucket `key` goes behind the ones there and outside all other buckets. */
  lemma PlaceApart(names: seq<Name>, size: nat, start: nat, n: nat, m: nat, key: nat, i: nat, a: nat)
    requires size > 0 && n <= |names| && m <= |names| && i != key && Bucket(names, size, key) != []
    requires a == Base(names, size, start, key) + Room(names, size, m, key)
    ensures a < Base(names, size, start, i) || Base(names, size, start, i) + Room(names, size, n, i) <= a
  {
    Inside(names, size, start, n, i);
    Inside(names, size, start, m, key);
    if i < key { BaseMono(names, size, start, i, key); } else { BaseMono(names, size, start, key, i); }
  }

  lemma PlaceStep(mem: map<nat, Elt>, names: seq<Name>, size: nat, start: nat, n: nat, i: nat, a: nat)
    requires size > 0 && n < |names| && FilledAt(mem, names, size, start, n, i)
    requires var key := Slot(names[n].hash, size); a == Base(names, size, start, key) + Room(names, size, n, key)
    ensures FilledAt(mem[a := Elt(names[n].value, names[n].key)], names, size, start, n + 1, i)
  {
    var key, e := Slot(names[n].hash, size), Elt(names[n].value, names[n].key);
    var list := Bucket(names[..n], size, i);
    BucketStep(names, size, i, n);
    if i == key {
      PackedMore(mem, mem[a := e], Base(names, size, start, i), list, list + [names[n]], names[n], a);
    } else {
      Hosts(names, size, n);
      PlaceApart(names, size, start, n, n, key, i, a);
      PackedFrame(mem, Base(names, size, start, i), list, a, e);
    }
  }

  lemma Hosts(names: seq<Name>, size: nat, n: nat)
    requires size > 0 && n < |names|
    ensures Bucket(names, size, Slot(names[n].hash, size)) != []
  {
    BucketMembers(names, size, names[n]);
  }

  ghost predicate AllFilled(mem: map<nat, Elt>, names: seq<Name>, size: nat, start: nat, n: nat)
    requires size > 0 && n <= |names|
  {
    forall i :: 0 <= i < size ==> FilledAt(mem, names, size, start, n, i)
  }

  lemma AllFilledStep(mem: map<nat, Elt>, names: seq<Name>, size: nat, start: nat, n: nat, a: nat)
    requires size > 0 && n < |names| && AllFilled(mem, names, size, start, n)
    requires var key := Slot(names[n].hash, size); a == Base(names, size, start, key) + Room(names, size, n, key)
    ensures AllFilled(mem[a := Elt(names[n].value, names[n].key)], names, size, start, n + 1)
  {
    var mem', m := mem[a := Elt(names[n].value, names[n].key)], n + 1;
    forall i | 0 <= i < size ensures FilledAt(mem', names, size, start, m, i) {
      PlaceStep(mem, names, size, start, n, i, a);
    }
  }

  ghost predicate Laid(names: seq<Name>, size: nat, start: nat, buckets: seq<int>)
    requires size > 0
  {
    |buckets| == size && forall i :: 0 <= i < size ==> LaidAt(names, size, start, buckets, i)
  }

  /** The address for the next record. */
  lemma NextAddress(names: seq<Name>, size: nat, start: nat, buckets: seq<int>, test: seq<nat>, n: nat)
    requires size > 0 && n < |names| && Laid(names, size, start, buckets) && Counts(test, names, size, n, 0)
    ensures var key := Slot(names[n].hash, size);
            buckets[key] >= 0 && buckets[key] + test[key] == Base(names, size, start, key) + Room(names, size, n, key)
  {
    var key := Slot(names[n].hash, size);
    Hosts(names, size, n);
    assert LaidAt(names, size, start, buckets, key);
  }

  /** The third pass: every record at its place. */
  method Place(names: seq<Name>, size: nat, ghost start: nat, buckets: seq<int>) returns (mem: map<nat, Elt>, test: array<nat>)
    requires size > 0 && Fits(names, size) && Laid(names, size, start, buckets)
    ensures AllFilled(mem, names, size, start, |names|)
    ensures fresh(test) && test.Length == size && Counts(test[..], names, size, |names|, 0)
  {
    test := new nat[size](_ => 0);
    CountsStart(names, size, 0, test[..]);
    mem := map[];
    var n := 0;
    assert names[..0] == [];
    while n < |names|
      invariant n <= |names| && Counts(test[..], names, size, n, 0) && AllFilled(mem, names, size, start, n)
    {
      var key := Slot(names[n].hash, size);
      NextAddress(names, size, start, buckets, test[..], n);
      var elt: nat := buckets[key] + test[key];
      AllFilledStep(mem, names, size, start, n, elt);
      mem := mem[elt := Elt(names[n].value, names[n].key)];
      Add(test, names, size, n, 0);
      n := n + 1;
    }
  }

  /** Bucket i is complete. */
  ghost predicate Ready(mem: map<nat, Elt>, names: seq<Name>, size: nat, start: nat, i: nat)
    requires size > 0
  {
    Bucket(names, size, i) != [] ==> Stored(mem, Base(names, size, start, i), Bucket(names, size, i))
  }

  /** A null value behind bucket i. */
  lemma Terminated(mem: map<nat, Elt>, names: seq<Name>, size: nat, start: nat, i: nat, j: nat, a: nat)
    requires size > 0 && start % LINE == 0 && Bucket(names, size, i) != [] && FilledAt(mem, names, size, start, |names|, j)
    requires a == Base(names, size, start, i) + Room(names, size, |names|, i)
    requires forall k :: 0 <= k < |names| ==> names[k].value != 0
    ensures FilledAt(mem[a := Elt(0, "")], names, size, start, |names|, j)
    ensures j != i && Ready(mem, names, size, start, j) ==> Ready(mem[a := Elt(0, "")], names, size, start, j)
    ensures j == i ==> Ready(mem[a := Elt(0, "")], names, size, start, i)
  {
    assert names[..|names|] == names;
    RoomEnds(names, size, i);
    RoomEnds(names, size, j);
    var list, at := Bucket(names, size, j), Base(names, size, start, j);
    if i != j {
      PlaceApart(names, size, start, |names|, |names|, i, j, a);
      if list != [] && a == at + Total(list) { EndsApart(names, size, start, i, j); }
    }
    PackedFrame(mem, at, list, a, Elt(0, ""));
    BaseAligned(names, size, start, j);
    forall k | 0 <= k < |list| ensures list[k].value != 0 {
      Members(names, size, j, k);
    }
  }

  lemma AllTerminated(mem: map<nat, Elt>, mem': map<nat, Elt>, names: seq<Name>, size: nat, start: nat, i: nat, a: nat)
    requires size > 0 && start % LINE == 0 && i < size && Bucket(names, size, i) != [] && AllFilled(mem, names, size, start, |names|)
    requires a == Base(names, size, start, i) + Room(names, size, |names|, i)
    requires forall k :: 0 <= k < |names| ==> names[k].value != 0
    requires mem' == mem[a := Elt(0, "")] && forall j :: 0 <= j < i ==> Ready(mem, names, size, start, j)
    ensures AllFilled(mem', names, size, start, |names|)
    ensures forall j :: 0 <= j <= i ==> Ready(mem', names, size, start, j)
  {
    var m := |names|;
    forall j | 0 <= j < size ensures FilledAt(mem', names, size, start, m, j) {
      Terminated(mem, names, size, start, i, j, a);
    }
    forall j | 0 <= j <= i ensures Ready(mem', names, size, start, j) {
      assert FilledAt(mem, names, size, start, m, j);
      Terminated(mem, names, size, start, i, j, a);
    }
  }

  lemma Members(names: seq<Name>, size: nat, i: nat, k: nat)
    requires size > 0 && k < |Bucket(names, size, i)|
    ensures Bucket(names, size, i)[k] in names
  {
    BucketMembers(names, size, Bucket(names, size, i)[k]);
    assert Bucket(names, size, i)[k] in Bucket(names, size, i);
  }

  /** The ends of two buckets differ. */
  lemma EndsApart(names: seq<Name>, size: nat, start: nat, i: nat, j: nat)
    requires size > 0 && i != j && Bucket(names, size, i) != [] && Bucket(names, size, j) != []
    ensures Base(names, size, start, i) + Total(Bucket(names, size, i)) != Base(names, size, start, j) + Total(Bucket(names, size, j))
  {
    ReservedEnough(Bucket(names, size, i));
    ReservedEnough(Bucket(names, size, j));
    if i < j { BaseMono(names, size, start, i, j); } else { BaseMono(names, size, start, j, i); }
  }

  /** The last pass: null values. */
  method Terminate(names: seq<Name>, size: nat, ghost start: nat, buckets: seq<int>, mem0: map<nat, Elt>, test: array<nat>) returns (mem: map<nat, Elt>)
    requires size > 0 && start % LINE == 0 && Laid(names, size, start, buckets) && test.Length == size
    requires AllFilled(mem0, names, size, start, |names|) && Counts(test[..], names, size, |names|, 0)
    requires forall k :: 0 <= k < |names| ==> names[k].value != 0
    ensures forall i :: 0 <= i < size ==> Ready(mem, names, size, start, i)
  {
    mem := mem0;
    var i := 0;
    while i < size
      invariant i <= size && AllFilled(mem, names, size, start, |names|)
      invariant forall j :: 0 <= j < i ==> Ready(mem, names, size, start, j)
    {
      assert LaidAt(names, size, start, buckets, i) && test[..][i] == test[i];
      if buckets[i] >= 0 {
        var elt: nat := buckets[i] + test[i];
        AllTerminated(mem, mem[elt := Elt(0, "")], names, size, start, i, elt);
        mem := mem[elt := Elt(0, "")];
      }
      i := i + 1;
    }
  }

  // ---------------------------------------------------------------- bytes

  lemma {:induction false} TotalTake(list: seq<Name>, k: nat, m: nat)
    requires k <= m <= |list|
    ensures Total(list[..k]) <= Total(list[..m])
    ensures k < m ==> Total(list[..k]) + EltSize(list[k].key) <= Total(list[..m])
    decreases m
  {
    if k < m {
      TotalTake(list, k, m - 1);
      assert list[..m][..m - 1] == list[..m - 1];
    }
  }

  /** The address of record k of bucket i; behind the last record that of the null value. */
  function Address(names: seq<Name>, size: nat, start: nat, i: nat, k: nat): nat
    requires size > 0 && k <= |Bucket(names, size, i)|
  {
    Base(names, size, start, i) + Total(Bucket(names, size, i)[..k])
  }

  /** The bytes it takes up: value, length and name; or the null value. */
  function Bytes(names: seq<Name>, size: nat, i: nat, k: nat): nat
    requires size > 0 && k <= |Bucket(names, size, i)|
  {
    PTR + if k < |Bucket(names, size, i)| then 2 + |Bucket(names, size, i)[k].key| else 0
  }

  /** Every record, and the null value, lies inside the room of its bucket, and ends where the next one begins or before. */
  lemma BytesInside(names: seq<Name>, size: nat, start: nat, i: nat, k: nat)
    requires size > 0 && Bucket(names, size, i) != [] && k <= |Bucket(names, size, i)|
    ensures Base(names, size, start, i) <= Address(names, size, start, i, k)
    ensures Address(names, size, start, i, k) + Bytes(names, size, i, k) <= Base(names, size, start, i + 1)
    ensures forall m :: k < m <= |Bucket(names, size, i)| ==>
              Address(names, size, start, i, k) + Bytes(names, size, i, k) <= Address(names, size, start, i, m)
  {
    var list := Bucket(names, size, i);
    ReservedEnough(list);
    assert list[..|list|] == list;
    TotalTake(list, k, |list|);
    if k < |list| { AlignOk(|list[k].key| + 2); }
    forall m | k < m <= |list| ensures Address(names, size, start, i, k) + Bytes(names, size, i, k) <= Address(names, size, start, i, m) {
      TotalTake(list, k, m);
    }
  }

  /** No two of them share a byte. */
  lemma BytesApart(names: seq<Name>, size: nat, start: nat, i: nat, k: nat, j: nat, m: nat)
    requires size > 0 && Bucket(names, size, i) != [] && k <= |Bucket(names, size, i)|
    requires Bucket(names, size, j) != [] && m <= |Bucket(names, size, j)| && i <= j && (i == j ==> k < m)
    ensures Address(names, size, start, i, k) + Bytes(names, size, i, k) <= Address(names, size, start, j, m)
  {
    BytesInside(names, size, start, i, k);
    BytesInside(names, size, start, j, m);
    if i < j { BaseMono(names, size, start, i, j); }
  }

  // ---------------------------------------------------------------- the whole table

  datatype Table = Table(size: nat, buckets: seq<int>, mem: map<nat, Elt>)

  /** The table holds the names. */
  ghost predicate Holds(t: Table, names: seq<Name>, start: nat) {
    && t.size > 0 && Laid(names, t.size, start, t.buckets)
    && forall i :: 0 <= i < t.size ==> Ready(t.mem, names, t.size, start, i)
  }

  /** ngx_hash_init, once the number of buckets is chosen; `start` is the aligned address of the memory for them. */
  method HashInit(names: seq<Name>, size: nat, start: nat) returns (t: Table, ghost end: nat)
    requires size > 0 && start % LINE == 0 && Fits(names, size) && forall k :: 0 <= k < |names| ==> names[k].value != 0
    ensures t.size == size && Holds(t, names, start) && end == Base(names, size, start, size)
  {
    var test := Measure(names, size);
    var buckets, e := Lay(names, size, start, test);
    var mem, counts := Place(names, size, start, buckets);
    mem := Terminate(names, size, start, buckets, mem, counts);
    t, end := Table(size, buckets, mem), e;
  }

  /** ngx_hash_find */
  method HashFind(t: Table, hash: nat, key: string, ghost names: seq<Name>, ghost start: nat) returns (value: nat)
    requires Holds(t, names, start)
    ensures value == First(Bucket(names, t.size, Slot(hash, t.size)), key)
  {
    var i := Slot(hash, t.size);
    assert LaidAt(names, t.size, start, t.buckets, i) && Ready(t.mem, names, t.size, start, i);
    if t.buckets[i] < 0 {
      return 0;
    }
    value := FindIn(t.mem, t.buckets[i], key, Bucket(names, t.size, i));
  }

  /** Looked up with its hash, a name is found exactly when it is in the table, with its value. */
  lemma FoundIff(names: seq<Name>, size: nat, key: string, hash: nat)
    requires size > 0 && (forall j, k :: 0 <= j < k < |names| ==> names[j].key != names[k].key)
    requires forall k :: 0 <= k < |names| ==> names[k].value != 0 && (names[k].key == key ==> names[k].hash == hash)
    ensures var v := First(Bucket(names, size, Slot(hash, size)), key);
            && (forall k :: 0 <= k < |names| && names[k].key == key ==> v == names[k].value)
            && (v == 0 <==> forall k :: 0 <= k < |names| ==> names[k].key != key)
  {
    var list := Bucket(names, size, Slot(hash, size));
    BucketDistinct(names, size, Slot(hash, size));
    forall k | 0 <= k < |list| ensures list[k].value != 0 && list[k] in names {
      Members(names, size, Slot(hash, size), k);
    }
    FirstIs(list, key);
    forall k | 0 <= k < |names| && names[k].key == key ensures names[k] in list {
      BucketMembers(names, size, names[k]);
    }
    BucketMembers(names, size, Name(key, hash, 0));
  }

  lemma {:induction false} BucketDistinct(names: seq<Name>, size: nat, i: nat)
    requires size > 0 && forall j, k :: 0 <= j < k < |names| ==> names[j].key != names[k].key
    ensures forall j, k :: 0 <= j < k < |Bucket(names, size, i)| ==> Bucket(names, size, i)[j].key != Bucket(names, size, i)[k].key
  {
    if names != [] {
      var n := |names| - 1;
      BucketDistinct(names[..n], size, i);
      var front, list := Bucket(names[..n], size, i), Bucket(names, size, i);
      forall j, k | 0 <= j < k < |list| ensures list[j].key != list[k].key {
        if k == |front| {
          Members(names[..n], size, i, j);
          var m :| 0 <= m < n && names[..n][m] == front[j];
          assert names[m].key != names[n].key;
        }
      }
    }
  }
}
