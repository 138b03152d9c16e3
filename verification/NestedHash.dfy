/**
 Wildcard hashes in memory (ngx_hash.c): every level is a packed hash, and the values in its records
 are pointers whose two low bits say what they point to.

 Levels live in one table; the pointer to level i is 4 * (i + 1), and 0 is NULL.
 */
module NestedHash {
  import opened DnsNames
  import opened WildcardHash
  import opened WildcardNames
  import PackedHash

  const WORD: nat := 0x1_0000_0000_0000_0000

  /** ngx_hash */
  function Mix(key: nat, c: char): nat { (key * 31 + c as nat) % WORD }

  /** ngx_hash_key */
  function HashKey(s: string): nat {
    if s == "" then 0 else Mix(HashKey(s[..|s| - 1]), s[|s| - 1])
  }

  /** ngx_hash_wildcard_t */
  datatype Level = Level(value: nat, hash: PackedHash.Table)

  // ---------------------------------------------------------------- what a value stands for

  /** The value w, tag included, is g. */
  ghost predicate Tags(heap: seq<Level>, w: nat, g: Tagged)
    decreases g
  {
    match g
    case Data(v) => v % 4 == 0 && w == v != 0
    case StarData(v) => v % 4 == 0 && w == v + 1
    case Nested(t) => w % 4 == 2 && w > 4 && Stands(heap, w / 4 - 1, t)
    case StarNested(t) => w % 4 == 3 && w > 4 && Stands(heap, w / 4 - 1, t)
  }

  /** Level i is the table t. */
  ghost predicate Stands(heap: seq<Level>, i: nat, t: Table)
    decreases t
  {
    && i < |heap| && heap[i].value == t.value
    && exists names: seq<PackedHash.Name>, start: nat :: Filled(names, t.entries) && PackedHash.Holds(heap[i].hash, names, start)
         && forall k :: 0 <= k < |t.entries| ==> Tags(heap, names[k].value, t.entries[k].1)
  }

  /** The names of a level have the labels and their hashes. */
  ghost predicate Filled(names: seq<PackedHash.Name>, entries: seq<(string, Tagged)>) {
    |names| == |entries| && forall k :: 0 <= k < |names| ==> FilledAt(names[k], entries[k])
  }

  ghost predicate FilledAt(name: PackedHash.Name, e: (string, Tagged)) {
    name.key == e.0 && name.hash == HashKey(e.0) && name.value != 0
  }

  lemma {:induction false} TagsGrow(heap: seq<Level>, more: seq<Level>, w: nat, g: Tagged)
    requires Tags(heap, w, g) && heap <= more
    ensures Tags(more, w, g)
    decreases g
  {
    match g
    case Data(_) =>
    case StarData(_) =>
    case Nested(t) => StandsGrow(heap, more, w / 4 - 1, t);
    case StarNested(t) => StandsGrow(heap, more, w / 4 - 1, t);
  }

  /** A level stays when others are added. */
  lemma {:induction false} StandsGrow(heap: seq<Level>, more: seq<Level>, i: nat, t: Table)
    requires Stands(heap, i, t) && heap <= more
    ensures Stands(more, i, t)
    decreases t
  {
    var names: seq<PackedHash.Name>, start: nat :| Filled(names, t.entries) && PackedHash.Holds(heap[i].hash, names, start)
      && forall k :: 0 <= k < |t.entries| ==> Tags(heap, names[k].value, t.entries[k].1);
    forall k | 0 <= k < |t.entries| ensures Tags(more, names[k].value, t.entries[k].1) {
      TagsGrow(heap, more, names[k].value, t.entries[k].1);
    }
  }

  // ---------------------------------------------------------------- one level

  /** The value of the first record with the key, wherever it is. */
  lemma {:induction false} FirstAppend(list: seq<PackedHash.Name>, x: PackedHash.Name, key: string)
    requires forall k :: 0 <= k < |list| ==> list[k].value != 0
    ensures PackedHash.First(list + [x], key)
            == if PackedHash.First(list, key) != 0 then PackedHash.First(list, key) else if x.key == key then x.value else 0
  {
    if list == [] {
      assert list + [x] == [x] && [x][1..] == [];
    } else {
      assert (list + [x])[1..] == list[1..] + [x];
      FirstAppend(list[1..], x, key);
    }
  }

  /** The bucket of a key has the record that comes first among all. */
  lemma {:induction false} FirstInBucket(names: seq<PackedHash.Name>, size: nat, key: string, hash: nat)
    requires size > 0 && forall k :: 0 <= k < |names| ==> names[k].value != 0 && (names[k].key == key ==> names[k].hash == hash)
    ensures PackedHash.First(PackedHash.Bucket(names, size, PackedHash.Slot(hash, size)), key) == PackedHash.First(names, key)
    ensures forall k :: 0 <= k < |PackedHash.Bucket(names, size, PackedHash.Slot(hash, size))| ==> PackedHash.Bucket(names, size, PackedHash.Slot(hash, size))[k].value != 0
  {
    if names != [] {
      var n := |names| - 1;
      FirstInBucket(names[..n], size, key, hash);
      assert names == names[..n] + [names[n]];
      FirstAppend(names[..n], names[n], key);
      FirstAppend(PackedHash.Bucket(names[..n], size, PackedHash.Slot(hash, size)), names[n], key);
    }
  }

  /** It is the one at the label's position. */
  lemma {:induction false} FirstIsPosition(names: seq<PackedHash.Name>, entries: seq<(string, Tagged)>, key: string)
    requires Filled(names, entries)
    ensures var i := Position(entries, key); PackedHash.First(names, key) == if i < |names| then names[i].value else 0
  {
    if names != [] {
      assert FilledAt(names[0], entries[0]);
      forall k | 0 <= k < |names[1..]| ensures FilledAt(names[1..][k], entries[1..][k]) {
        assert FilledAt(names[k + 1], entries[k + 1]);
      }
      if entries[0].0 != key { FirstIsPosition(names[1..], entries[1..], key); }
    }
  }

  /** ngx_hash_find on a level gives what its table has at the label. */
  method FindLabel(heap: seq<Level>, i: nat, hash: nat, text: string, ghost t: Table) returns (w: nat)
    requires Stands(heap, i, t) && hash == HashKey(text)
    ensures var k := Position(t.entries, text); if k == |t.entries| then w == 0 else w != 0 && Tags(heap, w, t.entries[k].1)
  {
    ghost var names: seq<PackedHash.Name>, start: nat :| Filled(names, t.entries) && PackedHash.Holds(heap[i].hash, names, start)
      && forall k :: 0 <= k < |t.entries| ==> Tags(heap, names[k].value, t.entries[k].1);
    w := PackedHash.HashFind(heap[i].hash, hash, text, names, start);
    forall k | 0 <= k < |names| ensures names[k].value != 0 && (names[k].key == text ==> names[k].hash == hash) {
      assert FilledAt(names[k], t.entries[k]);
    }
    FirstInBucket(names, heap[i].hash.size, text, hash);
    FirstIsPosition(names, t.entries, text);
  }

  // ---------------------------------------------------------------- ngx_hash_find_wc_head

  /** Where the last label begins, and its hash. */
  method LastLabel(name: string) returns (n: nat, key: nat)
    ensures n == LastDot(name) <= |name| && key == HashKey(name[n..])
  {
    n := |name|;
    while n > 0
      invariant n <= |name| && NoDot(name, n, |name|)
    {
      if name[n - 1] == '.' {
        break;
      }
      n := n - 1;
    }
    LastDotIs(name, n);
    key := 0;
    var i := n;
    assert name[n..n] == "";
    while i < |name|
      invariant n <= i <= |name| && key == HashKey(name[n..i])
    {
      assert name[n..i + 1][..i - n] == name[n..i] && name[n..i + 1][i - n] == name[i];
      key := Mix(key, name[i]);
      i := i + 1;
    }
    assert name[n..i] == name[n..];
  }

  /** ngx_hash_find_wc_head, on levels in memory; `name` is cut to the part further left. */
  method FindWcHead(heap: seq<Level>, hwc: nat, name: string, ghost t: Table) returns (value: nat)
    requires Stands(heap, hwc, t)
    ensures value == Find(t, Labels(name))
    decreases |name|
  {
    var n, key := LastLabel(name);
    Unfold(name, n);
    value := FindLabel(heap, hwc, key, name[n..], t);
    ghost var k := Position(t.entries, name[n..]);
    if value == 0 {
      return heap[hwc].value;
    }
    ghost var g := t.entries[k].1;
    if value / 2 % 2 == 1 {
      ghost var s := g.table;
      var sub := value / 4 - 1;
      if n == 0 {
        return if value % 2 == 1 then 0 else heap[sub].value;
      }
      value := FindWcHead(heap, sub, name[..n - 1], s);
      return if value != 0 then value else heap[sub].value;
    }
    if value % 2 == 1 {
      return if n == 0 then 0 else value - 1;
    }
  }

  // ---------------------------------------------------------------- building the levels

  /** The names of a level, before their values are known. */
  ghost function LevelNames(entries: seq<(string, Tagged)>): seq<PackedHash.Name> {
    seq(|entries|, k requires 0 <= k < |entries| => PackedHash.Name(entries[k].0, HashKey(entries[k].0), 1))
  }

  /** The numbers of buckets that were chosen keep every level within 16-bit counters. */
  ghost predicate FitsAll(t: Table, sizes: Table -> nat)
    decreases t
  {
    && sizes(t) > 0 && PackedHash.Fits(LevelNames(t.entries), sizes(t))
    && forall k :: 0 <= k < |t.entries| ==> SubFits(t.entries[k].1, sizes)
  }

  ghost predicate SubFits(g: Tagged, sizes: Table -> nat)
    decreases g
  {
    match g
    case Data(_) => true
    case StarData(_) => true
    case Nested(t) => FitsAll(t, sizes)
    case StarNested(t) => FitsAll(t, sizes)
  }

  ghost predicate SameKeys(a: seq<PackedHash.Name>, b: seq<PackedHash.Name>) {
    |a| == |b| && forall k :: 0 <= k < |a| ==> a[k].key == b[k].key && a[k].hash == b[k].hash
  }

  /** The room of a bucket does not depend on the values. */
  lemma {:induction false} SameRoom(a: seq<PackedHash.Name>, b: seq<PackedHash.Name>, size: nat, i: nat)
    requires size > 0 && SameKeys(a, b)
    ensures var x, y := PackedHash.Bucket(a, size, i), PackedHash.Bucket(b, size, i); PackedHash.Total(x) == PackedHash.Total(y) && |x| == |y|
  {
    if a != [] {
      var n := |a| - 1;
      SameRoom(a[..n], b[..n], size, i);
      PackedHash.TotalStep(PackedHash.Bucket(a[..n], size, i), a[n]);
      PackedHash.TotalStep(PackedHash.Bucket(b[..n], size, i), b[n]);
    }
  }

  lemma FitsSame(a: seq<PackedHash.Name>, b: seq<PackedHash.Name>, size: nat)
    requires size > 0 && SameKeys(a, b) && PackedHash.Fits(a, size)
    ensures PackedHash.Fits(b, size)
  {
    forall i | 0 <= i < size ensures PackedHash.Reserved(PackedHash.Bucket(b, size, i)) < PackedHash.SHORT {
      SameRoom(a, b, size, i);
      assert PackedHash.Reserved(PackedHash.Bucket(a, size, i)) < PackedHash.SHORT;
    }
  }

  /** The value for a record. */
  method PackValue(heap: seq<Level>, g: Tagged, sizes: Table -> nat) returns (more: seq<Level>, w: nat)
    requires Pointer(g) && SubFits(g, sizes)
    ensures heap <= more && Tags(more, w, g) && w != 0
    decreases g
  {
    more := heap;
    match g {
      case Data(v) => w := v;
      case StarData(v) => w := v + 1;
      case Nested(t) =>
        var i;
        more, i := Pack(heap, t, sizes);
        w := 4 * (i + 1) + 2;
      case StarNested(t) =>
        var i;
        more, i := Pack(heap, t, sizes);
        w := 4 * (i + 1) + 3;
    }
  }

  /** A table and everything below it, level by level through ngx_hash_init. */
  method Pack(heap: seq<Level>, t: Table, sizes: Table -> nat) returns (more: seq<Level>, i: nat)
    requires Pointers(t) && FitsAll(t, sizes)
    ensures heap <= more && Stands(more, i, t)
    decreases t
  {
    var names: seq<PackedHash.Name> := [];
    more := heap;
    while |names| < |t.entries|
      invariant |names| <= |t.entries| && heap <= more
      invariant forall k :: 0 <= k < |names| ==> FilledAt(names[k], t.entries[k]) && Tags(more, names[k].value, t.entries[k].1)
    {
      ghost var before := more;
      var w;
      more, w := PackValue(more, t.entries[|names|].1, sizes);
      forall k | 0 <= k < |names| ensures Tags(more, names[k].value, t.entries[k].1) {
        TagsGrow(before, more, names[k].value, t.entries[k].1);
      }
      names := names + [PackedHash.Name(t.entries[|names|].0, HashKey(t.entries[|names|].0), w)];
    }
    FitsSame(LevelNames(t.entries), names, sizes(t));
    ghost var end;
    var hash;
    hash, end := PackedHash.HashInit(names, sizes(t), 0);
    i := |more|;
    ghost var all := more + [Level(t.value, hash)];
    forall k | 0 <= k < |names| ensures Tags(all, names[k].value, t.entries[k].1) {
      TagsGrow(more, all, names[k].value, t.entries[k].1);
    }
    more := more + [Level(t.value, hash)];
    assert Filled(names, t.entries) && PackedHash.Holds(more[i].hash, names, 0);
  }

  /** Patterns compiled into levels in memory, asked for a name. */
  method LookupNested(ps: seq<Pattern>, ghost t: Table, heap: seq<Level>, root: nat, name: string) returns (value: nat)
    requires Listed(ps) && Stands(heap, root, t) && forall s :: LongestPattern(ps, s, Find(t, Labels(s)))
    ensures LongestPattern(ps, name, value)
  {
    value := FindWcHead(heap, root, name, t);
  }
}
