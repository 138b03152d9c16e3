/**
 The wildcard hashes of ngx_hash.c: a sorted list of keys is compiled into nested hashes, one level
 per label, whose values carry a two-bit tag, and names are looked up from the last label on.

 A hash of one level is a list of labels with values; NULL is 0.
 */
module WildcardHash {
  import opened DnsNames

  datatype Entry = Entry(key: string, value: nat)

  /** A value and its two low bits. */
  datatype Tagged =
    | Data(value: nat)            // 00: both "example.com" and "*.example.com"
    | StarData(value: nat)        // 01: "*.example.com" only
    | Nested(table: Table)        // 10: a hash, both
    | StarNested(table: Table)    // 11: a hash, "*.example.com" only

  datatype Table = Table(value: nat, entries: seq<(string, Tagged)>)

  // ---------------------------------------------------------------- looking up

  /** ngx_hash_find on one level: the position of a label, or the number of entries. */
  function Position(entries: seq<(string, Tagged)>, name: string): (i: nat)
    ensures i <= |entries| && (i < |entries| ==> entries[i].0 == name)
    ensures forall j :: 0 <= j < i ==> entries[j].0 != name
  {
    if entries == [] || entries[0].0 == name then 0 else 1 + Position(entries[1..], name)
  }

  /** What a tagged value gives to the labels further left, none if there are none. */
  function Apply(g: Tagged, more: seq<string>): nat
    decreases |more|, 1
  {
    match g
    case Data(v) => v
    case StarData(v) => if more == [] then 0 else v
    case Nested(t) => if more == [] then t.value else OrElse(Find(t, more), t.value)
    case StarNested(t) => if more == [] then 0 else OrElse(Find(t, more), t.value)
  }

  function OrElse(v: nat, w: nat): nat { if v != 0 then v else w }

  /** ngx_hash_find_wc_head, on the labels of a name. */
  function Find(t: Table, labels: seq<string>): nat
    requires labels != []
    decreases |labels|, 0
  {
    var i := Position(t.entries, labels[0]);
    if i == |t.entries| then t.value else Apply(t.entries[i].1, labels[1..])
  }

  /** ngx_hash_find_wc_head */
  method FindHead(t: Table, name: string) returns (value: nat)
    ensures value == Find(t, Labels(name))
    decreases |name|
  {
    var n: nat := |name|;
    while n > 0
      invariant n <= |name| && NoDot(name, n, |name|)
    {
      if name[n - 1] == '.' {
        break;
      }
      n := n - 1;
    }
    LastDotIs(name, n);
    Unfold(name, n);
    var i := Position(t.entries, name[n..]);
    if i == |t.entries| {
      return t.value;
    }
    match t.entries[i].1 {
      case Data(v) =>
        return v;
      case StarData(v) =>
        return if n == 0 then 0 else v;
      case Nested(hwc) =>
        if n == 0 {
          return hwc.value;
        }
        value := FindHead(hwc, name[..n - 1]);
        return if value != 0 then value else hwc.value;
      case StarNested(hwc) =>
        if n == 0 {
          return 0;
        }
        value := FindHead(hwc, name[..n - 1]);
        return if value != 0 then value else hwc.value;
    }
  }

  lemma Unfold(s: string, n: nat)
    requires n == LastDot(s)
    ensures Labels(s)[0] == s[n..] && Labels(s)[1..] == if n == 0 then [] else Labels(s[..n - 1])
  {
  }

  // ---------------------------------------------------------------- what a lookup should return

  /** v is the value of the matching key with the most labels, or 0 when no key matches. */
  ghost predicate IsLongest(names: seq<Entry>, labels: seq<string>, v: nat) {
    if v == 0 then forall i :: 0 <= i < |names| ==> !Matches(names[i].key, labels)
    else exists i :: 0 <= i < |names| && Wins(names, labels, i) && names[i].value == v
  }

  ghost predicate Wins(names: seq<Entry>, labels: seq<string>, i: nat)
    requires i < |names|
  {
    && Matches(names[i].key, labels)
    && forall j :: 0 <= j < |names| && Matches(names[j].key, labels) ==> |Path(names[j].key)| <= |Path(names[i].key)|
  }

  /** Sorted, lower case, and no two keys for the same suffix. */
  ghost predicate Proper(names: seq<Entry>) {
    && (forall i :: 0 <= i < |names| ==> Plain(names[i].key) && names[i].key != "" && names[i].value != 0)
    && (forall i, j :: 0 <= i < j < |names| ==> Ordered(names[i], names[j]))
  }

  ghost predicate Ordered(a: Entry, b: Entry) {
    DnsLess(a.key, b.key) && Path(a.key) != Path(b.key)
  }

  // ---------------------------------------------------------------- a group of keys with one first label

  ghost predicate SameFirst(g: seq<Entry>, a: string) {
    forall i :: 0 <= i < |g| ==> First(g[i].key) == a
  }

  /** Only the first key of a group can end with its first label. */
  lemma LaterKeysGoOn(names: seq<Entry>, n: nat, i: nat)
    requires Proper(names) && n < i < |names| && First(names[i].key) == First(names[n].key)
    ensures !Ends(names[i].key)
  {
    assert Ordered(names[n], names[i]);
    if Ends(names[i].key) { ShortFirst(names[n].key, names[i].key); }
  }

  ghost function RestOf(e: Entry): Entry
    requires !Ends(e.key)
  {
    Entry(Rest(e.key), e.value)
  }

  /** next_names: the group without its first label, and without its first key if that ends there. */
  ghost predicate IsNext(g: seq<Entry>, next: seq<Entry>)
    requires g != []
  {
    var skip := if Ends(g[0].key) then 1 else 0;
    && |next| == |g| - skip
    && forall i :: 0 <= i < |next| ==> NextAt(g, next, skip, i)
  }

  ghost predicate NextAt(g: seq<Entry>, next: seq<Entry>, skip: nat, i: nat)
    requires i < |next| && |next| == |g| - skip
  {
    !Ends(g[i + skip].key) && next[i] == RestOf(g[i + skip])
  }

  lemma RestProper(x: string)
    requires !Ends(x) && Plain(x)
    ensures Plain(Rest(x)) && Rest(x) != "" && |Rest(x)| < |x|
  {
  }

  lemma RestLess(x: string, y: string)
    requires First(x) == First(y) && !Ends(x) && !Ends(y) && DnsLess(x, y) && Path(x) != Path(y)
    ensures DnsLess(Rest(x), Rest(y)) && Path(Rest(x)) != Path(Rest(y))
  {
    Apart(x);
    Apart(y);
    LessAfter(First(x) + ".", Rest(x), Rest(y));
    StarRest(x);
    StarRest(y);
  }

  lemma Apart(x: string)
    requires FirstDot(x) < |x|
    ensures First(x) + "." + Rest(x) == x
  {
    CutAt(x, FirstDot(x));
  }

  lemma CutAt(x: string, d: nat)
    requires d < |x| && x[d] == '.'
    ensures x[..d] + "." + x[d + 1..] == x
  {
  }

  lemma RestOrdered(a: Entry, b: Entry)
    requires Ordered(a, b) && First(a.key) == First(b.key) && !Ends(a.key) && !Ends(b.key)
    ensures Ordered(RestOf(a), RestOf(b))
  {
    RestLess(a.key, b.key);
  }

  lemma NextEntry(g: seq<Entry>, next: seq<Entry>, skip: nat, i: nat)
    requires i < |next| && |next| == |g| - skip && NextAt(g, next, skip, i)
    requires Plain(g[i + skip].key) && g[i + skip].value != 0
    ensures Plain(next[i].key) && next[i].key != "" && next[i].value != 0
  {
    RestProper(g[i + skip].key);
  }

  lemma NextPair(g: seq<Entry>, next: seq<Entry>, skip: nat, i: nat, j: nat)
    requires i < j < |next| && |next| == |g| - skip && NextAt(g, next, skip, i) && NextAt(g, next, skip, j)
    requires Ordered(g[i + skip], g[j + skip]) && First(g[i + skip].key) == First(g[j + skip].key)
    ensures Ordered(next[i], next[j])
  {
    RestOrdered(g[i + skip], g[j + skip]);
  }

  lemma NextProper(g: seq<Entry>, next: seq<Entry>, a: string)
    requires g != [] && Proper(g) && SameFirst(g, a) && IsNext(g, next)
    ensures Proper(next)
  {
    var skip := if Ends(g[0].key) then 1 else 0;
    forall i | 0 <= i < |next| ensures Plain(next[i].key) && next[i].key != "" && next[i].value != 0 {
      NextEntry(g, next, skip, i);
    }
    forall i, j | 0 <= i < j < |next| ensures Ordered(next[i], next[j]) {
      NextPair(g, next, skip, i, j);
    }
  }

  lemma NextOne(e: Entry, next: seq<Entry>)
    requires next == if Ends(e.key) then [] else [RestOf(e)]
    ensures IsNext([e], next)
  {
    var g := [e];
    if !Ends(e.key) { assert NextAt(g, next, 0, 0); }
  }

  lemma NextMore(g: seq<Entry>, next: seq<Entry>, e: Entry)
    requires g != [] && IsNext(g, next) && !Ends(e.key)
    ensures IsNext(g + [e], next + [RestOf(e)])
  {
    var skip := if Ends(g[0].key) then 1 else 0;
    var g', n' := g + [e], next + [RestOf(e)];
    forall i | 0 <= i < |n'| ensures NextAt(g', n', skip, i) {
      if i < |next| { assert NextAt(g, next, skip, i); }
    }
  }

  /** Matching a key, in terms of its rest. */
  lemma MatchesRest(key: string, labels: seq<string>)
    requires labels != [] && key != ""
    ensures First(key) != labels[0] ==> !Matches(key, labels)
    ensures First(key) == labels[0] && Ends(key) ==> (Matches(key, labels) <==> labels[1..] != [] || !IsStar(key)) && |Path(key)| == 1
    ensures First(key) == labels[0] && !Ends(key) ==>
              && (Matches(key, labels) <==> labels[1..] != [] && Matches(Rest(key), labels[1..]))
              && |Path(key)| == 1 + |Path(Rest(key))|
  {
    if Ends(key) {
      StarEnds(key);
      PathEnds(key);
      PrefixCons(First(key), [], labels);
    } else {
      StarRest(key);
      PrefixCons(First(key), Path(Rest(key)), labels);
    }
  }

  lemma PrefixCons(a: string, p: seq<string>, l: seq<string>)
    requires l != []
    ensures [a] + p <= l <==> l[0] == a && p <= l[1..]
  {
    if [a] + p <= l { assert ([a] + p)[1..] == p && l[..1 + |p|][1..] == l[1..][..|p|]; }
    if l[0] == a && p <= l[1..] { assert l == [a] + l[1..]; }
  }

  /** A hash keeps what it finds when it gets a value of its own. */
  lemma FindValue(t: Table, v: nat, labels: seq<string>)
    requires labels != [] && t.value == 0
    ensures OrElse(Find(t.(value := v), labels), v) == OrElse(Find(t, labels), v)
  {
  }

  /** Nothing further left: only a first key without a final dot matches. */
  lemma GroupAlone(g: seq<Entry>, next: seq<Entry>, a: string)
    requires g != [] && Proper(g) && SameFirst(g, a) && IsNext(g, next)
    ensures IsLongest(g, [a], if Ends(g[0].key) && !IsStar(g[0].key) then g[0].value else 0)
  {
    forall i | 0 <= i < |g| ensures Matches(g[i].key, [a]) <==> i == 0 && Ends(g[0].key) && !IsStar(g[0].key) {
      MatchesRest(g[i].key, [a]);
      if i > 0 { LaterKeysGoOn(g, 0, i); }
    }
    if Ends(g[0].key) && !IsStar(g[0].key) { assert Wins(g, [a], 0); }
  }

  /** A key that goes on, and its rest. */
  ghost predicate Follows(g: seq<Entry>, next: seq<Entry>, skip: nat, l: seq<string>, more: seq<string>, i: nat)
    requires i < |next| && |next| == |g| - skip
  {
    && (Matches(g[i + skip].key, l) <==> Matches(next[i].key, more))
    && |Path(g[i + skip].key)| == 1 + |Path(next[i].key)|
    && g[i + skip].value == next[i].value
  }

  lemma NextFollows(g: seq<Entry>, next: seq<Entry>, a: string, l: seq<string>, more: seq<string>, skip: nat)
    requires g != [] && Proper(g) && SameFirst(g, a) && IsNext(g, next) && more != [] && l == [a] + more
    requires skip == if Ends(g[0].key) then 1 else 0
    ensures forall i :: 0 <= i < |next| ==> Follows(g, next, skip, l, more, i)
  {
    assert l[1..] == more;
    forall i | 0 <= i < |next| ensures Follows(g, next, skip, l, more, i) {
      assert NextAt(g, next, skip, i);
      MatchesRest(g[i + skip].key, l);
    }
  }

  /** The winner among the rests wins in the group. */
  lemma FollowerWins(g: seq<Entry>, next: seq<Entry>, skip: nat, l: seq<string>, more: seq<string>, k: nat)
    requires |next| == |g| - skip && skip <= 1 && k < |next| && Wins(next, more, k)
    requires forall i :: 0 <= i < |next| ==> Follows(g, next, skip, l, more, i)
    requires skip == 1 ==> |Path(g[0].key)| == 1
    ensures Wins(g, l, k + skip) && g[k + skip].value == next[k].value
  {
    assert Follows(g, next, skip, l, more, k);
    forall j | 0 <= j < |g| && Matches(g[j].key, l) ensures |Path(g[j].key)| <= |Path(g[k + skip].key)| {
      if j >= skip { assert Follows(g, next, skip, l, more, j - skip); }
    }
  }

  /** When none of the rests matches, only a first key that ends can. */
  lemma FirstWins(g: seq<Entry>, next: seq<Entry>, skip: nat, l: seq<string>, more: seq<string>, j: nat)
    requires |next| == |g| - skip && skip <= j < |g|
    requires forall i :: 0 <= i < |next| ==> Follows(g, next, skip, l, more, i)
    requires forall i :: 0 <= i < |next| ==> !Matches(next[i].key, more)
    ensures !Matches(g[j].key, l)
  {
    assert Follows(g, next, skip, l, more, j - skip);
  }

  /** More labels further left: the group's answer is the answer of the rests, or else that of a first key that ends. */
  lemma GroupMore(g: seq<Entry>, next: seq<Entry>, a: string, more: seq<string>, v: nat)
    requires g != [] && Proper(g) && SameFirst(g, a) && IsNext(g, next) && more != [] && IsLongest(next, more, v)
    ensures IsLongest(g, [a] + more, OrElse(v, if Ends(g[0].key) then g[0].value else 0))
  {
    var l := [a] + more;
    assert l[1..] == more;
    var skip := if Ends(g[0].key) then 1 else 0;
    NextFollows(g, next, a, l, more, skip);
    MatchesRest(g[0].key, l);
    if v != 0 {
      var k :| 0 <= k < |next| && Wins(next, more, k) && next[k].value == v;
      FollowerWins(g, next, skip, l, more, k);
    } else {
      forall j | skip <= j < |g| ensures !Matches(g[j].key, l) {
        FirstWins(g, next, skip, l, more, j);
      }
      if skip == 1 { assert Wins(g, l, 0); }
    }
  }

  /** A tagged value answers for a group. */
  ghost predicate Answers(g: seq<Entry>, a: string, tag: Tagged) {
    forall more :: IsLongest(g, [a] + more, Apply(tag, more))
  }

  lemma LeafAnswers(g: seq<Entry>, next: seq<Entry>, a: string, tag: Tagged)
    requires g != [] && Proper(g) && SameFirst(g, a) && IsNext(g, next) && next == []
    requires tag == if FirstDot(g[0].key) < |g[0].key| then StarData(g[0].value) else Data(g[0].value)
    ensures Answers(g, a, tag)
  {
    StarEnds(g[0].key);
    forall more ensures IsLongest(g, [a] + more, Apply(tag, more)) {
      if more == [] {
        assert [a] + more == [a];
        GroupAlone(g, next, a);
      } else {
        GroupMore(g, next, a, more, 0);
      }
    }
  }

  lemma NestedAnswers(g: seq<Entry>, next: seq<Entry>, a: string, sub: Table, tag: Tagged)
    requires g != [] && Proper(g) && SameFirst(g, a) && IsNext(g, next) && sub.value == 0
    requires forall more :: more != [] ==> IsLongest(next, more, Find(sub, more))
    requires var t := if Ends(g[0].key) then sub.(value := g[0].value) else sub;
             tag == if FirstDot(g[0].key) < |g[0].key| then StarNested(t) else Nested(t)
    ensures Answers(g, a, tag)
  {
    if Ends(g[0].key) { StarEnds(g[0].key); }
    forall more ensures IsLongest(g, [a] + more, Apply(tag, more)) {
      if more == [] {
        assert [a] + more == [a];
        GroupAlone(g, next, a);
      } else {
        GroupMore(g, next, a, more, Find(sub, more));
        FindValue(sub, g[0].value, more);
      }
    }
  }

  // ---------------------------------------------------------------- compiling

  /** The entries answer for the names handled so far, whose first labels do not come again. */
  ghost predicate Compiled(names: seq<Entry>, n: nat, entries: seq<(string, Tagged)>)
    requires n <= |names|
  {
    && (forall labels :: labels != [] ==> IsLongest(names[..n], labels, Find(Table(0, entries), labels)))
    && (forall j, k :: 0 <= j < n <= k < |names| ==> First(names[j].key) != First(names[k].key))
    && (forall e :: 0 <= e < |entries| ==> exists j :: 0 <= j < n && First(names[j].key) == entries[e].0)
  }

  lemma PositionAppend(entries: seq<(string, Tagged)>, e: (string, Tagged), name: string)
    ensures Position(entries + [e], name)
            == if Position(entries, name) < |entries| then Position(entries, name)
               else if e.0 == name then |entries| else |entries| + 1
  {
    if entries != [] && entries[0].0 != name {
      assert (entries + [e])[1..] == entries[1..] + [e];
      PositionAppend(entries[1..], e, name);
    }
  }

  /** Names with another first label do not matter. */
  lemma Irrelevant(a: seq<Entry>, b: seq<Entry>, labels: seq<string>, v: nat)
    requires labels != [] && (forall i :: 0 <= i < |b| ==> b[i].key != "" && First(b[i].key) != labels[0])
    requires IsLongest(a, labels, v)
    ensures IsLongest(a + b, labels, v) && IsLongest(b + a, labels, v)
  {
    forall i | 0 <= i < |b| ensures !Matches(b[i].key, labels) {
      MatchesRest(b[i].key, labels);
    }
    if v != 0 {
      var k :| 0 <= k < |a| && Wins(a, labels, k) && a[k].value == v;
      assert (a + b)[k] == a[k] && (b + a)[|b| + k] == a[k];
      assert Wins(a + b, labels, k) && Wins(b + a, labels, |b| + k);
    }
  }

  lemma SplitAt(names: seq<Entry>, n: nat, i: nat)
    requires n <= i <= |names|
    ensures names[..i] == names[..n] + names[n..i]
    ensures i < |names| ==> names[n..i + 1] == names[n..i] + [names[i]]
  {
  }

  /** One more group. */
  lemma AddGroup(names: seq<Entry>, n: nat, i: nat, entries: seq<(string, Tagged)>, tag: Tagged)
    requires Proper(names) && n < i <= |names| && Compiled(names, n, entries)
    requires SameFirst(names[n..i], First(names[n].key)) && Answers(names[n..i], First(names[n].key), tag)
    requires i < |names| ==> First(names[i].key) != First(names[n].key)
    ensures Compiled(names, i, entries + [(First(names[n].key), tag)])
  {
    var a, g := First(names[n].key), names[n..i];
    var all := entries + [(a, tag)];
    forall labels | labels != [] ensures IsLongest(names[..i], labels, Find(Table(0, all), labels)) {
      FindGroup(names, n, i, entries, tag, labels);
    }
    forall j, k | 0 <= j < i <= k < |names| ensures First(names[j].key) != First(names[k].key) {
      if j >= n {
        assert First(g[j - n].key) == a;
        LabelGone(names, n, i, k);
      }
    }
    forall e | 0 <= e < |all| ensures exists j :: 0 <= j < i && First(names[j].key) == all[e].0 {
      if e == |entries| {
        assert First(names[n].key) == all[e].0;
      } else {
        var j :| 0 <= j < n && First(names[j].key) == entries[e].0;
        assert First(names[j].key) == all[e].0;
      }
    }
  }

  lemma FindGroup(names: seq<Entry>, n: nat, i: nat, entries: seq<(string, Tagged)>, tag: Tagged, labels: seq<string>)
    requires Proper(names) && n < i <= |names| && Compiled(names, n, entries) && labels != []
    requires SameFirst(names[n..i], First(names[n].key)) && Answers(names[n..i], First(names[n].key), tag)
    ensures IsLongest(names[..i], labels, Find(Table(0, entries + [(First(names[n].key), tag)]), labels))
  {
    SplitAt(names, n, i);
    PositionAppend(entries, (First(names[n].key), tag), labels[0]);
    if labels[0] == First(names[n].key) {
      FindNew(names, n, names[n..i], entries, tag, labels);
    } else {
      FindOld(names, n, names[n..i], First(names[n].key), entries, labels);
    }
  }

  /** The label of the new group: nothing else has it. */
  lemma FindNew(names: seq<Entry>, n: nat, g: seq<Entry>, entries: seq<(string, Tagged)>, tag: Tagged, labels: seq<string>)
    requires Proper(names) && n < |names| && Compiled(names, n, entries) && labels != [] && labels[0] == First(names[n].key)
    requires Answers(g, labels[0], tag)
    ensures Position(entries, labels[0]) == |entries| && IsLongest(names[..n] + g, labels, Apply(tag, labels[1..]))
  {
    assert labels == [labels[0]] + labels[1..];
    Irrelevant(g, names[..n], labels, Apply(tag, labels[1..]));
  }

  /** Another label: the new group does not matter. */
  lemma FindOld(names: seq<Entry>, n: nat, g: seq<Entry>, a: string, entries: seq<(string, Tagged)>, labels: seq<string>)
    requires n <= |names| && Compiled(names, n, entries) && labels != [] && labels[0] != a
    requires SameFirst(g, a) && forall i :: 0 <= i < |g| ==> g[i].key != ""
    ensures IsLongest(names[..n] + g, labels, Find(Table(0, entries), labels))
  {
    Irrelevant(names[..n], g, labels, Find(Table(0, entries), labels));
  }

  /** After a name with another first label, the label does not come back. */
  lemma LabelGone(names: seq<Entry>, n: nat, i: nat, k: nat)
    requires Proper(names) && n < i <= k < |names| && First(names[i].key) != First(names[n].key)
    ensures First(names[k].key) != First(names[n].key)
  {
    if k > i && First(names[k].key) == First(names[n].key) {
      assert Ordered(names[n], names[i]) && Ordered(names[i], names[k]);
      SameLabelBetween(names[n].key, names[i].key, names[k].key);
    }
  }

  function MaxKey(names: seq<Entry>): nat {
    if names == [] then 0
    else var m := MaxKey(names[1..]); if |names[0].key| >= m then |names[0].key| else m
  }

  lemma {:induction false} MaxKeyIs(names: seq<Entry>, b: nat)
    ensures forall i :: 0 <= i < |names| ==> |names[i].key| <= MaxKey(names)
    ensures names != [] && (forall i :: 0 <= i < |names| ==> |names[i].key| < b) ==> MaxKey(names) < b
  {
    if names != [] {
      MaxKeyIs(names[1..], b);
      assert forall i :: 0 <= i < |names[1..]| ==> names[1..][i] == names[i + 1];
    }
  }

  /** The length of the first label. */
  method FirstLabel(key: string) returns (len: nat, dot: bool)
    ensures len == FirstDot(key) && dot == (len < |key|)
  {
    len, dot := 0, false;
    while len < |key|
      invariant len <= |key| && !dot && NoDot(key, 0, len)
    {
      if key[len] == '.' {
        dot := true;
        break;
      }
      len := len + 1;
    }
    FirstDotIs(key, len);
  }

  /** strncmp(a, b, len) == 0, where a has at least len characters */
  predicate SameStart(a: string, b: string, len: nat)
    requires len <= |a|
  {
    len <= |b| && a[..len] == b[..len]
  }

  /** The test that ends a group. */
  lemma InGroup(names: seq<Entry>, n: nat, i: nat, d: nat, len: nat, dot: bool)
    requires Proper(names) && n < i < |names| && d == FirstDot(names[n].key)
    requires dot == (d < |names[n].key|) && len == if dot then d + 1 else d
    ensures SameStart(names[n].key, names[i].key, len) && (dot || |names[i].key| <= len || names[i].key[len] == '.')
            <==> First(names[i].key) == First(names[n].key)
  {
    var x, y := names[n].key, names[i].key;
    if First(x) == First(y) {
      LaterKeysGoOn(names, n, i);
      assert y[..d] == First(x) && y[d] == '.';
      if dot { assert x[..len] == First(x) + "." && y[..len] == First(y) + "."; }
    } else if SameStart(x, y, len) && (dot || |y| <= len || y[len] == '.') {
      assert x[..len][..d] == y[..len][..d];
      assert dot ==> x[..len][d] == y[..len][d];
      assert forall j :: 0 <= j < d ==> x[j] == y[..len][j];
      FirstDotIs(y, d);
    }
  }

  /** next_names and the end of the group that starts at n. */
  method Gather(names: seq<Entry>, n: nat, d: nat, dot: bool) returns (i: nat, next: seq<Entry>)
    requires Proper(names) && n < |names| && d == FirstDot(names[n].key) && dot == (d < |names[n].key|)
    ensures n < i <= |names| && SameFirst(names[n..i], First(names[n].key)) && IsNext(names[n..i], next)
    ensures i < |names| ==> First(names[i].key) != First(names[n].key)
  {
    var len := if dot then d + 1 else d;
    next := [];
    if |names[n].key| != len {
      next := [Entry(names[n].key[len..], names[n].value)];
    }
    i := n + 1;
    assert names[n..i] == [names[n]];
    NextOne(names[n], next);
    while i < |names|
      invariant n < i <= |names| && SameFirst(names[n..i], First(names[n].key)) && IsNext(names[n..i], next)
    {
      InGroup(names, n, i, d, len, dot);
      if !SameStart(names[n].key, names[i].key, len) {
        break;
      }
      if !dot && |names[i].key| > len && names[i].key[len] != '.' {
        break;
      }
      LaterKeysGoOn(names, n, i);
      NextMore(names[n..i], next, names[i]);
      SplitAt(names, n, i);
      next := next + [Entry(names[i].key[d + 1..], names[i].value)];
      i := i + 1;
    }
  }

  /** All values are those of pointers, whose two low bits are free, and none is NULL. */
  ghost predicate Pointers(t: Table)
    decreases t
  {
    forall k :: 0 <= k < |t.entries| ==> Pointer(t.entries[k].1)
  }

  ghost predicate Pointer(g: Tagged)
    decreases g
  {
    match g
    case Data(v) => v % 4 == 0 && v != 0
    case StarData(v) => v % 4 == 0 && v != 0
    case Nested(t) => Pointers(t)
    case StarNested(t) => Pointers(t)
  }

  ghost predicate Aligned(names: seq<Entry>) {
    forall i :: 0 <= i < |names| ==> names[i].value % 4 == 0
  }

  lemma NextAligned(names: seq<Entry>, n: nat, i: nat, next: seq<Entry>)
    requires n < i <= |names| && IsNext(names[n..i], next) && Aligned(names)
    ensures Aligned(next)
  {
    var g := names[n..i];
    var skip := if Ends(g[0].key) then 1 else 0;
    forall k | 0 <= k < |next| ensures next[k].value % 4 == 0 {
      assert NextAt(g, next, skip, k) && g[k + skip] == names[n + k + skip];
    }
  }

  /** ngx_hash_wildcard_init */
  method WildcardInit(names: seq<Entry>) returns (t: Table)
    requires Proper(names)
    ensures t.value == 0
    ensures forall labels :: labels != [] ==> IsLongest(names, labels, Find(t, labels))
    ensures Aligned(names) ==> Pointers(t)
    decreases MaxKey(names), 1
  {
    var entries: seq<(string, Tagged)> := [];
    var n := 0;
    while n < |names|
      invariant n <= |names| && Compiled(names, n, entries)
      invariant Aligned(names) ==> forall k :: 0 <= k < |entries| ==> Pointer(entries[k].1)
    {
      var d, dot := FirstLabel(names[n].key);
      var i, next := Gather(names, n, d, dot);
      var tag := TagOf(names, n, i, next, d, dot);
      AddGroup(names, n, i, entries, tag);
      entries := entries + [(names[n].key[..d], tag)];
      n := i;
    }
    assert names[..n] == names;
    t := Table(0, entries);
  }

  /** The value for the group of keys from n to i. */
  method TagOf(names: seq<Entry>, n: nat, ghost i: nat, next: seq<Entry>, d: nat, dot: bool) returns (tag: Tagged)
    requires Proper(names) && n < i <= |names| && SameFirst(names[n..i], First(names[n].key)) && IsNext(names[n..i], next)
    requires d == FirstDot(names[n].key) && dot == (d < |names[n].key|)
    ensures Answers(names[n..i], First(names[n].key), tag) && (Aligned(names) ==> Pointer(tag))
    decreases MaxKey(names), 0
  {
    ghost var g := names[n..i];
    if next != [] {
      NextProper(g, next, First(names[n].key));
      NextShorter(names, n, i, next);
      if Aligned(names) { NextAligned(names, n, i, next); }
      var wdc := WildcardInit(next);
      var value := if |names[n].key| == (if dot then d + 1 else d) then names[n].value else wdc.value;
      var hash := wdc.(value := value);
      tag := if dot then StarNested(hash) else Nested(hash);
      NestedAnswers(g, next, First(names[n].key), wdc, tag);
    } else {
      tag := if dot then StarData(names[n].value) else Data(names[n].value);
      LeafAnswers(g, next, First(names[n].key), tag);
    }
  }

  lemma NextShorter(names: seq<Entry>, n: nat, i: nat, next: seq<Entry>)
    requires n < i <= |names| && IsNext(names[n..i], next) && next != []
    ensures MaxKey(next) < MaxKey(names)
  {
    var g := names[n..i];
    var skip := if Ends(g[0].key) then 1 else 0;
    MaxKeyIs(names, 0);
    forall k | 0 <= k < |next| ensures |next[k].key| < MaxKey(names) {
      assert NextAt(g, next, skip, k) && g[k + skip] == names[n + k + skip];
    }
    MaxKeyIs(next, MaxKey(names));
  }
}
