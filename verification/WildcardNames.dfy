/**
 Wildcard server names, from "*.example.com" and ".example.com" to the value a name gets: the label
 reversal of ngx_hash_add_key, and the lookup stated on strings alone.
 */
module WildcardNames {
  import opened DnsNames
  import opened WildcardHash

  datatype Pattern = Pattern(text: string, value: nat)

  predicate EndsWith(s: string, t: string) {
    |t| <= |s| && s[|s| - |t|..] == t
  }

  /** "*.suffix" or ".suffix", lower case, without empty labels in front of the suffix. */
  predicate Accepted(text: string) {
    && Plain(text)
    && (if text != "" && text[0] == '*' then |text| > 2 && text[1] == '.' && text[2] != '.'
        else |text| > 1 && text[0] == '.' && text[1] != '.')
  }

  function Suffix(text: string): string
    requires Accepted(text)
  {
    if text[0] == '*' then text[2..] else text[1..]
  }

  /** "*.suffix" stands for every name below the suffix, ".suffix" also for the suffix itself. */
  predicate Covers(text: string, name: string)
    requires Accepted(text)
  {
    EndsWith(name, "." + Suffix(text)) || (text[0] == '.' && name == Suffix(text))
  }

  // ---------------------------------------------------------------- reversing the labels

  /** The labels in opposite order. */
  ghost function Reversed(s: string): (r: string)
    ensures |r| == |s|
    decreases |s|
  {
    var n := LastDot(s);
    if n == 0 then s else s[n..] + "." + Reversed(s[..n - 1])
  }

  /** The loop of ngx_hash_add_key that turns "*.example.com" into "com.example." */
  method ReverseLabels(data: string) returns (p: string)
    requires |data| > 1
    ensures p == Reversed(data[1..])
  {
    var len, i := 0, |data| - 1;
    p := "";
    HalfReversedStart(data);
    while i > 0
      invariant 0 <= i && i + 1 + len <= |data| && HalfReversed(data, i, len, p)
    {
      HalfReversedStep(data, i, len, p);
      if data[i] == '.' {
        p := p + data[i + 1..i + 1 + len] + ".";
        len := 0;
      } else {
        len := len + 1;
      }
      i := i - 1;
    }
    HalfReversedEnd(data, len, p);
    if len > 0 {
      p := p + data[1..1 + len];
    }
  }

  /** The labels behind position i + len are in p, and the next label ends there. */
  ghost predicate HalfReversed(data: string, i: nat, len: nat, p: string) {
    i + 1 + len <= |data| && NoDot(data, i + 1, i + 1 + len) && p + Reversed(data[1..i + 1 + len]) == Reversed(data[1..])
  }

  lemma HalfReversedStart(data: string)
    requires |data| > 1
    ensures HalfReversed(data, |data| - 1, 0, "")
  {
    assert data[1..|data|] == data[1..];
    assert "" + Reversed(data[1..]) == Reversed(data[1..]);
  }

  lemma HalfReversedStep(data: string, i: nat, len: nat, p: string)
    requires 0 < i && HalfReversed(data, i, len, p)
    ensures if data[i] == '.' then HalfReversed(data, i - 1, 0, p + data[i + 1..i + 1 + len] + ".")
            else HalfReversed(data, i - 1, len + 1, p)
  {
    if data[i] == '.' {
      ReverseMore(data, i, len, p);
    }
  }

  lemma HalfReversedEnd(data: string, len: nat, p: string)
    requires HalfReversed(data, 0, len, p)
    ensures Reversed(data[1..]) == if len > 0 then p + data[1..1 + len] else p
  {
    NoDots(data[1..1 + len]);
    if len == 0 { assert data[1..1 + len] == "" && p + "" == p; }
  }

  lemma ReverseMore(data: string, i: nat, len: nat, p: string)
    requires 0 < i && i + 1 + len <= |data| && data[i] == '.' && NoDot(data, i + 1, i + 1 + len)
    ensures (p + data[i + 1..i + 1 + len] + ".") + Reversed(data[1..i]) == p + Reversed(data[1..i + 1 + len])
  {
    ReverseOne(data, i, len);
    Regroup(p, data[i + 1..i + 1 + len], Reversed(data[1..i]));
  }

  lemma Regroup(p: string, a: string, r: string)
    ensures p + (a + "." + r) == (p + a + ".") + r
  {
  }

  lemma ReverseOne(data: string, i: nat, len: nat)
    requires 0 < i && i + 1 + len <= |data| && data[i] == '.'
    requires NoDot(data, i + 1, i + 1 + len)
    ensures Reversed(data[1..i + 1 + len]) == data[i + 1..i + 1 + len] + "." + Reversed(data[1..i])
  {
    var s := data[1..i + 1 + len];
    LastDotIs(s, i);
    ReversedAt(s, i);
    assert s[i..] == data[i + 1..i + 1 + len] && s[..i - 1] == data[1..i];
  }

  lemma NoDots(s: string)
    requires NoDot(s, 0, |s|)
    ensures Reversed(s) == s
  {
    LastDotIs(s, 0);
  }

  // ---------------------------------------------------------------- the labels of a key

  lemma KeyCons(a: string, r: string)
    requires NoDot(a, 0, |a|) && r != ""
    ensures Path(a + "." + r) == [a] + Path(r) && IsStar(a + "." + r) == IsStar(r)
  {
    var s := a + "." + r;
    FirstDotIs(s, |a|);
    assert s[..|a|] == a && s[|a| + 1..] == r;
  }

  /** The key of ".suffix" has the suffix's labels, outermost first. */
  lemma {:induction false} PlainKey(x: string)
    requires x != "" && x[0] != '.'
    ensures Path(Reversed(x)) == Labels(x) && !IsStar(Reversed(x))
    decreases |x|
  {
    var n := LastDot(x);
    if n == 0 {
      FirstDotIs(x, |x|);
      assert x[..|x|] == x;
    } else {
      var y := x[..n - 1];
      PlainKey(y);
      KeyCons(x[n..], Reversed(y));
    }
  }

  /** The key of "*.suffix" has the same labels and a final dot. */
  lemma {:induction false} StarKey(x: string)
    requires x != "" && x[0] != '.'
    ensures Path(Reversed("." + x)) == Labels(x) && IsStar(Reversed("." + x))
    decreases |x|
  {
    var n := LastDot(x);
    ReversedDot(x);
    if n == 0 {
      OneStar(x);
    } else {
      StarKey(x[..n - 1]);
      KeyCons(x[n..], Reversed("." + x[..n - 1]));
    }
  }

  lemma ReversedDot(x: string)
    ensures var n := LastDot(x); Reversed("." + x) == x[n..] + "." + if n == 0 then "" else Reversed("." + x[..n - 1])
  {
    var n := LastDot(x);
    DotInFront(x, n);
    DotSlices(x, n);
    ReversedAt("." + x, n + 1);
  }

  lemma DotInFront(x: string, n: nat)
    requires IsLastDot(x, n)
    ensures LastDot("." + x) == n + 1
  {
    var s := "." + x;
    assert forall j :: n + 1 <= j < |s| ==> s[j] == x[j - 1];
    LastDotIs(s, n + 1);
  }

  lemma ReversedAt(s: string, n: nat)
    requires n == LastDot(s) && n > 0
    ensures Reversed(s) == s[n..] + "." + Reversed(s[..n - 1])
  {
  }

  lemma DotSlices(x: string, n: nat)
    requires n <= |x|
    ensures ("." + x)[n + 1..] == x[n..] && ("." + x)[..n] == if n == 0 then "" else "." + x[..n - 1]
  {
  }

  lemma OneStar(x: string)
    requires LastDot(x) == 0 && x != ""
    ensures Path(x[0..] + "." + "") == Labels(x) && IsStar(x[0..] + "." + "")
  {
    var k := x[0..] + "." + "";
    FirstDotIs(k, |x|);
    assert k[..|x|] == x;
  }

  // ---------------------------------------------------------------- labels and suffixes

  lemma LastLabel(s: string)
    requires LastDot(s) > 0
    ensures s == s[..LastDot(s) - 1] + "." + s[LastDot(s)..]
  {
    CutAt(s, LastDot(s) - 1);
  }

  /** The labels of x start those of a name exactly when x is the name or follows a dot at its end. */
  ghost predicate Agree(x: string, name: string) {
    && (Labels(x) <= Labels(name) <==> name == x || EndsWith(name, "." + x))
    && (EndsWith(name, "." + x) ==> |Labels(x)| < |Labels(name)|)
  }

  lemma {:induction false} LabelSuffix(x: string, name: string)
    ensures Agree(x, name)
    decreases |x|
  {
    var n, m := LastDot(x), LastDot(name);
    if n == 0 {
      OneLabel(x, name);
    } else if m == 0 {
      DotInside(x, name);
    } else {
      LabelSuffix(x[..n - 1], name[..m - 1]);
      OneLabelMore(x, name);
    }
  }

  lemma OneLabelMore(x: string, name: string)
    requires LastDot(x) > 0 && LastDot(name) > 0 && Agree(x[..LastDot(x) - 1], name[..LastDot(name) - 1])
    ensures Agree(x, name)
  {
    var n, m := LastDot(x), LastDot(name);
    LabelsStep(x, name);
    StringsStep(x, name);
    AgreeStep(x, name, x[..n - 1], name[..m - 1], x[n..] == name[m..]);
  }

  lemma AgreeStep(x: string, name: string, x': string, name': string, same: bool)
    requires Agree(x', name')
    requires Labels(x) <= Labels(name) <==> same && Labels(x') <= Labels(name')
    requires |Labels(x)| == 1 + |Labels(x')| && |Labels(name)| == 1 + |Labels(name')|
    requires name == x <==> name' == x' && same
    requires EndsWith(name, "." + x) <==> EndsWith(name', "." + x') && same
    ensures Agree(x, name)
  {
  }

  lemma LabelsStep(x: string, name: string)
    requires LastDot(x) > 0 && LastDot(name) > 0
    ensures var n, m := LastDot(x), LastDot(name);
            && (Labels(x) <= Labels(name) <==> x[n..] == name[m..] && Labels(x[..n - 1]) <= Labels(name[..m - 1]))
            && |Labels(x)| == 1 + |Labels(x[..n - 1])| && |Labels(name)| == 1 + |Labels(name[..m - 1])|
  {
    var n, m := LastDot(x), LastDot(name);
    PrefixCons(x[n..], Labels(x[..n - 1]), Labels(name));
    assert Labels(name)[1..] == Labels(name[..m - 1]);
  }

  lemma StringsStep(x: string, name: string)
    requires LastDot(x) > 0 && LastDot(name) > 0
    ensures var n, m := LastDot(x), LastDot(name);
            && (name == x <==> name[..m - 1] == x[..n - 1] && name[m..] == x[n..])
            && (EndsWith(name, "." + x) <==> EndsWith(name[..m - 1], "." + x[..n - 1]) && name[m..] == x[n..])
  {
    LastLabel(x);
    LastLabel(name);
    SuffixStep(x[..LastDot(x) - 1], x[LastDot(x)..], name[..LastDot(name) - 1], name[LastDot(name)..]);
  }

  lemma OneLabel(x: string, name: string)
    requires LastDot(x) == 0
    ensures Agree(x, name)
  {
    var m := LastDot(name);
    assert Labels(x) == [x];
    assert name[m..] == Labels(name)[0];
    PrefixCons(x, [], Labels(name));
    if EndsWith(name, "." + x) {
      var k := |name| - |x|;
      assert name[k - 1] == ("." + x)[0] && name[k..] == ("." + x)[1..];
      LastDotIs(name, k);
    }
  }

  lemma DotInside(x: string, name: string)
    requires LastDot(x) > 0 && LastDot(name) == 0
    ensures !(Labels(x) <= Labels(name)) && name != x && !EndsWith(name, "." + x)
  {
    if EndsWith(name, "." + x) { HasDot(name, x); }
  }

  lemma HasDot(name: string, x: string)
    requires EndsWith(name, "." + x)
    ensures LastDot(name) > 0
  {
    var q := EndsElim(name, "." + x);
    assert name[|q|] == '.';
  }

  /** A string is cut at its last dot in one way only. */
  lemma LastCut(u: string, b: string, w: string, a: string)
    requires NoDot(a, 0, |a|) && NoDot(b, 0, |b|)
    requires u + "." + b == w + "." + a
    ensures u == w && a == b
  {
    var s := u + "." + b;
    LastDotIs(s, |u| + 1);
    LastDotIs(s, |w| + 1);
    assert s[..|u|] == u && s[..|w|] == w && s[|u| + 1..] == b && s[|w| + 1..] == a;
  }

  lemma EndsIntro(q: string, t: string)
    ensures EndsWith(q + t, t)
  {
  }

  lemma EndsElim(s: string, t: string) returns (q: string)
    requires EndsWith(s, t)
    ensures s == q + t
  {
    q := s[..|s| - |t|];
  }

  lemma Assoc(q: string, x: string, a: string)
    ensures q + ("." + (x + "." + a)) == (q + ("." + x)) + "." + a
  {
  }

  /** Suffixes that go back beyond the last label. */
  lemma SuffixStep(x: string, a: string, name: string, b: string)
    requires NoDot(a, 0, |a|) && NoDot(b, 0, |b|)
    ensures name + "." + b == x + "." + a <==> name == x && a == b
    ensures EndsWith(name + "." + b, "." + (x + "." + a)) <==> EndsWith(name, "." + x) && a == b
  {
    var s, t := name + "." + b, x + "." + a;
    if s == t { LastCut(name, b, x, a); }
    if EndsWith(s, "." + t) {
      var q := EndsElim(s, "." + t);
      Assoc(q, x, a);
      LastCut(name, b, q + ("." + x), a);
      EndsIntro(q, "." + x);
    }
    if EndsWith(name, "." + x) && a == b {
      var q := EndsElim(name, "." + x);
      Assoc(q, x, a);
      EndsIntro(q, "." + t);
    }
  }

  /** Of two suffixes of one name the one with more labels is the longer string. */
  lemma LongerSuffix(x: string, y: string, name: string)
    requires (name == x || EndsWith(name, "." + x)) && (name == y || EndsWith(name, "." + y))
    requires |Labels(y)| <= |Labels(x)|
    ensures |y| <= |x|
  {
    if |x| < |y| {
      ShorterEnds(x, y, name);
      LabelSuffix(x, y);
    }
  }

  lemma ShorterEnds(x: string, y: string, name: string)
    requires EndsWith(name, "." + x) && (name == y || EndsWith(name, "." + y)) && |x| < |y|
    ensures EndsWith(y, "." + x)
  {
    var q := EndsElim(name, "." + x);
    var d := |name| - |y|;
    assert name[d..] == y by {
      if name != y {
        var p := EndsElim(name, "." + y);
        assert name == (p + ".") + y;
      }
    }
    assert y == q[d..] + ("." + x);
  }

  /** Different suffixes have different labels. */
  lemma LabelsInjective(x: string, y: string)
    requires Labels(x) == Labels(y)
    ensures x == y
  {
    LabelSuffix(x, y);
  }

  // ---------------------------------------------------------------- the whole way

  ghost function KeyOf(p: Pattern): Entry
    requires Accepted(p.text)
  {
    Entry(Reversed(p.text[1..]), p.value)
  }

  /** Accepted patterns for different suffixes, listed in the order of their keys. */
  ghost predicate Listed(ps: seq<Pattern>) {
    && (forall i :: 0 <= i < |ps| ==> Accepted(ps[i].text) && ps[i].value != 0)
    && (forall i, j :: 0 <= i < j < |ps| ==> Suffix(ps[i].text) != Suffix(ps[j].text))
    && (forall i, j :: 0 <= i < j < |ps| ==> DnsLess(KeyOf(ps[i]).key, KeyOf(ps[j]).key))
  }

  /** v is the value of the longest pattern that covers the name, or 0 when none does. */
  ghost predicate LongestPattern(ps: seq<Pattern>, name: string, v: nat)
    requires forall i :: 0 <= i < |ps| ==> Accepted(ps[i].text)
  {
    if v == 0 then forall i :: 0 <= i < |ps| ==> !Covers(ps[i].text, name)
    else exists i :: 0 <= i < |ps| && Covers(ps[i].text, name) && ps[i].value == v
                     && forall j :: 0 <= j < |ps| && Covers(ps[j].text, name) ==> |Suffix(ps[j].text)| <= |Suffix(ps[i].text)|
  }

  /** The key of a pattern: its labels, and whether it has a star. */
  lemma PatternKey(p: Pattern)
    requires Accepted(p.text)
    ensures Path(KeyOf(p).key) == Labels(Suffix(p.text)) && (IsStar(KeyOf(p).key) <==> p.text[0] == '*')
    ensures KeyOf(p).key != ""
  {
    var x := Suffix(p.text);
    if p.text[0] == '*' {
      assert p.text[1..] == "." + x;
      StarKey(x);
    } else {
      PlainKey(x);
    }
  }

  /** Matching labels is covering the string. */
  lemma CoversIsMatch(p: Pattern, name: string)
    requires Accepted(p.text)
    ensures Covers(p.text, name) <==> Matches(KeyOf(p).key, Labels(name))
  {
    PatternKey(p);
    LabelSuffix(Suffix(p.text), name);
  }

  lemma {:induction false} ReversedPlain(s: string)
    requires Plain(s)
    ensures Plain(Reversed(s))
    decreases |s|
  {
    var n := LastDot(s);
    if n > 0 { ReversedPlain(s[..n - 1]); }
  }

  lemma DifferentPaths(p: Pattern, q: Pattern)
    requires Accepted(p.text) && Accepted(q.text) && Suffix(p.text) != Suffix(q.text)
    ensures Path(KeyOf(p).key) != Path(KeyOf(q).key)
  {
    PatternKey(p);
    PatternKey(q);
    if Labels(Suffix(p.text)) == Labels(Suffix(q.text)) {
      LabelsInjective(Suffix(p.text), Suffix(q.text));
    }
  }

  lemma ListedProper(ps: seq<Pattern>, names: seq<Entry>)
    requires Listed(ps) && |names| == |ps| && forall i :: 0 <= i < |ps| ==> names[i] == KeyOf(ps[i])
    ensures Proper(names)
  {
    forall i | 0 <= i < |names| ensures Plain(names[i].key) && names[i].key != "" && names[i].value != 0 {
      PatternKey(ps[i]);
      ReversedPlain(ps[i].text[1..]);
    }
    forall i, j | 0 <= i < j < |names| ensures Ordered(names[i], names[j]) {
      DifferentPaths(ps[i], ps[j]);
    }
  }

  /** The key with the most labels belongs to the longest pattern. */
  lemma LongestIsLongest(ps: seq<Pattern>, names: seq<Entry>, name: string, v: nat)
    requires Listed(ps) && |names| == |ps| && forall i :: 0 <= i < |ps| ==> names[i] == KeyOf(ps[i])
    requires IsLongest(names, Labels(name), v)
    ensures LongestPattern(ps, name, v)
  {
    forall i | 0 <= i < |ps| ensures Covers(ps[i].text, name) <==> Matches(names[i].key, Labels(name)) {
      CoversIsMatch(ps[i], name);
    }
    if v != 0 {
      var k :| 0 <= k < |names| && Wins(names, Labels(name), k) && names[k].value == v;
      forall j | 0 <= j < |ps| && Covers(ps[j].text, name) ensures |Suffix(ps[j].text)| <= |Suffix(ps[k].text)| {
        PatternKey(ps[j]);
        PatternKey(ps[k]);
        LongerSuffix(Suffix(ps[k].text), Suffix(ps[j].text), name);
      }
    }
  }

  /** The keys of all patterns, compiled. */
  method Compile(ps: seq<Pattern>) returns (t: Table)
    requires Listed(ps)
    ensures forall name :: LongestPattern(ps, name, Find(t, Labels(name)))
    ensures (forall i :: 0 <= i < |ps| ==> ps[i].value % 4 == 0) ==> Pointers(t)
  {
    var names: seq<Entry> := [];
    while |names| < |ps|
      invariant |names| <= |ps| && forall i :: 0 <= i < |names| ==> names[i] == KeyOf(ps[i])
    {
      var p := ps[|names|];
      var key := ReverseLabels(p.text);
      names := names + [Entry(key, p.value)];
    }
    ListedProper(ps, names);
    t := WildcardInit(names);
    forall name ensures LongestPattern(ps, name, Find(t, Labels(name))) {
      LongestIsLongest(ps, names, name, Find(t, Labels(name)));
    }
  }

  /** A compiled table, asked for a name. */
  method Lookup(ps: seq<Pattern>, t: Table, name: string) returns (value: nat)
    requires Listed(ps) && forall s :: LongestPattern(ps, s, Find(t, Labels(s)))
    ensures LongestPattern(ps, name, value)
  {
    value := FindHead(t, name);
  }
}
