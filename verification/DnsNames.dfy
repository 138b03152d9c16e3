/**
 Domain names as strings of labels, and the keys that ngx_hash.c makes of wildcard names:
 "com.example." for "*.example.com" and "com.example" for ".example.com".
 */
module DnsNames {

  // ---------------------------------------------------------------- keys, label by label from the left

  ghost predicate NoDot(s: string, i: nat, k: nat)
    requires k <= |s|
  {
    forall j :: i <= j < k ==> s[j] != '.'
  }

  /** d is the position of the first dot, or the length. */
  ghost predicate IsFirstDot(s: string, d: nat) {
    d <= |s| && (d < |s| ==> s[d] == '.') && NoDot(s, 0, d)
  }

  lemma {:induction false} FirstDotExists(s: string, k: nat)
    requires k <= |s| && NoDot(s, 0, k)
    ensures exists d :: IsFirstDot(s, d)
    decreases |s| - k
  {
    if k == |s| || s[k] == '.' {
      assert IsFirstDot(s, k);
    } else {
      FirstDotExists(s, k + 1);
    }
  }

  ghost function FirstDot(s: string): (d: nat)
    ensures IsFirstDot(s, d)
  {
    FirstDotExists(s, 0);
    var d :| IsFirstDot(s, d);
    d
  }

  /** The position is determined by its description. */
  lemma FirstDotIs(s: string, d: nat)
    requires IsFirstDot(s, d)
    ensures FirstDot(s) == d
  {
  }

  ghost function First(s: string): string { s[..FirstDot(s)] }

  /** What follows the first dot. */
  ghost function Rest(s: string): string
    requires FirstDot(s) < |s|
  {
    s[FirstDot(s) + 1..]
  }

  /** Nothing follows the first label, except perhaps a final dot. */
  ghost predicate Ends(s: string) { FirstDot(s) + 1 >= |s| }

  /** The labels of a key; a final dot ends the last label. */
  ghost function Path(s: string): (p: seq<string>)
    ensures p != [] && p[0] == First(s)
    decreases |s|
  {
    if Ends(s) then [First(s)] else [First(s)] + Path(Rest(s))
  }

  /** "*.suffix" leaves a final dot in the key, ".suffix" does not. */
  predicate IsStar(s: string) { s != "" && s[|s| - 1] == '.' }

  lemma StarRest(s: string)
    requires !Ends(s)
    ensures Path(s) == [First(s)] + Path(Rest(s)) && (IsStar(s) <==> IsStar(Rest(s)))
    ensures |Rest(s)| < |s| && Rest(s) != ""
  {
  }

  /** The dot is at the end exactly for a star key of one label. */
  lemma StarEnds(s: string)
    requires Ends(s) && s != ""
    ensures IsStar(s) <==> FirstDot(s) < |s|
  {
    assert IsFirstDot(s, FirstDot(s));
  }

  lemma PathEnds(s: string)
    requires Ends(s)
    ensures Path(s) == [First(s)]
  {
  }

  /** Does a name with these labels, outermost first, fall under the key? */
  ghost predicate Matches(key: string, labels: seq<string>) {
    Path(key) <= labels && (IsStar(key) ==> |Path(key)| < |labels|)
  }

  // ---------------------------------------------------------------- the order of ngx_dns_strcmp

  function Lower(c: char): char {
    if 'A' <= c <= 'Z' then c + 32 as char else c
  }

  /** '.' is the lowest character. */
  function Weight(c: char): char { if c == '.' then ' ' else c }

  /** ngx_dns_strcmp(a, b) < 0 */
  predicate DnsLess(a: string, b: string) {
    if b == "" then false
    else if a == "" then true
    else if Lower(a[0]) == Lower(b[0]) then DnsLess(a[1..], b[1..])
    else Weight(Lower(a[0])) < Weight(Lower(b[0]))
  }

  /** Lower case and above the space. */
  predicate Plain(s: string) {
    forall i :: 0 <= i < |s| ==> s[i] > ' ' && Lower(s[i]) == s[i]
  }

  /** Strings that share a start are ordered by what follows. */
  lemma {:induction false} LessAfter(p: string, a: string, b: string)
    ensures DnsLess(p + a, p + b) == DnsLess(a, b)
  {
    if p == "" {
      assert p + a == a && p + b == b;
    } else {
      assert (p + a)[1..] == p[1..] + a && (p + b)[1..] == p[1..] + b;
      LessAfter(p[1..], a, b);
    }
  }

  /** Between two keys with the same first label there are only keys with that label. */
  lemma {:induction false} SameLabelBetween(x: string, b: string, y: string)
    requires Plain(x) && Plain(b) && Plain(y) && First(x) == First(y)
    requires DnsLess(x, b) && DnsLess(b, y)
    ensures First(b) == First(x)
    decreases |b|
  {
    if FirstDot(x) == 0 {
      FirstEmpty(x, b, y);
    } else {
      assert x[0] == First(x)[0] && y[0] == First(y)[0];
      assert b[0] == x[0] by {
        assert Lower(x[0]) == x[0] && Lower(y[0]) == y[0] && b != "";
        assert Lower(b[0]) == b[0];
      }
      FirstTail(x); FirstTail(b); FirstTail(y);
      SameLabelBetween(x[1..], b[1..], y[1..]);
    }
  }

  lemma FirstTail(s: string)
    requires s != "" && s[0] != '.'
    ensures First(s) == [s[0]] + First(s[1..]) && FirstDot(s) == 1 + FirstDot(s[1..])
  {
    FirstDotIs(s, 1 + FirstDot(s[1..]));
  }

  lemma FirstEmpty(x: string, b: string, y: string)
    requires Plain(x) && Plain(b) && Plain(y) && FirstDot(x) == 0 && First(y) == ""
    requires DnsLess(x, b) && DnsLess(b, y)
    ensures First(b) == ""
  {
    assert y != "" && FirstDot(y) == 0 && y[0] == '.';
    if b != "" {
      assert Lower(b[0]) == b[0] && b[0] > ' ';
      assert Weight('.') == ' ';
    }
  }

  /** A key without more labels comes before every longer key with the same first label. */
  lemma ShortFirst(x: string, y: string)
    requires DnsLess(x, y) && First(x) == First(y) && Ends(y)
    ensures Ends(x) && Path(x) == Path(y)
  {
    var a := First(x);
    var d := |a|;
    assert x == a + x[d..] && y == a + y[d..];
    LessAfter(a, x[d..], y[d..]);
  }

  // ---------------------------------------------------------------- names, label by label from the right

  /** n is the length of a name up to and including its last dot, or 0. */
  ghost predicate IsLastDot(s: string, n: nat) {
    n <= |s| && (n > 0 ==> s[n - 1] == '.') && NoDot(s, n, |s|)
  }

  lemma {:induction false} LastDotExists(s: string, k: nat)
    requires k <= |s| && NoDot(s, k, |s|)
    ensures exists n :: IsLastDot(s, n)
  {
    if k == 0 || s[k - 1] == '.' {
      assert IsLastDot(s, k);
    } else {
      LastDotExists(s, k - 1);
    }
  }

  ghost function LastDot(s: string): (n: nat)
    ensures IsLastDot(s, n)
  {
    LastDotExists(s, |s|);
    var n :| IsLastDot(s, n);
    n
  }

  lemma LastDotIs(s: string, n: nat)
    requires IsLastDot(s, n)
    ensures LastDot(s) == n
  {
  }

  /** The labels of a name, outermost first. */
  ghost function Labels(s: string): (l: seq<string>)
    ensures l != [] && l[0] == s[LastDot(s)..]
    decreases |s|
  {
    var n := LastDot(s);
    if n == 0 then [s] else [s[n..]] + Labels(s[..n - 1])
  }
}
