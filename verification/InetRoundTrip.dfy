/**
 Reading the text of an address gives the address back.
 */
module InetRoundTrip {
  import opened Inet

  // ---------------------------------------------------------------- pieces of a text

  /** h stands at position i of the text. */
  ghost predicate Has(text: string, i: nat, h: string) {
    i + |h| <= |text| && forall k :: 0 <= k < |h| ==> Same(text, i, h, k)
  }

  ghost predicate Same(text: string, i: nat, h: string, k: nat)
    requires k < |h| && i + |h| <= |text|
  {
    text[i + k] == h[k]
  }

  /** The text ends with h from position i on. */
  ghost predicate Rest(text: string, i: nat, h: string) {
    Has(text, i, h) && i + |h| == |text|
  }

  lemma HasParts(text: string, i: nat, a: string, b: string)
    requires Has(text, i, a + b)
    ensures Has(text, i, a) && Has(text, i + |a|, b)
  {
    var h := a + b;
    forall k | 0 <= k < |a| ensures Same(text, i, a, k) {
      assert Same(text, i, h, k);
    }
    var j := i + |a|;
    forall k | 0 <= k < |b| ensures Same(text, j, b, k) {
      assert Same(text, i, h, |a| + k);
    }
  }

  lemma RestParts(text: string, i: nat, a: string, b: string)
    requires Rest(text, i, a + b)
    ensures Has(text, i, a) && Rest(text, i + |a|, b)
  {
    HasParts(text, i, a, b);
  }

  lemma RestFirst(text: string, i: nat, c: char, b: string)
    requires Rest(text, i, [c] + b)
    ensures i < |text| && text[i] == c && Rest(text, i + 1, b)
  {
    RestParts(text, i, [c], b);
    assert Same(text, i, [c], 0);
  }

  lemma RestIs(text: string, i: nat, h: string)
    requires i <= |text| && text[i..] == h
    ensures Rest(text, i, h)
  {
    forall k | 0 <= k < |h| ensures Same(text, i, h, k) {
      assert text[i..][k] == text[i + k];
    }
  }

  // ---------------------------------------------------------------- digits

  lemma DigitRead(d: nat)
    requires d < 16
    ensures HexValue(HexDigit(d)) == d && HexDigit(d) != ':' && HexDigit(d) != '.'
    ensures d < 10 ==> IsDigit(HexDigit(d)) && HexDigit(d) as int - '0' as int == d
  {
  }

  /** One more hexadecimal digit. */
  lemma OneDigit(text: string, i: nat, d: nat, s: Scan)
    requires d < 16 && ScanOk(text, s) && s.nibbles < 4 && i < |text| && text[i] == HexDigit(d)
    ensures Inet6(text, i, s) == Inet6(text, i + 1, s.(nibbles := s.nibbles + 1, word := s.word * 16 + d))
  {
    DigitRead(d);
  }

  /** A hexadecimal digit in upper or lower case. */
  predicate IsHex(c: char) { '0' <= c <= '9' || 'a' <= c <= 'f' || 'A' <= c <= 'F' }

  function Nibble(c: char): (n: nat)
    requires IsHex(c)
    ensures n < 16
  {
    if '0' <= c <= '9' then c as int - '0' as int
    else if 'a' <= c <= 'f' then c as int - 'a' as int + 10
    else c as int - 'A' as int + 10
  }

  predicate AllHex(h: string) { forall k :: 0 <= k < |h| ==> IsHex(h[k]) }

  function SpelledValue(h: string): nat
    requires AllHex(h)
  {
    if h == "" then 0 else SpelledValue(h[..|h| - 1]) * 16 + Nibble(h[|h| - 1])
  }

  /** One to four digits, in either case, with leading zeroes or not, that stand for w. */
  ghost predicate Spells(h: string, w: nat) {
    1 <= |h| <= 4 && AllHex(h) && SpelledValue(h) == w
  }

  lemma NibbleRead(c: char)
    requires IsHex(c)
    ensures HexValue(c) == Nibble(c) && c != ':' && c != '.'
  {
  }

  /** The first m digits of a word in any spelling. */
  lemma {:induction false} SpelledRead(text: string, i: nat, h: string, s: Scan, m: nat)
    requires AllHex(h) && m <= |h| <= 4 && ScanOk(text, s) && s.nibbles == 0 && s.word == 0 && Has(text, i, h)
    ensures AllHex(h[..m]) && Inet6(text, i, s) == Inet6(text, i + m, s.(nibbles := m, word := SpelledValue(h[..m])))
  {
    if m > 0 {
      SpelledRead(text, i, h, s, m - 1);
      assert Same(text, i, h, m - 1);
      NibbleRead(h[m - 1]);
      assert h[..m][..m - 1] == h[..m - 1];
    }
  }

  function Bound(m: nat): nat {
    if m == 0 then 1 else if m == 1 then 16 else if m == 2 then 256 else if m == 3 then 4096 else 65536
  }

  /** What "%xd" prints is a spelling. */
  lemma {:induction false} HexSpells(w: nat, m: nat)
    requires 1 <= m <= 4 && w < Bound(m)
    ensures |Hex(w)| <= m && Spells(Hex(w), w)
    decreases w
  {
    if w < 16 {
      HexDigitNibble(w);
      assert Hex(w)[..0] == "";
    } else {
      var h, d := Hex(w / 16), w % 16;
      HexSpells(w / 16, m - 1);
      HexDigitNibble(d);
      assert Hex(w)[..|h|] == h;
    }
  }

  lemma HexDigitNibble(d: nat)
    requires d < 16
    ensures IsHex(HexDigit(d)) && Nibble(HexDigit(d)) == d
  {
  }

  /** A decimal number of at most m digits, read as if it were hexadecimal. */
  lemma {:induction false} DecRead(text: string, i: nat, a: nat, s: Scan, m: nat) returns (v: nat)
    requires 1 <= m <= 3 && a < (if m == 1 then 10 else if m == 2 then 100 else 1000)
    requires ScanOk(text, s) && s.nibbles == 0 && s.word == 0 && Has(text, i, Dec(a))
    ensures |Dec(a)| <= m && Inet6(text, i, s) == Inet6(text, i + |Dec(a)|, s.(nibbles := |Dec(a)|, word := v))
    decreases a
  {
    if a < 10 {
      assert Same(text, i, Dec(a), 0);
      OneDigit(text, i, a, s);
      v := a;
    } else {
      var h, d := Dec(a / 10), a % 10;
      HasParts(text, i, h, [HexDigit(d)]);
      assert Same(text, i + |h|, [HexDigit(d)], 0);
      var u := DecRead(text, i, a / 10, s, m - 1);
      OneDigit(text, i + |h|, d, s.(nibbles := |h|, word := u));
      v := u * 16 + d;
    }
  }

  // ---------------------------------------------------------------- IPv4

  lemma {:induction false} OctetRead(text: string, i: nat, a: nat, addr: nat, n: nat)
    requires a < 256 && Has(text, i, Dec(a))
    ensures Inet4(text, i, addr, 0, n) == Inet4(text, i + |Dec(a)|, addr, a, n)
    decreases a
  {
    if a < 10 {
      DigitRead(a);
      assert Same(text, i, Dec(a), 0);
    } else {
      var h, d := Dec(a / 10), a % 10;
      DigitRead(d);
      HasParts(text, i, h, [HexDigit(d)]);
      assert Same(text, i + |h|, [HexDigit(d)], 0);
      OctetRead(text, i, a / 10, addr, n);
    }
  }

  /** An octet and a dot. */
  lemma OctetDot(text: string, i: nat, a: nat, post: string, addr: nat, n: nat)
    requires a < 256 && addr * 256 + a < WORD32 && Rest(text, i, Dec(a) + ("." + post))
    ensures var j := i + |Dec(a)| + 1; Rest(text, j, post) && Inet4(text, i, addr, 0, n) == Inet4(text, j, addr * 256 + a, 0, n + 1)
  {
    RestParts(text, i, Dec(a), "." + post);
    RestFirst(text, i + |Dec(a)|, '.', post);
    OctetRead(text, i, a, addr, n);
  }

  function Value(a: nat, b: nat, c: nat, d: nat): nat { ((a * 256 + b) * 256 + c) * 256 + d }

  /** A dotted quad at the end of a text reads back, except 255.255.255.255, which is the error value. */
  lemma QuadRead(text: string, i: nat, a: nat, b: nat, c: nat, d: nat)
    requires a < 256 && b < 256 && c < 256 && d < 256
    requires Rest(text, i, Quad(a, b, c, d))
    ensures Inet4(text, i, 0, 0, 0) == if a == 255 && b == 255 && c == 255 && d == 255 then None else Some(Value(a, b, c, d))
  {
    OctetDot(text, i, a, Dec(b) + ("." + (Dec(c) + ("." + Dec(d)))), 0, 0);
    ThreeOctets(text, i + |Dec(a)| + 1, a, b, c, d);
    AllOnes(a, b, c, d);
  }

  lemma AllOnes(a: nat, b: nat, c: nat, d: nat)
    requires a < 256 && b < 256 && c < 256 && d < 256
    ensures Value(a, b, c, d) == INADDR_NONE <==> a == 255 && b == 255 && c == 255 && d == 255
  {
  }

  function Unless(v: nat): Option<nat> { if v == INADDR_NONE then None else Some(v) }

  lemma ThreeOctets(text: string, i: nat, x: nat, b: nat, c: nat, d: nat)
    requires x < 256 && b < 256 && c < 256 && d < 256 && Rest(text, i, Dec(b) + ("." + (Dec(c) + ("." + Dec(d)))))
    ensures Inet4(text, i, x, 0, 1) == Unless(((x * 256 + b) * 256 + c) * 256 + d)
  {
    var post, k, y := Dec(c) + ("." + Dec(d)), i + |Dec(b)| + 1, x * 256 + b;
    if Rest(text, k, post) { TwoOctets(text, k, y, c, d); }
    OctetThen(text, i, x, b, post, 1, Unless((y * 256 + c) * 256 + d));
  }

  /** An octet, a dot and a text whose reading is known. */
  lemma OctetThen(text: string, i: nat, x: nat, b: nat, post: string, n: nat, r: Option<nat>)
    requires b < 256 && x * 256 + b < WORD32 && Rest(text, i, Dec(b) + ("." + post))
    requires var k := i + |Dec(b)| + 1; Rest(text, k, post) ==> Inet4(text, k, x * 256 + b, 0, n + 1) == r
    ensures Inet4(text, i, x, 0, n) == r
  {
    OctetDot(text, i, b, post, x, n);
  }

  lemma TwoOctets(text: string, i: nat, x: nat, c: nat, d: nat)
    requires x < 65536 && c < 256 && d < 256 && Rest(text, i, Dec(c) + ("." + Dec(d)))
    ensures Inet4(text, i, x, 0, 2) == Unless((x * 256 + c) * 256 + d)
  {
    OctetDot(text, i, c, Dec(d), x, 2);
    FinalOctet(text, i + |Dec(c)| + 1, x * 256 + c, d);
  }

  lemma FinalOctet(text: string, i: nat, x: nat, d: nat)
    requires x < 0x100_0000 && d < 256 && Rest(text, i, Dec(d))
    ensures Inet4(text, i, x, 0, 3) == Unless(x * 256 + d)
  {
    OctetRead(text, i, d, x, 3);
  }

  // ---------------------------------------------------------------- words and colons

  /** A word and a colon. */
  lemma WordColon(text: string, i: nat, h: string, w: nat, post: string, s: Scan)
    requires Spells(h, w) && ScanOk(text, s) && s.n >= 2 && s.nibbles == 0 && s.word == 0 && Rest(text, i, h + (":" + post))
    ensures var j := i + |h| + 1;
            Rest(text, j, post) && Inet6(text, i, s) == Inet6(text, j, Scan(Emit(s.out, w), s.zero, j, 0, 0, s.n - 1))
  {
    RestParts(text, i, h, ":" + post);
    RestFirst(text, i + |h|, ':', post);
    SpelledRead(text, i, h, s, |h|);
    assert h[..|h|] == h;
  }

  /** The second of two colons. */
  lemma Colons(text: string, i: nat, post: string, s: Scan)
    requires ScanOk(text, s) && s.zero == -1 && s.nibbles == 0 && Rest(text, i, ":" + post)
    ensures Rest(text, i + 1, post) && Inet6(text, i, s) == Inet6(text, i + 1, s.(zero := |s.out|, digit := i + 1))
  {
    RestFirst(text, i, ':', post);
  }

  /** The last word. */
  lemma LastWord(text: string, i: nat, h: string, w: nat, s: Scan)
    requires Spells(h, w) && ScanOk(text, s) && s.nibbles == 0 && s.word == 0 && Rest(text, i, h)
    ensures Inet6(text, i, s) == Finish(s.(nibbles := |h|, word := w))
  {
    SpelledRead(text, i, h, s, |h|);
    assert h[..|h|] == h;
  }

  lemma EmitWord(p: seq<nat>, out: seq<nat>, a: nat, k: nat)
    requires Address(p) && a <= 2 * k && k < 8 && out == p[a..2 * k]
    ensures Emit(out, WordAt(p, k)) == p[a..2 * k + 2]
  {
    assert WordAt(p, k) / 256 % 256 == p[2 * k] && WordAt(p, k) % 256 == p[2 * k + 1];
  }

  // ---------------------------------------------------------------- whole addresses

  /** `max` words from word `zero` on are zero and left out, or none are. */
  ghost predicate ZeroGap(p: seq<nat>, zero: int, max: nat)
    requires Address(p)
  {
    zero == -1 || (0 <= zero && 1 <= max && zero + max <= 8 && forall k :: zero <= k < zero + max ==> WordAt(p, k) == 0)
  }

  /** The state of the scan in front of word i: the words of the run have been left out if they lie before i. */
  ghost predicate At(p: seq<nat>, i: nat, zero: int, max: nat, s: Scan)
    requires Address(p)
  {
    && i <= 8 && s.nibbles == 0 && s.word == 0
    && (if zero < 0 || i <= zero then s.zero == -1 && s.out == p[..2 * i] && s.n == 8 - i
        else zero + max <= i && s.zero == 2 * zero && s.out == p[..2 * zero] + p[2 * (zero + max)..2 * i] && s.n == 8 - (i - max))
  }

  /** The words left out were zero. */
  lemma Filled(p: seq<nat>, zero: int, max: nat, k: nat)
    requires Address(p) && ZeroGap(p, zero, max) && zero >= 0 && k <= max
    ensures p[..2 * zero] + Zeros(2 * k) + p[2 * (zero + k)..] == p
  {
    forall j | 2 * zero <= j < 2 * (zero + max) ensures p[j] == 0 {
      assert WordAt(p, j / 2) == 0;
    }
  }

  lemma RunStart(p: seq<nat>, i: nat, zero: int, max: nat, s: Scan, digit: int)
    requires Address(p) && ZeroGap(p, zero, max) && i == zero && At(p, i, zero, max, s)
    ensures At(p, i + max, zero, max, s.(zero := |s.out|, digit := digit))
  {
    assert p[2 * (zero + max)..2 * (i + max)] == [];
  }

  lemma OneWord(p: seq<nat>, i: nat, zero: int, max: nat, s: Scan, digit: int)
    requires Address(p) && ZeroGap(p, zero, max) && i < 7 && i != zero && At(p, i, zero, max, s)
    ensures s.n >= 2 && s.zero <= |s.out|
    ensures At(p, i + 1, zero, max, Scan(Emit(s.out, WordAt(p, i)), s.zero, digit, 0, 0, s.n - 1))
  {
    var w := WordAt(p, i);
    if zero == -1 || i < zero {
      EmitWord(p, s.out, 0, i);
      assert p[0..2 * i] == p[..2 * i];
    } else {
      var q := p[2 * (zero + max)..2 * i];
      EmitWord(p, q, 2 * (zero + max), i);
      assert Emit(p[..2 * zero] + q, w) == p[..2 * zero] + Emit(q, w);
    }
  }

  lemma LastGroup(p: seq<nat>, zero: int, max: nat, s: Scan, k: nat)
    requires Address(p) && ZeroGap(p, zero, max) && zero != 7 && At(p, 7, zero, max, s) && k > 0
    ensures s.n >= 1 && s.zero <= |s.out| && Finish(s.(nibbles := k, word := WordAt(p, 7))) == Some(p)
  {
    var w := WordAt(p, 7);
    if zero == -1 {
      EmitWord(p, s.out, 0, 7);
      assert p[0..16] == p && p[..14] == p[0..14];
    } else {
      var q := p[2 * (zero + max)..14];
      EmitWord(p, q, 2 * (zero + max), 7);
      var out := Emit(s.out, w);
      assert out == p[..2 * zero] + Emit(q, w);
      assert out[..2 * zero] == p[..2 * zero] && out[2 * zero..] == p[2 * (zero + max)..16];
      assert p[2 * (zero + max)..16] == p[2 * (zero + max)..];
      Filled(p, zero, max, max);
    }
  }

  /** The run ends the address; a run of a single word is then refused. */
  lemma RunLast(p: seq<nat>, zero: int, max: nat, s: Scan)
    requires Address(p) && ZeroGap(p, zero, max) && zero >= 0 && zero + max == 8 && At(p, 8, zero, max, s)
    ensures s.n >= 1 && s.zero <= |s.out| && Finish(s) == if max == 1 then None else Some(p)
  {
    assert p[16..16] == [] && s.out == p[..2 * zero];
    var out := Emit(s.out, 0);
    assert out[..2 * zero] == p[..2 * zero] && out[2 * zero..] == [0, 0];
    assert WordAt(p, 7) == 0;
    assert p[14..] == [0, 0];
    Filled(p, zero, max, max - 1);
    assert 2 * (zero + (max - 1)) == 14;
  }

  /** Every word in some spelling. */
  ghost predicate Spelling(p: seq<nat>, hs: seq<string>)
    requires Address(p)
  {
    |hs| == 8 && forall k :: 0 <= k < 8 ==> Spells(hs[k], WordAt(p, k))
  }

  /** The first n words from word i on as they are spelled, without those from `zero` to `zero + max`. */
  function Spelled(hs: seq<string>, i: nat, n: nat, zero: int, max: nat): string
    requires |hs| == 8 && n <= 8
    decreases 8 - i
  {
    if i >= n then ""
    else if i == zero && max > 0 then ":" + Spelled(hs, i + max, n, zero, max)
    else if i < 7 then hs[i] + (":" + Spelled(hs, i + 1, n, zero, max))
    else hs[i] + Spelled(hs, i + 1, n, zero, max)
  }

  /** The groups from word i on, at the end of a text, read back. */
  lemma {:induction false} GroupsRead(text: string, j: nat, p: seq<nat>, hs: seq<string>, i: nat, zero: int, max: nat, s: Scan)
    requires Address(p) && ZeroGap(p, zero, max) && Spelling(p, hs) && At(p, i, zero, max, s) && (i == 8 ==> zero + max == 8 && zero >= 0)
    requires Rest(text, j, Spelled(hs, i, 8, zero, max)) && s.digit <= |text|
    ensures ScanOk(text, s) && Inet6(text, j, s) == if zero == 7 then None else Some(p)
    decreases 8 - i
  {
    if i == 8 {
      RunLast(p, zero, max, s);
    } else if i == 7 && i != zero {
      EndRead(text, j, p, hs, zero, max, s);
    } else {
      var h := Spelled(hs, i, 8, zero, max);
      assert h + "" == h;
      var l, k, s' := GroupRead(text, j, p, hs, i, 8, zero, max, s, "");
      assert Spelled(hs, l, 8, zero, max) + "" == Spelled(hs, l, 8, zero, max);
      GroupsRead(text, k, p, hs, l, zero, max, s');
    }
  }

  /** The next group and its colon, in front of anything. */
  lemma GroupRead(text: string, j: nat, p: seq<nat>, hs: seq<string>, i: nat, n: nat, zero: int, max: nat, s: Scan, tail: string)
      returns (l: nat, k: nat, s': Scan)
    requires Address(p) && ZeroGap(p, zero, max) && Spelling(p, hs) && At(p, i, zero, max, s) && i < n <= 8 && (i < 7 || i == zero)
    requires Rest(text, j, Spelled(hs, i, n, zero, max) + tail) && s.digit <= |text|
    ensures l == (if i == zero then i + max else i + 1) && At(p, l, zero, max, s') && Rest(text, k, Spelled(hs, l, n, zero, max) + tail)
    ensures ScanOk(text, s) && ScanOk(text, s') && s'.digit == k && Inet6(text, j, s) == Inet6(text, k, s')
  {
    l := if i == zero then i + max else i + 1;
    var post := Spelled(hs, l, n, zero, max) + tail;
    if i == zero {
      Join("", Spelled(hs, l, n, zero, max), tail);
      k, s' := GapRead(text, j, p, i, zero, max, s, post);
    } else {
      Join(hs[i], Spelled(hs, l, n, zero, max), tail);
      k, s' := WordRead(text, j, p, hs[i], i, zero, max, s, post);
    }
  }

  lemma GapRead(text: string, j: nat, p: seq<nat>, i: nat, zero: int, max: nat, s: Scan, post: string) returns (k: nat, s': Scan)
    requires Address(p) && ZeroGap(p, zero, max) && At(p, i, zero, max, s) && i == zero
    requires Rest(text, j, ":" + post) && s.digit <= |text|
    ensures At(p, i + max, zero, max, s') && Rest(text, k, post)
    ensures ScanOk(text, s) && ScanOk(text, s') && s'.digit == k && Inet6(text, j, s) == Inet6(text, k, s')
  {
    k, s' := j + 1, s.(zero := |s.out|, digit := j + 1);
    Colons(text, j, post, s);
    RunStart(p, i, zero, max, s, k);
  }

  lemma WordRead(text: string, j: nat, p: seq<nat>, h: string, i: nat, zero: int, max: nat, s: Scan, post: string) returns (k: nat, s': Scan)
    requires Address(p) && ZeroGap(p, zero, max) && At(p, i, zero, max, s) && i != zero && i < 7 && Spells(h, WordAt(p, i))
    requires Rest(text, j, h + (":" + post)) && s.digit <= |text|
    ensures At(p, i + 1, zero, max, s') && Rest(text, k, post)
    ensures ScanOk(text, s) && ScanOk(text, s') && s'.digit == k && Inet6(text, j, s) == Inet6(text, k, s')
  {
    k := j + |h| + 1;
    OneWord(p, i, zero, max, s, k);
    WordColon(text, j, h, WordAt(p, i), post, s);
    s' := Scan(Emit(s.out, WordAt(p, i)), s.zero, k, 0, 0, s.n - 1);
  }

  lemma EndRead(text: string, j: nat, p: seq<nat>, hs: seq<string>, zero: int, max: nat, s: Scan)
    requires Address(p) && ZeroGap(p, zero, max) && Spelling(p, hs) && At(p, 7, zero, max, s) && zero != 7
    requires Rest(text, j, Spelled(hs, 7, 8, zero, max)) && s.digit <= |text|
    ensures ScanOk(text, s) && Inet6(text, j, s) == Some(p)
  {
    LastGroup(p, zero, max, s, |hs[7]|);
    assert Spelled(hs, 8, 8, zero, max) == "" && hs[7] + "" == hs[7];
    LastWord(text, j, hs[7], WordAt(p, 7), s);
  }

  // ---------------------------------------------------------------- a dotted tail

  lemma Join(a: string, b: string, c: string)
    ensures (a + (":" + b)) + c == a + (":" + (b + c)) && (":" + b) + c == ":" + (b + c)
  {
  }

  /** The six words before a dotted tail read back. */
  lemma {:induction false} HeadRead(text: string, j: nat, p: seq<nat>, hs: seq<string>, i: nat, zero: int, max: nat, s: Scan, tail: string)
      returns (k: nat, s': Scan)
    requires Address(p) && ZeroGap(p, zero, max) && Spelling(p, hs) && (zero >= 0 ==> zero + max <= 6)
    requires At(p, i, zero, max, s) && i <= 6 && s.digit <= |text| && Rest(text, j, Spelled(hs, i, 6, zero, max) + tail)
    requires i == 6 && zero != 6 ==> s.digit == j
    ensures At(p, 6, zero, max, s') && k <= |text| && s'.digit == k && ScanOk(text, s) && ScanOk(text, s')
    ensures Rest(text, k, tail) && Inet6(text, j, s) == Inet6(text, k, s')
    decreases 6 - i
  {
    if i == 6 {
      assert Spelled(hs, i, 6, zero, max) + tail == tail;
      k, s' := j, s;
    } else {
      var l;
      l, k, s' := GroupRead(text, j, p, hs, i, 6, zero, max, s, tail);
      k, s' := HeadRead(text, k, p, hs, l, zero, max, s', tail);
    }
  }

  predicate Ones(p: seq<nat>)
    requires Address(p)
  {
    p[12] == 255 && p[13] == 255 && p[14] == 255 && p[15] == 255
  }

  /** A dotted quad at the end of the text. */
  lemma QuadTail(text: string, j: nat, p: seq<nat>, s: Scan)
    requires Address(p) && ScanOk(text, s) && s.n >= 2 && s.nibbles == 0 && s.word == 0 && s.digit == j
    requires Rest(text, j, Quad(p[12], p[13], p[14], p[15]))
    ensures Inet6(text, j, s)
            == if Ones(p) then None
               else Finish(s.(out := s.out + [p[12], p[13]], word := p[14] * 256 + p[15], n := s.n - 1, nibbles := |Dec(p[12])|))
  {
    var post := Dec(p[13]) + ("." + (Dec(p[14]) + ("." + Dec(p[15]))));
    RestParts(text, j, Dec(p[12]), "." + post);
    RestFirst(text, j + |Dec(p[12])|, '.', post);
    var v := DecRead(text, j, p[12], s, 3);
    QuadRead(text, j, p[12], p[13], p[14], p[15]);
    ValueBytes(p[12], p[13], p[14], p[15]);
  }

  lemma ValueBytes(a: nat, b: nat, c: nat, d: nat)
    requires a < 256 && b < 256 && c < 256 && d < 256
    ensures var v := Value(a, b, c, d); v / 0x100_0000 % 256 == a && v / 0x1_0000 % 256 == b && v % 0x1_0000 == c * 256 + d
  {
    var v := Value(a, b, c, d);
    assert v == 0x100_0000 * a + 0x1_0000 * b + 256 * c + d;
    assert v / 0x100_0000 == a;
    assert v / 0x1_0000 == 256 * a + b;
  }

  /** A dotted quad after six words. */
  lemma TailRead(text: string, j: nat, p: seq<nat>, zero: int, max: nat, s: Scan)
    requires Address(p) && ZeroGap(p, zero, max) && (zero >= 0 ==> zero + max <= 6) && At(p, 6, zero, max, s)
    requires ScanOk(text, s) && s.digit == j && Rest(text, j, Quad(p[12], p[13], p[14], p[15]))
    ensures Inet6(text, j, s) == if Ones(p) then None else Some(p)
  {
    var k := |Dec(p[12])|;
    SixthWord(p, zero, max, s, k);
    QuadTail(text, j, p, s);
  }

  lemma SixthWord(p: seq<nat>, zero: int, max: nat, s: Scan, k: nat)
    requires Address(p) && ZeroGap(p, zero, max) && (zero >= 0 ==> zero + max <= 6) && At(p, 6, zero, max, s) && k > 0
    ensures s.n >= 2 && s.zero <= |s.out|
    ensures Finish(s.(out := s.out + [p[12], p[13]], word := p[14] * 256 + p[15], n := s.n - 1, nibbles := k)) == Some(p)
  {
    OneWord(p, 6, zero, max, s, s.digit);
    WordBytes(p[12], p[13]);
    var s1 := Scan(s.out + [p[12], p[13]], s.zero, s.digit, 0, 0, s.n - 1);
    assert Emit(s.out, WordAt(p, 6)) == s1.out;
    LastGroup(p, zero, max, s1, k);
  }

  lemma WordBytes(a: nat, b: nat)
    requires a < 256 && b < 256
    ensures (a * 256 + b) / 256 % 256 == a && (a * 256 + b) % 256 == b
  {
  }

  /** After seven words left out in front of it, the first of its words is the last of those. */
  lemma SevenRead(text: string, j: nat, p: seq<nat>, s: Scan)
    requires Address(p) && ZeroGap(p, 0, 7) && ScanOk(text, s) && s.digit == j && Rest(text, j, Quad(p[12], p[13], p[14], p[15]))
    requires s.zero == 0 && s.nibbles == 0 && s.word == 0 && s.out == [] && s.n == 8
    ensures Inet6(text, j, s) == if Ones(p) then None else Some(p)
  {
    QuadTail(text, j, p, s);
    var s1 := s.(out := [p[12], p[13]], word := p[14] * 256 + p[15], n := 7, nibbles := |Dec(p[12])|);
    assert [] + [p[12], p[13]] == [p[12], p[13]];
    assert p[12..14] == [p[12], p[13]];
    EmitWord(p, s1.out, 12, 7);
    var out := Emit(s1.out, s1.word);
    assert out[..0] == [] && out[0..] == p[12..16] && p[12..16] == p[12..];
    Filled(p, 0, 7, 6);
    assert p[..0] + Zeros(12) + p[12..] == [] + Zeros(12) + p[12..];
  }

  // ---------------------------------------------------------------- the theorem

  /** An address in any spelling: each word with one to four digits in either case, any zero words left out at one place,
      the last four bytes as a dotted quad or not. */
  function AnyText(p: seq<nat>, hs: seq<string>, zero: int, max: nat, dotted: bool): string
    requires Address(p) && |hs| == 8
  {
    (if zero == 0 then ":" else "")
    + if dotted then Spelled(hs, 0, 6, zero, max) + Quad(p[12], p[13], p[14], p[15]) else Spelled(hs, 0, 8, zero, max)
  }

  /** Every spelling of every address is read as that address; only a dotted 255.255.255.255 is refused, and "::" at the end
      in place of a single word. */
  lemma AnySpelling(p: seq<nat>, hs: seq<string>, zero: int, max: nat, dotted: bool)
    requires Address(p) && ZeroGap(p, zero, max) && Spelling(p, hs) && (dotted && zero >= 0 ==> zero + max <= 6)
    ensures Parsed(AnyText(p, hs, zero, max, dotted)) == if (dotted && Ones(p)) || zero == 7 then None else Some(p)
  {
    var text, n := AnyText(p, hs, zero, max, dotted), if dotted then 6 else 8;
    var groups, tail := Spelled(hs, 0, n, zero, max), if dotted then Quad(p[12], p[13], p[14], p[15]) else "";
    var body := groups + tail;
    assert !dotted ==> body == groups;
    var i := if zero == 0 then 1 else 0;
    assert text[i..] == body;
    RestIs(text, i, body);
    FirstColon(text, hs, n, zero, max, tail, i);
    assert At(p, 0, zero, max, START);
    if dotted {
      var k, s := HeadRead(text, i, p, hs, 0, zero, max, START, tail);
      TailRead(text, k, p, zero, max, s);
    } else {
      GroupsRead(text, i, p, hs, 0, zero, max, START);
    }
  }

  /** The text begins with a colon exactly when its first words are left out. */
  lemma FirstColon(text: string, hs: seq<string>, n: nat, zero: int, max: nat, tail: string, i: nat)
    requires |hs| == 8 && 6 <= n <= 8 && |hs[0]| > 0 && AllHex(hs[0]) && (zero == 0 ==> max > 0)
    requires i == (if zero == 0 then 1 else 0)
    requires text == (if zero == 0 then ":" else "") + (Spelled(hs, 0, n, zero, max) + tail)
    ensures |text| > 0 && (text[0] == ':' <==> zero == 0)
  {
    if zero != 0 {
      assert Spelled(hs, 0, n, zero, max)[0] == hs[0][0];
      NibbleRead(hs[0][0]);
    }
  }

  /** The words as ngx_inet6_ntop prints them. */
  function Printed(p: seq<nat>): (hs: seq<string>)
    requires Address(p)
    ensures |hs| == 8 && forall k :: 0 <= k < 8 ==> hs[k] == Hex(WordAt(p, k))
  {
    seq(8, k requires 0 <= k < 8 => Hex(WordAt(p, k)))
  }

  lemma PrintedSpells(p: seq<nat>)
    requires Address(p)
    ensures Spelling(p, Printed(p))
  {
    forall k | 0 <= k < 8 ensures Spells(Printed(p)[k], WordAt(p, k)) {
      HexSpells(WordAt(p, k), 4);
    }
  }

  lemma {:induction false} PrintedGroups(p: seq<nat>, i: nat, n: nat, zero: int, max: nat)
    requires Address(p) && n <= 8
    ensures Groups(p, i, n, zero, max) == Spelled(Printed(p), i, n, zero, max)
    decreases 8 - i
  {
    if i < n {
      if i == zero && max > 0 { PrintedGroups(p, i + max, n, zero, max); } else { PrintedGroups(p, i + 1, n, zero, max); }
    }
  }

  /** Every address reads back from its text, whatever run of zeroes was compressed; only a dotted 255.255.255.255
      is refused. */
  lemma RoundTrip(p: seq<nat>, zero: int, max: nat)
    requires Address(p) && ZeroRun(p, zero, max)
    ensures Parsed(Text(p, zero, max)) == if Dotted(p, zero, max) && Ones(p) then None else Some(p)
  {
    if Dotted(p, zero, max) && max == 7 {
      SevenRoundTrip(p);
    } else {
      PrintedSpells(p);
      PrintedGroups(p, 0, 8, zero, max);
      PrintedGroups(p, 0, 6, zero, max);
      AnySpelling(p, Printed(p), zero, max, Dotted(p, zero, max));
    }
  }

  lemma SevenRoundTrip(p: seq<nat>)
    requires Address(p) && ZeroRun(p, 0, 7) && Dotted(p, 0, 7)
    ensures Parsed(Text(p, 0, 7)) == if Ones(p) then None else Some(p)
  {
    var tail := Quad(p[12], p[13], p[14], p[15]);
    var text := Text(p, 0, 7);
    assert Groups(p, 7, 6, 0, 7) == "";
    assert text[1..] == ":" + tail;
    RestIs(text, 1, ":" + tail);
    Colons(text, 1, tail, START);
    SevenRead(text, 2, p, START.(zero := 0, digit := 2));
  }

  // ---------------------------------------------------------------- every text of an IPv4 address

  /** The parts of a text between dots. */
  ghost function Parts(text: string): (r: seq<string>)
    ensures |r| >= 1
  {
    if text == "" then [""]
    else
      var r := Parts(text[1..]);
      if text[0] == '.' then [""] + r else [[text[0]] + r[0]] + r[1..]
  }

  ghost function Decimal(w: string): nat
    requires AllDigits(w)
  {
    if w == "" then 0 else Decimal(w[..|w| - 1]) * 10 + (w[|w| - 1] as int - '0' as int)
  }

  ghost predicate AllDigits(w: string) {
    forall k :: 0 <= k < |w| ==> IsDigit(w[k])
  }

  /** Digits, as many as there are, of a number that fits into an octet; no digits stand for 0. */
  ghost predicate IsOctet(w: string) {
    AllDigits(w) && Decimal(w) <= 255
  }

  /** The octet after the characters of w, or 256 if it is none. */
  ghost function Onward(o: nat, w: string): nat
    decreases |w|
  {
    if w == "" then o
    else if !IsDigit(w[0]) || o * 10 + (w[0] as int - '0' as int) > 255 then 256
    else Onward(o * 10 + (w[0] as int - '0' as int), w[1..])
  }

  lemma {:induction false} OnwardMore(o: nat, w: string, c: char)
    requires o <= 255
    ensures Onward(o, w + [c]) == (if Onward(o, w) <= 255 then Onward(Onward(o, w), [c]) else 256)
    decreases |w|
  {
    if w == "" {
      assert w + [c] == [c];
    } else {
      var d := o * 10 + (w[0] as int - '0' as int);
      assert (w + [c])[1..] == w[1..] + [c];
      if IsDigit(w[0]) && d <= 255 { OnwardMore(d, w[1..], c); }
    }
  }

  lemma {:induction false} OnwardIs(w: string)
    ensures Onward(0, w) == if IsOctet(w) then Decimal(w) else 256
    decreases |w|
  {
    if w != "" {
      var n := |w| - 1;
      assert w == w[..n] + [w[n]] && [w[n]][1..] == "";
      OnwardIs(w[..n]);
      OnwardMore(0, w[..n], w[n]);
    }
  }

  /** ngx_inet_addr, part by part. */
  ghost function ByParts(addr: nat, octet: nat, parts: seq<string>, n: nat): Option<nat>
    requires |parts| >= 1
    decreases |parts|
  {
    var o := Onward(octet, parts[0]);
    if o > 255 then None
    else if |parts| > 1 then ByParts((addr * 256 + o) % WORD32, 0, parts[1..], n + 1)
    else if n == 3 then Unless((addr * 256 + o) % WORD32)
    else None
  }

  lemma {:induction false} PartsRead(text: string, i: nat, addr: nat, octet: nat, n: nat)
    requires i <= |text| && octet <= 255
    ensures Inet4(text, i, addr, octet, n) == ByParts(addr, octet, Parts(text[i..]), n)
    decreases |text| - i
  {
    var rest := text[i..];
    if i < |text| {
      var c, r := text[i], Parts(text[i + 1..]);
      assert rest[0] == c && rest[1..] == text[i + 1..];
      if c == '.' {
        assert Parts(rest)[1..] == r;
        PartsRead(text, i + 1, (addr * 256 + octet) % WORD32, 0, n + 1);
      } else {
        assert Parts(rest)[0][1..] == r[0] && Parts(rest)[1..] == r[1..];
        var o := octet * 10 + (c as int - '0' as int);
        if IsDigit(c) && o <= 255 { PartsRead(text, i + 1, addr, o, n); }
      }
    }
  }

  lemma {:induction false} WrongCount(addr: nat, octet: nat, parts: seq<string>, n: nat)
    requires |parts| >= 1 && n + |parts| != 4
    ensures ByParts(addr, octet, parts, n) == None
    decreases |parts|
  {
    var o := Onward(octet, parts[0]);
    if o <= 255 && |parts| > 1 { WrongCount((addr * 256 + o) % WORD32, 0, parts[1..], n + 1); }
  }

  /** Two parts after two octets. */
  lemma TwoParts(x: nat, p: seq<string>)
    requires |p| == 2 && x < 65536
    ensures var c, d := Onward(0, p[0]), Onward(0, p[1]);
            ByParts(x, 0, p, 2) == if c <= 255 && d <= 255 then Unless((x * 256 + c) * 256 + d) else None
  {
    assert p[1..][0] == p[1];
  }

  lemma ThreeParts(x: nat, p: seq<string>)
    requires |p| == 3 && x < 256
    ensures var b, c, d := Onward(0, p[0]), Onward(0, p[1]), Onward(0, p[2]);
            ByParts(x, 0, p, 1) == if b <= 255 && c <= 255 && d <= 255 then Unless(((x * 256 + b) * 256 + c) * 256 + d) else None
  {
    var b := Onward(0, p[0]);
    assert p[1..][0] == p[1] && p[1..][1] == p[2];
    if b <= 255 { TwoParts(x * 256 + b, p[1..]); }
  }

  lemma FourParts(p: seq<string>)
    requires |p| == 4
    ensures var a, b, c, d := Onward(0, p[0]), Onward(0, p[1]), Onward(0, p[2]), Onward(0, p[3]);
            ByParts(0, 0, p, 0) == if a <= 255 && b <= 255 && c <= 255 && d <= 255 then Unless(Value(a, b, c, d)) else None
  {
    var a := Onward(0, p[0]);
    assert p[1..][0] == p[1] && p[1..][1] == p[2] && p[1..][2] == p[3];
    if a <= 255 { ThreeParts(a, p[1..]); }
  }

  /** Every text: four parts between dots, each the digits of an octet or nothing, are read as their values, except
      255.255.255.255; anything else is refused. */
  lemma QuadIff(text: string)
    ensures var p := Parts(text);
            Inet4(text, 0, 0, 0, 0) ==
              if |p| == 4 && IsOctet(p[0]) && IsOctet(p[1]) && IsOctet(p[2]) && IsOctet(p[3])
              then Unless(Value(Decimal(p[0]), Decimal(p[1]), Decimal(p[2]), Decimal(p[3]))) else None
  {
    var p := Parts(text);
    assert text[0..] == text;
    PartsRead(text, 0, 0, 0, 0);
    if |p| == 4 {
      FourParts(p);
      OnwardIs(p[0]);
      OnwardIs(p[1]);
      OnwardIs(p[2]);
      OnwardIs(p[3]);
    } else {
      WrongCount(0, 0, p, 0);
    }
  }
}
