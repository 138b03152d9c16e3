/**
 The loops of ngx_inet.c: reading addresses into a buffer and writing them out.
 */
module InetCode {
  import opened Inet
  import opened InetRoundTrip

  /** ngx_inet_addr, in host order */
  method InetAddr(text: string, start: nat) returns (r: nat)
    requires start <= |text|
    ensures Inet4(text, start, 0, 0, 0) == if r == INADDR_NONE then None else Some(r)
  {
    var addr: nat, octet: nat, n: nat := 0, 0, 0;
    var i := start;
    while i < |text|
      invariant i <= |text| && Inet4(text, i, addr, octet, n) == Inet4(text, start, 0, 0, 0)
    {
      var c := text[i];
      if IsDigit(c) {
        octet := octet * 10 + (c as int - '0' as int);
        if octet > 255 {
          return INADDR_NONE;
        }
      } else if c == '.' {
        addr, octet, n := (addr * 256 + octet) % WORD32, 0, n + 1;
      } else {
        return INADDR_NONE;
      }
      i := i + 1;
    }
    if n == 3 {
      return (addr * 256 + octet) % WORD32;
    }
    return INADDR_NONE;
  }

  /** The bytes from `zero` to w move up by k. */
  method MoveUp(addr: array<nat>, w: nat, zero: nat, k: nat)
    requires zero <= w && w + k <= addr.Length
    modifies addr
    ensures forall j :: 0 <= j < zero ==> addr[j] == old(addr[j])
    ensures forall j :: zero + k <= j < w + k ==> addr[j] == old(addr[j - k])
  {
    var s := w - 1;
    while s >= zero
      invariant zero - 1 <= s <= w - 1
      invariant forall j :: 0 <= j <= s ==> addr[j] == old(addr[j])
      invariant forall j :: s + k < j < w + k ==> addr[j] == old(addr[j - k])
    {
      addr[s + k] := addr[s];
      s := s - 1;
    }
  }

  /** ngx_memzero */
  method Clear(addr: array<nat>, zero: nat, k: nat)
    requires zero + k <= addr.Length
    modifies addr
    ensures forall j :: 0 <= j < addr.Length ==> addr[j] == if zero <= j < zero + k then 0 else old(addr[j])
  {
    var z := zero;
    while z < zero + k
      invariant zero <= z <= zero + k
      invariant forall j :: 0 <= j < addr.Length ==> addr[j] == if zero <= j < z then 0 else old(addr[j])
    {
      addr[z] := 0;
      z := z + 1;
    }
  }

  /** The bytes from `zero` on move to the end of the buffer and zeroes fill the gap. */
  method Spread(addr: array<nat>, w: nat, zero: nat)
    requires addr.Length == 16 && zero <= w <= 16
    modifies addr
    ensures addr[..] == old(addr[..zero]) + Zeros(16 - w) + old(addr[zero..w])
  {
    MoveUp(addr, w, zero, 16 - w);
    Clear(addr, zero, 16 - w);
  }

  /** Two bytes more. */
  method Put(addr: array<nat>, w: nat, a: nat, b: nat)
    requires w + 2 <= addr.Length
    modifies addr
    ensures addr[..w + 2] == old(addr[..w]) + [a, b]
  {
    addr[w] := a;
    addr[w + 1] := b;
  }

  /** The end of ngx_inet6_addr. */
  method Complete(addr: array<nat>, w: nat, zero: int, nibbles: nat, word: nat, n: nat) returns (ok: bool)
    requires addr.Length == 16 && 1 <= n <= 8 && w == 16 - 2 * n && -1 <= zero <= w
    modifies addr
    ensures var r := Finish(Scan(old(addr[..w]), zero, -1, nibbles, word, n)); ok == r.Some? && (ok ==> addr[..] == r.value)
  {
    if nibbles == 0 && zero < 0 {
      return false;
    }
    ghost var out := Emit(addr[..w], word);
    Put(addr, w, word / 256 % 256, word % 256);
    if n - 1 != 0 {
      if zero >= 0 {
        assert addr[..zero] == out[..zero] && addr[zero..w + 2] == out[zero..];
        Spread(addr, w + 2, zero);
        return true;
      }
      return false;
    }
    assert addr[..] == addr[..w + 2];
    return zero < 0;
  }

  /** A dotted quad ends the address. */
  method Tail(text: string, digit: nat, addr: array<nat>, w: nat, zero: int, nibbles: nat, n: nat) returns (ok: bool)
    requires addr.Length == 16 && 2 <= n <= 8 && w == 16 - 2 * n && -1 <= zero <= w && digit <= |text|
    modifies addr
    ensures var a := Inet4(text, digit, 0, 0, 0);
            if a.None? then !ok
            else
              var r := Finish(Scan(old(addr[..w]) + [a.value / 0x100_0000 % 256, a.value / 0x1_0000 % 256], zero, -1,
                                   nibbles, a.value % 0x1_0000, n - 1));
              ok == r.Some? && (ok ==> addr[..] == r.value)
  {
    var a := InetAddr(text, digit);
    if a == INADDR_NONE {
      return false;
    }
    Put(addr, w, a / 0x100_0000 % 256, a / 0x1_0000 % 256);
    ok := Complete(addr, w + 2, zero, nibbles, a % 0x1_0000, n - 1);
  }

  /** ngx_inet6_addr */
  method Inet6Addr(text: string, addr: array<nat>) returns (ok: bool)
    requires addr.Length == 16
    modifies addr
    ensures ok == Parsed(text).Some? && (ok ==> addr[..] == Parsed(text).value)
  {
    if |text| == 0 {
      return false;
    }
    var zero, digit := -1, -1;
    var nibbles: nat, word: nat, n: nat, w: nat := 0, 0, 8, 0;
    var i := if text[0] == ':' then 1 else 0;
    assert addr[..0] == [];
    while i < |text|
      invariant i <= |text| && 1 <= n <= 8 && w == 16 - 2 * n && -1 <= zero <= w && -1 <= digit <= |text| && nibbles <= 4
      invariant Inet6(text, i, Scan(addr[..w], zero, digit, nibbles, word, n)) == Parsed(text)
    {
      var c := text[i];
      i := i + 1;
      if c == ':' {
        digit := i;
        if nibbles > 0 {
          if n == 1 {
            return false;
          }
          Put(addr, w, word / 256 % 256, word % 256);
          n, w, nibbles, word := n - 1, w + 2, 0, 0;
        } else {
          if zero >= 0 {
            return false;
          }
          zero := w;
        }
      } else if c == '.' && nibbles > 0 {
        if n < 2 || digit < 0 {
          return false;
        }
        ok := Tail(text, digit, addr, w, zero, nibbles, n);
        return;
      } else {
        if nibbles == 4 || HexValue(c) < 0 {
          return false;
        }
        nibbles, word := nibbles + 1, word * 16 + HexValue(c);
      }
    }
    ok := Complete(addr, w, zero, nibbles, word, n);
  }

  // ---------------------------------------------------------------- writing

  ghost predicate AllZero(p: seq<nat>, a: nat, b: nat)
    requires Address(p) && b <= 8
  {
    forall k :: a <= k < b ==> WordAt(p, k) == 0
  }

  /** No run of zero words is longer than max, except possibly within the n words that end at i. */
  ghost predicate Longest(p: seq<nat>, i: nat, max: nat, n: nat)
    requires Address(p) && i <= 8
  {
    forall a: nat, b: nat :: a <= b <= i && AllZero(p, a, b) ==> b - a <= max || i - n <= a
  }

  /** No run that ends earlier is as long. */
  ghost predicate Earliest(p: seq<nat>, zero: int, max: nat)
    requires Address(p) && ZeroRun(p, zero, max)
  {
    zero >= 0 ==> forall a: nat, b: nat :: a <= b < zero + max && b <= 8 && AllZero(p, a, b) ==> b - a < max
  }

  /** The run of zero words to compress: the first one of the longest, if it has more than one word. */
  ghost predicate BestRun(p: seq<nat>, zero: int, max: nat)
    requires Address(p)
  {
    && ZeroRun(p, zero, max) && (zero == -1 ==> max == 1) && Earliest(p, zero, max)
    && forall a: nat, b: nat :: a <= b <= 8 && AllZero(p, a, b) ==> b - a <= max
  }

  /** There is only one such run. */
  lemma BestRunUnique(p: seq<nat>, z: int, m: nat, z': int, m': nat)
    requires Address(p) && BestRun(p, z, m) && BestRun(p, z', m')
    ensures z == z' && m == m'
  {
    if z >= 0 { assert AllZero(p, z, z + m); }
    if z' >= 0 { assert AllZero(p, z', z' + m'); }
  }

  method FindRun(p: seq<nat>) returns (zero: int, max: nat)
    requires Address(p)
    ensures BestRun(p, zero, max)
  {
    zero, max := -1, 1;
    var last, n, i := -1, 0, 0;
    while i < 8
      invariant 0 <= n <= i <= 8 && ZeroRun(p, zero, max) && max >= 1 && (zero == -1 ==> max == 1)
      invariant n > 0 ==> last == i - n
      invariant AllZero(p, i - n, i) && (i - n > 0 ==> WordAt(p, i - n - 1) != 0)
      invariant Longest(p, i, max, n) && Earliest(p, zero, max)
    {
      if p[2 * i] != 0 || p[2 * i + 1] != 0 {
        if max < n {
          zero, max := last, n;
        }
        LongestBreak(p, i, max, n);
        n := 0;
      } else {
        if n == 0 {
          last := i;
        }
        LongestGrow(p, i, max, n);
        n := n + 1;
      }
      i := i + 1;
    }
    if max < n {
      zero, max := last, n;
    }
    assert Longest(p, 8, max, 0);
  }

  lemma LongestBreak(p: seq<nat>, i: nat, max: nat, n: nat)
    requires Address(p) && i < 8 && WordAt(p, i) != 0 && n <= max
    requires Longest(p, i, max, n)
    ensures Longest(p, i + 1, max, 0)
  {
    forall a: nat, b: nat | a <= b <= i + 1 && AllZero(p, a, b) ensures b - a <= max {
    }
  }

  lemma LongestGrow(p: seq<nat>, i: nat, max: nat, n: nat)
    requires Address(p) && i < 8 && n <= i && WordAt(p, i) == 0 && (i - n > 0 ==> WordAt(p, i - n - 1) != 0)
    requires Longest(p, i, max, n)
    ensures Longest(p, i + 1, max, n + 1)
  {
    forall a: nat, b: nat | a <= b <= i + 1 && AllZero(p, a, b) ensures b - a <= max || i - n <= a {
    }
  }

  /** ngx_inet6_ntop */
  method Inet6Ntop(p: seq<nat>) returns (text: string)
    requires Address(p)
    ensures Parsed(text) == if Collides(p) then None else Some(p)
    ensures exists z, m :: BestRun(p, z, m) && text == Text(p, z, m)
  {
    var z, m := FindRun(p);
    var n := 8;
    text := "";
    if z == 0 {
      if (m == 5 && p[10] == 0xff && p[11] == 0xff) || m == 6 || (m == 7 && p[14] != 0 && p[15] != 1) {
        n := 6;
      }
      text := ":";
    }
    assert Dotted(p, z, m) <==> n == 6;
    ghost var head := text;
    var i := 0;
    assert text + Groups(p, 0, n, z, m) == head + Groups(p, 0, n, z, m);
    while i < n
      invariant i <= 8 && text + Groups(p, i, n, z, m) == head + Groups(p, 0, n, z, m)
      decreases 8 - i
    {
      if i == z {
        Shift(text, ":", Groups(p, i + m, n, z, m));
        text := text + ":";
        i := i + m;
      } else {
        Shift(text, Hex(WordAt(p, i)), if i < 7 then ":" + Groups(p, i + 1, n, z, m) else Groups(p, i + 1, n, z, m));
        text := text + Hex(WordAt(p, i));
        if i < 7 {
          Shift(text, ":", Groups(p, i + 1, n, z, m));
          text := text + ":";
        }
        i := i + 1;
      }
    }
    assert text + "" == text;
    if n == 6 {
      Shift(head, Groups(p, 0, n, z, m), Quad(p[12], p[13], p[14], p[15]));
      text := text + Quad(p[12], p[13], p[14], p[15]);
    }
    RoundTrip(p, z, m);
    RefusedIff(p, z, m);
  }

  /** ::255.255.255.255 and ::ffff:255.255.255.255 */
  predicate Collides(p: seq<nat>)
    requires Address(p)
  {
    && (forall i :: 0 <= i < 10 ==> p[i] == 0) && Ones(p)
    && ((p[10] == 0 && p[11] == 0) || (p[10] == 255 && p[11] == 255))
  }

  /** With a longest run compressed, those are exactly the addresses whose text is refused. */
  lemma RefusedIff(p: seq<nat>, zero: int, max: nat)
    requires Address(p) && BestRun(p, zero, max)
    ensures Dotted(p, zero, max) && Ones(p) <==> Collides(p)
  {
    if Collides(p) {
      assert AllZero(p, 0, 5);
      if p[10] == 0 { assert AllZero(p, 0, 6); }
      assert WordAt(p, 6) != 0 && WordAt(p, 7) != 0 && WordAt(p, 5) == p[10] * 256 + p[11];
    }
    if Dotted(p, zero, max) && Ones(p) {
      assert WordAt(p, 6) != 0;
      forall i | 0 <= i < 10 ensures p[i] == 0 {
        assert WordAt(p, i / 2) == 0;
      }
      if max == 6 { assert WordAt(p, 5) == 0; }
    }
  }

  lemma Shift(a: string, b: string, c: string)
    ensures a + (b + c) == (a + b) + c
  {
  }
}
