/**
 The text of IPv4 and IPv6 addresses (ngx_inet.c), as functions of the text.
 */
module Inet {

  // ---------------------------------------------------------------- digits

  function HexDigit(n: nat): char
    requires n < 16
  {
    if n < 10 then '0' + n as char else 'a' + (n - 10) as char
  }

  /** "%xd" */
  function Hex(w: nat): (s: string)
    ensures |s| > 0
  {
    if w < 16 then [HexDigit(w)] else Hex(w / 16) + [HexDigit(w % 16)]
  }

  /** "%ud" */
  function Dec(n: nat): (s: string)
    ensures |s| > 0
  {
    if n < 10 then [HexDigit(n)] else Dec(n / 10) + [HexDigit(n % 10)]
  }

  predicate IsDigit(c: char) { '0' <= c <= '9' }

  /** c |= 0x20, as far as letters are concerned */
  function Lower(c: char): char {
    if 'A' <= c <= 'F' then c + 32 as char else c
  }

  /** The value of a hexadecimal digit, or -1. */
  function HexValue(c: char): int {
    if IsDigit(c) then c as int - '0' as int
    else if 'a' <= Lower(c) <= 'f' then Lower(c) as int - 'a' as int + 10
    else -1
  }

  datatype Option<T> = None | Some(value: T)

  // ---------------------------------------------------------------- IPv4

  const INADDR_NONE: nat := 0xFFFF_FFFF
  const WORD32: nat := 0x1_0000_0000

  /** The loop of ngx_inet_addr from position i on. */
  function Inet4(text: string, i: nat, addr: nat, octet: nat, n: nat): Option<nat>
    requires i <= |text|
    decreases |text| - i
  {
    if i == |text| then
      if n == 3 && (addr * 256 + octet) % WORD32 != INADDR_NONE then Some((addr * 256 + octet) % WORD32) else None
    else if IsDigit(text[i]) then
      var o := octet * 10 + (text[i] as int - '0' as int);
      if o > 255 then None else Inet4(text, i + 1, addr, o, n)
    else if text[i] == '.' then Inet4(text, i + 1, (addr * 256 + octet) % WORD32, 0, n + 1)
    else None
  }

  /** "%ud.%ud.%ud.%ud" */
  function Quad(a: nat, b: nat, c: nat, d: nat): string {
    Dec(a) + ("." + (Dec(b) + ("." + (Dec(c) + ("." + Dec(d))))))
  }

  // ---------------------------------------------------------------- reading IPv6

  /** The variables of ngx_inet6_addr: the bytes written, the byte where "::" was (or -1), the position after the last
      colon (or -1), the digits and the value of the current word, and the words still missing. */
  datatype Scan = Scan(out: seq<nat>, zero: int, digit: int, nibbles: nat, word: nat, n: nat)

  function Emit(out: seq<nat>, word: nat): seq<nat> { out + [word / 256 % 256, word % 256] }

  function Zeros(k: nat): (z: seq<nat>)
    ensures |z| == k && forall i :: 0 <= i < k ==> z[i] == 0
  {
    if k == 0 then [] else [0] + Zeros(k - 1)
  }

  /** After the loop: the last word is written and "::" is filled up. */
  function Finish(s: Scan): Option<seq<nat>>
    requires s.n >= 1 && s.zero <= |s.out|
  {
    if s.nibbles == 0 && s.zero < 0 then None
    else
      var out := Emit(s.out, s.word);
      if s.n - 1 != 0 then
        if s.zero >= 0 then Some(out[..s.zero] + Zeros(2 * (s.n - 1)) + out[s.zero..]) else None
      else if s.zero < 0 then Some(out) else None
  }

  predicate ScanOk(text: string, s: Scan) {
    s.n >= 1 && s.zero <= |s.out| && s.digit <= |text|
  }

  /** The loop of ngx_inet6_addr from position i on. */
  function Inet6(text: string, i: nat, s: Scan): Option<seq<nat>>
    requires i <= |text| && ScanOk(text, s)
    decreases |text| - i
  {
    if i == |text| then Finish(s)
    else if text[i] == ':' then
      if s.nibbles > 0 then
        if s.n == 1 then None
        else Inet6(text, i + 1, Scan(Emit(s.out, s.word), s.zero, i + 1, 0, 0, s.n - 1))
      else if s.zero < 0 then Inet6(text, i + 1, s.(zero := |s.out|, digit := i + 1))
      else None
    else if text[i] == '.' && s.nibbles > 0 then
      if s.n < 2 || s.digit < 0 then None
      else
        var a := Inet4(text, s.digit, 0, 0, 0);
        if a.None? then None
        else Finish(s.(out := s.out + [a.value / 0x100_0000 % 256, a.value / 0x1_0000 % 256], word := a.value % 0x1_0000, n := s.n - 1))
    else if s.nibbles == 4 || HexValue(text[i]) < 0 then None
    else Inet6(text, i + 1, s.(nibbles := s.nibbles + 1, word := s.word * 16 + HexValue(text[i])))
  }

  const START := Scan([], -1, -1, 0, 0, 8)

  /** ngx_inet6_addr */
  function Parsed(text: string): Option<seq<nat>> {
    if text == "" then None else Inet6(text, if text[0] == ':' then 1 else 0, START)
  }

  // ---------------------------------------------------------------- writing IPv6

  predicate Address(p: seq<nat>) {
    |p| == 16 && forall i :: 0 <= i < 16 ==> p[i] < 256
  }

  function WordAt(p: seq<nat>, k: nat): nat
    requires Address(p) && k < 8
  {
    p[2 * k] * 256 + p[2 * k + 1]
  }

  /** `max` words from word `zero` on are zero, or zero is -1. */
  ghost predicate ZeroRun(p: seq<nat>, zero: int, max: nat)
    requires Address(p)
  {
    zero == -1 || (0 <= zero && 2 <= max && zero + max <= 8 && forall k :: zero <= k < zero + max ==> WordAt(p, k) == 0)
  }

  /** The last four bytes are written in decimal. */
  ghost predicate Dotted(p: seq<nat>, zero: int, max: nat)
    requires Address(p)
  {
    zero == 0 && ((max == 5 && p[10] == 0xff && p[11] == 0xff) || max == 6 || (max == 7 && p[14] != 0 && p[15] != 1))
  }

  /** The second loop of ngx_inet6_ntop, from word i on. */
  ghost function Groups(p: seq<nat>, i: nat, n: nat, zero: int, max: nat): string
    requires Address(p) && n <= 8
    decreases 8 - i
  {
    if i >= n then ""
    else if i == zero && max > 0 then ":" + Groups(p, i + max, n, zero, max)
    else if i < 7 then Hex(WordAt(p, i)) + (":" + Groups(p, i + 1, n, zero, max))
    else Hex(WordAt(p, i)) + Groups(p, i + 1, n, zero, max)
  }

  /** ngx_inet6_ntop, once the run of zeroes is known */
  ghost function Text(p: seq<nat>, zero: int, max: nat): string
    requires Address(p)
  {
    (if zero == 0 then ":" else "")
    + if Dotted(p, zero, max) then Groups(p, 0, 6, zero, max) + Quad(p[12], p[13], p[14], p[15])
      else Groups(p, 0, 8, zero, max)
  }
}
