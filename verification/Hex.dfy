/** Bytes, their hex spelling and little-endian numbers, shared by the codecs. */
module Hex {
  import opened Collections

  type Byte = b: int | 0 <= b < 256

  function HexDigit(d: int): (c: char)
    requires 0 <= d < 16
    ensures HexValue(c) == d
  {
    if d < 10 then '0' + d as char else 'a' + (d - 10) as char
  }

  /** The value of a hex digit of either case, or -1. */
  function HexValue(c: char): (v: int)
    ensures -1 <= v < 16
  {
    if '0' <= c <= '9' then (c - '0') as int
    else if 'a' <= c <= 'f' then 10 + (c - 'a') as int
    else if 'A' <= c <= 'F' then 10 + (c - 'A') as int
    else -1
  }

  /** Two lowercase digits. */
  function HexByte(b: Byte): (s: string)
    ensures |s| == 2 && HexPair(s) == b
  {
    [HexDigit(b / 16), HexDigit(b % 16)]
  }

  /** The byte spelled by the first two characters, or -1. */
  function HexPair(s: string): (v: int)
    requires |s| >= 2
    ensures -1 <= v < 256
  {
    var hi, lo := HexValue(s[0]), HexValue(s[1]);
    if hi < 0 || lo < 0 then -1 else 16 * hi + lo
  }

  function HexOf(bs: seq<Byte>): string {
    if bs == [] then "" else HexByte(bs[0]) + HexOf(bs[1..])
  }

  /** A byte buffer read from hex text, as Node does: it stops at the first pair that is not hex, and
      drops a trailing odd digit. */
  function FromHex(s: string): seq<Byte> {
    if |s| < 2 || HexPair(s) < 0 then [] else [HexPair(s)] + FromHex(s[2..])
  }

  /** Reading a byte off the front of hex text. */
  lemma PairFirst(b: Byte, rest: string)
    ensures var s := HexByte(b) + rest;
            HexPair(s) == b && s[2..] == rest
  {
    var s := HexByte(b) + rest;
    assert s[0] == HexByte(b)[0] && s[1] == HexByte(b)[1];
    assert s[2..] == rest;
  }

  lemma CutAfter(a: string, b: string)
    ensures (a + b)[..|a|] == a && (a + b)[|a|..] == b
  {
  }

  lemma HeadOfSum(a: seq<Byte>, b: seq<Byte>)
    requires a != []
    ensures a == [a[0]] + a[1..] && a + b == [a[0]] + (a[1..] + b)
  {
  }

  lemma HexCons(b: Byte, rest: seq<Byte>)
    ensures HexOf([b] + rest) == HexByte(b) + HexOf(rest)
  {
    assert ([b] + rest)[1..] == rest;
  }

  lemma {:induction false} HexConcat(a: seq<Byte>, b: seq<Byte>)
    ensures HexOf(a + b) == HexOf(a) + HexOf(b)
  {
    if a == [] {
      assert a + b == b;
    } else {
      hide *;
      var tail := a[1..];
      HexConcat(tail, b);
      HexCons(a[0], tail);
      HexCons(a[0], tail + b);
      HeadOfSum(a, b);
      Associate(HexByte(a[0]), HexOf(tail), HexOf(b));
    }
  }

  lemma {:induction false} HexLength(bs: seq<Byte>)
    ensures |HexOf(bs)| == 2 * |bs|
  {
    if bs != [] {
      HexLength(bs[1..]);
    }
  }

  lemma {:induction false} HexRoundTrip(bs: seq<Byte>)
    ensures FromHex(HexOf(bs)) == bs
  {
    if bs != [] {
      HexRoundTrip(bs[1..]);
      assert HexOf(bs)[2..] == HexOf(bs[1..]);
    }
  }

  predicate IsLowerHex(c: char) {
    '0' <= c <= '9' || 'a' <= c <= 'f'
  }

  /** Whole bytes in lowercase hex. */
  predicate LowerHex(s: string) {
    |s| % 2 == 0 && forall i :: 0 <= i < |s| ==> IsLowerHex(s[i])
  }

  lemma {:induction false} HexBack(s: string)
    requires LowerHex(s)
    ensures HexOf(FromHex(s)) == s && |FromHex(s)| == |s| / 2
  {
    if s != "" {
      HexBack(s[2..]);
      PairBack(s);
      var b, rest := HexPair(s), FromHex(s[2..]);
      assert FromHex(s) == [b] + rest;
      hide HexPair, HexByte, FromHex;
      assert ([b] + rest)[1..] == rest;
      assert s == s[..2] + s[2..];
    }
  }

  lemma PairBack(s: string)
    requires |s| >= 2 && IsLowerHex(s[0]) && IsLowerHex(s[1])
    ensures HexPair(s) >= 0 && HexByte(HexPair(s)) == s[..2]
  {
    DigitBack(s[0]);
    DigitBack(s[1]);
    hide HexDigit, HexValue;
    assert s[..2] == [s[0], s[1]];
  }

  lemma DigitBack(c: char)
    requires IsLowerHex(c)
    ensures HexValue(c) >= 0 && HexDigit(HexValue(c)) == c
  {
  }

  // ----- little-endian numbers -----

  function Pow256(w: nat): (p: nat)
    ensures p > 0
  {
    if w == 0 then 1 else 256 * Pow256(w - 1)
  }

  /** The `w` low bytes of `x`, lowest first. */
  function LeBytes(x: nat, w: nat): (bs: seq<Byte>)
    ensures |bs| == w
  {
    if w == 0 then [] else [x % 256] + LeBytes(x / 256, w - 1)
  }

  function LeValue(bs: seq<Byte>): nat {
    if bs == [] then 0 else bs[0] + 256 * LeValue(bs[1..])
  }

  lemma {:induction false} LeValueBound(bs: seq<Byte>)
    ensures LeValue(bs) < Pow256(|bs|)
  {
    if bs != [] {
      LeValueBound(bs[1..]);
    }
  }

  /** Reading back what was written gives the number reduced to its low bytes. */
  lemma {:induction false} LeRoundTrip(x: nat, w: nat)
    ensures LeValue(LeBytes(x, w)) == x % Pow256(w)
    ensures x < Pow256(w) ==> LeValue(LeBytes(x, w)) == x
  {
    if w > 0 {
      LeRoundTrip(x / 256, w - 1);
      assert LeBytes(x, w)[1..] == LeBytes(x / 256, w - 1);
      ModStep(x, Pow256(w - 1));
    }
  }

  lemma ModStep(x: nat, p: nat)
    requires p > 0
    ensures x % (256 * p) == x % 256 + 256 * ((x / 256) % p)
    ensures x < 256 * p ==> x / 256 < p
  {
    var q, r := (x / 256) / p, (x / 256) % p;
    assert x / 256 == p * q + r;
    var low := x % 256 + 256 * r;
    assert x == 256 * (p * q + r) + x % 256 == (256 * p) * q + low;
    assert 256 * r + 256 <= 256 * p;
    QuotientUnique(x, 256 * p, q, low);
  }

  lemma QuotientUnique(x: nat, m: nat, q: int, r: int)
    requires m > 0 && x == m * q + r && 0 <= r < m
    ensures x % m == r && x / m == q
  {
    var q', r' := x / m, x % m;
    assert m * (q - q') == r' - r;
    assert q - q' >= 1 ==> m * (q - q') >= m;
    assert q - q' <= -1 ==> m * (q - q') <= -(m as int);
  }

  lemma {:induction false} LeBytesBack(bs: seq<Byte>)
    ensures LeBytes(LeValue(bs), |bs|) == bs
  {
    if bs != [] {
      LeBytesBack(bs[1..]);
      var v := LeValue(bs[1..]);
      QuotientUnique(LeValue(bs), 256, v, bs[0]);
      hide LeValue;
      assert bs == [bs[0]] + bs[1..];
    }
  }

  /** The last of `w + 1` bytes. */
  lemma {:induction false} LeBytesAppend(x: nat, w: nat)
    ensures LeBytes(x, w + 1) == LeBytes(x, w) + [(x / Pow256(w)) % 256]
  {
    if w == 0 {
      assert LeBytes(x / 256, 0) == [];
    } else {
      LeBytesAppend(x / 256, w - 1);
      DivStep(x, Pow256(w - 1));
    }
  }

  lemma DivStep(x: nat, p: nat)
    requires p > 0
    ensures (x / 256) / p == x / (256 * p) && (x / p) / 256 == x / (256 * p)
  {
    DivDiv(x, 256, p);
    DivDiv(x, p, 256);
  }

  lemma DivDiv(x: nat, a: nat, b: nat)
    requires a > 0 && b > 0
    ensures a * b > 0 && (x / a) / b == x / (a * b)
  {
    var q, r := (x / a) / b, (x / a) % b;
    assert x / a == b * q + r;
    assert x == a * (b * q + r) + x % a;
    var low := a * r + x % a;
    assert a * (b * q + r) == (a * b) * q + a * r by { Distribute(a, b, q, r); }
    assert a * r + a <= a * b by { MulMono(a, r + 1, b); }
    QuotientUnique(x, a * b, q, low);
  }

  lemma Distribute(a: nat, b: nat, q: nat, r: nat)
    ensures a * (b * q + r) == (a * b) * q + a * r
  {
    assert a * (b * q) == (a * b) * q;
  }

  lemma MulMono(a: nat, x: nat, y: nat)
    ensures x <= y ==> a * x <= a * y
  {
  }

  // ----- digits and bytes -----

  const DIGITS := "0123456789abcdef"

  /** Every byte is two digits, the higher one first. */
  lemma {:induction false} HexOfAt(bs: seq<Byte>, i: nat)
    requires i < |bs|
    ensures |HexOf(bs)| == 2 * |bs|
    ensures HexOf(bs)[2 * i] == DIGITS[bs[i] / 16] && HexOf(bs)[2 * i + 1] == DIGITS[bs[i] % 16]
  {
    HexLength(bs);
    if i == 0 {
      DigitIs(bs[0] / 16);
      DigitIs(bs[0] % 16);
    } else {
      HexOfAt(bs[1..], i - 1);
      assert HexOf(bs) == HexByte(bs[0]) + HexOf(bs[1..]);
    }
  }

  lemma DigitIs(d: int)
    requires 0 <= d < 16
    ensures HexDigit(d) == DIGITS[d]
  {
  }

  /** Byte k of a little-endian number counts multiples of 256^k. */
  lemma {:induction false} LeBytesAt(x: nat, w: nat, k: nat)
    requires k < w
    ensures LeBytes(x, w)[k] == (x / Pow256(k)) % 256
  {
    if k > 0 {
      LeBytesAt(x / 256, w - 1, k - 1);
      DivStep(x, Pow256(k - 1));
    }
  }
}
