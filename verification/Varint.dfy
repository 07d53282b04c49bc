/**
 * The variable-length integers of both codecs (unsigned LEB128, section 7.6 of the DWARF Version 5
 * standard), in 64-bit arithmetic. A Go byte is a char with a code below 256, so that byte slices
 * and Go strings are the same sequences.
 */
module Varint {

  const TWO64: nat := 0x1_0000_0000_0000_0000

  function Pow2(n: nat): (p: nat)
    ensures p > 0
  {
    if n == 0 then 1 else 2 * Pow2(n - 1)
  }

  /** Bitwise or of two naturals. */
  function BitOr(a: nat, b: nat): nat
    decreases a + b
  {
    if a == 0 && b == 0 then 0
    else (if a % 2 == 1 || b % 2 == 1 then 1 else 0) + 2 * BitOr(a / 2, b / 2)
  }

  /** x << n on a uint64. */
  function Shl(x: nat, n: nat): nat { x * Pow2(n) % TWO64 }

  // ---- The format ------------------------------------------------------------------------------------

  /** Seven bits a byte, least significant first; the high bit says that more follow. */
  function Uvarint(v: nat): string {
    if v < 128 then [v as char] else [(v % 128 + 128) as char] + Uvarint(v / 128)
  }

  /** The value of a run of bytes, however long. */
  function Leb(s: string): nat {
    if s == "" then 0 else s[0] as int % 128 + 128 * Leb(s[1..])
  }

  /** Bytes up to and including the first without the high bit, or all of them. */
  function GroupLen(s: string): (n: nat)
    ensures n <= |s|
  {
    if s == "" then 0 else if s[0] as int < 128 then 1 else 1 + GroupLen(s[1..])
  }

  lemma {:induction false} LebUvarint(v: nat)
    ensures Leb(Uvarint(v)) == v && Uvarint(v) != ""
  {
    if v >= 128 {
      LebUvarint(v / 128);
      assert Uvarint(v)[1..] == Uvarint(v / 128);
    }
  }

  lemma {:induction false} GroupUvarint(v: nat, rest: string)
    ensures GroupLen(Uvarint(v) + rest) == |Uvarint(v)|
  {
    if v >= 128 {
      GroupUvarint(v / 128, rest);
      assert (Uvarint(v) + rest)[1..] == Uvarint(v / 128) + rest;
    }
  }

  /** A value of at most 7k bits takes at most k bytes. */
  lemma {:induction false} UvarintLength(v: nat, k: nat)
    requires k > 0 && v < Pow2(7 * k)
    ensures |Uvarint(v)| <= k
    decreases k
  {
    if v >= 128 {
      assert Pow2(7 * k) == 128 * Pow2(7 * (k - 1)) by { Pow2Add(7, 7 * (k - 1)); assert Pow2(7) == 128; }
      assert k > 1;
      UvarintLength(v / 128, k - 1);
    }
  }

  /** Reading inverts appending for every uint64, whatever follows, and ten bytes are enough. */
  lemma UvarintRoundTrip(v: nat, rest: string)
    requires v < TWO64
    ensures var s := Uvarint(v) + rest; var n := GroupLen(s); n == |Uvarint(v)| <= 10 && Leb(s[..n]) % TWO64 == v
  {
    LebUvarint(v);
    GroupUvarint(v, rest);
    assert (Uvarint(v) + rest)[..|Uvarint(v)|] == Uvarint(v);
    assert Pow2(70) == 64 * TWO64 by { Pow2Add(64, 6); Pow2Of64(); assert Pow2(6) == 64; }
    UvarintLength(v, 10);
  }

  // ---- Powers and bits --------------------------------------------------------------------------------

  lemma {:induction false} Pow2Add(m: nat, n: nat)
    ensures Pow2(m + n) == Pow2(m) * Pow2(n)
  {
    if m > 0 { Pow2Add(m - 1, n); }
  }

  lemma Pow2Of64()
    ensures Pow2(64) == TWO64
  {
    assert Pow2(8) == 0x100;
    Pow2Add(8, 8);
    Pow2Add(16, 16);
    Pow2Add(32, 32);
  }

  /** Bits that do not overlap: or is addition. */
  lemma {:induction false} OrDisjoint(a: nat, c: nat, n: nat)
    requires a < Pow2(n)
    ensures BitOr(a, c * Pow2(n)) == a + c * Pow2(n)
  {
    if n == 0 {
      OrZero(c);
    } else {
      var h := c * Pow2(n - 1);
      assert c * Pow2(n) == 2 * h;
      OrDisjoint(a / 2, c, n - 1);
    }
  }

  lemma {:induction false} OrZero(b: nat)
    ensures BitOr(0, b) == b
  {
    if b > 0 { OrZero(b / 2); }
  }

  lemma ModScale(x: nat, p: nat, q: nat)
    requires p > 0 && q > 0
    ensures x * p % (p * q) == x % q * p
  {
    var d, r := x / q, x % q;
    assert x * p == d * (p * q) + r * p by { assert x == d * q + r; }
    assert 0 <= r * p < p * q;
    ModOf(x * p, p * q, d, r * p);
  }

  lemma ModOf(y: nat, m: nat, d: nat, r: nat)
    requires m > 0 && y == d * m + r && r < m
    ensures y % m == r
  {
    var e := y / m - d;
    assert y == (y / m) * m + y % m;
    assert e * m == r - y % m;
    Multiple(e, m);
  }

  lemma Multiple(e: int, m: int)
    requires m > 0
    ensures e >= 1 ==> e * m >= m
    ensures e <= -1 ==> e * m <= -m
  {
  }

  /** One step of the reader: or-ing in the next seven bits, modulo 2^64. */
  lemma OrStep(v: nat, all: nat, b: nat, n: nat)
    requires all < Pow2(n) && v == all % TWO64 && b < 128
    ensures BitOr(v, Shl(b, n)) == (all + b * Pow2(n)) % TWO64
  {
    hide BitOr, Pow2;
    Pow2Of64();
    if n <= 64 {
      Pow2Add(n, 64 - n);
      OrInside(all, b, n, Pow2(n), Pow2(64 - n));
    } else {
      Pow2Add(64, n - 64);
      ShiftedOut(b, Pow2(n - 64));
      OrZeroRight(v);
      AddMod(all, b * Pow2(n));
    }
  }

  lemma OrInside(all: nat, b: nat, n: nat, p: nat, q: nat)
    requires p == Pow2(n) && q > 0 && p * q == TWO64 && all < p
    ensures BitOr(all % TWO64, b * p % TWO64) == (all + b * p) % TWO64
  {
    hide BitOr, Pow2;
    ModScale(b, p, q);
    assert p <= TWO64 by { assert p * 1 <= p * q; }
    OrDisjoint(all, b % q, n);
    assert (b % q) * p + p <= TWO64 by { assert (b % q + 1) * p <= q * p; }
    AddMod(all, b * p);
  }

  lemma ShiftedOut(b: nat, r: nat)
    ensures b * (TWO64 * r) % TWO64 == 0
  {
    assert b * (TWO64 * r) == (b * r) * TWO64;
    ModOf(b * (TWO64 * r), TWO64, b * r, 0);
  }

  lemma {:induction false} OrZeroRight(a: nat)
    ensures BitOr(a, 0) == a
  {
    if a > 0 { OrZeroRight(a / 2); }
  }

  lemma AddMod(x: nat, y: nat)
    requires x % TWO64 + y % TWO64 < TWO64
    ensures (x + y) % TWO64 == x % TWO64 + y % TWO64
  {
  }

  lemma {:induction false} LebSnoc(s: string, c: char)
    ensures Leb(s + [c]) == Leb(s) + c as int % 128 * Pow2(7 * |s|)
    ensures Leb(s) < Pow2(7 * |s|)
  {
    if s == "" {
      assert s + [c] == [c] && Leb([c]) == c as int % 128 + 128 * Leb([c][1..]);
    } else {
      LebSnoc(s[1..], c);
      assert (s + [c])[1..] == s[1..] + [c];
      Pow2Add(7, 7 * (|s| - 1));
      assert Pow2(7) == 128;
      var x, p := c as int % 128, Pow2(7 * (|s| - 1));
      assert 128 * (x * p) == x * (128 * p);
    }
  }

  lemma {:induction false} GroupAt(s: string, i: nat)
    requires i <= |s| && forall k :: 0 <= k < i ==> s[k] as int >= 128
    ensures GroupLen(s) == i + GroupLen(s[i..])
  {
    if i > 0 {
      GroupAt(s[1..], i - 1);
      assert s[1..][i - 1..] == s[i..];
    } else {
      assert s[0..] == s;
    }
  }

  lemma LebEmpty()
    ensures Leb("") == 0 && GroupLen("") == 0
  {
  }

  lemma GroupNext(s: string)
    requires s != ""
    ensures s[0] as int < 128 ==> GroupLen(s) == 1
  {
  }

  // ---- The code ------------------------------------------------------------------------------------------

  /** byte(v) | 0x80 */
  function Continued(v: nat): char { (if v % 256 >= 128 then v % 256 else v % 256 + 128) as char }

  method AppendUvarint(dst: string, v: nat) returns (r: string)
    requires v < TWO64
    ensures r == dst + Uvarint(v)
  {
    r := dst;
    var w := v;
    while w >= 0x80
      invariant r + Uvarint(w) == dst + Uvarint(v)
    {
      r := r + [Continued(w)];
      w := w / 128;
    }
    r := r + [w as char];
  }

  /** readUvarint: the first group of bytes, as a number modulo 2^64, and its length. */
  method ReadUvarint(data: string) returns (v: nat, n: nat)
    ensures n == GroupLen(data) && v == Leb(data[..n]) % TWO64
  {
    hide BitOr, Pow2, Shl, Leb, GroupLen;
    v := 0;
    var shift, i := 0, 0;
    LebEmpty();
    while i < |data|
      invariant 0 <= i <= |data| && shift == 7 * i && v == Leb(data[..i]) % TWO64
      invariant forall k :: 0 <= k < i ==> data[k] as int >= 128
    {
      var b := data[i] as int;
      assert data[..i + 1] == data[..i] + [data[i]];
      LebSnoc(data[..i], data[i]);
      GroupNext(data[i..]);
      OrStep(v, Leb(data[..i]), b % 128, shift);
      GroupAt(data, i);
      if b < 0x80 {
        v := BitOr(v, Shl(b, shift));
        return v, i + 1;
      }
      v := BitOr(v, Shl(b % 128, shift));
      shift := shift + 7;
      i := i + 1;
    }
    GroupAt(data, i);
    assert data[..|data|] == data;
    n := |data|;
  }
}
