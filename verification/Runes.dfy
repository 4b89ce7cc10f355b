/** Unicode scalar values, their character classes, and the two byte encodings the slugs use. */
module Runes {
  type byte = b: int | 0 <= b < 256

  /** What ranging over a Go string yields: a Unicode scalar value. */
  type Rune = r: int | 0 <= r < 0xD800 || 0xE000 <= r <= 0x10FFFF

  const HYPHEN: Rune := 0x2D

  predicate LowerAlnum(r: int)
  {
    0x61 <= r <= 0x7A || 0x30 <= r <= 0x39
  }

  predicate AsciiAlnum(r: int)
  {
    LowerAlnum(r) || 0x41 <= r <= 0x5A
  }

  predicate AllAscii(s: seq<int>)
  {
    forall i :: 0 <= i < |s| ==> 0 <= s[i] < 128
  }

  /**
   * The Unicode tables the slugs consult, as parameters: `lat` is "letter or number", `nop` is
   * "mark, modifier symbol or modifier letter", `lower` is unicode.ToLower and `nfkd` is the
   * compatibility decomposition of a whole string.
   */
  datatype Unicode = Unicode(
    lat: Rune -> bool,
    nop: Rune -> bool,
    lower: Rune -> Rune,
    nfkd: seq<Rune> -> seq<Rune>)
  {
    /** What is assumed of the tables: their exact ASCII part, and closure laws elsewhere. */
    ghost predicate Lawful()
    {
      && (forall r: Rune :: r < 128 ==> (lat(r) <==> AsciiAlnum(r)))
      && (forall r: Rune :: r < 128 ==> (nop(r) <==> r == 0x5E || r == 0x60))
      && (forall r: Rune :: r < 128 ==> lower(r) == if 0x41 <= r <= 0x5A then r + 32 else r)
      && (forall r: Rune :: lat(r) ==> lat(lower(r)))
      && (forall r: Rune :: lower(lower(r)) == lower(r))
      && (forall s: seq<Rune> :: AllAscii(s) ==> nfkd(s) == s)
    }

    /** Decomposition leaves a rune alone. */
    ghost predicate Settled(r: Rune)
    {
      nfkd([r]) == [r]
    }

    /**
     * What makes slugs stable under decomposition: lowering a decomposed letter or number does not compose
     * it again, and neither does standing beside other such runes, or hyphens.
     */
    ghost predicate Stable()
    {
      && (forall s: seq<Rune>, r: Rune :: r in nfkd(s) && lat(r) ==> Settled(lower(r)))
      && (forall s: seq<Rune> :: (forall r :: r in s ==> (lat(r) || r == HYPHEN) && Settled(r)) ==> nfkd(s) == s)
    }
  }

  /** A lowered letter or number that is ASCII is one of a-z, 0-9. */
  lemma LoweredAscii(u: Unicode, r: Rune)
    requires u.Lawful() && u.lat(r) && u.lower(r) < 128
    ensures LowerAlnum(u.lower(r))
  {
    assert u.lat(u.lower(r)) && u.lower(u.lower(r)) == u.lower(r);
  }

  /** UTF-8, section 3 of RFC 3629. */
  function Utf8(r: Rune): (bs: seq<byte>)
    ensures 1 <= |bs| <= 4
    ensures r < 128 ==> bs == [r]
  {
    if r < 0x80 then [r]
    else if r < 0x800 then [0xC0 + r / 64, 0x80 + r % 64]
    else if r < 0x1_0000 then [0xE0 + r / 4096, 0x80 + r / 64 % 64, 0x80 + r % 64]
    else [0xF0 + r / 262144, 0x80 + r / 4096 % 64, 0x80 + r / 64 % 64, 0x80 + r % 64]
  }

  /** The table of section 3 of RFC 3629: how many octets, their lead bits, and six bits of the rune in each other. */
  lemma Utf8Is(r: Rune)
    ensures r < 0x80 ==> Utf8(r) == [r]
    ensures 0x80 <= r < 0x800 ==> |Utf8(r)| == 2 && 0xC0 <= Utf8(r)[0] < 0xE0
    ensures 0x800 <= r < 0x1_0000 ==> |Utf8(r)| == 3 && 0xE0 <= Utf8(r)[0] < 0xF0
    ensures 0x1_0000 <= r ==> |Utf8(r)| == 4 && 0xF0 <= Utf8(r)[0] < 0xF8
    ensures forall i :: 0 < i < |Utf8(r)| ==> 0x80 <= Utf8(r)[i] < 0xC0
    ensures var bs: seq<int> := Utf8(r); |bs| == 2 ==> r == (bs[0] - 0xC0) * 64 + (bs[1] - 0x80)
    ensures var bs: seq<int> := Utf8(r); |bs| == 3 ==> r == (bs[0] - 0xE0) * 4096 + (bs[1] - 0x80) * 64 + (bs[2] - 0x80)
    ensures var bs: seq<int> := Utf8(r); |bs| == 4 ==>
      r == (bs[0] - 0xF0) * 262144 + (bs[1] - 0x80) * 4096 + (bs[2] - 0x80) * 64 + (bs[3] - 0x80)
  {
    SixBitDigits(r);
  }

  /** UTF-8 of a rune sequence. */
  function Utf8All(rs: seq<Rune>): (bs: seq<byte>)
    ensures |rs| <= |bs|
  {
    if rs == [] then [] else Utf8(rs[0]) + Utf8All(rs[1..])
  }

  /** The length of an encoding can be read off its first byte. */
  lemma Utf8LeadByte(r: Rune)
    ensures |Utf8(r)| == 1 <==> Utf8(r)[0] < 0xC0
    ensures |Utf8(r)| == 2 <==> 0xC0 <= Utf8(r)[0] < 0xE0
    ensures |Utf8(r)| == 3 <==> 0xE0 <= Utf8(r)[0] < 0xF0
  {
  }

  lemma Utf8Injective(r: Rune, q: Rune)
    requires Utf8(r) == Utf8(q)
    ensures r == q
  {
    Utf8LeadByte(r);
    Utf8LeadByte(q);
    var a, b := Utf8(r), Utf8(q);
    assert forall i :: 0 <= i < |a| ==> a[i] == b[i];
    SixBitDigits(r);
    SixBitDigits(q);
  }

  /** A number is put together from its digits to the base 64. */
  lemma SixBitDigits(r: int)
    requires 0 <= r
    ensures r == r / 64 * 64 + r % 64
    ensures r / 64 == r / 4096 * 64 + r / 64 % 64
    ensures r / 4096 == r / 262144 * 64 + r / 4096 % 64
  {
  }

  /** No encoding is a proper prefix of another: a byte stream determines its first rune. */
  lemma Utf8PrefixFree(r: Rune, x: seq<byte>, q: Rune, y: seq<byte>)
    requires Utf8(r) + x == Utf8(q) + y
    ensures r == q && x == y
  {
    var a, b := Utf8(r), Utf8(q);
    assert a[0] == (a + x)[0] == (b + y)[0] == b[0];
    Utf8LeadByte(r);
    Utf8LeadByte(q);
    assert a == (a + x)[..|a|] == (b + y)[..|b|] == b;
    assert x == (a + x)[|a|..] == (b + y)[|b|..] == y;
    Utf8Injective(r, q);
  }

  lemma {:induction false} Utf8AllInjective(rs: seq<Rune>, qs: seq<Rune>)
    requires Utf8All(rs) == Utf8All(qs)
    ensures rs == qs
  {
    if rs != [] && qs != [] {
      Utf8PrefixFree(rs[0], Utf8All(rs[1..]), qs[0], Utf8All(qs[1..]));
      Utf8AllInjective(rs[1..], qs[1..]);
      assert rs == [rs[0]] + rs[1..] && qs == [qs[0]] + qs[1..];
    }
  }

  function HexDigit(n: int): (b: byte)
    requires 0 <= n < 16
    ensures LowerAlnum(b)
  {
    if n < 10 then 0x30 + n else 0x61 + n - 10
  }

  /** Lower-case hexadecimal, section 8 of RFC 4648. */
  function Hex(bs: seq<byte>): (h: seq<byte>)
    ensures |h| == 2 * |bs|
  {
    if bs == [] then [] else [HexDigit(bs[0] / 16), HexDigit(bs[0] % 16)] + Hex(bs[1..])
  }

  lemma {:induction false} HexConcat(a: seq<byte>, b: seq<byte>)
    ensures Hex(a + b) == Hex(a) + Hex(b)
  {
    if a == [] {
      assert a + b == b;
    } else {
      HexConcat(a[1..], b);
      assert (a + b)[1..] == a[1..] + b;
      var d := [HexDigit(a[0] / 16), HexDigit(a[0] % 16)];
      assert d + (Hex(a[1..]) + Hex(b)) == d + Hex(a[1..]) + Hex(b);
    }
  }

  /** Table 5 of RFC 4648, the Base 16 alphabet, in rows of eight and in lower case. */
  const HEX_TABLE: seq<string> := ["01234567", "89abcdef"]

  function HexLetter(n: int): byte
    requires 0 <= n < 16
  {
    HEX_TABLE[n / 8][n % 8] as int
  }

  lemma HexLettersAreDigits(n: int)
    requires 0 <= n < 16
    ensures HexLetter(n) == HexDigit(n)
  {
  }

  lemma {:induction false} HexAt(bs: seq<byte>, k: nat)
    requires k < |bs|
    ensures Hex(bs)[2 * k] == HexDigit(bs[k] / 16) && Hex(bs)[2 * k + 1] == HexDigit(bs[k] % 16)
  {
    if 0 < k {
      HexAt(bs[1..], k - 1);
      assert Hex(bs)[2 * k] == Hex(bs[1..])[2 * (k - 1)] && Hex(bs)[2 * k + 1] == Hex(bs[1..])[2 * (k - 1) + 1];
    }
  }

  /** Every byte becomes two letters of the table, the upper half first. */
  lemma HexIs(bs: seq<byte>, k: nat)
    requires k < |bs|
    ensures Hex(bs)[2 * k] == HexLetter(bs[k] / 16) && Hex(bs)[2 * k + 1] == HexLetter(bs[k] % 16)
  {
    HexAt(bs, k);
    HexLettersAreDigits(bs[k] / 16);
    HexLettersAreDigits(bs[k] % 16);
  }

  /** The digits of the first `i` bytes are in place. */
  ghost predicate HexSoFar(bs: seq<byte>, h: seq<byte>, i: nat)
  {
    i <= |bs| && 2 * i <= |h|
    && forall k :: 0 <= k < i ==> h[2 * k] == HexDigit(bs[k] / 16) && h[2 * k + 1] == HexDigit(bs[k] % 16)
  }

  lemma HexTail(bs: seq<byte>, h: seq<byte>)
    requires bs != [] && |h| == 2 * |bs| && HexSoFar(bs, h, |bs|)
    ensures HexSoFar(bs[1..], h[2..], |bs| - 1)
  {
    forall k | 0 <= k < |bs| - 1
      ensures h[2..][2 * k] == HexDigit(bs[1..][k] / 16) && h[2..][2 * k + 1] == HexDigit(bs[1..][k] % 16)
    {
      assert h[2..][2 * k] == h[2 * (k + 1)] && h[2..][2 * k + 1] == h[2 * (k + 1) + 1];
    }
  }

  /** A text whose digits are pairwise those of `bs` is the hexadecimal of `bs`. */
  lemma {:induction false} IsHex(bs: seq<byte>, h: seq<byte>)
    requires |h| == 2 * |bs| && HexSoFar(bs, h, |bs|)
    ensures h == Hex(bs)
  {
    if bs != [] {
      HexTail(bs, h);
      IsHex(bs[1..], h[2..]);
      assert h == [h[2 * 0], h[2 * 0 + 1]] + h[2..];
    }
  }

  lemma HexOneMore(bs: seq<byte>, h: seq<byte>, h': seq<byte>, i: nat)
    requires HexSoFar(bs, h, i) && i < |bs| && 2 * i + 1 < |h'|
    requires h'[..2 * i] == h[..2 * i]
    requires h'[2 * i] == HexDigit(bs[i] / 16) && h'[2 * i + 1] == HexDigit(bs[i] % 16)
    ensures HexSoFar(bs, h', i + 1)
  {
    forall k | 0 <= k < i ensures h'[2 * k] == h[2 * k] && h'[2 * k + 1] == h[2 * k + 1] {
      assert h'[2 * k] == h'[..2 * i][2 * k] && h'[2 * k + 1] == h'[..2 * i][2 * k + 1];
    }
  }

  lemma {:induction false} HexIsLowerAlnum(bs: seq<byte>)
    ensures forall i :: 0 <= i < |Hex(bs)| ==> LowerAlnum(Hex(bs)[i])
  {
    if bs != [] {
      HexIsLowerAlnum(bs[1..]);
    }
  }

  lemma {:induction false} HexInjective(a: seq<byte>, b: seq<byte>)
    requires Hex(a) == Hex(b)
    ensures a == b
  {
    if a != [] {
      assert Hex(a)[0] == Hex(b)[0] && Hex(a)[1] == Hex(b)[1];
      assert Hex(a)[2..] == Hex(a[1..]) && Hex(b)[2..] == Hex(b[1..]);
      HexInjective(a[1..], b[1..]);
      assert a == [a[0]] + a[1..] && b == [b[0]] + b[1..];
    }
  }

  /** utf8.EncodeRune into the front of a scratch array; the rest of the array is left alone. */
  method EncodeRune(ib: array<byte>, r: Rune) returns (n: nat)
    requires 4 <= ib.Length
    modifies ib
    ensures n <= 4 && ib[..n] == Utf8(r) && ib[4..] == old(ib[4..])
  {
    if r < 0x80 {
      ib[0] := r;
      n := 1;
    } else if r < 0x800 {
      ib[0], ib[1] := 0xC0 + r / 64, 0x80 + r % 64;
      n := 2;
    } else if r < 0x1_0000 {
      ib[0], ib[1], ib[2] := 0xE0 + r / 4096, 0x80 + r / 64 % 64, 0x80 + r % 64;
      n := 3;
    } else {
      ib[0], ib[1] := 0xF0 + r / 262144, 0x80 + r / 4096 % 64;
      ib[2], ib[3] := 0x80 + r / 64 % 64, 0x80 + r % 64;
      n := 4;
    }
  }

  /**
   * hex.Encode(ib[m:], ib[:n]) within one array: the target starts at or after the end of the source,
   * so no byte is overwritten before it is read.
   */
  method HexEncode(ib: array<byte>, m: nat, n: nat) returns (written: nat)
    requires n <= m && m + 2 * n <= ib.Length
    modifies ib
    ensures written == 2 * n
    ensures ib[..m] == old(ib[..m])
    ensures ib[m..m + written] == Hex(old(ib[..n]))
  {
    ghost var src := ib[..n];
    for i := 0 to n
      invariant forall k :: 0 <= k < m ==> ib[k] == old(ib[k])
      invariant HexSoFar(src, ib[m..], i)
    {
      ghost var before := ib[m..];
      ib[m + 2 * i] := HexDigit(ib[i] / 16);
      ib[m + 2 * i + 1] := HexDigit(ib[i] % 16);
      assert ib[m..][..2 * i] == before[..2 * i];
      HexOneMore(src, before, ib[m..], i);
    }
    written := 2 * n;
    assert ib[m..m + written] == ib[m..][..written];
    IsHex(src, ib[m..m + written]);
  }
}
