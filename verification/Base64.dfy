/** Standard base64 with padding, section 4 of RFC 4648, as Go's StdEncoding writes and reads it. */
module Base64 {
  import opened Wrappers
  import opened Runes

  const PAD: byte := 0x3D

  function Digit(n: int): (c: byte)
    requires 0 <= n < 64
  {
    if n < 26 then 0x41 + n
    else if n < 52 then 0x61 + n - 26
    else if n < 62 then 0x30 + n - 52
    else if n == 62 then 0x2B
    else 0x2F
  }

  /** The value of a digit, or -1. */
  function Value(c: byte): (n: int)
    ensures -1 <= n < 64
    ensures 0 <= n ==> Digit(n) == c
  {
    if 0x41 <= c <= 0x5A then c - 0x41
    else if 0x61 <= c <= 0x7A then c - 0x61 + 26
    else if 0x30 <= c <= 0x39 then c - 0x30 + 52
    else if c == 0x2B then 62
    else if c == 0x2F then 63
    else -1
  }

  lemma ValueOfDigit(n: int)
    requires 0 <= n < 64
    ensures Value(Digit(n)) == n && Digit(n) != PAD
  {
  }

  /** EncodeToString. */
  function Encode(bs: seq<byte>): (cs: seq<byte>)
  {
    if |bs| == 0 then []
    else if |bs| == 1 then [Digit(bs[0] / 4), Digit(bs[0] % 4 * 16), PAD, PAD]
    else if |bs| == 2 then [Digit(bs[0] / 4), Digit(bs[0] % 4 * 16 + bs[1] / 16), Digit(bs[1] % 16 * 4), PAD]
    else
      [Digit(bs[0] / 4), Digit(bs[0] % 4 * 16 + bs[1] / 16), Digit(bs[1] % 16 * 4 + bs[2] / 64), Digit(bs[2] % 64)]
      + Encode(bs[3..])
  }

  /** The decoder skips line breaks wherever they stand. */
  function Strip(cs: seq<byte>): (r: seq<byte>)
  {
    if cs == [] then []
    else if cs[0] == 0x0A || cs[0] == 0x0D then Strip(cs[1..])
    else [cs[0]] + Strip(cs[1..])
  }

  function First(a: int, b: int): byte
    requires 0 <= a < 64 && 0 <= b < 64
  {
    a * 4 + b / 16
  }

  function Second(b: int, c: int): byte
    requires 0 <= b < 64 && 0 <= c < 64
  {
    b % 16 * 16 + c / 4
  }

  function Third(c: int, d: int): byte
    requires 0 <= c < 64 && 0 <= d < 64
  {
    c % 4 * 64 + d
  }

  /** Whole quanta; padding only in the last. Unused bits of the last digit are not looked at. */
  function DecodeQuanta(cs: seq<byte>): (r: Option<seq<byte>>)
  {
    if cs == [] then Some([])
    else if |cs| < 4 || Value(cs[0]) < 0 || Value(cs[1]) < 0 then None
    else
      var a, b, c, d := Value(cs[0]), Value(cs[1]), Value(cs[2]), Value(cs[3]);
      if cs[2] == PAD then
        if cs[3] == PAD && |cs| == 4 then Some([First(a, b)]) else None
      else if c < 0 then None
      else if cs[3] == PAD then
        if |cs| == 4 then Some([First(a, b), Second(b, c)]) else None
      else if d < 0 then None
      else
        match DecodeQuanta(cs[4..])
        case None => None
        case Some(rest) => Some([First(a, b), Second(b, c), Third(c, d)] + rest)
  }

  /** DecodeString: None for its error. */
  function Decode(cs: seq<byte>): (r: Option<seq<byte>>)
  {
    DecodeQuanta(Strip(cs))
  }

  predicate InAlphabet(c: byte)
  {
    c == PAD || 0 <= Value(c)
  }

  lemma {:induction false} EncodeInAlphabet(bs: seq<byte>)
    ensures forall i :: 0 <= i < |Encode(bs)| ==> InAlphabet(Encode(bs)[i])
  {
    if 3 <= |bs| {
      EncodeInAlphabet(bs[3..]);
    }
  }

  lemma {:induction false} StripNothing(cs: seq<byte>)
    requires forall i :: 0 <= i < |cs| ==> InAlphabet(cs[i])
    ensures Strip(cs) == cs
  {
    if cs != [] {
      StripNothing(cs[1..]);
      assert cs == [cs[0]] + cs[1..];
    }
  }

  /** The three bytes of a quantum survive being cut into four digits. */
  lemma QuantumBack(x: int, y: int, z: int)
    requires 0 <= x < 256 && 0 <= y < 256 && 0 <= z < 256
    ensures First(x / 4, x % 4 * 16 + y / 16) == x
    ensures Second(x % 4 * 16 + y / 16, y % 16 * 4 + z / 64) == y
    ensures Third(y % 16 * 4 + z / 64, z % 64) == z
  {
    assert (x % 4 * 16 + y / 16) / 16 == x % 4;
    assert (x % 4 * 16 + y / 16) % 16 == y / 16;
    assert (y % 16 * 4 + z / 64) / 4 == y % 16;
    assert (y % 16 * 4 + z / 64) % 4 == z / 64;
  }

  /** Four digits in front of more quanta. */
  function Digits(x: byte, y: byte, z: byte): (q: seq<byte>)
    ensures |q| == 4
  {
    [Digit(x / 4), Digit(x % 4 * 16 + y / 16), Digit(y % 16 * 4 + z / 64), Digit(z % 64)]
  }

  lemma QuantumDecodes(x: byte, y: byte, z: byte, cs: seq<byte>)
    requires DecodeQuanta(cs).Some?
    ensures DecodeQuanta(Digits(x, y, z) + cs) == Some([x, y, z] + DecodeQuanta(cs).value)
  {
    QuantumBack(x, y, z);
    ValueOfDigit(x / 4);
    ValueOfDigit(x % 4 * 16 + y / 16);
    ValueOfDigit(y % 16 * 4 + z / 64);
    ValueOfDigit(z % 64);
    assert (Digits(x, y, z) + cs)[4..] == cs;
  }

  lemma OneByteDecodes(x: byte)
    ensures DecodeQuanta(Encode([x])) == Some([x])
  {
    QuantumBack(x, 0, 0);
    ValueOfDigit(x / 4);
    ValueOfDigit(x % 4 * 16);
  }

  lemma ThreeDigitsDecode(a: int, b: int, c: int)
    requires 0 <= a < 64 && 0 <= b < 64 && 0 <= c < 64
    ensures DecodeQuanta([Digit(a), Digit(b), Digit(c), PAD]) == Some([First(a, b), Second(b, c)])
  {
    ValueOfDigit(a);
    ValueOfDigit(b);
    ValueOfDigit(c);
  }

  lemma EncodeTwo(x: byte, y: byte)
    ensures Encode([x, y]) == [Digit(x / 4), Digit(x % 4 * 16 + y / 16), Digit(y % 16 * 4), PAD]
  {
  }

  lemma TwoBytesBack(x: int, y: int)
    requires 0 <= x < 256 && 0 <= y < 256
    ensures First(x / 4, x % 4 * 16 + y / 16) == x
    ensures Second(x % 4 * 16 + y / 16, y % 16 * 4) == y
  {
    QuantumBack(x, y, 0);
    assert y % 16 * 4 + 0 / 64 == y % 16 * 4;
  }

  lemma TwoBytesDecode(x: byte, y: byte)
    ensures DecodeQuanta(Encode([x, y])) == Some([x, y])
  {
    EncodeTwo(x, y);
    TwoBytesBack(x, y);
    ThreeDigitsDecode(x / 4, x % 4 * 16 + y / 16, y % 16 * 4);
  }

  lemma {:induction false} QuantaBack(bs: seq<byte>)
    ensures DecodeQuanta(Encode(bs)) == Some(bs)
  {
    if 3 <= |bs| {
      QuantaBack(bs[3..]);
      QuantumDecodes(bs[0], bs[1], bs[2], Encode(bs[3..]));
      assert bs == [bs[0], bs[1], bs[2]] + bs[3..];
    } else if |bs| == 2 {
      TwoBytesDecode(bs[0], bs[1]);
      assert bs == [bs[0], bs[1]];
    } else if |bs| == 1 {
      OneByteDecodes(bs[0]);
      assert bs == [bs[0]];
    }
  }

  /** Decoding an encoding gives the bytes back, for all byte strings. */
  lemma DecodeEncode(bs: seq<byte>)
    ensures Decode(Encode(bs)) == Some(bs)
  {
    EncodeInAlphabet(bs);
    StripNothing(Encode(bs));
    QuantaBack(bs);
  }

  lemma EncodeInjective(a: seq<byte>, b: seq<byte>)
    requires Encode(a) == Encode(b)
    ensures a == b
  {
    DecodeEncode(a);
    DecodeEncode(b);
  }

  // ---------- against section 4 of RFC 4648 ----------

  /** Table 1, the Base 64 alphabet, in rows of eight. */
  const TABLE: seq<string> :=
    ["ABCDEFGH", "IJKLMNOP", "QRSTUVWX", "YZabcdef", "ghijklmn", "opqrstuv", "wxyz0123", "456789+/"]

  /** The character of a value. */
  function Letter(n: int): byte
    requires 0 <= n < 64
  {
    TABLE[n / 8][n % 8] as int
  }

  lemma LettersAreDigits(n: int)
    requires 0 <= n < 64
    ensures Letter(n) == Digit(n)
  {
  }

  /** Three bytes and four letters that make up the same 24 bits. */
  lemma SameBitsMeans(x: byte, y: byte, z: byte, a: int, b: int, c: int, d: int)
    requires 0 <= a < 64 && 0 <= b < 64 && 0 <= c < 64 && 0 <= d < 64
    requires x * 65536 + y * 256 + z == a * 262144 + b * 4096 + c * 64 + d
    ensures x == First(a, b) && y == Second(b, c) && z == Third(c, d)
    ensures a == x / 4 && b == x % 4 * 16 + y / 16 && c == y % 16 * 4 + z / 64 && d == z % 64
  {
    assert a == x / 4;
    assert b / 16 == x % 4;
    assert b % 16 == y / 16;
    assert c / 4 == y % 16;
  }

  /** A whole quantum is encoded as the four letters of its bits. */
  lemma EncodesQuantum(x: byte, y: byte, z: byte, rest: seq<byte>, a: int, b: int, c: int, d: int)
    requires 0 <= a < 64 && 0 <= b < 64 && 0 <= c < 64 && 0 <= d < 64
    requires x * 65536 + y * 256 + z == a * 262144 + b * 4096 + c * 64 + d
    ensures Encode([x, y, z] + rest) == [Letter(a), Letter(b), Letter(c), Letter(d)] + Encode(rest)
  {
    SameBitsMeans(x, y, z, a, b, c, d);
    EncodeThree(x, y, z, rest);
    LettersAreDigits(a);
    LettersAreDigits(b);
    LettersAreDigits(c);
    LettersAreDigits(d);
  }

  lemma EncodeThree(x: byte, y: byte, z: byte, rest: seq<byte>)
    ensures Encode([x, y, z] + rest) == Digits(x, y, z) + Encode(rest)
  {
    assert ([x, y, z] + rest)[3..] == rest;
  }

  /** A last quantum that falls short is filled with zero bits and padded with '='. */
  lemma EncodesOne(x: byte, a: int, b: int)
    requires 0 <= a < 64 && 0 <= b < 64 && x * 16 == a * 64 + b
    ensures Encode([]) == [] && Encode([x]) == [Letter(a), Letter(b), 0x3D, 0x3D]
  {
    OneByteBits(x, a, b);
    EncodeOne(x);
    LettersAreDigits(a);
    LettersAreDigits(b);
  }

  lemma OneByteBits(x: byte, a: int, b: int)
    requires 0 <= a < 64 && 0 <= b < 64 && x * 16 == a * 64 + b
    ensures a == x / 4 && b == x % 4 * 16
  {
  }

  lemma TwoByteBits(x: byte, y: byte, a: int, b: int, c: int)
    requires 0 <= a < 64 && 0 <= b < 64 && 0 <= c < 64 && x * 1024 + y * 4 == a * 4096 + b * 64 + c
    ensures a == x / 4 && b == x % 4 * 16 + y / 16 && c == y % 16 * 4
  {
    SameBitsMeans(x, y, 0, a, b, c, 0);
  }

  lemma EncodeOne(x: byte)
    ensures Encode([]) == [] && Encode([x]) == [Digit(x / 4), Digit(x % 4 * 16), 0x3D, 0x3D]
  {
  }

  lemma EncodesTwo(x: byte, y: byte, a: int, b: int, c: int)
    requires 0 <= a < 64 && 0 <= b < 64 && 0 <= c < 64 && x * 1024 + y * 4 == a * 4096 + b * 64 + c
    ensures Encode([x, y]) == [Letter(a), Letter(b), Letter(c), 0x3D]
  {
    TwoByteBits(x, y, a, b, c);
    EncodeTwo(x, y);
    LettersAreDigits(a);
    LettersAreDigits(b);
    LettersAreDigits(c);
  }

  /** Four letters decode to the three bytes of their bits. */
  lemma DecodesQuantum(x: byte, y: byte, z: byte, rest: seq<byte>, a: int, b: int, c: int, d: int)
    requires 0 <= a < 64 && 0 <= b < 64 && 0 <= c < 64 && 0 <= d < 64
    requires x * 65536 + y * 256 + z == a * 262144 + b * 4096 + c * 64 + d
    ensures DecodeQuanta([Letter(a), Letter(b), Letter(c), Letter(d)] + rest) ==
      match DecodeQuanta(rest) case None => None case Some(r) => Some([x, y, z] + r)
  {
    SameBitsMeans(x, y, z, a, b, c, d);
    FourLetters(a, b, c, d);
    assert ([Letter(a), Letter(b), Letter(c), Letter(d)] + rest)[4..] == rest;
  }

  lemma FourLetters(a: int, b: int, c: int, d: int)
    requires 0 <= a < 64 && 0 <= b < 64 && 0 <= c < 64 && 0 <= d < 64
    ensures Value(Letter(a)) == a && Value(Letter(b)) == b && Value(Letter(c)) == c && Value(Letter(d)) == d
    ensures Letter(a) != 0x3D && Letter(b) != 0x3D && Letter(c) != 0x3D && Letter(d) != 0x3D
  {
    OneLetter(a);
    OneLetter(b);
    OneLetter(c);
    OneLetter(d);
  }

  lemma OneLetter(a: int)
    requires 0 <= a < 64
    ensures Value(Letter(a)) == a && Letter(a) != 0x3D
  {
    LettersAreDigits(a);
    ValueOfDigit(a);
  }

  /** Padded quanta decode to one byte or two; the bits left over are not looked at. */
  lemma DecodesOne(x: byte, a: int, b: int)
    requires 0 <= a < 64 && 0 <= b < 64 && x * 16 <= a * 64 + b < (x + 1) * 16
    ensures DecodeQuanta([]) == Some([]) && DecodeQuanta([Letter(a), Letter(b), 0x3D, 0x3D]) == Some([x])
  {
    FourLetters(a, b, 0, 0);
    OneByteOf(x, a, b);
  }

  lemma OneByteOf(x: byte, a: int, b: int)
    requires 0 <= a < 64 && 0 <= b < 64 && x * 16 <= a * 64 + b < (x + 1) * 16
    ensures First(a, b) == x
  {
  }

  lemma DecodesTwo(x: byte, y: byte, a: int, b: int, c: int)
    requires 0 <= a < 64 && 0 <= b < 64 && 0 <= c < 64
    requires x * 1024 + y * 4 <= a * 4096 + b * 64 + c < x * 1024 + (y + 1) * 4
    ensures DecodeQuanta([Letter(a), Letter(b), Letter(c), 0x3D]) == Some([x, y])
  {
    FourLetters(a, b, c, 0);
    TwoBytesOf(x, y, a, b, c);
  }

  lemma TwoBytesOf(x: byte, y: byte, a: int, b: int, c: int)
    requires 0 <= a < 64 && 0 <= b < 64 && 0 <= c < 64
    requires x * 1024 + y * 4 <= a * 4096 + b * 64 + c < x * 1024 + (y + 1) * 4
    ensures First(a, b) == x && Second(b, c) == y
  {
    assert First(a, b) * 256 + Second(b, c) == (a * 4096 + b * 64 + c) / 4;
  }

  predicate InTable(c: byte)
  {
    exists n :: 0 <= n < 64 && c == Letter(n)
  }

  lemma ValueInTable(c: byte)
    ensures 0 <= Value(c) <==> InTable(c)
  {
    if 0 <= Value(c) { LettersAreDigits(Value(c)); }
    if n :| 0 <= n < 64 && c == Letter(n) { OneLetter(n); }
  }

  /** What decodes: letters in fours, of which the last one or two may be '='. */
  predicate WellFormed(cs: seq<byte>)
  {
    cs == [] || (4 <= |cs|
      && InTable(cs[0]) && InTable(cs[1])
      && (if |cs| == 4 then
            (InTable(cs[2]) && InTable(cs[3])) || (InTable(cs[2]) && cs[3] == 0x3D) || (cs[2] == 0x3D && cs[3] == 0x3D)
          else InTable(cs[2]) && InTable(cs[3]) && WellFormed(cs[4..])))
  }

  lemma {:induction false} DecodesExactlyWhen(cs: seq<byte>)
    ensures DecodeQuanta(cs).Some? <==> WellFormed(cs)
  {
    if 4 <= |cs| {
      ValueInTable(cs[0]);
      ValueInTable(cs[1]);
      ValueInTable(cs[2]);
      ValueInTable(cs[3]);
      DecodesExactlyWhen(cs[4..]);
    }
  }

  /** Carriage returns and line feeds are passed over wherever they stand, and nothing else is. */
  lemma {:induction false} LineBreaksPassedOver(a: seq<byte>, c: byte, b: seq<byte>)
    ensures c == 0x0A || c == 0x0D ==> Strip(a + [c] + b) == Strip(a + b)
    ensures 0x0A !in a && 0x0D !in a ==> Strip(a) == a && Decode(a) == DecodeQuanta(a)
  {
    if a == [] {
      assert [] + [c] + b == [c] + b && [] + b == b && ([c] + b)[1..] == b;
    } else {
      LineBreaksPassedOver(a[1..], c, b);
      assert (a + [c] + b)[1..] == a[1..] + [c] + b && (a + b)[1..] == a[1..] + b;
      assert a == [a[0]] + a[1..];
    }
  }
}
