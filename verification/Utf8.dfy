/** UTF-8, as `str.encode` and `ethers.toUtf8Bytes` produce it: distinct texts have distinct bytes. */
module Utf8 {
  import opened Words

  /** How many bytes a character takes, read off its first byte. */
  function Width(first: byte): nat
  {
    if first < 0xC0 then 1 else if first < 0xE0 then 2 else if first < 0xF0 then 3 else 4
  }

  function EncodeChar(c: char): (b: Bytes)
    ensures b != [] && |b| == Width(b[0])
  {
    var n := c as int;
    if n < 0x80 then [n]
    else if n < 0x800 then [0xC0 + n / 0x40, 0x80 + n % 0x40]
    else if n < 0x10000 then [0xE0 + n / 0x1000, 0x80 + n / 0x40 % 0x40, 0x80 + n % 0x40]
    else [0xF0 + n / 0x40000, 0x80 + n / 0x1000 % 0x40, 0x80 + n / 0x40 % 0x40, 0x80 + n % 0x40]
  }

  function Encode(s: string): Bytes
  {
    if s == [] then [] else EncodeChar(s[0]) + Encode(s[1..])
  }

  function DecodeChar(b: seq<int>): int
  {
    if |b| == 1 then b[0]
    else if |b| == 2 then (b[0] - 0xC0) * 0x40 + (b[1] - 0x80)
    else if |b| == 3 then (b[0] - 0xE0) * 0x1000 + (b[1] - 0x80) * 0x40 + (b[2] - 0x80)
    else if |b| == 4 then (b[0] - 0xF0) * 0x40000 + (b[1] - 0x80) * 0x1000 + (b[2] - 0x80) * 0x40 + (b[3] - 0x80)
    else 0
  }

  lemma DecodeEncodeChar(c: char)
    ensures DecodeChar(EncodeChar(c)) == c as int
  {
    var n := c as int;
    assert n / 0x1000 == n / 0x40 / 0x40 && n / 0x40000 == n / 0x40 / 0x40 / 0x40;
  }

  predicate IsTail(x: int) { 0x80 <= x <= 0xBF }

  /** One character as section 4 of RFC 3629 writes it: the shortest form, and no surrogates. */
  predicate WellFormed(b: seq<int>)
  {
    match |b|
    case 1 => 0 <= b[0] <= 0x7F
    case 2 => 0xC2 <= b[0] <= 0xDF && IsTail(b[1])
    case 3 =>
      && IsTail(b[1]) && IsTail(b[2]) && 0xE0 <= b[0] <= 0xEF
      && (b[0] == 0xE0 ==> 0xA0 <= b[1]) && (b[0] == 0xED ==> b[1] <= 0x9F)
    case 4 =>
      && IsTail(b[1]) && IsTail(b[2]) && IsTail(b[3]) && 0xF0 <= b[0] <= 0xF4
      && (b[0] == 0xF0 ==> 0x90 <= b[1]) && (b[0] == 0xF4 ==> b[1] <= 0x8F)
    case _ => false
  }

  /** Splitting a number into six-bit groups. */
  lemma Groups(n: nat, h: int, x: int)
    requires 0 <= x < 0x40 && n == h * 0x40 + x
    ensures n / 0x40 == h && n % 0x40 == x
  {
  }

  lemma EncodedIsWellFormed(c: char)
    ensures WellFormed(EncodeChar(c))
  {
    var n := c as int;
    assert n / 0x1000 == n / 0x40 / 0x40 && n / 0x40000 == n / 0x40 / 0x40 / 0x40;
  }

  lemma WellFormedIsEncoded(c: char, b: seq<int>)
    requires WellFormed(b) && DecodeChar(b) == c as int
    ensures EncodeChar(c) == b
  {
    var n := c as int;
    assert n / 0x1000 == n / 0x40 / 0x40 && n / 0x40000 == n / 0x40 / 0x40 / 0x40;
    if |b| == 2 {
      Groups(n, b[0] - 0xC0, b[1] - 0x80);
    } else if |b| == 3 {
      var h := (b[0] - 0xE0) * 0x40 + (b[1] - 0x80);
      Groups(n, h, b[2] - 0x80);
      Groups(h, b[0] - 0xE0, b[1] - 0x80);
    } else if |b| == 4 {
      var g := (b[0] - 0xF0) * 0x40 + (b[1] - 0x80);
      var h := g * 0x40 + (b[2] - 0x80);
      Groups(n, h, b[3] - 0x80);
      Groups(h, g, b[2] - 0x80);
      Groups(g, b[0] - 0xF0, b[1] - 0x80);
    }
  }

  /** The bytes of a character are the one well-formed string that stands for it. */
  lemma EncodesExactly(c: char, b: Bytes)
    ensures b == EncodeChar(c) <==> WellFormed(b) && DecodeChar(b) == c as int
  {
    hide EncodeChar, DecodeChar, WellFormed;
    EncodedIsWellFormed(c);
    DecodeEncodeChar(c);
    if WellFormed(b) && DecodeChar(b) == c as int { WellFormedIsEncoded(c, b); }
  }

  /** The first byte fixes the length and the bytes fix the character, so no encoding is a prefix of another. */
  lemma PrefixFree(a: char, b: char, s: Bytes, t: Bytes)
    requires EncodeChar(a) + s == EncodeChar(b) + t
    ensures a == b && s == t
  {
    var x, y := EncodeChar(a), EncodeChar(b);
    var w := x + s;
    assert w[0] == x[0] && w == y + t;
    assert x[0] == y[0];
    assert x == w[..|x|] && y == w[..|y|];
    assert s == w[|x|..] && t == w[|y|..];
    DecodeEncodeChar(a);
    DecodeEncodeChar(b);
    assert a as int == b as int;
  }

  lemma {:induction false} EncodeInjective(s: string, t: string)
    requires Encode(s) == Encode(t)
    ensures s == t
  {
    if s != [] && t != [] {
      PrefixFree(s[0], t[0], Encode(s[1..]), Encode(t[1..]));
      EncodeInjective(s[1..], t[1..]);
      assert s == [s[0]] + s[1..] && t == [t[0]] + t[1..];
    }
  }
}
