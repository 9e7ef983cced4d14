/** UTF-8 as RFC 3629 defines it: the encoding of section 3, the grammar of section 4, and a
    byte-by-byte reader, all three of which agree.
 */
module Utf8 {

  // ----- the encoding -----

  /** Unicode scalar values: code points without the surrogates. */
  predicate IsScalar(u: nat) {
    u < 0x11_0000 && !(0xD800 <= u <= 0xDFFF)
  }

  function Byte(n: nat): char
    requires n < 0x100
  {
    n as char
  }

  function Tail(n: nat): char {
    Byte(0x80 + n % 0x40)
  }

  /** The bytes of one character. */
  function Encoding(u: nat): string
    requires IsScalar(u)
  {
    if u < 0x80 then [Byte(u)]
    else if u < 0x800 then [Byte(0xC0 + u / 0x40), Tail(u)]
    else if u < 0x1_0000 then [Byte(0xE0 + u / 0x1000), Tail(u / 0x40), Tail(u)]
    else [Byte(0xF0 + u / 0x4_0000), Tail(u / 0x1000), Tail(u / 0x40), Tail(u)]
  }

  predicate AreScalars(text: seq<nat>) {
    forall k :: 0 <= k < |text| ==> IsScalar(text[k])
  }

  function Encoded(text: seq<nat>): string
    requires AreScalars(text)
  {
    if text == [] then "" else Encoding(text[0]) + Encoded(text[1..])
  }

  // ----- the grammar -----

  predicate Between(c: char, low: nat, high: nat) {
    low <= c as int <= high
  }

  predicate IsTail(c: char) {
    Between(c, 0x80, 0xBF)
  }

  /** UTF8-3 */
  predicate IsThree(a: char, b: char, c: char) {
    && (|| (Between(a, 0xE0, 0xE0) && Between(b, 0xA0, 0xBF))
        || (Between(a, 0xE1, 0xEC) && IsTail(b))
        || (Between(a, 0xED, 0xED) && Between(b, 0x80, 0x9F))
        || (Between(a, 0xEE, 0xEF) && IsTail(b)))
    && IsTail(c)
  }

  /** UTF8-4 */
  predicate IsFour(a: char, b: char, c: char, d: char) {
    && (|| (Between(a, 0xF0, 0xF0) && Between(b, 0x90, 0xBF))
        || (Between(a, 0xF1, 0xF3) && IsTail(b))
        || (Between(a, 0xF4, 0xF4) && Between(b, 0x80, 0x8F)))
    && IsTail(c) && IsTail(d)
  }

  /** How many bytes the first UTF8-char of a text takes; 0 if it starts with none. */
  function CharLength(s: string): (n: nat)
    requires s != ""
    ensures n <= |s|
  {
    if Between(s[0], 0, 0x7F) then 1
    else if |s| >= 2 && Between(s[0], 0xC2, 0xDF) && IsTail(s[1]) then 2
    else if |s| >= 3 && IsThree(s[0], s[1], s[2]) then 3
    else if |s| >= 4 && IsFour(s[0], s[1], s[2], s[3]) then 4
    else 0
  }

  /** UTF8-octets */
  predicate IsUtf8(s: string) {
    s == "" || (CharLength(s) > 0 && IsUtf8(s[CharLength(s)..]))
  }

  // ----- grammar and encoding agree -----

  lemma TailIsTail(n: nat)
    ensures IsTail(Tail(n))
  {
  }

  lemma EncodingIsThree(u: nat)
    requires IsScalar(u) && 0x800 <= u < 0x1_0000
    ensures IsThree(Byte(0xE0 + u / 0x1000), Tail(u / 0x40), Tail(u))
  {
    TailIsTail(u / 0x40);
    TailIsTail(u);
  }

  lemma EncodingIsFour(u: nat)
    requires IsScalar(u) && 0x1_0000 <= u
    ensures IsFour(Byte(0xF0 + u / 0x4_0000), Tail(u / 0x1000), Tail(u / 0x40), Tail(u))
  {
    TailIsTail(u / 0x1000);
    TailIsTail(u / 0x40);
    TailIsTail(u);
  }

  lemma LengthOfChar(first: string, rest: string)
    requires 1 <= |first| <= 4
    requires |first| == 1 ==> Between(first[0], 0, 0x7F)
    requires |first| == 2 ==> Between(first[0], 0xC2, 0xDF) && IsTail(first[1])
    requires |first| == 3 ==> IsThree(first[0], first[1], first[2])
    requires |first| == 4 ==> IsFour(first[0], first[1], first[2], first[3])
    ensures CharLength(first + rest) == |first|
  {
  }

  lemma EncodingIsChar(u: nat, rest: string)
    requires IsScalar(u)
    ensures CharLength(Encoding(u) + rest) == |Encoding(u)|
  {
    if 0x80 <= u < 0x800 {
      TailIsTail(u);
    } else if 0x800 <= u < 0x1_0000 {
      EncodingIsThree(u);
    } else if 0x1_0000 <= u {
      EncodingIsFour(u);
    }
    LengthOfChar(Encoding(u), rest);
  }

  // Six more bits.
  lemma SixBits(high: nat, low: nat)
    requires low < 0x40
    ensures (high * 0x40 + low) / 0x40 == high && (high * 0x40 + low) % 0x40 == low
  {
  }

  lemma TwelveBits(u: nat)
    ensures u / 0x40 / 0x40 == u / 0x1000 && u / 0x1000 / 0x40 == u / 0x4_0000
  {
  }

  /** The character that bytes of the grammar stand for. */
  lemma CharIsEncoding(s: string) returns (u: nat)
    requires s != "" && CharLength(s) > 0
    ensures IsScalar(u) && Encoding(u) == s[..CharLength(s)]
  {
    if CharLength(s) == 1 {
      u := s[0] as int;
    } else if CharLength(s) == 2 {
      u := (s[0] as int - 0xC0) * 0x40 + (s[1] as int - 0x80);
      SixBits(s[0] as int - 0xC0, s[1] as int - 0x80);
    } else if CharLength(s) == 3 {
      u := ThreeIsEncoding(s[0], s[1], s[2]);
    } else {
      u := FourIsEncoding(s[0], s[1], s[2], s[3]);
    }
  }

  lemma ThreeIsEncoding(a: char, b: char, c: char) returns (u: nat)
    requires IsThree(a, b, c)
    ensures IsScalar(u) && Encoding(u) == [a, b, c]
  {
    var u2 := (a as int - 0xE0) * 0x40 + (b as int - 0x80);
    u := u2 * 0x40 + (c as int - 0x80);
    SixBits(a as int - 0xE0, b as int - 0x80);
    SixBits(u2, c as int - 0x80);
    TwelveBits(u);
  }

  lemma FourIsEncoding(a: char, b: char, c: char, d: char) returns (u: nat)
    requires IsFour(a, b, c, d)
    ensures IsScalar(u) && Encoding(u) == [a, b, c, d]
  {
    var u3 := (a as int - 0xF0) * 0x40 + (b as int - 0x80);
    var u2 := u3 * 0x40 + (c as int - 0x80);
    u := u2 * 0x40 + (d as int - 0x80);
    SixBits(a as int - 0xF0, b as int - 0x80);
    SixBits(u3, c as int - 0x80);
    SixBits(u2, d as int - 0x80);
    TwelveBits(u);
  }

  lemma {:induction false} EncodedIsUtf8(text: seq<nat>)
    requires AreScalars(text)
    ensures IsUtf8(Encoded(text))
  {
    if text != [] {
      var first, rest := Encoding(text[0]), Encoded(text[1..]);
      EncodedIsUtf8(text[1..]);
      EncodingIsChar(text[0], rest);
      assert (first + rest)[|first|..] == rest;
    }
  }

  lemma {:induction false} Utf8IsEncoded(s: string) returns (text: seq<nat>)
    requires IsUtf8(s)
    ensures AreScalars(text) && Encoded(text) == s
  {
    if s == "" {
      return [];
    }
    var u := CharIsEncoding(s);
    var others := Utf8IsEncoded(s[CharLength(s)..]);
    text := [u] + others;
    assert text[1..] == others;
    assert s[..CharLength(s)] + s[CharLength(s)..] == s;
  }

  /** A byte string is UTF-8 exactly if it encodes some characters. */
  lemma IsUtf8Means(s: string)
    ensures IsUtf8(s) <==> exists text :: AreScalars(text) && Encoded(text) == s
  {
    if IsUtf8(s) {
      var text := Utf8IsEncoded(s);
      assert AreScalars(text) && Encoded(text) == s;
    }
    if text :| AreScalars(text) && Encoded(text) == s {
      EncodedIsUtf8(text);
    }
  }

  // ----- one byte at a time -----

  /** What may come next. */
  datatype Expected =
    | Char          // a new character, or the end
    | Tails(n: nat) // this many and one more tail bytes
    | Second(low: nat, high: nat, n: nat) // a tail byte in this range, then n + 1 more
    | Nothing

  function Next(q: Expected, c: char): Expected {
    match q
    case Char =>
      if Between(c, 0, 0x7F) then Char
      else if Between(c, 0xC2, 0xDF) then Tails(0)
      else if Between(c, 0xE0, 0xE0) then Second(0xA0, 0xBF, 0)
      else if Between(c, 0xED, 0xED) then Second(0x80, 0x9F, 0)
      else if Between(c, 0xE1, 0xEF) then Tails(1)
      else if Between(c, 0xF0, 0xF0) then Second(0x90, 0xBF, 1)
      else if Between(c, 0xF1, 0xF3) then Tails(2)
      else if Between(c, 0xF4, 0xF4) then Second(0x80, 0x8F, 1)
      else Nothing
    case Tails(n) => if !IsTail(c) then Nothing else if n == 0 then Char else Tails(n - 1)
    case Second(low, high, n) => if IsTail(c) && Between(c, low, high) then Tails(n) else Nothing
    case Nothing => Nothing
  }

  function Read(q: Expected, s: string): Expected
    decreases |s|
  {
    if s == "" then q else Read(Next(q, s[0]), s[1..])
  }

  lemma {:induction false} ReadConcat(q: Expected, a: string, b: string)
    ensures Read(q, a + b) == Read(Read(q, a), b)
    decreases |a|
  {
    if a == "" {
      assert a + b == b;
    } else {
      assert (a + b)[1..] == a[1..] + b;
      ReadConcat(Next(q, a[0]), a[1..], b);
    }
  }

  lemma {:induction false} NothingStays(s: string)
    ensures Read(Nothing, s) == Nothing
  {
    if s != "" {
      NothingStays(s[1..]);
    }
  }

  lemma ReadOne(q: Expected, s: string)
    requires s != ""
    ensures Read(q, s) == Read(Next(q, s[0]), s[1..])
  {
  }

  // Up to four bytes read one after the other.
  lemma ReadFour(s: string)
    ensures |s| >= 1 ==> Read(Char, s) == Read(Next(Char, s[0]), s[1..])
    ensures |s| >= 2 ==> Read(Char, s) == Read(Next(Next(Char, s[0]), s[1]), s[2..])
    ensures |s| >= 3 ==> Read(Char, s) == Read(Next(Next(Next(Char, s[0]), s[1]), s[2]), s[3..])
    ensures |s| >= 4 ==> Read(Char, s) == Read(Next(Next(Next(Next(Char, s[0]), s[1]), s[2]), s[3]), s[4..])
  {
    if |s| >= 2 {
      assert s[1..][1..] == s[2..];
    }
    if |s| >= 3 {
      assert s[2..][1..] == s[3..];
    }
    if |s| >= 4 {
      assert s[3..][1..] == s[4..];
    }
  }

  /** Reading a first character leaves the reader where it was; without one it never comes
      back. */
  lemma ReadFirstChar(s: string)
    requires s != ""
    ensures CharLength(s) > 0 ==> Read(Char, s) == Read(Char, s[CharLength(s)..])
    ensures CharLength(s) == 0 ==> Read(Char, s) != Char
  {
    ReadFour(s);
    if CharLength(s) == 0 {
      NothingStays(s[1..]);
      if |s| >= 2 {
        NothingStays(s[2..]);
      }
      if |s| >= 3 {
        NothingStays(s[3..]);
      }
      if |s| >= 4 {
        NothingStays(s[4..]);
      }
    }
  }

  lemma {:induction false} ReadMeans(s: string)
    ensures IsUtf8(s) <==> Read(Char, s) == Char
  {
    if s != "" {
      ReadFirstChar(s);
      if CharLength(s) > 0 {
        ReadMeans(s[CharLength(s)..]);
      }
    }
  }

  // ----- putting texts together -----

  predicate IsAscii(s: string) {
    forall k :: 0 <= k < |s| ==> Between(s[k], 0, 0x7F)
  }

  lemma {:induction false} ReadAscii(s: string)
    requires IsAscii(s)
    ensures Read(Char, s) == Char
  {
    if s != "" {
      ReadAscii(s[1..]);
    }
  }

  lemma AsciiIsUtf8(s: string)
    requires IsAscii(s)
    ensures IsUtf8(s)
  {
    ReadAscii(s);
    ReadMeans(s);
  }

  /** No character crosses an ASCII byte. */
  lemma Utf8Concat(a: string, b: string)
    requires b == "" || Between(b[0], 0, 0x7F)
    ensures IsUtf8(a + b) <==> IsUtf8(a) && IsUtf8(b)
  {
    ReadMeans(a);
    ReadMeans(b);
    ReadMeans(a + b);
    ReadConcat(Char, a, b);
    if b != "" {
      NothingStays(b[1..]);
      ReadOne(Read(Char, a), b);
    }
  }

  /** Texts joined by an ASCII byte. */
  lemma Utf8Joined(a: string, c: char, b: string)
    requires Between(c, 0, 0x7F)
    ensures IsUtf8(a + [c] + b) <==> IsUtf8(a) && IsUtf8(b)
  {
    Utf8Concat(a, [c] + b);
    assert a + ([c] + b) == a + [c] + b;
    ReadMeans(b);
    ReadMeans([c] + b);
    ReadOne(Char, [c] + b);
  }

  lemma Utf8Around(front: string, text: string, back: string)
    requires IsAscii(front) && IsAscii(back)
    ensures IsUtf8(front + text + back) <==> IsUtf8(text)
  {
    AsciiIsUtf8(back);
    Utf8Concat(front + text, back);
    ReadAscii(front);
    ReadConcat(Char, front, text);
    ReadMeans(front + text);
    ReadMeans(text);
  }
}
