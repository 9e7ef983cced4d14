/** `json_escape` and `sanitize_header_value` (src/text_util.cpp). */
module TextUtil {
  import opened Text
  import U = Utf8

  /** What `json_escape` writes for one byte. */
  function EscapeByte(c: char): string {
    if c == '\"' then "\\\""
    else if c == '\\' then "\\\\"
    else if c as int == 8 then "\\b"
    else if c as int == 12 then "\\f"
    else if c == '\n' then "\\n"
    else if c == '\r' then "\\r"
    else if c == '\t' then "\\t"
    else if c as int < 0x20 then ['\\', 'u', '0', '0', HexDigit(c as int / 16, false), HexDigit(c as int % 16, false)]
    else [c]
  }

  function JsonEscape(s: string): string {
    if s == "" then "" else EscapeByte(s[0]) + JsonEscape(s[1..])
  }

  /** A byte that is written as it is. */
  predicate IsPlain(c: char) {
    c != '\"' && c != '\\' && c as int >= 0x20
  }

  lemma {:induction false} PlainIsUnescaped(s: string)
    requires forall k :: 0 <= k < |s| ==> IsPlain(s[k])
    ensures JsonEscape(s) == s
  {
    if s != "" {
      PlainIsUnescaped(s[1..]);
      assert s == [s[0]] + s[1..];
    }
  }

  lemma EscapeStep(done: string, input: string, i: nat)
    requires i < |input|
    ensures done + JsonEscape(input[i..]) == (done + EscapeByte(input[i])) + JsonEscape(input[i + 1..])
  {
    assert input[i..][1..] == input[i + 1..];
  }

  method EscapeJson(input: string) returns (out: string)
    ensures out == JsonEscape(input)
  {
    out := "";
    for i := 0 to |input|
      invariant JsonEscape(input) == out + JsonEscape(input[i..])
    {
      var c := input[i];
      var piece: string;
      if c == '\"' {
        piece := "\\\"";
      } else if c == '\\' {
        piece := "\\\\";
      } else if c as int == 8 {
        piece := "\\b";
      } else if c as int == 12 {
        piece := "\\f";
      } else if c == '\n' {
        piece := "\\n";
      } else if c == '\r' {
        piece := "\\r";
      } else if c == '\t' {
        piece := "\\t";
      } else if c as int < 0x20 {
        piece := ['\\', 'u', '0', '0', HexDigit(c as int / 16, false), HexDigit(c as int % 16, false)];
      } else {
        piece := [c];
      }
      EscapeStep(out, input, i);
      out := out + piece;
    }
  }

  // ----- a reference reader of JSON strings -----

  /** The byte an escape of two characters stands for. */
  function ShortEscape(c: char): Option<char> {
    if c == '\"' || c == '\\' || c == '/' then Some(c)
    else if c == 'b' then Some(8 as char)
    else if c == 'f' then Some(12 as char)
    else if c == 'n' then Some('\n')
    else if c == 'r' then Some('\r')
    else if c == 't' then Some('\t')
    else None
  }

  function Before(c: char, rest: Option<(string, string)>): Option<(string, string)> {
    match rest
    case None => None
    case Some((text, after)) => Some(([c] + text, after))
  }

  /** Reads a string behind its opening quote (section 7 of RFC 8259): its bytes and what
      follows the closing quote.  Escapes above U+007F, which would stand for several
      bytes, are not read. */
  function ReadString(s: string): Option<(string, string)> {
    if s == "" then None
    else if s[0] == '\"' then Some(("", s[1..]))
    else if s[0] as int < 0x20 then None
    else if s[0] != '\\' then Before(s[0], ReadString(s[1..]))
    else if |s| < 2 then None
    else if s[1] != 'u' then
      match ShortEscape(s[1])
      case None => None
      case Some(c) => Before(c, ReadString(s[2..]))
    else if |s| < 6 || s[2] != '0' || s[3] != '0' || !(0 <= HexVal(s[4]) < 8) || HexVal(s[5]) < 0 then None
    else Before((16 * HexVal(s[4]) + HexVal(s[5])) as char, ReadString(s[6..]))
  }

  lemma ReadEscapedByte(c: char, tail: string)
    ensures ReadString(EscapeByte(c) + tail) == Before(c, ReadString(tail))
  {
    var s := EscapeByte(c) + tail;
    if |EscapeByte(c)| == 6 {
      HexValOfHexDigit(c as int / 16, false);
      HexValOfHexDigit(c as int % 16, false);
      assert s[6..] == tail;
    } else if |EscapeByte(c)| == 2 {
      assert s[2..] == tail;
    } else {
      assert s[1..] == tail;
    }
  }

  lemma EscapedFirst(text: string, after: string)
    requires text != ""
    ensures JsonEscape(text) + ['\"'] + after == EscapeByte(text[0]) + (JsonEscape(text[1..]) + ['\"'] + after)
  {
  }

  /** Reading undoes escaping, byte for byte and for every byte string; in particular no
      bare quote and no raw control byte is written. */
  lemma {:induction false} ReadUndoesEscape(text: string, after: string)
    ensures ReadString(JsonEscape(text) + ['\"'] + after) == Some((text, after))
  {
    if text == "" {
      assert (['\"'] + after)[1..] == after;
      assert JsonEscape(text) + ['\"'] + after == ['\"'] + after;
    } else {
      var tail := JsonEscape(text[1..]) + ['\"'] + after;
      ReadUndoesEscape(text[1..], after);
      EscapedFirst(text, after);
      ReadEscapedByte(text[0], tail);
      assert [text[0]] + text[1..] == text;
    }
  }

  // ----- escaping and UTF-8 -----

  lemma EscapeIsAscii(c: char)
    requires U.Between(c, 0, 0x7F)
    ensures U.IsAscii(EscapeByte(c)) && EscapeByte(c) != ""
  {
  }

  /** To a reader of UTF-8 the escape of a byte is as good as the byte. */
  lemma EscapeReads(q: U.Expected, c: char)
    ensures var next := U.Read(q, EscapeByte(c));
            if c as int <= 0x7F then next == (if q == U.Char then U.Char else U.Nothing) else next == U.Next(q, c)
  {
    var s := EscapeByte(c);
    U.ReadOne(q, s);
    if c as int <= 0x7F {
      EscapeIsAscii(c);
      U.ReadAscii(s);
      U.NothingStays(s[1..]);
    } else {
      assert s[1..] == [];
    }
  }

  lemma {:induction false} EscapeKeepsReading(q: U.Expected, s: string)
    ensures U.Read(q, JsonEscape(s)) == U.Char <==> U.Read(q, s) == U.Char
    decreases |s|
  {
    if s != "" {
      var next := U.Next(q, s[0]);
      U.ReadConcat(q, EscapeByte(s[0]), JsonEscape(s[1..]));
      EscapeReads(q, s[0]);
      EscapeKeepsReading(next, s[1..]);
    }
  }

  /** Escaping neither makes nor breaks UTF-8. */
  lemma EscapeKeepsUtf8(s: string)
    ensures U.IsUtf8(JsonEscape(s)) <==> U.IsUtf8(s)
  {
    U.ReadMeans(s);
    U.ReadMeans(JsonEscape(s));
    EscapeKeepsReading(U.Char, s);
  }

  // ----- header values -----

  predicate IsPrintable(c: char) {
    c as int >= 0x20 && c as int != 0x7f
  }

  /** The bytes `sanitize_header_value` lets through, in order. */
  function Sanitized(s: string): (r: string)
    ensures |r| <= |s|
    ensures forall k :: 0 <= k < |r| ==> IsPrintable(r[k])
  {
    if s == "" then ""
    else if IsPrintable(s[0]) then [s[0]] + Sanitized(s[1..])
    else Sanitized(s[1..])
  }

  method SanitizeHeaderValue(input: string) returns (out: string)
    ensures out == Sanitized(input)
  {
    out := "";
    for i := 0 to |input|
      invariant Sanitized(input) == out + Sanitized(input[i..])
    {
      var c := input[i];
      assert input[i..][1..] == input[i + 1..];
      if c == '\r' || c == '\n' || c as int < 0x20 || c as int == 0x7f {
        continue;
      }
      assert out + ([c] + Sanitized(input[i + 1..])) == (out + [c]) + Sanitized(input[i + 1..]);
      out := out + [c];
    }
  }

  lemma {:induction false} SanitizedKeepsReading(q: U.Expected, s: string)
    requires U.Read(q, s) == U.Char
    ensures U.Read(q, Sanitized(s)) == U.Char
    decreases |s|
  {
    if s != "" {
      if !IsPrintable(s[0]) && q != U.Char {
        U.NothingStays(s[1..]);
      } else {
        SanitizedKeepsReading(U.Next(q, s[0]), s[1..]);
      }
      assert IsPrintable(s[0]) ==> Sanitized(s)[1..] == Sanitized(s[1..]);
    }
  }

  /** Sanitizing a UTF-8 text takes away whole characters. */
  lemma SanitizedKeepsUtf8(s: string)
    requires U.IsUtf8(s)
    ensures U.IsUtf8(Sanitized(s))
  {
    U.ReadMeans(s);
    U.ReadMeans(Sanitized(s));
    SanitizedKeepsReading(U.Char, s);
  }

  lemma {:induction false} PrintableIsKept(s: string)
    requires forall k :: 0 <= k < |s| ==> IsPrintable(s[k])
    ensures Sanitized(s) == s
  {
    if s != "" {
      PrintableIsKept(s[1..]);
      assert s == [s[0]] + s[1..];
    }
  }

  /** Sanitizing works byte by byte: the controls below 0x20 and 0x7F go, all else stays where
      it is. */
  lemma {:induction false} SanitizedBytewise(a: string, b: string, c: char)
    ensures Sanitized(a + b) == Sanitized(a) + Sanitized(b)
    ensures Sanitized([c]) == if c as int < 0x20 || c as int == 0x7F then "" else [c]
  {
    assert [c][1..] == "";
    if a == "" {
      assert a + b == b;
    } else {
      assert (a + b)[1..] == a[1..] + b;
      SanitizedBytewise(a[1..], b, c);
    }
  }

  /** Sanitizing changes nothing exactly when every byte is printable already; so doing it
      twice is doing it once. */
  lemma SanitizedFixedPoint(s: string)
    ensures Sanitized(s) == s <==> forall k :: 0 <= k < |s| ==> s[k] as int >= 0x20 && s[k] as int != 0x7F
    ensures Sanitized(Sanitized(s)) == Sanitized(s)
  {
    if forall k :: 0 <= k < |s| ==> IsPrintable(s[k]) {
      PrintableIsKept(s);
    }
    PrintableIsKept(Sanitized(s));
  }
}
