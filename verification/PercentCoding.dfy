/** `percent_decode` (src/http.cpp): percent-encoding as in section 2.1 of RFC 3986, plus
    the form convention that `+` means a space.
 */
module PercentCoding {
  import opened Text

  predicate IsRawControl(c: char) {
    c as int < 0x20 || c as int == 0x7f
  }

  /** What a complete input decodes to; None where the program rejects it. */
  function Decode(input: string): Option<string> {
    if input == "" then Some("")
    else if input[0] == '+' then Prefixed(" ", Decode(input[1..]))
    else if input[0] == '%' then
      if |input| <= 2 then None
      else
        var hi, lo := HexVal(input[1]), HexVal(input[2]);
        if hi < 0 || lo < 0 then None
        else if 16 * hi + lo == 0 then None
        else Prefixed([(16 * hi + lo) as char], Decode(input[3..]))
    else if IsRawControl(input[0]) then None
    else Prefixed([input[0]], Decode(input[1..]))
  }

  lemma PrefixedTwice(a: string, b: string, rest: Option<string>)
    ensures Prefixed(a, Prefixed(b, rest)) == Prefixed(a + b, rest)
  {
    if rest.Some? {
      assert a + (b + rest.value) == (a + b) + rest.value;
    }
  }

  lemma PrefixedEmpty(rest: Option<string>)
    ensures Prefixed("", rest) == rest
  {
    if rest.Some? {
      assert "" + rest.value == rest.value;
    }
  }

  /** The decoding loop, byte by byte, appending to `out`. */
  method PercentDecode(input: string) returns (ok: bool, out: string)
    ensures ok <==> Decode(input).Some?
    ensures ok ==> Decode(input) == Some(out)
  {
    out := "";
    var i := 0;
    assert input[0..] == input;
    PrefixedEmpty(Decode(input));
    while i < |input|
      invariant 0 <= i <= |input|
      invariant Decode(input) == Prefixed(out, Decode(input[i..]))
    {
      var c := input[i];
      var tail := input[i..];
      if c == '+' {
        PrefixedTwice(out, " ", Decode(tail[1..]));
        assert tail[1..] == input[i + 1..];
        out := out + " ";
        i := i + 1;
      } else if c == '%' {
        if i + 2 >= |input| {
          return false, out;
        }
        var hi, lo := HexVal(input[i + 1]), HexVal(input[i + 2]);
        if hi < 0 || lo < 0 {
          return false, out;
        }
        if 16 * hi + lo == 0 {
          return false, out;
        }
        var decoded := (16 * hi + lo) as char;
        PrefixedTwice(out, [decoded], Decode(tail[3..]));
        assert tail[3..] == input[i + 3..];
        out := out + [decoded];
        i := i + 3;
      } else if IsRawControl(c) {
        return false, out;
      } else {
        PrefixedTwice(out, [c], Decode(tail[1..]));
        assert tail[1..] == input[i + 1..];
        out := out + [c];
        i := i + 1;
      }
    }
    assert out + "" == out;
    return true, out;
  }

  // ----- every encoder -----

  /** How an encoder may write one byte: as it is, a space as `+`, or `%XX` with either
      case for each hex digit. */
  datatype Form = Plain | Plus | Escaped(upperHigh: bool, upperLow: bool)

  predicate Allowed(c: char, form: Form) {
    match form
    case Plain => c != '%' && c != '+' && c as int >= 0x20 && c as int != 0x7f
    case Plus => c == ' '
    case Escaped(_, _) => 0 < c as int < 256
  }

  predicate AllAllowed(text: string, forms: seq<Form>) {
    |text| == |forms| && forall k :: 0 <= k < |text| ==> Allowed(text[k], forms[k])
  }

  function EncodeByte(c: char, form: Form): (r: string)
    requires Allowed(c, form)
  {
    match form
    case Plain => [c]
    case Plus => "+"
    case Escaped(h, l) => ['%', HexDigit(c as int / 16, h), HexDigit(c as int % 16, l)]
  }

  function Encode(text: string, forms: seq<Form>): string
    requires AllAllowed(text, forms)
  {
    if text == "" then ""
    else EncodeByte(text[0], forms[0]) + Encode(text[1..], forms[1..])
  }

  function Escapes(forms: seq<Form>): nat {
    if forms == [] then 0
    else (if forms[0].Escaped? then 1 else 0) + Escapes(forms[1..])
  }

  lemma DecodeOneEncodedByte(c: char, form: Form, rest: string)
    requires Allowed(c, form)
    ensures Decode(EncodeByte(c, form) + rest) == Prefixed([c], Decode(rest))
  {
    var s := EncodeByte(c, form) + rest;
    match form {
      case Plain =>
        assert s[1..] == rest;
      case Plus =>
        assert s[1..] == rest;
      case Escaped(h, l) =>
        assert s[3..] == rest;
        HexValOfHexDigit(c as int / 16, h);
        HexValOfHexDigit(c as int % 16, l);
        assert (16 * (c as int / 16) + c as int % 16) as char == c;
    }
  }

  lemma EncodeSplits(text: string, forms: seq<Form>)
    requires AllAllowed(text, forms) && text != ""
    ensures AllAllowed(text[1..], forms[1..]) && Allowed(text[0], forms[0])
    ensures Encode(text, forms) == EncodeByte(text[0], forms[0]) + Encode(text[1..], forms[1..])
  {
  }

  lemma FirstByteDecodes(c: char, form: Form, rest: string, tail: string)
    requires Allowed(c, form) && Decode(rest) == Some(tail)
    ensures Decode(EncodeByte(c, form) + rest) == Some([c] + tail)
  {
    DecodeOneEncodedByte(c, form, rest);
  }

  /** Decoding undoes every admissible encoder. */
  lemma {:induction false} DecodeUndoesEncode(text: string, forms: seq<Form>)
    requires AllAllowed(text, forms)
    ensures Decode(Encode(text, forms)) == Some(text)
  {
    if text != "" {
      EncodeSplits(text, forms);
      DecodeUndoesEncode(text[1..], forms[1..]);
      FirstByteDecodes(text[0], forms[0], Encode(text[1..], forms[1..]), text[1..]);
      assert [text[0]] + text[1..] == text;
    }
  }

  lemma {:induction false} EncodedLength(text: string, forms: seq<Form>)
    requires AllAllowed(text, forms)
    ensures |Encode(text, forms)| == |text| + 2 * Escapes(forms)
  {
    if text != "" {
      EncodedLength(text[1..], forms[1..]);
    }
  }

  predicate IsUpperHex(h: char) {
    'A' <= h <= 'F'
  }

  /** The choices an encoder must have made to produce an accepted input. */
  function FormsOf(input: string): seq<Form>
  {
    if input == "" then []
    else if input[0] == '+' then [Plus] + FormsOf(input[1..])
    else if input[0] == '%' then
      if |input| <= 2 then []
      else [Escaped(IsUpperHex(input[1]), IsUpperHex(input[2]))] + FormsOf(input[3..])
    else [Plain] + FormsOf(input[1..])
  }

  lemma HexDigitOfHexVal(h: char)
    requires HexVal(h) >= 0
    ensures HexVal(h) < 16
    ensures HexDigit(HexVal(h), IsUpperHex(h)) == h
  {
  }

  lemma EncodeCons(c: char, form: Form, text: string, forms: seq<Form>)
    requires Allowed(c, form) && AllAllowed(text, forms)
    ensures AllAllowed([c] + text, [form] + forms)
    ensures Encode([c] + text, [form] + forms) == EncodeByte(c, form) + Encode(text, forms)
  {
    assert ([c] + text)[1..] == text;
    assert ([form] + forms)[1..] == forms;
  }

  /** Whatever the decoder accepts is the encoding of what it returns. */
  lemma {:induction false} AcceptedIsEncoded(input: string)
    requires Decode(input).Some?
    ensures AllAllowed(Decode(input).value, FormsOf(input))
    ensures Encode(Decode(input).value, FormsOf(input)) == input
  {
    if input == "" {
    } else if input[0] == '+' {
      AcceptedIsEncoded(input[1..]);
      EncodeCons(' ', Plus, Decode(input[1..]).value, FormsOf(input[1..]));
    } else if input[0] == '%' {
      AcceptedIsEncoded(input[3..]);
      EscapeIsEncoded(input);
      var form := Escaped(IsUpperHex(input[1]), IsUpperHex(input[2]));
      var c := (16 * HexVal(input[1]) + HexVal(input[2])) as char;
      EncodeCons(c, form, Decode(input[3..]).value, FormsOf(input[3..]));
      assert input[..3] + input[3..] == input;
    } else {
      AcceptedIsEncoded(input[1..]);
      EncodeCons(input[0], Plain, Decode(input[1..]).value, FormsOf(input[1..]));
    }
  }

  lemma EscapeIsEncoded(input: string)
    requires Decode(input).Some? && input != "" && input[0] == '%'
    ensures |input| > 2 && HexVal(input[1]) >= 0 && HexVal(input[2]) >= 0
    ensures 0 <= 16 * HexVal(input[1]) + HexVal(input[2]) < 256
    ensures var c := (16 * HexVal(input[1]) + HexVal(input[2])) as char;
            var form := Escaped(IsUpperHex(input[1]), IsUpperHex(input[2]));
            && Allowed(c, form) && EncodeByte(c, form) == input[..3]
            && Decode(input[3..]).Some?
            && Decode(input).value == [c] + Decode(input[3..]).value
  {
    HexDigitOfHexVal(input[1]);
    HexDigitOfHexVal(input[2]);
    var hi, lo := HexVal(input[1]), HexVal(input[2]);
    var c := (16 * hi + lo) as char;
    assert c as int / 16 == hi && c as int % 16 == lo;
  }

  /** The decoder accepts exactly the outputs of admissible encoders, and returns what was
      encoded. */
  lemma DecodeExactlyInvertsEncoders(input: string, text: string)
    ensures Decode(input) == Some(text)
            <==> exists forms :: AllAllowed(text, forms) && Encode(text, forms) == input
  {
    if Decode(input) == Some(text) {
      AcceptedIsEncoded(input);
    }
    forall forms | AllAllowed(text, forms) && Encode(text, forms) == input
      ensures Decode(input) == Some(text)
    {
      DecodeUndoesEncode(text, forms);
    }
  }

  /** A decoded text never holds a NUL, and is two bytes shorter per escape. */
  lemma DecodedIsNulFree(input: string)
    requires Decode(input).Some?
    ensures 0 as char !in Decode(input).value
    ensures |Decode(input).value| == |input| - 2 * Escapes(FormsOf(input))
  {
    AcceptedIsEncoded(input);
    EncodedLength(Decode(input).value, FormsOf(input));
    var text, forms := Decode(input).value, FormsOf(input);
    forall k | 0 <= k < |text| ensures text[k] != 0 as char {
      assert Allowed(text[k], forms[k]);
    }
  }

  /** A byte the encoder may not leave as it is can only occur in its output as part of a
      `+` or an escape; a byte it never writes does not occur at all. */
  lemma {:induction false} EncodedAvoids(text: string, forms: seq<Form>, c: char)
    requires AllAllowed(text, forms)
    requires HexVal(c) < 0 && c != '%' && c != '+'
    requires forall k :: 0 <= k < |text| && text[k] == c ==> !forms[k].Plain?
    ensures c !in Encode(text, forms)
  {
    if text != "" {
      EncodedAvoids(text[1..], forms[1..], c);
      if forms[0].Escaped? {
        HexValOfHexDigit(text[0] as int / 16, forms[0].upperHigh);
        HexValOfHexDigit(text[0] as int % 16, forms[0].upperLow);
      }
    }
  }
}
