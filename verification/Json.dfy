/** A reference reader for flat JSON objects (RFC 8259), in three parts: a scanner that takes
    strings and unquoted lexemes apart, the grammar every lexeme has to meet, and the UTF-8
    the whole text has to be.
 */
module Json {
  import opened Text
  import opened TextUtil
  import U = Utf8

  datatype Value = Str(text: string) | Token(text: string)

  datatype Member = Member(key: string, value: Value)

  // ----- tokens -----

  /** How many digits a text starts with. */
  function DigitRun(s: string): (n: nat)
    ensures n <= |s|
    ensures forall k :: 0 <= k < n ==> IsDigit(s[k])
  {
    if s == "" || !IsDigit(s[0]) then 0 else 1 + DigitRun(s[1..])
  }

  predicate AllDigits(s: string) {
    s != "" && forall k :: 0 <= k < |s| ==> IsDigit(s[k])
  }

  /** int: no leading zero. */
  predicate IsInt(s: string) {
    AllDigits(s) && (s[0] == '0' ==> |s| == 1)
  }

  /** exp: empty, or e, an optional sign and digits. */
  predicate IsExp(s: string) {
    s == "" || ((s[0] == 'e' || s[0] == 'E')
                && AllDigits(if |s| > 1 && (s[1] == '+' || s[1] == '-') then s[2..] else s[1..]))
  }

  /** frac and exp behind the int of a number. */
  predicate IsFracExp(s: string) {
    if s != "" && s[0] == '.' then
      var n := DigitRun(s[1..]);
      n > 0 && IsExp(s[1 + n..])
    else IsExp(s)
  }

  /** number (section 6 of RFC 8259). */
  predicate IsNumber(t: string) {
    IsUnsigned(if t != "" && t[0] == '-' then t[1..] else t)
  }

  /** A number without its minus. */
  predicate IsUnsigned(u: string) {
    IsInt(u[..DigitRun(u)]) && IsFracExp(u[DigitRun(u)..])
  }

  /** A value that is no string, array or object (section 3 of RFC 8259). */
  predicate IsToken(t: string) {
    t == "null" || t == "true" || t == "false" || IsNumber(t)
  }

  /** What the scanner takes for one unquoted value, JSON or not. */
  predicate IsLexeme(t: string) {
    t != "" && forall k :: 0 <= k < |t| ==> t[k] != ',' && t[k] != '}' && t[k] != '\"'
  }

  predicate AreScannable(members: seq<Member>) {
    forall k :: 0 <= k < |members| ==> members[k].value.Token? ==> IsLexeme(members[k].value.text)
  }

  predicate HaveTokens(members: seq<Member>) {
    forall k :: 0 <= k < |members| ==> members[k].value.Token? ==> IsToken(members[k].value.text)
  }

  /** A member every part of which can stand in a JSON text. */
  predicate IsJson(m: Member) {
    U.IsUtf8(m.key) && if m.value.Str? then U.IsUtf8(m.value.text) else IsToken(m.value.text)
  }

  predicate AreJson(members: seq<Member>) {
    forall k :: 0 <= k < |members| ==> IsJson(members[k])
  }

  lemma {:induction false} DigitRunOf(digits: string, rest: string)
    requires forall k :: 0 <= k < |digits| ==> IsDigit(digits[k])
    requires rest == "" || !IsDigit(rest[0])
    ensures DigitRun(digits + rest) == |digits|
  {
    if digits == "" {
      assert digits + rest == rest;
    } else {
      assert (digits + rest)[1..] == digits[1..] + rest;
      DigitRunOf(digits[1..], rest);
    }
  }

  lemma UnsignedOfParts(whole: string, tail: string)
    requires IsInt(whole) && IsFracExp(tail)
    ensures IsUnsigned(whole + tail) && (whole + tail)[0] != '-'
  {
    assert tail == "" || !IsDigit(tail[0]);
    DigitRunOf(whole, tail);
    assert (whole + tail)[..|whole|] == whole && (whole + tail)[|whole|..] == tail;
  }

  lemma NumberOfUnsigned(negative: bool, u: string)
    requires u != "" && u[0] != '-' && IsUnsigned(u)
    ensures IsNumber((if negative then ['-'] else []) + u)
  {
    var t := (if negative then ['-'] else []) + u;
    assert (if negative then t[1..] else t) == u;
  }

  /** A number written from its parts. */
  lemma NumberOfParts(negative: bool, whole: string, tail: string)
    requires IsInt(whole) && IsFracExp(tail)
    ensures IsNumber((if negative then ['-'] else []) + whole + tail)
  {
    UnsignedOfParts(whole, tail);
    NumberOfUnsigned(negative, whole + tail);
    Reassociate(if negative then ['-'] else [], whole, tail);
  }

  lemma Reassociate(a: string, b: string, c: string)
    ensures a + (b + c) == a + b + c
  {
  }

  // ----- writing -----

  function Quoted(text: string): string {
    ['\"'] + JsonEscape(text) + ['\"']
  }

  function ValueText(v: Value): string {
    match v
    case Str(text) => Quoted(text)
    case Token(text) => text
  }

  function MemberText(m: Member): string {
    Quoted(m.key) + [':'] + ValueText(m.value)
  }

  /** Comma-separated texts and the closing brace. */
  function ListText(texts: seq<string>): string
    requires texts != []
  {
    if |texts| == 1 then texts[0] + ['}'] else texts[0] + ([','] + ListText(texts[1..]))
  }

  function MemberTexts(members: seq<Member>): (texts: seq<string>)
    ensures |texts| == |members|
    ensures forall k :: 0 <= k < |texts| ==> texts[k] == MemberText(members[k])
  {
    seq(|members|, k requires 0 <= k < |members| => MemberText(members[k]))
  }

  function ObjectText(members: seq<Member>): string
    requires members != []
  {
    ['{'] + ListText(MemberTexts(members))
  }

  // ----- reading -----

  /** Up to the next comma or closing brace. */
  function ScanToken(s: string): Option<(string, string)> {
    if s == "" || s[0] == '\"' then None
    else if s[0] == ',' || s[0] == '}' then Some(("", s))
    else Before(s[0], ScanToken(s[1..]))
  }

  function ScanValue(s: string): Option<(Value, string)> {
    if s != "" && s[0] == '\"' then
      match ReadString(s[1..])
      case None => None
      case Some((text, rest)) => Some((Str(text), rest))
    else
      match ScanToken(s)
      case None => None
      case Some((text, rest)) => if text == "" then None else Some((Token(text), rest))
  }

  function ScanMember(s: string): Option<(Member, string)> {
    if s == "" || s[0] != '\"' then None
    else
      match ReadString(s[1..])
      case None => None
      case Some((key, rest)) =>
        if rest == "" || rest[0] != ':' then None
        else
          match ScanValue(rest[1..])
          case None => None
          case Some((value, rest')) => Some((Member(key, value), rest'))
  }

  /** Comma-separated items up to a closing brace that ends the text; `read` reads one. */
  function ReadList<T>(s: string, most: nat, read: string -> Option<(T, string)>): Option<seq<T>>
    decreases most
  {
    match read(s)
    case None => None
    case Some((item, rest)) =>
      if rest == ['}'] then Some([item])
      else if rest == "" || rest[0] != ',' || most == 0 then None
      else
        match ReadList(rest[1..], most - 1, read)
        case None => None
        case Some(others) => Some([item] + others)
  }

  /** The members of a text that looks like one flat object and nothing else.  An object has
      fewer members than its text has bytes, which bounds the scanner. */
  function ScanObject(s: string): Option<seq<Member>> {
    if s == "" || s[0] != '{' then None else ReadList(s[1..], |s|, ScanMember)
  }

  /** The members of a text that is one flat JSON object: UTF-8 throughout (section 8.1 of
      RFC 8259), and with no other unquoted values than tokens. */
  function ReadObject(s: string): Option<seq<Member>> {
    match ScanObject(s)
    case None => None
    case Some(members) => if U.IsUtf8(s) && HaveTokens(members) then Some(members) else None
  }

  // ----- reading undoes writing -----

  lemma {:induction false} ScanTokenStops(t: string, rest: string)
    requires IsLexeme(t) || t == ""
    requires EndsItem(rest)
    ensures ScanToken(t + rest) == Some((t, rest))
  {
    if t == "" {
      assert t + rest == rest;
    } else {
      assert (t + rest)[1..] == t[1..] + rest;
      ScanTokenStops(t[1..], rest);
      assert [t[0]] + t[1..] == t;
    }
  }

  lemma ReadQuoted(text: string, rest: string)
    ensures Quoted(text) + rest != "" && (Quoted(text) + rest)[0] == '\"'
    ensures ReadString((Quoted(text) + rest)[1..]) == Some((text, rest))
  {
    assert (Quoted(text) + rest)[1..] == JsonEscape(text) + ['\"'] + rest;
    ReadUndoesEscape(text, rest);
  }

  lemma ScanStringValue(s: string, text: string, rest: string)
    requires s != "" && s[0] == '\"' && ReadString(s[1..]) == Some((text, rest))
    ensures ScanValue(s) == Some((Str(text), rest))
  {
  }

  lemma ScanTokenValue(s: string, text: string, rest: string)
    requires s != "" && s[0] != '\"' && ScanToken(s) == Some((text, rest)) && text != ""
    ensures ScanValue(s) == Some((Token(text), rest))
  {
  }

  lemma ScanValueText(v: Value, rest: string)
    requires v.Token? ==> IsLexeme(v.text)
    requires EndsItem(rest)
    ensures ScanValue(ValueText(v) + rest) == Some((v, rest))
  {
    match v {
      case Str(text) =>
        ReadQuoted(text, rest);
        ScanStringValue(Quoted(text) + rest, text, rest);
      case Token(text) =>
        ScanTokenStops(text, rest);
        ScanTokenValue(text + rest, text, rest);
    }
  }

  // A member from what its key and its value scan as.
  lemma ScanMemberOf(s: string, key: string, tail: string, value: Value, rest: string)
    requires s != "" && s[0] == '\"' && ReadString(s[1..]) == Some((key, tail))
    requires tail != "" && tail[0] == ':' && ScanValue(tail[1..]) == Some((value, rest))
    ensures ScanMember(s) == Some((Member(key, value), rest))
  {
  }

  lemma RegroupMember(key: string, value: string, rest: string)
    ensures key + [':'] + value + rest == key + ([':'] + (value + rest))
    ensures ([':'] + (value + rest))[1..] == value + rest
  {
  }

  lemma ScanMemberText(m: Member, rest: string)
    requires m.value.Token? ==> IsLexeme(m.value.text)
    requires EndsItem(rest)
    ensures ScanMember(MemberText(m) + rest) == Some((m, rest))
  {
    var tail := [':'] + (ValueText(m.value) + rest);
    RegroupMember(Quoted(m.key), ValueText(m.value), rest);
    ReadQuoted(m.key, tail);
    ScanValueText(m.value, rest);
    ScanMemberOf(Quoted(m.key) + tail, m.key, tail, m.value, rest);
  }

  predicate EndsItem(rest: string) {
    rest != "" && (rest[0] == ',' || rest[0] == '}')
  }

  /** A list is read back if each of its items is, in front of a comma or brace. */
  lemma {:induction false} ReadListText<T>(
      texts: seq<string>, items: seq<T>, most: nat, read: string -> Option<(T, string)>)
    requires texts != [] && |texts| == |items| && most + 1 >= |texts|
    requires forall k, rest :: 0 <= k < |texts| && EndsItem(rest) ==> read(texts[k] + rest) == Some((items[k], rest))
    ensures ReadList(ListText(texts), most, read) == Some(items)
  {
    if |texts| == 1 {
      assert EndsItem(['}']);
      assert read(texts[0] + ['}']) == Some((items[0], ['}']));
      assert [items[0]] == items;
    } else {
      var rest := [','] + ListText(texts[1..]);
      assert EndsItem(rest) && rest[1..] == ListText(texts[1..]);
      assert read(texts[0] + rest) == Some((items[0], rest));
      forall k, rest | 0 <= k < |texts[1..]| && EndsItem(rest)
        ensures read(texts[1..][k] + rest) == Some((items[1..][k], rest))
      {
        assert texts[1..][k] == texts[k + 1] && items[1..][k] == items[k + 1];
      }
      ReadListText(texts[1..], items[1..], most - 1, read);
      assert [items[0]] + items[1..] == items;
    }
  }

  lemma {:induction false} ListTextLength(texts: seq<string>)
    requires texts != []
    ensures |ListText(texts)| >= |texts|
  {
    if |texts| > 1 {
      ListTextLength(texts[1..]);
    }
  }

  /** Every flat object is scanned back exactly. */
  lemma ScanObjectText(members: seq<Member>)
    requires members != [] && AreScannable(members)
    ensures ScanObject(ObjectText(members)) == Some(members)
  {
    var s, texts := ObjectText(members), MemberTexts(members);
    assert s[1..] == ListText(texts);
    ListTextLength(texts);
    forall k, rest | 0 <= k < |texts| && EndsItem(rest)
      ensures ScanMember(texts[k] + rest) == Some((members[k], rest))
    {
      ScanMemberText(members[k], rest);
    }
    ReadListText(texts, members, |s|, ScanMember);
  }

  // ----- which objects are UTF-8 -----

  lemma NumberIsAscii(t: string)
    requires IsNumber(t)
    ensures U.IsAscii(t)
  {
    var u := if t[0] == '-' then t[1..] else t;
    UnsignedIsAscii(u);
    assert t[0] == '-' ==> t == [t[0]] + u;
  }

  lemma ExpIsAscii(s: string)
    requires IsExp(s)
    ensures U.IsAscii(s)
  {
    if s != "" {
      var signed := |s| > 1 && (s[1] == '+' || s[1] == '-');
      assert signed ==> s == s[..2] + s[2..];
      assert !signed ==> s == s[..1] + s[1..];
    }
  }

  lemma FracExpIsAscii(s: string)
    requires IsFracExp(s)
    ensures U.IsAscii(s)
  {
    if s != "" && s[0] == '.' {
      var n := DigitRun(s[1..]);
      ExpIsAscii(s[1 + n..]);
      assert s == s[..1] + s[1..][..n] + s[1 + n..];
    } else {
      ExpIsAscii(s);
    }
  }

  lemma UnsignedIsAscii(u: string)
    requires IsUnsigned(u)
    ensures U.IsAscii(u)
  {
    FracExpIsAscii(u[DigitRun(u)..]);
    assert u == u[..DigitRun(u)] + u[DigitRun(u)..];
  }

  lemma TokenIsUtf8(t: string)
    requires IsToken(t)
    ensures U.IsUtf8(t)
  {
    if IsNumber(t) {
      NumberIsAscii(t);
    }
    U.AsciiIsUtf8(t);
  }

  lemma QuotedUtf8(text: string)
    ensures U.IsUtf8(Quoted(text)) <==> U.IsUtf8(text)
  {
    EscapeKeepsUtf8(text);
    U.Utf8Around(['\"'], JsonEscape(text), ['\"']);
  }

  lemma MemberUtf8(m: Member)
    requires m.value.Token? ==> IsToken(m.value.text)
    ensures U.IsUtf8(MemberText(m)) <==> IsJson(m)
  {
    QuotedUtf8(m.key);
    match m.value {
      case Str(text) => QuotedUtf8(text);
      case Token(text) => TokenIsUtf8(text);
    }
    U.Utf8Joined(Quoted(m.key), ':', ValueText(m.value));
  }

  predicate AllUtf8(texts: seq<string>) {
    forall k :: 0 <= k < |texts| ==> U.IsUtf8(texts[k])
  }

  lemma AllUtf8Cons(text: string, others: seq<string>)
    ensures AllUtf8([text] + others) <==> U.IsUtf8(text) && AllUtf8(others)
  {
    if AllUtf8([text] + others) {
      assert ([text] + others)[0] == text;
      forall k | 0 <= k < |others| ensures U.IsUtf8(others[k]) {
        assert ([text] + others)[k + 1] == others[k];
      }
    }
  }

  lemma {:induction false} ListUtf8(texts: seq<string>)
    requires texts != []
    ensures U.IsUtf8(ListText(texts)) <==> AllUtf8(texts)
  {
    if |texts| == 1 {
      U.Utf8Joined(texts[0], '}', "");
      assert texts[0] + ['}'] + "" == ListText(texts);
    } else {
      ListUtf8(texts[1..]);
      U.Utf8Joined(texts[0], ',', ListText(texts[1..]));
      assert texts[0] + [','] + ListText(texts[1..]) == ListText(texts);
      AllUtf8Cons(texts[0], texts[1..]);
      assert [texts[0]] + texts[1..] == texts;
    }
  }

  lemma MembersUtf8(members: seq<Member>)
    requires HaveTokens(members)
    ensures AllUtf8(MemberTexts(members)) <==> AreJson(members)
  {
    forall k | 0 <= k < |members| ensures U.IsUtf8(MemberTexts(members)[k]) <==> IsJson(members[k]) {
      MemberUtf8(members[k]);
    }
  }

  lemma ObjectUtf8(members: seq<Member>)
    requires members != [] && HaveTokens(members)
    ensures U.IsUtf8(ObjectText(members)) <==> AreJson(members)
  {
    MembersUtf8(members);
    ListUtf8(MemberTexts(members));
    U.Utf8Joined("", '{', ListText(MemberTexts(members)));
    assert "" + ['{'] + ListText(MemberTexts(members)) == ObjectText(members);
  }

  // A member whose key needs no escaping.
  lemma PlainMember(key: string, text: string)
    requires JsonEscape(key) == key && U.IsUtf8(key)
    ensures IsJson(Member(key, Str(text))) <==> U.IsUtf8(text)
    ensures MemberText(Member(key, Str(text)))
            == (['\"'] + key + ['\"']) + [':'] + (['\"'] + JsonEscape(text) + ['\"'])
  {
  }

  // An object of one member.
  lemma OneMember(m: Member)
    ensures AreJson([m]) <==> IsJson(m)
    ensures ObjectText([m]) == ['{'] + (MemberText(m) + ['}'])
  {
    assert [m][0] == m;
    assert MemberTexts([m]) == [MemberText(m)];
  }

  /** And it is JSON exactly if every unquoted value is a JSON token and every string is
      UTF-8. */
  lemma ReadObjectText(members: seq<Member>)
    requires members != [] && AreScannable(members)
    ensures ReadObject(ObjectText(members)) == if AreJson(members) then Some(members) else None
  {
    ScanObjectText(members);
    if HaveTokens(members) {
      ObjectUtf8(members);
    } else {
      assert !AreJson(members);
    }
  }
}
