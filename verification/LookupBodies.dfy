/** `build_json_body`, `build_ini_body` and `build_success_response` (src/server.cpp): the
    representations of a lookup result, and readers that recover it.
 */
module LookupBodies {
  import opened Text
  import opened TextUtil
  import opened GeoIpTypes
  import opened HttpResponse
  import J = Json
  import U = Utf8

  /** A named item of a result: text from outside, a number of ours, or a formatted
      floating-point number. */
  datatype Item =
    | TextItem(name: string, text: Option<string>)
    | NumberItem(name: string, number: Option<nat>)
    | FloatItem(name: string, token: Option<string>)

  /** The items of both bodies, in the order both write them. */
  function BodyItems(ip: string, r: LookupResult): seq<Item> {
    [ TextItem("ip", Some(ip)),
      TextItem("country_code", r.countryCode),
      TextItem("country_name", r.countryName),
      TextItem("continent_code", r.continentCode),
      NumberItem("asn", r.asn),
      TextItem("as_org", r.asOrg),
      TextItem("city_name", r.cityName),
      TextItem("postal_code", r.postalCode),
      FloatItem("latitude", r.latitude),
      FloatItem("longitude", r.longitude),
      NumberItem("accuracy_radius", r.accuracyRadius)]
  }

  /** The items of the response headers. */
  function HeaderItems(r: LookupResult): seq<Item> {
    [ TextItem("X-GeoIP-Country", r.countryCode),
      TextItem("X-GeoIP-Continent", r.continentCode),
      NumberItem("X-GeoIP-ASN", r.asn),
      TextItem("X-GeoIP-AS-Org", r.asOrg),
      TextItem("X-GeoIP-City", r.cityName),
      TextItem("X-GeoIP-Postal-Code", r.postalCode),
      FloatItem("X-GeoIP-Latitude", r.latitude),
      FloatItem("X-GeoIP-Longitude", r.longitude),
      NumberItem("X-GeoIP-Accuracy-Radius", r.accuracyRadius)]
  }

  /** A name that needs no escaping anywhere: letters, digits, `_` and `-`. */
  predicate IsItemName(name: string) {
    name != "" && forall k :: 0 <= k < |name| ==>
      'a' <= name[k] <= 'z' || 'A' <= name[k] <= 'Z' || name[k] == '_' || name[k] == '-'
  }

  predicate IsItem(i: Item) {
    IsItemName(i.name) && (i.FloatItem? && i.token.Some? ==> IsNumberText(i.token.value))
  }

  predicate AreItems(items: seq<Item>) {
    forall k :: 0 <= k < |items| ==> IsItem(items[k])
  }

  lemma BodyNames1()
    ensures IsItemName("ip") && IsItemName("country_code") && IsItemName("country_name")
    ensures IsItemName("continent_code") && IsItemName("asn") && IsItemName("as_org")
  {
  }

  lemma BodyNames2()
    ensures IsItemName("city_name") && IsItemName("postal_code") && IsItemName("latitude")
    ensures IsItemName("longitude") && IsItemName("accuracy_radius")
  {
  }

  lemma BodyItemsAreItems(ip: string, r: LookupResult)
    requires HasNumbers(r)
    ensures AreItems(BodyItems(ip, r))
  {
    BodyNames1();
    BodyNames2();
  }

  lemma HeaderNames1()
    ensures IsItemName("X-GeoIP-Country") && IsItemName("X-GeoIP-Continent") && IsItemName("X-GeoIP-ASN")
  {
  }

  lemma HeaderNames2()
    ensures IsItemName("X-GeoIP-AS-Org") && IsItemName("X-GeoIP-City") && IsItemName("X-GeoIP-Postal-Code")
  {
  }

  lemma HeaderNames3()
    ensures IsItemName("X-GeoIP-Latitude") && IsItemName("X-GeoIP-Longitude")
    ensures IsItemName("X-GeoIP-Accuracy-Radius")
  {
  }

  lemma HeaderItemsAreItems(r: LookupResult)
    requires HasNumbers(r)
    ensures AreItems(HeaderItems(r))
  {
    HeaderNames1();
    HeaderNames2();
    HeaderNames3();
  }

  // ----- the JSON body -----

  function ItemText(i: Item): string {
    match i
    case TextItem(_, text) => if text.Some? then ['\"'] + JsonEscape(text.value) + ['\"'] else "null"
    case NumberItem(_, number) => if number.Some? then Decimal(number.value) else "null"
    case FloatItem(_, token) => if token.Some? then token.value else "null"
  }

  function JsonTexts(items: seq<Item>): (texts: seq<string>)
    ensures |texts| == |items|
  {
    seq(|items|, k requires 0 <= k < |items| => (['\"'] + items[k].name + ['\"']) + [':'] + ItemText(items[k]))
  }

  function JsonBody(ip: string, r: LookupResult): string {
    ['{'] + J.ListText(JsonTexts(BodyItems(ip, r)))
  }

  /** What a client should read for an item: null when it is absent. */
  function ItemValue(i: Item): J.Value {
    match i
    case TextItem(_, text) => if text.Some? then J.Str(text.value) else J.Token("null")
    case NumberItem(_, number) => if number.Some? then J.Token(Decimal(number.value)) else J.Token("null")
    case FloatItem(_, token) => if token.Some? then J.Token(token.value) else J.Token("null")
  }

  function Members(items: seq<Item>): (members: seq<J.Member>)
    ensures |members| == |items|
    ensures forall k :: 0 <= k < |items| ==> members[k] == J.Member(items[k].name, ItemValue(items[k]))
  {
    seq(|items|, k requires 0 <= k < |items| => J.Member(items[k].name, ItemValue(items[k])))
  }

  // No number text is one of the three words of JSON.
  lemma NumberTextIsLexeme(t: string)
    requires IsNumberText(t)
    ensures J.IsLexeme(t) && t != "null" && (J.IsToken(t) <==> J.IsNumber(t))
  {
    assert |t| > 2 ==> IsNumberChar(t[0]) && IsNumberChar(t[2]);
    assert "null"[2] == 'l' && "true"[0] == 't' && "false"[2] == 'l';
  }

  lemma DecimalIsNumberText(n: nat)
    ensures IsNumberText(Decimal(n)) && J.IsNumber(Decimal(n))
  {
    var d := Finite(false, n, "", None);
    FormatIsNumberExactlyIfFinite(d);
    assert FormatDouble(d) == Decimal(n);
  }

  lemma ItemIsMember(i: Item)
    requires IsItem(i)
    ensures ItemText(i) == J.ValueText(ItemValue(i))
    ensures (['\"'] + i.name + ['\"']) + [':'] + ItemText(i) == J.MemberText(J.Member(i.name, ItemValue(i)))
    ensures ItemValue(i).Token? ==> J.IsLexeme(ItemValue(i).text)
  {
    PlainIsUnescaped(i.name);
    LexemeOfItem(i);
  }

  lemma NullIsToken()
    ensures J.IsLexeme("null") && J.IsToken("null")
  {
  }

  /** Only a coordinate can keep an item from being JSON. */
  lemma LexemeOfItem(i: Item)
    requires IsItem(i)
    ensures ItemValue(i).Token? ==> J.IsLexeme(ItemValue(i).text)
    ensures (ItemValue(i).Token? ==> J.IsToken(ItemValue(i).text))
            <==> (i.FloatItem? && i.token.Some? ==> J.IsNumber(i.token.value))
  {
    NullIsToken();
    match i {
      case TextItem(_, text) =>
      case NumberItem(_, number) =>
        if number.Some? {
          DecimalIsNumberText(number.value);
          NumberTextIsLexeme(Decimal(number.value));
        }
      case FloatItem(_, token) =>
        if token.Some? {
          NumberTextIsLexeme(token.value);
        }
    }
  }

  // ----- field by field -----

  /** The value a reader finds under a key. */
  function ValueOf(members: seq<J.Member>, key: string): Option<J.Value> {
    if members == [] then None
    else if members[0].key == key then Some(members[0].value)
    else ValueOf(members[1..], key)
  }

  function TextOrNull(text: Option<string>): J.Value {
    if text.Some? then J.Str(text.value) else J.Token("null")
  }

  function NumberOrNull(number: Option<nat>): J.Value {
    if number.Some? then J.Token(Decimal(number.value)) else J.Token("null")
  }

  function TokenOrNull(token: Option<string>): J.Value {
    if token.Some? then J.Token(token.value) else J.Token("null")
  }

  /** What a client reads about an address in JSON: eleven members, each field of the result
      under its own key. */
  predicate JsonTells(members: seq<J.Member>, ip: string, r: LookupResult) {
    && |members| == 11
    && ValueOf(members, "ip") == Some(J.Str(ip))
    && ValueOf(members, "country_code") == Some(TextOrNull(r.countryCode))
    && ValueOf(members, "country_name") == Some(TextOrNull(r.countryName))
    && ValueOf(members, "continent_code") == Some(TextOrNull(r.continentCode))
    && ValueOf(members, "asn") == Some(NumberOrNull(r.asn))
    && ValueOf(members, "as_org") == Some(TextOrNull(r.asOrg))
    && ValueOf(members, "city_name") == Some(TextOrNull(r.cityName))
    && ValueOf(members, "postal_code") == Some(TextOrNull(r.postalCode))
    && ValueOf(members, "latitude") == Some(TokenOrNull(r.latitude))
    && ValueOf(members, "longitude") == Some(TokenOrNull(r.longitude))
    && ValueOf(members, "accuracy_radius") == Some(NumberOrNull(r.accuracyRadius))
  }

  /** Tells the names of the items apart. */
  function Mark(name: string): int {
    if name == "" then 0 else 1000 * |name| + name[2 * |name| / 3] as int
  }

  predicate AreDistinct(items: seq<Item>) {
    forall i, j :: 0 <= i < j < |items| ==> items[i].name != items[j].name
  }

  lemma BodyMarks1()
    ensures Mark("ip") == 2112 && Mark("country_code") == 12099 && Mark("country_name") == 12110
    ensures Mark("continent_code") == 14095 && Mark("asn") == 3110 && Mark("as_org") == 6114
  {
  }

  lemma BodyMarks2()
    ensures Mark("city_name") == 9097 && Mark("postal_code") == 11099 && Mark("latitude") == 8117
    ensures Mark("longitude") == 9117 && Mark("accuracy_radius") == 15097
  {
  }

  lemma BodyNamesDiffer(ip: string, r: LookupResult)
    ensures AreDistinct(BodyItems(ip, r))
  {
    BodyMarks1();
    BodyMarks2();
    var items := BodyItems(ip, r);
    forall i, j | 0 <= i < j < |items| ensures items[i].name != items[j].name {
      assert Mark(items[i].name) != Mark(items[j].name);
    }
  }

  lemma {:induction false} ValueOfMember(items: seq<Item>, k: nat)
    requires AreDistinct(items) && k < |items|
    ensures ValueOf(Members(items), items[k].name) == Some(ItemValue(items[k]))
  {
    assert Members(items)[1..] == Members(items[1..]);
    if k > 0 {
      assert items[1..][k - 1] == items[k];
      ValueOfMember(items[1..], k - 1);
    }
  }

  lemma BodyTellsFields(ip: string, r: LookupResult)
    ensures JsonTells(Members(BodyItems(ip, r)), ip, r)
  {
    var items := BodyItems(ip, r);
    BodyNamesDiffer(ip, r);
    forall k | 0 <= k < |items| ensures ValueOf(Members(items), items[k].name) == Some(ItemValue(items[k])) {
      ValueOfMember(items, k);
    }
    assert items[0].name == "ip" && items[1].name == "country_code" && items[2].name == "country_name";
    assert items[3].name == "continent_code" && items[4].name == "asn" && items[5].name == "as_org";
    assert items[6].name == "city_name" && items[7].name == "postal_code" && items[8].name == "latitude";
    assert items[9].name == "longitude" && items[10].name == "accuracy_radius";
  }

  /** The text of every body is taken apart into exactly its items, each field under its
      key. */
  lemma JsonBodyScans(ip: string, r: LookupResult)
    requires HasNumbers(r)
    ensures J.AreScannable(Members(BodyItems(ip, r)))
    ensures JsonBody(ip, r) == J.ObjectText(Members(BodyItems(ip, r)))
    ensures J.ScanObject(JsonBody(ip, r)) == Some(Members(BodyItems(ip, r)))
    ensures JsonTells(J.ScanObject(JsonBody(ip, r)).value, ip, r)
  {
    var items := BodyItems(ip, r);
    BodyItemsAreItems(ip, r);
    forall k | 0 <= k < |items|
      ensures JsonTexts(items)[k] == J.MemberText(Members(items)[k])
      ensures Members(items)[k].value.Token? ==> J.IsLexeme(Members(items)[k].value.text)
    {
      ItemIsMember(items[k]);
    }
    assert JsonTexts(items) == J.MemberTexts(Members(items));
    J.ScanObjectText(Members(items));
    BodyTellsFields(ip, r);
  }

  predicate IsUtf8Text(text: Option<string>) {
    text.Some? ==> U.IsUtf8(text.value)
  }

  /** Every text shown is UTF-8: the address and what the databases hold. */
  predicate HasUtf8Texts(ip: string, r: LookupResult) {
    && U.IsUtf8(ip)
    && IsUtf8Text(r.countryCode) && IsUtf8Text(r.countryName) && IsUtf8Text(r.continentCode)
    && IsUtf8Text(r.asOrg) && IsUtf8Text(r.cityName) && IsUtf8Text(r.postalCode)
  }

  /** An item that can stand in a JSON body. */
  predicate IsJsonItem(i: Item) {
    match i
    case TextItem(_, text) => IsUtf8Text(text)
    case NumberItem(_, _) => true
    case FloatItem(_, token) => token.Some? ==> J.IsNumber(token.value)
  }

  lemma NameIsUtf8(name: string)
    requires IsItemName(name)
    ensures U.IsUtf8(name)
  {
    U.AsciiIsUtf8(name);
  }

  lemma JsonItems(ip: string, r: LookupResult)
    ensures (forall k :: 0 <= k < |BodyItems(ip, r)| ==> IsJsonItem(BodyItems(ip, r)[k]))
            <==> HasJsonNumbers(r) && HasUtf8Texts(ip, r)
  {
    var items := BodyItems(ip, r);
    if forall k :: 0 <= k < |items| ==> IsJsonItem(items[k]) {
      assert IsJsonItem(items[0]) && IsJsonItem(items[1]) && IsJsonItem(items[2]) && IsJsonItem(items[3]);
      assert IsJsonItem(items[5]) && IsJsonItem(items[6]) && IsJsonItem(items[7]);
      assert IsJsonItem(items[8]) && IsJsonItem(items[9]);
    }
  }

  lemma MembersAreJsonExactly(ip: string, r: LookupResult)
    requires HasNumbers(r)
    ensures J.AreJson(Members(BodyItems(ip, r))) <==> HasJsonNumbers(r) && HasUtf8Texts(ip, r)
  {
    var items := BodyItems(ip, r);
    BodyItemsAreItems(ip, r);
    JsonItems(ip, r);
    forall k | 0 <= k < |items| ensures J.IsJson(Members(items)[k]) <==> IsJsonItem(items[k]) {
      LexemeOfItem(items[k]);
      NameIsUtf8(items[k].name);
    }
  }

  /** A client reads back the address text and every field byte for byte, an absent field
      as the token null - unless a coordinate is no JSON number or a text is not UTF-8: then
      the body is no JSON. */
  lemma JsonBodyReads(ip: string, r: LookupResult)
    requires HasNumbers(r)
    ensures J.ReadObject(JsonBody(ip, r))
            == if HasJsonNumbers(r) && HasUtf8Texts(ip, r) then Some(Members(BodyItems(ip, r))) else None
    ensures J.ReadObject(JsonBody(ip, r)).Some? ==> JsonTells(J.ReadObject(JsonBody(ip, r)).value, ip, r)
  {
    JsonBodyScans(ip, r);
    MembersAreJsonExactly(ip, r);
    J.ReadObjectText(Members(BodyItems(ip, r)));
  }

  function Formatted(d: Option<Double>): Option<string> {
    if d.None? then None else Some(FormatDouble(d.value))
  }

  predicate IsFinite(d: Option<Double>) {
    d.Some? ==> d.value.Finite?
  }

  /** Whatever doubles and bytes the databases hold: the body is JSON exactly if each
      coordinate that is present is finite and each text is UTF-8. */
  lemma JsonBodyReadableExactly(
      ip: string, r: LookupResult, latitude: Option<Double>, longitude: Option<Double>)
    requires (latitude.Some? ==> latitude.value.Valid()) && (longitude.Some? ==> longitude.value.Valid())
    requires r.latitude == Formatted(latitude) && r.longitude == Formatted(longitude)
    ensures J.ReadObject(JsonBody(ip, r)).Some?
            <==> IsFinite(latitude) && IsFinite(longitude) && HasUtf8Texts(ip, r)
  {
    if latitude.Some? {
      FormatIsNumberText(latitude.value);
      FormatIsNumberExactlyIfFinite(latitude.value);
    }
    if longitude.Some? {
      FormatIsNumberText(longitude.value);
      FormatIsNumberExactlyIfFinite(longitude.value);
    }
    JsonBodyReads(ip, r);
  }

  /** A database with a latitude that is not a number makes the program write such a body. */
  lemma NanBodyIsNoJson(ip: string, r: LookupResult)
    requires r.latitude == Some("nan") && r.longitude.None?
    ensures J.ReadObject(JsonBody(ip, r)) == None
  {
    assert FormatDouble(NotANumber(false)) == "nan";
    JsonBodyReadableExactly(ip, r, Some(NotANumber(false)), None);
  }

  /** And so does one with a city name that is a single byte 0xFF. */
  lemma StrayByteIsNoJson(ip: string, r: LookupResult)
    requires r.cityName == Some([0xFF as char]) && HasNumbers(r)
    ensures J.ReadObject(JsonBody(ip, r)) == None
  {
    assert U.CharLength([0xFF as char]) == 0;
    JsonBodyReads(ip, r);
  }

  /** No present item reads as null, and different items read differently. */
  lemma ItemValueInjective(a: Item, b: Item)
    requires IsItem(a) && IsItem(b) && a.name == b.name && ItemValue(a) == ItemValue(b)
    requires (a.TextItem? <==> b.TextItem?) && (a.NumberItem? <==> b.NumberItem?)
    ensures a == b
  {
    match a {
      case TextItem(_, _) =>
      case NumberItem(_, n) =>
        NotNull(n);
        NotNull(b.number);
        if n.Some? && b.number.Some? {
          DecimalInjective(n.value, b.number.value);
        }
      case FloatItem(_, t) =>
        if t.Some? {
          NumberTextIsLexeme(t.value);
        }
        if b.token.Some? {
          NumberTextIsLexeme(b.token.value);
        }
    }
  }

  lemma NotNull(n: Option<nat>)
    ensures n.Some? ==> Decimal(n.value) != "null"
  {
    if n.Some? {
      DecimalIsNumberText(n.value);
      NumberTextIsLexeme(Decimal(n.value));
    }
  }

  lemma ItemsDetermineResult(ip1: string, r1: LookupResult, ip2: string, r2: LookupResult)
    requires BodyItems(ip1, r1) == BodyItems(ip2, r2)
    ensures ip1 == ip2 && r1.(found := r2.found) == r2
  {
    var a, b := BodyItems(ip1, r1), BodyItems(ip2, r2);
    assert a[0] == b[0] && a[1] == b[1] && a[2] == b[2] && a[3] == b[3] && a[4] == b[4] && a[5] == b[5];
    assert a[6] == b[6] && a[7] == b[7] && a[8] == b[8] && a[9] == b[9] && a[10] == b[10];
  }

  lemma SameKinds(ip1: string, r1: LookupResult, ip2: string, r2: LookupResult, k: nat)
    requires k < 11
    ensures var a, b := BodyItems(ip1, r1)[k], BodyItems(ip2, r2)[k];
            a.name == b.name && (a.TextItem? <==> b.TextItem?) && (a.NumberItem? <==> b.NumberItem?)
  {
  }

  /** Two lookups have the same body only if address and all fields agree. */
  lemma JsonBodyDeterminesResult(ip1: string, r1: LookupResult, ip2: string, r2: LookupResult)
    requires HasNumbers(r1) && HasNumbers(r2) && JsonBody(ip1, r1) == JsonBody(ip2, r2)
    ensures ip1 == ip2 && r1.(found := r2.found) == r2
  {
    JsonBodyScans(ip1, r1);
    JsonBodyScans(ip2, r2);
    var a, b := BodyItems(ip1, r1), BodyItems(ip2, r2);
    BodyItemsAreItems(ip1, r1);
    BodyItemsAreItems(ip2, r2);
    assert |a| == 11 && |b| == 11;
    forall k | 0 <= k < 11 ensures a[k] == b[k] {
      assert Members(a)[k] == Members(b)[k];
      SameKinds(ip1, r1, ip2, r2, k);
      ItemValueInjective(a[k], b[k]);
    }
    ItemsDetermineResult(ip1, r1, ip2, r2);
  }

  // ----- the text body and the response headers -----

  /** What an item shows on a line of its own, if it is present: control bytes stripped. */
  function Shown(i: Item): Option<string> {
    match i
    case TextItem(_, text) => if text.Some? then Some(Sanitized(text.value)) else None
    case NumberItem(_, number) => if number.Some? then Some(Decimal(number.value)) else None
    case FloatItem(_, token) => token
  }

  /** The present items in order; the absent ones are left out. */
  function Present(items: seq<Item>): seq<(string, string)> {
    if items == [] then []
    else (if Shown(items[0]).Some? then [(items[0].name, Shown(items[0]).value)] else []) + Present(items[1..])
  }

  lemma ShownIsPrintable(i: Item)
    requires IsItem(i)
    ensures Shown(i).Some? ==> AllPrintable(Shown(i).value)
  {
    if i.NumberItem? && i.number.Some? {
      DecimalIsPrintable(i.number.value);
    }
  }

  /** Whatever bytes the database holds, every present item is one well-formed line. */
  lemma {:induction false} PresentAreFields(items: seq<Item>)
    requires AreItems(items)
    ensures AreFields(Present(items))
    ensures forall k :: 0 <= k < |Present(items)| ==> IsItemName(Present(items)[k].0)
  {
    if items != [] {
      PresentAreFields(items[1..]);
      ShownIsPrintable(items[0]);
    }
  }

  function IniText(fields: seq<(string, string)>): string {
    if fields == [] then "" else fields[0].0 + ['='] + fields[0].1 + ['\n'] + IniText(fields[1..])
  }

  function IniBody(ip: string, r: LookupResult): string {
    IniText(Present(BodyItems(ip, r)))
  }

  /** A line-based reader: key up to the first `=`, value up to the end of the line. */
  function ReadIniLine(line: string): Option<(string, string)> {
    match FindChar(line, '=', 0)
    case None => None
    case Some(eq) => Some((line[..eq], line[eq + 1..]))
  }

  function IniLines(s: string, pos: nat): seq<string>
    decreases |s| - pos
  {
    match FindChar(s, '\n', pos)
    case None => []
    case Some(end) => [s[pos..end]] + IniLines(s, end + 1)
  }

  function ReadIniLines(lines: seq<string>): Option<seq<(string, string)>> {
    if lines == [] then Some([])
    else
      match (ReadIniLine(lines[0]), ReadIniLines(lines[1..]))
      case (Some(field), Some(others)) => Some([field] + others)
      case _ => None
  }

  function ReadIni(s: string): Option<seq<(string, string)>> {
    ReadIniLines(IniLines(s, 0))
  }

  function IniLine(f: (string, string)): string {
    f.0 + ['='] + f.1
  }

  predicate IsIniField(f: (string, string)) {
    '=' !in f.0 && '\n' !in f.0 && '\n' !in f.1
  }

  predicate AreIniFields(fields: seq<(string, string)>) {
    forall k :: 0 <= k < |fields| ==> IsIniField(fields[k])
  }

  lemma CutIniLine(before: string, line: string, rest: string)
    requires '\n' !in line
    ensures IniLines(before + (line + ['\n'] + rest), |before|)
            == [line] + IniLines((before + line + ['\n']) + rest, |before + line + ['\n']|)
  {
    var s := before + (line + ['\n'] + rest);
    forall k | |before| <= k < |before| + |line| ensures s[k] != '\n' {
      assert s[k] == line[k - |before|];
    }
    FindCharIs(s, '\n', |before|, |before| + |line|);
    assert s[|before|..|before| + |line|] == line;
    assert s == (before + line + ['\n']) + rest;
  }

  function IniLineTexts(fields: seq<(string, string)>): seq<string> {
    if fields == [] then [] else [IniLine(fields[0])] + IniLineTexts(fields[1..])
  }

  lemma NoIniLine(before: string)
    ensures IniLines(before, |before|) == []
  {
    FindCharNone(before, '\n', |before|);
  }

  lemma StaysOnLine(f: (string, string))
    requires IsIniField(f)
    ensures '\n' !in IniLine(f)
  {
  }

  lemma {:induction false} CutIniText(before: string, fields: seq<(string, string)>)
    requires AreIniFields(fields)
    ensures IniLines(before + IniText(fields), |before|) == IniLineTexts(fields)
    decreases |fields|
  {
    if fields == [] {
      NoIniLine(before);
      assert before + IniText(fields) == before;
    } else {
      var line, rest := IniLine(fields[0]), IniText(fields[1..]);
      StaysOnLine(fields[0]);
      CutIniLine(before, line, rest);
      CutIniText(before + line + ['\n'], fields[1..]);
    }
  }

  lemma {:induction false} ReadIniLineTexts(fields: seq<(string, string)>)
    requires AreIniFields(fields)
    ensures ReadIniLines(IniLineTexts(fields)) == Some(fields)
  {
    if fields != [] {
      var f := fields[0];
      ReadIniLineTexts(fields[1..]);
      FindCharIs(IniLine(f), '=', 0, |f.0|);
      assert IniLine(f)[..|f.0|] == f.0 && IniLine(f)[|f.0| + 1..] == f.1;
      assert IniLineTexts(fields)[1..] == IniLineTexts(fields[1..]);
      assert [f] + fields[1..] == fields;
    }
  }

  lemma FieldsAreIniFields(fields: seq<(string, string)>)
    requires AreFields(fields) && forall k :: 0 <= k < |fields| ==> IsItemName(fields[k].0)
    ensures AreIniFields(fields)
  {
    forall k | 0 <= k < |fields| ensures IsIniField(fields[k]) {
      assert IsField(fields[k]);
    }
  }

  /** A text as a line or a header field shows it. */
  function Stripped(text: Option<string>): Option<string> {
    if text.Some? then Some(Sanitized(text.value)) else None
  }

  function Printed(number: Option<nat>): Option<string> {
    if number.Some? then Some(Decimal(number.value)) else None
  }

  /** What a client reads about an address in the text form: each field under its own key,
      absent ones not at all. */
  predicate IniTells(fields: seq<(string, string)>, ip: string, r: LookupResult) {
    && FirstValue(fields, "ip") == Some(Sanitized(ip))
    && FirstValue(fields, "country_code") == Stripped(r.countryCode)
    && FirstValue(fields, "country_name") == Stripped(r.countryName)
    && FirstValue(fields, "continent_code") == Stripped(r.continentCode)
    && FirstValue(fields, "asn") == Printed(r.asn)
    && FirstValue(fields, "as_org") == Stripped(r.asOrg)
    && FirstValue(fields, "city_name") == Stripped(r.cityName)
    && FirstValue(fields, "postal_code") == Stripped(r.postalCode)
    && FirstValue(fields, "latitude") == r.latitude
    && FirstValue(fields, "longitude") == r.longitude
    && FirstValue(fields, "accuracy_radius") == Printed(r.accuracyRadius)
  }

  lemma {:induction false} NotPresent(items: seq<Item>, name: string)
    requires forall i :: 0 <= i < |items| ==> items[i].name != name
    ensures FirstValue(Present(items), name) == None
  {
    if items != [] {
      NotPresent(items[1..], name);
      PresentFirst(items, name);
    }
  }

  lemma PresentFirst(items: seq<Item>, name: string)
    requires items != []
    ensures FirstValue(Present(items), name)
            == if items[0].name == name && Shown(items[0]).Some? then Shown(items[0])
               else FirstValue(Present(items[1..]), name)
  {
    if Shown(items[0]).Some? {
      FirstOfFields((items[0].name, Shown(items[0]).value), Present(items[1..]), name);
    } else {
      assert [] + Present(items[1..]) == Present(items[1..]);
    }
  }

  /** Under its name stands what an item shows, if it is present. */
  lemma {:induction false} FirstOfPresent(items: seq<Item>, k: nat)
    requires AreDistinct(items) && k < |items|
    ensures FirstValue(Present(items), items[k].name) == Shown(items[k])
  {
    PresentFirst(items, items[k].name);
    if k > 0 {
      assert items[1..][k - 1] == items[k];
      FirstOfPresent(items[1..], k - 1);
    } else {
      NotPresent(items[1..], items[0].name);
    }
  }

  lemma LinesTellFields(ip: string, r: LookupResult)
    ensures IniTells(Present(BodyItems(ip, r)), ip, r)
  {
    var items := BodyItems(ip, r);
    BodyNamesDiffer(ip, r);
    forall k | 0 <= k < |items| ensures FirstValue(Present(items), items[k].name) == Shown(items[k]) {
      FirstOfPresent(items, k);
    }
    assert items[0].name == "ip" && items[1].name == "country_code" && items[2].name == "country_name";
    assert items[3].name == "continent_code" && items[4].name == "asn" && items[5].name == "as_org";
    assert items[6].name == "city_name" && items[7].name == "postal_code" && items[8].name == "latitude";
    assert items[9].name == "longitude" && items[10].name == "accuracy_radius";
  }

  /** No database text can forge a line: a line-based reader finds exactly the present
      fields, each with its value stripped of control bytes, each under its key. */
  lemma IniBodyReads(ip: string, r: LookupResult)
    requires HasNumbers(r)
    ensures ReadIni(IniBody(ip, r)) == Some(Present(BodyItems(ip, r)))
    ensures IniTells(ReadIni(IniBody(ip, r)).value, ip, r)
  {
    var fields := Present(BodyItems(ip, r));
    BodyItemsAreItems(ip, r);
    PresentAreFields(BodyItems(ip, r));
    FieldsAreIniFields(fields);
    CutIniText("", fields);
    assert "" + IniBody(ip, r) == IniBody(ip, r);
    ReadIniLineTexts(fields);
    LinesTellFields(ip, r);
  }

  lemma {:induction false} IniTextUtf8(fields: seq<(string, string)>)
    requires forall k :: 0 <= k < |fields| ==> U.IsUtf8(fields[k].0) && U.IsUtf8(fields[k].1)
    ensures U.IsUtf8(IniText(fields))
  {
    if fields != [] {
      IniTextUtf8(fields[1..]);
      U.Utf8Joined(fields[0].0, '=', fields[0].1);
      U.Utf8Joined(fields[0].0 + ['='] + fields[0].1, '\n', IniText(fields[1..]));
    }
  }

  lemma {:induction false} PresentUtf8(items: seq<Item>)
    requires AreItems(items) && forall k :: 0 <= k < |items| && items[k].TextItem? ==> IsUtf8Text(items[k].text)
    ensures forall k :: 0 <= k < |Present(items)| ==> U.IsUtf8(Present(items)[k].0) && U.IsUtf8(Present(items)[k].1)
  {
    if items != [] {
      PresentUtf8(items[1..]);
      ShownUtf8(items[0]);
      NameIsUtf8(items[0].name);
    }
  }

  lemma ShownUtf8(i: Item)
    requires IsItem(i) && (i.TextItem? ==> IsUtf8Text(i.text))
    ensures Shown(i).Some? ==> U.IsUtf8(Shown(i).value)
  {
    if Shown(i).Some? {
      match i {
        case TextItem(_, text) => SanitizedKeepsUtf8(text.value);
        case NumberItem(_, number) =>
          DecimalIsNumberText(number.value);
          U.AsciiIsUtf8(Decimal(number.value));
        case FloatItem(_, token) => U.AsciiIsUtf8(token.value);
      }
    }
  }

  /** The text body keeps the charset its Content-Type announces, if the databases do. */
  lemma IniBodyIsUtf8(ip: string, r: LookupResult)
    requires HasNumbers(r) && HasUtf8Texts(ip, r)
    ensures U.IsUtf8(IniBody(ip, r))
  {
    BodyItemsAreItems(ip, r);
    PresentUtf8(BodyItems(ip, r));
    IniTextUtf8(Present(BodyItems(ip, r)));
  }

  /** What a client reads about an address in the header fields. */
  predicate HeadersTell(fields: seq<(string, string)>, r: LookupResult) {
    && FirstValue(fields, "X-GeoIP-Country") == Stripped(r.countryCode)
    && FirstValue(fields, "X-GeoIP-Continent") == Stripped(r.continentCode)
    && FirstValue(fields, "X-GeoIP-ASN") == Printed(r.asn)
    && FirstValue(fields, "X-GeoIP-AS-Org") == Stripped(r.asOrg)
    && FirstValue(fields, "X-GeoIP-City") == Stripped(r.cityName)
    && FirstValue(fields, "X-GeoIP-Postal-Code") == Stripped(r.postalCode)
    && FirstValue(fields, "X-GeoIP-Latitude") == r.latitude
    && FirstValue(fields, "X-GeoIP-Longitude") == r.longitude
    && FirstValue(fields, "X-GeoIP-Accuracy-Radius") == Printed(r.accuracyRadius)
  }

  lemma HeaderMarks1()
    ensures Mark("X-GeoIP-Country") == 15117 && Mark("X-GeoIP-Continent") == 17116 && Mark("X-GeoIP-ASN") == 11045
    ensures Mark("X-GeoIP-AS-Org") == 14083 && Mark("X-GeoIP-City") == 12067
  {
  }

  lemma HeaderMarks2()
    ensures Mark("X-GeoIP-Postal-Code") == 19097 && Mark("X-GeoIP-Latitude") == 16116
    ensures Mark("X-GeoIP-Longitude") == 17103 && Mark("X-GeoIP-Accuracy-Radius") == 23121
  {
  }

  lemma HeaderNamesDiffer(r: LookupResult)
    ensures AreDistinct(HeaderItems(r))
  {
    HeaderMarks1();
    HeaderMarks2();
    var items := HeaderItems(r);
    forall i, j | 0 <= i < j < |items| ensures items[i].name != items[j].name {
      assert Mark(items[i].name) != Mark(items[j].name);
    }
  }

  /** Each field that has a header is found under its name, and only if it is present. */
  lemma HeadersTellFields(r: LookupResult)
    ensures HeadersTell(Present(HeaderItems(r)), r)
  {
    var items := HeaderItems(r);
    HeaderNamesDiffer(r);
    forall k | 0 <= k < |items| ensures FirstValue(Present(items), items[k].name) == Shown(items[k]) {
      FirstOfPresent(items, k);
    }
    assert items[0].name == "X-GeoIP-Country" && items[1].name == "X-GeoIP-Continent";
    assert items[2].name == "X-GeoIP-ASN" && items[3].name == "X-GeoIP-AS-Org" && items[4].name == "X-GeoIP-City";
    assert items[5].name == "X-GeoIP-Postal-Code" && items[6].name == "X-GeoIP-Latitude";
    assert items[7].name == "X-GeoIP-Longitude" && items[8].name == "X-GeoIP-Accuracy-Radius";
  }

  function SuccessResponse(ip: string, r: LookupResult, format: Format): Response {
    Response(200, format, Present(HeaderItems(r)), if format == Json then JsonBody(ip, r) else IniBody(ip, r))
  }

  lemma SuccessHeadersAreFields(ip: string, r: LookupResult, format: Format)
    requires HasNumbers(r)
    ensures AreFields(SuccessResponse(ip, r, format).headers)
  {
    HeaderItemsAreItems(r);
    PresentAreFields(HeaderItems(r));
  }
}
