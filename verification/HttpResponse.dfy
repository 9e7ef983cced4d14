/** `build_http_response`, `make_error_response` (src/http.cpp) and `write_all`
    (src/server.cpp): what goes onto the wire and how a reader takes it apart again
    (sections 2.1 and 6.2 of RFC 9112, section 9.3.2 of RFC 9110 for HEAD).
 */
module HttpResponse {
  import opened Text
  import opened TextUtil
  import J = Json
  import U = Utf8

  datatype Format = Json | Plain | Prometheus

  datatype Response = Response(
    status: nat,
    format: Format,
    headers: seq<(string, string)>,
    body: string)

  function Reason(status: nat): string {
    if status == 200 then "OK"
    else if status == 400 then "Bad Request"
    else if status == 404 then "Not Found"
    else if status == 405 then "Method Not Allowed"
    else if status == 500 then "Internal Server Error"
    else "Unknown"
  }

  function ContentType(format: Format): string {
    match format
    case Json => "application/json"
    case Plain => "text/plain; charset=utf-8"
    case Prometheus => "text/plain; version=0.0.4; charset=utf-8"
  }

  // ----- the specification of the serializer -----

  function StatusLine(status: nat): string {
    "HTTP/1.1 " + Decimal(status) + [' '] + Reason(status)
  }

  function HeaderLine(h: (string, string)): string {
    h.0 + ": " + h.1
  }

  /** All header fields of a response, in order. */
  function Fields(resp: Response, includeBody: bool): seq<(string, string)> {
    (if includeBody then [("Content-Type", ContentType(resp.format))] else [])
    + [("Content-Length", Decimal(|resp.body|)), ("Connection", "close")]
    + resp.headers
  }

  function HeaderLines(fields: seq<(string, string)>): (lines: seq<string>)
    ensures |lines| == |fields|
    ensures forall k :: 0 <= k < |lines| ==> lines[k] == HeaderLine(fields[k])
  {
    seq(|fields|, k requires 0 <= k < |fields| => HeaderLine(fields[k]))
  }

  /** Every line with its CRLF. */
  function LinesText(lines: seq<string>): string {
    if lines == [] then "" else lines[0] + ("\r\n" + LinesText(lines[1..]))
  }

  function HeadLines(resp: Response, includeBody: bool): seq<string> {
    [StatusLine(resp.status)] + HeaderLines(Fields(resp, includeBody))
  }

  function ResponseText(resp: Response, includeBody: bool): string {
    LinesText(HeadLines(resp, includeBody)) + ("\r\n" + if includeBody then resp.body else "")
  }

  // ----- the serializer -----

  lemma {:induction false} LinesTextAppend(a: seq<string>, line: string)
    ensures LinesText(a + [line]) == LinesText(a) + (line + "\r\n")
  {
    if a == [] {
      assert a + [line] == [line];
      assert [line][1..] == [];
      assert "\r\n" + "" == "\r\n";
    } else {
      assert (a + [line])[1..] == a[1..] + [line];
      LinesTextAppend(a[1..], line);
      assert a[0] + ("\r\n" + (LinesText(a[1..]) + (line + "\r\n")))
          == (a[0] + ("\r\n" + LinesText(a[1..]))) + (line + "\r\n");
    }
  }

  lemma AddLine(status: string, fields: seq<(string, string)>, k: nat)
    requires k < |fields|
    ensures LinesText([status] + HeaderLines(fields[..k + 1]))
            == LinesText([status] + HeaderLines(fields[..k])) + (HeaderLine(fields[k]) + "\r\n")
  {
    LinesTextAppend([status] + HeaderLines(fields[..k]), HeaderLine(fields[k]));
    assert [status] + HeaderLines(fields[..k + 1]) == [status] + HeaderLines(fields[..k]) + [HeaderLine(fields[k])];
  }

  lemma FirstLine(status: string)
    ensures LinesText([status] + HeaderLines([])) == status + "\r\n"
  {
    assert [status] + HeaderLines([]) == [] + [status];
    LinesTextAppend([], status);
  }

  /** Status line, header lines in order, blank line, and the body if it is wanted. */
  method BuildHttpResponse(resp: Response, includeBody: bool) returns (out: string)
    ensures out == ResponseText(resp, includeBody)
    ensures AreFields(resp.headers) ==>
              && ReadResponse(out).Some? && Says(ReadResponse(out).value, resp.status, resp.format, includeBody)
              && ReadResponse(out).value.body == if includeBody then resp.body else ""
  {
    var status, fields := StatusLine(resp.status), Fields(resp, includeBody);
    FirstLine(status);
    out := status + "\r\n";
    for k := 0 to |fields|
      invariant out == LinesText([status] + HeaderLines(fields[..k]))
    {
      AddLine(status, fields, k);
      out := out + (HeaderLine(fields[k]) + "\r\n");
    }
    assert fields[..|fields|] == fields;
    out := out + ("\r\n" + if includeBody then resp.body else "");
    if AreFields(resp.headers) {
      ReadUndoesBuild(resp, includeBody);
    }
  }

  // ----- a reference reader -----

  datatype Wire = Wire(status: nat, reason: string, fields: seq<(string, string)>, body: string)

  /** A head cut at its CRLFs; what follows the last CRLF is dropped. */
  function CutLines(head: string, pos: nat): seq<string>
    decreases |head| - pos
  {
    match FindCrlf(head, pos)
    case None => []
    case Some(next) => [head[pos..next]] + CutLines(head, next + 2)
  }

  function ReadField(line: string): Option<(string, string)> {
    match FindChar(line, ':', 0)
    case None => None
    case Some(colon) =>
      if colon + 1 < |line| && line[colon + 1] == ' '
      then Some((line[..colon], line[colon + 2..]))
      else None
  }

  function ReadFields(lines: seq<string>): Option<seq<(string, string)>> {
    if lines == [] then Some([])
    else
      match (ReadField(lines[0]), ReadFields(lines[1..]))
      case (Some(field), Some(others)) => Some([field] + others)
      case _ => None
  }

  function ReadStatusLine(line: string): Option<(nat, string)> {
    if |line| < 9 || line[..9] != "HTTP/1.1 " then None
    else
      match FindChar(line, ' ', 9)
      case None => None
      case Some(sp) =>
        match ReadDecimal(line[9..sp])
        case None => None
        case Some(status) => Some((status, line[sp + 1..]))
  }

  function ReadHeadLines(lines: seq<string>, body: string): Option<Wire> {
    if lines == [] then None
    else
      match (ReadStatusLine(lines[0]), ReadFields(lines[1..]))
      case (Some((status, reason)), Some(fields)) => Some(Wire(status, reason, fields, body))
      case _ => None
  }

  /** Splits at the first blank line: lines before it, the body behind it. */
  function SplitResponse(bytes: string): Option<(seq<string>, string)> {
    match FindBlankLine(bytes, 0)
    case None => None
    case Some(p) => Some((CutLines(bytes[..p + 2], 0), bytes[p + 4..]))
  }

  function ReadResponse(bytes: string): Option<Wire> {
    match SplitResponse(bytes)
    case None => None
    case Some((lines, body)) => ReadHeadLines(lines, body)
  }

  /** A reader that knows whether it asked for a body (section 8 of RFC 9112): a message is
      whole if its head is complete and its body as long as announced. */
  function ReadWhole(bytes: string, withBody: bool): Option<Wire> {
    match ReadResponse(bytes)
    case None => None
    case Some(wire) =>
      match FirstValue(wire.fields, "Content-Length")
      case None => None
      case Some(length) => if withBody && ReadDecimal(length) != Some(|wire.body|) then None else Some(wire)
  }

  // ----- reading undoes writing -----

  predicate AllPrintable(s: string) {
    forall k :: 0 <= k < |s| ==> IsPrintable(s[k])
  }

  /** A field that can stand on one header line. */
  predicate IsField(f: (string, string)) {
    f.0 != "" && ':' !in f.0 && AllPrintable(f.0) && AllPrintable(f.1)
  }

  predicate AreFields(fields: seq<(string, string)>) {
    forall k :: 0 <= k < |fields| ==> IsField(fields[k])
  }

  /** A line that can be told from the blank line. */
  predicate IsLine(line: string) {
    line != "" && AllPrintable(line)
  }

  predicate AreLines(lines: seq<string>) {
    forall k :: 0 <= k < |lines| ==> IsLine(lines[k])
  }

  lemma SkipLine(s: string, a: nat, b: nat)
    requires a <= b && CrlfAt(s, b)
    requires forall k :: a <= k < b ==> s[k] != '\r'
    requires b + 2 < |s| ==> s[b + 2] != '\r'
    ensures FindBlankLine(s, a) == FindBlankLine(s, b + 2)
    decreases b - a
  {
    if a < b {
      SkipLine(s, a + 1, b);
    } else {
      assert !BlankLineAt(s, a);
      assert FindBlankLine(s, a) == FindBlankLine(s, a + 1);
      assert s[a + 1] == '\n';
      assert FindBlankLine(s, a + 1) == FindBlankLine(s, a + 2);
    }
  }

  lemma LineIn(before: string, line: string, rest: string)
    requires IsLine(line)
    ensures var s := before + (line + ("\r\n" + rest));
            && CrlfAt(s, |before| + |line|)
            && (forall k :: |before| <= k < |before| + |line| ==> s[k] != '\r')
            && s[|before|..|before| + |line|] == line
            && s == (before + line + "\r\n") + rest
  {
    var s := before + (line + ("\r\n" + rest));
    forall k | |before| <= k < |before| + |line| ensures s[k] != '\r' {
      assert s[k] == line[k - |before|];
    }
  }

  lemma RegroupTail(line: string, end: string, others: string, tail: string)
    ensures (line + (end + others)) + (end + tail) == line + (end + (others + (end + tail)))
  {
  }

  /** The first blank line of a head is the one that ends it, whatever the body holds. */
  lemma {:induction false} BlankLineEndsHead(before: string, lines: seq<string>, tail: string)
    requires AreLines(lines) && lines != []
    ensures FindBlankLine(before + (LinesText(lines) + ("\r\n" + tail)), |before|)
            == Some(|before| + |LinesText(lines)| - 2)
    decreases |lines|
  {
    var line, others := lines[0], LinesText(lines[1..]);
    var rest := others + ("\r\n" + tail);
    RegroupTail(line, "\r\n", others, tail);
    LineIn(before, line, rest);
    var s := before + (line + ("\r\n" + rest));
    var e := |before| + |line|;
    if |lines| == 1 {
      assert others == "";
      LastLineBlank(s, |before|, e);
    } else {
      assert IsLine(lines[1]);
      assert s[e + 2] == rest[0] == lines[1][0];
      SkipLine(s, |before|, e);
      BlankLineEndsHead(before + line + "\r\n", lines[1..], tail);
    }
  }

  lemma LastLineBlank(s: string, a: nat, b: nat)
    requires a <= b && BlankLineAt(s, b)
    requires forall k :: a <= k < b ==> s[k] != '\r'
    ensures FindBlankLine(s, a) == Some(b)
    decreases b - a
  {
    if a < b {
      LastLineBlank(s, a + 1, b);
    }
  }

  lemma NextCrlf(s: string, a: nat, b: nat)
    requires a <= b && CrlfAt(s, b)
    requires forall k :: a <= k < b ==> s[k] != '\r'
    ensures FindCrlf(s, a) == Some(b)
    decreases b - a
  {
    if a < b {
      NextCrlf(s, a + 1, b);
    }
  }

  lemma CutOneLine(before: string, line: string, rest: string)
    requires IsLine(line)
    ensures CutLines(before + (line + ("\r\n" + rest)), |before|)
            == [line] + CutLines((before + line + "\r\n") + rest, |before + line + "\r\n"|)
  {
    LineIn(before, line, rest);
    NextCrlf(before + (line + ("\r\n" + rest)), |before|, |before| + |line|);
  }

  lemma NothingToCut(before: string)
    ensures CutLines(before, |before|) == []
  {
  }

  lemma {:induction false} CutLinesText(before: string, lines: seq<string>)
    requires AreLines(lines)
    ensures CutLines(before + LinesText(lines), |before|) == lines
    decreases |lines|
  {
    if lines == [] {
      NothingToCut(before);
      assert before + LinesText(lines) == before;
    } else {
      CutOneLine(before, lines[0], LinesText(lines[1..]));
      CutLinesText(before + lines[0] + "\r\n", lines[1..]);
      assert [lines[0]] + lines[1..] == lines;
    }
  }

  lemma ReadHeaderLine(f: (string, string))
    requires IsField(f)
    ensures IsLine(HeaderLine(f)) && ReadField(HeaderLine(f)) == Some(f)
  {
    var line := HeaderLine(f);
    FindCharIs(line, ':', 0, |f.0|);
    assert line[..|f.0|] == f.0;
    assert line[|f.0| + 2..] == f.1;
  }

  lemma {:induction false} ReadHeaderLines(fields: seq<(string, string)>)
    requires AreFields(fields)
    ensures AreLines(HeaderLines(fields)) && ReadFields(HeaderLines(fields)) == Some(fields)
  {
    if fields != [] {
      ReadHeaderLines(fields[1..]);
      forall k | 0 <= k < |fields| ensures IsLine(HeaderLines(fields)[k]) {
        ReadHeaderLine(fields[k]);
      }
      ReadHeaderLine(fields[0]);
      assert HeaderLines(fields)[1..] == HeaderLines(fields[1..]);
      assert [fields[0]] + fields[1..] == fields;
    }
  }

  lemma LongReasonsArePrintable()
    ensures AllPrintable("Internal Server Error") && AllPrintable("Method Not Allowed")
  {
  }

  lemma ShortReasonsArePrintable()
    ensures AllPrintable("OK") && AllPrintable("Bad Request") && AllPrintable("Not Found") && AllPrintable("Unknown")
  {
  }

  lemma ReasonIsPrintable(status: nat)
    ensures AllPrintable(Reason(status))
  {
    LongReasonsArePrintable();
    ShortReasonsArePrintable();
  }

  lemma CutsOfStatus(version: string, digits: string, reason: string)
    ensures var line := version + digits + [' '] + reason;
            && line[..|version|] == version && line[|version|..|version| + |digits|] == digits
            && line[|version| + |digits| + 1..] == reason
  {
  }

  lemma StatusLineReads(line: string, digits: string, reason: string, status: nat)
    requires |line| >= 9 && line[..9] == "HTTP/1.1 " && FindChar(line, ' ', 9) == Some(9 + |digits|)
    requires line[9..9 + |digits|] == digits && line[9 + |digits| + 1..] == reason
    requires ReadDecimal(digits) == Some(status)
    ensures ReadStatusLine(line) == Some((status, reason))
  {
  }

  lemma PrintableConcat(a: string, b: string)
    requires AllPrintable(a) && AllPrintable(b)
    ensures AllPrintable(a + b)
  {
  }

  lemma VersionIsPrintable()
    ensures AllPrintable("HTTP/1.1 ")
  {
  }

  lemma DigitsAreNoSpaces(n: nat)
    ensures ' ' !in Decimal(n)
  {
  }

  lemma ReadWrittenStatus(status: nat)
    ensures IsLine(StatusLine(status))
    ensures ReadStatusLine(StatusLine(status)) == Some((status, Reason(status)))
  {
    var digits, reason := Decimal(status), Reason(status);
    ReadDecimalOfDecimal(status);
    DigitsAreNoSpaces(status);
    CharAfterWord("HTTP/1.1 ", digits, ' ', reason);
    CutsOfStatus("HTTP/1.1 ", digits, reason);
    StatusLineReads(StatusLine(status), digits, reason, status);
    StatusLineIsPrintable(status);
  }

  lemma StatusLineIsPrintable(status: nat)
    ensures IsLine(StatusLine(status))
  {
    VersionIsPrintable();
    DecimalIsPrintable(status);
    ReasonIsPrintable(status);
    PrintableConcat("HTTP/1.1 ", Decimal(status));
    PrintableConcat("HTTP/1.1 " + Decimal(status), [' ']);
    PrintableConcat("HTTP/1.1 " + Decimal(status) + [' '], Reason(status));
  }

  lemma ReadHead(resp: Response, includeBody: bool)
    requires AreFields(resp.headers)
    ensures var lines := HeadLines(resp, includeBody);
            && AreLines(lines)
            && ReadStatusLine(lines[0]) == Some((resp.status, Reason(resp.status)))
            && ReadFields(lines[1..]) == Some(Fields(resp, includeBody))
  {
    var fields, lines := Fields(resp, includeBody), HeadLines(resp, includeBody);
    ReadWrittenStatus(resp.status);
    FixedFields(resp, includeBody);
    ReadHeaderLines(fields);
    assert lines[1..] == HeaderLines(fields);
  }

  lemma DecimalIsPrintable(n: nat)
    ensures AllPrintable(Decimal(n))
  {
  }

  lemma JsonKindIsField()
    ensures IsField(("Content-Type", ContentType(Json)))
  {
  }

  lemma PlainKindIsField()
    ensures IsField(("Content-Type", ContentType(Plain)))
  {
  }

  lemma PrometheusKindIsField()
    ensures IsField(("Content-Type", ContentType(Prometheus)))
  {
  }

  lemma KindIsField(format: Format)
    ensures IsField(("Content-Type", ContentType(format)))
  {
    match format {
      case Json => JsonKindIsField();
      case Plain => PlainKindIsField();
      case Prometheus => PrometheusKindIsField();
    }
  }

  lemma LengthIsField(n: nat)
    ensures IsField(("Content-Length", Decimal(n)))
  {
    DecimalIsPrintable(n);
  }

  lemma ConnectionIsField()
    ensures IsField(("Connection", "close"))
  {
  }

  lemma FixedFields(resp: Response, includeBody: bool)
    requires AreFields(resp.headers)
    ensures AreFields(Fields(resp, includeBody))
  {
    KindIsField(resp.format);
    LengthIsField(|resp.body|);
    ConnectionIsField();
  }

  lemma SplitAt(head: string, body: string)
    requires |head| >= 2 && FindBlankLine(head + ("\r\n" + body), 0) == Some(|head| - 2)
    ensures SplitResponse(head + ("\r\n" + body)) == Some((CutLines(head, 0), body))
  {
    CutAround(head, "\r\n", body);
  }

  lemma CutAround(head: string, end: string, body: string)
    ensures (head + (end + body))[..|head|] == head && (head + (end + body))[|head| + |end|..] == body
  {
  }

  lemma HeadEnd(lines: seq<string>, body: string)
    requires lines != [] && AreLines(lines)
    ensures FindBlankLine(LinesText(lines) + ("\r\n" + body), 0) == Some(|LinesText(lines)| - 2)
  {
    LinesTextLength(lines);
    BlankLineEndsHead([], lines, body);
    AtStart(LinesText(lines) + ("\r\n" + body), |LinesText(lines)| - 2);
  }

  lemma AtStart(s: string, p: int)
    requires p >= 0 && FindBlankLine([] + s, 0) == Some(p)
    ensures FindBlankLine(s, 0) == Some(p)
  {
    assert [] + s == s;
  }

  lemma CutHead(lines: seq<string>)
    requires AreLines(lines)
    ensures CutLines(LinesText(lines), 0) == lines
  {
    CutLinesText("", lines);
    assert "" + LinesText(lines) == LinesText(lines);
  }

  /** Any head of one-line lines in front of any body is taken apart at the right place. */
  lemma SplitAtBlankLine(lines: seq<string>, body: string)
    requires lines != [] && AreLines(lines)
    ensures SplitResponse(LinesText(lines) + ("\r\n" + body)) == Some((lines, body))
  {
    HeadEnd(lines, body);
    LinesTextLength(lines);
    SplitAt(LinesText(lines), body);
    CutHead(lines);
  }

  lemma LinesTextLength(lines: seq<string>)
    requires lines != []
    ensures |LinesText(lines)| >= 2
  {
  }

  /** What a reader should find in a response. */
  function WireOf(resp: Response, includeBody: bool): Wire {
    Wire(resp.status, Reason(resp.status), Fields(resp, includeBody), if includeBody then resp.body else "")
  }

  /** Framing: for any response with one-line fields, the reader recovers the status, the
      intended fields and no others, and the body; nothing in the body can be taken for
      part of the head. */
  lemma ReadUndoesBuild(resp: Response, includeBody: bool)
    requires AreFields(resp.headers)
    ensures ReadResponse(ResponseText(resp, includeBody)) == Some(WireOf(resp, includeBody))
    ensures Says(WireOf(resp, includeBody), resp.status, resp.format, includeBody)
    ensures WireOf(resp, includeBody).body == if includeBody then resp.body else ""
  {
    ResponseSays(resp, includeBody);
    ReadHead(resp, includeBody);
    SplitAtBlankLine(HeadLines(resp, includeBody), if includeBody then resp.body else "");
  }

  lemma FirstOfFields(first: (string, string), others: seq<(string, string)>, name: string)
    ensures FirstValue([first] + others, name)
            == if first.0 == name then Some(first.1) else FirstValue(others, name)
  {
    assert ([first] + others)[1..] == others;
  }

  lemma FixedNamesDiffer()
    ensures "Content-Type" != "Connection" && "Content-Length" != "Connection"
    ensures "Content-Length" != "Content-Type" && "Connection" != "Content-Type"
  {
    assert "Content-Type"[2] == 'n' && "Content-Length"[8] == 'L' && "Content-Type"[8] == 'T';
  }

  /** What the fixed fields of a response say, and that a field of its own is read if it has
      another name. */
  lemma FieldsRead(resp: Response, includeBody: bool, name: string)
    ensures FirstValue(Fields(resp, includeBody), "Connection") == Some("close")
    ensures includeBody ==> FirstValue(Fields(resp, includeBody), "Content-Type") == Some(ContentType(resp.format))
    ensures name != "Content-Type" && name != "Content-Length" && name != "Connection" ==>
              FirstValue(Fields(resp, includeBody), name) == FirstValue(resp.headers, name)
    ensures !includeBody ==>
              FirstValue(Fields(resp, includeBody), "Content-Type") == FirstValue(resp.headers, "Content-Type")
  {
    var length, connection := ("Content-Length", Decimal(|resp.body|)), ("Connection", "close");
    var fixed := [length] + ([connection] + resp.headers);
    FixedNamesDiffer();
    FieldsAreFixed(resp, includeBody);
    forall n ensures FirstValue(fixed, n)
                     == if n == "Content-Length" then Some(length.1)
                        else if n == "Connection" then Some("close") else FirstValue(resp.headers, n)
    {
      FirstOfFields(length, [connection] + resp.headers, n);
      FirstOfFields(connection, resp.headers, n);
    }
    if includeBody {
      forall n ensures FirstValue(Fields(resp, includeBody), n)
                       == if n == "Content-Type" then Some(ContentType(resp.format)) else FirstValue(fixed, n)
      {
        FirstOfFields(("Content-Type", ContentType(resp.format)), fixed, n);
      }
    }
  }

  lemma FieldsAreFixed(resp: Response, includeBody: bool)
    ensures Fields(resp, includeBody)
            == (if includeBody then [("Content-Type", ContentType(resp.format))] else [])
               + ([("Content-Length", Decimal(|resp.body|))] + ([("Connection", "close")] + resp.headers))
  {
  }

  /** What a reader finds in a response: its status with the reason of that status, its kind
      if it carries a body, that the connection ends, how long the body is, and the body. */
  ghost predicate Says(wire: Wire, status: nat, kind: Format, withBody: bool) {
    && wire.status == status
    && wire.reason == (if status == 200 then "OK"
                       else if status == 400 then "Bad Request"
                       else if status == 404 then "Not Found"
                       else if status == 405 then "Method Not Allowed"
                       else if status == 500 then "Internal Server Error"
                       else "Unknown")
    && FirstValue(wire.fields, "Connection") == Some("close")
    && (withBody ==>
          FirstValue(wire.fields, "Content-Type")
          == Some(match kind
                  case Json => "application/json"
                  case Plain => "text/plain; charset=utf-8"
                  case Prometheus => "text/plain; version=0.0.4; charset=utf-8"))
  }

  lemma ResponseSays(resp: Response, includeBody: bool)
    ensures Says(WireOf(resp, includeBody), resp.status, resp.format, includeBody)
  {
    FieldsRead(resp, includeBody, "");
  }

  /** The announced length is the length of the body a GET carries, for HEAD too. */
  lemma ContentLengthIsBodyLength(resp: Response, includeBody: bool)
    ensures FirstValue(Fields(resp, includeBody), "Content-Length") == Some(Decimal(|resp.body|))
    ensures ReadDecimal(Decimal(|resp.body|)) == Some(|resp.body|)
  {
    var k := if includeBody then 1 else 0;
    FirstValueIsFirst(Fields(resp, includeBody), "Content-Length", k);
    ReadDecimalOfDecimal(|resp.body|);
  }

  // Before its blank line is through, a message has none.
  lemma CutInHead(lines: seq<string>, body: string, n: nat)
    requires lines != [] && AreLines(lines) && n < |LinesText(lines)| + 2
    ensures ReadResponse((LinesText(lines) + ("\r\n" + body))[..n]) == None
  {
    var s := LinesText(lines) + ("\r\n" + body);
    HeadEnd(lines, body);
    FindBlankLineFirst(s, 0);
    forall k ensures !BlankLineAt(s[..n], k) {
      assert BlankLineAt(s[..n], k) ==> BlankLineAt(s, k);
    }
  }

  lemma CutInBody(head: string, end: string, body: string, n: nat)
    requires |head| + |end| <= n <= |head| + |end| + |body|
    ensures (head + (end + body))[..n] == head + (end + body[..n - |head| - |end|])
  {
  }

  // What arrived of the body, behind the whole head.
  lemma ArrivedReads(resp: Response, includeBody: bool, arrived: string)
    requires AreFields(resp.headers)
    ensures ReadResponse(LinesText(HeadLines(resp, includeBody)) + ("\r\n" + arrived))
            == Some(Wire(resp.status, Reason(resp.status), Fields(resp, includeBody), arrived))
  {
    ReadHead(resp, includeBody);
    SplitAtBlankLine(HeadLines(resp, includeBody), arrived);
  }

  lemma WholeMeans(bytes: string, wire: Wire, length: nat, withBody: bool)
    requires ReadResponse(bytes) == Some(wire)
    requires FirstValue(wire.fields, "Content-Length") == Some(Decimal(length))
    ensures ReadWhole(bytes, withBody) == if withBody && |wire.body| != length then None else Some(wire)
  {
    ReadDecimalOfDecimal(length);
  }

  lemma WholeOfArrived(resp: Response, includeBody: bool, arrived: string)
    requires AreFields(resp.headers)
    ensures ReadWhole(LinesText(HeadLines(resp, includeBody)) + ("\r\n" + arrived), includeBody)
            == if includeBody && |arrived| != |resp.body| then None
               else Some(Wire(resp.status, Reason(resp.status), Fields(resp, includeBody), arrived))
  {
    var wire := Wire(resp.status, Reason(resp.status), Fields(resp, includeBody), arrived);
    ArrivedReads(resp, includeBody, arrived);
    ContentLengthIsBodyLength(resp, includeBody);
    WholeMeans(LinesText(HeadLines(resp, includeBody)) + ("\r\n" + arrived), wire, |resp.body|, includeBody);
  }

  lemma CutBehindHead(resp: Response, includeBody: bool, head: string, body: string, n: nat)
    requires AreFields(resp.headers) && head == LinesText(HeadLines(resp, includeBody))
    requires body == (if includeBody then resp.body else "") && |head| + 2 <= n <= |head| + 2 + |body|
    ensures ReadWhole((head + ("\r\n" + body))[..n], includeBody)
            == if n == |head| + 2 + |body| then Some(WireOf(resp, includeBody)) else None
  {
    var arrived := body[..n - |head| - 2];
    CutInBody(head, "\r\n", body, n);
    WholeOfArrived(resp, includeBody, arrived);
    assert |arrived| == |body| ==> arrived == body;
  }

  /** A response cut anywhere is never taken for a whole one: the first bytes of it read as a
      whole response exactly if they are all of it. */
  lemma CutIsNoticed(resp: Response, includeBody: bool, n: nat)
    requires AreFields(resp.headers) && n <= |ResponseText(resp, includeBody)|
    ensures ReadWhole(ResponseText(resp, includeBody)[..n], includeBody)
            == if n == |ResponseText(resp, includeBody)| then Some(WireOf(resp, includeBody)) else None
  {
    var lines, body := HeadLines(resp, includeBody), if includeBody then resp.body else "";
    if n < |LinesText(lines)| + 2 {
      ReadHead(resp, includeBody);
      CutInHead(lines, body, n);
    } else {
      CutBehindHead(resp, includeBody, LinesText(lines), body, n);
    }
  }

  lemma RegroupHead(status: string, kind: string, rest: string, body: string, end: string)
    ensures (status + (end + (kind + (end + rest)))) + (end + body)
            == (status + end) + (kind + end) + (rest + end) + body
    ensures (status + (end + rest)) + (end + []) == (status + end) + (rest + end)
  {
  }

  lemma TwoForms(status: string, kind: string, others: seq<string>, body: string)
    ensures LinesText([status] + ([kind] + others)) + ("\r\n" + body)
            == (status + "\r\n") + (kind + "\r\n") + (LinesText(others) + "\r\n") + body
    ensures LinesText([status] + others) + ("\r\n" + []) == (status + "\r\n") + (LinesText(others) + "\r\n")
  {
    LinesTextCons(status, [kind] + others);
    LinesTextCons(kind, others);
    LinesTextCons(status, others);
    RegroupHead(status, kind, LinesText(others), body, "\r\n");
  }

  /** The HEAD form is the GET form without the Content-Type line and without the body. */
  lemma HeadIsGetWithoutBody(resp: Response)
    ensures var status := StatusLine(resp.status) + "\r\n";
            var kind := HeaderLine(("Content-Type", ContentType(resp.format))) + "\r\n";
            var rest := LinesText(HeaderLines(Fields(resp, false))) + "\r\n";
            && ResponseText(resp, true) == status + kind + rest + resp.body
            && ResponseText(resp, false) == status + rest
  {
    KindComesFirst(resp);
    TwoForms(StatusLine(resp.status), HeaderLine(("Content-Type", ContentType(resp.format))),
             HeaderLines(Fields(resp, false)), resp.body);
  }

  lemma KindComesFirst(resp: Response)
    ensures HeaderLines(Fields(resp, true))
            == [HeaderLine(("Content-Type", ContentType(resp.format)))] + HeaderLines(Fields(resp, false))
  {
    FieldsOfGet(resp);
    HeaderLinesCons(("Content-Type", ContentType(resp.format)), Fields(resp, false));
  }

  lemma FieldsOfGet(resp: Response)
    ensures Fields(resp, true) == [("Content-Type", ContentType(resp.format))] + Fields(resp, false)
  {
  }

  lemma HeaderLinesCons(f: (string, string), fields: seq<(string, string)>)
    ensures HeaderLines([f] + fields) == [HeaderLine(f)] + HeaderLines(fields)
  {
  }

  lemma LinesTextCons(line: string, lines: seq<string>)
    ensures LinesText([line] + lines) == line + ("\r\n" + LinesText(lines))
  {
    assert ([line] + lines)[1..] == lines;
  }

  // ----- error responses -----

  function ErrorResponse(status: nat, message: string, format: Format): Response {
    Response(status, format, [],
             if format == Json then "{\"error\":\"" + JsonEscape(message) + "\"}"
             else "error=" + message + "\n")
  }

  lemma ErrorBodyText(escaped: string)
    ensures "{\"error\":\"" + escaped + "\"}"
            == ['{'] + (((['\"'] + "error" + ['\"']) + [':'] + (['\"'] + escaped + ['\"'])) + ['}'])
  {
  }

  /** The JSON error body is one object holding exactly the message, if that is UTF-8. */
  lemma ErrorBodyReads(status: nat, message: string)
    ensures J.ReadObject(ErrorResponse(status, message, Json).body)
            == if U.IsUtf8(message) then Some([J.Member("error", J.Str(message))]) else None
  {
    var m := J.Member("error", J.Str(message));
    PlainKey();
    J.PlainMember("error", message);
    ErrorBodyText(JsonEscape(message));
    J.OneMember(m);
    J.ReadObjectText([m]);
  }

  lemma PlainKey()
    ensures JsonEscape("error") == "error" && U.IsUtf8("error")
  {
    PlainIsUnescaped("error");
    U.AsciiIsUtf8("error");
  }

  // ----- write_all -----

  /** What one call of send() does. */
  datatype SendResult = Takes(n: nat) | Eintr | Broken

  /** A client socket: the bytes delivered so far, how often it has been closed, and how the
      kernel will answer the next calls of send().  After the planned answers it takes
      whatever it is offered. */
  class Socket {
    var wire: string
    var plan: seq<SendResult>
    var closes: nat

    constructor (plan: seq<SendResult>)
      ensures wire == "" && this.plan == plan && closes == 0
    {
      wire, this.plan, closes := "", plan, 0;
    }

    method Close()
      modifies this`closes
      ensures closes == old(closes) + 1
    {
      closes := closes + 1;
    }

    method Send(data: string) returns (n: int, interrupted: bool)
      modifies this`wire, this`plan
      ensures plan == if old(plan) == [] then [] else old(plan)[1..]
      ensures n <= |data|
      ensures n >= 0 ==> wire == old(wire) + data[..n]
      ensures n < 0 ==> wire == old(wire) && old(plan) != [] && interrupted == old(plan)[0].Eintr?
      ensures old(plan) == [] ==> n == |data|
      ensures old(plan) != [] ==> (n >= 0 <==> old(plan)[0].Takes?)
      ensures old(plan) != [] && old(plan)[0].Takes? ==>
                n == if old(plan)[0].n <= |data| then old(plan)[0].n else |data|
    {
      if plan == [] {
        wire := wire + data;
        assert data[..|data|] == data;
        return |data|, false;
      }
      var answer := plan[0];
      plan := plan[1..];
      match answer {
        case Takes(k) =>
          n := if k <= |data| then k else |data|;
          wire := wire + data[..n];
          return n, false;
        case Eintr => return -1, true;
        case Broken => return -1, false;
      }
    }
  }

  /** How far delivery gets: whether all of `size` bytes were taken, and how many were. */
  function Delivery(size: nat, sent: nat, plan: seq<SendResult>): (r: (bool, nat))
    requires sent <= size
    ensures sent <= r.1 <= size
    decreases |plan|
  {
    if sent == size then (true, size)
    else if plan == [] then (true, size)
    else
      match plan[0]
      case Takes(n) => Delivery(size, if sent + n <= size then sent + n else size, plan[1..])
      case Eintr => Delivery(size, sent, plan[1..])
      case Broken => (false, sent)
  }

  /** The bytes that arrive. */
  function Delivered(data: string, plan: seq<SendResult>): string {
    data[..Delivery(|data|, 0, plan).1]
  }

  predicate Unbroken(plan: seq<SendResult>) {
    forall k :: 0 <= k < |plan| ==> !plan[k].Broken?
  }

  /** Sends all bytes in order, however the kernel splits them, or a proper prefix if the
      connection breaks. */
  method WriteAll(socket: Socket, data: string) returns (ok: bool)
    modifies socket`wire, socket`plan
    ensures ok == Delivery(|data|, 0, old(socket.plan)).0
    ensures socket.wire == old(socket.wire) + Delivered(data, old(socket.plan))
  {
    var sent := 0;
    while sent < |data|
      invariant 0 <= sent <= |data|
      invariant socket.wire == old(socket.wire) + data[..sent]
      invariant Delivery(|data|, 0, old(socket.plan)) == Delivery(|data|, sent, socket.plan)
      decreases |socket.plan|, |data| - sent
    {
      ghost var before := sent;
      var n, interrupted := socket.Send(data[sent..]);
      if n < 0 {
        if interrupted {
          continue;
        }
        return false;
      }
      sent := sent + n;
      assert data[before..][..n] == data[before..sent];
      assert data[..before] + data[before..sent] == data[..sent];
    }
    return true;
  }

  /** Unless a send breaks, everything is delivered; if all is reported sent, it is. */
  lemma {:induction false} DeliveryComplete(size: nat, sent: nat, plan: seq<SendResult>)
    requires sent <= size
    decreases |plan|
    ensures var (ok, n) := Delivery(size, sent, plan);
            && (ok <==> n == size)
            && (Unbroken(plan) ==> ok)
  {
    if sent < size && plan != [] {
      match plan[0] {
        case Takes(n) => DeliveryComplete(size, if sent + n <= size then sent + n else size, plan[1..]);
        case Eintr => DeliveryComplete(size, sent, plan[1..]);
        case Broken =>
      }
    }
  }

  /** However send() behaves, a client reads the response whole exactly if all of it was
      taken, and otherwise sees that it is cut. */
  lemma DeliveredWholeOrNoticed(resp: Response, includeBody: bool, plan: seq<SendResult>)
    requires AreFields(resp.headers)
    ensures var text := ResponseText(resp, includeBody);
            && ReadWhole(Delivered(text, plan), includeBody)
               == (if Delivery(|text|, 0, plan).0 then Some(WireOf(resp, includeBody)) else None)
            && (Unbroken(plan) ==> Delivery(|text|, 0, plan).0)
  {
    var text := ResponseText(resp, includeBody);
    DeliveryComplete(|text|, 0, plan);
    CutIsNoticed(resp, includeBody, Delivery(|text|, 0, plan).1);
  }
}
