/** Printing a request in any of the ways a client may write it, and parsing it back.

    The printers below are the reference grammar: every request line, every header block
    and every query string the parser accepts is a printing, and parsing a printing gives
    back what was printed.
 */
module RequestRoundTrip {
  import opened Text
  import opened PercentCoding
  import opened HttpRequest

  // ----- header lines -----

  datatype Header =
    | AcceptHeader(indent: string, name: string, gap: string, pad: string, value: string, tail: string)
    | NamedHeader(name: string, value: string)
    | BareLine(text: string)

  function HeaderText(h: Header): string {
    match h
    case AcceptHeader(indent, name, gap, pad, value, tail) =>
      (indent + name + gap) + ":" + (pad + value + tail)
    case NamedHeader(name, value) => name + ":" + value
    case BareLine(text) => text
  }

  ghost predicate IsHeader(h: Header) {
    && NoCrlf(HeaderText(h))
    && match h
       case AcceptHeader(indent, name, gap, pad, value, tail) =>
         && AllSpaces(indent) && AllSpaces(gap) && AllSpaces(pad) && AllSpaces(tail)
         && InAnyCase(name, "accept") && Trimmed(value)
       case NamedHeader(name, value) => ':' !in name && !InAnyCase(TrimSpaces(name), "accept")
       case BareLine(text) => ':' !in text && text != ""
  }

  ghost predicate AreHeaders(headers: seq<Header>) {
    forall k :: 0 <= k < |headers| ==> IsHeader(headers[k])
  }

  function HeaderBlock(headers: seq<Header>): string {
    if headers == [] then "" else HeaderText(headers[0]) + "\r\n" + HeaderBlock(headers[1..])
  }

  /** The value of the last Accept header, if there is one. */
  function LastAccept(headers: seq<Header>, default: string): string {
    if headers == [] then default
    else
      var last := headers[|headers| - 1];
      if last.AcceptHeader? then last.value else LastAccept(headers[..|headers| - 1], default)
  }

  lemma AcceptNameIsPlain(name: string)
    requires InAnyCase(name, "accept")
    ensures |name| == 6 && Trimmed(name) && ':' !in name
  {
    forall k | 0 <= k < 6 ensures name[k] != ' ' && name[k] != ':' {
      assert 'a' <= "accept"[k] <= 'z';
    }
  }

  lemma AcceptValueOfHeader(h: Header)
    requires IsHeader(h)
    ensures HeaderText(h) != ""
    ensures AcceptValue(HeaderText(h)) == if h.AcceptHeader? then Some(h.value) else None
  {
    match h {
      case AcceptHeader(indent, name, gap, pad, value, tail) =>
        AcceptNameIsPlain(name);
        LowerMeans(name, "accept");
        FirstChar(indent + name + gap, ':', pad + value + tail);
        assert HeaderText(h)[..|indent + name + gap|] == indent + name + gap;
        assert HeaderText(h)[|indent + name + gap| + 1..] == pad + value + tail;
        TrimSpacesStrips(indent, name, gap);
        TrimSpacesStrips(pad, value, tail);
      case NamedHeader(name, value) =>
        LowerMeans(TrimSpaces(name), "accept");
        FirstChar(name, ':', value);
        assert HeaderText(h)[..|name|] == name;
      case BareLine(text) =>
        FindCharNone(text, ':', 0);
    }
  }

  lemma {:induction false} LastAcceptCons(headers: seq<Header>, default: string)
    requires headers != []
    ensures LastAccept(headers, default)
            == LastAccept(headers[1..], if headers[0].AcceptHeader? then headers[0].value else default)
  {
    var n := |headers| - 1;
    if n > 0 {
      assert headers[1..][|headers[1..]| - 1] == headers[n];
      if !headers[n].AcceptHeader? {
        LastAcceptCons(headers[..n], default);
        assert headers[..n][1..] == headers[1..][..n - 1];
      }
    } else {
      assert headers[..0] == [] && headers[1..] == [];
    }
  }

  /** Header lines, the blank line and whatever follows it. */
  function AfterLine(headers: seq<Header>, body: string): string {
    if headers == [] then "\r\n" + body else HeaderText(headers[0]) + "\r\n" + AfterLine(headers[1..], body)
  }

  lemma {:induction false} AfterLineIsBlock(headers: seq<Header>, body: string)
    ensures AfterLine(headers, body) == HeaderBlock(headers) + "\r\n" + body
  {
    if headers == [] {
      assert "" + "\r\n" + body == "\r\n" + body;
    } else {
      AfterLineIsBlock(headers[1..], body);
      var text, block := HeaderText(headers[0]), HeaderBlock(headers[1..]);
      assert text + "\r\n" + (block + "\r\n" + body) == (text + "\r\n" + block) + "\r\n" + body;
    }
  }

  lemma ScanLine(before: string, line: string, rest: string, accept: string)
    requires NoCrlf(line) && line != ""
    ensures var raw := before + (line + "\r\n" + rest);
            ScanHeaders(raw, |before|, accept)
            == ScanHeaders(raw, |before + line + "\r\n"|, AcceptValue(line).GetOr(accept))
  {
    LineFound(before, line, rest);
    ScanStep(before + (line + "\r\n" + rest), |before|, |before| + |line|, accept);
  }

  lemma LineFound(before: string, line: string, rest: string)
    requires NoCrlf(line)
    ensures var raw := before + (line + "\r\n" + rest);
            && FindCrlf(raw, |before|) == Some(|before| + |line|)
            && raw[|before|..|before| + |line|] == line
    ensures |before + line + "\r\n"| == |before| + |line| + 2
  {
    FirstCrlfEndsLine(before, line, rest);
    Reassociate(before, line, "\r\n", rest);
    MiddlePart(before, line, "\r\n", rest);
  }

  lemma MiddlePart(a: string, b: string, c: string, d: string)
    ensures (a + b + c + d)[|a|..|a| + |b|] == b
  {
  }

  /** Scanning a printed header block leaves the last Accept value. */
  lemma {:induction false} ScanPrinted(before: string, headers: seq<Header>, body: string, accept: string)
    requires AreHeaders(headers)
    ensures ScanHeaders(before + AfterLine(headers, body), |before|, accept).1 == LastAccept(headers, accept)
    decreases |headers|
  {
    if headers == [] {
      ScanEnd(before, body, accept);
    } else {
      var line, rest := HeaderText(headers[0]), AfterLine(headers[1..], body);
      AcceptValueOfHeader(headers[0]);
      var accept' := AcceptValue(line).GetOr(accept);
      ScanLine(before, line, rest, accept);
      assert LastAccept(headers, accept) == LastAccept(headers[1..], accept') by { LastAcceptCons(headers, accept); }
      Reassociate(before, line, "\r\n", rest);
      ScanPrinted(before + line + "\r\n", headers[1..], body, accept');
    }
  }

  lemma Reassociate(a: string, b: string, c: string, d: string)
    ensures a + (b + c + d) == a + b + c + d
  {
  }

  lemma ScanEnd(before: string, body: string, accept: string)
    ensures ScanHeaders(before + AfterLine([], body), |before|, accept).1 == accept
  {
    var raw := before + AfterLine([], body);
    FindCrlfIs(raw, |before|, |before|);
  }

  // ----- query strings -----

  datatype Piece =
    | Pair(key: string, keyForms: seq<Form>, value: string, valueForms: seq<Form>)
    | KeyOnly(key: string, keyForms: seq<Form>)
    | Nothing

  /** No `c` of the text is left as it is. */
  predicate Hides(text: string, forms: seq<Form>, c: char)
    requires |text| == |forms|
  {
    forall k :: 0 <= k < |text| && text[k] == c ==> !forms[k].Plain?
  }

  predicate IsPiece(p: Piece) {
    match p
    case Nothing => true
    case KeyOnly(key, kf) =>
      key != "" && AllAllowed(key, kf) && Hides(key, kf, '=') && Hides(key, kf, '&') && Hides(key, kf, ' ')
    case Pair(key, kf, value, vf) =>
      && AllAllowed(key, kf) && Hides(key, kf, '=') && Hides(key, kf, '&') && Hides(key, kf, ' ')
      && AllAllowed(value, vf) && Hides(value, vf, '&') && Hides(value, vf, ' ')
  }

  predicate ArePieces(pieces: seq<Piece>) {
    forall k :: 0 <= k < |pieces| ==> IsPiece(pieces[k])
  }

  function PieceText(p: Piece): string
    requires IsPiece(p)
  {
    match p
    case Nothing => ""
    case KeyOnly(key, kf) => Encode(key, kf)
    case Pair(key, kf, value, vf) => Encode(key, kf) + "=" + Encode(value, vf)
  }

  function PiecePairs(p: Piece): seq<(string, string)> {
    match p
    case Nothing => []
    case KeyOnly(key, _) => [(key, "")]
    case Pair(key, _, value, _) => [(key, value)]
  }

  function PieceTexts(pieces: seq<Piece>): (texts: seq<string>)
    requires ArePieces(pieces)
    ensures |texts| == |pieces|
    ensures forall k :: 0 <= k < |texts| ==> texts[k] == PieceText(pieces[k])
  {
    seq(|pieces|, k requires 0 <= k < |pieces| => PieceText(pieces[k]))
  }

  function JoinedByAmpersand(texts: seq<string>): string {
    if texts == [] then ""
    else if |texts| == 1 then texts[0]
    else texts[0] + "&" + JoinedByAmpersand(texts[1..])
  }

  function QueryText(pieces: seq<Piece>): string
    requires ArePieces(pieces)
  {
    JoinedByAmpersand(PieceTexts(pieces))
  }

  function QueryPairs(pieces: seq<Piece>): seq<(string, string)> {
    if pieces == [] then [] else PiecePairs(pieces[0]) + QueryPairs(pieces[1..])
  }

  lemma PieceAvoids(p: Piece, c: char)
    requires IsPiece(p) && c in {'&', ' '}
    ensures c !in PieceText(p)
  {
    match p {
      case Nothing =>
      case KeyOnly(key, kf) => EncodedAvoids(key, kf, c);
      case Pair(key, kf, value, vf) =>
        EncodedAvoids(key, kf, c);
        EncodedAvoids(value, vf, c);
    }
  }

  lemma DecodePrintedPiece(p: Piece)
    requires IsPiece(p)
    ensures PieceOf(PieceText(p)) == Some(PiecePairs(p))
  {
    match p {
      case Nothing =>
      case KeyOnly(key, kf) =>
        EncodedLength(key, kf);
        EncodedAvoids(key, kf, '=');
        DecodeUndoesEncode(key, kf);
        FindCharNone(PieceText(p), '=', 0);
      case Pair(key, kf, value, vf) =>
        var k, v := Encode(key, kf), Encode(value, vf);
        EncodedAvoids(key, kf, '=');
        FirstChar(k, '=', v);
        assert PieceText(p)[..|k|] == k && PieceText(p)[|k| + 1..] == v;
        DecodeUndoesEncode(key, kf);
        DecodeUndoesEncode(value, vf);
    }
  }

  lemma FirstAmpersand(before: string, piece: string, after: string)
    requires '&' !in piece
    ensures FindChar(before + piece, '&', |before|) == None
    ensures FindChar(before + piece + "&" + after, '&', |before|) == Some(|before| + |piece|)
  {
    var s, t := before + piece, before + piece + "&" + after;
    forall k | |before| <= k < |before| + |piece| ensures s[k] != '&' && t[k] != '&' {
      assert s[k] == t[k] == piece[k - |before|];
    }
    FindCharNone(s, '&', |before|);
    FindCharIs(t, '&', |before|, |before| + |piece|);
  }

  /** A piece in front of more query text is cut off exactly at its `&`. */
  lemma CutPiece(before: string, text: string, others: string)
    requires '&' !in text
    ensures Pieces(before + text, |before|) == [text]
    ensures var query := before + (text + "&" + others);
            Pieces(query, |before|) == [text] + Pieces(query, |before + text + "&"|)
  {
    FirstAmpersand(before, text, others);
    assert (before + text)[|before|..] == text;
    var query := before + (text + "&" + others);
    assert query == before + text + "&" + others;
    assert query[|before|..|before| + |text|] == text;
  }

  lemma {:induction false} PiecesOfJoined(before: string, texts: seq<string>)
    requires texts != [] && forall k :: 0 <= k < |texts| ==> '&' !in texts[k]
    ensures Pieces(before + JoinedByAmpersand(texts), |before|) == texts
    decreases |texts|
  {
    var text := texts[0];
    if |texts| == 1 {
      CutPiece(before, text, "");
    } else {
      var others, before' := JoinedByAmpersand(texts[1..]), before + text + "&";
      CutPiece(before, text, others);
      assert before + (text + "&" + others) == before' + others;
      PiecesOfJoined(before', texts[1..]);
    }
  }

  lemma {:induction false} DecodePieceTexts(pieces: seq<Piece>)
    requires ArePieces(pieces)
    ensures DecodeAll(PieceTexts(pieces)) == Some(QueryPairs(pieces))
  {
    if pieces != [] {
      DecodePrintedPiece(pieces[0]);
      DecodePieceTexts(pieces[1..]);
      assert PieceTexts(pieces)[1..] == PieceTexts(pieces[1..]);
    }
  }

  /** The splitter rebuilds any list of pairs in order, whatever pieces stand between. */
  lemma QueryOfPrinted(pieces: seq<Piece>)
    requires ArePieces(pieces) && pieces != []
    ensures QueryOf(QueryText(pieces)) == Some(QueryPairs(pieces))
  {
    var texts := PieceTexts(pieces);
    forall k | 0 <= k < |texts| ensures '&' !in texts[k] {
      PieceAvoids(pieces[k], '&');
    }
    PiecesOfJoined("", texts);
    assert "" + QueryText(pieces) == QueryText(pieces);
    DecodePieceTexts(pieces);
    GatherOfPieces(QueryText(pieces), 0, PieceOf);
  }

  lemma {:induction false} JoinedAvoids(texts: seq<string>, c: char)
    requires c != '&' && forall k :: 0 <= k < |texts| ==> c !in texts[k]
    ensures c !in JoinedByAmpersand(texts)
  {
    if |texts| > 1 {
      JoinedAvoids(texts[1..], c);
    }
  }

  lemma QueryAvoidsSpace(pieces: seq<Piece>)
    requires ArePieces(pieces)
    ensures ' ' !in QueryText(pieces) && '\r' !in QueryText(pieces)
  {
    forall k | 0 <= k < |pieces| ensures ' ' !in PieceTexts(pieces)[k] && '\r' !in PieceTexts(pieces)[k] {
      PieceAvoids(pieces[k], ' ');
      PieceAvoidsReturn(pieces[k]);
    }
    JoinedAvoids(PieceTexts(pieces), ' ');
    JoinedAvoids(PieceTexts(pieces), '\r');
  }

  lemma EncodedAvoidsReturn(text: string, forms: seq<Form>)
    requires AllAllowed(text, forms)
    ensures '\r' !in Encode(text, forms)
  {
    forall k | 0 <= k < |text| && text[k] == '\r' ensures !forms[k].Plain? {
      assert Allowed(text[k], forms[k]);
    }
    EncodedAvoids(text, forms, '\r');
  }

  lemma PieceAvoidsReturn(p: Piece)
    requires IsPiece(p)
    ensures '\r' !in PieceText(p)
  {
    match p {
      case Nothing =>
      case KeyOnly(key, kf) => EncodedAvoidsReturn(key, kf);
      case Pair(key, kf, value, vf) =>
        EncodedAvoidsReturn(key, kf);
        EncodedAvoidsReturn(value, vf);
    }
  }

  // ----- the whole request -----

  /** A method: letters from A to Z. */
  predicate IsMethod(name: string) {
    name != "" && forall k :: 0 <= k < |name| ==> 'A' <= name[k] <= 'Z'
  }

  /** The two versions there are. */
  predicate IsVersion(version: string) {
    version == "HTTP/1.1" || version == "HTTP/1.0"
  }

  datatype Target = Target(path: string, forms: seq<Form>, query: Option<seq<Piece>>)

  predicate IsTarget(t: Target) {
    && AllAllowed(t.path, t.forms) && Hides(t.path, t.forms, '?') && Hides(t.path, t.forms, ' ')
    && t.path != "" && t.path[0] == '/' && t.forms[0].Plain?
    && (t.query.Some? ==> ArePieces(t.query.value) && t.query.value != [])
  }

  function TargetText(t: Target): string
    requires IsTarget(t)
  {
    Encode(t.path, t.forms) + if t.query.Some? then "?" + QueryText(t.query.value) else ""
  }

  function TargetPairs(t: Target): seq<(string, string)> {
    if t.query.Some? then QueryPairs(t.query.value) else []
  }

  function LineText(name: string, t: Target, version: string): string
    requires IsTarget(t)
  {
    name + [' '] + TargetText(t) + [' '] + version
  }

  function RequestText(name: string, t: Target, version: string, headers: seq<Header>): string
    requires IsTarget(t)
  {
    LineText(name, t, version) + "\r\n" + HeaderBlock(headers) + "\r\n"
  }

  lemma PrintedTarget(t: Target)
    requires IsTarget(t)
    ensures ' ' !in TargetText(t) && '\r' !in TargetText(t)
    ensures TargetText(t) != "" && TargetText(t)[0] == '/'
    ensures TargetMeaning(TargetText(t)) == Some((t.path, TargetPairs(t)))
  {
    var path := Encode(t.path, t.forms);
    EncodedAvoids(t.path, t.forms, ' ');
    EncodedAvoids(t.path, t.forms, '?');
    EncodedAvoidsReturn(t.path, t.forms);
    DecodeUndoesEncode(t.path, t.forms);
    assert path[0] == '/';
    match t.query {
      case None =>
        assert TargetText(t) == path;
        FindCharNone(path, '?', 0);
        EmptyQuery();
      case Some(pieces) =>
        QueryAvoidsSpace(pieces);
        var query := QueryText(pieces);
        assert TargetText(t) == path + "?" + query;
        FirstChar(path, '?', query);
        assert TargetText(t)[..|path|] == path && TargetText(t)[|path| + 1..] == query;
        QueryOfPrinted(pieces);
    }
  }

  lemma NoReturnNoCrlf(s: string)
    requires '\r' !in s
    ensures NoCrlf(s)
  {
    forall k ensures !CrlfAt(s, k) {
      if 0 <= k < |s| {
        assert s[k] in s;
      }
    }
  }

  lemma Regroup(a: string, b: string, c: string, d: string, e: string)
    ensures a + b + c + d + e == a + b + (c + d + e)
  {
  }

  lemma SecondSpace(name: string, target: string, version: string)
    requires ' ' !in name && ' ' !in target
    ensures var line := name + [' '] + target + [' '] + version;
            && FindChar(line, ' ', 0) == Some(|name|)
            && FindChar(line, ' ', |name| + 1) == Some(|name| + 1 + |target|)
  {
    FirstChar(name, ' ', target + [' '] + version);
    Regroup(name, [' '], target, [' '], version);
    CharAfterWord(name + [' '], target, ' ', version);
  }

  lemma PrintedLine(name: string, target: string, version: string)
    requires IsMethod(name) && IsVersion(version)
    requires ' ' !in target && target != "" && target[0] == '/'
    ensures SplitRequestLine(name + [' '] + target + [' '] + version) == Some(RequestLine(name, target))
  {
    var line := name + [' '] + target + [' '] + version;
    SecondSpace(name, target, version);
    assert line[..|name|] == name;
    assert line[|name| + 1..|name| + 1 + |target|] == target;
    assert line[|name| + 1 + |target| + 1..] == version;
  }

  /** A buffer that starts with a CRLF-free line is parsed from that line and the header
      scan behind it. */
  lemma ParseFromLine(
      line: string, rest: string, request: RequestLine, path: string, query: seq<(string, string)>, accept: string)
    requires NoCrlf(line) && SplitRequestLine(line) == Some(request)
    requires TargetMeaning(request.target) == Some((path, query))
    requires ScanHeaders((line + "\r\n") + rest, |line + "\r\n"|, "").1 == accept
    ensures Parse((line + "\r\n") + rest) == Some(Request(request.method_, path, query, accept))
  {
    FirstLineOf(line, rest);
    ParseOfParts((line + "\r\n") + rest, |line|, line, request, path, query, accept);
  }

  lemma FirstLineOf(line: string, rest: string)
    requires NoCrlf(line)
    ensures FindCrlf((line + "\r\n") + rest, 0) == Some(|line|)
    ensures ((line + "\r\n") + rest)[..|line|] == line && |line + "\r\n"| == |line| + 2
  {
    FirstCrlfEndsLine([], line, rest);
    assert [] + line + "\r\n" + rest == (line + "\r\n") + rest;
  }

  lemma ParseOfParts(
      raw: string, e: nat, line: string, request: RequestLine, path: string, query: seq<(string, string)>,
      accept: string)
    requires FindCrlf(raw, 0) == Some(e) && raw[..e] == line && SplitRequestLine(line) == Some(request)
    requires TargetMeaning(request.target) == Some((path, query))
    requires ScanHeaders(raw, e + 2, "").1 == accept
    ensures Parse(raw) == Some(Request(request.method_, path, query, accept))
  {
  }

  lemma RequestAsLines(name: string, t: Target, version: string, headers: seq<Header>, body: string)
    requires IsTarget(t)
    ensures RequestText(name, t, version, headers) + body
            == (LineText(name, t, version) + "\r\n") + AfterLine(headers, body)
  {
    AfterLineIsBlock(headers, body);
    RegroupRequest(LineText(name, t, version), "\r\n", HeaderBlock(headers), body);
  }

  lemma RegroupRequest(line: string, end: string, block: string, body: string)
    ensures line + end + block + end + body == (line + end) + (block + end + body)
  {
  }

  /** Round trip: whatever a client prints, with whatever escapes, empty query pieces,
      header order, casing and spacing, and whatever body follows, is parsed back. */
  lemma ParsePrintedRequest(name: string, t: Target, version: string, headers: seq<Header>, body: string)
    requires IsMethod(name) && IsVersion(version) && IsTarget(t) && AreHeaders(headers)
    ensures Parse(RequestText(name, t, version, headers) + body)
            == Some(Request(name, t.path, TargetPairs(t), LastAccept(headers, "")))
  {
    var line := LineText(name, t, version);
    PrintedTarget(t);
    PrintedLine(name, TargetText(t), version);
    LineWithoutReturn(name, TargetText(t), version);
    ScanPrinted(line + "\r\n", headers, body, "");
    ParseFromLine(line, AfterLine(headers, body), RequestLine(name, TargetText(t)), t.path, TargetPairs(t),
                  LastAccept(headers, ""));
    RequestAsLines(name, t, version, headers, body);
  }

  lemma LineWithoutReturn(name: string, target: string, version: string)
    requires IsMethod(name) && '\r' !in target && IsVersion(version)
    ensures NoCrlf(name + [' '] + target + [' '] + version)
  {
    NoReturnNoCrlf(name + [' '] + target + [' '] + version);
  }
}
