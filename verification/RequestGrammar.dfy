/** The parser accepts nothing but printed requests: every accepted head is taken apart
    into a printing of what was parsed.
 */
module RequestGrammar {
  import opened Text
  import opened PercentCoding
  import opened HttpRequest
  import opened HttpHead
  import opened RequestRoundTrip

  // ----- header lines -----

  function Leading(s: string): (r: string)
    ensures AllSpaces(r)
  {
    if s != "" && s[0] == ' ' then " " + Leading(s[1..]) else ""
  }

  function Trailing(s: string): (r: string)
    ensures AllSpaces(r)
  {
    if s != "" && s[|s| - 1] == ' ' then Trailing(s[..|s| - 1]) + " " else ""
  }

  lemma {:induction false} LeadingCut(s: string)
    ensures s == Leading(s) + TrimLeft(s)
    ensures TrimLeft(s) == "" || TrimLeft(s)[0] != ' '
  {
    if s != "" && s[0] == ' ' {
      LeadingCut(s[1..]);
      assert s == " " + s[1..];
    }
  }

  lemma {:induction false} TrailingCut(s: string)
    ensures s == TrimRight(s) + Trailing(s)
    ensures TrimRight(s) == "" || TrimRight(s)[|TrimRight(s)| - 1] != ' '
    ensures TrimRight(s) == "" || TrimRight(s)[0] == s[0]
  {
    if s != "" && s[|s| - 1] == ' ' {
      TrailingCut(s[..|s| - 1]);
      assert s == s[..|s| - 1] + " ";
    }
  }

  lemma TrimmedParts(s: string)
    ensures Trimmed(TrimSpaces(s))
    ensures s == Leading(s) + TrimSpaces(s) + Trailing(TrimLeft(s))
  {
    LeadingCut(s);
    TrailingCut(TrimLeft(s));
  }

  /** The printing a header line is. */
  function HeaderOf(line: string): Header {
    match FindChar(line, ':', 0)
    case None => BareLine(line)
    case Some(colon) =>
      var name, value := line[..colon], line[colon + 1..];
      if InAnyCase(TrimSpaces(name), "accept")
      then AcceptHeader(Leading(name), TrimSpaces(name), Trailing(TrimLeft(name)),
                        Leading(value), TrimSpaces(value), Trailing(TrimLeft(value)))
      else NamedHeader(name, value)
  }

  lemma AtColon(line: string, colon: nat)
    requires FindChar(line, ':', 0) == Some(colon)
    ensures line == line[..colon] + ":" + line[colon + 1..]
    ensures ':' !in line[..colon]
  {
    FindCharFirst(line, ':', 0);
  }

  lemma WithoutColon(line: string)
    requires FindChar(line, ':', 0) == None
    ensures ':' !in line
  {
    FindCharFirst(line, ':', 0);
  }

  lemma AcceptHeaderPrints(line: string, name: string, value: string)
    requires line == name + ":" + value
    ensures HeaderText(AcceptHeader(Leading(name), TrimSpaces(name), Trailing(TrimLeft(name)),
                                    Leading(value), TrimSpaces(value), Trailing(TrimLeft(value)))) == line
    ensures Trimmed(TrimSpaces(value))
  {
    TrimmedParts(name);
    TrimmedParts(value);
  }

  lemma HeaderOfPrints(line: string)
    requires NoCrlf(line) && line != ""
    ensures HeaderText(HeaderOf(line)) == line
    ensures IsHeader(HeaderOf(line))
  {
    match FindChar(line, ':', 0) {
      case None => WithoutColon(line);
      case Some(colon) =>
        AtColon(line, colon);
        AcceptHeaderPrints(line, line[..colon], line[colon + 1..]);
    }
  }

  lemma LineIsCrlfFree(raw: string, pos: nat, next: nat)
    requires FindCrlf(raw, pos) == Some(next)
    ensures NoCrlf(raw[pos..next])
  {
    FindCrlfFirst(raw, pos);
    forall k ensures !CrlfAt(raw[pos..next], k) {
      if CrlfAt(raw[pos..next], k) {
        assert CrlfAt(raw, pos + k);
      }
    }
  }

  lemma CutAfterCrlf(raw: string, pos: nat, next: nat)
    requires pos <= next && CrlfAt(raw, next)
    ensures raw[pos..] == raw[pos..next] + "\r\n" + raw[next + 2..]
    ensures raw[next..] == "\r\n" + raw[next + 2..]
  {
  }

  /** The header lines from a line boundary of the head to its blank line. */
  lemma {:induction false} HeadersOf(raw: string, p: nat, pos: nat) returns (headers: seq<Header>)
    requires FindBlankLine(raw, 0) == Some(p)
    requires 2 <= pos <= p + 2 && CrlfAt(raw, pos - 2)
    ensures AreHeaders(headers)
    ensures raw[pos..] == AfterLine(headers, raw[p + 4..])
    decreases p + 2 - pos
  {
    CutKeepsCrlf(raw, p, pos);
    var next := FindCrlf(raw, pos).value;
    if next == pos {
      EmptyLineIsBlankLine(raw, p, pos);
      CutAfterCrlf(raw, pos, pos);
      headers := [];
    } else {
      NextBoundary(raw, p, pos, next);
      var line := raw[pos..next];
      LineIsCrlfFree(raw, pos, next);
      HeaderOfPrints(line);
      var others := HeadersOf(raw, p, next + 2);
      headers := [HeaderOf(line)] + others;
      CutAfterCrlf(raw, pos, next);
      AfterOneMore(HeaderOf(line), others, raw[p + 4..]);
    }
  }

  lemma AfterOneMore(h: Header, others: seq<Header>, body: string)
    ensures AfterLine([h] + others, body) == HeaderText(h) + "\r\n" + AfterLine(others, body)
    ensures IsHeader(h) && AreHeaders(others) ==> AreHeaders([h] + others)
  {
    assert ([h] + others)[1..] == others;
  }

  // ----- query strings -----

  /** A byte an encoding does not contain was not left as it is. */
  lemma {:induction false} AbsentIsHidden(text: string, forms: seq<Form>, c: char)
    requires AllAllowed(text, forms) && c !in Encode(text, forms)
    ensures Hides(text, forms, c)
  {
    if text != "" {
      AbsentIsHidden(text[1..], forms[1..], c);
      forall k | 0 <= k < |text| && text[k] == c ensures !forms[k].Plain? {
        if k > 0 {
          assert text[1..][k - 1] == c && forms[1..][k - 1] == forms[k];
        }
      }
    }
  }

  function PrintedPiece(text: string): Piece {
    if text == "" then Nothing
    else
      match FindChar(text, '=', 0)
      case None => KeyOnly(Decode(text).GetOr(""), FormsOf(text))
      case Some(eq) =>
        Pair(Decode(text[..eq]).GetOr(""), FormsOf(text[..eq]),
             Decode(text[eq + 1..]).GetOr(""), FormsOf(text[eq + 1..]))
  }

  lemma EncodingAvoids(text: string, c: char)
    requires Decode(text).Some? && c !in text
    ensures AllAllowed(Decode(text).value, FormsOf(text))
    ensures Encode(Decode(text).value, FormsOf(text)) == text
    ensures Hides(Decode(text).value, FormsOf(text), c)
  {
    AcceptedIsEncoded(text);
    AbsentIsHidden(Decode(text).value, FormsOf(text), c);
  }

  lemma RejoinPair(text: string, eq: nat)
    requires eq < |text| && text[eq] == '='
    ensures text == text[..eq] + "=" + text[eq + 1..]
  {
  }

  lemma PrintedPiecePrints(text: string)
    requires PieceOf(text).Some? && '&' !in text && ' ' !in text
    ensures IsPiece(PrintedPiece(text))
    ensures PieceText(PrintedPiece(text)) == text
  {
    if text != "" {
      FindCharFirst(text, '=', 0);
      match FindChar(text, '=', 0) {
        case None =>
          EncodingAvoids(text, '&');
          EncodingAvoids(text, ' ');
          EncodingAvoids(text, '=');
        case Some(eq) =>
          var key, value := text[..eq], text[eq + 1..];
          EncodingAvoids(key, '&');
          EncodingAvoids(key, ' ');
          EncodingAvoids(key, '=');
          EncodingAvoids(value, '&');
          EncodingAvoids(value, ' ');
          RejoinPair(text, eq);
      }
    }
  }

  /** Joining what the `&` cuts produced gives the query back. */
  lemma {:induction false} JoinedOfPieces(query: string, start: nat)
    requires start <= |query|
    ensures Pieces(query, start) != []
    ensures JoinedByAmpersand(Pieces(query, start)) == query[start..]
    ensures forall k :: 0 <= k < |Pieces(query, start)| ==> '&' !in Pieces(query, start)[k]
    decreases |query| - start
  {
    FindCharFirst(query, '&', start);
    var pieces := Pieces(query, start);
    match FindChar(query, '&', start) {
      case None =>
      case Some(amp) =>
        JoinedOfPieces(query, amp + 1);
        assert pieces[1..] == Pieces(query, amp + 1);
        assert query[start..] == query[start..amp] + "&" + query[amp + 1..];
    }
  }

  lemma {:induction false} PiecesAvoid(query: string, start: nat, c: char)
    requires start <= |query| && c !in query
    ensures forall k :: 0 <= k < |Pieces(query, start)| ==> c !in Pieces(query, start)[k]
    decreases |query| - start
  {
    match FindChar(query, '&', start) {
      case None =>
      case Some(amp) => PiecesAvoid(query, amp + 1, c);
    }
  }

  lemma {:induction false} AllPiecesDecode(texts: seq<string>)
    requires DecodeAll(texts).Some?
    ensures forall k :: 0 <= k < |texts| ==> PieceOf(texts[k]).Some?
  {
    if texts != [] {
      AllPiecesDecode(texts[1..]);
      forall k | 0 <= k < |texts| ensures PieceOf(texts[k]).Some? {
        if k > 0 {
          assert texts[1..][k - 1] == texts[k];
        }
      }
    }
  }

  lemma QueryIsPrinted(query: string) returns (pieces: seq<Piece>)
    requires QueryOf(query).Some? && ' ' !in query
    ensures pieces != [] && ArePieces(pieces) && QueryText(pieces) == query
  {
    var texts := Pieces(query, 0);
    JoinedOfPieces(query, 0);
    PiecesAvoid(query, 0, ' ');
    GatherOfPieces(query, 0, PieceOf);
    AllPiecesDecode(texts);
    pieces := seq(|texts|, k requires 0 <= k < |texts| => PrintedPiece(texts[k]));
    forall k | 0 <= k < |texts| ensures IsPiece(pieces[k]) && PieceText(pieces[k]) == texts[k] {
      PrintedPiecePrints(texts[k]);
    }
    assert PieceTexts(pieces) == texts;
    assert query[0..] == query;
  }

  // ----- targets and request lines -----

  lemma SlashStaysPlain(path: string)
    requires Decode(path).Some? && path != "" && path[0] == '/'
    ensures Decode(path).value != "" && Decode(path).value[0] == '/' && FormsOf(path)[0].Plain?
  {
    AcceptedIsEncoded(path);
  }

  lemma TargetOf(path: string, query: Option<seq<Piece>>) returns (t: Target)
    requires Decode(path).Some? && '?' !in path && ' ' !in path && path != "" && path[0] == '/'
    requires query.Some? ==> query.value != [] && ArePieces(query.value)
    ensures IsTarget(t)
    ensures TargetText(t) == path + if query.Some? then "?" + QueryText(query.value) else ""
  {
    EncodingAvoids(path, '?');
    EncodingAvoids(path, ' ');
    SlashStaysPlain(path);
    t := Target(Decode(path).value, FormsOf(path), query);
  }

  lemma MeaningOfParts(target: string)
    requires TargetMeaning(target).Some?
    ensures Decode(SplitTarget(target).0).Some? && QueryOf(SplitTarget(target).1).Some?
  {
  }

  lemma TargetCut(target: string)
    requires target != "" && target[0] == '/' && ' ' !in target
    ensures var (path, query) := SplitTarget(target);
            && '?' !in path && path != "" && path[0] == '/'
            && ' ' !in path && ' ' !in query
            && target == path + if FindChar(target, '?', 0).Some? then "?" + query else ""
  {
    FindCharFirst(target, '?', 0);
    if FindChar(target, '?', 0).Some? {
      CutAtMark(target, FindChar(target, '?', 0).value);
    } else {
      assert target + [] == target;
    }
  }

  lemma CutAtMark(target: string, q: nat)
    requires q < |target| && target[q] == '?'
    ensures target == target[..q] + (['?'] + target[q + 1..])
  {
  }

  lemma TargetIsPrinted(target: string) returns (t: Target)
    requires TargetMeaning(target).Some? && ' ' !in target && target != "" && target[0] == '/'
    ensures IsTarget(t) && TargetText(t) == target
  {
    MeaningOfParts(target);
    TargetCut(target);
    var path, query := SplitTarget(target).0, SplitTarget(target).1;
    if FindChar(target, '?', 0).Some? {
      var pieces := QueryIsPrinted(query);
      t := TargetOf(path, Some(pieces));
    } else {
      t := TargetOf(path, None);
    }
  }

  lemma LineIsPrinted(line: string)
    requires SplitRequestLine(line).Some?
    ensures var request := SplitRequestLine(line).value;
            && IsMethod(request.method_)
            && ' ' !in request.target && request.target != "" && request.target[0] == '/'
            && exists version :: IsVersion(version)
                                 && line == request.method_ + [' '] + request.target + [' '] + version
  {
    var sp1 := FindChar(line, ' ', 0).value;
    var sp2 := FindChar(line, ' ', sp1 + 1).value;
    FindCharFirst(line, ' ', sp1 + 1);
    var target := line[sp1 + 1..sp2];
    forall k | 0 <= k < |target| ensures target[k] != ' ' {
      assert target[k] == line[sp1 + 1 + k];
    }
    var version := line[sp2 + 1..];
    assert line == line[..sp1] + [' '] + line[sp1 + 1..sp2] + [' '] + version;
  }

  /** The request line, exactly: a run of letters from A to Z, a target that starts with a
      slash and holds no space, and one of the two versions, with single spaces between. */
  lemma RequestLineExactly(line: string, name: string, target: string)
    ensures SplitRequestLine(line) == Some(RequestLine(name, target)) <==>
              && name != "" && (forall k :: 0 <= k < |name| ==> 'A' <= name[k] <= 'Z')
              && target != "" && target[0] == '/' && ' ' !in target
              && (line == name + [' '] + target + [' '] + "HTTP/1.1"
                  || line == name + [' '] + target + [' '] + "HTTP/1.0")
  {
    if SplitRequestLine(line) == Some(RequestLine(name, target)) {
      LineIsPrinted(line);
    } else if IsMethod(name) && target != "" && target[0] == '/' && ' ' !in target {
      PrintedLine(name, target, "HTTP/1.1");
      PrintedLine(name, target, "HTTP/1.0");
    }
  }

  ghost predicate IsPrinting(raw: string, name: string, t: Target, version: string,
                             headers: seq<Header>, body: string)
  {
    && name != "" && (forall k :: 0 <= k < |name| ==> 'A' <= name[k] <= 'Z')
    && (version == "HTTP/1.1" || version == "HTTP/1.0")
    && IsTarget(t) && AreHeaders(headers)
    && raw == RequestText(name, t, version, headers) + body
  }

  lemma LineAndRest(raw: string, e: nat)
    requires CrlfAt(raw, e)
    ensures raw == raw[..e] + "\r\n" + raw[e + 2..]
  {
  }

  lemma ParseReadsLine(raw: string, e: nat)
    requires FindCrlf(raw, 0) == Some(e) && Parse(raw).Some?
    ensures SplitRequestLine(raw[..e]).Some?
    ensures TargetMeaning(SplitRequestLine(raw[..e]).value.target).Some?
  {
  }

  /** Everything accepted is a printing. */
  lemma AcceptedIsPrinted(raw: string, p: nat)
    returns (name: string, t: Target, version: string, headers: seq<Header>)
    requires FindBlankLine(raw, 0) == Some(p) && Parse(raw).Some?
    ensures IsPrinting(raw, name, t, version, headers, raw[p + 4..])
  {
    CutKeepsCrlf(raw, p, 0);
    var e := FindCrlf(raw, 0).value;
    ParseReadsLine(raw, e);
    LineAndRest(raw, e);
    headers := HeadersOf(raw, p, e + 2);
    var line := raw[..e];
    LineIsPrinted(line);
    var request := SplitRequestLine(line).value;
    name := request.method_;
    version :| IsVersion(version) && line == name + [' '] + request.target + [' '] + version;
    t := TargetIsPrinted(request.target);
    RequestAsLines(name, t, version, headers, raw[p + 4..]);
  }

  ghost predicate Prints(raw: string, request: Request) {
    exists name, t, version, headers, body ::
      && IsPrinting(raw, name, t, version, headers, body)
      && request == Request(name, t.path, TargetPairs(t), LastAccept(headers, ""))
  }

  /** The parser decides exactly the printed requests: a complete head is accepted with a
      request iff it is a printing of that request. */
  lemma ParseAcceptsExactlyPrintings(raw: string, request: Request)
    requires FindBlankLine(raw, 0).Some?
    ensures Parse(raw) == Some(request) <==> Prints(raw, request)
  {
    if Parse(raw) == Some(request) {
      AcceptedPrints(raw, request);
    }
    if Prints(raw, request) {
      PrintedIsAccepted(raw, request);
    }
  }

  lemma PrintingParses(raw: string, name: string, t: Target, version: string, headers: seq<Header>, body: string)
    requires IsPrinting(raw, name, t, version, headers, body)
    ensures Parse(raw) == Some(Request(name, t.path, TargetPairs(t), LastAccept(headers, "")))
  {
    ParsePrintedRequest(name, t, version, headers, body);
  }

  lemma PrintsRequest(raw: string, name: string, t: Target, version: string, headers: seq<Header>, body: string)
    requires IsPrinting(raw, name, t, version, headers, body)
    ensures Prints(raw, Request(name, t.path, TargetPairs(t), LastAccept(headers, "")))
  {
  }

  lemma AcceptedPrints(raw: string, request: Request)
    requires FindBlankLine(raw, 0).Some? && Parse(raw) == Some(request)
    ensures Prints(raw, request)
  {
    var p := FindBlankLine(raw, 0).value;
    var name, t, version, headers := AcceptedIsPrinted(raw, p);
    PrintingParses(raw, name, t, version, headers, raw[p + 4..]);
    PrintsRequest(raw, name, t, version, headers, raw[p + 4..]);
  }

  lemma PrintedIsAccepted(raw: string, request: Request)
    requires Prints(raw, request)
    ensures Parse(raw) == Some(request)
  {
    var name, t, version, headers, body :|
      && IsPrinting(raw, name, t, version, headers, body)
      && request == Request(name, t.path, TargetPairs(t), LastAccept(headers, ""));
    PrintingParses(raw, name, t, version, headers, body);
  }
}
