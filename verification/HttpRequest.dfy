/** `parse_http_request` and `find_query_param` (src/http.cpp): request line, Accept
    header and query string of one request head (section 2.1 of RFC 9112).
 */
module HttpRequest {
  import opened Text
  import opened PercentCoding

  datatype Request = Request(
    method_: string,
    path: string,
    query: seq<(string, string)>,
    accept: string)

  datatype RequestLine = RequestLine(method_: string, target: string)

  // ----- the specification -----

  predicate IsUpper(c: char) {
    'A' <= c <= 'Z'
  }

  predicate AllUpper(s: string) {
    forall k :: 0 <= k < |s| ==> IsUpper(s[k])
  }

  function SplitRequestLine(line: string): Option<RequestLine> {
    match FindChar(line, ' ', 0)
    case None => None
    case Some(sp1) =>
      match FindChar(line, ' ', sp1 + 1)
      case None => None
      case Some(sp2) =>
        var name, target := line[..sp1], line[sp1 + 1..sp2];
        var version := line[sp2 + 1..];
        if (version == "HTTP/1.1" || version == "HTTP/1.0") && name != "" && AllUpper(name)
           && target != "" && target[0] == '/'
        then Some(RequestLine(name, target))
        else None
  }

  /** The value a header line gives to Accept, if it is an Accept line. */
  function AcceptValue(line: string): Option<string> {
    match FindChar(line, ':', 0)
    case None => None
    case Some(colon) =>
      if Lower(TrimSpaces(line[..colon])) == "accept"
      then Some(TrimSpaces(line[colon + 1..]))
      else None
  }

  /** Where the header scan that starts at `pos` stops, and the Accept value it leaves. */
  function ScanHeaders(raw: string, pos: nat, accept: string): (r: (nat, string))
    ensures pos <= r.0
    decreases |raw| - pos
  {
    if pos >= |raw| then (pos, accept)
    else
      match FindCrlf(raw, pos)
      case None => (pos, accept)
      case Some(next) =>
        if next == pos then (pos, accept)
        else ScanHeaders(raw, next + 2, AcceptValue(raw[pos..next]).GetOr(accept))
  }

  // One line of the scan.
  lemma ScanEnds(raw: string, pos: nat, accept: string)
    requires FindCrlf(raw, pos) == Some(pos)
    ensures ScanHeaders(raw, pos, accept) == (pos, accept)
  {
  }

  lemma ScanStep(raw: string, pos: nat, next: nat, accept: string)
    requires FindCrlf(raw, pos) == Some(next) && next != pos
    ensures ScanHeaders(raw, pos, accept) == ScanHeaders(raw, next + 2, AcceptValue(raw[pos..next]).GetOr(accept))
  {
  }

  /** The part of a target before and after its first question mark. */
  function SplitTarget(target: string): (string, string) {
    match FindChar(target, '?', 0)
    case None => (target, "")
    case Some(q) => (target[..q], target[q + 1..])
  }

  function DecodePair(pair: string): Option<(string, string)> {
    var (key, value) :=
      match FindChar(pair, '=', 0)
      case None => (pair, "")
      case Some(eq) => (pair[..eq], pair[eq + 1..]);
    match (Decode(key), Decode(value))
    case (Some(k), Some(v)) => Some((k, v))
    case _ => None
  }

  /** What one piece between two `&` contributes: nothing if it is empty. */
  function PieceOf(piece: string): Option<seq<(string, string)>> {
    if piece == "" then Some([]) else
      match DecodePair(piece)
      case None => None
      case Some(kv) => Some([kv])
  }

  /** Puts pairs already collected before the ones still to come. */
  function Collected(done: seq<(string, string)>, rest: Option<seq<(string, string)>>)
    : Option<seq<(string, string)>>
  {
    match rest
    case None => None
    case Some(more) => Some(done + more)
  }

  /** A query string from `start` on, cut at every `&`. */
  function Pieces(query: string, start: nat): seq<string>
    requires start <= |query|
    decreases |query| - start
  {
    match FindChar(query, '&', start)
    case None => [query[start..]]
    case Some(amp) => [query[start..amp]] + Pieces(query, amp + 1)
  }

  /** What one piece of a query contributes, if it can be read. */
  type PieceReader = string -> Option<seq<(string, string)>>

  function Gather(pieces: seq<string>, read: PieceReader): Option<seq<(string, string)>> {
    if pieces == [] then Some([])
    else
      match read(pieces[0])
      case None => None
      case Some(here) => Collected(here, Gather(pieces[1..], read))
  }

  /** The pairs of a query string from `start` on, piece by piece. */
  function GatherFrom(query: string, start: nat, read: PieceReader): Option<seq<(string, string)>>
    requires start <= |query|
    decreases |query| - start
  {
    var amp := FindChar(query, '&', start);
    match read(if amp.None? then query[start..] else query[start..amp.value])
    case None => None
    case Some(here) =>
      if amp.None? then Some(here) else Collected(here, GatherFrom(query, amp.value + 1, read))
  }

  function DecodeAll(pieces: seq<string>): Option<seq<(string, string)>> {
    Gather(pieces, PieceOf)
  }

  function QueryOf(query: string): Option<seq<(string, string)>> {
    GatherFrom(query, 0, PieceOf)
  }

  /** Decoded path and query pairs of a target. */
  function TargetMeaning(target: string): Option<(string, seq<(string, string)>)> {
    var (path, query) := SplitTarget(target);
    match (Decode(path), QueryOf(query))
    case (Some(p), Some(q)) => Some((p, q))
    case _ => None
  }

  function Parse(raw: string): Option<Request> {
    match FindCrlf(raw, 0)
    case None => None
    case Some(lineEnd) =>
      match SplitRequestLine(raw[..lineEnd])
      case None => None
      case Some(line) =>
        match TargetMeaning(line.target)
        case None => None
        case Some((path, query)) =>
          Some(Request(line.method_, path, query, ScanHeaders(raw, lineEnd + 2, "").1))
  }

  // ----- the program's loops -----

  method ScanAccept(raw: string, start: nat) returns (accept: string)
    ensures accept == ScanHeaders(raw, start, "").1
  {
    accept := "";
    var pos := start;
    while pos < |raw|
      invariant ScanHeaders(raw, start, "").1 == ScanHeaders(raw, pos, accept).1
      decreases |raw| - pos
    {
      var next := FindCrlf(raw, pos);
      if next.None? || next.value == pos {
        break;
      }
      var line := raw[pos..next.value];
      var colon := FindChar(line, ':', 0);
      if colon.Some? {
        var name := Lower(TrimSpaces(line[..colon.value]));
        if name == "accept" {
          accept := TrimSpaces(line[colon.value + 1..]);
        }
      }
      pos := next.value + 2;
    }
  }

  method ReadPair(pair: string) returns (ok: bool, key: string, value: string)
    ensures DecodePair(pair) == if ok then Some((key, value)) else None
  {
    key, value := "", "";
    var eq := FindChar(pair, '=', 0);
    var keyText := if eq.None? then pair else pair[..eq.value];
    var valueText := if eq.None? then "" else pair[eq.value + 1..];
    ok, key := PercentDecode(keyText);
    if ok {
      ok, value := PercentDecode(valueText);
    }
  }

  // The reader the query loop uses, under a name whose definition the loop does not need.
  ghost predicate IsPieceOf(read: PieceReader) {
    read("") == Some([]) && forall piece {:trigger PieceOf(piece)} :: read(piece) == PieceOf(piece)
  }

  /** The pair a piece between two ampersands gives, none if it is empty. */
  method ReadPiece(piece: string, ghost read: PieceReader) returns (ok: bool, here: seq<(string, string)>)
    requires IsPieceOf(read)
    ensures read(piece) == if ok then Some(here) else None
  {
    assert read(piece) == PieceOf(piece);
    if piece == "" {
      return true, [];
    }
    var key, value;
    ok, key, value := ReadPair(piece);
    here := [(key, value)];
  }

  lemma CollectedTwice(a: seq<(string, string)>, b: seq<(string, string)>, rest: Option<seq<(string, string)>>)
    ensures Collected(a, Collected(b, rest)) == Collected(a + b, rest)
  {
    if rest.Some? {
      assert a + (b + rest.value) == (a + b) + rest.value;
    }
  }

  lemma CollectedNothing(rest: Option<seq<(string, string)>>)
    ensures Collected([], rest) == rest
  {
    if rest.Some? {
      assert [] + rest.value == rest.value;
    }
  }

  lemma GatherCons(piece: string, others: seq<string>, read: PieceReader)
    ensures Gather([piece] + others, read)
            == match read(piece)
               case None => None
               case Some(here) => Collected(here, Gather(others, read))
  {
    assert ([piece] + others)[1..] == others;
  }

  lemma GatherOne(piece: string, read: PieceReader)
    ensures Gather([piece], read) == read(piece)
  {
    GatherCons(piece, [], read);
    assert [piece] + [] == [piece];
    if read(piece).Some? {
      assert read(piece).value + [] == read(piece).value;
    }
  }

  /** The pairs of a query are those of its pieces. */
  lemma {:induction false} GatherOfPieces(query: string, start: nat, read: PieceReader)
    requires start <= |query|
    ensures GatherFrom(query, start, read) == Gather(Pieces(query, start), read)
    decreases |query| - start
  {
    match FindChar(query, '&', start) {
      case None => GatherOne(query[start..], read);
      case Some(amp) =>
        GatherOfPieces(query, amp + 1, read);
        GatherCons(query[start..amp], Pieces(query, amp + 1), read);
    }
  }

  /** The query loop; `read` is what `ReadPiece` computes. */
  method ReadPairs(query: string, ghost read: PieceReader) returns (ok: bool, pairs: seq<(string, string)>)
    requires IsPieceOf(read)
    ensures GatherFrom(query, 0, read) == if ok then Some(pairs) else None
  {
    pairs := [];
    var start := 0;
    CollectedNothing(GatherFrom(query, 0, read));
    while query != "" && start <= |query|
      invariant start <= |query|
      invariant query == "" ==> pairs == []
      invariant GatherFrom(query, 0, read) == Collected(pairs, GatherFrom(query, start, read))
      decreases |query| - start
    {
      var amp := FindChar(query, '&', start);
      var pieceOk, here := ReadPiece(if amp.None? then query[start..] else query[start..amp.value], read);
      if !pieceOk {
        return false, pairs;
      }
      if amp.None? {
        return true, pairs + here;
      }
      CollectedTwice(pairs, here, GatherFrom(query, amp.value + 1, read));
      pairs := pairs + here;
      start := amp.value + 1;
    }
    return true, pairs;
  }

  method ParseQuery(query: string) returns (ok: bool, pairs: seq<(string, string)>)
    ensures QueryOf(query) == if ok then Some(pairs) else None
  {
    ok, pairs := ReadPairs(query, PieceOf);
  }

  lemma EmptyQuery()
    ensures QueryOf("") == Some([])
  {
  }

  method ReadRequestLine(line: string) returns (ok: bool, name: string, target: string)
    ensures ok <==> SplitRequestLine(line).Some?
    ensures ok ==> SplitRequestLine(line) == Some(RequestLine(name, target))
  {
    name, target := "", "";
    var sp1 := FindChar(line, ' ', 0);
    if sp1.None? {
      return false, name, target;
    }
    var sp2 := FindChar(line, ' ', sp1.value + 1);
    if sp2.None? {
      return false, name, target;
    }
    name := line[..sp1.value];
    target := line[sp1.value + 1..sp2.value];
    var version := line[sp2.value + 1..];
    if version != "HTTP/1.1" && version != "HTTP/1.0" {
      return false, name, target;
    }
    if name == "" || target == "" || target[0] != '/' {
      return false, name, target;
    }
    for k := 0 to |name|
      invariant forall j :: 0 <= j < k ==> IsUpper(name[j])
    {
      if !IsUpper(name[k]) {
        return false, name, target;
      }
    }
    return true, name, target;
  }

  method ParseHttpRequest(raw: string) returns (ok: bool, req: Request)
    ensures ok <==> Parse(raw).Some?
    ensures ok ==> Parse(raw) == Some(req)
  {
    req := Request("", "", [], "");
    var lineEnd := FindCrlf(raw, 0);
    if lineEnd.None? {
      return false, req;
    }
    var lineOk, name, target := ReadRequestLine(raw[..lineEnd.value]);
    if !lineOk {
      return false, req;
    }
    var accept := ScanAccept(raw, lineEnd.value + 2);
    var (pathText, queryText) := SplitTarget(target);
    var pathOk, path := PercentDecode(pathText);
    if !pathOk {
      return false, req;
    }
    var queryOk, query := ParseQuery(queryText);
    if !queryOk {
      return false, req;
    }
    return true, Request(name, path, query, accept);
  }

  /** The first value a query gives to a key. */
  method FindQueryParam(query: seq<(string, string)>, key: string) returns (found: bool, value: string)
    ensures found <==> exists k :: 0 <= k < |query| && query[k].0 == key
    ensures found ==> exists k :: 0 <= k < |query| && query[k] == (key, value)
                                  && forall j :: 0 <= j < k ==> query[j].0 != key
  {
    for k := 0 to |query|
      invariant forall j :: 0 <= j < k ==> query[j].0 != key
    {
      if query[k].0 == key {
        return true, query[k].1;
      }
    }
    return false, "";
  }
}
