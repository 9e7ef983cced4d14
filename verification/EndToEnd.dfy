/** A whole exchange: a client prints a lookup, TCP cuts it into pieces, the daemon reads,
    parses, answers and writes, and the client reads the reply.
 */
module EndToEnd {
  import opened Text
  import opened GeoIpTypes
  import opened Metrics
  import opened HttpRequest
  import opened HttpHead
  import opened RequestRoundTrip
  import opened HttpResponse
  import opened LookupBodies
  import opened Handler
  import J = Json
  import U = Utf8

  lemma {:induction false} BlockEndsWithCrlf(headers: seq<Header>)
    ensures headers != [] ==> |HeaderBlock(headers)| >= 2 && CrlfAt(HeaderBlock(headers), |HeaderBlock(headers)| - 2)
  {
    if |headers| > 1 {
      BlockEndsWithCrlf(headers[1..]);
      EndsInside(HeaderText(headers[0]) + "\r\n", HeaderBlock(headers[1..]));
    } else if headers != [] {
      assert headers[1..] == [];
      assert HeaderBlock(headers) == HeaderText(headers[0]) + "\r\n";
    }
  }

  lemma EndsInside(a: string, b: string)
    requires |b| >= 2 && CrlfAt(b, |b| - 2)
    ensures CrlfAt(a + b, |a + b| - 2)
  {
  }

  lemma BlankLineBehind(head: string, body: string)
    requires |head| >= 2 && CrlfAt(head, |head| - 2)
    ensures BlankLineAt(head + ['\r', '\n'] + body, |head| - 2)
  {
    var s := head + ['\r', '\n'] + body;
    assert s[|head| - 2] == '\r' && s[|head| - 1] == '\n' && s[|head|] == '\r' && s[|head| + 1] == '\n';
  }

  /** A printed request is a complete head. */
  lemma PrintedHasBlankLine(name: string, t: Target, version: string, headers: seq<Header>, body: string)
    requires IsTarget(t)
    ensures FindBlankLine(RequestText(name, t, version, headers) + body, 0).Some?
  {
    var line, block := LineText(name, t, version), HeaderBlock(headers);
    var head := line + "\r\n" + block;
    BlockEndsWithCrlf(headers);
    if headers == [] {
      assert head == line + "\r\n";
    } else {
      EndsInside(line + "\r\n", block);
    }
    BlankLineBehind(head, body);
    assert RequestText(name, t, version, headers) == head + ['\r', '\n'];
    FindBlankLineFirst(RequestText(name, t, version, headers) + body, 0);
  }

  /** However TCP cuts a printed request, the daemon parses the request that was printed. */
  lemma ServesWhatWasPrinted(
      name: string, t: Target, version: string, headers: seq<Header>, body: string,
      events: seq<Event>, maxBytes: nat)
    requires name != "" && forall k :: 0 <= k < |name| ==> 'A' <= name[k] <= 'Z'
    requires version == "HTTP/1.1" || version == "HTTP/1.0"
    requires IsTarget(t) && AreHeaders(headers)
    requires IsSplit(events) && Joined(events) == RequestText(name, t, version, headers) + body
    requires |Joined(events)| <= maxBytes
    ensures var (read, raw) := ReadFrom(events, maxBytes, "");
            read == Ok && Parse(raw) == Some(Printed(name, t, headers))
  {
    PrintedHasBlankLine(name, t, version, headers, body);
    FragmentationIndependence(events, maxBytes);
    ParsePrintedRequest(name, t, version, headers, body);
  }

  /** The request a client means by what it prints. */
  function Printed(name: string, t: Target, headers: seq<Header>): Request
    requires IsTarget(t)
  {
    Request(name, t.path, TargetPairs(t), LastAccept(headers, ""))
  }

  // ----- what a client reads -----

  /** The body of an error, as an object of one member or as a line. */
  predicate TellsProblem(body: string, message: string, kind: Format) {
    if kind == Json then J.ReadObject(body) == Some([J.Member("error", J.Str(message))])
    else body == "error=" + message + "\n"
  }

  /** The body of a located address: every field, in JSON or as lines; and it is JSON exactly
      if both coordinates are JSON numbers and every text is UTF-8. */
  predicate TellsAddress(body: string, ip: string, r: LookupResult, kind: Format) {
    if kind == Json then
      && J.ScanObject(body).Some? && JsonTells(J.ScanObject(body).value, ip, r)
      && J.ReadObject(body) == if HasJsonNumbers(r) && HasUtf8Texts(ip, r) then J.ScanObject(body) else None
    else ReadIni(body).Some? && IniTells(ReadIni(body).value, ip, r)
  }

  /** The representation a client asks for. */
  ghost function KindFor(accept: string): Format {
    if Mentions(accept, "text/plain") && !Mentions(accept, "application/json") then Plain else Json
  }

  ghost predicate IsProblem(wire: Wire, status: nat, message: string, kind: Format) {
    Says(wire, status, kind, true) && TellsProblem(wire.body, message, kind)
  }

  /** What there is to learn about an address that was named. */
  ghost predicate LearnsAddress(env: Env, ip: string, kind: Format, wire: Wire) {
    if |ip| > 45 || !env.isAddress(ip) then IsProblem(wire, 400, "invalid ip address", kind)
    else if env.lookup(ip).error then IsProblem(wire, 500, "internal database error", kind)
    else if !env.lookup(ip).result.found then IsProblem(wire, 404, "no geoip information found", kind)
    else
      && Says(wire, 200, kind, true) && HeadersTell(wire.fields, env.lookup(ip).result)
      && TellsAddress(wire.body, ip, env.lookup(ip).result, kind)
  }

  ghost predicate LearnsLookup(env: Env, req: Request, wire: Wire) {
    var asked := FirstValue(req.query, "ip");
    if asked == None || asked == Some("") then IsProblem(wire, 400, "missing ip parameter", KindFor(req.accept))
    else LearnsAddress(env, asked.value, KindFor(req.accept), wire)
  }

  ghost predicate LearnsHealth(env: Env, req: Request, wire: Wire) {
    if Mentions(req.accept, "application/json") then Says(wire, 200, Json, true) && wire.body == env.healthJson
    else Says(wire, 200, Plain, true) && wire.body == "status=ok\n"
  }

  /** What a client reads that sent this request, path by path. */
  ghost predicate LearnsWithBody(env: Env, req: Request, wire: Wire) {
    if req.method_ != "GET" && req.method_ != "HEAD" then
      && IsProblem(wire, 405, "method not allowed", KindFor(req.accept))
      && FirstValue(wire.fields, "Allow") == Some("GET, HEAD")
    else if req.path == "/lookup" then LearnsLookup(env, req, wire)
    else if req.path == "/health" then LearnsHealth(env, req, wire)
    else if req.path == "/metrics" then Says(wire, 200, Prometheus, true) && wire.body == env.metricsText
    else IsProblem(wire, 404, "not found", KindFor(req.accept))
  }

  /** A HEAD reply to what would otherwise be answered with `full`: the same status and fields
      but for the content type, the length the body would have, and no body. */
  predicate IsHeadOf(wire: Wire, full: Wire) {
    && wire.status == full.status && wire.reason == full.reason && wire.body == ""
    && full.fields != [] && full.fields[0].0 == "Content-Type" && wire.fields == full.fields[1..]
    && FirstValue(wire.fields, "Content-Length") == Some(Decimal(|full.body|))
  }

  /** What a client that sent this request learns from a reply. */
  ghost predicate Learns(env: Env, req: Request, wire: Wire) {
    if req.method_ == "HEAD" then exists full :: LearnsWithBody(env, req, full) && IsHeadOf(wire, full)
    else LearnsWithBody(env, req, wire)
  }

  lemma ShortMessagesAreAscii()
    ensures U.IsAscii(Message(RequestTooLarge)) && U.IsAscii(Message(MethodNotAllowed))
    ensures U.IsAscii(Message(InvalidIp)) && U.IsAscii(Message(UnknownPath))
  {
  }

  lemma LongMessagesAreAscii()
    ensures U.IsAscii(Message(MalformedRequest)) && U.IsAscii(Message(MissingIp))
    ensures U.IsAscii(Message(DatabaseError)) && U.IsAscii(Message(NothingFound))
  {
  }

  lemma MessageIsUtf8(p: Problem)
    ensures U.IsUtf8(Message(p))
  {
    ShortMessagesAreAscii();
    LongMessagesAreAscii();
    U.AsciiIsUtf8(Message(p));
  }

  lemma ProblemIsTold(status: nat, message: string, kind: Format, headers: seq<(string, string)>)
    requires U.IsUtf8(message)
    ensures IsProblem(WireOf(ErrorResponse(status, message, kind).(headers := headers), true), status, message, kind)
  {
    ErrorBodyReads(status, message);
    ResponseSays(ErrorResponse(status, message, kind).(headers := headers), true);
  }

  lemma RejectionIsTold(p: Problem, kind: Format)
    ensures IsProblem(WireOf(Problematic(p, kind), true), StatusOf(p), Message(p), kind)
  {
    MessageIsUtf8(p);
    ProblemIsTold(StatusOf(p), Message(p), kind, []);
    assert Problematic(p, kind).(headers := []) == Problematic(p, kind);
  }

  lemma AllowIsRead(resp: Response)
    requires resp.headers == [("Allow", "GET, HEAD")]
    ensures FirstValue(WireOf(resp, true).fields, "Allow") == Some("GET, HEAD")
  {
    assert |"Allow"| == 5;
    FieldsRead(resp, true, "Allow");
    FirstOfFields(("Allow", "GET, HEAD"), [], "Allow");
  }

  lemma RefusedMethod(kind: Format)
    ensures ResponseTo(Rejected(MethodNotAllowed), kind)
            == ErrorResponse(405, "method not allowed", kind).(headers := [("Allow", "GET, HEAD")])
  {
  }

  lemma AllowIsTold(kind: Format)
    ensures var wire := WireOf(ResponseTo(Rejected(MethodNotAllowed), kind), true);
            IsProblem(wire, 405, "method not allowed", kind) && FirstValue(wire.fields, "Allow") == Some("GET, HEAD")
  {
    MessageIsUtf8(MethodNotAllowed);
    RefusedMethod(kind);
    ProblemIsTold(405, Message(MethodNotAllowed), kind, [("Allow", "GET, HEAD")]);
    AllowIsRead(ResponseTo(Rejected(MethodNotAllowed), kind));
  }

  lemma AddressNamesDiffer(name: string)
    requires |name| > 2 && name[0] == 'X' && name[1] == '-'
    ensures name != "Content-Type" && name != "Content-Length" && name != "Connection"
  {
    assert "Content-Type"[0] == 'C' && "Content-Length"[0] == 'C' && "Connection"[0] == 'C';
  }

  // The fields of an answer that are its own are read behind the fixed ones.
  lemma HeadersAreRead(resp: Response, r: LookupResult)
    requires HeadersTell(resp.headers, r)
    ensures HeadersTell(Fields(resp, true), r)
  {
    forall name | |name| > 2 && name[0] == 'X' && name[1] == '-'
      ensures FirstValue(Fields(resp, true), name) == FirstValue(resp.headers, name)
    {
      AddressNamesDiffer(name);
      FieldsRead(resp, true, name);
    }
  }

  lemma AddressIsTold(ip: string, r: LookupResult, kind: Format)
    requires HasNumbers(r) && (kind == Json || kind == Plain)
    ensures var wire := WireOf(SuccessResponse(ip, r, kind), true);
            Says(wire, 200, kind, true) && HeadersTell(wire.fields, r) && TellsAddress(wire.body, ip, r, kind)
  {
    var resp := SuccessResponse(ip, r, kind);
    ResponseSays(resp, true);
    HeadersTellFields(r);
    HeadersAreRead(resp, r);
    JsonBodyScans(ip, r);
    JsonBodyReads(ip, r);
    IniBodyReads(ip, r);
  }

  lemma KindIsNegotiated(accept: string)
    ensures NegotiateFormat(accept) == KindFor(accept)
    ensures WantsJson(accept) <==> Mentions(accept, "application/json")
  {
    FormatMeans(accept);
  }

  lemma InvalidIsTold(env: Env, ip: string, kind: Format)
    requires ip != "" && !ParsesAsAddress(env, ip)
    ensures LearnsAddress(env, ip, kind, WireOf(ResponseTo(Rejected(InvalidIp), kind), true))
  {
    RejectionIsTold(InvalidIp, kind);
  }

  lemma FailureIsTold(env: Env, ip: string, kind: Format)
    requires ParsesAsAddress(env, ip) && env.lookup(ip).error
    ensures LearnsAddress(env, ip, kind, WireOf(ResponseTo(Rejected(DatabaseError), kind), true))
  {
    RejectionIsTold(DatabaseError, kind);
  }

  lemma UnknownIsTold(env: Env, ip: string, kind: Format)
    requires ParsesAsAddress(env, ip) && !env.lookup(ip).error && !env.lookup(ip).result.found
    ensures LearnsAddress(env, ip, kind, WireOf(ResponseTo(Rejected(NothingFound), kind), true))
  {
    RejectionIsTold(NothingFound, kind);
  }

  lemma FoundIsTold(env: Env, ip: string, kind: Format)
    requires ParsesAsAddress(env, ip) && !env.lookup(ip).error && env.lookup(ip).result.found
    requires HasNumbers(env.lookup(ip).result) && (kind == Json || kind == Plain)
    ensures LearnsAddress(env, ip, kind, WireOf(ResponseTo(Located(ip, env.lookup(ip).result), kind), true))
  {
    AddressIsTold(ip, env.lookup(ip).result, kind);
  }

  lemma NamedIsTold(env: Env, ip: string, kind: Format)
    requires ip != "" && HasNumbers(env.lookup(ip).result) && (kind == Json || kind == Plain)
    ensures LearnsAddress(env, ip, kind, WireOf(ResponseTo(AddressVerdict(env, ip), kind), true))
  {
    if !ParsesAsAddress(env, ip) {
      InvalidIsTold(env, ip, kind);
    } else if env.lookup(ip).error {
      FailureIsTold(env, ip, kind);
    } else if !env.lookup(ip).result.found {
      UnknownIsTold(env, ip, kind);
    } else {
      FoundIsTold(env, ip, kind);
    }
  }

  lemma LookupIsTold(env: Env, req: Request, kind: Format)
    requires forall text :: HasNumbers(env.lookup(text).result)
    requires kind == KindFor(req.accept)
    ensures LearnsLookup(env, req, WireOf(ResponseTo(LookupVerdict(env, req.query), kind), true))
  {
    var asked := FirstValue(req.query, "ip");
    if asked == None || asked == Some("") {
      RejectionIsTold(MissingIp, kind);
    } else {
      NamedIsTold(env, asked.value, kind);
    }
  }

  lemma StatusIsTold(kind: Format, text: string)
    ensures var wire := WireOf(Response(200, kind, [], text), true);
            Says(wire, 200, kind, true) && wire.body == text
  {
    ResponseSays(Response(200, kind, [], text), true);
  }

  /** The answer to every request, as a client reads it. */
  lemma AnswerIsTold(env: Env, req: Request)
    requires forall text :: HasNumbers(env.lookup(text).result)
    ensures LearnsWithBody(env, req, WireOf(ResponseTo(VerdictOf(env, req), NegotiateFormat(req.accept)), true))
  {
    var kind := KindFor(req.accept);
    KindIsNegotiated(req.accept);
    BucketMeans(req.path);
    if req.method_ != "GET" && req.method_ != "HEAD" {
      AllowIsTold(kind);
    } else if req.path == "/lookup" {
      LookupIsTold(env, req, kind);
    } else if req.path == "/health" {
      StatusIsTold(Json, env.healthJson);
      StatusIsTold(Plain, "status=ok\n");
    } else if req.path == "/metrics" {
      StatusIsTold(Prometheus, env.metricsText);
    } else {
      RejectionIsTold(UnknownPath, kind);
    }
  }

  lemma HeadIsOfFull(resp: Response)
    ensures IsHeadOf(WireOf(resp, false), WireOf(resp, true))
  {
    ContentLengthIsBodyLength(resp, false);
    FieldsOfGet(resp);
  }

  /** The reply to a parsed request is the text of its answer. */
  lemma ReplyIsAnswer(env: Env, raw: string, req: Request)
    requires Parse(raw) == Some(req)
    ensures Serve(env, Ok, raw).Served?
    ensures Serve(env, Ok, raw).response == ResponseTo(VerdictOf(env, req), NegotiateFormat(req.accept))
    ensures Serve(env, Ok, raw).includeBody == (req.method_ != "HEAD")
    ensures Replies(Script(env, Ok, raw))
            == ResponseText(ResponseTo(VerdictOf(env, req), NegotiateFormat(req.accept)), req.method_ != "HEAD")
  {
    ServedShape(env, Ok, raw);
    ScriptMeans(ZERO, Serve(env, Ok, raw));
  }

  /** The answer to a request as it stands on the wire. */
  function AnswerOf(env: Env, req: Request): Wire {
    WireOf(ResponseTo(VerdictOf(env, req), NegotiateFormat(req.accept)), req.method_ != "HEAD")
  }

  lemma AnswerStatus(env: Env, req: Request)
    ensures AnswerOf(env, req).status == VerdictStatus(VerdictOf(env, req))
  {
    StatusIsCounted(VerdictOf(env, req), NegotiateFormat(req.accept));
  }

  lemma AnswerIsLearnt(env: Env, req: Request)
    requires forall text :: HasNumbers(env.lookup(text).result)
    ensures Learns(env, req, AnswerOf(env, req))
  {
    AnswerIsTold(env, req);
    if req.method_ == "HEAD" {
      HeadIsOfFull(ResponseTo(VerdictOf(env, req), NegotiateFormat(req.accept)));
    }
  }

  /** What reaches a client whose bytes arrive like this and whose socket takes bytes like
      that. */
  function Received(env: Env, events: seq<Event>, maxBytes: nat, plan: seq<SendResult>): string {
    var (read, raw) := ReadFrom(events, maxBytes, "");
    Delivered(Replies(Script(env, read, raw)), plan)
  }

  /** No send broke before the reply was through. */
  predicate AllSent(env: Env, events: seq<Event>, maxBytes: nat, plan: seq<SendResult>) {
    var (read, raw) := ReadFrom(events, maxBytes, "");
    Delivery(|Replies(Script(env, read, raw))|, 0, plan).0
  }

  lemma RequestIsAnswered(env: Env, raw: string, req: Request, plan: seq<SendResult>) returns (wire: Wire)
    requires forall text :: HasNumbers(env.lookup(text).result)
    requires Parse(raw) == Some(req)
    ensures wire == AnswerOf(env, req) && Learns(env, req, wire)
    ensures var reply := Replies(Script(env, Ok, raw));
            && ReadWhole(Delivered(reply, plan), req.method_ != "HEAD")
               == (if Delivery(|reply|, 0, plan).0 then Some(wire) else None)
            && (Unbroken(plan) ==> Delivery(|reply|, 0, plan).0)
  {
    ReplyIsAnswer(env, raw, req);
    EveryReplyIsReadable(env, Ok, raw, plan);
    AnswerIsLearnt(env, req);
    wire := AnswerOf(env, req);
  }

  /** What is not a request is refused in JSON: a head that does not parse, and one that is too
      large.  Where the reading itself failed nothing is sent. */
  lemma RefusalIsRead(env: Env, read: ReadResult, raw: string, plan: seq<SendResult>) returns (wire: Wire)
    requires forall text :: HasNumbers(env.lookup(text).result)
    requires read != Ok || Parse(raw).None?
    ensures read == Ok ==> IsProblem(wire, 400, "malformed HTTP request", Json)
    ensures read == TooLarge ==> IsProblem(wire, 400, "request too large", Json)
    ensures var reply := Replies(Script(env, read, raw));
            if read == Ok || read == TooLarge then
              && ReadWhole(Delivered(reply, plan), true)
                 == (if Delivery(|reply|, 0, plan).0 then Some(wire) else None)
              && (Unbroken(plan) ==> Delivery(|reply|, 0, plan).0)
            else reply == ""
  {
    RefusalIsTold();
    EveryReplyIsReadable(env, read, raw, plan);
    if read != Ok && read != TooLarge {
      NothingIsSent(env, read, raw);
    }
    wire := WireOf(if read == Ok then MALFORMED else TOO_LARGE, true);
  }

  lemma RefusalIsTold()
    ensures IsProblem(WireOf(MALFORMED, true), 400, "malformed HTTP request", Json)
    ensures IsProblem(WireOf(TOO_LARGE, true), 400, "request too large", Json)
  {
    RejectionIsTold(MalformedRequest, Json);
    RejectionIsTold(RequestTooLarge, Json);
  }

  lemma NothingIsSent(env: Env, read: ReadResult, raw: string)
    requires read != Ok && read != TooLarge
    ensures Replies(Script(env, read, raw)) == ""
  {
    ScriptMeans(ZERO, Silent);
  }

  /** The exchange: for any method, path, encoding of the query, headers, split of the
      bytes and behaviour of send(), the client either reads the whole answer to what it
      printed - what `Learns` says of its path, method and Accept header - or, exactly if a
      send broke, sees that the reply is cut. */
  lemma ClientReadsItsAnswer(
      env: Env, name: string, t: Target, version: string, headers: seq<Header>, body: string,
      events: seq<Event>, maxBytes: nat, plan: seq<SendResult>) returns (wire: Wire)
    requires forall text :: HasNumbers(env.lookup(text).result)
    requires name != "" && forall k :: 0 <= k < |name| ==> 'A' <= name[k] <= 'Z'
    requires version == "HTTP/1.1" || version == "HTTP/1.0"
    requires IsTarget(t) && AreHeaders(headers)
    requires IsSplit(events) && Joined(events) == RequestText(name, t, version, headers) + body
    requires |Joined(events)| <= maxBytes
    ensures wire == AnswerOf(env, Printed(name, t, headers)) && Learns(env, Printed(name, t, headers), wire)
    ensures ReadWhole(Received(env, events, maxBytes, plan), name != "HEAD")
            == if AllSent(env, events, maxBytes, plan) then Some(wire) else None
    ensures Unbroken(plan) ==> AllSent(env, events, maxBytes, plan)
  {
    ServesWhatWasPrinted(name, t, version, headers, body, events, maxBytes);
    wire := RequestIsAnswered(env, ReadFrom(events, maxBytes, "").1, Printed(name, t, headers), plan);
  }

  /** The same of the program itself, run on a fresh connection: what is on the wire when it
      has closed the connection, once. */
  method Exchange(
      env: Env, name: string, t: Target, version: string, headers: seq<Header>, body: string,
      events: seq<Event>, maxBytes: nat, plan: seq<SendResult>, counters: Counters)
    returns (socket: Socket, ghost wire: Wire)
    requires forall text :: HasNumbers(env.lookup(text).result)
    requires name != "" && forall k :: 0 <= k < |name| ==> 'A' <= name[k] <= 'Z'
    requires version == "HTTP/1.1" || version == "HTTP/1.0"
    requires IsTarget(t) && AreHeaders(headers)
    requires IsSplit(events) && Joined(events) == RequestText(name, t, version, headers) + body
    requires |Joined(events)| <= maxBytes
    modifies counters
    ensures Learns(env, Printed(name, t, headers), wire)
    ensures socket.closes == 1
    ensures ReadWhole(socket.wire, name != "HEAD") == if AllSent(env, events, maxBytes, plan) then Some(wire) else None
    ensures Unbroken(plan) ==> AllSent(env, events, maxBytes, plan)
  {
    wire := ClientReadsItsAnswer(env, name, t, version, headers, body, events, maxBytes, plan);
    socket := new Socket(plan);
    HandleConnection(env, events, maxBytes, socket, counters);
    assert socket.wire == Received(env, events, maxBytes, plan);
  }

  lemma LookupIsLocated(env: Env, req: Request, ip: string)
    requires req.method_ == "GET" && req.path == "/lookup" && FirstValue(req.query, "ip") == Some(ip)
    requires ParsesAsAddress(env, ip) && !env.lookup(ip).error && env.lookup(ip).result.found
    ensures VerdictOf(env, req) == Located(ip, env.lookup(ip).result)
  {
  }

  /** In particular a client that asks for an address the databases know, leaves the format
      at JSON and is not cut off reads status 200 and, byte for byte, the address and every
      field of the result; and it is JSON exactly if both coordinates are JSON numbers and
      every text is UTF-8. */
  lemma ClientReadsItsLookup(
      env: Env, t: Target, version: string, headers: seq<Header>, body: string,
      events: seq<Event>, maxBytes: nat, plan: seq<SendResult>, ip: string) returns (wire: Wire)
    requires forall text :: HasNumbers(env.lookup(text).result)
    requires version == "HTTP/1.1" || version == "HTTP/1.0"
    requires IsTarget(t) && AreHeaders(headers)
    requires t.path == "/lookup" && FirstValue(TargetPairs(t), "ip") == Some(ip)
    requires ParsesAsAddress(env, ip) && !env.lookup(ip).error && env.lookup(ip).result.found
    requires NegotiateFormat(LastAccept(headers, "")) == Json
    requires IsSplit(events) && Joined(events) == RequestText("GET", t, version, headers) + body
    requires |Joined(events)| <= maxBytes
    ensures ReadWhole(Received(env, events, maxBytes, plan), true)
            == if AllSent(env, events, maxBytes, plan) then Some(wire) else None
    ensures Says(wire, 200, Json, true)
    ensures var result := env.lookup(ip).result;
            && HeadersTell(wire.fields, result)
            && J.ScanObject(wire.body).Some? && JsonTells(J.ScanObject(wire.body).value, ip, result)
            && J.ScanObject(wire.body) == Some(Members(BodyItems(ip, result)))
            && J.ReadObject(wire.body) == (if HasJsonNumbers(result) && HasUtf8Texts(ip, result)
                                           then Some(Members(BodyItems(ip, result))) else None)
  {
    GetIsNotHead();
    wire := ClientReadsItsAnswer(env, "GET", t, version, headers, body, events, maxBytes, plan);
    LookupIsLocated(env, Printed("GET", t, headers), ip);
    AddressIsTold(ip, env.lookup(ip).result, Json);
    JsonBodyScans(ip, env.lookup(ip).result);
    JsonBodyReads(ip, env.lookup(ip).result);
  }

  lemma GetIsNotHead()
    ensures IsMethod("GET") && "GET" != "HEAD" && "GET" != ""
  {
  }

  /** And a HEAD that prints the same target and headers as a GET gets the reply to the GET
      without its Content-Type line and its body. */
  lemma HeadReplyIsGetReplyWithoutBody(
      env: Env, t: Target, headers: seq<Header>, getRaw: string, headRaw: string) returns (r: Response)
    requires IsTarget(t)
    requires Parse(getRaw) == Some(Printed("GET", t, headers)) && Parse(headRaw) == Some(Printed("HEAD", t, headers))
    ensures var status := StatusLine(r.status) + "\r\n";
            var kind := HeaderLine(("Content-Type", ContentType(r.format))) + "\r\n";
            var rest := LinesText(HeaderLines(Fields(r, false))) + "\r\n";
            && Replies(Script(env, Ok, getRaw)) == status + kind + rest + r.body
            && Replies(Script(env, Ok, headRaw)) == status + rest
  {
    var get, head := Printed("GET", t, headers), Printed("HEAD", t, headers);
    ReplyIsAnswer(env, getRaw, get);
    ReplyIsAnswer(env, headRaw, head);
    HeadAnswersLikeGet(env, get);
    assert head == get.(method_ := "HEAD") && get == get.(method_ := "GET");
    r := ResponseTo(VerdictOf(env, get), NegotiateFormat(get.accept));
    HeadIsGetWithoutBody(r);
  }
}
