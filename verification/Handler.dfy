/** `handle_connection` (src/server.cpp): one request per connection, from the first byte
    to close().  What it does to shared state is a script: the counter increments, the
    reply, and the close, in order.
 */
module Handler {
  import opened Text
  import opened Counting
  import opened GeoIpTypes
  import opened GeoIp
  import opened Metrics
  import opened HttpRequest
  import opened HttpHead
  import opened HttpResponse
  import opened LookupBodies

  /** Everything a request is answered from: the address parser of the C library, the
      lookup on the databases of the moment, and the two status texts. */
  datatype Env = Env(
    isAddress: string -> bool,
    lookup: string -> Progress,
    healthJson: string,
    metricsText: string)

  function WantsJson(accept: string): bool {
    Contains(Lower(accept), "application/json")
  }

  function NegotiateFormat(accept: string): Format {
    if WantsJson(accept) then Json
    else if Contains(Lower(accept), "text/plain") then Plain
    else Json
  }

  /** The word occurs in the header value, in whatever case it is written there. */
  ghost predicate Mentions(accept: string, word: string) {
    exists k :: OccursAt(accept, word, k)
  }

  predicate OccursAt(accept: string, word: string, k: int) {
    0 <= k && k + |word| <= |accept| && InAnyCase(accept[k..k + |word|], word)
  }

  lemma LowerOfPart(s: string, i: nat, j: nat)
    requires i <= j <= |s|
    ensures Lower(s)[i..j] == Lower(s[i..j])
  {
  }

  lemma ContainsMeans(accept: string, word: string)
    requires NoUpperCase(word)
    ensures Contains(Lower(accept), word) <==> Mentions(accept, word)
  {
    ContainsFromMeans(Lower(accept), word, 0);
    forall k ensures StandsAt(Lower(accept), word, k) <==> OccursAt(accept, word, k) {
      if 0 <= k && k + |word| <= |accept| {
        LowerOfPart(accept, k, k + |word|);
        LowerMeans(accept[k..k + |word|], word);
      }
    }
  }

  lemma KindsAreLowerCase()
    ensures NoUpperCase("text/plain") && NoUpperCase("application/json")
  {
  }

  /** Plain text is chosen exactly for a header that mentions text/plain and not
      application/json, JSON otherwise; and JSON is asked for outright exactly if the header
      mentions it. */
  lemma FormatMeans(accept: string)
    ensures NegotiateFormat(accept) == Plain <==>
              Mentions(accept, "text/plain") && !Mentions(accept, "application/json")
    ensures NegotiateFormat(accept) == Plain || NegotiateFormat(accept) == Json
    ensures WantsJson(accept) <==> Mentions(accept, "application/json")
  {
    KindsAreLowerCase();
    ContainsMeans(accept, "text/plain");
    ContainsMeans(accept, "application/json");
  }

  const MAX_ADDRESS_TEXT: nat := 45

  predicate ParsesAsAddress(env: Env, text: string) {
    text != "" && |text| <= MAX_ADDRESS_TEXT && env.isAddress(text)
  }

  /** The shared-state actions of a connection. */
  datatype Act =
    | Requested(bucket: Bucket)
    | Found
    | NotFound
    | Responded(status: nat)
    | Reply(bytes: string)
    | CloseFd

  /** Why a request is not answered with what it asked for. */
  datatype Problem =
    | RequestTooLarge | MalformedRequest | MethodNotAllowed | MissingIp | InvalidIp
    | DatabaseError | NothingFound | UnknownPath

  function Message(p: Problem): string {
    match p
    case RequestTooLarge => "request too large"
    case MalformedRequest => "malformed HTTP request"
    case MethodNotAllowed => "method not allowed"
    case MissingIp => "missing ip parameter"
    case InvalidIp => "invalid ip address"
    case DatabaseError => "internal database error"
    case NothingFound => "no geoip information found"
    case UnknownPath => "not found"
  }

  function StatusOf(p: Problem): nat {
    match p
    case RequestTooLarge => 400
    case MalformedRequest => 400
    case MethodNotAllowed => 405
    case MissingIp => 400
    case InvalidIp => 400
    case DatabaseError => 500
    case NothingFound => 404
    case UnknownPath => 404
  }

  function Problematic(p: Problem, format: Format): (r: Response)
    ensures r.status == StatusOf(p) && r.headers == [] && r.format == format
  {
    ErrorResponse(StatusOf(p), Message(p), format)
  }

  /** What a request comes to, before it is written down. */
  datatype Verdict =
    | Rejected(problem: Problem)
    | Located(ip: string, result: LookupResult)
    | Status(format: Format, text: string)

  /** The verdict on an address that was named. */
  function AddressVerdict(env: Env, ip: string): Verdict {
    if !ParsesAsAddress(env, ip) then Rejected(InvalidIp)
    else if env.lookup(ip).error then Rejected(DatabaseError)
    else if !env.lookup(ip).result.found then Rejected(NothingFound)
    else Located(ip, env.lookup(ip).result)
  }

  function LookupVerdict(env: Env, query: seq<(string, string)>): Verdict {
    match FirstValue(query, "ip")
    case None => Rejected(MissingIp)
    case Some(ip) => if ip == "" then Rejected(MissingIp) else AddressVerdict(env, ip)
  }

  function VerdictOf(env: Env, req: Request): Verdict {
    if req.method_ != "GET" && req.method_ != "HEAD" then Rejected(MethodNotAllowed)
    else
      match BucketOf(req.path)
      case LookupPath => LookupVerdict(env, req.query)
      case HealthPath => if WantsJson(req.accept) then Status(Json, env.healthJson) else Status(Plain, "status=ok\n")
      case MetricsPath => Status(Prometheus, env.metricsText)
      case OtherPath => Rejected(UnknownPath)
  }

  /** The lookup outcome that is counted. */
  function CountedOutcome(v: Verdict): seq<Act> {
    if v.Located? then [Found]
    else if v.Rejected? && v.problem == NothingFound then [NotFound]
    else []
  }

  function ResponseTo(v: Verdict, format: Format): Response {
    match v
    case Rejected(p) =>
      var resp := Problematic(p, format);
      if p == MethodNotAllowed then resp.(headers := [("Allow", "GET, HEAD")]) else resp
    case Located(ip, result) => SuccessResponse(ip, result, format)
    case Status(own, text) => Response(200, own, [], text)
  }

  const TOO_LARGE := Problematic(RequestTooLarge, Json)
  const MALFORMED := Problematic(MalformedRequest, Json)

  function Send(bucket: Bucket, counted: seq<Act>, resp: Response, includeBody: bool): seq<Act> {
    [Requested(bucket)] + counted
    + [Responded(resp.status), Reply(ResponseText(resp, includeBody)), CloseFd]
  }

  /** How a connection is answered: not at all, or with one response. */
  datatype Served = Silent | Served(bucket: Bucket, counted: seq<Act>, response: Response, includeBody: bool)

  function Serve(env: Env, read: ReadResult, raw: string): Served {
    match read
    case Ok =>
      (match Parse(raw)
       case None => Served(OtherPath, [], MALFORMED, true)
       case Some(req) =>
         var v := VerdictOf(env, req);
         Served(BucketOf(req.path), CountedOutcome(v), ResponseTo(v, NegotiateFormat(req.accept)),
                req.method_ != "HEAD"))
    case TooLarge => Served(OtherPath, [], TOO_LARGE, true)
    case ConnectionClosed => Silent
    case Timeout => Silent
    case IoError => Silent
  }

  function ScriptOf(s: Served): seq<Act> {
    if s.Silent? then [CloseFd] else Send(s.bucket, s.counted, s.response, s.includeBody)
  }

  /** What a connection that was read like this does, in order. */
  function Script(env: Env, read: ReadResult, raw: string): seq<Act> {
    ScriptOf(Serve(env, read, raw))
  }

  // ----- the method -----

  method IpParam(query: seq<(string, string)>) returns (found: bool, ip: string)
    ensures FirstValue(query, "ip") == if found then Some(ip) else None
  {
    found, ip := FindQueryParam(query, "ip");
    if found {
      var k :| 0 <= k < |query| && query[k] == ("ip", ip) && forall j :: 0 <= j < k ==> query[j].0 != "ip";
      FirstValueIsFirst(query, "ip", k);
    } else {
      NoValue(query, "ip");
    }
  }

  /** The counters after a list of acts. */
  function Counted(c: Counts, acts: seq<Act>, width: Width): Counts
    decreases |acts|
  {
    if acts == [] then c
    else Counted(CountAct(c, acts[0], width), acts[1..], width)
  }

  function CountAct(c: Counts, a: Act, width: Width): Counts {
    match a
    case Requested(bucket) => CountRequest(c, bucket, width)
    case Found => CountFound(c, width)
    case NotFound => CountNotFound(c, width)
    case Responded(status) => CountResponse(c, status, width)
    case Reply(_) => c
    case CloseFd => c
  }

  /** The bytes a script writes. */
  function Replies(acts: seq<Act>): string {
    if acts == [] then "" else (if acts[0].Reply? then acts[0].bytes else "") + Replies(acts[1..])
  }

  lemma {:induction false} CountedConcat(c: Counts, a: seq<Act>, b: seq<Act>, width: Width)
    ensures Counted(c, a + b, width) == Counted(Counted(c, a, width), b, width)
    decreases |a|
  {
    if a == [] {
      assert a + b == b;
    } else {
      assert (a + b)[1..] == a[1..] + b;
      CountedConcat(CountAct(c, a[0], width), a[1..], b, width);
    }
  }

  lemma {:induction false} RepliesConcat(a: seq<Act>, b: seq<Act>)
    ensures Replies(a + b) == Replies(a) + Replies(b)
  {
    if a == [] {
      assert a + b == b;
    } else {
      assert (a + b)[1..] == a[1..] + b;
      RepliesConcat(a[1..], b);
    }
  }

  lemma OneAct(c: Counts, a: Act, width: Width)
    ensures Counted(c, [a], width) == CountAct(c, a, width)
    ensures Replies([a]) == if a.Reply? then a.bytes else ""
  {
    assert [a][1..] == [];
  }

  lemma TailMeans(c: Counts, status: nat, bytes: string)
    ensures var tail := [Responded(status), Reply(bytes), CloseFd];
            Counted(c, tail, U64) == CountResponse(c, status, U64) && Replies(tail) == bytes
  {
    var tail := [Responded(status), Reply(bytes), CloseFd];
    assert tail == [Responded(status)] + ([Reply(bytes)] + [CloseFd]);
    var c' := CountResponse(c, status, U64);
    OneAct(c, Responded(status), U64);
    OneAct(c', Reply(bytes), U64);
    OneAct(c', CloseFd, U64);
    CountedConcat(c, [Responded(status)], [Reply(bytes)] + [CloseFd], U64);
    CountedConcat(c', [Reply(bytes)], [CloseFd], U64);
    RepliesConcat([Responded(status)], [Reply(bytes)] + [CloseFd]);
    RepliesConcat([Reply(bytes)], [CloseFd]);
  }

  lemma SendMeans(c: Counts, bucket: Bucket, counted: seq<Act>, resp: Response, includeBody: bool)
    requires IsOutcome(counted)
    ensures var acts := Send(bucket, counted, resp, includeBody);
            && Replies(acts) == ResponseText(resp, includeBody)
            && Counted(c, acts, U64)
               == CountResponse(Counted(CountRequest(c, bucket, U64), counted, U64), resp.status, U64)
  {
    var bytes := ResponseText(resp, includeBody);
    var tail := [Responded(resp.status), Reply(bytes), CloseFd];
    var c1 := CountRequest(c, bucket, U64);
    var c2 := Counted(c1, counted, U64);
    OneAct(c, Requested(bucket), U64);
    CountedConcat(c, [Requested(bucket)], counted, U64);
    CountedConcat(c, [Requested(bucket)] + counted, tail, U64);
    TailMeans(c2, resp.status, bytes);
    RepliesConcat([Requested(bucket)] + counted, tail);
    RepliesConcat([Requested(bucket)], counted);
    if counted != [] {
      OneAct(c1, counted[0], U64);
    }
  }

  method AnswerLookup(env: Env, query: seq<(string, string)>, counters: Counters) returns (v: Verdict)
    modifies counters
    ensures v == LookupVerdict(env, query)
    ensures counters.counts == Counted(old(counters.counts), CountedOutcome(v), U64)
  {
    OneAct(counters.counts, Found, U64);
    OneAct(counters.counts, NotFound, U64);
    var found, ip := IpParam(query);
    if !found || ip == "" {
      return Rejected(MissingIp);
    }
    if !ParsesAsAddress(env, ip) {
      return Rejected(InvalidIp);
    }
    var p := env.lookup(ip);
    if p.error {
      return Rejected(DatabaseError);
    }
    if !p.result.found {
      counters.RecordNotFound();
      return Rejected(NothingFound);
    }
    counters.RecordFound();
    return Located(ip, p.result);
  }

  /** The branches behind a parsed request. */
  method AnswerRequest(env: Env, req: Request, counters: Counters) returns (v: Verdict)
    modifies counters
    ensures v == VerdictOf(env, req)
    ensures counters.counts == Counted(old(counters.counts), CountedOutcome(v), U64)
  {
    if req.method_ != "GET" && req.method_ != "HEAD" {
      v := Rejected(MethodNotAllowed);
    } else if req.path == "/lookup" {
      v := AnswerLookup(env, req.query, counters);
    } else if req.path == "/health" {
      var json := WantsJson(req.accept);
      v := if json then Status(Json, env.healthJson) else Status(Plain, "status=ok\n");
    } else if req.path == "/metrics" {
      v := Status(Prometheus, env.metricsText);
    } else {
      v := Rejected(UnknownPath);
    }
  }

  /** Up to the response: the request counter, the branches, the outcome counter. */
  method Prepare(env: Env, read: ReadResult, raw: string, counters: Counters) returns (served: Served)
    modifies counters
    ensures served == Serve(env, read, raw)
    ensures counters.counts == if served.Silent? then old(counters.counts) else
                                 Counted(CountRequest(old(counters.counts), served.bucket, U64), served.counted, U64)
  {
    match read {
      case Ok =>
        var parsed, req := ParseHttpRequest(raw);
        if !parsed {
          counters.RecordRequest("");
          return Served(OtherPath, [], MALFORMED, true);
        }
        counters.RecordRequest(req.path);
        var v := AnswerRequest(env, req, counters);
        return Served(BucketOf(req.path), CountedOutcome(v), ResponseTo(v, NegotiateFormat(req.accept)),
                      req.method_ != "HEAD");
      case TooLarge =>
        counters.RecordRequest("");
        return Served(OtherPath, [], TOO_LARGE, true);
      case ConnectionClosed => return Silent;
      case Timeout => return Silent;
      case IoError => return Silent;
    }
  }

  /** Reads, answers, writes and closes one connection. */
  method HandleConnection(env: Env, events: seq<Event>, maxBytes: nat, socket: Socket, counters: Counters)
    modifies socket, counters
    ensures var (read, raw) := ReadFrom(events, maxBytes, "");
            var acts := Script(env, read, raw);
            && counters.counts == Counted(old(counters.counts), acts, U64)
            && socket.wire == old(socket.wire) + Delivered(Replies(acts), old(socket.plan))
            && socket.closes == old(socket.closes) + 1
  {
    var read, raw := ReadHttpHead(events, maxBytes);
    var served := Prepare(env, read, raw, counters);
    ServedShape(env, read, raw);
    ScriptMeans(old(counters.counts), served);
    if served.Served? {
      counters.RecordResponse(served.response.status);
      var bytes := BuildHttpResponse(served.response, served.includeBody);
      var _ := WriteAll(socket, bytes);
    }
    socket.Close();
  }

  predicate IsOutcome(counted: seq<Act>) {
    counted == [] || counted == [Found] || counted == [NotFound]
  }

  lemma ScriptMeans(c: Counts, s: Served)
    requires s.Served? ==> IsOutcome(s.counted)
    ensures Replies(ScriptOf(s)) == if s.Silent? then "" else ResponseText(s.response, s.includeBody)
    ensures Counted(c, ScriptOf(s), U64)
            == if s.Silent? then c
               else CountResponse(Counted(CountRequest(c, s.bucket, U64), s.counted, U64), s.response.status, U64)
  {
    if s.Silent? {
      OneAct(c, CloseFd, U64);
    } else {
      SendMeans(c, s.bucket, s.counted, s.response, s.includeBody);
    }
  }

  /** From `c` to `d` every counter has grown by how often its act was done. */
  predicate Grows(c: Counts, d: Counts, done: Act -> nat) {
    && d.lookup == c.lookup + done(Requested(LookupPath)) && d.health == c.health + done(Requested(HealthPath))
    && d.metrics == c.metrics + done(Requested(MetricsPath)) && d.other == c.other + done(Requested(OtherPath))
    && d.r200 == c.r200 + done(Responded(200)) && d.r400 == c.r400 + done(Responded(400))
    && d.r404 == c.r404 + done(Responded(404)) && d.r405 == c.r405 + done(Responded(405))
    && d.r500 == c.r500 + done(Responded(500))
    && d.found == c.found + done(Found) && d.notFound == c.notFound + done(NotFound)
  }

  lemma OneActGrows(c: Counts, a: Act)
    ensures Grows(c, CountAct(c, a, Unbounded), b => if a == b then 1 else 0)
  {
  }

  lemma GrowsTwice(c: Counts, d: Counts, e: Counts, first: Act -> nat, then_: Act -> nat, both: Act -> nat)
    requires Grows(c, d, first) && Grows(d, e, then_) && forall a :: both(a) == first(a) + then_(a)
    ensures Grows(c, e, both)
  {
  }

  /** The counters count: each is the number of times its act was done, whatever else was
      done in between. */
  lemma {:induction false} CountersCountActs(c: Counts, acts: seq<Act>)
    ensures Grows(c, Counted(c, acts, Unbounded), a => Times(acts, a))
    decreases |acts|
  {
    if acts != [] {
      var d := CountAct(c, acts[0], Unbounded);
      OneActGrows(c, acts[0]);
      CountersCountActs(d, acts[1..]);
      forall a: Act ensures Times(acts, a) == Times(acts[1..], a) + if acts[0] == a then 1 else 0 {
        TimesFront(acts, a);
      }
      GrowsTwice(c, d, Counted(d, acts[1..], Unbounded), b => if acts[0] == b then 1 else 0,
                 a => Times(acts[1..], a), a => Times(acts, a));
    }
  }

  lemma TimesFront(acts: seq<Act>, a: Act)
    requires acts != []
    ensures Times(acts, a) == Times(acts[1..], a) + if acts[0] == a then 1 else 0
  {
    TimesConcat([acts[0]], acts[1..], a);
    assert [acts[0]] + acts[1..] == acts && [acts[0]][..0] == [];
  }

  // ----- what holds for every connection -----

  function VerdictStatus(v: Verdict): nat {
    if v.Rejected? then StatusOf(v.problem) else 200
  }

  /** Every status sent is one of the five that are counted. */
  lemma StatusIsCounted(v: Verdict, format: Format)
    ensures ResponseTo(v, format).status == VerdictStatus(v)
    ensures IsCounted(VerdictStatus(v))
  {
  }

  predicate IsGetOrHead(req: Request) {
    req.method_ == "GET" || req.method_ == "HEAD"
  }

  /** The address a lookup is about, if it names one the C library accepts. */
  function AskedAddress(env: Env, req: Request): Option<string> {
    match FirstValue(req.query, "ip")
    case None => None
    case Some(ip) => if ParsesAsAddress(env, ip) then Some(ip) else None
  }

  /** Each status in terms of the request and the databases: 405 for another method, 400 for
      a lookup without a usable address, 500 for a lookup a database fails on, 404 for an
      unknown path or an address without an entry, 200 for the rest. */
  lemma StatusMeans(env: Env, req: Request)
    ensures var status := VerdictStatus(VerdictOf(env, req));
            var lookup := IsGetOrHead(req) && req.path == "/lookup";
            var asked := AskedAddress(env, req);
            && (status == 405 <==> !IsGetOrHead(req))
            && (status == 400 <==> lookup && asked.None?)
            && (status == 500 <==> lookup && asked.Some? && env.lookup(asked.value).error)
            && (status == 404 <==>
                  IsGetOrHead(req) && (if req.path == "/lookup"
                                       then asked.Some? && !env.lookup(asked.value).error
                                            && !env.lookup(asked.value).result.found
                                       else req.path != "/health" && req.path != "/metrics"))
  {
    BucketMeans(req.path);
  }

  lemma BucketMeans(path: string)
    ensures BucketOf(path).LookupPath? <==> path == "/lookup"
    ensures BucketOf(path).HealthPath? <==> path == "/health"
    ensures BucketOf(path).MetricsPath? <==> path == "/metrics"
  {
    assert "/lookup"[1] == 'l' && "/health"[1] == 'h' && "/metrics"[1] == 'm';
  }

  /** The lookup outcome is counted at most once: found exactly for a located address, not
      found exactly for one no database knows. */
  lemma OutcomeShape(v: Verdict)
    ensures IsOutcome(CountedOutcome(v))
    ensures CountedOutcome(v) == [Found] <==> v.Located?
    ensures CountedOutcome(v) == [NotFound] <==> v == Rejected(NothingFound)
  {
    assert [Found][0] != [NotFound][0];
  }

  lemma OnlyLookupsHaveOutcomes(env: Env, req: Request)
    ensures CountedOutcome(VerdictOf(env, req)) != [] ==> BucketOf(req.path) == LookupPath
  {
  }

  /** What every served connection has in common. */
  predicate IsServed(s: Served) {
    s.Served? ==> IsOutcome(s.counted) && IsCounted(s.response.status)
                  && (s.counted != [] ==> s.bucket == LookupPath)
  }

  /** Some peer, some databases: a way a connection can turn out. */
  ghost predicate CanTurnOut(s: Served) {
    exists env, read, raw :: Serve(env, read, raw) == s
  }

  lemma ServedShape(env: Env, read: ReadResult, raw: string)
    ensures IsServed(Serve(env, read, raw))
  {
    if read == Ok && Parse(raw).Some? {
      var req := Parse(raw).value;
      StatusIsCounted(VerdictOf(env, req), NegotiateFormat(req.accept));
      OutcomeShape(VerdictOf(env, req));
      OnlyLookupsHaveOutcomes(env, req);
    }
  }

  lemma TurnsOutServed(s: Served)
    requires CanTurnOut(s)
    ensures IsServed(s)
  {
    var env, read, raw :| Serve(env, read, raw) == s;
    ServedShape(env, read, raw);
  }

  /** HEAD comes to exactly what GET comes to: same status and extra headers, and by
      HeadIsGetWithoutBody the same bytes without Content-Type and body. */
  lemma HeadAnswersLikeGet(env: Env, req: Request)
    ensures VerdictOf(env, req.(method_ := "HEAD")) == VerdictOf(env, req.(method_ := "GET"))
  {
  }

  lemma AllowIsField()
    ensures IsField(("Allow", "GET, HEAD"))
  {
  }

  lemma AnswerHeadersAreFields(v: Verdict, format: Format)
    requires v.Located? ==> HasNumbers(v.result)
    ensures AreFields(ResponseTo(v, format).headers)
  {
    AllowIsField();
    if v.Located? {
      SuccessHeadersAreFields(v.ip, v.result, format);
    }
  }

  lemma LocatedHasNumbers(env: Env, req: Request)
    requires forall ip :: HasNumbers(env.lookup(ip).result)
    ensures VerdictOf(env, req).Located? ==> HasNumbers(VerdictOf(env, req).result)
  {
  }

  /** Framing of the whole daemon: whatever bytes come in, whatever bytes the databases hold
      and however send() behaves, what is delivered is either nothing or one response.  A
      client that knows what it asked for reads it whole exactly if no send broke before its
      end - a counted status, exactly its header fields, and the body - and otherwise
      notices that it was cut. */
  lemma EveryReplyIsReadable(env: Env, read: ReadResult, raw: string, plan: seq<SendResult>)
    requires forall ip :: HasNumbers(env.lookup(ip).result)
    ensures var s, reply := Serve(env, read, raw), Replies(Script(env, read, raw));
            if s.Silent? then Delivered(reply, plan) == ""
            else
              && IsCounted(s.response.status)
              && ReadWhole(Delivered(reply, plan), s.includeBody)
                 == (if Delivery(|reply|, 0, plan).0 then Some(WireOf(s.response, s.includeBody)) else None)
              && (Unbroken(plan) ==> Delivery(|reply|, 0, plan).0)
  {
    var s := Serve(env, read, raw);
    ServedShape(env, read, raw);
    ScriptMeans(ZERO, s);
    if s.Served? {
      ServedFields(env, read, raw);
      DeliveredWholeOrNoticed(s.response, s.includeBody, plan);
    }
  }

  lemma ServedFields(env: Env, read: ReadResult, raw: string)
    requires forall ip :: HasNumbers(env.lookup(ip).result)
    requires Serve(env, read, raw).Served?
    ensures AreFields(Serve(env, read, raw).response.headers)
  {
    if read == Ok && Parse(raw).Some? {
      var req := Parse(raw).value;
      LocatedHasNumbers(env, req);
      AnswerHeadersAreFields(VerdictOf(env, req), NegotiateFormat(req.accept));
    }
  }
}
