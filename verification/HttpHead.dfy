/** `read_http_head` (src/http.cpp) and what its result may depend on: the head of a
    message and not the way TCP cut the stream into pieces.
 */
module HttpHead {
  import opened Text
  import opened HttpRequest

  // ----- parsing is determined by the head -----

  /** Up to the first blank line at `p`, the CRLFs of a buffer and of the buffer cut right
      after that blank line are the same. */
  lemma CutKeepsCrlf(raw: string, p: nat, from: nat)
    requires FindBlankLine(raw, 0) == Some(p) && from <= p + 2
    ensures FindCrlf(raw, from).Some? && FindCrlf(raw, from).value <= p + 2
    ensures from <= p ==> FindCrlf(raw, from).value <= p
    ensures FindCrlf(raw, from) == FindCrlf(raw[..p + 4], from)
  {
    var cut := raw[..p + 4];
    assert CrlfAt(raw, p) && CrlfAt(raw, p + 2);
    FindCrlfFirst(raw, from);
    var e := FindCrlf(raw, from).value;
    forall k | from <= k < e ensures !CrlfAt(cut, k) {
      assert !CrlfAt(raw, k);
    }
    FindCrlfIs(cut, from, e);
  }

  lemma SliceOfPrefix(s: string, n: nat, a: nat, b: nat)
    requires a <= b <= n <= |s|
    ensures s[..n][a..b] == s[a..b]
  {
  }

  /** The header scan starting on a line boundary of the head stops exactly at the blank
      line, neither skipping it nor stopping before it, and sees nothing behind it. */
  lemma {:induction false} ScanStopsAtBlankLine(raw: string, p: nat, pos: nat, accept: string)
    requires FindBlankLine(raw, 0) == Some(p)
    requires 2 <= pos <= p + 2 && CrlfAt(raw, pos - 2)
    ensures ScanHeaders(raw, pos, accept).0 == p + 2
    ensures ScanHeaders(raw, pos, accept) == ScanHeaders(raw[..p + 4], pos, accept)
    decreases p + 2 - pos
  {
    CutKeepsCrlf(raw, p, pos);
    var next := FindCrlf(raw, pos).value;
    if next == pos {
      EmptyLineIsBlankLine(raw, p, pos);
      ScanEnds(raw, pos, accept);
      ScanEnds(raw[..p + 4], pos, accept);
    } else {
      NextBoundary(raw, p, pos, next);
      SliceOfPrefix(raw, p + 4, pos, next);
      var accept' := ScanBoth(raw, raw[..p + 4], pos, next, accept);
      ScanStopsAtBlankLine(raw, p, next + 2, accept');
    }
  }

  lemma ScanBoth(a: string, b: string, pos: nat, next: nat, accept: string) returns (accept': string)
    requires FindCrlf(a, pos) == Some(next) && FindCrlf(b, pos) == Some(next) && next != pos
    requires a[pos..next] == b[pos..next]
    ensures ScanHeaders(a, pos, accept) == ScanHeaders(a, next + 2, accept')
    ensures ScanHeaders(b, pos, accept) == ScanHeaders(b, next + 2, accept')
  {
    ScanStep(a, pos, next, accept);
    ScanStep(b, pos, next, accept);
    accept' := AcceptValue(a[pos..next]).GetOr(accept);
  }

  lemma NextBoundary(raw: string, p: nat, pos: nat, next: nat)
    requires FindBlankLine(raw, 0) == Some(p) && 2 <= pos <= p + 2 && CrlfAt(raw, pos - 2)
    requires FindCrlf(raw, pos) == Some(next)
    ensures next <= p + 2 && (next != pos ==> pos < next + 2 <= p + 2)
  {
    assert BlankLineAt(raw, p);
    FindCrlfFirst(raw, pos);
    assert CrlfAt(raw, p) && CrlfAt(raw, p + 2);
  }

  lemma EmptyLineIsBlankLine(raw: string, p: nat, pos: nat)
    requires FindBlankLine(raw, 0) == Some(p)
    requires 2 <= pos <= p + 2 && CrlfAt(raw, pos - 2) && CrlfAt(raw, pos)
    ensures pos == p + 2
  {
    FindBlankLineFirst(raw, 0);
    assert BlankLineAt(raw, pos - 2);
  }

  /** Bytes after the first blank line never change what is parsed. */
  lemma ParseDeterminedByHead(raw: string, p: nat)
    requires FindBlankLine(raw, 0) == Some(p)
    ensures Parse(raw) == Parse(raw[..p + 4])
  {
    CutKeepsCrlf(raw, p, 0);
    var e := FindCrlf(raw, 0).value;
    assert raw[..e] == raw[..p + 4][..e];
    ScanStopsAtBlankLine(raw, p, e + 2, "");
    SameLineAndScan(raw, raw[..p + 4], e);
  }

  lemma SameLineAndScan(a: string, b: string, e: nat)
    requires FindCrlf(a, 0) == Some(e) && FindCrlf(b, 0) == Some(e) && a[..e] == b[..e]
    requires ScanHeaders(a, e + 2, "") == ScanHeaders(b, e + 2, "")
    ensures Parse(a) == Parse(b)
  {
  }

  lemma CutKeepsBlankLine(stream: string, buffer: string, p: nat)
    requires buffer <= stream && FindBlankLine(stream, 0) == Some(p)
    ensures p + 4 <= |buffer| <==> FindBlankLine(buffer, 0).Some?
    ensures p + 4 <= |buffer| ==> FindBlankLine(buffer, 0) == Some(p)
  {
    forall k | 0 <= k && k + 4 <= |buffer| ensures BlankLineAt(buffer, k) <==> BlankLineAt(stream, k) {
    }
    FindBlankLineFirst(stream, 0);
    FindBlankLineFirst(buffer, 0);
    if p + 4 <= |buffer| {
      FindBlankLineIs(buffer, p);
    }
  }

  // ----- reading the head -----

  /** What one turn of the poll/recv loop observes. */
  datatype Event =
    | Bytes(data: string)   // recv returned 1..4096 bytes
    | Interrupted           // poll or recv failed with EINTR
    | PeerClosed            // recv returned 0
    | Expired               // the deadline passed
    | Failed                // poll or recv failed otherwise

  datatype ReadResult = Ok | TooLarge | ConnectionClosed | Timeout | IoError

  const RECV_BUFFER: nat := 4096

  predicate IsEvent(e: Event) {
    e.Bytes? ==> 1 <= |e.data| <= RECV_BUFFER
  }

  /** The loop of `read_http_head` over everything it observes; once nothing more happens
      the deadline passes. */
  function ReadFrom(events: seq<Event>, maxBytes: nat, buffer: string): (ReadResult, string) {
    if events == [] then (Timeout, buffer)
    else
      match events[0]
      case Interrupted => ReadFrom(events[1..], maxBytes, buffer)
      case PeerClosed => (ConnectionClosed, buffer)
      case Expired => (Timeout, buffer)
      case Failed => (IoError, buffer)
      case Bytes(data) =>
        var filled := buffer + data;
        if |filled| > maxBytes then (TooLarge, filled)
        else if FindBlankLine(filled, 0).Some? then (Ok, filled)
        else ReadFrom(events[1..], maxBytes, filled)
  }

  method ReadHttpHead(events: seq<Event>, maxBytes: nat) returns (result: ReadResult, out: string)
    ensures (result, out) == ReadFrom(events, maxBytes, "")
  {
    out := "";
    var turn := 0;
    assert events[0..] == events;
    while turn < |events|
      invariant 0 <= turn <= |events|
      invariant ReadFrom(events, maxBytes, "") == ReadFrom(events[turn..], maxBytes, out)
    {
      assert events[turn..][1..] == events[turn + 1..];
      match events[turn] {
        case Interrupted =>
        case PeerClosed => return ConnectionClosed, out;
        case Expired => return Timeout, out;
        case Failed => return IoError, out;
        case Bytes(data) =>
          out := out + data;
          if |out| > maxBytes {
            return TooLarge, out;
          }
          if FindBlankLine(out, 0).Some? {
            return Ok, out;
          }
      }
      turn := turn + 1;
    }
    return Timeout, out;
  }

  // ----- independence from fragmentation -----

  /** A split of the stream into recv chunks, possibly interrupted. */
  predicate IsSplit(events: seq<Event>) {
    forall k :: 0 <= k < |events| ==> IsEvent(events[k]) && (events[k].Bytes? || events[k].Interrupted?)
  }

  function DataOf(e: Event): string {
    if e.Bytes? then e.data else ""
  }

  function Joined(events: seq<Event>): string {
    if events == [] then ""
    else DataOf(events[0]) + Joined(events[1..])
  }

  /** How many bytes have arrived when the byte before `goal` has: the length of the buffer
      at the end of the chunk that reaches `goal`. */
  function FilledAt(events: seq<Event>, start: nat, goal: nat): nat {
    if events == [] then start
    else
      var filled := start + |DataOf(events[0])|;
      if filled >= goal then filled else FilledAt(events[1..], filled, goal)
  }

  lemma Advance(stream: string, n: nat, data: string, rest: string)
    requires n <= |stream| && stream[n..] == data + rest
    ensures n + |data| <= |stream|
    ensures stream[..n] + data == stream[..n + |data|] && rest == stream[n + |data|..]
  {
    assert |stream| == n + |data| + |rest|;
    assert stream == stream[..n] + stream[n..] == stream[..n] + data + rest;
  }

  /** One turn of the loop over a split of a stream of which `n` bytes have arrived. */
  lemma ReadTurn(events: seq<Event>, maxBytes: nat, stream: string, n: nat, p: nat)
    returns (result: (ReadResult, string))
    requires IsSplit(events) && events != []
    requires n <= |stream| && Joined(events) == stream[n..] && n <= maxBytes
    requires FindBlankLine(stream, 0) == Some(p) && n < p + 4
    ensures result == ReadFrom(events, maxBytes, stream[..n])
    ensures var m := n + |DataOf(events[0])|;
            && m <= |stream| && Joined(events[1..]) == stream[m..]
            && result == if m > maxBytes then (TooLarge, stream[..m])
                         else if m >= p + 4 then (Ok, stream[..m])
                         else ReadFrom(events[1..], maxBytes, stream[..m])
  {
    result := ReadFrom(events, maxBytes, stream[..n]);
    var data := DataOf(events[0]);
    var m := n + |data|;
    Advance(stream, n, data, Joined(events[1..]));
    CutKeepsBlankLine(stream, stream[..m], p);
    if events[0].Interrupted? {
      assert m == n;
    }
  }

  /** Once the chunk that completes the blank line is in, the loop stops: with Ok and what has
      arrived, if that fits. */
  predicate StopsAt(result: (ReadResult, string), filled: nat, maxBytes: nat, stream: string) {
    && filled <= |stream|
    && result.0 == (if filled <= maxBytes then Ok else TooLarge)
    && (filled <= maxBytes ==> result.1 == stream[..filled])
  }

  // One turn with what the turns behind it come to.
  lemma OneTurn(result: (ReadResult, string), later: (ReadResult, string), filled: nat, filledLater: nat,
                m: nat, maxBytes: nat, stream: string, p: nat)
    requires m <= filled <= |stream| && filled == if m >= p + 4 then m else filledLater
    requires result == if m > maxBytes then (TooLarge, stream[..m])
                       else if m >= p + 4 then (Ok, stream[..m]) else later
    requires m <= maxBytes && m < p + 4 ==> StopsAt(later, filledLater, maxBytes, stream)
    ensures StopsAt(result, filled, maxBytes, stream)
  {
  }

  /** Exactly what the loop returns for any split of any stream: the head is accepted iff
      the chunk that completes the blank line still fits in `maxBytes`. */
  lemma {:induction false} ReadOfSplit(events: seq<Event>, maxBytes: nat, stream: string, n: nat, p: nat)
    requires IsSplit(events)
    requires n <= |stream| && Joined(events) == stream[n..] && n <= maxBytes
    requires FindBlankLine(stream, 0) == Some(p) && n < p + 4
    ensures p + 4 <= FilledAt(events, n, p + 4)
    ensures StopsAt(ReadFrom(events, maxBytes, stream[..n]), FilledAt(events, n, p + 4), maxBytes, stream)
    decreases |events|
  {
    assert BlankLineAt(stream, p);
    FilledReaches(events, n, p + 4);
    FilledTurn(events, n, p + 4);
    var m := n + |DataOf(events[0])|;
    var result := ReadTurn(events, maxBytes, stream, n, p);
    var later := ReadFrom(events[1..], maxBytes, stream[..m]);
    var filledLater := FilledAt(events[1..], m, p + 4);
    if m <= maxBytes && m < p + 4 {
      LaterIsSplit(events);
      ReadOfSplit(events[1..], maxBytes, stream, m, p);
    }
    OneTurn(result, later, FilledAt(events, n, p + 4), filledLater, m, maxBytes, stream, p);
  }

  lemma FilledTurn(events: seq<Event>, start: nat, goal: nat)
    requires start < goal <= start + |Joined(events)|
    ensures events != []
    ensures var filled := start + |DataOf(events[0])|;
            FilledAt(events, start, goal) == if filled >= goal then filled else FilledAt(events[1..], filled, goal)
  {
  }

  lemma LaterIsSplit(events: seq<Event>)
    requires IsSplit(events) && events != []
    ensures IsSplit(events[1..])
  {
  }

  lemma {:induction false} FilledReaches(events: seq<Event>, start: nat, goal: nat)
    requires start < goal <= start + |Joined(events)|
    ensures FilledAt(events, start, goal) >= start + |DataOf(events[0])|
    ensures goal <= FilledAt(events, start, goal) <= start + |Joined(events)|
  {
    if events != [] {
      var filled := start + |DataOf(events[0])|;
      if filled < goal {
        FilledReaches(events[1..], filled, goal);
      }
    }
  }

  /** Without a blank line the loop never accepts. */
  lemma {:induction false} NoBlankLineNotOk(events: seq<Event>, maxBytes: nat, buffer: string)
    requires IsSplit(events)
    requires FindBlankLine(buffer + Joined(events), 0).None?
    ensures ReadFrom(events, maxBytes, buffer).0 != Ok
  {
    if events == [] {
    } else if events[0].Interrupted? {
      assert "" + Joined(events[1..]) == Joined(events[1..]);
      assert IsSplit(events[1..]);
      NoBlankLineNotOk(events[1..], maxBytes, buffer);
    } else {
      var stream := buffer + Joined(events);
      var filled := buffer + events[0].data;
      assert stream == filled + Joined(events[1..]);
      forall k | BlankLineAt(filled, k) ensures BlankLineAt(stream, k) {
      }
      FindBlankLineFirst(stream, 0);
      assert IsSplit(events[1..]);
      NoBlankLineNotOk(events[1..], maxBytes, filled);
    }
  }

  // One more chunk of a stream without a blank line.
  lemma StillNoBlankLine(buffer: string, data: string, rest: string)
    requires FindBlankLine(buffer + (data + rest), 0).None?
    ensures buffer + (data + rest) == buffer + data + rest && FindBlankLine(buffer + data, 0).None?
  {
    var stream := buffer + (data + rest);
    forall k | BlankLineAt(buffer + data, k) ensures BlankLineAt(stream, k) {
    }
    FindBlankLineFirst(stream, 0);
  }

  /** What the loop says when the head does not become complete: the peer closed, the deadline
      passed, or a call failed, whichever came - with all that had arrived. */
  lemma {:induction false} BrokenOff(events: seq<Event>, end: Event, later: seq<Event>, maxBytes: nat, buffer: string)
    requires IsSplit(events) && (end.PeerClosed? || end.Expired? || end.Failed?)
    requires |buffer + Joined(events)| <= maxBytes && FindBlankLine(buffer + Joined(events), 0).None?
    ensures ReadFrom(events + ([end] + later), maxBytes, buffer)
            == (if end.PeerClosed? then ConnectionClosed else if end.Expired? then Timeout else IoError,
                buffer + Joined(events))
  {
    var all := events + ([end] + later);
    if events == [] {
      assert all[0] == end && buffer + Joined(events) == buffer;
    } else {
      assert all[0] == events[0] && all[1..] == events[1..] + ([end] + later);
      StillNoBlankLine(buffer, DataOf(events[0]), Joined(events[1..]));
      assert IsSplit(events[1..]) && buffer + "" == buffer;
      BrokenOff(events[1..], end, later, maxBytes, buffer + DataOf(events[0]));
    }
  }

  /** And a head that has no end within the limit is too large. */
  lemma {:induction false} EndlessIsTooLarge(events: seq<Event>, maxBytes: nat, buffer: string)
    requires IsSplit(events)
    requires |buffer| <= maxBytes < |buffer + Joined(events)| && FindBlankLine(buffer + Joined(events), 0).None?
    ensures ReadFrom(events, maxBytes, buffer).0 == TooLarge
  {
    var filled := buffer + DataOf(events[0]);
    StillNoBlankLine(buffer, DataOf(events[0]), Joined(events[1..]));
    assert IsSplit(events[1..]) && buffer + "" == buffer;
    if |filled| <= maxBytes {
      EndlessIsTooLarge(events[1..], maxBytes, filled);
    }
  }

  /** A longer or shorter buffer holding the whole head parses the same. */
  lemma ParseOfPrefix(stream: string, n: nat, p: nat)
    requires FindBlankLine(stream, 0) == Some(p) && p + 4 <= n <= |stream|
    ensures Parse(stream[..n]) == Parse(stream)
  {
    CutKeepsBlankLine(stream, stream[..n], p);
    ParseDeterminedByHead(stream, p);
    ParseDeterminedByHead(stream[..n], p);
    assert stream[..n][..p + 4] == stream[..p + 4];
  }

  /** For a stream that fits, every split gives the same verdict, and the same request. */
  lemma FragmentationIndependence(events: seq<Event>, maxBytes: nat)
    requires IsSplit(events) && |Joined(events)| <= maxBytes
    ensures var (result, out) := ReadFrom(events, maxBytes, "");
            && (result == Ok <==> FindBlankLine(Joined(events), 0).Some?)
            && (result == Ok ==> Parse(out) == Parse(Joined(events)))
  {
    var stream := Joined(events);
    match FindBlankLine(stream, 0) {
      case None =>
        assert "" + stream == stream;
        NoBlankLineNotOk(events, maxBytes, "");
      case Some(p) =>
        assert stream[..0] == "" && stream[0..] == stream;
        ReadOfSplit(events, maxBytes, stream, 0, p);
        ParseOfPrefix(stream, FilledAt(events, 0, p + 4), p);
    }
  }

  /** One byte per chunk, for the first `n` bytes of a stream. */
  function ByteByByte(stream: string, n: nat): (events: seq<Event>)
    requires n <= |stream|
    ensures IsSplit(events)
  {
    if n == 0 then [] else ByteByByte(stream, n - 1) + [Bytes([stream[n - 1]])]
  }

  lemma {:induction false} JoinedAppend(a: seq<Event>, b: seq<Event>)
    ensures Joined(a + b) == Joined(a) + Joined(b)
  {
    if a == [] {
      assert a + b == b;
    } else {
      assert (a + b)[1..] == a[1..] + b;
      JoinedAppend(a[1..], b);
    }
  }

  lemma {:induction false} JoinedByteByByte(stream: string, n: nat)
    requires n <= |stream|
    ensures Joined(ByteByByte(stream, n)) == stream[..n]
  {
    if n > 0 {
      JoinedByteByByte(stream, n - 1);
      JoinedAppend(ByteByByte(stream, n - 1), [Bytes([stream[n - 1]])]);
      JoinedOne([stream[n - 1]]);
      assert stream[..n - 1] + [stream[n - 1]] == stream[..n];
    }
  }

  lemma {:induction false} FilledAtAppend(a: seq<Event>, b: seq<Event>, start: nat, goal: nat)
    requires start + |Joined(a)| < goal
    ensures FilledAt(a + b, start, goal) == FilledAt(b, start + |Joined(a)|, goal)
  {
    if a == [] {
      assert a + b == b;
    } else {
      assert (a + b)[1..] == a[1..] + b;
      var filled := start + |DataOf(a[0])|;
      FilledAtAppend(a[1..], b, filled, goal);
    }
  }

  /** A split that reaches byte `p + 3` one byte at a time and then receives `take` bytes at
      once. */
  function LateSplit(stream: string, before: nat, take: nat): (events: seq<Event>)
    requires before + take <= |stream| && 1 <= take <= RECV_BUFFER
    ensures IsSplit(events)
  {
    var tail := stream[before + take..];
    ByteByByte(stream, before) + [Bytes(stream[before..before + take])] + ByteByByte(tail, |tail|)
  }

  lemma LateSplitJoins(stream: string, before: nat, take: nat)
    requires before + take <= |stream| && 1 <= take <= RECV_BUFFER
    ensures Joined(LateSplit(stream, before, take)) == stream
  {
    var head := ByteByByte(stream, before);
    var middle := [Bytes(stream[before..before + take])];
    var tail := stream[before + take..];
    JoinedAppend(head, middle);
    JoinedAppend(head + middle, ByteByByte(tail, |tail|));
    JoinedByteByByte(stream, before);
    JoinedByteByByte(tail, |tail|);
    JoinedOne(stream[before..before + take]);
    ThreeParts(stream, before, before + take);
  }

  lemma JoinedOne(data: string)
    ensures Joined([Bytes(data)]) == data
  {
    assert [Bytes(data)][1..] == [];
    assert data + "" == data;
  }

  lemma ThreeParts(s: string, i: nat, j: nat)
    requires i <= j <= |s|
    ensures s[..i] + s[i..j] + s[j..][..|s[j..]|] == s
  {
  }

  lemma LateSplitFills(stream: string, before: nat, take: nat)
    requires before + take <= |stream| && 1 <= take <= RECV_BUFFER
    ensures FilledAt(LateSplit(stream, before, take), 0, before + 1) == before + take
  {
    var head := ByteByByte(stream, before);
    var middle := [Bytes(stream[before..before + take])];
    var tail := stream[before + take..];
    var rest := ByteByByte(tail, |tail|);
    JoinedByteByByte(stream, before);
    assert LateSplit(stream, before, take) == head + middle + rest == head + (middle + rest);
    FilledAtAppend(head, middle + rest, 0, before + 1);
    assert (middle + rest)[0] == middle[0];
  }

  lemma LateSplitReads(stream: string, p: nat, take: nat, maxBytes: nat)
    requires FindBlankLine(stream, 0) == Some(p)
    requires p + 3 + take <= |stream| && 1 <= take <= RECV_BUFFER
    ensures ReadFrom(LateSplit(stream, p + 3, take), maxBytes, "").0 == Ok <==> p + 3 + take <= maxBytes
  {
    LateSplitJoins(stream, p + 3, take);
    LateSplitFills(stream, p + 3, take);
    assert stream[..0] == "" && stream[0..] == stream;
    ReadOfSplit(LateSplit(stream, p + 3, take), maxBytes, stream, 0, p);
  }

  /** These events deliver this stream. */
  ghost predicate IsSplitOf(events: seq<Event>, stream: string) {
    IsSplit(events) && Joined(events) == stream
  }

  predicate Accepts(events: seq<Event>, maxBytes: nat) {
    ReadFrom(events, maxBytes, "").0 == Ok
  }

  /** The most bytes one chunk can bring behind byte `p + 3`. */
  function LongestLastChunk(stream: string, p: nat): nat
    requires p + 3 <= |stream|
  {
    if |stream| - (p + 3) < RECV_BUFFER then |stream| - (p + 3) else RECV_BUFFER
  }

  lemma SplitAccepted(events: seq<Event>, stream: string, p: nat, maxBytes: nat)
    requires FindBlankLine(stream, 0) == Some(p) && IsSplitOf(events, stream)
    ensures p + 4 <= FilledAt(events, 0, p + 4) <= p + 3 + LongestLastChunk(stream, p)
    ensures Accepts(events, maxBytes) <==> FilledAt(events, 0, p + 4) <= maxBytes
  {
    assert BlankLineAt(stream, p);
    assert stream[..0] == "" && stream[0..] == stream;
    ReadOfSplit(events, maxBytes, stream, 0, p);
    FilledAtMost(events, 0, p + 4);
  }

  lemma LateSplitAccepted(stream: string, p: nat, take: nat, maxBytes: nat)
    requires FindBlankLine(stream, 0) == Some(p)
    requires p + 3 + take <= |stream| && 1 <= take <= RECV_BUFFER
    ensures IsSplitOf(LateSplit(stream, p + 3, take), stream)
    ensures Accepts(LateSplit(stream, p + 3, take), maxBytes) <==> p + 3 + take <= maxBytes
  {
    LateSplitJoins(stream, p + 3, take);
    LateSplitReads(stream, p, take, maxBytes);
  }

  lemma EverySplitAccepted(stream: string, p: nat, maxBytes: nat)
    requires FindBlankLine(stream, 0) == Some(p)
    ensures p + 3 < |stream|
    ensures (forall events :: IsSplitOf(events, stream) ==> Accepts(events, maxBytes))
            <==> p + 3 + LongestLastChunk(stream, p) <= maxBytes
  {
    assert BlankLineAt(stream, p);
    LateSplitAccepted(stream, p, LongestLastChunk(stream, p), maxBytes);
    forall events | IsSplitOf(events, stream)
      ensures p + 3 + LongestLastChunk(stream, p) <= maxBytes ==> Accepts(events, maxBytes)
    {
      SplitAccepted(events, stream, p, maxBytes);
    }
  }

  lemma SomeSplitAccepted(stream: string, p: nat, maxBytes: nat)
    requires FindBlankLine(stream, 0) == Some(p)
    ensures (exists events :: IsSplitOf(events, stream) && Accepts(events, maxBytes)) <==> p + 4 <= maxBytes
  {
    assert BlankLineAt(stream, p);
    LateSplitAccepted(stream, p, 1, maxBytes);
    forall events | IsSplitOf(events, stream) && Accepts(events, maxBytes) ensures p + 4 <= maxBytes {
      SplitAccepted(events, stream, p, maxBytes);
    }
  }

  /** The exact limit of fragmentation independence.  Every split of a stream with a blank
      line at `p` is accepted iff even the longest chunk that can complete the blank line
      fits; otherwise the verdict depends on the split, unless not even the head fits. */
  lemma AcceptedHoweverSplit(stream: string, p: nat, maxBytes: nat)
    requires FindBlankLine(stream, 0) == Some(p)
    ensures (forall events :: IsSplitOf(events, stream) ==> Accepts(events, maxBytes))
            <==> (if |stream| < p + 3 + RECV_BUFFER then |stream| else p + 3 + RECV_BUFFER) <= maxBytes
    ensures (exists events :: IsSplitOf(events, stream) && Accepts(events, maxBytes)) <==> p + 4 <= maxBytes
  {
    EverySplitAccepted(stream, p, maxBytes);
    SomeSplitAccepted(stream, p, maxBytes);
  }

  lemma {:induction false} FilledAtMost(events: seq<Event>, start: nat, goal: nat)
    requires IsSplit(events) && start < goal <= start + |Joined(events)|
    ensures FilledAt(events, start, goal) <= goal - 1 + RECV_BUFFER
  {
    if events != [] {
      assert IsSplit(events[1..]);
      var filled := start + |DataOf(events[0])|;
      if filled < goal {
        FilledAtMost(events[1..], filled, goal);
      }
    }
  }
}
