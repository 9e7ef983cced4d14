# A verified model of nshgeoip

nshgeoip is a small daemon that answers GeoIP lookups over HTTP on a UNIX socket (and,
optionally, TCP) from MaxMind databases it keeps open, plus a shell script that replicates
those databases from a mirror. This project models its three hard cores and its
configuration, and proves what the daemon relies on.

* **The concurrent daemon.** `ThreadPool.dfy` is the queue, mutex and condition variable of
  `ThreadPool`, with `notify_one` as a step of its own and spurious wake-ups; `Daemon.dfy`
  puts the accept loop, the workers running `handle_connection` and the shared 64-bit
  counters on top of it, `DaemonDrain.dfy` shows how it ends, and `DaemonRuns.dfy` that every
  run can be brought to that end; `GeoIpReload.dfy`
  interleaves lookups, metadata reads and reloads around the shared mutex, one statement of a
  swap at a time; `LookupService.dfy` runs both machines together. A run is any legal
  sequence of steps; theorems about runs hold for every interleaving and any number of threads.
  `ServerLifecycle.dfy` follows the descriptors and the socket path through `init`, `run`
  and the destructor for every point of failure.
* **The HTTP codec.** `HttpRequest.dfy`, `HttpHead.dfy`, `PercentCoding.dfy` are the parser
  and the incremental head reader; `RequestRoundTrip.dfy` and `RequestGrammar.dfy` prove
  that it accepts exactly the printed requests. `HttpResponse.dfy`, `Json.dfy`,
  `LookupBodies.dfy`, `TextUtil.dfy` are the serializer and the bodies, each paired with a
  reference reader written from sections 2.1, 6.2 and 8 of RFC 9112, section 9.3.2 of RFC 9110
  and sections 3, 6, 7 and 8.1 of RFC 8259; `Utf8.dfy` is RFC 3629. `Handler.dfy` is `handle_connection` as a
  whole, and `EndToEnd.dfy` follows a lookup from the client's bytes to the fields it reads.
* **Crash-safe replication.** `GeoipSync.dfy` is `update_database` as the sequence of file
  operations it performs, cut anywhere by a crash; `Checksums.dfy` says which checksum files
  name which checksum; `GeoipSyncRuns.dfy` is about histories of
  attempts against a mirror that may change between any two downloads; `GeoipSyncCycle.dfy`
  is `run_sync` over several editions.
* **Configuration.** `Config.dfy` and `Startup.dfy` are the line parser, the overlay of file
  and environment, and the search for database files; `Settings.dfy` says setting by setting
  what their texts mean; `ConfiguredDaemon.dfy` connects the
  ranges they guarantee to the daemon.

Where the program loops within one thread - parsing, escaping, writing, closing, reading the
configuration, visiting editions - there is a method with the same loop, proved equal to a
specification function; state the program updates in place is a class. The loops whose
iterations interleave with other threads are not methods but steps of a transition system:
the accept loop of `run` (src/server.cpp:949-1024), `worker_loop` and the joins of `shutdown`
(src/thread_pool.cpp:39-87). What the program promises is then proved about the specification
functions and the transition systems; what a client, a mirror or an administrator sees of
them - versions, keys, header names, messages, file names, bases and ranges - is stated
literally, apart from the functions that compute it.

Findings, where the code falls short of a stated promise or of its own comments:

* The script's verdict "is current" (`geoip-sync/geoip-sync.sh:97-106`) can be wrong: after a
  crash between the first and the last rename, a mirror that goes back to the checksum the
  old sidecar still records makes the script keep a database the mirror does not publish.
  `CurrentIsRightExactlyUnlessTorn` is the exact condition over histories,
  `RevertedMirrorIsMisjudged` and `EveryDirectoryCanBeMisjudged` give the failing family, and
  `CurrentIsRightIfMirrorNeverReturns` is the mirror-side condition that rules it out.
* `read_http_head` compares the whole buffer with its limit before it looks for the blank
  line (`src/http.cpp:138-148`), so for a stream longer than the limit the verdict depends on
  how the bytes arrive. `AcceptedHoweverSplit` gives the exact limits.
* `get_double` (`src/geoip.cpp:71-80`) passes any double of a database on, and
  `build_json_body` writes it as it is printed: a latitude or longitude that is infinite or
  not a number makes the body `"latitude":nan`, which is no JSON. `get_string`
  (`src/geoip.cpp:36-47`) copies text from a database unchecked, and `json_escape` passes bytes
  from 0x80 on through, so a text that is not UTF-8 makes a body that is not, and JSON has to
  be. `JsonBodyReadableExactly` is the exact condition for both, `NanBodyIsNoJson` and
  `StrayByteIsNoJson` are instances.
* `path_has_live_listener` (`src/server.cpp:331-352`) also says no if its own socket() fails,
  or connect() for any reason; the socket of a running instance is then removed.
  `ServerLifecycle.Live` has the exact condition over the record of calls, and
  `LiveSocketIsTaken` gives such a life for every usable configuration.
* The comment in `percent_decode` (`src/http.cpp:69`) calls an unencoded space invalid; the
  code accepts byte 0x20. The model follows the code.
* A number in the configuration may be followed by a NUL and anything else
  (`src/config.cpp:67-68`), and an environment value may start, but not end, with whitespace.
  `ParseLongReads` and `ParseLongReadsOnly` are exact about it.

Throughout, a `string` stands for a C++ byte string. Sockets, the clock, libmaxminddb,
`inet_pton` and file status are oracles: values or functions passed in, over which every
theorem quantifies.

## Model

| member | source | states |
|---|---|---|
| `PercentCoding.PercentDecode` | src/http.cpp:23-74 | the index loop computes `Decode`: the decoded text, or failure for a cut or bad escape, an escaped NUL, or a raw control byte |
| `PercentCoding.DecodeUndoesEncode` | src/http.cpp:23-74 | decoding inverts every admissible encoder: any choice per byte of plain, `+` for a space, or `%XX` in either case per digit (section 2.1 of RFC 3986) |
| `PercentCoding.DecodeExactlyInvertsEncoders` | src/http.cpp:23-74 | an input decodes to a text if and only if some admissible encoder writes it for that text |
| `PercentCoding.DecodedIsNulFree` | src/http.cpp:58-66 | a decoded text holds no NUL and is shorter than its input by exactly two bytes per escape |
| `PercentCoding.EncodedAvoids` | src/http.cpp:234-257 | a delimiter the encoder never leaves plain does not occur in its output, so cutting at `&`, `=` and `?` is safe |
| `HttpRequest.ScanAccept` | src/http.cpp:204-223 | the header loop returns the value of the last Accept line before the blank line |
| `HttpRequest.ReadPairs` | src/http.cpp:232-257 | the query loop gathers the pairs of all non-empty pieces in order, or fails at the first that does not decode |
| `HttpRequest.ParseQuery` | src/http.cpp:232-257 | the query loop computes `QueryOf`, the pairs gathered from the start of the query |
| `HttpRequest.GatherOfPieces` | src/http.cpp:232-257 | what is gathered along the query is what its pieces between ampersands contribute, in order |
| `HttpRequest.ReadRequestLine` | src/http.cpp:163-200 | the request line splits at its first two spaces into an upper-case method, a target starting with a slash and the version HTTP/1.0 or HTTP/1.1, or is refused |
| `RequestGrammar.RequestLineExactly` | src/http.cpp:163-200 | a line is accepted with a method and a target iff it is letters A to Z, a space, a space-free target behind a slash, a space, and "HTTP/1.1" or "HTTP/1.0" |
| `HttpRequest.ParseHttpRequest` | src/http.cpp:155-260 | the whole parser computes `Parse`: refused, or exactly method, decoded path, query pairs and Accept value |
| `HttpRequest.FindQueryParam` | src/http.cpp:262-273 | the value of the first pair with the key, none exactly if there is no such pair |
| `HttpHead.ScanStopsAtBlankLine` | src/http.cpp:204-223 | started on a line boundary of the head, the header scan ends exactly at the first blank line and reads nothing behind it |
| `HttpHead.ParseDeterminedByHead` | src/http.cpp:155-223 | bytes behind the first blank line never change what is parsed |
| `HttpHead.ReadHttpHead` | src/http.cpp:95-153 | the poll/recv loop computes `ReadFrom`, over received chunks, interruptions, expiry, close and errors |
| `HttpHead.ReadOfSplit` | src/http.cpp:95-153 | for any split of any stream with a blank line, the exact verdict and buffer: accepted iff the chunk that completes the blank line still fits |
| `HttpHead.NoBlankLineNotOk` | src/http.cpp:142-148 | without a blank line, also across chunk borders, no split is accepted |
| `HttpHead.BrokenOff` | src/http.cpp:105-140 | if the head does not become complete, the verdict is closed, timeout or error as the peer closed, the deadline passed or a call failed, with all that had arrived |
| `HttpHead.EndlessIsTooLarge` | src/http.cpp:142-145 | a stream without a blank line that exceeds the limit is too large, however it is split |
| `HttpHead.FragmentationIndependence` | src/http.cpp:95-153 | for a stream within the limit, every split into chunks gives the same verdict - Ok iff there is a blank line - and the same parsed request |
| `HttpHead.AcceptedHoweverSplit` | src/http.cpp:95-153 | the exact limit: every split is accepted iff the longest completing chunk fits, and some split is accepted iff the head fits |
| `RequestRoundTrip.ScanPrinted` | src/http.cpp:204-223 | scanning any printed header block, with any indentation, padding, case and interleaved other headers, yields the last Accept value |
| `RequestRoundTrip.QueryOfPrinted` | src/http.cpp:232-257 | splitting and decoding any printed query, empty pieces and bare keys included, gives back its pairs in order |
| `RequestRoundTrip.PrintedTarget` | src/http.cpp:225-257 | a printed target is taken apart into its path and its pairs and cannot break the request line |
| `RequestRoundTrip.ParsePrintedRequest` | src/http.cpp:155-260 | round trip: parsing any printed request, whatever follows its head, gives back method, path, pairs and the last Accept value |
| `RequestGrammar.HeaderOfPrints` | src/http.cpp:204-223 | every header line of an accepted head is the printing of one header |
| `RequestGrammar.QueryIsPrinted` | src/http.cpp:232-257 | every accepted query is the printing of some list of pieces |
| `RequestGrammar.AcceptedIsPrinted` | src/http.cpp:155-260 | every accepted head is the printing of a request |
| `RequestGrammar.ParseAcceptsExactlyPrintings` | src/http.cpp:155-260 | a complete head is accepted with a request if and only if it is a printing of that request: a method of letters A to Z, an encoded target, one of the two versions, header lines and a blank line |
| `TextUtil.EscapeJson` | src/text_util.cpp:11-56 | the escaping loop computes `JsonEscape` |
| `TextUtil.ReadUndoesEscape` | src/text_util.cpp:11-56 | a reader of section 7 of RFC 8259 strings gives back every byte string exactly and stops at the closing quote; no bare quote or control byte is written |
| `Utf8.IsUtf8Means` | src/text_util.h:13-15 | UTF-8, which json_escape assumes of its input: a byte string meets the grammar of section 4 of RFC 3629 iff it is the encoding of section 3 of some Unicode scalar values |
| `TextUtil.EscapeKeepsUtf8` | src/text_util.cpp:11-56 | the escaped text is UTF-8 iff the text is |
| `TextUtil.SanitizedKeepsUtf8` | src/text_util.cpp:58-75 | sanitizing a UTF-8 text leaves UTF-8 |
| `TextUtil.SanitizeHeaderValue` | src/text_util.cpp:58-75 | the filtering loop keeps exactly the printable bytes, in order |
| `TextUtil.SanitizedBytewise` | src/text_util.cpp:58-75 | byte by byte: the controls below 0x20 and 0x7F go, every other byte stays in its place |
| `Text.LowerMeans` | src/http.cpp:87-91 | what lower-casing turns into a word is the word with any of its letters in upper case |
| `TextUtil.SanitizedFixedPoint` | src/text_util.cpp:58-75 | sanitizing changes nothing iff all bytes are printable, and is idempotent |
| `Json.ScanObjectText` | src/server.cpp:96-114 | every flat object, written with escaped strings, is taken apart again member for member, whatever its unquoted values are |
| `Json.ReadObjectText` | src/server.cpp:96-114 | it is read as JSON exactly if every unquoted value is null, true, false or a number by the grammar of section 6 of RFC 8259, and every key and string is UTF-8 (section 8.1) |
| `HttpResponse.BuildHttpResponse` | src/http.cpp:294-354 | the serializer writes status line, fields in order, blank line, and the body if wanted |
| `HttpResponse.ReadUndoesBuild` | src/http.cpp:294-354 | framing: a reader splitting at the first blank line recovers status, exactly the intended fields, and the body, whatever bytes the body holds |
| `HttpResponse.ResponseSays` | src/http.cpp:294-346 | literally: the reason of each status, the content type of each of the three formats, and that the connection closes |
| `HttpResponse.FieldsRead` | src/http.cpp:311-346 | a reader finds the fixed fields under their names, and every other field as the response has it |
| `HttpResponse.ContentLengthIsBodyLength` | src/http.cpp:330-345 | the announced Content-Length, the first and only one looked at, reads as the length of the body a GET carries, for HEAD too |
| `HttpResponse.CutIsNoticed` | src/http.cpp:294-354 | the first bytes of a response read as a whole response iff they are all of it: a cut head has no blank line, a cut body is shorter than announced |
| `HttpResponse.HeadIsGetWithoutBody` | src/http.cpp:294-354 | the HEAD form is the GET form without the Content-Type line and the body, byte for byte (section 9.3.2 of RFC 9110) |
| `HttpResponse.ErrorBodyReads` | src/http.cpp:356-370 | the JSON error body is one object holding exactly the message, if that is UTF-8 |
| `HttpResponse.WriteAll` | src/server.cpp:65-82 | under any pattern of partial sends and interruptions the bytes arrive in order: all of them, or a prefix if the connection breaks |
| `HttpResponse.DeliveryComplete` | src/server.cpp:65-82 | delivery is reported complete exactly when every byte was taken |
| `HttpResponse.DeliveredWholeOrNoticed` | src/server.cpp:65-82 | however send() behaves, the client reads the response whole iff all of it was taken, and otherwise sees that it is cut; no broken send means all was taken |
| `LookupBodies.JsonBodyScans` | src/server.cpp:96-114 | every JSON body is taken apart into eleven members, the address text and each field of the result under its own key, byte for byte, absent ones as null |
| `LookupBodies.JsonBodyReads` | src/server.cpp:96-114 | a JSON reader recovers the address text and every field byte for byte, absent fields as null, exactly if both coordinates are JSON numbers and every text is UTF-8; otherwise the body is no JSON |
| `GeoIpTypes.FormatIsNumberExactlyIfFinite` | src/server.cpp:89-94 | the text printed for a double is a JSON number iff the double is finite |
| `LookupBodies.JsonBodyReadableExactly` | src/server.cpp:96-114 | whatever doubles and bytes the databases hold, the body is JSON iff each coordinate present is finite and each text present is UTF-8 |
| `LookupBodies.NanBodyIsNoJson` | src/server.cpp:96-114 | a latitude that is not a number gives a body no JSON reader accepts |
| `LookupBodies.StrayByteIsNoJson` | src/server.cpp:96-114 | and so does a city name that is the single byte 0xFF |
| `LookupBodies.IniBodyIsUtf8` | src/server.cpp:124-169 | if the address and all texts are UTF-8, so is the text body, as its Content-Type says |
| `LookupBodies.JsonBodyDeterminesResult` | src/server.cpp:96-114 | two lookup results with the same JSON body have the same fields: absent is distinct from every present value |
| `LookupBodies.IniBodyReads` | src/server.cpp:124-169 | a line reader of the INI body recovers exactly the present fields, sanitized, in order, each under its own key |
| `LookupBodies.HeadersTellFields` | src/server.cpp:171-218 | each field with a header is found under its own header name, sanitized, and only if it is present |
| `LookupBodies.SuccessHeadersAreFields` | src/server.cpp:171-218 | whatever bytes the databases hold, the X-GeoIP headers of a response are one-line fields |
| `GeoIp.GeoIpDatabases.Open` | src/geoip.cpp:300-352 | a successful open or reload puts the new handle into its slot, closes the previous one and leaves the others; a failed one changes nothing |
| `GeoIp.GeoIpDatabases.LookupAddress` | src/geoip.cpp:369-443 | the lookup, field by field, computes `Lookup` on the three slots |
| `GeoIp.GeoIpDatabases.Destroy` | src/geoip.cpp:284-298 | the destructor closes exactly the handles still held |
| `GeoIp.LookupMeaning` | src/geoip.cpp:369-443 | closed form of a lookup: it fails iff an open database fails, finds iff one has an entry, and each field comes from its one authority |
| `GeoIp.CountryIsAuthoritative` | src/geoip.cpp:376-439 | with a country database open, no other database changes the country and continent fields |
| `GeoIpReload.LookupsLinearize` | src/geoip.cpp:300-443 | in every interleaving each lookup equals the sequential lookup on one installed configuration, touches no closed handle, and a lookup started after another finished sees no older generation |
| `GeoIpReload.CountryAuthorityIsStable` | src/geoip.cpp:300-443 | once a country database is open, no sequence of reloads makes a later lookup take country fields elsewhere; never open, they come from the city database alone |
| `GeoIpReload.HandlesAreClosedOnce` | src/geoip.cpp:284-352 | every handle ever opened is, at every moment, closed once, in one slot, or with its opener |
| `GeoIpReload.EveryHandleIsClosedOnce` | src/geoip.cpp:284-352 | after any run and the destructor every handle ever opened has been closed exactly once |
| `GeoIpReload.MetadataIsOfInstalled` | src/geoip.cpp:445-473 | in every interleaving a metadata read is of the handle installed when its lock was taken, finds metadata iff that slot was open, and never reads a closed handle |
| `GeoIpReload.InstallGrows` | src/geoip.cpp:300-352 | each install changes one slot and raises its generation |
| `GeoIpReload.StepKeepsInv` | src/geoip.cpp:300-443 | the invariant - lock, slots, readers, log, history - is kept by every step |
| `GeoIpReload.OpeningOpens` | src/server.cpp:260-283 | opening the configured databases one after the other leaves exactly their slots open |
| `GeoIpReload.SnapshotsAreConsistent` | src/server.cpp:814-837 | from init on, under any lookups, reloads and metadata reads, open flags are set and metadata is found exactly for the configured databases, so every status snapshot shows open iff it shows metadata; no closed handle is read |
| `GeoIpReload.SwapIsOpen` | src/geoip.cpp:300-352 | run undisturbed, the steps of a swap do what `GeoIpDatabases.Open` promises |
| `ThreadPools.ThreadPool.SubmitLocked` | src/thread_pool.cpp:25-35 | the locked region of submit is the machine step: queue, or refuse after stop |
| `ThreadPools.ThreadPool.NotifyOneWaiter` | src/thread_pool.cpp:36 | notify_one wakes one waiter if there is one |
| `ThreadPools.ThreadPool.BeginShutdownLocked` | src/thread_pool.cpp:41-48 | only the first shutdown sets the flag |
| `ThreadPools.ThreadPool.NotifyAllWaiters` | src/thread_pool.cpp:49 | notify_all wakes exactly the waiters |
| `ThreadPools.ThreadPool.WorkerSection` | src/thread_pool.cpp:69-84 | the locked region of the worker loop waits, exits or pops the front; its second empty-queue test is never true |
| `ThreadPools.ThreadPool.FinishHandler` | src/thread_pool.cpp:85 | a finished handler makes its worker ready again |
| `ThreadPools.ExactlyOnceInOrder` | src/thread_pool.cpp:25-87 | in every interleaving the connections submitted are, in order, those popped, those queued, and those refused after the stop; each is queued, held, handled or refused exactly as often as submitted |
| `ThreadPools.NoReachableLostWakeUp` | src/thread_pool.cpp:25-87 | no reachable state has a queued connection, every remaining worker asleep and no notify pending |
| `ThreadPools.ExitIsForGood` | src/thread_pool.cpp:72-75 | a worker exits only when the pool is stopped and the queue empty, and nothing is ever queued again |
| `ThreadPools.StepKeepsInv` | src/thread_pool.cpp:25-87 | the pool invariant is kept by every step |
| `ThreadPools.DrainStep` | src/thread_pool.cpp:39-87 | after the stopping notify every worker step lowers the remaining work by one, and nothing raises it |
| `ThreadPools.DrainIsBounded` | src/thread_pool.cpp:39-87 | the drain takes exactly as many worker steps as work remains |
| `ThreadPools.DrainNeverStuck` | src/thread_pool.cpp:39-87 | while work remains some worker can move; when none remains all have exited and the joins go through |
| `ThreadPools.ShutdownDrained` | src/thread_pool.cpp:39-62 | when shutdown returns, every worker has exited and everything queued has been handled |
| `Metrics.Counters.RecordRequest` | src/metrics.cpp:14-32 | one of four buckets is incremented, modulo 2^64 |
| `Metrics.Counters.RecordResponse` | src/metrics.cpp:34-56 | one of five status counters is incremented modulo 2^64, none for another status |
| `Metrics.WrapIsModulo` | src/metrics.cpp:14-56 | what a 64-bit counter shows is its number of increments modulo 2^64 |
| `Metrics.RequestWraps` | src/metrics.cpp:14-32 | wrapping at each increment shows the total modulo 2^64 |
| `Metrics.ResponseWraps` | src/metrics.cpp:34-56 | the same for responses |
| `Metrics.SumsWrap` | src/metrics.cpp:14-56 | sums of shown counters are the sums of totals modulo 2^64 |
| `Handler.IpParam` | src/server.cpp:686-687 | the first `ip` pair of the query is taken |
| `Handler.AnswerLookup` | src/server.cpp:684-719 | each branch of /lookup: missing, invalid, database error, not found, located, with its outcome counter |
| `Handler.AnswerRequest` | src/server.cpp:670-753 | the branches on method and path compute `VerdictOf` |
| `Handler.Prepare` | src/server.cpp:633-754 | request counter, branches and outcome counter up to the response |
| `Handler.HandleConnection` | src/server.cpp:628-759 | one connection: counters, bytes written and one close, exactly as its script says |
| `Handler.FormatMeans` | src/http.cpp:275-292 | plain text is chosen iff the header mentions text/plain and not application/json, in any case; JSON otherwise |
| `Handler.StatusMeans` | src/server.cpp:659-754 | each status in terms of request and databases: 405 iff another method, 400 iff a lookup without a usable address, 500 iff a database fails, 404 iff nothing is found or the path is unknown |
| `Handler.BucketMeans` | src/metrics.cpp:14-32 | the three paths that have a counter of their own |
| `Handler.CountersCountActs` | src/metrics.cpp:14-56 | over any acts each of the eleven counters grows by the number of times its act was done |
| `Handler.ServedShape` | src/server.cpp:628-759 | outcomes are counted only for lookup requests, and every reply has a counted status |
| `Handler.EveryReplyIsReadable` | src/server.cpp:628-759 | whatever arrives, whatever the databases hold and however send() behaves, what is delivered is nothing, or one response of which the client recovers status, fields and body, or, iff a send broke before its end, a part the client knows to be cut |
| `EndToEnd.ServesWhatWasPrinted` | src/http.cpp:95-260 | however TCP cuts a printed request that fits, the daemon parses the request that was printed |
| `EndToEnd.AnswerIsTold` | src/server.cpp:654-758 | what a client reads for every request, literally, path by path: 405 with Allow for another method; for /lookup the missing or invalid address, the failing database, the unknown address, or status 200 with every field in headers and body; for /health the detail as JSON iff the Accept header mentions application/json and else "status=ok" as text; for /metrics the metrics whatever is accepted; 404 otherwise - errors in the negotiated form |
| `EndToEnd.RefusalIsRead` | src/server.cpp:634-663 | a head that does not parse and one that is too large are refused with status 400 and their own message, in JSON; where reading failed nothing is sent |
| `EndToEnd.ClientReadsItsAnswer` | src/server.cpp:628-759 | a whole exchange: for any method, path, encoding, headers, either version, any split and behaviour of send(), the client reads all that AnswerIsTold says of its request - for HEAD the status, the fields and the length without the body - or, iff a send broke, sees that the reply is cut |
| `EndToEnd.Exchange` | src/server.cpp:628-759 | the same of `handle_connection` itself: of the bytes on the wire of a fresh connection, which is closed once |
| `EndToEnd.ClientReadsItsLookup` | src/server.cpp:628-759 | in particular a client asking for a known address in JSON, and not cut off, reads status 200, the JSON content type and, under its own key and byte for byte, the address and every field; its body is JSON iff the coordinates are JSON numbers and the texts UTF-8 |
| `EndToEnd.HeadReplyIsGetReplyWithoutBody` | src/server.cpp:677-682 | HEAD for the same target and headers gets the bytes of the GET reply without its Content-Type line and body |
| `Daemon.StepIsPoolStep` | src/server.cpp:924-1028 | every step of the daemon is a legal step of its pool or none, so what every run of the pool keeps, every run of the daemon keeps |
| `Daemon.ActBalances` | src/server.cpp:628-759 | what one handler action does to the counters and to the work still owed |
| `Daemon.StepKeepsInv` | src/server.cpp:628-1028 | the invariant over pool, hands, main thread, counters and closes is kept by every step |
| `Daemon.SubmitNeverRefuses` | src/server.cpp:985-999 | the close-on-stop branch of submit is never reached from the accept loop |
| `Daemon.EveryConnectionServed` | src/server.cpp:877-1028 | when run() has shut down, every accepted descriptor was handled and closed exactly as often as accepted, and all counted requests have their response counted |
| `Daemon.CountersAreConserved` | src/server.cpp:628-759 | at every interleaved state requests minus responses is the number of workers between the two increments, modulo 2^64 for the shown values, and outcomes never exceed lookups |
| `DaemonDrain.DrainStep` | src/server.cpp:877-886 | after the stopping notify each worker step, inside handlers too, leaves strictly less to do and no step leaves more |
| `DaemonDrain.DrainIsBounded` | src/server.cpp:877-886 | so the workers take at most as many steps as there is left |
| `DaemonDrain.DrainNeverStuck` | src/server.cpp:877-886 | something is left iff some worker can move; when nothing is, the joins go through |
| `DaemonDrain.EveryShutdownDrains` | src/server.cpp:877-1028 | both for every run that has reached its shutdown |
| `DaemonRuns.RunIsPoolRun` | src/server.cpp:924-1028 | every run of the daemon, seen from its pool, is a legal run of the pool |
| `DaemonRuns.EveryRunCanFinish` | src/server.cpp:877-1028 | nothing that can happen blocks the shutdown: every run has a continuation in which run() ends with exactly those accepted so far served and closed |
| `DaemonRuns.AnyClientsAreServed` | src/server.cpp:877-1028 | for every list of clients there is a whole life of the daemon that accepts and serves exactly them, and a run of its pool in which shutdown returns |
| `LookupService.RunIsDaemonRun` | src/server.cpp:628-759 | with lookups made in the databases while they are reloaded, every run is a legal run of the daemon |
| `LookupService.RunIsReloadRun` | src/geoip.cpp:300-443 | and a legal run of the databases, so the theorems about both hold of it |
| `LookupService.StepKeepsInv` | src/server.cpp:684-719 | every step keeps what ties scripts, lookups and replies together |
| `LookupService.RepliesAreLookups` | src/server.cpp:684-719 | in every interleaving of clients, workers and reloads each reply is, byte for byte, the reply to its request by the sequential lookup on one installed configuration |
| `LookupService.RepliesNeverGoBack` | src/server.cpp:684-719 | a lookup that begins after another reply was sent is answered from the same configuration or a later one, in no slot an older generation |
| `LookupService.ClientReadsOneConfiguration` | src/server.cpp:684-719 | so a client that asks for a usable address reads status 200 iff that one configuration knows the address without an error, with the fields it holds |
| `LookupService.LookupCanBeMade` | src/geoip.cpp:369-443 | whatever configuration is in force, a worker for which its lookup was foreseen can make it and go on |
| `ConfiguredDaemon.ConfiguredDaemonServes` | src/config.cpp:162-171 | whatever the configuration, the daemon has a worker, so no wake-up is lost and shutdown serves every connection |
| `ServerLifecycle.Server.Init` | src/server.cpp:253-305 | init succeeds iff every call it needs does, and then has all listeners and the pool; wherever it fails, the fields name exactly what is held; the record shows the socket of a live process removed iff init reached a succeeding unlink of a socket whose probe was not made or not answered |
| `ServerLifecycle.StartsExactly` | src/server.cpp:253-626 | literally, over the answers of all calls: init starts iff each call on its way goes well, including both or the one TCP listener configured and a path below 108 bytes |
| `ServerLifecycle.Server.ClearPath` | src/server.cpp:421-453 | a path found at startup is removed iff it is a socket whose liveness probe was not made or not answered, and unlink succeeds |
| `ServerLifecycle.LiveSocketIsTaken` | src/server.cpp:331-352 | the failing family: for every usable configuration, a process listening and a connect() that would say so, there is a life in which the probe gets no socket and the live socket is removed and replaced |
| `ServerLifecycle.Server.ProbeListener` | src/server.cpp:331-352 | the probe descriptor is closed whatever connect says |
| `ServerLifecycle.Server.SetupSocket` | src/server.cpp:412-505 | the UNIX listener is ready iff directory, path, socket, bind, chmod and listen succeed; the created flag is set iff bind succeeded |
| `ServerLifecycle.Server.BindOneTcp` | src/server.cpp:507-572 | a TCP listener is kept iff every call succeeds and closed otherwise |
| `ServerLifecycle.Server.SetupTcpListeners` | src/server.cpp:574-626 | none, both loopback families, or the one configured address |
| `ServerLifecycle.Server.Cleanup` | src/server.cpp:877-922 | afterwards nothing is held, the workers are joined before any listener is closed, and an own path is removed |
| `ServerLifecycle.Server.Destroy` | src/server.cpp:224-251 | from any state nothing is left held; after cleanup it does nothing |
| `ServerLifecycle.DisciplineCounts` | src/server.cpp:224-251 | in a record in order, opens, closes and removals of each resource differ by what is still held |
| `ServerLifecycle.SettledLedger` | src/server.cpp:224-251 | when nothing is held, each descriptor was closed exactly once for its one opening |
| `ServerLifecycle.Live` | src/server.cpp:224-305 | a whole life, for every point of failure: each descriptor closed exactly once, the path removed at the end exactly once iff this instance bound it, a path found at startup removed exactly as `RemovesFound` says, and the socket of a live process removed iff its probe was not made or not answered - with a truthful connect() only if the probe had no socket |
| `GeoipSync.Directory.UpdateDatabase` | geoip-sync/geoip-sync.sh:61-188 | update_database, cut after any number of file operations, leaves what `Attempted` says, with each early return |
| `GeoipSync.Directory.Download` | geoip-sync/geoip-sync.sh:108-187 | the part behind the "is current" test: verify, then the four renames, or clean up |
| `Checksums.FirstFieldIsFirstWord` | geoip-sync/geoip-sync.sh:87 | the first field of a file is its first word, whatever blanks stand before it and whatever - a file name, more lines - behind it |
| `Checksums.FirstFieldSplits` | geoip-sync/geoip-sync.sh:87 | and every text is blanks, its first field, and the end, a blank or a newline |
| `Checksums.LowerHexIsLower` | geoip-sync/geoip-sync.sh:95 | A to F become a to f, every other byte stays |
| `Checksums.ExpectedExactly` | geoip-sync/geoip-sync.sh:81-95 | an attempt goes for a checksum iff the file arrived and its first word is 64 hex digits, which are the checksum in lower case |
| `Checksums.Md5VerifiesExactly` | geoip-sync/geoip-sync.sh:127-151 | the MD5 file fits iff it arrived and its first word is 32 hex digits that are, in any case, the digest computed of the database |
| `GeoipSyncRuns.FetchLeaves` | geoip-sync/geoip-sync.sh:36-59 | a download replaces its temporary file by what arrived, however it was cut |
| `GeoipSyncRuns.AttemptEffect` | geoip-sync/geoip-sync.sh:61-188 | whatever the crash point, the installed files change exactly by the first n renames, each with the whole of its download |
| `GeoipSyncRuns.UninterruptedAttemptCleansUp` | geoip-sync/geoip-sync.sh:61-188 | an attempt that ends leaves no temporary file, whatever an earlier crash left, and unless it updates changes nothing else |
| `GeoipSyncRuns.InstalledIsOriginalOrVerified` | geoip-sync/geoip-sync.sh:108-184 | at every moment of every history the installed database is the original or the whole of one that verified against both checksums |
| `GeoipSyncRuns.MarkerImpliesComplete` | geoip-sync/geoip-sync.sh:97-184 | completion marker: from a consistent start, a matching SHA-256 sidecar always stands beside a matching MD5 sidecar |
| `GeoipSyncRuns.MarkerMatchesExactlyUnlessTorn` | geoip-sync/geoip-sync.sh:181-184 | a present SHA-256 sidecar matches the database iff no install was left half-renamed |
| `GeoipSyncRuns.CurrentIsRightExactlyUnlessTorn` | geoip-sync/geoip-sync.sh:97-106 | the verdict "is current" is right iff no install was left half-renamed |
| `GeoipSyncRuns.VersionsAreOrdered` | geoip-sync/geoip-sync.sh:81-184 | the version of the sidecar is at most that of the database, which is at most the latest checksum fetched |
| `GeoipSyncRuns.CurrentIsRightIfMirrorNeverReturns` | geoip-sync/geoip-sync.sh:81-106 | if the published checksum never returns to an earlier value, the verdict is right in every history with crashes anywhere |
| `GeoipSyncRuns.TornInstallIsRedone` | geoip-sync/geoip-sync.sh:97-188 | then a half-renamed install is always done again |
| `GeoipSyncRuns.UninterruptedUpdateCompletes` | geoip-sync/geoip-sync.sh:179-187 | an update that is not interrupted leaves all four files of its downloads, both sidecars matching, from any start |
| `GeoipSyncRuns.RevertedMirrorIsMisjudged` | geoip-sync/geoip-sync.sh:97-106 | the failing family: a half-renamed install and a mirror back at the recorded checksum give a wrong "is current" |
| `GeoipSyncRuns.EveryDirectoryCanBeMisjudged` | geoip-sync/geoip-sync.sh:97-106 | for every directory with a matching sidecar and every database with another checksum there is such a history |
| `GeoipSyncCycle.PathsAreNamed` | geoip-sync/geoip-sync.sh:63-75 | the database is the edition with .mmdb, sidecars are named after the database, temporaries after what they become |
| `GeoipSyncCycle.PathsAreDistinct` | geoip-sync/geoip-sync.sh:63-75 | no two files of any two editions share a path, whatever the edition names |
| `GeoipSyncCycle.Store.RunSync` | geoip-sync/geoip-sync.sh:190-201 | the edition loop visits every edition and remembers failures |
| `GeoipSyncCycle.CycleIsHistory` | geoip-sync/geoip-sync.sh:190-219 | seen from one edition, cycles are histories of attempts on it alone |
| `GeoipSyncCycle.CycleKeepsMarkers` | geoip-sync/geoip-sync.sh:190-219 | so the completion marker holds for every edition after any number of operations of any cycle |
| `GeoipSyncCycle.FailureIsRemembered` | geoip-sync/geoip-sync.sh:195-200 | a failure of any edition shows in the status |
| `GeoipSyncCycle.ReportedFailureHappened` | geoip-sync/geoip-sync.sh:195-200 | and a reported failure did happen |
| `Config.TrimWhitespace` | src/config.cpp:44-57 | the two-index loop computes `Trim` |
| `Config.TrimSplits` | src/config.cpp:44-57 | trimming removes whitespace at both ends and nothing else, and leaves none there |
| `Config.ParseLongReads` | src/config.cpp:59-74 | whitespace, an optional sign and digits read as their number iff it fits 64 bits, with anything behind a NUL |
| `Config.ParseLongReadsOnly` | src/config.cpp:59-74 | nothing else is read as a number |
| `Config.NumbersAreRead` | src/config.cpp:59-74 | exactly the digits of the base are read, and a number as it is written in that base |
| `Config.Assign` | src/config.cpp:136-219 | an assignment succeeds iff its value is valid, sets that setting to what the text means, and no other |
| `Config.ReadLine` | src/config.cpp:119-229 | the body of the line loop: ignored, unknown, assigned, or refused, as `MeaningOf` says |
| `Config.LoadConfig` | src/config.cpp:106-233 | a file is accepted iff no line is refused; each setting is then its last assignment or what it was; unknown keys are reported with line numbers; otherwise the first refused line is named |
| `Config.AssignmentReads` | src/config.cpp:126-134 | an assignment may be written with any whitespace, and its value may hold `=` and `#` |
| `Config.ApplyEnvOverrides` | src/config.cpp:251-347 | accepted iff every set variable is valid; each replaces its setting, the others stay; otherwise the first bad variable is named |
| `Settings.FileSettings` | src/config.cpp:106-233 | after an accepted file each of the twelve fields has what the last line with its key says - paths as they stand, socket_mode in octal, the other numbers in decimal, each in its range, debug_log as one of eight words in any case - or what it had |
| `Settings.EnvironmentSettings` | src/config.cpp:251-347 | the same for the environment |
| `Settings.AcceptedExactly` | src/config.cpp:119-226 | a line is accepted iff it is blank, a comment, or holds an equals sign, and what it gives a number is in range and what it gives the switch is one of the words |
| `Settings.UnknownExactly` | src/config.cpp:221-229 | a line is reported iff it assigns to a key no setting has |
| `Settings.WarningsExactly` | src/config.cpp:221-229 | the warnings name each such line once, by its number, in order |
| `Settings.LinesOfFile` | src/config.cpp:117-119 | the lines of a file are read back, with or without a newline behind the last |
| `Settings.RunSettings` | src/main.cpp:371-417 | a run has the defaults, literally, with the text of the environment or else of the file in the place of each setting, and the database files found |
| `Settings.DatabasesAreFound` | src/config.cpp:387-411 | each of the three database files is looked for under its own name in the order of the directories, the country file only without a city database |
| `Startup.ResolveSlot` | src/config.cpp:362-383 | a set path stays; otherwise the first directory that holds the file is used |
| `Startup.FirstPresentIsFirst` | src/config.cpp:370-382 | no earlier directory holds the file |
| `Startup.ApplyDefaultDbPaths` | src/config.cpp:387-411 | city first, then ASN, and country only if there is no city database |
| `Startup.NoDatabaseExactly` | src/config.cpp:387-411 | a run has no database iff none is configured and none is found |
| `Startup.Configure` | src/main.cpp:371-417 | a run gets settings iff its file and environment are acceptable, a missing file only if it was not named |
| `Startup.Precedence` | src/config.cpp:251-347 | each setting is the environment value if set, else the last assignment of the file, else the default |
| `Startup.ConfiguredInRange` | src/config.cpp:152-219 | every run that starts has all numbers in range, at least one worker included |
| `Startup.DefaultThreads` | src/config.cpp:17-39 | the default thread count is the number of cores where that is between 4 and 20, and within these bounds on every machine |
| `Startup.PollTimeoutFits` | src/server.cpp:951-957 | the metrics timeout fits an int; it is endless iff there is no metrics file, zero iff the write is due, and else ends within the millisecond before the write is due |

## Left out

* Bytes are `char`s of a `string`. `percent_decode`'s partial output after a failure is not
  specified; no caller reads it.
* Ages, uptime and build dates are opaque texts. Of `format_double` the shape of its output is
  modelled, not which digits it prints: `setprecision(9)` is lossy, so numeric round trips are
  not claimed. Header fields and lines of the text body may hold any number text, infinities
  and NaNs included.
* The JSON reader takes flat objects without white space, which is what `build_json_body` and
  `make_error_response` write, and reads `\u` escapes up to U+007F only.
* `render_health_json`, `render_prometheus_metrics` and `escape_label_value` are opaque bodies
  of /health and /metrics; escaping a label is the easier sibling of `json_escape`.
* libmaxminddb, address parsing, poll, recv, send, accept4 and signalfd are oracles; only the
  length limit of `parse_ip_address` is modelled.
* Time: the deadline of `read_http_head` is an event that may happen at any point; sends have
  no timeout in the program, so a handler is assumed to terminate.
* A second, concurrent caller of `shutdown()` returns at once in the program; the drain
  theorems are about the call that set the flag.
* The `has_*` flags are read without the lock in the program; the model reads a flag in one
  step, at any moment.
* The counters are read one by one by /metrics, so nothing is claimed about sums within one
  scrape. Contents and replacement of `metrics_file` are not modelled.
* Several instances competing for one socket path: the liveness probe, the removal and bind
  are separate system calls; the life-cycle model follows one instance, and another one shows
  in it only as a process that does or does not listen on the path.
* `Server.Live` follows `init`, `cleanup` and the destructor; what the loop in `run` does with
  clients is the subject of `Daemon`. MMDB handles are in `GeoIpReload`, not in this ledger.
* In `LookupService` a worker is given the outcome of its lookup when it takes the connection,
  and the step that ends the lookup is possible only if that is what it gives; the runs in
  which it is not are runs of no program. /health and /metrics read the databases there as
  free readers, since their bodies are opaque.
* A failing thread creation in the `ThreadPool` constructor is not modelled.
* In the replication script, failing `mv` and `rm` are not modelled, only crashes between
  operations; nor are timestamps, the contents of the header file and the metadata document,
  the sleep between cycles and signal handling, which ends the script as a crash would.
* Digests are arbitrary functions; no theorem needs that they have no collisions.
* Environment variables are identified with the settings they override; their names are not
  modelled.
* Warnings, notes and log lines of the configuration carry only line number and key.
  Parsing of the command line is reduced to whether the file was named.
* `check_health`, `--check-db` output, `geoip-update/entrypoint.sh` and `nshgeoipctl.sh` are
  input and output around the modelled parts.
