/** How the settings of a run come about (src/main.cpp:371-417, src/config.cpp:17-39 and
    349-411) and what every run can rely on. */
module Startup {
  import opened Text
  import opened Config

  // ----- defaults -----

  const INT_MAX := 0x7FFF_FFFF

  /** `default_thread_count`, from what hardware_concurrency() says. */
  function DefaultThreads(detected: nat): (n: int)
    ensures 4 <= n <= 20
    ensures 4 <= detected <= 20 ==> n == detected
    ensures 20 < detected <= INT_MAX ==> n == 20
    ensures detected == 0 ==> n == 8
    ensures 1 <= detected < 4 ==> n == 4
  {
    if detected == 0 then 8
    else
      // static_cast<int> of an unsigned int
      var low := detected % 0x1_0000_0000;
      var n := if low > INT_MAX then low - 0x1_0000_0000 else low;
      if n < 4 then 4 else if n > 20 then 20 else n
  }

  function Defaults(detected: nat): Config {
    Config("", "", "", "/run/nshgeoip/nshgeoip.sock", 432, DefaultThreads(detected), 8192, false, 0, "", "", 60)
  }

  // ----- database paths -----

  /** The first directory that holds the file; stat is an oracle over paths. */
  function FirstPresent(dirs: seq<string>, filename: string, present: string -> bool): Option<string> {
    if dirs == [] then None
    else if present(dirs[0] + "/" + filename) then Some(dirs[0] + "/" + filename)
    else FirstPresent(dirs[1..], filename, present)
  }

  /** `resolve_db_slot` */
  method ResolveSlot(field: string, filename: string, dirs: seq<string>, present: string -> bool) returns (r: string)
    ensures r == if field != "" then field else FirstPresent(dirs, filename, present).GetOr("")
  {
    if field != "" {
      return field;
    }
    for i := 0 to |dirs|
      invariant FirstPresent(dirs, filename, present) == FirstPresent(dirs[i..], filename, present)
    {
      var candidate := dirs[i] + "/" + filename;
      if present(candidate) {
        return candidate;
      }
      assert dirs[i..][1..] == dirs[i + 1..];
    }
    r := "";
  }

  const CITY := "GeoLite2-City.mmdb"
  const ASN := "GeoLite2-ASN.mmdb"
  const COUNTRY := "GeoLite2-Country.mmdb"

  /** `apply_default_db_paths`: a set path is never overridden, and no country database is
      looked for once there is a city database. */
  method ApplyDefaultDbPaths(cfg: Config, dirs: seq<string>, present: string -> bool) returns (r: Config)
    ensures r == Resolved(cfg, dirs, present)
  {
    r := cfg;
    var city := ResolveSlot(r.cityDb, CITY, dirs, present);
    r := r.(cityDb := city);
    var asn := ResolveSlot(r.asnDb, ASN, dirs, present);
    r := r.(asnDb := asn);
    if r.cityDb != "" {
      return;
    }
    var country := ResolveSlot(r.countryDb, COUNTRY, dirs, present);
    r := r.(countryDb := country);
  }

  function Slot(field: string, filename: string, dirs: seq<string>, present: string -> bool): string {
    if field != "" then field else FirstPresent(dirs, filename, present).GetOr("")
  }

  function Resolved(cfg: Config, dirs: seq<string>, present: string -> bool): Config {
    var city := Slot(cfg.cityDb, CITY, dirs, present);
    cfg.(cityDb := city,
         asnDb := Slot(cfg.asnDb, ASN, dirs, present),
         countryDb := if city != "" then cfg.countryDb else Slot(cfg.countryDb, COUNTRY, dirs, present))
  }

  predicate InNone(dirs: seq<string>, filename: string, present: string -> bool) {
    forall k :: 0 <= k < |dirs| ==> !present(dirs[k] + "/" + filename)
  }

  /** The directory found is the first that holds the file. */
  lemma {:induction false} FirstPresentIsFirst(dirs: seq<string>, filename: string, present: string -> bool)
    returns (k: nat)
    ensures k <= |dirs| && InNone(dirs[..k], filename, present)
    ensures FirstPresent(dirs, filename, present)
         == if k < |dirs| then Some(dirs[k] + "/" + filename) else None
    ensures k < |dirs| ==> present(dirs[k] + "/" + filename)
  {
    k := 0;
    if dirs != [] && !present(dirs[0] + "/" + filename) {
      var rest := FirstPresentIsFirst(dirs[1..], filename, present);
      k := rest + 1;
      forall i | 0 <= i < k ensures !present(dirs[..k][i] + "/" + filename) {
        if i > 0 {
          assert dirs[..k][i] == dirs[1..][..rest][i - 1];
        }
      }
    }
  }

  lemma SlotEmptyExactly(field: string, filename: string, dirs: seq<string>, present: string -> bool)
    ensures Slot(field, filename, dirs, present) == "" <==> field == "" && InNone(dirs, filename, present)
  {
    var k := FirstPresentIsFirst(dirs, filename, present);
    assert dirs[..|dirs|] == dirs;
    if k < |dirs| && field == "" {
      assert |Slot(field, filename, dirs, present)| > 0;
    }
  }

  /** A run ends up without any database - and refuses to start - exactly if none is
      configured and none of the three files is in any of the searched directories. */
  lemma NoDatabaseExactly(cfg: Config, dirs: seq<string>, present: string -> bool)
    ensures var r := Resolved(cfg, dirs, present);
            (r.cityDb == "" && r.asnDb == "" && r.countryDb == "") <==>
              && cfg.cityDb == "" && cfg.asnDb == "" && cfg.countryDb == ""
              && InNone(dirs, CITY, present) && InNone(dirs, ASN, present) && InNone(dirs, COUNTRY, present)
  {
    SlotEmptyExactly(cfg.cityDb, CITY, dirs, present);
    SlotEmptyExactly(cfg.asnDb, ASN, dirs, present);
    SlotEmptyExactly(cfg.countryDb, COUNTRY, dirs, present);
  }

  // ----- the whole -----

  datatype FileState = Missing | Unreadable | Readable(content: string)

  /** main() up to the database paths: file, then environment.  A missing file is fatal only
      if it was named on the command line. */
  method Configure(detected: nat, file: FileState, named: bool, env: Environment,
                   dirs: seq<string>, present: string -> bool)
    returns (cfg: Option<Config>)
    ensures cfg.Some? <==> FileAccepted(file, named) && AllAcceptable(env)
    ensures cfg.Some? ==> Configured(detected, file, env, dirs, present, cfg.value)
  {
    var c := Defaults(detected);
    match file {
      case Missing =>
        if named {
          return None;
        }
      case Unreadable =>
        return None;
      case Readable(content) =>
        var refusedAt, warnings;
        c, refusedAt, warnings := LoadConfig(content, c);
        if refusedAt.Some? {
          return None;
        }
    }
    ghost var fromFile := c;
    assert Applied(Defaults(detected), LinesOf(file), fromFile);
    var bad;
    c, bad := ApplyEnvOverrides(c, env);
    if bad.Some? {
      return None;
    }
    Precedence(Defaults(detected), LinesOf(file), fromFile, env, c);
    ghost var before := c;
    c := ApplyDefaultDbPaths(c, dirs, present);
    assert HasPrecedence(Defaults(detected), LinesOf(file), env, before) && c == Resolved(before, dirs, present);
    cfg := Some(c);
  }

  ghost predicate FileAccepted(file: FileState, named: bool) {
    match file
    case Missing => !named
    case Unreadable => false
    case Readable(content) => AllAccepted(Lines(content))
  }

  function LinesOf(file: FileState): seq<string> {
    if file.Readable? then Lines(file.content) else []
  }

  /** Environment before file before default, setting by setting. */
  function Effective(defaults: Config, lines: seq<string>, env: Environment, f: Field): Value {
    if f in env then Interpret(f, env[f]).GetOr(Get(defaults, f))
    else
      match LastAssignment(lines, f)
      case Some(text) => Interpret(f, text).GetOr(Get(defaults, f))
      case None => Get(defaults, f)
  }

  ghost predicate HasPrecedence(defaults: Config, lines: seq<string>, env: Environment, cfg: Config) {
    forall f :: Get(cfg, f) == Effective(defaults, lines, env, f)
  }

  ghost predicate Configured(detected: nat, file: FileState, env: Environment,
                             dirs: seq<string>, present: string -> bool, cfg: Config)
  {
    exists before ::
      HasPrecedence(Defaults(detected), LinesOf(file), env, before) && cfg == Resolved(before, dirs, present)
  }

  /** Both overlays in their order give every setting its environment value if set, else the
      file's last assignment, else the default. */
  lemma Precedence(defaults: Config, lines: seq<string>, fromFile: Config, env: Environment, cfg: Config)
    requires Applied(defaults, lines, fromFile) && AllAcceptable(env) && Overlaid(fromFile, env, cfg)
    ensures HasPrecedence(defaults, lines, env, cfg)
  {
    forall f ensures Get(cfg, f) == Effective(defaults, lines, env, f) {
      assert Acceptable(env, f);
      assert Get(fromFile, f) == FromFile(defaults, lines, f);
    }
  }

  // ----- what every run can rely on -----

  predicate InRange(c: Config) {
    && 0 <= c.socketMode <= 4095
    && 1 <= c.threads <= 256
    && 256 <= c.maxRequestBytes <= 1048576
    && 0 <= c.tcpPort <= 65535
    && 1 <= c.metricsInterval <= 86400
  }

  predicate NumberInRange(f: Field, v: Value) {
    match f
    case SocketMode => v.Number? && 0 <= v.number <= 4095
    case Threads => v.Number? && 1 <= v.number <= 256
    case MaxRequestBytes => v.Number? && 256 <= v.number <= 1048576
    case TcpPort => v.Number? && 0 <= v.number <= 65535
    case MetricsInterval => v.Number? && 1 <= v.number <= 86400
    case CountryDb | AsnDb | CityDb | SocketPath | DebugLog | TcpAddress | MetricsFile => true
  }

  lemma InterpretedInRange(f: Field, text: string)
    requires Interpret(f, text).Some?
    ensures NumberInRange(f, Interpret(f, text).value)
  {
  }

  lemma EffectiveInRange(detected: nat, lines: seq<string>, env: Environment, f: Field)
    ensures NumberInRange(f, Effective(Defaults(detected), lines, env, f))
  {
    assert NumberInRange(f, Get(Defaults(detected), f));
    if f in env {
      if Interpret(f, env[f]).Some? { InterpretedInRange(f, env[f]); }
    } else if LastAssignment(lines, f).Some? {
      var text := LastAssignment(lines, f).value;
      if Interpret(f, text).Some? { InterpretedInRange(f, text); }
    }
  }

  /** Whatever file, environment and machine: a run that starts has settings in range - so
      its pool has a worker, and a request head is never limited below 256 bytes. */
  lemma ConfiguredInRange(detected: nat, file: FileState, env: Environment,
                          dirs: seq<string>, present: string -> bool, cfg: Config)
    requires Configured(detected, file, env, dirs, present, cfg)
    ensures InRange(cfg)
  {
    var before :|
      HasPrecedence(Defaults(detected), LinesOf(file), env, before) && cfg == Resolved(before, dirs, present);
    EffectiveInRange(detected, LinesOf(file), env, SocketMode);
    EffectiveInRange(detected, LinesOf(file), env, Threads);
    EffectiveInRange(detected, LinesOf(file), env, MaxRequestBytes);
    EffectiveInRange(detected, LinesOf(file), env, TcpPort);
    EffectiveInRange(detected, LinesOf(file), env, MetricsInterval);
    assert Get(before, SocketMode) == Number(before.socketMode) && Get(before, Threads) == Number(before.threads);
    assert Get(before, MaxRequestBytes) == Number(before.maxRequestBytes);
    assert Get(before, TcpPort) == Number(before.tcpPort);
    assert Get(before, MetricsInterval) == Number(before.metricsInterval);
  }

  // duration_cast<milliseconds> of a span in nanoseconds: truncation toward zero.
  function Milliseconds(span: int): int {
    if span >= 0 then span / 1_000_000 else -((-span) / 1_000_000)
  }

  /** The timeout `run` passes to poll, before its conversion to int. */
  function PollTimeout(c: Config, next: int, now: int): int {
    if c.metricsFile == "" then -1
    else if Milliseconds(next - now) > 0 then Milliseconds(next - now) else 0
  }

  /** With the next metrics write one interval after some earlier moment, the timeout fits
      an int, so the conversion in `run` is exact.  Without a metrics file poll waits for ever;
      with one it wakes up at most a millisecond before the next write is due, and at once if
      that is past. */
  lemma PollTimeoutFits(c: Config, scheduled: int, now: int)
    requires InRange(c) && scheduled <= now
    ensures var due := scheduled + c.metricsInterval * 1_000_000_000;
            var timeout := PollTimeout(c, due, now);
            && -1 <= timeout <= c.metricsInterval * 1000 <= INT_MAX
            && (timeout == -1 <==> c.metricsFile == "")
            && (c.metricsFile != "" ==>
                  if due <= now then timeout == 0
                  else now + timeout * 1_000_000 <= due < now + (timeout + 1) * 1_000_000)
  {
  }
}
