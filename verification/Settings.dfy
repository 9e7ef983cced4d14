/** What the texts of the configuration mean, setting by setting (src/config.cpp:76-233 and
    251-411, src/config.h:26-60): the key of each, its base and range or its accepted words,
    and the field of the settings it ends up in - for the file, for the environment, and for
    a whole run.
 */
module Settings {
  import opened Text
  import opened Config
  import opened Startup

  // ----- values -----

  /** A number setting: what its text reads as in this base, within the range; or what it was
      before. */
  predicate NumberIs(text: Option<string>, base: Base, low: int, high: int, before: int, after: int) {
    match text
    case None => after == before
    case Some(t) => ParseLong(t, base) == Some(after) && low <= after <= high
  }

  predicate SaysYes(text: string) {
    InAnyCase(text, "1") || InAnyCase(text, "true") || InAnyCase(text, "yes") || InAnyCase(text, "on")
  }

  predicate SaysNo(text: string) {
    InAnyCase(text, "0") || InAnyCase(text, "false") || InAnyCase(text, "no") || InAnyCase(text, "off")
  }

  /** A switch: eight words in any case. */
  predicate SwitchIs(text: Option<string>, before: bool, after: bool) {
    match text
    case None => after == before
    case Some(t) => if after then SaysYes(t) else SaysNo(t)
  }

  /** The settings `after` are those `before` with these texts, by key, in their place. */
  predicate SettingsAre(before: Config, texts: string -> Option<string>, after: Config) {
    && after.countryDb == texts("country_db").GetOr(before.countryDb)
    && after.asnDb == texts("asn_db").GetOr(before.asnDb)
    && after.cityDb == texts("city_db").GetOr(before.cityDb)
    && after.socketPath == texts("socket").GetOr(before.socketPath)
    && NumberIs(texts("socket_mode"), 8, 0, 0xFFF, before.socketMode, after.socketMode)
    && NumberIs(texts("threads"), 10, 1, 256, before.threads, after.threads)
    && NumberIs(texts("max_request_bytes"), 10, 256, 1048576, before.maxRequestBytes, after.maxRequestBytes)
    && SwitchIs(texts("debug_log"), before.debugLog, after.debugLog)
    && NumberIs(texts("tcp_port"), 10, 1, 65535, before.tcpPort, after.tcpPort)
    && after.tcpAddress == texts("tcp_address").GetOr(before.tcpAddress)
    && after.metricsFile == texts("metrics_file").GetOr(before.metricsFile)
    && NumberIs(texts("metrics_interval_seconds"), 10, 1, 86400, before.metricsInterval, after.metricsInterval)
  }

  lemma YesWordsAreLowerCase()
    ensures NoUpperCase("1") && NoUpperCase("true") && NoUpperCase("yes") && NoUpperCase("on")
  {
  }

  lemma NoWordsAreLowerCase()
    ensures NoUpperCase("0") && NoUpperCase("false") && NoUpperCase("no") && NoUpperCase("off")
  {
  }

  lemma SwitchReads(text: string)
    ensures ParseBool(text) == Some(true) <==> SaysYes(text)
    ensures ParseBool(text) == Some(false) ==> SaysNo(text)
    ensures SaysNo(text) && !SaysYes(text) ==> ParseBool(text) == Some(false)
  {
    YesWordsAreLowerCase();
    NoWordsAreLowerCase();
    LowerMeans(text, "1");
    LowerMeans(text, "true");
    LowerMeans(text, "yes");
    LowerMeans(text, "on");
    LowerMeans(text, "0");
    LowerMeans(text, "false");
    LowerMeans(text, "no");
    LowerMeans(text, "off");
  }

  /** Every setting has its text interpreted, or is as before. */
  ghost predicate Interpreted(before: Config, text: Field -> Option<string>, after: Config) {
    forall f :: Get(after, f) == match text(f)
                                 case None => Get(before, f)
                                 case Some(t) => Interpret(f, t).GetOr(Get(before, f))
  }

  ghost predicate AllValid(text: Field -> Option<string>) {
    forall f :: text(f).Some? ==> Interpret(f, text(f).value).Some?
  }

  lemma PathsAre(before: Config, text: Field -> Option<string>, after: Config)
    requires Interpreted(before, text, after)
    ensures after.countryDb == text(CountryDb).GetOr(before.countryDb)
    ensures after.asnDb == text(AsnDb).GetOr(before.asnDb)
    ensures after.cityDb == text(CityDb).GetOr(before.cityDb)
    ensures after.socketPath == text(SocketPath).GetOr(before.socketPath)
    ensures after.tcpAddress == text(TcpAddress).GetOr(before.tcpAddress)
    ensures after.metricsFile == text(MetricsFile).GetOr(before.metricsFile)
  {
    assert Get(after, CountryDb) == Text(after.countryDb) && Get(after, AsnDb) == Text(after.asnDb);
    assert Get(after, CityDb) == Text(after.cityDb) && Get(after, SocketPath) == Text(after.socketPath);
    assert Get(after, TcpAddress) == Text(after.tcpAddress) && Get(after, MetricsFile) == Text(after.metricsFile);
  }

  lemma NumbersAre(before: Config, text: Field -> Option<string>, after: Config)
    requires Interpreted(before, text, after) && AllValid(text)
    ensures NumberIs(text(SocketMode), 8, 0, 0xFFF, before.socketMode, after.socketMode)
    ensures NumberIs(text(Threads), 10, 1, 256, before.threads, after.threads)
    ensures NumberIs(text(MaxRequestBytes), 10, 256, 1048576, before.maxRequestBytes, after.maxRequestBytes)
    ensures NumberIs(text(TcpPort), 10, 1, 65535, before.tcpPort, after.tcpPort)
    ensures NumberIs(text(MetricsInterval), 10, 1, 86400, before.metricsInterval, after.metricsInterval)
  {
    assert Get(after, SocketMode) == Number(after.socketMode) && Get(after, Threads) == Number(after.threads);
    assert Get(after, MaxRequestBytes) == Number(after.maxRequestBytes);
    assert Get(after, TcpPort) == Number(after.tcpPort);
    assert Get(after, MetricsInterval) == Number(after.metricsInterval);
  }

  lemma SwitchesAre(before: Config, text: Field -> Option<string>, after: Config)
    requires Interpreted(before, text, after) && AllValid(text)
    ensures SwitchIs(text(DebugLog), before.debugLog, after.debugLog)
  {
    assert Get(after, DebugLog) == Flag(after.debugLog);
    if text(DebugLog).Some? {
      SwitchReads(text(DebugLog).value);
    }
  }

  /** The texts of the settings, by the names they have in the file. */
  function ByKey(text: Field -> Option<string>): string -> Option<string> {
    (key: string) => match FieldOf(key) case None => None case Some(f) => text(f)
  }

  lemma KeysOfPaths()
    ensures FieldOf("country_db") == Some(CountryDb) && FieldOf("asn_db") == Some(AsnDb)
    ensures FieldOf("city_db") == Some(CityDb) && FieldOf("socket") == Some(SocketPath)
    ensures FieldOf("tcp_address") == Some(TcpAddress) && FieldOf("metrics_file") == Some(MetricsFile)
  {
    FieldOfKey(CountryDb);
    FieldOfKey(AsnDb);
    FieldOfKey(CityDb);
    FieldOfKey(SocketPath);
    FieldOfKey(TcpAddress);
    FieldOfKey(MetricsFile);
  }

  lemma KeysOfNumbers()
    ensures FieldOf("socket_mode") == Some(SocketMode) && FieldOf("threads") == Some(Threads)
    ensures FieldOf("max_request_bytes") == Some(MaxRequestBytes) && FieldOf("debug_log") == Some(DebugLog)
    ensures FieldOf("tcp_port") == Some(TcpPort) && FieldOf("metrics_interval_seconds") == Some(MetricsInterval)
  {
    FieldOfKey(SocketMode);
    FieldOfKey(Threads);
    FieldOfKey(MaxRequestBytes);
    FieldOfKey(DebugLog);
    FieldOfKey(TcpPort);
    FieldOfKey(MetricsInterval);
  }

  lemma InterpretedIs(before: Config, text: Field -> Option<string>, after: Config)
    requires Interpreted(before, text, after) && AllValid(text)
    ensures SettingsAre(before, ByKey(text), after)
  {
    PathsAre(before, text, after);
    NumbersAre(before, text, after);
    SwitchesAre(before, text, after);
    KeysOfPaths();
    KeysOfNumbers();
  }

  // ----- a file -----

  /** The text a line gives to a key. */
  function TextFor(line: string, key: string): Option<string> {
    var t := Trim(line);
    if t == "" || t[0] == '#' then None
    else
      match FindChar(t, '=', 0)
      case None => None
      case Some(eq) => if Trim(t[..eq]) == key then Some(Trim(t[eq + 1..])) else None
  }

  /** The text of the last line for a key. */
  function LastText(lines: seq<string>, key: string): Option<string> {
    if lines == [] then None
    else
      var text := TextFor(lines[|lines| - 1], key);
      if text.Some? then text else LastText(lines[..|lines| - 1], key)
  }

  lemma {:induction false} LastTextIs(lines: seq<string>, key: string)
    ensures FieldOf(key).Some? ==> LastText(lines, key) == LastAssignment(lines, FieldOf(key).value)
  {
    if lines != [] {
      LastTextIs(lines[..|lines| - 1], key);
      AssignsOnlyItsKey(lines[|lines| - 1], key);
    }
  }

  lemma KeyOfFieldIsOne(key: string)
    ensures FieldOf(key).Some? ==> Key(FieldOf(key).value) == key
  {
    if FieldOf(key).Some? {
      match FieldOf(key).value {
        case CountryDb | AsnDb | CityDb | SocketPath =>
        case SocketMode | Threads | MaxRequestBytes | DebugLog =>
        case TcpPort | TcpAddress | MetricsFile | MetricsInterval =>
      }
    }
  }

  lemma AssignsOnlyItsKey(line: string, key: string)
    ensures FieldOf(key).Some? ==>
              var m := MeaningOf(line);
              TextFor(line, key) == if m.Assignment? && m.field == FieldOf(key).value then Some(m.text) else None
  {
    var t := Trim(line);
    KeyOfFieldIsOne(key);
    if t != "" && t[0] != '#' && FindChar(t, '=', 0).Some? {
      KeyOfFieldIsOne(Trim(t[..FindChar(t, '=', 0).value]));
    }
  }

  function FileTexts(lines: seq<string>): string -> Option<string> {
    (key: string) => LastText(lines, key)
  }

  lemma {:induction false} LastIsAccepted(lines: seq<string>, f: Field)
    requires AllAccepted(lines)
    ensures LastAssignment(lines, f).Some? ==> Interpret(f, LastAssignment(lines, f).value).Some?
  {
    if lines != [] {
      assert !Refused(MeaningOf(lines[|lines| - 1]));
      assert AllAccepted(lines[..|lines| - 1]);
      LastIsAccepted(lines[..|lines| - 1], f);
    }
  }

  lemma SamePaths(texts: string -> Option<string>, others: string -> Option<string>)
    requires forall key :: FieldOf(key).Some? ==> others(key) == texts(key)
    ensures others("country_db") == texts("country_db") && others("asn_db") == texts("asn_db")
    ensures others("city_db") == texts("city_db") && others("socket") == texts("socket")
    ensures others("tcp_address") == texts("tcp_address") && others("metrics_file") == texts("metrics_file")
  {
    KeysOfPaths();
  }

  lemma SameNumbers(texts: string -> Option<string>, others: string -> Option<string>)
    requires forall key :: FieldOf(key).Some? ==> others(key) == texts(key)
    ensures others("socket_mode") == texts("socket_mode") && others("threads") == texts("threads")
    ensures others("max_request_bytes") == texts("max_request_bytes") && others("debug_log") == texts("debug_log")
    ensures others("tcp_port") == texts("tcp_port")
    ensures others("metrics_interval_seconds") == texts("metrics_interval_seconds")
  {
    KeysOfNumbers();
  }

  lemma SameTexts(before: Config, texts: string -> Option<string>, others: string -> Option<string>, after: Config)
    requires SettingsAre(before, texts, after)
    requires forall key :: FieldOf(key).Some? ==> others(key) == texts(key)
    ensures SettingsAre(before, others, after)
  {
    SamePaths(texts, others);
    SameNumbers(texts, others);
  }

  /** An accepted file: each field of the settings has what the last line with its key says,
      in its base and range or as one of its words, or what it had. */
  lemma FileSettings(before: Config, lines: seq<string>, after: Config)
    requires AllAccepted(lines) && Applied(before, lines, after)
    ensures SettingsAre(before, FileTexts(lines), after)
  {
    var text := (f: Field) => LastAssignment(lines, f);
    forall f ensures text(f).Some? ==> Interpret(f, text(f).value).Some? {
      LastIsAccepted(lines, f);
    }
    forall f ensures Get(after, f) == match text(f)
                                      case None => Get(before, f)
                                      case Some(t) => Interpret(f, t).GetOr(Get(before, f))
    {
      assert Get(after, f) == FromFile(before, lines, f);
    }
    InterpretedIs(before, text, after);
    forall key | FieldOf(key).Some? ensures FileTexts(lines)(key) == ByKey(text)(key) {
      LastTextIs(lines, key);
    }
    SameTexts(before, ByKey(text), FileTexts(lines), after);
  }

  // ----- the environment -----

  /** The variables that are set, by the key of the setting each belongs to. */
  function Variables(env: Environment): string -> Option<string> {
    ByKey(f => if f in env then Some(env[f]) else None)
  }

  /** Accepted variables: each replaces the field its setting has, and no other. */
  lemma EnvironmentSettings(before: Config, env: Environment, after: Config)
    requires AllAcceptable(env) && Overlaid(before, env, after)
    ensures SettingsAre(before, Variables(env), after)
  {
    var text := (f: Field) => if f in env then Some(env[f]) else None;
    forall f ensures text(f).Some? ==> Interpret(f, text(f).value).Some? {
      assert Acceptable(env, f);
    }
    forall f ensures Get(after, f) == match text(f)
                                      case None => Get(before, f)
                                      case Some(t) => Interpret(f, t).GetOr(Get(before, f))
    {
      assert Get(after, f) == FromEnvironment(before, env, f);
    }
    InterpretedIs(before, text, after);
    assert Variables(env) == ByKey(text);
  }

  // ----- which lines are accepted -----

  predicate Fits(text: Option<string>, base: Base, low: int, high: int) {
    text.Some? ==> ParseLong(text.value, base).Some? && low <= ParseLong(text.value, base).value <= high
  }

  /** A line without fault: blank, a comment, or an assignment; and if it is one to a number or
      a switch, its text is in range or one of the words. */
  predicate LineIsFine(line: string) {
    && (Trim(line) == "" || Trim(line)[0] == '#' || '=' in Trim(line))
    && Fits(TextFor(line, "socket_mode"), 8, 0, 0xFFF)
    && Fits(TextFor(line, "threads"), 10, 1, 256)
    && Fits(TextFor(line, "max_request_bytes"), 10, 256, 1048576)
    && Fits(TextFor(line, "tcp_port"), 10, 1, 65535)
    && Fits(TextFor(line, "metrics_interval_seconds"), 10, 1, 86400)
    && (TextFor(line, "debug_log").Some? ==>
          SaysYes(TextFor(line, "debug_log").value) || SaysNo(TextFor(line, "debug_log").value))
  }

  /** The text a line assigns to a setting, if it does. */
  function AssignedTo(line: string, f: Field): Option<string> {
    var m := MeaningOf(line);
    if m.Assignment? && m.field == f then Some(m.text) else None
  }

  lemma TextsOfNumbers(line: string)
    ensures TextFor(line, "socket_mode") == AssignedTo(line, SocketMode)
    ensures TextFor(line, "threads") == AssignedTo(line, Threads)
    ensures TextFor(line, "max_request_bytes") == AssignedTo(line, MaxRequestBytes)
    ensures TextFor(line, "debug_log") == AssignedTo(line, DebugLog)
    ensures TextFor(line, "tcp_port") == AssignedTo(line, TcpPort)
    ensures TextFor(line, "metrics_interval_seconds") == AssignedTo(line, MetricsInterval)
  {
    KeysOfNumbers();
    AssignsOnlyItsKey(line, "socket_mode");
    AssignsOnlyItsKey(line, "threads");
    AssignsOnlyItsKey(line, "max_request_bytes");
    AssignsOnlyItsKey(line, "debug_log");
    AssignsOnlyItsKey(line, "tcp_port");
    AssignsOnlyItsKey(line, "metrics_interval_seconds");
  }

  lemma ValidExactly(f: Field, text: string)
    ensures Interpret(f, text).Some?
            <==> && (f.SocketMode? ==> Fits(Some(text), 8, 0, 0xFFF))
                 && (f.Threads? ==> Fits(Some(text), 10, 1, 256))
                 && (f.MaxRequestBytes? ==> Fits(Some(text), 10, 256, 1048576))
                 && (f.TcpPort? ==> Fits(Some(text), 10, 1, 65535))
                 && (f.MetricsInterval? ==> Fits(Some(text), 10, 1, 86400))
                 && (f.DebugLog? ==> SaysYes(text) || SaysNo(text))
  {
    if f.DebugLog? {
      SwitchReads(text);
    }
  }

  lemma MalformedExactly(line: string)
    ensures MeaningOf(line).Malformed? <==> !(Trim(line) == "" || Trim(line)[0] == '#' || '=' in Trim(line))
  {
    FindCharFirst(Trim(line), '=', 0);
  }

  /** The reader stops exactly at the first line that is not fine. */
  lemma AcceptedExactly(line: string)
    ensures !Refused(MeaningOf(line)) <==> LineIsFine(line)
  {
    TextsOfNumbers(line);
    MalformedExactly(line);
    if MeaningOf(line).Assignment? {
      ValidExactly(MeaningOf(line).field, MeaningOf(line).text);
    }
  }

  /** A line is reported as unknown exactly if it assigns to a key that no setting has. */
  lemma UnknownExactly(line: string, key: string)
    ensures MeaningOf(line) == Unknown(key) <==> TextFor(line, key).Some? && forall f :: Key(f) != key
  {
    KeyOfFieldIsOne(key);
    forall f ensures FieldOf(Key(f)) == Some(f) {
      FieldOfKey(f);
    }
  }

  /** The warnings: each line with a key that no setting has, once, under its number, in
      order. */
  lemma {:induction false} WarningsExactly(lines: seq<string>, number: int, key: string)
    ensures (number, key) in UnknownKeys(lines)
            <==> 1 <= number <= |lines| && MeaningOf(lines[number - 1]) == Unknown(key)
    ensures forall i, j :: 0 <= i < j < |UnknownKeys(lines)| ==> UnknownKeys(lines)[i].0 < UnknownKeys(lines)[j].0
    ensures forall i :: 0 <= i < |UnknownKeys(lines)| ==> UnknownKeys(lines)[i].0 <= |lines|
  {
    if lines != [] {
      WarningsExactly(lines[..|lines| - 1], number, key);
    }
  }

  /** Lines as a file holds them, each with its newline. */
  function FileText(lines: seq<string>): string {
    if lines == [] then "" else lines[0] + (['\n'] + FileText(lines[1..]))
  }

  predicate AreSingle(lines: seq<string>) {
    forall k :: 0 <= k < |lines| ==> '\n' !in lines[k]
  }

  lemma FirstLineIsCut(line: string, rest: string)
    requires '\n' !in line
    ensures Lines(line + (['\n'] + rest)) == [line] + Lines(rest)
  {
    var content := line + (['\n'] + rest);
    FindCharIs(content, '\n', 0, |line|);
    assert content[..|line|] == line && content[|line| + 1..] == rest;
  }

  lemma LastLineIsCut(last: string)
    requires '\n' !in last
    ensures Lines(last) == if last == "" then [] else [last]
  {
    FindCharNone(last, '\n', 0);
  }

  /** std::getline reads back the lines of a file, and a last one without a newline. */
  lemma {:induction false} LinesOfFile(lines: seq<string>, last: string)
    requires AreSingle(lines) && '\n' !in last
    ensures Lines(FileText(lines) + last) == lines + if last == "" then [] else [last]
    decreases |lines|
  {
    if lines == [] {
      LastLineIsCut(last);
      assert FileText(lines) + last == last;
    } else {
      LinesOfFile(lines[1..], last);
      FirstLineIsCut(lines[0], FileText(lines[1..]) + last);
      assert FileText(lines) + last == lines[0] + (['\n'] + (FileText(lines[1..]) + last));
      assert [lines[0]] + (lines[1..] + if last == "" then [] else [last]) == lines + if last == "" then [] else [last];
    }
  }

  // ----- a whole run -----

  /** The slot of a database file: as it was set, or the first of the directories that holds
      the file, or empty. */
  ghost predicate IsSlot(set_: string, filename: string, dirs: seq<string>, present: string -> bool, path: string) {
    if set_ != "" then path == set_
    else if InNone(dirs, filename, present) then path == ""
    else exists k :: 0 <= k < |dirs| && IsFirstHit(dirs, k, filename, present, path)
  }

  predicate IsFirstHit(dirs: seq<string>, k: nat, filename: string, present: string -> bool, path: string)
    requires k < |dirs|
  {
    path == dirs[k] + "/" + filename && present(path) && InNone(dirs[..k], filename, present)
  }

  lemma SlotIsSlot(set_: string, filename: string, dirs: seq<string>, present: string -> bool)
    ensures IsSlot(set_, filename, dirs, present, Slot(set_, filename, dirs, present))
  {
    var k := FirstPresentIsFirst(dirs, filename, present);
    assert dirs[..|dirs|] == dirs;
    if set_ == "" && k < |dirs| {
      assert IsFirstHit(dirs, k, filename, present, Slot(set_, filename, dirs, present));
    }
  }

  /** Each database file is looked for under its own name, and the country file only if there
      is no city database. */
  lemma DatabasesAreFound(cfg: Config, dirs: seq<string>, present: string -> bool)
    ensures var r := Resolved(cfg, dirs, present);
            && IsSlot(cfg.cityDb, "GeoLite2-City.mmdb", dirs, present, r.cityDb)
            && IsSlot(cfg.asnDb, "GeoLite2-ASN.mmdb", dirs, present, r.asnDb)
            && (if r.cityDb != "" then r.countryDb == cfg.countryDb
                else IsSlot(cfg.countryDb, "GeoLite2-Country.mmdb", dirs, present, r.countryDb))
            && r.(cityDb := "", asnDb := "", countryDb := "") == cfg.(cityDb := "", asnDb := "", countryDb := "")
  {
    SlotIsSlot(cfg.cityDb, CITY, dirs, present);
    SlotIsSlot(cfg.asnDb, ASN, dirs, present);
    SlotIsSlot(cfg.countryDb, COUNTRY, dirs, present);
  }

  /** What the environment says of a key, else what the file says. */
  function RunTexts(file: FileState, env: Environment): string -> Option<string> {
    (key: string) =>
      if Variables(env)(key).Some? then Variables(env)(key) else LastText(LinesOf(file), key)
  }

  /** The settings before anything is read. */
  predicate AreDefaults(c: Config) {
    && c.countryDb == "" && c.asnDb == "" && c.cityDb == "" && c.tcpAddress == "" && c.metricsFile == ""
    && c.socketPath == "/run/nshgeoip/nshgeoip.sock" && ParseLong("0660", 8) == Some(c.socketMode)
    && c.maxRequestBytes == 8192 && c.tcpPort == 0 && c.metricsInterval == 60 && !c.debugLog
  }

  lemma SixSixty()
    ensures ParseLong("0660", 8) == Some(432)
  {
    var digits := "0660";
    assert digits[..3] == "066" && digits[..3][..2] == "06" && digits[..3][..2][..1] == "0";
    assert ReadNumber("0", 8) == Some(0) && ReadNumber("06", 8) == Some(6);
    assert ReadNumber("066", 8) == Some(54) && ReadNumber(digits, 8) == Some(432);
    ParseLongReads("", "", digits, "", 8);
    assert "" + "" + digits + "" == digits;
  }

  // The text a setting takes in the end.
  function RunText(lines: seq<string>, env: Environment): Field -> Option<string> {
    (f: Field) => if f in env then Some(env[f]) else LastAssignment(lines, f)
  }

  lemma RunIsValid(lines: seq<string>, env: Environment)
    requires AllAccepted(lines) && AllAcceptable(env)
    ensures AllValid(RunText(lines, env))
  {
    forall f ensures RunText(lines, env)(f).Some? ==> Interpret(f, RunText(lines, env)(f).value).Some? {
      assert Acceptable(env, f);
      LastIsAccepted(lines, f);
    }
  }

  lemma RunIsInterpreted(defaults: Config, lines: seq<string>, env: Environment, before: Config)
    requires AllAccepted(lines) && AllAcceptable(env) && HasPrecedence(defaults, lines, env, before)
    ensures Interpreted(defaults, RunText(lines, env), before)
  {
    forall f ensures Get(before, f) == match RunText(lines, env)(f)
                                       case None => Get(defaults, f)
                                       case Some(t) => Interpret(f, t).GetOr(Get(defaults, f))
    {
      assert Get(before, f) == Effective(defaults, lines, env, f);
    }
  }

  lemma RunTextsByKey(file: FileState, env: Environment, key: string)
    requires FieldOf(key).Some?
    ensures RunTexts(file, env)(key) == ByKey(RunText(LinesOf(file), env))(key)
  {
    var f := FieldOf(key).value;
    LastTextIs(LinesOf(file), key);
    assert Variables(env)(key) == if f in env then Some(env[f]) else None;
    assert ByKey(RunText(LinesOf(file), env))(key) == RunText(LinesOf(file), env)(f);
  }

  /** A run with an acceptable file and environment: the defaults, the texts of file and
      environment in their places, and the database files found. */
  lemma RunSettings(detected: nat, file: FileState, named: bool, env: Environment,
                    dirs: seq<string>, present: string -> bool, cfg: Config)
    returns (defaults: Config, before: Config)
    requires FileAccepted(file, named) && AllAcceptable(env)
    requires Configured(detected, file, env, dirs, present, cfg)
    ensures AreDefaults(defaults) && defaults.threads == DefaultThreads(detected)
    ensures SettingsAre(defaults, RunTexts(file, env), before)
    ensures cfg == Resolved(before, dirs, present)
  {
    defaults := Defaults(detected);
    SixSixty();
    before :| HasPrecedence(defaults, LinesOf(file), env, before) && cfg == Resolved(before, dirs, present);
    var lines := LinesOf(file);
    RunIsValid(lines, env);
    RunIsInterpreted(defaults, lines, env, before);
    InterpretedIs(defaults, RunText(lines, env), before);
    forall key | FieldOf(key).Some? ensures RunTexts(file, env)(key) == ByKey(RunText(lines, env))(key) {
      RunTextsByKey(file, env, key);
    }
    SameTexts(defaults, ByKey(RunText(lines, env)), RunTexts(file, env), before);
  }
}
