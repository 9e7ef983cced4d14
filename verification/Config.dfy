/** The configuration file, its value syntax and the environment overlay (src/config.cpp,
    src/config.h).
 */
module Config {
  import opened Text

  // ----- trim -----

  /** std::isspace in the C locale. */
  predicate IsSpace(c: char) {
    c == ' ' || '\t' <= c <= '\r'
  }

  /** Spaces, tabs, newlines, vertical tabs, form feeds and carriage returns. */
  predicate Blank(s: string) {
    forall k :: 0 <= k < |s| ==> s[k] == ' ' || 9 <= s[k] as int <= 13
  }

  /** Nothing to trim at either end. */
  predicate Bare(s: string) {
    s != "" ==> && s[0] != ' ' && !(9 <= s[0] as int <= 13)
                && s[|s| - 1] != ' ' && !(9 <= s[|s| - 1] as int <= 13)
  }

  function TrimFront(s: string): string {
    if s != "" && IsSpace(s[0]) then TrimFront(s[1..]) else s
  }

  function TrimBack(s: string): string {
    if s != "" && IsSpace(s[|s| - 1]) then TrimBack(s[..|s| - 1]) else s
  }

  function Trim(s: string): string {
    TrimBack(TrimFront(s))
  }

  /** `trim` with its two indices. */
  method TrimWhitespace(s: string) returns (r: string)
    ensures r == Trim(s)
  {
    var start, end := 0, |s|;
    while start < end && IsSpace(s[start])
      invariant 0 <= start <= end == |s|
      invariant TrimFront(s[start..]) == TrimFront(s)
    {
      DropFirst(s, start);
      start := start + 1;
    }
    assert s[start..end] == s[start..] == TrimFront(s);
    while end > start && IsSpace(s[end - 1])
      invariant start <= end <= |s|
      invariant TrimBack(s[start..end]) == Trim(s)
    {
      DropLast(s, start, end);
      end := end - 1;
    }
    r := s[start..end];
  }

  lemma DropFirst(s: string, i: nat)
    requires i < |s| && IsSpace(s[i])
    ensures TrimFront(s[i..]) == TrimFront(s[i + 1..])
  {
    assert s[i..][1..] == s[i + 1..];
  }

  lemma DropLast(s: string, i: nat, j: nat)
    requires i < j <= |s| && IsSpace(s[j - 1])
    ensures TrimBack(s[i..j]) == TrimBack(s[i..j - 1])
  {
    assert s[i..j][..|s[i..j]| - 1] == s[i..j - 1];
  }

  lemma {:induction false} TrimFrontStrips(pad: string, s: string)
    requires Blank(pad) && (s != "" ==> !IsSpace(s[0]))
    ensures TrimFront(pad + s) == s
  {
    if pad == "" {
      assert pad + s == s;
    } else {
      assert (pad + s)[1..] == pad[1..] + s;
      TrimFrontStrips(pad[1..], s);
    }
  }

  lemma {:induction false} TrimBackStrips(s: string, pad: string)
    requires Blank(pad) && (s != "" ==> !IsSpace(s[|s| - 1]))
    ensures TrimBack(s + pad) == s
    decreases |pad|
  {
    if pad == "" {
      assert s + pad == s;
    } else {
      var t := s + pad;
      assert IsSpace(t[|t| - 1]);
      assert t[..|t| - 1] == s + pad[..|pad| - 1];
      TrimBackStrips(s, pad[..|pad| - 1]);
    }
  }

  lemma TrimStrips(before: string, s: string, after: string)
    requires Blank(before) && Blank(after) && Bare(s)
    ensures Trim(before + s + after) == s
  {
    if s == "" {
      assert before + s + after == (before + after) + "";
      TrimFrontStrips(before + after, "");
    } else {
      assert before + s + after == before + (s + after);
      TrimFrontStrips(before, s + after);
      TrimBackStrips(s, after);
    }
  }

  lemma {:induction false} TrimFrontSplits(s: string) returns (pad: string)
    ensures Blank(pad) && s == pad + TrimFront(s) && (TrimFront(s) != "" ==> !IsSpace(TrimFront(s)[0]))
  {
    pad := "";
    if s != "" && IsSpace(s[0]) {
      var rest := TrimFrontSplits(s[1..]);
      pad := [s[0]] + rest;
    }
  }

  lemma {:induction false} TrimBackSplits(s: string) returns (pad: string)
    ensures Blank(pad) && s == TrimBack(s) + pad
    ensures TrimBack(s) != "" ==> TrimBack(s)[0] == s[0] && !IsSpace(TrimBack(s)[|TrimBack(s)| - 1])
  {
    pad := "";
    if s != "" && IsSpace(s[|s| - 1]) {
      var rest := TrimBackSplits(s[..|s| - 1]);
      pad := rest + [s[|s| - 1]];
    }
  }

  /** Trimming removes whitespace at the ends and nothing else, and leaves none there. */
  lemma TrimSplits(s: string) returns (before: string, after: string)
    ensures Blank(before) && Blank(after) && s == before + Trim(s) + after && Bare(Trim(s))
  {
    before := TrimFrontSplits(s);
    after := TrimBackSplits(TrimFront(s));
    assert s == before + (Trim(s) + after);
  }

  // ----- numbers -----

  const LONG_MAX := 0x7FFF_FFFF_FFFF_FFFF

  /** What C functions see of a `std::string`: the bytes before the first NUL. */
  function CString(s: string): (r: string)
    ensures |r| <= |s| && r == s[..|r|] && '\0' !in r
  {
    if s == "" || s[0] == '\0' then "" else [s[0]] + CString(s[1..])
  }

  /** The bases the program reads numbers in. */
  type Base = b: nat | b == 8 || b == 10 witness 10

  predicate IsDigitOf(c: char, base: Base) {
    '0' <= c && c as int < '0' as int + base
  }

  /** The number a non-empty run of digits denotes. */
  function ReadNumber(s: string, base: Base): Option<nat> {
    if s == "" || !IsDigitOf(s[|s| - 1], base) then None
    else
      var last := s[|s| - 1] as int - '0' as int;
      if |s| == 1 then Some(last)
      else
        match ReadNumber(s[..|s| - 1], base)
        case None => None
        case Some(high) => Some(base * high + last)
  }

  /** strtol as `parse_long` uses it: leading whitespace and one sign are taken, all the rest
      up to the first NUL must be digits, and the result must fit a 64-bit long. */
  function ParseLong(value: string, base: Base): Option<int> {
    var text := TrimFront(CString(value));
    var signed := text != "" && (text[0] == '-' || text[0] == '+');
    match ReadNumber(if signed then text[1..] else text, base)
    case None => None
    case Some(n) =>
      var v: int := if signed && text[0] == '-' then 0 - n else n;
      Fitting(v)
  }

  predicate IsSign(s: string) {
    s == [] || s == ['+'] || s == ['-']
  }

  lemma {:induction false} ReadNumberIsDigits(s: string, base: Base)
    requires ReadNumber(s, base).Some?
    ensures s != "" && forall k :: 0 <= k < |s| ==> IsDigitOf(s[k], base)
  {
    if |s| > 1 {
      ReadNumberIsDigits(s[..|s| - 1], base);
    }
  }

  lemma {:induction false} DigitsAreRead(s: string, base: Base)
    requires s != "" && forall k :: 0 <= k < |s| ==> '0' <= s[k] && s[k] as int < 48 + base
    ensures ReadNumber(s, base).Some?
  {
    if |s| > 1 {
      DigitsAreRead(s[..|s| - 1], base);
    }
  }

  /** A number in this base as it is written. */
  function Written(n: nat, base: Base): string {
    if n < base then [(48 + n) as char] else Written(n / base, base) + [(48 + n % base) as char]
  }

  lemma {:induction false} WrittenIsRead(n: nat, base: Base)
    ensures Written(n, base) != "" && ReadNumber(Written(n, base), base) == Some(n)
  {
    var s := Written(n, base);
    if n >= base {
      WrittenIsRead(n / base, base);
      assert s[..|s| - 1] == Written(n / base, base);
      assert base * (n / base) + n % base == n;
    }
  }

  /** The digits of a base, and only those, are read, and a number is read as written. */
  lemma NumbersAreRead(s: string, n: nat, base: Base)
    ensures ReadNumber(s, base).Some?
            <==> s != "" && forall k :: 0 <= k < |s| ==> '0' <= s[k] && s[k] as int < 48 + base
    ensures ReadNumber(Written(n, base), base) == Some(n)
  {
    if ReadNumber(s, base).Some? {
      ReadNumberIsDigits(s, base);
    } else if s != "" && forall k :: 0 <= k < |s| ==> '0' <= s[k] && s[k] as int < 48 + base {
      DigitsAreRead(s, base);
    }
    WrittenIsRead(n, base);
  }

  lemma {:induction false} NoNulInC(s: string, rest: string)
    requires '\0' !in s && (rest == "" || rest[0] == '\0')
    ensures CString(s + rest) == s
  {
    if s == "" {
      assert s + rest == rest;
    } else {
      assert (s + rest)[1..] == s[1..] + rest;
      NoNulInC(s[1..], rest);
    }
  }

  function Signed(sign: string, n: nat): int {
    if sign == ['-'] then 0 - n else n
  }

  /** The value `strtol` gives signed digits, if it fits. */
  function Fitting(v: int): Option<int> {
    if -LONG_MAX - 1 <= v <= LONG_MAX then Some(v) else None
  }

  lemma SignedDigitsRead(value: string, sign: string, digits: string, base: Base)
    requires IsSign(sign) && ReadNumber(digits, base).Some?
    requires TrimFront(CString(value)) == sign + digits
    ensures ParseLong(value, base) == Fitting(Signed(sign, ReadNumber(digits, base).value))
  {
    ReadNumberIsDigits(digits, base);
    assert (sign + digits)[|sign|..] == digits;
  }

  /** Every text of the form whitespace, sign, digits - with anything behind a NUL - is read
      as the number it denotes, if that fits. */
  lemma ParseLongReads(pad: string, sign: string, digits: string, rest: string, base: Base)
    requires Blank(pad) && IsSign(sign) && ReadNumber(digits, base).Some?
    requires rest == "" || rest[0] == '\0'
    ensures ParseLong(pad + sign + digits + rest, base) == Fitting(Signed(sign, ReadNumber(digits, base).value))
  {
    ReadNumberIsDigits(digits, base);
    NoNulInC(pad + sign + digits, rest);
    assert pad + sign + digits == pad + (sign + digits);
    StripsBeforeNumber(pad, sign, digits);
    SignedDigitsRead(pad + sign + digits + rest, sign, digits, base);
  }

  lemma StripsBeforeNumber(pad: string, sign: string, digits: string)
    requires Blank(pad) && IsSign(sign) && digits != "" && !IsSpace(digits[0])
    ensures TrimFront(pad + (sign + digits)) == sign + digits
  {
    TrimFrontStrips(pad, sign + digits);
  }

  /** And nothing else is read as a number. */
  lemma ParseLongReadsOnly(value: string, base: Base)
    returns (pad: string, sign: string, digits: string, rest: string)
    requires ParseLong(value, base).Some?
    ensures Blank(pad) && IsSign(sign) && ReadNumber(digits, base).Some?
    ensures rest == "" || rest[0] == '\0'
    ensures value == pad + sign + digits + rest
    ensures ParseLong(value, base) == Some(Signed(sign, ReadNumber(digits, base).value))
  {
    var text := CString(value);
    rest := value[|text|..];
    CStringStops(value);
    pad := TrimFrontSplits(text);
    var body := TrimFront(text);
    var n := if body != "" && (body[0] == '-' || body[0] == '+') then 1 else 0;
    sign, digits := body[..n], body[n..];
    assert body == sign + digits;
    SignedDigits(value, sign, digits, base);
    JoinFour(value, text, pad, sign, digits, body);
  }

  // A value that is read has digits behind its sign.
  lemma SignedDigits(value: string, sign: string, digits: string, base: Base)
    requires ParseLong(value, base).Some? && TrimFront(CString(value)) == sign + digits
    requires |sign| == if sign + digits != [] && ((sign + digits)[0] == '-' || (sign + digits)[0] == '+') then 1 else 0
    ensures IsSign(sign) && ReadNumber(digits, base).Some?
    ensures ParseLong(value, base) == Some(Signed(sign, ReadNumber(digits, base).value))
  {
    assert (sign + digits)[|sign|..] == digits;
    if |sign| == 1 {
      assert sign == [(sign + digits)[0]];
    }
  }

  lemma JoinFour(value: string, text: string, pad: string, sign: string, digits: string, body: string)
    requires text <= value && text == pad + body && body == sign + digits
    ensures value == pad + sign + digits + value[|text|..]
  {
    assert pad + sign + digits == pad + (sign + digits);
    assert value == text + value[|text|..];
  }

  lemma {:induction false} CStringStops(s: string)
    ensures |CString(s)| < |s| ==> s[|CString(s)|] == '\0'
  {
    if s != "" && s[0] != '\0' {
      CStringStops(s[1..]);
    }
  }

  // ----- settings -----

  datatype Field =
    | CountryDb | AsnDb | CityDb | SocketPath | SocketMode | Threads | MaxRequestBytes
    | DebugLog | TcpPort | TcpAddress | MetricsFile | MetricsInterval

  datatype Value = Text(text: string) | Number(number: int) | Flag(flag: bool)

  datatype Config = Config(
    countryDb: string,
    asnDb: string,
    cityDb: string,
    socketPath: string,
    socketMode: int,
    threads: int,
    maxRequestBytes: int,
    debugLog: bool,
    tcpPort: int,
    tcpAddress: string,
    metricsFile: string,
    metricsInterval: int)

  function Get(c: Config, f: Field): Value {
    match f
    case CountryDb => Text(c.countryDb)
    case AsnDb => Text(c.asnDb)
    case CityDb => Text(c.cityDb)
    case SocketPath => Text(c.socketPath)
    case SocketMode => Number(c.socketMode)
    case Threads => Number(c.threads)
    case MaxRequestBytes => Number(c.maxRequestBytes)
    case DebugLog => Flag(c.debugLog)
    case TcpPort => Number(c.tcpPort)
    case TcpAddress => Text(c.tcpAddress)
    case MetricsFile => Text(c.metricsFile)
    case MetricsInterval => Number(c.metricsInterval)
  }

  /** std::transform with tolower, then the eight words. */
  function ParseBool(value: string): Option<bool> {
    var v := Lower(value);
    if v == "1" || v == "true" || v == "yes" || v == "on" then Some(true)
    else if v == "0" || v == "false" || v == "no" || v == "off" then Some(false)
    else None
  }

  function ParseRanged(value: string, base: Base, low: int, high: int): Option<Value> {
    match ParseLong(value, base)
    case None => None
    case Some(n) => if low <= n <= high then Some(Number(n)) else None
  }

  /** What a text means for a setting; None if it is refused. */
  function Interpret(f: Field, value: string): Option<Value> {
    match f
    case SocketMode => ParseRanged(value, 8, 0, 4095)
    case Threads => ParseRanged(value, 10, 1, 256)
    case MaxRequestBytes => ParseRanged(value, 10, 256, 1048576)
    case TcpPort => ParseRanged(value, 10, 1, 65535)
    case MetricsInterval => ParseRanged(value, 10, 1, 86400)
    case DebugLog => (match ParseBool(value) case None => None case Some(b) => Some(Flag(b)))
    case CountryDb | AsnDb | CityDb | SocketPath | TcpAddress | MetricsFile => Some(Text(value))
  }

  /** The assignment each branch of `load_config` and `apply_env_overrides` makes. */
  method Assign(cfg: Config, f: Field, value: string) returns (ok: bool, r: Config)
    ensures ok <==> Interpret(f, value).Some?
    ensures Get(r, f) == Interpret(f, value).GetOr(Get(cfg, f))
    ensures forall g :: g != f ==> Get(r, g) == Get(cfg, g)
  {
    var v := Interpret(f, value);
    if v.None? {
      return false, cfg;
    }
    ok := true;
    match f {
      case CountryDb => r := cfg.(countryDb := v.value.text);
      case AsnDb => r := cfg.(asnDb := v.value.text);
      case CityDb => r := cfg.(cityDb := v.value.text);
      case SocketPath => r := cfg.(socketPath := v.value.text);
      case SocketMode => r := cfg.(socketMode := v.value.number);
      case Threads => r := cfg.(threads := v.value.number);
      case MaxRequestBytes => r := cfg.(maxRequestBytes := v.value.number);
      case DebugLog => r := cfg.(debugLog := v.value.flag);
      case TcpPort => r := cfg.(tcpPort := v.value.number);
      case TcpAddress => r := cfg.(tcpAddress := v.value.text);
      case MetricsFile => r := cfg.(metricsFile := v.value.text);
      case MetricsInterval => r := cfg.(metricsInterval := v.value.number);
    }
  }

  // ----- lines -----

  function Key(f: Field): string {
    match f
    case CountryDb => "country_db"
    case AsnDb => "asn_db"
    case CityDb => "city_db"
    case SocketPath => "socket"
    case SocketMode => "socket_mode"
    case Threads => "threads"
    case MaxRequestBytes => "max_request_bytes"
    case DebugLog => "debug_log"
    case TcpPort => "tcp_port"
    case TcpAddress => "tcp_address"
    case MetricsFile => "metrics_file"
    case MetricsInterval => "metrics_interval_seconds"
  }

  function FieldOf(key: string): Option<Field> {
    if key == "country_db" then Some(CountryDb)
    else if key == "asn_db" then Some(AsnDb)
    else if key == "city_db" then Some(CityDb)
    else if key == "socket" then Some(SocketPath)
    else if key == "socket_mode" then Some(SocketMode)
    else if key == "threads" then Some(Threads)
    else if key == "max_request_bytes" then Some(MaxRequestBytes)
    else if key == "debug_log" then Some(DebugLog)
    else if key == "tcp_port" then Some(TcpPort)
    else if key == "tcp_address" then Some(TcpAddress)
    else if key == "metrics_file" then Some(MetricsFile)
    else if key == "metrics_interval_seconds" then Some(MetricsInterval)
    else None
  }

  datatype LineMeaning = Ignored | Malformed | Unknown(key: string) | Assignment(field: Field, text: string)

  function MeaningOf(line: string): LineMeaning {
    var t := Trim(line);
    if t == "" || t[0] == '#' then Ignored
    else
      match FindChar(t, '=', 0)
      case None => Malformed
      case Some(eq) =>
        var key := Trim(t[..eq]);
        match FieldOf(key)
        case None => Unknown(key)
        case Some(f) => Assignment(f, Trim(t[eq + 1..]))
  }

  /** A line `load_config` stops at. */
  predicate Refused(m: LineMeaning) {
    m.Malformed? || (m.Assignment? && Interpret(m.field, m.text).None?)
  }

  /** The successive results of std::getline. */
  function Lines(content: string): seq<string>
    decreases |content|
  {
    if content == "" then []
    else
      match FindChar(content, '\n', 0)
      case None => [content]
      case Some(end) => [content[..end]] + Lines(content[end + 1..])
  }

  /** The text the last line for this setting gives it. */
  function LastAssignment(lines: seq<string>, f: Field): Option<string> {
    if lines == [] then None
    else
      var m := MeaningOf(lines[|lines| - 1]);
      if m.Assignment? && m.field == f then Some(m.text) else LastAssignment(lines[..|lines| - 1], f)
  }

  function UnknownKeys(lines: seq<string>): seq<(nat, string)> {
    if lines == [] then []
    else
      var m := MeaningOf(lines[|lines| - 1]);
      UnknownKeys(lines[..|lines| - 1]) + if m.Unknown? then [(|lines|, m.key)] else []
  }

  ghost predicate AllAccepted(lines: seq<string>) {
    forall k :: 0 <= k < |lines| ==> !Refused(MeaningOf(lines[k]))
  }

  /** The settings after these lines, from what they were before. */
  ghost predicate Applied(before: Config, lines: seq<string>, after: Config) {
    forall f :: Get(after, f) == FromFile(before, lines, f)
  }

  function FromFile(before: Config, lines: seq<string>, f: Field): Value {
    match LastAssignment(lines, f)
    case None => Get(before, f)
    case Some(text) => Interpret(f, text).GetOr(Get(before, f))
  }

  // The i-th line joins those read before.
  lemma OneMoreLine(lines: seq<string>, i: nat, f: Field)
    requires i < |lines|
    ensures var m := MeaningOf(lines[i]);
            LastAssignment(lines[..i + 1], f)
            == if m.Assignment? && m.field == f then Some(m.text) else LastAssignment(lines[..i], f)
  {
    assert lines[..i + 1][..i] == lines[..i];
  }

  lemma OneMoreWarning(lines: seq<string>, i: nat)
    requires i < |lines|
    ensures var m := MeaningOf(lines[i]);
            UnknownKeys(lines[..i + 1]) == UnknownKeys(lines[..i]) + if m.Unknown? then [(i + 1, m.key)] else []
  {
    assert lines[..i + 1][..i] == lines[..i];
  }

  lemma OneMoreAccepted(lines: seq<string>, i: nat)
    requires i < |lines| && AllAccepted(lines[..i]) && !Refused(MeaningOf(lines[i]))
    ensures AllAccepted(lines[..i + 1])
  {
    assert lines[..i + 1] == lines[..i] + [lines[i]];
  }

  /** What reading one accepted line does to the settings. */
  ghost predicate LineApplied(cfg: Config, m: LineMeaning, next: Config) {
    if m.Assignment? then
      && Get(next, m.field) == Interpret(m.field, m.text).GetOr(Get(cfg, m.field))
      && forall g :: g != m.field ==> Get(next, g) == Get(cfg, g)
    else next == cfg
  }

  lemma NowApplied(before: Config, lines: seq<string>, i: nat, cfg: Config, next: Config)
    requires i < |lines| && Applied(before, lines[..i], cfg)
    requires !Refused(MeaningOf(lines[i])) && LineApplied(cfg, MeaningOf(lines[i]), next)
    ensures Applied(before, lines[..i + 1], next)
  {
    forall f ensures Get(next, f) == FromFile(before, lines[..i + 1], f) {
      OneMoreLine(lines, i, f);
    }
  }

  /** The body of the loop in `load_config`. */
  method ReadLine(cfg: Config, line: string) returns (refused: bool, next: Config, unknown: Option<string>)
    ensures refused <==> Refused(MeaningOf(line))
    ensures !refused ==> LineApplied(cfg, MeaningOf(line), next)
    ensures unknown == if MeaningOf(line).Unknown? then Some(MeaningOf(line).key) else None
  {
    refused, next, unknown := false, cfg, None;
    var trimmed := TrimWhitespace(line);
    if trimmed == "" || trimmed[0] == '#' {
      return;
    }
    var eq := FindChar(trimmed, '=', 0);
    if eq.None? {
      refused := true;
      return;
    }
    var key := TrimWhitespace(trimmed[..eq.value]);
    var value := TrimWhitespace(trimmed[eq.value + 1..]);
    var field := FieldOf(key);
    if field.None? {
      unknown := Some(key);
      return;
    }
    var ok;
    ok, next := Assign(cfg, field.value, value);
    refused := !ok;
  }

  lemma LinesSplit(rest: string, end: Option<nat>)
    requires rest != "" && end == FindChar(rest, '\n', 0)
    ensures end.Some? ==> Lines(rest) == [rest[..end.value]] + Lines(rest[end.value + 1..])
    ensures end.None? ==> Lines(rest) == [rest] + Lines([])
  {
  }

  lemma NextLine(lines: seq<string>, i: nat, line: string, others: seq<string>)
    requires i <= |lines| && lines[i..] == [line] + others
    ensures i < |lines| && lines[i] == line && lines[i + 1..] == others
  {
    assert lines[i..][0] == line && lines[i..][1..] == others;
  }

  /** std::getline: the next line of what is left of a file, and what is left then. */
  method GetLine(rest: string) returns (line: string, others: string)
    requires rest != ""
    ensures Lines(rest) == [line] + Lines(others) && |others| < |rest|
  {
    var end := FindChar(rest, '\n', 0);
    LinesSplit(rest, end);
    if end.None? {
      return rest, [];
    }
    return rest[..end.value], rest[end.value + 1..];
  }

  /** `load_config` on an opened file: line by line, stopping at the first refused line.
      The file is accepted exactly if no line is refused; each setting then has the value of
      its last line, or the one it had; unknown keys are reported with their line numbers. */
  method LoadConfig(content: string, before: Config)
    returns (cfg: Config, refusedAt: Option<nat>, warnings: seq<(nat, string)>)
    ensures refusedAt.None? <==> AllAccepted(Lines(content))
    ensures refusedAt.None? ==> Applied(before, Lines(content), cfg) && warnings == UnknownKeys(Lines(content))
    ensures refusedAt.Some? ==>
              && 1 <= refusedAt.value <= |Lines(content)|
              && Refused(MeaningOf(Lines(content)[refusedAt.value - 1]))
              && AllAccepted(Lines(content)[..refusedAt.value - 1])
  {
    ghost var lines := Lines(content);
    cfg, refusedAt, warnings := before, None, [];
    var rest, lineNo := content, 0;
    while rest != ""
      invariant lineNo <= |lines| && Lines(rest) == lines[lineNo..]
      invariant AllAccepted(lines[..lineNo])
      invariant Applied(before, lines[..lineNo], cfg)
      invariant warnings == UnknownKeys(lines[..lineNo])
      decreases |rest|
    {
      var line, others := GetLine(rest);
      NextLine(lines, lineNo, line, Lines(others));
      rest := others;
      OneMoreWarning(lines, lineNo);
      var refused, next, unknown := ReadLine(cfg, line);
      lineNo := lineNo + 1;
      if refused {
        refusedAt := Some(lineNo);
        return;
      }
      if unknown.Some? {
        warnings := warnings + [(lineNo, unknown.value)];
      }
      OneMoreAccepted(lines, lineNo - 1);
      NowApplied(before, lines, lineNo - 1, cfg, next);
      cfg := next;
    }
    assert lines[..lineNo] == lines;
  }

  lemma FieldOfKey(f: Field)
    ensures FieldOf(Key(f)) == Some(f)
  {
  }

  lemma KeyIsPlain(f: Field)
    ensures Key(f) != "" && Key(f)[0] != '#' && '=' !in Key(f) && Bare(Key(f))
  {
  }

  // The trimmed line, cut at its first '='.
  lemma CutAtEquals(key: string, after: string)
    requires '=' !in key
    ensures FindChar(key + ['='] + after, '=', 0) == Some(|key|)
    ensures (key + ['='] + after)[..|key|] == key
    ensures (key + ['='] + after)[|key| + 1..] == after
  {
    FindCharIs(key + ['='] + after, '=', 0, |key|);
  }

  /** An assignment may be written with any whitespace around line, key and value; the value
      may itself hold '=' and '#'. */
  lemma AssignmentReads(f: Field, text: string, before: string, left: string, right: string, after: string)
    requires Blank(before) && Blank(left) && Blank(right) && Blank(after) && Bare(text)
    ensures MeaningOf(before + Key(f) + left + ['='] + right + text + after) == Assignment(f, text)
  {
    KeyIsPlain(f);
    FieldOfKey(f);
    AssignmentReadsAs(f, Key(f), text, before, left, right, after);
  }

  lemma AssignmentReadsAs(
      f: Field, key: string, text: string, before: string, left: string, right: string, after: string)
    requires key != "" && key[0] != '#' && '=' !in key && Bare(key) && FieldOf(key) == Some(f)
    requires Blank(before) && Blank(left) && Blank(right) && Blank(after) && Bare(text)
    ensures MeaningOf(before + key + left + ['='] + right + text + after) == Assignment(f, text)
  {
    TrimmedAssignment(before, key, left, right, text, after);
    TrimmedReadsAs(before + key + left + ['='] + right + text + after, f, key, left,
                   if text == [] then [] else right, text);
  }

  // A line from what it is after trimming.
  lemma TrimmedReadsAs(line: string, f: Field, key: string, left: string, right: string, text: string)
    requires key != "" && key[0] != '#' && '=' !in key && Bare(key) && FieldOf(key) == Some(f)
    requires Blank(left) && Blank(right) && Bare(text)
    requires Trim(line) == (key + left) + ['='] + (right + text)
    ensures MeaningOf(line) == Assignment(f, text)
  {
    CutAtEquals(key + left, right + text);
    TrimBehind(key, left);
    TrimBefore(right, text);
    MeaningFromParts(line, key + left, right + text, f);
  }

  lemma TrimBehind(s: string, pad: string)
    requires Bare(s) && Blank(pad)
    ensures Trim(s + pad) == s
  {
    TrimStrips([], s, pad);
    assert [] + s + pad == s + pad;
  }

  lemma TrimBefore(pad: string, s: string)
    requires Bare(s) && Blank(pad)
    ensures Trim(pad + s) == s
  {
    TrimStrips(pad, s, []);
    assert pad + s + [] == pad + s;
  }

  lemma TrimmedAssignment(before: string, key: string, left: string, right: string, text: string, after: string)
    requires key != "" && Bare(key)
    requires Blank(before) && Blank(left) && Blank(right) && Blank(after) && Bare(text)
    ensures Trim(before + key + left + ['='] + right + text + after)
         == (key + left) + ['='] + ((if text == [] then [] else right) + text)
  {
    var name := key + left;
    if text == [] {
      RegroupEmpty(before, key, left, right, after);
      TrimStrips(before, name + ['='], right + after);
      assert [] + text == [] && name + ['='] + [] == name + ['='];
    } else {
      RegroupLine(before, key, left, right, text, after);
      TrimStrips(before, name + ['='] + (right + text), after);
    }
  }

  lemma RegroupEmpty(before: string, key: string, left: string, right: string, after: string)
    ensures before + key + left + ['='] + right + [] + after == before + ((key + left) + ['=']) + (right + after)
  {
  }

  lemma RegroupLine(before: string, key: string, left: string, right: string, text: string, after: string)
    ensures before + key + left + ['='] + right + text + after
         == before + ((key + left) + ['='] + (right + text)) + after
  {
  }

  lemma MeaningFromParts(line: string, name: string, value: string, f: Field)
    requires name != "" && name[0] != '#' && Trim(line) == name + ['='] + value
    requires FindChar(Trim(line), '=', 0) == Some(|name|)
    requires FieldOf(Trim(name)) == Some(f)
    ensures MeaningOf(line) == Assignment(f, Trim(value))
  {
    assert Trim(line)[..|name|] == name && Trim(line)[|name| + 1..] == value;
  }

  // ----- the environment -----

  /** The NSHGEOIP_ variables that are set. */
  type Environment = map<Field, string>

  /** The order in which `apply_env_overrides` looks at them. */
  function Turn(f: Field): nat {
    match f
    case CountryDb => 0
    case AsnDb => 1
    case CityDb => 2
    case SocketPath => 3
    case SocketMode => 4
    case Threads => 5
    case MaxRequestBytes => 6
    case DebugLog => 7
    case TcpPort => 8
    case TcpAddress => 9
    case MetricsFile => 10
    case MetricsInterval => 11
  }

  predicate Acceptable(env: Environment, f: Field) {
    f in env ==> Interpret(f, env[f]).Some?
  }

  function FromEnvironment(cfg: Config, env: Environment, f: Field): Value {
    if f in env then Interpret(f, env[f]).GetOr(Get(cfg, f)) else Get(cfg, f)
  }

  // The steps of the overlay know the order only through its turns.
  type Order = Field -> nat

  /** The variables whose turn is before `turns` have been applied, and were acceptable. */
  ghost predicate OverlaidUpTo(turn: Order, before: Config, env: Environment, turns: nat, cfg: Config) {
    && (forall f :: turn(f) < turns ==> Acceptable(env, f) && Get(cfg, f) == FromEnvironment(before, env, f))
    && (forall f :: turn(f) >= turns ==> Get(cfg, f) == Get(before, f))
  }

  /** No variable with an earlier turn is bad, this one is. */
  ghost predicate FirstBad(turn: Order, env: Environment, bad: Field) {
    !Acceptable(env, bad) && forall f :: turn(f) < turn(bad) ==> Acceptable(env, f)
  }

  ghost predicate Distinct(turn: Order) {
    forall f, g :: turn(f) == turn(g) ==> f == g
  }

  method Override(ghost turn: Order, ghost before: Config, cfg: Config, env: Environment, f: Field)
    returns (ok: bool, r: Config)
    requires Distinct(turn) && OverlaidUpTo(turn, before, env, turn(f), cfg)
    ensures if ok then OverlaidUpTo(turn, before, env, turn(f) + 1, r) else FirstBad(turn, env, f)
  {
    ok, r := true, cfg;
    if f in env {
      ok, r := Assign(cfg, f, env[f]);
    }
  }

  method OverridePaths(ghost turn: Order, before: Config, env: Environment) returns (cfg: Config, bad: Option<Field>)
    requires Distinct(turn) && turn(CountryDb) == 0 && turn(AsnDb) == 1 && turn(CityDb) == 2 && turn(SocketPath) == 3
    ensures if bad.None? then OverlaidUpTo(turn, before, env, 4, cfg) else FirstBad(turn, env, bad.value)
  {
    var ok;
    ok, cfg := Override(turn, before, before, env, CountryDb);
    if !ok { return cfg, Some(CountryDb); }
    ok, cfg := Override(turn, before, cfg, env, AsnDb);
    if !ok { return cfg, Some(AsnDb); }
    ok, cfg := Override(turn, before, cfg, env, CityDb);
    if !ok { return cfg, Some(CityDb); }
    ok, cfg := Override(turn, before, cfg, env, SocketPath);
    if !ok { return cfg, Some(SocketPath); }
    bad := None;
  }

  method OverrideLimits(ghost turn: Order, ghost before: Config, start: Config, env: Environment)
    returns (cfg: Config, bad: Option<Field>)
    requires Distinct(turn)
    requires turn(SocketMode) == 4 && turn(Threads) == 5 && turn(MaxRequestBytes) == 6 && turn(DebugLog) == 7
    requires OverlaidUpTo(turn, before, env, 4, start)
    ensures if bad.None? then OverlaidUpTo(turn, before, env, 8, cfg) else FirstBad(turn, env, bad.value)
  {
    var ok;
    ok, cfg := Override(turn, before, start, env, SocketMode);
    if !ok { return cfg, Some(SocketMode); }
    ok, cfg := Override(turn, before, cfg, env, Threads);
    if !ok { return cfg, Some(Threads); }
    ok, cfg := Override(turn, before, cfg, env, MaxRequestBytes);
    if !ok { return cfg, Some(MaxRequestBytes); }
    ok, cfg := Override(turn, before, cfg, env, DebugLog);
    if !ok { return cfg, Some(DebugLog); }
    bad := None;
  }

  method OverrideListeners(ghost turn: Order, ghost before: Config, start: Config, env: Environment)
    returns (cfg: Config, bad: Option<Field>)
    requires Distinct(turn)
    requires turn(TcpPort) == 8 && turn(TcpAddress) == 9 && turn(MetricsFile) == 10 && turn(MetricsInterval) == 11
    requires OverlaidUpTo(turn, before, env, 8, start)
    ensures if bad.None? then OverlaidUpTo(turn, before, env, 12, cfg) else FirstBad(turn, env, bad.value)
  {
    var ok;
    ok, cfg := Override(turn, before, start, env, TcpPort);
    if !ok { return cfg, Some(TcpPort); }
    ok, cfg := Override(turn, before, cfg, env, TcpAddress);
    if !ok { return cfg, Some(TcpAddress); }
    ok, cfg := Override(turn, before, cfg, env, MetricsFile);
    if !ok { return cfg, Some(MetricsFile); }
    ok, cfg := Override(turn, before, cfg, env, MetricsInterval);
    if !ok { return cfg, Some(MetricsInterval); }
    bad := None;
  }

  /** The settings after the environment, from what they were before. */
  ghost predicate Overlaid(before: Config, env: Environment, cfg: Config) {
    forall f :: Get(cfg, f) == FromEnvironment(before, env, f)
  }

  ghost predicate AllAcceptable(env: Environment) {
    forall f :: Acceptable(env, f)
  }

  /** Each of the twelve variables has its turn. */
  ghost predicate IsOrder(turn: Order) {
    && Distinct(turn) && (forall f :: turn(f) < 12)
    && turn(CountryDb) == 0 && turn(AsnDb) == 1 && turn(CityDb) == 2 && turn(SocketPath) == 3
    && turn(SocketMode) == 4 && turn(Threads) == 5 && turn(MaxRequestBytes) == 6 && turn(DebugLog) == 7
    && turn(TcpPort) == 8 && turn(TcpAddress) == 9 && turn(MetricsFile) == 10 && turn(MetricsInterval) == 11
  }

  function FieldAt(turn: nat): Field {
    if turn < 4 then
      (if turn == 0 then CountryDb else if turn == 1 then AsnDb else if turn == 2 then CityDb else SocketPath)
    else if turn < 8 then
      (if turn == 4 then SocketMode
       else if turn == 5 then Threads
       else if turn == 6 then MaxRequestBytes
       else DebugLog)
    else
      if turn == 8 then TcpPort
      else if turn == 9 then TcpAddress
      else if turn == 10 then MetricsFile
      else MetricsInterval
  }

  lemma TurnOfField(f: Field)
    ensures Turn(f) < 12 && FieldAt(Turn(f)) == f
  {
  }

  // An order is distinct if the fields can be told from their turns.
  lemma InverseMakesDistinct(turn: Order, field: nat -> Field)
    requires forall f :: field(turn(f)) == f
    ensures Distinct(turn)
  {
    forall f, g | turn(f) == turn(g) ensures f == g {
      assert field(turn(f)) == f && field(turn(g)) == g;
    }
  }

  lemma TurnIsOrder()
    ensures IsOrder(Turn)
  {
    forall f ensures Turn(f) < 12 && FieldAt(Turn(f)) == f {
      TurnOfField(f);
    }
    InverseMakesDistinct(Turn, FieldAt);
  }

  method OverrideAll(ghost turn: Order, before: Config, env: Environment) returns (cfg: Config, bad: Option<Field>)
    requires IsOrder(turn)
    ensures if bad.None? then AllAcceptable(env) && Overlaid(before, env, cfg) else FirstBad(turn, env, bad.value)
  {
    cfg, bad := OverridePaths(turn, before, env);
    if bad.Some? { return; }
    cfg, bad := OverrideLimits(turn, before, cfg, env);
    if bad.Some? { return; }
    cfg, bad := OverrideListeners(turn, before, cfg, env);
  }

  /** `apply_env_overrides`: on success every set variable has replaced its setting and the
      others kept theirs; otherwise the first unacceptable variable is named. */
  method ApplyEnvOverrides(before: Config, env: Environment) returns (cfg: Config, bad: Option<Field>)
    ensures bad.None? <==> AllAcceptable(env)
    ensures if bad.None? then Overlaid(before, env, cfg) else FirstBad(Turn, env, bad.value)
  {
    TurnIsOrder();
    cfg, bad := OverrideAll(Turn, before, env);
  }
}
