/** Byte strings and the searching, trimming and number rendering every other module uses.

    A `string` stands for a C++ `std::string`: one `char` is one byte.  Characters above
    255 never occur in the program; the theorems hold for them as well.
 */
module Text {

  datatype Option<+T> = None | Some(value: T) {
    function GetOr(default: T): T {
      if Some? then value else default
    }
  }

  /** Puts `front` before the text inside `rest`, keeping a failure a failure. */
  function Prefixed(front: string, rest: Option<string>): Option<string> {
    match rest
    case None => None
    case Some(tail) => Some(front + tail)
  }

  // ----- lists of names and values -----

  /** The value of the first pair with this key. */
  function FirstValue(pairs: seq<(string, string)>, key: string): Option<string> {
    if pairs == [] then None
    else if pairs[0].0 == key then Some(pairs[0].1)
    else FirstValue(pairs[1..], key)
  }

  lemma {:induction false} FirstValueIsFirst(pairs: seq<(string, string)>, key: string, k: nat)
    requires k < |pairs| && pairs[k].0 == key && forall j :: 0 <= j < k ==> pairs[j].0 != key
    ensures FirstValue(pairs, key) == Some(pairs[k].1)
  {
    if k > 0 {
      assert pairs[1..][k - 1] == pairs[k];
      forall j | 0 <= j < k - 1 ensures pairs[1..][j].0 != key {
        assert pairs[1..][j] == pairs[j + 1];
      }
      FirstValueIsFirst(pairs[1..], key, k - 1);
    }
  }

  lemma {:induction false} NoValue(pairs: seq<(string, string)>, key: string)
    requires forall j :: 0 <= j < |pairs| ==> pairs[j].0 != key
    ensures FirstValue(pairs, key) == None
  {
    if pairs != [] {
      NoValue(pairs[1..], key);
    }
  }

  // ----- std::string::find, for the three patterns the program searches for -----

  predicate CrlfAt(s: string, k: int) {
    0 <= k && k + 1 < |s| && s[k] == '\r' && s[k + 1] == '\n'
  }

  /** The four bytes that end a message head. */
  predicate BlankLineAt(s: string, k: int) {
    CrlfAt(s, k) && CrlfAt(s, k + 2)
  }

  ghost predicate NoCrlf(s: string) {
    forall k :: !CrlfAt(s, k)
  }

  function FindChar(s: string, c: char, from: nat): (r: Option<nat>)
    ensures r.Some? ==> from <= r.value < |s| && s[r.value] == c
    decreases |s| - from
  {
    if from >= |s| then None
    else if s[from] == c then Some(from)
    else FindChar(s, c, from + 1)
  }

  function FindCrlf(s: string, from: nat): (r: Option<nat>)
    ensures r.Some? ==> from <= r.value && CrlfAt(s, r.value)
    decreases |s| - from
  {
    if from >= |s| then None
    else if CrlfAt(s, from) then Some(from)
    else FindCrlf(s, from + 1)
  }

  function FindBlankLine(s: string, from: nat): (r: Option<nat>)
    ensures r.Some? ==> from <= r.value && BlankLineAt(s, r.value)
    decreases |s| - from
  {
    if from >= |s| then None
    else if BlankLineAt(s, from) then Some(from)
    else FindBlankLine(s, from + 1)
  }

  /** The three searches find the first occurrence, and fail only if there is none. */
  lemma {:induction false} FindCharFirst(s: string, c: char, from: nat)
    ensures var r := FindChar(s, c, from);
            forall k :: from <= k < (if r.Some? then r.value else |s|) ==> s[k] != c
    decreases |s| - from
  {
    if from < |s| && s[from] != c {
      FindCharFirst(s, c, from + 1);
    }
  }

  lemma {:induction false} FindCrlfFirst(s: string, from: nat)
    ensures var r := FindCrlf(s, from);
            forall k :: from <= k && (r.Some? ==> k < r.value) ==> !CrlfAt(s, k)
    decreases |s| - from
  {
    if from < |s| && !CrlfAt(s, from) {
      FindCrlfFirst(s, from + 1);
    }
  }

  lemma {:induction false} FindBlankLineFirst(s: string, from: nat)
    ensures var r := FindBlankLine(s, from);
            forall k :: from <= k && (r.Some? ==> k < r.value) ==> !BlankLineAt(s, k)
    decreases |s| - from
  {
    if from < |s| && !BlankLineAt(s, from) {
      FindBlankLineFirst(s, from + 1);
    }
  }

  lemma FindCharIs(s: string, c: char, from: nat, at: nat)
    requires from <= at < |s| && s[at] == c
    requires forall k :: from <= k < at ==> s[k] != c
    ensures FindChar(s, c, from) == Some(at)
  {
    FindCharFirst(s, c, from);
  }

  lemma FindCharNone(s: string, c: char, from: nat)
    requires forall k :: from <= k < |s| ==> s[k] != c
    ensures FindChar(s, c, from) == None
  {
    FindCharFirst(s, c, from);
  }

  /** The first `c` from the start of a `c`-free word on is the one behind the word. */
  lemma CharAfterWord(before: string, word: string, c: char, after: string)
    requires c !in word
    ensures FindChar(before + word + [c] + after, c, |before|) == Some(|before| + |word|)
  {
    var s := before + word + [c] + after;
    forall k | |before| <= k < |before| + |word| ensures s[k] != c {
      assert s[k] == word[k - |before|];
    }
    FindCharIs(s, c, |before|, |before| + |word|);
  }

  lemma FirstChar(before: string, c: char, after: string)
    requires c !in before
    ensures FindChar(before + [c] + after, c, 0) == Some(|before|)
  {
    CharAfterWord("", before, c, after);
    assert "" + before + [c] + after == before + [c] + after;
  }

  lemma FindCrlfIs(s: string, from: nat, at: nat)
    requires from <= at && CrlfAt(s, at)
    requires forall k :: from <= k < at ==> !CrlfAt(s, k)
    ensures FindCrlf(s, from) == Some(at)
  {
    FindCrlfFirst(s, from);
  }

  lemma FindBlankLineIs(s: string, at: nat)
    requires BlankLineAt(s, at)
    requires forall k :: 0 <= k < at ==> !BlankLineAt(s, k)
    ensures FindBlankLine(s, 0) == Some(at)
  {
    FindBlankLineFirst(s, 0);
  }

  /** A CRLF-free line followed by CRLF: the first CRLF is the one that ends the line. */
  lemma FirstCrlfEndsLine(before: string, line: string, rest: string)
    requires NoCrlf(line)
    ensures FindCrlf(before + line + "\r\n" + rest, |before|) == Some(|before| + |line|)
  {
    var s := before + line + "\r\n" + rest;
    var e := |before| + |line|;
    assert s[e] == '\r' && s[e + 1] == '\n';
    forall k | |before| <= k < e
      ensures !CrlfAt(s, k)
    {
      assert s[k] == line[k - |before|];
      if k + 1 < e {
        assert s[k + 1] == line[k + 1 - |before|];
        assert !CrlfAt(line, k - |before|);
      }
    }
    FindCrlfIs(s, |before|, e);
  }

  // ----- trimming -----

  predicate AllSpaces(s: string) {
    forall k :: 0 <= k < |s| ==> s[k] == ' '
  }

  predicate Trimmed(s: string) {
    s == "" || (s[0] != ' ' && s[|s| - 1] != ' ')
  }

  function TrimLeft(s: string): string {
    if s != "" && s[0] == ' ' then TrimLeft(s[1..]) else s
  }

  function TrimRight(s: string): string {
    if s != "" && s[|s| - 1] == ' ' then TrimRight(s[..|s| - 1]) else s
  }

  function TrimSpaces(s: string): string {
    TrimRight(TrimLeft(s))
  }

  lemma {:induction false} TrimLeftStrips(pad: string, s: string)
    requires AllSpaces(pad)
    requires s == "" || s[0] != ' '
    ensures TrimLeft(pad + s) == s
  {
    if pad == "" {
      assert pad + s == s;
    } else {
      assert (pad + s)[1..] == pad[1..] + s;
      TrimLeftStrips(pad[1..], s);
    }
  }

  lemma {:induction false} TrimRightStrips(s: string, pad: string)
    requires AllSpaces(pad)
    requires s == "" || s[|s| - 1] != ' '
    ensures TrimRight(s + pad) == s
    decreases |pad|
  {
    if pad == "" {
      assert s + pad == s;
    } else {
      var t := s + pad;
      assert t[|t| - 1] == ' ';
      assert t[..|t| - 1] == s + pad[..|pad| - 1];
      TrimRightStrips(s, pad[..|pad| - 1]);
    }
  }

  /** Spaces around a trimmed text are exactly what trimming removes. */
  lemma TrimSpacesStrips(before: string, s: string, after: string)
    requires AllSpaces(before) && AllSpaces(after) && Trimmed(s)
    ensures TrimSpaces(before + s + after) == s
  {
    if s == "" {
      var all := before + after;
      assert before + s + after == all + "";
      TrimLeftStrips(all, "");
    } else {
      assert before + s + after == before + (s + after);
      TrimLeftStrips(before, s + after);
      TrimRightStrips(s, after);
    }
  }

  // ----- ASCII case -----

  function LowerChar(c: char): char {
    if 'A' <= c <= 'Z' then (c as int + 32) as char else c
  }

  function Lower(s: string): (r: string)
    ensures |r| == |s|
    ensures forall k :: 0 <= k < |s| ==> r[k] == LowerChar(s[k])
  {
    seq(|s|, i requires 0 <= i < |s| => LowerChar(s[i]))
  }

  /** The word, with any of its letters in upper case. */
  predicate InAnyCase(s: string, word: string) {
    |s| == |word| && forall k :: 0 <= k < |s| ==>
      s[k] == word[k] || ('A' <= s[k] <= 'Z' && word[k] as int == s[k] as int + 32)
  }

  predicate NoUpperCase(word: string) {
    forall k :: 0 <= k < |word| ==> !('A' <= word[k] <= 'Z')
  }

  /** std::tolower on every byte: what becomes a word is the word in any case. */
  lemma LowerMeans(s: string, word: string)
    requires NoUpperCase(word)
    ensures Lower(s) == word <==> InAnyCase(s, word)
  {
    if InAnyCase(s, word) {
      assert forall k :: 0 <= k < |s| ==> LowerChar(s[k]) == word[k];
    }
  }

  predicate StandsAt(s: string, word: string, k: int) {
    0 <= k && k + |word| <= |s| && s[k..k + |word|] == word
  }

  function ContainsFrom(s: string, word: string, from: nat): bool
    decreases |s| - from
  {
    if from + |word| > |s| then false else StandsAt(s, word, from) || ContainsFrom(s, word, from + 1)
  }

  /** s.find(word) != npos */
  predicate Contains(s: string, word: string) {
    ContainsFrom(s, word, 0)
  }

  lemma {:induction false} ContainsFromMeans(s: string, word: string, from: nat)
    ensures ContainsFrom(s, word, from) <==> exists k :: from <= k && StandsAt(s, word, k)
    decreases |s| - from
  {
    if from + |word| <= |s| && !StandsAt(s, word, from) {
      ContainsFromMeans(s, word, from + 1);
    }
  }

  // ----- hexadecimal digits -----

  /** The value of a hex digit of either case, -1 for any other byte. */
  function HexVal(h: char): int {
    if '0' <= h <= '9' then h as int - '0' as int
    else if 'a' <= h <= 'f' then h as int - 'a' as int + 10
    else if 'A' <= h <= 'F' then h as int - 'A' as int + 10
    else -1
  }

  function HexDigit(v: int, upper: bool): char
    requires 0 <= v < 16
  {
    if v < 10 then ('0' as int + v) as char
    else if upper then ('A' as int + v - 10) as char
    else ('a' as int + v - 10) as char
  }

  lemma HexValOfHexDigit(v: int, upper: bool)
    requires 0 <= v < 16
    ensures HexVal(HexDigit(v, upper)) == v
  {
  }

  // ----- std::to_string of an unsigned number -----

  predicate IsDigit(c: char) {
    '0' <= c <= '9'
  }

  function Digit(d: nat): char
    requires d < 10
  {
    ('0' as int + d) as char
  }

  function Decimal(n: nat): (r: string)
    ensures r != "" && forall k :: 0 <= k < |r| ==> IsDigit(r[k])
  {
    if n < 10 then [Digit(n)] else Decimal(n / 10) + [Digit(n % 10)]
  }

  /** The number a run of decimal digits denotes; the reader's side of `Decimal`. */
  function ReadDecimal(s: string): Option<nat> {
    if s == "" then None
    else
      var last := s[|s| - 1];
      if !IsDigit(last) then None
      else if |s| == 1 then Some(last as int - '0' as int)
      else
        match ReadDecimal(s[..|s| - 1])
        case None => None
        case Some(high) => Some(10 * high + (last as int - '0' as int))
  }

  lemma {:induction false} ReadDecimalOfDecimal(n: nat)
    ensures ReadDecimal(Decimal(n)) == Some(n)
  {
    if n >= 10 {
      var s := Decimal(n);
      assert s[..|s| - 1] == Decimal(n / 10);
      ReadDecimalOfDecimal(n / 10);
    }
  }

  lemma DecimalInjective(a: nat, b: nat)
    requires Decimal(a) == Decimal(b)
    ensures a == b
  {
    ReadDecimalOfDecimal(a);
    ReadDecimalOfDecimal(b);
  }
}
