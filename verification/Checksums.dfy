/** The checksum files of the replication script (geoip-sync/geoip-sync.sh:87-98 and 133-141)
    in the form `sha256sum` and geoip-update/entrypoint.sh:194 write them: digits, blanks,
    a file name.  Which texts name which checksum, and nothing else does.
 */
module Checksums {
  import opened Text
  import opened GeoipSync

  /** Blanks as awk splits at them. */
  predicate AreBlanks(s: string) {
    forall k :: 0 <= k < |s| ==> s[k] == ' ' || s[k] == '\t'
  }

  /** A word ends where the text ends, at a blank or at a newline. */
  predicate EndsWord(rest: string) {
    rest == "" || rest[0] == ' ' || rest[0] == '\t' || rest[0] == '\n'
  }

  predicate IsWord(word: string) {
    forall k :: 0 <= k < |word| ==> word[k] != ' ' && word[k] != '\t' && word[k] != '\n'
  }

  lemma {:induction false} BlanksAreSkipped(pad: string, s: string)
    requires AreBlanks(pad) && (s == "" || (s[0] != ' ' && s[0] != '\t'))
    ensures SkipBlanks(pad + s) == s
  {
    if pad == "" {
      assert pad + s == s;
    } else {
      assert (pad + s)[1..] == pad[1..] + s;
      BlanksAreSkipped(pad[1..], s);
    }
  }

  lemma {:induction false} WordIsCut(word: string, rest: string)
    requires IsWord(word) && EndsWord(rest)
    ensures UpToBlank(word + rest) == word
  {
    if word == "" {
      assert word + rest == rest;
    } else {
      assert (word + rest)[1..] == word[1..] + rest;
      WordIsCut(word[1..], rest);
      assert [word[0]] + word[1..] == word;
    }
  }

  /** The first field is the first word, whatever blanks stand before it and whatever - a
      file name, more lines - stands behind it. */
  lemma FirstFieldIsFirstWord(pad: string, word: string, rest: string)
    requires AreBlanks(pad) && word != "" && IsWord(word) && EndsWord(rest)
    ensures FirstField(pad + word + rest) == word
  {
    assert pad + word + rest == pad + (word + rest);
    BlanksAreSkipped(pad, word + rest);
    WordIsCut(word, rest);
  }

  lemma {:induction false} SkippedAreBlanks(s: string) returns (pad: string)
    ensures AreBlanks(pad) && s == pad + SkipBlanks(s)
    ensures SkipBlanks(s) != "" ==> SkipBlanks(s)[0] != ' ' && SkipBlanks(s)[0] != '\t'
  {
    pad := "";
    if s != "" && IsBlank(s[0]) {
      var more := SkippedAreBlanks(s[1..]);
      pad := [s[0]] + more;
    }
  }

  lemma {:induction false} CutIsWord(s: string) returns (rest: string)
    ensures IsWord(UpToBlank(s)) && s == UpToBlank(s) + rest && EndsWord(rest)
  {
    rest := s;
    if s != "" && !IsBlank(s[0]) && s[0] != '\n' {
      rest := CutIsWord(s[1..]);
    }
  }

  /** And every text is taken apart like that; its first field is empty only if its first
      line is blank. */
  lemma FirstFieldSplits(s: string) returns (pad: string, rest: string)
    ensures AreBlanks(pad) && IsWord(FirstField(s)) && EndsWord(rest)
    ensures s == pad + FirstField(s) + rest
    ensures FirstField(s) == "" ==> rest == "" || rest[0] == '\n'
  {
    pad := SkippedAreBlanks(s);
    rest := CutIsWord(SkipBlanks(s));
    assert s == pad + (FirstField(s) + rest);
  }

  // ----- which checksum a file names -----

  predicate AreHexDigits(s: string) {
    forall k :: 0 <= k < |s| ==> '0' <= s[k] <= '9' || 'a' <= s[k] <= 'f' || 'A' <= s[k] <= 'F'
  }

  /** The file's first word is these hex digits. */
  ghost predicate Names(content: string, digits: string) {
    AreHexDigits(digits) && exists pad, rest :: AreBlanks(pad) && EndsWord(rest) && content == pad + digits + rest
  }

  /** The same digits, with a to f for A to F. */
  predicate InLowerCase(s: string, lower: string) {
    |lower| == |s| && forall k :: 0 <= k < |s| ==>
      if s[k] == 'A' then lower[k] == 'a' else if s[k] == 'B' then lower[k] == 'b'
      else if s[k] == 'C' then lower[k] == 'c' else if s[k] == 'D' then lower[k] == 'd'
      else if s[k] == 'E' then lower[k] == 'e' else if s[k] == 'F' then lower[k] == 'f'
      else lower[k] == s[k]
  }

  lemma LowerHexIsLower(s: string)
    ensures InLowerCase(s, LowerHex(s))
  {
  }

  lemma LowerCaseIsOne(s: string, lower: string)
    requires InLowerCase(s, lower)
    ensures lower == LowerHex(s)
  {
    LowerHexIsLower(s);
  }

  lemma NamesIsFirstField(content: string, digits: string)
    requires digits != ""
    ensures Names(content, digits) <==> AreHexDigits(digits) && FirstField(content) == digits
  {
    if Names(content, digits) {
      var pad, rest :| AreBlanks(pad) && EndsWord(rest) && content == pad + digits + rest;
      FirstFieldIsFirstWord(pad, digits, rest);
    }
    if AreHexDigits(digits) && FirstField(content) == digits {
      var pad, rest := FirstFieldSplits(content);
    }
  }

  lemma HexMeans(s: string, length: nat)
    ensures IsHex(s, length) <==> |s| == length && AreHexDigits(s)
  {
  }

  /** The checksum an attempt goes for is exactly the one the published file names by 64 hex
      digits, in lower case; no other file will do. */
  lemma ExpectedExactly(r: Replies, expected: string)
    ensures Expected(r) == Some(expected)
            <==> r.sha.ok && exists digits :: |digits| == 64 && Names(Joined(r.sha.pieces), digits)
                                              && InLowerCase(digits, expected)
  {
    var content := Joined(r.sha.pieces);
    var field := FirstField(content);
    HexMeans(field, 64);
    LowerHexIsLower(field);
    if Expected(r) == Some(expected) {
      NamesIsFirstField(content, field);
      assert |field| == 64 && Names(content, field) && InLowerCase(field, expected);
    }
    if r.sha.ok && exists digits :: |digits| == 64 && Names(content, digits) && InLowerCase(digits, expected) {
      var digits :| |digits| == 64 && Names(content, digits) && InLowerCase(digits, expected);
      NamesIsFirstField(content, digits);
      LowerCaseIsOne(digits, expected);
    }
  }

  /** The downloaded MD5 file fits the database exactly if it names, by 32 hex digits, the
      digest computed of the database, in whatever case either is written. */
  lemma Md5VerifiesExactly(d: Digests, r: Replies)
    ensures Md5Verifies(d, r)
            <==> r.md5.ok && exists digits :: |digits| == 32 && Names(Joined(r.md5.pieces), digits)
                                              && InLowerCase(digits, LowerHex(d.md5(Joined(r.db.pieces))))
  {
    var content := Joined(r.md5.pieces);
    var actual := LowerHex(d.md5(Joined(r.db.pieces)));
    var field := FirstField(content);
    HexMeans(field, 32);
    LowerHexIsLower(field);
    if Md5Verifies(d, r) {
      NamesIsFirstField(content, field);
      assert |field| == 32 && Names(content, field) && InLowerCase(field, actual);
    }
    if r.md5.ok && exists digits :: |digits| == 32 && Names(content, digits) && InLowerCase(digits, actual) {
      var digits :| |digits| == 32 && Names(content, digits) && InLowerCase(digits, actual);
      NamesIsFirstField(content, digits);
      LowerCaseIsOne(digits, actual);
    }
  }

  // ----- checksum lines -----

  /** The line geoip-update publishes: the digest, two spaces, the file name. */
  function ChecksumLine(digest: string, filename: string): string {
    digest + [' ', ' '] + filename + ['\n']
  }

  lemma LineNamesDigest(digest: string, filename: string)
    requires digest != "" && AreHexDigits(digest)
    ensures FirstField(ChecksumLine(digest, filename)) == digest
  {
    var rest := [' ', ' '] + filename + ['\n'];
    FirstFieldIsFirstWord("", digest, rest);
    assert "" + digest + rest == ChecksumLine(digest, filename);
  }
}
