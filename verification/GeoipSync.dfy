/** `update_database` and `run_sync` (geoip-sync/geoip-sync.sh): replicating one database
    edition from a mirror that may change at any moment, with a crash possible between any
    two filesystem operations.

    An attempt is the sequence of filesystem operations the script performs; a crash cuts
    that sequence anywhere.
 */
module GeoipSync {
  import opened Text

  // ----- files -----

  /** The files of one edition. */
  datatype Kind = Db | Md5 | Sha | Meta | TmpDb | TmpMd5 | TmpSha | TmpMeta | Headers

  type Files = map<Kind, string>

  predicate IsTemporary(k: Kind) {
    k.TmpDb? || k.TmpMd5? || k.TmpSha? || k.TmpMeta? || k.Headers?
  }

  datatype Cmd =
    | Remove(kind: Kind)               // rm -f
    | Create(kind: Kind)               // open for writing, truncating
    | Append(kind: Kind, data: string)
    | Move(source: Kind, target: Kind) // mv, an atomic rename

  function Exec(files: Files, c: Cmd): Files {
    match c
    case Remove(k) => files - {k}
    case Create(k) => files[k := ""]
    case Append(k, data) => if k in files then files[k := files[k] + data] else files
    case Move(source, target) =>
      if source in files then (files - {source})[target := files[source]] else files
  }

  function ExecAll(files: Files, cmds: seq<Cmd>): Files
    decreases |cmds|
  {
    if cmds == [] then files else ExecAll(Exec(files, cmds[0]), cmds[1..])
  }

  lemma {:induction false} ExecConcat(files: Files, a: seq<Cmd>, b: seq<Cmd>)
    ensures ExecAll(files, a + b) == ExecAll(ExecAll(files, a), b)
    decreases |a|
  {
    if a == [] {
      assert a + b == b;
    } else {
      assert (a + b)[1..] == a[1..] + b;
      ExecConcat(Exec(files, a[0]), a[1..], b);
    }
  }

  // ----- checksum files -----

  predicate IsBlank(c: char) {
    c == ' ' || c == '\t'
  }

  function SkipBlanks(s: string): string {
    if s != "" && IsBlank(s[0]) then SkipBlanks(s[1..]) else s
  }

  function UpToBlank(s: string): string {
    if s == "" || IsBlank(s[0]) || s[0] == '\n' then "" else [s[0]] + UpToBlank(s[1..])
  }

  /** awk 'NR == 1 { print $1 }' */
  function FirstField(content: string): string {
    UpToBlank(SkipBlanks(content))
  }

  predicate IsHexDigit(c: char) {
    '0' <= c <= '9' || 'a' <= c <= 'f' || 'A' <= c <= 'F'
  }

  predicate IsHex(s: string, length: nat) {
    |s| == length && forall k :: 0 <= k < |s| ==> IsHexDigit(s[k])
  }

  /** tr 'A-F' 'a-f' */
  function LowerHex(s: string): string {
    seq(|s|, k requires 0 <= k < |s| => if 'A' <= s[k] <= 'F' then (s[k] as int + 32) as char else s[k])
  }

  /** The two digest programs, as functions of a file's content. */
  datatype Digests = Digests(sha: string -> string, md5: string -> string)

  /** The checksum a sidecar records. */
  function Recorded(content: string): string {
    LowerHex(FirstField(content))
  }

  // ----- one attempt -----

  /** A download: the pieces wget writes, and whether it succeeds in the end. */
  datatype Download = Download(pieces: seq<string>, ok: bool)

  /** Everything the mirror answers during one attempt; each file may be of another moment.
      `stamped` is false when Last-Modified is missing, unreadable or cannot be applied. */
  datatype Replies = Replies(sha: Download, db: Download, md5: Download, meta: Download, stamped: bool)

  datatype Outcome = Current | Failed | Updated

  function Joined(pieces: seq<string>): string {
    if pieces == [] then "" else pieces[0] + Joined(pieces[1..])
  }

  function Appends(k: Kind, pieces: seq<string>): (r: seq<Cmd>)
    ensures |r| == |pieces|
    ensures forall i :: 0 <= i < |r| ==> r[i] == Append(k, pieces[i])
  {
    seq(|pieces|, i requires 0 <= i < |pieces| => Append(k, pieces[i]))
  }

  function Fetch(k: Kind, d: Download): seq<Cmd> {
    [Create(k)] + Appends(k, d.pieces)
  }

  function RemoveAll(kinds: seq<Kind>): (r: seq<Cmd>)
    ensures |r| == |kinds|
    ensures forall i :: 0 <= i < |r| ==> r[i] == Remove(kinds[i])
  {
    seq(|kinds|, i requires 0 <= i < |kinds| => Remove(kinds[i]))
  }

  const TEMPORARIES := [TmpDb, TmpMd5, TmpSha, TmpMeta, Headers]

  const RENAMES := [Move(TmpDb, Db), Move(TmpMd5, Md5), Move(TmpMeta, Meta), Move(TmpSha, Sha)]

  /** The checksum an attempt goes for, if the mirror's answer is one. */
  function Expected(r: Replies): Option<string> {
    var field := FirstField(Joined(r.sha.pieces));
    if r.sha.ok && IsHex(field, 64) then Some(LowerHex(field)) else None
  }

  /** The "is current" test. */
  predicate SaysCurrent(files: Files, expected: string) {
    Db in files && Sha in files && Recorded(files[Sha]) == expected
  }

  predicate DbVerifies(d: Digests, r: Replies, expected: string) {
    r.db.ok && LowerHex(d.sha(Joined(r.db.pieces))) == expected
  }

  predicate Md5Verifies(d: Digests, r: Replies) {
    && r.md5.ok && IsHex(FirstField(Joined(r.md5.pieces)), 32)
    && LowerHex(d.md5(Joined(r.db.pieces))) == Recorded(Joined(r.md5.pieces))
  }

  /** All downloads arrive and verify against this checksum. */
  predicate Verifies(d: Digests, r: Replies, expected: string) {
    DbVerifies(d, r, expected) && Md5Verifies(d, r) && r.meta.ok && r.stamped
  }

  /** Downloading and verifying, up to the first rename or to the end if nothing is renamed. */
  function Downloading(d: Digests, r: Replies, expected: string): seq<Cmd> {
    var c2 := [Create(Headers)] + Fetch(TmpDb, r.db);
    if !DbVerifies(d, r, expected) then c2 + RemoveAll([TmpDb, TmpSha, Headers])
    else
      var c3 := c2 + Fetch(TmpMd5, r.md5);
      if !Md5Verifies(d, r) then c3 + RemoveAll([TmpDb, TmpMd5, TmpSha, Headers])
      else
        var c4 := c3 + Fetch(TmpMeta, r.meta);
        if !r.meta.ok || !r.stamped then c4 + RemoveAll([TmpDb, TmpMd5, TmpSha, TmpMeta, Headers])
        else c4 + RemoveAll([Headers])
  }

  /** The same with the renames of a verified download. */
  function DownloadCommands(d: Digests, r: Replies, expected: string): seq<Cmd> {
    Downloading(d, r, expected) + if Verifies(d, r, expected) then RENAMES else []
  }

  /** Clearing leftovers and fetching the published checksum. */
  function Checking(r: Replies): seq<Cmd> {
    RemoveAll(TEMPORARIES) + Fetch(TmpSha, r.sha)
  }

  /** What an attempt does up to its first rename, or to its end if it renames nothing. */
  function Preparation(files: Files, d: Digests, r: Replies): seq<Cmd> {
    Checking(r) + if Expected(r).None? || SaysCurrent(files, Expected(r).value) then RemoveAll([TmpSha])
                  else Downloading(d, r, Expected(r).value)
  }

  function OutcomeOf(files: Files, d: Digests, r: Replies): Outcome {
    if Expected(r).Some? && SaysCurrent(files, Expected(r).value) then Current
    else if Expected(r).Some? && Verifies(d, r, Expected(r).value) then Updated
    else Failed
  }

  /** The filesystem operations of an attempt that is not interrupted. */
  function Commands(files: Files, d: Digests, r: Replies): seq<Cmd> {
    Preparation(files, d, r) + if OutcomeOf(files, d, r) == Updated then RENAMES else []
  }

  function Cut(cmds: seq<Cmd>, budget: nat): seq<Cmd> {
    if budget < |cmds| then cmds[..budget] else cmds
  }

  /** The operations the machine still performs afterwards. */
  function Left(cmds: seq<Cmd>, budget: nat): nat {
    if budget > |cmds| then budget - |cmds| else 0
  }

  /** An attempt that gets through at most `budget` operations before the machine stops. */
  function Attempted(files: Files, d: Digests, r: Replies, budget: nat): Files {
    ExecAll(files, Cut(Commands(files, d, r), budget))
  }

  // ----- the script -----

  /** The database directory as far as one edition goes, and how many more filesystem
      operations the machine will perform before it stops. */
  class Directory {
    var files: Files
    var budget: nat

    constructor (files: Files, budget: nat)
      ensures this.files == files && this.budget == budget
    {
      this.files, this.budget := files, budget;
    }

    /** One operation, unless the machine has stopped. */
    method Do(c: Cmd)
      modifies this
      ensures files == if old(budget) > 0 then Exec(old(files), c) else old(files)
      ensures budget == if old(budget) > 0 then old(budget) - 1 else 0
    {
      if budget > 0 {
        match c {
          case Remove(k) => files := files - {k};
          case Create(k) => files := files[k := ""];
          case Append(k, data) =>
            if k in files {
              files := files[k := files[k] + data];
            }
          case Move(source, target) =>
            if source in files {
              files := (files - {source})[target := files[source]];
            }
        }
        budget := budget - 1;
      }
    }

    method DoAll(cmds: seq<Cmd>)
      modifies this
      ensures files == ExecAll(old(files), Cut(cmds, old(budget)))
      ensures budget == Left(cmds, old(budget))
    {
      for i := 0 to |cmds|
        invariant ExecAll(old(files), Cut(cmds, old(budget))) == ExecAll(files, Cut(cmds[i..], budget))
        invariant budget == if old(budget) > i then old(budget) - i else 0
      {
        assert cmds[i..][1..] == cmds[i + 1..];
        CutCons(cmds[i], cmds[i + 1..], budget);
        assert cmds[i..] == [cmds[i]] + cmds[i + 1..];
        Do(cmds[i]);
      }
      assert cmds[|cmds|..] == [];
    }

    /** The part of `update_database` behind the "is current" test. */
    method Download(d: Digests, r: Replies, expected: string) returns (ok: bool)
      modifies this
      ensures ok == Verifies(d, r, expected)
      ensures files == ExecAll(old(files), Cut(DownloadCommands(d, r, expected), old(budget)))
      ensures budget == Left(DownloadCommands(d, r, expected), old(budget))
    {
      ghost var trace := [Create(Headers)];
      DoAll([Create(Headers)]);
      Continue(trace, Fetch(TmpDb, r.db), old(files), old(budget));
      trace := trace + Fetch(TmpDb, r.db);
      if !r.db.ok || LowerHex(d.sha(Joined(r.db.pieces))) != expected {
        Continue(trace, RemoveAll([TmpDb, TmpSha, Headers]), old(files), old(budget));
        NothingElse(Downloading(d, r, expected));
        return false;
      }
      Continue(trace, Fetch(TmpMd5, r.md5), old(files), old(budget));
      trace := trace + Fetch(TmpMd5, r.md5);
      if !r.md5.ok || !IsHex(FirstField(Joined(r.md5.pieces)), 32)
         || LowerHex(d.md5(Joined(r.db.pieces))) != Recorded(Joined(r.md5.pieces))
      {
        Continue(trace, RemoveAll([TmpDb, TmpMd5, TmpSha, Headers]), old(files), old(budget));
        NothingElse(Downloading(d, r, expected));
        return false;
      }
      Continue(trace, Fetch(TmpMeta, r.meta), old(files), old(budget));
      trace := trace + Fetch(TmpMeta, r.meta);
      if !r.meta.ok || !r.stamped {
        Continue(trace, RemoveAll([TmpDb, TmpMd5, TmpSha, TmpMeta, Headers]), old(files), old(budget));
        NothingElse(Downloading(d, r, expected));
        return false;
      }
      Continue(trace, RemoveAll([Headers]), old(files), old(budget));
      trace := trace + RemoveAll([Headers]);
      Continue(trace, RENAMES, old(files), old(budget));
      return true;
    }

    /** `update_database`, command by command; each early return is the script's.  After
        the machine has stopped the remaining operations do nothing. */
    method UpdateDatabase(d: Digests, r: Replies) returns (outcome: Outcome)
      modifies this
      ensures files == Attempted(old(files), d, r, old(budget))
      ensures outcome == OutcomeOf(old(files), d, r)
      ensures budget == Left(Commands(old(files), d, r), old(budget))
    {
      ghost var trace := Checking(r);
      ghost var removed := RemoveAll(TEMPORARIES);
      DoAll(RemoveAll(TEMPORARIES));
      Continue(removed, Fetch(TmpSha, r.sha), old(files), old(budget));
      var field := FirstField(Joined(r.sha.pieces));
      if !r.sha.ok || !IsHex(field, 64) {
        Continue(trace, RemoveAll([TmpSha]), old(files), old(budget));
        CommandsOfRefusal(old(files), d, r);
        return Failed;
      }
      var expected := LowerHex(field);
      CheckingKeepsInstalled(old(files), r, old(budget));
      if Db in files && Sha in files {
        var current := Recorded(files[Sha]);
        if current == expected {
          Continue(trace, RemoveAll([TmpSha]), old(files), old(budget));
          CommandsOfRefusal(old(files), d, r);
          return Current;
        }
      }
      CutConcat(old(files), trace, DownloadCommands(d, r, expected), old(budget));
      CommandsOfDownload(old(files), d, r);
      var ok := Download(d, r, expected);
      return if ok then Updated else Failed;
    }

    /** Performs more operations behind a trace already performed. */
    method Continue(ghost trace: seq<Cmd>, cmds: seq<Cmd>, ghost start: Files, ghost total: nat)
      requires files == ExecAll(start, Cut(trace, total))
      requires budget == Left(trace, total)
      modifies this
      ensures files == ExecAll(start, Cut(trace + cmds, total))
      ensures budget == Left(trace + cmds, total)
    {
      CutConcat(start, trace, cmds, total);
      DoAll(cmds);
    }
  }

  lemma CommandsOfRefusal(files: Files, d: Digests, r: Replies)
    requires Expected(r).None? || SaysCurrent(files, Expected(r).value)
    ensures Commands(files, d, r) == Checking(r) + RemoveAll([TmpSha])
  {
  }

  lemma CommandsOfDownload(files: Files, d: Digests, r: Replies)
    requires Expected(r).Some? && !SaysCurrent(files, Expected(r).value)
    ensures Commands(files, d, r) == Checking(r) + DownloadCommands(d, r, Expected(r).value)
  {
  }

  lemma NothingElse(cmds: seq<Cmd>)
    ensures cmds + [] == cmds
  {
  }

  lemma CutConcat(files: Files, a: seq<Cmd>, b: seq<Cmd>, n: nat)
    ensures ExecAll(ExecAll(files, Cut(a, n)), Cut(b, Left(a, n))) == ExecAll(files, Cut(a + b, n))
  {
    if n < |a| {
      assert (a + b)[..n] == a[..n];
      assert Cut(b, 0) == [];
    } else {
      ExecConcat(files, a, Cut(b, n - |a|));
      if n < |a + b| {
        assert (a + b)[..n] == a + b[..n - |a|];
      }
    }
  }

  lemma CutCons(c: Cmd, cmds: seq<Cmd>, budget: nat)
    ensures Cut([c] + cmds, budget) == if budget == 0 then [] else [c] + Cut(cmds, budget - 1)
  {
    if 0 < budget < |cmds| + 1 {
      assert ([c] + cmds)[..budget] == [c] + cmds[..budget - 1];
    }
  }

  // ----- what operations leave alone -----

  predicate Touches(c: Cmd, k: Kind) {
    match c
    case Remove(x) => x == k
    case Create(x) => x == k
    case Append(x, _) => x == k
    case Move(source, target) => source == k || target == k
  }

  /** Only temporary files are touched. */
  predicate OnlyTemporaries(cmds: seq<Cmd>) {
    forall i, k :: 0 <= i < |cmds| && Touches(cmds[i], k) ==> IsTemporary(k)
  }

  function Content(files: Files, k: Kind): Option<string> {
    if k in files then Some(files[k]) else None
  }

  lemma {:induction false} KeepsInstalled(files: Files, cmds: seq<Cmd>)
    requires OnlyTemporaries(cmds)
    ensures forall k :: !IsTemporary(k) ==> Content(ExecAll(files, cmds), k) == Content(files, k)
    decreases |cmds|
  {
    if cmds != [] {
      forall k | !IsTemporary(k) ensures Content(Exec(files, cmds[0]), k) == Content(files, k) {
        assert !Touches(cmds[0], k);
      }
      KeepsInstalled(Exec(files, cmds[0]), cmds[1..]);
    }
  }

  lemma FetchTouchesOnlyTemporaries(k: Kind, d: Download)
    requires IsTemporary(k)
    ensures OnlyTemporaries(Fetch(k, d))
  {
  }

  lemma OnlyTemporariesConcat(a: seq<Cmd>, b: seq<Cmd>)
    requires OnlyTemporaries(a) && OnlyTemporaries(b)
    ensures OnlyTemporaries(a + b)
  {
  }

  lemma CutKeepsOnlyTemporaries(cmds: seq<Cmd>, n: nat)
    requires OnlyTemporaries(cmds)
    ensures OnlyTemporaries(Cut(cmds, n))
  {
  }

  lemma CheckingKeepsInstalled(files: Files, r: Replies, n: nat)
    ensures var after := ExecAll(files, Cut(Checking(r), n));
            Content(after, Db) == Content(files, Db) && Content(after, Sha) == Content(files, Sha)
  {
    FetchTouchesOnlyTemporaries(TmpSha, r.sha);
    OnlyTemporariesConcat(RemoveAll(TEMPORARIES), Fetch(TmpSha, r.sha));
    CutKeepsOnlyTemporaries(Checking(r), n);
    KeepsInstalled(files, Cut(Checking(r), n));
  }
}
