/** `run_sync` (geoip-sync/geoip-sync.sh:190-201): one pass over all configured editions in a
    shared directory. */
module GeoipSyncCycle {
  import opened GeoipSync
  import opened GeoipSyncRuns

  // ----- paths -----

  function Suffix(k: Kind): string {
    match k
    case Db => ".mmdb"
    case Md5 => ".mmdb.md5"
    case Sha => ".mmdb.sha256"
    case Meta => ".mmdb.metadata.json"
    case TmpDb => ".mmdb.tmp"
    case TmpMd5 => ".mmdb.md5.tmp"
    case TmpSha => ".mmdb.sha256.tmp"
    case TmpMeta => ".mmdb.metadata.json.tmp"
    case Headers => ".mmdb.headers.tmp"
  }

  /** Where the script keeps a file of an edition. */
  function Path(directory: string, edition: string, k: Kind): string {
    directory + ['/'] + edition + Suffix(k)
  }

  lemma SidecarSuffixes()
    ensures Suffix(Db) == ".mmdb" && Suffix(Md5) == Suffix(Db) + ".md5" && Suffix(Sha) == Suffix(Db) + ".sha256"
    ensures Suffix(Meta) == Suffix(Db) + ".metadata.json" && Suffix(Headers) == Suffix(Db) + ".headers.tmp"
  {
  }

  lemma TemporarySuffixes()
    ensures Suffix(TmpDb) == Suffix(Db) + ".tmp" && Suffix(TmpMd5) == Suffix(Md5) + ".tmp"
    ensures Suffix(TmpSha) == Suffix(Sha) + ".tmp" && Suffix(TmpMeta) == Suffix(Meta) + ".tmp"
  {
  }

  lemma LongerPath(directory: string, edition: string, k: Kind, l: Kind, more: string)
    requires Suffix(l) == Suffix(k) + more
    ensures Path(directory, edition, l) == Path(directory, edition, k) + more
  {
  }

  /** The names of the files: sidecars are named after the database, temporaries after what
      they become. */
  lemma PathsAreNamed(directory: string, edition: string)
    ensures var db := Path(directory, edition, Db);
            && db == directory + ['/'] + edition + ".mmdb"
            && Path(directory, edition, Md5) == db + ".md5" && Path(directory, edition, Sha) == db + ".sha256"
            && Path(directory, edition, Meta) == db + ".metadata.json"
            && Path(directory, edition, Headers) == db + ".headers.tmp"
            && Path(directory, edition, TmpDb) == db + ".tmp"
            && Path(directory, edition, TmpMd5) == Path(directory, edition, Md5) + ".tmp"
            && Path(directory, edition, TmpSha) == Path(directory, edition, Sha) + ".tmp"
            && Path(directory, edition, TmpMeta) == Path(directory, edition, Meta) + ".tmp"
  {
    SidecarSuffixes();
    TemporarySuffixes();
    LongerPath(directory, edition, Db, Md5, ".md5");
    LongerPath(directory, edition, Db, Sha, ".sha256");
    LongerPath(directory, edition, Db, Meta, ".metadata.json");
    LongerPath(directory, edition, Db, Headers, ".headers.tmp");
    LongerPath(directory, edition, Db, TmpDb, ".tmp");
    LongerPath(directory, edition, Md5, TmpMd5, ".tmp");
    LongerPath(directory, edition, Sha, TmpSha, ".tmp");
    LongerPath(directory, edition, Meta, TmpMeta, ".tmp");
  }

  function LastOf(k: Kind): char {
    match k
    case Db => 'b' case Md5 => '5' case Sha => '6' case Meta => 'n'
    case TmpDb | TmpMd5 | TmpSha | TmpMeta | Headers => 'p'
  }

  function FifthLastOf(k: Kind): char {
    match k
    case Db => '.' case Md5 => 'b' case Sha => 'h' case Meta => '.'
    case TmpDb => 'b' case TmpMd5 => '5' case TmpSha => '6' case TmpMeta => 'n' case Headers => 's'
  }

  lemma SuffixEnds(k: Kind)
    ensures var s := Suffix(k); |s| >= 5 && s[|s| - 1] == LastOf(k) && s[|s| - 5] == FifthLastOf(k)
  {
  }

  /** No two files of one edition and no two editions share a path, whatever the edition
      names are; so each edition's files can be treated on their own. */
  lemma PathsAreDistinct(directory: string, e: string, k: Kind, f: string, l: Kind)
    requires Path(directory, e, k) == Path(directory, f, l)
    ensures e == f && k == l
  {
    SuffixEnds(k);
    SuffixEnds(l);
    EndsAgree(directory + ['/'], e, Suffix(k), f, Suffix(l));
    assert k == l;
    StemsAgree(directory + ['/'], e, f, Suffix(k));
  }

  lemma EndsAgree(directory: string, e: string, s: string, f: string, t: string)
    requires |s| >= 5 && |t| >= 5 && directory + e + s == directory + f + t
    ensures s[|s| - 1] == t[|t| - 1] && s[|s| - 5] == t[|t| - 5]
  {
    var p, q := directory + e + s, directory + f + t;
    assert p[|p| - 1] == s[|s| - 1] && p[|p| - 5] == s[|s| - 5];
    assert q[|q| - 1] == t[|t| - 1] && q[|q| - 5] == t[|t| - 5];
  }

  lemma StemsAgree(directory: string, e: string, f: string, s: string)
    requires directory + e + s == directory + f + s
    ensures e == f
  {
    assert e == (directory + e + s)[|directory|..|directory + e + s| - |s|];
    assert f == (directory + f + s)[|directory|..|directory + f + s| - |s|];
  }

  // ----- one cycle -----

  type Tree = map<string, Files>

  function FilesOf(tree: Tree, e: string): Files {
    if e in tree then tree[e] else map[]
  }

  /** An edition and what the mirror answers when its turn comes. */
  datatype Visit = Visit(edition: string, replies: Replies)

  datatype Progress = Progress(tree: Tree, budget: nat, failed: bool)

  function Step(p: Progress, d: Digests, v: Visit): Progress {
    var files := FilesOf(p.tree, v.edition);
    var size := |Commands(files, d, v.replies)|;
    Progress(p.tree[v.edition := Attempted(files, d, v.replies, p.budget)],
             if p.budget > size then p.budget - size else 0,
             p.failed || OutcomeOf(files, d, v.replies) == Failed)
  }

  function Cycle(p: Progress, d: Digests, visits: seq<Visit>): Progress
    decreases |visits|
  {
    if visits == [] then p else Step(Cycle(p, d, visits[..|visits| - 1]), d, visits[|visits| - 1])
  }

  lemma OneMoreVisit(p: Progress, d: Digests, visits: seq<Visit>, i: nat)
    requires i < |visits|
    ensures Cycle(p, d, visits[..i + 1]) == Step(Cycle(p, d, visits[..i]), d, visits[i])
  {
    assert visits[..i + 1][..i] == visits[..i];
  }

  /** All editions' files, and the operations left before the machine stops. */
  class Store {
    var tree: Tree
    var budget: nat

    constructor (tree: Tree, budget: nat)
      ensures this.tree == tree && this.budget == budget
    {
      this.tree, this.budget := tree, budget;
    }

    /** A failed edition is remembered and the next one visited all the same. */
    method RunSync(d: Digests, visits: seq<Visit>) returns (failed: bool)
      modifies this
      ensures Progress(tree, budget, failed) == Cycle(Progress(old(tree), old(budget), false), d, visits)
    {
      failed := false;
      ghost var start := Progress(tree, budget, false);
      for i := 0 to |visits|
        invariant Progress(tree, budget, failed) == Cycle(start, d, visits[..i])
      {
        OneMoreVisit(start, d, visits, i);
        var directory := new Directory(if visits[i].edition in tree then tree[visits[i].edition] else map[], budget);
        var outcome := directory.UpdateDatabase(d, visits[i].replies);
        tree := tree[visits[i].edition := directory.files];
        budget := directory.budget;
        if outcome == Failed {
          failed := true;
        }
      }
      assert visits[..|visits|] == visits;
    }
  }

  /** The attempts a cycle makes on one edition. */
  function AttemptsOn(e: string, p: Progress, d: Digests, visits: seq<Visit>): seq<Attempt>
    decreases |visits|
  {
    if visits == [] then []
    else
      var n := |visits| - 1;
      AttemptsOn(e, p, d, visits[..n])
      + (if visits[n].edition == e then [Attempt(visits[n].replies, Cycle(p, d, visits[..n]).budget)] else [])
  }

  /** Seen from one edition, a cycle is a history of attempts on that edition alone: what the
      other editions do never shows in its files.  All that holds of histories holds of cycles. */
  lemma {:induction false} CycleIsHistory(e: string, p: Progress, d: Digests, visits: seq<Visit>)
    ensures FilesOf(Cycle(p, d, visits).tree, e) == After(FilesOf(p.tree, e), d, AttemptsOn(e, p, d, visits))
    decreases |visits|
  {
    if visits != [] {
      var n := |visits| - 1;
      CycleIsHistory(e, p, d, visits[..n]);
      var earlier := AttemptsOn(e, p, d, visits[..n]);
      if visits[n].edition == e {
        var a := Attempt(visits[n].replies, Cycle(p, d, visits[..n]).budget);
        assert (earlier + [a])[..|earlier|] == earlier;
      } else {
        assert earlier + [] == earlier;
      }
    }
  }

  /** The completion marker over cycles: after any number of operations of any cycle, every
      edition that was consistent still is. */
  lemma CycleKeepsMarkers(e: string, p: Progress, d: Digests, visits: seq<Visit>)
    requires Consistent(FilesOf(p.tree, e), d)
    ensures Consistent(FilesOf(Cycle(p, d, visits).tree, e), d)
  {
    CycleIsHistory(e, p, d, visits);
    MarkerImpliesComplete(FilesOf(p.tree, e), d, AttemptsOn(e, p, d, visits));
  }

  predicate FailsAt(p: Progress, d: Digests, visits: seq<Visit>, i: nat)
    requires i < |visits|
  {
    OutcomeOf(FilesOf(Cycle(p, d, visits[..i]).tree, visits[i].edition), d, visits[i].replies) == Failed
  }

  /** The exit status remembers a failure of any edition, not only of the last one. */
  lemma {:induction false} FailureIsRemembered(p: Progress, d: Digests, visits: seq<Visit>, i: nat)
    requires i < |visits| && FailsAt(p, d, visits, i)
    ensures Cycle(p, d, visits).failed
    decreases |visits|
  {
    LastVisitStatus(p, d, visits);
    if i < |visits| - 1 {
      EarlierVisit(p, d, visits, i);
      FailureIsRemembered(p, d, visits[..|visits| - 1], i);
    }
  }

  /** And it reports nothing else. */
  lemma {:induction false} ReportedFailureHappened(p: Progress, d: Digests, visits: seq<Visit>) returns (i: nat)
    requires !p.failed && Cycle(p, d, visits).failed
    ensures i < |visits| && FailsAt(p, d, visits, i)
    decreases |visits|
  {
    LastVisitStatus(p, d, visits);
    i := |visits| - 1;
    if Cycle(p, d, visits[..i]).failed {
      i := ReportedFailureHappened(p, d, visits[..|visits| - 1]);
      EarlierVisit(p, d, visits, i);
    }
  }

  lemma LastVisitStatus(p: Progress, d: Digests, visits: seq<Visit>)
    requires visits != []
    ensures Cycle(p, d, visits).failed <==>
              Cycle(p, d, visits[..|visits| - 1]).failed || FailsAt(p, d, visits, |visits| - 1)
  {
  }

  lemma EarlierVisit(p: Progress, d: Digests, visits: seq<Visit>, i: nat)
    requires i < |visits| - 1
    ensures FailsAt(p, d, visits[..|visits| - 1], i) <==> FailsAt(p, d, visits, i)
  {
    assert visits[..|visits| - 1][..i] == visits[..i];
  }
}
