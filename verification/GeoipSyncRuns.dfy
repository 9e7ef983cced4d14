/** Whole histories of `update_database` (geoip-sync/geoip-sync.sh): any number of attempts,
    each against different answers of the mirror and each possibly cut short by a crash. */
module GeoipSyncRuns {
  import opened Text
  import opened GeoipSync
  import opened Checksums

  // ----- what single pieces of an attempt leave -----

  lemma {:induction false} AppendsLeave(files: Files, k: Kind, pieces: seq<string>)
    requires k in files
    ensures ExecAll(files, Appends(k, pieces)) == files[k := files[k] + Joined(pieces)]
    decreases |pieces|
  {
    if pieces == [] {
      assert Appends(k, pieces) == [];
      assert files[k] + Joined(pieces) == files[k];
    } else {
      var next := files[k := files[k] + pieces[0]];
      assert Appends(k, pieces)[1..] == Appends(k, pieces[1..]);
      AppendsLeave(next, k, pieces[1..]);
      assert files[k] + pieces[0] + Joined(pieces[1..]) == files[k] + Joined(pieces);
      assert next[k := files[k] + Joined(pieces)] == files[k := files[k] + Joined(pieces)];
    }
  }

  /** A download leaves what arrived, whatever the file held before and however the bytes
      were cut into pieces. */
  lemma FetchLeaves(files: Files, k: Kind, dl: Download)
    ensures ExecAll(files, Fetch(k, dl)) == files[k := Joined(dl.pieces)]
  {
    var created := files[k := ""];
    assert Fetch(k, dl)[0] == Create(k) && Fetch(k, dl)[1..] == Appends(k, dl.pieces);
    AppendsLeave(created, k, dl.pieces);
    assert "" + Joined(dl.pieces) == Joined(dl.pieces);
    assert created[k := Joined(dl.pieces)] == files[k := Joined(dl.pieces)];
  }

  lemma {:induction false} RemoveAllLeaves(files: Files, kinds: seq<Kind>)
    ensures ExecAll(files, RemoveAll(kinds)) == files - (set k | k in kinds)
    decreases |kinds|
  {
    if kinds == [] {
      assert RemoveAll(kinds) == [];
    } else {
      assert RemoveAll(kinds)[1..] == RemoveAll(kinds[1..]);
      RemoveAllLeaves(files - {kinds[0]}, kinds[1..]);
      assert (set k | k in kinds) == {kinds[0]} + (set k | k in kinds[1..]);
    }
  }

  // ----- the preparation of an attempt -----

  lemma DownloadingTouchesOnlyTemporaries(d: Digests, r: Replies, expected: string)
    ensures OnlyTemporaries(Downloading(d, r, expected))
  {
    FetchTouchesOnlyTemporaries(TmpDb, r.db);
    FetchTouchesOnlyTemporaries(TmpMd5, r.md5);
    FetchTouchesOnlyTemporaries(TmpMeta, r.meta);
    OnlyTemporariesConcat([Create(Headers)], Fetch(TmpDb, r.db));
    var c2 := [Create(Headers)] + Fetch(TmpDb, r.db);
    OnlyTemporariesConcat(c2, RemoveAll([TmpDb, TmpSha, Headers]));
    OnlyTemporariesConcat(c2, Fetch(TmpMd5, r.md5));
    var c3 := c2 + Fetch(TmpMd5, r.md5);
    OnlyTemporariesConcat(c3, RemoveAll([TmpDb, TmpMd5, TmpSha, Headers]));
    OnlyTemporariesConcat(c3, Fetch(TmpMeta, r.meta));
    var c4 := c3 + Fetch(TmpMeta, r.meta);
    OnlyTemporariesConcat(c4, RemoveAll([TmpDb, TmpMd5, TmpSha, TmpMeta, Headers]));
    OnlyTemporariesConcat(c4, RemoveAll([Headers]));
  }

  lemma PreparationTouchesOnlyTemporaries(files: Files, d: Digests, r: Replies)
    ensures OnlyTemporaries(Preparation(files, d, r))
  {
    FetchTouchesOnlyTemporaries(TmpSha, r.sha);
    OnlyTemporariesConcat(RemoveAll(TEMPORARIES), Fetch(TmpSha, r.sha));
    OnlyTemporariesConcat(Checking(r), RemoveAll([TmpSha]));
    if Expected(r).Some? {
      DownloadingTouchesOnlyTemporaries(d, r, Expected(r).value);
      OnlyTemporariesConcat(Checking(r), Downloading(d, r, Expected(r).value));
    }
  }

  /** Cut anywhere, the preparation leaves the four installed files alone. */
  lemma PreparationKeepsInstalled(files: Files, d: Digests, r: Replies, n: nat, k: Kind)
    requires !IsTemporary(k)
    ensures Content(ExecAll(files, Cut(Preparation(files, d, r), n)), k) == Content(files, k)
  {
    PreparationTouchesOnlyTemporaries(files, d, r);
    CutKeepsOnlyTemporaries(Preparation(files, d, r), n);
    KeepsInstalled(files, Cut(Preparation(files, d, r), n));
  }

  lemma CheckingLeaves(files: Files, r: Replies)
    ensures ExecAll(files, Checking(r))
         == (files - {TmpDb, TmpMd5, TmpSha, TmpMeta, Headers})[TmpSha := Joined(r.sha.pieces)]
  {
    ExecConcat(files, RemoveAll(TEMPORARIES), Fetch(TmpSha, r.sha));
    RemoveAllLeaves(files, TEMPORARIES);
    assert (set k | k in TEMPORARIES) == {TmpDb, TmpMd5, TmpSha, TmpMeta, Headers};
    FetchLeaves(files - {TmpDb, TmpMd5, TmpSha, TmpMeta, Headers}, TmpSha, r.sha);
  }

  lemma DbFetched(files: Files, r: Replies)
    ensures ExecAll(files, [Create(Headers)] + Fetch(TmpDb, r.db)) == files[Headers := ""][TmpDb := Joined(r.db.pieces)]
  {
    ExecConcat(files, [Create(Headers)], Fetch(TmpDb, r.db));
    assert ExecAll(files, [Create(Headers)]) == files[Headers := ""];
    FetchLeaves(files[Headers := ""], TmpDb, r.db);
  }

  lemma Md5Fetched(files: Files, r: Replies)
    ensures ExecAll(files, [Create(Headers)] + Fetch(TmpDb, r.db) + Fetch(TmpMd5, r.md5))
         == files[Headers := ""][TmpDb := Joined(r.db.pieces)][TmpMd5 := Joined(r.md5.pieces)]
  {
    DbFetched(files, r);
    ExecConcat(files, [Create(Headers)] + Fetch(TmpDb, r.db), Fetch(TmpMd5, r.md5));
    FetchLeaves(files[Headers := ""][TmpDb := Joined(r.db.pieces)], TmpMd5, r.md5);
  }

  lemma MetaFetched(files: Files, r: Replies)
    ensures ExecAll(files, [Create(Headers)] + Fetch(TmpDb, r.db) + Fetch(TmpMd5, r.md5) + Fetch(TmpMeta, r.meta))
         == files[Headers := ""][TmpDb := Joined(r.db.pieces)][TmpMd5 := Joined(r.md5.pieces)]
                 [TmpMeta := Joined(r.meta.pieces)]
  {
    Md5Fetched(files, r);
    ExecConcat(files, [Create(Headers)] + Fetch(TmpDb, r.db) + Fetch(TmpMd5, r.md5), Fetch(TmpMeta, r.meta));
    FetchLeaves(files[Headers := ""][TmpDb := Joined(r.db.pieces)][TmpMd5 := Joined(r.md5.pieces)], TmpMeta, r.meta);
  }

  lemma ThenRemoved(files: Files, cmds: seq<Cmd>, kinds: seq<Kind>)
    ensures ExecAll(files, cmds + RemoveAll(kinds)) == ExecAll(files, cmds) - (set k | k in kinds)
  {
    ExecConcat(files, cmds, RemoveAll(kinds));
    RemoveAllLeaves(ExecAll(files, cmds), kinds);
  }

  /** The temporary files when everything verified, just before the first rename. */
  predicate Staged(files: Files, r: Replies) {
    && Content(files, TmpDb) == Some(Joined(r.db.pieces))
    && Content(files, TmpMd5) == Some(Joined(r.md5.pieces))
    && Content(files, TmpMeta) == Some(Joined(r.meta.pieces))
    && Content(files, TmpSha) == Some(Joined(r.sha.pieces))
    && Headers !in files
  }

  predicate NoTemporaries(files: Files) {
    && TmpDb !in files && TmpMd5 !in files && TmpSha !in files && TmpMeta !in files && Headers !in files
  }

  lemma DbRejected(files: Files, r: Replies)
    requires TmpMd5 !in files && TmpMeta !in files
    ensures NoTemporaries(ExecAll(files, [Create(Headers)] + Fetch(TmpDb, r.db) + RemoveAll([TmpDb, TmpSha, Headers])))
  {
    DbFetched(files, r);
    ThenRemoved(files, [Create(Headers)] + Fetch(TmpDb, r.db), [TmpDb, TmpSha, Headers]);
  }

  lemma Md5Rejected(files: Files, r: Replies)
    requires TmpMeta !in files
    ensures NoTemporaries(ExecAll(files, [Create(Headers)] + Fetch(TmpDb, r.db) + Fetch(TmpMd5, r.md5)
                                         + RemoveAll([TmpDb, TmpMd5, TmpSha, Headers])))
  {
    Md5Fetched(files, r);
    ThenRemoved(files, [Create(Headers)] + Fetch(TmpDb, r.db) + Fetch(TmpMd5, r.md5), [TmpDb, TmpMd5, TmpSha, Headers]);
  }

  lemma MetaRejected(files: Files, r: Replies)
    ensures NoTemporaries(ExecAll(files, [Create(Headers)] + Fetch(TmpDb, r.db) + Fetch(TmpMd5, r.md5)
                                         + Fetch(TmpMeta, r.meta)
                                         + RemoveAll([TmpDb, TmpMd5, TmpSha, TmpMeta, Headers])))
  {
    MetaFetched(files, r);
    ThenRemoved(files, [Create(Headers)] + Fetch(TmpDb, r.db) + Fetch(TmpMd5, r.md5) + Fetch(TmpMeta, r.meta),
                [TmpDb, TmpMd5, TmpSha, TmpMeta, Headers]);
  }

  lemma AllAccepted(files: Files, r: Replies)
    requires Content(files, TmpSha) == Some(Joined(r.sha.pieces))
    ensures Staged(ExecAll(files, [Create(Headers)] + Fetch(TmpDb, r.db) + Fetch(TmpMd5, r.md5)
                                  + Fetch(TmpMeta, r.meta) + RemoveAll([Headers])), r)
  {
    MetaFetched(files, r);
    ThenRemoved(files, [Create(Headers)] + Fetch(TmpDb, r.db) + Fetch(TmpMd5, r.md5) + Fetch(TmpMeta, r.meta),
                [Headers]);
  }

  lemma DownloadingLeaves(files: Files, d: Digests, r: Replies, expected: string)
    requires Content(files, TmpSha) == Some(Joined(r.sha.pieces))
    requires TmpDb !in files && TmpMd5 !in files && TmpMeta !in files
    ensures var after := ExecAll(files, Downloading(d, r, expected));
            if Verifies(d, r, expected) then Staged(after, r) else NoTemporaries(after)
  {
    if !DbVerifies(d, r, expected) {
      DbRejected(files, r);
    } else if !Md5Verifies(d, r) {
      Md5Rejected(files, r);
    } else if !r.meta.ok || !r.stamped {
      MetaRejected(files, r);
    } else {
      AllAccepted(files, r);
    }
  }

  lemma PreparationLeaves(files: Files, d: Digests, r: Replies)
    ensures var after := ExecAll(files, Preparation(files, d, r));
            if OutcomeOf(files, d, r) == Updated then Staged(after, r) else NoTemporaries(after)
  {
    CheckingLeaves(files, r);
    if Expected(r).None? || SaysCurrent(files, Expected(r).value) {
      ThenRemoved(files, Checking(r), [TmpSha]);
    } else {
      ExecConcat(files, Checking(r), Downloading(d, r, Expected(r).value));
      DownloadingLeaves(ExecAll(files, Checking(r)), d, r, Expected(r).value);
    }
  }

  // ----- the effect of one attempt -----

  /** How many of the four renames an attempt gets through. */
  function Renames(files: Files, d: Digests, r: Replies, budget: nat): (n: nat)
    ensures n <= 4
  {
    var left := Left(Preparation(files, d, r), budget);
    if OutcomeOf(files, d, r) != Updated then 0 else if left < 4 then left else 4
  }

  /** The installed files change by the first n renames: database, MD5 sidecar, metadata,
      and the SHA-256 sidecar last. */
  predicate Installed(before: Files, after: Files, r: Replies, n: nat) {
    && Content(after, Db) == (if n >= 1 then Some(Joined(r.db.pieces)) else Content(before, Db))
    && Content(after, Md5) == (if n >= 2 then Some(Joined(r.md5.pieces)) else Content(before, Md5))
    && Content(after, Meta) == (if n >= 3 then Some(Joined(r.meta.pieces)) else Content(before, Meta))
    && Content(after, Sha) == (if n >= 4 then Some(Joined(r.sha.pieces)) else Content(before, Sha))
  }

  predicate StillStaged(files: Files, r: Replies, n: nat) {
    && Content(files, TmpDb) == (if n >= 1 then None else Some(Joined(r.db.pieces)))
    && Content(files, TmpMd5) == (if n >= 2 then None else Some(Joined(r.md5.pieces)))
    && Content(files, TmpMeta) == (if n >= 3 then None else Some(Joined(r.meta.pieces)))
    && Content(files, TmpSha) == (if n >= 4 then None else Some(Joined(r.sha.pieces)))
    && Headers !in files
  }

  lemma {:induction false} RenamingMoves(files: Files, r: Replies, n: nat)
    requires Staged(files, r) && n <= 4
    ensures var after := ExecAll(files, RENAMES[..n]);
            Installed(files, after, r, n) && StillStaged(after, r, n)
  {
    if n > 0 {
      RenamingMoves(files, r, n - 1);
      assert RENAMES[..n] == RENAMES[..n - 1] + [RENAMES[n - 1]];
      ExecConcat(files, RENAMES[..n - 1], [RENAMES[n - 1]]);
      var middle := ExecAll(files, RENAMES[..n - 1]);
      assert ExecAll(middle, [RENAMES[n - 1]]) == Exec(middle, RENAMES[n - 1]);
      NextRename(files, middle, r, n - 1);
    }
  }

  lemma NextRename(before: Files, files: Files, r: Replies, n: nat)
    requires n < 4 && Installed(before, files, r, n) && StillStaged(files, r, n)
    ensures Installed(before, Exec(files, RENAMES[n]), r, n + 1) && StillStaged(Exec(files, RENAMES[n]), r, n + 1)
  {
  }

  // Renames behind any operations that stage the files.
  lemma RenamesBehind(files: Files, prep: seq<Cmd>, r: Replies, budget: nat)
    requires forall k :: !IsTemporary(k) ==> Content(ExecAll(files, Cut(prep, budget)), k) == Content(files, k)
    requires Staged(ExecAll(files, prep), r)
    ensures var left := Left(prep, budget);
            Installed(files, ExecAll(files, Cut(prep + RENAMES, budget)), r, if left < 4 then left else 4)
  {
    var left := Left(prep, budget);
    CutConcat(files, prep, RENAMES, budget);
    if left == 0 {
      assert Cut(RENAMES, left) == [];
    } else {
      var n := if left < 4 then left else 4;
      assert Cut(RENAMES, left) == RENAMES[..n];
      RenamingMoves(ExecAll(files, prep), r, n);
    }
  }

  /** Whatever the crash point, an attempt changes the installed files exactly by its
      first n renames, and each of them installs all that was downloaded for it. */
  lemma AttemptEffect(files: Files, d: Digests, r: Replies, budget: nat)
    ensures var after := Attempted(files, d, r, budget);
            Installed(files, after, r, Renames(files, d, r, budget))
  {
    var prep := Preparation(files, d, r);
    forall k | !IsTemporary(k) ensures Content(ExecAll(files, Cut(prep, budget)), k) == Content(files, k) {
      PreparationKeepsInstalled(files, d, r, budget, k);
    }
    if OutcomeOf(files, d, r) == Updated {
      PreparationLeaves(files, d, r);
      RenamesBehind(files, prep, r, budget);
    } else {
      NothingElse(prep);
    }
  }

  /** An attempt that runs to its end leaves no temporary file behind, on every path and
      whatever an earlier crash had left; and unless it updates, it changes nothing else. */
  lemma UninterruptedAttemptCleansUp(files: Files, d: Digests, r: Replies, budget: nat)
    requires budget >= |Commands(files, d, r)|
    ensures NoTemporaries(Attempted(files, d, r, budget))
    ensures OutcomeOf(files, d, r) != Updated ==>
              Attempted(files, d, r, budget) == files - {TmpDb, TmpMd5, TmpSha, TmpMeta, Headers}
  {
    var prep := Preparation(files, d, r);
    PreparationLeaves(files, d, r);
    if OutcomeOf(files, d, r) == Updated {
      ExecConcat(files, prep, RENAMES);
      assert RENAMES[..4] == RENAMES;
      RenamingMoves(ExecAll(files, prep), r, 4);
    } else {
      NothingElse(prep);
      var after := Attempted(files, d, r, budget);
      forall k | !IsTemporary(k) ensures Content(after, k) == Content(files, k) {
        PreparationKeepsInstalled(files, d, r, |prep|, k);
      }
      SameFiles(after, files - {TmpDb, TmpMd5, TmpSha, TmpMeta, Headers});
    }
  }

  lemma SameFiles(a: Files, b: Files)
    requires forall k :: Content(a, k) == Content(b, k)
    ensures a == b
  {
    forall k ensures k in a <==> k in b {
      assert Content(a, k) == Content(b, k);
    }
    forall k | k in a ensures a[k] == b[k] {
      assert Content(a, k) == Content(b, k);
    }
  }

  // ----- histories -----

  /** One attempt and the number of operations the machine survives during it. */
  datatype Attempt = Attempt(replies: Replies, budget: nat)

  function After(files: Files, d: Digests, attempts: seq<Attempt>): Files {
    if attempts == [] then files
    else
      var last := attempts[|attempts| - 1];
      Attempted(After(files, d, attempts[..|attempts| - 1]), d, last.replies, last.budget)
  }

  /** The sidecar records the digest of the installed database. */
  predicate ShaMatches(files: Files, d: Digests) {
    Db in files && Sha in files && Recorded(files[Sha]) == LowerHex(d.sha(files[Db]))
  }

  predicate Md5Matches(files: Files, d: Digests) {
    Db in files && Md5 in files && Recorded(files[Md5]) == LowerHex(d.md5(files[Db]))
  }

  /** A directory the script may be started on: a SHA-256 sidecar stands beside a database,
      and a matching one beside a matching MD5 sidecar. */
  predicate Consistent(files: Files, d: Digests) {
    && (Sha in files ==> Db in files)
    && (ShaMatches(files, d) ==> Md5Matches(files, d))
  }

  // The bytes of the whole verified reply.
  predicate VerifiedBytes(d: Digests, r: Replies, content: string) {
    && Expected(r).Some? && Verifies(d, r, Expected(r).value)
    && content == Joined(r.db.pieces)
    && LowerHex(d.sha(content)) == Expected(r).value
    && LowerHex(d.md5(content)) == Recorded(Joined(r.md5.pieces))
  }

  /** At every moment of every history, the installed database is the one found at the start
      or the whole of one that verified against both checksums fetched with it. */
  lemma {:induction false} InstalledIsOriginalOrVerified(files: Files, d: Digests, attempts: seq<Attempt>)
    ensures var after := After(files, d, attempts);
            || Content(after, Db) == Content(files, Db)
            || (Db in after && exists i :: 0 <= i < |attempts| && VerifiedBytes(d, attempts[i].replies, after[Db]))
    decreases |attempts|
  {
    if attempts != [] {
      var n := |attempts| - 1;
      var before := After(files, d, attempts[..n]);
      var a := attempts[n];
      InstalledIsOriginalOrVerified(files, d, attempts[..n]);
      AttemptEffect(before, d, a.replies, a.budget);
      var after := After(files, d, attempts);
      if Renames(before, d, a.replies, a.budget) >= 1 {
        assert VerifiedBytes(d, attempts[n].replies, after[Db]);
      } else if Content(before, Db) != Content(files, Db) {
        assert after[Db] == before[Db];
        var i :| 0 <= i < n && VerifiedBytes(d, attempts[..n][i].replies, before[Db]);
        assert VerifiedBytes(d, attempts[i].replies, after[Db]);
      }
    }
  }

  lemma AttemptKeepsConsistent(files: Files, d: Digests, r: Replies, budget: nat)
    requires Consistent(files, d)
    ensures Consistent(Attempted(files, d, r, budget), d)
  {
    AttemptEffect(files, d, r, budget);
    InstalledPresence(files, Attempted(files, d, r, budget), r, Renames(files, d, r, budget));
  }

  // Content equations as membership and values.
  lemma InstalledPresence(before: Files, after: Files, r: Replies, n: nat)
    requires Installed(before, after, r, n)
    ensures if n >= 1 then Db in after && after[Db] == Joined(r.db.pieces)
            else (Db in after <==> Db in before) && (Db in after ==> after[Db] == before[Db])
    ensures if n >= 2 then Md5 in after && after[Md5] == Joined(r.md5.pieces)
            else (Md5 in after <==> Md5 in before) && (Md5 in after ==> after[Md5] == before[Md5])
    ensures if n >= 4 then Sha in after && after[Sha] == Joined(r.sha.pieces)
            else (Sha in after <==> Sha in before) && (Sha in after ==> after[Sha] == before[Sha])
  {
  }

  /** The completion marker: however the mirror changed and wherever crashes fell, a SHA-256
      sidecar that matches the database stands beside an MD5 sidecar that matches it. */
  lemma {:induction false} MarkerImpliesComplete(files: Files, d: Digests, attempts: seq<Attempt>)
    requires Consistent(files, d)
    ensures Consistent(After(files, d, attempts), d)
    decreases |attempts|
  {
    if attempts != [] {
      var n := |attempts| - 1;
      MarkerImpliesComplete(files, d, attempts[..n]);
      AttemptKeepsConsistent(After(files, d, attempts[..n]), d, attempts[n].replies, attempts[n].budget);
    }
  }

  // ----- the "is current" verdict -----

  /** The last attempt to rename anything stopped before its last rename. */
  predicate Torn(files: Files, d: Digests, attempts: seq<Attempt>)
    decreases |attempts|
  {
    attempts != [] &&
      var n := |attempts| - 1;
      var renames := Renames(After(files, d, attempts[..n]), d, attempts[n].replies, attempts[n].budget);
      if renames == 0 then Torn(files, d, attempts[..n]) else renames < 4
  }

  /** A start whose sidecar, if any, matches. */
  predicate Clean(files: Files, d: Digests) {
    Sha in files ==> ShaMatches(files, d)
  }

  lemma {:induction false} MarkerPresence(files: Files, d: Digests, attempts: seq<Attempt>)
    requires Sha in files ==> Db in files
    ensures Sha in After(files, d, attempts) ==> Db in After(files, d, attempts)
    decreases |attempts|
  {
    if attempts != [] {
      var n := |attempts| - 1;
      var before := After(files, d, attempts[..n]);
      MarkerPresence(files, d, attempts[..n]);
      AttemptEffect(before, d, attempts[n].replies, attempts[n].budget);
      InstalledPresence(before, After(files, d, attempts), attempts[n].replies,
                        Renames(before, d, attempts[n].replies, attempts[n].budget));
    }
  }

  /** A present SHA-256 sidecar matches the installed database exactly when no install was
      left half-renamed. */
  lemma {:induction false} MarkerMatchesExactlyUnlessTorn(files: Files, d: Digests, attempts: seq<Attempt>)
    requires Clean(files, d)
    requires Sha in After(files, d, attempts)
    ensures ShaMatches(After(files, d, attempts), d) <==> !Torn(files, d, attempts)
    decreases |attempts|
  {
    if attempts != [] {
      var n := |attempts| - 1;
      var before := After(files, d, attempts[..n]);
      var r, budget := attempts[n].replies, attempts[n].budget;
      MarkerPresence(files, d, attempts[..n]);
      AttemptEffect(before, d, r, budget);
      InstalledPresence(before, After(files, d, attempts), r, Renames(before, d, r, budget));
      if Sha in before {
        MarkerMatchesExactlyUnlessTorn(files, d, attempts[..n]);
      }
    }
  }

  /** When the script says "is current", it is right - the installed database has the
      checksum the mirror just published - exactly unless an install was left half-renamed. */
  lemma CurrentIsRightExactlyUnlessTorn(files: Files, d: Digests, attempts: seq<Attempt>, r: Replies)
    requires Clean(files, d)
    requires OutcomeOf(After(files, d, attempts), d, r) == Current
    ensures LowerHex(d.sha(After(files, d, attempts)[Db])) == Expected(r).value <==> !Torn(files, d, attempts)
  {
    MarkerMatchesExactlyUnlessTorn(files, d, attempts);
  }

  /** The checksums published so far as this directory has seen them: what the sidecar
      recorded at the start, then every valid one an attempt fetched. */
  function Published(files: Files, attempts: seq<Attempt>): seq<string>
    decreases |attempts|
  {
    if attempts == [] then (if Sha in files then [Recorded(files[Sha])] else [])
    else
      var last := Expected(attempts[|attempts| - 1].replies);
      Published(files, attempts[..|attempts| - 1]) + (if last.Some? then [last.value] else [])
  }

  /** Once the published checksum has changed, an earlier value never comes back. */
  predicate NeverReturns(published: seq<string>) {
    forall i, j, k :: 0 <= i < j < k < |published| && published[i] == published[k] ==> published[j] == published[k]
  }

  /** The sidecar's version is at most the database's, which is at most the latest fetched. */
  predicate Ordered(files: Files, d: Digests, published: seq<string>, marker: nat, database: nat) {
    && marker <= database < |published|
    && Db in files && Sha in files
    && Recorded(files[Sha]) == published[marker]
    && LowerHex(d.sha(files[Db])) == published[database]
  }

  lemma {:induction false} VersionsAreOrdered(files: Files, d: Digests, attempts: seq<Attempt>)
    returns (marker: nat, database: nat)
    requires Clean(files, d)
    requires Sha in After(files, d, attempts)
    ensures Ordered(After(files, d, attempts), d, Published(files, attempts), marker, database)
    decreases |attempts|
  {
    if attempts == [] {
      marker, database := 0, 0;
    } else {
      var n := |attempts| - 1;
      var before := After(files, d, attempts[..n]);
      var r, budget := attempts[n].replies, attempts[n].budget;
      var renames := Renames(before, d, r, budget);
      var earlier := Published(files, attempts[..n]);
      AttemptEffect(before, d, r, budget);
      InstalledPresence(before, After(files, d, attempts), r, renames);
      if renames == 4 {
        marker, database := |earlier|, |earlier|;
      } else {
        marker, database := VersionsAreOrdered(files, d, attempts[..n]);
        if renames > 0 {
          database := |earlier|;
        }
      }
    }
  }

  /** If the mirror's checksum never returns to an earlier value, the verdict "is current" is
      right in every history, with crashes between any two operations. */
  lemma CurrentIsRightIfMirrorNeverReturns(files: Files, d: Digests, attempts: seq<Attempt>, r: Replies)
    requires Clean(files, d)
    requires Expected(r).Some? && NeverReturns(Published(files, attempts) + [Expected(r).value])
    requires OutcomeOf(After(files, d, attempts), d, r) == Current
    ensures LowerHex(d.sha(After(files, d, attempts)[Db])) == Expected(r).value
  {
    var marker, database := VersionsAreOrdered(files, d, attempts);
    ReturnsNowhere(Published(files, attempts), Expected(r).value, marker, database);
  }

  lemma ReturnsNowhere(published: seq<string>, next: string, i: nat, j: nat)
    requires NeverReturns(published + [next]) && i <= j < |published| && published[i] == next
    ensures published[j] == next
  {
    var all := published + [next];
    assert all[i] == all[|published|];
    if i < j {
      assert all[j] == all[|published|];
    }
  }

  /** With such a mirror a half-renamed install is therefore always done again. */
  lemma TornInstallIsRedone(files: Files, d: Digests, attempts: seq<Attempt>, r: Replies)
    requires Clean(files, d)
    requires Expected(r).Some? && NeverReturns(Published(files, attempts) + [Expected(r).value])
    requires Torn(files, d, attempts) && Verifies(d, r, Expected(r).value)
    ensures OutcomeOf(After(files, d, attempts), d, r) == Updated
  {
    if OutcomeOf(After(files, d, attempts), d, r) == Current {
      CurrentIsRightIfMirrorNeverReturns(files, d, attempts, r);
      CurrentIsRightExactlyUnlessTorn(files, d, attempts, r);
    }
  }

  /** An uninterrupted attempt whose downloads verify leaves the directory complete: the four
      files of one moment of the mirror, both sidecars matching, from any starting directory. */
  lemma UninterruptedUpdateCompletes(files: Files, d: Digests, r: Replies, budget: nat)
    requires budget >= |Commands(files, d, r)| && OutcomeOf(files, d, r) == Updated
    ensures var after := Attempted(files, d, r, budget);
            && Installed(files, after, r, 4)
            && ShaMatches(after, d) && Md5Matches(after, d)
            && SaysCurrent(after, Expected(r).value)
  {
    AttemptEffect(files, d, r, budget);
    InstalledPresence(files, Attempted(files, d, r, budget), r, 4);
  }

  // ----- when the verdict is wrong -----

  /** The failing family: an install stopped among its renames, and the mirror back at the
      checksum the sidecar still records.  The script says "is current" over a database that
      is not the published one. */
  lemma RevertedMirrorIsMisjudged(files: Files, d: Digests, torn: Attempt, r: Replies)
    requires ShaMatches(files, d)
    requires 0 < Renames(files, d, torn.replies, torn.budget) < 4
    requires Expected(r) == Some(Recorded(files[Sha]))
    ensures var after := After(files, d, [torn]);
            && OutcomeOf(after, d, r) == Current
            && LowerHex(d.sha(after[Db])) != Expected(r).value
  {
    assert [torn][..0] == [];
    assert After(files, d, [torn]) == Attempted(files, d, torn.replies, torn.budget);
    AttemptEffect(files, d, torn.replies, torn.budget);
    InstalledPresence(files, After(files, d, [torn]), torn.replies, Renames(files, d, torn.replies, torn.budget));
  }

  // A file that holds this text, sent at once.
  function Sent(text: string): Download {
    Download([text], true)
  }

  lemma SentJoins(text: string)
    ensures Joined(Sent(text).pieces) == text
  {
    assert Sent(text).pieces[1..] == [];
    assert text + "" == text;
  }

  /** A mirror that serves this database with checksum files that fit it, as geoip-update
      publishes them. */
  function Serving(d: Digests, content: string, filename: string): Replies {
    Replies(Sent(ChecksumLine(d.sha(content), filename)), Sent(content),
            Sent(ChecksumLine(d.md5(content), filename)), Sent(""), true)
  }

  lemma ServingVerifies(d: Digests, content: string, filename: string)
    requires IsHex(d.sha(content), 64) && IsHex(d.md5(content), 32)
    ensures Expected(Serving(d, content, filename)) == Some(LowerHex(d.sha(content)))
    ensures Verifies(d, Serving(d, content, filename), LowerHex(d.sha(content)))
  {
    SentJoins(ChecksumLine(d.sha(content), filename));
    SentJoins(content);
    SentJoins(ChecksumLine(d.md5(content), filename));
    LineNamesDigest(d.sha(content), filename);
    LineNamesDigest(d.md5(content), filename);
  }

  /** The family is met by every directory and every second database: publish the second
      one, stop the machine after its first rename, publish the first one again. */
  lemma EveryDirectoryCanBeMisjudged(files: Files, d: Digests, second: string, filename: string)
    returns (torn: Attempt, r: Replies)
    requires ShaMatches(files, d)
    requires forall s :: IsHex(d.sha(s), 64) && IsHex(d.md5(s), 32)
    requires LowerHex(d.sha(second)) != LowerHex(d.sha(files[Db]))
    ensures OutcomeOf(After(files, d, [torn]), d, r) == Current
    ensures After(files, d, [torn])[Db] == second
    ensures r.db == Sent(files[Db]) && Expected(r) == Some(LowerHex(d.sha(files[Db])))
  {
    var update := Serving(d, second, filename);
    ServingVerifies(d, second, filename);
    ServingVerifies(d, files[Db], filename);
    r := Serving(d, files[Db], filename);
    torn := Attempt(update, |Preparation(files, d, update)| + 1);
    assert OutcomeOf(files, d, update) == Updated;
    RevertedMirrorIsMisjudged(files, d, torn, r);
    assert [torn][..0] == [];
    AttemptEffect(files, d, update, torn.budget);
    InstalledPresence(files, After(files, d, [torn]), update, 1);
    SentJoins(second);
  }
}
