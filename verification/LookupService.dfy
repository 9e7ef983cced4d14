/** The daemon and its databases together: the workers of `Daemon` are readers of
    `GeoIpReload`, and between counting a request and answering it a worker makes the lookup
    its request asks for (src/server.cpp:684-719, src/geoip.cpp:303-366), while other threads
    reload.  What comes out is that every reply is the sequential lookup on one installed
    configuration, and no reply is older than one that was sent before its lookup began.
 */
module LookupService {
  import opened Text
  import opened GeoIp
  import opened Handler
  import opened HttpRequest
  import opened HttpHead
  import opened HttpResponse
  import opened Metrics
  import opened GeoIpTypes
  import opened EndToEnd
  import D = Daemon
  import G = GeoIpReload

  /** A client and the rest of the world: all a reply depends on but the lookup. */
  datatype Peer = Peer(
    isAddress: string -> bool,
    healthJson: string,
    metricsText: string,
    read: ReadResult,
    raw: string)

  function EnvWith(peer: Peer, p: Progress): Env {
    Env(peer.isAddress, _ => p, peer.healthJson, peer.metricsText)
  }

  /** How the connection turns out if its lookup gives `p`. */
  function ServedTo(peer: Peer, p: Progress): Served {
    Serve(EnvWith(peer, p), peer.read, peer.raw)
  }

  function ReplyTo(peer: Peer, p: Progress): string {
    Replies(ScriptOf(ServedTo(peer, p)))
  }

  /** The address the handler looks up, if it comes to that. */
  function Wanted(peer: Peer): Option<string> {
    if peer.read != Ok || Parse(peer.raw).None? then None
    else
      var req := Parse(peer.raw).value;
      if IsGetOrHead(req) && req.path == "/lookup" then AskedAddress(EnvWith(peer, START), req) else None
  }

  lemma VerdictWithoutLookup(peer: Peer, req: Request, p: Progress, q: Progress)
    requires IsGetOrHead(req) && req.path == "/lookup" ==> AskedAddress(EnvWith(peer, START), req).None?
    ensures VerdictOf(EnvWith(peer, p), req) == VerdictOf(EnvWith(peer, q), req)
  {
    BucketMeans(req.path);
  }

  lemma SameVerdictSameReply(a: Env, b: Env, read: ReadResult, raw: string)
    requires read == Ok && Parse(raw).Some? ==> VerdictOf(a, Parse(raw).value) == VerdictOf(b, Parse(raw).value)
    ensures Serve(a, read, raw) == Serve(b, read, raw)
  {
  }

  /** A reply that waits for no lookup does not depend on one. */
  lemma OnlyLookupsWait(peer: Peer, p: Progress, q: Progress)
    requires Wanted(peer).None?
    ensures ServedTo(peer, p) == ServedTo(peer, q)
  {
    if peer.read == Ok && Parse(peer.raw).Some? {
      VerdictWithoutLookup(peer, Parse(peer.raw).value, p, q);
    }
    SameVerdictSameReply(EnvWith(peer, p), EnvWith(peer, q), peer.read, peer.raw);
  }

  // ----- the machine -----

  datatype Stage =
    | NotYet
    | Running
    | Got(k: nat)  // by the k-th lookup that finished

  /** What a worker is busy with: the client, what the lookup is going to give, the address to
      look up, the script and the reply these two make, how far the lookup is, and how many
      replies had been sent when it began. */
  datatype Job = Job(
    peer: Peer,
    foreseen: Progress,
    wanted: Option<string>,
    script: seq<Act>,
    reply: string,
    stage: Stage,
    seen: nat)

  /** The job is what the handler makes of its client and of the lookup. */
  predicate IsTask(job: Job) {
    && job.wanted == Wanted(job.peer) && job.script == ScriptOf(ServedTo(job.peer, job.foreseen))
    && job.reply == Replies(job.script)
  }

  /** A reply sent, and the job it belonged to. */
  datatype Sent = Sent(job: Job, bytes: string)

  datatype State = State(
    d: D.State,
    g: G.State,
    jobs: seq<Option<Job>>,  // by worker
    sent: seq<Sent>)

  /** A step of the daemon, of the databases, or of both.  A worker that takes a connection
      is given the outcome of its lookup in advance, and the step that ends the lookup is
      possible only if that is what it gives. */
  datatype Action =
    | Take(w: nat, conn: Served, job: Job)
    | Handle(a: D.Action)
    | BeginLookup(w: nat)
    | EndLookup(w: nat)
    | Databases(b: G.Action)

  predicate HasJob(s: State, w: nat) {
    w < |s.jobs| && w < |s.d.hands| && s.jobs[w].Some? && s.d.hands[w].todo != []
  }

  /** Behind the request counter a handler goes on only when it has what it asked for. */
  predicate MayAct(s: State, w: nat) {
    HasJob(s, w)
    && (s.d.hands[w].todo[0].Requested? || s.jobs[w].value.wanted.None? || s.jobs[w].value.stage.Got?)
  }

  predicate Possible(s: State, a: Action) {
    s.g.history != []
    && match a
       case Take(w, conn, job) =>
         && w < |s.jobs| && D.Possible(s.d, D.Section(w, conn)) && job.stage.NotYet?
         && job.script == ScriptOf(conn) && job.reply == Replies(job.script)
       case Handle(a) => !a.Section? && D.Possible(s.d, a) && (a.Act? ==> MayAct(s, a.w))
       case BeginLookup(w) =>
         && HasJob(s, w) && !s.d.hands[w].todo[0].Requested?
         && s.jobs[w].value.stage.NotYet? && s.jobs[w].value.wanted.Some?
         && G.Enabled(s.g, G.BeginLookup(w, s.jobs[w].value.wanted.value))
       case EndLookup(w) =>
         && HasJob(s, w) && s.jobs[w].value.stage.Running?
         && G.Enabled(s.g, G.EndLookup(w)) && s.g.readers[w].progress == s.jobs[w].value.foreseen
       case Databases(b) => !b.BeginLookup? && !b.EndLookup? && G.Enabled(s.g, b)
  }

  /** A possible step; a connection taken turns out as the handler makes it turn out. */
  ghost predicate Enabled(s: State, a: Action) {
    Possible(s, a) && (a.Take? ==> IsTask(a.job) && a.conn == ServedTo(a.job.peer, a.job.foreseen))
  }

  function ReplySent(s: State, a: D.Action): seq<Sent>
    requires a.Act? ==> HasJob(s, a.w)
  {
    if a.Act? && s.d.hands[a.w].todo[0].Reply?
    then [Sent(s.jobs[a.w].value, s.d.hands[a.w].todo[0].bytes)]
    else []
  }

  function Apply(catalog: Catalog, s: State, a: Action): State
    requires Possible(s, a)
  {
    match a
    case Take(w, conn, job) =>
      s.(d := D.Apply(s.d, D.Section(w, conn)),
         jobs := if s.d.pool.queue == [] then s.jobs else s.jobs[w := Some(job)])
    case Handle(a) => s.(d := D.Apply(s.d, a), sent := s.sent + ReplySent(s, a))
    case BeginLookup(w) =>
      var job := s.jobs[w].value;
      s.(g := G.Apply(catalog, s.g, G.BeginLookup(w, job.wanted.value)),
         jobs := s.jobs[w := Some(job.(stage := Running, seen := |s.sent|))])
    case EndLookup(w) =>
      var job := s.jobs[w].value;
      s.(g := G.Apply(catalog, s.g, G.EndLookup(w)),
         jobs := s.jobs[w := Some(job.(stage := Got(|s.g.log|)))])
    case Databases(b) => s.(g := G.Apply(catalog, s.g, b))
  }

  /** The workers are the first readers; others make lookups or read metadata, too. */
  function Init(threads: nat, others: nat, writers: nat): State {
    State(D.Init(threads), G.Init(threads + others, writers), seq(threads, _ => None), [])
  }

  ghost predicate Legal(catalog: Catalog, s: State, actions: seq<Action>)
    decreases |actions|
  {
    actions == [] || (Enabled(s, actions[0]) && Legal(catalog, Apply(catalog, s, actions[0]), actions[1..]))
  }

  ghost function After(catalog: Catalog, s: State, actions: seq<Action>): State
    requires Legal(catalog, s, actions)
    decreases |actions|
  {
    if actions == [] then s else After(catalog, Apply(catalog, s, actions[0]), actions[1..])
  }

  // ----- a run of both is a run of each -----

  function DaemonStep(a: Action): Option<D.Action> {
    match a
    case Take(w, conn, _) => Some(D.Section(w, conn))
    case Handle(a) => Some(a)
    case BeginLookup(_) => None
    case EndLookup(_) => None
    case Databases(_) => None
  }

  function ReloadStep(s: State, a: Action): Option<G.Action>
    requires Possible(s, a)
  {
    match a
    case Take(_, _, _) => None
    case Handle(_) => None
    case BeginLookup(w) => Some(G.BeginLookup(w, s.jobs[w].value.wanted.value))
    case EndLookup(w) => Some(G.EndLookup(w))
    case Databases(b) => Some(b)
  }

  lemma TaskTurnsOut(conn: Served, job: Job)
    requires conn == ServedTo(job.peer, job.foreseen)
    ensures CanTurnOut(conn) && IsServed(conn)
  {
    ServedShape(EnvWith(job.peer, job.foreseen), job.peer.read, job.peer.raw);
  }

  /** Every step is a legal step of the daemon or leaves it alone, and the same for the
      databases. */
  lemma StepIsBoth(catalog: Catalog, s: State, a: Action)
    requires Enabled(s, a)
    ensures var t := Apply(catalog, s, a);
            && (match DaemonStep(a)
                case None => t.d == s.d
                case Some(step) => D.Enabled(s.d, step) && t.d == D.Apply(s.d, step))
            && (match ReloadStep(s, a)
                case None => t.g == s.g
                case Some(step) => G.Enabled(s.g, step) && t.g == G.Apply(catalog, s.g, step))
  {
    if a.Take? {
      TaskTurnsOut(a.conn, a.job);
    }
  }

  ghost function DaemonRun(catalog: Catalog, s: State, actions: seq<Action>): seq<D.Action>
    requires Legal(catalog, s, actions)
    decreases |actions|
  {
    if actions == [] then []
    else
      var later := DaemonRun(catalog, Apply(catalog, s, actions[0]), actions[1..]);
      match DaemonStep(actions[0])
      case None => later
      case Some(step) => [step] + later
  }

  ghost function ReloadRun(catalog: Catalog, s: State, actions: seq<Action>): seq<G.Action>
    requires Legal(catalog, s, actions)
    decreases |actions|
  {
    if actions == [] then []
    else
      var later := ReloadRun(catalog, Apply(catalog, s, actions[0]), actions[1..]);
      match ReloadStep(s, actions[0])
      case None => later
      case Some(step) => [step] + later
  }

  lemma {:induction false} RunIsDaemonRun(catalog: Catalog, s: State, actions: seq<Action>)
    requires Legal(catalog, s, actions)
    ensures D.Legal(s.d, DaemonRun(catalog, s, actions))
    ensures D.After(s.d, DaemonRun(catalog, s, actions)) == After(catalog, s, actions).d
    decreases |actions|
  {
    if actions != [] {
      var t := Apply(catalog, s, actions[0]);
      StepIsBoth(catalog, s, actions[0]);
      RunIsDaemonRun(catalog, t, actions[1..]);
      if DaemonStep(actions[0]).Some? {
        var step, later := DaemonStep(actions[0]).value, DaemonRun(catalog, t, actions[1..]);
        assert ([step] + later)[1..] == later;
      }
    }
  }

  lemma {:induction false} RunIsReloadRun(catalog: Catalog, s: State, actions: seq<Action>)
    requires Legal(catalog, s, actions)
    ensures G.Legal(catalog, s.g, ReloadRun(catalog, s, actions))
    ensures G.After(catalog, s.g, ReloadRun(catalog, s, actions)) == After(catalog, s, actions).g
    decreases |actions|
  {
    if actions != [] {
      var t := Apply(catalog, s, actions[0]);
      StepIsBoth(catalog, s, actions[0]);
      RunIsReloadRun(catalog, t, actions[1..]);
      if ReloadStep(s, actions[0]).Some? {
        G.FirstAction(catalog, s.g, ReloadStep(s, actions[0]).value, ReloadRun(catalog, t, actions[1..]));
      }
    }
  }

  // ----- the invariant -----

  /** Requests are counted first, and the one reply comes later. */
  predicate IsScript(script: seq<Act>, reply: string) {
    forall n :: 0 <= n < |script| ==>
      && (script[n].Requested? ==> n == 0)
      && (script[n].Reply? ==> n >= 2 && script[n].bytes == reply)
  }

  /** What is left to do is the end of the job's script, and behind the request counter
      nothing was done without the lookup. */
  predicate TodoOk(todo: seq<Act>, job: Job) {
    && IsScript(job.script, job.reply) && |todo| <= |job.script| && todo == job.script[|job.script| - |todo|..]
    && (|todo| + 2 <= |job.script| ==> job.wanted.None? || job.stage.Got?)
  }

  /** The k-th lookup is the one the job asked for, gave what was foreseen, and began after
      all replies seen were sent. */
  predicate IsLookupOf(g: G.State, sent: seq<Sent>, job: Job, k: nat) {
    && k < |g.log| && job.wanted == Some(g.log[k].addr) && g.log[k].progress == job.foreseen
    && SeenBefore(sent, job.seen, g.log[k].earlier)
  }

  /** The lookups behind the replies seen had finished, `earlier` lookups in all. */
  predicate SeenBefore(sent: seq<Sent>, seen: nat, earlier: nat) {
    seen <= |sent| && forall i :: 0 <= i < seen && sent[i].job.stage.Got? ==> sent[i].job.stage.k < earlier
  }

  predicate StageOk(s: State, w: nat, job: Job) {
    match job.stage
    case NotYet => true
    case Running =>
      && w < |s.g.readers| && s.g.readers[w].Looking? && job.wanted == Some(s.g.readers[w].addr)
      && SeenBefore(s.sent, job.seen, s.g.readers[w].earlier)
    case Got(k) => IsLookupOf(s.g, s.sent, job, k)
  }

  /** What is left to do belongs to a job. */
  predicate TodosInv(s: State) {
    && |s.jobs| == |s.d.hands|
    && (forall w :: 0 <= w < |s.jobs| && s.d.hands[w].todo != [] ==>
          s.jobs[w].Some? && TodoOk(s.d.hands[w].todo, s.jobs[w].value))
  }

  predicate StagesInv(s: State) {
    forall w :: 0 <= w < |s.jobs| && s.jobs[w].Some? ==> StageOk(s, w, s.jobs[w].value)
  }

  predicate SentOk(s: State, r: Sent) {
    && r.bytes == r.job.reply
    && (r.job.wanted.Some? ==> r.job.stage.Got?)
    && (r.job.stage.Got? ==> IsLookupOf(s.g, s.sent, r.job, r.job.stage.k))
  }

  predicate SentInv(s: State) {
    forall i :: 0 <= i < |s.sent| ==> SentOk(s, s.sent[i])
  }

  /** Every job is what the handler makes of its client. */
  predicate TasksInv(s: State) {
    && (forall w :: 0 <= w < |s.jobs| && s.jobs[w].Some? ==> IsTask(s.jobs[w].value))
    && (forall i :: 0 <= i < |s.sent| ==> IsTask(s.sent[i].job))
  }

  predicate Inv(s: State) {
    TodosInv(s) && StagesInv(s) && SentInv(s)
  }

  lemma ActsOfSend(bucket: Bucket, counted: seq<Act>, status: nat, bytes: string, n: nat)
    requires IsOutcome(counted) && n < |counted| + 4
    ensures var acts := [Requested(bucket)] + counted + [Responded(status), Reply(bytes), CloseFd];
            && (acts[n].Requested? ==> n == 0)
            && (acts[n].Reply? ==> n >= 2 && acts[n].bytes == bytes)
  {
  }

  // Where the acts of a script stand.
  lemma ScriptIsScript(conn: Served)
    requires IsServed(conn)
    ensures IsScript(ScriptOf(conn), Replies(ScriptOf(conn)))
  {
    if conn.Served? {
      ScriptMeans(ZERO, conn);
      forall n | 0 <= n < |ScriptOf(conn)|
        ensures ScriptOf(conn)[n].Requested? ==> n == 0
        ensures ScriptOf(conn)[n].Reply? ==> n >= 2 && ScriptOf(conn)[n].bytes == Replies(ScriptOf(conn))
      {
        ActsOfSend(conn.bucket, conn.counted, conn.response.status, Replies(ScriptOf(conn)), n);
      }
    }
  }

  lemma SeenStays(sent: seq<Sent>, more: seq<Sent>, seen: nat, earlier: nat)
    requires SeenBefore(sent, seen, earlier)
    ensures SeenBefore(sent + more, seen, earlier)
  {
  }

  // What a job and a reply rest on is never taken back.
  lemma LookupStays(g: G.State, h: G.State, sent: seq<Sent>, more: seq<Sent>, job: Job, k: nat)
    requires IsLookupOf(g, sent, job, k) && |g.log| <= |h.log| && h.log[..|g.log|] == g.log
    ensures IsLookupOf(h, sent + more, job, k)
  {
    assert h.log[k] == h.log[..|g.log|][k];
    SeenStays(sent, more, job.seen, g.log[k].earlier);
  }

  lemma RepliesStay(s: State, t: State, more: seq<Sent>)
    requires SentInv(s) && t.sent == s.sent + more
    requires |s.g.log| <= |t.g.log| && t.g.log[..|s.g.log|] == s.g.log
    ensures forall i :: 0 <= i < |s.sent| ==> SentOk(t, t.sent[i])
  {
    forall i | 0 <= i < |s.sent| ensures SentOk(t, t.sent[i]) {
      assert SentOk(s, s.sent[i]);
      if s.sent[i].job.stage.Got? {
        LookupStays(s.g, t.g, s.sent, more, s.sent[i].job, s.sent[i].job.stage.k);
      }
    }
  }

  // The stage of a worker whose reader and job stay.
  lemma StageStays(s: State, t: State, w: nat, job: Job, more: seq<Sent>)
    requires StageOk(s, w, job) && t.sent == s.sent + more
    requires |s.g.log| <= |t.g.log| && t.g.log[..|s.g.log|] == s.g.log
    requires job.stage.Running? ==> ReaderStays(s.g, t.g, w)
    ensures StageOk(t, w, job)
  {
    match job.stage {
      case NotYet =>
      case Running => SeenStays(s.sent, more, job.seen, s.g.readers[w].earlier);
      case Got(k) => LookupStays(s.g, t.g, s.sent, more, job, k);
    }
  }

  predicate ReaderStays(g: G.State, h: G.State, w: nat) {
    w < |g.readers| && g.readers[w].Looking? ==>
      && w < |h.readers| && h.readers[w].Looking?
      && h.readers[w].addr == g.readers[w].addr && h.readers[w].earlier == g.readers[w].earlier
  }

  // All jobs but one are left alone.
  lemma OtherStages(s: State, t: State, w: nat, more: seq<Sent>)
    requires StagesInv(s) && t.sent == s.sent + more && |t.jobs| == |s.jobs|
    requires |s.g.log| <= |t.g.log| && t.g.log[..|s.g.log|] == s.g.log
    requires forall v :: 0 <= v < |s.jobs| && v != w ==> t.jobs[v] == s.jobs[v] && ReaderStays(s.g, t.g, v)
    ensures forall v :: 0 <= v < |t.jobs| && v != w && t.jobs[v].Some? ==> StageOk(t, v, t.jobs[v].value)
  {
    forall v | 0 <= v < |t.jobs| && v != w && t.jobs[v].Some? ensures StageOk(t, v, t.jobs[v].value) {
      StageStays(s, t, v, s.jobs[v].value, more);
    }
  }

  // What taking a connection does.
  lemma TakeMoves(catalog: Catalog, s: State, w: nat, conn: Served, job: Job)
    requires Possible(s, Take(w, conn, job))
    ensures var t := Apply(catalog, s, Take(w, conn, job));
            && t.g == s.g && t.sent == s.sent
            && (if s.d.pool.queue == [] then t.d.hands == s.d.hands && t.jobs == s.jobs
                else t.d.hands == s.d.hands[w := D.Hand(s.d.pool.queue[0], job.script)]
                     && t.jobs == s.jobs[w := Some(job)])
  {
  }

  lemma TodosWithOneMore(s: State, t: State, w: nat, fd: int, todo: seq<Act>, job: Job)
    requires TodosInv(s) && w < |s.jobs| && TodoOk(todo, job)
    requires t.d.hands == s.d.hands[w := D.Hand(fd, todo)] && t.jobs == s.jobs[w := Some(job)]
    ensures TodosInv(t)
  {
  }

  lemma NothingTaken(s: State, t: State)
    requires Inv(s) && t.g == s.g && t.sent == s.sent && t.d.hands == s.d.hands && t.jobs == s.jobs
    ensures Inv(t)
  {
    assert t.sent == s.sent + [];
    RepliesStay(s, t, []);
    OtherStages(s, t, |s.jobs|, []);
  }

  lemma JobTaken(s: State, t: State, w: nat, fd: int, job: Job)
    requires Inv(s) && w < |s.jobs| && job.stage.NotYet? && IsScript(job.script, job.reply)
    requires t.g == s.g && t.sent == s.sent
    requires t.d.hands == s.d.hands[w := D.Hand(fd, job.script)] && t.jobs == s.jobs[w := Some(job)]
    ensures Inv(t)
  {
    assert t.sent == s.sent + [];
    RepliesStay(s, t, []);
    OtherStages(s, t, w, []);
    TodosWithOneMore(s, t, w, fd, job.script, job);
  }

  lemma TakeKeepsInv(catalog: Catalog, s: State, w: nat, conn: Served, job: Job)
    requires Inv(s) && Possible(s, Take(w, conn, job)) && IsScript(job.script, job.reply)
    ensures Inv(Apply(catalog, s, Take(w, conn, job)))
  {
    var t := Apply(catalog, s, Take(w, conn, job));
    TakeMoves(catalog, s, w, conn, job);
    if s.d.pool.queue == [] {
      NothingTaken(s, t);
    } else {
      JobTaken(s, t, w, s.d.pool.queue[0], job);
    }
  }

  // What the daemon's own steps do to the hands.
  lemma HandleMoves(s: D.State, a: D.Action)
    requires D.Possible(s, a) && !a.Section?
    ensures D.Apply(s, a).hands
            == if a.Act? then s.hands[a.w := s.hands[a.w].(todo := s.hands[a.w].todo[1..])] else s.hands
  {
  }

  // `todo` is how `script` ends.
  lemma FirstOfEnd(todo: seq<Act>, script: seq<Act>, reply: string)
    requires todo != [] && |todo| <= |script| && todo == script[|script| - |todo|..] && IsScript(script, reply)
    ensures todo[0].Requested? ==> |todo| == |script|
    ensures todo[0].Reply? ==> |todo| + 2 <= |script| && todo[0].bytes == reply
  {
    var n := |script| - |todo|;
    assert todo[0] == script[n];
  }

  lemma RestOfEnd(todo: seq<Act>, script: seq<Act>)
    requires todo != [] && |todo| <= |script| && todo == script[|script| - |todo|..]
    ensures todo[1..] == script[|script| - |todo[1..]|..]
  {
  }

  lemma ActKeepsTodo(todo: seq<Act>, job: Job)
    requires todo != [] && TodoOk(todo, job)
    requires todo[0].Requested? || job.wanted.None? || job.stage.Got?
    ensures TodoOk(todo[1..], job)
    ensures todo[0].Reply? ==> todo[0].bytes == job.reply && (job.wanted.None? || job.stage.Got?)
  {
    FirstOfEnd(todo, job.script, job.reply);
    RestOfEnd(todo, job.script);
  }

  lemma ReplyIsOk(s: State, t: State, a: D.Action)
    requires Inv(s) && Possible(s, Handle(a)) && t.g == s.g && t.sent == s.sent + ReplySent(s, a)
    ensures forall i :: |s.sent| <= i < |t.sent| ==> SentOk(t, t.sent[i])
  {
    if a.Act? && s.d.hands[a.w].todo[0].Reply? {
      var job := s.jobs[a.w].value;
      ActKeepsTodo(s.d.hands[a.w].todo, job);
      assert StageOk(s, a.w, job);
      if job.stage.Got? {
        LookupStays(s.g, t.g, s.sent, ReplySent(s, a), job, job.stage.k);
      }
    }
  }

  lemma OneActDone(s: State, t: State, w: nat)
    requires TodosInv(s) && MayAct(s, w) && t.jobs == s.jobs
    requires t.d.hands == s.d.hands[w := s.d.hands[w].(todo := s.d.hands[w].todo[1..])]
    ensures TodosInv(t)
  {
    var hand, job := s.d.hands[w], s.jobs[w].value;
    ActKeepsTodo(hand.todo, job);
    assert s.jobs[w := Some(job)] == s.jobs;
    TodosWithOneMore(s, t, w, hand.fd, hand.todo[1..], job);
  }

  lemma HandleKeepsTodos(s: State, t: State, a: D.Action)
    requires TodosInv(s) && Possible(s, Handle(a)) && t.d == D.Apply(s.d, a) && t.jobs == s.jobs
    ensures TodosInv(t)
  {
    HandleMoves(s.d, a);
    if a.Act? {
      OneActDone(s, t, a.w);
    }
  }

  lemma HandleKeepsInv(catalog: Catalog, s: State, a: D.Action)
    requires Inv(s) && Possible(s, Handle(a))
    ensures Inv(Apply(catalog, s, Handle(a)))
  {
    var t := Apply(catalog, s, Handle(a));
    HandleKeepsTodos(s, t, a);
    RepliesStay(s, t, ReplySent(s, a));
    ReplyIsOk(s, t, a);
    OtherStages(s, t, |s.jobs|, ReplySent(s, a));
  }

  lemma AllSeen(s: State)
    requires SentInv(s)
    ensures SeenBefore(s.sent, |s.sent|, |s.g.log|)
  {
    forall i | 0 <= i < |s.sent| && s.sent[i].job.stage.Got? ensures s.sent[i].job.stage.k < |s.g.log| {
      assert SentOk(s, s.sent[i]);
    }
  }

  // What beginning, making and ending a lookup does to the databases.
  lemma LookupBegins(catalog: Catalog, g: G.State, w: nat, addr: string)
    requires g.history != [] && G.Enabled(g, G.BeginLookup(w, addr))
    ensures var h := G.Apply(catalog, g, G.BeginLookup(w, addr));
            && h.slots == g.slots && h.history == g.history && h.log == g.log
            && h.readers == g.readers[w := G.Looking(addr, 0, START, |g.history| - 1, |g.log|)]
  {
  }

  lemma LookupEnds(catalog: Catalog, g: G.State, w: nat)
    requires g.history != [] && G.Enabled(g, G.EndLookup(w))
    ensures var h, q := G.Apply(catalog, g, G.EndLookup(w)), g.readers[w];
            h.log == g.log + [G.Done(q.addr, q.progress, q.at, q.earlier)] && h.readers == g.readers[w := G.Idle]
  {
  }

  // A job moves to its next stage.
  lemma TodosAtNextStage(s: State, t: State, w: nat, job: Job)
    requires TodosInv(s) && w < |s.jobs| && s.jobs[w].Some? && !s.jobs[w].value.stage.Got?
    requires t.d.hands == s.d.hands && t.jobs == s.jobs[w := Some(job)]
    requires job.script == s.jobs[w].value.script && job.reply == s.jobs[w].value.reply
    requires job.wanted == s.jobs[w].value.wanted
    ensures TodosInv(t)
  {
    var hand := s.d.hands[w];
    if hand.todo != [] {
      assert TodoOk(hand.todo, s.jobs[w].value);
      assert s.d.hands[w := D.Hand(hand.fd, hand.todo)] == s.d.hands;
      TodosWithOneMore(s, t, w, hand.fd, hand.todo, job);
    }
  }

  lemma BeginKeepsInv(catalog: Catalog, s: State, w: nat)
    requires Inv(s) && Possible(s, BeginLookup(w))
    ensures Inv(Apply(catalog, s, BeginLookup(w)))
  {
    var t := Apply(catalog, s, BeginLookup(w));
    var job := s.jobs[w].value;
    LookupBegins(catalog, s.g, w, job.wanted.value);
    assert t.sent == s.sent + [];
    RepliesStay(s, t, []);
    AllSeen(s);
    TodosAtNextStage(s, t, w, job.(stage := Running, seen := |s.sent|));
    OtherStages(s, t, w, []);
  }

  lemma EndKeepsInv(catalog: Catalog, s: State, w: nat)
    requires Inv(s) && Possible(s, EndLookup(w))
    ensures Inv(Apply(catalog, s, EndLookup(w)))
  {
    var t := Apply(catalog, s, EndLookup(w));
    var job := s.jobs[w].value;
    LookupEnds(catalog, s.g, w);
    assert t.sent == s.sent + [];
    RepliesStay(s, t, []);
    assert StageOk(s, w, job);
    TodosAtNextStage(s, t, w, job.(stage := Got(|s.g.log|)));
    OtherStages(s, t, w, []);
  }

  // A lookup under way is left alone by all but its own thread.
  lemma OthersLeaveLookup(catalog: Catalog, g: G.State, b: G.Action, w: nat)
    requires g.history != [] && G.Enabled(g, b) && !b.BeginLookup? && !b.EndLookup?
    ensures ReaderStays(g, G.Apply(catalog, g, b), w)
  {
  }

  lemma OthersLeaveLog(catalog: Catalog, g: G.State, b: G.Action)
    requires g.history != [] && G.Enabled(g, b) && !b.EndLookup?
    ensures G.Apply(catalog, g, b).log == g.log
  {
  }

  lemma DatabasesKeepInv(catalog: Catalog, s: State, b: G.Action)
    requires Inv(s) && Possible(s, Databases(b))
    ensures Inv(Apply(catalog, s, Databases(b)))
  {
    var t := Apply(catalog, s, Databases(b));
    OthersLeaveLog(catalog, s.g, b);
    assert t.sent == s.sent + [];
    RepliesStay(s, t, []);
    forall v: nat ensures ReaderStays(s.g, t.g, v) {
      OthersLeaveLookup(catalog, s.g, b, v);
    }
    OtherStages(s, t, |s.jobs|, []);
  }

  lemma StepKeepsInv(catalog: Catalog, s: State, a: Action)
    requires Inv(s) && Possible(s, a) && (a.Take? ==> IsServed(a.conn))
    ensures Inv(Apply(catalog, s, a))
  {
    match a {
      case Take(w, conn, job) =>
        ScriptIsScript(conn);
        TakeKeepsInv(catalog, s, w, conn, job);
      case Handle(b) => HandleKeepsInv(catalog, s, b);
      case BeginLookup(w) => BeginKeepsInv(catalog, s, w);
      case EndLookup(w) => EndKeepsInv(catalog, s, w);
      case Databases(b) => DatabasesKeepInv(catalog, s, b);
    }
  }

  ghost predicate SameTask(a: Job, b: Job) {
    && a.peer == b.peer && a.foreseen == b.foreseen
    && a.wanted == b.wanted && a.script == b.script && a.reply == b.reply
  }

  // Jobs are only moved on, and only jobs at hand are answered.
  lemma StepMovesJobs(catalog: Catalog, s: State, a: Action)
    requires Possible(s, a)
    ensures var t := Apply(catalog, s, a);
            && |t.jobs| == |s.jobs|
            && (forall w :: 0 <= w < |t.jobs| && t.jobs[w].Some? ==>
                  || (a.Take? && t.jobs[w].value == a.job)
                  || (s.jobs[w].Some? && SameTask(t.jobs[w].value, s.jobs[w].value)))
            && |s.sent| <= |t.sent| && (forall i :: 0 <= i < |s.sent| ==> t.sent[i] == s.sent[i])
            && (forall i :: |s.sent| <= i < |t.sent| ==>
                  a.Handle? && a.a.Act? && HasJob(s, a.a.w) && t.sent[i].job == s.jobs[a.a.w].value)
  {
  }

  lemma TaskStays(a: Job, b: Job)
    requires SameTask(a, b) && IsTask(b)
    ensures IsTask(a)
  {
  }

  lemma StepKeepsTasks(catalog: Catalog, s: State, a: Action)
    requires TasksInv(s) && Possible(s, a) && (a.Take? ==> IsTask(a.job))
    ensures TasksInv(Apply(catalog, s, a))
  {
    var t := Apply(catalog, s, a);
    StepMovesJobs(catalog, s, a);
    forall w | 0 <= w < |t.jobs| && t.jobs[w].Some? ensures IsTask(t.jobs[w].value) {
      if !(a.Take? && t.jobs[w].value == a.job) {
        TaskStays(t.jobs[w].value, s.jobs[w].value);
      }
    }
  }

  lemma {:induction false} RunKeepsInv(catalog: Catalog, s: State, actions: seq<Action>)
    requires Inv(s) && TasksInv(s) && Legal(catalog, s, actions)
    ensures Inv(After(catalog, s, actions)) && TasksInv(After(catalog, s, actions))
    decreases |actions|
  {
    if actions != [] {
      if actions[0].Take? {
        TaskTurnsOut(actions[0].conn, actions[0].job);
      }
      StepKeepsInv(catalog, s, actions[0]);
      StepKeepsTasks(catalog, s, actions[0]);
      RunKeepsInv(catalog, Apply(catalog, s, actions[0]), actions[1..]);
    }
  }

  // ----- what every run keeps -----

  lemma ReachedInv(catalog: Catalog, threads: nat, others: nat, writers: nat, actions: seq<Action>)
    requires Legal(catalog, Init(threads, others, writers), actions)
    ensures Inv(After(catalog, Init(threads, others, writers), actions))
    ensures TasksInv(After(catalog, Init(threads, others, writers), actions))
    ensures G.Inv(catalog, After(catalog, Init(threads, others, writers), actions).g)
  {
    var s := Init(threads, others, writers);
    RunKeepsInv(catalog, s, actions);
    G.InitInv(catalog, threads + others, writers);
    RunIsReloadRun(catalog, s, actions);
    G.RunKeepsInv(catalog, s.g, ReloadRun(catalog, s, actions));
  }

  /** The configuration a reply speaks of: the one in force when its lookup took the lock. */
  function ConfigurationOf(s: State, r: Sent): nat
    requires r.job.stage.Got? && r.job.stage.k < |s.g.log|
  {
    s.g.log[r.job.stage.k].at
  }

  /** The bytes are those of a sequential lookup on that configuration, or of no lookup if
      the request asks for none. */
  predicate IsFaithful(catalog: Catalog, s: State, r: Sent) {
    match Wanted(r.job.peer)
    case None => r.bytes == ReplyTo(r.job.peer, START)
    case Some(ip) =>
      && r.job.stage.Got? && r.job.stage.k < |s.g.log|
      && var at := ConfigurationOf(s, r);
         at < |s.g.history| && r.bytes == ReplyTo(r.job.peer, G.LookupOn(catalog, s.g.history[at], ip))
  }

  lemma SentIsFaithful(catalog: Catalog, s: State, r: Sent)
    requires SentOk(s, r) && IsTask(r.job) && G.LogInv(catalog, s.g)
    ensures IsFaithful(catalog, s, r)
  {
    if r.job.wanted.None? {
      OnlyLookupsWait(r.job.peer, r.job.foreseen, START);
    } else {
      assert G.DoneOk(catalog, s.g, r.job.stage.k);
    }
  }

  /** In every interleaving of clients, workers and reloads, every reply sent is the reply to
      its request by the sequential lookup on one configuration that was installed. */
  lemma RepliesAreLookups(
      catalog: Catalog, threads: nat, others: nat, writers: nat, actions: seq<Action>, i: nat)
    requires Legal(catalog, Init(threads, others, writers), actions)
    requires i < |After(catalog, Init(threads, others, writers), actions).sent|
    ensures var t := After(catalog, Init(threads, others, writers), actions);
            IsFaithful(catalog, t, t.sent[i])
  {
    ReachedInv(catalog, threads, others, writers, actions);
    var t := After(catalog, Init(threads, others, writers), actions);
    assert SentOk(t, t.sent[i]);
    SentIsFaithful(catalog, t, t.sent[i]);
  }

  lemma SeenIsEarlier(catalog: Catalog, s: State, i: nat, j: nat)
    requires SentInv(s) && G.LogInv(catalog, s.g) && i < |s.sent| && j < |s.sent|
    requires s.sent[i].job.wanted.Some? && s.sent[j].job.wanted.Some? && i < s.sent[j].job.seen
    ensures s.sent[i].job.stage.Got? && s.sent[i].job.stage.k < |s.g.log|
    ensures s.sent[j].job.stage.Got? && s.sent[j].job.stage.k < |s.g.log|
    ensures ConfigurationOf(s, s.sent[i]) <= ConfigurationOf(s, s.sent[j]) < |s.g.history|
  {
    assert SentOk(s, s.sent[i]) && SentOk(s, s.sent[j]);
    assert G.DoneOk(catalog, s.g, s.sent[j].job.stage.k);
  }

  /** And replies never go back: a lookup that begins after another reply was sent is answered
      from the same configuration or a later one, in no slot an older generation. */
  lemma RepliesNeverGoBack(
      catalog: Catalog, threads: nat, others: nat, writers: nat, actions: seq<Action>, i: nat, j: nat)
    requires Legal(catalog, Init(threads, others, writers), actions)
    requires var t := After(catalog, Init(threads, others, writers), actions);
             && i < |t.sent| && j < |t.sent| && i < t.sent[j].job.seen
             && t.sent[i].job.wanted.Some? && t.sent[j].job.wanted.Some?
    ensures var t := After(catalog, Init(threads, others, writers), actions);
            && IsFaithful(catalog, t, t.sent[i]) && t.sent[i].job.stage.Got? && t.sent[i].job.stage.k < |t.g.log|
            && IsFaithful(catalog, t, t.sent[j]) && t.sent[j].job.stage.Got? && t.sent[j].job.stage.k < |t.g.log|
            && ConfigurationOf(t, t.sent[i]) <= ConfigurationOf(t, t.sent[j]) < |t.g.history|
            && G.SlotsLeq(t.g.history[ConfigurationOf(t, t.sent[i])], t.g.history[ConfigurationOf(t, t.sent[j])])
  {
    ReachedInv(catalog, threads, others, writers, actions);
    RepliesAreLookups(catalog, threads, others, writers, actions, i);
    RepliesAreLookups(catalog, threads, others, writers, actions, j);
    SeenIsEarlier(catalog, After(catalog, Init(threads, others, writers), actions), i, j);
  }

  // ----- what the client reads -----

  /** The databases hold coordinates as `format_double` writes them. */
  ghost predicate HoldsNumbers(catalog: Catalog) {
    forall handle, addr :: catalog(handle, addr).Entry? ==>
      HasNumbers(WithCity(EMPTY, catalog(handle, addr).record))
  }

  lemma LookupHasNumbers(catalog: Catalog, slots: G.Slots, addr: string)
    requires HoldsNumbers(catalog)
    ensures HasNumbers(G.LookupOn(catalog, slots, addr).result)
  {
    var city := G.HandleOf(slots.city);
    if city.Some? && catalog(city.value, addr).Entry? {
      assert HasNumbers(WithCity(EMPTY, catalog(city.value, addr).record));
    }
  }

  lemma WantedIsAsked(peer: Peer, p: Progress)
    requires Wanted(peer).Some?
    ensures peer.read == Ok && Parse(peer.raw).Some?
    ensures AnswerOf(EnvWith(peer, p), Parse(peer.raw).value).status == 200 <==> !p.error && p.result.found
  {
    var env, req := EnvWith(peer, p), Parse(peer.raw).value;
    StatusMeans(env, req);
    StatusIsCounted(VerdictOf(env, req), NegotiateFormat(req.accept));
    AnswerStatus(env, req);
    assert AskedAddress(env, req) == Wanted(peer);
  }

  /** A client that asks for a usable address reads the answer of one installed configuration
      taken as a whole: status 200 exactly if that knows the address without an error, and
      then the fields are the ones it holds. */
  lemma ClientReadsOneConfiguration(
      catalog: Catalog, threads: nat, others: nat, writers: nat, actions: seq<Action>, i: nat,
      plan: seq<SendResult>) returns (at: nat, p: Progress, wire: Wire)
    requires HoldsNumbers(catalog)
    requires Legal(catalog, Init(threads, others, writers), actions)
    requires i < |After(catalog, Init(threads, others, writers), actions).sent|
    requires Wanted(After(catalog, Init(threads, others, writers), actions).sent[i].job.peer).Some?
    ensures var t := After(catalog, Init(threads, others, writers), actions);
            var peer, bytes := t.sent[i].job.peer, t.sent[i].bytes;
            && at < |t.g.history| && p == G.LookupOn(catalog, t.g.history[at], Wanted(peer).value)
            && Parse(peer.raw).Some?
            && var req := Parse(peer.raw).value;
               && Learns(EnvWith(peer, p), req, wire)
               && (wire.status == 200 <==> !p.error && p.result.found)
               && ReadWhole(Delivered(bytes, plan), req.method_ != "HEAD")
                  == if Delivery(|bytes|, 0, plan).0 then Some(wire) else None
  {
    RepliesAreLookups(catalog, threads, others, writers, actions, i);
    var t := After(catalog, Init(threads, others, writers), actions);
    var peer := t.sent[i].job.peer;
    at := ConfigurationOf(t, t.sent[i]);
    p := G.LookupOn(catalog, t.g.history[at], Wanted(peer).value);
    LookupHasNumbers(catalog, t.g.history[at], Wanted(peer).value);
    WantedIsAsked(peer, p);
    wire := RequestIsAnswered(EnvWith(peer, p), peer.raw, Parse(peer.raw).value, plan);
  }

  // ----- lookups can be made -----

  lemma OneMoreAction(catalog: Catalog, s: State, a: Action, more: seq<Action>)
    requires Enabled(s, a) && Legal(catalog, Apply(catalog, s, a), more)
    ensures Legal(catalog, s, [a] + more)
    ensures After(catalog, s, [a] + more) == After(catalog, Apply(catalog, s, a), more)
  {
    assert ([a] + more)[1..] == more;
  }

  /** A worker whose lookup is under way, with the databases as they are. */
  predicate IsLooking(catalog: Catalog, s: State, w: nat, stage: nat) {
    && HasJob(s, w) && s.jobs[w].value.stage.Running? && s.jobs[w].value.wanted.Some? && s.g.history != []
    && w < |s.g.readers| && s.g.readers[w].Looking? && s.g.readers[w].stage == stage <= 3
    && s.g.readers[w].addr == s.jobs[w].value.wanted.value
    && s.g.readers[w].progress == G.Partial(catalog, s.g.slots, s.g.readers[w].addr, stage)
  }

  lemma LookingGoesOn(catalog: Catalog, s: State, w: nat, stage: nat)
    requires IsLooking(catalog, s, w, stage) && stage < 3
    ensures Possible(s, Databases(G.StepLookup(w)))
    ensures var t := Apply(catalog, s, Databases(G.StepLookup(w)));
            && IsLooking(catalog, t, w, stage + 1) && t.d == s.d && t.jobs == s.jobs
            && t.g.slots == s.g.slots && t.g.readers[w].addr == s.g.readers[w].addr
  {
  }

  lemma LookingIsOver(catalog: Catalog, s: State, w: nat)
    requires IsLooking(catalog, s, w, 3)
    requires s.jobs[w].value.foreseen == G.LookupOn(catalog, s.g.slots, s.g.readers[w].addr)
    ensures Possible(s, EndLookup(w))
    ensures var t := Apply(catalog, s, EndLookup(w));
            t.d == s.d && MayAct(t, w)
  {
    G.PartialIsLookup(catalog, s.g.slots, s.g.readers[w].addr);
  }

  lemma {:induction false} LookingEnds(catalog: Catalog, s: State, w: nat, stage: nat) returns (more: seq<Action>)
    requires IsLooking(catalog, s, w, stage)
    requires s.jobs[w].value.foreseen == G.LookupOn(catalog, s.g.slots, s.g.readers[w].addr)
    ensures Legal(catalog, s, more) && After(catalog, s, more).d == s.d
    ensures MayAct(After(catalog, s, more), w)
    decreases 3 - stage
  {
    if stage == 3 {
      LookingIsOver(catalog, s, w);
      OneMoreAction(catalog, s, EndLookup(w), []);
      return [EndLookup(w)] + [];
    }
    var step := Databases(G.StepLookup(w));
    LookingGoesOn(catalog, s, w, stage);
    var later := LookingEnds(catalog, Apply(catalog, s, step), w, stage + 1);
    OneMoreAction(catalog, s, step, later);
    return [step] + later;
  }

  /** Foreseeing excludes nothing: whatever configuration is in force when nobody writes, a
      worker for which its lookup was foreseen can make it and go on. */
  lemma LookupCanBeMade(catalog: Catalog, s: State, w: nat) returns (more: seq<Action>)
    requires HasJob(s, w) && !s.d.hands[w].todo[0].Requested? && s.jobs[w].value.stage.NotYet?
    requires s.jobs[w].value.wanted.Some?
    requires w < |s.g.readers| && s.g.readers[w].Idle? && G.NobodyWrites(s.g) && s.g.history != []
    requires s.jobs[w].value.foreseen == G.LookupOn(catalog, s.g.slots, s.jobs[w].value.wanted.value)
    ensures Legal(catalog, s, more) && After(catalog, s, more).d == s.d
    ensures MayAct(After(catalog, s, more), w)
  {
    var t := Apply(catalog, s, BeginLookup(w));
    assert IsLooking(catalog, t, w, 0);
    var later := LookingEnds(catalog, t, w, 0);
    OneMoreAction(catalog, s, BeginLookup(w), later);
    return [BeginLookup(w)] + later;
  }
}
