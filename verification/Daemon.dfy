/** The running daemon: `Server::run` and `cleanup` (src/server.cpp) on the main thread,
    the worker threads of the pool, and the counters they share.  Accepting, submitting,
    notifying, every locked region of a worker and every shared-memory action of a handler
    are steps of their own, interleaved in any order.
 */
module Daemon {
  import opened Text
  import opened Counting
  import opened Metrics
  import opened Handler
  import P = ThreadPools

  /** Where the main thread is. */
  datatype Main =
    | Accepting          // in poll() or about to call accept4()
    | Accepted(fd: int)  // accept4() returned fd, submit() not entered
    | OwesNotify         // submit() has queued it and released the mutex
    | Stopping           // left the loop, in cleanup()
    | Done               // pool_->shutdown() returned

  /** The connection a worker handles and what its handler still has to do. */
  datatype Hand = Hand(fd: int, todo: seq<Act>)

  datatype State = State(
    pool: P.State,
    hands: seq<Hand>,
    shown: Counts,      // the 64-bit counters
    totals: Counts,     // how often each has been incremented
    main: Main,
    accepted: seq<int>,
    closed: seq<int>)   // every close() of a client descriptor

  datatype Action =
    | Accept(fd: int)
    | Submit
    | Notify(step: P.Action)
    | LeaveLoop
    | Shut(step: P.Action)
    | Wake(w: nat)
    | Section(w: nat, conn: Served)
    | Act(w: nat)
    | Finish(w: nat)

  /** What threads, mutex and program order allow. */
  predicate Possible(s: State, a: Action) {
    match a
    case Accept(_) => s.main == Accepting
    case Submit => s.main.Accepted?
    case Notify(step) => s.main == OwesNotify && (step.NotifyOne? || step.NotifyNobody?) && P.Enabled(s.pool, step)
    case LeaveLoop => s.main == Accepting
    case Shut(step) =>
      s.main == Stopping && P.Enabled(s.pool, step)
      && (step.BeginShutdown? || step.NotifyAll? || step.Join? || step.Return?)
    case Wake(w) => P.Enabled(s.pool, P.WakeSpuriously(w))
    case Section(w, conn) => w < |s.hands| && P.Enabled(s.pool, P.Section(w))
    case Act(w) => w < |s.hands| && P.Enabled(s.pool, P.Finish(w)) && s.hands[w].todo != []
    case Finish(w) => w < |s.hands| && P.Enabled(s.pool, P.Finish(w)) && s.hands[w].todo == []
  }

  /** A possible step; a connection taken turns out in some way the handler can produce. */
  ghost predicate Enabled(s: State, a: Action) {
    Possible(s, a) && (a.Section? ==> CanTurnOut(a.conn))
  }

  function Apply(s: State, a: Action): State
    requires Possible(s, a)
  {
    match a
    case Accept(fd) => s.(main := Accepted(fd), accepted := s.accepted + [fd])
    case Submit =>
      var fd := s.main.fd;
      s.(pool := P.Apply(s.pool, P.Submit(fd)),
         main := if s.pool.stop then Accepting else OwesNotify,
         closed := if s.pool.stop then s.closed + [fd] else s.closed)
    case Notify(step) => s.(pool := P.Apply(s.pool, step), main := Accepting)
    case LeaveLoop => s.(main := Stopping)
    case Shut(step) =>
      s.(pool := P.Apply(s.pool, step), main := if step.Return? then Done else Stopping)
    case Wake(w) => s.(pool := P.Apply(s.pool, P.WakeSpuriously(w)))
    case Section(w, conn) =>
      s.(pool := P.Apply(s.pool, P.Section(w)),
         hands := if s.pool.queue == [] then s.hands
                  else s.hands[w := Hand(s.pool.queue[0], ScriptOf(conn))])
    case Act(w) =>
      var h := s.hands[w];
      s.(hands := s.hands[w := h.(todo := h.todo[1..])],
         shown := CountAct(s.shown, h.todo[0], U64),
         totals := CountAct(s.totals, h.todo[0], Unbounded),
         closed := if h.todo[0].CloseFd? then s.closed + [h.fd] else s.closed)
    case Finish(w) => s.(pool := P.Apply(s.pool, P.Finish(w)))
  }

  /** Nobody has a connection in hand yet. */
  function NoHands(threads: nat): (hands: seq<Hand>)
    ensures |hands| == threads && forall w :: 0 <= w < threads ==> hands[w] == Hand(0, [])
  {
    if threads == 0 then [] else NoHands(threads - 1) + [Hand(0, [])]
  }

  function Init(threads: nat): State {
    State(P.Init(threads), NoHands(threads), ZERO, ZERO, Accepting, [], [])
  }

  ghost predicate Legal(s: State, actions: seq<Action>)
    decreases |actions|
  {
    actions == [] || (Enabled(s, actions[0]) && Legal(Apply(s, actions[0]), actions[1..]))
  }

  ghost function After(s: State, actions: seq<Action>): State
    requires Legal(s, actions)
    decreases |actions|
  {
    if actions == [] then s else After(Apply(s, actions[0]), actions[1..])
  }

  // ----- what can be left of a script -----

  /** Reply and close still to come, or less. */
  predicate Leaving(t: seq<Act>) {
    t == [] || t == [CloseFd] || (|t| == 2 && t[0].Reply? && t[1] == CloseFd)
  }

  /** Request counted, response not. */
  predicate Answering(t: seq<Act>) {
    |t| == 3 && t[0].Responded? && IsCounted(t[0].status) && t[1].Reply? && t[2] == CloseFd
  }

  /** A lookup counted whose outcome is not. */
  predicate Deciding(t: seq<Act>) {
    |t| == 4 && (t[0] == Found || t[0] == NotFound) && Answering(t[1..])
  }

  predicate Fresh(t: seq<Act>) {
    |t| > 0 && t[0].Requested?
    && (Answering(t[1..]) || (Deciding(t[1..]) && t[0].bucket == LookupPath))
  }

  predicate Shaped(t: seq<Act>) {
    Leaving(t) || Answering(t) || Deciding(t) || Fresh(t)
  }

  lemma ScriptIsShaped(conn: Served)
    requires IsServed(conn)
    ensures Fresh(ScriptOf(conn)) || ScriptOf(conn) == [CloseFd]
  {
    if conn.Served? {
      SendIsFresh(conn.bucket, conn.counted, conn.response.status, ScriptOf(conn));
    }
  }

  lemma SendIsFresh(bucket: Bucket, counted: seq<Act>, status: nat, t: seq<Act>)
    requires IsOutcome(counted) && IsCounted(status) && (counted != [] ==> bucket == LookupPath)
    requires exists bytes :: t == [Requested(bucket)] + counted + [Responded(status), Reply(bytes), CloseFd]
    ensures Fresh(t)
  {
    var bytes :| t == [Requested(bucket)] + counted + [Responded(status), Reply(bytes), CloseFd];
    var answering := [Responded(status), Reply(bytes), CloseFd];
    assert Answering(answering);
    if counted == [] {
      assert t[1..] == answering;
    } else {
      assert t[1..] == counted + answering;
      assert t[1..][1..] == answering;
    }
  }

  const BETWEEN: Hand -> nat := (h: Hand) => if Answering(h.todo) || Deciding(h.todo) then 1 else 0
  const UNDECIDED: Hand -> nat := (h: Hand) => if Deciding(h.todo) then 1 else 0

  function OwesClose(fd: int): Hand -> nat {
    (h: Hand) => if h.todo != [] && h.fd == fd then 1 else 0
  }

  // ----- the invariant, in parts -----

  /** Hands and pool workers agree. */
  ghost predicate HandsInv(s: State) {
    && |s.hands| == |s.pool.workers|
    && (forall w :: 0 <= w < |s.hands| ==> Shaped(s.hands[w].todo))
    && (forall w :: 0 <= w < |s.hands| && s.hands[w].todo != [] ==>
          s.pool.workers[w] == P.Handling(s.hands[w].fd))
  }

  /** Submission and shutdown are ordered on the main thread. */
  ghost predicate MainInv(s: State) {
    && (s.pool.stop ==> s.main == Stopping || s.main == Done)
    && s.pool.refused == []
    && s.accepted == s.pool.pushed + (if s.main.Accepted? then [s.main.fd] else [])
    && s.pool.owed == (if s.main == OwesNotify then 1 else 0)
    && (s.main == Done <==> s.pool.closing == P.Returned)
  }

  ghost predicate CountersInv(s: State) {
    && s.shown == Wrapped(s.totals)
    && Requests(s.totals) == Responses(s.totals) + Sum(s.hands, BETWEEN)
    && s.totals.found + s.totals.notFound + Sum(s.hands, UNDECIDED) <= s.totals.lookup
  }

  /** Every connection a worker took is closed once or its close is still to come. */
  ghost predicate ClosedInv(s: State) {
    forall fd :: ClosedFor(s, fd)
  }

  ghost predicate Inv(s: State) {
    P.Inv(s.pool) && HandsInv(s) && MainInv(s) && CountersInv(s) && ClosedInv(s)
  }

  lemma NothingInHands(n: nat, weight: Hand -> nat)
    requires weight(Hand(0, [])) == 0
    ensures Sum(NoHands(n), weight) == 0
  {
    SumZero(NoHands(n), weight);
  }

  lemma InitClosed(threads: nat, fd: int)
    ensures ClosedFor(Init(threads), fd)
  {
    NothingInHands(threads, OwesClose(fd));
  }

  lemma NothingOwedAtFirst(threads: nat)
    ensures Sum(NoHands(threads), BETWEEN) == 0 && Sum(NoHands(threads), UNDECIDED) == 0
  {
    NothingInHands(threads, BETWEEN);
    NothingInHands(threads, UNDECIDED);
  }

  lemma ZeroIsShown()
    ensures Wrapped(ZERO) == ZERO
  {
  }

  lemma StartingCounters(s: State)
    requires s.totals == ZERO && s.shown == ZERO
    requires Sum(s.hands, BETWEEN) == 0 && Sum(s.hands, UNDECIDED) == 0
    ensures CountersInv(s)
  {
    ZeroIsShown();
    assert s.shown == Wrapped(s.totals);
  }

  /** The step a daemon action takes in the pool, if any. */
  function PoolStep(s: State, a: Action): Option<P.Action>
    requires a.Submit? ==> s.main.Accepted?
  {
    match a
    case Accept(_) => None
    case Submit => Some(P.Submit(s.main.fd))
    case Notify(step) => Some(step)
    case LeaveLoop => None
    case Shut(step) => Some(step)
    case Wake(w) => Some(P.WakeSpuriously(w))
    case Section(w, _) => Some(P.Section(w))
    case Act(_) => None
    case Finish(w) => Some(P.Finish(w))
  }

  /** Every run of the daemon is a run of the pool. */
  lemma StepIsPoolStep(s: State, a: Action)
    requires Possible(s, a)
    ensures match PoolStep(s, a)
            case None => Apply(s, a).pool == s.pool
            case Some(step) => P.Enabled(s.pool, step) && Apply(s, a).pool == P.Apply(s.pool, step)
  {
  }

  lemma StepKeepsMain(s: State, a: Action)
    requires MainInv(s) && Possible(s, a)
    ensures MainInv(Apply(s, a))
  {
    var t := Apply(s, a);
    match a {
      case Accept(fd) => assert s.accepted == s.pool.pushed + [] == s.pool.pushed;
      case Submit => assert t.accepted == t.pool.pushed + [] == t.pool.pushed;
      case Notify(step) =>
      case LeaveLoop =>
      case Shut(step) =>
      case Wake(w) =>
      case Section(w, conn) =>
      case Act(w) =>
      case Finish(w) =>
    }
  }

  lemma StepKeepsHands(s: State, a: Action)
    requires HandsInv(s) && Possible(s, a) && (a.Section? ==> IsServed(a.conn))
    ensures HandsInv(Apply(s, a))
  {
    if a.Section? {
      ScriptIsShaped(a.conn);
    } else if a.Act? {
      ActKeepsShape(s.hands[a.w].todo);
    }
  }

  lemma ActKeepsShape(t: seq<Act>)
    requires Shaped(t) && t != []
    ensures Shaped(t[1..])
  {
    if Answering(t) {
      assert |t[1..]| == 2 && t[1..][0] == t[1] && t[1..][1] == t[2];
    } else if Leaving(t) && |t| == 2 {
      assert t[1..] == [CloseFd];
    }
  }

  /** What one act changes in the counters and in the two weights. */
  lemma ActBalances(c: Counts, h: Hand)
    requires Shaped(h.todo) && h.todo != []
    ensures var d := CountAct(c, h.todo[0], Unbounded);
            var h' := h.(todo := h.todo[1..]);
            && Requests(d) - Requests(c) - (Responses(d) - Responses(c)) == BETWEEN(h') - BETWEEN(h)
            && (d.found + d.notFound) - (c.found + c.notFound) + UNDECIDED(h') - UNDECIDED(h) <= d.lookup - c.lookup
  {
    var t := h.todo;
    if Answering(t) {
      assert |t[1..]| == 2;
    } else if Leaving(t) {
      assert |t[1..]| <= 1;
    } else if Deciding(t) {
      assert Answering(t[1..]) && !Deciding(t[1..]);
    }
  }

  lemma ActWraps(c: Counts, a: Act)
    ensures CountAct(Wrapped(c), a, U64) == Wrapped(CountAct(c, a, Unbounded))
  {
    match a {
      case Requested(bucket) => RequestWraps(c, bucket);
      case Found => WrapSum(c.found, 1);
      case NotFound => WrapSum(c.notFound, 1);
      case Responded(status) => ResponseWraps(c, status);
      case Reply(_) =>
      case CloseFd =>
    }
  }

  /** A worker that takes a connection is not between the two increments yet. */
  lemma TakingBalances(fd: int, conn: Served)
    requires IsServed(conn)
    ensures ScriptOf(conn) != []
    ensures BETWEEN(Hand(fd, ScriptOf(conn))) == 0 && UNDECIDED(Hand(fd, ScriptOf(conn))) == 0
  {
    ScriptIsShaped(conn);
    FreshIsNotBetween(ScriptOf(conn));
  }

  lemma FreshIsNotBetween(t: seq<Act>)
    requires Fresh(t) || t == [CloseFd]
    ensures !Answering(t) && !Deciding(t) && t != []
  {
  }

  lemma TakingKeepsSums(hands: seq<Hand>, w: nat, taken: Hand)
    requires w < |hands| && hands[w].todo == [] && BETWEEN(taken) == 0 && UNDECIDED(taken) == 0
    ensures Sum(hands[w := taken], BETWEEN) == Sum(hands, BETWEEN)
    ensures Sum(hands[w := taken], UNDECIDED) == Sum(hands, UNDECIDED)
  {
    SumUpdate(hands, w, taken, BETWEEN);
    SumUpdate(hands, w, taken, UNDECIDED);
  }

  lemma TakingKeepsCounters(s: State, w: nat, conn: Served)
    requires HandsInv(s) && CountersInv(s) && Possible(s, Section(w, conn)) && IsServed(conn)
    ensures CountersInv(Apply(s, Section(w, conn)))
  {
    SectionTakes(s, w, conn);
    if s.pool.queue != [] {
      TakingBalances(s.pool.queue[0], conn);
      TakingKeepsSums(s.hands, w, Hand(s.pool.queue[0], ScriptOf(conn)));
    }
  }

  lemma ActingKeepsCounters(s: State, w: nat)
    requires HandsInv(s) && CountersInv(s) && Possible(s, Act(w))
    ensures CountersInv(Apply(s, Act(w)))
  {
    var h := s.hands[w];
    var h' := h.(todo := h.todo[1..]);
    ActBalances(s.totals, h);
    ActWraps(s.totals, h.todo[0]);
    SumUpdate(s.hands, w, h', BETWEEN);
    SumUpdate(s.hands, w, h', UNDECIDED);
  }

  lemma StepKeepsCounters(s: State, a: Action)
    requires HandsInv(s) && CountersInv(s) && Possible(s, a) && (a.Section? ==> IsServed(a.conn))
    ensures CountersInv(Apply(s, a))
  {
    if a.Section? {
      TakingKeepsCounters(s, a.w, a.conn);
    } else if a.Act? {
      ActingKeepsCounters(s, a.w);
    }
  }

  ghost predicate ClosedFor(s: State, fd: int) {
    Times(s.pool.popped, fd) == Times(s.closed, fd) + Sum(s.hands, OwesClose(fd))
  }

  // One more connection in the hands of an idle worker, and one more popped.
  lemma TakenIsOwed(hands: seq<Hand>, popped: seq<int>, closed: seq<int>, w: nat, conn: int, todo: seq<Act>, fd: int)
    requires w < |hands| && hands[w].todo == [] && todo != []
    requires Times(popped, fd) == Times(closed, fd) + Sum(hands, OwesClose(fd))
    ensures Times(popped + [conn], fd) == Times(closed, fd) + Sum(hands[w := Hand(conn, todo)], OwesClose(fd))
  {
    SumUpdate(hands, w, Hand(conn, todo), OwesClose(fd));
    TimesAppend(popped, conn, fd);
  }

  lemma SectionTakes(s: State, w: nat, conn: Served)
    requires HandsInv(s) && Possible(s, Section(w, conn))
    ensures var t := Apply(s, Section(w, conn));
            && t.closed == s.closed && t.shown == s.shown && t.totals == s.totals
            && (if s.pool.queue == [] then t.pool.popped == s.pool.popped && t.hands == s.hands
                else
                  && s.hands[w].todo == []
                  && t.pool.popped == s.pool.popped + [s.pool.queue[0]]
                  && t.hands == s.hands[w := Hand(s.pool.queue[0], ScriptOf(conn))])
  {
  }

  lemma TakingKeepsClosed(s: State, w: nat, conn: Served, fd: int)
    requires HandsInv(s) && ClosedFor(s, fd) && Possible(s, Section(w, conn)) && IsServed(conn)
    ensures ClosedFor(Apply(s, Section(w, conn)), fd)
  {
    SectionTakes(s, w, conn);
    if s.pool.queue != [] {
      TakingBalances(s.pool.queue[0], conn);
      TakenIsOwed(s.hands, s.pool.popped, s.closed, w, s.pool.queue[0], ScriptOf(conn), fd);
    }
  }

  lemma ActingKeepsClosed(s: State, w: nat, fd: int)
    requires HandsInv(s) && ClosedFor(s, fd) && Possible(s, Act(w))
    ensures ClosedFor(Apply(s, Act(w)), fd)
  {
    var h := s.hands[w];
    SumUpdate(s.hands, w, h.(todo := h.todo[1..]), OwesClose(fd));
    OnlyTheLastActCloses(h.todo);
    if h.todo[0].CloseFd? {
      TimesAppend(s.closed, h.fd, fd);
    }
  }

  lemma StepKeepsClosed(s: State, a: Action, fd: int)
    requires HandsInv(s) && MainInv(s) && ClosedFor(s, fd) && Possible(s, a) && (a.Section? ==> IsServed(a.conn))
    ensures ClosedFor(Apply(s, a), fd)
  {
    if a.Section? {
      TakingKeepsClosed(s, a.w, a.conn, fd);
    } else if a.Act? {
      ActingKeepsClosed(s, a.w, fd);
    }
  }

  lemma OnlyTheLastActCloses(t: seq<Act>)
    requires Shaped(t) && t != []
    ensures t[0].CloseFd? <==> t[1..] == []
  {
    if Deciding(t) {
      assert t[0] == Found || t[0] == NotFound;
    }
  }

  lemma StepKeepsInv(s: State, a: Action)
    requires Inv(s) && Possible(s, a) && (a.Section? ==> IsServed(a.conn))
    ensures Inv(Apply(s, a))
  {
    StepIsPoolStep(s, a);
    if PoolStep(s, a).Some? {
      P.StepKeepsInv(s.pool, PoolStep(s, a).value);
    }
    StepKeepsMain(s, a);
    StepKeepsHands(s, a);
    StepKeepsCounters(s, a);
    forall fd ensures ClosedFor(Apply(s, a), fd) {
      StepKeepsClosed(s, a, fd);
    }
  }

  lemma {:induction false} RunKeepsInv(s: State, actions: seq<Action>)
    requires Inv(s) && Legal(s, actions)
    ensures Inv(After(s, actions)) && |After(s, actions).pool.workers| == |s.pool.workers|
    decreases |actions|
  {
    if actions != [] {
      if actions[0].Section? {
        TurnsOutServed(actions[0].conn);
      }
      StepKeepsInv(s, actions[0]);
      StepIsPoolStep(s, actions[0]);
      RunKeepsInv(Apply(s, actions[0]), actions[1..]);
    }
  }

  // ----- what every run keeps -----

  lemma ReachedInv(threads: nat, actions: seq<Action>)
    requires Legal(Init(threads), actions)
    ensures Inv(After(Init(threads), actions)) && |After(Init(threads), actions).pool.workers| == threads
  {
    var s := Init(threads);
    P.InitInv(threads);
    NothingOwedAtFirst(threads);
    forall fd ensures ClosedFor(s, fd) {
      InitClosed(threads, fd);
    }
    StartingCounters(s);
    RunKeepsInv(s, actions);
  }

  /** The accept loop never meets a stopped pool: submit() never closes a connection
      itself, in any interleaving. */
  lemma SubmitNeverRefuses(threads: nat, actions: seq<Action>)
    requires Legal(Init(threads), actions)
    ensures var s := After(Init(threads), actions);
            s.pool.refused == [] && (s.main.Accepted? ==> !s.pool.stop)
  {
    ReachedInv(threads, actions);
  }

  lemma DrainedPool(s: P.State)
    requires P.Inv(s) && s.closing == P.Returned && |s.workers| >= 1
    ensures s.pushed == s.popped && forall w :: 0 <= w < |s.workers| ==> s.workers[w].Exited?
  {
    assert s.workers[0].Exited?;
    assert s.queue == [] && s.popped + [] == s.popped;
  }

  lemma EmptyHands(s: State)
    requires HandsInv(s) && forall w :: 0 <= w < |s.pool.workers| ==> s.pool.workers[w].Exited?
    ensures forall w :: 0 <= w < |s.hands| ==> s.hands[w].todo == []
  {
    forall w | 0 <= w < |s.hands| ensures s.hands[w].todo == [] {
      assert s.pool.workers[w].Exited?;
    }
  }

  lemma NothingOwed(s: State, fd: int)
    requires forall w :: 0 <= w < |s.hands| ==> s.hands[w].todo == []
    ensures Sum(s.hands, BETWEEN) == 0 && Sum(s.hands, OwesClose(fd)) == 0
  {
    SumZero(s.hands, BETWEEN);
    SumZero(s.hands, OwesClose(fd));
  }

  lemma NobodyHolds(s: P.State, fd: int)
    requires forall w :: 0 <= w < |s.workers| ==> s.workers[w].Exited?
    ensures Sum(s.workers, P.Holds(fd)) == 0
  {
    SumZero(s.workers, P.Holds(fd));
  }

  lemma DoneMeansServed(s: State, fd: int)
    requires P.Inv(s.pool) && HandsInv(s) && MainInv(s) && CountersInv(s) && ClosedFor(s, fd)
    requires s.main == Done && |s.pool.workers| >= 1
    ensures Times(s.pool.handled, fd) == Times(s.accepted, fd) && Times(s.closed, fd) == Times(s.accepted, fd)
    ensures Requests(s.totals) == Responses(s.totals)
  {
    DrainedPool(s.pool);
    EmptyHands(s);
    NothingOwed(s, fd);
    NobodyHolds(s.pool, fd);
    assert s.accepted == s.pool.pushed + [] == s.pool.pushed;
  }

  /** Shutdown safety: when run() has come through cleanup's shutdown, every connection
      that accept4 ever returned has been handled and closed exactly as often as it was
      returned, and all requests that were counted have their response counted. */
  lemma EveryConnectionServed(threads: nat, actions: seq<Action>, fd: int)
    requires threads >= 1 && Legal(Init(threads), actions) && After(Init(threads), actions).main == Done
    ensures var s := After(Init(threads), actions);
            && Times(s.pool.handled, fd) == Times(s.accepted, fd)
            && Times(s.closed, fd) == Times(s.accepted, fd)
            && Requests(s.totals) == Responses(s.totals)
  {
    ReachedInv(threads, actions);
    var s := After(Init(threads), actions);
    assert ClosedFor(s, fd);
    DoneMeansServed(s, fd);
  }

  /** Counter conservation: at every interleaved state the request counters are ahead of
      the response counters by exactly the number of workers between their two increments,
      and lookup outcomes never exceed lookup requests; for the 64-bit values shown this
      holds modulo 2^64. */
  lemma CountersAreConserved(threads: nat, actions: seq<Action>)
    requires Legal(Init(threads), actions)
    ensures Balanced(After(Init(threads), actions))
  {
    ReachedInv(threads, actions);
    CountersBalance(After(Init(threads), actions));
  }

  ghost predicate Balanced(s: State) {
    && Requests(s.totals) == Responses(s.totals) + Sum(s.hands, BETWEEN)
    && s.totals.found + s.totals.notFound <= s.totals.lookup
    && s.shown == Wrapped(s.totals)
    && Wrap(Requests(s.shown)) == Wrap(Responses(s.shown) + Sum(s.hands, BETWEEN))
  }

  lemma CountersBalance(s: State)
    requires CountersInv(s)
    ensures Balanced(s)
  {
    ShownBalance(s.totals, Sum(s.hands, BETWEEN));
  }

  lemma ShownBalance(c: Counts, between: nat)
    requires Requests(c) == Responses(c) + between
    ensures Wrap(Requests(Wrapped(c))) == Wrap(Responses(Wrapped(c)) + between)
  {
    SumsWrap(c);
    WrapSum(Responses(c), between);
    WrapSum(Responses(Wrapped(c)), between);
  }
}
