/** How a daemon that is shutting down comes to its end (src/server.cpp:877-886,
    src/thread_pool.cpp:39-87): what is left to do is finite, every worker step uses some of it
    up - also the steps inside a handler, which the pool alone does not see - and while any is
    left some worker can move.
 */
module DaemonDrain {
  import opened Counting
  import opened Handler
  import opened Daemon
  import HttpHead
  import P = ThreadPools

  const TODO: Hand -> nat := (h: Hand) => |h.todo|

  /** No handler does more than this many acts. */
  const LONGEST: nat := 5

  /** The acts still owed by connections in hand, those queued connections may still owe, and
      what the pool's workers have to do around them. */
  function Left(s: State): nat {
    P.Remaining(s.pool) + LONGEST * |s.pool.queue| + Sum(s.hands, TODO)
  }

  predicate IsWorkerStep(a: Action) {
    a.Section? || a.Act? || a.Finish?
  }

  lemma ScriptIsShort(conn: Served)
    requires IsServed(conn)
    ensures 1 <= |ScriptOf(conn)| <= LONGEST
  {
    ScriptIsShaped(conn);
    FreshIsShort(ScriptOf(conn));
  }

  lemma FreshIsShort(t: seq<Act>)
    requires Fresh(t) || t == [CloseFd]
    ensures 1 <= |t| <= LONGEST
  {
  }

  lemma SectionUsesUp(s: State, w: nat, conn: Served)
    requires Inv(s) && P.Draining(s.pool) && Possible(s, Section(w, conn)) && IsServed(conn)
    ensures Left(Apply(s, Section(w, conn))) < Left(s)
  {
    var t := Apply(s, Section(w, conn));
    P.DrainStep(s.pool, P.Section(w));
    SectionTakes(s, w, conn);
    if s.pool.queue != [] {
      ScriptIsShort(conn);
      SumUpdate(s.hands, w, Hand(s.pool.queue[0], ScriptOf(conn)), TODO);
      assert t.pool.queue == s.pool.queue[1..];
    }
  }

  lemma ActUsesUp(s: State, w: nat)
    requires Possible(s, Act(w))
    ensures Left(Apply(s, Act(w))) < Left(s)
  {
    var h := s.hands[w];
    SumUpdate(s.hands, w, h.(todo := h.todo[1..]), TODO);
  }

  /** After the notify_all of the shutdown, every worker step - a locked region, an act of a
      handler, or the end of one - leaves strictly less to do, and no step leaves more. */
  lemma DrainStep(s: State, a: Action)
    requires Inv(s) && P.Draining(s.pool) && Enabled(s, a)
    ensures P.Draining(Apply(s, a).pool)
    ensures if IsWorkerStep(a) then Left(Apply(s, a)) < Left(s) else Left(Apply(s, a)) <= Left(s)
  {
    StepIsPoolStep(s, a);
    if PoolStep(s, a).Some? {
      P.DrainStep(s.pool, PoolStep(s, a).value);
    }
    if a.Section? {
      TurnsOutServed(a.conn);
      SectionUsesUp(s, a.w, a.conn);
    } else if a.Act? {
      ActUsesUp(s, a.w);
    } else {
      OthersLeaveQueue(s, a);
    }
  }

  lemma OthersLeaveQueue(s: State, a: Action)
    requires Inv(s) && P.Draining(s.pool) && Possible(s, a) && !a.Section? && !a.Act?
    ensures Apply(s, a).pool.queue == s.pool.queue && Apply(s, a).hands == s.hands
  {
    assert s.pool.stop;
  }

  function WorkerSteps(actions: seq<Action>): nat {
    if actions == [] then 0 else (if IsWorkerStep(actions[0]) then 1 else 0) + WorkerSteps(actions[1..])
  }

  lemma EnabledKeepsInv(s: State, a: Action)
    requires Inv(s) && Enabled(s, a)
    ensures Inv(Apply(s, a))
  {
    if a.Section? {
      TurnsOutServed(a.conn);
    }
    StepKeepsInv(s, a);
  }

  /** So the drain takes at most as many worker steps as there is left, however main thread,
      workers and handlers interleave. */
  lemma {:induction false} DrainIsBounded(s: State, actions: seq<Action>)
    requires Inv(s) && P.Draining(s.pool) && Legal(s, actions)
    ensures Left(After(s, actions)) + WorkerSteps(actions) <= Left(s)
    decreases |actions|
  {
    if actions != [] {
      DrainStep(s, actions[0]);
      EnabledKeepsInv(s, actions[0]);
      DrainIsBounded(Apply(s, actions[0]), actions[1..]);
    }
  }

  /** Some peer closes its connection at once. */
  lemma SilentCanTurnOut(env: Env)
    ensures CanTurnOut(Silent)
  {
    assert Serve(env, HttpHead.ConnectionClosed, "") == Silent;
  }

  /** The steps the workers can take. */
  ghost predicate SomeWorkerCanMove(s: State) {
    exists a :: IsWorkerStep(a) && Enabled(s, a)
  }

  lemma PoolMoves(s: State, env: Env, w: nat)
    requires Inv(s) && (P.Enabled(s.pool, P.Section(w)) || P.Enabled(s.pool, P.Finish(w)))
    ensures SomeWorkerCanMove(s)
  {
    if P.Enabled(s.pool, P.Section(w)) {
      SilentCanTurnOut(env);
      assert Enabled(s, Section(w, Silent));
    } else if s.hands[w].todo == [] {
      assert Enabled(s, Finish(w));
    } else {
      assert Enabled(s, Act(w));
    }
  }

  lemma NothingLeft(s: State)
    requires Inv(s) && P.Draining(s.pool) && |s.pool.workers| >= 1 && P.Remaining(s.pool) == 0
    ensures Left(s) == 0
    ensures s.pool.queue == [] && forall w :: 0 <= w < |s.hands| ==> s.hands[w].todo == []
  {
    P.DrainNeverStuck(s.pool);
    EmptyHands(s);
    SumZero(s.hands, TODO);
  }

  /** The drain never gets stuck: something is left exactly while some worker can move; and
      when nothing is left, no handler owes an act, no connection is queued, and the main
      thread can go on joining until shutdown returns. */
  lemma DrainNeverStuck(s: State, env: Env)
    requires Inv(s) && P.Draining(s.pool) && |s.pool.workers| >= 1
    ensures Left(s) > 0 <==> SomeWorkerCanMove(s)
    ensures Left(s) == 0 ==> s.pool.queue == [] && forall w :: 0 <= w < |s.hands| ==> s.hands[w].todo == []
    ensures Left(s) == 0 && s.main == Stopping && s.pool.closing == P.Notified ==>
              Enabled(s, Shut(P.Join)) || Enabled(s, Shut(P.Return))
  {
    P.DrainNeverStuck(s.pool);
    if P.Remaining(s.pool) > 0 {
      var w :| P.Enabled(s.pool, P.Section(w)) || P.Enabled(s.pool, P.Finish(w));
      PoolMoves(s, env, w);
    } else {
      NothingLeft(s);
      forall a | IsWorkerStep(a) ensures !Enabled(s, a) {
        if Enabled(s, a) {
          DrainStep(s, a);
        }
      }
    }
  }

  /** For every run: once its shutdown has notified, the workers have only so many steps to
      take, and take them until all are done. */
  lemma EveryShutdownDrains(threads: nat, before: seq<Action>, later: seq<Action>, env: Env)
    requires threads >= 1 && Legal(Init(threads), before)
    requires P.Draining(After(Init(threads), before).pool) && Legal(After(Init(threads), before), later)
    ensures var s := After(Init(threads), before);
            var t := After(s, later);
            && WorkerSteps(later) <= Left(s) - Left(t)
            && (Left(t) > 0 <==> SomeWorkerCanMove(t))
  {
    ReachedInv(threads, before);
    DrainIsBounded(After(Init(threads), before), later);
    DrainStays(After(Init(threads), before), later);
    DrainNeverStuck(After(After(Init(threads), before), later), env);
  }

  lemma {:induction false} DrainStays(s: State, actions: seq<Action>)
    requires Inv(s) && P.Draining(s.pool) && Legal(s, actions)
    ensures Inv(After(s, actions)) && P.Draining(After(s, actions).pool)
    ensures |After(s, actions).pool.workers| == |s.pool.workers|
    decreases |actions|
  {
    if actions != [] {
      DrainStep(s, actions[0]);
      EnabledKeepsInv(s, actions[0]);
      SameWorkers(s, actions[0]);
      DrainStays(Apply(s, actions[0]), actions[1..]);
    }
  }

  lemma SameWorkers(s: State, a: Action)
    requires Possible(s, a)
    ensures |Apply(s, a).pool.workers| == |s.pool.workers|
  {
  }
}
