/** Which runs of the daemon there are (src/server.cpp:877-1028): each is a run of its pool,
    each can be continued to the end of its shutdown, and any list of clients can be accepted
    and served.  So none of the theorems about finished runs speaks of nothing.
 */
module DaemonRuns {
  import opened Text
  import opened Counting
  import opened Handler
  import opened Daemon
  import opened DaemonDrain
  import P = ThreadPools

  // ----- runs of the pool -----

  /** The steps of the pool in a run of the daemon. */
  ghost function PoolRun(s: State, actions: seq<Action>): seq<P.Action>
    requires Legal(s, actions)
    decreases |actions|
  {
    if actions == [] then []
    else
      var later := PoolRun(Apply(s, actions[0]), actions[1..]);
      match PoolStep(s, actions[0])
      case None => later
      case Some(step) => [step] + later
  }

  /** Seen from its pool, every run of the daemon is a run of the pool. */
  lemma {:induction false} RunIsPoolRun(s: State, actions: seq<Action>)
    requires Legal(s, actions)
    ensures P.Legal(s.pool, PoolRun(s, actions))
    ensures P.After(s.pool, PoolRun(s, actions)) == After(s, actions).pool
    decreases |actions|
  {
    if actions != [] {
      var t := Apply(s, actions[0]);
      StepIsPoolStep(s, actions[0]);
      RunIsPoolRun(t, actions[1..]);
      if PoolStep(s, actions[0]).Some? {
        var step := PoolStep(s, actions[0]).value;
        assert ([step] + PoolRun(t, actions[1..]))[1..] == PoolRun(t, actions[1..]);
      }
    }
  }

  // ----- every run can be finished -----

  /** How far the main thread is from having shut down. */
  function Stage(s: State): nat {
    match s.main
    case Accepted(_) => 6
    case OwesNotify => 5
    case Accepting => 4
    case Stopping =>
      (match s.pool.closing
       case NotClosing => 3
       case StopSet => 2
       case Notified => 1
       case Returned => 0)
    case Done => 0
  }

  function Unjoined(s: State): int {
    |s.pool.workers| - s.pool.joined
  }

  /** Closer to the end, in this order of importance: the main thread, what the workers still
      have to do, the joins. */
  predicate Closer(t: State, s: State) {
    || Stage(t) < Stage(s)
    || (Stage(t) == Stage(s) && (Left(t) < Left(s) || (Left(t) == Left(s) && Unjoined(t) < Unjoined(s))))
  }

  // A waiting worker to notify, if there is one.
  lemma NotifyGoesThrough(s: State) returns (step: P.Action)
    requires Inv(s) && s.main == OwesNotify
    ensures Enabled(s, Notify(step))
  {
    if P.NobodyWaits(s.pool) {
      step := P.NotifyNobody;
    } else {
      var w :| 0 <= w < |s.pool.workers| && s.pool.workers[w].Waiting?;
      step := P.NotifyOne(w);
    }
  }

  lemma WorkGoesOn(s: State, env: Env) returns (a: Action)
    requires Inv(s) && |s.pool.workers| >= 1 && s.main == Stopping && s.pool.closing == P.Notified
    requires Left(s) > 0
    ensures Enabled(s, a) && !a.Accept? && Closer(Apply(s, a), s)
  {
    DrainNeverStuck(s, env);
    a :| IsWorkerStep(a) && Enabled(s, a);
    DrainStep(s, a);
  }

  lemma JoinsGoOn(s: State, env: Env) returns (a: Action)
    requires Inv(s) && |s.pool.workers| >= 1 && s.main == Stopping && s.pool.closing == P.Notified
    requires Left(s) == 0
    ensures Enabled(s, a) && !a.Accept? && Closer(Apply(s, a), s)
  {
    DrainNeverStuck(s, env);
    a := if P.Enabled(s.pool, P.Join) then Shut(P.Join) else Shut(P.Return);
    DrainStep(s, a);
  }

  /** Short of the end there is always a step that leads closer to it, without accepting
      anybody else. */
  lemma SomeStepLeadsCloser(s: State, env: Env) returns (a: Action)
    requires Inv(s) && |s.pool.workers| >= 1 && s.main != Done
    ensures Enabled(s, a) && !a.Accept? && Closer(Apply(s, a), s)
  {
    match s.main {
      case Accepted(_) => a := Submit;
      case OwesNotify =>
        var step := NotifyGoesThrough(s);
        a := Notify(step);
      case Accepting => a := LeaveLoop;
      case Stopping =>
        if s.pool.closing == P.NotClosing {
          a := Shut(P.BeginShutdown);
        } else if s.pool.closing == P.StopSet {
          a := Shut(P.NotifyAll);
        } else if Left(s) > 0 {
          a := WorkGoesOn(s, env);
        } else {
          a := JoinsGoOn(s, env);
        }
    }
  }

  lemma OneMoreAction(s: State, a: Action, more: seq<Action>)
    requires Enabled(s, a) && Legal(Apply(s, a), more)
    ensures Legal(s, [a] + more) && After(s, [a] + more) == After(Apply(s, a), more)
  {
    assert ([a] + more)[1..] == more;
  }

  lemma {:induction false} StateCanFinish(s: State, env: Env) returns (more: seq<Action>)
    requires Inv(s) && |s.pool.workers| >= 1
    ensures Legal(s, more) && After(s, more).main == Done && After(s, more).accepted == s.accepted
    decreases Stage(s), Left(s), Unjoined(s)
  {
    if s.main == Done {
      return [];
    }
    var a := SomeStepLeadsCloser(s, env);
    EnabledKeepsInv(s, a);
    SameWorkers(s, a);
    var later := StateCanFinish(Apply(s, a), env);
    OneMoreAction(s, a, later);
    return [a] + later;
  }

  lemma LaterActions(s: State, a: seq<Action>)
    requires Legal(s, a) && a != []
    ensures Enabled(s, a[0]) && Legal(Apply(s, a[0]), a[1..]) && After(s, a) == After(Apply(s, a[0]), a[1..])
  {
  }

  lemma NoActions(s: State)
    ensures After(s, []) == s
  {
  }

  lemma HeadAndTail(a: seq<Action>, b: seq<Action>)
    requires a != []
    ensures [a[0]] + (a[1..] + b) == a + b
  {
  }

  lemma {:induction false} RunConcat(s: State, a: seq<Action>, b: seq<Action>)
    requires Legal(s, a) && Legal(After(s, a), b)
    ensures Legal(s, a + b) && After(s, a + b) == After(After(s, a), b)
    decreases |a|
  {
    if a == [] {
      NoActions(s);
      assert a + b == b;
    } else {
      LaterActions(s, a);
      RunConcat(Apply(s, a[0]), a[1..], b);
      HeadAndTail(a, b);
      OneMoreAction(s, a[0], a[1..] + b);
    }
  }

  /** Nothing that can happen keeps the daemon from shutting down: every run, wherever it
      stands, has a continuation in which run() comes to its end and everybody accepted so
      far, and nobody else, has been served. */
  lemma EveryRunCanFinish(threads: nat, actions: seq<Action>, env: Env) returns (more: seq<Action>)
    requires threads >= 1 && Legal(Init(threads), actions)
    ensures Legal(Init(threads), actions + more)
    ensures var s := After(Init(threads), actions + more);
            && s.main == Done
            && s.accepted == After(Init(threads), actions).accepted
            && forall fd :: Times(s.closed, fd) == Times(s.pool.handled, fd) == Times(s.accepted, fd)
  {
    ReachedInv(threads, actions);
    more := StateCanFinish(After(Init(threads), actions), env);
    RunConcat(Init(threads), actions, more);
    var s := After(Init(threads), actions + more);
    forall fd ensures Times(s.closed, fd) == Times(s.pool.handled, fd) == Times(s.accepted, fd) {
      EveryConnectionServed(threads, actions + more, fd);
    }
  }

  // ----- any list of clients -----

  lemma OneMoreClient(s: State, fd: int) returns (more: seq<Action>)
    requires Inv(s) && s.main == Accepting
    ensures Legal(s, more)
    ensures After(s, more).main == Accepting && After(s, more).accepted == s.accepted + [fd]
  {
    var s1 := Apply(s, Accept(fd));
    EnabledKeepsInv(s, Accept(fd));
    var s2 := Apply(s1, Submit);
    EnabledKeepsInv(s1, Submit);
    var step := NotifyGoesThrough(s2);
    OneMoreAction(s2, Notify(step), []);
    OneMoreAction(s1, Submit, [Notify(step)] + []);
    more := [Accept(fd)] + ([Submit] + ([Notify(step)] + []));
    OneMoreAction(s, Accept(fd), [Submit] + ([Notify(step)] + []));
  }

  lemma {:induction false} AnyClientsCanCome(threads: nat, fds: seq<int>) returns (actions: seq<Action>)
    ensures Legal(Init(threads), actions)
    ensures After(Init(threads), actions).main == Accepting && After(Init(threads), actions).accepted == fds
  {
    if fds == [] {
      return [];
    }
    var n := |fds| - 1;
    var before := AnyClientsCanCome(threads, fds[..n]);
    ReachedInv(threads, before);
    var more := OneMoreClient(After(Init(threads), before), fds[n]);
    RunConcat(Init(threads), before, more);
    assert fds[..n] + [fds[n]] == fds;
    return before + more;
  }

  /** For any clients there is a whole life of the daemon that accepts and serves exactly
      them; seen from the pool, a run in which shutdown() returned after all were handled. */
  lemma AnyClientsAreServed(threads: nat, fds: seq<int>, env: Env) returns (actions: seq<Action>)
    requires threads >= 1
    ensures Legal(Init(threads), actions)
    ensures var s := After(Init(threads), actions);
            && s.main == Done && s.accepted == fds
            && (forall fd :: Times(s.closed, fd) == Times(fds, fd))
            && P.Legal(P.Init(threads), PoolRun(Init(threads), actions))
            && P.After(P.Init(threads), PoolRun(Init(threads), actions)) == s.pool
            && s.pool.closing == P.Returned && s.pool.pushed == fds
  {
    var before := AnyClientsCanCome(threads, fds);
    var more := EveryRunCanFinish(threads, before, env);
    actions := before + more;
    RunIsPoolRun(Init(threads), actions);
    ReachedInv(threads, actions);
    assert fds == After(Init(threads), actions).pool.pushed + [];
  }
}
