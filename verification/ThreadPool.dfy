/** `ThreadPool` (src/thread_pool.cpp): a queue of connections under a mutex and a
    condition variable, any number of workers and submitters, and a shutdown that drains
    the queue.

    A step is one locked region, one notify, one wake-up, one handler call or one join.
    `notify_one` is issued after the mutex is released, so it is a step of its own; a
    waiting worker may also wake up on its own.
 */
module ThreadPools {
  import opened Text
  import opened Counting

  /** Where a worker thread is. */
  datatype Phase =
    | Ready              // about to take the mutex
    | Waiting            // blocked in cv_.wait
    | Handling(fd: int)  // in handler_(fd)
    | Exited

  /** How far the shutdown() call that set the flag has come. */
  datatype Closing = NotClosing | StopSet | Notified | Returned

  datatype State = State(
    queue: seq<int>,
    stop: bool,
    workers: seq<Phase>,
    owed: nat,           // submit() calls that have queued but not notified yet
    closing: Closing,
    joined: nat,
    // what has happened so far
    pushed: seq<int>,
    popped: seq<int>,
    handled: seq<int>,
    refused: seq<int>)   // closed by submit() itself

  datatype Action =
    | Submit(fd: int)
    | NotifyOne(w: nat)
    | NotifyNobody
    | BeginShutdown
    | NotifyAll
    | Join
    | Return
    | WakeSpuriously(w: nat)
    | Section(w: nat)
    | Finish(w: nat)

  predicate NobodyWaits(s: State) {
    forall i :: 0 <= i < |s.workers| ==> !s.workers[i].Waiting?
  }

  predicate Enabled(s: State, a: Action) {
    match a
    case Submit(_) => true
    case NotifyOne(w) => s.owed > 0 && w < |s.workers| && s.workers[w].Waiting?
    case NotifyNobody => s.owed > 0 && NobodyWaits(s)
    case BeginShutdown => !s.stop
    case NotifyAll => s.closing == StopSet
    case Join => s.closing == Notified && s.joined < |s.workers| && s.workers[s.joined].Exited?
    case Return => s.closing == Notified && s.joined == |s.workers|
    case WakeSpuriously(w) => w < |s.workers| && s.workers[w].Waiting?
    case Section(w) => w < |s.workers| && s.workers[w].Ready?
    case Finish(w) => w < |s.workers| && s.workers[w].Handling?
  }

  function WakeAll(workers: seq<Phase>): (r: seq<Phase>)
    ensures |r| == |workers|
    ensures forall i :: 0 <= i < |r| ==> r[i] == if workers[i].Waiting? then Ready else workers[i]
  {
    seq(|workers|, i requires 0 <= i < |workers| => if workers[i].Waiting? then Ready else workers[i])
  }

  function Apply(s: State, a: Action): State
    requires Enabled(s, a)
  {
    match a
    case Submit(fd) =>
      if s.stop then s.(refused := s.refused + [fd])
      else s.(queue := s.queue + [fd], pushed := s.pushed + [fd], owed := s.owed + 1)
    case NotifyOne(w) => s.(workers := s.workers[w := Ready], owed := s.owed - 1)
    case NotifyNobody => s.(owed := s.owed - 1)
    case BeginShutdown => s.(stop := true, closing := StopSet)
    case NotifyAll => s.(workers := WakeAll(s.workers), closing := Notified)
    case Join => s.(joined := s.joined + 1)
    case Return => s.(closing := Returned)
    case WakeSpuriously(w) => s.(workers := s.workers[w := Ready])
    case Section(w) =>
      if s.queue != [] then
        s.(workers := s.workers[w := Handling(s.queue[0])], queue := s.queue[1..],
           popped := s.popped + [s.queue[0]])
      else s.(workers := s.workers[w := if s.stop then Exited else Waiting])
    case Finish(w) =>
      s.(workers := s.workers[w := Ready], handled := s.handled + [s.workers[w].fd])
  }

  function Init(threads: nat): State {
    State([], false, seq(threads, _ => Ready), 0, NotClosing, 0, [], [], [], [])
  }

  predicate Legal(s: State, actions: seq<Action>)
    decreases |actions|
  {
    actions == [] || (Enabled(s, actions[0]) && Legal(Apply(s, actions[0]), actions[1..]))
  }

  function After(s: State, actions: seq<Action>): State
    requires Legal(s, actions)
    decreases |actions|
  {
    if actions == [] then s else After(Apply(s, actions[0]), actions[1..])
  }

  // ----- the class -----

  /** The pool object, one method per step; a schedule of calls is a run. */
  class ThreadPool {
    var queue: seq<int>
    var stop: bool
    var workers: seq<Phase>
    ghost var owed: nat
    ghost var closing: Closing
    ghost var joined: nat
    ghost var pushed: seq<int>
    ghost var popped: seq<int>
    ghost var handled: seq<int>
    ghost var refused: seq<int>

    ghost function Abstract(): State
      reads this
    {
      State(queue, stop, workers, owed, closing, joined, pushed, popped, handled, refused)
    }

    constructor (threads: nat)
      ensures Abstract() == Init(threads)
    {
      queue, stop, workers := [], false, seq(threads, _ => Ready);
      owed, closing, joined := 0, NotClosing, 0;
      pushed, popped, handled, refused := [], [], [], [];
    }

    /** The locked region of submit(); `queued` tells whether a notify follows. */
    method SubmitLocked(fd: int) returns (queued: bool)
      modifies this
      ensures Abstract() == Apply(old(Abstract()), Submit(fd))
      ensures queued == !old(stop)
    {
      if stop {
        refused := refused + [fd];
        return false;
      }
      queue := queue + [fd];
      pushed, owed := pushed + [fd], owed + 1;
      return true;
    }

    /** notify_one() behind a submit; the system picks the waiter, if there is one. */
    method NotifyOneWaiter(pick: nat) returns (woken: bool)
      requires owed > 0
      requires (exists i :: 0 <= i < |workers| && workers[i].Waiting?) ==> pick < |workers| && workers[pick].Waiting?
      modifies this
      ensures woken <==> !NobodyWaits(old(Abstract()))
      ensures Abstract() == Apply(old(Abstract()), if woken then NotifyOne(pick) else NotifyNobody)
    {
      owed := owed - 1;
      if pick < |workers| && workers[pick].Waiting? {
        workers := workers[pick := Ready];
        return true;
      }
      return false;
    }

    /** The locked region of shutdown(); `first` is false when the flag was set already. */
    method BeginShutdownLocked() returns (first: bool)
      modifies this
      ensures first == !old(stop)
      ensures Abstract() == if first then Apply(old(Abstract()), BeginShutdown) else old(Abstract())
    {
      if stop {
        return false;
      }
      stop := true;
      closing := StopSet;
      return true;
    }

    method NotifyAllWaiters()
      requires closing == StopSet
      modifies this
      ensures Abstract() == Apply(old(Abstract()), NotifyAll)
    {
      var k := 0;
      while k < |workers|
        invariant 0 <= k <= |workers| == |old(workers)|
        invariant forall i :: 0 <= i < k ==> workers[i] == if old(workers)[i].Waiting? then Ready else old(workers)[i]
        invariant forall i :: k <= i < |workers| ==> workers[i] == old(workers)[i]
        invariant Abstract() == old(Abstract()).(workers := workers)
      {
        if workers[k].Waiting? {
          workers := workers[k := Ready];
        }
        k := k + 1;
      }
      closing := Notified;
      assert workers == WakeAll(old(workers));
    }

    /** The locked region of worker_loop(): wait, or leave the loop, or pop.  The second
        test for an empty queue is never true. */
    method WorkerSection(w: nat) returns (popped_: Option<int>)
      requires w < |workers| && workers[w].Ready?
      modifies this
      ensures Abstract() == Apply(old(Abstract()), Section(w))
      ensures popped_ == if old(queue) != [] then Some(old(queue)[0]) else None
    {
      if !(stop || queue != []) {
        workers := workers[w := Waiting];
        return None;
      }
      if stop && queue == [] {
        workers := workers[w := Exited];
        return None;
      }
      if queue == [] {
        assert false;
      }
      var fd := queue[0];
      queue := queue[1..];
      workers := workers[w := Handling(fd)];
      popped := popped + [fd];
      return Some(fd);
    }

    method FinishHandler(w: nat)
      requires w < |workers| && workers[w].Handling?
      modifies this
      ensures Abstract() == Apply(old(Abstract()), Finish(w))
    {
      handled := handled + [workers[w].fd];
      workers := workers[w := Ready];
    }
  }

  // ----- the invariant -----

  const WAITING: Phase -> nat := (p: Phase) => if p.Waiting? then 1 else 0
  const READY: Phase -> nat := (p: Phase) => if p.Ready? then 1 else 0

  function Holds(fd: int): Phase -> nat {
    (p: Phase) => if p.Handling? && p.fd == fd then 1 else 0
  }

  /** While a worker sleeps, every queued connection has its wake-up on the way: a notify
      still owed, or a worker already awake and about to take the mutex. */
  predicate NoLostWakeUp(s: State) {
    Sum(s.workers, WAITING) > 0 ==> |s.queue| <= s.owed + Sum(s.workers, READY)
  }

  predicate ExitInv(s: State) {
    && (forall i :: 0 <= i < |s.workers| && s.workers[i].Exited? ==> s.stop && s.queue == [])
    && s.joined <= |s.workers|
    && (forall i :: 0 <= i < s.joined ==> s.workers[i].Exited?)
  }

  predicate ClosingInv(s: State) {
    && (s.stop <==> s.closing != NotClosing)
    && (s.closing == Notified || s.closing == Returned ==> NobodyWaits(s))
    && (s.closing == Returned ==> s.joined == |s.workers|)
  }

  predicate FifoInv(s: State) {
    s.pushed == s.popped + s.queue
  }

  /** Every popped connection is with one worker or has been handled. */
  ghost predicate HeldInv(s: State) {
    forall fd :: Times(s.popped, fd) == Sum(s.workers, Holds(fd)) + Times(s.handled, fd)
  }

  ghost predicate Inv(s: State) {
    NoLostWakeUp(s) && ExitInv(s) && ClosingInv(s) && FifoInv(s) && HeldInv(s)
  }

  lemma {:induction false} SumOfReady(n: nat, weight: Phase -> nat)
    requires weight(Ready) == 0
    ensures Sum(seq(n, _ => Ready), weight) == 0
  {
    SumZero(seq(n, _ => Ready), weight);
  }

  lemma InitInv(threads: nat)
    ensures Inv(Init(threads))
  {
    forall fd ensures Sum(Init(threads).workers, Holds(fd)) == 0 {
      SumOfReady(threads, Holds(fd));
    }
  }

  lemma {:induction false} WakeAllSums(workers: seq<Phase>, weight: Phase -> nat)
    requires weight(Ready) == 0 && weight(Waiting) == 0
    ensures Sum(WakeAll(workers), weight) == Sum(workers, weight)
  {
    if workers != [] {
      assert WakeAll(workers)[1..] == WakeAll(workers[1..]);
      WakeAllSums(workers[1..], weight);
    }
  }

  lemma NobodyWaitsSum(s: State)
    ensures NobodyWaits(s) <==> Sum(s.workers, WAITING) == 0
  {
    SumZero(s.workers, WAITING);
    if Sum(s.workers, WAITING) == 0 {
      forall i | 0 <= i < |s.workers| ensures !s.workers[i].Waiting? {
        assert WAITING(s.workers[i]) == 0;
      }
    }
  }

  lemma StepKeepsWakeUps(s: State, a: Action)
    requires NoLostWakeUp(s) && Enabled(s, a)
    ensures NoLostWakeUp(Apply(s, a))
  {
    var t := Apply(s, a);
    if a.NotifyOne? || a.WakeSpuriously? || a.Section? || a.Finish? {
      SumUpdate(s.workers, a.w, t.workers[a.w], WAITING);
      SumUpdate(s.workers, a.w, t.workers[a.w], READY);
    }
    if a.NotifyNobody? {
      NobodyWaitsSum(s);
    }
    if a.NotifyAll? {
      NobodyWaitsSum(t);
    }
  }

  lemma StepKeepsExit(s: State, a: Action)
    requires ExitInv(s) && ClosingInv(s) && FifoInv(s) && Enabled(s, a)
    ensures ExitInv(Apply(s, a)) && ClosingInv(Apply(s, a)) && FifoInv(Apply(s, a))
  {
    var t := Apply(s, a);
    if a.Submit? && !s.stop {
      assert s.popped + s.queue + [a.fd] == s.popped + (s.queue + [a.fd]);
    }
    if a.Section? && s.queue != [] {
      assert s.popped + s.queue == s.popped + [s.queue[0]] + s.queue[1..];
    }
  }

  lemma PopIsHeld(workers: seq<Phase>, popped: seq<int>, handled: seq<int>, w: nat, conn: int, fd: int)
    requires w < |workers| && workers[w].Ready?
    requires Times(popped, fd) == Sum(workers, Holds(fd)) + Times(handled, fd)
    ensures Times(popped + [conn], fd) == Sum(workers[w := Handling(conn)], Holds(fd)) + Times(handled, fd)
  {
    SumUpdate(workers, w, Handling(conn), Holds(fd));
    TimesAppend(popped, conn, fd);
  }

  lemma FinishIsHandled(workers: seq<Phase>, popped: seq<int>, handled: seq<int>, w: nat, fd: int)
    requires w < |workers| && workers[w].Handling?
    requires Times(popped, fd) == Sum(workers, Holds(fd)) + Times(handled, fd)
    ensures Times(popped, fd) == Sum(workers[w := Ready], Holds(fd)) + Times(handled + [workers[w].fd], fd)
  {
    SumUpdate(workers, w, Ready, Holds(fd));
    TimesAppend(handled, workers[w].fd, fd);
  }

  lemma IdleMoveHoldsNothing(workers: seq<Phase>, w: nat, now: Phase, fd: int)
    requires w < |workers| && !workers[w].Handling? && !now.Handling?
    ensures Sum(workers[w := now], Holds(fd)) == Sum(workers, Holds(fd))
  {
    SumUpdate(workers, w, now, Holds(fd));
  }

  lemma StepKeepsHeld(s: State, a: Action, fd: int)
    requires Enabled(s, a)
    requires Times(s.popped, fd) == Sum(s.workers, Holds(fd)) + Times(s.handled, fd)
    ensures var t := Apply(s, a);
            Times(t.popped, fd) == Sum(t.workers, Holds(fd)) + Times(t.handled, fd)
  {
    match a {
      case Submit(_) =>
      case NotifyOne(w) => IdleMoveHoldsNothing(s.workers, w, Ready, fd);
      case NotifyNobody =>
      case BeginShutdown =>
      case NotifyAll => WakeAllSums(s.workers, Holds(fd));
      case Join =>
      case Return =>
      case WakeSpuriously(w) => IdleMoveHoldsNothing(s.workers, w, Ready, fd);
      case Section(w) =>
        if s.queue != [] {
          PopIsHeld(s.workers, s.popped, s.handled, w, s.queue[0], fd);
        } else {
          IdleMoveHoldsNothing(s.workers, w, if s.stop then Exited else Waiting, fd);
        }
      case Finish(w) => FinishIsHandled(s.workers, s.popped, s.handled, w, fd);
    }
  }

  lemma StepKeepsInv(s: State, a: Action)
    requires Inv(s) && Enabled(s, a)
    ensures Inv(Apply(s, a))
  {
    StepKeepsWakeUps(s, a);
    StepKeepsExit(s, a);
    var t := Apply(s, a);
    forall fd ensures Times(t.popped, fd) == Sum(t.workers, Holds(fd)) + Times(t.handled, fd) {
      StepKeepsHeld(s, a, fd);
    }
  }

  lemma {:induction false} RunKeepsInv(s: State, actions: seq<Action>)
    requires Inv(s) && Legal(s, actions)
    ensures Inv(After(s, actions)) && |After(s, actions).workers| == |s.workers|
    decreases |actions|
  {
    if actions != [] {
      StepKeepsInv(s, actions[0]);
      RunKeepsInv(Apply(s, actions[0]), actions[1..]);
    }
  }

  // ----- what every run keeps -----

  /** The connections given to submit(), in order. */
  function Submitted(actions: seq<Action>): seq<int> {
    if actions == [] then [] else Given(actions[0]) + Submitted(actions[1..])
  }

  function Given(a: Action): seq<int> {
    if a.Submit? then [a.fd] else []
  }

  lemma StepTakesSubmitted(s: State, a: Action)
    requires Enabled(s, a) && (!s.stop ==> s.refused == [])
    ensures var t := Apply(s, a);
            && (s.stop ==> t.stop) && (!t.stop ==> t.refused == [])
            && t.pushed + t.refused == s.pushed + s.refused + Given(a)
  {
    var t := Apply(s, a);
    if a.Submit? && s.stop {
      assert t.pushed + t.refused == s.pushed + s.refused + [a.fd];
    } else if a.Submit? {
      assert t.pushed + t.refused == t.pushed && s.pushed + s.refused == s.pushed;
    } else {
      assert s.pushed + s.refused + [] == s.pushed + s.refused;
    }
  }

  lemma Regroup(before: seq<int>, a: seq<int>, b: seq<int>)
    ensures before + a + b == before + (a + b) && before + [] == before
  {
  }

  lemma {:induction false} RunTakesSubmitted(s: State, actions: seq<Action>)
    requires Legal(s, actions) && (!s.stop ==> s.refused == [])
    ensures var t := After(s, actions);
            t.pushed + t.refused == s.pushed + s.refused + Submitted(actions)
    decreases |actions|
  {
    if actions == [] {
      Regroup(s.pushed + s.refused, [], []);
    } else {
      StepTakesSubmitted(s, actions[0]);
      RunTakesSubmitted(Apply(s, actions[0]), actions[1..]);
      Regroup(s.pushed + s.refused, Given(actions[0]), Submitted(actions[1..]));
    }
  }

  /** Exactly once, in order: at every point of every interleaving the connections submitted
      so far are, in order, those popped, those queued, and those refused after the stop; and
      each is queued, with one worker, handled or refused, as often as it was submitted. */
  lemma ExactlyOnceInOrder(threads: nat, actions: seq<Action>, fd: int)
    requires Legal(Init(threads), actions)
    ensures var s := After(Init(threads), actions);
            && s.pushed == s.popped + s.queue
            && s.pushed + s.refused == Submitted(actions)
            && Times(s.pushed, fd)
               == Times(s.queue, fd) + Sum(s.workers, Holds(fd)) + Times(s.handled, fd)
            && Times(Submitted(actions), fd) == Times(s.pushed, fd) + Times(s.refused, fd)
  {
    InitInv(threads);
    RunKeepsInv(Init(threads), actions);
    RunTakesSubmitted(Init(threads), actions);
    var s := After(Init(threads), actions);
    assert [] + [] + Submitted(actions) == Submitted(actions);
    TimesConcat(s.popped, s.queue, fd);
    TimesConcat(s.pushed, s.refused, fd);
  }

  /** No lost wake-up: no reachable state has a queued connection while every worker that
      has not exited sleeps and no notify is on its way. */
  lemma NoReachableLostWakeUp(threads: nat, actions: seq<Action>)
    requires threads >= 1 && Legal(Init(threads), actions)
    ensures var s := After(Init(threads), actions);
            && NoLostWakeUp(s)
            && (s.queue != [] && (forall i :: 0 <= i < |s.workers| ==> s.workers[i].Waiting? || s.workers[i].Exited?)
                ==> s.owed > 0)
  {
    InitInv(threads);
    RunKeepsInv(Init(threads), actions);
    var s := After(Init(threads), actions);
    if s.queue != [] && forall i :: 0 <= i < |s.workers| ==> s.workers[i].Waiting? || s.workers[i].Exited? {
      assert s.workers[0].Waiting?;
      NobodyWaitsSum(s);
      SumZero(s.workers, READY);
      forall i | 0 <= i < |s.workers| ensures READY(s.workers[i]) == 0 {
      }
    }
  }

  /** A worker exits only when the pool is stopped and its queue empty for good: whatever
      happens afterwards, the worker stays gone and nothing is queued any more. */
  lemma {:induction false} ExitIsForGood(s: State, later: seq<Action>, w: nat)
    requires Inv(s) && Legal(s, later) && w < |s.workers| && s.workers[w].Exited?
    ensures s.stop && s.queue == []
    ensures var t := After(s, later);
            && t.stop && t.queue == [] && t.pushed == s.pushed
            && w < |t.workers| && t.workers[w].Exited?
    decreases |later|
  {
    if later != [] {
      StepKeepsInv(s, later[0]);
      ExitStays(s, later[0], w);
      ExitIsForGood(Apply(s, later[0]), later[1..], w);
    }
  }

  lemma ExitStays(s: State, a: Action, w: nat)
    requires Enabled(s, a) && w < |s.workers| && s.workers[w].Exited? && s.stop
    ensures var t := Apply(s, a);
            w < |t.workers| && t.workers[w].Exited? && t.pushed == s.pushed
  {
  }

  // ----- the drain -----

  /** What a worker still has to do once nobody waits any more. */
  const WORK: Phase -> nat := (p: Phase) => if p.Ready? then 1 else if p.Handling? then 2 else 0

  function Remaining(s: State): nat {
    2 * |s.queue| + Sum(s.workers, WORK)
  }

  predicate IsWorkerStep(a: Action) {
    a.Section? || a.Finish?
  }

  predicate Draining(s: State) {
    s.closing == Notified || s.closing == Returned
  }

  /** After the notify_all, each worker step uses up one unit of the remaining work, no
      other step adds any, and nobody goes back to waiting. */
  lemma DrainStep(s: State, a: Action)
    requires Inv(s) && Draining(s) && Enabled(s, a)
    ensures Draining(Apply(s, a)) && NobodyWaits(Apply(s, a))
    ensures Remaining(Apply(s, a)) == Remaining(s) - if IsWorkerStep(a) then 1 else 0
  {
    var t := Apply(s, a);
    if IsWorkerStep(a) {
      SumUpdate(s.workers, a.w, t.workers[a.w], WORK);
    }
    StepKeepsExit(s, a);
  }

  function WorkerSteps(actions: seq<Action>): nat {
    if actions == [] then 0 else (if IsWorkerStep(actions[0]) then 1 else 0) + WorkerSteps(actions[1..])
  }

  /** The drain takes exactly as many worker steps as there is work, in every
      interleaving with further submits, notifies and joins. */
  lemma {:induction false} DrainIsBounded(s: State, actions: seq<Action>)
    requires Inv(s) && Draining(s) && Legal(s, actions)
    ensures NobodyWaits(After(s, actions))
    ensures Remaining(After(s, actions)) + WorkerSteps(actions) == Remaining(s)
    decreases |actions|
  {
    if actions != [] {
      DrainStep(s, actions[0]);
      StepKeepsInv(s, actions[0]);
      DrainIsBounded(Apply(s, actions[0]), actions[1..]);
    }
  }

  /** The drain never gets stuck: while work remains some worker can move, and when none
      remains every worker has exited with the queue empty, so every join succeeds. */
  lemma DrainNeverStuck(s: State)
    requires Inv(s) && Draining(s) && |s.workers| >= 1
    ensures Remaining(s) > 0 <==> exists w :: Enabled(s, Section(w)) || Enabled(s, Finish(w))
    ensures Remaining(s) == 0 ==> s.queue == [] && forall i :: 0 <= i < |s.workers| ==> s.workers[i].Exited?
    ensures Remaining(s) == 0 && s.closing == Notified ==> Enabled(s, Join) || Enabled(s, Return)
  {
    SumZero(s.workers, WORK);
    forall i | 0 <= i < |s.workers| ensures WORK(s.workers[i]) == 0 <==> s.workers[i].Exited? {
      assert !s.workers[i].Waiting?;
    }
    if Sum(s.workers, WORK) == 0 {
      assert s.workers[0].Exited?;
    } else {
      var i :| 0 <= i < |s.workers| && WORK(s.workers[i]) != 0;
      assert Enabled(s, Section(i)) || Enabled(s, Finish(i));
    }
  }

  /** When shutdown() returns, every worker has exited and everything ever queued has been
      handled, as often as it was queued. */
  lemma ShutdownDrained(threads: nat, actions: seq<Action>, fd: int)
    requires Legal(Init(threads), actions)
    requires After(Init(threads), actions).closing == Returned && threads >= 1
    ensures var s := After(Init(threads), actions);
            && s.queue == [] && (forall i :: 0 <= i < |s.workers| ==> s.workers[i].Exited?)
            && Times(s.handled, fd) == Times(s.pushed, fd)
  {
    InitInv(threads);
    RunKeepsInv(Init(threads), actions);
    ExactlyOnceInOrder(threads, actions, fd);
    var s := After(Init(threads), actions);
    assert s.workers[0].Exited?;
    SumZero(s.workers, Holds(fd));
  }
}
