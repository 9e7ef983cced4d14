/** The resources of a `Server` over its life: `init`, `run` with `cleanup`, and the
    destructor (src/server.cpp:224-626 and 877-922), for every point at which a system call
    can fail.

    The class records the calls it makes.  Descriptors are named by the order in which they
    were opened, so a descriptor closed twice, or never, shows in the record even where the
    kernel would have given its number away again.
 */
module ServerLifecycle {
  import opened Text
  import opened Counting
  import opened Config

  // ----- the record of calls -----

  datatype Call =
    | Opened(fd: nat)       // socket(), signalfd()
    | Closed(fd: nat)
    | Bound                 // bind() created the socket path
    | RemovedStale          // unlink() of a path found at startup
    | RemovedOwn            // unlink() of the path this instance created
    | WorkersStarted
    | WorkersJoined

  type Record = seq<Call>

  function Opens(r: Record): nat {
    if r == [] then 0 else Opens(r[..|r| - 1]) + if r[|r| - 1].Opened? then 1 else 0
  }

  /** The descriptors opened and not closed. */
  function Held(r: Record): set<nat> {
    if r == [] then {}
    else
      var before := Held(r[..|r| - 1]);
      match r[|r| - 1]
      case Opened(fd) => before + {fd}
      case Closed(fd) => before - {fd}
      case Bound | RemovedStale | RemovedOwn | WorkersStarted | WorkersJoined => before
  }

  /** Whether the path this instance created is still there. */
  predicate OwnsPath(r: Record) {
    r != [] && (r[|r| - 1].Bound? || (!r[|r| - 1].RemovedOwn? && OwnsPath(r[..|r| - 1])))
  }

  predicate WorkersAlive(r: Record) {
    r != [] && (r[|r| - 1].WorkersStarted? || (!r[|r| - 1].WorkersJoined? && WorkersAlive(r[..|r| - 1])))
  }

  /** A call that is in order: only open descriptors are closed, only an own path is removed,
      and nothing is closed or removed under running workers. */
  predicate InOrder(before: Record, c: Call) {
    match c
    case Opened(fd) => fd == Opens(before)
    case Closed(fd) => fd in Held(before) && !WorkersAlive(before)
    case Bound => Times(before, Bound) == 0
    case RemovedStale => Times(before, Bound) == 0
    case RemovedOwn => OwnsPath(before) && !WorkersAlive(before)
    case WorkersStarted => !WorkersAlive(before)
    case WorkersJoined => WorkersAlive(before)
  }

  predicate Disciplined(r: Record) {
    r == [] || (Disciplined(r[..|r| - 1]) && InOrder(r[..|r| - 1], r[|r| - 1]))
  }

  /** No bind() and no removal of a path found at startup in between. */
  predicate SamePathCalls(before: Record, after: Record) {
    Times(after, Bound) == Times(before, Bound) && Times(after, RemovedStale) == Times(before, RemovedStale)
  }

  lemma Appended(r: Record, c: Call)
    ensures (r + [c])[..|r + [c]| - 1] == r && (r + [c])[|r + [c]| - 1] == c
    ensures Disciplined(r + [c]) <==> Disciplined(r) && InOrder(r, c)
    ensures Opens(r + [c]) == Opens(r) + if c.Opened? then 1 else 0
    ensures Held(r + [c]) == if c.Opened? then Held(r) + {c.fd} else if c.Closed? then Held(r) - {c.fd} else Held(r)
    ensures OwnsPath(r + [c]) <==> c.Bound? || (!c.RemovedOwn? && OwnsPath(r))
    ensures WorkersAlive(r + [c]) <==> c.WorkersStarted? || (!c.WorkersJoined? && WorkersAlive(r))
    ensures Times(r + [c], Bound) == Times(r, Bound) + if c.Bound? then 1 else 0
    ensures Times(r + [c], RemovedStale) == Times(r, RemovedStale) + if c.RemovedStale? then 1 else 0
  {
    assert (r + [c])[..|r|] == r;
  }

  /** In a disciplined record each descriptor is opened once and closed once, or still held;
      and the path is removed once for each time it was created, or still there. */
  lemma {:induction false} DisciplineCounts(r: Record, fd: nat)
    requires Disciplined(r)
    ensures Times(r, Opened(fd)) == if fd < Opens(r) then 1 else 0
    ensures Times(r, Opened(fd)) == Times(r, Closed(fd)) + if fd in Held(r) then 1 else 0
    ensures Times(r, Bound) == Times(r, RemovedOwn) + if OwnsPath(r) then 1 else 0
    ensures Times(r, Bound) <= 1
  {
    if r != [] {
      DisciplineCounts(r[..|r| - 1], fd);
    }
  }

  /** Nothing left over. */
  predicate Settled(r: Record) {
    Disciplined(r) && Held(r) == {} && !OwnsPath(r) && !WorkersAlive(r)
  }

  /** The ledger balances: every descriptor ever opened was closed exactly once. */
  lemma SettledLedger(r: Record, fd: nat)
    requires Settled(r)
    ensures Times(r, Opened(fd)) == Times(r, Closed(fd)) == if fd < Opens(r) then 1 else 0
    ensures Times(r, RemovedOwn) == Times(r, Bound) <= 1
  {
    DisciplineCounts(r, fd);
  }

  // ----- what the environment answers -----

  datatype Lookup = Found | NotFound | Unreadable

  datatype TcpAnswers = TcpAnswers(socket: bool, reuse: bool, v6only: bool, bind: bool, listen: bool)

  datatype Family = Inet4 | Inet6 | OtherFamily

  /** The outcome of every call `init` makes; each is made at most once.  `listens` is no call:
      it says whether some process is listening on the path. */
  datatype Answers = Answers(
    sigprocmask: bool, signalfd: bool,
    opensCountry: bool, opensAsn: bool, opensCity: bool,
    mkdir: bool, directoryExists: bool, directoryUsable: bool,
    path: Lookup, isSocket: bool, listens: bool, probeSocket: bool, connects: bool, unlinksStale: bool,
    socket: bool, bind: bool, chmod: bool, listen: bool,
    tcp4: TcpAnswers, tcp6: TcpAnswers, address: Option<Family>)

  predicate SignalsReady(a: Answers) {
    a.sigprocmask && a.signalfd
  }

  predicate DatabasesReady(cfg: Config, a: Answers) {
    && (cfg.countryDb != "" ==> a.opensCountry)
    && (cfg.asnDb != "" ==> a.opensAsn)
    && (cfg.cityDb != "" ==> a.opensCity)
    && (cfg.countryDb != "" || cfg.asnDb != "" || cfg.cityDb != "")
  }

  function LastSlash(s: string): int {
    if s == "" then -1 else if s[|s| - 1] == '/' then |s| - 1 else LastSlash(s[..|s| - 1])
  }

  /** `ensure_socket_directory` */
  predicate DirectoryReady(cfg: Config, a: Answers) {
    LastSlash(cfg.socketPath) <= 0 || a.mkdir || (a.directoryExists && a.directoryUsable)
  }

  /** `path_has_live_listener`: the probe could be made and was answered. */
  predicate ProbeAnswered(a: Answers) {
    a.probeSocket && a.connects
  }

  /** A socket is in the way and the probe was not answered. */
  predicate TakenForStale(a: Answers) {
    a.path.Found? && a.isSocket && !ProbeAnswered(a)
  }

  predicate PathFree(a: Answers) {
    a.path.NotFound? || (TakenForStale(a) && a.unlinksStale)
  }

  /** `init` comes to unlink a path it found. */
  predicate RemovesFound(cfg: Config, a: Answers) {
    && SignalsReady(a) && DatabasesReady(cfg, a) && DirectoryReady(cfg, a)
    && TakenForStale(a) && a.unlinksStale
  }

  /** The record shows that a path was unlinked on which another process was listening. */
  predicate RemovedLive(a: Answers, r: Record) {
    a.listens && Times(r, RemovedStale) > 0
  }

  /** What lets that happen: `init` finds a socket, the process listening on it is not heard,
      and unlink() succeeds. */
  predicate LosesLive(cfg: Config, a: Answers) {
    && SignalsReady(a) && DatabasesReady(cfg, a) && DirectoryReady(cfg, a)
    && a.path.Found? && a.isSocket && a.listens && (!a.probeSocket || !a.connects) && a.unlinksStale
  }

  lemma LostExactly(cfg: Config, a: Answers, r: Record)
    requires Times(r, RemovedStale) == if RemovesFound(cfg, a) then 1 else 0
    ensures RemovedLive(a, r) <==> LosesLive(cfg, a)
  {
  }

  /** sizeof(sockaddr_un::sun_path) */
  const SUN_PATH := 108

  /** The UNIX socket gets bound. */
  predicate Binds(cfg: Config, a: Answers) {
    && SignalsReady(a) && DatabasesReady(cfg, a) && DirectoryReady(cfg, a) && PathFree(a)
    && a.socket && |cfg.socketPath| < SUN_PATH && a.bind
  }

  predicate TcpBinds(family: Family, t: TcpAnswers) {
    t.socket && t.reuse && (family.Inet6? ==> t.v6only) && t.bind && t.listen
  }

  predicate TcpReady(cfg: Config, a: Answers) {
    || cfg.tcpPort == 0
    || (cfg.tcpAddress == "" && TcpBinds(Inet4, a.tcp4) && TcpBinds(Inet6, a.tcp6))
    || (cfg.tcpAddress != "" && a.address.Some? && !a.address.value.OtherFamily?
        && TcpBinds(a.address.value, if a.address.value.Inet4? then a.tcp4 else a.tcp6))
  }

  function TcpListeners(cfg: Config): nat {
    if cfg.tcpPort == 0 then 0 else if cfg.tcpAddress == "" then 2 else 1
  }

  predicate Starts(cfg: Config, a: Answers) {
    Binds(cfg, a) && a.chmod && a.listen && TcpReady(cfg, a)
  }

  // ----- the server -----

  class Server {
    const cfg: Config
    var listenFd: int
    var tcpListenFds: seq<nat>
    var signalFd: int
    var socketCreated: bool
    var pool: bool
    var calls: Record

    /** The fields name exactly the resources the record shows as held. */
    ghost predicate Valid()
      reads this
    {
      && Disciplined(calls)
      && Owns(calls, listenFd, tcpListenFds, signalFd)
      && socketCreated == OwnsPath(calls)
      && pool == WorkersAlive(calls)
    }

    constructor (cfg: Config)
      ensures Valid() && calls == [] && this.cfg == cfg
      ensures listenFd == -1 && signalFd == -1 && tcpListenFds == [] && !socketCreated && !pool
    {
      this.cfg := cfg;
      listenFd, tcpListenFds, signalFd := -1, [], -1;
      socketCreated, pool, calls := false, false, [];
    }

    method Make(c: Call)
      requires Disciplined(calls) && InOrder(calls, c)
      modifies this`calls
      ensures calls == old(calls) + [c] && Disciplined(calls)
      ensures Opens(calls) == Opens(old(calls)) + if c.Opened? then 1 else 0
      ensures Held(calls) == if c.Opened? then Held(old(calls)) + {c.fd}
                             else if c.Closed? then Held(old(calls)) - {c.fd} else Held(old(calls))
      ensures OwnsPath(calls) <==> c.Bound? || (!c.RemovedOwn? && OwnsPath(old(calls)))
      ensures WorkersAlive(calls) <==> c.WorkersStarted? || (!c.WorkersJoined? && WorkersAlive(old(calls)))
      ensures Times(calls, Bound) == Times(old(calls), Bound) + if c.Bound? then 1 else 0
      ensures Times(calls, RemovedStale) == Times(old(calls), RemovedStale) + if c.RemovedStale? then 1 else 0
    {
      Appended(calls, c);
      calls := calls + [c];
    }

    method SetupSignals(a: Answers) returns (ok: bool)
      requires Valid() && signalFd == -1
      modifies this`signalFd, this`calls
      ensures Valid() && ok == SignalsReady(a) && (ok <==> signalFd >= 0)
      ensures SamePathCalls(old(calls), calls)
    {
      if !a.sigprocmask || !a.signalfd {
        return false;
      }
      var fd := Opens(calls);
      NewIsNotHeld(calls);
      Make(Opened(fd));
      signalFd := fd;
      return true;
    }

    /** `path_has_live_listener`: the probe is closed whatever connect() says. */
    method ProbeListener(a: Answers) returns (live: bool)
      requires Valid() && !pool
      modifies this`calls
      ensures Valid() && live == ProbeAnswered(a)
      ensures SamePathCalls(old(calls), calls)
    {
      if !a.probeSocket {
        return false;
      }
      var fd := Opens(calls);
      NewIsNotHeld(calls);
      Make(Opened(fd));
      live := a.connects;
      Make(Closed(fd));
      assert Held(calls) == Held(old(calls));
    }

    /** The first half of `setup_socket`: a path in the way is removed only if it is a socket
        and the probe was not answered. */
    method ClearPath(a: Answers) returns (ok: bool)
      requires Valid() && !pool && Times(calls, Bound) == 0
      modifies this`calls
      ensures Valid() && ok == PathFree(a) && Times(calls, Bound) == 0
      ensures Times(calls, RemovedStale)
           == Times(old(calls), RemovedStale) + if TakenForStale(a) && a.unlinksStale then 1 else 0
    {
      if a.path.Found? {
        if !a.isSocket {
          return false;
        }
        var live := ProbeListener(a);
        if live {
          return false;
        }
        if !a.unlinksStale {
          return false;
        }
        Make(RemovedStale);
      } else if !a.path.NotFound? {
        return false;
      }
      return true;
    }

    method SetupSocket(a: Answers) returns (ok: bool)
      requires Valid() && !pool && listenFd == -1 && Times(calls, Bound) == Times(calls, RemovedStale) == 0
      requires !socketCreated
      modifies this`listenFd, this`socketCreated, this`calls
      ensures Valid()
      ensures var binds := DirectoryReady(cfg, a) && PathFree(a) && a.socket && |cfg.socketPath| < SUN_PATH && a.bind;
              && ok == (binds && a.chmod && a.listen)
              && socketCreated == binds && Times(calls, Bound) == if binds then 1 else 0
      ensures Times(calls, RemovedStale)
           == if DirectoryReady(cfg, a) && TakenForStale(a) && a.unlinksStale then 1 else 0
      ensures ok ==> listenFd >= 0
    {
      var slash := LastSlash(cfg.socketPath);
      if slash > 0 && !a.mkdir && !(a.directoryExists && a.directoryUsable) {
        return false;
      }
      var free := ClearPath(a);
      if !free {
        return false;
      }
      ok := BindSocket(a);
    }

    /** The second half: from socket() on, with the descriptor already in its field when
        something fails. */
    method BindSocket(a: Answers) returns (ok: bool)
      requires Valid() && !pool && listenFd == -1 && Times(calls, Bound) == 0
      modifies this`listenFd, this`socketCreated, this`calls
      ensures Valid()
      ensures var binds := a.socket && |cfg.socketPath| < SUN_PATH && a.bind;
              && ok == (binds && a.chmod && a.listen)
              && socketCreated == (old(socketCreated) || binds) && Times(calls, Bound) == if binds then 1 else 0
      ensures Times(calls, RemovedStale) == Times(old(calls), RemovedStale)
      ensures ok ==> listenFd >= 0
    {
      if !a.socket {
        return false;
      }
      var fd := Opens(calls);
      NewIsNotHeld(calls);
      Make(Opened(fd));
      listenFd := fd;
      if |cfg.socketPath| >= SUN_PATH {
        return false;
      }
      if !a.bind {
        return false;
      }
      Make(Bound);
      socketCreated := true;
      return a.chmod && a.listen;
    }

    /** `bind_one_tcp`: a listener that cannot be finished is closed here. */
    method BindOneTcp(family: Family, t: TcpAnswers) returns (ok: bool)
      requires Valid() && !pool
      modifies this`tcpListenFds, this`calls
      ensures Valid() && ok == TcpBinds(family, t)
      ensures |tcpListenFds| == |old(tcpListenFds)| + if ok then 1 else 0
      ensures SamePathCalls(old(calls), calls)
    {
      if !t.socket {
        return false;
      }
      var fd := Opens(calls);
      NewIsNotHeld(calls);
      Make(Opened(fd));
      if !t.reuse || (family.Inet6? && !t.v6only) || !t.bind || !t.listen {
        Make(Closed(fd));
        assert Held(calls) == Held(old(calls));
        return false;
      }
      tcpListenFds := tcpListenFds + [fd];
      return true;
    }

    method SetupTcpListeners(a: Answers) returns (ok: bool)
      requires Valid() && !pool && tcpListenFds == []
      modifies this`tcpListenFds, this`calls
      ensures Valid() && ok == TcpReady(cfg, a)
      ensures ok ==> |tcpListenFds| == TcpListeners(cfg)
      ensures SamePathCalls(old(calls), calls)
    {
      if cfg.tcpPort == 0 {
        return true;
      }
      if cfg.tcpAddress == "" {
        ok := BindOneTcp(Inet4, a.tcp4);
        if !ok {
          return false;
        }
        ok := BindOneTcp(Inet6, a.tcp6);
        return ok;
      }
      if a.address.None? {
        return false;
      }
      if a.address.value.OtherFamily? {
        return false;
      }
      ok := BindOneTcp(a.address.value, if a.address.value.Inet4? then a.tcp4 else a.tcp6);
    }

    /** `init`: it succeeds exactly if every call it needs does, and has then all listeners and
        the workers; wherever it fails, the fields still name all that is held. */
    method Init(a: Answers) returns (ok: bool)
      requires Valid() && calls == [] && listenFd == -1 && signalFd == -1 && tcpListenFds == []
      modifies this
      ensures Valid() && ok == Starts(cfg, a) && pool == ok
      ensures ok ==> listenFd >= 0 && signalFd >= 0 && |tcpListenFds| == TcpListeners(cfg)
      ensures Times(calls, Bound) == if Binds(cfg, a) then 1 else 0
      ensures socketCreated == Binds(cfg, a)
      ensures Times(calls, RemovedStale) == if RemovesFound(cfg, a) then 1 else 0
      ensures RemovedLive(a, calls) <==> LosesLive(cfg, a)
    {
      ok := SetupSignals(a);
      if !ok {
        return;
      }
      ok := OpenDatabases(a);
      if !ok {
        return;
      }
      ok := StartServing(a);
      LostExactly(cfg, a, calls);
    }

    /** The part of `init` that opens the databases. */
    method OpenDatabases(a: Answers) returns (ok: bool)
      ensures ok == DatabasesReady(cfg, a)
    {
      if cfg.countryDb != "" && !a.opensCountry {
        return false;
      }
      if cfg.asnDb != "" && !a.opensAsn {
        return false;
      }
      if cfg.cityDb != "" && !a.opensCity {
        return false;
      }
      if cfg.countryDb == "" && cfg.asnDb == "" && cfg.cityDb == "" {
        return false;
      }
      return true;
    }

    /** The second half of `init`: the listeners and the workers. */
    method StartServing(a: Answers) returns (ok: bool)
      requires Valid() && !pool && listenFd == -1 && Times(calls, Bound) == Times(calls, RemovedStale) == 0
      requires !socketCreated && tcpListenFds == []
      modifies this`listenFd, this`tcpListenFds, this`socketCreated, this`pool, this`calls
      ensures Valid() && pool == ok
      ensures var binds := DirectoryReady(cfg, a) && PathFree(a) && a.socket && |cfg.socketPath| < SUN_PATH && a.bind;
              && ok == (binds && a.chmod && a.listen && TcpReady(cfg, a))
              && socketCreated == binds && Times(calls, Bound) == if binds then 1 else 0
      ensures Times(calls, RemovedStale)
           == if DirectoryReady(cfg, a) && TakenForStale(a) && a.unlinksStale then 1 else 0
      ensures ok ==> listenFd >= 0 && |tcpListenFds| == TcpListeners(cfg)
    {
      ok := SetupSocket(a);
      if !ok {
        return;
      }
      ok := SetupTcpListeners(a);
      if !ok {
        return;
      }
      Make(WorkersStarted);
      pool := true;
    }

    /** close() of each descriptor of a list. */
    method CloseEach(fds: seq<nat>)
      requires Disciplined(calls) && !WorkersAlive(calls)
      requires Unrepeated(fds) && (forall fd :: fd in fds ==> fd in Held(calls))
      modifies this`calls
      ensures Disciplined(calls) && !WorkersAlive(calls)
      ensures Held(calls) == Held(old(calls)) - (set fd | fd in fds)
      ensures OwnsPath(calls) == OwnsPath(old(calls)) && SamePathCalls(old(calls), calls)
      ensures fds == [] ==> calls == old(calls)
    {
      for i := 0 to |fds|
        invariant Disciplined(calls) && !WorkersAlive(calls)
        invariant Held(calls) == Held(old(calls)) - (set fd | fd in fds[..i])
        invariant OwnsPath(calls) == OwnsPath(old(calls)) && SamePathCalls(old(calls), calls)
        invariant i == 0 ==> calls == old(calls)
      {
        assert fds[i] !in fds[..i];
        Make(Closed(fds[i]));
        assert fds[..i + 1] == fds[..i] + [fds[i]];
      }
      assert fds[..|fds|] == fds;
    }

    method CloseListener()
      requires Valid() && !pool
      modifies this`listenFd, this`calls
      ensures Valid() && listenFd == -1 && SamePathCalls(old(calls), calls)
    {
      if listenFd >= 0 {
        Make(Closed(listenFd));
        listenFd := -1;
      }
    }

    method CloseTcpListeners()
      requires Valid() && !pool
      modifies this`tcpListenFds, this`calls
      ensures Valid() && tcpListenFds == [] && SamePathCalls(old(calls), calls)
    {
      CloseEach(tcpListenFds);
      tcpListenFds := [];
    }

    method RemoveSocket()
      requires Valid() && !pool
      modifies this`socketCreated, this`calls
      ensures Valid() && !socketCreated && SamePathCalls(old(calls), calls)
    {
      if socketCreated {
        Make(RemovedOwn);
        socketCreated := false;
      }
    }

    method CloseSignals()
      requires Valid() && !pool
      modifies this`signalFd, this`calls
      ensures Valid() && signalFd == -1 && SamePathCalls(old(calls), calls)
    {
      if signalFd >= 0 {
        Make(Closed(signalFd));
        signalFd := -1;
      }
    }

    /** `cleanup`, which `run` calls when its loop has ended. */
    method Cleanup()
      requires Valid()
      modifies this
      ensures Valid() && Settled(calls)
      ensures listenFd == -1 && signalFd == -1 && tcpListenFds == [] && !socketCreated && !pool
      ensures SamePathCalls(old(calls), calls)
    {
      if pool {
        Make(WorkersJoined);
        pool := false;
      }
      CloseListener();
      CloseTcpListeners();
      RemoveSocket();
      CloseSignals();
    }

    method CloseField(fd: int)
      requires Disciplined(calls) && !WorkersAlive(calls) && (fd >= 0 ==> fd in Held(calls))
      modifies this`calls
      ensures Disciplined(calls) && !WorkersAlive(calls)
      ensures Held(calls) == Held(old(calls)) - (if fd >= 0 then {fd as nat} else {})
      ensures OwnsPath(calls) == OwnsPath(old(calls)) && SamePathCalls(old(calls), calls)
      ensures fd < 0 ==> calls == old(calls)
    {
      if fd >= 0 {
        Make(Closed(fd));
      }
    }

    /** `~Server`; the fields are gone afterwards and stay as they were.  After `cleanup` it
        finds nothing left to do. */
    method Destroy()
      requires Valid()
      modifies this`pool, this`calls
      ensures Settled(calls)
      ensures SamePathCalls(old(calls), calls)
      ensures old(!pool && listenFd < 0 && tcpListenFds == [] && signalFd < 0 && !socketCreated) ==> calls == old(calls)
    {
      if pool {
        Make(WorkersJoined);
        pool := false;
      }
      CloseField(listenFd);
      CloseEach(tcpListenFds);
      CloseField(signalFd);
      NothingHeld(old(calls), listenFd, tcpListenFds, signalFd, calls);
      if socketCreated {
        Make(RemovedOwn);
      }
    }
  }

  lemma NothingHeld(r: Record, listenFd: int, tcp: seq<nat>, signalFd: int, after: Record)
    requires Owns(r, listenFd, tcp, signalFd)
    requires Held(after) == Held(r) - (if listenFd >= 0 then {listenFd as nat} else {}) - (set fd | fd in tcp)
                                    - (if signalFd >= 0 then {signalFd as nat} else {})
    ensures Held(after) == {}
  {
    forall fd: nat ensures fd !in Held(after) {
    }
  }

  predicate Unrepeated(s: seq<nat>) {
    forall i, j :: 0 <= i < j < |s| ==> s[i] != s[j]
  }

  /** These fields name the held descriptors, each once. */
  ghost predicate Owns(r: Record, listenFd: int, tcp: seq<nat>, signalFd: int) {
    && listenFd >= -1 && signalFd >= -1
    && Unrepeated(tcp)
    && listenFd !in tcp && signalFd !in tcp && (listenFd >= 0 ==> listenFd != signalFd)
    && (forall fd: nat :: fd in Held(r) <==> fd == listenFd || fd == signalFd || fd in tcp)
  }

  // A new descriptor is none of those held.
  lemma {:induction false} NewIsNotHeld(r: Record)
    requires Disciplined(r)
    ensures forall fd :: fd in Held(r) ==> fd < Opens(r)
  {
    if r != [] {
      NewIsNotHeld(r[..|r| - 1]);
    }
  }

  /** A whole life as main() gives it: `init`, then `run` with its `cleanup` if that
      succeeded, then the destructor.  Whatever fails, the ledger balances, and the path is
      removed at the end exactly if this instance had bound it; a path found at startup is
      removed exactly as `RemovesFound` says.  The record then shows a live socket removed
      exactly if a probe that was not made or not answered let it happen; if connect() tells
      the truth about who is listening, exactly if the probe's own socket() failed. */
  method Live(cfg: Config, a: Answers) returns (started: bool, calls: Record)
    ensures started == Starts(cfg, a)
    ensures |cfg.socketPath| >= 108 ==> !started && Times(calls, Bound) == 0
    ensures Settled(calls)
    ensures Times(calls, RemovedOwn) == Times(calls, Bound) == if Binds(cfg, a) then 1 else 0
    ensures Times(calls, RemovedStale) == if RemovesFound(cfg, a) then 1 else 0
    ensures RemovedLive(a, calls) <==> LosesLive(cfg, a)
    ensures (a.connects <==> a.listens) && RemovedLive(a, calls) ==> !a.probeSocket
    ensures forall fd: nat :: Times(calls, Opened(fd)) == Times(calls, Closed(fd)) == if fd < Opens(calls) then 1 else 0
  {
    var server := new Server(cfg);
    started := server.Init(a);
    if started {
      server.Cleanup();
    }
    server.Destroy();
    calls := server.calls;
    LostExactly(cfg, a, calls);
    SettledLedger(calls, 0);
    forall fd: nat
      ensures Times(calls, Opened(fd)) == Times(calls, Closed(fd)) == if fd < Opens(calls) then 1 else 0
    {
      SettledLedger(calls, fd);
    }
  }

  predicate AllCallsOn(t: TcpAnswers, family: Family) {
    t.socket && t.reuse && t.bind && t.listen && (family.Inet6? ==> t.v6only)
  }

  /** Every call counts: `init` starts exactly if each one that it makes on its way goes well -
      for the signals, for a database and each one configured, for the directory, for a path
      that is free or a dead socket that can be removed, on the UNIX socket, and on the TCP
      listeners that are configured. */
  lemma StartsExactly(cfg: Config, a: Answers)
    ensures Starts(cfg, a)
            <==> && a.sigprocmask && a.signalfd
                 && (cfg.countryDb != "" || cfg.asnDb != "" || cfg.cityDb != "")
                 && (cfg.countryDb != "" ==> a.opensCountry)
                 && (cfg.asnDb != "" ==> a.opensAsn)
                 && (cfg.cityDb != "" ==> a.opensCity)
                 && (LastSlash(cfg.socketPath) > 0 ==> a.mkdir || (a.directoryExists && a.directoryUsable))
                 && !a.path.Unreadable?
                 && (a.path.Found? ==> a.isSocket && !(a.probeSocket && a.connects) && a.unlinksStale)
                 && |cfg.socketPath| < 108 && a.socket && a.bind && a.chmod && a.listen
                 && (cfg.tcpPort != 0 && cfg.tcpAddress == "" ==>
                       AllCallsOn(a.tcp4, Inet4) && AllCallsOn(a.tcp6, Inet6))
                 && (cfg.tcpPort != 0 && cfg.tcpAddress != "" ==>
                       || (a.address == Some(Inet4) && AllCallsOn(a.tcp4, Inet4))
                       || (a.address == Some(Inet6) && AllCallsOn(a.tcp6, Inet6)))
  {
  }

  const GRANTED := TcpAnswers(true, true, true, true, true)

  /** Every call is granted but the socket() of the probe, while somebody listens on the
      path and connect() would say so. */
  const PROBE_FAILS := Answers(true, true, true, true, true, true, true, true,
                               Lookup.Found, true, true, false, true, true,
                               true, true, true, true, GRANTED, GRANTED, Some(Inet4))

  /** The failing family: for every usable configuration there is a life that starts, takes
      the path from a live instance, and ends without leaving anything behind. */
  method LiveSocketIsTaken(cfg: Config) returns (a: Answers, calls: Record)
    requires |cfg.socketPath| < 108
    requires cfg.countryDb != "" || cfg.asnDb != "" || cfg.cityDb != ""
    ensures a.listens && a.connects && RemovedLive(a, calls)
    ensures Times(calls, Bound) == 1 && Settled(calls)
  {
    a := PROBE_FAILS;
    var started;
    started, calls := Live(cfg, a);
    assert started;
  }
}
