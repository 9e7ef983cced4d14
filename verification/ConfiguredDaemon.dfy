/** What the range checks of the configuration buy the rest of the program. */
module ConfiguredDaemon {
  import opened Counting
  import opened Metrics
  import Config
  import Startup
  import Daemon
  import P = ThreadPools

  /** However the daemon was configured - any file, environment and machine - a run that came
      through its shutdown has handled and closed every connection it accepted, and at no
      point of any run did a queued connection wait with nobody awake or about to be woken. */
  lemma ConfiguredDaemonServes(
      detected: nat, file: Startup.FileState, env: Config.Environment,
      dirs: seq<string>, present: string -> bool, cfg: Config.Config,
      actions: seq<Daemon.Action>, fd: int)
    requires Startup.Configured(detected, file, env, dirs, present, cfg)
    requires cfg.threads >= 0 && Daemon.Legal(Daemon.Init(cfg.threads), actions)
    ensures var s := Daemon.After(Daemon.Init(cfg.threads), actions);
            && P.NoLostWakeUp(s.pool)
            && (s.main == Daemon.Done ==>
                  Times(s.pool.handled, fd) == Times(s.closed, fd) == Times(s.accepted, fd)
                  && Requests(s.totals) == Responses(s.totals))
  {
    Startup.ConfiguredInRange(detected, file, env, dirs, present, cfg);
    Daemon.ReachedInv(cfg.threads, actions);
    if Daemon.After(Daemon.Init(cfg.threads), actions).main == Daemon.Done {
      Daemon.EveryConnectionServed(cfg.threads, actions, fd);
    }
  }
}
