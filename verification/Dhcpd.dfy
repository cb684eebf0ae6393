/** Our dnsmasq: the conf file on disk, the pidfile that owns the process, and what the process has loaded. */
module Dhcpd {
  import opened Basics

  /**
   * `conf` is what reading the conf file gives (a missing file reads as the empty text), `pidfile` the pid
   * it names, and `procs` maps every live dnsmasq that micronet started to the conf text it read at start.
   */
  datatype Dhcpd = Dhcpd(conf: string, pidfile: Option<nat>, procs: map<nat, string>)

  /** How the operating system answers during one call. */
  datatype Faults = Faults(
    confDirOk: bool,    // create_dir_all on the conf directory
    writeOk: bool,      // fs::write of the conf, atomic
    binary: bool,       // the dnsmasq binary exists
    runDirOk: bool,     // create_dir_all on the pidfile directory
    staleOk: bool,      // remove_file of a stale pidfile before starting
    spawnOk: bool,      // dnsmasq daemonised with exit status 0
    pid: nat,           // the pid it then got
    termKills: bool,    // SIGTERM was enough within the grace time
    removeOk: bool,     // remove_file of the pidfile after stopping
    hupOk: bool,        // kill(SIGHUP) succeeded
    hupKills: bool)     // the process vanished after SIGHUP

  /** The pidfile names a live dnsmasq. */
  predicate Alive(g: Dhcpd) {
    g.pidfile.Some? && g.pidfile.value in g.procs
  }

  /** No dnsmasq of ours lives outside the pidfile. */
  predicate Tracked(g: Dhcpd) {
    forall p :: p in g.procs ==> g.pidfile == Some(p)
  }

  /** Whatever runs has loaded exactly what is on disk. */
  predicate Coherent(g: Dhcpd) {
    Tracked(g) && forall p :: p in g.procs ==> g.procs[p] == g.conf
  }

  datatype Done = Done(ok: bool, g: Dhcpd)

  /** After `stop` the owned process is gone, whichever signal it took. */
  function Stop(g: Dhcpd, f: Faults): Dhcpd {
    var g1 := if Alive(g) then g.(procs := g.procs - {g.pidfile.value}) else g;
    if f.removeOk then g1.(pidfile := None) else g1
  }

  /** `start`: a failed start leaves no process; a successful one has read the conf now on disk. */
  function Start(g: Dhcpd, f: Faults): Done {
    if !f.binary then Done(false, g)
    else if Alive(g) then Done(true, g)
    else if !f.runDirOk then Done(false, g)
    else
      var g1 := if f.staleOk then g.(pidfile := None) else g;
      if f.spawnOk then Done(true, g1.(pidfile := Some(f.pid), procs := g1.procs[f.pid := g1.conf]))
      else Done(false, g1)
  }

  /** `ensure_conf`: `Ok(true)` when the file was rewritten. */
  function EnsureConf(g: Dhcpd, body: string, f: Faults): (Result<bool>, Dhcpd) {
    if !f.confDirOk then (Err(Io), g)
    else if g.conf == body then (Ok(false), g)
    else if !f.writeOk then (Err(Io), g)
    else (Ok(true), g.(conf := body))
  }

  function ReloadOrRestart(g: Dhcpd, changed: bool, f: Faults): Done {
    if !Alive(g) then Start(g, f)
    else if changed || !f.hupOk then Start(Stop(g, f), f)
    else if !f.hupKills then Done(true, g)
    else Start(g.(procs := g.procs - {g.pidfile.value}), f)
  }

  /** What apply and self-heal call: write the conf if it differs, then reload or restart. */
  function Reload(g: Dhcpd, body: string, f: Faults): Done {
    var (changed, g1) := EnsureConf(g, body, f);
    if changed.Err? then Done(false, g1) else ReloadOrRestart(g1, changed.value, f)
  }

  /** The flag tells exactly whether a running process has loaded something else than what is now on disk. */
  lemma ChangedFlagIsExact(g: Dhcpd, body: string, f: Faults)
    requires Coherent(g) && Alive(g)
    ensures var (changed, g1) := EnsureConf(g, body, f);
            changed.Ok? ==> g1.conf == body && (changed.value <==> g1.procs[g1.pidfile.value] != g1.conf)
  {}

  /** A stopped server has no process left, so the next start cannot leave two. */
  lemma StopEmpties(g: Dhcpd, f: Faults)
    requires Tracked(g)
    ensures Stop(g, f).procs == map[] && !Alive(Stop(g, f)) && Stop(g, f).conf == g.conf
    ensures Stop(g, f).pidfile == if f.removeOk then None else g.pidfile
  {}

  lemma DeadIsEmpty(g: Dhcpd)
    requires Tracked(g) && !Alive(g)
    ensures g.procs == map[]
  {}

  /** From no process, start yields exactly the one process with the conf on disk, or none. */
  lemma StartFromNothing(g: Dhcpd, f: Faults)
    requires g.procs == map[]
    ensures var d := Start(g, f);
            && d.g.conf == g.conf
            && (d.ok <==> f.binary && f.runDirOk && f.spawnOk)
            && (d.ok ==> Alive(d.g) && d.g.procs == map[f.pid := g.conf] && d.g.pidfile == Some(f.pid))
            && (!d.ok ==> d.g.procs == map[])
  {}

  /**
   * One call, from any coherent state and under any faults: coherent again; on success exactly one process
   * runs and it has loaded `body`; on failure either nothing was touched or nothing runs.
   */
  lemma ReloadCoherent(g: Dhcpd, body: string, f: Faults)
    requires Coherent(g)
    ensures var d := Reload(g, body, f);
            && Coherent(d.g)
            && (d.ok ==> Alive(d.g) && d.g.conf == body && d.g.procs == map[d.g.pidfile.value := body])
            && (!d.ok ==> d.g == g || d.g.procs == map[])
  {
    var (changed, g1) := EnsureConf(g, body, f);
    if changed.Ok? {
      if !Alive(g1) {
        DeadIsEmpty(g1);
        StartFromNothing(g1, f);
      } else if changed.value || !f.hupOk {
        StopEmpties(g1, f);
        StartFromNothing(Stop(g1, f), f);
      } else if f.hupKills {
        var g2 := g1.(procs := g1.procs - {g1.pidfile.value});
        assert g2.procs == map[];
        StartFromNothing(g2, f);
      } else {
        assert g.procs == map[g.pidfile.value := body];
      }
    }
  }

  /** The server already serves this text, and SIGHUP reaches it. */
  predicate UpToDate(g: Dhcpd, body: string, f: Faults) {
    Alive(g) && g.conf == body && f.hupOk && !f.hupKills
  }

  /**
   * Exactly when a call succeeds: the text is on disk or can be written there, and either the running server
   * needs no more than a SIGHUP, and then it is not restarted, or a new one can be started.
   */
  lemma ReloadSucceeds(g: Dhcpd, body: string, f: Faults)
    requires Coherent(g)
    ensures var d := Reload(g, body, f);
            && (d.ok <==> f.confDirOk && (g.conf == body || f.writeOk)
                          && (UpToDate(g, body, f) || (f.binary && f.runDirOk && f.spawnOk)))
            && (UpToDate(g, body, f) && f.confDirOk ==> d.g == g)
            && (d.ok && !UpToDate(g, body, f) ==> d.g.pidfile == Some(f.pid))
  {
    var (changed, g1) := EnsureConf(g, body, f);
    if changed.Ok? {
      if !Alive(g1) {
        DeadIsEmpty(g1);
        StartFromNothing(g1, f);
      } else if changed.value || !f.hupOk {
        StopEmpties(g1, f);
        StartFromNothing(Stop(g1, f), f);
      } else if f.hupKills {
        var g2 := g1.(procs := g1.procs - {g1.pidfile.value});
        assert g2.procs == map[];
        StartFromNothing(g2, f);
      }
    }
  }

  /** Everything that can happen to the server between two observations. */
  datatype Call =
    | CallReload(body: string, faults: Faults)
    | CallStop(faults: Faults)
    | Crash(pid: nat)

  function AfterCall(g: Dhcpd, s: Call): Dhcpd {
    match s
    case CallReload(body, f) => Reload(g, body, f).g
    case CallStop(f) => Stop(g, f)
    case Crash(p) => g.(procs := g.procs - {p})
  }

  function AfterCalls(g: Dhcpd, steps: seq<Call>): Dhcpd
    decreases |steps|
  {
    if steps == [] then g else AfterCalls(AfterCall(g, steps[0]), steps[1..])
  }

  /** Over every sequence of calls, faults and crashes a running dnsmasq is tracked and up to date. */
  lemma {:induction false} CoherentForever(g: Dhcpd, steps: seq<Call>)
    requires Coherent(g)
    ensures Coherent(AfterCalls(g, steps))
    decreases |steps|
  {
    if steps != [] {
      match steps[0] {
        case CallReload(body, f) => ReloadCoherent(g, body, f);
        case CallStop(f) => StopEmpties(g, f);
        case Crash(_) =>
      }
      CoherentForever(AfterCall(g, steps[0]), steps[1..]);
    }
  }

  /** A restart that failed is made up for: the next call whose start succeeds serves the new conf. */
  lemma FailedRestartRecovers(g: Dhcpd, body: string, f1: Faults, between: seq<Call>, f2: Faults)
    requires Coherent(g) && !Reload(g, body, f1).ok
    ensures var d := Reload(AfterCalls(Reload(g, body, f1).g, between), body, f2);
            d.ok ==> d.g.procs == map[d.g.pidfile.value := body]
  {
    ReloadCoherent(g, body, f1);
    CoherentForever(Reload(g, body, f1).g, between);
    ReloadCoherent(AfterCalls(Reload(g, body, f1).g, between), body, f2);
  }
}
