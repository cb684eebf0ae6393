/** Over whole runs: who may own the DHCP server, and what it serves. */
module DaemonOwnership {
  import opened Basics
  import opened Config
  import opened Net
  import opened AutoPick
  import opened Apply
  import opened ApplyLaws
  import opened ApplyTheorems
  import opened Dhcpd
  import opened Daemon

  /** Our dnsmasq runs, owned or not, only under a stored gateway mode. */
  predicate OwnerOk(s: State) {
    Tracked(s.w.dhcpd) && (s.status.mode != Mode.Gateway ==> Dead(s.w.dhcpd))
  }

  /** In the whole journal: no probe while serving, and every reload met a stopped server. */
  predicate ColdLog(log: seq<Op>) {
    forall i :: 0 <= i < |log| ==>
      (log[i].Probe? ==> !log[i].serving) && (log[i].ReloadDnsmasq? ==> !log[i].running)
  }

  /** A server that was up to date still is. */
  predicate StaysCoherent(w: World, w': World) {
    Coherent(w.dhcpd) ==> Coherent(w'.dhcpd)
  }

  predicate Inv(s: State) {
    && OwnerOk(s) && ColdLog(s.w.log)
    && Valid(s.cfg) && !s.applying
    && (s.status.iface == "" ==> s.downSince.None?)
  }

  /** What an apply does to ownership, as the daemon uses it. */
  lemma ApplyOwnership(w: World, env: Env, cfg: Cfg)
    requires Tracked(w.dhcpd) && ColdLog(w.log)
    ensures var a := ApplyWith(w, env, cfg);
            && Tracked(a.w.dhcpd) && StaysCoherent(w, a.w) && ColdLog(a.w.log) && Grew(w, a.w)
            && (a.result.Err? ==> Dead(a.w.dhcpd) || a.w.dhcpd == w.dhcpd)
            && (a.result.Ok? && a.result.value.mode != Mode.Gateway ==> Dead(a.w.dhcpd))
  {
    ApplyLaw(w, env, cfg);
  }

  lemma FinishOwnership(s: State, env: Env)
    requires Inv(s)
    ensures Inv(ApplyNow(s, env)) && StaysCoherent(s.w, ApplyNow(s, env).w)
  {
    ApplyOwnership(s.w, env, s.cfg);
  }

  lemma HealOwnership(s: State, env: Env)
    requires OwnerOk(s) && ColdLog(s.w.log)
    ensures var w' := SelfHeal(s.w, env, s.cfg, s.status.mode, s.status.iface);
            OwnerOk(s.(w := w')) && ColdLog(w'.log) && StaysCoherent(s.w, w')
  {
    if s.status.mode == Mode.Gateway && !DhcpRunning(s.w) {
      DeadIsEmpty(s.w.dhcpd);
      ServeLaw(s.w, env, s.cfg, s.status.iface);
    }
  }

  lemma TickUpOwnership(s: State, env: Env)
    requires Inv(s)
    ensures Inv(TickUp(s, env)) && StaysCoherent(s.w, TickUp(s, env).w)
  {
    HealOwnership(RefreshLive(s.(downSince := None)), env);
  }

  lemma TickDownOwnership(s: State, env: Env)
    requires Inv(s) && s.status.iface != ""
    ensures Inv(TickDown(s, env)) && StaysCoherent(s.w, TickDown(s, env).w)
  {
    var since := if s.downSince.None? then Some(s.w.now) else s.downSince;
    FinishOwnership(Reset(s.(downSince := since)), env);
  }

  lemma TickOwnership(s: State, env: Env)
    requires Inv(s)
    ensures Inv(Tick(s, env)) && StaysCoherent(s.w, Tick(s, env).w)
  {
    var s1 := Looked(s, env);
    assert Inv(s1);
    if s.status.iface != "" {
      if Carrier(s.w, env, s.status.iface) {
        TickUpOwnership(s1, env);
      } else {
        TickDownOwnership(s1, env);
      }
    }
  }

  lemma StepOwnership(s: State, env: Env, e: Event)
    requires Inv(s)
    ensures Inv(Step(s, env, e)) && StaysCoherent(s.w, Step(s, env, e).w)
  {
    match e {
      case Reload(loaded) =>
        if loaded.Some? && Valid(loaded.value) { FinishOwnership(s.(cfg := loaded.value), env); }
      case Reconfigure => FinishOwnership(s, env);
      case TickDue => TickOwnership(s, env);
      case Meanwhile(_) =>
    }
  }

  lemma {:induction false} RunOwnership(s: State, env: Env, es: seq<Event>)
    requires Inv(s)
    ensures Inv(Run(s, env, es)) && StaysCoherent(s.w, Run(s, env, es).w)
    decreases |es|
  {
    if es != [] {
      RunOwnership(s, env, es[..|es| - 1]);
      StepOwnership(Run(s, env, es[..|es| - 1]), env, es[|es| - 1]);
    }
  }

  /**
   * Start the daemon on any host (a dnsmasq left by an earlier instance may still run, with any conf) and let
   * reloads, reconfigures, ticks, crashes and outside changes come in any order while any operation fails: a
   * dnsmasq of ours lives only under a stored gateway mode, and every start found the server stopped; and it
   * has loaded exactly the conf on disk, if that held of whatever was left over.
   */
  lemma DnsmasqOnlyInGateway(w: World, env: Env, cfg: Cfg, es: seq<Event>)
    requires Valid(cfg) && Tracked(w.dhcpd) && ColdLog(w.log)
    ensures var s := Run(Launch(w, env, cfg), env, es);
            && (s.w.dhcpd.procs != map[] ==> s.status.mode == Mode.Gateway)
            && Tracked(s.w.dhcpd) && StaysCoherent(w, s.w)
            && ColdLog(s.w.log)
            && Valid(s.cfg) && !s.applying
  {
    ApplyOwnership(w, env, cfg);
    assert Inv(Launch(w, env, cfg));
    RunOwnership(Launch(w, env, cfg), env, es);
  }

  /** Between two journals a server was started. */
  predicate StartedIn(log: seq<Op>, log': seq<Op>) {
    exists i :: |log| <= i < |log'| && log'[i].ReloadDnsmasq?
  }

  /** Healing starts a server exactly for a gateway without one. */
  lemma HealStarts(w: World, env: Env, cfg: Cfg, mode: Mode, iface: string)
    requires Tracked(w.dhcpd)
    ensures StartedIn(w.log, SelfHeal(w, env, cfg, mode, iface).log) <==> mode == Mode.Gateway && Dead(w.dhcpd)
  {
    if mode == Mode.Gateway && !DhcpRunning(w) {
      DeadIsEmpty(w.dhcpd);
      ServeLaw(w, env, cfg, iface);
      assert DnsmasqReload(w, env, cfg, iface).w.log[|w.log|].ReloadDnsmasq?;
    }
  }

  lemma TickJournal(s: State, env: Env)
    requires Inv(s) && s.status.iface != "" && Carrier(s.w, env, s.status.iface)
    ensures var w1 := Looked(s, env).w;
            Tick(s, env).w.log == SelfHeal(w1, env, s.cfg, s.status.mode, s.status.iface).log
  {}

  /**
   * Failing closed is a promise of one apply only: whatever the last failed apply saw, a tick with carrier
   * restarts the server exactly when the stored mode is gateway and none runs.
   */
  lemma TickRestarts(s: State, env: Env)
    requires Inv(s) && s.status.iface != "" && Carrier(s.w, env, s.status.iface)
    ensures StartedIn(s.w.log, Tick(s, env).w.log) <==> s.status.mode == Mode.Gateway && Dead(s.w.dhcpd)
  {
    var w1 := Looked(s, env).w;
    HealStarts(w1, env, s.cfg, s.status.mode, s.status.iface);
    TickJournal(s, env);
    HealGrows(w1, env, s.cfg, s.status.mode, s.status.iface);
    LookStartsNothing(s, env, Tick(s, env).w.log);
  }

  lemma HealGrows(w: World, env: Env, cfg: Cfg, mode: Mode, iface: string)
    ensures w.log <= SelfHeal(w, env, cfg, mode, iface).log
  {}

  /** The carrier read before is one entry, and no start. */
  lemma LookStartsNothing(s: State, env: Env, log: seq<Op>)
    requires Looked(s, env).w.log <= log
    ensures StartedIn(s.w.log, log) <==> StartedIn(Looked(s, env).w.log, log)
  {
    var log1 := Looked(s, env).w.log;
    assert |log1| == |s.w.log| + 1 && log[|s.w.log|] == log1[|s.w.log|];
  }

  /**
   * After a tick with carrier the reported address and server flag are the live ones, whatever an apply had
   * written there; interface and mode stay as selected, and the outage timer is off.
   */
  lemma TickReportsLive(s: State, env: Env)
    requires !s.applying && s.status.iface != "" && Carrier(s.w, env, s.status.iface)
    ensures var s' := Tick(s, env);
            && s'.status.iface == s.status.iface && s'.status.mode == s.status.mode
            && s'.status.cidr == Reported(s'.w, s.status.iface)
            && s'.status.dnsmasqRunning == DhcpRunning(s'.w)
            && s'.downSince.None?
  {
    var s1 := Looked(s, env);
    var s2 := RefreshLive(s1.(downSince := None));
    assert s2.status.mode == s.status.mode;
  }

  /** A configuration is replaced exactly by a valid reload, even one whose apply then fails. */
  lemma ConfigFollowsReloads(s: State, env: Env, e: Event)
    ensures Step(s, env, e).cfg ==
            if e.Reload? && e.loaded.Some? && Valid(e.loaded.value) then e.loaded.value else s.cfg
  {
    match e {
      case Reload(_) =>
      case Reconfigure =>
      case TickDue => ConfigSurvivesTick(s, env);
      case Meanwhile(_) =>
    }
  }

  lemma ConfigSurvivesTick(s: State, env: Env)
    ensures Tick(s, env).cfg == s.cfg
  {}
}
