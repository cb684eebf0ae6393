/** What a tick and an event do, in terms of the host alone: verdicts, healing, and the stored status. */
module DaemonVerdicts {
  import opened Basics
  import opened Config
  import opened Net
  import opened Dhcpd
  import opened Apply
  import opened ApplyLaws
  import opened Daemon
  import opened DaemonOwnership
  import opened DaemonHistory
  import opened DaemonTiming

  // ----- Verdicts -----

  /** The interface has carrier when the next operation is done. */
  predicate Plugged(s: State, env: Env) {
    s.status.iface != "" && s.status.iface in s.w.adminUp && env.plugged(|s.w.log|, s.status.iface)
  }

  /** What is wrong with a host on which this interface was selected in this mode, the address first. */
  function Complaint(w: World, mode: Mode, iface: string): Option<Reason> {
    if HidesAddress(iface) || Addrs(w, iface) == [] then Some(NoIpv4)
    else if mode == Mode.Gateway && w.dhcpd.procs == map[] then Some(NoDnsmasq)
    else if mode == Client && iface !in w.dhclient then Some(NoDhclient)
    else None
  }

  function VerdictOf(complaint: Option<Reason>): Verdict {
    if complaint.Some? then Unhealthy(complaint.value) else Healthy
  }

  /** A tick with carrier marks exactly what is wrong with the host that it leaves behind. */
  lemma TickVerdict(s: State, env: Env)
    requires Inv(s) && Plugged(s, env)
    ensures ObserveTick(s, env) == Judged(VerdictOf(Complaint(Tick(s, env).w, s.status.mode, s.status.iface)))
  {
    TickOwnership(s, env);
    var w' := Tick(s, env).w;
    assert Alive(w'.dhcpd) <==> w'.dhcpd.procs != map[] by { if !Alive(w'.dhcpd) { DeadIsEmpty(w'.dhcpd); } }
    assert Reported(w', s.status.iface).None? <==> HidesAddress(s.status.iface) || Addrs(w', s.status.iface) == [];
  }

  /** What a tick with carrier is seen to be over every run from start; without carrier it is no verdict. */
  lemma {:induction false} VerdictLaw(w: World, env: Env, cfg: Cfg, es: seq<Event>, k: nat)
    requires Valid(cfg) && Tracked(w.dhcpd) && ColdLog(w.log) && k < |es| && es[k] == TickDue
    ensures var s0 := Launch(w, env, cfg);
            var s, s' := Run(s0, env, es[..k]), Run(s0, env, es[..k + 1]);
            var seen := History(s0, env, es)[k];
            && (s.status.iface == "" ==> seen == Judged(Unhealthy(EmptyIface)))
            && (Plugged(s, env) ==> seen == Judged(VerdictOf(Complaint(s'.w, s.status.mode, s.status.iface))))
            && (s.status.iface != "" && !Plugged(s, env) ==> seen.Down?)
  {
    var s0 := Launch(w, env, cfg);
    var s := Run(s0, env, es[..k]);
    LaunchInv(w, env, cfg);
    RunOwnership(s0, env, es[..k]);
    HistoryAt(s0, env, es, k);
    StepIs(s0, env, es, k);
    if Plugged(s, env) { TickVerdict(s, env); }
  }

  // ----- Healing -----

  /** A gateway without a server: it is started, and serves the conf of the configuration in force. */
  predicate ServerStarted(s: State, env: Env, w': World) {
    && |w'.log| == |s.w.log| + 2 && w'.log[|s.w.log| + 1].ReloadDnsmasq?
    && (if w'.log[|s.w.log| + 1].ok then Serves(w'.dhcpd, env.render(s.cfg, s.status.iface)) else Dead(w'.dhcpd))
    && w'.dhclient == s.w.dhclient
  }

  /** A client without dhclient: it is started on the interface. */
  predicate DhclientStarted(s: State, w': World) {
    && |w'.log| == |s.w.log| + 2 && w'.log[|s.w.log| + 1].StartDhclient?
    && w'.log[|s.w.log| + 1].name == s.status.iface
    && w'.dhclient == s.w.dhclient + (if w'.log[|s.w.log| + 1].ok then {s.status.iface} else {})
    && w'.dhcpd == s.w.dhcpd
  }

  /**
   * A tick with carrier starts what is missing and nothing else: our server for a gateway, dhclient for a
   * client; links, addresses and routes it leaves alone.
   */
  lemma TickHeals(s: State, env: Env)
    requires Inv(s) && Plugged(s, env)
    ensures var w' := Tick(s, env).w;
            && s.w.log + [ReadCarrier(s.status.iface, true)] <= w'.log
            && w'.addrs == s.w.addrs && w'.adminUp == s.w.adminUp && w'.route == s.w.route && w'.eths == s.w.eths
            && (if s.status.mode == Mode.Gateway && s.w.dhcpd.procs == map[] then ServerStarted(s, env, w')
                else if s.status.mode == Client && s.status.iface !in s.w.dhclient then DhclientStarted(s, w')
                else |w'.log| == |s.w.log| + 1 && w'.dhclient == s.w.dhclient && w'.dhcpd == s.w.dhcpd)
  {
    var w1 := Looked(s, env).w;
    HealWorld(w1, env, s.cfg, s.status.mode, s.status.iface);
    TickWorld(s, env);
  }

  lemma TickWorld(s: State, env: Env)
    requires Inv(s) && Plugged(s, env)
    ensures Tick(s, env).w == SelfHeal(Looked(s, env).w, env, s.cfg, s.status.mode, s.status.iface)
    ensures Looked(s, env).w == s.w.(log := s.w.log + [ReadCarrier(s.status.iface, true)], now := Looked(s, env).w.now)
  {}

  lemma HealWorld(w: World, env: Env, cfg: Cfg, mode: Mode, iface: string)
    requires Tracked(w.dhcpd)
    ensures var w' := SelfHeal(w, env, cfg, mode, iface);
            if mode == Mode.Gateway && w.dhcpd.procs == map[] then
              w' == DnsmasqReload(w, env, cfg, iface).w && Dead(w.dhcpd)
              && w'.log == w.log + [ReloadDnsmasq(false, DnsmasqReload(w, env, cfg, iface).ok)]
              && (if DnsmasqReload(w, env, cfg, iface).ok then Serves(w'.dhcpd, env.render(cfg, iface))
                  else Dead(w'.dhcpd))
            else if mode == Client && iface !in w.dhclient then w' == DhclientStart(w, env, iface).w
            else w' == w
  {
    if mode == Mode.Gateway {
      if w.dhcpd.procs == map[] { ServeLaw(w, env, cfg, iface); }
      else if !Alive(w.dhcpd) { DeadIsEmpty(w.dhcpd); }
    }
  }

  // ----- The stored status -----

  /** The apply that an event runs, if any: on the configuration in force, which a reload replaces first. */
  function ApplyOf(s: State, env: Env, e: Event): Option<Applied> {
    match e
    case Reload(loaded) =>
      if loaded.Some? && Valid(loaded.value) then Some(ApplyWith(s.w, env, loaded.value)) else None
    case Reconfigure => Some(ApplyWith(s.w, env, s.cfg))
    case TickDue =>
      var seen := ObserveTick(s, env);
      if seen.Down? && seen.reselect.Some? then Some(ApplyWith(Looked(s, env).w, env, s.cfg)) else None
    case Meanwhile(_) => None
  }

  /**
   * A successful apply is stored as it is, stops the timer and resets health; a failed one changes the host but
   * no selection; without an apply interface and mode stay, and a refused reload changes nothing at all.
   */
  lemma StatusLaw(s: State, env: Env, e: Event)
    requires !s.applying && s.cfg.linkRetrySecs > 0
    ensures var s' := Step(s, env, e);
            var a := ApplyOf(s, env, e);
            && (a.Some? && a.value.result.Ok? ==>
                  && s'.status == a.value.result.value && s'.w == a.value.w
                  && s'.downSince.None? && s'.streak == 0 && s'.health == Health(true, None))
            && (a.Some? && a.value.result.Err? ==> s'.status == s.status && s'.w == a.value.w)
            && (a.None? ==> s'.status.iface == s.status.iface && s'.status.mode == s.status.mode)
            && (a.None? && e.Reload? ==> s' == s)
  {
    match e {
      case Reload(_) =>
      case Reconfigure =>
      case TickDue => TickStatus(s, env);
      case Meanwhile(_) =>
    }
  }

  lemma TickStatus(s: State, env: Env)
    requires !s.applying && s.cfg.linkRetrySecs > 0
    ensures var s' := Tick(s, env);
            var seen := ObserveTick(s, env);
            && (seen.Down? && seen.reselect.Some? ==>
                  s' == ApplyNow(Deciding(s, env), env) && Deciding(s, env).w == Looked(s, env).w
                  && Deciding(s, env).status == s.status && Deciding(s, env).cfg == s.cfg)
            && (!(seen.Down? && seen.reselect.Some?) ==>
                  s'.status.iface == s.status.iface && s'.status.mode == s.status.mode)
  {
    if ObserveTick(s, env).Down? { TickDoesAsSeen(s, env); }
  }

  /** The daemon starts with the status of its first apply, or with none, healthy and without an outage. */
  lemma LaunchStatus(w: World, env: Env, cfg: Cfg)
    ensures var s := Launch(w, env, cfg);
            var a := ApplyWith(w, env, cfg);
            && s.w == a.w && s.cfg == cfg
            && (if a.result.Ok? then s.status == a.result.value else s.status.iface == "" && s.status.cidr.None?)
            && s.downSince.None? && s.streak == 0 && s.health == Health(true, None) && !s.applying
  {}

  /** The last apply that succeeded so far, counting the one at start. */
  function LastSuccess(s0: State, env: Env, first: Applied, es: seq<Event>): Option<Status>
    decreases |es|
  {
    if es == [] then (if first.result.Ok? then Some(first.result.value) else None)
    else
      var most := es[..|es| - 1];
      var a := ApplyOf(Run(s0, env, most), env, es[|es| - 1]);
      if a.Some? && a.value.result.Ok? then Some(a.value.result.value) else LastSuccess(s0, env, first, most)
  }

  predicate Selects(s: State, last: Option<Status>) {
    && (last.Some? ==> s.status.iface == last.value.iface && s.status.mode == last.value.mode)
    && (last.None? ==> s.status.iface == "")
  }

  /** Over every run the stored interface and mode are those of the last apply that succeeded. */
  lemma {:induction false} StatusIsLastSuccess(w: World, env: Env, cfg: Cfg, es: seq<Event>)
    requires Valid(cfg) && Tracked(w.dhcpd) && ColdLog(w.log)
    ensures var s0 := Launch(w, env, cfg);
            Selects(Run(s0, env, es), LastSuccess(s0, env, ApplyWith(w, env, cfg), es))
    decreases |es|
  {
    var s0 := Launch(w, env, cfg);
    if es == [] {
      LaunchStatus(w, env, cfg);
    } else {
      var most := es[..|es| - 1];
      StatusIsLastSuccess(w, env, cfg, most);
      LaunchInv(w, env, cfg);
      RunOwnership(s0, env, most);
      StatusLaw(Run(s0, env, most), env, es[|es| - 1]);
    }
  }
}
