/** The daemon loop: reload, reconfigure and the periodic tick, with health hysteresis and self-heal. */
module Daemon {
  import opened Basics
  import opened Config
  import opened Net
  import opened Apply

  const HEALTH_FAIL_THRESHOLD := 3
  const U32_MAX: nat := 0xFFFF_FFFF

  datatype Reason = EmptyIface | NoIpv4 | NoDnsmasq | NoDhclient
  datatype Verdict = Healthy | Unhealthy(why: Reason)
  datatype Health = Health(healthy: bool, reason: Option<Reason>)
  datatype HealAction = Nothing | RestartDnsmasq | RestartDhclient

  const Fine := Health(true, None)

  /** The shared snapshot, the loop's own counters, and the host. */
  datatype State = State(
    cfg: Cfg,
    status: Status,
    health: Health,
    applying: bool,
    downSince: Option<nat>,
    streak: nat,
    w: World)

  // ----- Pure decisions -----

  function Elapsed(now: nat, since: nat): nat {
    if now >= since then now - since else 0
  }

  predicate ShouldReselect(carrier: bool, downSince: Option<nat>, now: nat, retryMs: nat) {
    !carrier && downSince.Some? && Elapsed(now, downSince.value) >= retryMs
  }

  function Assess(mode: Mode, carrier: bool, hasIpv4: bool, procRunning: bool): Verdict {
    if !carrier then Healthy
    else if !hasIpv4 then Unhealthy(NoIpv4)
    else if mode == Mode.Gateway && !procRunning then Unhealthy(NoDnsmasq)
    else if mode == Client && !procRunning then Unhealthy(NoDhclient)
    else Healthy
  }

  function HealFor(mode: Mode, procRunning: bool): HealAction {
    if mode == Mode.Gateway && !procRunning then RestartDnsmasq
    else if mode == Client && !procRunning then RestartDhclient
    else Nothing
  }

  /** The process that belongs to the mode is there. */
  predicate ProcOk(w: World, mode: Mode, iface: string) {
    match mode
    case Gateway => DhcpRunning(w)
    case Client => iface in w.dhclient
    case Static => true
  }

  function RetryMs(cfg: Cfg): nat {
    cfg.linkRetrySecs * 1000
  }

  // ----- Health -----

  function SetHealth(h: Health, healthy: bool, reason: Option<Reason>): Health {
    if h.healthy == healthy && h.reason == reason then h
    else if healthy then Fine
    else Health(false, reason)
  }

  function Reset(s: State): State {
    s.(streak := 0, health := SetHealth(s.health, true, None))
  }

  function RecordVerdict(s: State, v: Verdict): State {
    match v
    case Healthy => Reset(s)
    case Unhealthy(why) =>
      var n := if s.streak < U32_MAX then s.streak + 1 else s.streak;
      s.(streak := n, health := if n >= HEALTH_FAIL_THRESHOLD then SetHealth(s.health, false, Some(why)) else s.health)
  }

  // ----- Steps -----

  /** Outcome of an apply: a success is stored and resets timer and health, a failure is only logged. */
  function Finish(s: State, a: Applied): State {
    if a.result.Ok? then Reset(s.(w := a.w, status := a.result.value, downSince := None)) else s.(w := a.w)
  }

  function ApplyNow(s: State, env: Env): State {
    Finish(s, ApplyWith(s.w, env, s.cfg))
  }

  /** `loaded` is what parsing the file gave; an unreadable or invalid file keeps the previous configuration. */
  function OnReload(s: State, env: Env, loaded: Option<Cfg>): State {
    if loaded.None? || !Valid(loaded.value) then s else ApplyNow(s.(cfg := loaded.value), env)
  }

  function RefreshLive(s: State): State {
    s.(status := s.status.(cidr := Reported(s.w, s.status.iface), dnsmasqRunning := DhcpRunning(s.w)))
  }

  function SelfHeal(w: World, env: Env, cfg: Cfg, mode: Mode, iface: string): World {
    match HealFor(mode, ProcOk(w, mode, iface))
    case Nothing => w
    case RestartDnsmasq => DnsmasqReload(w, env, cfg, iface).w
    case RestartDhclient => DhclientStart(w, env, iface).w
  }

  function TickUp(s: State, env: Env): State {
    var s1 := RefreshLive(s.(downSince := None));
    var s2 := RefreshLive(s1.(w := SelfHeal(s1.w, env, s1.cfg, s1.status.mode, s1.status.iface)));
    RecordVerdict(s2, LiveVerdict(s2))
  }

  function LiveVerdict(s: State): Verdict {
    Assess(s.status.mode, true, HasIpv4(s.w, s.status.iface), ProcOk(s.w, s.status.mode, s.status.iface))
  }

  function TickDown(s: State, env: Env): State {
    var since := if s.downSince.None? then Some(s.w.now) else s.downSince;
    var s1 := Reset(s.(downSince := since));
    if ShouldReselect(false, since, s.w.now, RetryMs(s.cfg)) then ApplyNow(s1, env) else s1
  }

  /** The host after the tick has read the carrier of the chosen interface. */
  function Looked(s: State, env: Env): State {
    s.(w := Note(s.w, env, ReadCarrier(s.status.iface, Carrier(s.w, env, s.status.iface))))
  }

  function Tick(s: State, env: Env): State {
    if s.applying then Reset(s)
    else if s.status.iface == "" then RecordVerdict(s, Unhealthy(EmptyIface))
    else if Carrier(s.w, env, s.status.iface) then TickUp(Looked(s, env), env)
    else TickDown(Looked(s, env), env)
  }

  /** The first apply of the process; when it fails the daemon starts with an empty status. */
  function Launch(w: World, env: Env, cfg: Cfg): State {
    var a := ApplyWith(w, env, cfg);
    State(cfg, if a.result.Ok? then a.result.value else EmptyStatus, Fine, false, None, 0, a.w)
  }

  /** Anything the outside may do between two steps; of our server it can only kill processes. */
  datatype Outside = Outside(
    eths: seq<string>,
    addrs: map<string, seq<Cidr>>,
    adminUp: set<string>,
    dhclient: set<string>,
    route: Option<Route>,
    crashed: set<nat>,
    ms: nat)

  function Disturb(w: World, o: Outside): World {
    w.(eths := o.eths, addrs := o.addrs, adminUp := o.adminUp, dhclient := o.dhclient, route := o.route,
       dhcpd := w.dhcpd.(procs := w.dhcpd.procs - o.crashed), now := w.now + o.ms)
  }

  datatype Event = Reload(loaded: Option<Cfg>) | Reconfigure | TickDue | Meanwhile(o: Outside)

  function Step(s: State, env: Env, e: Event): State {
    match e
    case Reload(loaded) => OnReload(s, env, loaded)
    case Reconfigure => ApplyNow(s, env)
    case TickDue => Tick(s, env)
    case Meanwhile(o) => s.(w := Disturb(s.w, o))
  }

  /** The state after a sequence of events, in any order. */
  function Run(s: State, env: Env, es: seq<Event>): State
    decreases |es|
  {
    if es == [] then s else Step(Run(s, env, es[..|es| - 1]), env, es[|es| - 1])
  }
}
