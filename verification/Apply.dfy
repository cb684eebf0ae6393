/** Mode selection: resolve, isolate, probe, ping, and put the host into client, static or gateway mode. */
module Apply {
  import opened Basics
  import opened Config
  import opened Net

  datatype Mode = Client | Gateway | Static

  datatype Status = Status(
    mode: Mode,
    iface: string,
    cidr: Option<Cidr>,
    foreignDhcp: bool,
    gatewayReachable: bool,
    dnsmasqRunning: bool)

  const EmptyStatus := Status(Mode.Gateway, "", None, false, false, false)

  function Decide(foreignDhcp: bool, gatewayReachable: bool): Mode {
    if foreignDhcp then Client else if gatewayReachable then Static else Mode.Gateway
  }

  /** The decision alone: what the status should be, given what was probed. */
  function DecideStatus(iface: string, foreignDhcp: bool, gatewayReachable: bool, cfg: Cfg): Status
    requires cfg.gateway.subnet.prefix == REQUIRED_PREFIX
  {
    match Decide(foreignDhcp, gatewayReachable)
    case Client => Status(Client, iface, None, foreignDhcp, gatewayReachable, false)
    case Static => Status(Static, iface, Some(StaticCidr(cfg)), foreignDhcp, gatewayReachable, false)
    case Gateway => Status(Mode.Gateway, iface, Some(GatewayCidr(cfg)), foreignDhcp, gatewayReachable, true)
  }

  datatype Applied = Applied(result: Result<Status>, w: World)

  function DhcpRunning(w: World): bool {
    Dhcpd.Alive(w.dhcpd)
  }

  // ----- Isolation -----

  function IsolateOne(w: World, env: Env, name: string, keep: string): World {
    if name == keep || (name !in w.adminUp && Reported(w, name).None?) then w
    else SetDown(FlushAddr(DhclientStop(w, env, name).w, env, name).w, env, name).w
  }

  function IsolateAll(w: World, env: Env, names: seq<string>, keep: string): World
    decreases |names|
  {
    if names == [] then w else IsolateAll(IsolateOne(w, env, names[0], keep), env, names[1..], keep)
  }

  /** Best effort: a failed listing leaves the other interfaces as they are. */
  function Isolate(w: World, env: Env, keep: string): World {
    var ok := Cmd(w, env) == Worked;
    var w1 := Note(w, env, ListEth(ok));
    if ok then IsolateAll(w1, env, w.eths, keep) else w1
  }

  function FlushAll(w: World, env: Env, names: seq<string>): World
    decreases |names|
  {
    if names == [] then w
    else FlushAll(FlushAddr(DhclientStop(w, env, names[0]).w, env, names[0]).w, env, names[1..])
  }

  function FlushAllEthernet(w: World, env: Env): World {
    var ok := Cmd(w, env) == Worked;
    var w1 := Note(w, env, ListEth(ok));
    if ok then FlushAll(w1, env, w.eths) else w1
  }

  // ----- The three modes -----

  function ApplyClient(w: World, env: Env, iface: string): Applied {
    var d := DnsmasqStop(w, env);
    if !d.ok then Applied(Err(Other), d.w) else
    var f := FlushAddr(d.w, env, iface);
    if !f.ok then Applied(Err(Other), f.w) else
    var s := DhclientStart(f.w, env, iface);
    if !s.ok then Applied(Err(Other), s.w) else
    var w1 := WaitForIpv4(s.w, env, iface);
    Applied(Ok(Status(Client, iface, Reported(w1, iface), true, false, DhcpRunning(w1))), w1)
  }

  function ApplyStatic(w: World, env: Env, cfg: Cfg, iface: string): Applied
    requires cfg.gateway.subnet.prefix == REQUIRED_PREFIX
  {
    var d := DnsmasqStop(w, env);
    if !d.ok then Applied(Err(Other), d.w) else
    var r := ReplaceDefault(d.w, env, cfg.gateway.ip, iface);
    if !r.ok then Applied(Err(Other), r.w) else
    Applied(Ok(Status(Static, iface, Some(StaticCidr(cfg)), false, true, DhcpRunning(r.w))), r.w)
  }

  /** The gateway's own address, replacing whatever is there unless it is already the reported one. */
  function TakeGatewayAddr(w: World, env: Env, cfg: Cfg, iface: string): Did {
    if Reported(w, iface) == Some(GatewayCidr(cfg)) then Did(true, w) else
    var f := FlushAddr(w, env, iface);
    if !f.ok then f else AddAddress(f.w, env, iface, GatewayCidr(cfg))
  }

  function ApplyGateway(w: World, env: Env, cfg: Cfg, iface: string): Applied {
    var a := TakeGatewayAddr(w, env, cfg, iface);
    if !a.ok then Applied(Err(Other), a.w) else
    var r := RemoveDefault(a.w, env);
    if !r.ok then Applied(Err(Other), r.w) else
    var d := DnsmasqReload(r.w, env, cfg, iface);
    if !d.ok then Applied(Err(Other), d.w) else
    Applied(Ok(Status(Mode.Gateway, iface, Some(GatewayCidr(cfg)), false, false, DhcpRunning(d.w))), d.w)
  }

  // ----- One apply -----

  /** Everything before the probe: on success the interface is up, unleased, and our server is stopped. */
  function Prepare(w: World, env: Env, cfg: Cfg): Resolved {
    var r := ResolveIface(w, env, cfg.iface, true);
    if r.result.Err? then r else
    var iface := r.result.value;
    var up := BringUp(Isolate(r.w, env, iface), env, iface);
    if !up.ok then Resolved(Err(Other), up.w) else
    var s := DhclientStop(up.w, env, iface);
    if !s.ok then Resolved(Err(Other), s.w) else
    var d := if DhcpRunning(s.w) then DnsmasqStop(s.w, env) else Did(true, s.w);
    Resolved(if d.ok then Ok(iface) else Err(Other), d.w)
  }

  /** A temporary static address, unless the interface already has one. */
  function TempAddr(w: World, env: Env, cfg: Cfg, iface: string): Did
    requires cfg.gateway.subnet.prefix == REQUIRED_PREFIX
  {
    if HasIpv4(w, iface) then Did(true, w) else AddAddress(w, env, iface, StaticCidr(cfg))
  }

  /** Ping the gateway address, unless it is one of our own. */
  function Reach(w: World, env: Env, cfg: Cfg): Did {
    if IsLocal(w, cfg.gateway.ip) then Did(false, w) else PingHost(w, env, cfg.gateway.ip)
  }

  function SelectNoOffer(w: World, env: Env, cfg: Cfg, iface: string): Applied
    requires cfg.gateway.subnet.prefix == REQUIRED_PREFIX
  {
    var a := TempAddr(w, env, cfg, iface);
    if !a.ok then Applied(Err(Other), a.w) else
    var p := Reach(a.w, env, cfg);
    match Decide(false, p.ok)
    case Client => ApplyClient(p.w, env, iface)
    case Static => ApplyStatic(p.w, env, cfg, iface)
    case Gateway => ApplyGateway(p.w, env, cfg, iface)
  }

  function Select(w: World, env: Env, cfg: Cfg, iface: string): Applied
    requires cfg.gateway.subnet.prefix == REQUIRED_PREFIX
  {
    var answer := env.probe(|w.log|);
    var w1 := ProbeDhcp(w, env, iface);
    if answer.None? then Applied(Err(DhcpProbe), w1)
    else if answer.value then ApplyClient(w1, env, iface)
    else SelectNoOffer(w1, env, cfg, iface)
  }

  function ApplyWith(w: World, env: Env, cfg: Cfg): Applied {
    if !Valid(cfg) then Applied(Err(Error.Config), w) else
    var p := Prepare(w, env, cfg);
    if p.result.Err? then Applied(Err(p.result.error), p.w) else Select(p.w, env, cfg, p.result.value)
  }

  // ----- Teardown -----

  function TeardownWith(w: World, env: Env, cfg: Cfg): Applied {
    if !Valid(cfg) then Applied(Err(Error.Config), w) else
    var r := ResolveIface(w, env, cfg.iface, false);
    if r.result.Err? then Applied(Err(r.result.error), r.w) else
    var d := DnsmasqStop(r.w, env);
    if !d.ok then Applied(Err(Other), d.w) else
    var del := RemoveDefault(FlushAllEthernet(d.w, env), env);
    if !del.ok then Applied(Err(Other), del.w) else
    Applied(Ok(Status(Mode.Gateway, r.result.value, None, false, false, DhcpRunning(del.w))), del.w)
  }
}
