/** The host as micronet sees it: physical Ethernet links, addresses, routes, dhclient and dnsmasq. */
module Net {
  import opened Basics
  import opened Config
  import opened Dhcpd

  /** What became of one system command: it worked, it failed unnoticed, or it failed and was reported. */
  datatype Outcome = Worked | Silent | Failed

  /** Journal of everything done to the host, oldest first. */
  datatype Op =
    | ListEth(ok: bool)
    | Scan(seen: Option<string>)
    | Sleep
    | ReadCarrier(name: string, up: bool)
    | LinkUp(name: string, ok: bool)
    | LinkDown(name: string, ok: bool)
    | Flush(name: string, outcome: Outcome)
    | AddAddr(name: string, cidr: Cidr, ok: bool)
    | StopDhclient(name: string, ok: bool)
    | StartDhclient(name: string, ok: bool)
    | WaitIpv4(name: string)
    | SetDefault(via: Ip, name: string, ok: bool)
    | DelDefault(outcome: Outcome)
    | Probe(name: string, serving: bool, offer: Option<bool>)
    | Ping(host: Ip, answered: bool)
    | StopDnsmasq(ok: bool)
    | ReloadDnsmasq(running: bool, ok: bool)

  datatype Route = Route(via: Ip, name: string)

  /** `eths` are the physical Ethernet names in sorted order; `now` is a clock in milliseconds. */
  datatype World = World(
    eths: seq<string>,
    addrs: map<string, seq<Cidr>>,
    adminUp: set<string>,
    dhclient: set<string>,
    route: Option<Route>,
    dhcpd: Dhcpd,
    now: nat,
    log: seq<Op>)

  /**
   * The outside world: every answer it gives is a function of how many operations came before, so that
   * any operation may fail at any moment and any cable may be plugged or pulled between two operations.
   */
  datatype Env = Env(
    cmd: nat -> Outcome,
    dhcpd: nat -> Faults,
    probe: nat -> Option<bool>,
    echo: nat -> bool,
    plugged: (nat, string) -> bool,
    lease: nat -> Option<Cidr>,
    took: nat -> nat,
    render: (Cfg, string) -> string)

  datatype Did = Did(ok: bool, w: World)

  const AUTO_CARRIER_WAIT_MS := 5000
  const AUTO_CARRIER_POLL_MS := 200

  /** Record an operation; it took as long as the outside world says. */
  function Note(w: World, env: Env, op: Op): World {
    w.(log := w.log + [op], now := w.now + env.took(|w.log|))
  }

  function Cmd(w: World, env: Env): Outcome {
    env.cmd(|w.log|)
  }

  function Addrs(w: World, name: string): seq<Cidr> {
    if name in w.addrs then w.addrs[name] else []
  }

  /** The address the program reads for an interface; none when the name hides it. */
  function Reported(w: World, name: string): Option<Cidr> {
    if HidesAddress(name) then None else FirstCidr(Addrs(w, name))
  }

  predicate HasIpv4(w: World, name: string) {
    Reported(w, name).Some?
  }

  /** `ip` is read as configured on some interface, physical or not. */
  predicate IsLocal(w: World, ip: Ip) {
    exists n :: n in w.addrs && !HidesAddress(n) && exists c :: c in w.addrs[n] && c.ip == ip
  }

  /** Carrier cannot be read while a link is administratively down. */
  predicate Carrier(w: World, env: Env, name: string) {
    name in w.adminUp && env.plugged(|w.log|, name)
  }

  function BringUp(w: World, env: Env, name: string): Did {
    if name in w.adminUp then Did(true, w)
    else
      var ok := Cmd(w, env) == Worked;
      Did(ok, Note(w.(adminUp := if ok then w.adminUp + {name} else w.adminUp), env, LinkUp(name, ok)))
  }

  function SetDown(w: World, env: Env, name: string): Did {
    var ok := Cmd(w, env) == Worked;
    Did(ok, Note(w.(adminUp := if ok then w.adminUp - {name} else w.adminUp), env, LinkDown(name, ok)))
  }

  /** Flushing may fail without an error: the live implementation ignores the exit status. */
  function FlushAddr(w: World, env: Env, name: string): Did {
    var o := Cmd(w, env);
    Did(o != Failed, Note(w.(addrs := if o == Worked then w.addrs - {name} else w.addrs), env, Flush(name, o)))
  }

  /** An address that is already there is refused by the kernel; that is an error unless it is the reported one. */
  function AddAddress(w: World, env: Env, name: string, cidr: Cidr): Did {
    var have := Addrs(w, name);
    var added := Cmd(w, env) == Worked && cidr !in have;
    var first := Reported(w, name);
    var ok := added || (first.Some? && first.value.ip == cidr.ip);
    Did(ok, Note(w.(addrs := if added then w.addrs[name := have + [cidr]] else w.addrs), env, AddAddr(name, cidr, ok)))
  }

  function DhclientStop(w: World, env: Env, name: string): Did {
    var ok := Cmd(w, env) == Worked;
    Did(ok, Note(w.(dhclient := if ok then w.dhclient - {name} else w.dhclient), env, StopDhclient(name, ok)))
  }

  function DhclientStart(w: World, env: Env, name: string): Did {
    var ok := Cmd(w, env) == Worked;
    Did(ok, Note(w.(dhclient := if ok then w.dhclient + {name} else w.dhclient), env, StartDhclient(name, ok)))
  }

  /** A running dhclient may obtain a lease while we wait. */
  function WaitForIpv4(w: World, env: Env, name: string): World {
    var l := env.lease(|w.log|);
    Note(w.(addrs := if name in w.dhclient && l.Some? then w.addrs[name := Addrs(w, name) + [l.value]] else w.addrs),
         env, WaitIpv4(name))
  }

  function ReplaceDefault(w: World, env: Env, via: Ip, name: string): Did {
    var ok := Cmd(w, env) == Worked;
    Did(ok, Note(w.(route := if ok then Some(Route(via, name)) else w.route), env, SetDefault(via, name, ok)))
  }

  /** Deleting the default route ignores the exit status too. */
  function RemoveDefault(w: World, env: Env): Did {
    var o := Cmd(w, env);
    Did(o != Failed, Note(w.(route := if o == Worked then None else w.route), env, DelDefault(o)))
  }

  function PingHost(w: World, env: Env, host: Ip): Did {
    Did(env.echo(|w.log|), Note(w, env, Ping(host, env.echo(|w.log|))))
  }

  function ProbeDhcp(w: World, env: Env, name: string): World {
    Note(w, env, Probe(name, Alive(w.dhcpd), env.probe(|w.log|)))
  }

  function DnsmasqStop(w: World, env: Env): Did {
    var ok := Cmd(w, env) == Worked;
    Did(ok, Note(w.(dhcpd := if ok then Stop(w.dhcpd, env.dhcpd(|w.log|)) else w.dhcpd), env, StopDnsmasq(ok)))
  }

  function DnsmasqReload(w: World, env: Env, cfg: Cfg, name: string): Did {
    var d := Reload(w.dhcpd, env.render(cfg, name), env.dhcpd(|w.log|));
    Did(d.ok, Note(w.(dhcpd := d.g), env, ReloadDnsmasq(Alive(w.dhcpd), d.ok)))
  }

  // ----- Choosing the interface -----

  /** First name of the list that has carrier now. */
  function FirstCarrier(w: World, env: Env, names: seq<string>): (r: Option<string>)
    ensures r.Some? ==> r.value in names && Carrier(w, env, r.value)
    ensures r.None? ==> forall n :: n in names ==> !Carrier(w, env, n)
  {
    if names == [] then None
    else if Carrier(w, env, names[0]) then Some(names[0])
    else FirstCarrier(w, env, names[1..])
  }

  /** Best-effort `ip link set up` on every link that is down. */
  function UpAll(w: World, env: Env, names: seq<string>): World
    decreases |names|
  {
    if names == [] then w else UpAll(BringUp(w, env, names[0]).w, env, names[1..])
  }

  datatype Polled = Polled(found: Option<string>, w: World)

  function Snooze(w: World, env: Env): World {
    Note(w.(now := w.now + AUTO_CARRIER_POLL_MS), env, Sleep)
  }

  /** Read carrier, give up once the deadline has passed, else sleep and read again. */
  function Poll(w: World, env: Env, names: seq<string>, deadline: nat): Polled
    decreases if w.now < deadline then deadline - w.now else 0
  {
    var p := FirstCarrier(w, env, names);
    var w1 := Note(w, env, Scan(p));
    if p.Some? || w1.now >= deadline then Polled(p, w1)
    else Poll(Snooze(w1, env), env, names, deadline)
  }

  /** Bring every candidate up, then poll until the deadline. */
  function UpAndPoll(w: World, env: Env): Polled {
    var w1 := UpAll(w, env, w.eths);
    Poll(w1, env, w.eths, w1.now + AUTO_CARRIER_WAIT_MS)
  }

  datatype Resolved = Resolved(result: Result<string>, w: World)

  function ResolveAuto(w: World, env: Env, live: bool): Resolved {
    var ok := Cmd(w, env) == Worked;
    var w1 := Note(w, env, ListEth(ok));
    if !ok then Resolved(Err(Io), w1)
    else if w.eths == [] then Resolved(Err(Error.NoEthernet), w1)
    else
      var p := FirstCarrier(w1, env, w.eths);
      var w2 := Note(w1, env, Scan(p));
      if p.Some? then Resolved(Ok(p.value), w2)
      else if !live then Resolved(Ok(w.eths[0]), w2)
      else
        var q := UpAndPoll(w2, env);
        Resolved(Ok(if q.found.Some? then q.found.value else w.eths[0]), q.w)
  }

  predicate IsAuto(configured: Option<string>) {
    configured.None? || configured.value == "auto"
  }

  function ResolveIface(w: World, env: Env, configured: Option<string>, live: bool): Resolved {
    if IsAuto(configured) then ResolveAuto(w, env, live)
    else if configured.value in w.eths then Resolved(Ok(configured.value), w)
    else Resolved(Err(NotEthernet(configured.value)), w)
  }
}
