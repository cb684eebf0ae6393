/** Concrete runs for the places where the code does less than one would expect. */
module Lapses {
  import opened Basics
  import opened Config
  import opened Dhcpd
  import opened Net
  import opened Apply
  import opened ApplyLaws
  import opened ApplyTheorems
  import opened ApplyOutcome
  import opened Daemon
  import opened DaemonOwnership
  import opened DaemonHistory
  import opened DaemonTiming
  import opened Witness

  /** A pinned interface is then prepared without fail. */
  lemma PrepareWorks(w: World, env: Env, cfg: Cfg)
    requires AllWork(env) && !IsAuto(cfg.iface) && cfg.iface.value in w.eths
    ensures Prepare(w, env, cfg).result == Ok(cfg.iface.value)
  {}

  lemma ApplyIsSelect(w: World, env: Env, cfg: Cfg)
    requires Valid(cfg) && AllWork(env) && !IsAuto(cfg.iface) && cfg.iface.value in w.eths
    ensures ApplyWith(w, env, cfg) == Select(Prepare(w, env, cfg).w, env, cfg, cfg.iface.value)
  {
    PrepareWorks(w, env, cfg);
  }

  // ----- An interface that hides its address does not stay a gateway -----

  /** On a hidden interface an echo of the gateway address wins, even if that address is the interface's own. */
  lemma HiddenEchoIsStatic(w: World, env: Env, cfg: Cfg, iface: string)
    requires cfg.gateway.subnet.prefix == REQUIRED_PREFIX && AllWork(env) && HidesAddress(iface)
    requires StaticCidr(cfg) !in Addrs(w, iface) && StaticCidr(cfg).ip != cfg.gateway.ip
    requires !IsLocal(w, cfg.gateway.ip) && forall n :: env.echo(n)
    ensures var a := SelectNoOffer(w, env, cfg, iface);
            && a.result.Ok? && a.result.value.mode == Static
            && a.w.route == Some(Route(cfg.gateway.ip, iface))
            && Addrs(a.w, iface) == Addrs(w, iface) + [StaticCidr(cfg)]
  {
    var t := TempAddr(w, env, cfg, iface);
    assert t.ok && Addrs(t.w, iface) == Addrs(w, iface) + [StaticCidr(cfg)];
    assert !IsLocal(t.w, cfg.gateway.ip);
  }

  /** Without an echo it becomes a gateway with that one address. */
  lemma HiddenSilenceIsGateway(w: World, env: Env, cfg: Cfg, iface: string)
    requires cfg.gateway.subnet.prefix == REQUIRED_PREFIX && AllWork(env) && HidesAddress(iface)
    requires Addrs(w, iface) == [] && Dead(w.dhcpd) && forall n :: !env.echo(n)
    ensures var a := SelectNoOffer(w, env, cfg, iface);
            && a.result.Ok? && a.result.value.mode == Mode.Gateway
            && Addrs(a.w, iface) == [GatewayCidr(cfg)]
  {
    var t := TempAddr(w, env, cfg, iface);
    var p := Reach(t.w, env, cfg);
    assert t.ok && !p.ok;
    var f := FlushAddr(p.w, env, iface);
    var a := AddAddress(f.w, env, iface, GatewayCidr(cfg));
    assert a.ok && Addrs(a.w, iface) == [GatewayCidr(cfg)];
    var r := RemoveDefault(a.w, env);
    StartFromNothing(EnsureConf(r.w.dhcpd, env.render(cfg, iface), env.dhcpd(|r.w.log|)).1, env.dhcpd(|r.w.log|));
  }

  const HiddenCfg := Pinned.(iface := Some("inet"))
  const Bare := World(["inet"], map[], {"inet"}, {}, None, Dhcpd("", None, map[]), 0, [])

  function Outer(probe: Option<bool>, echo: bool, plug: bool): Env {
    Env(_ => Worked, _ => Faults(true, true, true, true, true, true, 1, true, true, true, false),
        _ => probe, _ => echo, (_, _) => plug, _ => None, _ => 0, (_, _) => "")
  }

  lemma OuterWorks(probe: Option<bool>, echo: bool, plug: bool)
    ensures AllWork(Outer(probe, echo, plug))
  {}

  lemma InetHides()
    ensures HidesAddress("inet") && "inet" != "auto" && "inet" != "eth0"
  {
    assert "inet"[0..] == "inet" && "inet"[0] != "auto"[0] && "inet"[0] != "eth0"[0];
  }

  lemma HiddenCfgIsValid()
    ensures Valid(HiddenCfg) && !IsAuto(HiddenCfg.iface) && HidesAddress("inet")
  {
    PinnedIsValid();
    InetHides();
    InetIsSimple();
    Renamed(Pinned, "inet");
  }

  lemma InetIsSimple()
    ensures SimpleName(Some("inet"))
  {}

  lemma Renamed(cfg: Cfg, name: string)
    requires Valid(cfg) && SimpleName(Some(name))
    ensures Valid(cfg.(iface := Some(name)))
  {}

  /** A host whose only address, if any, is the gateway's on the interface `inet`. */
  ghost predicate OnlyInet(w: World, addrs: seq<Cidr>) {
    && "inet" in w.eths && Tracked(w.dhcpd) && Addrs(w, "inet") == addrs
    && forall n :: n != "inet" ==> Addrs(w, n) == []
  }

  /** Preparing such a host leaves it so, with our server dead. */
  lemma PreparedInet(w: World, env: Env, addrs: seq<Cidr>)
    requires OnlyInet(w, addrs) && AllWork(env)
    ensures var p := Prepare(w, env, HiddenCfg);
            OnlyInet(p.w, addrs) && Dead(p.w.dhcpd) && p.result == Ok("inet")
  {
    HiddenCfgIsValid();
    PrepareWorks(w, env, HiddenCfg);
    PrepareLaw(w, env, HiddenCfg);
    StillOnlyInet(w, Prepare(w, env, HiddenCfg).w, addrs);
  }

  lemma StillOnlyInet(w: World, w': World, addrs: seq<Cidr>)
    requires OnlyInet(w, addrs) && w'.eths == w.eths && Dead(w'.dhcpd)
    requires FewerAddrs(w, w') && Addrs(w', "inet") == Addrs(w, "inet")
    ensures OnlyInet(w', addrs)
  {
    forall n | n != "inet" ensures Addrs(w', n) == [] {
      assert Addrs(w, n) == [];
    }
  }

  lemma NothingLocal(w: World, addrs: seq<Cidr>, ip: Ip)
    requires OnlyInet(w, addrs)
    ensures !IsLocal(w, ip)
  {
    HiddenCfgIsValid();
    assert forall n :: n in w.addrs && !HidesAddress(n) ==> Addrs(w, n) == [];
  }

  lemma ProbedInet(w: World, env: Env, addrs: seq<Cidr>)
    requires OnlyInet(w, addrs)
    ensures OnlyInet(ProbeDhcp(w, env, "inet"), addrs)
  {
    var w1 := ProbeDhcp(w, env, "inet");
    assert forall n :: Addrs(w1, n) == Addrs(w, n);
  }

  lemma NoOfferSelects(w: World, env: Env, cfg: Cfg, iface: string)
    requires cfg.gateway.subnet.prefix == REQUIRED_PREFIX && env.probe(|w.log|) == Some(false)
    ensures Select(w, env, cfg, iface) == SelectNoOffer(ProbeDhcp(w, env, iface), env, cfg, iface)
  {}

  /** An apply without an offer on such a host is the selection on one, our server dead. */
  lemma InetApply(w: World, env: Env, addrs: seq<Cidr>) returns (w1: World)
    requires OnlyInet(w, addrs) && AllWork(env) && forall n :: env.probe(n) == Some(false)
    ensures OnlyInet(w1, addrs) && Dead(w1.dhcpd)
    ensures ApplyWith(w, env, HiddenCfg) == SelectNoOffer(w1, env, HiddenCfg, "inet")
  {
    HiddenCfgIsValid();
    PreparedInet(w, env, addrs);
    ApplyIsSelect(w, env, HiddenCfg);
    var p := Prepare(w, env, HiddenCfg);
    ProbedInet(p.w, env, addrs);
    NoOfferSelects(p.w, env, HiddenCfg, "inet");
    w1 := ProbeDhcp(p.w, env, "inet");
  }

  lemma FirstHiddenApply()
    ensures var a := ApplyWith(Bare, Outer(Some(false), false, true), HiddenCfg);
            && a.result.Ok? && a.result.value.mode == Mode.Gateway
            && OnlyInet(a.w, [GatewayCidr(HiddenCfg)])
  {
    var env := Outer(Some(false), false, true);
    OuterWorks(Some(false), false, true);
    var w1 := InetApply(Bare, env, []);
    SilenceOnInet(w1, env);
  }

  lemma SilenceOnInet(w: World, env: Env)
    requires AllWork(env) && OnlyInet(w, []) && Dead(w.dhcpd) && forall n :: !env.echo(n)
    ensures var a := SelectNoOffer(w, env, HiddenCfg, "inet");
            && a.result.Ok? && a.result.value.mode == Mode.Gateway
            && OnlyInet(a.w, [GatewayCidr(HiddenCfg)])
  {
    HiddenCfgIsValid();
    HiddenSilenceIsGateway(w, env, HiddenCfg, "inet");
    NoOfferLaw(w, env, HiddenCfg, "inet");
  }

  lemma SecondHiddenApply(w: World)
    requires OnlyInet(w, [GatewayCidr(HiddenCfg)])
    ensures var a := ApplyWith(w, Outer(Some(false), true, true), HiddenCfg);
            && a.result.Ok? && a.result.value.mode == Static
            && a.w.route == Some(Route(GatewayIp, "inet"))
            && Holds(a.w, "inet", GatewayIp)
  {
    var env := Outer(Some(false), true, true);
    OuterWorks(Some(false), true, true);
    var w1 := InetApply(w, env, [GatewayCidr(HiddenCfg)]);
    NothingLocal(w1, [GatewayCidr(HiddenCfg)], GatewayIp);
    EchoOnInet(w1, env);
  }

  lemma EchoOnInet(w: World, env: Env)
    requires AllWork(env) && Addrs(w, "inet") == [GatewayCidr(HiddenCfg)] && !IsLocal(w, GatewayIp)
    requires forall n :: env.echo(n)
    ensures var a := SelectNoOffer(w, env, HiddenCfg, "inet");
            && a.result.Ok? && a.result.value.mode == Static
            && a.w.route == Some(Route(GatewayIp, "inet"))
            && Holds(a.w, "inet", GatewayIp)
  {
    HiddenCfgIsValid();
    HiddenCfgAddrs();
    HiddenEchoIsStatic(w, env, HiddenCfg, "inet");
    var a := SelectNoOffer(w, env, HiddenCfg, "inet");
    assert Addrs(a.w, "inet")[0] == GatewayCidr(HiddenCfg);
  }

  lemma HiddenCfgAddrs()
    ensures HiddenCfg.gateway.ip == GatewayIp && HiddenCfg.gateway.subnet.prefix == REQUIRED_PREFIX
    ensures StaticCidr(HiddenCfg) == Cidr(Ip(192, 168, 0, 252), 24)
  {}

  /** Two applies on the same host: gateway mode first, then static mode with a default route via itself. */
  lemma HiddenGatewayIsLost()
    ensures var a1 := ApplyWith(Bare, Outer(Some(false), false, true), HiddenCfg);
            var a2 := ApplyWith(a1.w, Outer(Some(false), true, true), HiddenCfg);
            && a1.result.Ok? && a1.result.value.mode == Mode.Gateway
            && Addrs(a1.w, "inet") == [GatewayCidr(HiddenCfg)]
            && a2.result.Ok? && a2.result.value.mode == Static
            && a2.w.route == Some(Route(GatewayIp, "inet"))
            && Holds(a2.w, "inet", GatewayIp)
  {
    HiddenCfgIsValid();
    FirstHiddenApply();
    var a1 := ApplyWith(Bare, Outer(Some(false), false, true), HiddenCfg);
    SecondHiddenApply(a1.w);
  }

  // ----- A hidden address survives isolation -----

  const Beside :=
    World(["eth0", "inet"], map["eth0" := [GatewayCidr(Pinned)], "inet" := [Leftover]], {"eth0"}, {}, None,
          Dhcpd("", None, map[]), 0, [])

  lemma BesideIsolates(w: World, env: Env)
    requires w.eths == ["eth0", "inet"] && w.adminUp == {"eth0"} && Cmd(w, env) == Worked
    ensures Isolate(w, env, "eth0") == Note(w, env, ListEth(true))
  {
    InetHides();
    forall n | n in w.eths ensures n == "eth0" || (n !in w.adminUp && Reported(w, n).None?) {
      assert n == "eth0" || n == "inet";
    }
    IsolatePassesOver(w, env, "eth0");
  }

  lemma IsolatePassesOver(w: World, env: Env, keep: string)
    requires Cmd(w, env) == Worked
    requires forall n :: n in w.eths ==> n == keep || (n !in w.adminUp && Reported(w, n).None?)
    ensures Isolate(w, env, keep) == Note(w, env, ListEth(true))
  {
    PassesOver(Note(w, env, ListEth(true)), env, w.eths, keep);
  }

  /** Isolating passes over links that are down and show no address. */
  lemma {:induction false} PassesOver(w: World, env: Env, names: seq<string>, keep: string)
    requires forall n :: n in names ==> n == keep || (n !in w.adminUp && Reported(w, n).None?)
    ensures IsolateAll(w, env, names, keep) == w
    decreases |names|
  {
    if names != [] {
      assert names[0] in names;
      PassesOver(w, env, names[1..], keep);
    }
  }

  lemma BesidePrepares(w: World, env: Env, cfg: Cfg)
    requires w.eths == ["eth0", "inet"] && w.adminUp == {"eth0"} && Dead(w.dhcpd)
    requires AllWork(env) && cfg.iface == Some("eth0")
    ensures var p := Prepare(w, env, cfg);
            p.result == Ok("eth0") && p.w.addrs == w.addrs && Dead(p.w.dhcpd)
  {
    Eth0Shows();
    PrepareWorks(w, env, cfg);
    PrepareLaw(w, env, cfg);
    BesideIsolates(w, env);
    assert Prepare(w, env, cfg) == Ready(Isolate(w, env, "eth0"), env, "eth0");
    ReadyLaw(Isolate(w, env, "eth0"), env, "eth0");
  }

  /** Every command works, `eth0` becomes a gateway, and the idle `inet` keeps its address all the same. */
  lemma HiddenAddressSurvives()
    ensures var env := Outer(Some(false), false, true);
            var a := ApplyWith(Beside, env, Pinned);
            && AllWork(env) && a.result.Ok? && a.result.value.iface == "eth0"
            && Addrs(a.w, "inet") == [Leftover]
  {
    var env := Outer(Some(false), false, true);
    PinnedIsValid();
    Eth0Shows();
    OuterWorks(Some(false), false, true);
    BesidePrepares(Beside, env, Pinned);
    ApplyIsSelect(Beside, env, Pinned);
    var p := Prepare(Beside, env, Pinned);
    assert Reported(p.w, "eth0") == Some(GatewayCidr(Pinned));
    SettledWorks(p.w, env, Pinned, "eth0");
    SelectSettled(p.w, env, Pinned, "eth0");
  }

  // ----- A daemon whose first apply succeeds and whose later probes all fail -----

  const Home :=
    World(["eth0"], map["eth0" := [GatewayCidr(Pinned)]], {"eth0"}, {}, None, Dhcpd("", None, map[]), 0, [])

  function Fading(plug: bool): Env {
    Outer(None, false, plug).(probe := n => if n == 2 then Some(false) else None)
  }

  lemma FadingWorks(plug: bool)
    ensures AllWork(Fading(plug))
  {}

  lemma Eth0Shows()
    ensures !HidesAddress("eth0") && !IsAuto(Some("eth0"))
  {
    assert "eth0"[0..] == "eth0" && "eth0"[0] != "inet"[0] && "eth0"[0] != "auto"[0];
  }

  lemma HomeIsolates(plug: bool)
    ensures Isolate(Home, Fading(plug), "eth0") == Home.(log := [ListEth(true)])
  {
    IsolatePassesOver(Home, Fading(plug), "eth0");
  }

  lemma HomePrepares(plug: bool)
    ensures var p := Prepare(Home, Fading(plug), Pinned);
            p.result == Ok("eth0") && p.w == Home.(log := [ListEth(true), StopDhclient("eth0", true)])
  {
    Eth0Shows();
    HomeIsolates(plug);
    var w := Home.(log := [ListEth(true)]);
    assert ResolveIface(Home, Fading(plug), Pinned.iface, true) == Resolved(Ok("eth0"), Home);
    assert Prepare(Home, Fading(plug), Pinned) == Ready(w, Fading(plug), "eth0");
  }

  /** A settled interface on which everything works is a gateway again. */
  lemma SettledWorks(w: World, env: Env, cfg: Cfg, iface: string)
    requires cfg.gateway.subnet.prefix == REQUIRED_PREFIX && AllWork(env)
    requires Settled(w, iface, cfg) && Dead(w.dhcpd) && env.probe(|w.log|) == Some(false)
    ensures Select(w, env, cfg, iface).result == Ok(DecideStatus(iface, false, false, cfg))
  {
    SelectSettled(w, env, cfg, iface);
    var w1 := ProbeDhcp(w, env, iface);
    SettledIsLocal(w1, iface, cfg);
    var r := RemoveDefault(w1, env);
    StartFromNothing(EnsureConf(r.w.dhcpd, env.render(cfg, iface), env.dhcpd(|r.w.log|)).1, env.dhcpd(|r.w.log|));
    assert ApplyGateway(w1, env, cfg, iface).result.Ok?;
    assert Select(w, env, cfg, iface) == ApplyGateway(w1, env, cfg, iface);
  }

  lemma HomeIsGateway(plug: bool)
    ensures var a := ApplyWith(Home, Fading(plug), Pinned);
            && a.result == Ok(DecideStatus("eth0", false, false, Pinned))
            && |a.w.log| > 2
  {
    PinnedIsValid();
    Eth0Shows();
    FadingWorks(plug);
    HomePrepares(plug);
    var p := Prepare(Home, Fading(plug), Pinned);
    assert Reported(p.w, "eth0") == Some(GatewayCidr(Pinned));
    SettledWorks(p.w, Fading(plug), Pinned, "eth0");
    SelectProbes(p.w, Fading(plug), Pinned, "eth0");
  }

  /** The daemon runs on the pinned interface in gateway mode, and all further probes fail. */
  predicate Fadingly(s: State) {
    && Inv(s) && s.cfg == Pinned && s.status.iface == "eth0" && s.status.mode == Mode.Gateway
    && |s.w.log| > 2
  }

  lemma LaunchFades(plug: bool)
    ensures var s := Launch(Home, Fading(plug), Pinned);
            && Fadingly(s) && s.downSince.None? && "eth0" in s.w.eths
  {
    PinnedIsValid();
    HomeIsGateway(plug);
    LaunchInv(Home, Fading(plug), Pinned);
    ApplyLaw(Home, Fading(plug), Pinned);
  }

  lemma FadedApplyFails(w: World, plug: bool, cfg: Cfg)
    requires Tracked(w.dhcpd) && |w.log| > 2
    ensures ApplyWith(w, Fading(plug), cfg).result.Err?
  {
    PrepareLaw(w, Fading(plug), cfg);
  }

  // ----- Two re-selects in one outage -----

  function Waiting(ms: nat): Event {
    Meanwhile(Outside(["eth0"], map[], {}, {}, None, {}, ms))
  }

  /** An outage began at `t`. */
  predicate OutageSince(s: State, t: nat) {
    Fadingly(s) && s.downSince == Some(t) && s.w.now >= t
  }

  lemma FirstDownTick(s: State)
    requires Fadingly(s) && s.downSince.None?
    ensures exists t :: OutageSince(Tick(s, Fading(false)), t)
  {
    var s1 := Looked(s, Fading(false));
    TickOwnership(s, Fading(false));
    assert Tick(s, Fading(false)) == Reset(s1.(downSince := Some(s1.w.now)));
    assert OutageSince(Tick(s, Fading(false)), s1.w.now);
  }

  lemma LateDownTick(s: State, t: nat)
    requires OutageSince(s, t) && s.w.now >= t + 15000
    ensures OutageSince(Tick(s, Fading(false)), t)
    ensures var o := ObserveTick(s, Fading(false)); o.Down? && o.iface == "eth0" && o.reselect == Some(false)
  {
    var s1 := Looked(s, Fading(false));
    TickOwnership(s, Fading(false));
    TickDated(s, Fading(false));
    FadedApplyFails(s1.w, false, s.cfg);
    ApplyOwnership(s1.w, Fading(false), s.cfg);
  }

  lemma WaitingKeeps(s: State, t: nat, ms: nat)
    requires OutageSince(s, t)
    ensures var s' := Step(s, Fading(false), Waiting(ms)); OutageSince(s', t) && s'.w.now == s.w.now + ms
  {}

  const Outage18s := [TickDue, Waiting(15000), TickDue, Waiting(3000), TickDue]

  /** A tick without carrier, and later in the same outage two re-selects that fail. */
  predicate TwiceInOneOutage(h: seq<Seen>) {
    && |h| == 5 && h[1].NoVerdict? && h[3].NoVerdict?
    && h[2].Down? && h[2].iface == "eth0" && h[2].reselect == Some(false)
    && h[4].Down? && h[4].iface == "eth0" && h[4].reselect == Some(false)
  }

  lemma OutageBegins(s0: State) returns (t: nat)
    requires Fadingly(s0) && s0.downSince.None?
    ensures var s2 := Run(s0, Fading(false), Outage18s[..2]); OutageSince(s2, t) && s2.w.now >= t + 15000
  {
    t := DownThenWait(s0, Outage18s);
  }

  lemma DownThenWait(s0: State, es: seq<Event>) returns (t: nat)
    requires Fadingly(s0) && s0.downSince.None?
    requires |es| >= 2 && es[0] == TickDue && es[1] == Waiting(15000)
    ensures var s2 := Run(s0, Fading(false), es[..2]); OutageSince(s2, t) && s2.w.now >= t + 15000
  {
    var env := Fading(false);
    assert es[..0] == [] && es[..0 + 1] == es[..1];
    StepIs(s0, env, es, 0);
    StepIs(s0, env, es, 1);
    FirstDownTick(s0);
    t :| OutageSince(Tick(s0, env), t);
    WaitingKeeps(Run(s0, env, es[..1]), t, 15000);
  }

  lemma OutageGoesOn(s0: State, es: seq<Event>, k: nat, t: nat)
    requires k + 2 <= |es| && es[k] == TickDue && es[k + 1] == Waiting(3000)
    requires var s := Run(s0, Fading(false), es[..k]); OutageSince(s, t) && s.w.now >= t + 15000
    ensures var s := Run(s0, Fading(false), es[..k + 2]); OutageSince(s, t) && s.w.now >= t + 15000
  {
    var env := Fading(false);
    StepIs(s0, env, es, k);
    StepIs(s0, env, es, k + 1);
    TickThenWait(Run(s0, env, es[..k]), Run(s0, env, es[..k + 1]), Run(s0, env, es[..k + 2]), t);
  }

  lemma TickThenWait(s2: State, s3: State, s4: State, t: nat)
    requires OutageSince(s2, t) && s2.w.now >= t + 15000
    requires s3 == Step(s2, Fading(false), TickDue) && s4 == Step(s3, Fading(false), Waiting(3000))
    ensures OutageSince(s4, t) && s4.w.now >= t + 15000
  {
    LateDownTick(s2, t);
    TickDated(s2, Fading(false));
    WaitingKeeps(s3, t, 3000);
  }

  lemma OutageSeen(s0: State)
    requires Fadingly(s0) && s0.downSince.None?
    ensures TwiceInOneOutage(History(s0, Fading(false), Outage18s))
  {
    var env, es := Fading(false), Outage18s;
    var t := OutageBegins(s0);
    OutageGoesOn(s0, es, 2, t);
    WaitingSeen(s0, es, 1, 15000);
    WaitingSeen(s0, es, 3, 3000);
    FailureSeen(s0, es, 2, t);
    FailureSeen(s0, es, 4, t);
  }

  lemma WaitingSeen(s0: State, es: seq<Event>, k: nat, ms: nat)
    requires k < |es| && es[k] == Waiting(ms)
    ensures History(s0, Fading(false), es)[k].NoVerdict?
  {
    HistoryAt(s0, Fading(false), es, k);
  }

  lemma FailureSeen(s0: State, es: seq<Event>, k: nat, t: nat)
    requires k < |es| && es[k] == TickDue
    requires var s := Run(s0, Fading(false), es[..k]); OutageSince(s, t) && s.w.now >= t + 15000
    ensures var o := History(s0, Fading(false), es)[k]; o.Down? && o.iface == "eth0" && o.reselect == Some(false)
  {
    HistoryAt(s0, Fading(false), es, k);
    LateDownTick(Run(s0, Fading(false), es[..k]), t);
  }

  /** Start, lose carrier, wait 15 s: the third event re-selects and fails, and so does the fifth, 3 s later. */
  lemma TwoReselectsInOneOutage()
    ensures TwiceInOneOutage(History(Launch(Home, Fading(false), Pinned), Fading(false), Outage18s))
  {
    LaunchFades(false);
    OutageSeen(Launch(Home, Fading(false), Pinned));
  }

  // ----- A restart after an apply that failed closed -----

  lemma FailedApplyCloses(s: State)
    requires Fadingly(s) && "eth0" in s.w.eths
    ensures var a := ApplyWith(s.w, Fading(true), Pinned);
            a.result.Err? && Probed(s.w, a.w) && Dead(a.w.dhcpd) && "eth0" in a.w.adminUp
  {
    var env := Fading(true);
    PinnedIsValid();
    Eth0Shows();
    FadingWorks(true);
    FadedApplyFails(s.w, true, Pinned);
    ApplyIsSelect(s.w, env, Pinned);
    PrepareWorks(s.w, env, Pinned);
    PrepareLaw(s.w, env, Pinned);
    SelectProbes(Prepare(s.w, env, Pinned).w, env, Pinned, "eth0");
    SelectLaw(Prepare(s.w, env, Pinned).w, env, Pinned, "eth0");
  }

  /** A reconfigure fails and leaves no server, and the next tick starts one all the same. */
  predicate Reopens(s: State) {
    var s1 := Step(s, Fading(true), Reconfigure);
    && ApplyWith(s.w, Fading(true), s.cfg).result.Err?
    && Dead(s1.w.dhcpd) && StartedIn(s1.w.log, Step(s1, Fading(true), TickDue).w.log)
  }

  lemma FailedApplyFinish(s: State)
    requires Fadingly(s) && "eth0" in s.w.eths
    ensures var s1 := ApplyNow(s, Fading(true));
            && Inv(s1) && s1.status == s.status && Dead(s1.w.dhcpd) && "eth0" in s1.w.adminUp
  {
    FailedApplyCloses(s);
    FinishOwnership(s, Fading(true));
  }

  lemma TickReopens(s1: State)
    requires Inv(s1) && Dead(s1.w.dhcpd) && "eth0" in s1.w.adminUp
    requires s1.status.iface == "eth0" && s1.status.mode == Mode.Gateway
    ensures StartedIn(s1.w.log, Step(s1, Fading(true), TickDue).w.log)
  {
    TickRestarts(s1, Fading(true));
  }

  lemma ReopensFrom(s: State)
    requires Fadingly(s) && "eth0" in s.w.eths
    ensures Reopens(s)
  {
    FadedApplyFails(s.w, true, s.cfg);
    FailedApplyFinish(s);
    TickReopens(ApplyNow(s, Fading(true)));
  }

  /** So it goes with a daemon that started in gateway mode and whose reconfigure fails at the probe. */
  lemma FailedApplyThenRestart()
    ensures Reopens(Launch(Home, Fading(true), Pinned))
  {
    LaunchFades(true);
    ReopensFrom(Launch(Home, Fading(true), Pinned));
  }
}
