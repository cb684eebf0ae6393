/** A concrete run in which a static selection reports an address the interface does not have. */
module Witness {
  import opened Basics
  import opened Text
  import opened Config
  import opened Dhcpd
  import opened Net
  import opened Apply
  import opened ApplyLaws

  const GatewayIp := Ip(192, 168, 0, 1)
  const Pinned := Cfg(Some("eth0"), Config.Gateway(GatewayIp, Subnet(Ip(192, 168, 0, 0), 24), 252),
                      Dhcp(50, 200, "7d"), 5, 15, Dns(false, []))
  const Leftover := Cidr(Ip(10, 0, 0, 5), 24)
  const Before := World(["eth0"], map["eth0" := [Leftover]], {"eth0"}, {}, None, Dhcpd("", None, map[]), 0, [])

  /** Everything works, nobody offers a lease, and the gateway answers. */
  const Calm := Env(
    _ => Worked,
    _ => Faults(true, true, true, true, true, true, 1, true, true, true, false),
    _ => Some(false), _ => true, (_, _) => true, _ => None, _ => 0, (_, _) => "")

  lemma SevenDays()
    ensures ParseSticky("7d").Ok?
  {
    StickyRoundTrip(7, "d", 86400);
    assert Dec(7) + "d" == "7d";
  }

  lemma NoRecords()
    ensures DnsValid([])
  {}

  lemma PinnedIsSimple()
    ensures SimpleName(Pinned.iface)
  {}

  lemma PinnedIsValid()
    ensures Valid(Pinned)
  {
    SevenDays();
    NoRecords();
    PinnedIsSimple();
  }

  const StaticStatus := Status(Static, "eth0", Some(Cidr(Ip(192, 168, 0, 252), 24)), false, true, false)

  /** What the run ends with: the static address reported, another one held. */
  predicate Stale(a: Applied) {
    a.result == Ok(StaticStatus) && Net.Reported(a.w, "eth0") == Some(Leftover)
  }

  lemma IsolateDoesNothing()
    ensures var w := Isolate(Before, Calm, "eth0"); w == Before.(log := w.log)
  {
    var w := Note(Before, Calm, ListEth(true));
    assert ["eth0"][1..] == [];
    assert IsolateAll(w, Calm, ["eth0"], "eth0") == w;
  }

  lemma ReadyDoesLittle(w: World)
    requires w == Before.(log := w.log)
    ensures var p := Ready(w, Calm, "eth0"); p.result == Ok("eth0") && p.w == Before.(log := p.w.log)
  {}

  lemma PrepareDoesLittle()
    ensures var p := Prepare(Before, Calm, Pinned);
            p.result == Ok("eth0") && p.w == Before.(log := p.w.log)
  {
    IsolateDoesNothing();
    ReadyDoesLittle(Isolate(Before, Calm, "eth0"));
    PinnedResolves();
  }

  lemma PinnedResolves()
    ensures Prepare(Before, Calm, Pinned) == Ready(Isolate(Before, Calm, "eth0"), Calm, "eth0")
  {
    assert ResolveIface(Before, Calm, Pinned.iface, true) == Resolved(Ok("eth0"), Before);
  }

  /** The interface has an address, so none is added, and it is not the gateway's, so that is pinged. */
  lemma LeftoverIsRead(w: World)
    requires w.addrs == Before.addrs
    ensures Net.Reported(w, "eth0") == Some(Leftover) && !IsLocal(w, GatewayIp)
  {
    assert Addrs(w, "eth0") == [Leftover];
    assert "eth0"[0..] == "eth0" && "eth0"[0] != "inet"[0];
  }

  lemma PingIsAnswered(w: World)
    requires w.addrs == Before.addrs
    ensures SelectNoOffer(w, Calm, Pinned, "eth0") ==
            ApplyStatic(PingHost(w, Calm, GatewayIp).w, Calm, Pinned, "eth0")
  {
    LeftoverIsRead(w);
    assert TempAddr(w, Calm, Pinned, "eth0") == Did(true, w);
    assert Reach(w, Calm, Pinned) == PingHost(w, Calm, GatewayIp);
  }

  lemma StaticWorks(w: World)
    requires Dead(w.dhcpd)
    ensures ApplyStatic(w, Calm, Pinned, "eth0").result.Ok?
  {}

  lemma StaticStatusIsDecided()
    ensures DecideStatus("eth0", false, true, Pinned) == StaticStatus
  {}

  lemma SelectIsStatic(w: World)
    requires w == Before.(log := w.log)
    ensures Stale(Select(w, Calm, Pinned, "eth0"))
  {
    var w1 := ProbeDhcp(w, Calm, "eth0");
    var w2 := PingHost(w1, Calm, GatewayIp).w;
    assert Select(w, Calm, Pinned, "eth0") == SelectNoOffer(w1, Calm, Pinned, "eth0");
    PingIsAnswered(w1);
    StaticWorks(w2);
    StaticLaw(w2, Calm, Pinned, "eth0");
    StaticStatusIsDecided();
    LeftoverIsRead(ApplyStatic(w2, Calm, Pinned, "eth0").w);
  }

  lemma AfterPreparing(w: World, env: Env, cfg: Cfg, iface: string)
    requires Valid(cfg) && Prepare(w, env, cfg).result == Ok(iface)
    ensures ApplyWith(w, env, cfg) == Select(Prepare(w, env, cfg).w, env, cfg, iface)
  {}

  /** The status says 192.168.0.252/24 while the interface reports 10.0.0.5/24. */
  lemma StaticCidrCanBeStale()
    ensures Stale(ApplyWith(Before, Calm, Pinned))
  {
    PinnedIsValid();
    PrepareDoesLittle();
    AfterPreparing(Before, Calm, Pinned, "eth0");
    SelectIsStatic(Prepare(Before, Calm, Pinned).w);
  }
}
