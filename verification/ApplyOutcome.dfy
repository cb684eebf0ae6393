/** When apply and teardown succeed, where they stop when they do not, and that they do when everything works. */
module ApplyOutcome {
  import opened Basics
  import opened Config
  import opened Net
  import opened AutoPick
  import opened Apply
  import opened ApplyLaws
  import opened ApplyTheorems
  import opened Dhcpd

  // ----- The first failure ends an apply -----

  /** A failure that apply does not tolerate: any of a step on the chosen interface, the route or our server. */
  predicate Fatal(op: Op, iface: string) {
    match op
    case LinkUp(n, ok) => n == iface && !ok
    case StopDhclient(n, ok) => n == iface && !ok
    case Flush(n, outcome) => n == iface && outcome == Failed
    case StartDhclient(n, ok) => !ok
    case AddAddr(_, _, ok) => !ok
    case SetDefault(_, _, ok) => !ok
    case DelDefault(outcome) => outcome == Failed
    case Probe(_, _, offer) => offer.None?
    case StopDnsmasq(ok) => !ok
    case ReloadDnsmasq(_, ok) => !ok
    case _ => false
  }

  predicate Smooth(w: World, w': World, iface: string) {
    Grew(w, w') && forall i :: |w.log| <= i < |w'.log| ==> !Fatal(w'.log[i], iface)
  }

  /** It failed exactly if some step failed, and that was the last one. */
  predicate StopsAtFailure(w: World, a: Applied, iface: string) {
    && Grew(w, a.w)
    && (forall i :: |w.log| <= i < |a.w.log| && Fatal(a.w.log[i], iface) ==> i == |a.w.log| - 1 && a.result.Err?)
    && (a.result.Err? ==>
          && |a.w.log| > |w.log|
          && var last := a.w.log[|a.w.log| - 1];
             Fatal(last, iface) && a.result.error == if last.Probe? then DhcpProbe else Other)
  }

  lemma Then(w: World, mid: World, a: Applied, iface: string)
    requires Smooth(w, mid, iface) && StopsAtFailure(mid, a, iface)
    ensures StopsAtFailure(w, a, iface)
  {
    assert forall i :: |w.log| <= i < |mid.log| ==> a.w.log[i] == mid.log[i];
  }

  lemma SmoothTrans(a: World, b: World, c: World, iface: string)
    requires Smooth(a, b, iface) && Smooth(b, c, iface)
    ensures Smooth(a, c, iface)
  {
    assert forall i :: |a.log| <= i < |b.log| ==> c.log[i] == b.log[i];
  }

  /** One step that is journalled as one entry. */
  predicate OneStep(w: World, w': World, op: Op) {
    w'.log == w.log + [op] && w'.now >= w.now
  }

  lemma StepFails(w: World, w': World, op: Op, iface: string, error: Error)
    requires OneStep(w, w', op) && Fatal(op, iface) && error == if op.Probe? then DhcpProbe else Other
    ensures StopsAtFailure(w, Applied(Err(error), w'), iface)
  {}

  lemma StepWorks(w: World, w': World, op: Op, iface: string)
    requires OneStep(w, w', op) && !Fatal(op, iface)
    ensures Smooth(w, w', iface)
  {}

  lemma Done(w: World, s: Status, iface: string)
    ensures StopsAtFailure(w, Applied(Ok(s), w), iface)
  {}

  lemma ClientStops(w: World, env: Env, iface: string)
    ensures StopsAtFailure(w, ApplyClient(w, env, iface), iface)
  {
    var d := DnsmasqStop(w, env);
    if !d.ok { StepFails(w, d.w, StopDnsmasq(false), iface, Other); return; }
    StepWorks(w, d.w, StopDnsmasq(true), iface);
    ClientFromFlush(d.w, env, iface);
    var f := FlushAddr(d.w, env, iface);
    Then(w, d.w, ApplyClient(w, env, iface), iface);
  }

  /** A client apply whose server stop worked. */
  lemma ClientFromFlush(w: World, env: Env, iface: string)
    ensures StopsAtFailure(w, AfterStop(w, env, iface), iface)
  {
    var f := FlushAddr(w, env, iface);
    if !f.ok { StepFails(w, f.w, Flush(iface, Failed), iface, Other); return; }
    StepWorks(w, f.w, Flush(iface, Cmd(w, env)), iface);
    var s := DhclientStart(f.w, env, iface);
    if !s.ok {
      StepFails(f.w, s.w, StartDhclient(iface, false), iface, Other);
    } else {
      StepWorks(f.w, s.w, StartDhclient(iface, true), iface);
      var w1 := WaitForIpv4(s.w, env, iface);
      StepWorks(s.w, w1, WaitIpv4(iface), iface);
      SmoothTrans(f.w, s.w, w1, iface);
      Done(w1, AfterStop(w, env, iface).result.value, iface);
      Then(f.w, w1, AfterStop(w, env, iface), iface);
    }
    Then(w, f.w, AfterStop(w, env, iface), iface);
  }

  function AfterStop(w: World, env: Env, iface: string): Applied {
    var f := FlushAddr(w, env, iface);
    if !f.ok then Applied(Err(Other), f.w) else
    var s := DhclientStart(f.w, env, iface);
    if !s.ok then Applied(Err(Other), s.w) else
    var w1 := WaitForIpv4(s.w, env, iface);
    Applied(Ok(Status(Client, iface, Reported(w1, iface), true, false, DhcpRunning(w1))), w1)
  }

  lemma StaticStops(w: World, env: Env, cfg: Cfg, iface: string)
    requires cfg.gateway.subnet.prefix == REQUIRED_PREFIX
    ensures StopsAtFailure(w, ApplyStatic(w, env, cfg, iface), iface)
  {
    var d := DnsmasqStop(w, env);
    if !d.ok { StepFails(w, d.w, StopDnsmasq(false), iface, Other); return; }
    StepWorks(w, d.w, StopDnsmasq(true), iface);
    var r := ReplaceDefault(d.w, env, cfg.gateway.ip, iface);
    if !r.ok {
      StepFails(d.w, r.w, SetDefault(cfg.gateway.ip, iface, false), iface, Other);
    } else {
      StepWorks(d.w, r.w, SetDefault(cfg.gateway.ip, iface, true), iface);
      Done(r.w, ApplyStatic(w, env, cfg, iface).result.value, iface);
      Then(d.w, r.w, ApplyStatic(w, env, cfg, iface), iface);
    }
    Then(w, d.w, ApplyStatic(w, env, cfg, iface), iface);
  }

  /** Taking the gateway address either works or stops at a failed flush or address. */
  lemma TakeStops(w: World, env: Env, cfg: Cfg, iface: string)
    ensures var t := TakeGatewayAddr(w, env, cfg, iface);
            if t.ok then Smooth(w, t.w, iface) else StopsAtFailure(w, Applied(Err(Other), t.w), iface)
  {
    if Reported(w, iface) != Some(GatewayCidr(cfg)) {
      var f := FlushAddr(w, env, iface);
      if !f.ok {
        StepFails(w, f.w, Flush(iface, Failed), iface, Other);
      } else {
        StepWorks(w, f.w, Flush(iface, Cmd(w, env)), iface);
        var a := AddAddress(f.w, env, iface, GatewayCidr(cfg));
        if a.ok {
          StepWorks(f.w, a.w, AddAddr(iface, GatewayCidr(cfg), true), iface);
          SmoothTrans(w, f.w, a.w, iface);
        } else {
          StepFails(f.w, a.w, AddAddr(iface, GatewayCidr(cfg), false), iface, Other);
          Then(w, f.w, Applied(Err(Other), a.w), iface);
        }
      }
    }
  }

  lemma ServeStops(w: World, env: Env, cfg: Cfg, iface: string, a: Applied)
    requires var d := ServeAlone(w, env, cfg, iface);
             a.w == d.w && if d.ok then a.result.Ok? else a.result == Err(Other)
    ensures StopsAtFailure(w, a, iface)
  {
    var r := RemoveDefault(w, env);
    if !r.ok { StepFails(w, r.w, DelDefault(Failed), iface, Other); return; }
    StepWorks(w, r.w, DelDefault(Cmd(w, env)), iface);
    var d := DnsmasqReload(r.w, env, cfg, iface);
    if d.ok {
      StepWorks(r.w, d.w, ReloadDnsmasq(Alive(r.w.dhcpd), true), iface);
      Done(d.w, a.result.value, iface);
      Then(r.w, d.w, a, iface);
    } else {
      StepFails(r.w, d.w, ReloadDnsmasq(Alive(r.w.dhcpd), false), iface, Other);
    }
    Then(w, r.w, a, iface);
  }

  lemma GatewayStops(w: World, env: Env, cfg: Cfg, iface: string)
    ensures StopsAtFailure(w, ApplyGateway(w, env, cfg, iface), iface)
  {
    var t := TakeGatewayAddr(w, env, cfg, iface);
    TakeStops(w, env, cfg, iface);
    if t.ok {
      ServeStops(t.w, env, cfg, iface, ApplyGateway(w, env, cfg, iface));
      Then(w, t.w, ApplyGateway(w, env, cfg, iface), iface);
    }
  }

  lemma NoOfferStops(w: World, env: Env, cfg: Cfg, iface: string)
    requires cfg.gateway.subnet.prefix == REQUIRED_PREFIX
    ensures StopsAtFailure(w, SelectNoOffer(w, env, cfg, iface), iface)
  {
    var t := TempAddr(w, env, cfg, iface);
    if !t.ok { StepFails(w, t.w, AddAddr(iface, StaticCidr(cfg), false), iface, Other); return; }
    if !HasIpv4(w, iface) { StepWorks(w, t.w, AddAddr(iface, StaticCidr(cfg), true), iface); }
    var p := Reach(t.w, env, cfg);
    if !IsLocal(t.w, cfg.gateway.ip) { StepWorks(t.w, p.w, Ping(cfg.gateway.ip, p.ok), iface); }
    SmoothTrans(w, t.w, p.w, iface);
    var a := SelectNoOffer(w, env, cfg, iface);
    if p.ok {
      StaticStops(p.w, env, cfg, iface);
    } else {
      GatewayStops(p.w, env, cfg, iface);
    }
    Then(w, p.w, a, iface);
  }

  lemma SelectStops(w: World, env: Env, cfg: Cfg, iface: string)
    requires cfg.gateway.subnet.prefix == REQUIRED_PREFIX
    ensures StopsAtFailure(w, Select(w, env, cfg, iface), iface)
  {
    var answer := env.probe(|w.log|);
    var w1 := ProbeDhcp(w, env, iface);
    var op := Probe(iface, Alive(w.dhcpd), answer);
    if answer.None? { StepFails(w, w1, op, iface, DhcpProbe); return; }
    StepWorks(w, w1, op, iface);
    if answer.value { ClientStops(w1, env, iface); } else { NoOfferStops(w1, env, cfg, iface); }
    Then(w, w1, Select(w, env, cfg, iface), iface);
  }

  // ----- Preparation -----

  lemma IsolateOneSmooth(w: World, env: Env, name: string, keep: string)
    ensures Smooth(w, IsolateOne(w, env, name, keep), keep)
  {
    var s := DhclientStop(w, env, name).w;
    var f := FlushAddr(s, env, name).w;
    var d := SetDown(f, env, name).w;
    if name != keep {
      StepWorks(w, s, StopDhclient(name, Cmd(w, env) == Worked), keep);
      StepWorks(s, f, Flush(name, Cmd(s, env)), keep);
      StepWorks(f, d, LinkDown(name, Cmd(f, env) == Worked), keep);
      SmoothTrans(w, s, f, keep);
      SmoothTrans(w, f, d, keep);
    }
  }

  lemma {:induction false} IsolateAllSmooth(w: World, env: Env, names: seq<string>, keep: string)
    ensures Smooth(w, IsolateAll(w, env, names, keep), keep)
    decreases |names|
  {
    if names != [] {
      var w1 := IsolateOne(w, env, names[0], keep);
      IsolateOneSmooth(w, env, names[0], keep);
      IsolateAllSmooth(w1, env, names[1..], keep);
      SmoothTrans(w, w1, IsolateAll(w1, env, names[1..], keep), keep);
    }
  }

  lemma IsolateSmooth(w: World, env: Env, keep: string)
    ensures Smooth(w, Isolate(w, env, keep), keep)
  {
    var ok := Cmd(w, env) == Worked;
    var w1 := Note(w, env, ListEth(ok));
    StepWorks(w, w1, ListEth(ok), keep);
    if ok {
      IsolateAllSmooth(w1, env, w.eths, keep);
      SmoothTrans(w, w1, Isolate(w, env, keep), keep);
    }
  }

  /** Preparation from the choice on: it stops at its first failure too. */
  predicate PreparedOrStopped(w: World, p: Resolved, iface: string) {
    if p.result.Ok? then p.result.value == iface && Smooth(w, p.w, iface)
    else StopsAtFailure(w, Applied(Err(p.result.error), p.w), iface)
  }

  lemma ReadyStops(w: World, env: Env, iface: string)
    ensures PreparedOrStopped(w, Ready(w, env, iface), iface)
  {
    var up := BringUp(w, env, iface);
    if !up.ok { StepFails(w, up.w, LinkUp(iface, false), iface, Other); return; }
    if iface !in w.adminUp { StepWorks(w, up.w, LinkUp(iface, true), iface); }
    ReadyFromStop(up.w, env, iface);
    var p := Ready(w, env, iface);
    if p.result.Ok? {
      SmoothTrans(w, up.w, p.w, iface);
    } else {
      Then(w, up.w, Applied(Err(p.result.error), p.w), iface);
    }
  }

  function ReadyAfterUp(w: World, env: Env, iface: string): Resolved {
    var s := DhclientStop(w, env, iface);
    if !s.ok then Resolved(Err(Other), s.w) else
    var d := if DhcpRunning(s.w) then DnsmasqStop(s.w, env) else Did(true, s.w);
    Resolved(if d.ok then Ok(iface) else Err(Other), d.w)
  }

  lemma ReadyFromStop(w: World, env: Env, iface: string)
    ensures PreparedOrStopped(w, ReadyAfterUp(w, env, iface), iface)
  {
    var s := DhclientStop(w, env, iface);
    if !s.ok { StepFails(w, s.w, StopDhclient(iface, false), iface, Other); return; }
    StepWorks(w, s.w, StopDhclient(iface, true), iface);
    if DhcpRunning(s.w) {
      var d := DnsmasqStop(s.w, env);
      if d.ok {
        StepWorks(s.w, d.w, StopDnsmasq(true), iface);
        SmoothTrans(w, s.w, d.w, iface);
      } else {
        StepFails(s.w, d.w, StopDnsmasq(false), iface, Other);
        Then(w, s.w, Applied(Err(Other), d.w), iface);
      }
    }
  }

  /** Why no interface can be chosen: the pinned one is missing, the list cannot be read, or it is empty. */
  function Refusal(w: World, env: Env, cfg: Cfg): Option<Error> {
    if cfg.iface.Some? && cfg.iface.value != "auto" then
      if cfg.iface.value in w.eths then None else Some(NotEthernet(cfg.iface.value))
    else if env.cmd(|w.log|) != Worked then Some(Io)
    else if w.eths == [] then Some(Error.NoEthernet)
    else None
  }

  lemma ChoiceOutcome(w: World, env: Env, cfg: Cfg, live: bool)
    ensures var r := ResolveIface(w, env, cfg.iface, live);
            && (r.result.Ok? <==> Refusal(w, env, cfg).None?)
            && (r.result.Err? ==> Some(r.result.error) == Refusal(w, env, cfg))
  {}

  /**
   * The outcome of an apply. An invalid configuration touches nothing; without an interface to choose the reason
   * is returned; and from the choice on it fails exactly if some step fails that it does not tolerate, with that
   * step as the last one.
   */
  lemma {:induction false} ApplyOutcomeLaw(w: World, env: Env, cfg: Cfg)
    ensures var a := ApplyWith(w, env, cfg);
            var r := ResolveIface(w, env, cfg.iface, true);
            if !Valid(cfg) then a == Applied(Err(Error.Config), w)
            else if Refusal(w, env, cfg).Some? then a == Applied(Err(Refusal(w, env, cfg).value), r.w)
            else r.result.Ok? && StopsAtFailure(r.w, a, r.result.value)
  {
    var r := ResolveIface(w, env, cfg.iface, true);
    ChoiceOutcome(w, env, cfg, true);
    if Valid(cfg) && r.result.Ok? {
      var iface := r.result.value;
      var w1 := Isolate(r.w, env, iface);
      var p := Prepare(w, env, cfg);
      IsolateSmooth(r.w, env, iface);
      ReadyStops(w1, env, iface);
      assert p == Ready(w1, env, iface);
      PreparedThen(r.w, w1, p, env, cfg, iface);
    }
  }

  lemma PreparedThen(r: World, w1: World, p: Resolved, env: Env, cfg: Cfg, iface: string)
    requires Smooth(r, w1, iface) && PreparedOrStopped(w1, p, iface) && cfg.gateway.subnet.prefix == REQUIRED_PREFIX
    ensures StopsAtFailure(
              r, if p.result.Err? then Applied(Err(p.result.error), p.w) else Select(p.w, env, cfg, iface), iface)
  {
    if p.result.Ok? {
      SmoothTrans(r, w1, p.w, iface);
      SelectStops(p.w, env, cfg, iface);
      Then(r, p.w, Select(p.w, env, cfg, iface), iface);
    } else {
      Then(r, w1, Applied(Err(p.result.error), p.w), iface);
    }
  }

  // ----- When everything works -----

  /** Every command works and every operation on dnsmasq succeeds. */
  ghost predicate AllWork(env: Env) {
    && (forall n :: env.cmd(n) == Worked)
    && (forall n :: var f := env.dhcpd(n);
          f.confDirOk && f.writeOk && f.binary && f.runDirOk && f.spawnOk && f.removeOk && f.hupOk && !f.hupKills)
  }

  lemma WorkingPrepare(w: World, env: Env, cfg: Cfg)
    requires AllWork(env) && Refusal(w, env, cfg).None?
    ensures Prepare(w, env, cfg).result == ResolveIface(w, env, cfg.iface, true).result
    ensures Prepare(w, env, cfg).result.Ok?
  {
    ChoiceOutcome(w, env, cfg, true);
  }

  lemma WorkingClient(w: World, env: Env, iface: string)
    requires AllWork(env)
    ensures var a := ApplyClient(w, env, iface); a.result.Ok? && a.result.value.mode == Client
  {}

  lemma WorkingStatic(w: World, env: Env, cfg: Cfg, iface: string)
    requires AllWork(env) && cfg.gateway.subnet.prefix == REQUIRED_PREFIX
    ensures var a := ApplyStatic(w, env, cfg, iface); a.result.Ok? && a.result.value.mode == Static
  {}

  lemma WorkingGateway(w: World, env: Env, cfg: Cfg, iface: string)
    requires AllWork(env) && Dead(w.dhcpd)
    ensures var a := ApplyGateway(w, env, cfg, iface); a.result.Ok? && a.result.value.mode == Mode.Gateway
  {
    var t := TakeGatewayAddr(w, env, cfg, iface);
    assert t.ok by {
      if Reported(w, iface) != Some(GatewayCidr(cfg)) {
        var f := FlushAddr(w, env, iface);
        assert f.ok && Addrs(f.w, iface) == [];
      }
    }
    var r := RemoveDefault(t.w, env);
    TakeGatewayAddrLaw(w, env, cfg, iface);
    StartFromNothing(EnsureConf(r.w.dhcpd, env.render(cfg, iface), env.dhcpd(|r.w.log|)).1, env.dhcpd(|r.w.log|));
  }

  /** The static address is there already but cannot be read, so that adding it fails. */
  predicate StaticInTheWay(w: World, cfg: Cfg, iface: string)
    requires cfg.gateway.subnet.prefix == REQUIRED_PREFIX
  {
    HidesAddress(iface) && StaticCidr(cfg) in Addrs(w, iface)
  }

  lemma WorkingNoOffer(w: World, env: Env, cfg: Cfg, iface: string)
    requires AllWork(env) && Dead(w.dhcpd) && cfg.gateway.subnet.prefix == REQUIRED_PREFIX
    ensures var a := SelectNoOffer(w, env, cfg, iface);
            && (a.result.Ok? <==> !StaticInTheWay(w, cfg, iface))
            && (a.result.Ok? ==> a.result.value.mode != Client)
  {
    var t := TempAddr(w, env, cfg, iface);
    TempAddrLaw(w, env, cfg, iface);
    assert t.ok <==> !StaticInTheWay(w, cfg, iface);
    if t.ok {
      var p := Reach(t.w, env, cfg);
      if p.ok { WorkingStatic(p.w, env, cfg, iface); } else { WorkingGateway(p.w, env, cfg, iface); }
    }
  }

  lemma WorkingSelect(w: World, env: Env, cfg: Cfg, iface: string)
    requires AllWork(env) && Dead(w.dhcpd) && cfg.gateway.subnet.prefix == REQUIRED_PREFIX
    ensures var a := Select(w, env, cfg, iface);
            && (env.probe(|w.log|) == Some(true) ==> a.result.Ok? && a.result.value.mode == Client)
            && (env.probe(|w.log|) == Some(false) ==>
                  && (a.result.Ok? <==> !StaticInTheWay(w, cfg, iface))
                  && (a.result.Ok? ==> a.result.value.mode != Client))
            && (env.probe(|w.log|) == None ==> a.result == Err(DhcpProbe))
  {
    var w1 := ProbeDhcp(w, env, iface);
    if env.probe(|w.log|) == Some(true) {
      WorkingClient(w1, env, iface);
    } else if env.probe(|w.log|) == Some(false) {
      WorkingNoOffer(w1, env, cfg, iface);
    }
  }

  /**
   * When every command works, an apply on a valid configuration with an interface to choose ends as the probe
   * says: an offer in client mode; no offer in one of the others, unless an unreadable static address is in the
   * way; and no answer in the error for that.
   */
  lemma {:induction false} WorkingApply(w: World, env: Env, cfg: Cfg)
    requires Tracked(w.dhcpd) && Valid(cfg) && AllWork(env) && Refusal(w, env, cfg).None?
    ensures var a := ApplyWith(w, env, cfg);
            var p := Prepare(w, env, cfg);
            && p.result.Ok?
            && (env.probe(|p.w.log|) == Some(true) ==> a.result.Ok? && a.result.value.mode == Client)
            && (env.probe(|p.w.log|) == Some(false) ==>
                  && (a.result.Ok? <==> !StaticInTheWay(w, cfg, p.result.value))
                  && (a.result.Ok? ==> a.result.value.mode != Client))
            && (env.probe(|p.w.log|) == None ==> a.result == Err(DhcpProbe))
  {
    var p := Prepare(w, env, cfg);
    WorkingPrepare(w, env, cfg);
    PrepareLaw(w, env, cfg);
    WorkingSelect(p.w, env, cfg, p.result.value);
  }

  // ----- The client's address -----

  /** The interface has the lease obtained while waiting and nothing else, and that is reported if it can be read. */
  predicate OnlyLease(w: World, env: Env, s: Status) {
    && |w.log| > 0
    && var lease := env.lease(|w.log| - 1);
    && Addrs(w, s.iface) == (if lease.Some? then [lease.value] else [])
    && s.cidr == (if HidesAddress(s.iface) then None else lease)
  }

  /**
   * After a successful client apply whose flush worked, the interface has the lease obtained while waiting and
   * no other address; the status reports it, unless there is none or the name hides it.
   */
  lemma {:induction false} ClientReportsLease(w: World, env: Env, cfg: Cfg)
    requires Tracked(w.dhcpd)
    ensures var a := ApplyWith(w, env, cfg);
            a.result.Ok? && a.result.value.mode == Client && FlushesWork(w, a.w, a.result.value.iface) ==>
              OnlyLease(a.w, env, a.result.value)
  {
    ApplyLaw(w, env, cfg);
    var a := ApplyWith(w, env, cfg);
    if a.result.Ok? && a.result.value.mode == Client && FlushesWork(w, a.w, a.result.value.iface) {
      LeaseOnly(w, a.w, env, a.result.value);
    }
  }

  lemma LeaseOnly(w: World, w': World, env: Env, s: Status)
    requires Grew(w, w') && ClientHas(w, w', env, s.iface) && FlushesWork(w, w', s.iface)
    requires s.cidr == Reported(w', s.iface)
    ensures OnlyLease(w', env, s)
  {
    assert w'.log[|w'.log| - 3].outcome == Worked;
    assert Addrs(w', s.iface) == Leased(env, |w'.log| - 1);
  }

  // ----- Teardown -----

  /** A teardown either fails to stop our server, with nothing else touched, or goes through to the route. */
  predicate TornThrough(r: World, a: Applied, iface: string) {
    && |a.w.log| > |r.log| && Grew(r, a.w) && a.w.log[|r.log|].StopDnsmasq?
    && var last := a.w.log[|a.w.log| - 1];
       if !a.w.log[|r.log|].ok then
         a.result == Err(Other) && a.w == r.(log := r.log + [StopDnsmasq(false)], now := a.w.now)
       else
         && last.DelDefault? && |a.w.log| > |r.log| + 1
         && a.result == if last.outcome == Failed then Err(Other)
                        else Ok(Status(Mode.Gateway, iface, None, false, false, false))
  }

  /**
   * The outcome of a teardown. An invalid configuration touches nothing; without an interface to choose the
   * reason is returned and nothing done; otherwise it fails exactly if the server cannot be stopped, and then
   * stops there, or if removing the route fails at the end. Listing, flushing and stopping dhclient never stop it.
   */
  lemma {:induction false} TeardownOutcome(w: World, env: Env, cfg: Cfg)
    requires Tracked(w.dhcpd)
    ensures var a := TeardownWith(w, env, cfg);
            var r := ResolveIface(w, env, cfg.iface, false);
            if !Valid(cfg) then a == Applied(Err(Error.Config), w)
            else if Refusal(w, env, cfg).Some? then
              a == Applied(Err(Refusal(w, env, cfg).value), r.w) && OnlyLinks(w, r.w)
            else r.result.Ok? && OnlyLinks(w, r.w) && TornThrough(r.w, a, r.result.value)
  {
    var r := ResolveIface(w, env, cfg.iface, false);
    ChoiceOutcome(w, env, cfg, false);
    ResolveFrame(w, env, cfg.iface, false);
    if Valid(cfg) && r.result.Ok? {
      TeardownFrom(r.w, env, r.result.value, TeardownWith(w, env, cfg));
    }
  }

  /** The part of a teardown behind the choice. */
  lemma TeardownFrom(r: World, env: Env, iface: string, a: Applied)
    requires Tracked(r.dhcpd)
    requires var d := DnsmasqStop(r, env);
             var del := RemoveDefault(FlushAllEthernet(d.w, env), env);
             a == if !d.ok then Applied(Err(Other), d.w)
                  else if !del.ok then Applied(Err(Other), del.w)
                  else Applied(Ok(Status(Mode.Gateway, iface, None, false, false, DhcpRunning(del.w))), del.w)
    ensures TornThrough(r, a, iface)
  {
    StopEmpties(r.dhcpd, env.dhcpd(|r.log|));
    var d := DnsmasqStop(r, env);
    FlushAllEthernetLaw(d.w, env);
    var f := FlushAllEthernet(d.w, env);
    var del := RemoveDefault(f, env);
    assert d.w.log[|r.log|] == StopDnsmasq(d.ok) && del.w.log[|f.log|] == DelDefault(Cmd(f, env));
  }

  /** When every command works, a teardown with an interface to choose leaves nothing of ours, and no route. */
  lemma {:induction false} WorkingTeardown(w: World, env: Env, cfg: Cfg)
    requires Tracked(w.dhcpd) && Valid(cfg) && AllWork(env) && Refusal(w, env, cfg).None?
    ensures var a := TeardownWith(w, env, cfg);
            && a.result.Ok? && TornDown(a.w) && a.w.route.None?
  {
    var r := ResolveIface(w, env, cfg.iface, false);
    ChoiceOutcome(w, env, cfg, false);
    ResolveFrame(w, env, cfg.iface, false);
    StopEmpties(r.w.dhcpd, env.dhcpd(|r.w.log|));
    var d := DnsmasqStop(r.w, env);
    WorkingFlushAll(Note(d.w, env, ListEth(true)), env, d.w.eths);
    FlushAllEthernetLaw(d.w, env);
  }

  lemma {:induction false} WorkingFlushAll(w: World, env: Env, names: seq<string>)
    requires AllWork(env)
    ensures var w' := FlushAll(w, env, names);
            && w'.addrs.Keys <= w.addrs.Keys && w'.dhclient <= w.dhclient
            && forall n :: n in names ==> n !in w'.addrs && n !in w'.dhclient
    decreases |names|
  {
    if names != [] {
      var w1 := FlushAddr(DhclientStop(w, env, names[0]).w, env, names[0]).w;
      WorkingFlushAll(w1, env, names[1..]);
      assert names == [names[0]] + names[1..];
    }
  }
}
