/** Apply and teardown as they run on the host, one operation after the other. */
module HostApply {
  import opened Basics
  import opened Config
  import opened Net
  import opened Hosts
  import Apply

  type Status = Apply.Status

  method IsolateIface(h: Host, env: Env, keep: string)
    modifies h
    ensures h.View() == Apply.Isolate(old(h.View()), env, keep)
  {
    var ok := h.ListEthernet(env);
    if !ok {
      return;
    }
    var names := h.eths;
    ghost var w := h.View();
    for i := 0 to |names|
      invariant Apply.IsolateAll(h.View(), env, names[i..], keep) == Apply.IsolateAll(w, env, names, keep)
    {
      var name := names[i];
      assert names[i..][1..] == names[i + 1..];
      if name == keep {
        continue;
      }
      if name !in h.adminUp && Reported(h.View(), name).None? {
        continue;
      }
      var _ := h.DhclientStop(env, name);
      var _ := h.FlushAddr(env, name);
      var _ := h.SetDown(env, name);
    }
  }

  method FlushAllEthernet(h: Host, env: Env)
    modifies h
    ensures h.View() == Apply.FlushAllEthernet(old(h.View()), env)
  {
    var ok := h.ListEthernet(env);
    if !ok {
      return;
    }
    var names := h.eths;
    ghost var w := h.View();
    for i := 0 to |names|
      invariant Apply.FlushAll(h.View(), env, names[i..]) == Apply.FlushAll(w, env, names)
    {
      assert names[i..][1..] == names[i + 1..];
      var _ := h.DhclientStop(env, names[i]);
      var _ := h.FlushAddr(env, names[i]);
    }
  }

  method ApplyClient(h: Host, env: Env, iface: string) returns (r: Result<Status>)
    modifies h
    ensures Apply.Applied(r, h.View()) == Apply.ApplyClient(old(h.View()), env, iface)
  {
    var ok := h.DnsmasqStop(env);
    if !ok {
      return Err(Other);
    }
    ok := h.FlushAddr(env, iface);
    if !ok {
      return Err(Other);
    }
    ok := h.DhclientStart(env, iface);
    if !ok {
      return Err(Other);
    }
    h.WaitForIpv4(env, iface);
    return Ok(Apply.Status(Apply.Client, iface, Reported(h.View(), iface), true, false, h.IsRunning()));
  }

  method ApplyStatic(h: Host, env: Env, cfg: Cfg, iface: string) returns (r: Result<Status>)
    requires cfg.gateway.subnet.prefix == REQUIRED_PREFIX
    modifies h
    ensures Apply.Applied(r, h.View()) == Apply.ApplyStatic(old(h.View()), env, cfg, iface)
  {
    var ok := h.DnsmasqStop(env);
    if !ok {
      return Err(Other);
    }
    ok := h.ReplaceDefault(env, cfg.gateway.ip, iface);
    if !ok {
      return Err(Other);
    }
    return Ok(Apply.Status(Apply.Static, iface, Some(StaticCidr(cfg)), false, true, h.IsRunning()));
  }

  method ApplyGateway(h: Host, env: Env, cfg: Cfg, iface: string) returns (r: Result<Status>)
    modifies h
    ensures Apply.Applied(r, h.View()) == Apply.ApplyGateway(old(h.View()), env, cfg, iface)
  {
    var want := GatewayCidr(cfg);
    var ok;
    if Reported(h.View(), iface) != Some(want) {
      ok := h.FlushAddr(env, iface);
      if !ok {
        return Err(Other);
      }
      ok := h.AddAddress(env, iface, want);
      if !ok {
        return Err(Other);
      }
    }
    ok := h.RemoveDefault(env);
    if !ok {
      return Err(Other);
    }
    ok := h.DnsmasqReload(env, cfg, iface);
    if !ok {
      return Err(Other);
    }
    return Ok(Apply.Status(Apply.Mode.Gateway, iface, Some(want), false, false, h.IsRunning()));
  }

  /** Resolve, isolate, bring up, stop dhclient and our own server. */
  method Prepare(h: Host, env: Env, cfg: Cfg) returns (r: Result<string>)
    modifies h
    ensures Resolved(r, h.View()) == Apply.Prepare(old(h.View()), env, cfg)
  {
    r := h.ResolveIface(env, cfg.iface, true);
    if r.Err? {
      return;
    }
    var iface := r.value;
    IsolateIface(h, env, iface);
    var ok := h.BringUp(env, iface);
    if !ok {
      return Err(Other);
    }
    ok := h.DhclientStop(env, iface);
    if !ok {
      return Err(Other);
    }
    if h.IsRunning() {
      ok := h.DnsmasqStop(env);
      if !ok {
        return Err(Other);
      }
    }
  }

  /** Probe, ping, decide, and apply the mode. */
  method Select(h: Host, env: Env, cfg: Cfg, iface: string) returns (r: Result<Status>)
    requires cfg.gateway.subnet.prefix == REQUIRED_PREFIX
    modifies h
    ensures Apply.Applied(r, h.View()) == Apply.Select(old(h.View()), env, cfg, iface)
  {
    var offer := h.ProbeDhcp(env, iface);
    if offer.None? {
      return Err(DhcpProbe);
    }
    if offer.value {
      r := ApplyClient(h, env, iface);
      return;
    }
    r := SelectNoOffer(h, env, cfg, iface);
  }

  method SelectNoOffer(h: Host, env: Env, cfg: Cfg, iface: string) returns (r: Result<Status>)
    requires cfg.gateway.subnet.prefix == REQUIRED_PREFIX
    modifies h
    ensures Apply.Applied(r, h.View()) == Apply.SelectNoOffer(old(h.View()), env, cfg, iface)
  {
    if !HasIpv4(h.View(), iface) {
      var ok := h.AddAddress(env, iface, StaticCidr(cfg));
      if !ok {
        return Err(Other);
      }
    }
    var reachable := false;
    if !IsLocal(h.View(), cfg.gateway.ip) {
      reachable := h.PingHost(env, cfg.gateway.ip);
    }
    // Without an offer the decision is never Client.
    if Apply.Decide(false, reachable) == Apply.Static {
      r := ApplyStatic(h, env, cfg, iface);
    } else {
      r := ApplyGateway(h, env, cfg, iface);
    }
  }

  method ApplyWith(h: Host, env: Env, cfg: Cfg) returns (r: Result<Status>)
    modifies h
    ensures Apply.Applied(r, h.View()) == Apply.ApplyWith(old(h.View()), env, cfg)
  {
    var valid := Validate(cfg);
    if valid.Err? {
      return Err(valid.error);
    }
    var iface := Prepare(h, env, cfg);
    if iface.Err? {
      return Err(iface.error);
    }
    r := Select(h, env, cfg, iface.value);
  }

  method TeardownWith(h: Host, env: Env, cfg: Cfg) returns (r: Result<Status>)
    modifies h
    ensures Apply.Applied(r, h.View()) == Apply.TeardownWith(old(h.View()), env, cfg)
  {
    var valid := Validate(cfg);
    if valid.Err? {
      return Err(valid.error);
    }
    var iface := h.ResolveIface(env, cfg.iface, false);
    if iface.Err? {
      return Err(iface.error);
    }
    var ok := h.DnsmasqStop(env);
    if !ok {
      return Err(Other);
    }
    FlushAllEthernet(h, env);
    ok := h.RemoveDefault(env);
    if !ok {
      return Err(Other);
    }
    return Ok(Apply.Status(Apply.Mode.Gateway, iface.value, None, false, false, h.IsRunning()));
  }
}
