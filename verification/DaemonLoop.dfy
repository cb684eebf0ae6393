/** The daemon as an object: shared snapshot, counters and host, changed in place by each event. */
module DaemonLoop {
  import opened Basics
  import opened Config
  import opened Net
  import opened Hosts
  import HostApply
  import Apply
  import Daemon
  import DaemonOwnership
  import Dhcpd

  class Loop {
    const host: Host
    var cfg: Cfg
    var status: Apply.Status
    var health: Daemon.Health
    var applying: bool
    var downSince: Option<nat>
    var streak: nat

    function View(): Daemon.State
      reads this, host
    {
      Daemon.State(cfg, status, health, applying, downSince, streak, host.View())
    }

    /** Load has succeeded; apply once, and start with an empty status if that fails. */
    constructor (h: Host, env: Env, c: Cfg)
      modifies h
      ensures host == h
      ensures View() == Daemon.Launch(old(h.View()), env, c)
    {
      var r := HostApply.ApplyWith(h, env, c);
      host, cfg := h, c;
      status := if r.Ok? then r.value else Apply.EmptyStatus;
      health, applying, downSince, streak := Daemon.Fine, false, None, 0;
    }

    method SetHealth(healthy: bool, reason: Option<Daemon.Reason>)
      modifies this`health
      ensures health == Daemon.SetHealth(old(health), healthy, reason)
    {
      var changed := health.healthy != healthy || health.reason != reason;
      if !changed {
        return;
      }
      if healthy {
        health := Daemon.Fine;
      } else {
        health := Daemon.Health(false, reason);
      }
    }

    method RecordVerdict(v: Daemon.Verdict)
      modifies this`health, this`streak
      ensures View() == Daemon.RecordVerdict(old(View()), v)
    {
      match v
      case Healthy =>
        streak := 0;
        SetHealth(true, None);
      case Unhealthy(why) =>
        if streak < Daemon.U32_MAX {
          streak := streak + 1;
        }
        if streak >= Daemon.HEALTH_FAIL_THRESHOLD {
          SetHealth(false, Some(why));
        }
    }

    /** Run an apply with the flag up, and store what it selects. */
    method ApplyNow(env: Env)
      requires !applying
      modifies this, host
      ensures View() == Daemon.ApplyNow(old(View()), env)
    {
      applying := true;
      var r := HostApply.ApplyWith(host, env, cfg);
      applying := false;
      if r.Ok? {
        StoreStatus(r.value);
      }
    }

    /** Keep what was selected; timer and health start afresh. */
    method StoreStatus(s: Apply.Status)
      modifies this`downSince, this`status, this`streak, this`health
      ensures View() == Daemon.Reset(old(View()).(status := s, downSince := None))
    {
      downSince := None;
      status := s;
      streak := 0;
      SetHealth(true, None);
    }

    method OnConfigReload(env: Env, loaded: Option<Cfg>)
      requires !applying
      modifies this, host
      ensures View() == Daemon.OnReload(old(View()), env, loaded)
    {
      if loaded.None? {
        return;
      }
      var valid := Validate(loaded.value);
      if valid.Err? {
        return;
      }
      cfg := loaded.value;
      ApplyNow(env);
    }

    method RefreshLiveStatus()
      modifies this`status
      ensures View() == Daemon.RefreshLive(old(View()))
    {
      var cidr := Reported(host.View(), status.iface);
      if status.cidr != cidr {
        status := status.(cidr := cidr);
      }
      status := status.(dnsmasqRunning := host.IsRunning());
    }

    method MaybeSelfHeal(env: Env)
      modifies host
      ensures host.View() == Daemon.SelfHeal(old(host.View()), env, cfg, status.mode, status.iface)
    {
      match Daemon.HealFor(status.mode, Daemon.ProcOk(host.View(), status.mode, status.iface))
      case Nothing =>
      case RestartDnsmasq => var _ := host.DnsmasqReload(env, cfg, status.iface);
      case RestartDhclient => var _ := host.DhclientStart(env, status.iface);
    }

    method TickUp(env: Env)
      modifies this, host
      ensures View() == Daemon.TickUp(old(View()), env)
    {
      downSince := None;
      RefreshLiveStatus();
      MaybeSelfHeal(env);
      RefreshLiveStatus();
      var hasIpv4 := HasIpv4(host.View(), status.iface);
      var procOk := Daemon.ProcOk(host.View(), status.mode, status.iface);
      RecordVerdict(Daemon.Assess(status.mode, true, hasIpv4, procOk));
    }

    method TickDown(env: Env)
      requires !applying
      modifies this, host
      ensures View() == Daemon.TickDown(old(View()), env)
    {
      var now := host.now;
      if downSince.None? {
        downSince := Some(now);
      }
      streak := 0;
      SetHealth(true, None);
      if !Daemon.ShouldReselect(false, downSince, now, Daemon.RetryMs(cfg)) {
        return;
      }
      ApplyNow(env);
    }

    method Tick(env: Env)
      modifies this, host
      ensures View() == Daemon.Tick(old(View()), env)
    {
      if applying {
        streak := 0;
        SetHealth(true, None);
        return;
      }
      if status.iface == "" {
        RecordVerdict(Daemon.Unhealthy(Daemon.EmptyIface));
        return;
      }
      var carrier := Carrier(host.View(), env, status.iface);
      host.Journal(env, ReadCarrier(status.iface, carrier));
      if carrier {
        TickUp(env);
      } else {
        TickDown(env);
      }
    }

    /** The outside world acts on the host. */
    method Meanwhile(o: Daemon.Outside)
      modifies host
      ensures host.View() == Daemon.Disturb(old(host.View()), o)
    {
      host.eths, host.addrs, host.adminUp := o.eths, o.addrs, o.adminUp;
      host.dhclient, host.route := o.dhclient, o.route;
      host.procs, host.now := host.procs - o.crashed, host.now + o.ms;
    }

    method Handle(env: Env, e: Daemon.Event)
      requires !applying
      modifies this, host
      ensures View() == Daemon.Step(old(View()), env, e) && !applying
    {
      match e
      case Reload(loaded) => OnConfigReload(env, loaded);
      case Reconfigure => ApplyNow(env);
      case TickDue => Tick(env);
      case Meanwhile(o) => Meanwhile(o);
    }

    /** The loop over whatever comes next, until the events are used up. */
    method Serve(env: Env, es: seq<Daemon.Event>)
      requires !applying
      modifies this, host
      ensures View() == Daemon.Run(old(View()), env, es)
    {
      for i := 0 to |es|
        invariant !applying
        invariant View() == Daemon.Run(old(View()), env, es[..i])
      {
        assert es[..i + 1][..i] == es[..i];
        Handle(env, es[i]);
      }
      assert es[..|es|] == es;
    }
  }

  /** The daemon from start to the end of the events: a server is left only under gateway mode, up to date if it was. */
  method RunDaemon(h: Host, env: Env, cfg: Cfg, es: seq<Daemon.Event>) returns (l: Loop)
    requires Valid(cfg) && Dhcpd.Tracked(h.Server()) && DaemonOwnership.ColdLog(h.log)
    modifies h
    ensures l.host == h
    ensures h.procs != map[] ==> l.status.mode == Apply.Mode.Gateway
    ensures old(Dhcpd.Coherent(h.Server())) ==> Dhcpd.Coherent(h.Server())
    ensures DaemonOwnership.ColdLog(h.log)
  {
    DaemonOwnership.DnsmasqOnlyInGateway(h.View(), env, cfg, es);
    l := new Loop(h, env, cfg);
    l.Serve(env, es);
  }
}
