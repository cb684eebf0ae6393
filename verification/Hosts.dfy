/** The host in the form the program acts on it: an object whose operations change it step by step. */
module Hosts {
  import opened Basics
  import opened Config
  import opened Net
  import opened Dhcpd

  class Host {
    var eths: seq<string>
    var addrs: map<string, seq<Cidr>>
    var adminUp: set<string>
    var dhclient: set<string>
    var route: Option<Route>
    var conf: string
    var pidfile: Option<nat>
    var procs: map<nat, string>
    var now: nat
    var log: seq<Op>

    constructor (w: World)
      ensures View() == w
    {
      eths, addrs, adminUp, dhclient, route := w.eths, w.addrs, w.adminUp, w.dhclient, w.route;
      conf, pidfile, procs := w.dhcpd.conf, w.dhcpd.pidfile, w.dhcpd.procs;
      now, log := w.now, w.log;
    }

    function Server(): Dhcpd
      reads this`conf, this`pidfile, this`procs
    {
      Dhcpd(conf, pidfile, procs)
    }

    function View(): World
      reads this
    {
      World(eths, addrs, adminUp, dhclient, route, Server(), now, log)
    }

    method Journal(env: Env, op: Op)
      modifies this`log, this`now
      ensures View() == Note(old(View()), env, op)
    {
      now := now + env.took(|log|);
      log := log + [op];
    }

    // ----- The dnsmasq process -----

    function IsRunning(): bool
      reads this`conf, this`pidfile, this`procs
      ensures IsRunning() <==> Alive(Server())
    {
      pidfile.Some? && pidfile.value in procs
    }

    /** SIGTERM, then SIGKILL if it did not go, then drop the pidfile. */
    method StopProcess(f: Faults)
      modifies this`pidfile, this`procs
      ensures Server() == Stop(old(Server()), f)
    {
      if pidfile.Some? && IsRunning() {
        var pid := pidfile.value;
        if f.termKills {
          procs := procs - {pid};
        }
        if IsRunning() {
          procs := procs - {pid};
        }
      }
      if f.removeOk {
        pidfile := None;
      }
    }

    method StartProcess(f: Faults) returns (ok: bool)
      modifies this`pidfile, this`procs
      ensures Done(ok, Server()) == Start(old(Server()), f)
    {
      if !f.binary {
        return false;
      }
      if IsRunning() {
        return true;
      }
      if !f.runDirOk {
        return false;
      }
      if f.staleOk {
        pidfile := None;
      }
      if f.spawnOk {
        pidfile := Some(f.pid);
        procs := procs[f.pid := conf];
      }
      return f.spawnOk;
    }

    method WriteConf(body: string, f: Faults) returns (changed: Result<bool>)
      modifies this`conf
      ensures (changed, Server()) == EnsureConf(old(Server()), body, f)
    {
      if !f.confDirOk {
        return Err(Io);
      }
      if conf == body {
        return Ok(false);
      }
      if !f.writeOk {
        return Err(Io);
      }
      conf := body;
      return Ok(true);
    }

    method ReloadOrRestartProcess(changed: bool, f: Faults) returns (ok: bool)
      modifies this`pidfile, this`procs
      ensures Done(ok, Server()) == ReloadOrRestart(old(Server()), changed, f)
    {
      if !IsRunning() {
        ok := StartProcess(f);
        return;
      }
      if changed {
        StopProcess(f);
        ok := StartProcess(f);
        return;
      }
      if f.hupOk {
        if f.hupKills {
          procs := procs - {pidfile.value};
        }
        if IsRunning() {
          return true;
        }
        ok := StartProcess(f);
      } else {
        StopProcess(f);
        ok := StartProcess(f);
      }
    }

    // ----- The operations apply is written in -----

    method ListEthernet(env: Env) returns (ok: bool)
      modifies this`log, this`now
      ensures ok == (Cmd(old(View()), env) == Worked)
      ensures View() == Note(old(View()), env, ListEth(ok))
    {
      ok := env.cmd(|log|) == Worked;
      Journal(env, ListEth(ok));
    }

    method BringUp(env: Env, name: string) returns (ok: bool)
      modifies this`adminUp, this`log, this`now
      ensures Did(ok, View()) == Net.BringUp(old(View()), env, name)
    {
      if name in adminUp {
        return true;
      }
      ok := env.cmd(|log|) == Worked;
      if ok {
        adminUp := adminUp + {name};
      }
      Journal(env, LinkUp(name, ok));
    }

    method SetDown(env: Env, name: string) returns (ok: bool)
      modifies this`adminUp, this`log, this`now
      ensures Did(ok, View()) == Net.SetDown(old(View()), env, name)
    {
      ok := env.cmd(|log|) == Worked;
      if ok {
        adminUp := adminUp - {name};
      }
      Journal(env, LinkDown(name, ok));
    }

    method FlushAddr(env: Env, name: string) returns (ok: bool)
      modifies this`addrs, this`log, this`now
      ensures Did(ok, View()) == Net.FlushAddr(old(View()), env, name)
    {
      var o := env.cmd(|log|);
      if o == Worked {
        addrs := addrs - {name};
      }
      Journal(env, Flush(name, o));
      return o != Failed;
    }

    method AddAddress(env: Env, name: string, cidr: Cidr) returns (ok: bool)
      modifies this`addrs, this`log, this`now
      ensures Did(ok, View()) == Net.AddAddress(old(View()), env, name, cidr)
    {
      var have := if name in addrs then addrs[name] else [];
      var first := Reported(View(), name);
      if env.cmd(|log|) == Worked && cidr !in have {
        addrs := addrs[name := have + [cidr]];
        ok := true;
      } else {
        ok := first.Some? && first.value.ip == cidr.ip;
      }
      Journal(env, AddAddr(name, cidr, ok));
    }

    method DhclientStop(env: Env, name: string) returns (ok: bool)
      modifies this`dhclient, this`log, this`now
      ensures Did(ok, View()) == Net.DhclientStop(old(View()), env, name)
    {
      ok := env.cmd(|log|) == Worked;
      if ok {
        dhclient := dhclient - {name};
      }
      Journal(env, StopDhclient(name, ok));
    }

    method DhclientStart(env: Env, name: string) returns (ok: bool)
      modifies this`dhclient, this`log, this`now
      ensures Did(ok, View()) == Net.DhclientStart(old(View()), env, name)
    {
      ok := env.cmd(|log|) == Worked;
      if ok {
        dhclient := dhclient + {name};
      }
      Journal(env, StartDhclient(name, ok));
    }

    method WaitForIpv4(env: Env, name: string)
      modifies this`addrs, this`log, this`now
      ensures View() == Net.WaitForIpv4(old(View()), env, name)
    {
      var lease := env.lease(|log|);
      if name in dhclient && lease.Some? {
        addrs := addrs[name := (if name in addrs then addrs[name] else []) + [lease.value]];
      }
      Journal(env, WaitIpv4(name));
    }

    method ReplaceDefault(env: Env, via: Ip, name: string) returns (ok: bool)
      modifies this`route, this`log, this`now
      ensures Did(ok, View()) == Net.ReplaceDefault(old(View()), env, via, name)
    {
      ok := env.cmd(|log|) == Worked;
      if ok {
        route := Some(Route(via, name));
      }
      Journal(env, SetDefault(via, name, ok));
    }

    method RemoveDefault(env: Env) returns (ok: bool)
      modifies this`route, this`log, this`now
      ensures Did(ok, View()) == Net.RemoveDefault(old(View()), env)
    {
      var o := env.cmd(|log|);
      if o == Worked {
        route := None;
      }
      Journal(env, DelDefault(o));
      return o != Failed;
    }

    method PingHost(env: Env, host: Ip) returns (ok: bool)
      modifies this`log, this`now
      ensures Did(ok, View()) == Net.PingHost(old(View()), env, host)
    {
      ok := env.echo(|log|);
      Journal(env, Ping(host, ok));
    }

    method ProbeDhcp(env: Env, name: string) returns (offer: Option<bool>)
      modifies this`log, this`now
      ensures offer == env.probe(|old(log)|)
      ensures View() == Net.ProbeDhcp(old(View()), env, name)
    {
      offer := env.probe(|log|);
      Journal(env, Probe(name, IsRunning(), offer));
    }

    method DnsmasqStop(env: Env) returns (ok: bool)
      modifies this`pidfile, this`procs, this`log, this`now
      ensures Did(ok, View()) == Net.DnsmasqStop(old(View()), env)
    {
      ok := env.cmd(|log|) == Worked;
      if ok {
        StopProcess(env.dhcpd(|log|));
      }
      Journal(env, StopDnsmasq(ok));
    }

    method DnsmasqReload(env: Env, cfg: Cfg, name: string) returns (ok: bool)
      modifies this`conf, this`pidfile, this`procs, this`log, this`now
      ensures Did(ok, View()) == Net.DnsmasqReload(old(View()), env, cfg, name)
    {
      var running := IsRunning();
      var f := env.dhcpd(|log|);
      var changed := WriteConf(env.render(cfg, name), f);
      if changed.Err? {
        ok := false;
      } else {
        ok := ReloadOrRestartProcess(changed.value, f);
      }
      Journal(env, ReloadDnsmasq(running, ok));
    }

    // ----- Choosing the interface -----

    method ReadCarriers(env: Env, names: seq<string>) returns (p: Option<string>)
      modifies this`log, this`now
      ensures p == FirstCarrier(old(View()), env, names)
      ensures View() == Note(old(View()), env, Scan(p))
    {
      p := None;
      for i := 0 to |names|
        invariant p == None
        invariant View() == old(View())
        invariant FirstCarrier(View(), env, names) == FirstCarrier(View(), env, names[i..])
      {
        if names[i] in adminUp && env.plugged(|log|, names[i]) {
          p := Some(names[i]);
          break;
        }
        assert names[i..][1..] == names[i + 1..];
      }
      Journal(env, Scan(p));
    }

    method UpAll(env: Env, names: seq<string>)
      modifies this`adminUp, this`log, this`now
      ensures View() == Net.UpAll(old(View()), env, names)
    {
      for i := 0 to |names|
        invariant Net.UpAll(View(), env, names[i..]) == Net.UpAll(old(View()), env, names)
      {
        assert names[i..][1..] == names[i + 1..];
        var _ := BringUp(env, names[i]);
      }
    }

    method Snooze(env: Env)
      modifies this`log, this`now
      ensures View() == Net.Snooze(old(View()), env)
    {
      now := now + AUTO_CARRIER_POLL_MS;
      Journal(env, Sleep);
    }

    method Poll(env: Env, names: seq<string>, deadline: nat) returns (p: Option<string>)
      modifies this`log, this`now
      ensures Polled(p, View()) == Net.Poll(old(View()), env, names, deadline)
    {
      while true
        invariant Net.Poll(View(), env, names, deadline) == Net.Poll(old(View()), env, names, deadline)
        decreases if now < deadline then deadline - now else 0
      {
        p := ReadCarriers(env, names);
        if p.Some? || now >= deadline {
          return;
        }
        Snooze(env);
      }
    }

    method UpAndPoll(env: Env) returns (p: Option<string>)
      modifies this`adminUp, this`log, this`now
      ensures Polled(p, View()) == Net.UpAndPoll(old(View()), env)
    {
      UpAll(env, eths);
      p := Poll(env, eths, now + AUTO_CARRIER_WAIT_MS);
    }

    method ResolveAuto(env: Env, live: bool) returns (r: Result<string>)
      modifies this`adminUp, this`log, this`now
      ensures Resolved(r, View()) == Net.ResolveAuto(old(View()), env, live)
    {
      var ok := ListEthernet(env);
      if !ok {
        return Err(Io);
      }
      if eths == [] {
        return Err(Error.NoEthernet);
      }
      var p := ReadCarriers(env, eths);
      if p.Some? {
        return Ok(p.value);
      }
      if live {
        p := UpAndPoll(env);
      }
      return Ok(if p.Some? then p.value else eths[0]);
    }

    method ResolveIface(env: Env, configured: Option<string>, live: bool) returns (r: Result<string>)
      modifies this`adminUp, this`log, this`now
      ensures Resolved(r, View()) == Net.ResolveIface(old(View()), env, configured, live)
    {
      if IsAuto(configured) {
        r := ResolveAuto(env, live);
        return;
      }
      if configured.value !in eths {
        return Err(NotEthernet(configured.value));
      }
      return Ok(configured.value);
    }
  }
}
