/** From configuration to clients: what a dnsmasq started by a gateway apply answers. */
module Served {
  import opened Basics
  import opened Config
  import opened Conf
  import opened ConfOptions
  import opened Dhcpd
  import opened Net
  import opened Apply
  import opened ApplyLaws
  import opened ApplyTheorems

  /** The outside world in which apply renders the conf with the real renderer. */
  ghost predicate RendersConf(env: Env, leasefile: string, pidfile: string) {
    forall cfg, iface :: env.render(cfg, iface) == Unlines(ConfLines(cfg, iface, leasefile, pidfile))
  }

  /** The one live dnsmasq has loaded exactly the configured host records. */
  predicate Answers(g: Dhcpd, cfg: Cfg) {
    && Alive(g) && g.procs.Keys == {g.pidfile.value}
    && Answer(cfg, HostRecords(g.procs[g.pidfile.value]))
  }

  /**
   * After a gateway apply the live dnsmasq has loaded exactly the configured host records, in order and under
   * their normal names, each with its own address or else the gateway's, and none when DNS is off.
   */
  lemma {:induction false} GatewayAnswersRecords(w: World, env: Env, cfg: Cfg, leasefile: string, pidfile: string)
    requires Tracked(w.dhcpd) && RendersConf(env, leasefile, pidfile)
    requires '\n' !in leasefile && '\n' !in pidfile && forall n :: n in w.eths ==> '\n' !in n
    ensures var a := ApplyWith(w, env, cfg);
            a.result.Ok? && a.result.value.mode == Mode.Gateway ==> Answers(a.w.dhcpd, cfg)
  {
    ApplyLaw(w, env, cfg);
    var a := ApplyWith(w, env, cfg);
    if a.result.Ok? && a.result.value.mode == Mode.Gateway {
      ConfRoundTrip(cfg, a.result.value.iface, leasefile, pidfile);
      ServedRecords(a.w.dhcpd, env.render(cfg, a.result.value.iface), cfg);
    }
  }

  lemma ServedRecords(g: Dhcpd, body: string, cfg: Cfg)
    requires Serves(g, body) && Answer(cfg, HostRecords(body))
    ensures Answers(g, cfg)
  {}

  /** The one live dnsmasq has loaded exactly these options. */
  predicate Loaded(g: Dhcpd, options: seq<(string, string)>) {
    && Alive(g) && g.procs.Keys == {g.pidfile.value}
    && Options(g.procs[g.pidfile.value]) == options
  }

  /**
   * Its whole configuration: it listens on the chosen interface only, at the gateway address, leases the planned
   * pool with itself as router and name server, and answers the configured names.
   */
  lemma {:induction false} GatewayServesPlan(w: World, env: Env, cfg: Cfg, leasefile: string, pidfile: string)
    requires Tracked(w.dhcpd) && RendersConf(env, leasefile, pidfile) && Valid(cfg)
    requires '\n' !in leasefile && '\n' !in pidfile && forall n :: n in w.eths ==> '\n' !in n
    ensures var a := ApplyWith(w, env, cfg);
            a.result.Ok? && a.result.value.mode == Mode.Gateway ==>
              Loaded(a.w.dhcpd, ServerOptions(cfg, a.result.value.iface, leasefile, pidfile) + NameOptions(cfg))
  {
    ApplyLaw(w, env, cfg);
    var a := ApplyWith(w, env, cfg);
    if a.result.Ok? && a.result.value.mode == Mode.Gateway {
      ConfReadsBack(cfg, a.result.value.iface, leasefile, pidfile);
      LoadedOptions(a.w.dhcpd, env.render(cfg, a.result.value.iface),
                    ServerOptions(cfg, a.result.value.iface, leasefile, pidfile) + NameOptions(cfg));
    }
  }

  lemma LoadedOptions(g: Dhcpd, body: string, options: seq<(string, string)>)
    requires Serves(g, body) && Options(body) == options
    ensures Loaded(g, options)
  {}
}
