/** The main results about one apply, repeated applies, and teardown. */
module ApplyTheorems {
  import opened Basics
  import opened Config
  import opened Net
  import opened AutoPick
  import opened Apply
  import opened ApplyLaws
  import opened Dhcpd

  /** A probe was sent in this stretch of the journal. */
  predicate Probed(w: World, w': World) {
    exists i :: |w.log| <= i < |w'.log| && w'.log[i].Probe?
  }

  /**
   * One apply from any host state, any operation failing: the probe never competes with our own server, the
   * server starts only when earned, a failure at or after the probe leaves no server and an earlier one
   * leaves it untouched; a success is the pure decision on what was seen, and the host is in that mode with
   * every other Ethernet isolated if no flush, listing or link-down failed.
   */
  lemma ApplyLaw(w: World, env: Env, cfg: Cfg)
    requires Tracked(w.dhcpd)
    ensures var a := ApplyWith(w, env, cfg);
            && Grew(w, a.w) && a.w.eths == w.eths
            && Ordered(a.w.log, |w.log|)
            && (a.result.Err? ==> if Probed(w, a.w) then Dead(a.w.dhcpd) else a.w.dhcpd == w.dhcpd)
            && (a.result.Ok? ==>
                  var s := a.result.value;
                  && Valid(cfg) && s.iface in w.eths
                  && (IsAuto(cfg.iface) || cfg.iface.value == s.iface)
                  && Decided(w, a.w, cfg, s)
                  && ModeHolds(w, a.w, env, cfg, s)
                  && (s.mode == Mode.Gateway ==> AskedInVain(w, a.w, cfg.gateway.ip) || IsLocal(w, cfg.gateway.ip))
                  && s.iface in a.w.adminUp && (s.iface in a.w.dhclient <==> s.mode == Client)
                  && OnlyLinks(w, Chosen(w, env, cfg))
                  && (CleanSince(w, a.w) ==> Isolated(Chosen(w, env, cfg), a.w, s.iface)))
  {
    if Valid(cfg) {
      var p := Prepare(w, env, cfg);
      PrepareLaw(w, env, cfg);
      if p.result.Ok? {
        ResolveFrame(w, env, cfg.iface, true);
        SelectedLaw(w, Chosen(w, env, cfg), p.w, env, cfg, p.result.value);
        GatewayAsks(w, env, cfg);
      }
    }
  }

  /** A gateway selection pinged its address in vain, exactly if the prepared host did not have that itself. */
  lemma GatewayAsks(w: World, env: Env, cfg: Cfg)
    requires Tracked(w.dhcpd)
    ensures var a := ApplyWith(w, env, cfg);
            var ready := Prepare(w, env, cfg).w;
            && (a.result.Ok? && a.result.value.mode == Mode.Gateway ==>
                  (AskedInVain(w, a.w, cfg.gateway.ip) <==> !IsLocal(ready, cfg.gateway.ip)))
            && (Prepare(w, env, cfg).result.Ok? && IsLocal(ready, cfg.gateway.ip) ==> IsLocal(w, cfg.gateway.ip))
  {
    var p := Prepare(w, env, cfg);
    PrepareLaw(w, env, cfg);
    if Valid(cfg) && p.result.Ok? {
      SelectAsks(w, p.w, env, cfg, p.result.value);
    }
  }

  lemma SelectAsks(w: World, mid: World, env: Env, cfg: Cfg, iface: string)
    requires QuietSince(w, mid) && Dead(mid.dhcpd) && Valid(cfg)
    ensures var a := Select(mid, env, cfg, iface);
            a.result.Ok? && a.result.value.mode == Mode.Gateway ==>
              (AskedInVain(w, a.w, cfg.gateway.ip) <==> !IsLocal(mid, cfg.gateway.ip))
  {
    var a := Select(mid, env, cfg, iface);
    if env.probe(|mid.log|) == Some(false) {
      var w1 := ProbeDhcp(mid, env, iface);
      NoOfferAsks(w1, env, cfg, iface);
      NoOfferLaw(w1, env, cfg, iface);
      AskedLater(w, w1, a.w, cfg.gateway.ip);
    }
  }

  lemma AskedLater(w: World, mid: World, w': World, ip: Ip)
    requires Grew(w, mid) && Grew(mid, w') && forall i :: |w.log| <= i < |mid.log| ==> !mid.log[i].Ping?
    ensures AskedInVain(w, w', ip) <==> AskedInVain(mid, w', ip)
  {
    assert forall i :: |w.log| <= i < |mid.log| ==> w'.log[i] == mid.log[i];
  }

  /**
   * What a clean apply leaves on another Ethernet: nothing, unless its name hides addresses and its link was
   * still down when the interface had been chosen, and then all it had. Links are up by then that were up
   * before, and no others unless an automatic choice found no carrier.
   */
  lemma {:induction false} ApplyLeaves(w: World, env: Env, cfg: Cfg, n: string)
    requires Tracked(w.dhcpd) && n in w.eths
    ensures var a := ApplyWith(w, env, cfg);
            var up := Chosen(w, env, cfg).adminUp;
            && (a.result.Ok? && n != a.result.value.iface && CleanSince(w, a.w) ==>
                  n !in a.w.adminUp && Addrs(a.w, n) == (if HidesAddress(n) && n !in up then Addrs(w, n) else []))
            && w.adminUp <= up
            && (!IsAuto(cfg.iface) || Lit(w.eths, w.adminUp, env, |w.log| + 1) != {} ==> up == w.adminUp)
  {
    ApplyLaw(w, env, cfg);
    ResolveFrame(w, env, cfg.iface, true);
    if !IsAuto(cfg.iface) || Lit(w.eths, w.adminUp, env, |w.log| + 1) != {} { LitNeedsNoSearch(w, env, cfg); }
  }

  /**
   * If nothing failed to list, flush or stop, the dhclients that still run on other Ethernets are exactly
   * those on links that were down without a readable address when the interface had been chosen.
   */
  lemma ApplyQuiets(w: World, env: Env, cfg: Cfg, n: string)
    requires Tracked(w.dhcpd) && n in w.eths
    ensures var a := ApplyWith(w, env, cfg);
            a.result.Ok? && n != a.result.value.iface && StopsClean(w, a.w) ==>
              (n in a.w.dhclient <==>
                 n in w.dhclient && n !in Chosen(w, env, cfg).adminUp && Reported(w, n).None?)
  {
    var p := Prepare(w, env, cfg);
    if Valid(cfg) && p.result.Ok? {
      var iface := p.result.value;
      PrepareQuiets(w, env, cfg);
      SelectFrame(p.w, env, cfg, iface);
      if n != iface { QuietsAfter(w, Chosen(w, env, cfg), p.w, Select(p.w, env, cfg, iface).w, n, iface); }
      if Select(p.w, env, cfg, iface).result.Ok? { SelectNames(p.w, env, cfg, iface); }
      assert ApplyWith(w, env, cfg) == Select(p.w, env, cfg, iface);
    }
  }

  lemma PrepareQuiets(w: World, env: Env, cfg: Cfg)
    requires Tracked(w.dhcpd) && Prepare(w, env, cfg).result.Ok?
    ensures var p := Prepare(w, env, cfg);
            && OnlyLinks(w, Chosen(w, env, cfg)) && Grew(w, p.w) && Dead(p.w.dhcpd)
            && (StopsClean(w, p.w) ==> AllQuieted(Chosen(w, env, cfg), p.w, p.result.value))
  {
    PrepareLaw(w, env, cfg);
    ResolveFrame(w, env, cfg.iface, true);
  }

  lemma SelectNames(w: World, env: Env, cfg: Cfg, iface: string)
    requires Dead(w.dhcpd) && cfg.gateway.subnet.prefix == REQUIRED_PREFIX && Select(w, env, cfg, iface).result.Ok?
    ensures Select(w, env, cfg, iface).result.value.iface == iface
  {
    SelectLaw(w, env, cfg, iface);
  }

  lemma SelectFrame(w: World, env: Env, cfg: Cfg, iface: string)
    requires Dead(w.dhcpd) && cfg.gateway.subnet.prefix == REQUIRED_PREFIX
    ensures Grew(w, Select(w, env, cfg, iface).w) && OnlyIface(w, Select(w, env, cfg, iface).w, iface)
  {
    SelectLaw(w, env, cfg, iface);
  }

  lemma QuietsAfter(w: World, r: World, mid: World, w': World, n: string, iface: string)
    requires OnlyLinks(w, r) && n in w.eths && n != iface
    requires Grew(w, mid) && Grew(mid, w') && OnlyIface(mid, w', iface)
    requires StopsClean(w, mid) ==> AllQuieted(r, mid, iface)
    ensures StopsClean(w, w') ==>
              (n in w'.dhclient <==> n in w.dhclient && n !in r.adminUp && Reported(w, n).None?)
  {
    if StopsClean(w, w') { StopsCleanParts(w, mid, w'); }
  }

  lemma LitNeedsNoSearch(w: World, env: Env, cfg: Cfg)
    requires !IsAuto(cfg.iface) || Lit(w.eths, w.adminUp, env, |w.log| + 1) != {}
    ensures Chosen(w, env, cfg).adminUp == w.adminUp
  {
    if IsAuto(cfg.iface) {
      var w1 := Note(w, env, ListEth(Cmd(w, env) == Worked));
      var n :| n in Lit(w.eths, w.adminUp, env, |w.log| + 1);
      assert n in w.eths && Carrier(w1, env, n);
    }
  }

  lemma {:induction false} SelectedLaw(w: World, r: World, mid: World, env: Env, cfg: Cfg, iface: string)
    requires QuietSince(w, mid) && NoFlushSince(w, mid, iface) && mid.route == w.route && mid.eths == w.eths == r.eths
    requires Dead(mid.dhcpd) && Addrs(mid, iface) == Addrs(w, iface)
    requires iface in mid.adminUp && iface !in mid.dhclient && (CleanSince(w, mid) ==> Isolated(r, mid, iface))
    requires cfg.gateway.subnet.prefix == REQUIRED_PREFIX
    ensures var a := Select(mid, env, cfg, iface);
            && Grew(w, a.w) && a.w.eths == w.eths
            && Ordered(a.w.log, |w.log|)
            && Probed(w, a.w)
            && (a.result.Err? ==> Dead(a.w.dhcpd))
            && (a.result.Ok? ==>
                  var s := a.result.value;
                  && s.iface == iface
                  && Decided(w, a.w, cfg, s)
                  && ModeHolds(w, a.w, env, cfg, s)
                  && iface in a.w.adminUp && (iface in a.w.dhclient <==> s.mode == Client)
                  && (CleanSince(w, a.w) ==> Isolated(r, a.w, iface)))
  {
    var a := Select(mid, env, cfg, iface);
    SelectLaw(mid, env, cfg, iface);
    SelectProbes(mid, env, cfg, iface);
    QuietPrefix(w, mid, a.w);
    if a.result.Ok? { ModeHoldsEarlier(w, mid, a.w, env, cfg, a.result.value); }
    if CleanSince(w, a.w) { CleanEarlier(w, mid, a.w); }
  }

  lemma {:induction false} SelectProbes(w: World, env: Env, cfg: Cfg, iface: string)
    requires Dead(w.dhcpd) && cfg.gateway.subnet.prefix == REQUIRED_PREFIX
    ensures var a := Select(w, env, cfg, iface);
            |a.w.log| > |w.log| && a.w.log[|w.log|] == Probe(iface, false, env.probe(|w.log|))
  {
    var w1 := ProbeDhcp(w, env, iface);
    assert w1.log[|w.log|] == Probe(iface, false, env.probe(|w.log|));
    if env.probe(|w.log|).Some? { ProbedGrows(w1, env, cfg, iface); }
  }

  lemma ProbedGrows(w1: World, env: Env, cfg: Cfg, iface: string)
    requires Dead(w1.dhcpd) && cfg.gateway.subnet.prefix == REQUIRED_PREFIX
    ensures w1.log <= ApplyClient(w1, env, iface).w.log && w1.log <= SelectNoOffer(w1, env, cfg, iface).w.log
  {
    ClientLaw(w1, env, iface);
    NoOfferLaw(w1, env, cfg, iface);
  }

  /**
   * A static selection reports the static address; that is the address the interface reports too exactly
   * when the interface came without any IPv4, or already reported the static one, and its name hides nothing.
   */
  lemma {:induction false} StaticCidrIsLive(w: World, env: Env, cfg: Cfg)
    requires Tracked(w.dhcpd) && Valid(cfg)
    ensures var a := ApplyWith(w, env, cfg);
            a.result.Ok? && a.result.value.mode == Static ==>
              var s := a.result.value;
              var before := Reported(w, s.iface);
              (s.cidr == Reported(a.w, s.iface) <==>
                 !HidesAddress(s.iface) && (before.None? || before == Some(StaticCidr(cfg))))
  {
    ApplyLaw(w, env, cfg);
    var a := ApplyWith(w, env, cfg);
    if a.result.Ok? && a.result.value.mode == Static {
      StaticReported(w, a.w, cfg, a.result.value.iface);
    }
  }

  /** The address read after the temporary one was added, or not. */
  lemma StaticReported(w: World, w': World, cfg: Cfg, iface: string)
    requires cfg.gateway.subnet.prefix == REQUIRED_PREFIX
    requires Addrs(w', iface) == Addrs(w, iface) + TempCidr(w, cfg, iface)
    ensures var before := Reported(w, iface);
            Reported(w', iface) == Some(StaticCidr(cfg)) <==>
              !HidesAddress(iface) && (before.None? || before == Some(StaticCidr(cfg)))
  {
    if !HidesAddress(iface) && Reported(w, iface).None? {
      assert Addrs(w', iface) == [StaticCidr(cfg)];
    } else {
      assert Addrs(w, iface) + [] == Addrs(w, iface);
    }
  }

  // ----- Gateway mode is a fixed point -----

  /** The interface reports the gateway's own address. */
  predicate Settled(w: World, iface: string, cfg: Cfg) {
    Reported(w, iface) == Some(GatewayCidr(cfg))
  }

  /** This apply gets as far as the probe on `iface`, and the probe brings no offer (it may still fail). */
  predicate NoOfferOn(w: World, env: Env, cfg: Cfg, iface: string) {
    var p := Prepare(w, env, cfg);
    p.result == Ok(iface) && env.probe(|p.w.log|) != Some(true)
  }

  /** No flush and no new address on `iface`, and nobody is pinged. */
  predicate Untouched(w: World, w': World, iface: string) {
    && Grew(w, w')
    && forall i :: |w.log| <= i < |w'.log| ==>
         && !w'.log[i].AddAddr? && !w'.log[i].Ping?
         && (w'.log[i].Flush? ==> w'.log[i].name != iface)
  }

  lemma SettledIsLocal(w: World, iface: string, cfg: Cfg)
    requires Settled(w, iface, cfg)
    ensures HasIpv4(w, iface) && IsLocal(w, cfg.gateway.ip)
  {}

  lemma SelectSettled(w: World, env: Env, cfg: Cfg, iface: string)
    requires Dead(w.dhcpd) && cfg.gateway.subnet.prefix == REQUIRED_PREFIX
    requires Settled(w, iface, cfg) && env.probe(|w.log|) != Some(true)
    ensures var a := Select(w, env, cfg, iface);
            && Untouched(w, a.w, iface) && a.w.addrs == w.addrs && Tracked(a.w.dhcpd)
            && (a.result.Ok? ==> a.result.value == DecideStatus(iface, false, false, cfg))
  {
    var w1 := ProbeDhcp(w, env, iface);
    SettledIsLocal(w1, iface, cfg);
    if env.probe(|w.log|) == Some(false) {
      var a := Select(w, env, cfg, iface);
      assert a == ApplyGateway(w1, env, cfg, iface);
      GatewaySettled(w1, env, cfg, iface);
      GatewayLaw(w1, env, cfg, iface);
    }
  }

  lemma GatewaySettled(w: World, env: Env, cfg: Cfg, iface: string)
    requires Settled(w, iface, cfg)
    ensures var a := ApplyGateway(w, env, cfg, iface);
            Untouched(w, a.w, iface) && a.w.addrs == w.addrs
  {}

  lemma GatewayStays(w: World, env: Env, cfg: Cfg, iface: string)
    requires Tracked(w.dhcpd) && Valid(cfg)
    requires Settled(w, iface, cfg) && NoOfferOn(w, env, cfg, iface)
    ensures var a := ApplyWith(w, env, cfg);
            && Tracked(a.w.dhcpd) && Settled(a.w, iface, cfg)
            && Addrs(a.w, iface) == Addrs(w, iface) && Untouched(w, a.w, iface)
            && (a.result.Ok? ==> a.result.value.mode == Mode.Gateway && a.result.value.iface == iface)
  {
    var p := Prepare(w, env, cfg);
    PrepareLaw(w, env, cfg);
    SelectSettled(p.w, env, cfg, iface);
    UntouchedFrom(w, p.w, ApplyWith(w, env, cfg).w, iface);
  }

  lemma UntouchedFrom(w: World, mid: World, w': World, iface: string)
    requires TameSince(w, mid, iface) && Untouched(mid, w', iface)
    ensures Untouched(w, w', iface)
  {}

  /** `w'` is the host after one more apply without an offer on `iface`. */
  predicate NextApply(w: World, w': World, env: Env, cfg: Cfg, iface: string) {
    NoOfferOn(w, env, cfg, iface) && w' == ApplyWith(w, env, cfg).w
  }

  /** An apply on `w` that succeeds selects gateway mode on `iface`. */
  predicate GatewayAgain(w: World, env: Env, cfg: Cfg, iface: string) {
    var a := ApplyWith(w, env, cfg);
    a.result.Ok? ==> a.result.value.mode == Mode.Gateway && a.result.value.iface == iface
  }

  /** Settled since `w`: same addresses, and nothing done to them. */
  predicate StillSettled(w: World, w': World, cfg: Cfg, iface: string) {
    && Tracked(w'.dhcpd) && Settled(w', iface, cfg)
    && Addrs(w', iface) == Addrs(w, iface) && Untouched(w, w', iface)
  }

  lemma SettledStep(w0: World, w: World, w': World, env: Env, cfg: Cfg, iface: string)
    requires Valid(cfg) && StillSettled(w0, w, cfg, iface) && NextApply(w, w', env, cfg, iface)
    ensures StillSettled(w0, w', cfg, iface) && GatewayAgain(w, env, cfg, iface)
  {
    GatewayStays(w, env, cfg, iface);
    forall i | |w0.log| <= i < |w.log| ensures w'.log[i] == w.log[i] {}
  }

  /**
   * Once an apply has settled in gateway mode, any number of further applies on that interface without an
   * offer leave its address alone and ping nobody.
   */
  lemma {:induction false} GatewayForever(ws: seq<World>, env: Env, cfg: Cfg, iface: string)
    requires |ws| > 0 && Tracked(ws[0].dhcpd) && Valid(cfg) && Settled(ws[0], iface, cfg)
    requires forall k :: 0 <= k < |ws| - 1 ==> NextApply(ws[k], ws[k + 1], env, cfg, iface)
    ensures forall k :: 0 <= k < |ws| ==> StillSettled(ws[0], ws[k], cfg, iface)
  {
    var n := |ws| - 1;
    if n > 0 {
      var most := ws[..n];
      forall k | 0 <= k < n - 1 ensures NextApply(most[k], most[k + 1], env, cfg, iface) {
        assert most[k] == ws[k] && most[k + 1] == ws[k + 1];
      }
      GatewayForever(most, env, cfg, iface);
      assert StillSettled(ws[0], most[n - 1], cfg, iface);
      assert NextApply(ws[n - 1], ws[n - 1 + 1], env, cfg, iface);
      SettledStep(ws[0], ws[n - 1], ws[n], env, cfg, iface);
      forall k | 0 <= k < n ensures StillSettled(ws[0], ws[k], cfg, iface) { assert most[k] == ws[k]; }
    }
  }

  /** And each of these applies that succeeds selects gateway mode on that interface again. */
  lemma {:induction false} GatewayEveryTime(ws: seq<World>, env: Env, cfg: Cfg, iface: string, k: nat)
    requires k + 1 < |ws| && Tracked(ws[0].dhcpd) && Valid(cfg) && Settled(ws[0], iface, cfg)
    requires forall k :: 0 <= k < |ws| - 1 ==> NextApply(ws[k], ws[k + 1], env, cfg, iface)
    ensures GatewayAgain(ws[k], env, cfg, iface)
  {
    GatewayForever(ws, env, cfg, iface);
    assert StillSettled(ws[0], ws[k], cfg, iface) && NextApply(ws[k], ws[k + 1], env, cfg, iface);
    SettledStep(ws[0], ws[k], ws[k + 1], env, cfg, iface);
  }

  /** Before the apply the interface had only link-local addresses, and the gateway's is none. */
  predicate OnlyLinkLocal(w: World, iface: string, cfg: Cfg) {
    Reported(w, iface).Some? && LinkLocal(Reported(w, iface).value) && !LinkLocal(GatewayCidr(cfg))
  }

  /**
   * Where that starts: a successful gateway apply leaves the gateway address as the reported one exactly if
   * the interface's name does not hide it and its own flush worked, or left only link-local addresses. No
   * other failure matters.
   */
  lemma {:induction false} GatewaySettles(w: World, env: Env, cfg: Cfg)
    requires Tracked(w.dhcpd)
    ensures var a := ApplyWith(w, env, cfg);
            a.result.Ok? && a.result.value.mode == Mode.Gateway ==>
              var iface := a.result.value.iface;
              && Tracked(a.w.dhcpd) && Valid(cfg)
              && (Settled(a.w, iface, cfg) <==>
                    !HidesAddress(iface) && (FlushesWork(w, a.w, iface) || OnlyLinkLocal(w, iface, cfg)))
  {
    ApplyLaw(w, env, cfg);
    var a := ApplyWith(w, env, cfg);
    if a.result.Ok? && a.result.value.mode == Mode.Gateway {
      SettledIfFirst(w, a.w, a.result.value.iface, cfg);
    }
  }

  lemma SettledIfFirst(w: World, w': World, iface: string, cfg: Cfg)
    requires Valid(cfg)
    requires FirstUnlessKept(w, w', iface, Addrs(w, iface) + TempCidr(w, cfg, iface), GatewayCidr(cfg))
    ensures Settled(w', iface, cfg) <==>
              !HidesAddress(iface) && (FlushesWork(w, w', iface) || OnlyLinkLocal(w, iface, cfg))
  {
    if !HidesAddress(iface) { YieldsIsLinkLocal(w, iface, cfg); }
  }

  lemma YieldsIsLinkLocal(w: World, iface: string, cfg: Cfg)
    requires Valid(cfg) && !HidesAddress(iface)
    ensures Yields(Addrs(w, iface) + TempCidr(w, cfg, iface), GatewayCidr(cfg)) <==> OnlyLinkLocal(w, iface, cfg)
  {
    if Reported(w, iface).None? {
      assert Addrs(w, iface) + TempCidr(w, cfg, iface) == [StaticCidr(cfg)];
    } else {
      assert Addrs(w, iface) + TempCidr(w, cfg, iface) == Addrs(w, iface);
    }
  }

  // ----- Gateway mode wins again, whatever fails unnoticed -----

  /** Gateway mode's address is held where it can be read, whether or not it is the reported one. */
  predicate HoldsGateway(w: World, iface: string, cfg: Cfg) {
    Tracked(w.dhcpd) && Valid(cfg) && !HidesAddress(iface) && Holds(w, iface, cfg.gateway.ip)
  }

  lemma SelectHolding(w: World, env: Env, cfg: Cfg, iface: string)
    requires HoldsGateway(w, iface, cfg) && Dead(w.dhcpd) && env.probe(|w.log|) != Some(true)
    ensures var a := Select(w, env, cfg, iface);
            a.result.Ok? ==> a.result.value == DecideStatus(iface, false, false, cfg)
  {
    var w1 := ProbeDhcp(w, env, iface);
    assert Addrs(w1, iface) == Addrs(w, iface) != [];
    assert IsLocal(w1, cfg.gateway.ip);
    if env.probe(|w.log|) == Some(false) {
      assert Select(w, env, cfg, iface) == ApplyGateway(w1, env, cfg, iface);
      GatewayLaw(w1, env, cfg, iface);
    }
  }

  lemma GatewayWins(w: World, env: Env, cfg: Cfg, iface: string)
    requires HoldsGateway(w, iface, cfg) && NoOfferOn(w, env, cfg, iface)
    ensures GatewayAgain(w, env, cfg, iface)
  {
    PrepareLaw(w, env, cfg);
    SelectHolding(Prepare(w, env, cfg).w, env, cfg, iface);
  }

  /** `w'` follows on `w` by an apply without an offer that succeeds, or at least leaves the address. */
  predicate NextHeld(w: World, w': World, env: Env, cfg: Cfg, iface: string) {
    NextApply(w, w', env, cfg, iface) && (ApplyWith(w, env, cfg).result.Ok? || Holds(w', iface, cfg.gateway.ip))
  }

  lemma HeldStep(w: World, w': World, env: Env, cfg: Cfg, iface: string)
    requires HoldsGateway(w, iface, cfg) && NextHeld(w, w', env, cfg, iface)
    ensures HoldsGateway(w', iface, cfg) && GatewayAgain(w, env, cfg, iface)
  {
    GatewayWins(w, env, cfg, iface);
    ApplyLaw(w, env, cfg);
  }

  /**
   * From a host that holds the gateway address, any number of successful applies on that interface without an
   * offer all select gateway mode there again, whatever flush, listing or route removal fails unnoticed.
   */
  lemma {:induction false} GatewayWinsForever(ws: seq<World>, env: Env, cfg: Cfg, iface: string)
    requires |ws| > 0 && HoldsGateway(ws[0], iface, cfg)
    requires forall k :: 0 <= k < |ws| - 1 ==> NextHeld(ws[k], ws[k + 1], env, cfg, iface)
    ensures forall k :: 0 <= k < |ws| ==> HoldsGateway(ws[k], iface, cfg)
    ensures forall k :: 0 <= k < |ws| - 1 ==> GatewayAgain(ws[k], env, cfg, iface)
  {
    if |ws| > 1 {
      assert NextHeld(ws[0], ws[0 + 1], env, cfg, iface);
      HeldStep(ws[0], ws[1], env, cfg, iface);
      var rest := ws[1..];
      forall k | 0 <= k < |rest| - 1 ensures NextHeld(rest[k], rest[k + 1], env, cfg, iface) {
        assert NextHeld(ws[k + 1], ws[k + 1 + 1], env, cfg, iface);
      }
      GatewayWinsForever(rest, env, cfg, iface);
      forall k | 0 < k < |ws| ensures HoldsGateway(ws[k], iface, cfg) { assert ws[k] == rest[k - 1]; }
      forall k | 0 < k < |ws| - 1 ensures GatewayAgain(ws[k], env, cfg, iface) { assert ws[k] == rest[k - 1]; }
    }
  }

  /** Every successful gateway apply is such a host, unless the name hides the address. */
  lemma {:induction false} GatewayHolds(w: World, env: Env, cfg: Cfg)
    requires Tracked(w.dhcpd)
    ensures var a := ApplyWith(w, env, cfg);
            a.result.Ok? && a.result.value.mode == Mode.Gateway ==>
              (HoldsGateway(a.w, a.result.value.iface, cfg) <==> !HidesAddress(a.result.value.iface))
  {
    ApplyLaw(w, env, cfg);
  }

  // ----- Teardown -----

  /** No dhclient stop failed either. */
  predicate StopsWork(w: World, w': World) {
    forall i :: |w.log| <= i < |w'.log| && w'.log[i].StopDhclient? ==> w'.log[i].ok
  }

  lemma FlushOneLaw(w: World, env: Env, n: string)
    ensures var w' := FlushAddr(DhclientStop(w, env, n).w, env, n).w;
            && w' == w.(addrs := w'.addrs, dhclient := w'.dhclient, log := w'.log, now := w'.now)
            && Grew(w, w')
            && w'.addrs.Keys <= w.addrs.Keys && w'.dhclient <= w.dhclient
            && (CleanSince(w, w') && StopsWork(w, w') ==> n !in w'.addrs && n !in w'.dhclient)
            && (n !in w.addrs ==> w'.addrs == w.addrs) && (n !in w.dhclient ==> w'.dhclient == w.dhclient)
  {
    var w1 := DhclientStop(w, env, n).w;
    var w' := FlushAddr(w1, env, n).w;
    assert w'.log[|w.log|] == StopDhclient(n, Cmd(w, env) == Worked);
    assert w'.log[|w1.log|] == Flush(n, Cmd(w1, env));
    assert n !in w.addrs ==> w.addrs - {n} == w.addrs;
  }

  lemma {:induction false} FlushAllLaw(w: World, env: Env, names: seq<string>)
    ensures var w' := FlushAll(w, env, names);
            && w' == w.(addrs := w'.addrs, dhclient := w'.dhclient, log := w'.log, now := w'.now)
            && Grew(w, w')
            && w'.addrs.Keys <= w.addrs.Keys && w'.dhclient <= w.dhclient
            && (CleanSince(w, w') && StopsWork(w, w') ==>
                  forall n :: n in names ==> n !in w'.addrs && n !in w'.dhclient)
            && ((forall n :: n in names ==> n !in w.addrs && n !in w.dhclient) ==>
                  w'.addrs == w.addrs && w'.dhclient == w.dhclient)
    decreases |names|
  {
    if names != [] {
      var w1 := FlushAddr(DhclientStop(w, env, names[0]).w, env, names[0]).w;
      var w' := FlushAll(w1, env, names[1..]);
      FlushOneLaw(w, env, names[0]);
      FlushAllLaw(w1, env, names[1..]);
      assert names == [names[0]] + names[1..];
      if CleanSince(w, w') && StopsWork(w, w') {
        forall i | |w.log| <= i < |w1.log| ensures Clean(w1.log[i]) && (w1.log[i].StopDhclient? ==> w1.log[i].ok) {
          assert w1.log[i] == w'.log[i];
        }
      }
    }
  }

  /** Nothing of ours is left: no address and no dhclient on any physical Ethernet, no server. */
  predicate TornDown(w: World) {
    Dead(w.dhcpd) && forall n :: n in w.eths ==> n !in w.addrs && n !in w.dhclient
  }

  lemma FlushAllEthernetLaw(w: World, env: Env)
    ensures var w' := FlushAllEthernet(w, env);
            && w' == w.(addrs := w'.addrs, dhclient := w'.dhclient, log := w'.log, now := w'.now)
            && Grew(w, w')
            && (CleanSince(w, w') && StopsWork(w, w') && Dead(w.dhcpd) ==> TornDown(w'))
            && (TornDown(w) ==> w'.addrs == w.addrs && w'.dhclient == w.dhclient)
  {
    var ok := Cmd(w, env) == Worked;
    var w1 := Note(w, env, ListEth(ok));
    if ok {
      FlushAllLaw(w1, env, w.eths);
    } else {
      assert !Clean(w1.log[|w.log|]);
    }
  }

  /**
   * Teardown from any state: it brings no link up or down; when it succeeds no server is left, nor a default
   * route unless its removal failed unnoticed, and with working flushes and stops nothing of ours remains;
   * on a host already torn down it changes nothing.
   */
  lemma TeardownLaw(w: World, env: Env, cfg: Cfg)
    requires Tracked(w.dhcpd)
    ensures var a := TeardownWith(w, env, cfg);
            && a.w.adminUp == w.adminUp && a.w.eths == w.eths && Grew(w, a.w)
            && (a.result.Ok? ==>
                  && Dead(a.w.dhcpd) && !a.result.value.dnsmasqRunning && a.result.value.cidr.None?
                  && (a.w.route.None? || (a.w.route == w.route && DelFailedSilently(w, a.w)))
                  && (CleanSince(w, a.w) && StopsWork(w, a.w) ==> TornDown(a.w)))
            && (TornDown(w) && w.route.None? ==>
                  a.w.addrs == w.addrs && a.w.dhclient == w.dhclient && a.w.route.None? && TornDown(a.w))
  {
    var r := ResolveIface(w, env, cfg.iface, false);
    ResolveFrame(w, env, cfg.iface, false);
    if Valid(cfg) && r.result.Ok? {
      var d := DnsmasqStop(r.w, env);
      StopEmpties(r.w.dhcpd, env.dhcpd(|r.w.log|));
      if d.ok {
        TeardownTail(d.w, env);
        var w2 := FlushAllEthernet(d.w, env);
        var a := TeardownWith(w, env, cfg);
        assert a.w == RemoveDefault(w2, env).w;
        assert d.w.log == r.w.log + [StopDnsmasq(true)];
      }
    }
  }

  lemma TeardownTail(w: World, env: Env)
    requires Dead(w.dhcpd)
    ensures var w' := RemoveDefault(FlushAllEthernet(w, env), env).w;
            && w' == w.(addrs := w'.addrs, dhclient := w'.dhclient, route := w'.route, log := w'.log, now := w'.now)
            && Grew(w, w')
            && (RemoveDefault(FlushAllEthernet(w, env), env).ok ==>
                  w'.route.None? || (w'.route == w.route && DelFailedSilently(w, w')))
            && (w.route.None? ==> w'.route.None?)
            && (CleanSince(w, w') && StopsWork(w, w') ==> TornDown(w'))
            && (TornDown(w) ==> w'.addrs == w.addrs && w'.dhclient == w.dhclient)
  {
    var w1 := FlushAllEthernet(w, env);
    FlushAllEthernetLaw(w, env);
    var w' := RemoveDefault(w1, env).w;
    assert w'.log[|w1.log|] == DelDefault(Cmd(w1, env));
    forall i | |w.log| <= i < |w1.log| ensures w'.log[i] == w1.log[i] {}
  }

  predicate OthersDown(w: World, iface: string) {
    forall n :: n in w.eths && n != iface ==> n !in w.adminUp
  }

  /**
   * With every other Ethernet down, as a clean apply leaves them, the passive choice of teardown meets
   * the same interface; when the choice is automatic, exactly if it shows carrier or is the first of the list.
   */
  lemma PassiveFindsIt(w: World, env: Env, configured: Option<string>, iface: string)
    requires OthersDown(w, iface) && iface in w.eths
    requires IsAuto(configured) || configured.value == iface
    ensures var r := ResolveIface(w, env, configured, false);
            && (!IsAuto(configured) ==> r.result == Ok(iface))
            && (IsAuto(configured) && Cmd(w, env) == Worked ==>
                  (r.result == Ok(iface) <==>
                     (iface in w.adminUp && env.plugged(|w.log| + 1, iface)) || w.eths[0] == iface))
  {
    if IsAuto(configured) {
      OnlyOneLit(Note(w, env, ListEth(true)), env, w.eths, iface);
    }
  }

  /** A clean apply selected `iface` on this configuration. */
  predicate CleanSelection(w: World, env: Env, cfg: Cfg, iface: string) {
    var a := ApplyWith(w, env, cfg);
    a.result.Ok? && a.result.value.iface == iface && CleanSince(w, a.w)
  }

  /** A teardown that succeeds names exactly this interface if `found` holds, and another one otherwise. */
  predicate TeardownNames(w: World, env: Env, cfg: Cfg, iface: string, found: bool) {
    var d := TeardownWith(w, env, cfg);
    d.result.Ok? ==> (d.result.value.iface == iface <==> found)
  }

  /** What such an apply leaves to the teardown. */
  predicate LeftBy(w: World, cfg: Cfg, iface: string) {
    && iface in w.eths && iface in w.adminUp && OthersDown(w, iface)
    && (IsAuto(cfg.iface) || cfg.iface.value == iface)
  }

  lemma CleanSelectionLeaves(w: World, env: Env, cfg: Cfg, iface: string)
    requires Tracked(w.dhcpd) && CleanSelection(w, env, cfg, iface)
    ensures LeftBy(ApplyWith(w, env, cfg).w, cfg, iface)
  {
    ApplyLaw(w, env, cfg);
  }

  lemma TeardownOfLeft(w: World, env: Env, cfg: Cfg, iface: string)
    requires LeftBy(w, cfg, iface)
    ensures TeardownNames(w, env, cfg, iface,
                          !IsAuto(cfg.iface) || env.plugged(|w.log| + 1, iface) || w.eths[0] == iface)
  {
    PassiveFindsIt(w, env, cfg.iface, iface);
    TeardownReports(w, env, cfg);
  }

  /**
   * Apply, then teardown, whatever the outside does from then on: the teardown that succeeds resolves the
   * interface apply chose, exactly if that is pinned, or plugged at the read, or the first of the list.
   */
  lemma {:induction false} TeardownFindsIt(w: World, env: Env, cfg: Cfg, iface: string, w': World, env': Env)
    requires Tracked(w.dhcpd) && CleanSelection(w, env, cfg, iface) && w' == ApplyWith(w, env, cfg).w
    ensures w'.eths != []
    ensures TeardownNames(w', env', cfg, iface,
                          !IsAuto(cfg.iface) || env'.plugged(|w'.log| + 1, iface) || w'.eths[0] == iface)
  {
    CleanSelectionLeaves(w, env, cfg, iface);
    TeardownOfLeft(w', env', cfg, iface);
  }

  /** A successful teardown reports the passively resolved interface. */
  lemma TeardownReports(w: World, env: Env, cfg: Cfg)
    ensures var d := TeardownWith(w, env, cfg);
            d.result.Ok? ==>
              && ResolveIface(w, env, cfg.iface, false).result == Ok(d.result.value.iface)
              && (IsAuto(cfg.iface) ==> Cmd(w, env) == Worked)
  {}

  lemma {:induction false} OnlyOneLit(w: World, env: Env, names: seq<string>, iface: string)
    requires forall n :: n in names && n != iface ==> n !in w.adminUp
    ensures FirstCarrier(w, env, names) == if iface in names && Carrier(w, env, iface) then Some(iface) else None
  {
    if names != [] {
      OnlyOneLit(w, env, names[1..], iface);
      assert names == [names[0]] + names[1..];
    }
  }
}
