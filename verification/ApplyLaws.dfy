/** What every apply and teardown guarantees, whatever fails along the way. */
module ApplyLaws {
  import opened Basics
  import opened Config
  import opened Net
  import opened AutoPick
  import opened Apply
  import opened Dhcpd

  // ----- Isolation -----

  /** Addresses only disappear. */
  predicate FewerAddrs(w: World, w': World) {
    forall n :: n in w'.addrs ==> n in w.addrs && w'.addrs[n] == w.addrs[n]
  }

  /** A link that is already down is passed over when no address is read from it, so a hidden one keeps its own. */
  function LeftOn(w: World, name: string): seq<Cidr> {
    if HidesAddress(name) && name !in w.adminUp then Addrs(w, name) else []
  }

  predicate Off(w: World, w': World, name: string) {
    name !in w'.adminUp && Addrs(w', name) == LeftOn(w, name)
  }

  /** Since `w`, every physical Ethernet but `keep` is off. */
  predicate Isolated(w: World, w': World, keep: string) {
    forall n :: n in w.eths && n != keep ==> Off(w, w', n)
  }

  predicate SameOn(w: World, w': World, name: string) {
    && (name in w'.adminUp <==> name in w.adminUp) && Addrs(w', name) == Addrs(w, name)
    && (name in w'.dhclient <==> name in w.dhclient)
  }

  /** Isolation passes over a link that is down and shows no address; it stops the dhclients of all others. */
  predicate Quieted(w: World, w': World, name: string) {
    name in w'.dhclient <==> name in w.dhclient && name !in w.adminUp && Reported(w, name).None?
  }

  predicate AllQuieted(w: World, w': World, keep: string) {
    forall n :: n in w.eths && n != keep ==> Quieted(w, w', n)
  }

  /** No listing, flush or dhclient stop failed in this stretch of the journal. */
  predicate StopsClean(w: World, w': World) {
    forall i :: |w.log| <= i < |w'.log| ==>
      && (w'.log[i].ListEth? ==> w'.log[i].ok) && (w'.log[i].StopDhclient? ==> w'.log[i].ok)
      && (w'.log[i].Flush? ==> w'.log[i].outcome == Worked)
  }

  /** No listing, flush or link-down failed in this stretch of the journal. */
  predicate Clean(op: Op) {
    && (op.ListEth? ==> op.ok)
    && (op.Flush? ==> op.outcome == Worked)
    && (op.LinkDown? ==> op.ok)
  }

  predicate CleanSince(w: World, w': World) {
    forall i :: |w.log| <= i < |w'.log| ==> Clean(w'.log[i])
  }

  /** No flush of this interface failed in this stretch of the journal. */
  predicate FlushesWork(w: World, w': World, name: string) {
    forall i :: |w.log| <= i < |w'.log| && w'.log[i].Flush? && w'.log[i].name == name ==> w'.log[i].outcome == Worked
  }

  /** Quiet, and neither flushing nor adding an address on `keep`. */
  predicate Tame(op: Op, keep: string) {
    Quiet(op) && !op.AddAddr? && (op.Flush? ==> op.name != keep)
  }

  predicate TameSince(w: World, w': World, keep: string) {
    Grew(w, w') && forall i :: |w.log| <= i < |w'.log| ==> Tame(w'.log[i], keep)
  }

  lemma TameTrans(a: World, b: World, c: World, keep: string)
    requires TameSince(a, b, keep) && TameSince(b, c, keep)
    ensures TameSince(a, c, keep)
  {}

  /** What isolating may do: links go down, addresses and dhclients of other interfaces go away. */
  predicate Isolating(w: World, w': World, keep: string) {
    && w'.eths == w.eths && w'.route == w.route && w'.dhcpd == w.dhcpd
    && w'.adminUp <= w.adminUp && (keep in w.adminUp ==> keep in w'.adminUp)
    && FewerAddrs(w, w') && Addrs(w', keep) == Addrs(w, keep)
    && w'.dhclient <= w.dhclient && (keep in w.dhclient ==> keep in w'.dhclient)
    && TameSince(w, w', keep)
  }

  lemma TakeDownFrame(w: World, env: Env, name: string, keep: string)
    requires name != keep
    ensures Isolating(w, SetDown(FlushAddr(DhclientStop(w, env, name).w, env, name).w, env, name).w, keep)
  {}

  lemma TakeDownWorks(w: World, env: Env, name: string)
    ensures var w' := SetDown(FlushAddr(DhclientStop(w, env, name).w, env, name).w, env, name).w;
            && (CleanSince(w, w') ==> name !in w'.adminUp && Addrs(w', name) == [])
            && (StopsClean(w, w') ==> name !in w'.dhclient && Addrs(w', name) == [])
            && (forall n :: n != name ==> SameOn(w, w', n))
  {
    var w1 := DhclientStop(w, env, name).w;
    var w2 := FlushAddr(w1, env, name).w;
    var w3 := SetDown(w2, env, name).w;
    assert w3.log[|w.log|] == StopDhclient(name, Cmd(w, env) == Worked);
    assert w3.log[|w1.log|] == Flush(name, Cmd(w1, env));
    assert w3.log[|w2.log|] == LinkDown(name, Cmd(w2, env) == Worked);
    assert CleanSince(w, w3) ==> Clean(w3.log[|w1.log|]) && Clean(w3.log[|w2.log|]);
  }

  /** Quiet, and so it stays when met again: afterwards the link has no dhclient or still shows no address. */
  predicate SilencedOn(w: World, w': World, name: string) {
    && Quieted(w, w', name)
    && (name in w'.dhclient ==> SameOn(w, w', name))
  }

  lemma IsolateOneLaw(w: World, env: Env, name: string, keep: string)
    ensures var w' := IsolateOne(w, env, name, keep);
            && Isolating(w, w', keep)
            && (name != keep && CleanSince(w, w') ==> Off(w, w', name))
            && (name != keep && StopsClean(w, w') ==> SilencedOn(w, w', name))
            && (forall n :: n != name ==> SameOn(w, w', n))
  {
    if !(name == keep || (name !in w.adminUp && Reported(w, name).None?)) {
      TakeDownFrame(w, env, name, keep);
      TakeDownWorks(w, env, name);
    }
  }

  /** An interface off after one step of the loop is off at its end, whether or not it is met again. */
  lemma StaysOff(w: World, w1: World, w': World, name: string)
    requires Off(w, w1, name) && (SameOn(w1, w', name) || Off(w1, w', name))
    ensures Off(w, w', name)
  {}

  lemma {:induction false} IsolateAllLaw(w: World, env: Env, names: seq<string>, keep: string)
    ensures var w' := IsolateAll(w, env, names, keep);
            && Isolating(w, w', keep)
            && (CleanSince(w, w') ==> forall n :: n in names && n != keep ==> Off(w, w', n))
            && (StopsClean(w, w') ==> forall n :: n in names && n != keep ==> SilencedOn(w, w', n))
            && (forall n :: n !in names ==> SameOn(w, w', n))
    decreases |names|
  {
    if names != [] {
      var w1 := IsolateOne(w, env, names[0], keep);
      var w' := IsolateAll(w1, env, names[1..], keep);
      IsolateOneLaw(w, env, names[0], keep);
      IsolateAllLaw(w1, env, names[1..], keep);
      IsolatingTrans(w, w1, w', keep);
      assert names == [names[0]] + names[1..];
      if CleanSince(w, w') {
        CleanEarlier(w, w1, w');
        forall n | n in names && n != keep ensures Off(w, w', n) {
          OffInTwo(w, w1, w', n, names[0], names[1..]);
        }
      }
      if StopsClean(w, w') {
        assert StopsClean(w, w1) && StopsClean(w1, w') by { StopsCleanParts(w, w1, w'); }
        forall n | n in names && n != keep ensures SilencedOn(w, w', n) {
          SilencedInTwo(w, w1, w', n, names[0], names[1..]);
        }
      }
    }
  }

  lemma StopsCleanParts(w: World, mid: World, w': World)
    requires Grew(w, mid) && Grew(mid, w') && StopsClean(w, w')
    ensures StopsClean(w, mid) && StopsClean(mid, w')
  {}

  lemma SilencedInTwo(w: World, w1: World, w': World, n: string, first: string, rest: seq<string>)
    requires n == first || n in rest
    requires if n == first then SilencedOn(w, w1, n) else SameOn(w, w1, n)
    requires if n in rest then SilencedOn(w1, w', n) else SameOn(w1, w', n)
    requires w'.dhclient <= w1.dhclient
    ensures SilencedOn(w, w', n)
  {}

  lemma IsolatingTrans(a: World, b: World, c: World, keep: string)
    requires Isolating(a, b, keep) && Isolating(b, c, keep)
    ensures Isolating(a, c, keep)
  {
    TameTrans(a, b, c, keep);
  }

  lemma OffInTwo(w: World, w1: World, w': World, n: string, first: string, rest: seq<string>)
    requires n == first || n in rest
    requires if n == first then Off(w, w1, n) else SameOn(w, w1, n)
    requires if n in rest then Off(w1, w', n) else SameOn(w1, w', n)
    ensures Off(w, w', n)
  {
    if n == first { StaysOff(w, w1, w', n); }
  }

  /** The kept interface is untouched, and every other one is off if nothing fails. */
  lemma IsolateLaw(w: World, env: Env, keep: string)
    ensures var w' := Isolate(w, env, keep);
            && Isolating(w, w', keep) && (CleanSince(w, w') ==> Isolated(w, w', keep))
            && (StopsClean(w, w') ==> AllQuieted(w, w', keep))
  {
    var ok := Cmd(w, env) == Worked;
    var w1 := Note(w, env, ListEth(ok));
    assert TameSince(w, w1, keep);
    if ok {
      var w' := IsolateAll(w1, env, w.eths, keep);
      IsolateAllLaw(w1, env, w.eths, keep);
      TameTrans(w, w1, w', keep);
    } else {
      assert !Clean(w1.log[|w.log|]) && !w1.log[|w.log|].ok;
    }
  }

  // ----- Before the probe -----

  /** No dnsmasq of ours is alive, owned or not. */
  predicate Dead(g: Dhcpd) {
    g.procs == map[]
  }

  /** The host when the interface has been chosen; looking for carrier may have brought links up. */
  function Chosen(w: World, env: Env, cfg: Cfg): World {
    ResolveIface(w, env, cfg.iface, true).w
  }

  /**
   * Preparation never probes, pings or serves; when it fails our server is as it was, and when it succeeds
   * the chosen interface is up with its addresses untouched and no server of ours is left.
   */
  lemma PrepareLaw(w: World, env: Env, cfg: Cfg)
    requires Tracked(w.dhcpd)
    ensures var p := Prepare(w, env, cfg);
            && QuietSince(w, p.w) && p.w.eths == w.eths && p.w.route == w.route
            && p.w.dhcpd.conf == w.dhcpd.conf
            && (p.result.Err? ==> p.w.dhcpd == w.dhcpd)
            && (p.result.Ok? ==>
                  var iface := p.result.value;
                  && iface in w.eths && iface in p.w.adminUp && iface !in p.w.dhclient
                  && (IsAuto(cfg.iface) || cfg.iface.value == iface)
                  && Dead(p.w.dhcpd)
                  && TameSince(w, p.w, iface)
                  && Addrs(p.w, iface) == Addrs(w, iface)
                  && FewerAddrs(w, p.w)
                  && (CleanSince(w, p.w) ==> Isolated(Chosen(w, env, cfg), p.w, iface))
                  && (StopsClean(w, p.w) ==> AllQuieted(Chosen(w, env, cfg), p.w, iface)))
  {
    var r := ResolveIface(w, env, cfg.iface, true);
    ResolveFrame(w, env, cfg.iface, true);
    if r.result.Ok? {
      var iface := r.result.value;
      var w1 := Isolate(r.w, env, iface);
      ChosenLaw(w, r.w, w1, env, iface);
      ReadyLaw(w1, env, iface);
      var p := Prepare(w, env, cfg);
      assert p == Ready(w1, env, iface);
      TameTrans(w, w1, p.w, iface);
      if CleanSince(w, p.w) { CleanEarlier(w, w1, p.w); }
      if StopsClean(w, p.w) { StopsCleanParts(w, w1, p.w); }
    }
  }

  /** A clean stretch of the journal is clean in its first part. */
  lemma CleanEarlier(w: World, mid: World, w': World)
    requires Grew(w, mid) && Grew(mid, w') && CleanSince(w, w')
    ensures CleanSince(w, mid)
  {}

  /** Resolving and isolating together. */
  lemma ChosenLaw(w: World, r: World, w1: World, env: Env, iface: string)
    requires OnlyLinks(w, r) && LookingSince(w, r) && w1 == Isolate(r, env, iface)
    ensures TameSince(w, w1, iface) && w1.eths == w.eths && w1.route == w.route && w1.dhcpd == w.dhcpd
    ensures FewerAddrs(w, w1) && Addrs(w1, iface) == Addrs(w, iface)
    ensures CleanSince(w, w1) ==> Isolated(r, w1, iface)
    ensures StopsClean(w, w1) ==> AllQuieted(r, w1, iface)
  {
    IsolateLaw(r, env, iface);
    assert TameSince(w, r, iface);
    TameTrans(w, r, w1, iface);
    assert CleanSince(w, w1) ==> CleanSince(r, w1);
    assert StopsClean(w, w1) ==> StopsClean(r, w1);
  }

  /** The last three steps of preparation. */
  function Ready(w: World, env: Env, iface: string): Resolved {
    var up := BringUp(w, env, iface);
    if !up.ok then Resolved(Err(Other), up.w) else
    var s := DhclientStop(up.w, env, iface);
    if !s.ok then Resolved(Err(Other), s.w) else
    var d := if DhcpRunning(s.w) then DnsmasqStop(s.w, env) else Did(true, s.w);
    Resolved(if d.ok then Ok(iface) else Err(Other), d.w)
  }

  lemma ReadyLaw(w: World, env: Env, iface: string)
    requires Tracked(w.dhcpd)
    ensures var p := Ready(w, env, iface);
            && TameSince(w, p.w, iface) && p.w.eths == w.eths && p.w.route == w.route && p.w.addrs == w.addrs
            && p.w.adminUp <= w.adminUp + {iface}
            && (forall n :: n != iface ==> (n in p.w.dhclient <==> n in w.dhclient))
            && p.w.dhcpd.conf == w.dhcpd.conf
            && (p.result.Err? ==> p.w.dhcpd == w.dhcpd)
            && (p.result.Ok? ==> p.result.value == iface && iface in p.w.adminUp && iface !in p.w.dhclient
                                 && Dead(p.w.dhcpd))
  {
    var up := BringUp(w, env, iface);
    assert TameSince(w, up.w, iface);
    if up.ok {
      var s := DhclientStop(up.w, env, iface);
      assert TameSince(up.w, s.w, iface);
      TameTrans(w, up.w, s.w, iface);
      if s.ok {
        if DhcpRunning(s.w) {
          var d := DnsmasqStop(s.w, env);
          assert TameSince(s.w, d.w, iface);
          TameTrans(w, s.w, d.w, iface);
          StopEmpties(s.w.dhcpd, env.dhcpd(|s.w.log|));
        } else {
          DeadIsEmpty(s.w.dhcpd);
        }
      }
    }
  }

  // ----- The three modes -----

  /** Only `iface` and the default route may have changed among the links. */
  ghost predicate OnlyIface(w: World, w': World, iface: string) {
    && w'.eths == w.eths && w'.adminUp == w.adminUp
    && (forall n :: n != iface ==> Addrs(w', n) == Addrs(w, n) && (n in w'.dhclient <==> n in w.dhclient))
  }

  /** The lease obtained while waiting, if any. */
  function Leased(env: Env, k: nat): seq<Cidr> {
    if env.lease(k).Some? then [env.lease(k).value] else []
  }

  /**
   * A client has stopped our server, flushed the interface, started dhclient and waited, in this order and
   * last of all; its addresses are the lease obtained meanwhile, behind the old ones only if the flush failed
   * unnoticed.
   */
  predicate ClientHas(w: World, w': World, env: Env, iface: string) {
    var n := |w'.log|;
    && n >= |w.log| + 4 && w'.log[n - 4] == StopDnsmasq(true)
    && w'.log[n - 3].Flush? && w'.log[n - 3].name == iface && w'.log[n - 3].outcome != Failed
    && w'.log[n - 2] == StartDhclient(iface, true) && w'.log[n - 1] == WaitIpv4(iface)
    && Addrs(w', iface) ==
       (if w'.log[n - 3].outcome == Worked then [] else Addrs(w, iface)) + Leased(env, n - 1)
  }

  lemma ClientAddresses(w: World, env: Env, iface: string)
    ensures var a := ApplyClient(w, env, iface); a.result.Ok? ==> ClientHas(w, a.w, env, iface)
  {
    var d := DnsmasqStop(w, env);
    var f := FlushAddr(d.w, env, iface);
    var s := DhclientStart(f.w, env, iface);
    if d.ok && f.ok && s.ok {
      FlushThenWait(d.w, env, iface);
      var w' := WaitForIpv4(s.w, env, iface);
      FourEntries(w.log, StopDnsmasq(true), Flush(iface, Cmd(d.w, env)), StartDhclient(iface, true), WaitIpv4(iface),
                  w'.log);
    }
  }

  lemma FlushThenWait(w: World, env: Env, iface: string)
    ensures var f := FlushAddr(w, env, iface);
            var s := DhclientStart(f.w, env, iface);
            s.ok ==>
              Addrs(WaitForIpv4(s.w, env, iface), iface) ==
              (if Cmd(w, env) == Worked then [] else Addrs(w, iface)) + Leased(env, |w.log| + 2)
  {
    var f := FlushAddr(w, env, iface);
    assert Addrs(f.w, iface) == if Cmd(w, env) == Worked then [] else Addrs(w, iface);
  }

  lemma FourEntries(log: seq<Op>, a: Op, b: Op, c: Op, d: Op, log': seq<Op>)
    requires log' == log + [a] + [b] + [c] + [d]
    ensures |log'| == |log| + 4 && log'[|log|] == a && log'[|log| + 1] == b
    ensures log'[|log| + 2] == c && log'[|log| + 3] == d
  {}

  lemma ClientLaw(w: World, env: Env, iface: string)
    requires Dead(w.dhcpd)
    ensures var a := ApplyClient(w, env, iface);
            && QuietSince(w, a.w) && OnlyIface(w, a.w, iface) && Dead(a.w.dhcpd)
            && a.w.route == w.route
            && (a.result.Ok? ==>
                  && iface in a.w.dhclient
                  && ClientHas(w, a.w, env, iface)
                  && a.result.value == Status(Client, iface, Reported(a.w, iface), true, false, false))
  {
    ClientAddresses(w, env, iface);
    var d := DnsmasqStop(w, env);
    assert QuietSince(w, d.w);
    if d.ok {
      var f := FlushAddr(d.w, env, iface);
      assert QuietSince(d.w, f.w);
      QuietTrans(w, d.w, f.w);
      if f.ok {
        var s := DhclientStart(f.w, env, iface);
        assert QuietSince(f.w, s.w);
        QuietTrans(w, f.w, s.w);
        if s.ok {
          var w1 := WaitForIpv4(s.w, env, iface);
          assert QuietSince(s.w, w1);
          QuietTrans(w, s.w, w1);
        }
      }
    }
  }

  /** The last two steps of a static selection. */
  predicate StaticSteps(w: World, w': World, cfg: Cfg, iface: string) {
    var n := |w'.log|;
    n >= |w.log| + 2 && w'.log[n - 2] == StopDnsmasq(true) && w'.log[n - 1] == SetDefault(cfg.gateway.ip, iface, true)
  }

  lemma StaticLaw(w: World, env: Env, cfg: Cfg, iface: string)
    requires Dead(w.dhcpd) && cfg.gateway.subnet.prefix == REQUIRED_PREFIX
    ensures var a := ApplyStatic(w, env, cfg, iface);
            && QuietSince(w, a.w) && OnlyIface(w, a.w, iface) && Dead(a.w.dhcpd)
            && a.w.addrs == w.addrs && a.w.dhclient == w.dhclient
            && (a.result.Ok? ==>
                  && a.w.route == Some(Route(cfg.gateway.ip, iface))
                  && StaticSteps(w, a.w, cfg, iface)
                  && a.result.value == DecideStatus(iface, false, true, cfg))
  {
    var d := DnsmasqStop(w, env);
    assert QuietSince(w, d.w);
    if d.ok {
      var r := ReplaceDefault(d.w, env, cfg.gateway.ip, iface);
      assert QuietSince(d.w, r.w);
      QuietTrans(w, d.w, r.w);
    }
  }

  /** Some address of the interface has this ip. */
  predicate Holds(w: World, iface: string, ip: Ip) {
    exists c :: c in Addrs(w, iface) && c.ip == ip
  }

  /** A flush that failed unnoticed is made up for: there was nothing, or only link-local addresses, to flush. */
  predicate Yields(before: seq<Cidr>, gw: Cidr) {
    before == [] || (LinkLocal(FirstCidr(before).value) && !LinkLocal(gw))
  }

  lemma {:induction false} FirstCidrAppend(cs: seq<Cidr>, c: Cidr)
    ensures FirstCidr(cs + [c]) == if Yields(cs, c) then Some(c) else FirstCidr(cs)
  {
    if cs != [] {
      FirstCidrAppend(cs[1..], c);
      assert (cs + [c])[1..] == cs[1..] + [c];
    } else {
      assert cs + [c] == [c];
    }
  }

  /** The interface reports `gw` first exactly when its flushes worked or were made up for. */
  predicate FirstUnlessKept(w: World, w': World, iface: string, before: seq<Cidr>, gw: Cidr) {
    FirstCidr(Addrs(w', iface)) == Some(gw) <==> FlushesWork(w, w', iface) || Yields(before, gw)
  }

  /** Unless the gateway's address is reported, all are flushed; it is then the only one, if that worked. */
  predicate TookOver(w: World, w': World, iface: string, before: seq<Cidr>, gw: Cidr) {
    if !HidesAddress(iface) && FirstCidr(before) == Some(gw) then Addrs(w', iface) == before
    else
      exists i :: |w.log| <= i < |w'.log| && w'.log[i].Flush? && w'.log[i].name == iface
                  && if w'.log[i].outcome == Worked then Addrs(w', iface) == [gw] else before <= Addrs(w', iface)
  }

  lemma TakeGatewayAddrTakes(w: World, env: Env, cfg: Cfg, iface: string)
    ensures var a := TakeGatewayAddr(w, env, cfg, iface);
            a.ok ==> TookOver(w, a.w, iface, Addrs(w, iface), GatewayCidr(cfg))
  {
    if Reported(w, iface) != Some(GatewayCidr(cfg)) {
      var f := FlushAddr(w, env, iface);
      var a := AddAddress(f.w, env, iface, GatewayCidr(cfg));
      assert a.w.log[|w.log|] == Flush(iface, Cmd(w, env));
    }
  }

  lemma TookOverLater(w: World, mid: World, w': World, iface: string, before: seq<Cidr>, gw: Cidr)
    requires Grew(w, mid) && Grew(mid, w') && Addrs(w', iface) == Addrs(mid, iface)
    requires TookOver(w, mid, iface, before, gw)
    ensures TookOver(w, w', iface, before, gw)
  {
    assert forall i :: 0 <= i < |mid.log| ==> w'.log[i] == mid.log[i];
  }

  lemma TakeGatewayAddrFirst(w: World, env: Env, cfg: Cfg, iface: string)
    ensures var a := TakeGatewayAddr(w, env, cfg, iface);
            a.ok ==> FirstUnlessKept(w, a.w, iface, Addrs(w, iface), GatewayCidr(cfg))
  {
    if Reported(w, iface) != Some(GatewayCidr(cfg)) {
      var f := FlushAddr(w, env, iface);
      var a := AddAddress(f.w, env, iface, GatewayCidr(cfg));
      assert a.w.log[|w.log|] == Flush(iface, Cmd(w, env));
      FirstCidrAppend(Addrs(f.w, iface), GatewayCidr(cfg));
    }
  }

  lemma TakeGatewayAddrLaw(w: World, env: Env, cfg: Cfg, iface: string)
    ensures var a := TakeGatewayAddr(w, env, cfg, iface);
            && QuietSince(w, a.w) && OnlyIface(w, a.w, iface)
            && a.w.dhcpd == w.dhcpd && a.w.route == w.route && a.w.dhclient == w.dhclient
            && (a.ok ==> Holds(a.w, iface, cfg.gateway.ip))
            && (Reported(w, iface) == Some(GatewayCidr(cfg)) ==> a == Did(true, w))
  {
    if Reported(w, iface) != Some(GatewayCidr(cfg)) {
      var f := FlushAddr(w, env, iface);
      assert QuietSince(w, f.w);
      if f.ok {
        var a := AddAddress(f.w, env, iface, GatewayCidr(cfg));
        assert QuietSince(f.w, a.w);
        QuietTrans(w, f.w, a.w);
        if a.ok && GatewayCidr(cfg) !in Addrs(f.w, iface) && Cmd(f.w, env) == Worked {
          assert GatewayCidr(cfg) in Addrs(a.w, iface);
        }
      }
    }
  }

  /** The only loud entry a gateway apply can make is the start of our server, and it is the last one. */
  predicate StartsLast(w: World, a: Applied) {
    && Grew(w, a.w)
    && forall i :: |w.log| <= i < |a.w.log| ==>
         Quiet(a.w.log[i]) || (i == |a.w.log| - 1 && a.w.log[i] == ReloadDnsmasq(false, a.result.Ok?))
  }

  /** The server that a gateway apply leaves: one process, which has read what was rendered for the interface. */
  predicate Serves(g: Dhcpd, body: string) {
    Alive(g) && g.conf == body && g.procs == map[g.pidfile.value := body]
  }

  /** `del_default` may have failed without anybody noticing. */
  predicate DelFailedSilently(w: World, w': World) {
    exists i :: |w.log| <= i < |w'.log| && w'.log[i] == DelDefault(Silent)
  }

  /** Starting from nothing either serves exactly what was rendered, or nothing. */
  lemma ServeLaw(w: World, env: Env, cfg: Cfg, iface: string)
    requires Dead(w.dhcpd)
    ensures var d := DnsmasqReload(w, env, cfg, iface);
            && d.w == w.(dhcpd := d.w.dhcpd, log := w.log + [ReloadDnsmasq(false, d.ok)], now := d.w.now)
            && d.w.now >= w.now
            && (if d.ok then Serves(d.w.dhcpd, env.render(cfg, iface)) else Dead(d.w.dhcpd))
  {}

  /** Drop the default route, then start the server. */
  function ServeAlone(w: World, env: Env, cfg: Cfg, iface: string): Did {
    var r := RemoveDefault(w, env);
    if !r.ok then r else DnsmasqReload(r.w, env, cfg, iface)
  }

  lemma ServeAloneLaw(w: World, env: Env, cfg: Cfg, iface: string)
    requires Dead(w.dhcpd)
    ensures var d := ServeAlone(w, env, cfg, iface);
            && d.w == w.(dhcpd := d.w.dhcpd, route := d.w.route, log := d.w.log, now := d.w.now)
            && Grew(w, d.w)
            && (if d.ok then Serves(d.w.dhcpd, env.render(cfg, iface)) else Dead(d.w.dhcpd))
            && (d.ok ==> d.w.route.None? || (d.w.route == w.route && DelFailedSilently(w, d.w)))
            && (forall i :: |w.log| <= i < |d.w.log| ==>
                  d.w.log[i].DelDefault? || (i == |d.w.log| - 1 && d.w.log[i] == ReloadDnsmasq(false, d.ok)))
  {
    var r := RemoveDefault(w, env);
    assert r.w.log == w.log + [DelDefault(Cmd(w, env))];
    if r.ok {
      ServeLaw(r.w, env, cfg, iface);
      assert DnsmasqReload(r.w, env, cfg, iface).w.log[|w.log|] == DelDefault(Cmd(w, env));
    }
  }

  /** Steps that flush nothing do not change what is reported first. */
  lemma FirstStays(w: World, mid: World, w': World, iface: string, before: seq<Cidr>, gw: Cidr)
    requires Grew(w, mid) && NoFlushSince(mid, w', iface) && w'.addrs == mid.addrs
    requires FirstUnlessKept(w, mid, iface, before, gw)
    ensures FirstUnlessKept(w, w', iface, before, gw)
  {
    assert FlushesWork(w, w', iface) <==> FlushesWork(w, mid, iface);
  }

  lemma GatewayLaw(w: World, env: Env, cfg: Cfg, iface: string)
    requires Dead(w.dhcpd) && cfg.gateway.subnet.prefix == REQUIRED_PREFIX
    ensures var a := ApplyGateway(w, env, cfg, iface);
            && StartsLast(w, a) && OnlyIface(w, a.w, iface) && a.w.dhclient == w.dhclient
            && (a.result.Err? ==> Dead(a.w.dhcpd))
            && (a.result.Ok? ==>
                  && a.result.value == DecideStatus(iface, false, false, cfg)
                  && Serves(a.w.dhcpd, env.render(cfg, iface))
                  && Holds(a.w, iface, cfg.gateway.ip)
                  && FirstUnlessKept(w, a.w, iface, Addrs(w, iface), GatewayCidr(cfg))
                  && TookOver(w, a.w, iface, Addrs(w, iface), GatewayCidr(cfg))
                  && (a.w.route.None? || (a.w.route == w.route && DelFailedSilently(w, a.w))))
            && (Reported(w, iface) == Some(GatewayCidr(cfg)) ==> a.w.addrs == w.addrs)
  {
    var t := TakeGatewayAddr(w, env, cfg, iface);
    TakeGatewayAddrLaw(w, env, cfg, iface);
    TakeGatewayAddrFirst(w, env, cfg, iface);
    TakeGatewayAddrTakes(w, env, cfg, iface);
    if t.ok {
      ServeAloneLaw(t.w, env, cfg, iface);
      var d := ServeAlone(t.w, env, cfg, iface);
      assert ApplyGateway(w, env, cfg, iface).w == d.w;
      AddressesStay(w, t.w, d.w, iface, Addrs(w, iface), GatewayCidr(cfg));
    }
  }

  lemma AddressesStay(w: World, mid: World, w': World, iface: string, before: seq<Cidr>, gw: Cidr)
    requires Grew(w, mid) && NoFlushSince(mid, w', iface) && w'.addrs == mid.addrs
    requires FirstUnlessKept(w, mid, iface, before, gw) && TookOver(w, mid, iface, before, gw)
    ensures FirstUnlessKept(w, w', iface, before, gw) && TookOver(w, w', iface, before, gw)
    ensures forall i :: |w.log| <= i < |mid.log| ==> w'.log[i] == mid.log[i]
  {
    FirstStays(w, mid, w', iface, before, gw);
    TookOverLater(w, mid, w', iface, before, gw);
  }

  // ----- One apply -----

  /** Before entry `i`, and after `from`, a probe completed without an offer and no ping was answered since. */
  predicate Earned(log: seq<Op>, from: nat, i: nat)
    requires i <= |log|
  {
    exists j :: from <= j < i && log[j].Probe? && log[j].offer == Some(false)
                && forall m :: j < m < i ==> !(log[m].Ping? && log[m].answered)
  }

  /** We never probe while serving, and serve only what was earned by a silent probe and a silent gateway. */
  predicate Ordered(log: seq<Op>, from: nat) {
    forall i :: from <= i < |log| ==>
      && (log[i].Probe? ==> !log[i].serving)
      && (log[i].ReloadDnsmasq? ==> !log[i].running && Earned(log, from, i))
  }

  predicate Offered(log: seq<Op>, from: nat) {
    exists i :: from <= i < |log| && log[i].Probe? && log[i].offer == Some(true)
  }

  predicate Answered(log: seq<Op>, from: nat) {
    exists i :: from <= i < |log| && log[i].Ping? && log[i].answered
  }

  /** The temporary static address, added when no address was read. */
  function TempCidr(w: World, cfg: Cfg, iface: string): seq<Cidr>
    requires cfg.gateway.subnet.prefix == REQUIRED_PREFIX
  {
    if HasIpv4(w, iface) then [] else [StaticCidr(cfg)]
  }

  /** What each mode means for the host. `w` is the host before the apply, `w'` after it. */
  ghost predicate ModeHolds(w: World, w': World, env: Env, cfg: Cfg, s: Status)
    requires cfg.gateway.subnet.prefix == REQUIRED_PREFIX
  {
    match s.mode
    case Client =>
      && s.iface in w'.dhclient && Dead(w'.dhcpd)
      && ClientHas(w, w', env, s.iface)
      && s.cidr == Reported(w', s.iface)
    case Static =>
      && Dead(w'.dhcpd)
      && w'.route == Some(Route(cfg.gateway.ip, s.iface))
      && StaticSteps(w, w', cfg, s.iface)
      && Addrs(w', s.iface) == Addrs(w, s.iface) + TempCidr(w, cfg, s.iface)
    case Gateway =>
      && Serves(w'.dhcpd, env.render(cfg, s.iface))
      && Holds(w', s.iface, cfg.gateway.ip)
      && FirstUnlessKept(w, w', s.iface, Addrs(w, s.iface) + TempCidr(w, cfg, s.iface), GatewayCidr(cfg))
      && TookOver(w, w', s.iface, Addrs(w, s.iface) + TempCidr(w, cfg, s.iface), GatewayCidr(cfg))
      && (w'.route.None? || (w'.route == w.route && DelFailedSilently(w, w')))
  }

  /**
   * What the status says follows from what was seen: client mode after an offer, else static mode if the
   * gateway answered, else gateway mode; and the address that goes with the mode.
   */
  predicate Decided(w: World, w': World, cfg: Cfg, s: Status) {
    var offered, answered := Offered(w'.log, |w.log|), Answered(w'.log, |w.log|);
    var net := cfg.gateway.subnet.ip;
    && s.mode == (if offered then Client else if answered then Static else Mode.Gateway)
    && s.foreignDhcp == offered && s.gatewayReachable == (!offered && answered)
    && s.dnsmasqRunning == (!offered && !answered)
    && (s.mode == Static ==> s.cidr == Some(Cidr(Ip(net.a, net.b, net.c, cfg.gateway.staticHost), 24)))
    && (s.mode == Mode.Gateway ==> s.cidr == Some(Cidr(cfg.gateway.ip, 24)))
  }

  /** The temporary static address is never what makes the gateway address look local. */
  lemma TempAddrNotLocal(w: World, env: Env, cfg: Cfg, iface: string)
    requires Valid(cfg)
    ensures IsLocal(TempAddr(w, env, cfg, iface).w, cfg.gateway.ip) <==> IsLocal(w, cfg.gateway.ip)
  {
    AddressPlan(cfg);
    var w' := TempAddr(w, env, cfg, iface).w;
    if n, c :| n in w'.addrs && c in w'.addrs[n] && c.ip == cfg.gateway.ip {
      assert n in w.addrs && c in w.addrs[n];
    }
    if n, c :| n in w.addrs && c in w.addrs[n] && c.ip == cfg.gateway.ip {
      assert n in w'.addrs && c in w'.addrs[n];
    }
  }

  lemma TempAddrLaw(w: World, env: Env, cfg: Cfg, iface: string)
    requires cfg.gateway.subnet.prefix == REQUIRED_PREFIX
    ensures var t := TempAddr(w, env, cfg, iface);
            && QuietSince(w, t.w) && OnlyIface(w, t.w, iface)
            && t.w.dhcpd == w.dhcpd && t.w.route == w.route && t.w.dhclient == w.dhclient
            && (t.ok ==> Addrs(t.w, iface) == Addrs(w, iface) + TempCidr(w, cfg, iface))
            && NoFlushSince(w, t.w, iface)
  {}

  /** Asking changes nothing but clock and journal, where it leaves at most its ping. */
  lemma ReachFrame(w: World, env: Env, cfg: Cfg)
    ensures var p := Reach(w, env, cfg);
            && p.w == w.(log := p.w.log, now := p.w.now) && p.w.now >= w.now
            && (p.w.log == w.log + [Ping(cfg.gateway.ip, p.ok)] || (p.w.log == w.log && !p.ok))
  {}

  /** The address was pinged, and nobody answered. */
  predicate AskedInVain(w: World, w': World, ip: Ip) {
    exists i :: |w.log| <= i < |w'.log| && w'.log[i] == Ping(ip, false)
  }

  /** A gateway selection pinged the gateway address exactly if that was not one of ours at the probe. */
  lemma NoOfferAsks(w: World, env: Env, cfg: Cfg, iface: string)
    requires Dead(w.dhcpd) && Valid(cfg)
    ensures var a := SelectNoOffer(w, env, cfg, iface);
            a.result.Ok? && a.result.value.mode == Mode.Gateway ==>
              (AskedInVain(w, a.w, cfg.gateway.ip) <==> !IsLocal(w, cfg.gateway.ip))
  {
    var t := TempAddr(w, env, cfg, iface);
    TempAddrLaw(w, env, cfg, iface);
    TempAddrNotLocal(w, env, cfg, iface);
    var p := Reach(t.w, env, cfg);
    if t.ok && !p.ok {
      GatewayLaw(p.w, env, cfg, iface);
      ReachAsks(w, t.w, env, cfg, SelectNoOffer(w, env, cfg, iface));
    }
  }

  lemma ReachAsks(w: World, t: World, env: Env, cfg: Cfg, a: Applied)
    requires QuietSince(w, t) && !Reach(t, env, cfg).ok && StartsLast(Reach(t, env, cfg).w, a)
    ensures AskedInVain(w, a.w, cfg.gateway.ip) <==> !IsLocal(t, cfg.gateway.ip)
  {
    if !IsLocal(t, cfg.gateway.ip) {
      assert Reach(t, env, cfg).w.log[|t.log|] == Ping(cfg.gateway.ip, false);
      assert a.w.log[|t.log|] == Ping(cfg.gateway.ip, false);
    } else {
      forall i | |w.log| <= i < |t.log| ensures a.w.log[i] == t.log[i] {}
    }
  }

  /** After a silent probe: no further probe, and a start only if no ping was answered before it. */
  predicate CalmStart(w: World, w': World) {
    && Grew(w, w')
    && forall i :: |w.log| <= i < |w'.log| ==>
         && !w'.log[i].Probe?
         && (w'.log[i].ReloadDnsmasq? ==>
               !w'.log[i].running && forall m :: |w.log| <= m < i ==> !(w'.log[m].Ping? && w'.log[m].answered))
  }

  /** The part of a selection up to and including the ping. */
  predicate Asked(w: World, p: Did) {
    && Grew(w, p.w)
    && (forall i :: |w.log| <= i < |p.w.log| ==>
          Quiet(p.w.log[i]) || (i == |p.w.log| - 1 && p.w.log[i].Ping? && p.w.log[i].answered == p.ok))
    && (p.ok ==> |p.w.log| > |w.log| && p.w.log[|p.w.log| - 1].Ping?)
  }

  lemma AskLaw(w: World, env: Env, cfg: Cfg, iface: string)
    requires cfg.gateway.subnet.prefix == REQUIRED_PREFIX
    requires TempAddr(w, env, cfg, iface).ok
    ensures var p := Reach(TempAddr(w, env, cfg, iface).w, env, cfg);
            && Asked(w, p) && OnlyIface(w, p.w, iface) && NoFlushSince(w, p.w, iface)
            && p.w.dhcpd == w.dhcpd && p.w.route == w.route && p.w.dhclient == w.dhclient
            && Addrs(p.w, iface) == Addrs(w, iface) + TempCidr(w, cfg, iface)
  {
    TempAddrLaw(w, env, cfg, iface);
    var t := TempAddr(w, env, cfg, iface).w;
    ReachFrame(t, env, cfg);
    AskedAfter(w, t, Reach(t, env, cfg), cfg, iface);
  }

  lemma AskedAfter(w: World, t: World, p: Did, cfg: Cfg, iface: string)
    requires QuietSince(w, t) && NoFlushSince(w, t, iface) && p.w.now >= t.now
    requires p.w.log == t.log + [Ping(cfg.gateway.ip, p.ok)] || (p.w.log == t.log && !p.ok)
    ensures Asked(w, p) && NoFlushSince(w, p.w, iface)
  {}

  lemma AfterAsking(w: World, p: Did, w': World)
    requires Asked(w, p) && Grew(p.w, w')
    requires forall i :: |p.w.log| <= i < |w'.log| ==>
               Quiet(w'.log[i]) || (!p.ok && i == |w'.log| - 1 && w'.log[i].ReloadDnsmasq? && !w'.log[i].running)
    ensures CalmStart(w, w') && (Answered(w'.log, |w.log|) <==> p.ok)
  {}

  lemma {:induction false} NoOfferLaw(w: World, env: Env, cfg: Cfg, iface: string)
    requires Dead(w.dhcpd) && cfg.gateway.subnet.prefix == REQUIRED_PREFIX
    ensures var a := SelectNoOffer(w, env, cfg, iface);
            && CalmStart(w, a.w) && OnlyIface(w, a.w, iface) && a.w.dhclient == w.dhclient
            && (a.result.Err? ==> Dead(a.w.dhcpd))
            && (a.result.Ok? ==>
                  && a.result.value == DecideStatus(iface, false, Answered(a.w.log, |w.log|), cfg)
                  && ModeHolds(w, a.w, env, cfg, a.result.value))
  {
    var t := TempAddr(w, env, cfg, iface);
    TempAddrLaw(w, env, cfg, iface);
    if t.ok {
      var p := Reach(t.w, env, cfg);
      AskLaw(w, env, cfg, iface);
      var a := SelectNoOffer(w, env, cfg, iface);
      if p.ok {
        StaticLaw(p.w, env, cfg, iface);
        AfterEcho(w, p, a, env, cfg, iface);
      } else {
        GatewayLaw(p.w, env, cfg, iface);
        AfterSilence(w, p, a, env, cfg, iface);
      }
    }
  }

  /** A static apply on the host as it is after the ping, seen from before. */
  lemma AfterEcho(w: World, p: Did, a: Applied, env: Env, cfg: Cfg, iface: string)
    requires cfg.gateway.subnet.prefix == REQUIRED_PREFIX
    requires Asked(w, p) && p.ok && OnlyIface(w, p.w, iface)
    requires Addrs(p.w, iface) == Addrs(w, iface) + TempCidr(w, cfg, iface)
    requires QuietSince(p.w, a.w) && OnlyIface(p.w, a.w, iface) && Dead(a.w.dhcpd) && a.w.addrs == p.w.addrs
    requires a.result.Ok? ==>
               && a.w.route == Some(Route(cfg.gateway.ip, iface)) && StaticSteps(p.w, a.w, cfg, iface)
               && a.result.value == DecideStatus(iface, false, true, cfg)
    ensures CalmStart(w, a.w) && OnlyIface(w, a.w, iface)
    ensures a.result.Ok? ==>
              && a.result.value == DecideStatus(iface, false, Answered(a.w.log, |w.log|), cfg)
              && ModeHolds(w, a.w, env, cfg, a.result.value)
  {
    AfterAsking(w, p, a.w);
  }

  /** A gateway apply on the host as it is after the ping, seen from before. */
  lemma AfterSilence(w: World, p: Did, a: Applied, env: Env, cfg: Cfg, iface: string)
    requires cfg.gateway.subnet.prefix == REQUIRED_PREFIX
    requires Asked(w, p) && !p.ok && OnlyIface(w, p.w, iface) && NoFlushSince(w, p.w, iface) && p.w.route == w.route
    requires Addrs(p.w, iface) == Addrs(w, iface) + TempCidr(w, cfg, iface)
    requires StartsLast(p.w, a) && OnlyIface(p.w, a.w, iface)
    requires a.result.Ok? ==>
               && a.result.value == DecideStatus(iface, false, false, cfg)
               && Serves(a.w.dhcpd, env.render(cfg, iface)) && Holds(a.w, iface, cfg.gateway.ip)
               && FirstUnlessKept(p.w, a.w, iface, Addrs(p.w, iface), GatewayCidr(cfg))
               && TookOver(p.w, a.w, iface, Addrs(p.w, iface), GatewayCidr(cfg))
               && (a.w.route.None? || (a.w.route == p.w.route && DelFailedSilently(p.w, a.w)))
    ensures CalmStart(w, a.w) && OnlyIface(w, a.w, iface)
    ensures a.result.Ok? ==>
              && a.result.value == DecideStatus(iface, false, Answered(a.w.log, |w.log|), cfg)
              && ModeHolds(w, a.w, env, cfg, a.result.value)
  {
    AfterAsking(w, p, a.w);
    GatewayHoldsEarlier(w, p.w, a.w, env, cfg, iface);
  }

  predicate NoFlushSince(w: World, w': World, iface: string) {
    Grew(w, w') && forall i :: |w.log| <= i < |w'.log| && w'.log[i].Flush? ==> w'.log[i].name != iface
  }

  /** What a gateway apply guarantees from its first step on also holds counted from an earlier moment. */
  lemma GatewayHoldsEarlier(w: World, mid: World, w': World, env: Env, cfg: Cfg, iface: string)
    requires cfg.gateway.subnet.prefix == REQUIRED_PREFIX
    requires NoFlushSince(w, mid, iface) && Grew(mid, w') && mid.route == w.route
    ensures FlushesWork(w, w', iface) <==> FlushesWork(mid, w', iface)
    ensures DelFailedSilently(mid, w') ==> DelFailedSilently(w, w')
  {}

  lemma ModeHoldsEarlier(w: World, mid: World, w': World, env: Env, cfg: Cfg, s: Status)
    requires cfg.gateway.subnet.prefix == REQUIRED_PREFIX && ModeHolds(mid, w', env, cfg, s)
    requires NoFlushSince(w, mid, s.iface) && Grew(mid, w')
    requires mid.route == w.route && Addrs(mid, s.iface) == Addrs(w, s.iface)
    ensures ModeHolds(w, w', env, cfg, s)
  {
    GatewayHoldsEarlier(w, mid, w', env, cfg, s.iface);
    assert TempCidr(mid, cfg, s.iface) == TempCidr(w, cfg, s.iface);
  }

  /** After the probe entry `k` brought no offer, the decision is the one on the whole journal. */
  lemma SilentProbe(w: World, w1: World, w': World, cfg: Cfg, iface: string)
    requires CalmStart(w1, w') && |w1.log| == |w.log| + 1 && cfg.gateway.subnet.prefix == REQUIRED_PREFIX
    requires w1.log[|w.log|] == Probe(iface, false, Some(false))
    ensures Ordered(w'.log, |w.log|)
    ensures Decided(w, w', cfg, DecideStatus(iface, false, Answered(w'.log, |w1.log|), cfg))
  {
    assert w'.log[|w.log|] == w1.log[|w.log|];
    CalmIsOrdered(w1, w', |w.log|);
    assert Answered(w'.log, |w.log|) <==> Answered(w'.log, |w1.log|);
  }

  /** What holds of a selection on `iface` that began on the host `w`. */
  ghost predicate Selected(w: World, a: Applied, env: Env, cfg: Cfg, iface: string)
    requires cfg.gateway.subnet.prefix == REQUIRED_PREFIX
  {
    && Grew(w, a.w) && OnlyIface(w, a.w, iface) && Ordered(a.w.log, |w.log|)
    && (a.result.Err? ==> Dead(a.w.dhcpd))
    && (a.result.Ok? ==>
          a.result.value.iface == iface && Decided(w, a.w, cfg, a.result.value)
          && ModeHolds(w, a.w, env, cfg, a.result.value))
    && (a.result.Ok? && a.result.value.mode != Client ==> a.w.dhclient == w.dhclient)
  }

  lemma AfterSilentProbe(w: World, w1: World, a: Applied, env: Env, cfg: Cfg, iface: string)
    requires w1 == w.(log := w.log + [Probe(iface, false, Some(false))], now := w1.now) && w1.now >= w.now
    requires CalmStart(w1, a.w) && OnlyIface(w1, a.w, iface) && cfg.gateway.subnet.prefix == REQUIRED_PREFIX
    requires a.w.dhclient == w1.dhclient && (a.result.Err? ==> Dead(a.w.dhcpd))
    requires a.result.Ok? ==>
               && a.result.value == DecideStatus(iface, false, Answered(a.w.log, |w1.log|), cfg)
               && ModeHolds(w1, a.w, env, cfg, a.result.value)
    ensures Selected(w, a, env, cfg, iface)
  {
    SilentProbe(w, w1, a.w, cfg, iface);
    if a.result.Ok? { ModeHoldsEarlier(w, w1, a.w, env, cfg, a.result.value); }
  }

  lemma {:induction false} SelectLaw(w: World, env: Env, cfg: Cfg, iface: string)
    requires Dead(w.dhcpd) && cfg.gateway.subnet.prefix == REQUIRED_PREFIX
    ensures Selected(w, Select(w, env, cfg, iface), env, cfg, iface)
  {
    var k := |w.log|;
    var answer := env.probe(k);
    var w1 := ProbeDhcp(w, env, iface);
    assert w1.log[k] == Probe(iface, false, answer);
    var a := Select(w, env, cfg, iface);
    if answer == Some(true) {
      ClientLaw(w1, env, iface);
      AfterOffer(w, w1, a, env, cfg, iface);
    } else if answer == Some(false) {
      NoOfferLaw(w1, env, cfg, iface);
      AfterSilentProbe(w, w1, a, env, cfg, iface);
    }
  }

  lemma AfterOffer(w: World, w1: World, a: Applied, env: Env, cfg: Cfg, iface: string)
    requires w1 == w.(log := w.log + [Probe(iface, false, Some(true))], now := w1.now) && w1.now >= w.now
    requires QuietSince(w1, a.w) && OnlyIface(w1, a.w, iface) && cfg.gateway.subnet.prefix == REQUIRED_PREFIX
    requires Dead(a.w.dhcpd)
    requires a.result.Ok? ==>
               && a.result.value == Status(Client, iface, Reported(a.w, iface), true, false, false)
               && ModeHolds(w1, a.w, env, cfg, a.result.value)
    ensures Selected(w, a, env, cfg, iface)
  {
    OfferIsClient(w1, a.w, |w.log|);
  }

  lemma OfferIsClient(w: World, w': World, k: nat)
    requires QuietSince(w, w') && |w.log| == k + 1
    requires w.log[k].Probe? && !w.log[k].serving && w.log[k].offer == Some(true)
    ensures Ordered(w'.log, k) && Offered(w'.log, k) && !Answered(w'.log, k)
  {}

  lemma CalmIsOrdered(w: World, w': World, k: nat)
    requires CalmStart(w, w') && |w.log| == k + 1
    requires w'.log[k].Probe? && !w'.log[k].serving && w'.log[k].offer == Some(false)
    ensures Ordered(w'.log, k) && !Offered(w'.log, k)
  {}

  /** Quiet entries in front change none of the journal's verdicts. */
  lemma QuietPrefix(w: World, mid: World, w': World)
    requires QuietSince(w, mid) && Grew(mid, w') && Ordered(w'.log, |mid.log|)
    ensures Ordered(w'.log, |w.log|)
    ensures Offered(w'.log, |w.log|) <==> Offered(w'.log, |mid.log|)
    ensures Answered(w'.log, |w.log|) <==> Answered(w'.log, |mid.log|)
  {}
}
