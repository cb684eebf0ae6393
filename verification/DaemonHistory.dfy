/** The loop's counters explained by what the daemon saw: health hysteresis and the re-select timer. */
module DaemonHistory {
  import opened Basics
  import opened Config
  import opened Net
  import opened Apply
  import opened Daemon

  /** What one step showed. */
  datatype Seen =
    | NoVerdict                                             // outside changes, refused reloads, failed applies
    | Selected                                              // a reload or reconfigure applied successfully
    | Judged(v: Verdict)                                    // a tick with carrier, or without an interface
    | Down(iface: string, at: nat, reselect: Option<bool>)  // a tick without carrier; Some(ok) if it re-selected

  /** Seen of one event, from the state in which it arrives. */
  function Observe(s: State, env: Env, e: Event): Seen {
    match e
    case Reload(loaded) =>
      if loaded.Some? && Valid(loaded.value) && ApplyWith(s.w, env, loaded.value).result.Ok? then Selected
      else NoVerdict
    case Reconfigure => if ApplyWith(s.w, env, s.cfg).result.Ok? then Selected else NoVerdict
    case TickDue => ObserveTick(s, env)
    case Meanwhile(_) => NoVerdict
  }

  function ObserveTick(s: State, env: Env): Seen {
    var s1 := Looked(s, env);
    if s.status.iface == "" then Judged(Unhealthy(EmptyIface))
    else if Carrier(s.w, env, s.status.iface) then
      Judged(LiveVerdict(s1.(w := SelfHeal(s1.w, env, s1.cfg, s1.status.mode, s1.status.iface))))
    else
      Down(s.status.iface, s1.w.now,
           if ShouldReselect(false, s.downSince, s1.w.now, RetryMs(s.cfg))
           then Some(ApplyWith(s1.w, env, s.cfg).result.Ok?) else None)
  }

  function History(s: State, env: Env, es: seq<Event>): (h: seq<Seen>)
    ensures |h| == |es|
    decreases |es|
  {
    if es == [] then []
    else
      var most := es[..|es| - 1];
      History(s, env, most) + [Observe(Run(s, env, most), env, es[|es| - 1])]
  }

  lemma {:induction false} HistoryAt(s: State, env: Env, es: seq<Event>, k: nat)
    requires k < |es|
    ensures History(s, env, es)[k] == Observe(Run(s, env, es[..k]), env, es[k])
    ensures History(s, env, es)[..k] == History(s, env, es[..k])
    decreases |es|
  {
    var most := es[..|es| - 1];
    assert History(s, env, es)[..|most|] == History(s, env, most);
    if k < |most| {
      HistoryAt(s, env, most, k);
      assert most[..k] == es[..k];
      assert History(s, env, es)[..k] == History(s, env, most)[..k];
    }
  }

  // ----- Health -----

  /** The verdicts, a reset counting as a healthy one. */
  function Marks(h: seq<Seen>): seq<Verdict> {
    if h == [] then []
    else
      var rest := Marks(h[..|h| - 1]);
      match h[|h| - 1]
      case NoVerdict => rest
      case Judged(v) => rest + [v]
      case _ => rest + [Healthy]
  }

  /** Length of the unhealthy tail. */
  function BadTail(m: seq<Verdict>): nat {
    if m == [] || m[|m| - 1].Healthy? then 0 else 1 + BadTail(m[..|m| - 1])
  }

  /** Health and counter are what the verdicts say, the counter saturating at 32 bits. */
  predicate Explained(s: State, m: seq<Verdict>) {
    && s.streak == (if BadTail(m) < U32_MAX then BadTail(m) else U32_MAX)
    && s.health == (if BadTail(m) < HEALTH_FAIL_THRESHOLD then Fine
                    else Health(false, Some(m[|m| - 1].why)))
  }

  lemma ExplainedVerdict(s: State, m: seq<Verdict>, v: Verdict)
    requires Explained(s, m)
    ensures Explained(RecordVerdict(s, v), m + [v])
  {}

  lemma ExplainedFinish(s: State, a: Applied, m: seq<Verdict>)
    requires Explained(s, m)
    ensures Explained(Finish(s, a), if a.result.Ok? then m + [Healthy] else m)
  {}

  /** One verdict more, or none. */
  function AddMark(m: seq<Verdict>, seen: Seen): seq<Verdict> {
    match seen
    case NoVerdict => m
    case Judged(v) => m + [v]
    case _ => m + [Healthy]
  }

  lemma ExplainedUp(s: State, env: Env, m: seq<Verdict>)
    requires Explained(s, m)
    ensures var v := LiveVerdict(s.(w := SelfHeal(s.w, env, s.cfg, s.status.mode, s.status.iface)));
            Explained(TickUp(s, env), m + [v])
  {}

  lemma ExplainedDown(s: State, env: Env, m: seq<Verdict>)
    requires Explained(s, m)
    ensures Explained(TickDown(s, env), m + [Healthy])
  {}

  lemma ExplainedTick(s: State, env: Env, m: seq<Verdict>)
    requires Explained(s, m) && !s.applying
    ensures Explained(Tick(s, env), AddMark(m, ObserveTick(s, env)))
  {
    if s.status.iface == "" {
      ExplainedVerdict(s, m, Unhealthy(EmptyIface));
    } else if Carrier(s.w, env, s.status.iface) {
      ExplainedUp(Looked(s, env), env, m);
    } else {
      ExplainedDown(Looked(s, env), env, m);
    }
  }

  lemma TickIsDone(s: State, env: Env)
    requires !s.applying
    ensures !Tick(s, env).applying
  {}

  lemma ExplainedReload(s: State, env: Env, loaded: Option<Cfg>, m: seq<Verdict>)
    requires Explained(s, m) && !s.applying
    ensures var s' := OnReload(s, env, loaded);
            Explained(s', AddMark(m, Observe(s, env, Reload(loaded)))) && !s'.applying
  {
    if loaded.Some? && Valid(loaded.value) {
      ExplainedFinish(s.(cfg := loaded.value), ApplyWith(s.w, env, loaded.value), m);
    }
  }

  lemma ExplainedStep(s: State, env: Env, e: Event, m: seq<Verdict>)
    requires Explained(s, m) && !s.applying
    ensures Explained(Step(s, env, e), AddMark(m, Observe(s, env, e))) && !Step(s, env, e).applying
  {
    match e {
      case Reload(loaded) => ExplainedReload(s, env, loaded, m);
      case Reconfigure =>
        ExplainedFinish(s, ApplyWith(s.w, env, s.cfg), m);
        assert Step(s, env, e) == Finish(s, ApplyWith(s.w, env, s.cfg));
      case TickDue =>
        ExplainedTick(s, env, m);
        TickIsDone(s, env);
      case Meanwhile(_) =>
    }
  }

  lemma {:induction false} ExplainedRun(s: State, env: Env, es: seq<Event>)
    requires s.health == Fine && s.streak == 0 && !s.applying
    ensures Explained(Run(s, env, es), Marks(History(s, env, es))) && !Run(s, env, es).applying
    decreases |es|
  {
    if es != [] {
      var most := es[..|es| - 1];
      ExplainedRun(s, env, most);
      ExplainedStep(Run(s, env, most), env, es[|es| - 1], Marks(History(s, env, most)));
      assert History(s, env, es)[..|most|] == History(s, env, most);
    }
  }

  predicate LastThreeFailed(m: seq<Verdict>) {
    |m| >= 3 && m[|m| - 1].Unhealthy? && m[|m| - 2].Unhealthy? && m[|m| - 3].Unhealthy?
  }

  /** What is reported, in terms of the verdicts and resets so far. */
  predicate Reports(s: State, m: seq<Verdict>) {
    && (!s.health.healthy <==> LastThreeFailed(m))
    && (s.health.healthy <==> s.streak < HEALTH_FAIL_THRESHOLD)
    && s.health.reason == (if LastThreeFailed(m) then Some(m[|m| - 1].why) else None)
  }

  lemma ExplainedReports(s: State, m: seq<Verdict>)
    requires Explained(s, m)
    ensures Reports(s, m)
  {
    LastThree(m);
  }

  /**
   * Hysteresis over every run from start: the daemon reports unhealthy exactly when the last three verdicts
   * or resets were all unhealthy verdicts, and then with the reason of the last one; while fewer than three
   * failed in a row it reports healthy and no reason.
   */
  lemma {:induction false} HealthIsLastThree(w: World, env: Env, cfg: Cfg, es: seq<Event>)
    ensures var s0 := Launch(w, env, cfg);
            Reports(Run(s0, env, es), Marks(History(s0, env, es)))
  {
    var s0 := Launch(w, env, cfg);
    ExplainedRun(s0, env, es);
    ExplainedReports(Run(s0, env, es), Marks(History(s0, env, es)));
  }

  lemma LastThree(m: seq<Verdict>)
    ensures BadTail(m) >= 3 <==> LastThreeFailed(m)
  {
    if |m| >= 3 {
      var a := m[..|m| - 1];
      var b := a[..|a| - 1];
      assert a[|a| - 1] == m[|m| - 2] && b[|b| - 1] == m[|m| - 3];
    } else if |m| == 2 {
      assert BadTail(m[..1]) <= 1 by { assert m[..1][..0] == []; }
    } else if |m| == 1 {
      assert m[..0] == [];
    }
  }

  // ----- The re-select timer -----

  /** When the current outage began: at the first of the carrierless ticks since carrier or a success. */
  function Outage(h: seq<Seen>): Option<nat> {
    if h == [] then None
    else
      var before := Outage(h[..|h| - 1]);
      match h[|h| - 1]
      case NoVerdict => before
      case Selected => None
      case Judged(_) => None
      case Down(_, at, reselect) =>
        if reselect == Some(true) then None else if before.Some? then before else Some(at)
  }

  /** The timer is running exactly during an outage, since its beginning. */
  predicate Timed(s: State, h: seq<Seen>) {
    s.downSince == Outage(h) && !s.applying && (s.status.iface == "" ==> s.downSince.None?) && s.cfg.linkRetrySecs > 0
  }

  /** A carrierless tick starts or keeps the timer, which only a successful re-select stops. */
  lemma TimedDown(d: State, h: seq<Seen>, iface: string, at: nat)
    requires d.downSince == (if Outage(h).Some? then Outage(h) else Some(at))
    requires d.status.iface != "" && !d.applying && d.cfg.linkRetrySecs > 0
    ensures Timed(d, h + [Down(iface, at, None)])
    ensures forall a :: Timed(Finish(d, a), h + [Down(iface, at, Some(a.result.Ok?))])
  {
    forall r: Option<bool> ensures (h + [Down(iface, at, r)])[..|h|] == h {}
  }

  lemma TimedTick(s: State, env: Env, h: seq<Seen>)
    requires Timed(s, h)
    ensures Timed(Tick(s, env), h + [ObserveTick(s, env)])
  {
    var o := ObserveTick(s, env);
    if o.Down? {
      TickDoesAsSeen(s, env);
      TimedDown(Deciding(s, env), h, o.iface, o.at);
    }
  }

  lemma TimedStep(s: State, env: Env, e: Event, h: seq<Seen>)
    requires Timed(s, h)
    ensures Timed(Step(s, env, e), h + [Observe(s, env, e)])
  {
    assert (h + [Observe(s, env, e)])[..|h|] == h;
    match e {
      case Reload(loaded) =>
      case Reconfigure =>
      case TickDue => TimedTick(s, env, h);
      case Meanwhile(_) =>
    }
  }

  lemma {:induction false} TimedRun(s: State, env: Env, es: seq<Event>)
    requires Timed(s, [])
    ensures Timed(Run(s, env, es), History(s, env, es))
    decreases |es|
  {
    if es != [] {
      var most := es[..|es| - 1];
      TimedRun(s, env, most);
      TimedStep(Run(s, env, most), env, es[|es| - 1], History(s, env, most));
    }
  }

  /** Between `j` and `k` nothing but outage: no carrier seen, no other interface, no successful apply. */
  predicate DownThroughout(h: seq<Seen>, j: nat, k: nat, iface: string)
    requires k <= |h|
  {
    forall m :: j <= m < k ==>
      h[m].NoVerdict? || (h[m].Down? && h[m].iface == iface && h[m].reselect != Some(true))
  }

  /** An outage is what its name says. */
  predicate OutageOn(h: seq<Seen>, iface: string) {
    Outage(h).Some? ==>
      exists j :: 0 <= j < |h| && h[j].Down? && h[j].at == Outage(h).value && DownThroughout(h, j, |h|, iface)
  }

  /** And nothing else is none: carrierless ticks without a success since mean an outage is on. */
  lemma {:induction false} OutageLasts(h: seq<Seen>, j: nat, iface: string)
    requires j < |h| && h[j].Down? && DownThroughout(h, j, |h|, iface)
    ensures Outage(h).Some?
    decreases |h|
  {
    var n := |h| - 1;
    if j < n {
      OutageLasts(h[..n], j, iface);
    }
  }

  lemma OutageGoesOn(h: seq<Seen>, o: Seen, iface: string)
    requires OutageOn(h, iface)
    requires o.NoVerdict? || (o.Down? && o.iface == iface && o.reselect != Some(true))
    ensures OutageOn(h + [o], iface)
  {}

  lemma OutageStep(s: State, env: Env, e: Event, h: seq<Seen>)
    requires OutageOn(h, s.status.iface) && !s.applying
    ensures OutageOn(h + [Observe(s, env, e)], Step(s, env, e).status.iface)
  {
    var o := Observe(s, env, e);
    assert (h + [o])[..|h|] == h;
    if o.NoVerdict? || (o.Down? && o.reselect != Some(true)) {
      IfaceStays(s, env, e);
      OutageGoesOn(h, o, s.status.iface);
    }
  }

  /** Only a successful apply changes the chosen interface. */
  lemma IfaceStays(s: State, env: Env, e: Event)
    requires !s.applying
    requires var o := Observe(s, env, e); o.NoVerdict? || (o.Down? && o.reselect != Some(true))
    ensures Step(s, env, e).status.iface == s.status.iface
    ensures Observe(s, env, e).Down? ==> Observe(s, env, e).iface == s.status.iface
  {}

  lemma {:induction false} OutageRun(s: State, env: Env, es: seq<Event>)
    requires Timed(s, [])
    ensures OutageOn(History(s, env, es), Run(s, env, es).status.iface)
    decreases |es|
  {
    if es != [] {
      var most := es[..|es| - 1];
      OutageRun(s, env, most);
      TimedRun(s, env, most);
      OutageStep(Run(s, env, most), env, es[|es| - 1], History(s, env, most));
    }
  }

  /** The tick `seen`, met with this retry time after history `h`, re-selects exactly when it should. */
  predicate ReselectsRight(h: seq<Seen>, seen: Seen, retrySecs: nat) {
    && retrySecs > 0
    && (seen.Down? ==>
          && OutageOn(h, seen.iface)
          && (seen.reselect.Some? <==> Outage(h).Some? && seen.at - Outage(h).value >= 1000 * retrySecs))
  }

  lemma ReselectHere(s: State, env: Env, e: Event, h: seq<Seen>)
    requires Timed(s, h) && OutageOn(h, s.status.iface)
    ensures ReselectsRight(h, Observe(s, env, e), s.cfg.linkRetrySecs)
  {}

  /**
   * Over every run: a carrierless tick re-selects exactly when an outage of its interface had begun at an
   * earlier tick at least `linkRetrySecs` ago, so the first carrierless tick never does.
   */
  lemma {:induction false} ReselectLaw(w: World, env: Env, cfg: Cfg, es: seq<Event>, k: nat)
    requires Valid(cfg) && k < |es|
    ensures var s0 := Launch(w, env, cfg);
            var h := History(s0, env, es);
            ReselectsRight(h[..k], h[k], Run(s0, env, es[..k]).cfg.linkRetrySecs)
  {
    var s0 := Launch(w, env, cfg);
    HistoryAt(s0, env, es, k);
    LaunchTimed(w, env, cfg);
    TimedRun(s0, env, es[..k]);
    OutageRun(s0, env, es[..k]);
    ReselectHere(Run(s0, env, es[..k]), env, es[k], History(s0, env, es[..k]));
  }

  lemma LaunchTimed(w: World, env: Env, cfg: Cfg)
    requires Valid(cfg)
    ensures Timed(Launch(w, env, cfg), [])
  {}

  /** While an outage goes on its beginning stays the same. */
  lemma {:induction false} OutageKeeps(h: seq<Seen>, j: nat, iface: string)
    requires j <= |h| && DownThroughout(h, j, |h|, iface) && Outage(h[..j]).Some?
    ensures Outage(h) == Outage(h[..j])
    decreases |h|
  {
    var n := |h| - 1;
    if j == |h| {
      assert h[..j] == h;
    } else {
      assert h[..n][..j] == h[..j];
      OutageKeeps(h[..n], j, iface);
    }
  }

  /** The state in which a carrierless tick decides whether to re-select. */
  function Deciding(s: State, env: Env): State {
    var s1 := Looked(s, env);
    Reset(s1.(downSince := if s1.downSince.None? then Some(s1.w.now) else s1.downSince))
  }

  /** What was seen of a carrierless tick is what it did: it applied exactly if seen, with the result seen. */
  lemma TickDoesAsSeen(s: State, env: Env)
    requires !s.applying && s.cfg.linkRetrySecs > 0 && ObserveTick(s, env).Down?
    ensures var o := ObserveTick(s, env);
            var d := Deciding(s, env);
            && Tick(s, env) == (if o.reselect.Some? then ApplyNow(d, env) else d)
            && (o.reselect.Some? ==> o.reselect.value == ApplyWith(d.w, env, d.cfg).result.Ok?)
            && o.at == d.w.now && o.iface == d.status.iface
  {}
}
