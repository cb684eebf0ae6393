/** Re-selection is rate limited over whole runs. */
module DaemonTiming {
  import opened Basics
  import opened Config
  import opened Net
  import opened Dhcpd
  import opened Daemon
  import opened DaemonOwnership
  import opened DaemonHistory

  /** A step's observation is dated within the step. */
  predicate Dated(s: State, seen: Seen, s': State) {
    s.w.now <= s'.w.now && (seen.Down? ==> s.w.now <= seen.at <= s'.w.now)
  }

  lemma ApplyTakesTime(s: State, env: Env)
    requires Inv(s)
    ensures ApplyNow(s, env).w.now >= s.w.now
  {
    ApplyOwnership(s.w, env, s.cfg);
  }

  lemma TickDated(s: State, env: Env)
    requires Inv(s)
    ensures Dated(s, ObserveTick(s, env), Tick(s, env))
  {
    var s1 := Looked(s, env);
    if s.status.iface != "" && !Carrier(s.w, env, s.status.iface) {
      var since := if s1.downSince.None? then Some(s1.w.now) else s1.downSince;
      ApplyTakesTime(Reset(s1.(downSince := since)), env);
    }
  }

  lemma StepDated(s: State, env: Env, e: Event)
    requires Inv(s)
    ensures Dated(s, Observe(s, env, e), Step(s, env, e))
  {
    match e {
      case Reload(loaded) =>
        if loaded.Some? && Valid(loaded.value) { ApplyTakesTime(s.(cfg := loaded.value), env); }
      case Reconfigure => ApplyTakesTime(s, env);
      case TickDue => TickDated(s, env);
      case Meanwhile(_) =>
    }
  }

  lemma {:induction false} NowGrows(s: State, env: Env, es: seq<Event>, j: nat, k: nat)
    requires Inv(s) && j <= k <= |es|
    ensures Run(s, env, es[..j]).w.now <= Run(s, env, es[..k]).w.now
    decreases k
  {
    if j < k {
      NowGrows(s, env, es, j, k - 1);
      NowStep(s, env, es, k - 1);
    }
  }

  lemma NowStep(s: State, env: Env, es: seq<Event>, k: nat)
    requires Inv(s) && k < |es|
    ensures Run(s, env, es[..k]).w.now <= Run(s, env, es[..k + 1]).w.now
  {
    StepIs(s, env, es, k);
    RunOwnership(s, env, es[..k]);
    StepDated(Run(s, env, es[..k]), env, es[k]);
  }

  lemma StepIs(s: State, env: Env, es: seq<Event>, k: nat)
    requires k < |es|
    ensures Run(s, env, es[..k + 1]) == Step(Run(s, env, es[..k]), env, es[k])
  {
    assert es[..k + 1][..k] == es[..k];
  }

  /** Carrierless ticks are dated in the order in which they happen. */
  lemma DownInOrder(s: State, env: Env, es: seq<Event>, j: nat, k: nat)
    requires Inv(s) && j < k < |es|
    requires History(s, env, es)[j].Down? && History(s, env, es)[k].Down?
    ensures History(s, env, es)[j].at <= History(s, env, es)[k].at
  {
    HistoryAt(s, env, es, j);
    HistoryAt(s, env, es, k);
    StepIs(s, env, es, j);
    RunOwnership(s, env, es[..j]);
    RunOwnership(s, env, es[..k]);
    StepDated(Run(s, env, es[..j]), env, es[j]);
    StepDated(Run(s, env, es[..k]), env, es[k]);
    NowGrows(s, env, es, j + 1, k);
  }

  /**
   * After a re-select that succeeded, the next one comes at least `linkRetrySecs` later, the value in
   * force at that time, whatever happens in between.
   */
  lemma {:induction false} ReselectsAreSpaced(w: World, env: Env, cfg: Cfg, es: seq<Event>, j: nat, k: nat)
    requires Valid(cfg) && Tracked(w.dhcpd) && ColdLog(w.log) && j < k < |es|
    requires var h := History(Launch(w, env, cfg), env, es);
             h[j].Down? && h[j].reselect == Some(true) && h[k].Down? && h[k].reselect.Some?
    ensures var s0 := Launch(w, env, cfg);
            var h := History(s0, env, es);
            h[k].at - h[j].at >= 1000 * Run(s0, env, es[..k]).cfg.linkRetrySecs
  {
    var s0 := Launch(w, env, cfg);
    var h := History(s0, env, es);
    LaunchInv(w, env, cfg);
    ReselectLaw(w, env, cfg, es, k);
    var i := LaterStart(h[..k], j, h[k].iface);
    DownInOrder(s0, env, es, j, i);
    assert h[i] == h[..k][i];
    DownInOrder(s0, env, es, i, k);
  }

  lemma LaunchInv(w: World, env: Env, cfg: Cfg)
    requires Valid(cfg) && Tracked(w.dhcpd) && ColdLog(w.log)
    ensures Inv(Launch(w, env, cfg))
  {
    ApplyOwnership(w, env, cfg);
  }

  /** An outage that is on began after any success. */
  lemma LaterStart(h: seq<Seen>, j: nat, iface: string) returns (i: nat)
    requires j < |h| && h[j].Down? && h[j].reselect == Some(true)
    requires Outage(h).Some? && OutageOn(h, iface)
    ensures j < i < |h| && h[i].Down? && h[i].at == Outage(h).value
  {
    i :| 0 <= i < |h| && h[i].Down? && h[i].at == Outage(h).value && DownThroughout(h, i, |h|, iface);
  }

  /**
   * A failed re-select does not re-arm the timer: as long as the outage lasts and the retry time is not
   * raised, every further carrierless tick re-selects again.
   */
  lemma {:induction false} FailedReselectRepeats(w: World, env: Env, cfg: Cfg, es: seq<Event>, j: nat, k: nat)
    requires Valid(cfg) && Tracked(w.dhcpd) && ColdLog(w.log) && j < k < |es|
    requires var s0 := Launch(w, env, cfg);
             var h := History(s0, env, es);
             && h[j].Down? && h[j].reselect == Some(false) && h[k].Down?
             && DownThroughout(h, j, k, h[j].iface)
             && Run(s0, env, es[..k]).cfg.linkRetrySecs <= Run(s0, env, es[..j]).cfg.linkRetrySecs
    ensures History(Launch(w, env, cfg), env, es)[k].reselect.Some?
  {
    var s0 := Launch(w, env, cfg);
    var h := History(s0, env, es);
    LaunchInv(w, env, cfg);
    ReselectLaw(w, env, cfg, es, j);
    ReselectLaw(w, env, cfg, es, k);
    assert h[..k][..j] == h[..j];
    OutageKeeps(h[..k], j, h[j].iface);
    DownInOrder(s0, env, es, j, k);
  }
}
