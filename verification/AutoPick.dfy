/** What resolving the interface guarantees: which name it returns, how long it looks, and what it touches. */
module AutoPick {
  import opened Basics
  import opened Config
  import opened Net
  import opened Names

  /** The journal only grew. */
  predicate Grew(w: World, w': World) {
    w.log <= w'.log && w.now <= w'.now
  }

  /** Operations that neither probe, nor ping, nor start a server. */
  predicate Quiet(op: Op) {
    !op.Probe? && !op.Ping? && !op.ReloadDnsmasq?
  }

  predicate QuietSince(w: World, w': World) {
    Grew(w, w') && forall i :: |w.log| <= i < |w'.log| ==> Quiet(w'.log[i])
  }

  /** Operations of choosing an interface: look, wait, bring links up. */
  predicate Looking(op: Op) {
    op.ListEth? || op.Scan? || op.Sleep? || op.LinkUp?
  }

  predicate LookingSince(w: World, w': World) {
    Grew(w, w') && forall i :: |w.log| <= i < |w'.log| ==> Looking(w'.log[i])
  }

  /** Nothing but link states, the clock and the journal differs. */
  predicate OnlyLinks(w: World, w': World) {
    && w'.eths == w.eths && w'.addrs == w.addrs && w'.dhclient == w.dhclient
    && w'.route == w.route && w'.dhcpd == w.dhcpd
    && w.adminUp <= w'.adminUp
  }

  lemma QuietTrans(a: World, b: World, c: World)
    requires QuietSince(a, b) && QuietSince(b, c)
    ensures QuietSince(a, c)
  {}

  lemma LookingTrans(a: World, b: World, c: World)
    requires LookingSince(a, b) && LookingSince(b, c)
    ensures LookingSince(a, c)
  {}

  lemma NoteLooking(w: World, env: Env, op: Op)
    requires Looking(op)
    ensures LookingSince(w, Note(w, env, op))
  {}

  lemma {:induction false} UpAllFrame(w: World, env: Env, names: seq<string>)
    ensures OnlyLinks(w, UpAll(w, env, names)) && LookingSince(w, UpAll(w, env, names))
    ensures UpAll(w, env, names).adminUp <= w.adminUp + Elements(names)
    decreases |names|
  {
    if names != [] {
      var w1 := BringUp(w, env, names[0]).w;
      UpAllFrame(w1, env, names[1..]);
      LookingTrans(w, w1, UpAll(w1, env, names[1..]));
    }
  }

  /** Polls still to come: one now, and one for each 200 ms left before the deadline. */
  function PollBound(now: nat, deadline: nat): nat {
    1 + if now < deadline then (deadline - now + AUTO_CARRIER_POLL_MS - 1) / AUTO_CARRIER_POLL_MS else 0
  }

  /** Number of carrier reads over the whole list in a journal. */
  function Scans(log: seq<Op>): nat {
    if log == [] then 0 else Scans(log[..|log| - 1]) + if log[|log| - 1].Scan? then 1 else 0
  }

  lemma ScansNote(w: World, env: Env, op: Op)
    ensures Scans(Note(w, env, op).log) == Scans(w.log) + if op.Scan? then 1 else 0
  {}

  lemma {:induction false} PollFrame(w: World, env: Env, names: seq<string>, deadline: nat)
    ensures var q := Poll(w, env, names, deadline);
            OnlyLinks(w, q.w) && q.w.adminUp == w.adminUp && LookingSince(w, q.w) && |q.w.log| > |w.log|
    decreases if w.now < deadline then deadline - w.now else 0
  {
    var p := FirstCarrier(w, env, names);
    var w1 := Note(w, env, Scan(p));
    if !(p.Some? || w1.now >= deadline) {
      PollFrame(Snooze(w1, env), env, names, deadline);
    }
  }

  /** The loop reads carrier at most once per 200 ms, whatever else takes time. */
  lemma {:induction false} PollIsBounded(w: World, env: Env, names: seq<string>, deadline: nat)
    ensures Scans(Poll(w, env, names, deadline).w.log) <= Scans(w.log) + PollBound(w.now, deadline)
    decreases if w.now < deadline then deadline - w.now else 0
  {
    var p := FirstCarrier(w, env, names);
    var w1 := Note(w, env, Scan(p));
    PollReads(w, env, p);
    if !(p.Some? || w1.now >= deadline) {
      PollIsBounded(Snooze(w1, env), env, names, deadline);
      BoundDrops(w.now, Snooze(w1, env).now, deadline);
    }
  }

  /** One round of the loop is one read, and the sleep after it takes 200 ms or more. */
  lemma PollReads(w: World, env: Env, p: Option<string>)
    ensures var w1 := Note(w, env, Scan(p));
            && Scans(w1.log) == Scans(w.log) + 1
            && Scans(Snooze(w1, env).log) == Scans(w1.log)
            && Snooze(w1, env).now >= w.now + AUTO_CARRIER_POLL_MS
  {
    var w1 := Note(w, env, Scan(p));
    ScansNote(w, env, Scan(p));
    ScansNote(w1.(now := w1.now + AUTO_CARRIER_POLL_MS), env, Sleep);
  }

  lemma BoundDrops(now: nat, later: nat, deadline: nat)
    requires later >= now + AUTO_CARRIER_POLL_MS && now < deadline
    ensures PollBound(later, deadline) + 1 <= PollBound(now, deadline)
  {}

  /** The last entry is the deciding read, and the answer is what that read showed. */
  lemma {:induction false} PollDecides(w: World, env: Env, names: seq<string>, deadline: nat)
    ensures var q := Poll(w, env, names, deadline);
            && |q.w.log| > 0
            && var at := q.w.(log := q.w.log[..|q.w.log| - 1]);
            q.found == FirstCarrier(at, env, names)
    decreases if w.now < deadline then deadline - w.now else 0
  {
    var p := FirstCarrier(w, env, names);
    var w1 := Note(w, env, Scan(p));
    if p.Some? || w1.now >= deadline {
      assert w1.log[..|w1.log| - 1] == w.log;
      SameRead(w, w1.(log := w.log), env, names);
    } else {
      PollDecides(Snooze(w1, env), env, names, deadline);
    }
  }

  lemma {:induction false} SameRead(a: World, b: World, env: Env, names: seq<string>)
    requires |a.log| == |b.log| && a.adminUp == b.adminUp
    ensures FirstCarrier(a, env, names) == FirstCarrier(b, env, names)
  {
    if names != [] { SameRead(a, b, env, names[1..]); }
  }

  /** Names of a list that show carrier when `k` operations have been journalled. */
  function Lit(names: seq<string>, up: set<string>, env: Env, k: nat): set<string> {
    set n | n in names && n in up && env.plugged(k, n)
  }

  lemma {:induction false} FirstCarrierIsLeast(w: World, env: Env, names: seq<string>)
    requires Sorted(names)
    ensures var lit := Lit(names, w.adminUp, env, |w.log|);
            match FirstCarrier(w, env, names)
            case None => lit == {}
            case Some(p) => Least(p, lit)
  {
    if names != [] {
      var rest := names[1..];
      FirstCarrierIsLeast(w, env, rest);
      if Carrier(w, env, names[0]) {
        forall m | m in Lit(names, w.adminUp, env, |w.log|) ensures m == names[0] || Less(names[0], m) {
          var i :| 0 <= i < |names| && names[i] == m;
        }
      } else {
        assert Lit(names, w.adminUp, env, |w.log|) == Lit(rest, w.adminUp, env, |w.log|) by {
          assert names == [names[0]] + rest;
        }
      }
    }
  }

  lemma UpAndPollFrame(w: World, env: Env)
    ensures var q := UpAndPoll(w, env);
            && OnlyLinks(w, q.w) && LookingSince(w, q.w) && |q.w.log| > |w.log|
            && q.w.adminUp <= w.adminUp + Elements(w.eths)
            && (q.found.Some? ==> q.found.value in w.eths)
  {
    var w3 := UpAll(w, env, w.eths);
    var deadline := w3.now + AUTO_CARRIER_WAIT_MS;
    UpAllFrame(w, env, w.eths);
    PollFrame(w3, env, w.eths, deadline);
    PollDecides(w3, env, w.eths, deadline);
    LookingTrans(w, w3, UpAndPoll(w, env).w);
  }

  /** Resolving touches nothing but links, only brings them up, and yields a listed interface. */
  lemma ResolveFrame(w: World, env: Env, configured: Option<string>, live: bool)
    ensures var r := ResolveIface(w, env, configured, live);
            && OnlyLinks(w, r.w) && LookingSince(w, r.w)
            && r.w.adminUp <= w.adminUp + Elements(w.eths)
            && (!live ==> r.w.adminUp == w.adminUp)
            && (r.result.Ok? ==> r.result.value in w.eths)
  {
    if IsAuto(configured) {
      var ok := Cmd(w, env) == Worked;
      var w1 := Note(w, env, ListEth(ok));
      NoteLooking(w, env, ListEth(ok));
      if ok && w.eths != [] {
        var p := FirstCarrier(w1, env, w.eths);
        var w2 := Note(w1, env, Scan(p));
        NoteLooking(w1, env, Scan(p));
        LookingTrans(w, w1, w2);
        if p.None? && live {
          UpAndPollFrame(w2, env);
          LookingTrans(w, w2, UpAndPoll(w2, env).w);
        }
      }
    }
  }

  /**
   * The automatic choice. Carrier at the first read: the least such name, and no link is touched. Otherwise
   * the least name with carrier at the read that ended the polling, or the least name of all; the polling
   * loop reads carrier at most 26 times.
   */
  lemma AutoPickIsLeast(w: World, env: Env)
    requires Sorted(w.eths) && w.eths != [] && Cmd(w, env) == Worked
    ensures
      var r := ResolveAuto(w, env, true);
      var first := Lit(w.eths, w.adminUp, env, |w.log| + 1);
      && r.result.Ok?
      && (first != {} ==> Least(r.result.value, first) && r.w.adminUp == w.adminUp)
      && (first == {} ==>
            && |r.w.log| > 0
            && LeastOrFirst(r.result.value, Lit(w.eths, r.w.adminUp, env, |r.w.log| - 1), w.eths)
            && Scans(r.w.log) <= Scans(w.log) + 1 + 26)
  {
    var w1 := Note(w, env, ListEth(true));
    FirstCarrierIsLeast(w1, env, w.eths);
    if FirstCarrier(w1, env, w.eths).None? {
      var w2 := Note(w1, env, Scan(None));
      ScansNote(w, env, ListEth(true));
      ScansNote(w1, env, Scan(None));
      PolledIsLeast(w2, env);
      PolledIsShort(w2, env);
    }
  }

  /** The least name with carrier, or the least name when none has any. */
  predicate LeastOrFirst(n: string, lit: set<string>, names: seq<string>) {
    if lit != {} then Least(n, lit) else Least(n, Elements(names))
  }

  lemma PolledIsLeast(w: World, env: Env)
    requires Sorted(w.eths) && w.eths != []
    ensures var q := UpAndPoll(w, env);
            && |q.w.log| > 0
            && LeastOrFirst(if q.found.Some? then q.found.value else w.eths[0],
                            Lit(w.eths, q.w.adminUp, env, |q.w.log| - 1), w.eths)
  {
    var w1 := UpAll(w, env, w.eths);
    PollDecides(w1, env, w.eths, w1.now + AUTO_CARRIER_WAIT_MS);
    DecidingReadIsLeast(UpAndPoll(w, env), env, w.eths);
  }

  lemma DecidingReadIsLeast(q: Polled, env: Env, names: seq<string>)
    requires Sorted(names) && names != [] && |q.w.log| > 0
    requires q.found == FirstCarrier(q.w.(log := q.w.log[..|q.w.log| - 1]), env, names)
    ensures LeastOrFirst(if q.found.Some? then q.found.value else names[0],
                         Lit(names, q.w.adminUp, env, |q.w.log| - 1), names)
  {
    FirstCarrierIsLeast(q.w.(log := q.w.log[..|q.w.log| - 1]), env, names);
    FirstIsLeast(names);
  }

  lemma PolledIsShort(w: World, env: Env)
    ensures Scans(UpAndPoll(w, env).w.log) <= Scans(w.log) + 26
  {
    var w1 := UpAll(w, env, w.eths);
    UpAllScans(w, env, w.eths);
    PollIsBounded(w1, env, w.eths, w1.now + AUTO_CARRIER_WAIT_MS);
  }

  lemma FirstIsLeast(names: seq<string>)
    requires Sorted(names) && names != []
    ensures Least(names[0], Elements(names))
  {}

  lemma {:induction false} UpAllScans(w: World, env: Env, names: seq<string>)
    ensures Scans(UpAll(w, env, names).log) == Scans(w.log)
    decreases |names|
  {
    if names != [] {
      var ok := Cmd(w, env) == Worked;
      if names[0] !in w.adminUp {
        ScansNote(w.(adminUp := if ok then w.adminUp + {names[0]} else w.adminUp), env, LinkUp(names[0], ok));
      }
      UpAllScans(BringUp(w, env, names[0]).w, env, names[1..]);
    }
  }

  // ----- Bringing up, and waiting -----

  /** The host when every candidate has been brought up, before the first polling read. */
  function BroughtUp(w: World, env: Env): World {
    UpAll(Note(Note(w, env, ListEth(true)), env, Scan(None)), env, w.eths)
  }

  /** Every link that was down is tried, and it is up if that worked. */
  predicate Tried(w: World, w': World, n: string) {
    && (n !in w.adminUp ==> exists i :: |w.log| <= i < |w'.log| && w'.log[i].LinkUp? && w'.log[i].name == n)
    && (n in w'.adminUp <==>
          n in w.adminUp || exists i :: |w.log| <= i < |w'.log| && w'.log[i] == LinkUp(n, true))
  }

  lemma {:induction false} UpAllTries(w: World, env: Env, names: seq<string>, n: string)
    ensures var w' := UpAll(w, env, names);
            && (n in names ==> Tried(w, w', n))
            && (n !in names ==> (n in w'.adminUp <==> n in w.adminUp))
            && (n !in names ==> forall i :: |w.log| <= i < |w'.log| && w'.log[i].LinkUp? ==> w'.log[i].name != n)
            && Grew(w, w')
    decreases |names|
  {
    if names != [] {
      var w1 := BringUp(w, env, names[0]).w;
      var w' := UpAll(w1, env, names[1..]);
      UpAllTries(w1, env, names[1..], n);
      assert names == [names[0]] + names[1..];
      assert forall i :: |w.log| <= i < |w1.log| ==> w'.log[i] == w1.log[i];
      OneTried(w, env, names[0], n);
      TriedTwice(w, w1, w', n, n == names[0], n in names[1..]);
    }
  }

  lemma OneTried(w: World, env: Env, name: string, n: string)
    ensures var w1 := BringUp(w, env, name).w;
            && Grew(w, w1) && (n == name ==> Tried(w, w1, n))
            && (n != name ==> (n in w1.adminUp <==> n in w.adminUp))
            && (n != name ==> forall i :: |w.log| <= i < |w1.log| && w1.log[i].LinkUp? ==> w1.log[i].name != n)
  {
    var w1 := BringUp(w, env, name).w;
    if name !in w.adminUp {
      assert w1.log[|w.log|] == LinkUp(name, Cmd(w, env) == Worked);
    }
  }

  lemma TriedTwice(w: World, w1: World, w': World, n: string, first: bool, later: bool)
    requires Grew(w, w1) && Grew(w1, w')
    requires if first then Tried(w, w1, n) else (n in w1.adminUp <==> n in w.adminUp)
    requires if later then Tried(w1, w', n) else (n in w'.adminUp <==> n in w1.adminUp)
    requires !first ==> forall i :: |w.log| <= i < |w1.log| && w1.log[i].LinkUp? ==> w1.log[i].name != n
    requires !later ==> forall i :: |w1.log| <= i < |w'.log| && w'.log[i].LinkUp? ==> w'.log[i].name != n
    ensures first || later ==> Tried(w, w', n)
    ensures !first && !later ==> (n in w'.adminUp <==> n in w.adminUp)
    ensures !first && !later ==> forall i :: |w.log| <= i < |w'.log| && w'.log[i].LinkUp? ==> w'.log[i].name != n
  {
    assert forall i :: |w.log| <= i < |w1.log| ==> w'.log[i] == w1.log[i];
  }

  lemma {:induction false} PollWaits(w: World, env: Env, names: seq<string>, deadline: nat)
    ensures var q := Poll(w, env, names, deadline); q.found.None? ==> q.w.now >= deadline
    decreases if w.now < deadline then deadline - w.now else 0
  {
    var p := FirstCarrier(w, env, names);
    var w1 := Note(w, env, Scan(p));
    if !(p.Some? || w1.now >= deadline) { PollWaits(Snooze(w1, env), env, names, deadline); }
  }

  /**
   * Without carrier at the first read, every link that is down is brought up, as far as the commands work, and
   * the fallback to the first name is taken only after a read that ended 5 s or more after that.
   */
  lemma {:induction false} FallbackIsLate(w: World, env: Env)
    requires w.eths != [] && Cmd(w, env) == Worked && Lit(w.eths, w.adminUp, env, |w.log| + 1) == {}
    ensures var up := BroughtUp(w, env);
            var r := ResolveAuto(w, env, true);
            && (forall n :: n in w.eths ==> Tried(w, up, n))
            && r.w.adminUp == up.adminUp && Grew(up, r.w) && |r.w.log| > |up.log|
            && (Lit(w.eths, up.adminUp, env, |r.w.log| - 1) == {} ==> r.w.now - up.now >= 5000)
  {
    var w2 := Note(Note(w, env, ListEth(true)), env, Scan(None));
    var up := BroughtUp(w, env);
    NothingLit(Note(w, env, ListEth(true)), env, w.eths);
    forall n | n in w.eths ensures Tried(w, up, n) {
      UpAllTries(w2, env, w.eths, n);
      TriedSince(w, w2, up, n);
    }
    var deadline := up.now + AUTO_CARRIER_WAIT_MS;
    var q := Poll(up, env, w.eths, deadline);
    PollFrame(up, env, w.eths, deadline);
    PollWaits(up, env, w.eths, deadline);
    PollDecides(up, env, w.eths, deadline);
    if q.found.Some? {
      assert Carrier(q.w.(log := q.w.log[..|q.w.log| - 1]), env, q.found.value);
      assert q.found.value in Lit(w.eths, up.adminUp, env, |q.w.log| - 1);
    }
  }

  lemma NothingLit(w: World, env: Env, names: seq<string>)
    requires Lit(names, w.adminUp, env, |w.log|) == {}
    ensures FirstCarrier(w, env, names).None?
  {
    assert forall n :: n in names && Carrier(w, env, n) ==> n in Lit(names, w.adminUp, env, |w.log|);
  }

  lemma TriedSince(w: World, w2: World, up: World, n: string)
    requires Grew(w, w2) && Grew(w2, up) && w2.adminUp == w.adminUp && Tried(w2, up, n)
    requires forall i :: |w.log| <= i < |w2.log| ==> !w2.log[i].LinkUp?
    ensures Tried(w, up, n)
  {
    assert forall i :: |w.log| <= i < |w2.log| ==> up.log[i] == w2.log[i];
  }

  /** No carrier anywhere, ever, and operations that take no time. */
  ghost predicate Dark(env: Env) {
    (forall k, n :: !env.plugged(k, n)) && forall k :: env.took(k) == 0
  }

  lemma DarkRead(w: World, env: Env, names: seq<string>)
    requires Dark(env)
    ensures FirstCarrier(w, env, names).None?
  {}

  lemma {:induction false} DarkPoll(w: World, env: Env, names: seq<string>, m: nat)
    requires Dark(env)
    ensures var q := Poll(w, env, names, w.now + 200 * m);
            q.w.now == w.now + 200 * m && Scans(q.w.log) == Scans(w.log) + m + 1
    decreases m
  {
    DarkRead(w, env, names);
    var w1 := Note(w, env, Scan(None));
    PollReads(w, env, None);
    if m > 0 { DarkPoll(Snooze(w1, env), env, names, m - 1); }
  }

  /** The loop's two constants: in the dark, links up, it reads 26 times, every 200 ms for 5 s. */
  lemma {:induction false} DarkResolve(w: World, env: Env)
    requires Dark(env) && w.eths != [] && Cmd(w, env) == Worked && forall n :: n in w.eths ==> n in w.adminUp
    ensures var r := ResolveAuto(w, env, true);
            && r.result == Ok(w.eths[0]) && r.w.now == w.now + 5000 && Scans(r.w.log) == Scans(w.log) + 1 + 26
  {
    var w1 := Note(w, env, ListEth(true));
    var w2 := Note(w1, env, Scan(None));
    DarkRead(w1, env, w.eths);
    ScansNote(w, env, ListEth(true));
    ScansNote(w1, env, Scan(None));
    AllUp(w2, env, w.eths);
    DarkPoll(w2, env, w.eths, 25);
    DarkFindsNone(w2, env, w.eths, w2.now + 5000);
  }

  lemma DarkFindsNone(w: World, env: Env, names: seq<string>, deadline: nat)
    requires Dark(env)
    ensures Poll(w, env, names, deadline).found.None?
  {
    PollDecides(w, env, names, deadline);
    var q := Poll(w, env, names, deadline);
    DarkRead(q.w.(log := q.w.log[..|q.w.log| - 1]), env, names);
  }

  lemma {:induction false} AllUp(w: World, env: Env, names: seq<string>)
    requires forall n :: n in names ==> n in w.adminUp
    ensures UpAll(w, env, names) == w
    decreases |names|
  {
    if names != [] { AllUp(w, env, names[1..]); }
  }
}
