/** When scans run: the poller's plan of full and light passes (collector/src/collector/poller.py,
  * `tick`), the scan lock and the cooldown floor (scan.py, `run_scan`), and the queries on
  * `scan_runs` behind both (db.py, `recent_network_scan`). Times are whole seconds.
  */
module ScanCadence {
  import opened Common

  type Net = string

  datatype Config = Config(rescan: nat, capture: nat, cooldown: nat)

  /** What the poller sees of an interface; `net` is absent while it has no stable network. */
  datatype Iface = Iface(name: string, usable: bool, excluded: bool, net: Option<Net>)

  /** A row of `scan_runs`. `light` and `forced` are how the scan was run; the queries read only
    * the network, the start, the trigger and whether it completed without error.
    */
  datatype Row = Row(net: Option<Net>, startedAt: int, trigger: string, light: bool, forced: bool, succeeded: bool)

  datatype Job = Job(name: string, trigger: string, light: bool, net: Option<Net>)

  /** What a scan meets: the interface as it is now, the time of its cooldown query, how much
    * later its row is written, and whether it will complete.
    */
  datatype Chance = Chance(found: Option<Iface>, checkedAt: int, delay: nat, ok: bool)

  /** `running` is the row of the process holding the scan lock. */
  datatype World = World(rows: seq<Row>, plan: seq<Job>, running: Option<nat>)

  predicate Matches(r: Row, net: Net, after: int, excludeCapture: bool, requireSuccess: bool) {
    && r.net == Some(net)
    && r.startedAt > after
    && (requireSuccess ==> r.succeeded)
    && (excludeCapture ==> r.trigger != "capture")
  }

  predicate Recent(rows: seq<Row>, net: Net, within: nat, now: int, excludeCapture: bool, requireSuccess: bool) {
    exists r :: r in rows && Matches(r, net, now - within, excludeCapture, requireSuccess)
  }

  function Decide(cfg: Config, rows: seq<Row>, st: Iface, at: int): Option<Job> {
    if !st.usable || st.excluded then None
    else if st.net.None? then Some(Job(st.name, "link_up", false, None))
    else if !Recent(rows, st.net.value, cfg.rescan, at, true, true) then
      Some(Job(st.name, "periodic", false, st.net))
    else if cfg.capture > 0 && !Recent(rows, st.net.value, cfg.capture, at, false, true) then
      Some(Job(st.name, "capture", true, st.net))
    else None
  }

  datatype Event =
    | Plan(st: Iface, at: int)                // the poller decides about one interface
    | RunNext(c: Chance)                      // the poller runs the next job of its plan
    | Manual(c: Chance, trigger: string)      // a forced scan, from the command line or the dashboard
    | Finish(ok: bool)                        // the running scan ends; a killed one never completes
    | Restart                                 // the poller loses its plan

  ghost predicate Sound(w: World) {
    w.running.Some? ==> w.running.value < |w.rows| && !w.rows[w.running.value].succeeded
  }

  /** Whether `run_scan` gets past the lock, the interface checks and the cooldown. */
  predicate Starts(cfg: Config, w: World, c: Chance, forced: bool) {
    && w.running.None?
    && c.found.Some? && c.found.value.usable
    && (forced || c.found.value.net.None?
        || !Recent(w.rows, c.found.value.net.value, cfg.cooldown, c.checkedAt, false, false))
  }

  function Scan(cfg: Config, w: World, c: Chance, trigger: string, light: bool, forced: bool): World {
    if Starts(cfg, w, c, forced) then
      w.(rows := w.rows + [Row(c.found.value.net, c.checkedAt + c.delay, trigger, light, forced, false)],
         running := Some(|w.rows|))
    else w
  }

  function Finished(w: World, ok: bool): (w': World)
    requires Sound(w)
    ensures w'.running.None? && |w'.rows| == |w.rows|
  {
    if w.running.None? then w
    else
      var i := w.running.value;
      w.(rows := w.rows[i := w.rows[i].(succeeded := ok)], running := None)
  }

  function Step(cfg: Config, w: World, e: Event): (w': World)
    requires Sound(w)
    ensures Sound(w') && |w.rows| <= |w'.rows|
  {
    match e
    case Plan(st, at) =>
      var job := Decide(cfg, w.rows, st, at);
      w.(plan := if job.Some? then w.plan + [job.value] else w.plan)
    case RunNext(c) =>
      if w.plan == [] then w
      else Scan(cfg, w.(plan := w.plan[1..]), c, w.plan[0].trigger, w.plan[0].light, false)
    case Manual(c, trigger) => Scan(cfg, w, c, trigger, false, true)
    case Finish(ok) => Finished(w, ok)
    case Restart => w.(plan := [])
  }

  function Run(cfg: Config, w: World, es: seq<Event>): (w': World)
    requires Sound(w)
    ensures Sound(w') && |w.rows| <= |w'.rows|
    decreases |es|
  {
    if es == [] then w else Run(cfg, Step(cfg, w, es[0]), es[1..])
  }

  // --- the cooldown floor -------------------------------------------------------------------

  /** Every unforced attempt on a network starts at least `cooldown` after every attempt on it
    * before, completed or not, forced or not.
    */
  ghost predicate Spaced(rows: seq<Row>, cooldown: nat) {
    forall i, j :: 0 <= i < j < |rows| && rows[i].net == rows[j].net && rows[j].net.Some? && !rows[j].forced ==>
      rows[i].startedAt + cooldown <= rows[j].startedAt
  }

  lemma ScanSpaced(cfg: Config, w: World, c: Chance, trigger: string, light: bool, forced: bool)
    requires Spaced(w.rows, cfg.cooldown)
    ensures Spaced(Scan(cfg, w, c, trigger, light, forced).rows, cfg.cooldown)
  {
    var w' := Scan(cfg, w, c, trigger, light, forced);
    if Starts(cfg, w, c, forced) {
      var last := |w.rows|;
      forall i | 0 <= i < last && w'.rows[i].net == w'.rows[last].net && w'.rows[last].net.Some? && !forced
        ensures w'.rows[i].startedAt + cfg.cooldown <= w'.rows[last].startedAt
      {
        assert w'.rows[i] == w.rows[i] && w.rows[i] in w.rows;
        assert !Matches(w.rows[i], c.found.value.net.value, c.checkedAt - cfg.cooldown, false, false);
      }
    }
  }

  /** The floor holds over every run, whatever the clock does between the scans. */
  lemma {:induction false} AttemptsAreSpaced(cfg: Config, w: World, es: seq<Event>)
    requires Sound(w) && Spaced(w.rows, cfg.cooldown)
    ensures Spaced(Run(cfg, w, es).rows, cfg.cooldown)
    decreases |es|
  {
    if es != [] {
      hide Scan;
      match es[0] {
        case RunNext(c) =>
          if w.plan != [] {
            ScanSpaced(cfg, w.(plan := w.plan[1..]), c, w.plan[0].trigger, w.plan[0].light, false);
          }
        case Manual(c, trigger) => ScanSpaced(cfg, w, c, trigger, false, true);
        case _ =>
      }
      AttemptsAreSpaced(cfg, Step(cfg, w, es[0]), es[1..]);
    }
  }

  // --- light passes do not starve the full scan -----------------------------------------------

  /** No full scan of `net` that started within the rescan interval before `since`, or later, has
    * succeeded: a full scan of it is due at every time from `since` on.
    */
  ghost predicate Overdue(rows: seq<Row>, net: Net, since: int, cfg: Config) {
    forall i :: 0 <= i < |rows| ==> !Matches(rows[i], net, since - cfg.rescan, true, true)
  }

  lemma OverdueIff(rows: seq<Row>, net: Net, since: int, cfg: Config)
    ensures Overdue(rows, net, since, cfg)
            <==> forall at :: at >= since ==> !Recent(rows, net, cfg.rescan, at, true, true)
  {
    if Overdue(rows, net, since, cfg) {
      forall at | at >= since
        ensures !Recent(rows, net, cfg.rescan, at, true, true)
      {
        forall r | r in rows
          ensures !Matches(r, net, at - cfg.rescan, true, true)
        {
          var i :| 0 <= i < |rows| && rows[i] == r;
          assert !Matches(rows[i], net, since - cfg.rescan, true, true);
        }
      }
    } else {
      var i :| 0 <= i < |rows| && Matches(rows[i], net, since - cfg.rescan, true, true);
      assert rows[i] in rows;
      assert Recent(rows, net, cfg.rescan, since, true, true);
    }
  }

  /** A successful scan is never taken back, so what is overdue now was overdue before. */
  lemma OverdueBefore(cfg: Config, w: World, e: Event, net: Net, since: int)
    requires Sound(w) && Overdue(Step(cfg, w, e).rows, net, since, cfg)
    ensures Overdue(w.rows, net, since, cfg)
  {
    var w' := Step(cfg, w, e);
    forall i | 0 <= i < |w.rows|
      ensures !Matches(w.rows[i], net, since - cfg.rescan, true, true)
    {
      assert !Matches(w'.rows[i], net, since - cfg.rescan, true, true);
    }
  }

  // --- what a tick plans, told by what was scanned --------------------------------------------

  /** A full scan that an operator gave the reason "capture", which is what light passes are named. */
  predicate Misnamed(r: Row) {
    !r.light && r.forced && r.trigger == "capture"
  }

  /** The poller names its light passes, and only those, "capture"; an operator's scans are full. */
  ghost predicate Labelled(w: World) {
    && (forall k :: 0 <= k < |w.plan| ==> (w.plan[k].light <==> w.plan[k].trigger == "capture"))
    && (forall i :: 0 <= i < |w.rows| ==> LabelledRow(w.rows[i]))
  }

  predicate LabelledRow(r: Row) {
    if r.forced then !r.light else r.light <==> r.trigger == "capture"
  }

  lemma {:induction false} RunLabelled(cfg: Config, w: World, es: seq<Event>)
    requires Sound(w) && Labelled(w)
    ensures Labelled(Run(cfg, w, es))
    decreases |es|
  {
    if es != [] {
      StepLabelled(cfg, w, es[0]);
      hide Labelled, Step;
      RunLabelled(cfg, Step(cfg, w, es[0]), es[1..]);
    }
  }

  lemma StepLabelled(cfg: Config, w: World, e: Event)
    requires Sound(w) && Labelled(w)
    ensures Labelled(Step(cfg, w, e))
  {
    hide Recent;
  }

  /** Row `i` is a full scan of `net` that succeeded and started after `after`, and counts as one. */
  ghost predicate FullAt(rows: seq<Row>, i: nat, net: Net, after: int) {
    && i < |rows| && rows[i].net == Some(net) && rows[i].succeeded && rows[i].startedAt > after
    && !rows[i].light && !Misnamed(rows[i])
  }

  ghost predicate FullSince(rows: seq<Row>, net: Net, after: int) {
    exists i: nat :: FullAt(rows, i, net, after)
  }

  /** A scan of `net`, full or light, that started after `after` has succeeded. */
  ghost predicate SampledSince(rows: seq<Row>, net: Net, after: int) {
    exists i: nat :: i < |rows| && rows[i].net == Some(net) && rows[i].succeeded && rows[i].startedAt > after
  }

  lemma GatesRead(rows: seq<Row>, net: Net, within: nat, at: int)
    requires forall i :: 0 <= i < |rows| ==> LabelledRow(rows[i])
    ensures Recent(rows, net, within, at, true, true) <==> FullSince(rows, net, at - within)
    ensures Recent(rows, net, within, at, false, true) <==> SampledSince(rows, net, at - within)
  {
    if FullSince(rows, net, at - within) {
      var i: nat :| FullAt(rows, i, net, at - within);
      assert rows[i] in rows && Matches(rows[i], net, at - within, true, true);
    }
    if Recent(rows, net, within, at, true, true) {
      var r :| r in rows && Matches(r, net, at - within, true, true);
      var i: nat :| i < |rows| && rows[i] == r;
      assert FullAt(rows, i, net, at - within);
    }
    if SampledSince(rows, net, at - within) {
      var i: nat :| i < |rows| && rows[i].net == Some(net) && rows[i].succeeded && rows[i].startedAt > at - within;
      assert rows[i] in rows && Matches(rows[i], net, at - within, false, true);
    }
    if Recent(rows, net, within, at, false, true) {
      var r :| r in rows && Matches(r, net, at - within, false, true);
      var i: nat :| i < |rows| && rows[i] == r;
      assert rows[i].net == Some(net) && rows[i].succeeded && rows[i].startedAt > at - within;
    }
  }

  /** Over every run, an interface that can be scanned and is not excluded is given a full scan if and
    * only if it has no stable network or no full scan of it started within the rescan interval has
    * succeeded; a light pass if and only if one has, light passes are on, and no scan of either kind
    * started within the capture interval has. Light passes are never among the full scans counted.
    */
  lemma WhatIsPlanned(cfg: Config, w: World, es: seq<Event>, st: Iface, at: int)
    requires Sound(w) && Labelled(w)
    ensures var rows := Run(cfg, w, es).rows;
            var job := Decide(cfg, rows, st, at);
            var open := st.usable && !st.excluded;
            var full := open && (st.net.None? || !FullSince(rows, st.net.value, at - cfg.rescan));
            && (job.Some? && !job.value.light <==> full)
            && (job.Some? && job.value.light <==>
                  open && !full && cfg.capture > 0 && !SampledSince(rows, st.net.value, at - cfg.capture))
            && (job.Some? ==> job.value.name == st.name && job.value.net == st.net
                              && (st.net.None? <==> job.value.trigger == "link_up"))
  {
    RunLabelled(cfg, w, es);
    var rows := Run(cfg, w, es).rows;
    if st.net.Some? {
      GatesRead(rows, st.net.value, cfg.rescan, at);
      GatesRead(rows, st.net.value, cfg.capture, at);
    }
    hide Run, Recent, FullSince, SampledSince;
  }

  /** A job of the plan that gets to run ends the debt of its network if and only if it is a full scan,
    * it succeeds, and it starts late enough.
    */
  lemma ScanEndsDebtIff(cfg: Config, w: World, c: Chance, ok: bool, net: Net, since: int)
    requires Sound(w) && Labelled(w) && Overdue(w.rows, net, since, cfg)
    requires w.plan != [] && Starts(cfg, w, c, false) && c.found.value.net == Some(net)
    ensures var w' := Run(cfg, w, [RunNext(c), Finish(ok)]);
            !Overdue(w'.rows, net, since, cfg)
            <==> !w.plan[0].light && ok && c.checkedAt + c.delay > since - cfg.rescan
  {
    hide Recent;
    var es := [RunNext(c), Finish(ok)];
    assert es[1..] == [Finish(ok)] && es[1..][1..] == [];
    var w1 := Step(cfg, w, es[0]);
    var w2 := Step(cfg, w1, es[1]);
    assert Run(cfg, w, es) == w2 by {
      assert Run(cfg, w1, es[1..]) == Run(cfg, w2, []);
    }
    var n := |w.rows|;
    assert forall i :: 0 <= i < n ==> w2.rows[i] == w.rows[i];
    assert w2.rows[n] == Row(Some(net), c.checkedAt + c.delay, w.plan[0].trigger, w.plan[0].light, false, ok);
  }

  /** And a full scan from a plan that succeeds counts: whatever happens afterwards, no further full scan
    * of the network is planned within the rescan interval of its start.
    */
  lemma FullScanCounts(cfg: Config, w: World, c: Chance, es: seq<Event>, st: Iface, at: int)
    requires Sound(w) && Labelled(w) && w.plan != [] && !w.plan[0].light
    requires Starts(cfg, w, c, false) && st.net.Some? && c.found.value.net == st.net
    requires at < c.checkedAt + c.delay + cfg.rescan
    ensures var w' := Run(cfg, Run(cfg, w, [RunNext(c), Finish(true)]), es);
            Decide(cfg, w'.rows, st, at).Some? ==> Decide(cfg, w'.rows, st, at).value.light
  {
    var net := st.net.value;
    var w1 := Run(cfg, w, [RunNext(c), Finish(true)]);
    if Overdue(w.rows, net, at, cfg) {
      ScanEndsDebtIff(cfg, w, c, true, net, at);
    } else if Overdue(w1.rows, net, at, cfg) {
      OverdueThroughout(cfg, w, [RunNext(c), Finish(true)], net, at);
    }
    var w' := Run(cfg, w1, es);
    if Overdue(w'.rows, net, at, cfg) {
      OverdueThroughout(cfg, w1, es, net, at);
    }
    var i :| 0 <= i < |w'.rows| && Matches(w'.rows[i], net, at - cfg.rescan, true, true);
    assert w'.rows[i] in w'.rows;
  }

  /** An operator's full scan with the reason "capture" does not count, although it succeeded. */
  lemma MisnamedScanDoesNotCount()
    ensures var cfg := Config(3600, 900, 300);
            var eth0 := Iface("eth0", true, false, Some("a"));
            var w := Run(cfg, World([], [], None), [Manual(Chance(Some(eth0), 1000, 0, true), "capture"), Finish(true)]);
            && w.rows == [Row(Some("a"), 1000, "capture", false, true, true)] && Misnamed(w.rows[0])
            && Decide(cfg, w.rows, eth0, 1030) == Some(Job("eth0", "periodic", false, Some("a")))
  {
    var cfg := Config(3600, 900, 300);
    var eth0 := Iface("eth0", true, false, Some("a"));
    var w0 := World([], [], None);
    var es := [Manual(Chance(Some(eth0), 1000, 0, true), "capture"), Finish(true)];
    assert es[1..] == [Finish(true)] && es[1..][1..] == [];
    var w1 := Step(cfg, w0, es[0]);
    var w2 := Step(cfg, w1, es[1]);
    assert Run(cfg, w1, es[1..]) == Run(cfg, w2, []);
  }

  /** One scan at a time: until the running scan ends no row is added, whatever is planned or forced. */
  lemma {:induction false} OneScanAtATime(cfg: Config, w: World, es: seq<Event>)
    requires Sound(w) && w.running.Some? && forall i :: 0 <= i < |es| ==> !es[i].Finish?
    ensures Run(cfg, w, es).rows == w.rows && Run(cfg, w, es).running == w.running
    decreases |es|
  {
    hide Decide;
    if es != [] {
      OneScanAtATime(cfg, Step(cfg, w, es[0]), es[1..]);
    }
  }

  // --- no light pass while a full scan is due -------------------------------------------------

  /** A light pass planned for another network starts on `net`, to which its interface has moved. */
  predicate StraysAt(cfg: Config, w: World, e: Event, net: Net) {
    && e.RunNext? && w.plan != [] && w.plan[0].light && w.plan[0].net != Some(net)
    && Starts(cfg, w, e.c, false) && e.c.found.value.net == Some(net)
  }

  ghost predicate Strays(cfg: Config, w: World, es: seq<Event>, net: Net)
    requires Sound(w)
    decreases |es|
  {
    es != [] && (StraysAt(cfg, w, es[0], net) || Strays(cfg, Step(cfg, w, es[0]), es[1..], net))
  }

  /** Decisions are taken at `since` or later. */
  ghost predicate DecidesFrom(es: seq<Event>, since: int) {
    forall i :: 0 <= i < |es| && es[i].Plan? ==> es[i].at >= since
  }

  ghost predicate PlanFull(w: World, net: Net) {
    forall k :: 0 <= k < |w.plan| && w.plan[k].net == Some(net) ==> !w.plan[k].light
  }

  ghost predicate RowsFull(rows: seq<Row>, net: Net, base: nat) {
    forall i :: base <= i < |rows| && rows[i].net == Some(net) ==> !rows[i].light
  }

  /** No light pass of `net` is planned, and none is among the rows from `base` on. */
  ghost predicate FullOnly(w: World, net: Net, base: nat) {
    PlanFull(w, net) && RowsFull(w.rows, net, base)
  }

  lemma StepFullOnly(cfg: Config, w: World, e: Event, net: Net, since: int, base: nat)
    requires Sound(w) && PlanFull(w, net) && base <= |w.rows|
    requires e.Plan? ==> e.at >= since && Overdue(w.rows, net, since, cfg)
    ensures PlanFull(Step(cfg, w, e), net)
    ensures RowsFull(Step(cfg, w, e).rows, net, base) <==> RowsFull(w.rows, net, base) && !StraysAt(cfg, w, e, net)
  {
    if e.Plan? {
      OverdueIff(w.rows, net, since, cfg);
    }
    hide Overdue, Recent;
    var w' := Step(cfg, w, e);
    if StraysAt(cfg, w, e, net) {
      assert w'.rows[|w.rows|].light;
    }
    if !RowsFull(w.rows, net, base) {
      var i :| base <= i < |w.rows| && w.rows[i].net == Some(net) && w.rows[i].light;
      assert w'.rows[i].light && w'.rows[i].net == Some(net);
    }
  }

  /** While a full scan of a network is overdue, none but full scans of it are planned; and none but
    * full scans of it are run, if and only if no interface moves onto it between the planning of a
    * light pass and its start.
    */
  lemma {:induction false} OverdueRunsFullOnly(cfg: Config, w: World, es: seq<Event>, net: Net, since: int, base: nat)
    requires Sound(w) && DecidesFrom(es, since) && PlanFull(w, net) && base <= |w.rows|
    requires Overdue(Run(cfg, w, es).rows, net, since, cfg)
    ensures PlanFull(Run(cfg, w, es), net)
    ensures RowsFull(Run(cfg, w, es).rows, net, base) <==> RowsFull(w.rows, net, base) && !Strays(cfg, w, es, net)
    decreases |es|
  {
    hide Overdue, PlanFull, RowsFull, StraysAt, Step;
    if es != [] {
      OverdueThroughout(cfg, Step(cfg, w, es[0]), es[1..], net, since);
      OverdueBefore(cfg, w, es[0], net, since);
      StepFullOnly(cfg, w, es[0], net, since, base);
      OverdueRunsFullOnly(cfg, Step(cfg, w, es[0]), es[1..], net, since, base);
    }
  }

  lemma {:induction false} OverdueThroughout(cfg: Config, w: World, es: seq<Event>, net: Net, since: int)
    requires Sound(w) && Overdue(Run(cfg, w, es).rows, net, since, cfg)
    ensures Overdue(w.rows, net, since, cfg)
    decreases |es|
  {
    hide Overdue, Step;
    if es != [] {
      OverdueThroughout(cfg, Step(cfg, w, es[0]), es[1..], net, since);
      OverdueBefore(cfg, w, es[0], net, since);
    }
  }

  /** An interface that moves: a light pass planned for network a runs on b, never scanned before. */
  lemma StrayLightPass()
    ensures var cfg := Config(3600, 900, 300);
            var eth0 := Iface("eth0", true, false, Some("b"));
            var w := World([Row(Some("a"), 1000, "periodic", false, false, true)],
                           [Job("eth0", "capture", true, Some("a"))], None);
            var e := RunNext(Chance(Some(eth0), 2001, 0, true));
            && Sound(w) && PlanFull(w, "b") && Strays(cfg, w, [e], "b")
            && Overdue(Step(cfg, w, e).rows, "b", 2000, cfg) && !RowsFull(Step(cfg, w, e).rows, "b", 1)
  {
    var cfg := Config(3600, 900, 300);
    var eth0 := Iface("eth0", true, false, Some("b"));
    var w := World([Row(Some("a"), 1000, "periodic", false, false, true)],
                   [Job("eth0", "capture", true, Some("a"))], None);
    var e := RunNext(Chance(Some(eth0), 2001, 0, true));
    assert StraysAt(cfg, w, e, "b");
    var w' := Step(cfg, w, e);
    assert w'.rows[1].net == Some("b") && w'.rows[1].light;
  }

  /** The scan lock is free and the interface is up on `net`, at least one cooldown after every
    * attempt on `net` among the first `base` rows.
    */
  ghost predicate ClearFor(cfg: Config, w: World, c: Chance, net: Net, base: nat) {
    && w.running.None?
    && c.found.Some? && c.found.value.usable && c.found.value.net == Some(net)
    && forall i :: 0 <= i < base && i < |w.rows| && w.rows[i].net == Some(net) ==>
         w.rows[i].startedAt + cfg.cooldown <= c.checkedAt
  }

  /** A full scan of `net` among the rows from `base` on, started now or within the cooldown. */
  ghost predicate FullAttempt(cfg: Config, rows: seq<Row>, net: Net, base: nat, now: int) {
    exists i :: base <= i < |rows| && rows[i].net == Some(net) && !rows[i].light
                && (rows[i].startedAt >= now || rows[i].startedAt > now - cfg.cooldown)
  }

  /** Light passes cannot starve the full scan. Start anywhere with no light pass of `net` planned.
    * Over any run in which its full scan stays overdue, every job for `net` that meets a free lock
    * one cooldown or more after the attempts made by then leaves behind a full scan of `net`
    * started now or less than a cooldown ago.
    */
  lemma FullScanIsNotStarved(cfg: Config, w: World, es: seq<Event>, c: Chance, net: Net, since: int)
    requires Sound(w) && DecidesFrom(es, since) && PlanFull(w, net) && !Strays(cfg, w, es, net)
    requires var w1 := Run(cfg, w, es);
             && Overdue(w1.rows, net, since, cfg)
             && w1.plan != [] && w1.plan[0].net == Some(net)
             && ClearFor(cfg, w1, c, net, |w.rows|)
    ensures FullAttempt(cfg, Step(cfg, Run(cfg, w, es), RunNext(c)).rows, net, |w.rows|, c.checkedAt)
  {
    OverdueRunsFullOnly(cfg, w, es, net, since, |w.rows|);
  }

  // --- one tick of the poller -----------------------------------------------------------------

  datatype Sight = Sight(st: Iface, at: int)

  function Planned(cfg: Config, w: World, sights: seq<Sight>): (w': World)
    requires Sound(w)
    ensures Sound(w') && w'.rows == w.rows && w'.running == w.running && |w'.plan| <= |w.plan| + |sights|
  {
    if sights == [] then w
    else
      var last := sights[|sights| - 1];
      Step(cfg, Planned(cfg, w, sights[..|sights| - 1]), Plan(last.st, last.at))
  }

  /** One job of the plan, run to its end. */
  function JobDone(cfg: Config, w: World, c: Chance): (w': World)
    requires Sound(w)
    ensures Sound(w') && |w.rows| <= |w'.rows|
  {
    var w1 := Step(cfg, w, RunNext(c));
    if |w1.rows| > |w.rows| then Step(cfg, w1, Finish(c.ok)) else w1
  }

  function PlanRun(cfg: Config, w: World, chances: seq<Chance>): (w': World)
    requires Sound(w)
    ensures Sound(w') && |w.rows| <= |w'.rows|
    decreases |chances|
  {
    if chances == [] || w.plan == [] then w else PlanRun(cfg, JobDone(cfg, w, chances[0]), chances[1..])
  }

  lemma JobRun(cfg: Config, w: World, c: Chance)
    requires Sound(w) && w.plan != []
    ensures var w1 := Scan(cfg, w.(plan := w.plan[1..]), c, w.plan[0].trigger, w.plan[0].light, false);
            Sound(w1) && JobDone(cfg, w, c) == if |w1.rows| > |w.rows| then Finished(w1, c.ok) else w1
  {
  }

  class Poller {
    var rows: seq<Row>
    var running: Option<nat>

    ghost function At(plan: seq<Job>): World
      reads this
    {
      World(rows, plan, running)
    }

    method RunScan(cfg: Config, c: Chance, trigger: string, light: bool, forced: bool, ghost plan: seq<Job>)
      requires Sound(At(plan))
      modifies this
      ensures var w := Scan(cfg, old(At(plan)), c, trigger, light, forced);
              Sound(w) && At(plan) == if |w.rows| > |old(rows)| then Finished(w, c.ok) else w
    {
      if running.Some? || c.found.None? || !c.found.value.usable {
        return;
      }
      var net := c.found.value.net;
      if !forced && net.Some? && Recent(rows, net.value, cfg.cooldown, c.checkedAt, false, false) {
        return;
      }
      var id := |rows|;
      rows := rows + [Row(net, c.checkedAt + c.delay, trigger, light, forced, false)];
      running := Some(id);
      rows := rows[id := rows[id].(succeeded := c.ok)];
      running := None;
    }

    /** One pass over the interfaces and one over the jobs they were given. */
    method Tick(cfg: Config, sights: seq<Sight>, chances: seq<Chance>)
      requires Sound(At([])) && |chances| >= |sights|
      modifies this
      ensures Sound(old(At([])))
      ensures At([]) == PlanRun(cfg, Planned(cfg, old(At([])), sights), chances).(plan := [])
    {
      hide Decide, Scan, Finished, JobDone;
      var plan: seq<Job> := [];
      var i := 0;
      while i < |sights|
        invariant 0 <= i <= |sights| && rows == old(rows) && running == old(running)
        invariant At(plan) == Planned(cfg, old(At([])), sights[..i])
      {
        assert sights[..i + 1][..i] == sights[..i];
        var job := Decide(cfg, rows, sights[i].st, sights[i].at);
        if job.Some? {
          plan := plan + [job.value];
        }
        i := i + 1;
      }
      assert sights[..i] == sights;
      ghost var start := At(plan);
      var k := 0;
      while k < |plan|
        invariant 0 <= k <= |plan| <= |chances| && Sound(At(plan[k..]))
        invariant PlanRun(cfg, At(plan[k..]), chances[k..]) == PlanRun(cfg, start, chances)
      {
        ghost var w := At(plan[k..]);
        assert w.plan[1..] == plan[k + 1..] && chances[k..][1..] == chances[k + 1..];
        RunScan(cfg, chances[k], plan[k].trigger, plan[k].light, false, plan[k + 1..]);
        JobRun(cfg, w, chances[k]);
        k := k + 1;
      }
    }
  }

  lemma {:induction false} OverdueIsPlanned(cfg: Config, w: World, sights: seq<Sight>, net: Net, since: int, k: nat)
    requires Sound(w) && Overdue(w.rows, net, since, cfg) && FullOnly(w, net, |w.rows|)
    requires forall i :: 0 <= i < |sights| ==> sights[i].at >= since
    requires k < |sights| ==> sights[k].st.usable && !sights[k].st.excluded && sights[k].st.net == Some(net)
    ensures var w' := Planned(cfg, w, sights);
            && FullOnly(w', net, |w.rows|)
            && (k < |sights| ==> exists m :: 0 <= m < |w'.plan| && w'.plan[m].net == Some(net))
  {
    if sights != [] {
      var init, last := sights[..|sights| - 1], sights[|sights| - 1];
      OverdueIsPlanned(cfg, w, init, net, since, k);
      var before := Planned(cfg, w, init);
      StepFullOnly(cfg, before, Plan(last.st, last.at), net, since, |w.rows|);
      assert !StraysAt(cfg, before, Plan(last.st, last.at), net);
      var w' := Planned(cfg, w, sights);
      if k < |init| {
        var m :| 0 <= m < |before.plan| && before.plan[m].net == Some(net);
        assert w'.plan[m] == before.plan[m];
      } else if k == |init| {
        OverdueIff(w.rows, net, since, cfg);
        assert w'.plan[|w'.plan| - 1].net == Some(net);
      }
    }
  }

  /** A job for `net` meets its interface up and on `net`; a light pass of another network does not
    * find its interface moved in the meantime. Anything else may happen to the other jobs.
    */
  predicate Fits(j: Job, c: Chance, net: Net) {
    var up := c.found.Some? && c.found.value.usable;
    && (j.net == Some(net) ==> up && c.found.value.net == j.net)
    && (j.light && up ==> c.found.value.net == j.net)
  }

  ghost predicate FullScanFrom(rows: seq<Row>, net: Net, base: nat) {
    exists i :: base <= i < |rows| && rows[i].net == Some(net) && !rows[i].light
  }

  /** Only whether a scan succeeded is ever changed in a row. */
  ghost predicate Keeps(rows: seq<Row>, rows': seq<Row>) {
    |rows| <= |rows'| && forall i :: 0 <= i < |rows| ==> rows'[i].(succeeded := rows[i].succeeded) == rows[i]
  }

  lemma JobKeeps(cfg: Config, w: World, c: Chance)
    requires Sound(w)
    ensures Keeps(w.rows, JobDone(cfg, w, c).rows)
    ensures Keeps(Step(cfg, w, RunNext(c)).rows, JobDone(cfg, w, c).rows)
    ensures w.running.None? ==> JobDone(cfg, w, c).running.None?
    ensures JobDone(cfg, w, c).plan == if w.plan == [] then [] else w.plan[1..]
  {
  }

  lemma {:induction false} PlanRunKeeps(cfg: Config, w: World, chances: seq<Chance>)
    requires Sound(w)
    ensures Keeps(w.rows, PlanRun(cfg, w, chances).rows)
    decreases |chances|
  {
    hide JobDone;
    if chances != [] && w.plan != [] {
      JobKeeps(cfg, w, chances[0]);
      PlanRunKeeps(cfg, JobDone(cfg, w, chances[0]), chances[1..]);
    }
  }

  ghost predicate CooledDown(cfg: Config, rows: seq<Row>, net: Net, base: nat, now: int) {
    forall i :: 0 <= i < base && i < |rows| && rows[i].net == Some(net) ==> rows[i].startedAt + cfg.cooldown <= now
  }

  lemma {:induction false} PlanRunAttempts(cfg: Config, w: World, chances: seq<Chance>, net: Net, base: nat, m: nat)
    requires Sound(w) && w.running.None? && FullOnly(w, net, base) && base <= |w.rows|
    requires m < |w.plan| <= |chances| && w.plan[m].net == Some(net)
    requires forall j :: 0 <= j < |w.plan| ==> Fits(w.plan[j], chances[j], net)
    requires CooledDown(cfg, w.rows, net, base, chances[m].checkedAt)
    ensures FullScanFrom(PlanRun(cfg, w, chances).rows, net, base)
    decreases |chances|
  {
    var c := chances[0];
    var w1 := JobDone(cfg, w, c);
    JobKeeps(cfg, w, c);
    assert Fits(w.plan[0], c, net);
    if m == 0 {
      hide FullOnly;
      PlanRunKeeps(cfg, w1, chances[1..]);
      hide JobDone, Step;
      var rows := Step(cfg, w, RunNext(c)).rows;
      var i :| base <= i < |rows| && rows[i].net == Some(net) && !rows[i].light;
      assert w1.rows[i].net == Some(net) && !w1.rows[i].light;
      assert PlanRun(cfg, w, chances).rows[i].net == Some(net);
    } else {
      hide JobDone, FullOnly;
      forall j | 0 <= j < |w1.plan|
        ensures Fits(w1.plan[j], chances[1..][j], net)
      {
        assert Fits(w.plan[j + 1], chances[j + 1], net);
      }
      PlanRunAttempts(cfg, w1, chances[1..], net, base, m - 1);
    }
  }

  /** The first tick at least one cooldown after the last attempt on a network whose full scan is
    * due attempts that full scan, whatever else the tick plans and however its scans end.
    */
  lemma DueTickAttemptsFullScan(cfg: Config, w: World, sights: seq<Sight>, chances: seq<Chance>, net: Net, since: int, k: nat)
    requires Sound(w) && w.plan == [] && w.running.None? && Overdue(w.rows, net, since, cfg)
    requires forall i :: 0 <= i < |sights| ==> sights[i].at >= since
    requires k < |sights| <= |chances|
    requires sights[k].st.usable && !sights[k].st.excluded && sights[k].st.net == Some(net)
    requires var plan := Planned(cfg, w, sights).plan;
             forall j :: 0 <= j < |plan| ==>
               && Fits(plan[j], chances[j], net)
               && (plan[j].net == Some(net) ==> CooledDown(cfg, w.rows, net, |w.rows|, chances[j].checkedAt))
    ensures FullScanFrom(PlanRun(cfg, Planned(cfg, w, sights), chances).rows, net, |w.rows|)
  {
    OverdueIsPlanned(cfg, w, sights, net, since, k);
    var w1 := Planned(cfg, w, sights);
    var m: nat :| m < |w1.plan| && w1.plan[m].net == Some(net);
    PlanRunAttempts(cfg, w1, chances, net, |w.rows|, m);
  }

  // --- every tick samples every network ---------------------------------------------------------

  lemma {:induction false} PlanRunPrefix(cfg: Config, w: World, chances: seq<Chance>)
    requires Sound(w) && w.running.None?
    ensures w.rows <= PlanRun(cfg, w, chances).rows
    decreases |chances|
  {
    hide JobDone;
    if chances != [] && w.plan != [] {
      JobPrefix(cfg, w, chances[0]);
      PlanRunPrefix(cfg, JobDone(cfg, w, chances[0]), chances[1..]);
    }
  }

  lemma JobPrefix(cfg: Config, w: World, c: Chance)
    requires Sound(w) && w.running.None?
    ensures w.rows <= JobDone(cfg, w, c).rows && JobDone(cfg, w, c).running.None?
  {
    JobKeeps(cfg, w, c);
  }

  /** Row `i` is a scan of `net`: made since there were `base` rows, or a success within the capture
    * interval of `now`, or an attempt within the cooldown of `now`.
    */
  ghost predicate SampleAt(cfg: Config, rows: seq<Row>, i: nat, net: Net, base: nat, now: int) {
    && i < |rows| && rows[i].net == Some(net)
    && (i >= base
        || (rows[i].succeeded && rows[i].startedAt > now - cfg.capture)
        || rows[i].startedAt > now - cfg.cooldown)
  }

  ghost predicate Sampled(cfg: Config, rows: seq<Row>, net: Net, base: nat, now: int) {
    exists i: nat :: SampleAt(cfg, rows, i, net, base, now)
  }

  lemma SampledStays(cfg: Config, rows: seq<Row>, rows': seq<Row>, net: Net, base: nat, now: int)
    requires rows <= rows' && Sampled(cfg, rows, net, base, now)
    ensures Sampled(cfg, rows', net, base, now)
  {
    var i: nat :| SampleAt(cfg, rows, i, net, base, now);
    assert SampleAt(cfg, rows', i, net, base, now);
  }

  lemma NotPlannedIsSampled(cfg: Config, w: World, st: Iface, at: int, net: Net, base: nat, now: int)
    requires cfg.capture > 0 && st.usable && !st.excluded && st.net == Some(net) && at >= now
    ensures Decide(cfg, w.rows, st, at).Some? ==> Decide(cfg, w.rows, st, at).value.net == Some(net)
    ensures Decide(cfg, w.rows, st, at).None? ==> Sampled(cfg, w.rows, net, base, now)
  {
    if Decide(cfg, w.rows, st, at).None? {
      var r :| r in w.rows && Matches(r, net, at - cfg.capture, false, true);
      var i :| 0 <= i < |w.rows| && w.rows[i] == r;
      assert SampleAt(cfg, w.rows, i, net, base, now);
    }
  }

  ghost predicate HasJob(plan: seq<Job>, net: Net) {
    exists m: nat :: m < |plan| && plan[m].net == Some(net)
  }

  lemma {:induction false} PlannedOrSampled(cfg: Config, w: World, sights: seq<Sight>, net: Net, base: nat, now: int, k: nat)
    requires Sound(w) && cfg.capture > 0 && k < |sights| && sights[k].at >= now
    requires sights[k].st.usable && !sights[k].st.excluded && sights[k].st.net == Some(net)
    ensures Sampled(cfg, w.rows, net, base, now)
            || HasJob(Planned(cfg, w, sights).plan, net)
  {
    hide Decide, Sampled;
    var init, last := sights[..|sights| - 1], sights[|sights| - 1];
    var before, w' := Planned(cfg, w, init), Planned(cfg, w, sights);
    if k < |init| {
      PlannedOrSampled(cfg, w, init, net, base, now, k);
      if HasJob(before.plan, net) {
        var m: nat :| m < |before.plan| && before.plan[m].net == Some(net);
        assert w'.plan[m] == before.plan[m];
      }
    } else {
      NotPlannedIsSampled(cfg, before, last.st, last.at, net, base, now);
      if Decide(cfg, before.rows, last.st, last.at).Some? {
        assert w'.plan[|w'.plan| - 1].net == Some(net);
      }
    }
  }

  lemma JobSamples(cfg: Config, w: World, c: Chance, net: Net, base: nat, now: int)
    requires Sound(w) && w.running.None? && base <= |w.rows| && w.plan != []
    requires c.found.Some? && c.found.value.usable && c.found.value.net == Some(net) && c.checkedAt >= now
    ensures Sampled(cfg, JobDone(cfg, w, c).rows, net, base, now)
  {
    var w' := JobDone(cfg, w, c);
    if Recent(w.rows, net, cfg.cooldown, c.checkedAt, false, false) {
      var r :| r in w.rows && Matches(r, net, c.checkedAt - cfg.cooldown, false, false);
      var i :| 0 <= i < |w.rows| && w.rows[i] == r;
      assert SampleAt(cfg, w'.rows, i, net, base, now);
    } else {
      assert SampleAt(cfg, w'.rows, |w.rows|, net, base, now);
    }
  }

  lemma {:induction false} PlanRunSamples(cfg: Config, w: World, chances: seq<Chance>, net: Net, base: nat, now: int, m: nat)
    requires Sound(w) && w.running.None? && base <= |w.rows|
    requires m < |w.plan| <= |chances| && w.plan[m].net == Some(net)
    requires var c := chances[m]; c.found.Some? && c.found.value.usable && c.found.value.net == Some(net) && c.checkedAt >= now
    ensures Sampled(cfg, PlanRun(cfg, w, chances).rows, net, base, now)
    decreases |chances|
  {
    hide JobDone, Sampled;
    var w1 := JobDone(cfg, w, chances[0]);
    JobPrefix(cfg, w, chances[0]);
    JobKeeps(cfg, w, chances[0]);
    if m == 0 {
      JobSamples(cfg, w, chances[0], net, base, now);
      PlanRunPrefix(cfg, w1, chances[1..]);
      SampledStays(cfg, w1.rows, PlanRun(cfg, w1, chances[1..]).rows, net, base, now);
    } else {
      PlanRunSamples(cfg, w1, chances[1..], net, base, now, m - 1);
    }
  }

  /** After a tick that began at `now`, with light passes on, every network on an interface that stayed
    * up has been scanned: in the tick itself, or successfully within the capture interval before it,
    * or, if that scan failed, no longer than the cooldown before it.
    */
  lemma TickSamplesEveryNetwork(cfg: Config, w: World, sights: seq<Sight>, chances: seq<Chance>, net: Net, now: int, k: nat)
    requires Sound(w) && w.plan == [] && w.running.None? && cfg.capture > 0
    requires k < |sights| <= |chances| && sights[k].at >= now
    requires sights[k].st.usable && !sights[k].st.excluded && sights[k].st.net == Some(net)
    requires var plan := Planned(cfg, w, sights).plan;
             forall j :: 0 <= j < |plan| && plan[j].net == Some(net) ==>
               Fits(plan[j], chances[j], net) && chances[j].checkedAt >= now
    ensures Sampled(cfg, PlanRun(cfg, Planned(cfg, w, sights), chances).rows, net, |w.rows|, now)
  {
    hide Sampled;
    var w1 := Planned(cfg, w, sights);
    PlannedOrSampled(cfg, w, sights, net, |w.rows|, now, k);
    PlanRunPrefix(cfg, w1, chances);
    if HasJob(w1.plan, net) {
      var m: nat :| m < |w1.plan| && w1.plan[m].net == Some(net);
      PlanRunSamples(cfg, w1, chances, net, |w.rows|, now, m);
    } else {
      SampledStays(cfg, w.rows, PlanRun(cfg, w1, chances).rows, net, |w.rows|, now);
    }
  }
}
