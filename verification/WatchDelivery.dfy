/** Delivery of edges across outages and kills (collector/src/collector/watch.py,
  * `merge_report` and `run_cycle`, with the hand-off in collector/src/collector/checkin.py).
  *
  * The report file is written before the state file. A kill may fall before the first write,
  * between the two, or between a check-in the dashboard took and the clear that follows it.
  */
module WatchDelivery {
  import opened Common
  import opened WatchStep
  import opened WatchTargets
  import opened WatchHistory

  const MAX_PENDING_EVENTS: nat := 500

  datatype Snap = Snap(
    status: Status,
    since: Option<int>,
    ip: Option<Addr>,
    firstUp: Option<int>,
    lastProbed: Option<int>
  )

  function Snapshot(w: WState): map<Key, Snap> {
    map k | k in w.targets ::
      var s := w.targets[k]; Snap(s.status, s.since, s.ip, s.firstUp, s.lastProbed)
  }

  datatype Report = Report(
    version: Option<string>,
    last: Summary,
    events: seq<Event>,
    dropped: nat,
    cycles: nat,
    blindCycles: nat,
    refused: Option<Refusal>,
    refusedVersion: Option<string>,
    states: map<Key, Snap>
  )

  function MergeReport(pending: Option<Report>, version: Option<string>, summary: Summary, events: seq<Event>,
                       refused: Option<Refusal>, refusedVersion: Option<string>, states: map<Key, Snap>): Report
  {
    var all := (if pending.Some? then pending.value.events else []) + events;
    var dropped := if pending.Some? then pending.value.dropped else 0;
    var over := if |all| > MAX_PENDING_EVENTS then |all| - MAX_PENDING_EVENTS else 0;
    Report(version, summary, all[over..], dropped + over,
           (if pending.Some? then pending.value.cycles else 0) + 1,
           (if pending.Some? then pending.value.blindCycles else 0) + (if summary.blind then 1 else 0),
           refused, refusedVersion, states)
  }

  /** `rep` is what remains of `log`, the events folded in since the last clear: the last
    * 500 of them, with the rest counted.
    */
  predicate Carries(rep: Report, log: seq<Event>) {
    rep.events == LastN(log, MAX_PENDING_EVENTS) && rep.dropped + |rep.events| == |log|
  }

  predicate PendingCarries(pending: Option<Report>, log: seq<Event>) {
    if pending.Some? then Carries(pending.value, log) else log == []
  }

  lemma MergeCarries(pending: Option<Report>, log: seq<Event>, version: Option<string>, summary: Summary,
                     events: seq<Event>, refused: Option<Refusal>, refusedVersion: Option<string>,
                     states: map<Key, Snap>)
    requires PendingCarries(pending, log)
    ensures Carries(MergeReport(pending, version, summary, events, refused, refusedVersion, states), log + events)
  {
    TailOfConcat(log, events, MAX_PENDING_EVENTS);
    if pending.None? {
      assert LastN(log, MAX_PENDING_EVENTS) == [];
    }
  }

  lemma TailOfConcat<T>(xs: seq<T>, ys: seq<T>, n: nat)
    ensures LastN(LastN(xs, n) + ys, n) == LastN(xs + ys, n)
  {
    var kept := LastN(xs, n) + ys;
    if |kept| > n {
      assert kept[|kept| - n..] == (xs + ys)[|xs + ys| - n..];
    } else if |xs| > n {
      assert ys == [] && xs + ys == xs && kept == LastN(xs, n);
    }
  }

  // --- the box ----------------------------------------------------------------------------

  /** The two files a cycle writes. */
  datatype Disk = Disk(state: WState, report: Option<Report>)

  const BLANK := Disk(EMPTY_STATE, None)

  datatype Kill = Survives | BeforeReport | BetweenWrites

  /** What one cycle is given: the stored list as read back and validated, and what it saw. */
  datatype CycleInput = CycleInput(
    version: Option<string>,
    refused: Option<Refusal>,
    refusedVersion: Option<string>,
    cycle: Cycle
  )

  predicate Watches(x: CycleInput) {
    x.cycle.targets != [] || x.refused.Some?
  }

  function Merged(d: Disk, x: CycleInput): Report {
    MergeReport(d.report, x.version, StepSummary(d.state, x.cycle), StepEvents(d.state, x.cycle),
                x.refused, x.refusedVersion, Snapshot(StepState(d.state, x.cycle)))
  }

  function CycleDisk(d: Disk, x: CycleInput, kill: Kill): Disk {
    if !Watches(x) || kill == BeforeReport then d
    else if kill == BetweenWrites then Disk(d.state, Some(Merged(d, x)))
    else Disk(StepState(d.state, x.cycle), Some(Merged(d, x)))
  }

  /** A sensor with its two files. */
  class Box {
    var stateFile: WState
    var reportFile: Option<Report>

    function Contents(): Disk
      reads this
    {
      Disk(stateFile, reportFile)
    }

    constructor ()
      ensures Contents() == BLANK
    {
      stateFile, reportFile := EMPTY_STATE, None;
    }

    /** One watch cycle, killed where `kill` says. Nothing is touched when there is nothing to watch. */
    method RunCycle(x: CycleInput, kill: Kill) returns (report: Option<Report>)
      modifies this
      ensures Contents() == CycleDisk(old(Contents()), x, kill)
      ensures report.Some? <==> (x.cycle.targets != [] || x.refused.Some?) && kill == Survives
      ensures report.Some? ==> report == reportFile
      ensures kill == BeforeReport || (x.cycle.targets == [] && x.refused.None?) ==> Contents() == old(Contents())
      ensures kill == BetweenWrites ==> stateFile == old(stateFile)
    {
      if x.cycle.targets == [] && x.refused.None? {
        return None;
      }
      var newState, events, summary := Step(stateFile, x.cycle);
      var rep := MergeReport(reportFile, x.version, summary, events, x.refused, x.refusedVersion, Snapshot(newState));
      if kill == BeforeReport {
        return None;
      }
      reportFile := Some(rep);
      if kill == BetweenWrites {
        return None;
      }
      stateFile := newState;
      return Some(rep);
    }

    method ClearReport()
      modifies this
      ensures Contents() == old(Contents()).(report := None)
    {
      reportFile := None;
    }
  }

  // --- runs with kills ----------------------------------------------------------------------

  /** `taken`: the dashboard took the POST. `cleared`: the box lived to see that and clear. */
  datatype Move =
    | Cycled(input: CycleInput, kill: Kill)
    | CheckedIn(taken: bool, cleared: bool)

  predicate Possible(m: Move) {
    m.CheckedIn? && m.cleared ==> m.taken
  }

  /** A report the dashboard took, with the log it stood for. */
  datatype Delivery = Delivery(report: Report, log: seq<Event>)

  /** The box and the history a run leaves behind: the log behind the pending report, the
    * reports taken, the events of committed state changes, and every event ever folded in.
    */
  datatype World = World(
    disk: Disk,
    log: seq<Event>,
    taken: seq<Delivery>,
    committed: seq<Event>,
    folded: seq<Event>
  )

  const START := World(BLANK, [], [], [], [])

  function Emitted(w: World, m: Move): seq<Event> {
    if m.Cycled? && Watches(m.input) then StepEvents(w.disk.state, m.input.cycle) else []
  }

  function Next(w: World, m: Move): World {
    match m
    case Cycled(x, kill) =>
      var es := Emitted(w, m);
      if kill == BeforeReport then w
      else w.(disk := CycleDisk(w.disk, x, kill),
              log := w.log + es,
              committed := if kill == Survives then w.committed + es else w.committed,
              folded := w.folded + es)
    case CheckedIn(took, cleared) =>
      if w.disk.report.None? then w
      else
        var w' := if took then w.(taken := w.taken + [Delivery(w.disk.report.value, w.log)]) else w;
        if cleared then w'.(disk := w'.disk.(report := None), log := []) else w'
  }

  function Run(ms: seq<Move>): World {
    if ms == [] then START else Next(Run(ms[..|ms| - 1]), ms[|ms| - 1])
  }

  ghost predicate AllPossible(ms: seq<Move>) {
    forall i :: 0 <= i < |ms| ==> Possible(ms[i])
  }

  /** Every report stands for its log, and every folded event is in one of the logs. */
  ghost predicate Consistent(w: World) {
    && PendingCarries(w.disk.report, w.log)
    && (forall d :: d in w.taken ==> Carries(d.report, d.log))
    && (forall e :: e in w.folded ==> e in w.log || exists d :: d in w.taken && e in d.log)
    && (forall e :: e in w.committed ==> e in w.folded)
  }

  lemma NextConsistent(w: World, m: Move)
    requires Consistent(w) && Possible(m)
    ensures Consistent(Next(w, m))
  {
    hide StepEvents, StepSummary, StepState, Carries, MergeReport;
    match m
    case Cycled(x, kill) =>
      if kill != BeforeReport {
        if Watches(x) {
          MergeCarries(w.disk.report, w.log, x.version, StepSummary(w.disk.state, x.cycle),
                       StepEvents(w.disk.state, x.cycle), x.refused, x.refusedVersion,
                       Snapshot(StepState(w.disk.state, x.cycle)));
        } else {
          assert w.log + [] == w.log;
        }
      }
    case CheckedIn(took, cleared) =>
      if w.disk.report.Some? {
        var w' := Next(w, m);
        var d := Delivery(w.disk.report.value, w.log);
        assert took ==> w'.taken[|w'.taken| - 1] == d;
        forall e | e in w'.folded
          ensures e in w'.log || exists d :: d in w'.taken && e in d.log
        {
          if e in w.log {
            assert cleared ==> d in w'.taken;
          } else {
            var d' :| d' in w.taken && e in d'.log;
            assert d' in w'.taken;
          }
        }
      }
  }

  /** Over every run each report, pending or taken, holds exactly the last min(500, n) of its n events
    * and counts the remainder, and every folded event is behind one of them.
    */
  lemma {:induction false} ReportsAreExact(ms: seq<Move>)
    requires AllPossible(ms)
    ensures Consistent(Run(ms))
  {
    hide Consistent, Next;
    if ms == [] {
      StartConsistent();
    } else {
      ReportsAreExact(ms[..|ms| - 1]);
      NextConsistent(Run(ms[..|ms| - 1]), ms[|ms| - 1]);
    }
  }

  lemma StartConsistent()
    ensures Consistent(START)
  {
  }

  /** The event is listed in the report, or it is one of those the report counts as dropped. */
  predicate ListedOrCounted(rep: Report, log: seq<Event>, e: Event) {
    e in rep.events || (rep.dropped <= |log| && e in log[..rep.dropped])
  }

  lemma CarriedEvents(rep: Report, log: seq<Event>, e: Event)
    requires Carries(rep, log) && e in log
    ensures ListedOrCounted(rep, log, e)
  {
    var i :| 0 <= i < |log| && log[i] == e;
    if i < rep.dropped {
      assert log[..rep.dropped][i] == e;
    } else {
      assert rep.events[i - rep.dropped] == e;
    }
  }

  /** Whatever the kills, outages and clears, an edge of a committed state change is in a
    * report the dashboard took or in the pending one, or that report counts it as dropped.
    */
  lemma NoEdgeLost(ms: seq<Move>, e: Event)
    requires AllPossible(ms)
    requires e in Run(ms).committed
    ensures var w := Run(ms);
            || (w.disk.report.Some? && ListedOrCounted(w.disk.report.value, w.log, e))
            || exists d :: d in w.taken && ListedOrCounted(d.report, d.log, e)
  {
    hide ListedOrCounted, Carries;
    ReportsAreExact(ms);
    var w := Run(ms);
    if e in w.log {
      CarriedEvents(w.disk.report.value, w.log, e);
    } else {
      var d :| d in w.taken && e in d.log;
      CarriedEvents(d.report, d.log, e);
    }
  }

  /** The dashboard took the report at step `i`, where it was the pending one. */
  ghost predicate TookAt(ms: seq<Move>, i: nat, d: Delivery) {
    && i < |ms| && ms[i].CheckedIn? && ms[i].taken
    && Run(ms[..i]).disk.report == Some(d.report) && Run(ms[..i]).log == d.log
  }

  /** A report counts as taken only if a check-in that the dashboard took carried it. */
  lemma {:induction false} TakenWasPending(ms: seq<Move>, d: Delivery)
    requires d in Run(ms).taken
    ensures exists i: nat :: TookAt(ms, i, d)
  {
    hide CycleDisk, Emitted;
    var n := |ms| - 1;
    var init := ms[..n];
    if d in Run(init).taken {
      TakenWasPending(init, d);
      var i: nat :| TookAt(init, i, d);
      assert init[..i] == ms[..i];
      assert TookAt(ms, i, d);
    } else {
      assert TookAt(ms, n, d);
    }
  }

  // --- the state file is the fold of the committed cycles -------------------------------------

  function CommittedCycles(ms: seq<Move>): seq<Cycle> {
    if ms == [] then []
    else
      var m := ms[|ms| - 1];
      CommittedCycles(ms[..|ms| - 1])
      + (if m.Cycled? && Watches(m.input) && m.kill == Survives then [m.input.cycle] else [])
  }

  lemma NumberedFrom(start: nat, xs: seq<Edge>, ys: seq<Edge>)
    ensures Numbered(start, xs) + Numbered(start + |xs|, ys) == Numbered(start, xs + ys)
    ensures |Numbered(start, xs)| == |xs| && |Numbered(start, ys)| == |ys|
  {
  }

  lemma CommitNext(w: World, m: Move, cs: seq<Cycle>)
    requires w.disk.state == RunState(cs)
    requires w.committed == Numbered(0, RunEdges(cs)) && w.disk.state.seqNo == |RunEdges(cs)|
    ensures var w' := Next(w, m);
            if m.Cycled? && Watches(m.input) && m.kill == Survives then
              var c := m.input.cycle;
              && w'.disk.state == StepState(RunState(cs), c)
              && w'.committed == Numbered(0, RunEdges(cs) + StepEdges(RunState(cs), c))
              && w'.disk.state.seqNo == |RunEdges(cs) + StepEdges(RunState(cs), c)|
            else w'.disk.state == w.disk.state && w'.committed == w.committed
  {
    hide RunEdges, RunState, StepEdges, TargetsAfter, IsBlind, MergeReport, StepSummary, Snapshot, Numbered;
    if m.Cycled? {
      NumberedFrom(0, RunEdges(cs), StepEdges(RunState(cs), m.input.cycle));
      assert w.committed + [] == w.committed;
    }
  }

  /** Killed cycles leave the state alone: it is the state of the crash-free run of the
    * committed cycles, and the committed events are that run's edges, numbered 1, 2, 3, ...
    */
  lemma {:induction false} StateIsCommittedRun(ms: seq<Move>)
    ensures Run(ms).disk.state == RunState(CommittedCycles(ms))
    ensures Run(ms).committed == Numbered(0, RunEdges(CommittedCycles(ms)))
    ensures Run(ms).disk.state.seqNo == |RunEdges(CommittedCycles(ms))|
  {
    hide StepEdges, StepState, Numbered, Next;
    if ms == [] {
      NumberedFrom(0, [], []);
    } else {
      var init := ms[..|ms| - 1];
      var m := ms[|ms| - 1];
      StateIsCommittedRun(init);
      var cs := CommittedCycles(init);
      CommitNext(Run(init), m, cs);
      if m.Cycled? && Watches(m.input) && m.kill == Survives {
        assert (cs + [m.input.cycle])[..|cs|] == cs;
      } else {
        assert cs + [] == cs;
      }
    }
  }

  /** So the events a reader takes from the log of committed changes rebuild what is down. */
  lemma CommittedEventsRebuildDown(ms: seq<Move>)
    requires WellFormed(CommittedCycles(ms))
    ensures Replay(CommittedCycles(ms)) == DownView(Run(ms).disk.state.targets)
  {
    StateIsCommittedRun(ms);
    ReplayReproducesSnapshot(CommittedCycles(ms));
  }

  /** The move writes a report. */
  predicate Reports(m: Move) {
    m.Cycled? && Watches(m.input) && m.kill != BeforeReport
  }

  /** The state computed by the last cycle that wrote a report. */
  function ReportedState(ms: seq<Move>): WState {
    if ms == [] then EMPTY_STATE
    else
      var init, m := ms[..|ms| - 1], ms[|ms| - 1];
      if Reports(m) then StepState(Run(init).disk.state, m.input.cycle) else ReportedState(init)
  }

  /** The last cycle that wrote a report was killed before it wrote its state. */
  predicate LastReportKilled(ms: seq<Move>) {
    ms != []
    && (if Reports(ms[|ms| - 1]) then ms[|ms| - 1].kill == BetweenWrites else LastReportKilled(ms[..|ms| - 1]))
  }

  /** Over every run the pending report carries the snapshot its last cycle computed, and that is the
    * state on disk unless that cycle was killed between its two writes.
    */
  lemma {:induction false} PendingSnapshot(ms: seq<Move>)
    ensures var d := Run(ms).disk;
            && (d.report.Some? ==> d.report.value.states == Snapshot(ReportedState(ms)))
            && (!LastReportKilled(ms) ==> ReportedState(ms) == d.state)
  {
    hide StepState, StepEvents, StepSummary, Snapshot;
    if ms != [] {
      PendingSnapshot(ms[..|ms| - 1]);
    }
  }

  /** A cycle that wrote a report, with the state it started from. */
  datatype Ran = Ran(before: WState, input: CycleInput)

  /** The cycles behind the pending report: those that wrote one since the last clear. */
  function Behind(ms: seq<Move>): seq<Ran> {
    if ms == [] then []
    else
      var init, m := ms[..|ms| - 1], ms[|ms| - 1];
      if Reports(m) then Behind(init) + [Ran(Run(init).disk.state, m.input)]
      else if m.CheckedIn? && m.cleared then []
      else Behind(init)
  }

  function BlindOnes(rs: seq<Ran>): nat {
    if rs == [] then 0
    else
      var r := rs[|rs| - 1];
      BlindOnes(rs[..|rs| - 1]) + if StepState(r.before, r.input.cycle).blind then 1 else 0
  }

  /** What one move does to the counts and the heading of the pending report. */
  lemma ReportStep(w: World, m: Move)
    ensures var rep, rep' := w.disk.report, Next(w, m).disk.report;
            if Reports(m) then
              var sum := StepSummary(w.disk.state, m.input.cycle);
              && rep'.Some?
              && rep'.value.cycles == (if rep.Some? then rep.value.cycles else 0) + 1
              && rep'.value.blindCycles == (if rep.Some? then rep.value.blindCycles else 0)
                                           + (if StepState(w.disk.state, m.input.cycle).blind then 1 else 0)
              && rep'.value.version == m.input.version && rep'.value.last == sum
              && rep'.value.refused == m.input.refused && rep'.value.refusedVersion == m.input.refusedVersion
            else if m.CheckedIn? && m.cleared then rep'.None?
            else rep' == rep
  {
    hide StepEvents, Snapshot, TargetsAfter, IsBlind, StepEdges, CountWith;
  }

  /** Over every run a pending report counts the cycles since the last clear and the blind ones among them,
    * and carries the version, the refusal and the summary of the last of them.
    */
  lemma {:induction false} ReportCounts(ms: seq<Move>)
    ensures var rep, rs := Run(ms).disk.report, Behind(ms);
            && (rep.None? <==> rs == [])
            && (rep.Some? ==>
                  var r := rs[|rs| - 1];
                  && rep.value.cycles == |rs| && rep.value.blindCycles == BlindOnes(rs)
                  && rep.value.version == r.input.version
                  && rep.value.refused == r.input.refused && rep.value.refusedVersion == r.input.refusedVersion
                  && rep.value.last == StepSummary(r.before, r.input.cycle))
  {
    hide Next, StepState, StepSummary;
    if ms != [] {
      var init, m := ms[..|ms| - 1], ms[|ms| - 1];
      ReportCounts(init);
      ReportStep(Run(init), m);
      if Reports(m) {
        assert (Behind(init) + [Ran(Run(init).disk.state, m.input)])[..|Behind(init)|] == Behind(init);
      }
    }
  }

  /** The cycles that led to the state the pending report tells of. */
  function ReportedCycles(ms: seq<Move>): seq<Cycle> {
    if ms == [] then []
    else
      var init, m := ms[..|ms| - 1], ms[|ms| - 1];
      if Reports(m) then CommittedCycles(init) + [m.input.cycle] else ReportedCycles(init)
  }

  lemma {:induction false} ReportedRun(ms: seq<Move>)
    ensures ReportedState(ms) == RunState(ReportedCycles(ms))
  {
    hide StepState, Run;
    if ms != [] {
      var init, m := ms[..|ms| - 1], ms[|ms| - 1];
      ReportedRun(init);
      StateIsCommittedRun(init);
      if Reports(m) {
        assert (CommittedCycles(init) + [m.input.cycle])[..|CommittedCycles(init)|] == CommittedCycles(init);
      }
    }
  }

  /** What the pending report says of a key, over every run with kills: its status, address, first answer,
    * last probe, and since when it is so, are those of its record in the cycles the report tells of; keys
    * without a record are not in it.
    */
  lemma ReportTellsRecord(ms: seq<Move>, k: Key)
    requires WellFormed(ReportedCycles(ms)) && Run(ms).disk.report.Some?
    ensures var states := Run(ms).disk.report.value.states;
            var tr := TrackOf(ReportedCycles(ms), k);
            && (k in states <==> tr.ip.Some?)
            && (k in states ==>
                  && states[k].status == StatusOf(tr.seen) && states[k].ip == tr.ip
                  && states[k].firstUp == FirstSuccess(tr.seen) && states[k].lastProbed == tr.probed
                  && SinceTurned(states[k].since, tr.seen))
  {
    hide StatusOf, SinceTurned, Run, TrackOf;
    PendingSnapshot(ms);
    ReportedRun(ms);
    StateIsRecord(ReportedCycles(ms), k);
  }

  /** What a killed cycle leaves can differ: the report says the switch was probed at 2, the state on
    * disk, at 1.
    */
  lemma SnapshotAheadOfState()
    ensures var ms := [Cycled(OneTarget(Answered, 1, true), Survives), Cycled(OneTarget(Failed, 2, true), BetweenWrites)];
            var d := Run(ms).disk;
            && LastReportKilled(ms) && d.report.Some? && SWITCH in d.report.value.states && SWITCH in d.state.targets
            && d.report.value.states[SWITCH].lastProbed == Some(2)
            && d.state.targets[SWITCH].lastProbed == Some(1)
  {
    hide Next, OneTarget;
    var m0, m1 := Cycled(OneTarget(Answered, 1, true), Survives), Cycled(OneTarget(Failed, 2, true), BetweenWrites);
    var ms := [m0, m1];
    assert ms[..1] == [m0] && [m0][..0] == [];
    OneTargetNext(START, FRESH, Answered, 1, true, Survives);
    var w1 := Next(START, m0);
    var up := TState(Up, 0, Some(1), Some(1), Some("10.0.0.1"), Some(1));
    OneTargetNext(w1, up, Failed, 2, true, BetweenWrites);
    assert Run([m0]) == w1;
    assert Run(ms) == Next(w1, m1);
    PendingSnapshot(ms);
    OneTargetStep(w1.disk.state, up, Failed, 2, true);
    OneTargetState(START, Answered, 1, true, Survives);
    OneTargetState(w1, Failed, 2, true, BetweenWrites);
  }

  lemma OneTargetState(w: World, r: Probe, now: int, gateway: bool, kill: Kill)
    requires kill != BeforeReport
    ensures var d := Next(w, Cycled(OneTarget(r, now, gateway), kill)).disk;
            && d.report.Some?
            && (kill == Survives ==> d.state == StepState(w.disk.state, OneTarget(r, now, gateway).cycle))
  {
    hide StepState, StepEvents, StepSummary, Snapshot;
  }

  // --- when sequence numbers identify events ----------------------------------------------------

  /** The move folds at least one event into the report. */
  predicate Folds(w: World, m: Move) {
    m.Cycled? && m.kill != BeforeReport && Emitted(w, m) != []
  }

  /** Some cycle folded events and was killed before it could write its state. */
  predicate Wasted(ms: seq<Move>) {
    ms != [] && (Wasted(ms[..|ms| - 1])
                 || (Folds(Run(ms[..|ms| - 1]), ms[|ms| - 1]) && ms[|ms| - 1].kill == BetweenWrites))
  }

  /** ... and a later cycle folded events too. */
  predicate WastedThenFolded(ms: seq<Move>) {
    ms != [] && (WastedThenFolded(ms[..|ms| - 1])
                 || (Wasted(ms[..|ms| - 1]) && Folds(Run(ms[..|ms| - 1]), ms[|ms| - 1])))
  }

  ghost predicate DistinctSeqNos(es: seq<Event>) {
    forall i, j :: 0 <= i < j < |es| ==> es[i].seqNo != es[j].seqNo
  }

  ghost predicate Gapless(es: seq<Event>) {
    forall i :: 0 <= i < |es| ==> es[i].seqNo == i + 1
  }

  lemma {:induction false} SeqNosOver(ms: seq<Move>)
    ensures var w := Run(ms);
            && (!WastedThenFolded(ms) ==> Gapless(w.folded))
            && (!Wasted(ms) ==> w.disk.state.seqNo == |w.folded|)
            && (Wasted(ms) && !WastedThenFolded(ms) ==> w.disk.state.seqNo < |w.folded|)
            && (WastedThenFolded(ms) ==> !DistinctSeqNos(w.folded))
            && (WastedThenFolded(ms) ==> Wasted(ms))
  {
    hide StepEdges, TargetsAfter, IsBlind, MergeReport, StepSummary, Snapshot, CycleDisk;
    if ms != [] {
      var init := ms[..|ms| - 1];
      var m := ms[|ms| - 1];
      SeqNosOver(init);
      SeqNosNext(init, m);
    }
  }

  lemma {:induction false} SeqNosNext(init: seq<Move>, m: Move)
    requires var w := Run(init);
             && (!WastedThenFolded(init) ==> Gapless(w.folded))
             && (!Wasted(init) ==> w.disk.state.seqNo == |w.folded|)
             && (Wasted(init) && !WastedThenFolded(init) ==> w.disk.state.seqNo < |w.folded|)
             && (WastedThenFolded(init) ==> !DistinctSeqNos(w.folded))
             && (WastedThenFolded(init) ==> Wasted(init))
    ensures var w := Run(init);
            var w' := Next(w, m);
            var reused := WastedThenFolded(init) || (Wasted(init) && Folds(w, m));
            var wasted := Wasted(init) || (Folds(w, m) && m.kill == BetweenWrites);
            && (!reused ==> Gapless(w'.folded))
            && (!wasted ==> w'.disk.state.seqNo == |w'.folded|)
            && (wasted && !reused ==> w'.disk.state.seqNo < |w'.folded|)
            && (reused ==> !DistinctSeqNos(w'.folded))
  {
    hide StepEdges, TargetsAfter, IsBlind, MergeReport, StepSummary, Snapshot, Wasted, WastedThenFolded, Run;
    var w := Run(init);
    var w' := Next(w, m);
    if Folds(w, m) {
      var es := Emitted(w, m);
      assert w'.folded == w.folded + es;
      if WastedThenFolded(init) {
        var i, j :| 0 <= i < j < |w.folded| && w.folded[i].seqNo == w.folded[j].seqNo;
        assert w'.folded[i].seqNo == w'.folded[j].seqNo;
      } else if Wasted(init) {
        var s := w.disk.state.seqNo;
        assert w'.folded[s].seqNo == s + 1 && w'.folded[|w.folded|].seqNo == s + 1;
      }
    } else {
      assert w'.folded == w.folded;
    }
  }

  /** Sequence numbers tell events apart over a run exactly when no cycle that folded events
    * was killed between its two writes and followed by another cycle that folded events.
    */
  lemma {:induction false} SeqNosDistinctIff(ms: seq<Move>)
    ensures DistinctSeqNos(Run(ms).folded) <==> !WastedThenFolded(ms)
  {
    SeqNosOver(ms);
  }

  /** The edge, whatever its time. */
  function Untimed(e: Edge): Edge {
    e.(at := 0)
  }

  function Untimeds(es: seq<Edge>): seq<Edge> {
    seq(|es|, i requires 0 <= i < |es| => Untimed(es[i]))
  }

  /** The cycles list and saw the same. */
  predicate SawTheSame(c: Cycle, c': Cycle) {
    c'.targets == c.targets && c'.results == c.results && c'.gateway == c.gateway
  }

  lemma OneTargetSame(k: Key, s: TState, ip: Addr, r: Probe, blind: bool, now: int, later: int)
    ensures Untimeds(EdgesOf(k, s, ip, r, blind, now)) == Untimeds(EdgesOf(k, s, ip, r, blind, later))
  {
  }

  lemma JoinedSame(xs: seq<Edge>, ys: seq<Edge>, xs': seq<Edge>, ys': seq<Edge>)
    requires Untimeds(xs) == Untimeds(xs') && Untimeds(ys) == Untimeds(ys')
    ensures Untimeds(xs + ys) == Untimeds(xs' + ys')
  {
    hide Untimed;
    UntimedsJoin(xs, ys);
    UntimedsJoin(xs', ys');
  }

  lemma UntimedsJoin(xs: seq<Edge>, ys: seq<Edge>)
    ensures Untimeds(xs + ys) == Untimeds(xs) + Untimeds(ys)
  {
    hide Untimed;
  }

  lemma {:induction false} SameTargetEdges(m: map<Key, TState>, c: Cycle, c': Cycle, n: nat)
    requires SawTheSame(c, c') && n <= |c.targets|
    ensures Untimeds(EdgesAfter(m, c, n)) == Untimeds(EdgesAfter(m, c', n))
  {
    if n > 0 {
      hide IsBlind, EdgesOf, Untimeds, Prior;
      SameTargetEdges(m, c, c', n - 1);
      SameSight(c, c');
      hide ResultFor;
      var t := c.targets[n - 1];
      OneTargetSame(t.key, Prior(m, t.key), t.ip, ResultFor(c, t.key), IsBlind(c), c.now, c'.now);
      JoinedSame(EdgesAfter(m, c, n - 1), EdgesOf(t.key, Prior(m, t.key), t.ip, ResultFor(c, t.key), IsBlind(c), c.now),
                 EdgesAfter(m, c', n - 1), EdgesOf(t.key, Prior(m, t.key), t.ip, ResultFor(c, t.key), IsBlind(c), c'.now));
    }
  }

  lemma SameSight(c: Cycle, c': Cycle)
    requires SawTheSame(c, c')
    ensures ProbedKeys(c') == ProbedKeys(c) && IsBlind(c') == IsBlind(c)
    ensures forall k :: ResultFor(c', k) == ResultFor(c, k)
  {
  }

  /** A cycle killed between its writes and one after it that sees the same emit the same edges under the
    * same numbers, up to their time: such repeated numbers are re-sent edges.
    */
  lemma RepeatedNumbersResend(ms: seq<Move>, x: CycleInput, x': CycleInput, kill: Kill)
    requires SawTheSame(x.cycle, x'.cycle) && Watches(x) && Watches(x')
    ensures var w := Run(ms);
            var es := Emitted(w, Cycled(x, BetweenWrites));
            var es' := Emitted(Next(w, Cycled(x, BetweenWrites)), Cycled(x', kill));
            && |es'| == |es|
            && forall i :: 0 <= i < |es| ==> es'[i].seqNo == es[i].seqNo && Untimed(es'[i].edge) == Untimed(es[i].edge)
  {
    hide StepState, StepSummary, Snapshot, MergeReport, StepEdges, Run;
    var w := Run(ms).disk.state;
    SameStepEdges(w, x.cycle, x'.cycle);
    assert Next(Run(ms), Cycled(x, BetweenWrites)).disk.state == w;
    var es, es' := StepEdges(w, x.cycle), StepEdges(w, x'.cycle);
    assert |Untimeds(es)| == |es| && |Untimeds(es')| == |es'|;
    assert forall i :: 0 <= i < |es| ==> Untimeds(es)[i] == Untimed(es[i]);
    assert forall i :: 0 <= i < |es'| ==> Untimeds(es')[i] == Untimed(es'[i]);
  }

  lemma SameStepEdges(w: WState, c: Cycle, c': Cycle)
    requires SawTheSame(c, c')
    ensures Untimeds(StepEdges(w, c)) == Untimeds(StepEdges(w, c'))
  {
    SameSight(c, c');
    SameTargetEdges(w.targets, c, c', |c.targets|);
    hide IsBlind, EdgesAfter, ProbedKeys;
    JoinedSame(VisibilityEdge(w.blind, c), EdgesAfter(w.targets, c, |c.targets|),
               VisibilityEdge(w.blind, c'), EdgesAfter(w.targets, c', |c.targets|));
  }

  function OneTarget(r: Probe, now: int, gateway: bool): CycleInput {
    CycleInput(None, None, None,
               Cycle([Target("switch:1", "10.0.0.1", "core", false)], map["switch:1" := r], now, Some(gateway)))
  }

  const SWITCH: Key := "switch:1"

  lemma OneTargetBlind(r: Probe, now: int, gateway: bool)
    ensures IsBlind(OneTarget(r, now, gateway).cycle) <==> r != Answered && !gateway
  {
    var c := OneTarget(r, now, gateway).cycle;
    assert c.targets[0] in c.targets;
    assert KeysOf(c.targets) == {SWITCH};
  }

  /** The edges of one cycle over the single switch. */
  function SwitchEdges(st: TState, r: Probe, now: int, gateway: bool): seq<Edge> {
    var blind := r != Answered && !gateway;
    (if blind then [WentBlind(now, Some(gateway), |ProbedKeys(OneTarget(r, now, gateway).cycle)|)] else [])
    + EdgesOf(SWITCH, st, "10.0.0.1", r, blind, now)
  }

  lemma OneTargetStep(w: WState, st: TState, r: Probe, now: int, gateway: bool)
    requires Prior(w.targets, SWITCH) == st && !w.blind
    ensures var c := OneTarget(r, now, gateway).cycle;
            var blind := r != Answered && !gateway;
            && StepEdges(w, c) == SwitchEdges(st, r, now, gateway)
            && Prior(StepState(w, c).targets, SWITCH) == Advance(st, "10.0.0.1", r, blind, now)
            && StepState(w, c).blind == blind
  {
    hide Advance, EdgesOf, IsBlind, ProbedKeys;
    var c := OneTarget(r, now, gateway).cycle;
    OneTargetBlind(r, now, gateway);
    assert TargetsAfter(w.targets, c, 0) == map[];
    assert EdgesAfter(w.targets, c, 0) == [];
  }

  /** What that cycle does to a world whose state file holds `st`. */
  lemma OneTargetNext(w: World, st: TState, r: Probe, now: int, gateway: bool, kill: Kill)
    requires Prior(w.disk.state.targets, SWITCH) == st && !w.disk.state.blind && kill != BeforeReport
    ensures var blind := r != Answered && !gateway;
            var es := SwitchEdges(st, r, now, gateway);
            var w' := Next(w, Cycled(OneTarget(r, now, gateway), kill));
            && w'.folded == w.folded + Numbered(w.disk.state.seqNo, es)
            && (kill == BetweenWrites ==> w'.disk.state == w.disk.state)
            && (kill == Survives ==>
                  && Prior(w'.disk.state.targets, SWITCH) == Advance(st, "10.0.0.1", r, blind, now)
                  && w'.disk.state.seqNo == w.disk.state.seqNo + |es|
                  && w'.disk.state.blind == blind)
  {
    hide StepSummary, Snapshot, MergeReport, Advance, EdgesOf, IsBlind, StepEdges, Prior, SwitchEdges, Numbered;
    OneTargetStep(w.disk.state, st, r, now, gateway);
  }

  /** A kill between the writes lets two different edges carry the same number: the switch
    * answers, fails once, a blind cycle is killed after its report, and the next failure
    * takes the number the lost cycle used.
    */
  lemma SameNumberTwoEdges()
    ensures var ms := [Cycled(OneTarget(Answered, 1, true), Survives), Cycled(OneTarget(Failed, 2, true), Survives),
                       Cycled(OneTarget(Failed, 3, false), BetweenWrites), Cycled(OneTarget(Failed, 4, true), Survives)];
            var es := Run(ms).folded;
            |es| == 2 && es[0].seqNo == 1 && es[1].seqNo == 1 && es[0].edge.WentBlind? && es[1].edge.WentDown?
  {
    hide Next, OneTarget;
    var m0, m1 := Cycled(OneTarget(Answered, 1, true), Survives), Cycled(OneTarget(Failed, 2, true), Survives);
    var m2, m3 := Cycled(OneTarget(Failed, 3, false), BetweenWrites), Cycled(OneTarget(Failed, 4, true), Survives);
    var ms := [m0, m1, m2, m3];
    assert ms[..3] == [m0, m1, m2] && [m0, m1, m2][..2] == [m0, m1] && [m0, m1][..1] == [m0] && [m0][..0] == [];
    OneTargetNext(START, FRESH, Answered, 1, true, Survives);
    var w1 := Next(START, m0);
    var up := TState(Up, 0, Some(1), Some(1), Some("10.0.0.1"), Some(1));
    OneTargetNext(w1, up, Failed, 2, true, Survives);
    var w2 := Next(w1, m1);
    var once := TState(Up, 1, Some(1), Some(1), Some("10.0.0.1"), Some(2));
    OneTargetNext(w2, once, Failed, 3, false, BetweenWrites);
    var w3 := Next(w2, m2);
    OneTargetNext(w3, once, Failed, 4, true, Survives);
    assert Run([m0]) == w1;
    assert Run([m0, m1]) == w2;
    assert Run([m0, m1, m2]) == w3;
    assert Run(ms) == Next(w3, m3);
  }
}
