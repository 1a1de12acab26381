/** Several builders working on hourly bundles at once (collector/src/collector/uploader.py,
  * `_build_hour`, with `bundle_build_lock` and `record_bundle_built` of collector/src/collector/db.py).
  *
  * A builder decides on an hour, waits for its lock, queries the hour's scans, writes the archive
  * and records it. Rows of completed scans become visible, time passes and other builders work
  * between any two of those steps, and a builder may die at any of them.
  */
module BundleBuild {
  type Hour = int
  type ScanId = int

  const HOUR_SEC: int := 3600
  const GRACE: int := 15

  function WindowStart(h: Hour): int { h * HOUR_SEC }

  function WindowEnd(h: Hour): int { (h + 1) * HOUR_SEC }

  /** The hour a completion time falls in. */
  function HourOf(t: int): Hour { t / HOUR_SEC }

  lemma HourOfIsWindow(t: int, h: Hour)
    ensures HourOf(t) == h <==> WindowStart(h) <= t < WindowEnd(h)
  {
  }

  /** Catch-up, in the hourly tick or the one at startup, builds only closed hours that owe a bundle;
    * an operator's upload-now builds any. The hourly tick fires after the grace. (A tick so late that
    * the next hour has ended meanwhile is, for that hour, no better than the one at startup.)
    */
  datatype Who = HourlyTick | StartupTick | Operator

  /** The archive on disk: the scans in it, when they were queried, and for whom. */
  datatype Zip = Zip(scans: set<ScanId>, queriedAt: int, who: Who)

  datatype Builder =
    | Idle
    | Waits(hour: Hour, who: Who)
    | Locked(hour: Hour, who: Who)
    | Queried(hour: Hour, who: Who, scans: set<ScanId>, at: int)
    | Written(hour: Hour, who: Who, scans: set<ScanId>, at: int)

  /** `scans` maps each successful scan that is visible to its completion time; `builtAt` is the table
    * column.
    */
  datatype World = World(
    now: int,
    scans: map<ScanId, int>,
    zips: map<Hour, Zip>,
    builtAt: map<Hour, int>,
    builders: seq<Builder>
  )

  datatype Move =
    | Pass(seconds: nat)
    | ScanDone(id: ScanId, stamp: int)
    | Decide(b: nat, hour: Hour, who: Who)
    | Lock(b: nat)
    | Query(b: nat)
    | Write(b: nat)
    | Record(b: nat)
    | Die(b: nat)

  function InWindow(w: World, h: Hour): set<ScanId> {
    set id | id in w.scans && WindowStart(h) <= w.scans[id] < WindowEnd(h)
  }

  predicate Holding(b: Builder) {
    !b.Idle? && !b.Waits?
  }

  /** What catch-up asks before building: the hour has closed and its bundle is missing or
    * partial. (It also skips an hour that was given up on; that only builds less.)
    */
  predicate CatchUpMayBuild(w: World, h: Hour) {
    WindowEnd(h) <= w.now && (h in w.builtAt ==> w.builtAt[h] < WindowEnd(h))
  }

  /** A row is stamped when its transaction starts and becomes visible when it commits, at `now`.
    * Catch-up decides before it waits for the lock and does not ask again. The lock is granted only
    * while nobody else holds it; a query that finds nothing ends the build.
    */
  predicate Enabled(w: World, m: Move) {
    match m
    case Pass(_) => true
    case ScanDone(id, stamp) => id !in w.scans && stamp <= w.now
    case Decide(b, h, who) => b < |w.builders| && w.builders[b].Idle?
                              && (who != Operator ==> CatchUpMayBuild(w, h))
                              && (who == HourlyTick ==> WindowEnd(h) + GRACE <= w.now)
    case Lock(b) => b < |w.builders| && w.builders[b].Waits?
                    && forall o :: 0 <= o < |w.builders| && Holding(w.builders[o]) ==>
                         w.builders[o].hour != w.builders[b].hour
    case Query(b) => b < |w.builders| && w.builders[b].Locked?
    case Write(b) => b < |w.builders| && w.builders[b].Queried?
    case Record(b) => b < |w.builders| && w.builders[b].Written?
    case Die(b) => b < |w.builders|
  }

  function Next(w: World, m: Move): World
    requires Enabled(w, m)
  {
    match m
    case Pass(s) => w.(now := w.now + s)
    case ScanDone(id, stamp) => w.(scans := w.scans[id := stamp])
    case Decide(b, h, who) => w.(builders := w.builders[b := Waits(h, who)])
    case Lock(b) => w.(builders := w.builders[b := Locked(w.builders[b].hour, w.builders[b].who)])
    case Query(b) =>
      var h := w.builders[b].hour;
      var runs := InWindow(w, h);
      w.(builders := w.builders[b := if runs == {} then Idle else Queried(h, w.builders[b].who, runs, w.now)])
    case Write(b) =>
      var s := w.builders[b];
      w.(zips := w.zips[s.hour := Zip(s.scans, s.at, s.who)],
         builders := w.builders[b := Written(s.hour, s.who, s.scans, s.at)])
    case Record(b) =>
      w.(builtAt := w.builtAt[w.builders[b].hour := w.now], builders := w.builders[b := Idle])
    case Die(b) => w.(builders := w.builders[b := Idle])
  }

  ghost predicate Initial(w: World) {
    && w.scans == map[] && w.zips == map[] && w.builtAt == map[]
    && forall b :: 0 <= b < |w.builders| ==> w.builders[b].Idle?
  }

  ghost predicate IsPath(ws: seq<World>, ms: seq<Move>) {
    && |ws| == |ms| + 1
    && forall i :: 0 <= i < |ms| ==> Enabled(ws[i], ms[i]) && ws[i + 1] == Next(ws[i], ms[i])
  }

  ghost predicate IsRun(ws: seq<World>, ms: seq<Move>) {
    IsPath(ws, ms) && Initial(ws[0])
  }

  /** A snapshot of an hour holds scans of the hour, at least one, and no others. */
  ghost predicate Snapshot(w: World, h: Hour, scans: set<ScanId>, at: int, who: Who) {
    && at <= w.now && scans <= InWindow(w, h) && scans != {}
    && (who == HourlyTick ==> WindowEnd(h) + GRACE <= at)
  }

  ghost predicate SnapshotOf(w: World, s: Builder) {
    && ((s.Waits? || s.Locked?) && s.who == HourlyTick ==> WindowEnd(s.hour) + GRACE <= w.now)
    && (s.Queried? || s.Written? ==>
      && Snapshot(w, s.hour, s.scans, s.at, s.who)
      && (s.Written? ==> s.hour in w.zips)
      && (s.hour in w.zips ==> w.zips[s.hour].queriedAt <= s.at && w.zips[s.hour].scans <= s.scans))
  }

  ghost predicate Exclusive(bs: seq<Builder>) {
    forall b, o :: 0 <= b < o < |bs| && Holding(bs[b]) && Holding(bs[o]) ==> bs[b].hour != bs[o].hour
  }

  ghost predicate Inv(w: World) {
    && Exclusive(w.builders)
    && (forall b :: 0 <= b < |w.builders| ==> SnapshotOf(w, w.builders[b]))
    && (forall h :: h in w.zips ==> Snapshot(w, h, w.zips[h].scans, w.zips[h].queriedAt, w.zips[h].who))
    && (forall h :: h in w.builtAt ==> h in w.zips && w.builtAt[h] <= w.now)
  }

  /** Time only goes on and rows only come to be visible, so a snapshot stays one. */
  lemma SameView(w: World, m: Move)
    requires Enabled(w, m)
    ensures forall h, scans, at, who :: Snapshot(w, h, scans, at, who) ==> Snapshot(Next(w, m), h, scans, at, who)
  {
    assert forall h :: InWindow(w, h) <= InWindow(Next(w, m), h);
  }

  lemma WorldMovesOn(w: World, m: Move)
    requires Inv(w) && Enabled(w, m) && (m.Pass? || m.ScanDone?)
    ensures Inv(Next(w, m))
  {
    SameView(w, m);
    hide Snapshot;
    forall b | 0 <= b < |w.builders|
      ensures SnapshotOf(Next(w, m), w.builders[b])
    {
      assert SnapshotOf(w, w.builders[b]);
    }
  }

  lemma IdleAgain(w: World, m: Move)
    requires Inv(w) && Enabled(w, m) && (m.Record? || m.Die? || m.Decide? || m.Lock?)
    ensures Inv(Next(w, m))
  {
    var w' := Next(w, m);
    SameView(w, m);
    hide Snapshot;
    forall b | 0 <= b < |w'.builders|
      ensures SnapshotOf(w', w'.builders[b])
    {
      assert SnapshotOf(w, w.builders[b]);
    }
  }

  lemma QueryMoves(w: World, m: Move)
    requires Inv(w) && Enabled(w, m) && m.Query?
    ensures Inv(Next(w, m))
  {
    var w' := Next(w, m);
    var h := w.builders[m.b].hour;
    SameView(w, m);
    assert SnapshotOf(w, w.builders[m.b]);
    hide InWindow;
    forall b | 0 <= b < |w'.builders|
      ensures SnapshotOf(w', w'.builders[b])
    {
      assert SnapshotOf(w, w.builders[b]);
    }
  }

  lemma WriteMoves(w: World, m: Move)
    requires Inv(w) && Enabled(w, m) && m.Write?
    ensures Inv(Next(w, m))
  {
    var w' := Next(w, m);
    SameView(w, m);
    assert SnapshotOf(w, w.builders[m.b]);
    hide Snapshot;
    forall b | 0 <= b < |w'.builders|
      ensures SnapshotOf(w', w'.builders[b])
    {
      assert SnapshotOf(w, w.builders[b]);
      assert b < m.b && Holding(w.builders[b]) ==> w.builders[b].hour != w.builders[m.b].hour;
    }
  }

  lemma {:induction false} Reachable(ws: seq<World>, ms: seq<Move>, n: nat)
    requires IsRun(ws, ms) && n < |ws|
    ensures Inv(ws[n])
  {
    hide Next, Enabled;
    if n > 0 {
      hide Inv;
      Reachable(ws, ms, n - 1);
      assert Enabled(ws[n - 1], ms[n - 1]) && ws[n - 1 + 1] == Next(ws[n - 1], ms[n - 1]);
      match ms[n - 1]
      case Pass(_) => WorldMovesOn(ws[n - 1], ms[n - 1]);
      case ScanDone(_, _) => WorldMovesOn(ws[n - 1], ms[n - 1]);
      case Query(_) => QueryMoves(ws[n - 1], ms[n - 1]);
      case Write(_) => WriteMoves(ws[n - 1], ms[n - 1]);
      case _ => IdleAgain(ws[n - 1], ms[n - 1]);
    }
  }

  predicate Complete(w: World, h: Hour) {
    h in w.zips && w.zips[h].scans == InWindow(w, h)
  }

  /** No archive of an hour without a scan is ever written, and none is recorded without being written. */
  lemma NeverEmpty(ws: seq<World>, ms: seq<Move>, n: nat, h: Hour)
    requires IsRun(ws, ms) && n < |ws|
    ensures h in ws[n].zips ==> ws[n].zips[h].scans != {} && ws[n].zips[h].scans <= InWindow(ws[n], h)
    ensures h in ws[n].builtAt ==> h in ws[n].zips
  {
    Reachable(ws, ms, n);
    if h in ws[n].zips {
      assert Snapshot(ws[n], h, ws[n].zips[h].scans, ws[n].zips[h].queriedAt, ws[n].zips[h].who);
    }
  }

  /** Querying inside the lock is what keeps an older snapshot from replacing a newer one. */
  lemma NeverAnOlderSnapshot(ws: seq<World>, ms: seq<Move>, n: nat, h: Hour)
    requires IsRun(ws, ms) && n < |ms| && h in ws[n].zips
    ensures h in ws[n + 1].zips
    ensures ws[n].zips[h].queriedAt <= ws[n + 1].zips[h].queriedAt
    ensures ws[n].zips[h].scans <= ws[n + 1].zips[h].scans
  {
    Reachable(ws, ms, n);
    assert Enabled(ws[n], ms[n]) && ws[n + 1] == Next(ws[n], ms[n]);
    if ms[n].Write? {
      var s := ws[n].builders[ms[n].b];
      assert SnapshotOf(ws[n], s);
      if s.hour == h {
        assert Snapshot(ws[n], h, ws[n].zips[h].scans, ws[n].zips[h].queriedAt, ws[n].zips[h].who);
      }
    }
  }

  ghost predicate CatchUpOnly(ms: seq<Move>) {
    forall i :: 0 <= i < |ms| && ms[i].Decide? ==> ms[i].who != Operator
  }

  /** Every row becomes visible within the grace of its stamp. */
  ghost predicate Prompt(ws: seq<World>, ms: seq<Move>) {
    forall i :: 0 <= i < |ms| && i < |ws| && ms[i].ScanDone? ==> ws[i].now - GRACE <= ms[i].stamp
  }

  /** Some moves, prompt ones, lead from `w` to `w'`, and if `auto`, no operator is among the builders. */
  ghost predicate Leads(w: World, w': World, auto: bool) {
    exists ws, ms ::
      IsPath(ws, ms) && Prompt(ws, ms) && ws[0] == w && ws[|ms|] == w' && (auto ==> CatchUpOnly(ms))
  }

  lemma StandsStill(w: World, auto: bool)
    ensures Leads(w, w, auto)
  {
    var ws, ms := [w], [];
    assert IsPath(ws, ms);
  }

  /** The recorded time is that of the record, not of the query. An operator's build that
    * queries before the hour ends and records after it leaves a partial bundle that catch-up
    * takes for a complete one.
    */
  lemma StraddlingBuildLooksComplete()
    ensures exists w0, w ::
              && Initial(w0) && Leads(w0, w, false)
              && 0 in w.builtAt && 0 in w.zips && WindowEnd(0) <= w.builtAt[0] && !CatchUpMayBuild(w, 0)
              && !Complete(w, 0) && InWindow(w, 0) == {1, 2} && w.zips[0].scans == {1}
  {
    hide Leads;
    var w0 := World(3580, map[], map[], map[], [Idle]);
    var w := w0;
    StandsStill(w0, false);
    Moved(w0, w, ScanDone(1, 3580), false);
    w := Next(w, ScanDone(1, 3580));
    Moved(w0, w, Decide(0, 0, Operator), false);
    w := Next(w, Decide(0, 0, Operator));
    Moved(w0, w, Lock(0), false);
    w := Next(w, Lock(0));
    assert InWindow(w, 0) == {1};
    Moved(w0, w, Query(0), false);
    w := Next(w, Query(0));
    Moved(w0, w, Pass(5), false);
    w := Next(w, Pass(5));
    Moved(w0, w, ScanDone(2, 3585), false);
    w := Next(w, ScanDone(2, 3585));
    Moved(w0, w, Pass(20), false);
    w := Next(w, Pass(20));
    Moved(w0, w, Write(0), false);
    w := Next(w, Write(0));
    Moved(w0, w, Record(0), false);
    w := Next(w, Record(0));
    assert w.scans == map[1 := 3580, 2 := 3585] && w.zips[0].scans == {1};
    assert InWindow(w, 0) == {1, 2};
    assert 2 !in w.zips[0].scans;
    assert Initial(w0) && Leads(w0, w, false);
  }

  lemma Moved(w: World, w': World, m: Move, auto: bool)
    requires Leads(w, w', auto) && Enabled(w', m) && (auto && m.Decide? ==> m.who != Operator)
    requires m.ScanDone? ==> w'.now - GRACE <= m.stamp
    ensures Leads(w, Next(w', m), auto)
  {
    hide Enabled, Next;
    var ws, ms :| IsPath(ws, ms) && Prompt(ws, ms) && ws[0] == w && ws[|ms|] == w' && (auto ==> CatchUpOnly(ms));
    var ws', ms' := ws + [Next(w', m)], ms + [m];
    assert IsPath(ws', ms') && Prompt(ws', ms');
  }
}
