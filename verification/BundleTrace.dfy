/** What a run of interleaved builders did: which query an archive comes from, and whether an hour was
  * recorded between catch-up's decision to build it and the lock it then got.
  */
module BundleTrace {
  import opened Common
  import opened BundleBuild

  // --- the query behind an archive ----------------------------------------------------------

  /** Step `q` is a query of the hour, at `at`, that found `scans`. */
  ghost predicate QueryAt(ws: seq<World>, ms: seq<Move>, q: nat, h: Hour, scans: set<ScanId>, at: int) {
    && q < |ms| < |ws| && ms[q].Query? && ms[q].b < |ws[q].builders|
    && ws[q].builders[ms[q].b].Locked? && ws[q].builders[ms[q].b].hour == h
    && scans == InWindow(ws[q], h) && at == ws[q].now
  }

  ghost predicate Traced(ws: seq<World>, ms: seq<Move>, n: nat, h: Hour, scans: set<ScanId>, at: int) {
    exists q: nat :: q < n && QueryAt(ws, ms, q, h, scans, at)
  }

  ghost predicate BuilderTraced(ws: seq<World>, ms: seq<Move>, n: nat, s: Builder) {
    s.Queried? || s.Written? ==> Traced(ws, ms, n, s.hour, s.scans, s.at)
  }

  ghost predicate AllTraced(ws: seq<World>, ms: seq<Move>, n: nat)
    requires n < |ws|
  {
    && (forall b :: 0 <= b < |ws[n].builders| ==> BuilderTraced(ws, ms, n, ws[n].builders[b]))
    && (forall h :: h in ws[n].zips ==> Traced(ws, ms, n, h, ws[n].zips[h].scans, ws[n].zips[h].queriedAt))
  }

  lemma TracedLater(ws: seq<World>, ms: seq<Move>, n: nat)
    ensures forall h, scans, at :: Traced(ws, ms, n, h, scans, at) ==> Traced(ws, ms, n + 1, h, scans, at)
  {
  }

  lemma {:induction false} EverythingTraced(ws: seq<World>, ms: seq<Move>, n: nat)
    requires IsRun(ws, ms) && n < |ws|
    ensures AllTraced(ws, ms, n)
  {
    hide InWindow, QueryAt, Traced;
    if n > 0 {
      EverythingTraced(ws, ms, n - 1);
      var w, m := ws[n - 1], ms[n - 1];
      assert Enabled(w, m) && ws[n - 1 + 1] == Next(w, m);
      TracedLater(ws, ms, n - 1);
      if m.Query? {
        ThisQuery(ws, ms, n - 1);
      }
      forall b | 0 <= b < |ws[n].builders|
        ensures BuilderTraced(ws, ms, n, ws[n].builders[b])
      {
        assert BuilderTraced(ws, ms, n - 1, w.builders[b]);
      }
      if m.Write? {
        assert BuilderTraced(ws, ms, n - 1, w.builders[m.b]);
      }
    }
  }

  lemma ThisQuery(ws: seq<World>, ms: seq<Move>, q: nat)
    requires q < |ms| < |ws| && Enabled(ws[q], ms[q]) && ms[q].Query?
    ensures var h := ws[q].builders[ms[q].b].hour;
            Traced(ws, ms, q + 1, h, InWindow(ws[q], h), ws[q].now)
  {
    var h := ws[q].builders[ms[q].b].hour;
    assert QueryAt(ws, ms, q, h, InWindow(ws[q], h), ws[q].now);
  }

  // --- complete if and only if no scan of the hour became visible after the query ------------

  /** At step `i` a scan completed in the hour becomes visible. */
  ghost predicate ScanOfHourAt(ws: seq<World>, ms: seq<Move>, i: nat, h: Hour) {
    i < |ms| < |ws| && ms[i].ScanDone? && HourOf(ms[i].stamp) == h
  }

  lemma {:induction false} WindowGrows(ws: seq<World>, ms: seq<Move>, q: nat, n: nat, h: Hour)
    requires IsRun(ws, ms) && q <= n < |ws|
    ensures InWindow(ws[q], h) <= InWindow(ws[n], h)
    ensures InWindow(ws[q], h) == InWindow(ws[n], h) <==> forall i :: q <= i < n ==> !ScanOfHourAt(ws, ms, i, h)
    decreases n - q
  {
    hide InWindow, Next, Enabled;
    if q < n {
      WindowGrows(ws, ms, q, n - 1, h);
      var w, m := ws[n - 1], ms[n - 1];
      assert Enabled(w, m) && ws[n - 1 + 1] == Next(w, m);
      assert ScanOfHourAt(ws, ms, n - 1, h) <==> m.ScanDone? && HourOf(m.stamp) == h;
      WindowStep(w, m, h);
      hide ScanOfHourAt, IsRun;
      assert m.ScanDone? && HourOf(m.stamp) == h ==> m.id in InWindow(ws[n], h);
    }
  }

  lemma WindowStep(w: World, m: Move, h: Hour)
    requires Enabled(w, m)
    ensures InWindow(Next(w, m), h)
            == if m.ScanDone? && HourOf(m.stamp) == h then InWindow(w, h) + {m.id} else InWindow(w, h)
    ensures m.ScanDone? ==> m.id !in InWindow(w, h)
  {
    if m.ScanDone? {
      HourOfIsWindow(m.stamp, h);
    }
  }

  /** An archive was queried at some step `q`, and it holds every successful scan of its hour if and
    * only if none of that hour became visible after that step, whatever was recorded and when.
    */
  lemma CompleteIffNoScanAfterQuery(ws: seq<World>, ms: seq<Move>, n: nat, h: Hour)
    requires IsRun(ws, ms) && n < |ws| && h in ws[n].zips
    ensures exists q: nat ::
              && q < n && QueryAt(ws, ms, q, h, ws[n].zips[h].scans, ws[n].zips[h].queriedAt)
              && (Complete(ws[n], h) <==> forall i :: q <= i < n ==> !ScanOfHourAt(ws, ms, i, h))
  {
    hide InWindow, ScanOfHourAt;
    EverythingTraced(ws, ms, n);
    assert Traced(ws, ms, n, h, ws[n].zips[h].scans, ws[n].zips[h].queriedAt);
    var q: nat :| q < n && QueryAt(ws, ms, q, h, ws[n].zips[h].scans, ws[n].zips[h].queriedAt);
    WindowGrows(ws, ms, q, n, h);
  }

  /** Once the grace of an hour is over, no row of it becomes visible any more. */
  lemma {:induction false} NothingAfterGrace(ws: seq<World>, ms: seq<Move>, q: nat, n: nat, h: Hour)
    requires IsPath(ws, ms) && Prompt(ws, ms) && q <= n < |ws| && WindowEnd(h) + GRACE <= ws[q].now
    ensures ws[q].now <= ws[n].now && forall i :: q <= i < n ==> !ScanOfHourAt(ws, ms, i, h)
    decreases n - q
  {
    if q < n {
      NothingAfterGrace(ws, ms, q, n - 1, h);
      assert Enabled(ws[n - 1], ms[n - 1]) && ws[n - 1 + 1] == Next(ws[n - 1], ms[n - 1]);
      if ms[n - 1].ScanDone? {
        HourOfIsWindow(ms[n - 1].stamp, h);
      }
    }
  }

  /** So an archive queried once the grace is over holds every successful scan completed in its hour,
    * however builders interleave and die, and goes on doing so.
    */
  lemma QueriedAfterGraceIsComplete(ws: seq<World>, ms: seq<Move>, n: nat, h: Hour)
    requires IsRun(ws, ms) && Prompt(ws, ms) && n < |ws|
    requires h in ws[n].zips && WindowEnd(h) + GRACE <= ws[n].zips[h].queriedAt
    ensures Complete(ws[n], h)
  {
    hide Complete, ScanOfHourAt, Prompt;
    CompleteIffNoScanAfterQuery(ws, ms, n, h);
    var q: nat :| q < n && QueryAt(ws, ms, q, h, ws[n].zips[h].scans, ws[n].zips[h].queriedAt)
                  && (Complete(ws[n], h) <==> forall i :: q <= i < n ==> !ScanOfHourAt(ws, ms, i, h));
    NothingAfterGrace(ws, ms, q, n, h);
  }

  /** And whatever the hourly tick wrote last is complete. */
  lemma HourlyTickWritesComplete(ws: seq<World>, ms: seq<Move>, n: nat, h: Hour)
    requires IsRun(ws, ms) && Prompt(ws, ms) && n < |ws|
    requires h in ws[n].zips && ws[n].zips[h].who == HourlyTick
    ensures Complete(ws[n], h)
  {
    Reachable(ws, ms, n);
    QueriedAfterGraceIsComplete(ws, ms, n, h);
  }

  /** A build that does not wait, an operator's or the one at startup, can query within the grace, after
    * the end of the hour: it misses a scan completed in the hour, and catch-up takes its bundle for
    * a complete one.
    */
  lemma BuildWithinGraceMissesScan(who: Who)
    requires who != HourlyTick
    ensures exists w0, w ::
              && Initial(w0) && Leads(w0, w, who != Operator)
              && 0 in w.zips && WindowEnd(0) <= w.zips[0].queriedAt && w.zips[0].scans == {1}
              && 0 in w.builtAt && !CatchUpMayBuild(w, 0) && InWindow(w, 0) == {1, 2} && !Complete(w, 0)
  {
    hide Leads;
    var auto := who != Operator;
    var w0 := World(3600, map[], map[], map[], [Idle]);
    StandsStill(w0, auto);
    Moved(w0, w0, ScanDone(1, 3590), auto);
    var w := Next(w0, ScanDone(1, 3590));
    Moved(w0, w, Decide(0, 0, who), auto);
    w := Next(w, Decide(0, 0, who));
    Moved(w0, w, Lock(0), auto);
    w := Next(w, Lock(0));
    assert InWindow(w, 0) == {1};
    Moved(w0, w, Query(0), auto);
    w := Next(w, Query(0));
    Moved(w0, w, ScanDone(2, 3599), auto);
    w := Next(w, ScanDone(2, 3599));
    Moved(w0, w, Write(0), auto);
    w := Next(w, Write(0));
    Moved(w0, w, Record(0), auto);
    w := Next(w, Record(0));
    assert InWindow(w, 0) == {1, 2};
    assert 2 !in w.zips[0].scans;
    assert Initial(w0) && Leads(w0, w, auto);
  }

  // --- a decision that went stale -------------------------------------------------------------

  /** Step `i` records a bundle of the hour. */
  ghost predicate RecordsAt(ws: seq<World>, ms: seq<Move>, i: nat, h: Hour) {
    && i < |ms| < |ws| && ms[i].Record? && ms[i].b < |ws[i].builders|
    && ws[i].builders[ms[i].b].Written? && ws[i].builders[ms[i].b].hour == h
  }

  ghost predicate RecordedBetween(ws: seq<World>, ms: seq<Move>, a: nat, n: nat, h: Hour) {
    exists i: nat :: a <= i < n && RecordsAt(ws, ms, i, h)
  }

  /** The builder that waits at step `n` decided at step `a`. */
  ghost predicate DecidedAt(ws: seq<World>, ms: seq<Move>, a: nat, b: nat, h: Hour, who: Who) {
    a < |ms| < |ws| && ms[a] == Decide(b, h, who)
  }

  lemma {:induction false} Decision(ws: seq<World>, ms: seq<Move>, n: nat, b: nat)
    requires IsRun(ws, ms) && n < |ws| && b < |ws[n].builders| && ws[n].builders[b].Waits?
    ensures exists a: nat :: a < n && DecidedAt(ws, ms, a, b, ws[n].builders[b].hour, ws[n].builders[b].who)
  {
    assert n > 0;
    var w, m := ws[n - 1], ms[n - 1];
    assert Enabled(w, m) && ws[n - 1 + 1] == Next(w, m);
    if m.Decide? && m.b == b {
      assert DecidedAt(ws, ms, n - 1, b, ws[n].builders[b].hour, ws[n].builders[b].who);
    } else {
      assert w.builders[b] == ws[n].builders[b];
      Decision(ws, ms, n - 1, b);
    }
  }

  lemma DueStep(w: World, m: Move, h: Hour)
    requires Enabled(w, m) && WindowEnd(h) <= w.now
    ensures WindowEnd(h) <= Next(w, m).now
    ensures CatchUpMayBuild(Next(w, m), h)
            <==> CatchUpMayBuild(w, h) && !(m.Record? && w.builders[m.b].hour == h)
  {
  }

  lemma {:induction false} RecordedSince(ws: seq<World>, ms: seq<Move>, a: nat, n: nat, h: Hour)
    requires IsRun(ws, ms) && a <= n < |ws| && CatchUpMayBuild(ws[a], h)
    ensures CatchUpMayBuild(ws[n], h) <==> !RecordedBetween(ws, ms, a, n, h)
    ensures WindowEnd(h) <= ws[n].now
    decreases n - a
  {
    if a < n {
      RecordedSince(ws, ms, a, n - 1, h);
      var w, m := ws[n - 1], ms[n - 1];
      assert Enabled(w, m) && ws[n - 1 + 1] == Next(w, m);
      DueStep(w, m, h);
      assert RecordsAt(ws, ms, n - 1, h) <==> m.Record? && w.builders[m.b].hour == h;
      hide IsRun, Enabled, Next, CatchUpMayBuild, RecordsAt;
      assert RecordedBetween(ws, ms, a, n, h) <==> RecordedBetween(ws, ms, a, n - 1, h) || RecordsAt(ws, ms, n - 1, h);
    }
  }

  /** Catch-up gets the lock of an hour it no longer owes, and so rebuilds a recorded one, if and only
    * if another builder recorded the hour between the decision and the lock.
    */
  lemma StaleIffRecordedMeanwhile(ws: seq<World>, ms: seq<Move>, n: nat)
    requires IsRun(ws, ms) && n < |ms| && ms[n].Lock?
    requires ms[n].b < |ws[n].builders| && ws[n].builders[ms[n].b].Waits? && ws[n].builders[ms[n].b].who != Operator
    ensures var h, who := ws[n].builders[ms[n].b].hour, ws[n].builders[ms[n].b].who;
            exists a: nat ::
              && a < n && DecidedAt(ws, ms, a, ms[n].b, h, who) && CatchUpMayBuild(ws[a], h)
              && (!CatchUpMayBuild(ws[n], h) <==> RecordedBetween(ws, ms, a, n, h))
  {
    var h, who := ws[n].builders[ms[n].b].hour, ws[n].builders[ms[n].b].who;
    Decision(ws, ms, n, ms[n].b);
    var a: nat :| a < n && DecidedAt(ws, ms, a, ms[n].b, h, who);
    assert Enabled(ws[a], ms[a]);
    RecordedSince(ws, ms, a, n, h);
  }

  /** The hourly tick decides on an hour while an operator's build of it, begun before the end of the
    * hour, is under way; it waits while that one records a complete bundle, and perhaps ships it, and
    * then builds and records the hour again.
    */
  lemma CompleteHourRebuilt()
    ensures exists w0, w, w' ::
              && Initial(w0) && Leads(w0, w, false) && Leads(w, w', true)
              && 0 in w.builtAt && WindowEnd(0) <= w.builtAt[0] && Complete(w, 0) && !CatchUpMayBuild(w, 0)
              && 0 in w'.builtAt && w.builtAt[0] < w'.builtAt[0]
  {
    hide Leads;
    var w0 := World(3590, map[], map[], map[], [Idle, Idle]);
    OperatorStraddles(w0);
    var w :| Straddled(w0, w);
    StandsStill(w, true);
    Moved(w, w, Pass(30), true);
    var later := Next(w, Pass(30));
    RebuiltByTick(w, later);
    var w' :| Leads(w, w', true) && 0 in w'.builtAt && w'.builtAt[0] == later.now;
    assert Initial(w0) && Leads(w0, w, false) && Leads(w, w', true);
  }

  /** The operator's bundle is recorded, and the hourly tick waits for the hour. */
  ghost predicate Straddled(w0: World, w: World) {
    && Leads(w0, w, false) && w.builders == [Idle, Waits(0, HourlyTick)] && InWindow(w, 0) == {1}
    && 0 in w.builtAt && WindowEnd(0) <= w.builtAt[0] == w.now && Complete(w, 0)
  }

  lemma OperatorStraddles(w0: World)
    requires w0 == World(3590, map[], map[], map[], [Idle, Idle])
    ensures exists w :: Straddled(w0, w)
  {
    hide Leads;
    StandsStill(w0, false);
    Moved(w0, w0, ScanDone(1, 3580), false);
    var w := Next(w0, ScanDone(1, 3580));
    Moved(w0, w, Decide(0, 0, Operator), false);
    w := Next(w, Decide(0, 0, Operator));
    Moved(w0, w, Lock(0), false);
    w := Next(w, Lock(0));
    assert InWindow(w, 0) == {1};
    Moved(w0, w, Query(0), false);
    w := Next(w, Query(0));
    Moved(w0, w, Pass(30), false);
    w := Next(w, Pass(30));
    Moved(w0, w, Decide(1, 0, HourlyTick), false);
    w := Next(w, Decide(1, 0, HourlyTick));
    Moved(w0, w, Write(0), false);
    w := Next(w, Write(0));
    Moved(w0, w, Record(0), false);
    w := Next(w, Record(0));
    assert InWindow(w, 0) == {1};
    assert Straddled(w0, w);
  }

  lemma RebuiltByTick(w0: World, w: World)
    requires Leads(w0, w, true) && w.builders == [Idle, Waits(0, HourlyTick)] && InWindow(w, 0) == {1}
    ensures exists w' :: Leads(w0, w', true) && 0 in w'.builtAt && w'.builtAt[0] == w.now
  {
    hide Leads;
    Moved(w0, w, Lock(1), true);
    var w' := Next(w, Lock(1));
    assert InWindow(w', 0) == {1};
    Moved(w0, w', Query(1), true);
    w' := Next(w', Query(1));
    Moved(w0, w', Write(1), true);
    w' := Next(w', Write(1));
    Moved(w0, w', Record(1), true);
    w' := Next(w', Record(1));
    assert Leads(w0, w', true);
  }

  // --- what stays --------------------------------------------------------------------------

  predicate Concerned(s: Builder, h: Hour) {
    !s.Idle? && s.hour == h
  }

  ghost predicate Unattended(w: World, h: Hour) {
    forall b :: 0 <= b < |w.builders| ==> !Concerned(w.builders[b], h)
  }

  /** The record of an hour's bundle and the archive it is of. */
  function RecordOf(w: World, h: Hour): Option<(int, Zip)> {
    if h in w.builtAt && h in w.zips then Some((w.builtAt[h], w.zips[h])) else None
  }

  lemma StayStep(w: World, m: Move, h: Hour)
    requires Enabled(w, m) && Unattended(w, h)
    requires h in w.builtAt && h in w.zips && WindowEnd(h) <= w.builtAt[h]
    requires m.Decide? && m.hour == h ==> m.who != Operator
    ensures Unattended(Next(w, m), h) && RecordOf(Next(w, m), h) == RecordOf(w, h)
  {
    if m.Write? || m.Record? || m.Query? || m.Lock? {
      assert !Concerned(w.builders[m.b], h);
    }
  }

  lemma {:induction false} RecordStays(ws: seq<World>, ms: seq<Move>, n: nat, m: nat, h: Hour)
    requires IsRun(ws, ms) && n <= m < |ws|
    requires h in ws[n].builtAt && WindowEnd(h) <= ws[n].builtAt[h] && Unattended(ws[n], h)
    requires forall i :: n <= i < m && ms[i].Decide? && ms[i].hour == h ==> ms[i].who != Operator
    ensures RecordOf(ws[m], h) == RecordOf(ws[n], h)
    ensures Unattended(ws[m], h)
    decreases m - n
  {
    hide Unattended, Next, Enabled;
    Reachable(ws, ms, n);
    if n < m {
      RecordStays(ws, ms, n, m - 1, h);
      assert Enabled(ws[m - 1], ms[m - 1]) && ws[m - 1 + 1] == Next(ws[m - 1], ms[m - 1]);
      StayStep(ws[m - 1], ms[m - 1], h);
    }
  }

  /** Once an hour is recorded at or after its end, and nobody is at it, automation leaves archive and
    * record as they are for good, however builders of other hours interleave and die; only an
    * operator's build changes that. A complete archive stays complete if and only if no row of the
    * hour becomes visible meanwhile, and so it does once the grace is over.
    */
  lemma CompleteHourStays(ws: seq<World>, ms: seq<Move>, n: nat, m: nat, h: Hour)
    requires IsRun(ws, ms) && n <= m < |ws|
    requires h in ws[n].builtAt && WindowEnd(h) <= ws[n].builtAt[h] && Unattended(ws[n], h)
    requires forall i :: n <= i < m && ms[i].Decide? && ms[i].hour == h ==> ms[i].who != Operator
    ensures RecordOf(ws[n], h).Some? && RecordOf(ws[m], h) == RecordOf(ws[n], h) && !CatchUpMayBuild(ws[m], h)
    ensures Complete(ws[n], h) ==>
              (Complete(ws[m], h) <==> forall i :: n <= i < m ==> !ScanOfHourAt(ws, ms, i, h))
    ensures Complete(ws[n], h) && Prompt(ws, ms) && WindowEnd(h) + GRACE <= ws[n].now ==> Complete(ws[m], h)
  {
    hide InWindow, ScanOfHourAt, Prompt, Unattended;
    Reachable(ws, ms, n);
    RecordStays(ws, ms, n, m, h);
    WindowGrows(ws, ms, n, m, h);
    if Prompt(ws, ms) && WindowEnd(h) + GRACE <= ws[n].now {
      NothingAfterGrace(ws, ms, n, m, h);
    }
  }
}
