/** What one flush guarantees, and what the bundle queue keeps over whole runs. */
module BundleRuns {
  import opened Common
  import opened BundleBuild
  import opened BundleQueue

  // --- one flush ------------------------------------------------------------------------

  /** Failures that close the list of uploads. */
  function ClosingFailures(us: seq<Upload>): nat {
    if us == [] || us[|us| - 1].ok then 0 else 1 + ClosingFailures(us[..|us| - 1])
  }

  ghost predicate NoFourInARow(us: seq<Upload>) {
    forall i :: 0 <= i && i + 3 < |us| ==> us[i].ok || us[i + 1].ok || us[i + 2].ok || us[i + 3].ok
  }

  ghost predicate Tally(f: Flow) {
    && f.attempted == f.succeeded + f.failed == |f.uploads| <= MAX_ATTEMPTS_PER_TICK
    && f.streak == ClosingFailures(f.uploads) <= BREAKER_FAILURES
    && NoFourInARow(f.uploads)
  }

  lemma {:induction false} ClosingRun(us: seq<Upload>)
    ensures ClosingFailures(us) <= |us|
    ensures ClosingFailures(us) < |us| ==> us[|us| - 1 - ClosingFailures(us)].ok
  {
    if us != [] && !us[|us| - 1].ok {
      ClosingRun(us[..|us| - 1]);
    }
  }

  lemma AppendCloses(us: seq<Upload>, u: Upload)
    ensures ClosingFailures(us + [u]) == if u.ok then 0 else 1 + ClosingFailures(us)
  {
    assert (us + [u])[..|us|] == us;
  }

  lemma AppendNoFour(us: seq<Upload>, u: Upload)
    requires NoFourInARow(us) && ClosingFailures(us) < BREAKER_FAILURES
    ensures NoFourInARow(us + [u])
  {
    ClosingRun(us);
    var n := |us|;
    hide ClosingFailures;
    assert n >= 3 ==> us[n - 1].ok || us[n - 2].ok || us[n - 3].ok;
  }

  lemma VisitTally(f: Flow, h: Hour, v: Visit, now: int, dirPresent: bool)
    requires h in f.rows && Tally(f) && !Halts(f, v)
    ensures Tally(VisitRow(f, h, v, now, dirPresent))
  {
    hide NoFourInARow, ClosingFailures;
    AppendCloses(f.uploads, Upload(h, v.ok));
    AppendNoFour(f.uploads, Upload(h, v.ok));
  }

  /** One flush attempts at most 30 uploads, each counted once as a success or a failure, and
    * never makes a fourth failed upload in a row.
    */
  lemma {:induction false} FlushTally(f: Flow, order: seq<Hour>, visits: map<Hour, Visit>, now: int, dirPresent: bool, k: nat)
    requires k <= |order| && Listed(order, visits, f.rows) && Tally(f)
    ensures Tally(FlushFrom(f, order, visits, now, dirPresent, k))
    decreases |order| - k
  {
    hide Tally, VisitRow, Halts;
    if k < |order| {
      var v := visits[order[k]];
      if Halts(f, v) {
        assert Tally(Halted(f, v)) by { HaltTally(f, v); }
      } else {
        VisitTally(f, order[k], v, now, dirPresent);
        VisitKeys(f, order[k], v, now, dirPresent);
        FlushTally(VisitRow(f, order[k], v, now, dirPresent), order, visits, now, dirPresent, k + 1);
      }
    }
  }

  lemma HaltTally(f: Flow, v: Visit)
    requires Tally(f)
    ensures Tally(Halted(f, v))
  {
  }

  lemma VisitKeys(f: Flow, h: Hour, v: Visit, now: int, dirPresent: bool)
    requires h in f.rows
    ensures VisitRow(f, h, v, now, dirPresent).rows.Keys == f.rows.Keys
  {
  }

  /** Less than 4 hours after the last attempt once three have failed, less than 12 once eight have. */
  predicate Rests(r: Row, now: int) {
    r.lastAttempt.Some?
    && now < r.lastAttempt.value + HOUR_SEC * (if r.retries >= 8 then 12 else if r.retries >= 3 then 4 else 0)
  }

  /** What a visit makes of a row: nothing while it rests, or when its file is missing with the whole
    * directory; a tombstone when only the file is missing; an upload; or one more failure.
    */
  predicate Outcome(r: Row, r': Row, v: Visit, now: int, dirPresent: bool) {
    r' == if LeftAlone(r, v, now, dirPresent) then r
          else if !v.onDisk then (if Pending(r) then r.(gaveUpAt := Some(v.at), lastAttempt := Some(v.at)) else r)
          else if v.ok then r.(uploadedAt := Some(v.at), lastAttempt := Some(v.at))
          else r.(lastAttempt := Some(v.at), retries := r.retries + 1)
  }

  predicate LeftAlone(r: Row, v: Visit, now: int, dirPresent: bool) {
    Rests(r, now) || (!v.onDisk && !dirPresent)
  }

  /** The uploads due among the first `n` rows of the list: those on disk that do not rest. */
  function Due(rows: map<Hour, Row>, order: seq<Hour>, visits: map<Hour, Visit>, now: int, n: nat): seq<Upload>
    requires n <= |order| && Listed(order, visits, rows)
  {
    if n == 0 then []
    else
      var h := order[n - 1];
      Due(rows, order, visits, now, n - 1)
      + (if visits[h].onDisk && !Rests(rows[h], now) then [Upload(h, visits[h].ok)] else [])
  }

  /** How many of the first `n` rows are left alone. */
  function Alone(rows: map<Hour, Row>, order: seq<Hour>, visits: map<Hour, Visit>, now: int, dirPresent: bool, n: nat): nat
    requires n <= |order| && Listed(order, visits, rows)
  {
    if n == 0 then 0
    else
      var h := order[n - 1];
      Alone(rows, order, visits, now, dirPresent, n - 1) + if LeftAlone(rows[h], visits[h], now, dirPresent) then 1 else 0
  }

  /** The last three uploads failed. */
  predicate TransportDown(us: seq<Upload>) {
    var n := |us|;
    n >= 3 && !us[n - 1].ok && !us[n - 2].ok && !us[n - 3].ok
  }

  /** What a flush asks before each row: no stop request, fewer than 30 attempts, and not three failures
    * on end.
    */
  predicate GoesOn(us: seq<Upload>, v: Visit) {
    !v.stop && |us| < 30 && !TransportDown(us)
  }

  /** The flush has visited exactly the first `k` rows: it has tried the uploads due among them, each row
    * is as its visit made it, and each is counted once.
    */
  ghost predicate Visited(rows: map<Hour, Row>, swept: nat, order: seq<Hour>, visits: map<Hour, Visit>, now: int,
                          dirPresent: bool, f: Flow, k: nat)
    requires Listed(order, visits, rows)
  {
    && k <= |order| && Tally(f) && RowsVisited(rows, order, visits, now, dirPresent, f.rows, k)
    && f.uploads == Due(rows, order, visits, now, k)
    && (forall m :: 0 <= m < k ==> GoesOn(Due(rows, order, visits, now, m), visits[order[m]]))
    && f.skipped == Alone(rows, order, visits, now, dirPresent, k)
    && f.attempted + f.skipped + f.gaveUp == k + swept
  }

  ghost predicate RowsVisited(rows: map<Hour, Row>, order: seq<Hour>, visits: map<Hour, Visit>, now: int, dirPresent: bool,
                              rows': map<Hour, Row>, k: nat)
    requires Listed(order, visits, rows) && k <= |order|
  {
    && rows'.Keys == rows.Keys
    && forall h :: h in rows ==>
         if h in order[..k] && h in visits then Outcome(rows[h], rows'[h], visits[h], now, dirPresent) else rows'[h] == rows[h]
  }

  lemma ClosingIsDown(us: seq<Upload>)
    ensures TransportDown(us) <==> ClosingFailures(us) >= 3
  {
    if us != [] && !us[|us| - 1].ok {
      var vs := us[..|us| - 1];
      if vs != [] && !vs[|vs| - 1].ok {
        assert ClosingFailures(us) == 2 + ClosingFailures(vs[..|vs| - 1]);
      }
    }
  }

  lemma HaltsIff(f: Flow, v: Visit)
    requires Tally(f)
    ensures Halts(f, v) <==> !GoesOn(f.uploads, v)
    ensures Halted(f, v).tripped <==> !v.stop && |f.uploads| < 30 && TransportDown(f.uploads)
  {
    ClosingIsDown(f.uploads);
    hide NoFourInARow, ClosingFailures, TransportDown;
  }

  /** One visit: its row, its upload if one is due, and how it is counted. */
  lemma OneVisit(f: Flow, h: Hour, v: Visit, now: int, dirPresent: bool)
    requires h in f.rows
    ensures var r, f' := f.rows[h], VisitRow(f, h, v, now, dirPresent);
            && f'.rows.Keys == f.rows.Keys && f'.rows == f.rows[h := f'.rows[h]]
            && Outcome(r, f'.rows[h], v, now, dirPresent)
            && f'.uploads == f.uploads + (if v.onDisk && !Rests(r, now) then [Upload(h, v.ok)] else [])
            && f'.skipped == f.skipped + (if LeftAlone(r, v, now, dirPresent) then 1 else 0)
            && f'.attempted + f'.skipped + f'.gaveUp == f.attempted + f.skipped + f.gaveUp + 1
            && f'.tripped == f.tripped
  {
  }

  lemma RowVisited(rows: map<Hour, Row>, order: seq<Hour>, visits: map<Hour, Visit>, now: int, dirPresent: bool,
                   rows': map<Hour, Row>, r': Row, k: nat)
    requires Listed(order, visits, rows) && k < |order| && RowsVisited(rows, order, visits, now, dirPresent, rows', k)
    requires Outcome(rows[order[k]], r', visits[order[k]], now, dirPresent)
    ensures RowsVisited(rows, order, visits, now, dirPresent, rows'[order[k] := r'], k + 1)
  {
    hide Outcome;
    NotBefore(order, visits, rows, k);
    hide Listed;
    assert order[..k + 1] == order[..k] + [order[k]];
  }

  lemma NotBefore(order: seq<Hour>, visits: map<Hour, Visit>, rows: map<Hour, Row>, k: nat)
    requires Listed(order, visits, rows) && k < |order|
    ensures order[k] !in order[..k] && order[k] in visits && order[k] in rows
  {
  }

  lemma DueNext(rows: map<Hour, Row>, order: seq<Hour>, visits: map<Hour, Visit>, now: int, dirPresent: bool, k: nat)
    requires Listed(order, visits, rows) && k < |order|
    ensures var r, v := rows[order[k]], visits[order[k]];
            && Due(rows, order, visits, now, k + 1)
               == Due(rows, order, visits, now, k) + (if v.onDisk && !Rests(r, now) then [Upload(order[k], v.ok)] else [])
            && Alone(rows, order, visits, now, dirPresent, k + 1)
               == Alone(rows, order, visits, now, dirPresent, k) + (if LeftAlone(r, v, now, dirPresent) then 1 else 0)
  {
    hide Rests;
  }

  lemma VisitNext(rows: map<Hour, Row>, swept: nat, order: seq<Hour>, visits: map<Hour, Visit>, now: int,
                  dirPresent: bool, f: Flow, k: nat)
    requires Listed(order, visits, rows) && Visited(rows, swept, order, visits, now, dirPresent, f, k) && k < |order|
    requires order[k] in f.rows && !Halts(f, visits[order[k]])
    ensures var f' := VisitRow(f, order[k], visits[order[k]], now, dirPresent);
            && Visited(rows, swept, order, visits, now, dirPresent, f', k + 1)
            && f'.rows.Keys == f.rows.Keys && f'.tripped == f.tripped
  {
    hide Tally, VisitRow, Outcome, Rests, Halts, GoesOn, RowsVisited, LeftAlone, Due, Alone;
    NotBefore(order, visits, rows, k);
    FirstRow(rows, order, visits, now, dirPresent, f.rows, k);
    hide Listed;
    var h, v := order[k], visits[order[k]];
    VisitTally(f, h, v, now, dirPresent);
    HaltsIff(f, v);
    OneVisit(f, h, v, now, dirPresent);
    DueNext(rows, order, visits, now, dirPresent, k);
    var f' := VisitRow(f, h, v, now, dirPresent);
    RowVisited(rows, order, visits, now, dirPresent, f.rows, f'.rows[h], k);
  }

  lemma FirstRow(rows: map<Hour, Row>, order: seq<Hour>, visits: map<Hour, Visit>, now: int, dirPresent: bool,
                 rows': map<Hour, Row>, k: nat)
    requires Listed(order, visits, rows) && k < |order| && RowsVisited(rows, order, visits, now, dirPresent, rows', k)
    ensures rows'.Keys == rows.Keys && order[k] in rows' && rows'[order[k]] == rows[order[k]]
  {
    hide Outcome;
    NotBefore(order, visits, rows, k);
    hide Listed;
    var h := order[k];
    assert h in rows' by { assert h in rows.Keys; }
    assert rows'[h] == rows[h];
  }

  /** Where a flush ends, and why: at the end of the list, or at the first row before which it is told to
    * stop, has tried 30 uploads, or has seen three in a row fail; only the last counts as tripped.
    */
  ghost predicate EndsAt(rows: map<Hour, Row>, swept: nat, order: seq<Hour>, visits: map<Hour, Visit>, now: int,
                         dirPresent: bool, g: Flow, n: nat)
    requires Listed(order, visits, rows)
  {
    && Visited(rows, swept, order, visits, now, dirPresent, g, n)
    && (n < |order| ==> !GoesOn(g.uploads, visits[order[n]]))
    && (g.tripped <==> n < |order| && !visits[order[n]].stop && |g.uploads| < 30 && TransportDown(g.uploads))
  }

  lemma HaltsHere(rows: map<Hour, Row>, swept: nat, order: seq<Hour>, visits: map<Hour, Visit>, now: int,
                  dirPresent: bool, f: Flow, k: nat)
    requires Listed(order, visits, rows) && Visited(rows, swept, order, visits, now, dirPresent, f, k) && !f.tripped
    ensures k == |order| ==> EndsAt(rows, swept, order, visits, now, dirPresent, f, k)
    ensures k < |order| && Halts(f, visits[order[k]]) ==>
              EndsAt(rows, swept, order, visits, now, dirPresent, Halted(f, visits[order[k]]), k)
  {
    hide Due, Outcome, Alone, RowsVisited, GoesOn;
    if k < |order| {
      HaltsIff(f, visits[order[k]]);
      HaltTally(f, visits[order[k]]);
    }
  }

  /** A flush visits exactly the rows before the first at which it must end, tries every upload due among
    * them in order and no other, and leaves every other row alone.
    */
  lemma {:induction false} FlushVisits(rows: map<Hour, Row>, swept: nat, order: seq<Hour>, visits: map<Hour, Visit>,
                                       now: int, dirPresent: bool, f: Flow, k: nat)
    requires Listed(order, visits, rows) && Listed(order, visits, f.rows) && k <= |order| && !f.tripped
    requires Visited(rows, swept, order, visits, now, dirPresent, f, k)
    ensures exists n: nat ::
              EndsAt(rows, swept, order, visits, now, dirPresent, FlushFrom(f, order, visits, now, dirPresent, k), n)
    decreases |order| - k
  {
    hide Visited, VisitRow, EndsAt, Halts, Halted;
    HaltsHere(rows, swept, order, visits, now, dirPresent, f, k);
    if k < |order| && !Halts(f, visits[order[k]]) {
      VisitNext(rows, swept, order, visits, now, dirPresent, f, k);
      var f' := VisitRow(f, order[k], visits[order[k]], now, dirPresent);
      FlushVisits(rows, swept, order, visits, now, dirPresent, f', k + 1);
      assert FlushFrom(f, order, visits, now, dirPresent, k) == FlushFrom(f', order, visits, now, dirPresent, k + 1);
    } else {
      assert EndsAt(rows, swept, order, visits, now, dirPresent, FlushFrom(f, order, visits, now, dirPresent, k), k);
    }
  }

  /** What a flush leaves of a listed row: the outcome of its visit, or nothing when it ended before. */
  lemma FlushOutcome(rows: map<Hour, Row>, swept: nat, order: seq<Hour>, visits: map<Hour, Visit>, now: int, dirPresent: bool)
    requires Listed(order, visits, rows)
    ensures exists n: nat :: EndsAt(rows, swept, order, visits, now, dirPresent,
                                    FlushFrom(Opened(rows, swept), order, visits, now, dirPresent, 0), n)
  {
    var f := Opened(rows, swept);
    assert Visited(rows, swept, order, visits, now, dirPresent, f, 0);
    FlushVisits(rows, swept, order, visits, now, dirPresent, f, 0);
  }

  ghost predicate OncePerHour(us: seq<Upload>) {
    forall i, j :: 0 <= i < j < |us| ==> us[i].hour != us[j].hour
  }

  /** Each bundle is tried at most once in a flush. */
  lemma {:induction false} FlushUploadsOnce(f: Flow, order: seq<Hour>, visits: map<Hour, Visit>, now: int, dirPresent: bool, k: nat)
    requires k <= |order| && Listed(order, visits, f.rows)
    requires OncePerHour(f.uploads)
    requires forall i :: 0 <= i < |f.uploads| ==> f.uploads[i].hour !in order[k..]
    ensures OncePerHour(FlushFrom(f, order, visits, now, dirPresent, k).uploads)
    decreases |order| - k
  {
    if k < |order| {
      var v := visits[order[k]];
      assert order[k..] == [order[k]] + order[k + 1..];
      if !Halts(f, v) {
        assert order[k] !in order[k + 1..];
        FlushUploadsOnce(VisitRow(f, order[k], v, now, dirPresent), order, visits, now, dirPresent, k + 1);
      }
    }
  }

  lemma {:induction false} DueIff(rows: map<Hour, Row>, order: seq<Hour>, visits: map<Hour, Visit>, now: int, n: nat, u: Upload)
    requires n <= |order| && Listed(order, visits, rows)
    ensures u in Due(rows, order, visits, now, n)
            <==> u.hour in order[..n] && visits[u.hour].onDisk && !Rests(rows[u.hour], now) && u.ok == visits[u.hour].ok
  {
    hide Rests;
    if n > 0 {
      DueIff(rows, order, visits, now, n - 1, u);
      assert order[..n] == order[..n - 1] + [order[n - 1]];
    }
  }

  ghost predicate NoStop(order: seq<Hour>, visits: map<Hour, Visit>) {
    forall i :: 0 <= i < |order| && order[i] in visits ==> !visits[order[i]].stop
  }

  /** One flush as a whole, over whatever rows the sweep left. Without a stop request, every bundle that is
    * on disk and does not rest is tried, unless 30 were or three in a row failed.
    */
  lemma OneFlush(rows: map<Hour, Row>, swept: nat, order: seq<Hour>, visits: map<Hour, Visit>, now: int, dirPresent: bool)
    requires Listed(order, visits, rows)
    ensures var g := FlushFrom(Opened(rows, swept), order, visits, now, dirPresent, 0);
            && g.attempted == g.succeeded + g.failed == |g.uploads| <= 30
            && NoFourInARow(g.uploads) && OncePerHour(g.uploads)
            && g.rows.Keys == rows.Keys
            && (forall h :: h in rows ==>
                  g.rows[h] == rows[h] || (h in order && Outcome(rows[h], g.rows[h], visits[h], now, dirPresent)))
            && (forall h :: h in rows && (!dirPresent || Rests(rows[h], now)) ==> g.rows[h].gaveUpAt == rows[h].gaveUpAt)
            && (NoStop(order, visits) ==> forall h :: h in order && visits[h].onDisk && !Rests(rows[h], now) ==>
                  Upload(h, visits[h].ok) in g.uploads || |g.uploads| == 30 || (g.tripped && TransportDown(g.uploads)))
  {
    hide FlushFrom, Rests, TransportDown;
    var f := Opened(rows, swept);
    var g := FlushFrom(f, order, visits, now, dirPresent, 0);
    FlushUploadsOnce(f, order, visits, now, dirPresent, 0);
    FlushOutcome(rows, swept, order, visits, now, dirPresent);
    var n: nat :| EndsAt(rows, swept, order, visits, now, dirPresent, g, n);
    forall h | h in rows
      ensures g.rows[h] == rows[h] || (h in order && Outcome(rows[h], g.rows[h], visits[h], now, dirPresent))
    {
      assert h in order[..n] ==> h in order;
    }
    forall h | h in order && visits[h].onDisk && !Rests(rows[h], now)
      ensures n == |order| ==> Upload(h, visits[h].ok) in g.uploads
    {
      DueIff(rows, order, visits, now, n, Upload(h, visits[h].ok));
    }
  }

  // --- catch-up ---------------------------------------------------------------------------

  /** Building some of the owed hours takes exactly those off the debt. */
  lemma BuildingPaysDebt(st: Store, now: int, did: set<Hour>)
    requires did <= Owed(st, now)
    ensures Owed(BuildSet(st, did, now), now) == Owed(st, now) - did
    ensures |Owed(BuildSet(st, did, now), now)| == |Owed(st, now)| - |did|
  {
    var st' := BuildSet(st, did, now);
    ScansKept(st, did, now);
    hide BuildSet, Windows, NeedsBuild;
    forall h | h in Windows(st.scans, now)
      ensures h in Owed(st', now) <==> h in Owed(st, now) - did
    {
      BuiltIsPaid(st, now, did, h);
    }
    assert Owed(st', now) == Owed(st, now) - did;
  }

  /** Full passes one after another, while no other hour comes to owe a bundle or ceases to. */
  ghost predicate Passes(sts: seq<Store>, nows: seq<int>, dids: seq<set<Hour>>) {
    && |sts| == |nows| == |dids| + 1
    && forall i :: 0 <= i < |dids| ==>
         && FullPass(sts[i], nows[i], dids[i])
         && Owed(sts[i + 1], nows[i + 1]) == Owed(BuildSet(sts[i], dids[i], nows[i]), nows[i])
  }

  /** Each full pass takes twelve hours off a debt, or what is left of it: after k passes the debt is
    * cleared if and only if 12 k covers it.
    */
  lemma {:induction false} PassesClearDebt(sts: seq<Store>, nows: seq<int>, dids: seq<set<Hour>>, k: nat)
    requires Passes(sts, nows, dids) && k <= |dids|
    ensures |Owed(sts[k], nows[k])| == Max(0, |Owed(sts[0], nows[0])| - 12 * k)
    ensures Owed(sts[k], nows[k]) == {} <==> |Owed(sts[0], nows[0])| <= 12 * k
  {
    hide Owed, BuildSet;
    if k > 0 {
      PassesClearDebt(sts, nows, dids, k - 1);
      assert FullPass(sts[k - 1], nows[k - 1], dids[k - 1])
             && Owed(sts[k - 1 + 1], nows[k - 1 + 1]) == Owed(BuildSet(sts[k - 1], dids[k - 1], nows[k - 1]), nows[k - 1]);
      BuildingPaysDebt(sts[k - 1], nows[k - 1], dids[k - 1]);
    }
  }

  lemma BuiltIsPaid(st: Store, now: int, did: set<Hour>, h: Hour)
    requires h in Windows(st.scans, now)
    ensures NeedsBuild(BuildSet(st, did, now).rows, h) <==> NeedsBuild(st.rows, h) && h !in did
  {
    var id :| id in st.scans && WindowEnd(HourOf(st.scans[id])) <= now && HourOf(st.scans[id]) == h;
  }

  // --- whole runs -------------------------------------------------------------------------

  datatype Sensor = Sensor(now: int, store: Store)

  /** `did` are the hours a catch-up pass built; `ends` is when a flush is over. */
  datatype Turn =
    | Elapse(seconds: nat)
    | ScanCompletes(id: ScanId)
    | OperatorBuilds(hour: Hour)
    | CatchesUp(did: set<Hour>)
    | Flushes(sweeps: bool, order: seq<Hour>, visits: map<Hour, Visit>, dirPresent: bool, ends: int)

  function Begun(w: Sensor, sweeps: bool): map<Hour, Row> {
    if sweeps then Swept(w.store.rows, w.now) else w.store.rows
  }

  ghost predicate Enabled(w: Sensor, m: Turn) {
    match m
    case Elapse(_) => true
    case ScanCompletes(id) => id !in w.store.scans
    case OperatorBuilds(_) => true
    case CatchesUp(did) => did <= Owed(w.store, w.now) && |did| <= MAX_BUILDS_PER_PASS
    case Flushes(sweeps, order, visits, _, ends) =>
      && Listed(order, visits, Begun(w, sweeps))
      && PendingList(order, Begun(w, sweeps))
      && w.now <= ends
      && (forall i :: 0 <= i < |order| ==> w.now <= visits[order[i]].at <= ends)
  }

  function Next(w: Sensor, m: Turn): Sensor
    requires Enabled(w, m)
  {
    match m
    case Elapse(s) => w.(now := w.now + s)
    case ScanCompletes(id) => w.(store := w.store.(scans := w.store.scans[id := w.now]))
    case OperatorBuilds(h) => if ScansIn(w.store.scans, h) == {} then w else w.(store := BuildSet(w.store, {h}, w.now))
    case CatchesUp(did) => w.(store := BuildSet(w.store, did, w.now))
    case Flushes(sweeps, order, visits, dirPresent, ends) =>
      Sensor(ends, w.store.(rows := FlushFrom(Opened(Begun(w, sweeps), 0), order, visits, w.now, dirPresent, 0).rows))
  }

  /** The least time that r failed attempts take. */
  function Earliest(r: nat): int {
    if r <= 3 then 0 else if r <= 8 then 4 * HOUR_SEC * (r - 3) else 20 * HOUR_SEC + 12 * HOUR_SEC * (r - 8)
  }

  ghost predicate RowInv(r: Row, now: int) {
    && r.builtAt <= now
    && (r.lastAttempt.Some? ==> r.lastAttempt.value <= now)
    && (r.retries >= 1 ==> r.lastAttempt.Some? && r.builtAt + Earliest(r.retries) <= r.lastAttempt.value)
    && !(r.uploadedAt.Some? && r.gaveUpAt.Some?)
  }

  ghost predicate RowsInv(rows: map<Hour, Row>, now: int) {
    forall h :: h in rows ==> RowInv(rows[h], now)
  }

  lemma OutcomeKeepsRow(r: Row, r': Row, v: Visit, now: int, dirPresent: bool, ends: int)
    requires RowInv(r, now) && Pending(r) && now <= v.at <= ends
    requires Outcome(r, r', v, now, dirPresent)
    ensures RowInv(r', ends)
  {
  }

  lemma FlushKeepsRows(w: Sensor, m: Turn)
    requires RowsInv(w.store.rows, w.now) && m.Flushes? && Enabled(w, m)
    ensures RowsInv(Next(w, m).store.rows, Next(w, m).now)
  {
    hide Outcome, FlushFrom, RowInv;
    var rows := Begun(w, m.sweeps);
    var g := FlushFrom(Opened(rows, 0), m.order, m.visits, w.now, m.dirPresent, 0);
    OneFlush(rows, 0, m.order, m.visits, w.now, m.dirPresent);
    assert rows.Keys == w.store.rows.Keys;
    forall h | h in rows
      ensures h in g.rows && RowInv(g.rows[h], m.ends)
    {
      SweepKeepsRow(w.store.rows[h], w.now);
      assert RowInv(rows[h], w.now);
      LaterRow(rows[h], w.now, m.ends);
      if g.rows[h] != rows[h] {
        var i :| 0 <= i < |m.order| && m.order[i] == h;
        OutcomeKeepsRow(rows[h], g.rows[h], m.visits[h], w.now, m.dirPresent, m.ends);
      }
    }
  }

  lemma SweepKeepsRow(r: Row, now: int)
    requires RowInv(r, now)
    ensures RowInv(if Doomed(r, now) then r.(gaveUpAt := Some(now)) else r, now)
  {
  }

  lemma LaterRow(r: Row, now: int, later: int)
    requires RowInv(r, now) && now <= later
    ensures RowInv(r, later)
  {
  }

  lemma NextKeepsRows(w: Sensor, m: Turn)
    requires RowsInv(w.store.rows, w.now) && Enabled(w, m)
    ensures RowsInv(Next(w, m).store.rows, Next(w, m).now)
  {
    if m.Flushes? {
      FlushKeepsRows(w, m);
    }
  }

  ghost predicate IsRun(ws: seq<Sensor>, ms: seq<Turn>) {
    && |ws| == |ms| + 1
    && ws[0].store == Store(map[], map[], map[])
    && forall i :: 0 <= i < |ms| ==> Enabled(ws[i], ms[i]) && ws[i + 1] == Next(ws[i], ms[i])
  }

  lemma {:induction false} Reachable(ws: seq<Sensor>, ms: seq<Turn>, n: nat)
    requires IsRun(ws, ms) && n < |ws|
    ensures RowsInv(ws[n].store.rows, ws[n].now)
  {
    hide Enabled, Next, RowsInv;
    if n == 0 {
      EmptyStore(ws[0]);
    } else {
      Reachable(ws, ms, n - 1);
      assert Enabled(ws[n - 1], ms[n - 1]) && ws[n - 1 + 1] == Next(ws[n - 1], ms[n - 1]);
      NextKeepsRows(ws[n - 1], ms[n - 1]);
    }
  }

  lemma EmptyStore(w: Sensor)
    requires w.store == Store(map[], map[], map[])
    ensures RowsInv(w.store.rows, w.now)
  {
  }

  /** Backoff over every run: after eight failures each further one costs twelve hours, so a
    * row no older than a week has at most 20, and by the time any row has 60 it is long past
    * the age at which it is given up on.
    */
  lemma BackoffBoundsRetries(ws: seq<Sensor>, ms: seq<Turn>, n: nat, h: Hour)
    requires IsRun(ws, ms) && n < |ws| && h in ws[n].store.rows
    ensures var r := ws[n].store.rows[h];
            && (r.retries >= 8 ==>
                  r.lastAttempt.Some?
                  && r.builtAt + 20 * HOUR_SEC + 12 * HOUR_SEC * (r.retries - 8) <= r.lastAttempt.value <= ws[n].now)
            && (ws[n].now <= r.builtAt + GIVE_UP_SEC ==> r.retries <= 20)
            && (r.retries >= GIVE_UP_RETRIES ==> r.builtAt < ws[n].now - GIVE_UP_SEC)
  {
    Reachable(ws, ms, n);
    assert RowInv(ws[n].store.rows[h], ws[n].now);
  }

  /** The sweep gives up on the pending bundles built more than seven days ago or failed 60 times or more, and
    * changes nothing else.
    */
  lemma SweepIs(rows: map<Hour, Row>, now: int, h: Hour)
    requires h in rows
    ensures var r := rows[h];
            && Swept(rows, now).Keys == rows.Keys
            && Swept(rows, now)[h]
               == if r.uploadedAt.None? && r.gaveUpAt.None? && (r.builtAt + 7 * 24 * HOUR_SEC < now || r.retries >= 60)
                  then r.(gaveUpAt := Some(now)) else r
  {
  }

  /** So over every run the sweep of a flush gives up on a pending bundle if and only if it was built more
    * than seven days ago: the cap on retries never decides. Nothing else of any row changes.
    */
  lemma SweepIffOld(ws: seq<Sensor>, ms: seq<Turn>, n: nat, h: Hour)
    requires IsRun(ws, ms) && n < |ws| && h in ws[n].store.rows
    ensures var r := ws[n].store.rows[h];
            && h in Swept(ws[n].store.rows, ws[n].now)
            && Swept(ws[n].store.rows, ws[n].now)[h]
               == if r.uploadedAt.None? && r.gaveUpAt.None? && r.builtAt + 7 * 24 * HOUR_SEC < ws[n].now
                  then r.(gaveUpAt := Some(ws[n].now)) else r
  {
    BackoffBoundsRetries(ws, ms, n, h);
    SweepIs(ws[n].store.rows, ws[n].now, h);
  }

  /** The turn builds the hour: an operator's build that finds scans, or catch-up's. */
  ghost predicate Builds(w: Sensor, m: Turn, h: Hour) {
    match m
    case OperatorBuilds(g) => g == h && exists id :: ScanOfHour(w.store.scans, id, h)
    case CatchesUp(did) => h in did
    case _ => false
  }

  predicate ScanOfHour(scans: map<ScanId, int>, id: ScanId, h: Hour) {
    id in scans && WindowStart(h) <= scans[id] < WindowEnd(h)
  }

  /** The hour was built before step `n`, at or after its end. */
  ghost predicate BuiltSinceEnd(ws: seq<Sensor>, ms: seq<Turn>, n: nat, h: Hour) {
    exists i: nat :: i < n && i < |ms| < |ws| && Builds(ws[i], ms[i], h) && WindowEnd(h) <= ws[i].now
  }

  lemma BuiltStep(w: Sensor, m: Turn, h: Hour)
    requires Enabled(w, m) && RowsInv(w.store.rows, w.now)
    ensures var rows := Next(w, m).store.rows;
            && (h in rows <==> Builds(w, m, h) || h in w.store.rows)
            && (h in rows ==> rows[h].builtAt == if Builds(w, m, h) then w.now else w.store.rows[h].builtAt)
  {
    hide FlushFrom, BuiltZips;
    match m
    case OperatorBuilds(g) =>
      if id :| ScanOfHour(w.store.scans, id, g) {
        assert id in ScansIn(w.store.scans, g);
      } else {
        forall id
          ensures id !in ScansIn(w.store.scans, g)
        {
          assert !ScanOfHour(w.store.scans, id, g);
        }
      }
    case Flushes(sweeps, order, visits, dirPresent, ends) =>
      OneFlush(Begun(w, sweeps), 0, order, visits, w.now, dirPresent);
    case _ =>
  }

  lemma {:induction false} BuiltSince(ws: seq<Sensor>, ms: seq<Turn>, n: nat, h: Hour)
    requires IsRun(ws, ms) && n < |ws|
    ensures h in ws[n].store.rows && WindowEnd(h) <= ws[n].store.rows[h].builtAt <==> BuiltSinceEnd(ws, ms, n, h)
  {
    hide Enabled, Next, Builds;
    if n > 0 {
      BuiltSince(ws, ms, n - 1, h);
      Reachable(ws, ms, n - 1);
      var w, m := ws[n - 1], ms[n - 1];
      assert Enabled(w, m) && ws[n - 1 + 1] == Next(w, m);
      BuiltStep(w, m, h);
      assert h in w.store.rows ==> RowInv(w.store.rows[h], w.now);
    }
  }

  /** Over every run, the hours that owe a bundle are exactly those that have ended, have a successful scan
    * less than 48 hours old, were not built since they ended, and were not given up on. An hour built only
    * before its end is partial, and owed.
    */
  lemma OwedIffNotBuiltSinceEnd(ws: seq<Sensor>, ms: seq<Turn>, n: nat, h: Hour)
    requires IsRun(ws, ms) && n < |ws|
    ensures var w := ws[n];
            h in Owed(w.store, w.now) <==>
              && WindowEnd(h) <= w.now
              && (exists id :: ScanOfHour(w.store.scans, id, h) && w.now - 48 * HOUR_SEC <= w.store.scans[id])
              && !BuiltSinceEnd(ws, ms, n, h)
              && !(h in w.store.rows && w.store.rows[h].gaveUpAt.Some?)
  {
    BuiltSince(ws, ms, n, h);
    hide BuiltSinceEnd, IsRun;
    var w := ws[n];
    if h in Windows(w.store.scans, w.now) {
      var id :| id in w.store.scans && w.now - HORIZON_SEC <= w.store.scans[id]
                && WindowEnd(HourOf(w.store.scans[id])) <= w.now && HourOf(w.store.scans[id]) == h;
      HourOfIsWindow(w.store.scans[id], h);
      assert ScanOfHour(w.store.scans, id, h);
    }
    if id :| ScanOfHour(w.store.scans, id, h) && w.now - 48 * HOUR_SEC <= w.store.scans[id] {
      HourOfIsWindow(w.store.scans[id], h);
      assert WindowEnd(h) <= w.now ==> h in Windows(w.store.scans, w.now);
    }
  }

  /** No row is ever both uploaded and given up on, and only an operator revives a given-up one. */
  lemma UploadedOrGivenUp(ws: seq<Sensor>, ms: seq<Turn>, n: nat, h: Hour)
    requires IsRun(ws, ms) && n < |ws| && h in ws[n].store.rows
    ensures var r := ws[n].store.rows[h];
            && !(r.uploadedAt.Some? && r.gaveUpAt.Some?)
            && (r.gaveUpAt.Some? ==> h !in Owed(ws[n].store, ws[n].now))
  {
    Reachable(ws, ms, n);
    assert RowInv(ws[n].store.rows[h], ws[n].now);
  }
}
