/** The hourly bundle queue (collector/src/collector/uploader.py over the `bundle_uploads` and
  * `scan_runs` tables of collector/src/collector/db.py): catch-up of missed hours, the bounded
  * flush, retry backoff and giving up. Tables are maps; one clock; a build is one step here
  * (BundleBuild takes it apart).
  */
module BundleQueue {
  import opened Common
  import opened BundleBuild

  const HORIZON_SEC: int := 48 * HOUR_SEC
  const MAX_BUILDS_PER_PASS: nat := 12
  const MAX_ATTEMPTS_PER_TICK: nat := 30
  const BREAKER_FAILURES: nat := 3
  const GIVE_UP_SEC: int := 7 * 24 * HOUR_SEC
  const GIVE_UP_RETRIES: nat := 60

  datatype Row = Row(
    builtAt: int,
    uploadedAt: Option<int>,
    gaveUpAt: Option<int>,
    lastAttempt: Option<int>,
    retries: nat
  )

  datatype Store = Store(scans: map<ScanId, int>, rows: map<Hour, Row>, zips: map<Hour, set<ScanId>>)

  function ScansIn(scans: map<ScanId, int>, h: Hour): set<ScanId> {
    set id | id in scans && WindowStart(h) <= scans[id] < WindowEnd(h)
  }

  /** Closed hours inside the horizon that have a successful scan. */
  function Windows(scans: map<ScanId, int>, now: int): set<Hour> {
    set id | id in scans && now - HORIZON_SEC <= scans[id] && WindowEnd(HourOf(scans[id])) <= now :: HourOf(scans[id])
  }

  predicate NeedsBuild(rows: map<Hour, Row>, h: Hour) {
    h !in rows || (rows[h].gaveUpAt.None? && rows[h].builtAt < WindowEnd(h))
  }

  function Owed(st: Store, now: int): set<Hour> {
    set h | h in Windows(st.scans, now) && NeedsBuild(st.rows, h)
  }

  /** A rebuild forgets the upload, the tombstone and the retry count; the last attempt stays. */
  function Rebuilt(rows: map<Hour, Row>, h: Hour, now: int): Row {
    Row(now, None, None, if h in rows then rows[h].lastAttempt else None, 0)
  }

  function BuiltRows(rows: map<Hour, Row>, hs: set<Hour>, now: int): map<Hour, Row> {
    map h | h in rows.Keys + hs :: if h in hs then Rebuilt(rows, h, now) else rows[h]
  }

  function BuiltZips(zips: map<Hour, set<ScanId>>, scans: map<ScanId, int>, hs: set<Hour>): map<Hour, set<ScanId>> {
    map h | h in zips.Keys + hs :: if h in hs then ScansIn(scans, h) else zips[h]
  }

  function BuildSet(st: Store, hs: set<Hour>, now: int): Store {
    Store(st.scans, BuiltRows(st.rows, hs, now), BuiltZips(st.zips, st.scans, hs))
  }

  /** The newest of the owed hours, as many as a pass may build. */
  ghost predicate FullPass(st: Store, now: int, did: set<Hour>) {
    && did <= Owed(st, now)
    && |did| == Min(MAX_BUILDS_PER_PASS, |Owed(st, now)|)
    && forall h, g :: h in did && g in Owed(st, now) - did ==> g < h
  }

  // --- listing hours newest first -------------------------------------------------------

  ghost predicate NewestFirst(hs: seq<Hour>, s: set<Hour>) {
    && (forall i, j :: 0 <= i < j < |hs| ==> hs[i] > hs[j])
    && (forall h :: h in hs <==> h in s)
  }

  lemma {:induction false} ListingSize(hs: seq<Hour>, s: set<Hour>)
    requires NewestFirst(hs, s)
    ensures |hs| == |s|
  {
    if hs == [] {
      forall h ensures h !in s { assert h !in hs; }
    } else {
      var h := hs[0];
      assert NewestFirst(hs[1..], s - {h}) by {
        forall g
          ensures g in hs[1..] <==> g in s - {h}
        {
          assert g in hs <==> g == h || g in hs[1..];
        }
      }
      ListingSize(hs[1..], s - {h});
    }
  }

  lemma SomeElement(s: set<int>)
    requires s != {}
    ensures exists x :: x in s
  {
    var none: set<int> := {};
    assert (forall x :: x in s <==> x in none) ==> s == none;
  }

  /** The first `n` hours of the list, except those that fail. */
  function FirstOf(hs: seq<Hour>, n: nat, failing: set<Hour>): set<Hour>
    requires n <= |hs|
  {
    set h | h in hs[..n] && h !in failing
  }

  lemma NoneOf(hs: seq<Hour>, failing: set<Hour>)
    ensures FirstOf(hs, 0, failing) == {}
  {
  }

  lemma OneMoreOf(hs: seq<Hour>, s: set<Hour>, i: nat, failing: set<Hour>)
    requires NewestFirst(hs, s) && i < |hs|
    ensures hs[i] in s && hs[i] !in FirstOf(hs, i, failing)
    ensures FirstOf(hs, i + 1, failing) == FirstOf(hs, i, failing) + (if hs[i] in failing then {} else {hs[i]})
  {
    assert hs[..i + 1] == hs[..i] + [hs[i]];
    assert hs[i] !in hs[..i];
    var more, here := FirstOf(hs, i + 1, failing), FirstOf(hs, i, failing);
    assert forall h :: h in more <==> h in here || (h == hs[i] && h !in failing);
  }

  lemma FirstAreOwed(st: Store, now: int, hs: seq<Hour>, n: nat, failing: set<Hour>)
    requires NewestFirst(hs, Owed(st, now)) && n <= |hs| && |hs| == |Owed(st, now)|
    ensures FirstOf(hs, n, failing) <= Owed(st, now)
    ensures failing == {} && n == Min(MAX_BUILDS_PER_PASS, |hs|) && |FirstOf(hs, n, failing)| == n ==>
              FullPass(st, now, FirstOf(hs, n, failing))
  {
    hide Owed;
    forall i | 0 <= i < n
      ensures hs[i] in hs[..n]
    {
      assert hs[..n][i] == hs[i];
    }
    forall h, g | h in hs[..n] && g in hs && g !in hs[..n]
      ensures g < h
    {
      var i :| 0 <= i < n && hs[i] == h;
      var j :| 0 <= j < |hs| && hs[j] == g;
      assert i < j;
    }
  }

  method Newest(s: set<Hour>) returns (m: Hour)
    requires s != {}
    ensures m in s && forall h :: h in s ==> h <= m
  {
    SomeElement(s);
    m :| m in s;
    var rest := s - {m};
    while rest != {}
      invariant m in s && rest <= s
      invariant forall h :: h in s && h !in rest ==> h <= m
      decreases rest
    {
      SomeElement(rest);
      var h :| h in rest;
      rest := rest - {h};
      m := if h > m then h else m;
    }
  }

  /** `sorted(windows, reverse=True)` */
  method SortedNewestFirst(s: set<Hour>) returns (hs: seq<Hour>)
    ensures NewestFirst(hs, s)
  {
    hs := [];
    var rest := s;
    while rest != {}
      invariant rest <= s
      invariant NewestFirst(hs, s - rest)
      invariant forall j, g :: 0 <= j < |hs| && g in rest ==> g < hs[j]
      decreases rest
    {
      var m := Newest(rest);
      hs := hs + [m];
      rest := rest - {m};
    }
    assert s - rest == s;
  }

  // --- the flush ------------------------------------------------------------------------

  /** How long a bundle waits before its next attempt. */
  function RetryDelay(retries: nat): int {
    if retries < 3 then 0 else if retries < 8 then 4 * HOUR_SEC else 12 * HOUR_SEC
  }

  predicate Pending(r: Row) {
    r.uploadedAt.None? && r.gaveUpAt.None?
  }

  predicate InBackoff(r: Row, now: int) {
    r.lastAttempt.Some? && now - r.lastAttempt.value < RetryDelay(r.retries)
  }

  /** What the world does to one visited bundle: a stop request seen before it, whether its
    * file is there, whether the upload succeeds, and the time it is recorded at.
    */
  datatype Visit = Visit(stop: bool, onDisk: bool, ok: bool, at: int)

  datatype Upload = Upload(hour: Hour, ok: bool)

  datatype Flow = Flow(
    rows: map<Hour, Row>,
    attempted: nat,
    succeeded: nat,
    failed: nat,
    skipped: nat,
    gaveUp: nat,
    streak: nat,
    tripped: bool,
    uploads: seq<Upload>
  )

  function GivenUp(r: Row, at: int): Row {
    if Pending(r) then r.(gaveUpAt := Some(at), lastAttempt := Some(at)) else r
  }

  predicate Halts(f: Flow, v: Visit) {
    v.stop || f.attempted >= MAX_ATTEMPTS_PER_TICK || f.streak >= BREAKER_FAILURES
  }

  function Halted(f: Flow, v: Visit): Flow {
    f.(tripped := !v.stop && f.attempted < MAX_ATTEMPTS_PER_TICK && f.streak >= BREAKER_FAILURES)
  }

  function VisitRow(f: Flow, h: Hour, v: Visit, now: int, dirPresent: bool): Flow
    requires h in f.rows
  {
    var r := f.rows[h];
    if InBackoff(r, now) then f.(skipped := f.skipped + 1)
    else if !v.onDisk then
      if dirPresent then f.(rows := f.rows[h := GivenUp(r, v.at)], gaveUp := f.gaveUp + 1)
      else f.(skipped := f.skipped + 1)
    else if v.ok then
      f.(rows := f.rows[h := r.(uploadedAt := Some(v.at), lastAttempt := Some(v.at))],
         attempted := f.attempted + 1, succeeded := f.succeeded + 1, streak := 0,
         uploads := f.uploads + [Upload(h, true)])
    else
      f.(rows := f.rows[h := r.(lastAttempt := Some(v.at), retries := r.retries + 1)],
         attempted := f.attempted + 1, failed := f.failed + 1, streak := f.streak + 1,
         uploads := f.uploads + [Upload(h, false)])
  }

  ghost predicate Listed(order: seq<Hour>, visits: map<Hour, Visit>, rows: map<Hour, Row>) {
    && (forall i :: 0 <= i < |order| ==> order[i] in visits && order[i] in rows)
    && (forall i, j :: 0 <= i < j < |order| ==> order[i] != order[j])
  }

  /** The rest of the pass, from position `k` of the list. */
  function FlushFrom(f: Flow, order: seq<Hour>, visits: map<Hour, Visit>, now: int, dirPresent: bool, k: nat): Flow
    requires k <= |order| && Listed(order, visits, f.rows)
    decreases |order| - k
  {
    if k == |order| then f
    else if Halts(f, visits[order[k]]) then Halted(f, visits[order[k]])
    else FlushFrom(VisitRow(f, order[k], visits[order[k]], now, dirPresent), order, visits, now, dirPresent, k + 1)
  }

  predicate Doomed(r: Row, now: int) {
    Pending(r) && (r.builtAt < now - GIVE_UP_SEC || r.retries >= GIVE_UP_RETRIES)
  }

  /** The give-up sweep that opens every flush. */
  function Swept(rows: map<Hour, Row>, now: int): map<Hour, Row> {
    map h | h in rows :: if Doomed(rows[h], now) then rows[h].(gaveUpAt := Some(now)) else rows[h]
  }

  function Opened(rows: map<Hour, Row>, gaveUp: nat): Flow {
    Flow(rows, 0, 0, 0, 0, gaveUp, 0, false, [])
  }

  /** Rows a flush lists: pending, oldest build first. */
  ghost predicate PendingList(order: seq<Hour>, rows: map<Hour, Row>) {
    && (forall h :: h in order <==> h in rows && Pending(rows[h]))
    && (forall i, j :: 0 <= i < j < |order| ==> order[i] != order[j])
    && (forall i, j {:trigger order[i], order[j]} :: 0 <= i < j < |order| && order[i] in rows && order[j] in rows
          ==> rows[order[i]].builtAt <= rows[order[j]].builtAt)
  }

  // --- the uploader ---------------------------------------------------------------------

  class Uploader {
    var scans: map<ScanId, int>
    var rows: map<Hour, Row>
    var zips: map<Hour, set<ScanId>>

    function Contents(): Store
      reads this
    {
      Store(scans, rows, zips)
    }

    constructor ()
      ensures Contents() == Store(map[], map[], map[])
    {
      scans, rows, zips := map[], map[], map[];
    }

    /** Build or rebuild one hour; an hour without scans is left alone. */
    method BuildHour(h: Hour, now: int) returns (count: Option<nat>)
      modifies this
      ensures ScansIn(old(scans), h) == {} ==> count.None? && Contents() == old(Contents())
      ensures ScansIn(old(scans), h) != {} ==>
                count == Some(|ScansIn(old(scans), h)|) && Contents() == BuildSet(old(Contents()), {h}, now)
      ensures count.Some? <==> exists id :: id in scans && HourOf(scans[id]) == h
      ensures count.Some? ==>
                && h in zips && count.value == |zips[h]|
                && (forall id :: id in zips[h] <==> id in scans && HourOf(scans[id]) == h)
                && h in rows && rows[h].builtAt == now && Pending(rows[h]) && rows[h].retries == 0
                && rows[h].lastAttempt == if h in old(rows) then old(rows)[h].lastAttempt else None
    {
      var runs := ScansIn(scans, h);
      ScansOfHour(scans, h);
      if runs == {} {
        return None;
      }
      ghost var was := Contents();
      rows := rows[h := Row(now, None, None, if h in rows then rows[h].lastAttempt else None, 0)];
      zips := zips[h := runs];
      assert rows == BuildSet(was, {h}, now).rows;
      assert zips == BuildSet(was, {h}, now).zips;
      return Some(|runs|);
    }

    method HourWindowsWithScans(now: int) returns (hs: seq<Hour>)
      ensures NewestFirst(hs, Windows(scans, now))
    {
      var windows: set<Hour> := {};
      var ids := scans.Keys;
      while ids != {}
        invariant ids <= scans.Keys
        invariant windows == set id | id in scans.Keys - ids && now - HORIZON_SEC <= scans[id]
                                      && WindowEnd(HourOf(scans[id])) <= now :: HourOf(scans[id])
        decreases ids
      {
        SomeElement(ids);
        var id :| id in ids;
        ids := ids - {id};
        if now - HORIZON_SEC <= scans[id] {
          var h := HourOf(scans[id]);
          if WindowEnd(h) <= now {
            windows := windows + {h};
          }
        }
      }
      hs := SortedNewestFirst(windows);
    }

    /** The hours that owe a bundle, newest first. */
    method HoursToBuild(now: int) returns (toBuild: seq<Hour>)
      ensures NewestFirst(toBuild, Owed(Contents(), now))
    {
      var hs := HourWindowsWithScans(now);
      toBuild := [];
      var i := 0;
      while i < |hs|
        invariant 0 <= i <= |hs|
        invariant forall j, k :: 0 <= j < k < |toBuild| ==> toBuild[j] > toBuild[k]
        invariant forall j, k :: 0 <= j < |toBuild| && i <= k < |hs| ==> toBuild[j] > hs[k]
        invariant forall h :: h in toBuild <==> h in hs[..i] && NeedsBuild(rows, h)
      {
        var h := hs[i];
        assert hs[..i + 1] == hs[..i] + [h];
        if h !in rows || (rows[h].gaveUpAt.None? && rows[h].builtAt < WindowEnd(h)) {
          toBuild := toBuild + [h];
        }
        i := i + 1;
      }
      assert hs[..i] == hs;
    }

    /** One catch-up pass. `failing` are the hours whose build raises; `stopAfter` is how many
      * builds are tried before a stop request is seen. `did` names the hours built.
      */
    method CatchUpMissedHours(now: int, failing: set<Hour>, stopAfter: nat) returns (built: nat, ghost did: set<Hour>)
      modifies this
      ensures did <= Owed(old(Contents()), now) && built == |did| <= MAX_BUILDS_PER_PASS
      ensures Contents() == BuildSet(old(Contents()), did, now)
      ensures failing == {} && stopAfter >= MAX_BUILDS_PER_PASS ==> FullPass(old(Contents()), now, did)
    {
      hide Owed, BuildSet, NewestFirst, FullPass, FirstOf;
      var toBuild := HoursToBuild(now);
      ghost var was := Contents();
      ListingSize(toBuild, Owed(was, now));
      built, did := 0, {};
      BuildNothing(was, now);
      NoneOf(toBuild, failing);
      var n := if |toBuild| > MAX_BUILDS_PER_PASS then MAX_BUILDS_PER_PASS else |toBuild|;
      var i := 0;
      while i < n && i < stopAfter
        invariant 0 <= i <= n && did == FirstOf(toBuild, i, failing)
        invariant built == |did| <= i && (failing == {} ==> built == i)
        invariant Contents() == BuildSet(was, did, now)
      {
        var h := toBuild[i];
        OneMoreOf(toBuild, Owed(was, now), i, failing);
        if h !in failing {
          OwedHasScans(was, h, now);
          ScansKept(was, did, now);
          var _ := BuildHour(h, now);
          BuildOneMore(was, did, h, now);
          did := did + {h};
          built := built + 1;
        }
        i := i + 1;
      }
      FirstAreOwed(was, now, toBuild, i, failing);
    }

    /** One flush pass over the rows listed in `order`. */
    method FlushPending(now: int, sweeps: bool, order: seq<Hour>, visits: map<Hour, Visit>, dirPresent: bool)
      returns (f: Flow)
      requires Listed(order, visits, rows)
      requires PendingList(order, if sweeps then Swept(rows, now) else rows)
      modifies this`rows
      ensures var begin := if sweeps then Swept(old(rows), now) else old(rows);
              && f == FlushFrom(Opened(begin, |set h | h in old(rows) && sweeps && Doomed(old(rows)[h], now)|),
                                order, visits, now, dirPresent, 0)
              && rows == f.rows
    {
      f := Opened(rows, |set h | h in rows && sweeps && Doomed(rows[h], now)|);
      if sweeps {
        f := f.(rows := Swept(rows, now));
      }
      ghost var start := f;
      var k := 0;
      while k < |order|
        invariant 0 <= k <= |order|
        invariant Listed(order, visits, f.rows)
        invariant FlushFrom(f, order, visits, now, dirPresent, k) == FlushFrom(start, order, visits, now, dirPresent, 0)
      {
        var h := order[k];
        var v := visits[h];
        if v.stop {
          f := f.(tripped := false);
          break;
        }
        if f.attempted >= MAX_ATTEMPTS_PER_TICK {
          f := f.(tripped := false);
          break;
        }
        if f.streak >= BREAKER_FAILURES {
          f := f.(tripped := true);
          break;
        }
        f := VisitRow(f, h, v, now, dirPresent);
        k := k + 1;
      }
      rows := f.rows;
    }
  }

  lemma ScansOfHour(scans: map<ScanId, int>, h: Hour)
    ensures forall id :: id in ScansIn(scans, h) <==> id in scans && HourOf(scans[id]) == h
    ensures ScansIn(scans, h) != {} ==> exists id :: id in ScansIn(scans, h)
  {
    forall id | id in scans
      ensures HourOf(scans[id]) == h <==> WindowStart(h) <= scans[id] < WindowEnd(h)
    {
      HourOfIsWindow(scans[id], h);
    }
    if ScansIn(scans, h) != {} {
      SomeElement(ScansIn(scans, h));
    }
  }

  lemma BuildNothing(st: Store, now: int)
    ensures BuildSet(st, {}, now) == st
  {
    assert st.rows.Keys + {} == st.rows.Keys;
    assert st.zips.Keys + {} == st.zips.Keys;
  }

  lemma RowsOneMore(rows: map<Hour, Row>, did: set<Hour>, h: Hour, now: int)
    requires h !in did
    ensures BuiltRows(BuiltRows(rows, did, now), {h}, now) == BuiltRows(rows, did + {h}, now)
  {
    assert Rebuilt(BuiltRows(rows, did, now), h, now) == Rebuilt(rows, h, now);
  }

  lemma ZipsOneMore(zips: map<Hour, set<ScanId>>, scans: map<ScanId, int>, did: set<Hour>, h: Hour)
    ensures BuiltZips(BuiltZips(zips, scans, did), scans, {h}) == BuiltZips(zips, scans, did + {h})
  {
    hide ScansIn;
  }

  lemma BuildOneMore(st: Store, did: set<Hour>, h: Hour, now: int)
    requires h !in did
    ensures BuildSet(BuildSet(st, did, now), {h}, now) == BuildSet(st, did + {h}, now)
  {
    RowsOneMore(st.rows, did, h, now);
    ZipsOneMore(st.zips, st.scans, did, h);
  }

  lemma OwedHasScans(st: Store, h: Hour, now: int)
    requires h in Owed(st, now)
    ensures ScansIn(st.scans, h) != {}
  {
    var id :| id in st.scans && now - HORIZON_SEC <= st.scans[id] && WindowEnd(HourOf(st.scans[id])) <= now
              && HourOf(st.scans[id]) == h;
    HourOfIsWindow(st.scans[id], h);
    assert id in ScansIn(st.scans, h);
  }

  lemma ScansKept(st: Store, did: set<Hour>, now: int)
    ensures BuildSet(st, did, now).scans == st.scans
  {
  }
}
