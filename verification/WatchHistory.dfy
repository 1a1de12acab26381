/** What the watch state machine means over whole runs: edges are a faithful delta of the
  * state, and a target's state is a function of what was seen of it since its last reset.
  */
module WatchHistory {
  import opened Common
  import opened WatchStep

  ghost predicate WellFormed(cs: seq<Cycle>) {
    forall i :: 0 <= i < |cs| ==> DistinctKeys(cs[i].targets)
  }

  /** The state after a crash-free run of cycles from an empty box. */
  function RunState(cs: seq<Cycle>): WState {
    if cs == [] then EMPTY_STATE else StepState(RunState(cs[..|cs| - 1]), cs[|cs| - 1])
  }

  function RunEdges(cs: seq<Cycle>): seq<Edge> {
    if cs == [] then []
    else RunEdges(cs[..|cs| - 1]) + StepEdges(RunState(cs[..|cs| - 1]), cs[|cs| - 1])
  }

  // --- position of a key in a list ------------------------------------------------------

  /** A position of `k` among the first `n` targets, or None. */
  function IndexOf(ts: seq<Target>, k: Key, n: nat): (r: Option<nat>)
    requires n <= |ts|
    ensures r.Some? ==> r.value < n && ts[r.value].key == k
    ensures r.None? ==> forall i :: 0 <= i < n ==> ts[i].key != k
  {
    if n == 0 then None else if ts[n - 1].key == k then Some(n - 1) else IndexOf(ts, k, n - 1)
  }

  lemma IndexUnique(ts: seq<Target>, i: nat, n: nat)
    requires DistinctKeys(ts) && i < n <= |ts|
    ensures IndexOf(ts, ts[i].key, n) == Some(i)
  {
  }

  /** With distinct keys, each target is advanced exactly once, from its own prior state. */
  lemma {:induction false} TargetsPointwise(prev: map<Key, TState>, c: Cycle, n: nat, k: Key)
    requires DistinctKeys(c.targets) && n <= |c.targets|
    ensures k in TargetsAfter(prev, c, n) <==> IndexOf(c.targets, k, n).Some?
    ensures IndexOf(c.targets, k, n).Some? ==>
              TargetsAfter(prev, c, n)[k]
              == Advance(Prior(prev, k), c.targets[IndexOf(c.targets, k, n).value].ip, ResultFor(c, k), IsBlind(c), c.now)
  {
    if n > 0 {
      TargetsPointwise(prev, c, n - 1, k);
    }
  }

  // --- edges are a faithful delta -------------------------------------------------------

  /** What a reader of the edges knows about a target that is down. */
  datatype DownInfo = DownInfo(ip: Option<Addr>, since: Option<int>)

  function ApplyEdge(view: map<Key, DownInfo>, e: Edge): map<Key, DownInfo> {
    match e
    case WentDown(k, ip, at, _) => view[k := DownInfo(Some(ip), Some(at))]
    case CameUp(k, _, _, _) => view - {k}
    case Cleared(k, _, _) => view - {k}
    case WentBlind(_, _, _) => view
    case Sighted(_, _, _) => view
  }

  function ApplyEdges(view: map<Key, DownInfo>, es: seq<Edge>): map<Key, DownInfo> {
    if es == [] then view else ApplyEdge(ApplyEdges(view, es[..|es| - 1]), es[|es| - 1])
  }

  function Restrict(view: map<Key, DownInfo>, keys: set<Key>): map<Key, DownInfo> {
    map k | k in view && k in keys :: view[k]
  }

  /** The down part of the snapshot the report carries. */
  function DownView(m: map<Key, TState>): map<Key, DownInfo> {
    map k | k in m && m[k].status == Down :: DownInfo(m[k].ip, m[k].since)
  }

  /** A target is only ever down after it was seen up, and its address is known. */
  ghost predicate Sound(m: map<Key, TState>) {
    forall k :: k in m ==> m[k].ip.Some? && (m[k].status == Down ==> m[k].firstUp.Some?)
  }

  lemma {:induction false} ApplyConcat(view: map<Key, DownInfo>, xs: seq<Edge>, ys: seq<Edge>)
    ensures ApplyEdges(view, xs + ys) == ApplyEdges(ApplyEdges(view, xs), ys)
  {
    if ys == [] {
      assert xs + ys == xs;
    } else {
      assert (xs + ys)[..|xs + ys| - 1] == xs + ys[..|ys| - 1];
      ApplyConcat(view, xs, ys[..|ys| - 1]);
    }
  }

  /** The edges of one target move the view of that target as its state moves, and no other. */
  lemma OneTargetDelta(view: map<Key, DownInfo>, k: Key, s: TState, ip: Addr, r: Probe, blind: bool, now: int)
    requires s.status == Down ==> s.firstUp.Some? && s.ip.Some?
    requires if s.status == Down then k in view && view[k] == DownInfo(s.ip, s.since) else k !in view
    ensures var s' := Advance(s, ip, r, blind, now);
            var view' := ApplyEdges(view, EdgesOf(k, s, ip, r, blind, now));
            && (s'.status == Down ==> s'.firstUp.Some?)
            && s'.ip == Some(ip)
            && MovedOnly(view, view', k, s')
  {
    hide ApplyEdges;
    var es := EdgesOf(k, s, ip, r, blind, now);
    if |es| == 1 {
      assert es == [es[0]];
      ApplyOne(view, es[0]);
    } else {
      assert es == [];
      ApplyNone(view);
    }
  }

  lemma ApplyNone(view: map<Key, DownInfo>)
    ensures ApplyEdges(view, []) == view
  {
  }

  lemma ApplyOne(view: map<Key, DownInfo>, e: Edge)
    ensures ApplyEdges(view, [e]) == ApplyEdge(view, e)
  {
    assert [e][..0] == [];
    ApplyNone(view);
  }

  /** How the view stands after the first n targets: advanced for those, untouched for the rest. */
  ghost predicate HalfMoved(view: map<Key, DownInfo>, m: map<Key, TState>, c: Cycle, n: nat)
    requires n <= |c.targets|
  {
    var part := TargetsAfter(m, c, n);
    forall k ::
      if k in part then
        if part[k].status == Down then k in view && view[k] == DownInfo(part[k].ip, part[k].since) else k !in view
      else
        if k in DownView(m) then k in view && view[k] == DownView(m)[k] else k !in view
  }

  /** The view `view'` moved `k` to the state `s'` and touched nothing else. */
  ghost predicate MovedOnly(view: map<Key, DownInfo>, view': map<Key, DownInfo>, k: Key, s': TState) {
    && (if s'.status == Down then k in view' && view'[k] == DownInfo(s'.ip, s'.since) else k !in view')
    && (forall j :: j != k ==> (j in view' <==> j in view) && (j in view ==> view'[j] == view[j]))
  }

  lemma HalfStep(view: map<Key, DownInfo>, view': map<Key, DownInfo>, m: map<Key, TState>, c: Cycle, n: nat, s': TState)
    requires n < |c.targets| && HalfMoved(view, m, c, n)
    requires TargetsAfter(m, c, n + 1) == TargetsAfter(m, c, n)[c.targets[n].key := s']
    requires MovedOnly(view, view', c.targets[n].key, s')
    ensures HalfMoved(view', m, c, n + 1)
  {
  }

  lemma NoneMoved(m: map<Key, TState>, c: Cycle)
    ensures HalfMoved(ApplyEdges(DownView(m), EdgesAfter(m, c, 0)), m, c, 0)
  {
  }

  lemma UnmovedSoFar(view: map<Key, DownInfo>, m: map<Key, TState>, c: Cycle, n: nat)
    requires Sound(m) && DistinctKeys(c.targets) && n < |c.targets| && HalfMoved(view, m, c, n)
    ensures var k := c.targets[n].key;
            var s := Prior(m, k);
            && (s.status == Down ==> s.firstUp.Some? && s.ip.Some?)
            && (if s.status == Down then k in view && view[k] == DownInfo(s.ip, s.since) else k !in view)
  {
    hide Advance;
    TargetsPointwise(m, c, n, c.targets[n].key);
  }

  lemma DeltaStep(m: map<Key, TState>, c: Cycle, n: nat, view: map<Key, DownInfo>)
    requires Sound(m) && DistinctKeys(c.targets) && n < |c.targets| && HalfMoved(view, m, c, n)
    ensures var t := c.targets[n];
            var es := EdgesOf(t.key, Prior(m, t.key), t.ip, ResultFor(c, t.key), IsBlind(c), c.now);
            HalfMoved(ApplyEdges(view, es), m, c, n + 1)
  {
    hide EdgesOf, Advance, HalfMoved, IsBlind, MovedOnly;
    var t := c.targets[n];
    var es := EdgesOf(t.key, Prior(m, t.key), t.ip, ResultFor(c, t.key), IsBlind(c), c.now);
    UnmovedSoFar(view, m, c, n);
    OneTargetDelta(view, t.key, Prior(m, t.key), t.ip, ResultFor(c, t.key), IsBlind(c), c.now);
    HalfStep(view, ApplyEdges(view, es), m, c, n,
             Advance(Prior(m, t.key), t.ip, ResultFor(c, t.key), IsBlind(c), c.now));
  }

  lemma {:induction false} TargetsDelta(m: map<Key, TState>, c: Cycle, n: nat)
    requires Sound(m) && DistinctKeys(c.targets) && n <= |c.targets|
    ensures HalfMoved(ApplyEdges(DownView(m), EdgesAfter(m, c, n)), m, c, n)
  {
    hide EdgesOf, HalfMoved, IsBlind, DownView, Sound, Prior, ResultFor;
    if n == 0 {
      NoneMoved(m, c);
    } else {
      TargetsDelta(m, c, n - 1);
      DeltaStep(m, c, n - 1, ApplyEdges(DownView(m), EdgesAfter(m, c, n - 1)));
      var t := c.targets[n - 1];
      ApplyConcat(DownView(m), EdgesAfter(m, c, n - 1),
                  EdgesOf(t.key, Prior(m, t.key), t.ip, ResultFor(c, t.key), IsBlind(c), c.now));
    }
  }

  lemma {:induction false} SoundAfter(m: map<Key, TState>, c: Cycle, n: nat)
    requires Sound(m) && n <= |c.targets|
    ensures Sound(TargetsAfter(m, c, n))
  {
    hide IsBlind, ResultFor;
    if n > 0 {
      SoundAfter(m, c, n - 1);
    }
  }

  lemma VisibilityNeutral(view: map<Key, DownInfo>, wasBlind: bool, c: Cycle)
    ensures ApplyEdges(view, VisibilityEdge(wasBlind, c)) == view
  {
    var es := VisibilityEdge(wasBlind, c);
    if es != [] {
      assert es[..0] == [];
      assert ApplyEdges(view, es) == ApplyEdge(ApplyEdges(view, []), es[0]);
    }
  }

  /** Folding one cycle's edges over what was down, and dropping the keys no longer listed,
    * gives exactly what is down now, with its address and the time it went down.
    */
  lemma CycleIsDelta(w: WState, c: Cycle)
    requires Sound(w.targets) && DistinctKeys(c.targets)
    ensures Restrict(ApplyEdges(DownView(w.targets), StepEdges(w, c)), KeysOf(c.targets))
            == DownView(StepState(w, c).targets)
    ensures Sound(StepState(w, c).targets)
    ensures StepState(w, c).targets.Keys == KeysOf(c.targets)
  {
    hide EdgesOf, Advance, VisibilityEdge, IsBlind;
    var n := |c.targets|;
    TargetsDelta(w.targets, c, n);
    SoundAfter(w.targets, c, n);
    VisibilityNeutral(DownView(w.targets), w.blind, c);
    ApplyConcat(DownView(w.targets), VisibilityEdge(w.blind, c), EdgesAfter(w.targets, c, n));
    ListedKeys(w.targets, c);
  }

  lemma ListedKeys(m: map<Key, TState>, c: Cycle)
    requires DistinctKeys(c.targets)
    ensures TargetsAfter(m, c, |c.targets|).Keys == KeysOf(c.targets)
  {
    hide Advance, IsBlind;
    forall k
      ensures k in TargetsAfter(m, c, |c.targets|) <==> k in KeysOf(c.targets)
    {
      TargetsPointwise(m, c, |c.targets|, k);
      if IndexOf(c.targets, k, |c.targets|).Some? {
        assert c.targets[IndexOf(c.targets, k, |c.targets|).value] in c.targets;
      }
    }
  }

  /** The view a reader rebuilds from the edges of every cycle and the list each cycle used. */
  function Replay(cs: seq<Cycle>): map<Key, DownInfo> {
    if cs == [] then map[]
    else
      var before := cs[..|cs| - 1];
      var c := cs[|cs| - 1];
      Restrict(ApplyEdges(Replay(before), StepEdges(RunState(before), c)), KeysOf(c.targets))
  }

  lemma {:induction false} ReplayReproducesSnapshot(cs: seq<Cycle>)
    requires WellFormed(cs)
    ensures Replay(cs) == DownView(RunState(cs).targets)
    ensures Sound(RunState(cs).targets)
    ensures RunState(cs).seqNo == |RunEdges(cs)|
  {
    if cs != [] {
      var before := cs[..|cs| - 1];
      ReplayReproducesSnapshot(before);
      CycleIsDelta(RunState(before), cs[|cs| - 1]);
    }
  }

  // --- a target's state is what was seen of it since its last reset ----------------------

  datatype Obs = Obs(ok: bool, at: int)

  /** The address a key is watched at, what counted since it was (re)added or re-addressed, and when it
    * was last probed. A skipped probe and a failure in a blind cycle do not count, but the latter was
    * a probe.
    */
  datatype Track = Track(ip: Option<Addr>, seen: seq<Obs>, probed: Option<int>)

  const UNWATCHED := Track(None, [], None)

  function Counted(c: Cycle, k: Key): seq<Obs> {
    match ResultFor(c, k)
    case Answered => [Obs(true, c.now)]
    case Failed => if IsBlind(c) then [] else [Obs(false, c.now)]
    case Skipped => []
  }

  function TrackOf(cs: seq<Cycle>, k: Key): Track {
    if cs == [] then UNWATCHED
    else
      var c := cs[|cs| - 1];
      match IndexOf(c.targets, k, |c.targets|)
      case None => UNWATCHED
      case Some(i) => Followed(TrackOf(cs[..|cs| - 1], k), c.targets[i].ip, c, k)
  }

  /** The record after one more cycle that lists the key at `ip`. */
  function Followed(before: Track, ip: Addr, c: Cycle, k: Key): (tr: Track)
    ensures tr.ip == Some(ip)
  {
    var base := if before.ip == Some(ip) then before else UNWATCHED;
    Track(Some(ip), base.seen + Counted(c, k), if ResultFor(c, k) == Skipped then base.probed else Some(c.now))
  }

  /** How many failures close the record. */
  function ClosingFailures(seen: seq<Obs>): nat {
    if seen == [] || seen[|seen| - 1].ok then 0 else 1 + ClosingFailures(seen[..|seen| - 1])
  }

  function FirstSuccess(seen: seq<Obs>): Option<int> {
    if seen == [] then None
    else
      var before := FirstSuccess(seen[..|seen| - 1]);
      if before == None && seen[|seen| - 1].ok then Some(seen[|seen| - 1].at) else before
  }

  /** The state as a function of the record: never up is never down, down after two closing
    * failures, up again after one success.
    */
  function StatusOf(seen: seq<Obs>): Status {
    if seen == [] then Unknown
    else if FirstSuccess(seen) == None then Never
    else if ClosingFailures(seen) >= DOWN_AFTER_FAILS then Down
    else Up
  }

  ghost predicate Explains(s: TState, tr: Track) {
    && s.ip == tr.ip
    && s.status == StatusOf(tr.seen)
    && s.fails == ClosingFailures(tr.seen)
    && s.firstUp == FirstSuccess(tr.seen)
    && s.lastProbed == tr.probed
    && SinceTurned(s.since, tr.seen)
    && (s.status == Down ==>
          var i := |tr.seen| - ClosingFailures(tr.seen) + 1;
          0 <= i < |tr.seen| && s.since == Some(tr.seen[i].at))
  }

  /** An up or down target is so since the observation at which its status last became what it is; one that
    * was never up has no such time.
    */
  ghost predicate SinceTurned(since: Option<int>, seen: seq<Obs>) {
    if StatusOf(seen) == Up || StatusOf(seen) == Down then
      exists i: nat :: i < |seen| && since == Some(seen[i].at) && TurnedAt(seen, i)
    else since == None
  }

  /** Observation `i` gave the status it has had ever since, and had not before. */
  ghost predicate TurnedAt(seen: seq<Obs>, i: nat)
    requires i < |seen|
  {
    && StatusOf(seen[..i]) != StatusOf(seen)
    && forall j :: i < j <= |seen| ==> StatusOf(seen[..j]) == StatusOf(seen)
  }

  lemma TurnsNow(base: seq<Obs>, o: Obs, since: Option<int>)
    requires SinceTurned(since, base)
    ensures var seen := base + [o];
            StatusOf(seen) == Up || StatusOf(seen) == Down ==>
              SinceTurned(if StatusOf(seen) == StatusOf(base) then since else Some(o.at), seen)
  {
    hide StatusOf;
    var seen := base + [o];
    assert seen[..|base|] == base && seen[..|seen|] == seen;
    if StatusOf(seen) == StatusOf(base) && (StatusOf(seen) == Up || StatusOf(seen) == Down) {
      var i: nat :| i < |base| && since == Some(base[i].at) && TurnedAt(base, i);
      assert seen[..i] == base[..i];
      forall j | i < j <= |seen|
        ensures StatusOf(seen[..j]) == StatusOf(seen)
      {
        if j <= |base| {
          assert seen[..j] == base[..j];
        } else {
          assert seen[..j] == seen;
        }
      }
      assert TurnedAt(seen, i) && seen[i] == base[i];
    } else if StatusOf(seen) != StatusOf(base) {
      assert TurnedAt(seen, |base|);
    }
  }

  lemma AppendObs(base: seq<Obs>, o: Obs)
    ensures ClosingFailures(base + [o]) == if o.ok then 0 else 1 + ClosingFailures(base)
    ensures FirstSuccess(base + [o])
            == if FirstSuccess(base) == None && o.ok then Some(o.at) else FirstSuccess(base)
    ensures FirstSuccess(base) == None ==> ClosingFailures(base) == |base|
  {
    assert (base + [o])[..|base|] == base;
    NeverUp(base);
  }

  lemma {:induction false} NeverUp(base: seq<Obs>)
    ensures FirstSuccess(base) == None ==> ClosingFailures(base) == |base|
  {
    if base != [] {
      NeverUp(base[..|base| - 1]);
    }
  }

  lemma FailureExplains(s: TState, ip: Addr, base: seq<Obs>, probed: Option<int>, now: int)
    requires Explains(s, Track(Some(ip), base, probed))
    ensures Explains(Advance(s, ip, Failed, false, now), Track(Some(ip), base + [Obs(false, now)], Some(now)))
  {
    AppendObs(base, Obs(false, now));
    TurnsNow(base, Obs(false, now), s.since);
    hide SinceTurned;
    var n := ClosingFailures(base);
    if s.status == Down {
      assert (base + [Obs(false, now)])[|base| - n + 1] == base[|base| - n + 1];
    } else if FirstSuccess(base) == None {
      StillNeverUp(base, Obs(false, now), s.since);
    }
  }

  lemma StillNeverUp(base: seq<Obs>, o: Obs, since: Option<int>)
    requires FirstSuccess(base) == None && !o.ok && SinceTurned(since, base)
    ensures SinceTurned(since, base + [o])
  {
    AppendObs(base, o);
  }

  lemma SuccessExplains(s: TState, ip: Addr, base: seq<Obs>, probed: Option<int>, blind: bool, now: int)
    requires Explains(s, Track(Some(ip), base, probed))
    ensures Explains(Advance(s, ip, Answered, blind, now), Track(Some(ip), base + [Obs(true, now)], Some(now)))
  {
    AppendObs(base, Obs(true, now));
    TurnsNow(base, Obs(true, now), s.since);
    hide SinceTurned;
  }

  lemma AdoptedExplains(s: TState, tr: Track, ip: Addr)
    requires Explains(s, tr) && (tr.ip == None ==> tr == UNWATCHED)
    ensures Explains(Adopted(s, ip), (if tr.ip == Some(ip) then tr else UNWATCHED).(ip := Some(ip)))
  {
  }

  lemma AdvanceExplains(s: TState, tr: Track, ip: Addr, c: Cycle, k: Key)
    requires Explains(s, tr)
    requires tr.ip == None ==> tr == UNWATCHED
    ensures Explains(Advance(s, ip, ResultFor(c, k), IsBlind(c), c.now), Followed(tr, ip, c, k))
  {
    var base := if tr.ip == Some(ip) then tr else UNWATCHED;
    var a := Adopted(s, ip);
    AdoptedExplains(s, tr, ip);
    assert Advance(s, ip, ResultFor(c, k), IsBlind(c), c.now) == Advance(a, ip, ResultFor(c, k), IsBlind(c), c.now);
    hide SinceTurned, StatusOf, IsBlind;
    match ResultFor(c, k)
    case Answered => SuccessExplains(a, ip, base.seen, base.probed, IsBlind(c), c.now);
    case Failed =>
      if IsBlind(c) {
        assert base.seen + [] == base.seen;
      } else {
        FailureExplains(a, ip, base.seen, base.probed, c.now);
      }
    case Skipped => assert base.seen + [] == base.seen;
  }

  /** After any run, the state of every listed target is explained by its record, and a key
    * that is not listed has no state.
    */
  lemma {:induction false} StateIsRecord(cs: seq<Cycle>, k: Key)
    requires WellFormed(cs)
    ensures k in RunState(cs).targets <==> TrackOf(cs, k).ip.Some?
    ensures Explains(Prior(RunState(cs).targets, k), TrackOf(cs, k))
    ensures TrackOf(cs, k).ip == None ==> TrackOf(cs, k) == UNWATCHED
  {
    hide Explains, Advance, IsBlind, Followed;
    if cs == [] {
      FreshExplains();
    } else {
      var before := cs[..|cs| - 1];
      var c := cs[|cs| - 1];
      StateIsRecord(before, k);
      TargetsPointwise(RunState(before).targets, c, |c.targets|, k);
      FreshExplains();
      if IndexOf(c.targets, k, |c.targets|).Some? {
        var i := IndexOf(c.targets, k, |c.targets|).value;
        AdvanceExplains(Prior(RunState(before).targets, k), TrackOf(before, k), c.targets[i].ip, c, k);
      }
    }
  }

  lemma FreshExplains()
    ensures Explains(FRESH, UNWATCHED)
  {
  }

  // --- when an edge is emitted ----------------------------------------------------------

  predicate EndsInDownEdge(seen: seq<Obs>) {
    var n := |seen|;
    n >= 3 && seen[n - 3].ok && !seen[n - 2].ok && !seen[n - 1].ok
  }

  predicate About(e: Edge, k: Key) {
    (e.WentDown? || e.CameUp? || e.Cleared?) && e.key == k
  }

  lemma EdgesOfKey(k: Key, s: TState, ip: Addr, r: Probe, blind: bool, now: int, e: Edge)
    requires e in EdgesOf(k, s, ip, r, blind, now)
    ensures About(e, k)
  {
  }

  /** The edges about `k` that a cycle emits are those of its one target. */
  lemma {:induction false} EdgesAbout(m: map<Key, TState>, c: Cycle, n: nat, e: Edge, k: Key)
    requires DistinctKeys(c.targets) && n <= |c.targets| && About(e, k)
    ensures e in EdgesAfter(m, c, n) <==>
            var at := IndexOf(c.targets, k, n);
            at.Some? && e in EdgesOf(k, Prior(m, k), c.targets[at.value].ip, ResultFor(c, k), IsBlind(c), c.now)
  {
    hide EdgesOf;
    if n > 0 {
      EdgesAbout(m, c, n - 1, e, k);
      var t := c.targets[n - 1];
      var es := EdgesOf(t.key, Prior(m, t.key), t.ip, ResultFor(c, t.key), IsBlind(c), c.now);
      if e in es {
        EdgesOfKey(t.key, Prior(m, t.key), t.ip, ResultFor(c, t.key), IsBlind(c), c.now, e);
      }
      assert t.key == k ==> IndexOf(c.targets, k, n - 1).None?;
    }
  }

  /** A run's last cycle reports `k` down exactly when it is the cycle that completes
    * success, failure, failure in the record of `k` at its current address; the edge then
    * carries that address, that cycle's time and a count of two.
    */
  lemma DownEdgeIff(cs: seq<Cycle>, c: Cycle, k: Key, ip: Addr, at: int, fails: nat)
    requires WellFormed(cs + [c])
    ensures WentDown(k, ip, at, fails) in StepEdges(RunState(cs), c)
            <==> (var tr := TrackOf(cs + [c], k);
                  tr.ip == Some(ip) && at == c.now && fails == DOWN_AFTER_FAILS
                  && |Counted(c, k)| == 1 && EndsInDownEdge(tr.seen))
  {
    hide EdgesOf, Explains, Advance, IsBlind, EndsInDownEdge, StatusOf;
    var all := cs + [c];
    assert all[..|all| - 1] == cs;
    assert WellFormed(cs) by {
      forall i | 0 <= i < |cs| ensures DistinctKeys(cs[i].targets) { assert all[i] == cs[i]; }
    }
    assert DistinctKeys(c.targets) by { assert all[|cs|] == c; }
    var w := RunState(cs);
    var e := WentDown(k, ip, at, fails);
    EdgesAbout(w.targets, c, |c.targets|, e, k);
    StateIsRecord(cs, k);
    var pos := IndexOf(c.targets, k, |c.targets|);
    if pos.Some? {
      DownEdgeOfTarget(Prior(w.targets, k), TrackOf(cs, k), c.targets[pos.value].ip, c, k, e);
    }
  }

  /** The guard of the down edge, on the state the target starts the cycle from. */
  lemma DownEdgeGuard(k: Key, s: TState, ip: Addr, r: Probe, blind: bool, now: int, e: Edge)
    requires e.WentDown? && e.key == k
    ensures e in EdgesOf(k, s, ip, r, blind, now)
            <==> (var a := Adopted(s, ip);
                  r == Failed && !blind && a.firstUp != None && a.status != Down && a.fails + 1 >= DOWN_AFTER_FAILS
                  && e.ip == ip && e.at == now && e.fails == a.fails + 1)
  {
  }

  lemma DownEdgeOfTarget(s: TState, tr: Track, addr: Addr, c: Cycle, k: Key, e: Edge)
    requires Explains(s, tr) && (tr.ip == None ==> tr == UNWATCHED)
    requires e.WentDown? && e.key == k
    ensures var seen := (if tr.ip == Some(addr) then tr.seen else []) + Counted(c, k);
            e in EdgesOf(k, s, addr, ResultFor(c, k), IsBlind(c), c.now)
            <==> (e.ip == addr && e.at == c.now && e.fails == DOWN_AFTER_FAILS
                  && |Counted(c, k)| == 1 && EndsInDownEdge(seen))
  {
    hide EdgesOf, IsBlind;
    var base := if tr.ip == Some(addr) then tr.seen else [];
    DownEdgeGuard(k, s, addr, ResultFor(c, k), IsBlind(c), c.now, e);
    AdoptedExplains(s, tr, addr);
    ThirdFromEnd(base);
  }

  /** An up edge is emitted exactly when a target that the record has down answers at the
    * same address; a cleared edge exactly when one is listed at another address.
    */
  lemma {:induction false} RecoveryEdgesIff(cs: seq<Cycle>, c: Cycle, i: nat, e: Edge)
    requires WellFormed(cs + [c]) && i < |c.targets|
    requires (e.CameUp? || e.Cleared?) && e.key == c.targets[i].key
    ensures var k := c.targets[i].key;
            var tr := TrackOf(cs, k);
            var wasDown := StatusOf(tr.seen) == Down;
            e in StepEdges(RunState(cs), c)
            <==> (wasDown && e.at == c.now && tr.ip == Some(e.ip)
                  && match e
                     case CameUp(_, ip, _, downSince) =>
                       ip == c.targets[i].ip && ResultFor(c, k) == Answered
                       && downSince == Prior(RunState(cs).targets, k).since
                     case Cleared(_, ip, _) => ip != c.targets[i].ip
                     case _ => false)
  {
    hide Explains, Advance, IsBlind, StatusOf, EdgesOf;
    var all := cs + [c];
    assert WellFormed(cs) by {
      forall j | 0 <= j < |cs| ensures DistinctKeys(cs[j].targets) { assert all[j] == cs[j]; }
    }
    assert DistinctKeys(c.targets) by { assert all[|cs|] == c; }
    var w := RunState(cs);
    var k := c.targets[i].key;
    IndexUnique(c.targets, i, |c.targets|);
    EdgesAbout(w.targets, c, |c.targets|, e, k);
    StateIsRecord(cs, k);
    RecoveryOfTarget(Prior(w.targets, k), TrackOf(cs, k), c.targets[i].ip, c, k, e);
    assert k !in w.targets ==> StatusOf(TrackOf(cs, k).seen) != Down;
  }

  lemma RecoveryOfTarget(s: TState, tr: Track, addr: Addr, c: Cycle, k: Key, e: Edge)
    requires Explains(s, tr) && (tr.ip == None ==> tr == UNWATCHED)
    requires (e.CameUp? || e.Cleared?) && e.key == k
    ensures e in EdgesOf(k, s, addr, ResultFor(c, k), IsBlind(c), c.now)
            <==> (StatusOf(tr.seen) == Down && e.at == c.now && tr.ip == Some(e.ip)
                  && match e
                     case CameUp(_, ip, _, downSince) =>
                       ip == addr && ResultFor(c, k) == Answered && downSince == s.since
                     case Cleared(_, ip, _) => ip != addr
                     case _ => false)
    ensures tr.ip == None ==> StatusOf(tr.seen) != Down
  {
  }

  lemma ThirdFromEnd(base: seq<Obs>)
    ensures (FirstSuccess(base) != None && ClosingFailures(base) == 1)
            <==> (|base| >= 2 && base[|base| - 2].ok && !base[|base| - 1].ok)
  {
    if |base| >= 2 && base[|base| - 2].ok && !base[|base| - 1].ok {
      assert base[..|base| - 1][|base| - 2].ok;
      assert ClosingFailures(base[..|base| - 1]) == 0;
    }
  }

  /** A skipped target, and any target in a blind cycle, keeps its state and its counter. */
  lemma NothingMovesUnseen(w: WState, c: Cycle, i: nat)
    requires DistinctKeys(c.targets) && i < |c.targets|
    requires ResultFor(c, c.targets[i].key) == Skipped || IsBlind(c)
    requires !Moved(Prior(w.targets, c.targets[i].key), c.targets[i].ip)
    ensures var k := c.targets[i].key;
            var s := Prior(w.targets, k);
            && k in StepState(w, c).targets
            && var s' := StepState(w, c).targets[k];
            && s'.status == s.status && s'.fails == s.fails && s'.since == s.since && s'.firstUp == s.firstUp
            && (forall e :: e in StepEdges(w, c) && (e.WentDown? || e.CameUp? || e.Cleared?) ==> e.key != k)
  {
    var k := c.targets[i].key;
    IndexUnique(c.targets, i, |c.targets|);
    TargetsPointwise(w.targets, c, |c.targets|, k);
    assert c.targets[i] in c.targets;
    forall e | e in StepEdges(w, c) && (e.WentDown? || e.CameUp? || e.Cleared?)
      ensures e.key != k
    {
      EdgesAbout(w.targets, c, |c.targets|, e, e.key);
    }
  }

  // --- when a cycle is blind, and what its summary counts ---------------------------------

  /** The listed keys with this result. */
  function KeysWith(c: Cycle, p: Probe): set<Key> {
    set t | t in c.targets && ResultFor(c, t.key) == p :: t.key
  }

  ghost predicate ThreeFailed(c: Cycle) {
    exists a, b, d :: {a, b, d} <= KeysWith(c, Failed) && a != b && b != d && a != d
  }

  lemma ThreeOf(s: set<Key>)
    ensures |s| >= 3 <==> exists a, b, d :: {a, b, d} <= s && a != b && b != d && a != d
  {
    if |s| >= 3 {
      var a :| a in s;
      assert |s - {a}| >= 2;
      var b :| b in s - {a};
      assert |s - {a} - {b}| >= 1;
      var d :| d in s - {a} - {b};
      assert {a, b, d} <= s;
    }
    if a, b, d :| {a, b, d} <= s && a != b && b != d && a != d {
      SmallerSet({a, b, d}, s);
    }
  }

  lemma ProbedAre(c: Cycle)
    ensures ProbedKeys(c) == KeysWith(c, Answered) + KeysWith(c, Failed)
    ensures KeysWith(c, Answered) !! KeysWith(c, Failed)
    ensures KeysOf(c.targets) == ProbedKeys(c) + KeysWith(c, Skipped) && ProbedKeys(c) !! KeysWith(c, Skipped)
    ensures KeysWith(c, Answered) == {} <==> forall k | k in KeysOf(c.targets) :: ResultFor(c, k) != Answered
  {
    forall k | k in KeysOf(c.targets)
      ensures k in KeysWith(c, ResultFor(c, k))
    {
      var t :| t in c.targets && t.key == k;
    }
  }

  lemma ProbedSizes(c: Cycle)
    ensures |ProbedKeys(c)| == |KeysWith(c, Answered)| + |KeysWith(c, Failed)|
    ensures |KeysOf(c.targets)| - |ProbedKeys(c)| == |KeysWith(c, Skipped)|
  {
    hide KeysWith, ProbedKeys, KeysOf;
    ProbedAre(c);
  }

  /** A cycle is blind if and only if no listed target answered and either the gateway did not answer, or
    * there is no reading of it and three different targets failed.
    */
  lemma BlindIff(w: WState, c: Cycle)
    ensures StepState(w, c).blind
            <==> KeysWith(c, Answered) == {}
                 && (c.gateway == Some(false) || (c.gateway == None && ThreeFailed(c)))
  {
    ProbedAre(c);
    ThreeOf(KeysWith(c, Failed));
    if KeysWith(c, Answered) == {} {
      assert ProbedKeys(c) == KeysWith(c, Failed);
    }
    hide TargetsAfter, StepEdges, KeysWith;
  }

  /** The visibility edge of a cycle carries its time, its gateway reading and how many were probed. */
  lemma VisibilityEdgeIff(w: WState, c: Cycle, e: Edge)
    requires e.WentBlind? || e.Sighted?
    ensures e in StepEdges(w, c)
            <==> e.at == c.now && e.gateway == c.gateway && e.probed == |KeysWith(c, Answered)| + |KeysWith(c, Failed)|
                 && StepState(w, c).blind == e.WentBlind? && w.blind == e.Sighted?
  {
    hide TargetsAfter, KeysWith, EdgesAfter, IsBlind, ProbedKeys, KeysOf;
    ProbedSizes(c);
    TargetEdgesOnly(w.targets, c, |c.targets|, e);
    assert e in StepEdges(w, c) <==> e in VisibilityEdge(w.blind, c) || e in EdgesAfter(w.targets, c, |c.targets|);
  }

  lemma {:induction false} TargetEdgesOnly(m: map<Key, TState>, c: Cycle, n: nat, e: Edge)
    requires n <= |c.targets| && (e.WentBlind? || e.Sighted?)
    ensures e !in EdgesAfter(m, c, n)
  {
    hide IsBlind, Prior, ResultFor, EdgesOf;
    if n > 0 {
      TargetEdgesOnly(m, c, n - 1, e);
      var t := c.targets[n - 1];
      if e in EdgesOf(t.key, Prior(m, t.key), t.ip, ResultFor(c, t.key), IsBlind(c), c.now) {
        EdgesOfKey(t.key, Prior(m, t.key), t.ip, ResultFor(c, t.key), IsBlind(c), c.now, e);
      }
    }
  }

  /** The listed keys whose record has this status. */
  ghost function KeysIn(cs: seq<Cycle>, keys: set<Key>, status: Status): set<Key> {
    set k | k in keys && StatusOf(TrackOf(cs, k).seen) == status
  }

  /** The summary of a run's last cycle counts what was listed, probed and skipped, and how many listed
    * targets the record has up, down and never up.
    */
  lemma SummaryIsRecord(cs: seq<Cycle>, c: Cycle)
    requires WellFormed(cs + [c])
    ensures var sum, keys := StepSummary(RunState(cs), c), KeysOf(c.targets);
            && sum.at == c.now && sum.gateway == c.gateway && sum.blind == StepState(RunState(cs), c).blind
            && sum.targets == |c.targets|
            && sum.probed == |KeysWith(c, Answered)| + |KeysWith(c, Failed)| && sum.skipped == |KeysWith(c, Skipped)|
            && sum.up == |KeysIn(cs + [c], keys, Up)| && sum.down == |KeysIn(cs + [c], keys, Down)|
            && sum.never == |KeysIn(cs + [c], keys, Never)|
  {
    hide Explains, Advance, IsBlind, StatusOf, KeysWith, TrackOf, KeysOf, ProbedKeys, KeysIn, CountWith, TargetsAfter;
    ProbedSizes(c);
    var all := cs + [c];
    assert all[..|cs|] == cs && all[|cs|] == c;
    RecordCounts(all, Up);
    RecordCounts(all, Down);
    RecordCounts(all, Never);
  }

  lemma RecordCounts(cs: seq<Cycle>, status: Status)
    requires WellFormed(cs) && cs != []
    ensures CountWith(RunState(cs).targets, status) == |KeysIn(cs, KeysOf(cs[|cs| - 1].targets), status)|
  {
    hide Explains, StatusOf, TrackOf, KeysOf, KeysIn, CountWith, WellFormed, Prior;
    var m, keys := RunState(cs).targets, KeysOf(cs[|cs| - 1].targets);
    LastListed(cs);
    hide RunState;
    forall k | k in m
      ensures m[k].status == StatusOf(TrackOf(cs, k).seen)
    {
      StateIsRecord(cs, k);
      StatusExplained(m, cs, k);
    }
    CountsAgree(m, cs, keys, status);
  }

  lemma LastListed(cs: seq<Cycle>)
    requires WellFormed(cs) && cs != []
    ensures RunState(cs).targets.Keys == KeysOf(cs[|cs| - 1].targets)
  {
    hide TargetsAfter, StepEdges, IsBlind, KeysOf;
    ListedKeys(RunState(cs[..|cs| - 1]).targets, cs[|cs| - 1]);
  }

  lemma CountsAgree(m: map<Key, TState>, cs: seq<Cycle>, keys: set<Key>, status: Status)
    requires m.Keys == keys && forall k :: k in m ==> m[k].status == StatusOf(TrackOf(cs, k).seen)
    ensures CountWith(m, status) == |KeysIn(cs, keys, status)|
  {
    hide StatusOf, TrackOf;
    assert (set k | k in m && m[k].status == status) == KeysIn(cs, keys, status);
  }

  lemma StatusExplained(m: map<Key, TState>, cs: seq<Cycle>, k: Key)
    requires k in m && Explains(Prior(m, k), TrackOf(cs, k))
    ensures m[k].status == StatusOf(TrackOf(cs, k).seen)
  {
  }

  // --- blind and sighted edges alternate ------------------------------------------------

  function Visibility(es: seq<Edge>): seq<bool> {
    if es == [] then []
    else
      Visibility(es[..|es| - 1])
      + (match es[|es| - 1]
         case WentBlind(_, _, _) => [true]
         case Sighted(_, _, _) => [false]
         case _ => [])
  }

  lemma {:induction false} VisibilityConcat(xs: seq<Edge>, ys: seq<Edge>)
    ensures Visibility(xs + ys) == Visibility(xs) + Visibility(ys)
  {
    if ys == [] {
      assert xs + ys == xs;
    } else {
      assert (xs + ys)[..|xs + ys| - 1] == xs + ys[..|ys| - 1];
      VisibilityConcat(xs, ys[..|ys| - 1]);
    }
  }

  lemma {:induction false} TargetEdgesInvisible(m: map<Key, TState>, c: Cycle, n: nat)
    requires n <= |c.targets|
    ensures Visibility(EdgesAfter(m, c, n)) == []
  {
    hide EdgesOf, Visibility, ResultFor, IsBlind, Prior;
    if n == 0 {
      NoVisibility();
    } else {
      TargetEdgesInvisible(m, c, n - 1);
      var t := c.targets[n - 1];
      OneTargetInvisible(t.key, Prior(m, t.key), t.ip, ResultFor(c, t.key), IsBlind(c), c.now);
      VisibilityConcat(EdgesAfter(m, c, n - 1),
                       EdgesOf(t.key, Prior(m, t.key), t.ip, ResultFor(c, t.key), IsBlind(c), c.now));
    }
  }

  lemma NoVisibility()
    ensures Visibility([]) == []
  {
  }

  lemma OneTargetInvisible(k: Key, s: TState, ip: Addr, r: Probe, blind: bool, now: int)
    ensures Visibility(EdgesOf(k, s, ip, r, blind, now)) == []
  {
    var es := EdgesOf(k, s, ip, r, blind, now);
    if es != [] {
      assert |es| == 1 && es[..0] == [];
      assert Visibility(es[..0]) == [];
    }
  }

  lemma CycleVisibility(w: WState, c: Cycle)
    ensures Visibility(StepEdges(w, c)) == if IsBlind(c) == w.blind then [] else [IsBlind(c)]
  {
    hide EdgesOf, Advance;
    TargetEdgesInvisible(w.targets, c, |c.targets|);
    VisibilityConcat(VisibilityEdge(w.blind, c), EdgesAfter(w.targets, c, |c.targets|));
  }

  /** Over any run the visibility edges read blind, sighted, blind, ... and their parity is
    * the current visibility.
    */
  lemma {:induction false} VisibilityAlternates(cs: seq<Cycle>)
    ensures Alternates(Visibility(RunEdges(cs)), RunState(cs).blind)
  {
    hide StepEdges, IsBlind, Alternates;
    if cs == [] {
      AlternatesOn([], false, false);
    } else {
      var before := cs[..|cs| - 1];
      var c := cs[|cs| - 1];
      VisibilityAlternates(before);
      CycleVisibility(RunState(before), c);
      VisibilityConcat(RunEdges(before), StepEdges(RunState(before), c));
      AlternatesOn(Visibility(RunEdges(before)), RunState(before).blind, IsBlind(c));
    }
  }

  ghost predicate Alternates(v: seq<bool>, blind: bool) {
    && (forall i :: 0 <= i < |v| ==> v[i] == (i % 2 == 0))
    && blind == (|v| % 2 == 1)
  }

  lemma AlternatesOn(v: seq<bool>, was: bool, blind: bool)
    ensures Alternates([], false)
    ensures Alternates(v, was) ==> Alternates(v + (if blind == was then [] else [blind]), blind)
  {
    assert v + [] == v;
  }
}
