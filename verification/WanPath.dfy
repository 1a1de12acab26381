/** The traceroute baseline and the comparison against it (collector/src/collector/wan_path.py,
  * `last_responding_hop`, `trailing_star_count`, `merge_baseline`, `compare`).
  */
module WanPath {
  import opened Common

  const MIN_SHORTFALL_HOPS: int := 2

  type Mode = string
  type Ip = string

  datatype Hop = Hop(hop: nat, ip: Option<Ip>)

  datatype Trace = Trace(
    mode: Mode,
    dest: string,
    hops: seq<Hop>,
    reachedAt: Option<nat>,
    lastResponding: Option<nat>,
    error: bool
  )

  datatype Entry = Entry(dest: string, hopIps: map<nat, seq<Ip>>, deepest: nat, reachedAt: Option<nat>)

  const EMPTY_ENTRY := Entry("", map[], 0, None)

  datatype Baseline = Baseline(samples: nat, modes: map<Mode, Entry>)

  const EMPTY_BASELINE := Baseline(0, map[])

  /** A missing or zero number counts as absent. */
  function Number(n: Option<nat>): nat {
    if n.Some? then n.value else 0
  }

  // --- reading a trace ----------------------------------------------------------------------

  function LastOf(hops: seq<Hop>): Option<nat> {
    if hops == [] then None
    else if hops[|hops| - 1].ip.Some? then Some(hops[|hops| - 1].hop)
    else LastOf(hops[..|hops| - 1])
  }

  method LastRespondingHop(hops: seq<Hop>) returns (last: Option<nat>)
    ensures last == LastOf(hops)
  {
    last := None;
    var i := 0;
    while i < |hops|
      invariant 0 <= i <= |hops|
      invariant last == LastOf(hops[..i])
    {
      assert hops[..i + 1][..i] == hops[..i];
      if hops[i].ip.Some? {
        last := Some(hops[i].hop);
      }
      i := i + 1;
    }
    assert hops[..i] == hops;
  }

  method TrailingStarCount(hops: seq<Hop>) returns (n: nat)
    ensures n <= |hops| && forall i :: |hops| - n <= i < |hops| ==> hops[i].ip.None?
    ensures n < |hops| ==> hops[|hops| - n - 1].ip.Some?
  {
    n := 0;
    while n < |hops| && hops[|hops| - n - 1].ip.None?
      invariant n <= |hops| && forall i :: |hops| - n <= i < |hops| ==> hops[i].ip.None?
    {
      n := n + 1;
    }
  }

  /** Only a run of stars at the end of a trace marks where it stopped: the last responding hop
    * is the one just before the trailing stars, whatever gaps come earlier.
    */
  lemma {:induction false} LastIsBeforeTrailingStars(hops: seq<Hop>, n: nat)
    requires n <= |hops| && forall i :: |hops| - n <= i < |hops| ==> hops[i].ip.None?
    requires n < |hops| ==> hops[|hops| - n - 1].ip.Some?
    ensures LastOf(hops) == if n < |hops| then Some(hops[|hops| - n - 1].hop) else None
    decreases n
  {
    if n > 0 {
      LastIsBeforeTrailingStars(hops[..|hops| - 1], n - 1);
    }
  }

  // --- merging ------------------------------------------------------------------------------

  function AddIp(m: map<nat, seq<Ip>>, h: Hop): map<nat, seq<Ip>> {
    if h.ip.None? then m
    else
      var seen := if h.hop in m then m[h.hop] else [];
      m[h.hop := if h.ip.value in seen then seen else seen + [h.ip.value]]
  }

  function AddHops(m: map<nat, seq<Ip>>, hops: seq<Hop>): map<nat, seq<Ip>> {
    if hops == [] then m else AddIp(AddHops(m, hops[..|hops| - 1]), hops[|hops| - 1])
  }

  ghost predicate IsMaxKey(n: nat, m: map<nat, seq<Ip>>) {
    (if m == map[] then n == 0 else n in m) && forall k :: k in m ==> k <= n
  }

  /** `max(keys, default=0)` */
  method MaxKey(m: map<nat, seq<Ip>>) returns (n: nat)
    ensures IsMaxKey(n, m)
  {
    n := 0;
    var keys := m.Keys;
    while keys != {}
      invariant keys <= m.Keys
      invariant forall k :: k in m && k !in keys ==> k <= n
      invariant n in m.Keys - keys || (n == 0 && keys == m.Keys)
      decreases keys
    {
      var k :| k in keys;
      keys := keys - {k};
      n := if k > n || n !in m then k else n;
    }
    if m == map[] {
      assert m.Keys == {};
    }
  }

  predicate Usable(t: Trace) {
    !t.error && t.hops != []
  }

  function Started(b: Baseline, t: Trace): Entry {
    var e := if t.mode in b.modes then b.modes[t.mode] else EMPTY_ENTRY;
    if e.dest != "" && e.dest != t.dest then EMPTY_ENTRY else e
  }

  /** `b'` is `b` with one trace folded in. */
  ghost predicate Merges(b: Baseline, t: Trace, b': Baseline) {
    if !Usable(t) then b' == b
    else
      && b'.samples == b.samples + 1
      && t.mode in b'.modes
      && b'.modes == b.modes[t.mode := b'.modes[t.mode]]
      && var e := Started(b, t);
         var e' := b'.modes[t.mode];
         && e'.dest == t.dest
         && e'.hopIps == AddHops(e.hopIps, t.hops)
         && e'.reachedAt == (if Number(t.reachedAt) > 0 then t.reachedAt else e.reachedAt)
         && exists top: nat :: IsMaxKey(top, e'.hopIps) && e'.deepest == Max(e.deepest, top)
  }

  ghost predicate MergesAll(bs: seq<Baseline>, ts: seq<Trace>) {
    |bs| == |ts| + 1 && forall i :: 0 <= i < |ts| ==> Merges(bs[i], ts[i], bs[i + 1])
  }

  method MergeHops(m0: map<nat, seq<Ip>>, hops: seq<Hop>) returns (m: map<nat, seq<Ip>>)
    ensures m == AddHops(m0, hops)
  {
    m := m0;
    var i := 0;
    while i < |hops|
      invariant 0 <= i <= |hops|
      invariant m == AddHops(m0, hops[..i])
    {
      assert hops[..i + 1][..i] == hops[..i];
      if hops[i].ip.Some? {
        var seen := if hops[i].hop in m then m[hops[i].hop] else [];
        m := m[hops[i].hop := if hops[i].ip.value in seen then seen else seen + [hops[i].ip.value]];
      }
      i := i + 1;
    }
    assert hops[..i] == hops;
  }

  method MergeOne(b: Baseline, t: Trace) returns (b': Baseline)
    ensures Merges(b, t, b')
  {
    if t.error || t.hops == [] {
      return b;
    }
    var entry := if t.mode in b.modes then b.modes[t.mode] else EMPTY_ENTRY;
    if entry.dest != "" && entry.dest != t.dest {
      entry := EMPTY_ENTRY;
    }
    var hopIps := MergeHops(entry.hopIps, t.hops);
    var top := MaxKey(hopIps);
    entry := Entry(t.dest, hopIps, Max(entry.deepest, top),
                   if Number(t.reachedAt) > 0 then t.reachedAt else entry.reachedAt);
    return Baseline(b.samples + 1, b.modes[t.mode := entry]);
  }

  /** `out` is reached from `b` by folding in the traces one after another. */
  ghost predicate MergedTo(b: Baseline, traces: seq<Trace>, out: Baseline) {
    exists steps :: MergesAll(steps, traces) && steps[0] == b && steps[|traces|] == out
  }

  method MergeBaseline(b: Baseline, traces: seq<Trace>) returns (out: Baseline)
    ensures MergedTo(b, traces, out)
  {
    out := b;
    ghost var steps := [b];
    var i := 0;
    while i < |traces|
      invariant 0 <= i <= |traces| && |steps| == i + 1
      invariant steps[0] == b && steps[i] == out
      invariant forall j :: 0 <= j < i ==> Merges(steps[j], traces[j], steps[j + 1])
    {
      out := MergeOne(out, traces[i]);
      steps := steps + [out];
      i := i + 1;
    }
    assert MergesAll(steps, traces);
  }

  // --- comparing ----------------------------------------------------------------------------

  datatype Reroute = Reroute(hop: nat, ip: Ip, known: seq<Ip>)

  datatype Comparison = Comparison(
    haveBaseline: bool,
    baselineDeepest: nat,
    shortBy: Option<int>,
    breakAfterHop: Option<nat>,
    breakAfterIp: Option<Ip>,
    newIps: seq<Reroute>
  )

  function BaselineFor(b: Baseline, t: Trace): Option<Entry> {
    if t.mode !in b.modes then None
    else
      var e := b.modes[t.mode];
      if e.dest != "" && t.dest != "" && e.dest != t.dest then None else Some(e)
  }

  function NewIps(m: map<nat, seq<Ip>>, hops: seq<Hop>): seq<Reroute> {
    if hops == [] then []
    else
      var h := hops[|hops| - 1];
      NewIps(m, hops[..|hops| - 1])
      + (if h.ip.Some? && h.hop in m && m[h.hop] != [] && h.ip.value !in m[h.hop]
         then [Reroute(h.hop, h.ip.value, m[h.hop])] else [])
  }

  function ShortBy(e: Entry, t: Trace): Option<int> {
    var last := Number(t.lastResponding);
    if Number(t.reachedAt) > 0 || t.error || last == 0 then None
    else if e.deepest - last >= MIN_SHORTFALL_HOPS then Some(e.deepest - last)
    else None
  }

  function FirstAt(hops: seq<Hop>, n: nat): Option<Ip> {
    if hops == [] then None else if hops[0].hop == n then hops[0].ip else FirstAt(hops[1..], n)
  }

  function Compared(b: Baseline, t: Trace): Comparison {
    match BaselineFor(b, t)
    case None => Comparison(false, 0, None, None, None, [])
    case Some(e) =>
      var short := ShortBy(e, t);
      Comparison(true, e.deepest, short,
                 if short.Some? then Some(Number(t.lastResponding)) else None,
                 if short.Some? then FirstAt(t.hops, Number(t.lastResponding)) else None,
                 NewIps(e.hopIps, t.hops))
  }

  method Compare(b: Baseline, t: Trace) returns (c: Comparison)
    ensures c == Compared(b, t)
  {
    var entry := BaselineFor(b, t);
    if entry.None? {
      return Comparison(false, 0, None, None, None, []);
    }
    var e := entry.value;
    var newIps: seq<Reroute> := [];
    var i := 0;
    while i < |t.hops|
      invariant 0 <= i <= |t.hops|
      invariant newIps == NewIps(e.hopIps, t.hops[..i])
    {
      var h := t.hops[i];
      assert t.hops[..i + 1][..i] == t.hops[..i];
      if h.ip.Some? {
        var known := if h.hop in e.hopIps then e.hopIps[h.hop] else [];
        if known != [] && h.ip.value !in known {
          newIps := newIps + [Reroute(h.hop, h.ip.value, known)];
        }
      }
      i := i + 1;
    }
    assert t.hops[..i] == t.hops;
    var last := if t.lastResponding.Some? then t.lastResponding.value else 0;
    var short: Option<int> := None;
    if !(Number(t.reachedAt) > 0 || t.error || last == 0) {
      var gap := e.deepest - last;
      short := if gap >= 2 then Some(gap) else None;
    }
    var breakIp: Option<Ip> := None;
    if short.Some? {
      var j := 0;
      while j < |t.hops| && t.hops[j].hop != last
        invariant 0 <= j <= |t.hops|
        invariant FirstAt(t.hops[j..], last) == FirstAt(t.hops, last)
      {
        assert t.hops[j..][1..] == t.hops[j + 1..];
        j := j + 1;
      }
      breakIp := if j < |t.hops| then t.hops[j].ip else None;
    }
    return Comparison(true, e.deepest, short, if short.Some? then Some(last) else None, breakIp, newIps);
  }

  // --- the baseline is a summary of the traces since the last reset ---------------------------

  datatype Since = Since(dest: string, traces: seq<Trace>)

  /** The usable traces of one mode since its destination last changed. */
  function SinceReset(ts: seq<Trace>, mode: Mode): Since {
    if ts == [] then Since("", [])
    else
      var t := ts[|ts| - 1];
      var before := SinceReset(ts[..|ts| - 1], mode);
      if t.mode != mode || t.error || |t.hops| == 0 then before
      else Since(t.dest, (if before.dest != "" && before.dest != t.dest then [] else before.traces) + [t])
  }

  ghost predicate Answered(t: Trace, hop: nat, ip: Ip) {
    exists i :: 0 <= i < |t.hops| && t.hops[i] == Hop(hop, Some(ip))
  }

  ghost predicate SeenAt(traces: seq<Trace>, hop: nat, ip: Ip) {
    exists i :: 0 <= i < |traces| && Answered(traces[i], hop, ip)
  }

  /** The entry knows exactly what those traces answered, and the deepest hop any of them did. */
  ghost predicate Summarises(e: Entry, s: Since) {
    && e.dest == s.dest && e.reachedAt == LastReached(s.traces)
    && (forall h, ip :: (h in e.hopIps && ip in e.hopIps[h]) <==> SeenAt(s.traces, h, ip))
    && Shaped(e.hopIps, e.deepest)
  }

  /** Every hop has an address, none twice, and the deepest is one of them unless there is none. */
  ghost predicate Shaped(m: map<nat, seq<Ip>>, deepest: nat) {
    && (forall h :: h in m ==> m[h] != [] && h <= deepest && Distinct(m[h]))
    && (deepest > 0 ==> deepest in m)
  }

  /** No address is kept twice. */
  ghost predicate Distinct(ips: seq<Ip>) {
    forall i, j :: 0 <= i < j < |ips| ==> ips[i] != ips[j]
  }

  /** The hop at which the last of the traces that reached its destination did so. */
  function LastReached(traces: seq<Trace>): Option<nat> {
    if traces == [] then None
    else
      var t := traces[|traces| - 1];
      if t.reachedAt.Some? && t.reachedAt.value > 0 then t.reachedAt else LastReached(traces[..|traces| - 1])
  }

  lemma {:induction false} HopsAdded(m: map<nat, seq<Ip>>, hops: seq<Hop>, h: nat, ip: Ip)
    ensures var m' := AddHops(m, hops);
            && ((h in m' && ip in m'[h]) <==> (h in m && ip in m[h]) || Hop(h, Some(ip)) in hops)
            && (h in m ==> h in m')
            && (h in m' && (h in m ==> m[h] != []) ==> m'[h] != [])
  {
    if hops != [] {
      var init := hops[..|hops| - 1];
      HopsAdded(m, init, h, ip);
      assert Hop(h, Some(ip)) in hops <==> Hop(h, Some(ip)) in init || hops[|hops| - 1] == Hop(h, Some(ip));
    }
  }

  lemma {:induction false} HopsDistinct(m: map<nat, seq<Ip>>, hops: seq<Hop>, h: nat)
    ensures var m' := AddHops(m, hops);
            h in m' && (h in m ==> Distinct(m[h])) ==> Distinct(m'[h])
  {
    if hops != [] {
      HopsDistinct(m, hops[..|hops| - 1], h);
    }
  }

  lemma SeenAppend(traces: seq<Trace>, t: Trace, h: nat, ip: Ip)
    ensures SeenAt(traces + [t], h, ip) <==> SeenAt(traces, h, ip) || Answered(t, h, ip)
  {
    var all := traces + [t];
    if SeenAt(traces, h, ip) {
      var i :| 0 <= i < |traces| && Answered(traces[i], h, ip);
      assert all[i] == traces[i];
    }
    assert all[|traces|] == t;
  }

  lemma MergeSummarises(b: Baseline, t: Trace, b': Baseline, s: Since)
    requires Merges(b, t, b') && Usable(t)
    requires if t.mode in b.modes then Summarises(b.modes[t.mode], s) else s == Since("", [])
    ensures Summarises(b'.modes[t.mode],
                       Since(t.dest, (if s.dest != "" && s.dest != t.dest then [] else s.traces) + [t]))
  {
    var e, e' := Started(b, t), b'.modes[t.mode];
    var kept := if s.dest != "" && s.dest != t.dest then [] else s.traces;
    StartedSummarises(b, t, s);
    hide Started, AddHops, SeenAt, Shaped;
    forall h, ip
      ensures (h in e'.hopIps && ip in e'.hopIps[h]) <==> SeenAt(kept + [t], h, ip)
    {
      KnownAfter(e.hopIps, kept, t, h, ip);
    }
    ShapedAfter(e.hopIps, e.deepest, t.hops, e'.deepest);
    assert (kept + [t])[..|kept|] == kept;
  }

  lemma KnownAfter(m: map<nat, seq<Ip>>, kept: seq<Trace>, t: Trace, h: nat, ip: Ip)
    requires (h in m && ip in m[h]) <==> SeenAt(kept, h, ip)
    ensures var m' := AddHops(m, t.hops); (h in m' && ip in m'[h]) <==> SeenAt(kept + [t], h, ip)
  {
    hide SeenAt, AddHops;
    HopsAdded(m, t.hops, h, ip);
    SeenAppend(kept, t, h, ip);
  }

  lemma ShapedAfter(m: map<nat, seq<Ip>>, deepest: nat, hops: seq<Hop>, deepest': nat)
    requires Shaped(m, deepest)
    requires exists top: nat :: IsMaxKey(top, AddHops(m, hops)) && deepest' == Max(deepest, top)
    ensures Shaped(AddHops(m, hops), deepest')
  {
    hide AddHops, Distinct;
    var m' := AddHops(m, hops);
    forall h | h in m'
      ensures m'[h] != [] && h <= deepest' && Distinct(m'[h])
    {
      HopsAdded(m, hops, h, "");
      HopsDistinct(m, hops, h);
    }
    if deepest' > 0 {
      HopsAdded(m, hops, deepest, "");
    }
  }

  /** The entry a trace is folded into is the summary of the traces that are kept, but for its destination. */
  lemma StartedSummarises(b: Baseline, t: Trace, s: Since)
    requires if t.mode in b.modes then Summarises(b.modes[t.mode], s) else s == Since("", [])
    ensures var e := Started(b, t);
            Summarises(e, Since(e.dest, if s.dest != "" && s.dest != t.dest then [] else s.traces))
  {
    assert Summarises(EMPTY_ENTRY, Since("", []));
  }

  /** After merging any traces into an empty baseline, each mode's entry is exactly the summary
    * of that mode's traces since its destination last changed.
    */
  lemma {:induction false} BaselineIsSummary(bs: seq<Baseline>, ts: seq<Trace>, mode: Mode, n: nat)
    requires MergesAll(bs, ts) && bs[0] == EMPTY_BASELINE && n <= |ts|
    ensures SummaryAt(bs[n], SinceReset(ts[..n], mode), mode)
  {
    hide Summarises, Merges;
    if n > 0 {
      BaselineIsSummary(bs, ts, mode, n - 1);
      var t := ts[n - 1];
      assert ts[..n][..n - 1] == ts[..n - 1];
      assert Merges(bs[n - 1], t, bs[n - 1 + 1]);
      MergeTouches(bs[n - 1], t, bs[n], mode);
      if t.mode == mode && Usable(t) {
        MergeSummarises(bs[n - 1], t, bs[n], SinceReset(ts[..n - 1], mode));
      }
    }
  }

  ghost predicate SummaryAt(b: Baseline, s: Since, mode: Mode) {
    && (mode in b.modes <==> s.traces != [])
    && (if mode in b.modes then Summarises(b.modes[mode], s) else s == Since("", []))
  }

  /** When every trace names its destination, the traces kept are usable traces of that mode to
    * one and the same destination.
    */
  lemma {:induction false} SinceSharesDest(ts: seq<Trace>, mode: Mode)
    requires forall i :: 0 <= i < |ts| ==> ts[i].dest != ""
    ensures var s := SinceReset(ts, mode);
            && (s.traces != [] ==> s.dest != "")
            && forall x :: x in s.traces ==> x in ts && x.mode == mode && x.dest == s.dest && Usable(x)
  {
    if ts != [] {
      var init := ts[..|ts| - 1];
      SinceSharesDest(init, mode);
      forall x | x in init
        ensures x in ts
      {
      }
    }
  }

  lemma MergeTouches(b: Baseline, t: Trace, b': Baseline, mode: Mode)
    requires Merges(b, t, b')
    ensures t.mode == mode && Usable(t) ==> mode in b'.modes
    ensures t.mode != mode || !Usable(t) ==>
              (mode in b'.modes <==> mode in b.modes) && (mode in b.modes ==> b'.modes[mode] == b.modes[mode])
  {
  }

  // --- what compare reports -------------------------------------------------------------------

  /** Some trace of the same mode and destination, merged since the last reset, answered at
    * least two hops beyond `last`.
    */
  ghost predicate WentDeeper(s: Since, last: nat) {
    exists h, ip :: h >= last + 2 && SeenAt(s.traces, h, ip)
  }

  /** The summary concerns the destination of `t`, as far as both name one. */
  predicate SameDest(s: Since, t: Trace) {
    s.dest == "" || t.dest == "" || s.dest == t.dest
  }

  /** The deepest hop at which any of the traces had an answer. */
  ghost predicate IsDeepest(s: Since, h: int) {
    && h >= 0 && (exists ip :: SeenAt(s.traces, h, ip))
    && (forall g: nat, ip :: SeenAt(s.traces, g, ip) ==> g <= h)
  }

  predicate Positive(n: Option<nat>) {
    n.Some? && n.value > 0
  }

  /** A break is reported exactly when it is witnessed: the trace neither reached its
    * destination nor failed, something answered in it, and a merged trace to the same
    * destination went at least two hops deeper. It is short by exactly the hops that lie between
    * its last answer and the deepest of any merged trace.
    */
  lemma BreakIff(bs: seq<Baseline>, ts: seq<Trace>, t: Trace, d: int)
    requires MergesAll(bs, ts) && bs[0] == EMPTY_BASELINE
    ensures var s := SinceReset(ts, t.mode);
            var c := Compared(bs[|ts|], t);
            var open := SameDest(s, t) && !Positive(t.reachedAt) && !t.error && Positive(t.lastResponding);
            && (c.shortBy.Some? <==> open && WentDeeper(s, t.lastResponding.value))
            && (c.shortBy == Some(d) <==> open && d >= 2 && IsDeepest(s, t.lastResponding.value + d))
  {
    hide Summarises, SinceReset, WentDeeper, IsDeepest;
    BaselineIsSummary(bs, ts, t.mode, |ts|);
    assert ts[..|ts|] == ts;
    var s := SinceReset(ts, t.mode);
    if t.mode in bs[|ts|].modes {
      var e := bs[|ts|].modes[t.mode];
      DeepestWitness(e, s, Number(t.lastResponding));
    } else {
      NobodyWentDeeper(s, Number(t.lastResponding));
    }
  }

  /** There is a baseline exactly when some trace of the mode was merged since the last reset, for the same
    * destination as far as both name one; it goes as deep as the deepest answer of any of them; and nothing
    * is said of a break or a reroute without one, nor of where it broke without a break.
    */
  lemma ComparedAgainst(bs: seq<Baseline>, ts: seq<Trace>, t: Trace)
    requires MergesAll(bs, ts) && bs[0] == EMPTY_BASELINE
    ensures var s := SinceReset(ts, t.mode);
            var c := Compared(bs[|ts|], t);
            && (c.haveBaseline <==> s.traces != [] && SameDest(s, t))
            && (c.haveBaseline && c.baselineDeepest > 0 ==> IsDeepest(s, c.baselineDeepest))
            && (c.haveBaseline && c.baselineDeepest == 0 ==> !WentDeeper(s, 0) && !IsDeepest(s, 1))
            && (!c.haveBaseline ==> c.baselineDeepest == 0 && c.shortBy.None? && c.newIps == [])
            && (c.shortBy.None? ==> c.breakAfterHop.None? && c.breakAfterIp.None?)
  {
    hide Summarises, SinceReset, WentDeeper, IsDeepest, NewIps, FirstAt;
    BaselineIsSummary(bs, ts, t.mode, |ts|);
    assert ts[..|ts|] == ts;
    if t.mode in bs[|ts|].modes {
      DeepestWitness(bs[|ts|].modes[t.mode], SinceReset(ts, t.mode), 0);
    }
  }

  lemma NobodyWentDeeper(s: Since, last: nat)
    requires s.traces == []
    ensures !WentDeeper(s, last) && forall h :: !IsDeepest(s, h)
  {
  }

  lemma DeepestWitness(e: Entry, s: Since, last: nat)
    requires Summarises(e, s)
    ensures e.dest == s.dest
    ensures WentDeeper(s, last) <==> e.deepest >= last + 2
    ensures forall h :: h > 0 ==> (IsDeepest(s, h) <==> h == e.deepest)
  {
    if e.deepest > 0 {
      var ip := e.hopIps[e.deepest][0];
      assert ip in e.hopIps[e.deepest] && SeenAt(s.traces, e.deepest, ip);
    }
    if e.deepest >= last + 2 {
      var ip := e.hopIps[e.deepest][0];
      assert SeenAt(s.traces, e.deepest, ip);
    }
    if WentDeeper(s, last) {
      var h, ip :| h >= last + 2 && SeenAt(s.traces, h, ip);
      assert h in e.hopIps;
    }
  }

  lemma {:induction false} NewIpsIff(m: map<nat, seq<Ip>>, hops: seq<Hop>, h: nat, ip: Ip)
    ensures (exists r :: r in NewIps(m, hops) && r.hop == h && r.ip == ip)
            <==> Hop(h, Some(ip)) in hops && h in m && m[h] != [] && ip !in m[h]
  {
    if hops != [] {
      var init := hops[..|hops| - 1];
      var x := hops[|hops| - 1];
      NewIpsIff(m, init, h, ip);
      assert Hop(h, Some(ip)) in hops <==> Hop(h, Some(ip)) in init || x == Hop(h, Some(ip));
      var all := NewIps(m, hops);
      if exists r :: r in all && r.hop == h && r.ip == ip {
        var r :| r in all && r.hop == h && r.ip == ip;
        assert r in NewIps(m, init) || (x.ip.Some? && r == Reroute(x.hop, x.ip.value, if x.hop in m then m[x.hop] else []));
      }
      if x == Hop(h, Some(ip)) && h in m && m[h] != [] && ip !in m[h] {
        assert all[|all| - 1] == Reroute(h, ip, m[h]);
      }
      if exists r :: r in NewIps(m, init) && r.hop == h && r.ip == ip {
        var r :| r in NewIps(m, init) && r.hop == h && r.ip == ip;
        assert r in all;
      }
    }
  }

  ghost predicate Rerouted(found: seq<Reroute>, h: nat, ip: Ip) {
    exists r :: r in found && r.hop == h && r.ip == ip
  }

  lemma {:induction false} KnownIs(m: map<nat, seq<Ip>>, hops: seq<Hop>, r: Reroute)
    requires r in NewIps(m, hops)
    ensures r.hop in m && r.known == m[r.hop]
  {
    if r in NewIps(m, hops[..|hops| - 1]) {
      KnownIs(m, hops[..|hops| - 1], r);
    }
  }

  /** A reroute is reported with the addresses the merged traces answered with at that hop, each once. */
  lemma RerouteNamesKnown(bs: seq<Baseline>, ts: seq<Trace>, t: Trace, r: Reroute)
    requires MergesAll(bs, ts) && bs[0] == EMPTY_BASELINE && r in Compared(bs[|ts|], t).newIps
    ensures Distinct(r.known) && forall ip :: ip in r.known <==> SeenAt(SinceReset(ts, t.mode).traces, r.hop, ip)
  {
    hide SinceReset, SeenAt, NewIps;
    BaselineIsSummary(bs, ts, t.mode, |ts|);
    assert ts[..|ts|] == ts;
    KnownIs(bs[|ts|].modes[t.mode].hopIps, t.hops, r);
  }

  ghost predicate HopKnown(s: Since, h: nat) {
    exists ip :: SeenAt(s.traces, h, ip)
  }

  lemma RerouteFromEntry(e: Entry, s: Since, t: Trace, h: nat, ip: Ip)
    requires Summarises(e, s)
    ensures e.dest == s.dest
    ensures Rerouted(NewIps(e.hopIps, t.hops), h, ip)
            <==> (Answered(t, h, ip) && HopKnown(s, h) && !SeenAt(s.traces, h, ip))
  {
    hide SeenAt, NewIps;
    NewIpsIff(e.hopIps, t.hops, h, ip);
    if h in e.hopIps {
      assert e.hopIps[h][0] in e.hopIps[h];
      assert SeenAt(s.traces, h, e.hopIps[h][0]);
    }
  }

  lemma NothingKnown(s: Since, h: nat)
    requires s.traces == []
    ensures !HopKnown(s, h)
  {
  }

  /** A hop is reported as rerouted exactly when some merged trace to the same destination
    * answered at that hop, but none ever with this address.
    */
  lemma {:induction false} RerouteIff(bs: seq<Baseline>, ts: seq<Trace>, t: Trace, h: nat, ip: Ip)
    requires MergesAll(bs, ts) && bs[0] == EMPTY_BASELINE
    ensures var s := SinceReset(ts, t.mode);
            Rerouted(Compared(bs[|ts|], t).newIps, h, ip)
            <==> (SameDest(s, t) && Answered(t, h, ip) && HopKnown(s, h) && !SeenAt(s.traces, h, ip))
  {
    hide Summarises, SinceReset, HopKnown, SeenAt, Answered, NewIps;
    BaselineIsSummary(bs, ts, t.mode, |ts|);
    assert ts[..|ts|] == ts;
    var s := SinceReset(ts, t.mode);
    if t.mode in bs[|ts|].modes {
      RerouteFromEntry(bs[|ts|].modes[t.mode], s, t, h, ip);
    } else {
      NothingKnown(s, h);
    }
  }

  lemma NoReroutes(found: seq<Reroute>)
    requires forall h, ip :: !Rerouted(found, h, ip)
    ensures found == []
  {
    if found != [] {
      assert Rerouted(found, found[0].hop, found[0].ip);
    }
  }

  /** A merged trace keeps comparing without a rerouted hop until its destination is reset. */
  lemma MergedTraceStaysClean(bs: seq<Baseline>, ts: seq<Trace>, t: Trace)
    requires MergesAll(bs, ts) && bs[0] == EMPTY_BASELINE
    requires t in SinceReset(ts, t.mode).traces
    ensures Compared(bs[|ts|], t).newIps == []
  {
    hide Compared, SinceReset, HopKnown, Rerouted;
    var s := SinceReset(ts, t.mode);
    var i :| 0 <= i < |s.traces| && s.traces[i] == t;
    var found := Compared(bs[|ts|], t).newIps;
    forall h, ip
      ensures !Rerouted(found, h, ip)
    {
      RerouteIff(bs, ts, t, h, ip);
    }
    NoReroutes(found);
  }

  ghost predicate Increasing(hops: seq<Hop>) {
    forall i, j :: 0 <= i < j < |hops| ==> hops[i].hop < hops[j].hop
  }

  lemma {:induction false} FirstAtIndex(hops: seq<Hop>, i: nat)
    requires Increasing(hops) && i < |hops|
    ensures FirstAt(hops, hops[i].hop) == hops[i].ip
    decreases |hops|
  {
    if i > 0 {
      FirstAtIndex(hops[1..], i - 1);
    }
  }

  lemma {:induction false} LastWitness(hops: seq<Hop>)
    ensures LastOf(hops).Some? ==> exists i :: 0 <= i < |hops| && hops[i].ip.Some? && hops[i].hop == LastOf(hops).value
  {
    if hops != [] && hops[|hops| - 1].ip.None? {
      var init := hops[..|hops| - 1];
      LastWitness(init);
      if LastOf(init).Some? {
        var i :| 0 <= i < |init| && init[i].ip.Some? && init[i].hop == LastOf(init).value;
        assert hops[i] == init[i];
      }
    }
  }

  /** A reported break names the address that answered last. */
  lemma BreakNamesAddress(b: Baseline, t: Trace)
    requires Increasing(t.hops) && t.lastResponding == LastOf(t.hops)
    requires Compared(b, t).shortBy.Some?
    ensures var c := Compared(b, t);
            c.breakAfterHop == t.lastResponding && c.breakAfterIp.Some?
            && Answered(t, c.breakAfterHop.value, c.breakAfterIp.value)
  {
    LastWitness(t.hops);
    var i :| 0 <= i < |t.hops| && t.hops[i].ip.Some? && t.hops[i].hop == LastOf(t.hops).value;
    FirstAtIndex(t.hops, i);
    assert t.hops[i] == Hop(t.hops[i].hop, Some(t.hops[i].ip.value));
  }
}
