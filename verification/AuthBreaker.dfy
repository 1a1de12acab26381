/** The lockout breaker and its two consumers (collector/src/collector/discovery/device_config.py,
  * `_AuthBreaker`, `fetch_all`, `test_targets`). What each device would answer is a parameter.
  */
module AuthBreaker {
  import opened Common

  const THRESHOLD: nat := 3

  /** A rejected credential counts, a success resets, everything else is neutral. */
  datatype Outcome = Rejected | Passed | Neutral

  datatype State = State(consecutive: nat, tripped: bool)

  function Recorded(s: State, o: Outcome): State {
    match o
    case Rejected => State(s.consecutive + 1, s.tripped || s.consecutive + 1 >= THRESHOLD)
    case Passed => s.(consecutive := 0)
    case Neutral => s
  }

  /** The breaker after a sequence of outcomes. */
  function After(os: seq<Outcome>): State {
    if os == [] then State(0, false) else Recorded(After(os[..|os| - 1]), os[|os| - 1])
  }

  class Breaker {
    var consecutive: nat
    var tripped: bool

    function Contents(): State
      reads this
    {
      State(consecutive, tripped)
    }

    constructor ()
      ensures Contents() == State(0, false)
    {
      consecutive, tripped := 0, false;
    }

    method Record(o: Outcome)
      modifies this
      ensures Contents() == Recorded(old(Contents()), o)
    {
      if o.Rejected? {
        consecutive := consecutive + 1;
        if consecutive >= THRESHOLD {
          tripped := true;
        }
      } else if o.Passed? {
        consecutive := 0;
      }
    }

    /** How many more attempts may be in flight before the threshold is hit. */
    function Headroom(): (n: nat)
      reads this
      ensures if consecutive < THRESHOLD then consecutive + n == THRESHOLD else n == 1
    {
      if consecutive < THRESHOLD then THRESHOLD - consecutive else 1
    }
  }

  datatype Code = StoppedAuthFailures | BudgetExhausted

  datatype Result = Attempted(outcome: Outcome) | Skipped(code: Code)

  // --- what is bounded ----------------------------------------------------------------------

  function Rejections(os: seq<Outcome>, i: nat, j: nat): nat
    requires i <= j <= |os|
    decreases j - i
  {
    if i == j then 0 else Rejections(os, i, j - 1) + (if os[j - 1] == Rejected then 1 else 0)
  }

  ghost predicate NoSuccess(os: seq<Outcome>, i: nat, j: nat)
    requires i <= j <= |os|
  {
    forall k :: i <= k < j ==> os[k] != Passed
  }

  /** Between two successes, or before the first or after the last, at most `most` rejections. */
  ghost predicate LockoutBounded(os: seq<Outcome>, most: nat) {
    forall i, j :: 0 <= i <= j <= |os| && NoSuccess(os, i, j) ==> Rejections(os, i, j) <= most
  }

  lemma {:induction false} RejectionsSplit(os: seq<Outcome>, i: nat, m: nat, j: nat)
    requires i <= m <= j <= |os|
    ensures Rejections(os, i, j) == Rejections(os, i, m) + Rejections(os, m, j)
    ensures Rejections(os, m, j) <= j - m
    decreases j - m
  {
    if m < j {
      RejectionsSplit(os, i, m, j - 1);
    }
  }

  lemma {:induction false} RejectionsInPrefix(os: seq<Outcome>, n: nat, i: nat, j: nat)
    requires i <= j <= n <= |os|
    ensures Rejections(os[..n], i, j) == Rejections(os, i, j)
    decreases j - i
  {
    if i < j {
      RejectionsInPrefix(os, n, i, j - 1);
    }
  }

  /** Neutral failures do not hide rejections: with no success since `i`, the counter has seen
    * them all, and an untripped breaker has seen fewer than three.
    */
  lemma {:induction false} CounterSeesAll(os: seq<Outcome>, i: nat)
    requires i <= |os| && NoSuccess(os, i, |os|)
    ensures Rejections(os, i, |os|) <= After(os).consecutive
    ensures !After(os).tripped ==> After(os).consecutive < THRESHOLD
    decreases |os|
  {
    CounterFits(os);
    if i < |os| {
      var n := |os| - 1;
      assert os[..n + 1] == os;
      CounterSeesAll(os[..n], i);
      RejectionsInPrefix(os, n, i, n);
    }
  }

  lemma {:induction false} CounterFits(os: seq<Outcome>)
    ensures !After(os).tripped ==> After(os).consecutive < THRESHOLD
  {
    if os != [] {
      CounterFits(os[..|os| - 1]);
    }
  }

  /** `c` is the number of rejections since the last success, or since the start if there was none. */
  ghost predicate Counted(os: seq<Outcome>, c: nat) {
    exists i: nat :: CountedFrom(os, i) && Rejections(os, i, |os|) == c
  }

  ghost predicate CountedFrom(os: seq<Outcome>, i: nat) {
    i <= |os| && (i == 0 || os[i - 1] == Passed) && NoSuccess(os, i, |os|)
  }

  /** The counter is exactly the number of rejections since the last success. */
  lemma {:induction false} CounterIs(os: seq<Outcome>)
    ensures Counted(os, After(os).consecutive)
    decreases |os|
  {
    var n := |os|;
    if os != [] && os[n - 1] != Passed {
      var init := os[..n - 1];
      CounterIs(init);
      var i: nat :| CountedFrom(init, i) && Rejections(init, i, n - 1) == After(init).consecutive;
      RejectionsInPrefix(os, n - 1, i, n - 1);
      assert CountedFrom(os, i);
    } else {
      assert CountedFrom(os, n) && Rejections(os, n, n) == 0;
    }
  }

  /** Three rejections with no success between them. */
  ghost predicate ThreeRejections(os: seq<Outcome>) {
    exists i: nat, j: nat :: ThreeIn(os, i, j)
  }

  ghost predicate ThreeIn(os: seq<Outcome>, i: nat, j: nat) {
    i <= j <= |os| && NoSuccess(os, i, j) && Rejections(os, i, j) >= 3
  }

  /** The breaker trips if and only if three credentials were rejected with no success between, however
    * many neutral failures there were.
    */
  lemma {:induction false} TrippedIff(os: seq<Outcome>)
    ensures After(os).tripped <==> ThreeRejections(os)
    decreases |os|
  {
    if os != [] {
      var n := |os|;
      TrippedIff(os[..n - 1]);
      TrippedBefore(os);
      CounterIs(os);
      if i: nat :| CountedFrom(os, i) && Rejections(os, i, n) == After(os).consecutive >= 3 {
        assert ThreeIn(os, i, n);
      }
      if i: nat :| ThreeIn(os, i, n) {
        CounterSeesAll(os, i);
      }
    }
  }

  /** Three such rejections were there before, or the last outcome completes them. */
  lemma TrippedBefore(os: seq<Outcome>)
    requires os != []
    ensures ThreeRejections(os) <==> ThreeRejections(os[..|os| - 1]) || exists i: nat :: ThreeIn(os, i, |os|)
  {
    hide ThreeIn;
    var n := |os| - 1;
    forall i: nat, j: nat | j <= n
      ensures ThreeIn(os, i, j) <==> ThreeIn(os[..n], i, j)
    {
      ThreeBefore(os, n, i, j);
    }
    forall i: nat, j: nat
      ensures ThreeIn(os, i, j) ==> j <= |os|
      ensures ThreeIn(os[..n], i, j) ==> j <= n
    {
      ThreeBefore(os, n, i, j);
    }
  }

  lemma ThreeBefore(os: seq<Outcome>, n: nat, i: nat, j: nat)
    requires n <= |os|
    ensures j <= n ==> (ThreeIn(os, i, j) <==> ThreeIn(os[..n], i, j))
    ensures (ThreeIn(os, i, j) ==> j <= |os|) && (ThreeIn(os[..n], i, j) ==> j <= n)
  {
    if i <= j <= n {
      RejectionsInPrefix(os, n, i, j);
    }
  }

  /** How many may be launched at once without passing the bound: any full wave while the
    * counter is clear, then no more than the headroom.
    */
  predicate WaveFits(s: State, width: nat, most: nat) {
    width <= most && (s.consecutive > 0 ==> s.consecutive + width <= Max(THRESHOLD, most))
  }

  /** One more wave, launched while the breaker has not tripped, keeps the bound. */
  lemma WaveKeepsBound(os: seq<Outcome>, n: nat, most: nat)
    requires n <= |os| && most >= THRESHOLD
    requires LockoutBounded(os[..n], most) && !After(os[..n]).tripped
    requires WaveFits(After(os[..n]), |os| - n, most)
    ensures LockoutBounded(os, most)
  {
    forall i, j | 0 <= i <= j <= |os| && NoSuccess(os, i, j)
      ensures Rejections(os, i, j) <= most
    {
      if j <= n {
        RejectionsInPrefix(os, n, i, j);
        assert NoSuccess(os[..n], i, j);
      } else if i >= n {
        RejectionsSplit(os, i, i, j);
      } else {
        assert NoSuccess(os[..n], i, n);
        CounterSeesAll(os[..n], i);
        RejectionsInPrefix(os, n, i, n);
        RejectionsSplit(os, i, n, j);
      }
    }
  }

  /** The report: outcomes for the attempted devices, in order, then one code for the rest. */
  ghost predicate ReportOf(results: seq<Result>, outcomes: seq<Outcome>, n: nat, code: Code) {
    && n <= |outcomes| == |results|
    && (forall i :: 0 <= i < n ==> results[i] == Attempted(outcomes[i]))
    && (forall i :: n <= i < |results| ==> results[i] == Skipped(code))
  }

  /** How many devices were tried, read off the report: the results before the first skip. */
  function Tried(results: seq<Result>): (n: nat)
    ensures n <= |results| && (n < |results| ==> results[n].Skipped?)
    ensures forall i :: 0 <= i < n ==> results[i].Attempted?
  {
    if results == [] || results[0].Skipped? then 0 else 1 + Tried(results[1..])
  }

  lemma {:induction false} TriedCounts(results: seq<Result>, n: nat)
    requires n <= |results| && forall i :: 0 <= i < n ==> results[i].Attempted?
    requires n < |results| ==> results[n].Skipped?
    ensures Tried(results) == n
    decreases n
  {
    if n > 0 {
      TriedCounts(results[1..], n - 1);
    }
  }

  lemma TriedIs(results: seq<Result>, outcomes: seq<Outcome>, n: nat, code: Code)
    requires ReportOf(results, outcomes, n, code)
    ensures Tried(results) == n
  {
    TriedCounts(results, n);
  }

  ghost predicate AllAttempted(results: seq<Result>, outcomes: seq<Outcome>, n: nat) {
    |results| == n <= |outcomes| && forall k :: 0 <= k < n ==> results[k] == Attempted(outcomes[k])
  }

  lemma ReportEnds(results: seq<Result>, outcomes: seq<Outcome>, n: nat, code: Code)
    requires AllAttempted(results, outcomes, n)
    ensures ReportOf(results + Skips(|outcomes| - n, code), outcomes, n, code)
    ensures Tried(results + Skips(|outcomes| - n, code)) == n
    ensures n == |outcomes| ==> ReportOf(results, outcomes, n, code) && Tried(results) == n
  {
    TriedIs(results + Skips(|outcomes| - n, code), outcomes, n, code);
    if n == |outcomes| {
      TriedIs(results, outcomes, n, code);
    }
  }

  // --- the walk -----------------------------------------------------------------------------

  function Skips(n: nat, code: Code): seq<Result> {
    seq(n, _ => Skipped(code))
  }

  /** The nightly walk. `outcomes[i]` is what device i answers if it is tried; `late(i)` says
    * whether the time budget has run out by then. It stops at the first device before which three
    * credentials were rejected with no success between, or the budget has run out, and at no other.
    */
  method FetchAll(outcomes: seq<Outcome>, late: nat -> bool) returns (results: seq<Result>)
    ensures var n := Tried(results);
            && n <= |outcomes|
            && ReportOf(results, outcomes, n, if ThreeRejections(outcomes[..n]) then StoppedAuthFailures else BudgetExhausted)
            && LockoutBounded(outcomes[..n], 3)
            && (forall m :: 0 <= m < n ==> !ThreeRejections(outcomes[..m]) && !late(m))
            && (n < |outcomes| ==> ThreeRejections(outcomes[..n]) || late(n))
  {
    hide LockoutBounded, After, Recorded, ReportOf, AllAttempted, Tried, ThreeRejections;
    var breaker := new Breaker();
    results := [];
    NoneYet(outcomes);
    var i := 0;
    while i < |outcomes|
      invariant 0 <= i <= |outcomes|
      invariant AllAttempted(results, outcomes, i)
      invariant breaker.Contents() == After(outcomes[..i])
      invariant LockoutBounded(outcomes[..i], 3)
      invariant forall m :: 0 <= m < i ==> !ThreeRejections(outcomes[..m]) && !late(m)
    {
      TrippedIff(outcomes[..i]);
      if breaker.tripped {
        ReportEnds(results, outcomes, i, StoppedAuthFailures);
        results := results + Skips(|outcomes| - i, StoppedAuthFailures);
        return;
      }
      if late(i) {
        ReportEnds(results, outcomes, i, BudgetExhausted);
        results := results + Skips(|outcomes| - i, BudgetExhausted);
        return;
      }
      OneOnwards(outcomes, i);
      OneMoreAttempt(outcomes, i, results);
      breaker.Record(outcomes[i]);
      results := results + [Attempted(outcomes[i])];
      i := i + 1;
    }
    ReportEnds(results, outcomes, i, if ThreeRejections(outcomes[..i]) then StoppedAuthFailures else BudgetExhausted);
  }

  lemma NoneYet(outcomes: seq<Outcome>)
    ensures AllAttempted([], outcomes, 0)
    ensures After(outcomes[..0]) == State(0, false) && LockoutBounded(outcomes[..0], 3)
  {
  }

  lemma OneMoreAttempt(outcomes: seq<Outcome>, i: nat, results: seq<Result>)
    requires i < |outcomes| && AllAttempted(results, outcomes, i)
    requires LockoutBounded(outcomes[..i], 3) && !After(outcomes[..i]).tripped
    ensures LockoutBounded(outcomes[..i + 1], 3)
    ensures AllAttempted(results + [Attempted(outcomes[i])], outcomes, i + 1)
  {
    hide LockoutBounded;
    OneOnwards(outcomes, i);
    CounterFits(outcomes[..i]);
    WaveKeepsBound(outcomes[..i + 1], i, 3);
  }

  lemma OneOnwards(os: seq<Outcome>, i: nat)
    requires i < |os|
    ensures os[..i + 1][..i] == os[..i]
    ensures After(os[..i + 1]) == Recorded(After(os[..i]), os[i])
  {
    assert os[..i + 1][..i] == os[..i];
  }

  // --- the waves ----------------------------------------------------------------------------

  function WaveEnd(waves: seq<nat>, k: nat, n: nat): nat
    requires k < |waves|
  {
    if k + 1 < |waves| then waves[k + 1] else n
  }

  /** Wave `k` was launched on an untripped breaker, in time, with every worker while no rejection has
    * come since the last success, and then with no more than are left of three.
    */
  ghost predicate SoundWave(waves: seq<nat>, k: nat, n: nat, outcomes: seq<Outcome>, late: nat -> bool, maxWorkers: nat)
    requires k < |waves|
  {
    && waves[k] < WaveEnd(waves, k, n) <= |outcomes|
    && !ThreeRejections(outcomes[..waves[k]]) && !late(waves[k])
    && exists c: nat :: Counted(outcomes[..waves[k]], c) && WaveEnd(waves, k, n) == Reach(waves[k], c, maxWorkers, |outcomes|)
  }

  function Reach(start: nat, c: nat, maxWorkers: nat, n: nat): int {
    Min(start + (if c == 0 then maxWorkers else Min(maxWorkers, 3 - c)), n)
  }

  /** The waves start at the attempt counts `waves` and together are the `n` attempts. */
  ghost predicate SoundWaves(waves: seq<nat>, n: nat, outcomes: seq<Outcome>, late: nat -> bool, maxWorkers: nat) {
    && (forall k :: 0 <= k < |waves| ==> SoundWave(waves, k, n, outcomes, late, maxWorkers))
    && (if waves == [] then n == 0 else waves[0] == 0)
  }

  lemma OneMoreWave(waves: seq<nat>, n: nat, end: nat, outcomes: seq<Outcome>, late: nat -> bool, maxWorkers: nat)
    requires SoundWaves(waves, n, outcomes, late, maxWorkers)
    requires n < end <= |outcomes| && !ThreeRejections(outcomes[..n]) && !late(n)
    requires exists c: nat :: Counted(outcomes[..n], c) && end == Reach(n, c, maxWorkers, |outcomes|)
    ensures SoundWaves(waves + [n], end, outcomes, late, maxWorkers)
  {
    hide ThreeRejections, Counted, Reach;
    var ws := waves + [n];
    forall k | 0 <= k < |ws|
      ensures SoundWave(ws, k, end, outcomes, late, maxWorkers)
    {
      if k < |waves| {
        assert SoundWave(waves, k, n, outcomes, late, maxWorkers);
        assert WaveEnd(ws, k, end) == WaveEnd(waves, k, n);
      }
    }
  }

  /** The on-demand test, in concurrent waves: the breaker is read between waves only, so a wave
    * is narrowed once a rejection is on the counter. `waves` are the attempt counts at which
    * it was read.
    */
  method TestTargets(outcomes: seq<Outcome>, late: nat -> bool, maxWorkers: nat)
    returns (results: seq<Result>, ghost waves: seq<nat>)
    requires maxWorkers >= 1
    ensures var n := Tried(results);
            && ReportOf(results, outcomes, n, if late(n) then BudgetExhausted else StoppedAuthFailures)
            && LockoutBounded(outcomes[..n], Max(maxWorkers, 3))
            && SoundWaves(waves, n, outcomes, late, maxWorkers)
            && (n < |outcomes| ==> ThreeRejections(outcomes[..n]) || late(n))
  {
    hide SoundWaves, LockoutBounded, After, Recorded, ReportOf, AllAttempted, Tried, ThreeRejections;
    var breaker := new Breaker();
    results, waves := [], [];
    NoWaveYet(outcomes, late, maxWorkers);
    var i := 0;
    while i < |outcomes|
      invariant 0 <= i <= |outcomes|
      invariant AllAttempted(results, outcomes, i)
      invariant breaker.Contents() == After(outcomes[..i])
      invariant LockoutBounded(outcomes[..i], Max(maxWorkers, 3))
      invariant SoundWaves(waves, i, outcomes, late, maxWorkers)
    {
      TrippedIff(outcomes[..i]);
      if late(i) {
        ReportEnds(results, outcomes, i, BudgetExhausted);
        results := results + Skips(|outcomes| - i, BudgetExhausted);
        return;
      }
      if breaker.tripped {
        ReportEnds(results, outcomes, i, StoppedAuthFailures);
        results := results + Skips(|outcomes| - i, StoppedAuthFailures);
        return;
      }
      CounterFits(outcomes[..i]);
      var width := if breaker.consecutive == 0 then maxWorkers else Min(maxWorkers, breaker.Headroom());
      var end := Min(i + width, |outcomes|);
      NextWave(outcomes, i, end, waves, late, maxWorkers);
      waves := waves + [i];
      results := RunWave(breaker, outcomes, i, end, results);
      i := end;
    }
    ReportEnds(results, outcomes, i, if late(i) then BudgetExhausted else StoppedAuthFailures);
  }

  lemma NoWaveYet(outcomes: seq<Outcome>, late: nat -> bool, maxWorkers: nat)
    ensures AllAttempted([], outcomes, 0) && SoundWaves([], 0, outcomes, late, maxWorkers)
    ensures After(outcomes[..0]) == State(0, false) && LockoutBounded(outcomes[..0], Max(maxWorkers, 3))
  {
  }

  lemma NextWave(outcomes: seq<Outcome>, i: nat, end: nat, waves: seq<nat>, late: nat -> bool, maxWorkers: nat)
    requires i < end <= |outcomes| && !late(i) && !After(outcomes[..i]).tripped
    requires var c := After(outcomes[..i]).consecutive;
             c < 3 && end == Reach(i, c, maxWorkers, |outcomes|)
    requires LockoutBounded(outcomes[..i], Max(maxWorkers, 3)) && SoundWaves(waves, i, outcomes, late, maxWorkers)
    ensures LockoutBounded(outcomes[..end], Max(maxWorkers, 3))
    ensures SoundWaves(waves + [i], end, outcomes, late, maxWorkers)
  {
    TrippedIff(outcomes[..i]);
    CounterIs(outcomes[..i]);
    hide SoundWaves, LockoutBounded, After, ThreeRejections, Counted;
    assert outcomes[..end][..i] == outcomes[..i];
    WaveKeepsBound(outcomes[..end], i, Max(maxWorkers, 3));
    OneMoreWave(waves, i, end, outcomes, late, maxWorkers);
  }

  /** The attempts of one wave, recorded in order. */
  method RunWave(breaker: Breaker, outcomes: seq<Outcome>, i: nat, end: nat, results0: seq<Result>)
    returns (results: seq<Result>)
    requires i <= end <= |outcomes| && breaker.Contents() == After(outcomes[..i])
    requires AllAttempted(results0, outcomes, i)
    modifies breaker
    ensures breaker.Contents() == After(outcomes[..end])
    ensures AllAttempted(results, outcomes, end)
  {
    hide After, Recorded;
    results := results0;
    var k := i;
    while k < end
      invariant i <= k <= end
      invariant breaker.Contents() == After(outcomes[..k])
      invariant AllAttempted(results, outcomes, k)
    {
      OneOnwards(outcomes, k);
      breaker.Record(outcomes[k]);
      results := results + [Attempted(outcomes[k])];
      k := k + 1;
    }
  }
}
