/** The figures reported for a call-quality stream (collector/src/collector/voice.py, `score`), rounded as
  * the source rounds them, over the reals.
  */
module VoiceScore {
  import opened Common
  import opened Voice

  function Total(xs: seq<real>): real {
    if xs == [] then 0.0 else Total(xs[..|xs| - 1]) + xs[|xs| - 1]
  }

  function Mean(xs: seq<real>): real {
    if xs == [] then 0.0 else Total(xs) / |xs| as real
  }

  function Gap(a: real, b: real): real { if a >= b then a - b else b - a }

  function Diffs(xs: seq<real>): seq<real> {
    if |xs| <= 1 then [] else Diffs(xs[..|xs| - 1]) + [Gap(xs[|xs| - 1], xs[|xs| - 2])]
  }

  function BurstRatio(runs: seq<nat>, sent: nat, received: nat): real
  {
    if sent == 0 then 1.0
    else
      var p := (sent - received) as real / sent as real;
      if runs != [] && p < 1.0 then (Sum(runs) as real / |runs| as real) * (1.0 - p) else 1.0
  }

  function LossPct(sent: nat, received: nat): real {
    if sent == 0 then 0.0 else 100.0 * (sent - received) as real / sent as real
  }

  // --- what is reported ---------------------------------------------------------------------

  /** Python's `round`: to the nearest, and from the middle to the even neighbour. */
  function RoundHalfEven(x: real): int {
    var below := x.Floor;
    var over := x - below as real;
    if over < 0.5 then below else if over > 0.5 then below + 1 else if below % 2 == 0 then below else below + 1
  }

  function Round1(x: real): real {
    RoundHalfEven(10.0 * x) as real / 10.0
  }

  function Round2(x: real): real {
    RoundHalfEven(100.0 * x) as real / 100.0
  }

  lemma RoundOrder(x: real, y: real)
    requires x <= y
    ensures RoundHalfEven(x) <= RoundHalfEven(y)
  {
  }

  /** A nearest whole number to `x`, and of two equally near the even one. */
  predicate Nearest(n: int, x: real) {
    && -0.5 <= n as real - x <= 0.5
    && (n as real - x == 0.5 || n as real - x == -0.5 ==> n % 2 == 0)
  }

  lemma RoundsToNearest(x: real)
    ensures Nearest(RoundHalfEven(x), x)
  {
  }

  predicate RoundedTo(r: real, n: int, x: real, parts: real) {
    r * parts == n as real && Nearest(n, parts * x)
  }

  /** What is reported is a nearest whole number of tenths, or of hundredths. */
  lemma RoundedIs(x: real)
    ensures exists n :: RoundedTo(Round1(x), n, x, 10.0)
    ensures exists n :: RoundedTo(Round2(x), n, x, 100.0)
  {
    RoundsToNearest(10.0 * x);
    RoundsToNearest(100.0 * x);
    assert RoundedTo(Round1(x), RoundHalfEven(10.0 * x), x, 10.0);
    assert RoundedTo(Round2(x), RoundHalfEven(100.0 * x), x, 100.0);
  }

  datatype Figures = Figures(avg: real, p95: real, max: real, jitter: real, r: real, mos: real, grade: Grade)

  datatype Scored = Scored(sent: nat, received: nat, lossPct: Option<real>, maxLossBurst: nat, figures: Option<Figures>)

  function P95Index(n: nat): (k: nat)
    requires n > 0
    ensures k < n
  {
    var i := RoundHalfEven(0.95 * (n - 1) as real);
    if i > n - 1 then n - 1 else if i < 0 then 0 else i
  }

  /** The rank of the 95th percentile among `n` delays in order is the one nearest to 95 hundredths of the way
    * from the first to the last; the clamp to the list never has anything to do.
    */
  lemma P95IsNearest(n: nat)
    requires n > 0
    ensures Nearest(P95Index(n), 0.95 * (n - 1) as real)
  {
    RoundsToNearest(0.95 * (n - 1) as real);
  }

  ghost predicate Ascending(srt: seq<real>) {
    forall i, j :: 0 <= i < j < |srt| ==> srt[i] <= srt[j]
  }

  /** `keys` lists the answered numbers in increasing order. */
  ghost predicate InSequence(keys: seq<nat>, got: set<nat>) {
    && (forall i, j :: 0 <= i < j < |keys| ==> keys[i] < keys[j])
    && (forall x :: x in got <==> x in keys)
    && |keys| == |got|
  }

  function Delays(keys: seq<nat>, rtts: map<nat, real>): seq<real>
    requires forall k :: k in keys ==> k in rtts
  {
    if keys == [] then [] else Delays(keys[..|keys| - 1], rtts) + [rtts[keys[|keys| - 1]]]
  }

  /** The unrounded R of a stream: over half the mean round trip, the mean gap between answers
    * consecutive in sequence, the share lost as reported, and the burst ratio.
    */
  function StreamR(sent: nat, received: nat, xs: seq<real>, runs: seq<nat>): real {
    RFactor(Mean(xs) / 2.0, Mean(Diffs(xs)), Round2(LossPct(sent, received)), BurstRatio(runs, sent, received))
  }

  lemma {:induction false} GapsAre(xs: seq<real>)
    ensures |Diffs(xs)| == if |xs| == 0 then 0 else |xs| - 1
    ensures forall i :: 0 <= i < |Diffs(xs)| ==>
              Diffs(xs)[i] >= 0.0 && (xs[i + 1] == xs[i] + Diffs(xs)[i] || xs[i + 1] == xs[i] - Diffs(xs)[i])
  {
    if |xs| > 1 {
      GapsAre(xs[..|xs| - 1]);
    }
  }

  lemma MeanIs(xs: seq<real>)
    ensures if xs == [] then Mean(xs) == 0.0 else Times(Mean(xs), |xs| as real) == Total(xs)
  {
  }

  lemma LossIs(sent: nat, received: nat)
    requires sent > 0
    ensures Times(LossPct(sent, received), sent as real) == 100.0 * (sent - received) as real
  {
  }

  /** The mean burst against what random loss at the same rate would make of it, by its equation; 1 when
    * nothing was sent, lost or received.
    */
  lemma BurstIs(runs: seq<nat>, sent: nat, received: nat)
    ensures if sent == 0 || runs == [] || received == 0 then BurstRatio(runs, sent, received) == 1.0
            else Times(BurstRatio(runs, sent, received), Times(|runs| as real, sent as real))
                 == Times(Sum(runs) as real, received as real)
  {
    if sent == 0 {
      return;
    }
    var n, m := sent as real, |runs| as real;
    var p := (sent - received) as real / n;
    assert p * n == (sent - received) as real;
    assert (1.0 - p) * n == received as real;
    if received == 0 {
      assert p == 1.0;
    } else {
      LessThanAll(p, n);
      if runs != [] {
        var mean := Sum(runs) as real / m;
        assert mean * m == Sum(runs) as real;
        FourFactors(mean, 1.0 - p, m, n);
      }
    }
  }

  lemma LessThanAll(p: real, n: real)
    requires n > 0.0 && (1.0 - p) * n > 0.0
    ensures p < 1.0
  {
    if p >= 1.0 {
      Product(p - 1.0, n);
      assert (1.0 - p) * n == -((p - 1.0) * n);
    }
  }

  lemma FourFactors(a: real, b: real, c: real, d: real)
    ensures (a * b) * (c * d) == (a * c) * (b * d)
  {
    assert (a * b) * (c * d) == a * (b * (c * d));
    assert b * (c * d) == c * (b * d);
    assert (a * c) * (b * d) == a * (c * (b * d));
  }

  /** What the unrounded R of a stream is computed from, each by its own equation: half the mean delay; the
    * mean of the gaps between answers consecutive in sequence; the share lost, as it is reported; and the
    * burst ratio.
    */
  lemma StreamIs(sent: nat, received: nat, xs: seq<real>, runs: seq<nat>)
    requires sent > 0 && xs != []
    ensures exists half, gap, loss, burst ::
              && StreamR(sent, received, xs, runs) == RFactor(half, gap, loss, burst)
              && Times(2.0 * half, |xs| as real) == Total(xs)
              && (if |xs| == 1 then gap == 0.0 else Times(gap, (|xs| - 1) as real) == Total(Diffs(xs)))
              && (exists pct :: loss == Round2(pct) && Times(pct, sent as real) == 100.0 * (sent - received) as real)
              && burst == BurstRatio(runs, sent, received)
  {
    hide Mean, Times, RFactor, BurstRatio, Round2, LossPct;
    MeanIs(xs);
    MeanIs(Diffs(xs));
    GapsAre(xs);
    LossIs(sent, received);
    var half, pct := Mean(xs) / 2.0, LossPct(sent, received);
    assert 2.0 * half == Mean(xs);
    assert StreamR(sent, received, xs, runs) == RFactor(half, Mean(Diffs(xs)), Round2(pct), BurstRatio(runs, sent, received));
  }

  /** The figures a stream must be reported with: each rounded, the grade from R as it was before. */
  ghost predicate Figured(f: Figures, sent: nat, rtts: map<nat, real>, keys: seq<nat>, runs: seq<nat>)
    requires forall k :: k in keys ==> k in rtts
  {
    var xs := Delays(keys, rtts);
    var r := StreamR(sent, |rtts|, xs, runs);
    && f.avg == Round2(Mean(xs))
    && f.jitter == Round2(Mean(Diffs(xs)))
    && f.r == Round1(r)
    && f.mos == Round2(Mos(r))
    && f.grade == GradeOf(r)
    && Ranked(f, xs)
  }

  /** The largest delay, and the one at 95 per cent of the delays in order. */
  ghost predicate Ranked(f: Figures, xs: seq<real>) {
    exists srt :: RankedBy(f, xs, srt)
  }

  ghost predicate RankedBy(f: Figures, xs: seq<real>, srt: seq<real>) {
    && Ascending(srt) && multiset(srt) == multiset(xs) && |srt| > 0
    && f.p95 == Round2(srt[P95Index(|srt|)]) && f.max == Round2(srt[|srt| - 1])
  }

  lemma {:induction false} SomeLeast(s: set<nat>, x: nat)
    requires x in s
    ensures exists least :: least in s && forall y :: y in s ==> least <= y
    decreases x
  {
    if exists y :: y in s && y < x {
      var y :| y in s && y < x;
      SomeLeast(s, y);
    }
  }

  method SortedKeys(got: set<nat>) returns (keys: seq<nat>)
    ensures InSequence(keys, got)
  {
    keys := [];
    var left := got;
    while left != {}
      invariant left <= got && |keys| + |left| == |got|
      invariant forall i, j :: 0 <= i < j < |keys| ==> keys[i] < keys[j]
      invariant forall x :: x in got <==> x in keys || x in left
      invariant forall x, i :: x in left && 0 <= i < |keys| ==> keys[i] < x
      decreases |left|
    {
      var any :| any in left;
      SomeLeast(left, any);
      var least :| least in left && forall y :: y in left ==> least <= y;
      keys, left := keys + [least], left - {least};
    }
  }

  method SortDelays(xs: seq<real>) returns (srt: seq<real>)
    ensures Ascending(srt) && multiset(srt) == multiset(xs) && |srt| == |xs|
  {
    srt := [];
    var i := 0;
    while i < |xs|
      invariant 0 <= i <= |xs| == i + |xs[i..]|
      invariant Ascending(srt) && multiset(srt) == multiset(xs[..i]) && |srt| == i
    {
      assert xs[..i + 1] == xs[..i] + [xs[i]];
      srt := InsertDelay(srt, xs[i]);
      i := i + 1;
    }
    assert xs[..i] == xs;
  }

  method InsertDelay(srt: seq<real>, x: real) returns (r: seq<real>)
    requires Ascending(srt)
    ensures Ascending(r) && multiset(r) == multiset(srt + [x]) && |r| == |srt| + 1
  {
    var k := |srt|;
    while k > 0 && srt[k - 1] > x
      invariant 0 <= k <= |srt| && forall i :: k <= i < |srt| ==> x < srt[i]
    {
      k := k - 1;
    }
    InsertedContents(srt, k, x);
    hide Ascending;
    r := srt[..k] + [x] + srt[k..];
  }

  lemma InsertedContents(srt: seq<real>, k: nat, x: real)
    requires k <= |srt|
    ensures multiset(srt[..k] + [x] + srt[k..]) == multiset(srt + [x])
  {
    assert srt == srt[..k] + srt[k..];
  }

  /** Neither the reported mean nor the 95th percentile exceeds the largest delay; and whatever was lost
    * and however the answers were spread, R is at most 92.7 and the mean opinion score between 0.98
    * and 4.5.
    */
  method Score(transmitted: nat, rtts: map<nat, real>)
    returns (s: Scored, ghost starts: seq<nat>, ghost runs: seq<nat>, ghost keys: seq<nat>)
    ensures s.sent == transmitted && s.received == |rtts|
    ensures s.lossPct == if transmitted == 0 then None else Some(Round2(LossPct(transmitted, |rtts|)))
    ensures Blocks(starts, runs, transmitted, rtts.Keys) && Longest(s.maxLossBurst, runs)
    ensures InSequence(keys, rtts.Keys)
    ensures s.figures.Some? <==> rtts != map[]
    ensures s.figures.Some? ==> Figured(s.figures.value, transmitted, rtts, keys, runs)
    ensures s.figures.Some? ==> s.figures.value.avg <= s.figures.value.max && s.figures.value.p95 <= s.figures.value.max
    ensures s.figures.Some? && (forall k :: k in rtts ==> rtts[k] >= 0.0) ==>
              var f := s.figures.value;
              f.avg >= 0.0 && f.jitter >= 0.0 && f.r <= 92.7 && 0.98 <= f.mos <= 4.5
  {
    hide Blocks, Longest, RFactor, Mos, BurstRatio, Mean, Diffs, Delays, P95Index, Ascending, Round1, Round2;
    var lost, longest;
    lost, longest, starts := LossRuns(transmitted, rtts.Keys);
    runs := lost;
    var order := SortedKeys(rtts.Keys);
    keys := order;
    var lossPct := if transmitted == 0 then None else Some(Round2(LossPct(transmitted, |rtts|)));
    if rtts == map[] {
      return Scored(transmitted, |rtts|, lossPct, longest, None), starts, runs, keys;
    }
    var xs := Delays(order, rtts);
    DelaysSize(order, rtts);
    NothingLost();
    var avg := Mean(xs);
    var srt := SortDelays(xs);
    assert |rtts.Keys| > 0;
    var jitter := Mean(Diffs(xs));
    var loss := if lossPct.Some? then lossPct.value else 0.0;
    var r := RFactor(avg / 2.0, jitter, loss, BurstRatio(lost, transmitted, |rtts|));
    var f := Figures(Round2(avg), Round2(srt[P95Index(|srt|)]), Round2(srt[|srt| - 1]), Round2(jitter),
                     Round1(r), Round2(Mos(r)), GradeOf(r));
    assert RankedBy(f, xs, srt);
    s := Scored(transmitted, |rtts|, lossPct, longest, Some(f));
    LargestIsLast(xs, srt);
    MeanAtMost(xs, srt[|srt| - 1]);
    RoundedOrder(avg, srt[|srt| - 1]);
    RoundedOrder(srt[P95Index(|srt|)], srt[|srt| - 1]);
    if forall k :: k in rtts ==> rtts[k] >= 0.0 {
      DelaysNonNegative(order, rtts);
      DiffsNonNegative(xs);
      TotalNonNegative(xs);
      TotalNonNegative(Diffs(xs));
      RFactorFalls(avg / 2.0, jitter, loss, BurstRatio(lost, transmitted, |rtts|),
                   avg / 2.0, jitter, loss, BurstRatio(lost, transmitted, |rtts|));
      MosBounds(r);
      RoundedOrder(0.0, avg);
      RoundedOrder(0.0, jitter);
      RoundedOrder(r, 92.72);
      RoundedOrder(0.98, Mos(r));
      RoundedOrder(Mos(r), 4.5);
      Bounds();
    }
  }

  lemma NothingLost()
    ensures Round2(0.0) == 0.0
  {
  }

  lemma {:induction false} DelaysSize(keys: seq<nat>, rtts: map<nat, real>)
    requires forall k :: k in keys ==> k in rtts
    ensures |Delays(keys, rtts)| == |keys|
  {
    if keys != [] {
      DelaysSize(keys[..|keys| - 1], rtts);
    }
  }

  ghost predicate NonNegative(xs: seq<real>) {
    forall i :: 0 <= i < |xs| ==> xs[i] >= 0.0
  }

  lemma {:induction false} TotalNonNegative(xs: seq<real>)
    requires NonNegative(xs)
    ensures Total(xs) >= 0.0 && Mean(xs) >= 0.0
  {
    if xs != [] {
      TotalNonNegative(xs[..|xs| - 1]);
      assert xs[|xs| - 1] >= 0.0;
      assert 0.0 * (|xs| as real) == 0.0;
      QuotientGrows(0.0, |xs| as real, Total(xs), |xs| as real);
    }
  }

  lemma {:induction false} DiffsNonNegative(xs: seq<real>)
    ensures NonNegative(Diffs(xs))
  {
    if |xs| > 1 {
      DiffsNonNegative(xs[..|xs| - 1]);
    }
  }

  lemma {:induction false} DelaysNonNegative(keys: seq<nat>, rtts: map<nat, real>)
    requires forall k :: k in keys ==> k in rtts && rtts[k] >= 0.0
    ensures NonNegative(Delays(keys, rtts))
  {
    if keys != [] {
      DelaysNonNegative(keys[..|keys| - 1], rtts);
    }
  }

  lemma {:induction false} MeanAtMost(xs: seq<real>, most: real)
    requires xs != [] && forall i :: 0 <= i < |xs| ==> xs[i] <= most
    ensures Total(xs) <= most * |xs| as real && Mean(xs) <= most
  {
    if |xs| > 1 {
      MeanAtMost(xs[..|xs| - 1], most);
    }
    assert xs[|xs| - 1] <= most;
    var n := |xs| as real;
    assert most * (n - 1.0) + most == most * n;
    assert Total(xs[..|xs| - 1]) <= most * (n - 1.0);
    QuotientGrows(Total(xs), n, most * n, n);
    assert most * n / n == most;
  }

  lemma RoundedOrder(x: real, y: real)
    requires x <= y
    ensures Round2(x) <= Round2(y) && Round1(x) <= Round1(y)
  {
    RoundOrder(100.0 * x, 100.0 * y);
    RoundOrder(10.0 * x, 10.0 * y);
  }

  lemma LargestIsLast(xs: seq<real>, srt: seq<real>)
    requires Ascending(srt) && multiset(srt) == multiset(xs) && |srt| > 0
    ensures forall i :: 0 <= i < |xs| ==> xs[i] <= srt[|srt| - 1]
  {
    forall i | 0 <= i < |xs|
      ensures xs[i] <= srt[|srt| - 1]
    {
      assert xs[i] in multiset(srt);
    }
  }

  lemma Bounds()
    ensures Round2(0.0) == 0.0 && Round2(0.98) == 0.98 && Round2(4.5) == 4.5 && Round1(92.72) == 92.7
  {
  }

  /** The reported R can round up into a better band than the grade: exactly for R within a twentieth
    * below a band's edge.
    */
  lemma GradeOfReportedIff(r: real)
    ensures GradeOf(Round1(r)) == GradeOf(r) <==> !(69.95 <= r < 70.0) && !(79.95 <= r < 80.0)
  {
  }

  /** An R of 69.96 is graded poor and reported as 70, which is fair. */
  lemma ReportedGradeDisagrees()
    ensures GradeOf(69.96) == Poor && Round1(69.96) == 70.0 && GradeOf(Round1(69.96)) == Fair
  {
  }
}
