/** Call-quality scoring (collector/src/collector/voice.py, `r_factor`, `mos_from_r`, `grade`
  * and the loop over sent numbers in `score`): the bursts in which packets were lost, and the E-model
  * over the reals.
  */
module Voice {
  import opened Common

  // --- the E-model --------------------------------------------------------------------------

  const R0_MINUS_IS := 93.2
  const IE_G711 := 0.0
  const BPL_G711 := 25.1
  const CODEC_DELAY_MS := 20.0
  const R_GOOD := 80.0
  const R_FAIR := 70.0

  function Larger(a: real, b: real): real { if a >= b then a else b }

  function Smaller(a: real, b: real): real { if a <= b then a else b }

  function DelayImpairment(ta: real): real {
    0.024 * ta + if ta > 177.3 then 0.11 * (ta - 177.3) else 0.0
  }

  function LossImpairment(ppl: real, br: real): real
    requires ppl >= 0.0 && br >= 1.0
  {
    IE_G711 + (95.0 - IE_G711) * ppl / (ppl / br + BPL_G711)
  }

  function RFactor(oneWay: real, jitter: real, loss: real, burst: real): real {
    R0_MINUS_IS
    - DelayImpairment(oneWay + 2.0 * jitter + CODEC_DELAY_MS)
    - LossImpairment(Larger(0.0, Smaller(100.0, loss)), Larger(1.0, burst))
  }

  function Bend(r: real): real {
    r * (r - 60.0) * (100.0 - r)
  }

  function Mos(r: real): real {
    if r <= 0.0 then 1.0
    else if r >= 100.0 then 4.5
    else 1.0 + 0.035 * r + Bend(r) * 0.000007
  }

  datatype Grade = Poor | Fair | Good {
    function Rank(): nat {
      if this.Good? then 2 else if this.Fair? then 1 else 0
    }
  }

  function GradeOf(r: real): Grade {
    if r >= R_GOOD then Good else if r >= R_FAIR then Fair else Poor
  }

  lemma Product(a: real, b: real)
    ensures a >= 0.0 && b >= 0.0 ==> a * b >= 0.0
    ensures a > 0.0 && b > 0.0 ==> a * b > 0.0
    ensures a < 0.0 && b > 0.0 ==> a * b < 0.0
  {
  }

  lemma QuotientGrows(a: real, x: real, b: real, y: real)
    requires x > 0.0 && y > 0.0 && a * y <= b * x
    ensures a / x <= b / y
  {
    var p, q := a / x, b / y;
  }

  lemma MoreLoss(p: real, q: real, br: real)
    requires 0.0 <= p <= q && br >= 1.0
    ensures 0.0 <= LossImpairment(p, br) <= LossImpairment(q, br)
  {
    var x, y := p / br + BPL_G711, q / br + BPL_G711;
    QuotientGrows(95.0 * p, x, 95.0 * q, y);
    QuotientGrows(0.0, x, 95.0 * p, x);
  }

  lemma MoreBursty(q: real, br: real, cr: real)
    requires q >= 0.0 && 1.0 <= br <= cr
    ensures LossImpairment(q, br) <= LossImpairment(q, cr)
  {
    Product(q, cr - br);
    assert q * (cr - br) == q * cr - q * br;
    QuotientGrows(q, cr, q, br);
    var y, z := q / br + BPL_G711, q / cr + BPL_G711;
    Product(95.0 * q, y - z);
    assert 95.0 * q * (y - z) == 95.0 * q * y - 95.0 * q * z;
    QuotientGrows(95.0 * q, y, 95.0 * q, z);
  }

  /** R never rises when delay, jitter, loss or burstiness does. */
  lemma {:induction false} RFactorFalls(d: real, j: real, l: real, b: real, d': real, j': real, l': real, b': real)
    requires d <= d' && j <= j' && l <= l' && b <= b'
    ensures RFactor(d', j', l', b') <= RFactor(d, j, l, b)
    ensures d >= 0.0 && j >= 0.0 ==> RFactor(d, j, l, b) <= 92.72
  {
    hide LossImpairment;
    var p, q := Larger(0.0, Smaller(100.0, l)), Larger(0.0, Smaller(100.0, l'));
    MoreLoss(p, q, Larger(1.0, b));
    MoreBursty(q, Larger(1.0, b), Larger(1.0, b'));
  }

  /** R by its equation, for every delay, jitter, loss and burst ratio: what delay and loss take off 93.2.
    * Delay counts once up to 177.3 ms of mouth to ear and more steeply beyond, loss between none and
    * all, the burst ratio from 1 on (Annex B of ITU-T G.107, with 25.1 for G.711 with concealment).
    */
  lemma RFactorIs(d: real, j: real, l: real, b: real)
    ensures var ear := d + 2.0 * j + 20.0;
            var delay := if ear <= 177.3 then 0.024 * ear else 0.134 * ear - 19.503;
            var p := if l < 0.0 then 0.0 else if l > 100.0 then 100.0 else l;
            var br := if b < 1.0 then 1.0 else b;
            Times(93.2 - delay - RFactor(d, j, l, b), p + 25.1 * br) == 95.0 * Times(p, br)
  {
    var p := Larger(0.0, Smaller(100.0, l));
    var br := Larger(1.0, b);
    LossCrossed(p, br);
    hide LossImpairment, Times;
  }

  lemma LossCrossed(p: real, br: real)
    requires p >= 0.0 && br >= 1.0
    ensures Times(LossImpairment(p, br), p + 25.1 * br) == 95.0 * Times(p, br)
  {
    var q := p / br;
    var x := 95.0 * p / (q + 25.1);
    QuotientGrows(0.0, br, p, br);
    assert q * br == p;
    assert x * (q + 25.1) == 95.0 * p;
  }

  /** The mean opinion score stays between 0.98 and 4.5, for every R. */
  lemma MosBounds(r: real)
    ensures 0.98 <= Mos(r) <= 4.5
  {
    if 0.0 < r < 100.0 {
      hide Mos;
      MosAsCubic(r);
      CubicAtMost(r);
      CubicAtLeast(r);
    }
  }

  function Bracket(r: real): real {
    160.0 * r - 1000.0 - r * r
  }

  function Cubic(r: real): real {
    Times(r, Bracket(r))
  }

  lemma CubicAtMost(r: real)
    requires 0.0 <= r <= 100.0
    ensures Cubic(r) <= 500000.0
  {
    Product(100.0 - r, r + 40.0);
    assert (100.0 - r) * (r + 40.0) == 4000.0 + 60.0 * r - r * r;
    var w := 5000.0 + 60.0 * r - r * r;
    Product(100.0 - r, w);
    assert (100.0 - r) * w == 500000.0 - Cubic(r);
  }

  lemma CubicAtLeast(r: real)
    requires 0.0 <= r <= 100.0
    ensures Cubic(r) >= -2000.0
    ensures r >= 7.0 ==> Cubic(r) > 0.0
  {
    hide Cubic;
    if r < 7.0 {
      CubicNearZero(r);
    } else {
      CubicPositive(r);
    }
  }

  lemma CubicNearZero(r: real)
    requires 0.0 <= r <= 7.0
    ensures Cubic(r) >= -2000.0
  {
    hide Cubic, Times;
    SquareCompleted(r);
    SquareSign(r - 3.125);
    CubeAtMost(r);
  }

  lemma SquareCompleted(r: real)
    ensures Cubic(r) == 160.0 * Times(r - 3.125, r - 3.125) - 1562.5 - Times(r, r * r)
  {
    assert r * (160.0 * r - 1000.0 - r * r) == 160.0 * (r * r) - 1000.0 * r - r * (r * r);
    assert (r - 3.125) * (r - 3.125) == r * r - 6.25 * r + 9.765625;
  }

  lemma SquareSign(d: real)
    ensures Times(d, d) >= 0.0
  {
    Product(d, d);
    Product(-d, -d);
    assert (-d) * (-d) == d * d;
  }

  lemma CubeAtMost(r: real)
    requires 0.0 <= r <= 7.0
    ensures Times(r, r * r) <= 343.0
  {
    Product(7.0 - r, 7.0 + r);
    assert (7.0 - r) * (7.0 + r) == 49.0 - r * r;
    Product(r, 49.0 - r * r);
    assert r * (49.0 - r * r) == 49.0 * r - r * (r * r);
  }

  lemma BracketPositive(r: real)
    requires 7.0 <= r <= 100.0
    ensures Bracket(r) > 0.0
  {
    Product(r - 7.0, 153.0 - r);
    assert (r - 7.0) * (153.0 - r) == 160.0 * r - 1071.0 - r * r;
  }

  lemma CubicPositive(r: real)
    requires 7.0 <= r <= 100.0
    ensures Cubic(r) > 0.0
  {
    BracketPositive(r);
    hide Bracket, Times;
    TimesSign(r, Bracket(r));
  }

  lemma MosAsCubic(r: real)
    requires 0.0 <= r <= 100.0
    ensures Mos(r) == 1.0 + 0.000007 * Cubic(r)
  {
    hide Bend, Cubic;
    BendAsCubic(r);
  }

  lemma BendAsCubic(r: real)
    ensures Bend(r) == Cubic(r) - 5000.0 * r
    ensures r == 0.0 ==> Cubic(r) == 0.0
    ensures r == 100.0 ==> Cubic(r) == 500000.0
  {
    var x := 160.0 * r - 1000.0 - r * r;
    assert (r - 60.0) * (100.0 - r) == x - 5000.0;
    Regroup(r, r - 60.0, 100.0 - r);
  }

  lemma Regroup(a: real, b: real, c: real)
    ensures a * b * c == a * (b * c)
  {
  }

  /** The cubic dips below one for small positive R, and only there. */
  lemma MosBelowOneIff(r: real)
    ensures Mos(r) < 1.0 <==> 0.0 < r < 80.0 && r * r - 160.0 * r + 1000.0 > 0.0
  {
    if 0.0 < r < 100.0 {
      hide Mos, Cubic;
      MosAsCubic(r);
      if r >= 80.0 {
        CubicAtLeast(r);
      }
    }
  }

  lemma MosDipsBelowOne()
    ensures Mos(3.0) < 1.0
  {
    MosBelowOneIff(3.0);
  }

  function Slope(a: real, b: real): real {
    160.0 * (a + b) - (a * a + a * b + b * b) - 1000.0
  }

  lemma SlopePositive(a: real, b: real)
    requires 4.0 <= a <= 100.0 && 4.0 <= b <= 100.0
    ensures Slope(a, b) > 0.0
  {
    SlopeAtEnds(a);
    hide Slope, Times;
    TimesSign(100.0 - b, Slope(a, 4.0));
    TimesSign(b - 4.0, Slope(a, 100.0));
    TimesSign(b - 4.0, 100.0 - b);
  }

  function Times(a: real, b: real): real { a * b }

  lemma TimesSign(a: real, b: real)
    ensures a >= 0.0 && b >= 0.0 ==> Times(a, b) >= 0.0
    ensures a > 0.0 && b > 0.0 ==> Times(a, b) > 0.0
  {
  }

  lemma SlopeAtEnds(a: real)
    requires 4.0 <= a <= 100.0
    ensures Slope(a, 4.0) > 0.0 && Slope(a, 100.0) > 0.0
  {
    Product(a - 4.0, 152.0 - a);
    Product(100.0 - a, a + 40.0);
    assert Slope(a, 4.0) == (a - 4.0) * (152.0 - a) + 232.0;
    assert Slope(a, 100.0) == (100.0 - a) * (a + 40.0) + 1000.0;
  }

  /** From R 4 up to 100 a higher R is a strictly higher score. */
  lemma MosIncreases(a: real, b: real)
    requires 4.0 <= a < b <= 100.0
    ensures Mos(a) < Mos(b)
  {
    hide Mos, Cubic, Slope, Times;
    MosAsCubic(a);
    MosAsCubic(b);
    SlopePositive(a, b);
    TimesSign(b - a, Slope(a, b));
    CubicDifference(a, b);
  }

  lemma CubicDifference(a: real, b: real)
    ensures Cubic(b) - Cubic(a) == Times(b - a, Slope(a, b))
  {
    var k := 160.0 * (a + b) - 1000.0;
    assert (b - a) * k == 160.0 * (b * b - a * a) - 1000.0 * (b - a);
    assert Cubic(a) == 160.0 * (a * a) - 1000.0 * a - a * (a * a);
    assert Cubic(b) == 160.0 * (b * b) - 1000.0 * b - b * (b * b);
  }

  /** A call that is worse in every measured respect is never graded better, nor scored better
    * while R is at least 4.
    */
  lemma {:induction false} WorseIsNotBetter(d: real, j: real, l: real, b: real, d': real, j': real, l': real, b': real)
    requires 0.0 <= d <= d' && 0.0 <= j <= j' && l <= l' && b <= b'
    ensures var r, r' := RFactor(d, j, l, b), RFactor(d', j', l', b');
            && GradeOf(r').Rank() <= GradeOf(r).Rank()
            && (r' >= 4.0 ==> Mos(r') <= Mos(r))
  {
    RFactorFalls(d, j, l, b, d', j', l', b');
    var r, r' := RFactor(d, j, l, b), RFactor(d', j', l', b');
    if 4.0 <= r' < r {
      MosIncreases(r', r);
    }
  }

  // --- loss bursts --------------------------------------------------------------------------

  function Sum(runs: seq<nat>): nat {
    if runs == [] then 0 else Sum(runs[..|runs| - 1]) + runs[|runs| - 1]
  }

  /** How many of 1..n are not in `got`. */
  function Missing(n: nat, got: set<nat>): nat {
    if n == 0 then 0 else Missing(n - 1, got) + if n in got then 0 else 1
  }

  ghost predicate Block(start: nat, len: nat, n: nat, got: set<nat>) {
    && len >= 1 && start >= 1 && start + len <= n + 1
    && (forall x: nat :: Inside(x, start, len) ==> x !in got)
    && (start == 1 || start - 1 in got)
    && (start + len == n + 1 || start + len in got)
  }

  predicate Inside(x: int, start: nat, len: nat) {
    start <= x < start + len
  }

  ghost predicate Covered(x: nat, starts: seq<nat>, runs: seq<nat>)
    requires |starts| == |runs|
  {
    exists k :: 0 <= k < |runs| && Inside(x, starts[k], runs[k])
  }

  /** `runs` are the lengths, in order, of the maximal blocks of missing numbers in 1..n: disjoint,
    * bounded on both sides by an answer or by the end of the stream, and covering every number
    * that is missing.
    */
  ghost predicate Blocks(starts: seq<nat>, runs: seq<nat>, n: nat, got: set<nat>) {
    && |starts| == |runs|
    && (forall k :: 0 <= k < |runs| ==> Block(starts[k], runs[k], n, got))
    && (forall k :: 0 < k < |runs| ==> starts[k - 1] + runs[k - 1] < starts[k])
    && (forall x: nat :: 1 <= x <= n && x !in got ==> Covered(x, starts, runs))
  }

  /** As `Blocks`, with every block already closed by an answer. */
  ghost predicate Closed(starts: seq<nat>, runs: seq<nat>, n: nat, got: set<nat>) {
    && Blocks(starts, runs, n, got)
    && (forall k :: 0 <= k < |runs| ==> starts[k] + runs[k] <= n)
    && Sum(runs) == Missing(n, got)
  }

  ghost predicate OpenRun(upTo: nat, run: nat, got: set<nat>) {
    && run <= upTo
    && (forall x: nat :: upTo - run < x <= upTo ==> x !in got)
    && (run < upTo ==> upTo - run in got)
  }

  lemma {:induction false} MissingOpen(upTo: nat, run: nat, got: set<nat>)
    requires OpenRun(upTo, run, got)
    ensures Missing(upTo, got) == Missing(upTo - run, got) + run
  {
    if run > 0 {
      MissingOpen(upTo - 1, run - 1, got);
    }
  }

  lemma CloseWithAnswer(starts: seq<nat>, runs: seq<nat>, n: nat, got: set<nat>)
    requires Closed(starts, runs, n, got) && n + 1 in got
    ensures Closed(starts, runs, n + 1, got)
  {
    hide Covered, Block, Sum;
    forall k | 0 <= k < |runs|
      ensures Block(starts[k], runs[k], n + 1, got)
    {
      EarlierBlock(starts[k], runs[k], n, n + 1, got);
    }
  }

  lemma EarlierBlock(start: nat, run: nat, n: nat, upTo: nat, got: set<nat>)
    requires Block(start, run, n, got) && start + run <= n <= upTo
    ensures Block(start, run, upTo, got)
  {
  }

  lemma AppendBlock(starts: seq<nat>, runs: seq<nat>, upTo: nat, run: nat, got: set<nat>)
    requires OpenRun(upTo, run, got) && run > 0 && Closed(starts, runs, upTo - run, got)
    ensures Blocks(starts + [upTo - run + 1], runs + [run], upTo, got)
    ensures Sum(runs + [run]) == Missing(upTo, got)
  {
    hide Block, Covered, Missing;
    var starts', runs' := starts + [upTo - run + 1], runs + [run];
    assert runs'[..|runs|] == runs;
    MissingOpen(upTo, run, got);
    forall k | 0 <= k < |runs'|
      ensures Block(starts'[k], runs'[k], upTo, got)
    {
      if k < |runs| {
        EarlierBlock(starts[k], runs[k], upTo - run, upTo, got);
      } else {
        OpenBlock(upTo, run, got);
      }
    }
    forall x: nat | 1 <= x <= upTo && x !in got
      ensures Covered(x, starts', runs')
    {
      CoverAppend(x, starts, runs, upTo - run + 1, run);
    }
  }

  lemma OpenBlock(upTo: nat, run: nat, got: set<nat>)
    requires OpenRun(upTo, run, got) && run > 0
    ensures Block(upTo - run + 1, run, upTo, got)
  {
  }

  lemma CoverAppend(x: nat, starts: seq<nat>, runs: seq<nat>, start: nat, run: nat)
    requires |starts| == |runs|
    ensures Covered(x, starts + [start], runs + [run]) <==> Covered(x, starts, runs) || Inside(x, start, run)
  {
    var starts', runs' := starts + [start], runs + [run];
    if Covered(x, starts, runs) {
      var k :| 0 <= k < |runs| && Inside(x, starts[k], runs[k]);
      assert Inside(x, starts'[k], runs'[k]);
    }
    assert starts'[|runs|] == start && runs'[|runs|] == run;
  }

  lemma AnsweredAfter(starts: seq<nat>, runs: seq<nat>, upTo: nat, got: set<nat>)
    requires Blocks(starts, runs, upTo, got) && upTo + 1 in got && Sum(runs) == Missing(upTo, got)
    ensures Closed(starts, runs, upTo + 1, got)
  {
    hide Covered, Block, Sum;
    forall k | 0 <= k < |runs|
      ensures Block(starts[k], runs[k], upTo + 1, got) && starts[k] + runs[k] <= upTo + 1
    {
      ClosedBlock(starts[k], runs[k], upTo, got);
    }
  }

  lemma ClosedBlock(start: nat, run: nat, upTo: nat, got: set<nat>)
    requires Block(start, run, upTo, got) && upTo + 1 in got
    ensures Block(start, run, upTo + 1, got) && start + run <= upTo + 1
  {
  }

  /** The longest of the runs, 0 when there is none. */
  ghost predicate Longest(longest: nat, runs: seq<nat>) {
    && (forall k :: 0 <= k < |runs| ==> runs[k] <= longest)
    && (longest == 0 || longest in runs)
  }

  ghost predicate LongestSoFar(longest: nat, runs: seq<nat>, run: nat) {
    && run <= longest
    && (forall k :: 0 <= k < |runs| ==> runs[k] <= longest)
    && (longest == 0 || longest == run || longest in runs)
  }

  method LossRuns(transmitted: nat, got: set<nat>)
    returns (runs: seq<nat>, longest: nat, ghost starts: seq<nat>)
    ensures Blocks(starts, runs, transmitted, got)
    ensures Longest(longest, runs)
    ensures Sum(runs) == Missing(transmitted, got)
  {
    hide Closed, Blocks;
    runs, longest, starts := [], 0, [];
    var run := 0;
    var sent := 0;
    NothingSent(got);
    while sent < transmitted
      invariant 0 <= sent <= transmitted && run <= sent
      invariant OpenRun(sent, run, got)
      invariant Closed(starts, runs, sent - run, got)
      invariant LongestSoFar(longest, runs, run)
    {
      if sent + 1 in got {
        if run > 0 {
          AppendBlock(starts, runs, sent, run, got);
          runs, starts := runs + [run], starts + [sent - run + 1];
          AnsweredAfter(starts, runs, sent, got);
        } else {
          CloseWithAnswer(starts, runs, sent, got);
        }
        run := 0;
      } else {
        run := run + 1;
        longest := Max(longest, run);
      }
      sent := sent + 1;
    }
    if run > 0 {
      AppendBlock(starts, runs, sent, run, got);
      runs, starts := runs + [run], starts + [sent - run + 1];
    } else {
      ClosedBlocks(starts, runs, sent, got);
    }
  }

  lemma NothingSent(got: set<nat>)
    ensures Closed([], [], 0, got)
  {
  }

  lemma ClosedBlocks(starts: seq<nat>, runs: seq<nat>, n: nat, got: set<nat>)
    requires Closed(starts, runs, n, got)
    ensures Blocks(starts, runs, n, got) && Sum(runs) == Missing(n, got)
  {
  }

  predicate InRange(n: nat, got: set<nat>) {
    forall x :: x in got ==> 1 <= x <= n
  }

  lemma {:induction false} MissingPlusAnswered(n: nat, got: set<nat>)
    ensures Missing(n, got) + |set x | x in got && 1 <= x <= n| == n
  {
    var here := set x | x in got && 1 <= x <= n;
    if n == 0 {
      assert here == {};
    } else {
      MissingPlusAnswered(n - 1, got);
      var before := set x | x in got && 1 <= x <= n - 1;
      assert here == if n in got then before + {n} else before;
    }
  }

  /** The runs add up to `sent - received` exactly when every answer carries a number that was
    * sent; an answer outside 1..sent makes the two disagree.
    */
  lemma RunsAddUpIff(n: nat, got: set<nat>)
    ensures Missing(n, got) == n - |got| <==> InRange(n, got)
  {
    MissingPlusAnswered(n, got);
    var here := set x | x in got && 1 <= x <= n;
    if InRange(n, got) {
      assert here == got;
    } else {
      var out :| out in got && !(1 <= out <= n);
      SmallerSet(here, got - {out});
    }
  }

  /** One packet sent and an answer numbered 2: one run of one, although as much was received as sent. */
  lemma StrayAnswerDisagrees()
    ensures Missing(1, {2}) == 1 && 1 - |{2 as nat}| == 0 && !InRange(1, {2})
    ensures Blocks([1], [1], 1, {2})
  {
    var got: set<nat> := {2};
    assert Missing(1, got) == Missing(0, got) + 1;
    assert Block(1, 1, 1, got);
    var ones: seq<nat> := [1];
    assert Inside(1, ones[0], ones[0]);
    assert Covered(1, ones, ones);
    assert 2 in got;
  }

  /** Two descriptions of the blocks of one stream are the same description. */
  lemma {:induction false} BlocksAreUnique(s: seq<nat>, r: seq<nat>, s': seq<nat>, r': seq<nat>, n: nat, got: set<nat>, k: nat)
    requires Blocks(s, r, n, got) && Blocks(s', r', n, got) && k < |r|
    ensures k < |r'| && s[k] == s'[k] && r[k] == r'[k]
  {
    forall m | 0 <= m < k
      ensures m < |r'| && s[m] == s'[m]
    {
      BlocksAreUnique(s, r, s', r', n, got, m);
    }
    assert |s| == |r| && |s'| == |r'|;
    hide Blocks, Block;
    Found(s[k], r[k], s', r', n, got);
    var i: nat :| i < |r'| && s'[i] == s[k] && r'[i] == r[k];
    assert Increasing(s) by {
      forall x, y | 0 <= x < y < |s|
        ensures s[x] < s[y]
      {
        BlocksInOrder(s, r, n, got, x, y);
      }
    }
    assert Increasing(s') by {
      forall x, y | 0 <= x < y < |s'|
        ensures s'[x] < s'[y]
      {
        BlocksInOrder(s', r', n, got, x, y);
      }
    }
    assert i >= k;
    Found(s'[k], r'[k], s, r, n, got);
    var j: nat :| j < |r| && s[j] == s'[k] && r[j] == r'[k];
    assert j >= k;
  }

  /** A block of one description is a block of the other. */
  lemma Found(a: nat, x: nat, starts: seq<nat>, runs: seq<nat>, n: nat, got: set<nat>)
    requires Block(a, x, n, got) && Blocks(starts, runs, n, got)
    ensures |starts| == |runs| && exists i: nat :: i < |runs| && starts[i] == a && runs[i] == x
  {
    assert Inside(a, a, x);
    assert Covered(a, starts, runs);
    var i :| 0 <= i < |runs| && Inside(a, starts[i], runs[i]);
  }

  ghost predicate Increasing(s: seq<nat>) {
    forall i, j :: 0 <= i < j < |s| ==> s[i] < s[j]
  }

  lemma {:induction false} BlocksInOrder(s: seq<nat>, r: seq<nat>, n: nat, got: set<nat>, i: nat, j: nat)
    requires Blocks(s, r, n, got) && i < j < |r|
    ensures s[i] < s[j]
    decreases j - i
  {
    if i < j - 1 {
      BlocksInOrder(s, r, n, got, i, j - 1);
    }
    assert s[j - 1] + r[j - 1] < s[j];
  }
}
