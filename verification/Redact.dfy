/** Masking secrets in a device config (collector/src/collector/discovery/device_config.py,
  * `_redact_config`, `_backstop_line` and `_next_credential_tail`). Pattern matching is a
  * parameter: a pattern contributes spans, a search returns the next match.
  */
module Redact {
  import opened Common

  datatype Span = Span(start: nat, end: nat)

  ghost predicate InRange(spans: seq<Span>, n: nat) {
    forall i :: 0 <= i < |spans| ==> spans[i].start < spans[i].end <= n
  }

  predicate Covered(spans: seq<Span>, p: nat) {
    exists i :: 0 <= i < |spans| && spans[i].start <= p < spans[i].end
  }

  // --- sorting and merging ----------------------------------------------------------------

  predicate SpanLess(a: Span, b: Span) {
    a.start < b.start || (a.start == b.start && a.end < b.end)
  }

  ghost predicate SortedSpans(spans: seq<Span>) {
    forall i, j :: 0 <= i < j < |spans| ==> !SpanLess(spans[j], spans[i])
  }

  ghost predicate SameMembers(a: seq<Span>, b: seq<Span>) {
    forall x :: x in a <==> x in b
  }

  /** `spans.sort()` */
  method SortSpans(spans: seq<Span>) returns (sorted: seq<Span>)
    ensures SortedSpans(sorted) && SameMembers(sorted, spans)
  {
    sorted := [];
    var i := 0;
    while i < |spans|
      invariant 0 <= i <= |spans|
      invariant SortedSpans(sorted) && SameMembers(sorted, spans[..i])
    {
      assert spans[..i + 1] == spans[..i] + [spans[i]];
      sorted := InsertSpan(sorted, spans[i]);
      i := i + 1;
    }
    assert spans[..i] == spans;
  }

  method InsertSpan(sorted: seq<Span>, x: Span) returns (r: seq<Span>)
    requires SortedSpans(sorted)
    ensures SortedSpans(r) && SameMembers(r, sorted + [x])
  {
    var k := 0;
    while k < |sorted| && !SpanLess(x, sorted[k])
      invariant 0 <= k <= |sorted|
      invariant forall j :: 0 <= j < k ==> !SpanLess(x, sorted[j])
    {
      k := k + 1;
    }
    r := sorted[..k] + [x] + sorted[k..];
    assert sorted == sorted[..k] + sorted[k..];
    assert forall j :: k <= j < |sorted| ==> !SpanLess(sorted[j], x);
  }

  /** Disjoint intervals in order, with a gap between any two. */
  ghost predicate Separated(spans: seq<Span>) {
    forall i, j :: 0 <= i < j < |spans| ==> spans[i].end < spans[j].start
  }

  lemma MergeInto(merged: seq<Span>, last: Span, x: Span, p: nat)
    requires last.start <= x.start <= last.end
    ensures Covered(merged + [Span(last.start, Max(last.end, x.end))], p)
            <==> Covered(merged + [last], p) || x.start <= p < x.end
  {
    var y := Span(last.start, Max(last.end, x.end));
    CoveredAppend(merged, y, p);
    CoveredAppend(merged, last, p);
  }

  lemma CoveredAppend(spans: seq<Span>, x: Span, p: nat)
    ensures Covered(spans + [x], p) <==> Covered(spans, p) || x.start <= p < x.end
  {
    var all := spans + [x];
    if Covered(spans, p) {
      var i :| 0 <= i < |spans| && spans[i].start <= p < spans[i].end;
      assert all[i] == spans[i];
    }
    assert all[|spans|] == x;
  }

  /** The union loop: overlapping and touching spans become one. The result covers exactly the
    * same positions, in separated intervals.
    */
  method MergeSpans(sorted: seq<Span>, n: nat) returns (merged: seq<Span>)
    requires SortedSpans(sorted) && InRange(sorted, n)
    ensures Separated(merged) && InRange(merged, n)
    ensures forall p: nat :: Covered(merged, p) <==> Covered(sorted, p)
  {
    hide Covered;
    merged := [];
    var i := 0;
    assert sorted[..0] == [];
    while i < |sorted|
      invariant 0 <= i <= |sorted|
      invariant Separated(merged) && InRange(merged, n)
      invariant |merged| > 0 && i < |sorted| ==> merged[|merged| - 1].start <= sorted[i].start
      invariant forall p: nat :: Covered(merged, p) <==> Covered(sorted[..i], p)
    {
      var x := sorted[i];
      ghost var was := merged;
      assert sorted[..i + 1] == sorted[..i] + [x];
      if |merged| > 0 && x.start <= merged[|merged| - 1].end {
        var last := merged[|merged| - 1];
        merged := merged[..|merged| - 1] + [Span(last.start, Max(last.end, x.end))];
        forall p: nat
          ensures Covered(merged, p) <==> Covered(sorted[..i + 1], p)
        {
          SplitLast(was);
          MergeInto(was[..|was| - 1], last, x, p);
          CoveredAppend(sorted[..i], x, p);
        }
      } else {
        merged := merged + [x];
        forall p: nat
          ensures Covered(merged, p) <==> Covered(sorted[..i + 1], p)
        {
          CoveredAppend(was, x, p);
          CoveredAppend(sorted[..i], x, p);
        }
      }
      i := i + 1;
    }
    assert sorted[..i] == sorted;
  }

  // --- replacing --------------------------------------------------------------------------

  type Token = string -> string

  /** Spans in order that do not overlap; they may touch. */
  ghost predicate Ordered(spans: seq<Span>, n: nat) {
    InRange(spans, n) && forall i, j :: 0 <= i < j < |spans| ==> spans[i].end <= spans[j].start
  }

  /** The text from `p` on with each span from the k-th replaced by its token. */
  function Rendered(text: string, spans: seq<Span>, token: Token, k: nat, p: nat): string
    requires k <= |spans| && p <= |text|
    requires forall i :: k <= i < |spans| ==> spans[i].start < spans[i].end <= |text|
    requires forall i, j :: k <= i < j < |spans| ==> spans[i].end <= spans[j].start
    requires k < |spans| ==> p <= spans[k].start
    decreases |spans| - k
  {
    if k == |spans| then text[p..]
    else
      var s := spans[k];
      text[p..s.start] + token(text[s.start..s.end]) + Rendered(text, spans, token, k + 1, s.end)
  }

  /** The loop replaces from the right, so the offsets of what is left stay valid. */
  method ReplaceRightToLeft(original: string, spans: seq<Span>, token: Token) returns (text: string)
    requires Ordered(spans, |original|)
    ensures text == Rendered(original, spans, token, 0, 0)
  {
    text := original;
    var k := |spans|;
    while k > 0
      invariant 0 <= k <= |spans|
      invariant var b := if k == |spans| then |original| else spans[k].start;
                text == original[..b] + Rendered(original, spans, token, k, b)
    {
      ghost var b := if k == |spans| then |original| else spans[k].start;
      k := k - 1;
      var s := spans[k];
      Advance(original, spans, token, k + 1, s.end, b);
      KeepsFront(original, s, b, Rendered(original, spans, token, k + 1, b));
      text := text[..s.start] + token(text[s.start..s.end]) + text[s.end..];
    }
  }

  lemma Advance(text: string, spans: seq<Span>, token: Token, k: nat, p: nat, b: nat)
    requires Ordered(spans, |text|) && k <= |spans| && p <= b
    requires b == if k == |spans| then |text| else spans[k].start
    ensures Rendered(text, spans, token, k, p) == text[p..b] + Rendered(text, spans, token, k, b)
  {
    if k < |spans| {
      var s := spans[k];
      assert text[b..b] == "";
    }
  }

  lemma KeepsFront(text: string, s: Span, b: nat, tail: string)
    requires s.start < s.end <= b <= |text|
    ensures var t := text[..b] + tail;
            && t[..s.start] == text[..s.start] && t[s.start..s.end] == text[s.start..s.end]
            && t[s.end..] == text[s.end..b] + tail
  {
  }

  // --- the same thing, by positions alone ---------------------------------------------------

  /** The end of the run of covered positions that starts at `p`. */
  function RunEnd(spans: seq<Span>, p: nat, n: nat): (e: nat)
    requires p <= n
    ensures p <= e <= n
    ensures forall q :: p <= q < e ==> Covered(spans, q)
    ensures e < n ==> !Covered(spans, e)
    decreases n - p
  {
    if p < n && Covered(spans, p) then RunEnd(spans, p + 1, n) else p
  }

  /** What redaction means: an uncovered character stands, and each maximal run of covered
    * positions becomes one token. Only which positions are covered matters.
    */
  function Masked(text: string, spans: seq<Span>, token: Token, p: nat): string
    requires p <= |text|
    decreases |text| - p
  {
    if p == |text| then ""
    else if !Covered(spans, p) then [text[p]] + Masked(text, spans, token, p + 1)
    else
      var e := RunEnd(spans, p, |text|);
      token(text[p..e]) + Masked(text, spans, token, e)
  }

  /** Order, repetition, nesting and overlap of the spans do not matter. */
  lemma {:induction false} MaskedByCoverage(text: string, a: seq<Span>, b: seq<Span>, token: Token, p: nat)
    requires p <= |text| && forall q: nat :: Covered(a, q) <==> Covered(b, q)
    ensures Masked(text, a, token, p) == Masked(text, b, token, p)
    decreases |text| - p
  {
    hide Covered, RunEnd;
    if p < |text| {
      if Covered(a, p) {
        MaskedByCoverage(text, a, b, token, RunEnd(a, p, |text|));
      } else {
        MaskedByCoverage(text, a, b, token, p + 1);
      }
    }
  }

  /** A maximal run of covered positions starts at `q`. */
  predicate RunStarts(spans: seq<Span>, q: nat) {
    Covered(spans, q) && (q == 0 || !Covered(spans, q - 1))
  }

  /** Outside the covered positions the texts agree, and each maximal run has the same token in both. */
  ghost predicate AlikeOutside(t1: string, t2: string, spans: seq<Span>, token: Token) {
    && |t1| == |t2|
    && (forall q :: 0 <= q < |t1| && !Covered(spans, q) ==> t1[q] == t2[q])
    && (forall q: nat :: q < |t1| && RunStarts(spans, q) ==>
          token(t1[q..RunEnd(spans, q, |t1|)]) == token(t2[q..RunEnd(spans, q, |t1|)]))
  }

  lemma {:induction false} MaskedAlike(t1: string, t2: string, spans: seq<Span>, token: Token, p: nat)
    requires AlikeOutside(t1, t2, spans, token) && p <= |t1|
    requires p == 0 || p == |t1| || !Covered(spans, p) || !Covered(spans, p - 1)
    ensures Masked(t1, spans, token, p) == Masked(t2, spans, token, p)
    decreases |t1| - p
  {
    hide Covered, RunEnd;
    if p < |t1| {
      if Covered(spans, p) {
        assert RunStarts(spans, p);
        MaskedAlike(t1, t2, spans, token, RunEnd(spans, p, |t1|));
      } else {
        MaskedAlike(t1, t2, spans, token, p + 1);
      }
    }
  }

  /** Two configs that differ only inside secrets are redacted alike, up to the tokens: what is
    * covered reaches the output through the token of its run and no other way.
    */
  lemma OnlyTokensLeak(t1: string, t2: string, spans: seq<Span>, token: Token)
    requires AlikeOutside(t1, t2, spans, token)
    ensures Masked(t1, spans, token, 0) == Masked(t2, spans, token, 0)
  {
    MaskedAlike(t1, t2, spans, token, 0);
  }

  ghost predicate Reached(spans: seq<Span>, k: nat, p: nat) {
    && k <= |spans|
    && (k > 0 ==> spans[k - 1].end <= p)
    && (k < |spans| ==> p <= spans[k].start)
  }

  lemma UncoveredUntil(spans: seq<Span>, n: nat, k: nat, p: nat, q: nat)
    requires Separated(spans) && InRange(spans, n) && Reached(spans, k, p) && p <= q
    requires k < |spans| ==> q < spans[k].start
    ensures !Covered(spans, q)
  {
  }

  lemma {:induction false} RunOfSpan(spans: seq<Span>, n: nat, k: nat, p: nat)
    requires Separated(spans) && InRange(spans, n) && k < |spans| && spans[k].start <= p <= spans[k].end
    ensures RunEnd(spans, p, n) == spans[k].end
    decreases spans[k].end - p
  {
    if p < spans[k].end {
      assert Covered(spans, p);
      RunOfSpan(spans, n, k, p + 1);
    } else if p < n {
      assert k + 1 < |spans| ==> spans[k].end < spans[k + 1].start;
      UncoveredUntil(spans, n, k + 1, p, p);
    }
  }

  /** For separated intervals replacing spans is masking runs. */
  lemma {:induction false} RenderedIsMasked(text: string, spans: seq<Span>, token: Token, k: nat, p: nat)
    requires Separated(spans) && InRange(spans, |text|) && Reached(spans, k, p) && p <= |text|
    ensures Rendered(text, spans, token, k, p) == Masked(text, spans, token, p)
    decreases |text| - p
  {
    hide Covered, RunEnd, Rendered, Masked;
    if p == |text| {
      BothEnd(text, spans, token, k);
    } else if k < |spans| && p == spans[k].start {
      SpanHere(text, spans, token, k);
      RenderedIsMasked(text, spans, token, k + 1, spans[k].end);
    } else {
      UncoveredUntil(spans, |text|, k, p, p);
      RenderedIsMasked(text, spans, token, k, p + 1);
      OneCharOn(text, spans, token, k, p);
      CharStands(text, spans, token, p);
    }
  }

  lemma BothEnd(text: string, spans: seq<Span>, token: Token, k: nat)
    requires Separated(spans) && InRange(spans, |text|) && Reached(spans, k, |text|)
    ensures Rendered(text, spans, token, k, |text|) == "" == Masked(text, spans, token, |text|)
  {
  }

  lemma CharStands(text: string, spans: seq<Span>, token: Token, p: nat)
    requires p < |text| && !Covered(spans, p)
    ensures Masked(text, spans, token, p) == [text[p]] + Masked(text, spans, token, p + 1)
  {
  }

  lemma {:induction false} SpanHere(text: string, spans: seq<Span>, token: Token, k: nat)
    requires Separated(spans) && InRange(spans, |text|) && k < |spans|
    ensures var s := spans[k];
            Rendered(text, spans, token, k, s.start)
            == token(text[s.start..s.end]) + Rendered(text, spans, token, k + 1, s.end)
    ensures var s := spans[k];
            Masked(text, spans, token, s.start) == token(text[s.start..s.end]) + Masked(text, spans, token, s.end)
  {
    hide Covered, RunEnd, Rendered;
    RunOfSpan(spans, |text|, k, spans[k].start);
    TokenHere(text, spans, token, k);
  }

  lemma TokenHere(text: string, spans: seq<Span>, token: Token, k: nat)
    requires Separated(spans) && InRange(spans, |text|) && k < |spans|
    ensures var s := spans[k];
            Rendered(text, spans, token, k, s.start)
            == token(text[s.start..s.end]) + Rendered(text, spans, token, k + 1, s.end)
  {
    var s := spans[k];
    var rest := Rendered(text, spans, token, k + 1, s.end);
    assert Rendered(text, spans, token, k, s.start) == text[s.start..s.start] + token(text[s.start..s.end]) + rest;
    assert text[s.start..s.start] == "";
    hide Rendered;
    EmptyBefore(text[s.start..s.start], token(text[s.start..s.end]), rest);
  }

  lemma EmptyBefore(e: string, t: string, r: string)
    requires e == ""
    ensures e + t + r == t + r
  {
    assert e + t == t;
  }

  lemma CharBefore(c: string, x: string, t: string, r: string)
    ensures c + x + t + r == c + (x + t + r)
  {
  }

  lemma OneCharOn(text: string, spans: seq<Span>, token: Token, k: nat, p: nat)
    requires Separated(spans) && InRange(spans, |text|) && k <= |spans| && p < |text|
    requires k < |spans| ==> p < spans[k].start
    ensures Rendered(text, spans, token, k, p) == [text[p]] + Rendered(text, spans, token, k, p + 1)
  {
    if k == |spans| {
      assert text[p..] == [text[p]] + text[p + 1..];
    } else {
      var s := spans[k];
      CharBefore([text[p]], text[p + 1..s.start], token(text[s.start..s.end]), Rendered(text, spans, token, k + 1, s.end));
      assert text[p..s.start] == [text[p]] + text[p + 1..s.start];
    }
  }

  /** One secret: the text before it, its token, the text behind it. */
  lemma OneSecret(text: string, s: Span, token: Token)
    requires s.start < s.end <= |text|
    ensures Masked(text, [s], token, 0) == text[..s.start] + token(text[s.start..s.end]) + text[s.end..]
  {
    RenderedIsMasked(text, [s], token, 0, 0);
    hide Masked;
    assert Rendered(text, [s], token, 1, s.end) == text[s.end..];
  }

  /** The redaction pass over collected spans. */
  method RedactSpans(text: string, spans: seq<Span>, token: Token) returns (r: string)
    requires InRange(spans, |text|)
    ensures r == Masked(text, spans, token, 0)
  {
    var sorted := SortSpans(spans);
    forall i | 0 <= i < |sorted|
      ensures sorted[i].start < sorted[i].end <= |text|
    {
      assert sorted[i] in spans;
    }
    var merged := MergeSpans(sorted, |text|);
    SameCoverage(sorted, spans);
    r := ReplaceRightToLeft(text, merged, token);
    RenderedIsMasked(text, merged, token, 0, 0);
    MaskedByCoverage(text, merged, spans, token, 0);
  }

  lemma SameCoverage(a: seq<Span>, b: seq<Span>)
    requires SameMembers(a, b)
    ensures forall p: nat :: Covered(a, p) <==> Covered(b, p)
  {
    forall p: nat
      ensures Covered(a, p) <==> Covered(b, p)
    {
      if Covered(a, p) {
        var i :| 0 <= i < |a| && a[i].start <= p < a[i].end;
        assert a[i] in b;
      }
      if Covered(b, p) {
        var i :| 0 <= i < |b| && b[i].start <= p < b[i].end;
        assert b[i] in a;
      }
    }
  }

  // --- the backstop -------------------------------------------------------------------------

  /** The next match of a pattern in a text at or after a position. */
  type Search = (string, nat) -> Option<Span>

  ghost predicate Searches(f: Search, mayBeEmpty: bool) {
    forall s: string, at: nat ::
      f(s, at).Some? ==>
        var m := f(s, at).value;
        at <= m.start && (if mayBeEmpty then m.start <= m.end else m.start < m.end) && m.end <= |s|
  }

  const SUSPECT: string := "<REDACTED:suspect>"

  /** The successive matches of a search, from a position on. */
  function Candidates(scan: string, at: nat, tail: Search): seq<Span>
    requires Searches(tail, false)
    decreases |scan| - at
  {
    var m := tail(scan, at);
    if m.None? then [] else [m.value] + Candidates(scan, m.value.end, tail)
  }

  /** `found` is the first of `candidates` that is not stepped over. */
  ghost predicate FirstKept(found: Option<Span>, candidates: seq<Span>, stepOver: Span -> bool) {
    match found
    case None => forall i :: 0 <= i < |candidates| ==> stepOver(candidates[i])
    case Some(s) =>
      exists k :: 0 <= k < |candidates| && candidates[k] == s && !stepOver(s)
                  && forall i :: 0 <= i < k ==> stepOver(candidates[i])
  }

  lemma SteppedOver(found: Option<Span>, x: Span, rest: seq<Span>, stepOver: Span -> bool)
    requires stepOver(x) && FirstKept(found, rest, stepOver)
    ensures FirstKept(found, [x] + rest, stepOver)
  {
    var all := [x] + rest;
    if found.Some? {
      var k :| 0 <= k < |rest| && rest[k] == found.value && !stepOver(found.value)
               && forall i :: 0 <= i < k ==> stepOver(rest[i]);
      assert all[k + 1] == found.value;
    }
  }

  /** The first credential-shaped tail that is not stepped over, however many are: stepping over
    * one never gives up on what stands further right.
    */
  method NextCredentialTail(scan: string, start: nat, tail: Search, stepOver: Span -> bool) returns (found: Option<Span>)
    requires Searches(tail, false)
    ensures FirstKept(found, Candidates(scan, start, tail), stepOver)
    ensures found.Some? ==> start <= found.value.start < found.value.end <= |scan|
  {
    hide FirstKept;
    var at := start;
    ghost var passed: seq<Span> := [];
    while true
      invariant start <= at
      invariant passed + Candidates(scan, at, tail) == Candidates(scan, start, tail)
      invariant forall i :: 0 <= i < |passed| ==> stepOver(passed[i])
      decreases |scan| - at
    {
      var m := tail(scan, at);
      if m.None? {
        KeptAfter(None, passed, [], stepOver);
        return None;
      }
      var rest := Candidates(scan, m.value.end, tail);
      assert passed + ([m.value] + rest) == (passed + [m.value]) + rest;
      if stepOver(m.value) {
        passed := passed + [m.value];
        at := m.value.end;
      } else {
        KeptAfter(m, passed, [m.value] + rest, stepOver);
        return m;
      }
    }
  }

  lemma {:induction false} KeptAfter(found: Option<Span>, passed: seq<Span>, rest: seq<Span>, stepOver: Span -> bool)
    requires forall i :: 0 <= i < |passed| ==> stepOver(passed[i])
    requires if found.None? then rest == [] else rest != [] && rest[0] == found.value && !stepOver(rest[0])
    ensures FirstKept(found, passed + rest, stepOver)
    decreases |passed|
  {
    if passed == [] {
      assert passed + rest == rest;
    } else {
      KeptAfter(found, passed[1..], rest, stepOver);
      SteppedOver(found, passed[0], passed[1..] + rest, stepOver);
      assert passed + rest == [passed[0]] + (passed[1..] + rest);
    }
  }

  /** Where the search for the next suspect starts when `k` have been found. */
  function ResumeAt(spans: seq<Span>, k: nat): nat
    requires k <= |spans|
  {
    if k == 0 then 0 else spans[k - 1].end
  }

  /** `found` is the suspect of the next keyword from `pos`, if there is one. */
  ghost predicate SuspectFrom(found: Option<Span>, scan: string, pos: nat, keyword: Search, tail: Search, stepOver: Span -> bool)
    requires Searches(keyword, true) && Searches(tail, false)
  {
    match keyword(scan, pos)
    case None => found.None?
    case Some(k) => FirstKept(found, Candidates(scan, k.end, tail), stepOver)
  }

  ghost predicate AllSuspects(spans: seq<Span>, scan: string, keyword: Search, tail: Search, stepOver: Span -> bool)
    requires Searches(keyword, true) && Searches(tail, false)
  {
    forall k :: 0 <= k < |spans| ==>
      SuspectFrom(Some(spans[k]), scan, ResumeAt(spans, k), keyword, tail, stepOver)
  }

  lemma OneMoreSuspect(spans: seq<Span>, x: Span, scan: string, keyword: Search, tail: Search, stepOver: Span -> bool)
    requires Searches(keyword, true) && Searches(tail, false)
    ensures AllSuspects(spans, scan, keyword, tail, stepOver)
            && SuspectFrom(Some(x), scan, ResumeAt(spans, |spans|), keyword, tail, stepOver)
            ==> AllSuspects(spans + [x], scan, keyword, tail, stepOver)
  {
    hide SuspectFrom, Searches;
    var all := spans + [x];
    assert forall k :: 0 <= k <= |spans| ==> ResumeAt(all, k) == ResumeAt(spans, k);
  }

  /** Each span is the suspect of the next keyword after the one before, and the next keyword after the
    * last span has none.
    */
  ghost predicate Swept(spans: seq<Span>, scan: string, keyword: Search, tail: Search, stepOver: Span -> bool)
    requires Searches(keyword, true) && Searches(tail, false)
  {
    && AllSuspects(spans, scan, keyword, tail, stepOver)
    && SuspectFrom(None, scan, ResumeAt(spans, |spans|), keyword, tail, stepOver)
  }

  /** The backstop goes on from suspect to suspect and ends only at a keyword without one, or without a
    * keyword. Its spans are in order, disjoint and inside the scan.
    */
  method BackstopSpans(scan: string, keyword: Search, tail: Search, stepOver: Span -> bool) returns (spans: seq<Span>)
    requires Searches(keyword, true) && Searches(tail, false)
    ensures Ordered(spans, |scan|) && Swept(spans, scan, keyword, tail, stepOver)
  {
    hide FirstKept, Candidates;
    spans := [];
    var pos := 0;
    assert AllSuspects(spans, scan, keyword, tail, stepOver);
    hide AllSuspects;
    while true
      invariant pos == ResumeAt(spans, |spans|)
      invariant Ordered(spans, |scan|)
      invariant forall i :: 0 <= i < |spans| ==> spans[i].end <= pos
      invariant AllSuspects(spans, scan, keyword, tail, stepOver)
      decreases |scan| - pos
    {
      var km := keyword(scan, pos);
      if km.None? {
        return;
      }
      var tm := NextCredentialTail(scan, km.value.end, tail, stepOver);
      assert SuspectFrom(tm, scan, pos, keyword, tail, stepOver);
      if tm.None? {
        return;
      }
      OneMoreSuspect(spans, tm.value, scan, keyword, tail, stepOver);
      spans := spans + [tm.value];
      pos := tm.value.end;
    }
  }

  /** A search that finds the leftmost match finds it from anywhere up to its start. */
  ghost predicate Leftmost(f: Search) {
    forall s: string, at: nat, later: nat :: at <= later ==>
      match f(s, at)
      case None => f(s, later).None?
      case Some(m) => later <= m.start ==> f(s, later) == f(s, at)
  }

  /** The position is strictly inside one of the candidates. */
  ghost predicate Inside(e: nat, candidates: seq<Span>) {
    exists i :: 0 <= i < |candidates| && candidates[i].start < e < candidates[i].end
  }

  lemma {:induction false} CandidatesFrom(scan: string, at: nat, e: nat, tail: Search)
    requires Searches(tail, false) && Leftmost(tail) && at <= e
    requires !Inside(e, Candidates(scan, at, tail))
    ensures exists j: nat ::
              j <= |Candidates(scan, at, tail)| && Candidates(scan, e, tail) == Candidates(scan, at, tail)[j..]
    decreases |scan| - at
  {
    var all := Candidates(scan, at, tail);
    assert all[0..] == all;
    var m := tail(scan, at);
    if m.Some? && m.value.start < e {
      assert all[0] == m.value;
      var rest := Candidates(scan, m.value.end, tail);
      forall i | 0 <= i < |rest|
        ensures !(rest[i].start < e < rest[i].end)
      {
        assert all[i + 1] == rest[i];
      }
      CandidatesFrom(scan, m.value.end, e, tail);
      var j: nat :| j <= |rest| && Candidates(scan, e, tail) == rest[j..];
      assert rest[j..] == all[j + 1..];
    }
  }

  /** A letter, or one of the two signs that fold to one when case is ignored. */
  predicate Letter(ch: char) {
    'a' <= ch <= 'z' || 'A' <= ch <= 'Z' || ch == '\U{017F}' || ch == '\U{212A}'
  }

  /** What a keyword pattern of whole words does: its matches end behind a letter and before none, and a
    * later match does not end earlier.
    */
  ghost predicate WholeWords(f: Search) {
    && (forall s: string, at: nat :: f(s, at).Some? && f(s, at).value.end <= |s| ==> EndsWord(s, f(s, at).value.end))
    && (forall s: string, at: nat, later: nat :: at <= later && f(s, at).Some? && f(s, later).Some? ==>
          f(s, at).value.end <= f(s, later).value.end)
  }

  predicate EndsWord(s: string, e: nat)
    requires e <= |s|
  {
    e > 0 && Letter(s[e - 1]) && (e < |s| ==> !Letter(s[e]))
  }

  /** What is stepped over is a word of letters, or a dotted quad, which has none. */
  ghost predicate WordOrQuad(c: Span, s: string) {
    c.end <= |s| && ((forall i :: c.start <= i < c.end ==> Letter(s[i])) || (forall i :: c.start <= i < c.end ==> !Letter(s[i])))
  }

  ghost predicate StepsOverWords(scan: string, stepOver: Span -> bool) {
    forall c: Span :: c.start < c.end <= |scan| && stepOver(c) ==> WordOrQuad(c, scan)
  }

  /** A keyword never ends inside what is stepped over. */
  lemma {:induction false} KeywordsEndOutside(scan: string, at: nat, tail: Search, stepOver: Span -> bool, e: nat)
    requires Searches(tail, false) && StepsOverWords(scan, stepOver) && e <= |scan| && EndsWord(scan, e)
    requires FirstKept(None, Candidates(scan, at, tail), stepOver)
    ensures !Inside(e, Candidates(scan, at, tail))
    decreases |scan| - at
  {
    var all := Candidates(scan, at, tail);
    var m := tail(scan, at);
    if m.Some? {
      assert all[0] == m.value;
      var rest := Candidates(scan, m.value.end, tail);
      assert forall i :: 0 <= i < |rest| ==> all[i + 1] == rest[i];
      KeywordsEndOutside(scan, m.value.end, tail, stepOver, e);
      assert WordOrQuad(m.value, scan);
    }
  }

  /** The backstop fails closed: when the sweep has ended, no keyword from the last span on, however
    * many there are, is followed by a suspect.
    */
  lemma NoSuspectLater(spans: seq<Span>, scan: string, keyword: Search, tail: Search, stepOver: Span -> bool, at: nat)
    requires Searches(keyword, true) && Searches(tail, false)
    requires Leftmost(keyword) && Leftmost(tail) && WholeWords(keyword) && StepsOverWords(scan, stepOver)
    requires ResumeAt(spans, |spans|) <= at
    ensures Swept(spans, scan, keyword, tail, stepOver) ==> SuspectFrom(None, scan, at, keyword, tail, stepOver)
  {
    hide Candidates, AllSuspects, EndsWord, StepsOverWords;
    var first, next := keyword(scan, ResumeAt(spans, |spans|)), keyword(scan, at);
    if Swept(spans, scan, keyword, tail, stepOver) && next.Some? {
      assert first.Some?;
      KeywordsEndOutside(scan, first.value.end, tail, stepOver, next.value.end);
      CandidatesFrom(scan, first.value.end, next.value.end, tail);
    }
  }

  /** Tokens already on the line are blanked to spaces of the same length. */
  function Blanked(line: string, tokens: seq<Span>): (scan: string)
    ensures |scan| == |line|
    ensures forall i :: 0 <= i < |line| ==> scan[i] == if Covered(tokens, i) then ' ' else line[i]
  {
    seq(|line|, i requires 0 <= i < |line| => if Covered(tokens, i) then ' ' else line[i])
  }

  /** `masked` is `line` with the suspects swept from its un-redacted remainder masked, `count` of them. */
  ghost predicate LineSwept(masked: string, count: nat, line: string, scan: string,
                            keyword: Search, tail: Search, stepOver: Span -> bool)
    requires Searches(keyword, true) && Searches(tail, false) && |scan| == |line|
  {
    exists spans ::
      && Ordered(spans, |line|) && |spans| == count
      && Swept(spans, scan, keyword, tail, stepOver)
      && masked == Rendered(line, spans, _ => SUSPECT, 0, 0)
  }

  /** The sweep of one line: it masks the suspects, counts them and changes nothing else. */
  method BackstopLine(line: string, tokens: seq<Span>, keyword: Search, tail: Search, stepOver: Span -> bool)
    returns (masked: string, count: nat)
    requires Searches(keyword, true) && Searches(tail, false)
    ensures LineSwept(masked, count, line, Blanked(line, tokens), keyword, tail, stepOver)
  {
    hide Swept, Rendered;
    var spans := BackstopSpans(Blanked(line, tokens), keyword, tail, stepOver);
    masked := ReplaceRightToLeft(line, spans, _ => SUSPECT);
    count := |spans|;
  }
}
