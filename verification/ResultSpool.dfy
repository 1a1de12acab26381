/** The result spool (collector/src/collector/checkin.py, `_spool_results` and
  * `_drain_result_spool`): results that could not be posted wait in batch files and are
  * redelivered oldest first. The files refine one flat first-in first-out queue.
  */
module ResultSpool {
  import opened Common

  const SPOOL_MAX: nat := 3000
  const DRAIN_FILES: nat := 50
  const DRAIN_PAYLOADS: nat := 200

  type Endpoint = string
  type Payload = string

  datatype Item = Item(endpoint: Endpoint, payload: Payload)

  /** A spool file: one endpoint and its payloads, or something that does not parse. */
  datatype Doc = Corrupt | Batch(endpoint: Endpoint, payloads: seq<Payload>)

  /** File names carry a nanosecond stamp and a counter, both zero-padded. */
  datatype Name = Name(ns: nat, count: nat)

  datatype Entry = Entry(name: Name, doc: Doc)

  predicate Before(a: Name, b: Name) {
    a.ns < b.ns || (a.ns == b.ns && a.count < b.count)
  }

  /** The directory as `sorted(glob)` lists it. */
  ghost predicate Sorted(files: seq<Entry>) {
    forall i, j :: 0 <= i < j < |files| ==> Before(files[i].name, files[j].name)
  }

  function ItemsOf(d: Doc): seq<Item> {
    if d.Corrupt? then [] else seq(|d.payloads|, i requires 0 <= i < |d.payloads| => Item(d.endpoint, d.payloads[i]))
  }

  /** The queue the files stand for. */
  function Flat(files: seq<Entry>): seq<Item> {
    if files == [] then [] else ItemsOf(files[0].doc) + Flat(files[1..])
  }

  lemma {:induction false} FlatConcat(xs: seq<Entry>, ys: seq<Entry>)
    ensures Flat(xs + ys) == Flat(xs) + Flat(ys)
  {
    if xs == [] {
      assert xs + ys == ys;
    } else {
      assert (xs + ys)[1..] == xs[1..] + ys;
      FlatConcat(xs[1..], ys);
    }
  }

  // --- names sort in the order they were stamped ----------------------------------------

  function Digit(d: nat): char
    requires d < 10
  {
    "0123456789"[d]
  }

  function Pad(n: nat, width: nat): string {
    if width == 0 then "" else Pad(n / 10, width - 1) + [Digit(n % 10)]
  }

  function Pow10(w: nat): nat {
    if w == 0 then 1 else 10 * Pow10(w - 1)
  }

  /** Python's order on strings. */
  predicate LexLess(s: string, t: string) {
    t != [] && (s == [] || s[0] < t[0] || (s[0] == t[0] && LexLess(s[1..], t[1..])))
  }

  function FileName(n: Name): string {
    Pad(n.ns, 20) + "-" + Pad(n.count, 9) + ".json"
  }

  lemma {:induction false} LexConcat(s: string, t: string, x: string, y: string)
    requires |s| == |t|
    ensures LexLess(s + x, t + y) <==> LexLess(s, t) || (s == t && LexLess(x, y))
  {
    if s == [] {
      assert s + x == x && t + y == y;
    } else {
      assert (s + x)[1..] == s[1..] + x && (t + y)[1..] == t[1..] + y;
      LexConcat(s[1..], t[1..], x, y);
      assert s == [s[0]] + s[1..] && t == [t[0]] + t[1..];
    }
  }

  lemma {:induction false} PadLength(n: nat, w: nat)
    ensures |Pad(n, w)| == w
  {
    if w > 0 {
      PadLength(n / 10, w - 1);
    }
  }

  lemma {:induction false} LastDigits(x: string, y: string, a: nat, b: nat)
    requires |x| == |y| && a < 10 && b < 10
    ensures LexLess(x + [Digit(a)], y + [Digit(b)]) <==> LexLess(x, y) || (x == y && a < b)
    ensures x + [Digit(a)] == y + [Digit(b)] <==> x == y && a == b
  {
    LexConcat(x, y, [Digit(a)], [Digit(b)]);
    assert LexLess([Digit(a)], [Digit(b)]) <==> Digit(a) < Digit(b);
    assert (x + [Digit(a)])[..|x|] == x && (y + [Digit(b)])[..|y|] == y;
    assert (x + [Digit(a)])[|x|] == Digit(a) && (y + [Digit(b)])[|y|] == Digit(b);
  }

  lemma {:induction false} PadOrder(a: nat, b: nat, w: nat)
    requires a < Pow10(w) && b < Pow10(w)
    ensures LexLess(Pad(a, w), Pad(b, w)) <==> a < b
    ensures Pad(a, w) == Pad(b, w) <==> a == b
  {
    hide Digit, LexLess;
    if w == 0 {
      LexIrreflexive("");
    } else {
      PadOrder(a / 10, b / 10, w - 1);
      PadLength(a / 10, w - 1);
      PadLength(b / 10, w - 1);
      LastDigits(Pad(a / 10, w - 1), Pad(b / 10, w - 1), a % 10, b % 10);
    }
  }

  lemma {:induction false} LexIrreflexive(s: string)
    ensures !LexLess(s, s)
  {
    if s != [] {
      LexIrreflexive(s[1..]);
    }
  }

  /** Sorting file names is sorting stamps, as long as they fit their widths. */
  lemma FileNameOrder(a: Name, b: Name)
    requires a.ns < Pow10(20) && b.ns < Pow10(20) && a.count < Pow10(9) && b.count < Pow10(9)
    ensures LexLess(FileName(a), FileName(b)) <==> Before(a, b)
  {
    hide Pow10, Pad;
    PadOrder(a.ns, b.ns, 20);
    PadLength(a.ns, 20);
    PadLength(b.ns, 20);
    PadLength(a.count, 9);
    PadLength(b.count, 9);
    PadOrder(a.count, b.count, 9);
    var x, y := Pad(a.count, 9) + ".json", Pad(b.count, 9) + ".json";
    assert FileName(a) == Pad(a.ns, 20) + ("-" + x) && FileName(b) == Pad(b.ns, 20) + ("-" + y);
    LexConcat(Pad(a.ns, 20), Pad(b.ns, 20), "-" + x, "-" + y);
    LexConcat("-", "-", x, y);
    LexConcat(Pad(a.count, 9), Pad(b.count, 9), ".json", ".json");
    LexIrreflexive("-");
    LexIrreflexive(".json");
  }

  // --- spooling -------------------------------------------------------------------------

  /** Where a new file lands in the listing; a file of the same name is replaced. */
  function Insert(files: seq<Entry>, e: Entry): seq<Entry> {
    if files == [] then [e]
    else
      var last := files[|files| - 1];
      if Before(last.name, e.name) then files + [e]
      else if last.name == e.name then files[..|files| - 1] + [e]
      else Insert(files[..|files| - 1], e) + [last]
  }

  /** A new file goes to the end exactly when its stamp is later than the newest one there. */
  lemma AppendsIffLater(files: seq<Entry>, e: Entry)
    requires Sorted(files)
    ensures Insert(files, e) == files + [e] <==> (files == [] || Before(files[|files| - 1].name, e.name))
  {
    if files != [] {
      var n := |files|;
      var last := files[n - 1];
      if last.name == e.name {
        assert |Insert(files, e)| == n;
      } else if !Before(last.name, e.name) {
        assert Insert(files, e)[|Insert(files, e)| - 1] == last;
        assert (files + [e])[n] == e;
      }
    }
  }

  function Evictions(count: nat): nat {
    if count + 1 > SPOOL_MAX then count + 1 - SPOOL_MAX else 0
  }

  function Spooled(files: seq<Entry>, e: Entry, written: bool): seq<Entry> {
    var kept := files[Min(|files|, Evictions(|files|))..];
    if written then Insert(kept, e) else kept
  }

  // --- draining -------------------------------------------------------------------------

  /** Whether each POST of the drain is confirmed, in order. */
  type Answers = nat -> bool

  predicate Goes(answer: Answers, j: nat) {
    j < DRAIN_PAYLOADS && answer(j)
  }

  /** How many of `n` payloads go out when `done` went out before. */
  function Sent(n: nat, answer: Answers, done: nat): (r: nat)
    ensures r <= n && (done <= DRAIN_PAYLOADS ==> done + r <= DRAIN_PAYLOADS)
    decreases n
  {
    if n == 0 || !Goes(answer, done) then 0 else 1 + Sent(n - 1, answer, done + 1)
  }

  /** Everything up to the first payload that is not confirmed or is over budget. */
  lemma {:induction false} SentIsMaximal(n: nat, answer: Answers, done: nat)
    ensures forall j: nat :: done <= j < done + Sent(n, answer, done) ==> Goes(answer, j)
    ensures Sent(n, answer, done) < n ==> !Goes(answer, done + Sent(n, answer, done))
    decreases n
  {
    if n > 0 && Goes(answer, done) {
      SentIsMaximal(n - 1, answer, done + 1);
    }
  }

  datatype Drained = Drained(delivered: seq<Item>, files: seq<Entry>)

  /** How a drain ends: it writes back what is left of a batch, or that write fails, or the process
    * is killed right after so many confirmed POSTs, before the file is touched. (Killed before the
    * write is as if the write failed; killed before a POST, as if the POST was not confirmed.)
    */
  datatype End = Rewrites | RewriteFails | Killed(after: nat)

  /** Whether the kill falls on one of `sent` POSTs that follow `done` others. */
  predicate KilledIn(end: End, done: nat, sent: nat) {
    end.Killed? && done < end.after <= done + sent
  }

  /** The drain stopped inside a batch: the confirmed part leaves it, if the rewrite succeeds. */
  function StoppedIn(files: seq<Entry>, sent: nat, end: End): Drained
    requires files != [] && files[0].doc.Batch? && sent < |files[0].doc.payloads|
  {
    var d := files[0].doc;
    Drained(ItemsOf(d)[..sent],
            if sent > 0 && end != RewriteFails then [Entry(files[0].name, Batch(d.endpoint, d.payloads[sent..]))] + files[1..]
            else files)
  }

  /** The drain, file by file: `room` more files, `done` payloads already confirmed. */
  function DrainFrom(files: seq<Entry>, answer: Answers, done: nat, room: nat, end: End): Drained
    decreases room
  {
    if files == [] || room == 0 then Drained([], files)
    else if files[0].doc.Corrupt? then DrainFrom(files[1..], answer, done, room - 1, end)
    else
      var d := files[0].doc;
      var sent := Sent(|d.payloads|, answer, done);
      if KilledIn(end, done, sent) then Drained(ItemsOf(d)[..end.after - done], files)
      else if sent == |d.payloads| then
        var rest := DrainFrom(files[1..], answer, done + sent, room - 1, end);
        Drained(ItemsOf(d) + rest.delivered, rest.files)
      else StoppedIn(files, sent, end)
  }

  class Spool {
    var files: seq<Entry>
    var counter: nat

    constructor ()
      ensures files == [] && counter == 0
    {
      files, counter := [], 0;
    }

    /** Store payloads that could not be posted, dropping the oldest files to make room.
      * `written` is whether the write succeeds; spooling is best-effort.
      */
    method SpoolResults(endpoint: Endpoint, payloads: seq<Payload>, ns: nat, written: bool)
      modifies this
      ensures payloads == [] ==> files == old(files) && counter == old(counter)
      ensures payloads != [] ==>
                && counter == old(counter) + 1
                && files == Spooled(old(files), Entry(Name(ns, counter), Batch(endpoint, payloads)), written)
    {
      if payloads == [] {
        return;
      }
      var stale := if |files| + 1 > SPOOL_MAX then |files| + 1 - SPOOL_MAX else 0;
      files := files[Min(|files|, stale)..];
      counter := counter + 1;
      if written {
        files := Insert(files, Entry(Name(ns, counter), Batch(endpoint, payloads)));
      }
    }

    /** Post one batch, oldest payload first, while answers are confirmed and budget remains. */
    method PostBatch(endpoint: Endpoint, payloads: seq<Payload>, answer: Answers, end: End, delivered0: seq<Item>)
      returns (delivered: seq<Item>, sent: nat, killed: bool)
      requires |delivered0| <= DRAIN_PAYLOADS
      ensures killed <==> KilledIn(end, |delivered0|, Sent(|payloads|, answer, |delivered0|))
      ensures sent == if killed then end.after - |delivered0| else Sent(|payloads|, answer, |delivered0|)
      ensures delivered == delivered0 + ItemsOf(Batch(endpoint, payloads))[..sent]
      ensures |delivered| <= DRAIN_PAYLOADS
    {
      delivered, sent, killed := delivered0, 0, false;
      while sent < |payloads|
        invariant 0 <= sent <= |payloads|
        invariant delivered == delivered0 + ItemsOf(Batch(endpoint, payloads))[..sent]
        invariant |delivered| <= DRAIN_PAYLOADS
        invariant Sent(|payloads|, answer, |delivered0|) == sent + Sent(|payloads| - sent, answer, |delivered0| + sent)
        invariant !KilledIn(end, |delivered0|, sent)
      {
        if |delivered| >= DRAIN_PAYLOADS || !answer(|delivered|) {
          assert !Goes(answer, |delivered|);
          return;
        }
        delivered := delivered + [Item(endpoint, payloads[sent])];
        sent := sent + 1;
        if end == Killed(|delivered|) {
          killed := true;
          return;
        }
      }
    }

    /** Redeliver oldest first until something is not confirmed or a bound is met. */
    method DrainResultSpool(answer: Answers, end: End) returns (delivered: seq<Item>)
      modifies this`files
      ensures Drained(delivered, files) == DrainFrom(old(files), answer, 0, DRAIN_FILES, end)
    {
      hide Sent, ItemsOf, DrainFrom, KilledIn;
      delivered := [];
      var n := if |files| < DRAIN_FILES then |files| else DRAIN_FILES;
      var i := 0;
      ghost var whole := DrainFrom(files, answer, 0, DRAIN_FILES, end);
      while i < n
        invariant 0 <= i <= n && |files| >= n - i
        invariant n == DRAIN_FILES || |files| == n - i
        invariant |delivered| <= DRAIN_PAYLOADS
        invariant whole == Then(delivered, DrainFrom(files, answer, |delivered|, DRAIN_FILES - i, end))
      {
        DrainUnfolds(delivered, files, answer, DRAIN_FILES - i, end);
        var spooled := files[0];
        if !spooled.doc.Corrupt? {
          var sent, killed;
          delivered, sent, killed := PostBatch(spooled.doc.endpoint, spooled.doc.payloads, answer, end, delivered);
          if killed {
            return;
          }
          if sent < |spooled.doc.payloads| {
            if sent > 0 && end != RewriteFails {
              files := [Entry(spooled.name, Batch(spooled.doc.endpoint, spooled.doc.payloads[sent..]))] + files[1..];
            }
            return;
          }
          WholeBatch(spooled.doc, [], []);
        }
        files := files[1..];
        i := i + 1;
      }
      DrainEnds(delivered, files, answer, DRAIN_FILES - i, end);
    }
  }

  /** What was delivered before, followed by what the rest of the drain does. */
  function Then(before: seq<Item>, rest: Drained): Drained {
    Drained(before + rest.delivered, rest.files)
  }

  lemma DrainUnfolds(before: seq<Item>, files: seq<Entry>, answer: Answers, room: nat, end: End)
    requires files != [] && room > 0
    ensures var d := files[0].doc;
            var whole := Then(before, DrainFrom(files, answer, |before|, room, end));
            if d.Corrupt? then whole == Then(before, DrainFrom(files[1..], answer, |before|, room - 1, end))
            else
              var sent := Sent(|d.payloads|, answer, |before|);
              if KilledIn(end, |before|, sent) then
                sent <= |ItemsOf(d)| && whole == Drained(before + ItemsOf(d)[..end.after - |before|], files)
              else if sent == |d.payloads| then
                whole == Then(before + ItemsOf(d), DrainFrom(files[1..], answer, |before + ItemsOf(d)|, room - 1, end))
              else whole == Then(before, StoppedIn(files, sent, end))
  {
    hide Sent, StoppedIn;
    var d := files[0].doc;
    if d.Batch? {
      WholeBatch(d, before, DrainFrom(files[1..], answer, |before + ItemsOf(d)|, room - 1, end).delivered);
    }
  }

  lemma DrainEnds(before: seq<Item>, files: seq<Entry>, answer: Answers, room: nat, end: End)
    requires files == [] || room == 0
    ensures Then(before, DrainFrom(files, answer, |before|, room, end)) == Drained(before, files)
  {
  }

  lemma WholeBatch(d: Doc, before: seq<Item>, rest: seq<Item>)
    requires d.Batch?
    ensures |ItemsOf(d)| == |d.payloads| && ItemsOf(d)[..|d.payloads|] == ItemsOf(d)
    ensures before + (ItemsOf(d) + rest) == (before + ItemsOf(d)) + rest
  {
  }
}
