/** The spool refines a flat queue: one drain, then any sequence of spooling and draining. */
module SpoolQueue {
  import opened Common
  import opened ResultSpool

  lemma {:induction false} SentSplit(a: nat, b: nat, answer: Answers, done: nat)
    ensures Sent(a + b, answer, done)
            == if Sent(a, answer, done) == a then a + Sent(b, answer, done + a) else Sent(a, answer, done)
    decreases a
  {
    if a > 0 && Goes(answer, done) {
      SentSplit(a - 1, b, answer, done + 1);
    }
  }

  /** The files a drain may open. */
  function Window(files: seq<Entry>, room: nat): seq<Item> {
    Flat(files[..Min(room, |files|)])
  }

  lemma WindowHead(files: seq<Entry>, room: nat)
    requires files != [] && room > 0
    ensures Window(files, room) == ItemsOf(files[0].doc) + Window(files[1..], room - 1)
  {
    var n := Min(room, |files|);
    assert files[..n][1..] == files[1..][..Min(room - 1, |files[1..]|)];
  }

  lemma WindowIsPrefix(files: seq<Entry>, room: nat)
    ensures Window(files, room) <= Flat(files)
  {
    var n := Min(room, |files|);
    assert files[..n] + files[n..] == files;
    FlatConcat(files[..n], files[n..]);
  }

  /** The drain result `r` is what draining the flat queue would leave and deliver. */
  ghost predicate FlatResult(r: Drained, window: seq<Item>, queue: seq<Item>, n: nat) {
    n <= |window| && n <= |queue| && r.delivered == window[..n] && Flat(r.files) == queue[n..]
  }

  /** A drain that can write back is a drain of the flat queue: it delivers, in order,
    * exactly as many items of the first files as are confirmed within the budget, and leaves
    * exactly the rest, wherever in a batch it stops.
    */
  lemma {:induction false} DrainIsFlat(files: seq<Entry>, answer: Answers, done: nat, room: nat)
    ensures var window := Window(files, room);
            FlatResult(DrainFrom(files, answer, done, room, Rewrites), window, Flat(files), Sent(|window|, answer, done))
    decreases room
  {
    hide Sent, ItemsOf, StoppedIn, FlatResult;
    if files == [] || room == 0 {
      assert files[..Min(room, |files|)] == [];
      assert FlatResult(Drained([], files), [], Flat(files), 0) by { NothingDrained(files); }
    } else {
      var d := files[0].doc;
      WindowHead(files, room);
      if d.Corrupt? {
        NoItemsOf(d);
        DrainIsFlat(files[1..], answer, done, room - 1);
        assert [] + Flat(files[1..]) == Flat(files[1..]) && [] + Window(files[1..], room - 1) == Window(files[1..], room - 1);
      } else {
        var w := Window(files[1..], room - 1);
        WholeBatch(d, [], []);
        SentSplit(|d.payloads|, |w|, answer, done);
        var sent := Sent(|d.payloads|, answer, done);
        if sent == |d.payloads| {
          DrainIsFlat(files[1..], answer, done + sent, room - 1);
          BatchDrained(DrainFrom(files[1..], answer, done + sent, room - 1, Rewrites), d, w, Flat(files[1..]),
                       Sent(|w|, answer, done + sent));
        } else {
          StoppedInBatch(files, w, sent);
        }
      }
    }
  }

  lemma NothingDrained(files: seq<Entry>)
    ensures FlatResult(Drained([], files), [], Flat(files), 0)
  {
  }

  lemma BatchDrained(rest: Drained, d: Doc, w: seq<Item>, queue: seq<Item>, n: nat)
    requires FlatResult(rest, w, queue, n)
    ensures FlatResult(Drained(ItemsOf(d) + rest.delivered, rest.files), ItemsOf(d) + w, ItemsOf(d) + queue, |ItemsOf(d)| + n)
  {
    hide ItemsOf;
  }

  lemma StoppedInBatch(files: seq<Entry>, w: seq<Item>, sent: nat)
    requires files != [] && files[0].doc.Batch? && sent < |files[0].doc.payloads|
    ensures FlatResult(StoppedIn(files, sent, Rewrites), ItemsOf(files[0].doc) + w, Flat(files), sent)
  {
    hide ItemsOf;
    var d := files[0].doc;
    Remainder(files, sent);
    assert (ItemsOf(d) + w)[..sent] == ItemsOf(d)[..sent];
    assert (ItemsOf(d) + Flat(files[1..]))[sent..] == ItemsOf(d)[sent..] + Flat(files[1..]);
  }

  lemma Remainder(files: seq<Entry>, sent: nat)
    requires files != [] && files[0].doc.Batch? && sent < |files[0].doc.payloads|
    ensures var d := files[0].doc;
            && |ItemsOf(d)| == |d.payloads|
            && Flat([Entry(files[0].name, Batch(d.endpoint, d.payloads[sent..]))] + files[1..])
               == ItemsOf(d)[sent..] + Flat(files[1..])
  {
    var d := files[0].doc;
    var e := Entry(files[0].name, Batch(d.endpoint, d.payloads[sent..]));
    assert ([e] + files[1..])[1..] == files[1..];
    assert ItemsOf(e.doc) == ItemsOf(d)[sent..];
  }

  // --- what is sent again -------------------------------------------------------------------

  /** `m` whole files left, and `r` also delivered the first part of the rest, all of which stayed. */
  ghost predicate WholeFilesLeft(r: Drained, files: seq<Entry>, m: nat) {
    && m <= |files| && r.files == files[m..]
    && |Flat(files[..m])| <= |r.delivered| && r.delivered <= Flat(files)
  }

  lemma OneMoreLeft(rest: Drained, files: seq<Entry>, m: nat)
    requires files != [] && WholeFilesLeft(rest, files[1..], m)
    ensures WholeFilesLeft(Drained(ItemsOf(files[0].doc) + rest.delivered, rest.files), files, m + 1)
  {
    hide ItemsOf;
    OneMoreFile(files, m);
  }

  lemma OneMoreFile(files: seq<Entry>, m: nat)
    requires files != [] && m <= |files[1..]|
    ensures Flat(files[..m + 1]) == ItemsOf(files[0].doc) + Flat(files[1..][..m])
  {
    assert files[..m + 1][1..] == files[1..][..m];
  }

  lemma NothingLeft(files: seq<Entry>)
    ensures WholeFilesLeft(Drained([], files), files, 0)
  {
  }

  lemma PartLeft(files: seq<Entry>, sent: nat)
    requires files != [] && files[0].doc.Batch? && sent <= |files[0].doc.payloads|
    ensures WholeFilesLeft(Drained(ItemsOf(files[0].doc)[..sent], files), files, 0)
  {
  }

  /** With a failing write, `m` whole files leave, the drain delivers what it would have, and it delivers
    * less than one file more.
    */
  ghost predicate FailedLeaves(files: seq<Entry>, answer: Answers, done: nat, room: nat, m: nat) {
    var r := DrainFrom(files, answer, done, room, RewriteFails);
    && WholeFilesLeft(r, files, m) && m <= room && m <= |files|
    && r.delivered == DrainFrom(files, answer, done, room, Rewrites).delivered
    && (|r.delivered| > |Flat(files[..m])| ==> m < |files| && |r.delivered| < |Flat(files[..m + 1])|)
  }

  /** A drain whose write fails lets only whole files go: what was confirmed from the batch it
    * stopped in stays queued, and nothing is lost.
    */
  lemma {:induction false} FailedRewriteLeaves(files: seq<Entry>, answer: Answers, done: nat, room: nat)
    ensures exists m: nat :: FailedLeaves(files, answer, done, room, m)
    decreases room
  {
    hide ItemsOf, Sent, WholeFilesLeft, Flat;
    var m: nat := 0;
    if files == [] || room == 0 {
      NothingLeft(files);
      FlatNone(files);
    } else {
      var d := files[0].doc;
      WholeBatch(if d.Batch? then d else Batch("", []), [], []);
      if d.Corrupt? || Sent(|d.payloads|, answer, done) == |d.payloads| {
        var done' := if d.Corrupt? then done else done + |d.payloads|;
        FailedRewriteLeaves(files[1..], answer, done', room - 1);
        m :| FailedLeaves(files[1..], answer, done', room - 1, m);
        var rest := DrainFrom(files[1..], answer, done', room - 1, RewriteFails);
        NoItemsOf(d);
        OneMoreLeft(rest, files, m);
        assert [] + rest.delivered == rest.delivered;
        LeftAtMost(rest, files[1..], m);
        OneMoreFile(files, m);
        if m < |files[1..]| {
          OneMoreFile(files, m + 1);
        }
        m := m + 1;
      } else {
        PartLeft(files, Sent(|d.payloads|, answer, done));
        OneMoreFile(files, 0);
        FlatNone(files);
        FlatNone(files[1..]);
      }
    }
    assert FailedLeaves(files, answer, done, room, m);
  }

  lemma LeftAtMost(r: Drained, files: seq<Entry>, m: nat)
    requires WholeFilesLeft(r, files, m)
    ensures m <= |files| && |Flat(files[..m])| <= |r.delivered|
  {
  }

  lemma FlatNone(files: seq<Entry>)
    ensures Flat(files[..0]) == []
  {
  }

  lemma NoItemsOf(d: Doc)
    ensures d.Corrupt? ==> ItemsOf(d) == []
  {
  }

  /** The first file of the drain goes whole, with no kill on it. */
  predicate HeadGoes(files: seq<Entry>, answer: Answers, done: nat, end: End)
    requires files != []
  {
    var n := |ItemsOf(files[0].doc)|;
    Sent(n, answer, done) == n && !KilledIn(end, done, n)
  }

  lemma DrainHead(files: seq<Entry>, answer: Answers, done: nat, room: nat, end: End)
    requires files != [] && room > 0
    ensures var items := ItemsOf(files[0].doc);
            HeadGoes(files, answer, done, end) ==>
              DrainFrom(files, answer, done, room, end)
              == Then(items, DrainFrom(files[1..], answer, done + |items|, room - 1, end))
  {
    hide Sent;
    var d := files[0].doc;
    if d.Corrupt? {
      var rest := DrainFrom(files[1..], answer, done, room - 1, end);
      assert [] + rest.delivered == rest.delivered;
    }
  }

  lemma WindowSent(files: seq<Entry>, answer: Answers, done: nat, room: nat)
    requires files != [] && room > 0
    ensures var n := |ItemsOf(files[0].doc)|;
            Sent(|Window(files, room)|, answer, done)
            == if Sent(n, answer, done) == n then n + Sent(|Window(files[1..], room - 1)|, answer, done + n)
               else Sent(n, answer, done)
  {
    hide Sent, ItemsOf, Window;
    WindowHead(files, room);
    SentSplit(|ItemsOf(files[0].doc)|, |Window(files[1..], room - 1)|, answer, done);
  }

  /** A kill on a confirmed POST leaves the whole batch it belongs to, even one sent to its end; a
    * drain that ends before the kill is none.
    */
  ghost predicate KilledLeaves(files: seq<Entry>, answer: Answers, done: nat, room: nat, k: nat) {
    var r := DrainFrom(files, answer, done, room, Killed(k));
    if done < k <= done + Sent(|Window(files, room)|, answer, done) then exists m: nat :: KilledAt(r, files, m, done, k)
    else r == DrainFrom(files, answer, done, room, Rewrites)
  }

  /** The items up to the k-th are delivered, more than those of the `m` files that left. */
  ghost predicate KilledAt(r: Drained, files: seq<Entry>, m: nat, done: nat, k: nat) {
    WholeFilesLeft(r, files, m) && m <= |files| && done + |r.delivered| == k && |r.delivered| > |Flat(files[..m])|
  }

  lemma {:induction false} KilledDrainLeaves(files: seq<Entry>, answer: Answers, done: nat, room: nat, k: nat)
    ensures KilledLeaves(files, answer, done, room, k)
    decreases room
  {
    hide HeadGoes;
    if files == [] || room == 0 {
      assert files[..Min(room, |files|)] == files[..0];
      FlatNone(files);
      return;
    }
    hide KilledLeaves;
    if HeadGoes(files, answer, done, Killed(k)) {
      KilledDrainLeaves(files[1..], answer, done + |ItemsOf(files[0].doc)|, room - 1, k);
      KilledBehind(files, answer, done, room, k);
    } else {
      KilledAtHead(files, answer, done, room, k);
    }
  }

  lemma KilledAtHead(files: seq<Entry>, answer: Answers, done: nat, room: nat, k: nat)
    requires files != [] && room > 0 && !HeadGoes(files, answer, done, Killed(k))
    ensures KilledLeaves(files, answer, done, room, k)
  {
    hide Sent, WholeFilesLeft, Flat, Window, HeadGoes;
    var n := |ItemsOf(files[0].doc)|;
    FlatNone(files);
    WindowSent(files, answer, done, room);
    HeadCases(files, answer, done, k);
    if done < k <= done + Sent(n, answer, done) {
      PartLeft(files, k - done);
      assert KilledAt(DrainFrom(files, answer, done, room, Killed(k)), files, 0, done, k);
    }
  }

  lemma KilledBehind(files: seq<Entry>, answer: Answers, done: nat, room: nat, k: nat)
    requires files != [] && room > 0 && HeadGoes(files, answer, done, Killed(k))
    requires KilledLeaves(files[1..], answer, done + |ItemsOf(files[0].doc)|, room - 1, k)
    ensures KilledLeaves(files, answer, done, room, k)
  {
    hide ItemsOf, Sent, WholeFilesLeft, Flat, DrainFrom, Window, Then, HeadGoes;
    var n := |ItemsOf(files[0].doc)|;
    WindowSent(files, answer, done, room);
    HeadCases(files, answer, done, k);
    DrainHead(files, answer, done, room, Killed(k));
    DrainHead(files, answer, done, room, Rewrites);
    if done + n < k <= done + n + Sent(|Window(files[1..], room - 1)|, answer, done + n) {
      var rest := DrainFrom(files[1..], answer, done + n, room - 1, Killed(k));
      var m: nat :| KilledAt(rest, files[1..], m, done + n, k);
      HeadThenLeft(rest, files, m);
      assert KilledAt(DrainFrom(files, answer, done, room, Killed(k)), files, m + 1, done, k);
    }
  }

  lemma HeadCases(files: seq<Entry>, answer: Answers, done: nat, k: nat)
    requires files != []
    ensures var n := |ItemsOf(files[0].doc)|;
            && (HeadGoes(files, answer, done, Killed(k))
                <==> Sent(n, answer, done) == n && !(done < k <= done + n))
            && (HeadGoes(files, answer, done, Killed(k)) ==> HeadGoes(files, answer, done, Rewrites))
  {
    hide Sent, ItemsOf;
  }

  lemma HeadThenLeft(rest: Drained, files: seq<Entry>, m: nat)
    requires files != [] && WholeFilesLeft(rest, files[1..], m)
    ensures var items := ItemsOf(files[0].doc);
            && WholeFilesLeft(Then(items, rest), files, m + 1)
            && m < |files| && |Then(items, rest).delivered| == |items| + |rest.delivered|
            && |Flat(files[..m + 1])| == |items| + |Flat(files[1..][..m])|
  {
    hide WholeFilesLeft, ItemsOf, Flat;
    OneMoreLeft(rest, files, m);
    LeftAtMost(rest, files[1..], m);
    OneMoreFile(files, m);
  }

  /** Of what a drain delivered, the first `w` items have left the queue and the others have not:
    * whatever its end, nothing is lost, and what is sent again is known.
    */
  ghost predicate Leaves(r: Drained, files: seq<Entry>, w: nat) {
    w <= |r.delivered| && Flat(files) == r.delivered[..w] + Flat(r.files) && r.delivered[w..] <= Flat(r.files)
  }

  /** The drain's first `w` items have left, and they are all it delivered unless it sends again. */
  ghost predicate LeavesIff(files: seq<Entry>, answer: Answers, room: nat, end: End, w: nat) {
    var r := DrainFrom(files, answer, 0, room, end);
    Leaves(r, files, w) && (w < |r.delivered| <==> SendsAgain(files, answer, room, end))
  }

  lemma FlatLeaves(r: Drained, files: seq<Entry>, window: seq<Item>, n: nat)
    requires FlatResult(r, window, Flat(files), n) && window <= Flat(files)
    ensures Leaves(r, files, n) && n == |r.delivered|
  {
    hide Flat;
    assert r.delivered[..n] == Flat(files)[..n];
  }

  lemma WholeLeaves(r: Drained, files: seq<Entry>, m: nat)
    requires WholeFilesLeft(r, files, m)
    ensures Leaves(r, files, |Flat(files[..m])|)
  {
    hide Flat;
    assert files == files[..m] + files[m..];
    FlatConcat(files[..m], files[m..]);
  }

  /** `n` confirmed payloads are exactly those of some first files. */
  ghost predicate AtBoundary(files: seq<Entry>, room: nat, n: nat) {
    exists m: nat :: m <= room && m <= |files| && |Flat(files[..m])| == n
  }

  /** A drain sends confirmed payloads again exactly when its write fails inside a batch, or it is
    * killed on a confirmed POST.
    */
  ghost predicate SendsAgain(files: seq<Entry>, answer: Answers, room: nat, end: End) {
    var n := Sent(|Window(files, room)|, answer, 0);
    match end
    case Rewrites => false
    case RewriteFails => !AtBoundary(files, room, n)
    case Killed(k) => 0 < k <= n
  }

  lemma {:induction false} FlatGrows(files: seq<Entry>, a: nat, b: nat)
    requires a <= b <= |files|
    ensures |Flat(files[..a])| <= |Flat(files[..b])|
  {
    assert files[..b] == files[..a] + files[a..b];
    FlatConcat(files[..a], files[a..b]);
  }

  /** Whatever its end a drain loses nothing, and it leaves confirmed payloads queued, to be sent
    * again, if and only if it fails to write inside a batch or is killed on a confirmed POST.
    */
  lemma SendsAgainIff(files: seq<Entry>, answer: Answers, room: nat, end: End)
    ensures exists w: nat :: LeavesIff(files, answer, room, end, w)
  {
    hide DrainFrom, Flat, Window, Sent, FlatResult, WholeFilesLeft, Leaves;
    var window := Window(files, room);
    var n := Sent(|window|, answer, 0);
    WindowIsPrefix(files, room);
    DrainIsFlat(files, answer, 0, room);
    FlatLeaves(DrainFrom(files, answer, 0, room, Rewrites), files, window, n);
    var w := n;
    match end {
    case Rewrites =>
    case RewriteFails =>
      FailedRewriteLeaves(files, answer, 0, room);
      var m: nat :| FailedLeaves(files, answer, 0, room, m);
      WholeLeaves(DrainFrom(files, answer, 0, room, RewriteFails), files, m);
      LeftAtMost(DrainFrom(files, answer, 0, room, RewriteFails), files, m);
      w := |Flat(files[..m])|;
      BoundaryIff(files, room, n, m);
    case Killed(k) =>
      KilledDrainLeaves(files, answer, 0, room, k);
      if 0 < k <= n {
        var m: nat :| KilledAt(DrainFrom(files, answer, 0, room, end), files, m, 0, k);
        LeftAtMost(DrainFrom(files, answer, 0, room, end), files, m);
        WholeLeaves(DrainFrom(files, answer, 0, room, end), files, m);
        w := |Flat(files[..m])|;
      }
    }
    assert LeavesIff(files, answer, room, end, w);
  }

  lemma BoundaryIff(files: seq<Entry>, room: nat, n: nat, m: nat)
    requires m <= room && m <= |files| && |Flat(files[..m])| <= n
    requires n > |Flat(files[..m])| ==> m < |files| && n < |Flat(files[..m + 1])|
    ensures AtBoundary(files, room, n) <==> n == |Flat(files[..m])|
  {
    hide Flat;
    if o: nat :| o <= room && o <= |files| && |Flat(files[..o])| == n {
      if o <= m {
        FlatGrows(files, o, m);
      } else {
        FlatGrows(files, m + 1, o);
      }
    }
  }

  /** A batch of two, the first confirmed, and then a failed write or a kill: the next drain
    * delivers the first again.
    */
  lemma ConfirmedSentTwice(end: End)
    requires end == RewriteFails || end == Killed(1)
    ensures var files := [Entry(Name(1, 1), Batch("/api/results", ["p", "q"]))];
            var first := DrainFrom(files, j => j < 1, 0, DRAIN_FILES, end);
            var next := DrainFrom(first.files, _ => true, 0, DRAIN_FILES, Rewrites);
            && first.delivered == [Item("/api/results", "p")]
            && next.delivered == [Item("/api/results", "p"), Item("/api/results", "q")]
  {
    var d := Batch("/api/results", ["p", "q"]);
    var files := [Entry(Name(1, 1), d)];
    assert ItemsOf(d) == [Item("/api/results", "p"), Item("/api/results", "q")];
    assert Sent(1, j => j < 1, 1) == 0;
    assert Sent(2, j => j < 1, 0) == 1;
    assert Sent(0, _ => true, 2) == 0;
    assert Sent(1, _ => true, 1) == 1;
    assert Sent(2, _ => true, 0) == 2;
    assert files[1..] == [];
  }

  /** At most 200 payloads from at most 50 files leave in one drain. */
  lemma {:induction false} DrainIsBounded(files: seq<Entry>, answer: Answers)
    ensures var r := DrainFrom(files, answer, 0, DRAIN_FILES, Rewrites);
            && |r.delivered| <= 200
            && r.delivered <= Flat(files[..Min(50, |files|)])
  {
    DrainIsFlat(files, answer, 0, DRAIN_FILES);
  }

  // --- any sequence of spooling and draining ----------------------------------------------

  datatype Fate = Delivered | Evicted

  datatype Gone = Gone(item: Item, fate: Fate)

  /** The files, everything ever spooled, what left the queue and how, and what was confirmed. */
  datatype Sensor = Sensor(files: seq<Entry>, spooled: seq<Item>, gone: seq<Gone>, confirmed: seq<Item>)

  datatype Turn =
    | Stores(entry: Entry)
    | Drains(answer: Answers)

  const START := Sensor([], [], [], [])

  /** One clock: a file is stamped later than every file in the directory. */
  ghost predicate Enabled(s: Sensor, t: Turn) {
    t.Stores? ==>
      && t.entry.doc.Batch? && t.entry.doc.payloads != []
      && (s.files != [] ==> Before(s.files[|s.files| - 1].name, t.entry.name))
  }

  function Marked(items: seq<Item>, fate: Fate): seq<Gone> {
    seq(|items|, i requires 0 <= i < |items| => Gone(items[i], fate))
  }

  function Next(s: Sensor, t: Turn): Sensor {
    match t
    case Stores(e) =>
      var k := Min(|s.files|, Evictions(|s.files|));
      Sensor(Spooled(s.files, e, true), s.spooled + ItemsOf(e.doc),
             s.gone + Marked(Flat(s.files[..k]), Evicted), s.confirmed)
    case Drains(answer) =>
      var r := DrainFrom(s.files, answer, 0, DRAIN_FILES, Rewrites);
      s.(files := r.files, gone := s.gone + Marked(r.delivered, Delivered), confirmed := s.confirmed + r.delivered)
  }

  function Items(gone: seq<Gone>): seq<Item> {
    seq(|gone|, i requires 0 <= i < |gone| => gone[i].item)
  }

  function Confirmed(gone: seq<Gone>): seq<Item> {
    if gone == [] then []
    else
      Confirmed(gone[..|gone| - 1])
      + (if gone[|gone| - 1].fate == Delivered then [gone[|gone| - 1].item] else [])
  }

  lemma {:induction false} ConfirmedConcat(xs: seq<Gone>, ys: seq<Gone>)
    ensures Confirmed(xs + ys) == Confirmed(xs) + Confirmed(ys)
  {
    if ys == [] {
      assert xs + ys == xs;
    } else {
      assert (xs + ys)[..|xs + ys| - 1] == xs + ys[..|ys| - 1];
      ConfirmedConcat(xs, ys[..|ys| - 1]);
    }
  }

  lemma {:induction false} ConfirmedMarked(items: seq<Item>, fate: Fate)
    ensures Confirmed(Marked(items, fate)) == if fate == Delivered then items else []
  {
    if items != [] {
      var n := |items| - 1;
      assert Marked(items, fate)[..n] == Marked(items[..n], fate);
      ConfirmedMarked(items[..n], fate);
    }
  }

  /** What left, in order, followed by what is still queued is everything that was spooled. */
  ghost predicate Conserved(s: Sensor) {
    && Items(s.gone) + Flat(s.files) == s.spooled
    && s.confirmed == Confirmed(s.gone)
    && |s.files| <= SPOOL_MAX
  }

  lemma DrainFileCount(files: seq<Entry>, answer: Answers, done: nat, room: nat)
    ensures |DrainFrom(files, answer, done, room, Rewrites).files| <= |files|
    decreases room
  {
  }

  lemma NextConserves(s: Sensor, t: Turn)
    requires Conserved(s) && Enabled(s, t)
    ensures Conserved(Next(s, t))
  {
    match t
    case Stores(e) =>
      StoreConserves(s, e);
    case Drains(answer) =>
      DrainConserves(s, answer);
  }

  lemma ItemsOfMarked(gone: seq<Gone>, items: seq<Item>, fate: Fate)
    ensures Items(gone + Marked(items, fate)) == Items(gone) + items
  {
  }

  lemma FlatOne(e: Entry)
    ensures Flat([e]) == ItemsOf(e.doc)
  {
    hide ItemsOf;
    assert [e][1..] == [];
    assert ItemsOf(e.doc) + [] == ItemsOf(e.doc);
  }

  lemma {:induction false} FlatStored(files: seq<Entry>, e: Entry, k: nat)
    requires k <= |files|
    ensures Flat(files) == Flat(files[..k]) + Flat(files[k..])
    ensures Flat(files[k..] + [e]) == Flat(files[k..]) + ItemsOf(e.doc)
  {
    hide ItemsOf, Flat;
    assert files == files[..k] + files[k..];
    FlatConcat(files[..k], files[k..]);
    FlatConcat(files[k..], [e]);
    FlatOne(e);
  }

  lemma StoreConserves(s: Sensor, e: Entry)
    requires Conserved(s) && Enabled(s, Stores(e))
    ensures Conserved(Next(s, Stores(e)))
  {
    hide ItemsOf, Items, Confirmed, Marked, Flat, Spooled;
    var k := Min(|s.files|, Evictions(|s.files|));
    EvictsOldestFiles(s.files, e);
    FlatStored(s.files, e, k);
    var out := Flat(s.files[..k]);
    ItemsOfMarked(s.gone, out, Evicted);
    ConfirmedConcat(s.gone, Marked(out, Evicted));
    ConfirmedMarked(out, Evicted);
    Regroup(Items(s.gone), out, Flat(s.files[k..]), ItemsOf(e.doc));
  }

  lemma Regroup(gone: seq<Item>, out: seq<Item>, kept: seq<Item>, more: seq<Item>)
    ensures (gone + out) + (kept + more) == (gone + (out + kept)) + more
    ensures gone + (out + kept) == (gone + out) + kept
  {
  }

  /** What a drain delivers and what it leaves are together what was queued. */
  lemma DrainSplits(files: seq<Entry>, answer: Answers)
    ensures var r := DrainFrom(files, answer, 0, DRAIN_FILES, Rewrites);
            Flat(files) == r.delivered + Flat(r.files)
  {
    hide DrainFrom, Flat, Window, Sent;
    DrainIsFlat(files, answer, 0, DRAIN_FILES);
    WindowIsPrefix(files, DRAIN_FILES);
    var n := Sent(|Window(files, DRAIN_FILES)|, answer, 0);
    assert Flat(files)[..n] == Window(files, DRAIN_FILES)[..n];
  }

  lemma DrainConserves(s: Sensor, answer: Answers)
    requires Conserved(s)
    ensures Conserved(Next(s, Drains(answer)))
  {
    hide ItemsOf, Items, Confirmed, Marked, DrainFrom, Flat;
    var r := DrainFrom(s.files, answer, 0, DRAIN_FILES, Rewrites);
    DrainSplits(s.files, answer);
    DrainFileCount(s.files, answer, 0, DRAIN_FILES);
    ItemsOfMarked(s.gone, r.delivered, Delivered);
    ConfirmedConcat(s.gone, Marked(r.delivered, Delivered));
    ConfirmedMarked(r.delivered, Delivered);
    Regroup(Items(s.gone), r.delivered, Flat(r.files), []);
  }

  ghost predicate IsRun(ss: seq<Sensor>, ts: seq<Turn>) {
    && |ss| == |ts| + 1 && ss[0] == START
    && forall i :: 0 <= i < |ts| ==> Enabled(ss[i], ts[i]) && ss[i + 1] == Next(ss[i], ts[i])
  }

  /** Over every run each spooled item is in exactly one place: confirmed once, evicted, or
    * still queued. What left is a prefix of what was spooled, in order, so nothing confirmed
    * is ever delivered again and nothing overtakes; at most 3000 files are kept.
    */
  lemma {:induction false} RunConserves(ss: seq<Sensor>, ts: seq<Turn>, n: nat)
    requires IsRun(ss, ts) && n < |ss|
    ensures Conserved(ss[n])
  {
    hide Conserved, Next, Enabled;
    if n == 0 {
      assert Conserved(START) by { StartConserved(); }
    } else {
      RunConserves(ss, ts, n - 1);
      assert Enabled(ss[n - 1], ts[n - 1]) && ss[n - 1 + 1] == Next(ss[n - 1], ts[n - 1]);
      NextConserves(ss[n - 1], ts[n - 1]);
    }
  }

  lemma StartConserved()
    ensures Conserved(START)
  {
  }

  /** Making room drops only the oldest whole files, and only when there are 3000. */
  lemma EvictsOldestFiles(files: seq<Entry>, e: Entry)
    requires files == [] || Before(files[|files| - 1].name, e.name)
    ensures var k := if |files| >= SPOOL_MAX then |files| - SPOOL_MAX + 1 else 0;
            Spooled(files, e, true) == files[k..] + [e]
  {
    var k := Min(|files|, Evictions(|files|));
    assert files[k..] != [] ==> files[k..][|files[k..]| - 1] == files[|files| - 1];
  }
}
