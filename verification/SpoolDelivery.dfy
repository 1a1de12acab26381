/** Delivery over any run of the spool, mishaps included: writes that fail, files that go corrupt,
  * drains that cannot write back and drains that are killed.
  */
module SpoolDelivery {
  import opened Common
  import opened ResultSpool
  import opened SpoolQueue

  /** The files; everything ever spooled; what was confirmed, in order, with repetitions; what was
    * evicted; and what was lost to a failed write or a corrupt file.
    */
  datatype World = World(
    files: seq<Entry>,
    spooled: seq<Item>,
    confirmed: seq<Item>,
    evicted: seq<Item>,
    lost: seq<Item>
  )

  const EMPTY := World([], [], [], [], [])

  datatype Move =
    | Store(entry: Entry, written: bool)
    | Drain(answer: Answers, end: End)
    | Spoil(i: nat)

  /** No two files share a name; the clock may do anything else. */
  ghost predicate Possible(w: World, m: Move) {
    match m
    case Store(e, _) => e.doc.Batch? && forall i :: 0 <= i < |w.files| ==> w.files[i].name != e.name
    case Drain(_, _) => true
    case Spoil(i) => i < |w.files|
  }

  function Spoiled(files: seq<Entry>, i: nat): seq<Entry>
    requires i < |files|
  {
    files[i := files[i].(doc := Corrupt)]
  }

  function After(w: World, m: Move): World
    requires Possible(w, m)
  {
    match m
    case Store(e, written) =>
      w.(files := Spooled(w.files, e, written),
         spooled := w.spooled + ItemsOf(e.doc),
         evicted := w.evicted + Flat(w.files[..Min(|w.files|, Evictions(|w.files|))]),
         lost := if written then w.lost else w.lost + ItemsOf(e.doc))
    case Drain(answer, end) =>
      var r := DrainFrom(w.files, answer, 0, DRAIN_FILES, end);
      w.(files := r.files, confirmed := w.confirmed + r.delivered)
    case Spoil(i) =>
      w.(files := Spoiled(w.files, i), lost := w.lost + ItemsOf(w.files[i].doc))
  }

  /** Every spooled item, as often as it was spooled, is confirmed, evicted, lost or queued. */
  ghost predicate AtLeastOnce(w: World) {
    multiset(w.spooled)
    <= multiset(w.confirmed) + multiset(w.evicted) + multiset(w.lost) + multiset(Flat(w.files))
  }

  /** How many confirmations were of items that stayed queued. */
  function Again(w: World): int {
    |w.confirmed| + |w.evicted| + |w.lost| + |Flat(w.files)| - |w.spooled|
  }

  lemma {:induction false} InsertKeeps(files: seq<Entry>, e: Entry)
    requires forall i :: 0 <= i < |files| ==> files[i].name != e.name
    ensures multiset(Flat(Insert(files, e))) == multiset(Flat(files)) + multiset(ItemsOf(e.doc))
  {
    hide ItemsOf, Flat;
    FlatOne(e);
    if files == [] {
      FlatNothing();
    } else {
      var init, last := files[..|files| - 1], files[|files| - 1];
      assert files == init + [last];
      FlatConcat(init, [last]);
      InsertKeeps(init, e);
      FlatConcat(Insert(init, e), [last]);
      FlatConcat(files, [e]);
    }
  }

  lemma FlatNothing()
    ensures Flat([]) == []
  {
  }

  lemma SpoilKeeps(files: seq<Entry>, i: nat)
    requires i < |files|
    ensures multiset(Flat(files)) == multiset(Flat(Spoiled(files, i))) + multiset(ItemsOf(files[i].doc))
    ensures |Flat(files)| == |Flat(Spoiled(files, i))| + |ItemsOf(files[i].doc)|
  {
    hide ItemsOf, Flat;
    var spoilt := files[i].(doc := Corrupt);
    NoItemsOf(spoilt.doc);
    FlatOne(files[i]);
    FlatOne(spoilt);
    var front, back := files[..i], files[i + 1..];
    assert files == front + ([files[i]] + back);
    assert Spoiled(files, i) == front + ([spoilt] + back);
    FlatConcat(front, [files[i]] + back);
    FlatConcat([files[i]], back);
    FlatConcat(front, [spoilt] + back);
    FlatConcat([spoilt], back);
  }

  lemma StoreKeeps(w: World, e: Entry, written: bool)
    requires Possible(w, Store(e, written)) && AtLeastOnce(w)
    ensures AtLeastOnce(After(w, Store(e, written))) && Again(After(w, Store(e, written))) == Again(w)
  {
    hide ItemsOf, Flat, Insert;
    var k := Min(|w.files|, Evictions(|w.files|));
    assert w.files == w.files[..k] + w.files[k..];
    FlatConcat(w.files[..k], w.files[k..]);
    InsertKeeps(w.files[k..], e);
    Sizes(Flat(Insert(w.files[k..], e)), Flat(w.files[k..]), ItemsOf(e.doc));
  }

  lemma Sizes(a: seq<Item>, b: seq<Item>, c: seq<Item>)
    requires multiset(a) == multiset(b) + multiset(c)
    ensures |a| == |b| + |c|
  {
    assert |multiset(a)| == |a| && |multiset(b)| == |b| && |multiset(c)| == |c|;
  }

  lemma LeavesKeeps(r: Drained, files: seq<Entry>, n: nat)
    requires Leaves(r, files, n)
    ensures n <= |r.delivered| && |Flat(files)| == n + |Flat(r.files)|
    ensures multiset(Flat(files)) <= multiset(r.delivered) + multiset(Flat(r.files))
  {
    hide Flat;
    assert r.delivered == r.delivered[..n] + r.delivered[n..];
  }

  lemma DrainKeeps(w: World, answer: Answers, end: End)
    requires AtLeastOnce(w)
    ensures var w' := After(w, Drain(answer, end));
            && AtLeastOnce(w') && Again(w') >= Again(w)
            && (Again(w') > Again(w) <==> SendsAgain(w.files, answer, DRAIN_FILES, end))
  {
    hide ItemsOf, Flat, DrainFrom, SendsAgain, Leaves;
    SendsAgainIff(w.files, answer, DRAIN_FILES, end);
    var n: nat :| LeavesIff(w.files, answer, DRAIN_FILES, end, n);
    LeavesKeeps(DrainFrom(w.files, answer, 0, DRAIN_FILES, end), w.files, n);
  }

  ghost predicate IsHistory(ws: seq<World>, ms: seq<Move>) {
    && |ws| == |ms| + 1 && ws[0] == EMPTY
    && forall i :: 0 <= i < |ms| ==> Possible(ws[i], ms[i]) && ws[i + 1] == After(ws[i], ms[i])
  }

  ghost predicate SentAgainAt(w: World, m: Move) {
    m.Drain? && SendsAgain(w.files, m.answer, DRAIN_FILES, m.end)
  }

  lemma AfterKeeps(w: World, m: Move)
    requires Possible(w, m) && AtLeastOnce(w)
    ensures AtLeastOnce(After(w, m)) && Again(After(w, m)) >= Again(w)
    ensures Again(After(w, m)) > Again(w) <==> SentAgainAt(w, m)
  {
    match m
    case Store(e, written) => StoreKeeps(w, e, written);
    case Drain(answer, end) => DrainKeeps(w, answer, end);
    case Spoil(i) =>
      hide ItemsOf, Flat;
      SpoilKeeps(w.files, i);
  }

  lemma StartKeeps()
    ensures AtLeastOnce(EMPTY) && Again(EMPTY) == 0
  {
  }

  /** Over every history each spooled item is confirmed, evicted, lost or still queued: delivery is
    * at least once. It is exactly once if and only if no drain failed to write inside a batch and
    * none was killed on a confirmed POST.
    */
  lemma {:induction false} DeliveredAtLeastOnce(ws: seq<World>, ms: seq<Move>, n: nat)
    requires IsHistory(ws, ms) && n < |ws|
    ensures AtLeastOnce(ws[n]) && Again(ws[n]) >= 0
    ensures Again(ws[n]) == 0 <==> forall i :: 0 <= i < n ==> !SentAgainAt(ws[i], ms[i])
  {
    hide AtLeastOnce, Again, After, Possible, SentAgainAt;
    if n == 0 {
      StartKeeps();
    } else {
      DeliveredAtLeastOnce(ws, ms, n - 1);
      assert Possible(ws[n - 1], ms[n - 1]) && ws[n - 1 + 1] == After(ws[n - 1], ms[n - 1]);
      AfterKeeps(ws[n - 1], ms[n - 1]);
    }
  }
}
