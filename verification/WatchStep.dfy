/** The per-target watch state machine (collector/src/collector/watch.py, `step`).
  * One cycle pings a list of targets and turns the results into state and edges.
  */
module WatchStep {
  import opened Common

  type Key = string
  type Addr = string

  const DOWN_AFTER_FAILS: nat := 2

  datatype Target = Target(key: Key, ip: Addr, caption: string, peer: bool)

  /** A missing or null result means the time budget ran out before the target was tried. */
  datatype Probe = Answered | Failed | Skipped

  datatype Status = Unknown | Up | Down | Never

  datatype TState = TState(
    status: Status,
    fails: nat,
    since: Option<int>,
    firstUp: Option<int>,
    ip: Option<Addr>,
    lastProbed: Option<int>
  )

  const FRESH := TState(Unknown, 0, None, None, None, None)

  datatype Edge =
    | WentBlind(at: int, gateway: Option<bool>, probed: nat)
    | Sighted(at: int, gateway: Option<bool>, probed: nat)
    | WentDown(key: Key, ip: Addr, at: int, fails: nat)
    | CameUp(key: Key, ip: Addr, at: int, downSince: Option<int>)
    | Cleared(key: Key, ip: Addr, at: int)

  datatype Event = Event(seqNo: nat, edge: Edge)

  datatype WState = WState(targets: map<Key, TState>, seqNo: nat, blind: bool)

  const EMPTY_STATE := WState(map[], 0, false)

  /** Everything one call of `step` reads besides the state. */
  datatype Cycle = Cycle(
    targets: seq<Target>,
    results: map<Key, Probe>,
    now: int,
    gateway: Option<bool>
  )

  datatype Summary = Summary(
    at: int,
    targets: nat,
    probed: nat,
    skipped: int,
    blind: bool,
    gateway: Option<bool>,
    up: nat,
    down: nat,
    never: nat
  )

  // --- the specification of one cycle ---------------------------------------------------

  function KeysOf(ts: seq<Target>): set<Key> {
    set t | t in ts :: t.key
  }

  ghost predicate DistinctKeys(ts: seq<Target>) {
    forall i, j :: 0 <= i < j < |ts| ==> ts[i].key != ts[j].key
  }

  function ResultFor(c: Cycle, k: Key): Probe {
    if k in c.results then c.results[k] else Skipped
  }

  function ProbedKeys(c: Cycle): set<Key> {
    set k | k in KeysOf(c.targets) && ResultFor(c, k) != Skipped
  }

  /** Nothing answered, and our own gateway is dead or (with no reading) three targets failed. */
  predicate IsBlind(c: Cycle) {
    && (forall k | k in KeysOf(c.targets) :: ResultFor(c, k) != Answered)
    && (c.gateway == Some(false) || (c.gateway == None && |ProbedKeys(c)| >= 3))
  }

  predicate Moved(s: TState, ip: Addr) {
    s.ip.Some? && s.ip.value != ip
  }

  /** The state a target starts this cycle from: a new address starts over. */
  function Adopted(s: TState, ip: Addr): TState {
    (if Moved(s, ip) then FRESH else s).(ip := Some(ip))
  }

  function Advance(s0: TState, ip: Addr, r: Probe, blind: bool, now: int): TState {
    var s := Adopted(s0, ip);
    match r
    case Skipped => s
    case Answered =>
      s.(status := Up,
         fails := 0,
         since := if s.status == Up then s.since else Some(now),
         firstUp := if s.firstUp == None then Some(now) else s.firstUp,
         lastProbed := Some(now))
    case Failed =>
      if blind then s.(lastProbed := Some(now))
      else
        var f := s.(fails := s.fails + 1, lastProbed := Some(now));
        if s.firstUp == None then f.(status := Never)
        else if s.status != Down && f.fails >= DOWN_AFTER_FAILS then f.(status := Down, since := Some(now))
        else f
  }

  function EdgesOf(k: Key, s0: TState, ip: Addr, r: Probe, blind: bool, now: int): seq<Edge> {
    var s := Adopted(s0, ip);
    (if Moved(s0, ip) && s0.status == Down then [Cleared(k, s0.ip.value, now)] else [])
    + (if r == Answered && s.status == Down then [CameUp(k, ip, now, s.since)] else [])
    + (if r == Failed && !blind && s.firstUp != None && s.status != Down && s.fails + 1 >= DOWN_AFTER_FAILS
       then [WentDown(k, ip, now, s.fails + 1)] else [])
  }

  function Prior(prev: map<Key, TState>, k: Key): TState {
    if k in prev then prev[k] else FRESH
  }

  /** State of the first `n` targets of the cycle. */
  function TargetsAfter(prev: map<Key, TState>, c: Cycle, n: nat): map<Key, TState>
    requires n <= |c.targets|
  {
    if n == 0 then map[]
    else
      var t := c.targets[n - 1];
      TargetsAfter(prev, c, n - 1)[
        t.key := Advance(Prior(prev, t.key), t.ip, ResultFor(c, t.key), IsBlind(c), c.now)]
  }

  /** Edges of the first `n` targets of the cycle, in list order. */
  function EdgesAfter(prev: map<Key, TState>, c: Cycle, n: nat): seq<Edge>
    requires n <= |c.targets|
  {
    if n == 0 then []
    else
      var t := c.targets[n - 1];
      EdgesAfter(prev, c, n - 1)
      + EdgesOf(t.key, Prior(prev, t.key), t.ip, ResultFor(c, t.key), IsBlind(c), c.now)
  }

  function VisibilityEdge(wasBlind: bool, c: Cycle): seq<Edge> {
    if IsBlind(c) == wasBlind then []
    else if IsBlind(c) then [WentBlind(c.now, c.gateway, |ProbedKeys(c)|)]
    else [Sighted(c.now, c.gateway, |ProbedKeys(c)|)]
  }

  function StepEdges(w: WState, c: Cycle): seq<Edge> {
    VisibilityEdge(w.blind, c) + EdgesAfter(w.targets, c, |c.targets|)
  }

  /** Edges numbered from the state's counter. */
  function Numbered(start: nat, es: seq<Edge>): seq<Event> {
    seq(|es|, i requires 0 <= i < |es| => Event(start + i + 1, es[i]))
  }

  function StepState(w: WState, c: Cycle): WState {
    WState(TargetsAfter(w.targets, c, |c.targets|), w.seqNo + |StepEdges(w, c)|, IsBlind(c))
  }

  function StepEvents(w: WState, c: Cycle): seq<Event> {
    Numbered(w.seqNo, StepEdges(w, c))
  }

  function CountWith(m: map<Key, TState>, status: Status): nat {
    |set k | k in m && m[k].status == status|
  }

  function StepSummary(w: WState, c: Cycle): Summary {
    var m := TargetsAfter(w.targets, c, |c.targets|);
    Summary(c.now, |c.targets|, |ProbedKeys(c)|, |KeysOf(c.targets)| - |ProbedKeys(c)|, IsBlind(c),
            c.gateway, CountWith(m, Up), CountWith(m, Down), CountWith(m, Never))
  }

  // --- the loop itself ------------------------------------------------------------------

  lemma AppendNumbered(events: seq<Event>, start: nat, xs: seq<Edge>, ys: seq<Edge>)
    ensures events + Numbered(start, xs) + Numbered(start + |xs|, ys) == events + Numbered(start, xs + ys)
  {
    assert Numbered(start, xs) + Numbered(start + |xs|, ys) == Numbered(start, xs + ys);
  }

  lemma NumberedNone(start: nat)
    ensures Numbered(start, []) == []
  {
  }

  /** The body of the loop for one target: `events` and `seqNo` are the list and the counter
    * that `emit` appends to and advances.
    */
  method StepTarget(prior: TState, t: Target, r: Probe, blind: bool, now: int,
                    events0: seq<Event>, seqNo0: nat)
    returns (s: TState, events: seq<Event>, seqNo: nat)
    ensures s == Advance(prior, t.ip, r, blind, now)
    ensures events == events0 + Numbered(seqNo0, EdgesOf(t.key, prior, t.ip, r, blind, now))
    ensures seqNo == seqNo0 + |EdgesOf(t.key, prior, t.ip, r, blind, now)|
  {
    s, events, seqNo := prior, events0, seqNo0;
    if s.ip.Some? && s.ip.value != t.ip {
      if s.status == Down {
        seqNo := seqNo + 1;
        events := events + [Event(seqNo, Cleared(t.key, s.ip.value, now))];
      }
      s := FRESH;
    }
    s := s.(ip := Some(t.ip));
    if r == Skipped {
      return;
    }
    s := s.(lastProbed := Some(now));
    if r == Answered {
      if s.firstUp == None {
        s := s.(firstUp := Some(now));
      }
      if s.status == Down {
        seqNo := seqNo + 1;
        events := events + [Event(seqNo, CameUp(t.key, t.ip, now, s.since))];
      }
      if s.status != Up {
        s := s.(since := Some(now));
      }
      s := s.(status := Up, fails := 0);
    } else if !blind {
      s := s.(fails := s.fails + 1);
      if s.firstUp == None {
        s := s.(status := Never);
      } else if s.status != Down && s.fails >= DOWN_AFTER_FAILS {
        s := s.(status := Down, since := Some(now));
        seqNo := seqNo + 1;
        events := events + [Event(seqNo, WentDown(t.key, t.ip, now, s.fails))];
      }
    }
  }

  /** What the sensor could see this cycle: the keys, the probed ones and whether it was blind. */
  method Look(c: Cycle) returns (keys: set<Key>, probed: set<Key>, blind: bool)
    ensures keys == KeysOf(c.targets) && probed == ProbedKeys(c) && blind == IsBlind(c)
  {
    keys := set t | t in c.targets :: t.key;
    probed := set k | k in keys && ResultFor(c, k) != Skipped;
    var answered := set k | k in probed && ResultFor(c, k) == Answered;
    blind := answered == {} && (c.gateway == Some(false) || (c.gateway == None && |probed| >= 3));
    BlindAsComputed(c, answered);
  }

  lemma BlindAsComputed(c: Cycle, answered: set<Key>)
    requires answered == set k | k in ProbedKeys(c) && ResultFor(c, k) == Answered
    ensures answered == {} <==> forall k | k in KeysOf(c.targets) :: ResultFor(c, k) != Answered
  {
    forall k | k in KeysOf(c.targets) && ResultFor(c, k) == Answered
      ensures answered != {}
    {
      assert k in answered;
    }
  }

  /** One cycle, as the code runs it: a loop over the targets that updates a dictionary, an
    * event list and a running sequence number.
    */
  method Step(w: WState, c: Cycle) returns (w': WState, events: seq<Event>, summary: Summary)
    ensures w' == StepState(w, c)
    ensures events == StepEvents(w, c)
    ensures summary == StepSummary(w, c)
  {
    var keys, probed, blind := Look(c);
    events := [];
    var seqNo := w.seqNo;
    if blind != w.blind {
      seqNo := seqNo + 1;
      events := [Event(seqNo, if blind then WentBlind(c.now, c.gateway, |probed|)
                              else Sighted(c.now, c.gateway, |probed|))];
    }
    var next, events', seqNo' := StepLoop(w, c, blind, events, seqNo);
    AppendNumbered([], w.seqNo, VisibilityEdge(w.blind, c), EdgesAfter(w.targets, c, |c.targets|));
    events, seqNo := events', seqNo';
    w' := WState(next, seqNo, blind);
    summary := Summary(c.now, |c.targets|, |probed|, |keys| - |probed|, blind, c.gateway,
                       CountWith(next, Up), CountWith(next, Down), CountWith(next, Never));
  }

  method StepLoop(w: WState, c: Cycle, blind: bool, events0: seq<Event>, seqNo0: nat)
    returns (next: map<Key, TState>, events: seq<Event>, seqNo: nat)
    requires blind == IsBlind(c)
    ensures next == TargetsAfter(w.targets, c, |c.targets|)
    ensures events == events0 + Numbered(seqNo0, EdgesAfter(w.targets, c, |c.targets|))
    ensures seqNo == seqNo0 + |EdgesAfter(w.targets, c, |c.targets|)|
  {
    hide Advance, EdgesOf, Numbered, IsBlind, ResultFor;
    next, events, seqNo := map[], events0, seqNo0;
    assert Numbered(seqNo0, []) == [] by { NumberedNone(seqNo0); }
    var i := 0;
    while i < |c.targets|
      invariant 0 <= i <= |c.targets|
      invariant next == TargetsAfter(w.targets, c, i)
      invariant events == events0 + Numbered(seqNo0, EdgesAfter(w.targets, c, i))
      invariant seqNo == seqNo0 + |EdgesAfter(w.targets, c, i)|
    {
      var t := c.targets[i];
      var prior := if t.key in w.targets then w.targets[t.key] else FRESH;
      AppendNumbered(events0, seqNo0, EdgesAfter(w.targets, c, i),
                     EdgesOf(t.key, prior, t.ip, ResultFor(c, t.key), blind, c.now));
      var s;
      s, events, seqNo := StepTarget(prior, t, ResultFor(c, t.key), blind, c.now, events, seqNo);
      next := next[t.key := s];
      i := i + 1;
    }
  }
}
