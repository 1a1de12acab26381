/** The pushed watch list as untrusted input (collector/src/collector/watch.py,
  * `validate_targets` and `accept_targets`).
  */
module WatchTargets {
  import opened Common
  import opened WatchStep

  const MAX_TARGETS: nat := 200
  const MAX_CAPTION: nat := 64

  /** A JSON value where text is expected. */
  datatype RawText = NotText | Text(s: string)

  datatype RawTarget =
    | NotAnObject
    | Raw(key: RawText, ip: RawText, caption: RawText, peer: bool)

  datatype RawList = NotAList | Items(items: seq<RawTarget>)

  datatype Fault = NoObject | BadKey | BadIp | BadCaption

  datatype Refusal = ListExpected | TooMany(count: nat) | BadItem(index: nat, fault: Fault)

  /** Address parsing and normalisation belong to a library; this is its outcome on a text:
    * the normalised unicast address, or None for a refusal.
    */
  type CleanIp = string -> Option<Addr>

  predicate KeyChar(ch: char) {
    'A' <= ch <= 'Z' || 'a' <= ch <= 'z' || '0' <= ch <= '9' || ch == ':' || ch == '_' || ch == '-'
  }

  predicate StrictKey(s: string) {
    1 <= |s| <= 64 && forall i :: 0 <= i < |s| ==> KeyChar(s[i])
  }

  /** What the key pattern accepts: its closing anchor also matches before one final newline. */
  predicate KeyMatches(s: string) {
    StrictKey(s) || (|s| > 0 && s[|s| - 1] == '\n' && StrictKey(s[..|s| - 1]))
  }

  function FaultOf(clean: CleanIp, r: RawTarget): Option<Fault> {
    match r
    case NotAnObject => Some(NoObject)
    case Raw(key, ip, caption, _) =>
      if key.NotText? || !KeyMatches(key.s) then Some(BadKey)
      else if ip.NotText? || clean(ip.s).None? then Some(BadIp)
      else if caption.NotText? then Some(BadCaption)
      else None
  }

  function Cleaned(clean: CleanIp, r: RawTarget): Target
    requires FaultOf(clean, r).None?
  {
    Target(r.key.s, clean(r.ip.s).value,
           if |r.caption.s| > MAX_CAPTION then r.caption.s[..MAX_CAPTION] else r.caption.s, r.peer)
  }

  ghost predicate AllSound(clean: CleanIp, items: seq<RawTarget>) {
    forall i :: 0 <= i < |items| ==> FaultOf(clean, items[i]).None?
  }

  /** The cleaned items with later repeats of a key left out. */
  ghost function Deduped(clean: CleanIp, items: seq<RawTarget>): seq<Target>
    requires AllSound(clean, items)
  {
    if items == [] then []
    else
      var before := Deduped(clean, items[..|items| - 1]);
      var t := Cleaned(clean, items[|items| - 1]);
      if t.key in KeysOf(before) then before else before + [t]
  }

  /** What a refusal says is so: no list, a list of more than 200 items, or the first faulty item of one
    * that is not too long.
    */
  ghost predicate SaysWhy(refusal: Refusal, raw: RawList, clean: CleanIp) {
    match refusal
    case ListExpected => raw.NotAList?
    case TooMany(count) => raw.Items? && |raw.items| == count && count > 200
    case BadItem(index, fault) =>
      && raw.Items? && index < |raw.items| <= 200
      && AllSound(clean, raw.items[..index]) && FaultOf(clean, raw.items[index]) == Some(fault)
  }

  /** A key of 1 to 64 letters, digits, colons, underscores and dashes, with or without a newline behind. */
  ghost predicate KeyText(s: string) {
    exists n: nat :: KeyOf(s, n)
  }

  ghost predicate KeyOf(s: string, n: nat) {
    && 1 <= n <= 64 && n <= |s| && (s[n..] == "" || s[n..] == "\n")
    && forall i :: 0 <= i < n ==>
         var c := s[i] as int;
         65 <= c <= 90 || 97 <= c <= 122 || 48 <= c <= 57 || c == 58 || c == 95 || c == 45
  }

  lemma KeyTextIff(s: string)
    ensures KeyMatches(s) <==> KeyText(s)
  {
    if StrictKey(s) {
      assert KeyOf(s, |s|);
    } else if KeyMatches(s) {
      assert KeyOf(s, |s| - 1);
    }
    if n: nat :| KeyOf(s, n) {
      assert s == s[..n] + s[n..];
      if s[n..] == "\n" {
        assert |s| == n + 1 && s[|s| - 1] == s[n..][0];
        assert StrictKey(s[..n]);
      } else {
        assert s == s[..n] && StrictKey(s);
      }
    }
  }

  /** What is looked at first is named first: the object, then its key, its address and its caption. A sound
    * item keeps key and peer mark, has its address normalised, and the first 64 characters of its caption.
    */
  lemma FaultIs(clean: CleanIp, r: RawTarget)
    ensures FaultOf(clean, r) == Some(NoObject) <==> r.NotAnObject?
    ensures r.Raw? ==>
              var keyed := r.key.Text? && KeyText(r.key.s);
              var placed := r.ip.Text? && clean(r.ip.s).Some?;
              && (FaultOf(clean, r) == Some(BadKey) <==> !keyed)
              && (FaultOf(clean, r) == Some(BadIp) <==> keyed && !placed)
              && (FaultOf(clean, r) == Some(BadCaption) <==> keyed && placed && r.caption.NotText?)
              && (FaultOf(clean, r).None? <==> keyed && placed && r.caption.Text?)
    ensures FaultOf(clean, r).None? ==>
              var t := Cleaned(clean, r);
              && t.key == r.key.s && t.peer == r.peer && clean(r.ip.s) == Some(t.ip)
              && t.caption <= r.caption.s && |t.caption| == Min(64, |r.caption.s|)
  {
    if r.Raw? && r.key.Text? {
      KeyTextIff(r.key.s);
    }
  }

  /** The whole list is refused, naming the first faulty item, or the whole list is taken. */
  method ValidateTargets(raw: RawList, clean: CleanIp) returns (targets: seq<Target>, refusal: Option<Refusal>)
    ensures refusal.None? <==> raw.Items? && |raw.items| <= MAX_TARGETS && AllSound(clean, raw.items)
    ensures refusal.None? ==> targets == Deduped(clean, raw.items)
    ensures refusal.Some? ==> targets == []
    ensures refusal.Some? ==> SaysWhy(refusal.value, raw, clean)
  {
    hide KeyMatches, Deduped, KeysOf;
    if raw.NotAList? {
      return [], Some(ListExpected);
    }
    var items := raw.items;
    if |items| > MAX_TARGETS {
      return [], Some(TooMany(|items|));
    }
    var out: seq<Target> := [];
    var seen: set<Key> := {};
    var i := 0;
    NothingDeduped(clean, items);
    while i < |items|
      invariant 0 <= i <= |items|
      invariant AllSound(clean, items[..i])
      invariant out == Deduped(clean, items[..i])
      invariant seen == KeysOf(out)
    {
      var t := items[i];
      if t.NotAnObject? {
        return [], Some(BadItem(i, NoObject));
      }
      if t.key.NotText? || !KeyMatches(t.key.s) {
        return [], Some(BadItem(i, BadKey));
      }
      if t.ip.NotText? || clean(t.ip.s).None? {
        return [], Some(BadItem(i, BadIp));
      }
      if t.caption.NotText? {
        return [], Some(BadItem(i, BadCaption));
      }
      OneMoreDeduped(clean, items, i);
      if t.key.s !in seen {
        seen := seen + {t.key.s};
        out := out + [Cleaned(clean, t)];
      }
      i := i + 1;
    }
    assert items[..i] == items;
    return out, None;
  }

  lemma NothingDeduped(clean: CleanIp, items: seq<RawTarget>)
    ensures AllSound(clean, items[..0]) && Deduped(clean, items[..0]) == [] && KeysOf([]) == {}
  {
  }

  lemma OneMoreDeduped(clean: CleanIp, items: seq<RawTarget>, i: nat)
    requires i < |items| && AllSound(clean, items[..i]) && FaultOf(clean, items[i]).None?
    ensures AllSound(clean, items[..i + 1])
    ensures var before, t := Deduped(clean, items[..i]), Cleaned(clean, items[i]);
            && Deduped(clean, items[..i + 1]) == (if t.key in KeysOf(before) then before else before + [t])
            && KeysOf(before + [t]) == KeysOf(before) + {t.key}
  {
    assert items[..i + 1][..i] == items[..i];
  }

  function RawKey(r: RawTarget): Key {
    if r.Raw? && r.key.Text? then r.key.s else ""
  }

  ghost predicate Carried(items: seq<RawTarget>, k: Key) {
    exists i :: 0 <= i < |items| && RawKey(items[i]) == k
  }

  lemma CarriedLast(items: seq<RawTarget>, k: Key)
    requires items != []
    ensures Carried(items, k) <==> Carried(items[..|items| - 1], k) || RawKey(items[|items| - 1]) == k
  {
    var init := items[..|items| - 1];
    if Carried(init, k) {
      var i :| 0 <= i < |init| && RawKey(init[i]) == k;
      assert RawKey(items[i]) == k;
    }
    if Carried(items, k) {
      var i :| 0 <= i < |items| && RawKey(items[i]) == k;
      assert i < |init| ==> RawKey(init[i]) == k;
    }
  }

  lemma {:induction false} DedupedKeys(clean: CleanIp, items: seq<RawTarget>, k: Key)
    requires AllSound(clean, items)
    ensures k in KeysOf(Deduped(clean, items)) <==> Carried(items, k)
  {
    hide KeyMatches, Carried;
    if items == [] {
      assert !Carried(items, k) by { NothingCarried(k); }
    } else {
      var n := |items| - 1;
      DedupedKeys(clean, items[..n], k);
      CarriedLast(items, k);
      var before := Deduped(clean, items[..n]);
      var last := Cleaned(clean, items[n]);
      assert KeysOf(before + [last]) == KeysOf(before) + {last.key};
      assert last.key == RawKey(items[n]);
    }
  }

  lemma NothingCarried(k: Key)
    ensures !Carried([], k)
  {
  }

  /** `t` is the cleaned item `i`, the first one carrying its key. */
  ghost predicate FirstCarrier(clean: CleanIp, items: seq<RawTarget>, i: nat, t: Target)
    requires AllSound(clean, items)
  {
    i < |items| && t == Cleaned(clean, items[i]) && !Carried(items[..i], t.key)
  }

  /** What is accepted has distinct keys, the same set of keys as what was pushed, and for
    * each key the first item that carried it.
    */
  lemma {:induction false} DedupedIsFaithful(clean: CleanIp, items: seq<RawTarget>)
    requires AllSound(clean, items)
    ensures DistinctKeys(Deduped(clean, items)) && |Deduped(clean, items)| <= |items|
    ensures forall k :: k in KeysOf(Deduped(clean, items)) <==> Carried(items, k)
    ensures forall t :: t in Deduped(clean, items) ==> exists i: nat :: FirstCarrier(clean, items, i, t)
  {
    hide FaultOf, Cleaned, Carried, FirstCarrier;
    forall k
      ensures k in KeysOf(Deduped(clean, items)) <==> Carried(items, k)
    {
      DedupedKeys(clean, items, k);
    }
    if items != [] {
      DedupedIsFaithful(clean, items[..|items| - 1]);
    }
    forall t | t in Deduped(clean, items)
      ensures exists i: nat :: FirstCarrier(clean, items, i, t)
    {
      CarrierOf(clean, items, t);
    }
  }

  lemma {:induction false} CarrierOf(clean: CleanIp, items: seq<RawTarget>, t: Target)
    requires AllSound(clean, items) && t in Deduped(clean, items)
    ensures exists i: nat :: FirstCarrier(clean, items, i, t)
  {
    hide FaultOf, Cleaned, Carried;
    var n := |items| - 1;
    var init := items[..n];
    if t in Deduped(clean, init) {
      CarrierOf(clean, init, t);
      var i: nat :| FirstCarrier(clean, init, i, t);
      assert items[i] == init[i] && items[..i] == init[..i];
      assert FirstCarrier(clean, items, i, t);
    } else {
      DedupedKeys(clean, init, t.key);
      assert FirstCarrier(clean, items, n, t);
    }
  }

  /** How an accepted target reads back from the file it was stored in. */
  function AsStored(t: Target): RawTarget {
    Raw(Text(t.key), Text(t.ip), Text(t.caption), t.peer)
  }

  function AllStored(ts: seq<Target>): seq<RawTarget> {
    seq(|ts|, i requires 0 <= i < |ts| => AsStored(ts[i]))
  }

  ghost predicate Accepted(clean: CleanIp, t: Target) {
    FaultOf(clean, AsStored(t)).None? && Cleaned(clean, AsStored(t)) == t
  }

  lemma {:induction false} DistinctUnchanged(clean: CleanIp, ts: seq<Target>)
    requires DistinctKeys(ts) && forall t :: t in ts ==> Accepted(clean, t)
    ensures AllSound(clean, AllStored(ts)) && Deduped(clean, AllStored(ts)) == ts
  {
    forall i | 0 <= i < |ts|
      ensures FaultOf(clean, AllStored(ts)[i]).None?
    {
      assert ts[i] in ts;
    }
    if ts != [] {
      var init := ts[..|ts| - 1];
      DistinctUnchanged(clean, init);
      assert AllStored(ts)[..|ts| - 1] == AllStored(init);
      SplitLast(ts);
      assert ts[|ts| - 1] in ts;
    }
  }

  /** The list is re-validated on every read; once accepted, reading it back changes nothing
    * and refuses nothing, provided normalising a normalised address leaves it alone.
    */
  lemma RevalidationIsIdentity(clean: CleanIp, items: seq<RawTarget>)
    requires forall a, b :: clean(a) == Some(b) ==> clean(b) == Some(b)
    requires |items| <= MAX_TARGETS && AllSound(clean, items)
    ensures var ts := Deduped(clean, items);
            && |AllStored(ts)| <= MAX_TARGETS
            && AllSound(clean, AllStored(ts))
            && Deduped(clean, AllStored(ts)) == ts
  {
    DedupedIsFaithful(clean, items);
    DistinctUnchanged(clean, Deduped(clean, items));
  }

  /** The design asks for a strict key charset. The pattern grants it exactly to the keys that
    * do not end in a newline.
    */
  lemma KeyCharsetIff(s: string)
    requires KeyMatches(s)
    ensures StrictKey(s) <==> s[|s| - 1] != '\n'
  {
    if s[|s| - 1] == '\n' {
      assert !KeyChar(s[|s| - 1]);
    }
  }

  lemma NewlineKeyAccepted()
    ensures KeyMatches("core-sw1\n") && !StrictKey("core-sw1\n")
  {
    var s := "core-sw1\n";
    assert s[..8] == "core-sw1";
    assert !KeyChar(s[8]);
  }

  // --- storing the list -----------------------------------------------------------------

  datatype ListFile = ListFile(
    version: Option<string>,
    targets: seq<Target>,
    refused: Option<Refusal>,
    refusedVersion: Option<string>
  )

  /** The `watch` key of a check-in response. */
  datatype Push = Push(version: Option<string>, list: RawList)

  class TargetStore {
    var file: ListFile

    constructor ()
      ensures file == ListFile(None, [], None, None)
    {
      file := ListFile(None, [], None, None);
    }

    /** A refused list keeps the targets it had and records what was refused; an accepted one
      * replaces everything; a response without a list changes nothing.
      */
    method AcceptTargets(push: Option<Push>, clean: CleanIp)
      modifies this
      ensures push.None? ==> file == old(file)
      ensures push.Some? ==>
                var raw := push.value.list;
                if raw.Items? && |raw.items| <= MAX_TARGETS && AllSound(clean, raw.items) then
                  && file.targets == Deduped(clean, raw.items)
                  && file.version == push.value.version && file.refused.None?
                  && (file == old(file) || file.refusedVersion == None)
                else
                  && file.targets == old(file.targets) && file.version == old(file.version)
                  && file.refused.Some? && SaysWhy(file.refused.value, raw, clean)
                  && file.refusedVersion == push.value.version
    {
      if push.None? {
        return;
      }
      var version := push.value.version;
      var targets, refusal := ValidateTargets(push.value.list, clean);
      if version.Some? && file.version == version && file.refused.None? && refusal.None? && file.targets == targets {
        return;
      }
      if refusal.Some? {
        file := file.(refused := refusal, refusedVersion := version);
        return;
      }
      file := ListFile(version, targets, None, None);
    }
  }
}
