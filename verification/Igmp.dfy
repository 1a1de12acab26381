/** IGMP frames (collector/src/collector/discovery/igmp.py, `parse_igmp` and
  * `_decode_time_code`), and the kernel filter that must let them through.
  */
module Igmp {
  import opened Common
  import opened Bytes
  import opened Bpf

  /** The floating code of section 4.1.1 of RFC 3376: literal below 128, then three bits of
    * exponent and four of mantissa.
    */
  function TimeCode(code: Byte): nat {
    if code < 128 then code else (code % 16 + 16) * Pow2(code / 16 % 8 + 3)
  }

  datatype Message =
    | Query(group: Option<seq<Byte>>, version: nat, maxRespMs: Option<nat>, qqiSec: Option<nat>, robustness: Option<nat>)
    | Report(version: nat, groups: seq<seq<Byte>>)
    | Leave(groups: seq<seq<Byte>>)

  datatype Heard = Heard(srcIp: seq<Byte>, srcMac: seq<Byte>, message: Message)

  /** Past the header, the sources and the auxiliary words of the record at `i`. */
  function NextRecord(s: seq<Byte>, i: nat): nat
    requires i + 8 <= |s|
  {
    i + 8 + 4 * Be16(s, i + 2) + 4 * (s[i + 1] as nat)
  }

  /** The group records from offset `i`, at most `count` of them, as far as they fit. */
  function GroupsFrom(s: seq<Byte>, i: nat, count: nat): seq<seq<Byte>>
    decreases count
  {
    if count == 0 || i + 8 > |s| then []
    else [s[i + 4..i + 8]] + GroupsFrom(s, NextRecord(s, i), count - 1)
  }

  method V3Groups(s: seq<Byte>, count: nat) returns (groups: seq<seq<Byte>>)
    ensures groups == GroupsFrom(s, 8, count)
  {
    groups := [];
    var i: nat := 8;
    for n := 0 to count
      invariant groups + GroupsFrom(s, i, count - n) == GroupsFrom(s, 8, count)
    {
      if i + 8 > |s| {
        return;
      }
      var auxLen: nat := s[i + 1];
      var sources := Be16(s, i + 2);
      Regroup(groups, s[i + 4..i + 8], GroupsFrom(s, NextRecord(s, i), count - n - 1));
      groups := groups + [s[i + 4..i + 8]];
      i := i + 8 + 4 * sources + 4 * auxLen;
    }
  }

  lemma Regroup(xs: seq<seq<Byte>>, y: seq<Byte>, zs: seq<seq<Byte>>)
    ensures xs + ([y] + zs) == (xs + [y]) + zs
  {
  }

  function ParseQuery(s: seq<Byte>): Message
    requires |s| >= 8
  {
    var group := if s[4..8] == [0, 0, 0, 0] then None else Some(s[4..8]);
    if |s| >= 12 then
      Query(group, 3, Some(TimeCode(s[1]) * 100), Some(TimeCode(s[9])), if s[8] % 8 == 0 then None else Some((s[8] % 8) as nat))
    else
      Query(group, if s[1] == 0 then 1 else 2, if s[1] == 0 then None else Some((s[1] as nat) * 100), None, None)
  }

  function ParseMessage(s: seq<Byte>): Option<Message>
    requires |s| >= 8
  {
    if s[0] == 0x11 then Some(ParseQuery(s))
    else if s[0] == 0x12 || s[0] == 0x16 then Some(Report(if s[0] == 0x12 then 1 else 2, [s[4..8]]))
    else if s[0] == 0x17 then Some(Leave([s[4..8]]))
    else if s[0] == 0x22 then Some(Report(3, GroupsFrom(s, 8, Be16(s, 6))))
    else None
  }

  function ParseIgmp(frame: seq<Byte>): Option<Heard> {
    if |frame| < 14 + 20 + 8 then None
    else if Be16(frame, 12) != 0x0800 then None
    else
      var ip := frame[14..];
      var ihl := ip[0] % 16 * 4;
      if ip[0] / 16 != 4 || ihl < 20 || ip[9] != 2 then None
      else
        var end := Min(Be16(ip, 2), |ip|);
        if end < ihl + 8 then None
        else
          var m := ParseMessage(ip[ihl..end]);
          if m.None? then None else Some(Heard(ip[12..16], frame[6..12], m.value))
  }

  /** Every frame the listener decodes passes the filter it attaches. */
  lemma DecodedFramesPassFilter(frame: seq<Byte>)
    requires ParseIgmp(frame).Some?
    ensures Exec(IGMP, frame, 0, 0, 0) == Answer(true)
  {
    hide Exec, ParseMessage;
    IgmpProgram(frame);
    assert frame[14..][9] == frame[23];
  }

  lemma ExponentStep(e: nat)
    requires e <= 7
    ensures Pow2(e + 1) == 2 * Pow2(e) && Pow2(3) == 8 && Pow2(e) > 0
  {
  }

  lemma TimeCodeStep(code: Byte)
    requires code < 255
    ensures TimeCode(code) < TimeCode(code + 1)
  {
    hide Pow2;
    ExponentStep(3);
    if code >= 128 {
      var e := code / 16 % 8;
      var p := Pow2(e + 3);
      PositivePow(e + 3);
      if code % 16 < 15 {
        assert (code + 1) / 16 == code / 16 && (code + 1) % 16 == code % 16 + 1;
        assert (code % 16 + 17) * p == (code % 16 + 16) * p + p;
      } else {
        assert (code + 1) % 16 == 0 && (code + 1) / 16 % 8 == e + 1;
        DoublePow(e + 3);
        assert TimeCode(code) == 31 * p && TimeCode(code + 1) == 16 * (2 * p);
      }
    } else if code == 127 {
      Pow3();
    }
  }

  lemma Pow3()
    ensures Pow2(3) == 8
  {
  }

  lemma DoublePow(n: nat)
    ensures Pow2(n + 1) == 2 * Pow2(n)
  {
  }

  lemma {:induction false} PositivePow(n: nat)
    ensures Pow2(n) > 0
  {
    if n > 0 {
      PositivePow(n - 1);
    }
  }

  /** The code orders times as bytes are ordered, with no two codes alike, and stays literal
    * below 128.
    */
  lemma {:induction false} TimeCodeIncreases(a: Byte, b: Byte)
    requires a < b
    ensures TimeCode(a) < TimeCode(b)
    decreases b - a
  {
    hide TimeCode;
    TimeCodeStep(b - 1);
    if a < b - 1 {
      TimeCodeIncreases(a, b - 1);
    }
  }

  // --- version 3 reports ------------------------------------------------------------------

  datatype Record = Record(kind: Byte, group: seq<Byte>, sources: nat, sourceBytes: seq<Byte>, aux: seq<Byte>, auxWords: Byte)

  predicate SoundRecord(r: Record) {
    |r.group| == 4 && r.sources < 0x1_0000 && |r.sourceBytes| == 4 * r.sources && |r.aux| == 4 * r.auxWords
  }

  /** A record as section 4.2.4 of RFC 3376 lays it out. */
  function OneRecord(r: Record): seq<Byte>
    requires SoundRecord(r)
  {
    [r.kind, r.auxWords] + Word(r.sources) + r.group + r.sourceBytes + r.aux
  }

  function EncodedRecords(rs: seq<Record>): seq<Byte>
    requires forall i :: 0 <= i < |rs| ==> SoundRecord(rs[i])
  {
    if rs == [] then []
    else
      assert SoundRecord(rs[0]);
      OneRecord(rs[0]) + EncodedRecords(rs[1..])
  }

  function GroupsOf(rs: seq<Record>): seq<seq<Byte>> {
    if rs == [] then [] else [rs[0].group] + GroupsOf(rs[1..])
  }

  lemma SubSlice(s: seq<Byte>, i: nat, n: nat, a: nat, b: nat)
    requires i + n <= |s| && a <= b <= n
    ensures s[i..i + n][a..b] == s[i + a..i + b]
  {
    var x, y := s[i..i + n][a..b], s[i + a..i + b];
    assert |x| == |y| && forall k :: 0 <= k < |x| ==> x[k] == y[k];
  }

  lemma RecordFields(r: Record, s: seq<Byte>, i: nat)
    requires SoundRecord(r) && i + |OneRecord(r)| <= |s| && s[i..i + |OneRecord(r)|] == OneRecord(r)
    ensures i + 8 <= |s| && s[i + 4..i + 8] == r.group && NextRecord(s, i) == i + |OneRecord(r)|
  {
    var one := OneRecord(r);
    var w := Word(r.sources);
    assert one == [r.kind, r.auxWords] + w + (r.group + (r.sourceBytes + r.aux));
    assert one[1] == r.auxWords && one[2] == w[0] && one[3] == w[1];
    assert one[4..8] == (r.group + (r.sourceBytes + r.aux))[..4] == r.group;
    assert s[i + 1] == one[1] && s[i + 2] == one[2] && s[i + 3] == one[3];
    SubSlice(s, i, |one|, 4, 8);
    assert s[i + 4..i + 8] == one[4..8];
    assert Be16(s, i + 2) == Be16(w, 0) == r.sources;
    assert |one| == 8 + 4 * r.sources + 4 * (r.auxWords as nat);
  }

  /** The walk steps over sources and auxiliary data and finds the group of every record. */
  lemma {:induction false} RecordsRoundTrip(pre: seq<Byte>, rs: seq<Record>)
    requires forall i :: 0 <= i < |rs| ==> SoundRecord(rs[i])
    ensures GroupsFrom(pre + EncodedRecords(rs), |pre|, |rs|) == GroupsOf(rs)
    decreases |rs|
  {
    hide OneRecord, NextRecord;
    if rs != [] {
      assert SoundRecord(rs[0]);
      var one := OneRecord(rs[0]);
      var s := pre + EncodedRecords(rs);
      assert s == pre + one + EncodedRecords(rs[1..]);
      assert s[|pre|..|pre| + |one|] == one;
      RecordFields(rs[0], s, |pre|);
      RecordsRoundTrip(pre + one, rs[1..]);
    }
  }

  // --- what is heard ---------------------------------------------------------------------------

  /** The exponent form: `e` and `m` are the two parts of the code, whose first bit is set. */
  lemma TimeCodeIs(e: nat, m: nat, literal: Byte)
    requires e < 8 && m < 16 && literal < 128
    ensures TimeCode(literal) == literal
    ensures TimeCode(128 + 16 * e + m) == (16 + m) * 8 * Pow2(e)
  {
    hide Pow2;
    var code: Byte := 128 + 16 * e + m;
    assert code / 16 % 8 == e && code % 16 == m;
    Eightfold(e);
    assert (m + 16) * (8 * Pow2(e)) == (16 + m) * 8 * Pow2(e);
  }

  lemma Eightfold(e: nat)
    ensures Pow2(e + 3) == 8 * Pow2(e)
  {
    DoublePow(e);
    DoublePow(e + 1);
    DoublePow(e + 2);
  }

  /** The IGMP messages of sections 2 of RFC 2236 and 4 of RFC 3376, as their senders mean them. Times of
    * versions 1 and 2 are tenths of a second. Up to three bytes more do not make a query one of version 3.
    */
  datatype Sent =
    | QueryV1(group: seq<Byte>, extra: seq<Byte>)
    | QueryV2(tenths: Byte, group: seq<Byte>, extra: seq<Byte>)
    | QueryV3(time: Byte, group: seq<Byte>, flags: Byte, robustness: Byte, interval: Byte, sources: nat, sourceBytes: seq<Byte>)
    | ReportV1(group: seq<Byte>)
    | ReportV2(group: seq<Byte>)
    | LeaveV2(group: seq<Byte>)
    | ReportV3(records: seq<Record>)

  /** A well-formed message; an all-zero group in a query asks for every group. */
  ghost predicate Proper(m: Sent) {
    match m
    case QueryV1(group, extra) => |group| == 4 && |extra| <= 3
    case QueryV2(tenths, group, extra) => tenths > 0 && |group| == 4 && |extra| <= 3
    case QueryV3(_, group, flags, robustness, _, sources, sourceBytes) =>
      |group| == 4 && flags % 8 == 0 && robustness < 8 && sources < 0x1_0000 && |sourceBytes| == 4 * sources
    case ReportV3(records) => |records| < 0x1_0000 && forall i :: 0 <= i < |records| ==> SoundRecord(records[i])
    case _ => |m.group| == 4
  }

  /** The message as bytes, with any checksum. */
  function OnWire(m: Sent, sum: nat): seq<Byte>
    requires Proper(m) && sum < 0x1_0000
  {
    match m
    case QueryV1(group, extra) => [0x11, 0] + Word(sum) + group + extra
    case QueryV2(tenths, group, extra) => [0x11, tenths] + Word(sum) + group + extra
    case QueryV3(time, group, flags, robustness, interval, sources, sourceBytes) =>
      [0x11, time] + Word(sum) + group + [flags + robustness, interval] + Word(sources) + sourceBytes
    case ReportV1(group) => [0x12, 0] + Word(sum) + group
    case ReportV2(group) => [0x16, 0] + Word(sum) + group
    case LeaveV2(group) => [0x17, 0] + Word(sum) + group
    case ReportV3(records) => [0x22, 0] + Word(sum) + Word(0) + Word(|records|) + EncodedRecords(records)
  }

  function GroupAsked(group: seq<Byte>): Option<seq<Byte>> {
    if forall i :: 0 <= i < |group| ==> group[i] == 0 then None else Some(group)
  }

  /** What the listener is to make of it: only version 1 has no response time, only version 3 an interval,
    * and a robustness of zero says nothing.
    */
  function Meant(m: Sent): Message {
    match m
    case QueryV1(group, _) => Query(GroupAsked(group), 1, None, None, None)
    case QueryV2(tenths, group, _) => Query(GroupAsked(group), 2, Some(tenths * 100), None, None)
    case QueryV3(time, group, _, robustness, interval, _, _) =>
      Query(GroupAsked(group), 3, Some(TimeCode(time) * 100), Some(TimeCode(interval)),
            if robustness == 0 then None else Some(robustness))
    case ReportV1(group) => Report(1, [group])
    case ReportV2(group) => Report(2, [group])
    case LeaveV2(group) => Leave([group])
    case ReportV3(records) => Report(3, GroupsOf(records))
  }

  lemma AskedGroup(group: seq<Byte>)
    requires |group| == 4
    ensures GroupAsked(group) == if group == [0, 0, 0, 0] then None else Some(group)
  {
    if GroupAsked(group).None? {
      assert group == [0, 0, 0, 0];
    }
  }

  lemma MessageRead(m: Sent, sum: nat)
    requires Proper(m) && sum < 0x1_0000
    ensures |OnWire(m, sum)| >= 8 && ParseMessage(OnWire(m, sum)) == Some(Meant(m))
  {
    hide TimeCode, GroupsFrom, EncodedRecords, GroupAsked;
    var s, w := OnWire(m, sum), Word(sum);
    match m
    case QueryV3(time, group, flags, robustness, interval, sources, sourceBytes) =>
      AskedGroup(group);
      assert s[4..8] == group && s[1] == time && s[8] == flags + robustness && s[9] == interval;
      assert (flags + robustness) % 8 == robustness;
    case ReportV3(records) =>
      var head := [0x22, 0] + w + Word(0) + Word(|records|);
      assert s[6] == Word(|records|)[0] && s[7] == Word(|records|)[1];
      RecordsRoundTrip(head, records);
    case _ =>
      AskedGroup(m.group);
      assert s[4..8] == m.group;
  }

  /** An IPv4 packet of protocol 2 whose header, of `words` 32-bit words, is followed by at least eight bytes
    * within its length.
    */
  ghost predicate IgmpHeader(frame: seq<Byte>, words: nat) {
    && 5 <= words <= 15 && |frame| >= 42 && Be16(frame, 12) == 0x0800 && frame[14] == 64 + words && frame[23] == 2
    && 4 * words + 8 <= MessageEnd(frame)
  }

  /** Padding behind the packet's own length is not part of it. */
  function MessageEnd(frame: seq<Byte>): int
    requires |frame| >= 42
  {
    Min(Be16(frame, 16), |frame| - 14)
  }

  function MessageIn(frame: seq<Byte>, words: nat): seq<Byte>
    requires IgmpHeader(frame, words)
  {
    frame[14 + 4 * words..14 + MessageEnd(frame)]
  }

  lemma MessageFound(frame: seq<Byte>, words: nat)
    requires IgmpHeader(frame, words)
    ensures var s := MessageIn(frame, words);
            && |s| >= 8
            && ParseIgmp(frame) == match ParseMessage(s) case None => None
                                                         case Some(m) => Some(Heard(frame[26..30], frame[6..12], m))
  {
    hide ParseMessage;
    var ip := frame[14..];
    assert ip[0] == frame[14] && ip[9] == frame[23] && Be16(ip, 2) == Be16(frame, 16);
    assert ip[4 * words..MessageEnd(frame)] == MessageIn(frame, words);
    assert ip[12..16] == frame[26..30];
  }

  lemma HeardHasHeader(frame: seq<Byte>)
    requires ParseIgmp(frame).Some?
    ensures exists words: nat :: IgmpHeader(frame, words)
  {
    hide ParseMessage;
    var ip := frame[14..];
    assert ip[0] == frame[14] && ip[9] == frame[23] && Be16(ip, 2) == Be16(frame, 16);
    assert IgmpHeader(frame, frame[14] % 16);
  }

  /** Over all frames: something is heard if and only if there is such a header and the message is of one of
    * the five types.
    */
  lemma HeardIff(frame: seq<Byte>)
    ensures ParseIgmp(frame).Some?
            <==> exists words: nat :: IgmpHeader(frame, words) && MessageIn(frame, words) != []
                                      && MessageIn(frame, words)[0] in {0x11, 0x12, 0x16, 0x17, 0x22}
  {
    hide ParseIgmp;
    if ParseIgmp(frame).Some? {
      HeardHasHeader(frame);
      var words: nat :| IgmpHeader(frame, words);
      MessageFound(frame, words);
      assert MessageIn(frame, words)[0] in {0x11, 0x12, 0x16, 0x17, 0x22};
    }
    if words: nat :| IgmpHeader(frame, words) && MessageIn(frame, words) != []
                     && MessageIn(frame, words)[0] in {0x11, 0x12, 0x16, 0x17, 0x22} {
      MessageFound(frame, words);
    }
  }

  /** And any message, behind a header of any length and before any padding, is heard as it was meant, from
    * the addresses in the frame.
    */
  lemma SentIsHeard(frame: seq<Byte>, words: nat, m: Sent, sum: nat)
    requires IgmpHeader(frame, words) && Proper(m) && sum < 0x1_0000
    requires MessageIn(frame, words) == OnWire(m, sum)
    ensures ParseIgmp(frame) == Some(Heard(frame[26..30], frame[6..12], Meant(m)))
  {
    MessageFound(frame, words);
    MessageRead(m, sum);
    hide ParseIgmp, ParseMessage, OnWire, Meant;
  }
}
