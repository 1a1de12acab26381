/** Whole DNS messages (collector/src/collector/discovery/mdns_ssdp.py, `_encode_query` and
  * `_decode_message`): the questions are skipped, the records walked.
  */
module DnsMessage {
  import opened Common
  import opened Bytes
  import opened DnsName

  const QTYPE_A: nat := 1
  const QTYPE_PTR: nat := 12
  const QTYPE_TXT: nat := 16
  const QTYPE_SRV: nat := 33

  datatype RData =
    | Ptr(target: Name)
    | Srv(host: Name, port: nat)
    | Txt(strings: seq<seq<Byte>>)
    | Addr(ip: seq<Byte>)
    | Bare

  datatype Record = Record(name: Name, rtype: nat, rdata: RData)

  function NameRead(data: seq<Byte>, pos: nat): Read {
    ReadFrom(data, pos, pos, false, MAX_STEPS)
  }

  function AfterQuestions(data: seq<Byte>, pos: nat, count: nat): nat
    decreases count
  {
    if count == 0 then pos else AfterQuestions(data, NameRead(data, pos).next + 4, count - 1)
  }

  /** The strings of a TXT record; the last one may run past the record, not past the buffer. */
  function StringsFrom(data: seq<Byte>, pos: nat, end: nat): seq<seq<Byte>>
    requires end <= |data|
    decreases end - pos
  {
    if pos >= end then []
    else
      var next := pos + 1 + (data[pos] as nat);
      [Slice(data, pos + 1, next)] + StringsFrom(data, next, end)
  }

  function RDataAt(data: seq<Byte>, rtype: nat, pos: nat, end: nat): RData
    requires pos <= end <= |data|
  {
    if rtype == QTYPE_PTR then Ptr(NameRead(data, pos).name)
    else if rtype == QTYPE_SRV then
      if end - pos >= 6 then Srv(NameRead(data, pos + 6).name, Be16(data, pos + 4)) else Bare
    else if rtype == QTYPE_TXT then Txt(StringsFrom(data, pos, end))
    else if rtype == QTYPE_A && end - pos == 4 then Addr(data[pos..end])
    else Bare
  }

  /** At most `count` records from `pos`; the walk ends early when one does not fit. */
  function RecordsFrom(data: seq<Byte>, pos: nat, count: nat): seq<Record>
    decreases count
  {
    if count == 0 then []
    else
      match RecordAt(data, pos)
      case None => []
      case Some(found) => [found.0] + RecordsFrom(data, found.1, count - 1)
  }

  function Decoded(data: seq<Byte>): seq<Record> {
    if |data| < 12 then []
    else RecordsFrom(data, AfterQuestions(data, 12, Be16(data, 4)), Be16(data, 6) + Be16(data, 8) + Be16(data, 10))
  }

  method TxtStrings(data: seq<Byte>, pos: nat, end: nat) returns (txt: seq<seq<Byte>>)
    requires end <= |data|
    ensures txt == StringsFrom(data, pos, end)
  {
    hide StringsFrom, Slice;
    txt := [];
    var tp: nat := pos;
    while tp < end
      invariant txt + StringsFrom(data, tp, end) == StringsFrom(data, pos, end)
      decreases end - tp
    {
      var ln: nat := data[tp];
      StringsUnfold(data, tp, end);
      Regroup(txt, Slice(data, tp + 1, tp + 1 + ln), StringsFrom(data, tp + 1 + ln, end));
      tp := tp + 1;
      txt := txt + [Slice(data, tp, tp + ln)];
      tp := tp + ln;
    }
    StringsEnd(data, tp, end);
  }

  method ReadRData(data: seq<Byte>, rtype: nat, pos: nat, end: nat) returns (rdata: RData)
    requires pos <= end <= |data|
    ensures rdata == RDataAt(data, rtype, pos, end)
  {
    if rtype == QTYPE_PTR {
      var target, _ := ReadName(data, pos);
      return Ptr(target);
    } else if rtype == QTYPE_SRV {
      if end - pos >= 6 {
        var port := Be16(data, pos + 4);
        var target, _ := ReadName(data, pos + 6);
        return Srv(target, port);
      }
    } else if rtype == QTYPE_TXT {
      var txt := TxtStrings(data, pos, end);
      return Txt(txt);
    } else if rtype == QTYPE_A && end - pos == 4 {
      return Addr(data[pos..pos + 4]);
    }
    return Bare;
  }

  method SkipQuestions(data: seq<Byte>, count: nat) returns (pos: nat)
    ensures pos == AfterQuestions(data, 12, count)
  {
    pos := 12;
    for n := 0 to count
      invariant AfterQuestions(data, pos, count - n) == AfterQuestions(data, 12, count)
    {
      var _, next := ReadName(data, pos);
      pos := next + 4;
    }
  }

  /** What one round of the walk finds at `pos`, or None when the record does not fit. */
  function RecordAt(data: seq<Byte>, pos: nat): Option<(Record, nat)> {
    var r := NameRead(data, pos);
    if r.next + 10 > |data| then None
    else
      var rtype, end := Be16(data, r.next), r.next + 10 + Be16(data, r.next + 8);
      if end > |data| then None
      else Some((Record(r.name, rtype, RDataAt(data, rtype, r.next + 10, end)), end))
  }

  method ReadRecord(data: seq<Byte>, pos: nat) returns (found: Option<(Record, nat)>)
    ensures found == RecordAt(data, pos)
  {
    hide RDataAt, ReadFrom;
    var name, next := ReadName(data, pos);
    if next + 10 > |data| {
      return None;
    }
    var rtype, rdlen := Be16(data, next), Be16(data, next + 8);
    var body := next + 10;
    var end := body + rdlen;
    if end > |data| {
      return None;
    }
    var rdata := ReadRData(data, rtype, body, end);
    return Some((Record(name, rtype, rdata), end));
  }

  method WalkRecords(data: seq<Byte>, pos0: nat, total: nat) returns (records: seq<Record>)
    ensures records == RecordsFrom(data, pos0, total)
  {
    hide RecordsFrom, RecordAt, Followed;
    records := [];
    var pos := pos0;
    FollowedBy([], RecordsFrom(data, pos, total));
    for n := 0 to total
      invariant Followed(records, RecordsFrom(data, pos, total - n)) == RecordsFrom(data, pos0, total)
    {
      RecordsUnfold(records, data, pos, total - n);
      var found := ReadRecord(data, pos);
      if found.None? {
        return;
      }
      records := records + [found.value.0];
      pos := found.value.1;
    }
    NoRecords(data, pos);
    FollowedBy(records, []);
  }

  /** The whole message. Nothing is read outside the buffer, whatever the bytes, so the
    * handler around the walk has nothing to catch.
    */
  method DecodeMessage(data: seq<Byte>) returns (records: seq<Record>)
    ensures records == Decoded(data)
  {
    if |data| < 12 {
      return [];
    }
    hide RecordsFrom, AfterQuestions;
    var pos := SkipQuestions(data, Be16(data, 4));
    records := WalkRecords(data, pos, Be16(data, 6) + Be16(data, 8) + Be16(data, 10));
  }

  function Followed(xs: seq<Record>, ys: seq<Record>): seq<Record> {
    xs + ys
  }

  lemma FollowedBy(xs: seq<Record>, ys: seq<Record>)
    ensures ys == [] ==> Followed(xs, ys) == xs
    ensures xs == [] ==> Followed(xs, ys) == ys
  {
  }

  lemma NoRecords(data: seq<Byte>, pos: nat)
    ensures RecordsFrom(data, pos, 0) == []
  {
  }

  /** One round of the record walk. */
  lemma RecordsUnfold(records: seq<Record>, data: seq<Byte>, pos: nat, count: nat)
    requires count > 0
    ensures var whole := Followed(records, RecordsFrom(data, pos, count));
            match RecordAt(data, pos)
            case None => whole == records
            case Some(found) => whole == Followed(records + [found.0], RecordsFrom(data, found.1, count - 1))
  {
    hide RDataAt, ReadFrom;
  }

  // --- queries ------------------------------------------------------------------------------

  ghost predicate Sendable(name: Name) {
    Plain(name) && |name| <= 127
  }

  function Question(name: Name, unicastResponse: bool): seq<Byte>
    requires Plain(name)
  {
    Encoded(name) + Word(QTYPE_PTR) + Word(if unicastResponse then 0x8001 else 0x0001)
  }

  function Questions(names: seq<Name>, unicastResponse: bool): seq<Byte>
    requires forall i :: 0 <= i < |names| ==> Sendable(names[i])
  {
    if names == [] then []
    else
      assert Sendable(names[0]);
      Question(names[0], unicastResponse) + Questions(names[1..], unicastResponse)
  }

  function Header(qd: nat, an: nat): seq<Byte>
    requires qd < 0x1_0000 && an < 0x1_0000
  {
    Word(0) + Word(0) + Word(qd) + Word(an) + Word(0) + Word(0)
  }

  function EncodedQuery(names: seq<Name>, unicastResponse: bool): seq<Byte>
    requires |names| < 0x1_0000 && forall i :: 0 <= i < |names| ==> Sendable(names[i])
  {
    Header(|names|, 0) + Questions(names, unicastResponse)
  }

  lemma QuestionRead(pre: seq<Byte>, name: Name, unicastResponse: bool, post: seq<Byte>)
    requires Sendable(name)
    ensures NameRead(pre + Question(name, unicastResponse) + post, |pre|).next + 4
            == |pre| + |Question(name, unicastResponse)|
  {
    hide ReadFrom, Encoded;
    var tail := Word(QTYPE_PTR) + Word(if unicastResponse then 0x8001 else 0x0001);
    assert Question(name, unicastResponse) == Encoded(name) + tail;
    Reassociate(pre, Encoded(name), tail, post);
    NameRoundTrip(pre, name, tail + post);
  }

  lemma {:induction false} QuestionsSkipped(pre: seq<Byte>, names: seq<Name>, unicastResponse: bool, post: seq<Byte>)
    requires forall i :: 0 <= i < |names| ==> Sendable(names[i])
    ensures AfterQuestions(pre + Questions(names, unicastResponse) + post, |pre|, |names|)
            == |pre| + |Questions(names, unicastResponse)|
    decreases |names|
  {
    hide NameRead, Question;
    if names != [] {
      assert Sendable(names[0]);
      var q := Question(names[0], unicastResponse);
      var rest := Questions(names[1..], unicastResponse);
      Reassociate(pre, q, rest, post);
      QuestionRead(pre, names[0], unicastResponse, rest + post);
      QuestionsSkipped(pre + q, names[1..], unicastResponse, post);
    }
  }

  lemma HeaderCounts(qd: nat, an: nat, rest: seq<Byte>)
    requires qd < 0x1_0000 && an < 0x1_0000
    ensures var data := Header(qd, an) + rest;
            |Header(qd, an)| == 12 && Be16(data, 4) == qd && Be16(data, 6) == an && Be16(data, 8) == 0 && Be16(data, 10) == 0
  {
    var h, data := Header(qd, an), Header(qd, an) + rest;
    assert data[4] == h[4] && data[5] == h[5] && data[6] == h[6] && data[7] == h[7];
  }

  /** A question is the name, the type for pointers and the Internet class, whose first bit asks for an answer
    * to the sender alone.
    */
  lemma QuestionAsks(name: Name, unicastResponse: bool)
    requires Plain(name)
    ensures Question(name, unicastResponse) == Encoded(name) + [0, 12, if unicastResponse then 0x80 else 0, 1]
  {
    hide Encoded;
  }

  /** The walk steps over exactly the questions a query encodes: it ends at the end of the
    * message, with no record.
    */
  lemma QueryIsSkipped(names: seq<Name>, unicastResponse: bool)
    requires |names| < 0x1_0000 && forall i :: 0 <= i < |names| ==> Sendable(names[i])
    ensures var data := EncodedQuery(names, unicastResponse);
            && data[..4] == [0, 0, 0, 0] && Be16(data, 4) == |names|
            && AfterQuestions(data, 12, Be16(data, 4)) == |data|
            && Decoded(data) == []
  {
    var data := EncodedQuery(names, unicastResponse);
    HeaderCounts(|names|, 0, Questions(names, unicastResponse));
    assert data == Header(|names|, 0) + Questions(names, unicastResponse) + [];
    QuestionsSkipped(Header(|names|, 0), names, unicastResponse, []);
  }

  // --- any layout ---------------------------------------------------------------------------

  /** A name stands at `pos`, compressed or not, and ends before `end` where it stands. */
  ghost predicate NameLaid(data: seq<Byte>, pos: nat, name: Name, end: nat) {
    exists need: nat :: need <= MAX_STEPS && NameAt(data, pos, name, need) && EndOf(data, pos, need) == end
  }

  lemma LaidNameReads(data: seq<Byte>, pos: nat, name: Name, end: nat)
    requires NameLaid(data, pos, name, end)
    ensures NameRead(data, pos) == Read(name, end)
  {
    var need: nat :| need <= MAX_STEPS && NameAt(data, pos, name, need) && EndOf(data, pos, need) == end;
    WellFormedNameReads(data, pos, name, need, pos, false, MAX_STEPS);
  }

  /** What the encoder writes is such a name, and so is a front of labels with a pointer behind it. */
  lemma EncodedNameLaid(pre: seq<Byte>, name: Name, post: seq<Byte>)
    requires Sendable(name)
    ensures NameLaid(pre + Encoded(name) + post, |pre|, name, |pre| + |Encoded(name)|)
  {
    hide Encoded, NameAt, EndOf;
    EncodedIsNameAt(pre, name, post);
    assert |name| + 1 <= MAX_STEPS;
  }

  lemma CompressedNameLaid(pre: seq<Byte>, front: Name, pointer: nat, post: seq<Byte>, rest: Name, need: nat)
    requires Plain(front) && pointer < 0x4000 && |front| + 1 + need <= MAX_STEPS
    requires NameAt(pre + Compressed(front, pointer) + post, pointer, rest, need)
    ensures NameLaid(pre + Compressed(front, pointer) + post, |pre|, front + rest, |pre| + |Compressed(front, pointer)|)
  {
    hide NameAt, EndOf;
    CompressedIsNameAt(pre, front, pointer, post, rest, need);
  }

  ghost predicate NameHere(data: seq<Byte>, pos: nat, name: Name) {
    exists end: nat :: NameLaid(data, pos, name, end)
  }

  lemma NameHereReads(data: seq<Byte>, pos: nat, name: Name)
    requires NameHere(data, pos, name)
    ensures NameRead(data, pos).name == name
  {
    var end: nat :| NameLaid(data, pos, name, end);
    LaidNameReads(data, pos, name, end);
  }

  /** `count` questions stand from `pos` to `end`, of any type and class. */
  ghost predicate QuestionsLaid(data: seq<Byte>, pos: nat, count: nat, end: nat)
    decreases count
  {
    if count == 0 then end == pos
    else exists name, at: nat :: NameLaid(data, pos, name, at) && QuestionsLaid(data, at + 4, count - 1, end)
  }

  lemma {:induction false} LaidQuestionsSkipped(data: seq<Byte>, pos: nat, count: nat, end: nat)
    requires QuestionsLaid(data, pos, count, end)
    ensures AfterQuestions(data, pos, count) == end
    decreases count
  {
    hide NameRead, NameLaid;
    if count > 0 {
      var name, at: nat :| NameLaid(data, pos, name, at) && QuestionsLaid(data, at + 4, count - 1, end);
      LaidNameReads(data, pos, name, at);
      LaidQuestionsSkipped(data, at + 4, count - 1, end);
    }
  }

  /** The length-prefixed strings that fill the buffer from `pos` to `end`. */
  ghost predicate StringsLaid(data: seq<Byte>, pos: nat, end: nat, ss: seq<seq<Byte>>)
    decreases |ss|
  {
    if ss == [] then pos == end <= |data|
    else
      var next := pos + 1 + |ss[0]|;
      pos < next <= end <= |data| && data[pos] == |ss[0]| && data[pos + 1..next] == ss[0]
      && StringsLaid(data, next, end, ss[1..])
  }

  lemma StringsUnfold(data: seq<Byte>, pos: nat, end: nat)
    requires pos < end <= |data|
    ensures StringsFrom(data, pos, end)
            == var next := pos + 1 + (data[pos] as nat); [Slice(data, pos + 1, next)] + StringsFrom(data, next, end)
  {
  }

  lemma StringsEnd(data: seq<Byte>, pos: nat, end: nat)
    requires end <= |data| && pos >= end
    ensures StringsFrom(data, pos, end) == []
  {
  }

  lemma {:induction false} LaidStringsRead(data: seq<Byte>, pos: nat, end: nat, ss: seq<seq<Byte>>)
    requires StringsLaid(data, pos, end, ss)
    ensures end <= |data| && StringsFrom(data, pos, end) == ss
    decreases |ss|
  {
    if ss != [] {
      var next := pos + 1 + |ss[0]|;
      LaidStringsRead(data, next, end, ss[1..]);
      StringsUnfold(data, pos, end);
      assert Slice(data, pos + 1, next) == data[pos + 1..next];
      assert [ss[0]] + ss[1..] == ss;
    }
  }

  /** The data of a record of type `rtype` stands from `pos` to `end`. */
  ghost predicate RDataLaid(data: seq<Byte>, rtype: nat, pos: nat, end: nat, r: RData) {
    pos <= end <= |data|
    && match r
       case Ptr(target) => rtype == QTYPE_PTR && NameHere(data, pos, target)
       case Srv(host, port) =>
         rtype == QTYPE_SRV && pos + 6 <= end && port == Be16(data, pos + 4) && NameHere(data, pos + 6, host)
       case Txt(strings) => rtype == QTYPE_TXT && StringsLaid(data, pos, end, strings)
       case Addr(ip) => rtype == QTYPE_A && end == pos + 4 && ip == data[pos..end]
       case Bare =>
         rtype != QTYPE_PTR && rtype != QTYPE_TXT && (rtype == QTYPE_SRV ==> end < pos + 6)
         && (rtype == QTYPE_A ==> end != pos + 4)
  }

  lemma LaidRDataReads(data: seq<Byte>, rtype: nat, pos: nat, end: nat, r: RData)
    requires RDataLaid(data, rtype, pos, end, r)
    ensures RDataAt(data, rtype, pos, end) == r
  {
    hide NameLaid, NameRead;
    match r
    case Ptr(target) => NameHereReads(data, pos, target);
    case Srv(host, port) => NameHereReads(data, pos + 6, host);
    case Txt(strings) => LaidStringsRead(data, pos, end, strings);
    case _ =>
  }

  /** A record stands from `pos` to `end`: its name, type, any class and time to live, and its data. */
  ghost predicate RecordLaid(data: seq<Byte>, pos: nat, r: Record, end: nat) {
    exists at: nat ::
      && NameLaid(data, pos, r.name, at) && at + 10 <= |data|
      && Be16(data, at) == r.rtype && end == at + 10 + Be16(data, at + 8)
      && RDataLaid(data, r.rtype, at + 10, end, r.rdata)
  }

  lemma LaidRecordDecodes(data: seq<Byte>, pos: nat, r: Record, end: nat)
    requires RecordLaid(data, pos, r, end)
    ensures RecordAt(data, pos) == Some((r, end))
  {
    hide NameLaid, NameRead, RDataAt;
    var at: nat :| NameLaid(data, pos, r.name, at) && at + 10 <= |data|
                   && Be16(data, at) == r.rtype && end == at + 10 + Be16(data, at + 8)
                   && RDataLaid(data, r.rtype, at + 10, end, r.rdata);
    LaidNameReads(data, pos, r.name, at);
    LaidRDataReads(data, r.rtype, at + 10, end, r.rdata);
  }

  ghost predicate RecordsLaid(data: seq<Byte>, pos: nat, rs: seq<Record>)
    decreases |rs|
  {
    rs == [] || exists end: nat :: RecordLaid(data, pos, rs[0], end) && RecordsLaid(data, end, rs[1..])
  }

  /** Every record of a message comes back, in order, with its name, its type and its data, whether
    * its names are compressed or not.
    */
  lemma {:induction false} LaidRecordsDecode(data: seq<Byte>, pos: nat, rs: seq<Record>)
    requires RecordsLaid(data, pos, rs)
    ensures RecordsFrom(data, pos, |rs|) == rs
    decreases |rs|
  {
    hide RecordAt, RecordLaid;
    if rs != [] {
      var end: nat :| RecordLaid(data, pos, rs[0], end) && RecordsLaid(data, end, rs[1..]);
      LaidRecordDecodes(data, pos, rs[0], end);
      LaidRecordsDecode(data, end, rs[1..]);
      assert [rs[0]] + rs[1..] == rs;
    }
  }

  /** A message with any questions, and any records in its answer, authority and additional sections,
    * decodes to exactly its records.
    */
  lemma MessageDecodes(data: seq<Byte>, mid: nat, rs: seq<Record>)
    requires |data| >= 12 && QuestionsLaid(data, 12, Be16(data, 4), mid)
    requires |rs| == Be16(data, 6) + Be16(data, 8) + Be16(data, 10) && RecordsLaid(data, mid, rs)
    ensures Decoded(data) == rs
  {
    LaidQuestionsSkipped(data, 12, Be16(data, 4), mid);
    LaidRecordsDecode(data, mid, rs);
  }
}
