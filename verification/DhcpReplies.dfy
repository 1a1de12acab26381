/** What a DHCP reply says (collector/src/collector/discovery/dhcp_probe.py, `parse_reply`): which frames
  * are replies to a transaction, and every field of one, told by where it stands in the frame.
  */
module DhcpReplies {
  import opened Common
  import opened Bytes
  import opened DhcpProbe
  import opened DhcpOptions

  /** Where the BOOTP part starts behind an IPv4 header of `words` 32-bit words and the UDP header. */
  function BootpAt(words: nat): nat {
    14 + 4 * words + 8
  }

  /** An IPv4 packet over UDP from port 67 to 68 with a BOOTREPLY to the transaction. */
  ghost predicate ReplyHeader(frame: seq<Byte>, xid: nat, words: nat) {
    && 5 <= words <= 15
    && var b := BootpAt(words);
       && |frame| >= b + 240
       && Be16(frame, 12) == 0x0800 && frame[14] == 64 + words && frame[23] == 17
       && Be16(frame, b - 8) == 67 && Be16(frame, b - 6) == 68
       && frame[b] == 2 && Be32(frame, b + 4) == xid
       && frame[b + 236..b + 240] == [0x63, 0x82, 0x53, 0x63]
  }

  function OptionsOf(frame: seq<Byte>, words: nat): Options
    requires |frame| >= BootpAt(words) + 240
  {
    OptionsFrom(frame[BootpAt(words) + 240..], 0, map[])
  }

  function ValueOf(opts: Options, code: nat): Option<seq<Byte>> {
    if code in opts then Some(opts[code]) else None
  }

  /** The message type: the first byte of option 53. */
  predicate OfType(opts: Options, t: Byte) {
    ValueOf(opts, 53).Some? && opts[53] != [] && opts[53][0] == t
  }

  predicate AllZero(a: seq<Byte>) {
    forall i :: 0 <= i < |a| ==> a[i] == 0
  }

  function FourBytes(v: Option<seq<Byte>>): Option<seq<Byte>> {
    if v.Some? && |v.value| == 4 then v else None
  }

  function Joined(list: seq<seq<Byte>>): seq<Byte> {
    if list == [] then [] else list[0] + Joined(list[1..])
  }

  /** The four-byte groups of the value, in order; fewer than four bytes are left over. */
  ghost predicate Groups(list: seq<seq<Byte>>, v: Option<seq<Byte>>) {
    && (forall i :: 0 <= i < |list| ==> |list[i]| == 4)
    && (if v.None? then list == [] else exists over :: GroupedWith(list, v.value, over))
  }

  ghost predicate GroupedWith(list: seq<seq<Byte>>, value: seq<Byte>, over: seq<Byte>) {
    |over| < 4 && value == Joined(list) + over
  }

  /** The value without the zero bytes around it; an empty value says nothing. */
  ghost predicate TextOf(t: Option<seq<Byte>>, v: Option<seq<Byte>>) {
    && (t.None? <==> v.None? || v.value == [])
    && (t.Some? ==> exists a: nat, z: nat :: TrimmedBy(t.value, v.value, a, z))
  }

  ghost predicate TrimmedBy(t: seq<Byte>, value: seq<Byte>, a: nat, z: nat) {
    && value == Repeat(0, a) + t + Repeat(0, z)
    && (t != [] ==> t[0] != 0 && t[|t| - 1] != 0)
  }

  /** The lease time is the big-endian number in four bytes. */
  predicate LeaseOf(n: Option<nat>, v: Option<seq<Byte>>) {
    && (n.Some? <==> FourBytes(v).Some?)
    && (n.Some? ==> n.value < 0x1_0000_0000 && v == Some(Long(n.value)))
  }

  /** Every field of the reply, by where it stands in the frame or which option it comes from. */
  ghost predicate Says(r: Reply, frame: seq<Byte>, words: nat, opts: Options)
    requires |frame| >= BootpAt(words) + 240
  {
    var b := BootpAt(words);
    && (r.kind == Offer <==> OfType(opts, 2)) && (r.kind == Ack <==> OfType(opts, 5)) && (r.kind == Nak <==> OfType(opts, 6))
    && r.srcMac == frame[6..12] && r.srcIp == frame[26..30]
    && r.offeredIp == (if AllZero(frame[b + 16..b + 20]) then None else Some(frame[b + 16..b + 20]))
    && r.relayIp == (if AllZero(frame[b + 24..b + 28]) then None else Some(frame[b + 24..b + 28]))
    && r.serverId == FourBytes(ValueOf(opts, 54)) && r.subnetMask == FourBytes(ValueOf(opts, 1))
    && Groups(r.routers, ValueOf(opts, 3)) && Groups(r.dnsServers, ValueOf(opts, 6))
    && LeaseOf(r.leaseSec, ValueOf(opts, 51))
    && TextOf(r.domain, ValueOf(opts, 15)) && TextOf(r.vendorClass, ValueOf(opts, 60))
  }

  lemma {:induction false} GroupsRead(value: seq<Byte>)
    ensures Groups(AddressList(value), Some(value))
    decreases |value|
  {
    var list := AddressList(value);
    if |value| < 4 {
      assert GroupedWith(list, value, value);
    } else {
      GroupsRead(value[4..]);
      var over :| GroupedWith(AddressList(value[4..]), value[4..], over);
      assert list[1..] == AddressList(value[4..]);
      assert value == value[..4] + value[4..];
      assert GroupedWith(list, value, over);
    }
  }

  lemma {:induction false} StrippedLeft(s: seq<Byte>) returns (a: nat)
    ensures s == Repeat(0, a) + StripLeft(s) && (StripLeft(s) != [] ==> StripLeft(s)[0] != 0)
    decreases |s|
  {
    if s != [] && s[0] == 0 {
      var n := StrippedLeft(s[1..]);
      a := n + 1;
      assert Repeat(0, a) == [0] + Repeat(0, n);
    } else {
      a := 0;
    }
  }

  lemma {:induction false} StrippedRight(s: seq<Byte>) returns (z: nat)
    ensures s == StripRight(s) + Repeat(0, z) && (StripRight(s) != [] ==> StripRight(s)[|StripRight(s)| - 1] != 0)
    decreases |s|
  {
    if s != [] && s[|s| - 1] == 0 {
      var n := StrippedRight(s[..|s| - 1]);
      z := n + 1;
      assert Repeat(0, z) == Repeat(0, n) + [0];
      assert s == s[..|s| - 1] + [0];
    } else {
      z := 0;
    }
  }

  lemma TextRead(opts: Options, code: nat)
    ensures TextOf(TextOption(opts, code), ValueOf(opts, code))
  {
    if code in opts && opts[code] != [] {
      var v := opts[code];
      var a := StrippedLeft(v);
      var z := StrippedRight(StripLeft(v));
      var t := StripRight(StripLeft(v));
      assert StripLeft(v) == t + Repeat(0, z);
      assert v == Repeat(0, a) + t + Repeat(0, z);
      assert t != [] ==> t[0] == StripLeft(v)[0];
      assert TrimmedBy(t, v, a, z);
    }
  }

  lemma LeaseRead(v: Option<seq<Byte>>)
    ensures FourBytes(v).Some? ==> |FourBytes(v).value| == 4
    ensures LeaseOf(if FourBytes(v).Some? then Some(Be32(FourBytes(v).value, 0)) else None, v)
  {
    if FourBytes(v).Some? {
      var n := Be32(v.value, 0);
      assert n / 0x1_0000 == Be16(v.value, 0) && n % 0x1_0000 == Be16(v.value, 2);
      assert v.value == Long(n);
    }
  }

  /** The header checks of the parser, made on nested slices, are those on the whole frame. */
  lemma HeaderRead(frame: seq<Byte>, xid: nat, words: nat)
    requires ReplyHeader(frame, xid, words)
    ensures var ip := frame[14..];
            var udp := ip[4 * words..];
            var bootp := udp[8..];
            var b := BootpAt(words);
            && |frame| >= 282 && ip[0] / 16 == 4 && ip[0] % 16 == words && ip[9] == 17
            && Be16(udp, 0) == 67 && Be16(udp, 2) == 68
            && |bootp| >= 240 && bootp[0] == 2 && Be32(bootp, 4) == xid && bootp[236..240] == MAGIC_COOKIE
            && bootp[240..] == frame[b + 240..] && ip[12..16] == frame[26..30]
            && bootp[16..20] == frame[b + 16..b + 20] && bootp[24..28] == frame[b + 24..b + 28]
  {
    var b := BootpAt(words);
    assert frame[14..][4 * words..][8..] == frame[b..];
    assert frame[14..][4 * words..] == frame[b - 8..];
    assert frame[b..][236..240] == frame[b + 236..b + 240];
  }

  /** What the parser accepts has such a header. */
  lemma AcceptedHasHeader(frame: seq<Byte>, xid: nat)
    requires ParseReply(frame, xid).Some?
    ensures exists words: nat :: ReplyHeader(frame, xid, words)
  {
    hide OptionsFrom, MessageKind;
    var words: nat := frame[14] % 16;
    var b := BootpAt(words);
    var ip := frame[14..];
    var udp := ip[4 * words..];
    var bootp := udp[8..];
    assert udp == frame[b - 8..] && bootp == frame[b..];
    assert frame[b..][236..240] == frame[b + 236..b + 240];
    assert ReplyHeader(frame, xid, words);
  }

  /** Over all frames: one is a reply to the transaction if and only if it has such a header and names a
    * message type of 2, 5 or 6; and then every field is what stands in its place.
    */
  lemma ReplyReads(frame: seq<Byte>, xid: nat)
    ensures var reply := ParseReply(frame, xid);
            && (reply.Some? ==> exists words: nat :: ReplyHeader(frame, xid, words))
            && forall words: nat :: ReplyHeader(frame, xid, words) ==>
                 var opts := OptionsOf(frame, words);
                 && (reply.Some? <==> OfType(opts, 2) || OfType(opts, 5) || OfType(opts, 6))
                 && (reply.Some? ==> Says(reply.value, frame, words, opts))
  {
    hide Says, ReplyOf, ParseReply;
    if ParseReply(frame, xid).Some? {
      AcceptedHasHeader(frame, xid);
    }
    forall words: nat | ReplyHeader(frame, xid, words)
      ensures var reply, opts := ParseReply(frame, xid), OptionsOf(frame, words);
              && (reply.Some? <==> OfType(opts, 2) || OfType(opts, 5) || OfType(opts, 6))
              && (reply.Some? ==> Says(reply.value, frame, words, opts))
    {
      PutTogether(frame, xid, words);
      var kind := MessageKind(OptionsOf(frame, words));
      if kind.Some? {
        ReplySays(frame, words, OptionsOf(frame, words), kind.value);
      }
    }
  }

  /** The reply as the parser puts it together. */
  function ReplyOf(frame: seq<Byte>, words: nat, opts: Options, kind: Kind): Reply
    requires |frame| >= BootpAt(words) + 240
  {
    var b := BootpAt(words);
    var lease := Address(opts, 51);
    Reply(kind, Address(opts, 54), frame[26..30], frame[6..12], NonZero(frame[b + 24..b + 28]),
          NonZero(frame[b + 16..b + 20]), Address(opts, 1), Addresses(opts, 3), Addresses(opts, 6),
          if lease.Some? then Some(Be32(lease.value, 0)) else None, TextOption(opts, 15), TextOption(opts, 60))
  }

  lemma PutTogether(frame: seq<Byte>, xid: nat, words: nat)
    requires ReplyHeader(frame, xid, words)
    ensures var opts := OptionsOf(frame, words);
            ParseReply(frame, xid) == match MessageKind(opts)
                                      case None => None
                                      case Some(k) => Some(ReplyOf(frame, words, opts, k))
  {
    HeaderRead(frame, xid, words);
    assert |frame| >= 282 && Be16(frame, 12) == ETH_P_IP;
    hide OptionsFrom, TextOption, Addresses, Address, MessageKind, NonZero, ReplyHeader, Be16, Be32;
    var ip := frame[14..];
    assert ip[0] % 16 * 4 == 4 * words;
  }

  lemma ReplySays(frame: seq<Byte>, words: nat, opts: Options, kind: Kind)
    requires |frame| >= BootpAt(words) + 240 && MessageKind(opts) == Some(kind)
    ensures Says(ReplyOf(frame, words, opts, kind), frame, words, opts)
  {
    hide TextOption, Addresses, Address, Groups, TextOf, NonZero, AllZero, Long, FourBytes, LeaseOf, OfType, MessageKind;
    var b := BootpAt(words);
    KindRead(opts, kind);
    TextRead(opts, 15);
    TextRead(opts, 60);
    AddressesRead(opts, 3);
    AddressesRead(opts, 6);
    AddressRead(opts, 54);
    AddressRead(opts, 1);
    AddressRead(opts, 51);
    LeaseRead(ValueOf(opts, 51));
    ZeroAddress(frame[b + 16..b + 20]);
    ZeroAddress(frame[b + 24..b + 28]);
  }

  lemma KindRead(opts: Options, kind: Kind)
    requires MessageKind(opts) == Some(kind)
    ensures (kind == Offer <==> OfType(opts, 2)) && (kind == Ack <==> OfType(opts, 5)) && (kind == Nak <==> OfType(opts, 6))
  {
  }

  lemma AddressesRead(opts: Options, code: nat)
    ensures Groups(Addresses(opts, code), ValueOf(opts, code))
  {
    if code in opts {
      GroupsRead(opts[code]);
    }
  }

  lemma AddressRead(opts: Options, code: nat)
    ensures Address(opts, code) == FourBytes(ValueOf(opts, code))
  {
  }

  lemma ZeroAddress(a: seq<Byte>)
    requires |a| == 4
    ensures NonZero(a) == if AllZero(a) then None else Some(a)
  {
    if AllZero(a) {
      assert a == [0, 0, 0, 0];
    }
  }

  // --- options as a server encodes them ------------------------------------------------------

  /** The value of the first option with this code. */
  function FirstValue(os: seq<Opt>, code: nat): Option<seq<Byte>> {
    if os == [] then None else if os[0].code == code then Some(os[0].value) else FirstValue(os[1..], code)
  }

  lemma {:induction false} FirstWinsIs(os: seq<Opt>, acc: Options, code: nat)
    ensures ValueOf(FirstWins(os, acc), code) == if code in acc then Some(acc[code]) else FirstValue(os, code)
    decreases |os|
  {
    if os != [] {
      FirstWinsIs(os[1..], SetDefault(acc, os[0].code, os[0].value), code);
    }
  }

  /** A reply laid out by a server, with an IPv4 header of any length, any pads before its options and
    * anything behind the end mark, reads back: each option that is present in its field, by the first
    * value it was given, and the field of each absent one empty.
    */
  lemma LaidReplyReads(frame: seq<Byte>, xid: nat, words: nat, os: seq<Opt>, pads: nat, junk: seq<Byte>)
    requires ReplyHeader(frame, xid, words) && AllSendable(os)
    requires frame[BootpAt(words) + 240..] == Encoded(os, pads) + [255] + junk
    ensures var opts := OptionsOf(frame, words);
            && (forall code: nat :: ValueOf(opts, code) == FirstValue(os, code))
            && (ParseReply(frame, xid).Some? <==> OfType(opts, 2) || OfType(opts, 5) || OfType(opts, 6))
            && (ParseReply(frame, xid).Some? ==> Says(ParseReply(frame, xid).value, frame, words, opts))
  {
    assert frame[BootpAt(words) + 240..] == [] + Encoded(os, pads) + [255] + junk;
    hide ReplyHeader, Says, OfType;
    OptionsRoundTrip([], os, pads, junk, map[]);
    forall code: nat
      ensures ValueOf(FirstWins(os, map[]), code) == FirstValue(os, code)
    {
      FirstWinsIs(os, map[], code);
    }
    ReplyReads(frame, xid);
  }

  // --- the probe's own frame -----------------------------------------------------------------

  /** An IPv4 packet over UDP from port 68 to 67 with a BOOTREQUEST of the transaction. */
  ghost predicate EchoHeader(frame: seq<Byte>, xid: nat, words: nat) {
    && 5 <= words <= 15
    && var b := BootpAt(words);
       && |frame| >= b + 240
       && Be16(frame, 12) == 0x0800 && frame[14] == 64 + words && frame[23] == 17
       && Be16(frame, b - 8) == 68 && Be16(frame, b - 6) == 67
       && frame[b] == 1 && Be32(frame, b + 4) == xid
  }

  /** Over all frames: the probe takes for its own echo exactly those. */
  lemma EchoIff(frame: seq<Byte>, xid: nat)
    ensures IsOwnDiscover(frame, xid) <==> exists words: nat :: EchoHeader(frame, xid, words)
  {
    if |frame| >= 282 {
      var words: nat := frame[14] % 16;
      if 14 + 4 * words + 8 <= |frame| {
        var b := BootpAt(words);
        assert frame[14..][4 * words..] == frame[b - 8..];
        assert IsOwnDiscover(frame, xid) <==> EchoHeader(frame, xid, words);
      }
      assert forall w: nat :: EchoHeader(frame, xid, w) ==> w == words;
    }
  }

  /** What the DISCOVER says, behind its headers: broadcast to everyone from an unnamed sender, asking for
    * a broadcast answer, with every other address and name field zero, a message type of 1, the six
    * parameters asked for, and room for 1500 bytes.
    */
  lemma DiscoverSays(mac: seq<Byte>, xid: nat, ident: nat)
    requires |mac| == 6 && xid < 0x1_0000_0000 && ident < 0x1_0000
    ensures var f := BuildDiscover(mac, xid, ident);
            && |f| == 342 && f[..6] == Repeat(255, 6) && f[15] == 0 && f[22] == 64 && Be16(f, 40) == 0
            && AllZero(f[26..30]) && f[30..34] == Repeat(255, 4)
            && EchoHeader(f, xid, 5)
            && f[42..46] == [1, 1, 6, 0] && f[50..54] == [0, 0, 0x80, 0]
            && AllZero(f[54..70]) && AllZero(f[76..278])
            && OptionsOf(f, 5) == map[53 := [1], 55 := [1, 3, 6, 15, 51, 54], 57 := [5, 220]]
  {
    hide BuildDiscover, Udp, OptionsFrom, ChecksumOf, Bootp, BootpHead;
    var f := BuildDiscover(mac, xid, ident);
    DiscoverParts(mac, xid, ident);
    DiscoverHead(mac, xid, ident);
    UdpParts(mac, xid);
    var b := Bootp(mac, xid);
    BootpFields(mac, xid);
    assert f[42..] == f[34..][8..] == b;
    HeaderOfDiscover(mac, xid, ident);
    assert f[42..46] == b[0..4] && f[50..54] == b[8..12] && f[54..70] == b[12..28] && f[76..278] == b[34..236];
    var u := f[34..];
    assert f[40] == u[6] && f[41] == u[7];
    assert Be16(f, 34) == Be16(u, 0) && Be16(f, 36) == Be16(u, 2) && f[42] == u[8] && Be32(f, 46) == Be32(u, 12);
    assert f[282..] == b[240..];
    AskedOptions(b[240..]);
  }

  lemma HeaderOfDiscover(mac: seq<Byte>, xid: nat, ident: nat)
    requires |mac| == 6 && xid < 0x1_0000_0000 && ident < 0x1_0000
    ensures var f := BuildDiscover(mac, xid, ident);
            |f| == 342 && f[15] == 0 && f[22] == 64 && AllZero(f[26..30]) && f[30..34] == Repeat(255, 4)
  {
    hide BuildDiscover, Udp, ChecksumOf, BareIpHeader, AllZero;
    var f := BuildDiscover(mac, xid, ident);
    DiscoverParts(mac, xid, ident);
    HeaderAddresses(ident);
    var h := f[14..34];
    assert f[15] == h[1];
    assert f[22] == h[8];
    assert f[26..30] == h[12..16];
    assert f[30..34] == h[16..20];
  }

  lemma HeaderAddresses(ident: nat)
    requires ident < 0x1_0000
    ensures var h := WithField(BareIpHeader(328, ident), 10, ChecksumOf(BareIpHeader(328, ident)));
            |h| == 20 && h[1] == 0 && h[8] == 64 && AllZero(h[12..16]) && h[16..20] == Repeat(255, 4)
  {
    hide ChecksumOf;
  }

  lemma BootpFields(mac: seq<Byte>, xid: nat)
    requires |mac| == 6 && xid < 0x1_0000_0000
    ensures var b := Bootp(mac, xid);
            && |b| == 300 && b[0..4] == [1, 1, 6, 0] && b[8..12] == [0, 0, 0x80, 0]
            && AllZero(b[12..28]) && AllZero(b[34..236])
            && b[240..] == DISCOVER_OPTIONS + Repeat(0, 44)
  {
    BootpParts(mac, xid);
  }

  lemma AskedOptions(area: seq<Byte>)
    requires area == DISCOVER_OPTIONS + Repeat(0, 44)
    ensures OptionsFrom(area, 0, map[]) == map[53 := [1], 55 := [1, 3, 6, 15, 51, 54], 57 := [5, 220]]
  {
    var os := [Opt(53, [1]), Opt(55, PARAM_REQUEST), Opt(57, [5, 220])];
    assert area == [] + Encoded(os, 0) + [255] + Repeat(0, 44) by { AskedEncoded(); }
    OptionsRoundTrip([], os, 0, Repeat(0, 44), map[]);
    hide OptionsFrom, Encoded;
    assert os[1..][1..] == [Opt(57, [5, 220])];
    var first: Options := map[53 := [1]];
    var second := first[55 := PARAM_REQUEST];
    var third := second[57 := [5, 220]];
    assert FirstWins(os, map[]) == FirstWins(os[1..], first);
    assert FirstWins(os[1..], first) == FirstWins(os[1..][1..], second);
    assert FirstWins(os[1..][1..], second) == FirstWins([], third) == third;
  }

  lemma AskedEncoded()
    ensures Encoded([Opt(53, [1]), Opt(55, PARAM_REQUEST), Opt(57, [5, 220])], 0) + [255] == DISCOVER_OPTIONS
  {
    var os := [Opt(53, [1]), Opt(55, PARAM_REQUEST), Opt(57, [5, 220])];
    assert os[1..][1..] == [Opt(57, [5, 220])] && os[1..][1..][1..] == [];
    assert Encoded(os[1..][1..], 0) == [57, 2, 5, 220];
    assert Encoded(os[1..], 0) == [55, 6] + PARAM_REQUEST + [57, 2, 5, 220];
  }
}
