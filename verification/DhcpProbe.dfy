/** The active DHCP probe's frames (collector/src/collector/discovery/dhcp_probe.py): the
  * DISCOVER it builds, the options area, the replies it accepts and its own echo.
  * Addresses stay as bytes.
  */
module DhcpProbe {
  import opened Common
  import opened Bytes
  import opened Bpf

  const ETH_P_IP: nat := 0x0800
  const MAGIC_COOKIE: seq<Byte> := [0x63, 0x82, 0x53, 0x63]
  const BOOTREQUEST: Byte := 1
  const BOOTREPLY: Byte := 2
  const PARAM_REQUEST: seq<Byte> := [1, 3, 6, 15, 51, 54]

  // --- the DISCOVER -----------------------------------------------------------------------

  const DISCOVER_OPTIONS: seq<Byte> := [53, 1, 1] + [55, 6] + PARAM_REQUEST + [57, 2, 5, 220] + [255]

  function BootpHead(mac: seq<Byte>, xid: nat): seq<Byte>
    requires |mac| == 6 && xid < 0x1_0000_0000
  {
    [BOOTREQUEST, 1, 6, 0] + Long(xid) + [0, 0, 0x80, 0] + Repeat(0, 16) + (mac + Repeat(0, 10))
    + Repeat(0, 64) + Repeat(0, 128)
  }

  /** Padded to the 300-byte minimum. */
  function Bootp(mac: seq<Byte>, xid: nat): seq<Byte>
    requires |mac| == 6 && xid < 0x1_0000_0000
  {
    var body := BootpHead(mac, xid) + MAGIC_COOKIE + DISCOVER_OPTIONS;
    if |body| < 300 then body + Repeat(0, 300 - |body|) else body
  }

  function Udp(mac: seq<Byte>, xid: nat): seq<Byte>
    requires |mac| == 6 && xid < 0x1_0000_0000
  {
    var bootp := Bootp(mac, xid);
    assert |bootp| == 300;
    Word(68) + Word(67) + Word(8 + |bootp|) + Word(0) + bootp
  }

  /** The IPv4 header with a zero checksum field. */
  function BareIpHeader(totalLen: nat, ident: nat): (r: seq<Byte>)
    requires totalLen < 0x1_0000 && ident < 0x1_0000
    ensures |r| == 20 && r[10] == 0 && r[11] == 0
  {
    [0x45, 0] + Word(totalLen) + Word(ident) + Word(0) + [64, 17] + Word(0) + Repeat(0, 4) + Repeat(255, 4)
  }

  /** The whole frame; `ident` is the random IP identification. */
  function BuildDiscover(mac: seq<Byte>, xid: nat, ident: nat): seq<Byte>
    requires |mac| == 6 && xid < 0x1_0000_0000 && ident < 0x1_0000
  {
    var udp := Udp(mac, xid);
    assert |udp| == 308;
    var header := BareIpHeader(20 + |udp|, ident);
    var ip := WithField(header, 10, ChecksumOf(header));
    Repeat(255, 6) + mac + Word(ETH_P_IP) + ip + udp
  }

  // --- the options area -------------------------------------------------------------------

  type Options = map<nat, seq<Byte>>

  function SetDefault(m: Options, code: nat, value: seq<Byte>): Options {
    if code in m then m else m[code := value]
  }

  /** The options from offset `i` on: pads are skipped, the end mark or a truncated option
    * ends the area, and the first value of a code wins.
    */
  function OptionsFrom(data: seq<Byte>, i: nat, acc: Options): Options
    decreases |data| - i
  {
    if i >= |data| || data[i] == 255 then acc
    else if data[i] == 0 then OptionsFrom(data, i + 1, acc)
    else if i + 1 >= |data| then acc
    else
      var end := i + 2 + data[i + 1];
      if end > |data| then acc
      else OptionsFrom(data, end, SetDefault(acc, data[i], data[i + 2..end]))
  }

  method ParseOptions(data: seq<Byte>) returns (out: Options)
    ensures out == OptionsFrom(data, 0, map[])
  {
    out := map[];
    var i: nat := 0;
    while i < |data|
      invariant OptionsFrom(data, i, out) == OptionsFrom(data, 0, map[])
      decreases |data| - i
    {
      var code := data[i];
      if code == 255 {
        break;
      }
      if code == 0 {
        i := i + 1;
        continue;
      }
      if i + 1 >= |data| {
        break;
      }
      var length := data[i + 1];
      if i + 2 + length > |data| {
        break;
      }
      var value := data[i + 2..i + 2 + length];
      if code !in out {
        out := out[code as nat := value];
      }
      i := i + 2 + length;
    }
  }

  // --- replies ----------------------------------------------------------------------------

  datatype Kind = Offer | Ack | Nak

  datatype Reply = Reply(
    kind: Kind,
    serverId: Option<seq<Byte>>,
    srcIp: seq<Byte>,
    srcMac: seq<Byte>,
    relayIp: Option<seq<Byte>>,
    offeredIp: Option<seq<Byte>>,
    subnetMask: Option<seq<Byte>>,
    routers: seq<seq<Byte>>,
    dnsServers: seq<seq<Byte>>,
    leaseSec: Option<nat>,
    domain: Option<seq<Byte>>,
    vendorClass: Option<seq<Byte>>
  )

  function MessageKind(opts: Options): Option<Kind> {
    if 53 !in opts || opts[53] == [] then None
    else if opts[53][0] == 2 then Some(Offer)
    else if opts[53][0] == 5 then Some(Ack)
    else if opts[53][0] == 6 then Some(Nak)
    else None
  }

  /** A four-byte option, ignored at any other length. */
  function Address(opts: Options, code: nat): Option<seq<Byte>> {
    if code in opts && |opts[code]| == 4 then Some(opts[code]) else None
  }

  /** Whole four-byte groups; a ragged end is dropped. */
  function AddressList(value: seq<Byte>): seq<seq<Byte>> {
    if |value| < 4 then [] else [value[..4]] + AddressList(value[4..])
  }

  function Addresses(opts: Options, code: nat): seq<seq<Byte>> {
    if code in opts then AddressList(opts[code]) else []
  }

  function NonZero(a: seq<Byte>): Option<seq<Byte>> {
    if a == [0, 0, 0, 0] then None else Some(a)
  }

  function StripLeft(s: seq<Byte>): seq<Byte> {
    if s != [] && s[0] == 0 then StripLeft(s[1..]) else s
  }

  function StripRight(s: seq<Byte>): seq<Byte> {
    if s != [] && s[|s| - 1] == 0 then StripRight(s[..|s| - 1]) else s
  }

  function TextOption(opts: Options, code: nat): Option<seq<Byte>> {
    if code in opts && opts[code] != [] then Some(StripRight(StripLeft(opts[code]))) else None
  }

  /** The reply to transaction `xid` in a frame, if there is one. */
  function ParseReply(frame: seq<Byte>, xid: nat): Option<Reply> {
    if |frame| < 14 + 20 + 8 + 240 then None
    else if Be16(frame, 12) != ETH_P_IP then None
    else
      var ip := frame[14..];
      if ip[0] / 16 != 4 then None
      else
        var ihl := ip[0] % 16 * 4;
        if ihl < 20 || ip[9] != 17 then None
        else
          var udp := ip[ihl..];
          if |udp| < 8 || Be16(udp, 0) != 67 || Be16(udp, 2) != 68 then None
          else
            var bootp := udp[8..];
            if |bootp| < 240 || bootp[0] != BOOTREPLY || Be32(bootp, 4) != xid || bootp[236..240] != MAGIC_COOKIE then None
            else
              var opts := OptionsFrom(bootp[240..], 0, map[]);
              var kind := MessageKind(opts);
              if kind.None? then None
              else
                Some(Reply(kind.value, Address(opts, 54), ip[12..16], frame[6..12], NonZero(bootp[24..28]),
                           NonZero(bootp[16..20]), Address(opts, 1), Addresses(opts, 3), Addresses(opts, 6),
                           var lease := Address(opts, 51); if lease.Some? then Some(Be32(lease.value, 0)) else None,
                           TextOption(opts, 15), TextOption(opts, 60)))
  }

  /** The probe's own DISCOVER coming back. */
  predicate IsOwnDiscover(frame: seq<Byte>, xid: nat) {
    && |frame| >= 14 + 20 + 8 + 240
    && Be16(frame, 12) == ETH_P_IP
    && var ip := frame[14..];
       var ihl := ip[0] % 16 * 4;
       && ip[0] / 16 == 4 && ihl >= 20 && ip[9] == 17
       && var udp := ip[ihl..];
          && |udp| >= 8 + 240 && Be16(udp, 0) == 68 && Be16(udp, 2) == 67
          && udp[8] == BOOTREQUEST && Be32(udp, 12) == xid
  }

  // --- the DISCOVER's layout --------------------------------------------------------------

  lemma DiscoverParts(mac: seq<Byte>, xid: nat, ident: nat)
    requires |mac| == 6 && xid < 0x1_0000_0000 && ident < 0x1_0000
    ensures var f := BuildDiscover(mac, xid, ident);
            var header := BareIpHeader(328, ident);
            && |f| == 342
            && f[..6] == Repeat(255, 6) && f[6..12] == mac && Be16(f, 12) == ETH_P_IP
            && f[14..34] == WithField(header, 10, ChecksumOf(header))
            && f[34..] == Udp(mac, xid) && |Udp(mac, xid)| == 308
  {
    hide Udp;
    UdpParts(mac, xid);
  }

  lemma UdpParts(mac: seq<Byte>, xid: nat)
    requires |mac| == 6 && xid < 0x1_0000_0000
    ensures var u := Udp(mac, xid);
            && |u| == 308
            && Be16(u, 0) == 68 && Be16(u, 2) == 67 && Be16(u, 4) == 308 && Be16(u, 6) == 0
            && u[8..] == Bootp(mac, xid) && |Bootp(mac, xid)| == 300
            && u[8] == BOOTREQUEST && Be32(u, 12) == xid
  {
    BootpParts(mac, xid);
    var b := Bootp(mac, xid);
    hide Bootp;
    var u := Udp(mac, xid);
    assert u[8..] == b;
    assert u[8] == b[0] && u[12] == b[4] && u[13] == b[5] && u[14] == b[6] && u[15] == b[7];
  }

  lemma BootpParts(mac: seq<Byte>, xid: nat)
    requires |mac| == 6 && xid < 0x1_0000_0000
    ensures var b := Bootp(mac, xid);
            && |b| == 300 && b[0] == BOOTREQUEST && Be32(b, 4) == xid
            && b[28..34] == mac && b[236..240] == MAGIC_COOKIE && b[240..256] == DISCOVER_OPTIONS
  {
    hide Long;
    var l := Long(xid);
    assert Be32(l, 0) == xid && |l| == 4;
    var b := Bootp(mac, xid);
    assert b[4..8] == l;
    assert b[4] == l[0] && b[5] == l[1] && b[6] == l[2] && b[7] == l[3];
  }

  lemma HeaderFields(totalLen: nat, ident: nat, c: nat)
    requires totalLen < 0x1_0000 && ident < 0x1_0000 && c < 0x1_0000
    ensures var h := WithField(BareIpHeader(totalLen, ident), 10, c);
            && |h| == 20 && h[0] == 0x45 && Be16(h, 2) == totalLen && Be16(h, 4) == ident && Be16(h, 6) == 0
            && h[9] == 17 && Be16(h, 10) == c
  {
  }

  /** For every MAC, transaction and identification the frame carries: an IPv4 header that
    * checksums to zero, lengths that match what follows them, and the probe's own MAC.
    */
  lemma DiscoverIsWellFormed(mac: seq<Byte>, xid: nat, ident: nat)
    requires |mac| == 6 && xid < 0x1_0000_0000 && ident < 0x1_0000
    ensures var f := BuildDiscover(mac, xid, ident);
            && |f| == 342
            && ChecksumOf(f[14..34]) == 0
            && Be16(f, 16) == |f[14..]| && Be16(f, 38) == |f[34..]|
            && Be16(f, 34) == 68 && Be16(f, 36) == 67
            && f[6..12] == mac && f[70..76] == mac
  {
    hide BuildDiscover, Udp, ChecksumOf, Bootp;
    var f := BuildDiscover(mac, xid, ident);
    var header := BareIpHeader(328, ident);
    DiscoverParts(mac, xid, ident);
    UdpParts(mac, xid);
    BootpParts(mac, xid);
    StoredChecksumVerifies(header, 10);
    var h, u := f[14..34], f[34..];
    HeaderFields(328, ident, ChecksumOf(header));
    assert f[16] == h[2] && f[17] == h[3];
    assert f[34] == u[0] && f[35] == u[1] && f[36] == u[2] && f[37] == u[3] && f[38] == u[4] && f[39] == u[5];
    assert f[70..76] == u[8..][28..34];
  }

  lemma DiscoverHead(mac: seq<Byte>, xid: nat, ident: nat)
    requires |mac| == 6 && xid < 0x1_0000_0000 && ident < 0x1_0000
    ensures var f := BuildDiscover(mac, xid, ident);
            && |f| == 342 && Be16(f, 12) == ETH_P_IP
            && f[14] == 0x45 && Be16(f, 20) == 0 && f[23] == 17 && f[34..] == Udp(mac, xid)
  {
    hide BuildDiscover, Udp, ChecksumOf, BareIpHeader;
    var f := BuildDiscover(mac, xid, ident);
    DiscoverParts(mac, xid, ident);
    var c := ChecksumOf(BareIpHeader(328, ident));
    HeaderFields(328, ident, c);
    var h := f[14..34];
    assert f[14] == h[0] && f[20] == h[6] && f[21] == h[7] && f[23] == h[9];
  }

  /** The probe recognises its DISCOVER by its own transaction and no other, never takes it for
    * a reply, and its kernel filter lets it through.
    */
  lemma DiscoverIsRecognised(mac: seq<Byte>, xid: nat, ident: nat, other: nat)
    requires |mac| == 6 && xid < 0x1_0000_0000 && ident < 0x1_0000
    ensures var f := BuildDiscover(mac, xid, ident);
            && (IsOwnDiscover(f, other) <==> other == xid)
            && ParseReply(f, other).None?
            && Exec(DHCP_SERVER_PORT, f, 0, 0, 0) == Answer(true)
  {
    hide BuildDiscover, Udp, Exec;
    var f := BuildDiscover(mac, xid, ident);
    DiscoverHead(mac, xid, ident);
    UdpParts(mac, xid);
    assert f[14..][20..] == f[34..];
    DhcpProgram(f);
    var u := f[34..];
    assert Be16(f, 34) == Be16(u, 0) && Be16(f, 36) == Be16(u, 2);
  }

  // --- the parsers and the kernel filter agree ----------------------------------------------

  predicate Unfragmented(frame: seq<Byte>) {
    |frame| >= 22 && Be16(frame, 20) % 0x2000 == 0
  }

  /** A positive control is only worth having if the filter passes what the parsers accept:
    * every unfragmented frame that is a reply or the probe's echo gets through.
    */
  lemma {:induction false} AcceptedFramesPassFilter(frame: seq<Byte>, xid: nat)
    requires ParseReply(frame, xid).Some? || IsOwnDiscover(frame, xid)
    ensures Exec(DHCP_SERVER_PORT, frame, 0, 0, 0) == Answer(Unfragmented(frame))
  {
    hide Exec, OptionsFrom, MessageKind;
    DhcpProgram(frame);
    var ip := frame[14..];
    var ihl := ip[0] % 16 * 4;
    var udp := ip[ihl..];
    assert ip[9] == frame[23] && ip[0] == frame[14];
    assert udp[0] == frame[14 + ihl] && udp[1] == frame[14 + ihl + 1];
    assert udp[2] == frame[14 + ihl + 2] && udp[3] == frame[14 + ihl + 3];
  }
}
