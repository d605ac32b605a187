/** pkg/discovery/mdns.go: buildResponse, parseMDNSResponse and the round trip between them. */
module Discovery {
  import opened Common
  import opened DnsName
  import opened DnsMessage
  import Decimal

  datatype DeviceInfo = DeviceInfo(
    name: Bytes, host: Bytes, port: int, role: Bytes, arch: Bytes, os: Bytes,
    hasGPU: bool, totalRAMMB: nat, protocolVersion: Bytes, clusterToken: Bytes)

  type IPv4 = ip: seq<Byte> | |ip| == 4 witness [0, 0, 0, 0]

  const SERVICE_TYPE: Bytes := Ascii("_distribox._tcp.local.")
  const LOCAL_SUFFIX: Bytes := Ascii("local.")
  const DEFAULT_NAME: Bytes := Ascii("distribox")
  const VER: Bytes := Ascii("ver")
  const ROLE: Bytes := Ascii("role")
  const NAME: Bytes := Ascii("name")
  const ARCH: Bytes := Ascii("arch")
  const OS: Bytes := Ascii("os")
  const GPU: Bytes := Ascii("gpu")
  const MEM: Bytes := Ascii("mem")
  const TOKEN: Bytes := Ascii("token")
  const VERSION_1: Bytes := Ascii("1.0")
  const YES: Bytes := Ascii("yes")
  const NO: Bytes := Ascii("no")
  const UNKNOWN: Bytes := Ascii("unknown")
  const LOOPBACK: Bytes := Ascii("127.0.0.1")

  // ── The response ──

  /** strings.ReplaceAll(name, " ", "-"). */
  function Hyphenated(s: Bytes): (r: Bytes)
    ensures |r| == |s|
  {
    seq(|s|, i requires 0 <= i < |s| => if s[i] == SPACE then HYPHEN else s[i])
  }

  function HostName(info: DeviceInfo): Bytes {
    Hyphenated(if info.name == [] then DEFAULT_NAME else info.name)
  }

  function FullName(info: DeviceInfo): Bytes { HostName(info) + [DOT] + SERVICE_TYPE }

  function LocalName(info: DeviceInfo): Bytes { HostName(info) + [DOT] + LOCAL_SUFFIX }

  function TxtPairs(info: DeviceInfo): (r: seq<Pair>)
    ensures |r| == if info.clusterToken == [] then 7 else 8
  {
    [Pair(VER, VERSION_1), Pair(ROLE, info.role), Pair(NAME, info.name), Pair(ARCH, info.arch), Pair(OS, info.os),
     Pair(GPU, if info.hasGPU then YES else NO), Pair(MEM, Decimal.Print(info.totalRAMMB))]
    + if info.clusterToken == [] then [] else [Pair(TOKEN, info.clusterToken)]
  }

  function SrvData(info: DeviceInfo, port: int): Bytes {
    U16(0) + U16(0) + U16(port % 0x1_0000) + EncodeName(LocalName(info))
  }

  function PtrRecord(info: DeviceInfo): Bytes {
    Record(EncodeName(SERVICE_TYPE), TYPE_PTR, CLASS_IN, TTL, EncodeName(FullName(info)))
  }

  function SrvRecord(info: DeviceInfo, port: int): Bytes {
    Record(EncodeName(FullName(info)), TYPE_SRV, CLASS_IN, TTL, SrvData(info, port))
  }

  function TxtRecord(info: DeviceInfo): Bytes {
    Record(EncodeName(FullName(info)), TYPE_TXT, CLASS_IN, TTL, EncodeEntries(Texts(TxtPairs(info))))
  }

  function ARecord(info: DeviceInfo, ip: IPv4): Bytes {
    Record(EncodeName(LocalName(info)), TYPE_A, CLASS_IN, TTL, ip)
  }

  /** Transaction 0, response and authoritative, no questions, four answers. */
  const HEADER: Bytes := U16(0) + U16(0x8400) + U16(0) + U16(4) + [0, 0, 0, 0]

  function Answers(info: DeviceInfo, port: int, ip: IPv4): Bytes {
    PtrRecord(info) + (SrvRecord(info, port) + (TxtRecord(info) + ARecord(info, ip)))
  }

  /** The header's twelve bytes. */
  lemma {:induction false} HeaderBytes()
    ensures HEADER == [0, 0, 0x84, 0, 0, 0, 0, 4, 0, 0, 0, 0]
  {
  }

  /** SRV data: priority and weight zero, the port with the high byte first, then the target. */
  ghost predicate IsSrvData(d: Bytes, port: int, target: Bytes) {
    && |d| >= 6 && d[..4] == [0, 0, 0, 0] && d[4] as int * 256 + d[5] == port % 0x1_0000 && d[6..] == EncodeName(target)
  }

  /** The four answers in order: PTR, SRV, TXT and A, of class 1 and valid for 120 seconds. */
  ghost predicate AdvertisedBytes(answers: Bytes, info: DeviceInfo, port: int, ip: IPv4) {
    var full, host := HostName(info) + [46] + SERVICE_TYPE, HostName(info) + [46] + LOCAL_SUFFIX;
    exists ptr, srv, txt, a, srvData ::
      && answers == ptr + (srv + (txt + a)) && IsSrvData(srvData, port, host)
      && HasRecordBytes(ptr, EncodeName(SERVICE_TYPE), 12, 1, 120, EncodeName(full))
      && HasRecordBytes(srv, EncodeName(full), 33, 1, 120, srvData)
      && HasRecordBytes(txt, EncodeName(full), 16, 1, 120, EncodeEntries(Texts(TxtPairs(info))))
      && HasRecordBytes(a, EncodeName(host), 1, 1, 120, ip)
  }

  lemma {:induction false} AnswersAdvertise(info: DeviceInfo, port: int, ip: IPv4)
    ensures AdvertisedBytes(Answers(info, port, ip), info, port, ip)
  {
    RecordBytes(EncodeName(SERVICE_TYPE), TYPE_PTR, CLASS_IN, TTL, EncodeName(FullName(info)));
    RecordBytes(EncodeName(FullName(info)), TYPE_SRV, CLASS_IN, TTL, SrvData(info, port));
    RecordBytes(EncodeName(FullName(info)), TYPE_TXT, CLASS_IN, TTL, EncodeEntries(Texts(TxtPairs(info))));
    RecordBytes(EncodeName(LocalName(info)), TYPE_A, CLASS_IN, TTL, ip);
    SrvDataBytes(info, port);
    assert Answers(info, port, ip) == PtrRecord(info) + (SrvRecord(info, port) + (TxtRecord(info) + ARecord(info, ip)));
  }

  lemma {:induction false} SrvDataBytes(info: DeviceInfo, port: int)
    ensures IsSrvData(SrvData(info, port), port, LocalName(info))
  {
  }

  method TxtStrings(info: DeviceInfo) returns (txtStrs: seq<Bytes>)
    ensures txtStrs == Texts(TxtPairs(info))
  {
    txtStrs := [Pair(VER, VERSION_1).Text(), Pair(ROLE, info.role).Text(), Pair(NAME, info.name).Text(),
                Pair(ARCH, info.arch).Text(), Pair(OS, info.os).Text(),
                Pair(GPU, if info.hasGPU then YES else NO).Text(),
                Pair(MEM, Decimal.Print(info.totalRAMMB)).Text()];
    if info.clusterToken != [] {
      txtStrs := txtStrs + [Pair(TOKEN, info.clusterToken).Text()];
    }
  }

  lemma {:induction false} ConcatRight(h: Bytes, a: Bytes, b: Bytes, c: Bytes, d: Bytes)
    ensures h + a + b + c + d == h + (a + (b + (c + d)))
  {
  }

  /** buildResponse; `ip` is the local address, all zero when it has no four-byte form. */
  method BuildResponse(info: DeviceInfo, port: int, ip: IPv4) returns (pkt: Bytes)
    ensures pkt == HEADER + Answers(info, port, ip)
    ensures pkt[..12] == [0, 0, 0x84, 0, 0, 0, 0, 4, 0, 0, 0, 0] && AdvertisedBytes(pkt[12..], info, port, ip)
  {
    HeaderBytes();
    AnswersAdvertise(info, port, ip);
    var hostname := info.name;
    if hostname == [] {
      hostname := DEFAULT_NAME;
    }
    hostname := Hyphenated(hostname);
    var fullName := hostname + [DOT] + SERVICE_TYPE;

    var txtStrs := TxtStrings(info);
    var nameBytes := EncodeDNSName(fullName);
    var svcName := EncodeDNSName(SERVICE_TYPE);
    var hostBytes := EncodeDNSName(hostname + [DOT] + LOCAL_SUFFIX);
    var txtBytes := EncodeTXT(txtStrs);

    var header := HEADER;
    pkt := header;
    var ptrRR := BuildRR(svcName, TYPE_PTR, CLASS_IN, TTL, nameBytes);
    pkt := pkt + ptrRR;
    var srvRD := U16(0) + U16(0) + U16(port % 0x1_0000);
    srvRD := srvRD + hostBytes;
    var srvRR := BuildRR(nameBytes, TYPE_SRV, CLASS_IN, TTL, srvRD);
    pkt := pkt + srvRR;
    var txtRR := BuildRR(nameBytes, TYPE_TXT, CLASS_IN, TTL, txtBytes);
    pkt := pkt + txtRR;
    var aRR := BuildRR(hostBytes, TYPE_A, CLASS_IN, TTL, ip);
    pkt := pkt + aRR;
    ConcatRight(header, ptrRR, srvRR, txtRR, aRR);
  }

  // ── The parser ──

  /** What the record loop has collected; `info` still without a host. */
  datatype Seen = Seen(info: DeviceInfo, hosts: map<Bytes, Bytes>)

  const NOTHING := Seen(DeviceInfo([], [], 0, [], [], [], false, 0, [], []), map[])

  function Lookup(m: map<Bytes, Bytes>, key: Bytes): Bytes { if key in m then m[key] else [] }

  function WithTxt(info: DeviceInfo, m: map<Bytes, Bytes>): DeviceInfo {
    if Lookup(m, VER) == [] then info
    else
      var mem := Decimal.Scan(Lookup(m, MEM));
      info.(protocolVersion := Lookup(m, VER), role := Lookup(m, ROLE), name := Lookup(m, NAME),
            arch := Lookup(m, ARCH),
            os := Lookup(m, OS), hasGPU := Lookup(m, GPU) == YES, clusterToken := Lookup(m, TOKEN),
            totalRAMMB := if mem.Some? then mem.value else info.totalRAMMB)
  }

  /** net.IPv4(...).String(). */
  function IPText(ip: IPv4): Bytes {
    Decimal.Print(ip[0]) + [DOT]
    + (Decimal.Print(ip[1]) + [DOT] + (Decimal.Print(ip[2]) + [DOT] + Decimal.Print(ip[3])))
  }

  /** parseDNSName at an offset; None when its recursion never returns (DnsName.EnoughIff). */
  function NameAt(data: Bytes, offset: nat): (r: Option<Parsed>)
    ensures r.Some? && r.value.next != 0 ==> offset < r.value.next <= |data|
  {
    ParseName(data, offset, |data|)
  }

  /** One record's effect; the record data are `len` bytes at `at`. */
  function Apply(data: Bytes, name: Bytes, rtype: nat, at: nat, len: nat, st: Seen): Option<Seen>
    requires at + len <= |data|
  {
    if rtype == TYPE_TXT then Some(st.(info := WithTxt(st.info, TxtMap(data[at..at + len]))))
    else if rtype == TYPE_SRV && len >= 6 then
      match NameAt(data, at + 6)
      case None => None
      case Some(target) =>
        Some(Seen(st.info.(port := U16At(data, at + 4)), st.hosts[name := NameToString(target.name)]))
    else if rtype == TYPE_A && len >= 4 then
      Some(st.(hosts := st.hosts[name := IPText(data[at..at + 4])]))
    else Some(st)
  }

  /** What stands at an offset: a name that never resolves, nothing complete, or a record. */
  datatype Header = Endless | Stop | Found(name: Bytes, rtype: nat, at: nat, len: nat)

  /** The name and fixed part of the record at an offset; its data lie further on and inside the message. */
  function HeaderAt(data: Bytes, offset: nat): (h: Header)
    ensures h.Found? ==> offset < h.at && h.at + h.len <= |data|
  {
    match NameAt(data, offset)
    case None => Endless
    case Some(p) =>
      var at := p.next + 10;
      if p.next == 0 || at > |data| || at + U16At(data, p.next + 8) > |data| then Stop
      else Found(p.name, U16At(data, p.next), at, U16At(data, p.next + 8))
  }

  /** The record loop from an offset on; None when some name never resolves. */
  function Records(data: Bytes, offset: nat, st: Seen): Option<Seen>
    decreases |data| - offset
  {
    if offset >= |data| then Some(st)
    else
      match HeaderAt(data, offset)
      case Endless => None
      case Stop => Some(st)
      case Found(name, rtype, at, len) =>
        match Apply(data, name, rtype, at, len, st)
        case None => None
        case Some(next) => Records(data, at + len, next)
  }

  /** The data of the record hold a name to read, the target of an SRV record. */
  predicate HasTarget(h: Header) { h.Found? && h.rtype == TYPE_SRV && h.len >= 6 }

  /** From an offset on, the record loop comes to a name whose pointers run in a circle: a record's or a target's. */
  ghost predicate MeetsCircle(data: Bytes, offset: nat)
    decreases |data| - offset
  {
    offset < |data| &&
    var h := HeaderAt(data, offset);
    || Circle(data, offset)
    || (HasTarget(h) && Circle(data, h.at + 6))
    || (h.Found? && MeetsCircle(data, h.at + h.len))
  }

  lemma {:induction false} NoHeaderEndsIff(data: Bytes, offset: nat, st: Seen)
    requires offset >= |data| || !HeaderAt(data, offset).Found?
    ensures Records(data, offset, st).None? <==> MeetsCircle(data, offset)
  {
    EnoughIff(data, offset);
  }

  /** The record at an offset: the loop ends there, or goes on behind it. */
  lemma {:induction false} HeaderEndsIff(data: Bytes, offset: nat, h: Header, st: Seen)
    requires offset < |data| && h == HeaderAt(data, offset) && h.Found?
    ensures var next := Apply(data, h.name, h.rtype, h.at, h.len, st);
      && (next.None? ==> Records(data, offset, st).None? && MeetsCircle(data, offset))
      && (next.Some? ==> Records(data, offset, st) == Records(data, h.at + h.len, next.value))
      && (next.Some? ==> MeetsCircle(data, offset) == MeetsCircle(data, h.at + h.len))
  {
    EnoughIff(data, offset);
    ApplyEndsIff(data, h, st);
  }

  /** A record stops the reader if it has a target whose pointers run in a circle. */
  lemma {:induction false} ApplyEndsIff(data: Bytes, h: Header, st: Seen)
    requires h.Found? && h.at + h.len <= |data|
    ensures Apply(data, h.name, h.rtype, h.at, h.len, st).None? <==> HasTarget(h) && Circle(data, h.at + 6)
  {
    EnoughIff(data, h.at + 6);
  }

  /** And exactly then it never ends. */
  lemma {:induction false} RecordsEndIff(data: Bytes, offset: nat, st: Seen)
    ensures Records(data, offset, st).None? <==> MeetsCircle(data, offset)
    decreases |data| - offset
  {
    var h := HeaderAt(data, offset);
    if offset < |data| && h.Found? {
      var next := Apply(data, h.name, h.rtype, h.at, h.len, st);
      HeaderEndsIff(data, offset, h, st);
      if next.Some? {
        RecordsEndIff(data, h.at + h.len, next.value);
      }
    } else {
      NoHeaderEndsIff(data, offset, st);
    }
  }

  /** The host the final loop may settle on: the map is iterated in no particular order. */
  ghost predicate MayPick(hosts: map<Bytes, Bytes>, isIP: Bytes -> bool, host: Bytes) {
    if exists k :: k in hosts && isIP(hosts[k]) then exists k :: k in hosts && isIP(hosts[k]) && host == hosts[k]
    else host == UNKNOWN
  }

  function Finish(info: DeviceInfo, host: Bytes): Option<DeviceInfo> {
    if info.protocolVersion != [] && info.name != [] && host != [] && host != UNKNOWN && host != LOOPBACK
    then Some(info.(host := host))
    else None
  }

  /** The first half of the loop body: the record's name and fixed part. */
  method ReadHeader(data: Bytes, offset: nat) returns (h: Header)
    ensures h == HeaderAt(data, offset)
  {
    var parsed := ParseDNSName(data, offset, |data|);
    if parsed.None? {
      return Endless;
    }
    var name, consumed := parsed.value.name, parsed.value.next;
    if consumed == 0 {
      return Stop;
    }
    if consumed + 10 > |data| {
      return Stop;
    }
    var rtype := U16At(data, consumed);
    var rdLen := U16At(data, consumed + 8);
    if consumed + 10 + rdLen > |data| {
      return Stop;
    }
    return Found(name, rtype, consumed + 10, rdLen);
  }

  /** How parsing a message ends; a name whose pointers run in a circle keeps parseDNSName from ever returning. */
  datatype ParseEnd = NeverReturns | Returned(device: Option<DeviceInfo>)

  /** What parseMDNSResponse may do. */
  ghost predicate MayEnd(data: Bytes, isIP: Bytes -> bool, r: ParseEnd) {
    var seen := Records(data, 0, NOTHING);
    if seen.None? then r == NeverReturns
    else exists host :: MayPick(seen.value.hosts, isIP, host) && r == Returned(Finish(seen.value.info, host))
  }

  /** A version, a name, and for a host an IP address that is not 127.0.0.1. */
  ghost predicate Usable(d: DeviceInfo, isIP: Bytes -> bool) {
    d.protocolVersion != [] && d.name != [] && isIP(d.host) && d.host != [49, 50, 55, 46, 48, 46, 48, 46, 49]
  }

  lemma {:induction false} FinishedIsUsable(info: DeviceInfo, hosts: map<Bytes, Bytes>, isIP: Bytes -> bool,
                                            host: Bytes)
    requires MayPick(hosts, isIP, host) && !isIP([])
    ensures Finish(info, host).Some? <==>
            && info.protocolVersion != [] && info.name != [] && isIP(host)
            && (exists k :: k in hosts && host == hosts[k])
            && host != [49, 50, 55, 46, 48, 46, 48, 46, 49] && host != UNKNOWN
    ensures Finish(info, host).Some? ==> Usable(Finish(info, host).value, isIP)
  {
    assert LOOPBACK == [49, 50, 55, 46, 48, 46, 48, 46, 49];
  }

  /** parseMDNSResponse. */
  method ParseMDNSResponse(data: Bytes, isIP: Bytes -> bool) returns (r: ParseEnd)
    requires !isIP([])
    ensures MayEnd(data, isIP, r)
    ensures r.NeverReturns? <==> MeetsCircle(data, 0)
    ensures r.Returned? && r.device.Some? ==> Usable(r.device.value, isIP)
  {
    RecordsEndIff(data, 0, NOTHING);
    var seen := CollectRecords(data);
    if seen.None? {
      return NeverReturns;
    }
    var host := PickHost(seen.value.hosts, isIP);
    FinishedIsUsable(seen.value.info, seen.value.hosts, isIP, host);
    r := Returned(Finish(seen.value.info, host));
  }

  /** The record loop. */
  method CollectRecords(data: Bytes) returns (seen: Option<Seen>)
    ensures seen == Records(data, 0, NOTHING)
  {
    seen := Some(NOTHING);
    var offset, more := 0, true;
    while more && seen.Some?
      invariant if more && seen.Some? then Records(data, offset, seen.value) == Records(data, 0, NOTHING)
                else seen == Records(data, 0, NOTHING)
      invariant offset <= |data|
      decreases if more && seen.Some? then |data| - offset + 1 else 0
    {
      seen, offset, more := NextRecord(data, offset, seen.value);
    }
  }

  /** The loop body; `more` is false where the loop ends. */
  method NextRecord(data: Bytes, offset: nat, st: Seen) returns (next: Option<Seen>, after: nat, more: bool)
    requires offset <= |data|
    ensures offset <= after <= |data| && (more && next.Some? ==> offset < after)
    ensures Records(data, offset, st) == if more && next.Some? then Records(data, after, next.value) else next
  {
    next, after, more := Some(st), offset, offset < |data|;
    if more {
      var h := ReadHeader(data, offset);
      match h
      case Endless => next := None;
      case Stop => more := false;
      case Found(name, rtype, at, len) =>
        next := ApplyRecord(data, name, rtype, at, len, st);
        after := at + len;
    }
  }

  /** The switch on the record type. */
  method ApplyRecord(data: Bytes, name: Bytes, rtype: nat, at: nat, rdLen: nat, st: Seen) returns (next: Option<Seen>)
    requires at + rdLen <= |data|
    ensures next == Apply(data, name, rtype, at, rdLen, st)
  {
    next := Some(st);
    if rtype == TYPE_TXT {
      var txtMap := ParseTXT(data[at..at + rdLen]);
      next := Some(st.(info := WithTxt(st.info, txtMap)));
    } else if rtype == TYPE_SRV {
      if rdLen >= 6 {
        var port := U16At(data, at + 4);
        var targetName := ParseDNSName(data, at + 6, |data|);
        if targetName.None? {
          next := None;
        } else {
          var target := DnsNameToString(targetName.value.name);
          next := Some(Seen(st.info.(port := port), st.hosts[name := target]));
        }
      }
    } else if rtype == TYPE_A {
      if rdLen >= 4 {
        next := Some(st.(hosts := st.hosts[name := IPText(data[at..at + 4])]));
      }
    }
  }

  /** The loop over the collected hosts. */
  method PickHost(hosts: map<Bytes, Bytes>, isIP: Bytes -> bool) returns (host: Bytes)
    requires !isIP([])
    ensures MayPick(hosts, isIP, host)
  {
    host := [];
    var todo := hosts.Keys;
    while todo != {}
      invariant todo <= hosts.Keys && host == []
      invariant forall k <- hosts :: k !in todo ==> !isIP(hosts[k])
      decreases todo
    {
      var k :| k in todo;
      todo := todo - {k};
      if isIP(hosts[k]) {
        host := hosts[k];
        break;
      }
    }
    if host == [] {
      host := UNKNOWN;
    }
  }
}
