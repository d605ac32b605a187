/**
 * pkg/discovery/mdns.go: the advertised texts and the fields the parser takes out of raw bytes, said in bytes and
 * literals of their own.
 */
module DiscoveryWire {
  import opened Common
  import opened DnsName
  import opened DnsMessage
  import opened Discovery
  import Decimal

  // ── What is advertised ──

  /** _distribox._tcp.local. as text and as labels, and the other fixed names. */
  lemma {:induction false} FixedNames()
    ensures SERVICE_TYPE == Ascii("_distribox._tcp.local.") && LOCAL_SUFFIX == Ascii("local.")
    ensures DEFAULT_NAME == Ascii("distribox") && UNKNOWN == Ascii("unknown") && LOOPBACK == Ascii("127.0.0.1")
  {
  }

  const DISTRIBOX: Bytes := [95, 100, 105, 115, 116, 114, 105, 98, 111, 120]
  const TCP: Bytes := [95, 116, 99, 112]
  const LOCAL: Bytes := [108, 111, 99, 97, 108]

  lemma {:induction false} NoDotIsOnePart(s: Bytes)
    requires DOT !in s
    ensures Split(s, DOT) == [s]
  {
    if s != [] {
      NoDotIsOnePart(s[1..]);
      assert [s[0]] + s[1..] == s;
    }
  }

  /** A label in front of a dot comes first, and so do its bytes. */
  lemma {:induction false} FirstLabel(name: Bytes, l: Bytes, len: Byte, rest: Bytes, encoded: Bytes)
    requires l != [] && DOT !in l && |l| == len && name == l + [DOT] + rest && EncodeName(rest) == encoded
    ensures EncodeName(name) == ([len] + l) + encoded
  {
    LabelsAround(l, rest);
    NoDotIsOnePart(l);
    assert NonEmpty([l][1..]) == [];
    assert ([l] + Labels(rest))[1..] == Labels(rest);
  }

  lemma {:induction false} NoLabels()
    ensures EncodeName([]) == [0]
  {
    assert NonEmpty(Split([], DOT)[1..]) == [];
  }

  /** The service name on the wire. */
  lemma {:induction false} ServiceNameBytes()
    ensures EncodeName(SERVICE_TYPE) == ([10] + DISTRIBOX) + (([4] + TCP) + (([5] + LOCAL) + [0]))
  {
    ServiceText();
    NoLabels();
    var local, tcp := LOCAL + [DOT] + [], TCP + [DOT] + (LOCAL + [DOT] + []);
    FirstLabel(local, LOCAL, 5, [], [0]);
    FirstLabel(tcp, TCP, 4, local, ([5] + LOCAL) + [0]);
    FirstLabel(SERVICE_TYPE, DISTRIBOX, 10, tcp, ([4] + TCP) + (([5] + LOCAL) + [0]));
  }

  lemma {:induction false} ServiceText()
    ensures SERVICE_TYPE == DISTRIBOX + [DOT] + (TCP + [DOT] + (LOCAL + [DOT] + []))
  {
    InPieces(SERVICE_TYPE);
    ServicePart();
    TransportPart();
    DomainPart();
  }

  lemma {:induction false} ServicePart()
    ensures |SERVICE_TYPE| == 22 && SERVICE_TYPE[..10] == DISTRIBOX && SERVICE_TYPE[10] == DOT
  {
  }

  lemma {:induction false} TransportPart()
    ensures SERVICE_TYPE[11..15] == TCP && SERVICE_TYPE[15] == DOT
  {
  }

  lemma {:induction false} DomainPart()
    ensures SERVICE_TYPE[16..21] == LOCAL && SERVICE_TYPE[21] == DOT
  {
  }

  lemma {:induction false} InPieces(s: Bytes)
    requires |s| == 22
    ensures s == s[..10] + [s[10]] + (s[11..15] + [s[15]] + (s[16..21] + [s[21]] + []))
  {
  }

  /** Spaces of the device's name become hyphens, and a device without a name is called distribox. */
  lemma {:induction false} HostNameIs(info: DeviceInfo)
    ensures info.name == [] ==> HostName(info) == Ascii("distribox")
    ensures info.name != [] ==> |HostName(info)| == |info.name|
    ensures info.name != [] ==> forall i | 0 <= i < |info.name| ::
              HostName(info)[i] == if info.name[i] == 32 then 45 else info.name[i]
  {
    assert forall i | 0 <= i < |DEFAULT_NAME| :: DEFAULT_NAME[i] != 32;
    if info.name == [] { assert HostName(info) == DEFAULT_NAME; }
  }

  /** The TXT entries, in order. */
  lemma {:induction false} TxtTexts(info: DeviceInfo)
    ensures var texts := Texts(TxtPairs(info));
      && |texts| == 7 + (if info.clusterToken == [] then 0 else 1)
      && texts[0] == Ascii("ver=1.0") && texts[1] == Ascii("role=") + info.role
      && texts[2] == Ascii("name=") + info.name && texts[3] == Ascii("arch=") + info.arch
      && texts[4] == Ascii("os=") + info.os
      && texts[5] == (if info.hasGPU then Ascii("gpu=yes") else Ascii("gpu=no"))
      && texts[6] == Ascii("mem=") + Decimal.Print(info.totalRAMMB)
      && (info.clusterToken != [] ==> texts[7] == Ascii("token=") + info.clusterToken)
  {
    assert ROLE + [61] == Ascii("role=") && NAME + [61] == Ascii("name=") && ARCH + [61] == Ascii("arch=");
    assert OS + [61] == Ascii("os=") && MEM + [61] == Ascii("mem=") && TOKEN + [61] == Ascii("token=");
    assert VER + [61] + VERSION_1 == Ascii("ver=1.0");
    assert GPU + [61] + YES == Ascii("gpu=yes") && GPU + [61] + NO == Ascii("gpu=no");
  }

  // ── What the parser reads ──

  /** The number of two bytes, high one first. */
  lemma {:induction false} HeaderFields(data: Bytes, offset: nat)
    requires HeaderAt(data, offset).Found?
    ensures var h := HeaderAt(data, offset);
      && h.at >= 10 && h.at <= |data|
      && h.rtype == data[h.at - 10] as int * 256 + data[h.at - 9]
      && h.len == data[h.at - 2] as int * 256 + data[h.at - 1]
  {
  }

  /** An SRV record of at least six bytes gives the port and files its target under the record's name. */
  lemma {:induction false} SrvRead(data: Bytes, name: Bytes, at: nat, len: nat, st: Seen)
    requires at + len <= |data|
    ensures len < 6 ==> Apply(data, name, 33, at, len, st) == Some(st)
    ensures len >= 6 && Apply(data, name, 33, at, len, st).Some? ==>
              var next := Apply(data, name, 33, at, len, st).value;
              && next.info == st.info.(port := data[at + 4] as int * 256 + data[at + 5])
              && ParseName(data, at + 6, |data|).Some?
              && next.hosts == st.hosts[name := NameToString(ParseName(data, at + 6, |data|).value.name)]
  {
  }

  /** An A record of at least four bytes files the address they spell under the record's name. */
  lemma {:induction false} ARead(data: Bytes, name: Bytes, at: nat, len: nat, st: Seen)
    requires at + len <= |data|
    ensures len < 4 ==> Apply(data, name, 1, at, len, st) == Some(st)
    ensures len >= 4 ==> exists text ::
      && Apply(data, name, 1, at, len, st) == Some(st.(hosts := st.hosts[name := text]))
      && Split(text, 46) == [Decimal.Print(data[at]), Decimal.Print(data[at + 1]), Decimal.Print(data[at + 2]),
                             Decimal.Print(data[at + 3])]
  {
    if len >= 4 {
      var ip: IPv4 := data[at..at + 4];
      IPTextParts(ip);
      assert ip[0] == data[at] && ip[1] == data[at + 1] && ip[2] == data[at + 2] && ip[3] == data[at + 3];
    }
  }

  /** The address as text: its four numbers, separated by dots. */
  lemma {:induction false} IPTextParts(ip: IPv4)
    ensures Split(IPText(ip), 46) ==
            [Decimal.Print(ip[0]), Decimal.Print(ip[1]), Decimal.Print(ip[2]), Decimal.Print(ip[3])]
  {
    var c, d := Decimal.Print(ip[2]), Decimal.Print(ip[3]);
    SplitAround(Decimal.Print(ip[0]), DOT, Decimal.Print(ip[1]) + [DOT] + (c + [DOT] + d));
    SplitAround(Decimal.Print(ip[1]), DOT, c + [DOT] + d);
    SplitAround(c, DOT, d);
    forall i: nat | i < 4 ensures Split(Decimal.Print(ip[i]), DOT) == [Decimal.Print(ip[i])] {
      assert DOT !in Decimal.Print(ip[i]);
      NoDotIsOnePart(Decimal.Print(ip[i]));
    }
  }

  /** Records of other types change nothing. */
  lemma {:induction false} OthersIgnored(data: Bytes, name: Bytes, rtype: nat, at: nat, len: nat, st: Seen)
    requires at + len <= |data| && rtype != 1 && rtype != 16 && rtype != 33
    ensures Apply(data, name, rtype, at, len, st) == Some(st)
  {
  }

  /** A TXT record counts if it has a version; each field is the value under its own key, and a number that cannot be
      read leaves the memory size as it was. */
  lemma {:induction false} TxtRead(data: Bytes, name: Bytes, at: nat, len: nat, st: Seen)
    requires at + len <= |data|
    ensures var m := TxtMap(data[at..at + len]);
            var next := Apply(data, name, 16, at, len, st);
      && next.Some? && next.value.hosts == st.hosts
      && (Lookup(m, Ascii("ver")) == [] ==> next == Some(st))
      && (Lookup(m, Ascii("ver")) != [] ==>
            var info := next.value.info;
            && info.protocolVersion == Lookup(m, Ascii("ver")) && info.role == Lookup(m, Ascii("role"))
            && info.name == Lookup(m, Ascii("name")) && info.arch == Lookup(m, Ascii("arch"))
            && info.os == Lookup(m, Ascii("os")) && info.clusterToken == Lookup(m, Ascii("token"))
            && (info.hasGPU <==> Lookup(m, Ascii("gpu")) == Ascii("yes"))
            && info.port == st.info.port && info.host == st.info.host
            && (Decimal.Scan(Lookup(m, Ascii("mem"))).None? ==> info.totalRAMMB == st.info.totalRAMMB)
            && (Decimal.Scan(Lookup(m, Ascii("mem"))).Some? ==>
                  info.totalRAMMB == Decimal.Scan(Lookup(m, Ascii("mem"))).value))
  {
  }
}
