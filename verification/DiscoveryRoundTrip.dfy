/** pkg/discovery/mdns.go: what the parser makes of an advertised response, and of hostile bytes. */
module DiscoveryRoundTrip {
  import opened Common
  import opened DnsName
  import opened DnsMessage
  import opened Discovery
  import Decimal

  // ── Any bytes ──

  /** On a message whose pointers lead backward every name resolves and the record loop runs to its end. */
  lemma {:induction false} BackwardMessageParses(data: Bytes, offset: nat, st: Seen)
    requires PointersBackward(data)
    ensures Records(data, offset, st).Some?
    decreases |data| - offset
  {
    if offset < |data| {
      NamesResolve(data, offset);
      var h := HeaderAt(data, offset);
      if h.Found? {
        BackwardApplies(data, h, st);
        var next := Apply(data, h.name, h.rtype, h.at, h.len, st);
        BackwardMessageParses(data, h.at + h.len, next.value);
      }
    }
  }

  lemma {:induction false} BackwardApplies(data: Bytes, h: Header, st: Seen)
    requires PointersBackward(data) && h.Found? && h.at + h.len <= |data|
    ensures Apply(data, h.name, h.rtype, h.at, h.len, st).Some?
  {
    NamesResolve(data, h.at + 6);
  }

  lemma {:induction false} NamesResolve(data: Bytes, offset: nat)
    requires PointersBackward(data)
    ensures NameAt(data, offset).Some?
  {
    BackwardResolves(data, offset);
    DeeperIsSame(data, offset, Min(offset, |data|), |data|);
  }

  // ── Sizes and labels of the advertised names ──

  lemma {:induction false} EncodedLength(s: Bytes)
    ensures |LabelBytes(Labels(s))| <= |s| + 1
    ensures Split(s, DOT)[0] == [] ==> |LabelBytes(Labels(s))| <= |s|
  {
    if s != [] {
      EncodedLength(s[1..]);
      OneMoreByte(s);
    } else {
      assert NonEmpty(Split(s, DOT)[1..]) == [];
    }
  }

  /** A separator in front adds an empty label; another byte lengthens the first one. */
  lemma {:induction false} OneMoreByte(s: Bytes)
    requires s != []
    ensures var rest := Split(s[1..], DOT);
      && (s[0] == DOT ==> Split(s, DOT)[0] == [] && Labels(s) == Labels(s[1..]))
      && (s[0] != DOT ==> Split(s, DOT)[0] != []
                          && |LabelBytes(Labels(s))| == |LabelBytes(Labels(s[1..]))| + if rest[0] == [] then 2 else 1)
  {
    var rest := Split(s[1..], DOT);
    assert rest == [rest[0]] + rest[1..];
    if s[0] == DOT {
      assert Split(s, DOT)[1..] == rest;
    } else {
      assert Split(s, DOT)[1..] == rest[1..];
      assert NonEmpty(Split(s, DOT))[1..] == NonEmpty(rest[1..]);
      if rest[0] != [] {
        assert NonEmpty(rest)[1..] == NonEmpty(rest[1..]);
      } else {
        assert NonEmpty(rest) == NonEmpty(rest[1..]);
      }
    }
  }

  lemma {:induction false} EntriesLength(entries: seq<Bytes>)
    ensures |EncodeEntries(entries)| <= 256 * |entries|
  {
    if entries != [] { EntriesLength(entries[1..]); }
  }

  /** Name followed by a dot and a short suffix: still labels the parser can read. */
  lemma {:induction false} SuffixedLabels(host: Bytes, suffix: Bytes)
    requires ShortLabels(Labels(host)) && |suffix| <= 191
    ensures ByteLabels(Labels(host + [DOT] + suffix)) && ShortLabels(Labels(host + [DOT] + suffix))
  {
    LabelsAround(host, suffix);
    LabelsShort(suffix);
  }

  lemma {:induction false} LabelsShort(name: Bytes)
    ensures forall i | 0 <= i < |Labels(name)| :: |Labels(name)[i]| <= |name|
  {
    LabelsAreShort(name);
    forall i | 0 <= i < |Labels(name)| ensures |Labels(name)[i]| <= |name| {
      assert Labels(name)[i] in Labels(name);
    }
  }

  // ── One record ──

  /** The three parts of a record stand one after the other. */
  lemma {:induction false} RecordSplit(data: Bytes, off: nat, enc: Bytes, fixed: Bytes, rdata: Bytes)
    requires IsAt(data, off, enc + fixed + rdata)
    ensures IsAt(data, off, enc) && IsAt(data, off + |enc|, fixed) && IsAt(data, off + |enc| + |fixed|, rdata)
  {
    assert enc + fixed + rdata == enc + (fixed + rdata);
    IsAtSplit(data, off, enc, fixed + rdata);
    IsAtSplit(data, off + |enc|, fixed, rdata);
  }

  lemma {:induction false} HeaderOfRecord(data: Bytes, off: nat, labels: seq<Bytes>, rtype: nat, rdata: Bytes)
    requires rtype < 0x1_0000 && |rdata| < 0x1_0000 && ByteLabels(labels) && ShortLabels(labels)
    requires IsAt(data, off, Record(EncodeLabels(labels), rtype, CLASS_IN, TTL, rdata))
    ensures var at := off + |EncodeLabels(labels)| + 10;
            && HeaderAt(data, off) == Found(EncodeLabels(labels), rtype, at, |rdata|)
            && data[at..at + |rdata|] == rdata
  {
    RecordSplit(data, off, EncodeLabels(labels), FixedPart(rtype, CLASS_IN, TTL, |rdata|), rdata);
    ScanEncoded(data, off, labels);
    FixedPartRead(data, off + |EncodeLabels(labels)|, rtype, |rdata|);
  }

  lemma {:induction false} FixedPartRead(data: Bytes, at: nat, rtype: nat, len: nat)
    requires rtype < 0x1_0000 && len < 0x1_0000
    requires IsAt(data, at, FixedPart(rtype, CLASS_IN, TTL, len))
    ensures at + 10 <= |data| && U16At(data, at) == rtype && U16At(data, at + 8) == len
  {
    var middle := U16(CLASS_IN) + U32(TTL);
    assert FixedPart(rtype, CLASS_IN, TTL, len) == U16(rtype) + (middle + U16(len));
    IsAtSplit(data, at, U16(rtype), middle + U16(len));
    IsAtSplit(data, at + 2, middle, U16(len));
    U16RoundTrip(data, at, rtype);
    U16RoundTrip(data, at + 8, len);
  }

  /** The record `Record(EncodeLabels(labels), ...)` with data `rdata` stands at `off`, then `tail`. */
  ghost predicate Stands(data: Bytes, off: nat, labels: seq<Bytes>, rtype: nat, rdata: Bytes, tail: Bytes) {
    && rtype < 0x1_0000 && |rdata| < 0x1_0000 && ByteLabels(labels) && ShortLabels(labels)
    && IsAt(data, off, Record(EncodeLabels(labels), rtype, CLASS_IN, TTL, rdata) + tail)
  }

  function DataOffset(off: nat, labels: seq<Bytes>): nat { off + |EncodeLabels(labels)| + 10 }

  /** The parser finds the record at `off`, its data where they stand, and `tail` just past them. */
  ghost predicate Read(data: Bytes, off: nat, labels: seq<Bytes>, rtype: nat, rdata: Bytes, tail: Bytes) {
    var at := DataOffset(off, labels);
    && off < |data| && HeaderAt(data, off) == Found(EncodeLabels(labels), rtype, at, |rdata|)
    && IsAt(data, at, rdata) && IsAt(data, at + |rdata|, tail)
  }

  lemma {:induction false} RecordRead(data: Bytes, off: nat, labels: seq<Bytes>, rtype: nat, rdata: Bytes, tail: Bytes)
    requires Stands(data, off, labels, rtype, rdata, tail)
    ensures Read(data, off, labels, rtype, rdata, tail)
  {
    IsAtSplit(data, off, Record(EncodeLabels(labels), rtype, CLASS_IN, TTL, rdata), tail);
    HeaderOfRecord(data, off, labels, rtype, rdata);
  }

  /** A record that is read and applied, then the loop goes on just past it. */
  lemma {:induction false} RecordStep(data: Bytes, off: nat, labels: seq<Bytes>, rtype: nat, rdata: Bytes, tail: Bytes,
                                      st: Seen, end: nat, next: Seen)
    requires Read(data, off, labels, rtype, rdata, tail) && end == DataOffset(off, labels) + |rdata| <= |data|
    requires Apply(data, EncodeLabels(labels), rtype, DataOffset(off, labels), |rdata|, st) == Some(next)
    ensures Records(data, off, st) == Records(data, end, next) && IsAt(data, end, tail)
  {
    RecordsUnfold(data, off, st, Found(EncodeLabels(labels), rtype, DataOffset(off, labels), |rdata|), next);
  }

  lemma {:induction false} RecordsUnfold(data: Bytes, off: nat, st: Seen, h: Header, next: Seen)
    requires off < |data| && h.Found? && HeaderAt(data, off) == h
    requires h.at + h.len <= |data| && Apply(data, h.name, h.rtype, h.at, h.len, st) == Some(next)
    ensures Records(data, off, st) == Records(data, h.at + h.len, next)
  {
  }

  function SrvBytes(port: nat, target: seq<Bytes>): Bytes
    requires port < 0x1_0000
  {
    U16(0) + U16(0) + U16(port) + EncodeLabels(target)
  }

  lemma {:induction false} SrvParts(data: Bytes, at: nat, port: nat, target: seq<Bytes>)
    requires port < 0x1_0000 && IsAt(data, at, SrvBytes(port, target))
    ensures at + 6 <= |data| && U16At(data, at + 4) == port && IsAt(data, at + 6, EncodeLabels(target))
  {
    var zeros := U16(0) + U16(0);
    assert SrvBytes(port, target) == zeros + (U16(port) + EncodeLabels(target));
    IsAtSplit(data, at, zeros, U16(port) + EncodeLabels(target));
    IsAtSplit(data, at + 4, U16(port), EncodeLabels(target));
    U16RoundTrip(data, at + 4, port);
  }

  lemma {:induction false} SrvApplied(data: Bytes, name: Bytes, at: nat, port: nat, target: seq<Bytes>, st: Seen)
    requires port < 0x1_0000 && ByteLabels(target) && ShortLabels(target) && IsAt(data, at, SrvBytes(port, target))
    ensures Apply(data, name, TYPE_SRV, at, |SrvBytes(port, target)|, st) ==
            Some(Seen(st.info.(port := port), st.hosts[name := NameToString(EncodeLabels(target))]))
  {
    SrvParts(data, at, port, target);
    ScanEncoded(data, at + 6, target);
    assert NameAt(data, at + 6).value.name == EncodeLabels(target);
  }

  /** An SRV record gives the port and the target's text. */
  lemma {:induction false} SrvStep(data: Bytes, off: nat, labels: seq<Bytes>, port: nat, target: seq<Bytes>,
                                   tail: Bytes,
                                   st: Seen, end: nat, next: Seen)
    requires port < 0x1_0000 && ByteLabels(target) && ShortLabels(target)
    requires Read(data, off, labels, TYPE_SRV, SrvBytes(port, target), tail)
    requires end == DataOffset(off, labels) + |SrvBytes(port, target)|
    requires next == Seen(st.info.(port := port), st.hosts[EncodeLabels(labels) := NameToString(EncodeLabels(target))])
    ensures Records(data, off, st) == Records(data, end, next) && IsAt(data, end, tail)
  {
    SrvApplied(data, EncodeLabels(labels), DataOffset(off, labels), port, target, st);
    RecordStep(data, off, labels, TYPE_SRV, SrvBytes(port, target), tail, st, end, next);
  }

  /** A TXT record updates the device's fields. */
  lemma {:induction false} TxtStep(data: Bytes, off: nat, labels: seq<Bytes>, rdata: Bytes, tail: Bytes, st: Seen,
                                   end: nat, next: Seen)
    requires Read(data, off, labels, TYPE_TXT, rdata, tail) && end == DataOffset(off, labels) + |rdata|
    requires next == st.(info := WithTxt(st.info, TxtMap(rdata)))
    ensures Records(data, off, st) == Records(data, end, next) && IsAt(data, end, tail)
  {
    RecordStep(data, off, labels, TYPE_TXT, rdata, tail, st, end, next);
  }

  /** An A record files the address under its name. */
  lemma {:induction false} AStep(data: Bytes, off: nat, labels: seq<Bytes>, ip: IPv4, tail: Bytes, st: Seen, end: nat,
                                 next: Seen)
    requires Read(data, off, labels, TYPE_A, ip, tail) && end == DataOffset(off, labels) + 4
    requires next == st.(hosts := st.hosts[EncodeLabels(labels) := IPText(ip)])
    ensures Records(data, off, st) == Records(data, end, next) && IsAt(data, end, tail)
  {
    RecordStep(data, off, labels, TYPE_A, ip, tail, st, end, next);
  }

  // ── The TXT record ──

  lemma {:induction false} KeyBytes()
    ensures VER == [118, 101, 114] && ROLE == [114, 111, 108, 101] && NAME == [110, 97, 109, 101]
    ensures ARCH == [97, 114, 99, 104] && OS == [111, 115] && GPU == [103, 112, 117] && MEM == [109, 101, 109]
    ensures TOKEN == [116, 111, 107, 101, 110] && YES == [121, 101, 115] && NO == [110, 111]
    ensures VERSION_1 == [49, 46, 48]
  {
  }

  lemma {:induction false} PairsAreKeyed(info: DeviceInfo)
    ensures DistinctKeys(TxtPairs(info)) && forall p <- TxtPairs(info) :: EQUALS !in p.key
  {
    KeyBytes();
    var pairs := TxtPairs(info);
    forall i, j | 0 <= i < j < |pairs| ensures pairs[i].key != pairs[j].key {
      assert |pairs[i].key| == |pairs[j].key| ==> pairs[i].key[0] != pairs[j].key[0];
    }
  }

  /** What the response tells about the device; the host comes from the A record. */
  function Told(info: DeviceInfo, port: int): DeviceInfo {
    DeviceInfo(info.name, [], port, info.role, info.arch, info.os, info.hasGPU, info.totalRAMMB, VERSION_1,
               info.clusterToken)
  }

  /** Every TXT entry fits its length byte, so none is cut. */
  predicate EntriesFit(info: DeviceInfo) {
    forall i | 0 <= i < |TxtPairs(info)| :: |TxtPairs(info)[i].Text()| <= 255
  }

  /** The map the parser builds answers every key with the advertised value. */
  ghost predicate Answers8(m: map<Bytes, Bytes>, info: DeviceInfo) {
    && Lookup(m, VER) == VERSION_1 && Lookup(m, ROLE) == info.role && Lookup(m, NAME) == info.name
    && Lookup(m, ARCH) == info.arch && Lookup(m, OS) == info.os && Lookup(m, GPU) == (if info.hasGPU then YES else NO)
    && Lookup(m, MEM) == Decimal.Print(info.totalRAMMB) && Lookup(m, TOKEN) == info.clusterToken
  }

  lemma {:induction false} PairsLookup(pairs: seq<Pair>, key: Bytes)
    requires DistinctKeys(pairs) && forall p <- pairs :: EQUALS !in p.key
    ensures var m := EntryMap(Texts(pairs));
            && (forall i | 0 <= i < |pairs| && pairs[i].key == key :: Lookup(m, key) == pairs[i].value)
            && ((forall i | 0 <= i < |pairs| :: pairs[i].key != key) ==> Lookup(m, key) == [])
  {
    PairsRoundTrip(pairs);
    assert forall i | 0 <= i < |pairs| :: pairs[i] in pairs;
  }

  /** The entry of pair `i` is read back under its key. */
  lemma {:induction false} PairRead(pairs: seq<Pair>, m: map<Bytes, Bytes>, i: nat)
    requires DistinctKeys(pairs) && forall p <- pairs :: EQUALS !in p.key
    requires m == EntryMap(Texts(pairs)) && i < |pairs|
    ensures Lookup(m, pairs[i].key) == pairs[i].value
  {
    PairsLookup(pairs, pairs[i].key);
  }

  lemma {:induction false} MapAnswers(info: DeviceInfo, m: map<Bytes, Bytes>)
    requires m == EntryMap(Texts(TxtPairs(info)))
    ensures Answers8(m, info)
  {
    var pairs := TxtPairs(info);
    PairsAreKeyed(info);
    PairRead(pairs, m, 0);
    PairRead(pairs, m, 1);
    PairRead(pairs, m, 2);
    PairRead(pairs, m, 3);
    PairRead(pairs, m, 4);
    PairRead(pairs, m, 5);
    PairRead(pairs, m, 6);
    TokenRead(info, pairs, m);
  }

  lemma {:induction false} TokenRead(info: DeviceInfo, pairs: seq<Pair>, m: map<Bytes, Bytes>)
    requires pairs == TxtPairs(info) && m == EntryMap(Texts(pairs))
    requires DistinctKeys(pairs) && forall p <- pairs :: EQUALS !in p.key
    ensures Lookup(m, TOKEN) == info.clusterToken
  {
    PairsLookup(pairs, TOKEN);
    if info.clusterToken != [] {
      assert pairs[7].key == TOKEN;
    } else {
      KeyBytes();
      assert forall i | 0 <= i < |pairs| :: |pairs[i].key| <= 4;
    }
  }

  lemma {:induction false} TxtRead(info: DeviceInfo, before: DeviceInfo)
    requires EntriesFit(info) && info.totalRAMMB < TWO64
    ensures WithTxt(before, TxtMap(EncodeEntries(Texts(TxtPairs(info)))))
         == Told(info, before.port).(host := before.host)
  {
    var data := EncodeEntries(Texts(TxtPairs(info)));
    assert data[0..|data|] == data;
    EntriesRoundTrip(data, 0, Texts(TxtPairs(info)));
    MapAnswers(info, TxtMap(data));
    KeyBytes();
    Decimal.ScanOfPrint(info.totalRAMMB, []);
    assert Decimal.Print(info.totalRAMMB) + [] == Decimal.Print(info.totalRAMMB);
  }

  // ── The host ──

  /** The bytes an IP address text can hold. */
  predicate IPByte(b: int) {
    48 <= b <= 57 || 65 <= b <= 70 || 97 <= b <= 102 || b == 46 || b == 58
  }

  /** What the model needs to know of net.ParseIP: it takes every dotted quad, and nothing with a foreign byte. */
  ghost predicate ParsesIPs(isIP: Bytes -> bool) {
    && !isIP([])
    && (forall ip: IPv4 :: isIP(IPText(ip)))
    && (forall t: Bytes, i: nat | i < |t| && !IPByte(t[i]) :: !isIP(t))
  }

  lemma {:induction false} IPTextInjective(a: IPv4, b: IPv4)
    requires IPText(a) == IPText(b)
    ensures a == b
  {
    Decimal.PrintDotInjective(a[0], Decimal.Print(a[1]) + [DOT] + (Decimal.Print(a[2]) + [DOT] + Decimal.Print(a[3])),
                              b[0], Decimal.Print(b[1]) + [DOT] + (Decimal.Print(b[2]) + [DOT] + Decimal.Print(b[3])));
    Decimal.PrintDotInjective(a[1], Decimal.Print(a[2]) + [DOT] + Decimal.Print(a[3]),
                              b[1], Decimal.Print(b[2]) + [DOT] + Decimal.Print(b[3]));
    Decimal.PrintDotInjective(a[2], Decimal.Print(a[3]), b[2], Decimal.Print(b[3]));
    Decimal.PrintInjective(a[3], b[3]);
  }

  lemma {:induction false} LoopbackText()
    ensures IPText([127, 0, 0, 1]) == LOOPBACK
  {
    assert Decimal.Print(12) == [49] + [50];
    assert Decimal.Print(127) == [49, 50, 55];
    assert Decimal.Print(0) == [48] && Decimal.Print(1) == [49];
    assert LOOPBACK == [49, 50, 55, 46, 48, 46, 48, 46, 49];
  }

  lemma {:induction false} UnknownIsNoIPText(ip: IPv4)
    ensures IPText(ip) != UNKNOWN && IPText(ip) != []
  {
    assert UNKNOWN[0] == 117;
    assert IPText(ip)[0] == Decimal.Print(ip[0])[0] && Decimal.Print(ip[0])[0] in Decimal.Print(ip[0]);
  }

  lemma {:induction false} JoinEnds(parts: seq<Bytes>)
    requires parts != []
    ensures var last := parts[|parts| - 1]; |Join(parts)| >= |last| && Join(parts)[|Join(parts)| - |last|..] == last
  {
    if |parts| > 1 {
      JoinEnds(parts[1..]);
    }
  }

  lemma {:induction false} SplitWithoutSeparator(s: Bytes)
    requires forall i | 0 <= i < |s| :: s[i] != DOT
    ensures Split(s, DOT) == [s]
  {
    if s != [] {
      SplitWithoutSeparator(s[1..]);
      assert [s[0]] + s[1..] == s;
    }
  }

  const LOCAL: Bytes := [108, 111, 99, 97, 108]

  lemma {:induction false} OneLabelBeforeDot(l: Bytes)
    requires l != [] && DOT !in l
    ensures Labels(l + [DOT]) == [l]
  {
    assert l + [DOT] == l + [DOT] + [];
    LabelsAround(l, []);
    SplitWithoutSeparator(l);
    var one: seq<Bytes> := [l];
    assert one[1..] == [];
    var none: seq<Bytes> := [[]];
    assert none[1..] == [];
  }

  lemma {:induction false} LocalLabels()
    ensures Labels(LOCAL_SUFFIX) == [LOCAL]
  {
    assert LOCAL_SUFFIX == LOCAL + [DOT];
    OneLabelBeforeDot(LOCAL);
  }

  /** The SRV target, shown as text, is no IP address. */
  lemma {:induction false} TargetIsNoIP(info: DeviceInfo, isIP: Bytes -> bool)
    requires ParsesIPs(isIP) && ShortLabels(Labels(HostName(info)))
    ensures !isIP(NameToString(EncodeName(LocalName(info))))
  {
    LocalLabels();
    LabelsAround(HostName(info), LOCAL_SUFFIX);
    SuffixedLabels(HostName(info), LOCAL_SUFFIX);
    TextOfEncodedName(LocalName(info));
    var labels := Labels(LocalName(info));
    assert labels[|labels| - 1] == LOCAL;
    JoinEnds(labels);
    var text := Join(labels);
    assert text[|text| - 5] == text[|text| - 5..][0] == 108;
  }

  // ── The whole message ──

  /** The names can be read back and nothing of the TXT record is cut. */
  predicate Advertisable(info: DeviceInfo) {
    ShortLabels(Labels(HostName(info))) && EntriesFit(info) && info.totalRAMMB < TWO64
  }

  lemma {:induction false} RecordDataFit(info: DeviceInfo, port: int)
    requires Advertisable(info)
    ensures |EncodeName(FullName(info))| < 0x1_0000 && |SrvData(info, port)| < 0x1_0000
    ensures |EncodeEntries(Texts(TxtPairs(info)))| < 0x1_0000
  {
    assert |TxtPairs(info)[2].Text()| == |NAME| + 1 + |info.name| <= 255;
    EncodedLength(FullName(info));
    EncodedLength(LocalName(info));
    EntriesLength(Texts(TxtPairs(info)));
  }

  /** What the record loop has after the PTR and SRV records. */
  function AfterSrv(info: DeviceInfo, port: int): Seen {
    Seen(NOTHING.info.(port := port % 0x1_0000),
         NOTHING.hosts[EncodeName(FullName(info)) := NameToString(EncodeName(LocalName(info)))])
  }

  function AfterAll(info: DeviceInfo, port: int, ip: IPv4): Seen {
    Seen(Told(info, port % 0x1_0000), AfterSrv(info, port).hosts[EncodeName(LocalName(info)) := IPText(ip)])
  }

  lemma {:induction false} NamesReadable(info: DeviceInfo)
    requires ShortLabels(Labels(HostName(info)))
    ensures ByteLabels(Labels(FullName(info))) && ShortLabels(Labels(FullName(info)))
    ensures ByteLabels(Labels(LocalName(info))) && ShortLabels(Labels(LocalName(info)))
    ensures ByteLabels(Labels(SERVICE_TYPE)) && ShortLabels(Labels(SERVICE_TYPE))
  {
    SuffixedLabels(HostName(info), SERVICE_TYPE);
    SuffixedLabels(HostName(info), LOCAL_SUFFIX);
    LabelsShort(SERVICE_TYPE);
  }

  /** The record loop over a PTR and an SRV record. */
  lemma {:induction false} PtrSrvRead(data: Bytes, service: seq<Bytes>, full: seq<Bytes>, host: seq<Bytes>, ptr: Bytes,
                                      port: nat, tail: Bytes, st: Seen, mid: nat, end: nat, srv: Seen)
    requires port < 0x1_0000 && ByteLabels(host) && ShortLabels(host)
    requires Stands(data, 0, service, TYPE_PTR, ptr,
                    Record(EncodeLabels(full), TYPE_SRV, CLASS_IN, TTL, SrvBytes(port, host)) + tail)
    requires |SrvBytes(port, host)| < 0x1_0000 && ByteLabels(full) && ShortLabels(full)
    requires srv == Seen(st.info.(port := port), st.hosts[EncodeLabels(full) := NameToString(EncodeLabels(host))])
    requires mid == DataOffset(0, service) + |ptr| && end == DataOffset(mid, full) + |SrvBytes(port, host)|
    ensures Records(data, 0, st) == Records(data, end, srv) && IsAt(data, end, tail)
  {
    RecordRead(data, 0, service, TYPE_PTR, ptr,
               Record(EncodeLabels(full), TYPE_SRV, CLASS_IN, TTL, SrvBytes(port, host)) + tail);
    RecordStep(data, 0, service, TYPE_PTR, ptr,
               Record(EncodeLabels(full), TYPE_SRV, CLASS_IN, TTL, SrvBytes(port, host)) + tail,
               st, mid, st);
    RecordRead(data, mid, full, TYPE_SRV, SrvBytes(port, host), tail);
    SrvStep(data, mid, full, port, host, tail, st, end, srv);
  }

  /** The record loop over a TXT and an A record that end the message. */
  lemma {:induction false} TxtARead(data: Bytes, off: nat, full: seq<Bytes>, host: seq<Bytes>, txt: Bytes, ip: IPv4,
                                    st: Seen, last: Seen)
    requires Stands(data, off, full, TYPE_TXT, txt, Record(EncodeLabels(host), TYPE_A, CLASS_IN, TTL, ip))
    requires ByteLabels(host) && ShortLabels(host)
    requires |data| == DataOffset(DataOffset(off, full) + |txt|, host) + 4
    requires last == Seen(WithTxt(st.info, TxtMap(txt)), st.hosts[EncodeLabels(host) := IPText(ip)])
    ensures Records(data, off, st) == Some(last)
  {
    var a := Record(EncodeLabels(host), TYPE_A, CLASS_IN, TTL, ip);
    var mid, seen := DataOffset(off, full) + |txt|, st.(info := WithTxt(st.info, TxtMap(txt)));
    RecordRead(data, off, full, TYPE_TXT, txt, a);
    TxtStep(data, off, full, txt, a, st, mid, seen);
    assert a + [] == a;
    RecordRead(data, mid, host, TYPE_A, ip, []);
    AStep(data, mid, host, ip, [], seen, |data|, last);
  }

  /** The record loop over a PTR, an SRV, a TXT and an A record that fill the message. */
  lemma {:induction false} FourRecordsRead(data: Bytes, service: seq<Bytes>, full: seq<Bytes>, host: seq<Bytes>,
                                           ptr: Bytes, port: nat, txt: Bytes, ip: IPv4, st: Seen, srv: Seen, last: Seen)
    requires port < 0x1_0000 && |ptr| < 0x1_0000 && |SrvBytes(port, host)| < 0x1_0000 && |txt| < 0x1_0000
    requires ByteLabels(service) && ShortLabels(service) && ByteLabels(full) && ShortLabels(full) && ByteLabels(host)
    requires ShortLabels(host)
    requires data == Record(EncodeLabels(service), TYPE_PTR, CLASS_IN, TTL, ptr)
                     + (Record(EncodeLabels(full), TYPE_SRV, CLASS_IN, TTL, SrvBytes(port, host))
                        + (Record(EncodeLabels(full), TYPE_TXT, CLASS_IN, TTL, txt)
                           + Record(EncodeLabels(host), TYPE_A, CLASS_IN, TTL, ip)))
    requires srv == Seen(st.info.(port := port), st.hosts[EncodeLabels(full) := NameToString(EncodeLabels(host))])
    requires last == Seen(WithTxt(srv.info, TxtMap(txt)), srv.hosts[EncodeLabels(host) := IPText(ip)])
    ensures Records(data, 0, st) == Some(last)
  {
    var mid := DataOffset(0, service) + |ptr|;
    var end := DataOffset(mid, full) + |SrvBytes(port, host)|;
    assert IsAt(data, 0, data);
    PtrSrvRead(data, service, full, host, ptr, port,
               Record(EncodeLabels(full), TYPE_TXT, CLASS_IN, TTL, txt)
               + Record(EncodeLabels(host), TYPE_A, CLASS_IN, TTL, ip),
               st, mid, end, srv);
    TxtARead(data, end, full, host, txt, ip, srv, last);
  }

  /** Reading the four answers collects everything that was advertised. */
  lemma {:induction false} AnswersRead(info: DeviceInfo, port: int, ip: IPv4)
    requires Advertisable(info)
    ensures Records(Answers(info, port, ip), 0, NOTHING) == Some(AfterAll(info, port, ip))
  {
    NamesReadable(info);
    RecordDataFit(info, port);
    var txt := EncodeEntries(Texts(TxtPairs(info)));
    TxtRead(info, AfterSrv(info, port).info);
    FourRecordsRead(Answers(info, port, ip), Labels(SERVICE_TYPE), Labels(FullName(info)), Labels(LocalName(info)),
                    EncodeName(FullName(info)), port % 0x1_0000, txt, ip, NOTHING, AfterSrv(info, port),
                    AfterAll(info, port, ip));
  }

  /** Only the A record's address can be picked. */
  lemma {:induction false} PickedHost(info: DeviceInfo, port: int, ip: IPv4, isIP: Bytes -> bool, host: Bytes)
    requires Advertisable(info) && ParsesIPs(isIP)
    ensures MayPick(AfterAll(info, port, ip).hosts, isIP, host) ==> host == IPText(ip)
  {
    TargetIsNoIP(info, isIP);
    var hosts := AfterAll(info, port, ip).hosts;
    assert hosts[EncodeName(LocalName(info))] == IPText(ip) && EncodeName(LocalName(info)) in hosts;
  }

  lemma {:induction false} FinishedWith(info: DeviceInfo, port: int, ip: IPv4)
    ensures Finish(Told(info, port), IPText(ip)) ==
              if info.name == [] || ip == [127, 0, 0, 1] then None else Some(Told(info, port).(host := IPText(ip)))
  {
    LoopbackText();
    UnknownIsNoIPText(ip);
    KeyBytes();
    if IPText(ip) == LOOPBACK {
      IPTextInjective(ip, [127, 0, 0, 1]);
    }
  }

  /**
   * Whole-message round trip. Parsing the bytes after the 12-byte header gives back the advertised
   * device with the A record's address, whichever collected host the map iteration meets first,
   * except that a nameless device and the loopback address are dropped.
   */
  lemma {:induction false} ResponseRoundTrip(info: DeviceInfo, port: int, ip: IPv4, isIP: Bytes -> bool, host: Bytes)
    requires Advertisable(info) && ParsesIPs(isIP)
    ensures |HEADER| == 12
    ensures var st := Records((HEADER + Answers(info, port, ip))[12..], 0, NOTHING);
            && st.Some?
            && (MayPick(st.value.hosts, isIP, host) ==>
                  && host == IPText(ip)
                  && Finish(st.value.info, host) ==
                       if info.name == [] || ip == [127, 0, 0, 1] then None
                       else Some(Told(info, port % 0x1_0000).(host := IPText(ip))))
  {
    assert (HEADER + Answers(info, port, ip))[12..] == Answers(info, port, ip);
    AnswersRead(info, port, ip);
    PickedHost(info, port, ip, isIP, host);
    if MayPick(AfterAll(info, port, ip).hosts, isIP, host) {
      FinishedWith(info, port % 0x1_0000, ip);
    }
  }
}
