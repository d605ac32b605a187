/**
 * pkg/discovery/mdns.go: TXT entries, resource records, the advertised response and its parser.
 *
 * net.ParseIP is a parameter `isIP` that says whether a text parses; the local address is a
 * parameter of the builder.
 */
module DnsMessage {
  import opened Common
  import opened DnsName

  /** The bytes of an ASCII literal. */
  function Ascii(s: string): (r: Bytes)
    ensures |r| == |s| && forall i | 0 <= i < |s| :: r[i] == (s[i] as int) % 256
  {
    seq(|s|, i requires 0 <= i < |s| => (s[i] as int) % 256)
  }

  const EQUALS: Byte := 61
  const SPACE: Byte := 32
  const HYPHEN: Byte := 45
  const TYPE_A := 1
  const TYPE_PTR := 12
  const TYPE_TXT := 16
  const TYPE_SRV := 33
  const CLASS_IN := 1
  const TTL := 120

  // ── TXT entries (section 6 of RFC 6763) ──

  function Cut255(e: Bytes): (r: Bytes)
    ensures r <= e && |r| == Min(|e|, 255)
  {
    if |e| > 255 then e[..255] else e
  }

  function EncodeEntries(entries: seq<Bytes>): Bytes {
    if entries == [] then [] else [|Cut255(entries[0])|] + Cut255(entries[0]) + EncodeEntries(entries[1..])
  }

  lemma {:induction false} EncodeEntriesAppend(entries: seq<Bytes>, e: Bytes)
    ensures EncodeEntries(entries + [e]) == EncodeEntries(entries) + [|Cut255(e)|] + Cut255(e)
  {
    if entries == [] {
      assert EncodeEntries([e][1..]) == [];
      assert [] + [e] == [e];
    } else {
      EncodeEntriesAppend(entries[1..], e);
      assert (entries + [e])[1..] == entries[1..] + [e] && (entries + [e])[0] == entries[0];
      Regroup([|Cut255(entries[0])|] + Cut255(entries[0]), EncodeEntries(entries[1..]), [|Cut255(e)|], Cut255(e));
    }
  }

  method EncodeTXT(entries: seq<Bytes>) returns (result: Bytes)
    ensures result == EncodeEntries(entries)
  {
    result := [];
    var i := 0;
    while i < |entries|
      invariant 0 <= i <= |entries|
      invariant result == EncodeEntries(entries[..i])
    {
      var e := entries[i];
      assert entries[..i + 1] == entries[..i] + [e];
      EncodeEntriesAppend(entries[..i], e);
      if |e| > 255 {
        e := e[..255];
      }
      result := result + [|e|];
      result := result + e;
      i := i + 1;
    }
    assert entries[..i] == entries;
  }

  /** The entries parseTXT cuts out of the record data from an offset on. */
  function Entries(data: Bytes, offset: nat): seq<Bytes>
    decreases |data| - offset
  {
    if offset >= |data| || offset + 1 + data[offset] > |data| then []
    else [data[offset + 1..offset + 1 + data[offset]]] + Entries(data, offset + 1 + data[offset])
  }

  /** The position of the first `=`, or the length. */
  function KeyLength(e: Bytes): (k: nat)
    ensures k <= |e| && (k < |e| ==> e[k] == EQUALS) && forall i | 0 <= i < k :: e[i] != EQUALS
  {
    if e == [] || e[0] == EQUALS then 0
    else 1 + KeyLength(e[1..])
  }

  function AddEntry(m: map<Bytes, Bytes>, e: Bytes): map<Bytes, Bytes> {
    var k := KeyLength(e);
    if k < |e| then m[e[..k] := e[k + 1..]] else m
  }

  function EntryMap(entries: seq<Bytes>): map<Bytes, Bytes> {
    if entries == [] then map[] else AddEntry(EntryMap(entries[..|entries| - 1]), entries[|entries| - 1])
  }

  function TxtMap(data: Bytes): map<Bytes, Bytes> { EntryMap(Entries(data, 0)) }

  lemma {:induction false} EntryMapAppend(entries: seq<Bytes>, e: Bytes)
    ensures EntryMap(entries + [e]) == AddEntry(EntryMap(entries), e)
  {
    assert (entries + [e])[..|entries|] == entries;
  }

  lemma {:induction false} EntriesStep(data: Bytes, off: nat, e: Bytes)
    requires |e| <= 255 && off < |data| && data[off] == |e| && IsAt(data, off + 1, e)
    ensures Entries(data, off) == [e] + Entries(data, off + 1 + |e|)
  {
  }

  /** One more entry read: the list and the map it stands for both grow by it. */
  lemma {:induction false} EntryRead(data: Bytes, off: nat, e: Bytes, done: seq<Bytes>)
    requires |e| <= 255 && off < |data| && data[off] == |e| && IsAt(data, off + 1, e)
    ensures done + Entries(data, off) == (done + [e]) + Entries(data, off + 1 + |e|)
    ensures EntryMap(done + [e]) == AddEntry(EntryMap(done), e)
  {
    EntriesStep(data, off, e);
    EntryMapAppend(done, e);
  }

  method ParseTXT(data: Bytes) returns (result: map<Bytes, Bytes>)
    ensures result == TxtMap(data)
  {
    result := map[];
    var offset := 0;
    ghost var done: seq<Bytes> := [];
    while offset < |data|
      invariant 0 <= offset <= |data|
      invariant done + Entries(data, offset) == Entries(data, 0)
      invariant result == EntryMap(done)
    {
      var length: int := data[offset];
      offset := offset + 1;
      if offset + length > |data| {
        break;
      }
      var entry := data[offset..offset + length];
      EntryRead(data, offset - 1, entry, done);
      done := done + [entry];
      offset := offset + length;
      result := KeepPair(result, entry);
    }
    assert done == Entries(data, 0);
  }

  /** The strings.SplitN step: an entry without `=` is skipped. */
  method KeepPair(m: map<Bytes, Bytes>, entry: Bytes) returns (r: map<Bytes, Bytes>)
    ensures r == AddEntry(m, entry)
  {
    var k := KeyLength(entry);
    r := m;
    if k < |entry| {
      r := m[entry[..k] := entry[k + 1..]];
    }
  }

  lemma {:induction false} FirstEntry(data: Bytes, off: nat, e: Bytes, tail: Bytes)
    requires |e| <= 255 && IsAt(data, off, [|e|] + e + tail)
    ensures data[off] == |e| && IsAt(data, off + 1, e) && IsAt(data, off + 1 + |e|, tail)
  {
    var len: Bytes := [|e|];
    assert [|e|] + e + tail == len + (e + tail);
    IsAtSplit(data, off, len, e + tail);
    assert data[off] == data[off..off + 1][0];
    IsAtSplit(data, off + 1, e, tail);
  }

  lemma {:induction false} OneEntryThen(data: Bytes, off: nat, e: Bytes, tail: Bytes)
    requires |e| <= 255 && IsAt(data, off, [|e|] + e + tail)
    ensures off + 1 + |e| <= |data| && Entries(data, off) == [e] + Entries(data, off + 1 + |e|)
    ensures IsAt(data, off + 1 + |e|, tail)
  {
    FirstEntry(data, off, e, tail);
    EntriesStep(data, off, e);
  }

  /** What was encoded, cut to 255 bytes an entry, is what the parser sees. */
  lemma {:induction false} EntriesRoundTrip(data: Bytes, off: nat, entries: seq<Bytes>)
    requires IsAt(data, off, EncodeEntries(entries)) && off + |EncodeEntries(entries)| == |data|
    requires forall i | 0 <= i < |entries| :: |entries[i]| <= 255
    ensures Entries(data, off) == entries
    decreases |entries|
  {
    if entries != [] {
      var e, rest := entries[0], entries[1..];
      var tail := EncodeEntries(rest);
      assert EncodeEntries(entries) == [|e|] + e + tail;
      OneEntryThen(data, off, e, tail);
      EntriesRoundTrip(data, off + 1 + |e|, rest);
    }
  }

  // ── Key/value lists ──

  datatype Pair = Pair(key: Bytes, value: Bytes) {
    function Text(): Bytes { key + [EQUALS] + value }
  }

  function Texts(pairs: seq<Pair>): (r: seq<Bytes>)
    ensures |r| == |pairs| && forall i | 0 <= i < |r| :: r[i] == pairs[i].Text()
  {
    seq(|pairs|, i requires 0 <= i < |pairs| => pairs[i].Text())
  }

  ghost function Keys(pairs: seq<Pair>): set<Bytes> {
    set p | p in pairs :: p.key
  }

  lemma {:induction false} KeyLengthIs(e: Bytes, n: nat)
    requires n < |e| && e[n] == EQUALS && forall i | 0 <= i < n :: e[i] != EQUALS
    ensures KeyLength(e) == n
  {
    if n > 0 { KeyLengthIs(e[1..], n - 1); }
  }

  lemma {:induction false} AddPair(m: map<Bytes, Bytes>, p: Pair)
    requires EQUALS !in p.key
    ensures AddEntry(m, p.Text()) == m[p.key := p.value]
  {
    var e := p.Text();
    var k := KeyLength(e);
    assert forall i | 0 <= i < |p.key| :: e[i] == p.key[i] && e[i] in p.key;
    assert e[|p.key|] == EQUALS;
    KeyLengthIs(e, |p.key|);
    assert e[..|p.key|] == p.key && e[|p.key| + 1..] == p.value;
  }

  ghost predicate DistinctKeys(pairs: seq<Pair>) {
    forall i, j | 0 <= i < j < |pairs| :: pairs[i].key != pairs[j].key
  }

  /** The map holds exactly the pairs. */
  ghost predicate HoldsPairs(m: map<Bytes, Bytes>, pairs: seq<Pair>) {
    m.Keys == Keys(pairs) && forall i | 0 <= i < |pairs| :: pairs[i].key in m && m[pairs[i].key] == pairs[i].value
  }

  lemma {:induction false} HoldsOneMore(m: map<Bytes, Bytes>, before: seq<Pair>, last: Pair)
    requires HoldsPairs(m, before) && DistinctKeys(before + [last])
    ensures HoldsPairs(m[last.key := last.value], before + [last])
  {
    var pairs := before + [last];
    assert Keys(pairs) == Keys(before) + {last.key};
    forall i | 0 <= i < |before| ensures pairs[i] == before[i] && before[i].key != last.key {
      assert pairs[i].key != pairs[|before|].key;
    }
  }

  /** Values survive the text form under every one of distinct keys without an equals sign. */
  lemma {:induction false} PairsRoundTrip(pairs: seq<Pair>)
    requires DistinctKeys(pairs) && forall i | 0 <= i < |pairs| :: EQUALS !in pairs[i].key
    ensures HoldsPairs(EntryMap(Texts(pairs)), pairs)
    decreases |pairs|
  {
    if pairs != [] {
      var n := |pairs| - 1;
      var before, last := pairs[..n], pairs[n];
      PairsRoundTrip(before);
      assert Texts(pairs)[..n] == Texts(before);
      AddPair(EntryMap(Texts(before)), last);
      assert pairs == before + [last];
      HoldsOneMore(EntryMap(Texts(before)), before, last);
    }
  }

  // ── Resource records (section 4.1.3 of RFC 1035) ──

  function U16(x: nat): (r: Bytes)
    requires x < 0x1_0000
    ensures |r| == 2
  {
    [x / 256, x % 256]
  }

  function U16At(data: Bytes, offset: nat): (x: nat)
    requires offset + 2 <= |data|
    ensures x < 0x1_0000
  {
    data[offset] as int * 256 + data[offset + 1]
  }

  function U32(x: nat): (r: Bytes)
    requires x < 0x1_0000_0000
    ensures |r| == 4
  {
    U16(x / 0x1_0000) + U16(x % 0x1_0000)
  }

  lemma {:induction false} U16RoundTrip(data: Bytes, off: nat, x: nat)
    requires x < 0x1_0000 && IsAt(data, off, U16(x))
    ensures U16At(data, off) == x
  {
    assert data[off] == data[off..off + 2][0] && data[off + 1] == data[off..off + 2][1];
  }

  /** The fixed part between a record's name and its data. */
  function FixedPart(rtype: nat, rclass: nat, ttl: nat, length: nat): (r: Bytes)
    requires rtype < 0x1_0000 && rclass < 0x1_0000 && ttl < 0x1_0000_0000
    ensures |r| == 10
  {
    U16(rtype) + U16(rclass) + U32(ttl) + U16(length % 0x1_0000)
  }

  function Record(name: Bytes, rtype: nat, rclass: nat, ttl: nat, rdata: Bytes): (r: Bytes)
    requires rtype < 0x1_0000 && rclass < 0x1_0000 && ttl < 0x1_0000_0000
    ensures |r| == |name| + 10 + |rdata|
  {
    name + FixedPart(rtype, rclass, ttl, |rdata|) + rdata
  }

  /**
   * A record byte by byte: the name, then type, class, time to live and length with the high byte first, then the data.
   */
  ghost predicate HasRecordBytes(r: Bytes, name: Bytes, rtype: nat, rclass: nat, ttl: nat, rdata: Bytes) {
    var n := |name|;
    && |r| == n + 10 + |rdata| && r[..n] == name && r[n + 10..] == rdata
    && r[n] as int * 256 + r[n + 1] == rtype && r[n + 2] as int * 256 + r[n + 3] == rclass
    && r[n + 4] as int * 0x100_0000 + r[n + 5] as int * 0x1_0000 + r[n + 6] as int * 256 + r[n + 7] == ttl
    && r[n + 8] as int * 256 + r[n + 9] == |rdata| % 0x1_0000
  }

  lemma {:induction false} FixedPartBytes(rtype: nat, rclass: nat, ttl: nat, length: nat)
    requires rtype < 0x1_0000 && rclass < 0x1_0000 && ttl < 0x1_0000_0000
    ensures var f := FixedPart(rtype, rclass, ttl, length);
      && f[0] as int * 256 + f[1] == rtype && f[2] as int * 256 + f[3] == rclass
      && f[4] as int * 0x100_0000 + f[5] as int * 0x1_0000 + f[6] as int * 256 + f[7] == ttl
      && f[8] as int * 256 + f[9] == length % 0x1_0000
  {
  }

  lemma {:induction false} RecordBytes(name: Bytes, rtype: nat, rclass: nat, ttl: nat, rdata: Bytes)
    requires rtype < 0x1_0000 && rclass < 0x1_0000 && ttl < 0x1_0000_0000
    ensures HasRecordBytes(Record(name, rtype, rclass, ttl, rdata), name, rtype, rclass, ttl, rdata)
  {
    var r, f, n := Record(name, rtype, rclass, ttl, rdata), FixedPart(rtype, rclass, ttl, |rdata|), |name|;
    FixedPartBytes(rtype, rclass, ttl, |rdata|);
    assert forall i | 0 <= i < 10 :: r[n + i] == f[i];
  }

  /** Go's copy into a slice that starts at `at`; the piece fits. */
  method CopyAt(dst: array<Byte>, at: nat, piece: Bytes)
    requires at + |piece| <= dst.Length
    modifies dst
    ensures dst[..at + |piece|] == old(dst[..at]) + piece
  {
    forall i | 0 <= i < |piece| {
      dst[at + i] := piece[i];
    }
  }

  /** The ten bytes between name and data. */
  method CopyFixedPart(buf: array<Byte>, offset: nat, rtype: nat, rclass: nat, ttl: nat, length: nat)
    requires rtype < 0x1_0000 && rclass < 0x1_0000 && ttl < 0x1_0000_0000 && offset + 10 <= buf.Length
    modifies buf
    ensures buf[..offset + 10] == old(buf[..offset]) + FixedPart(rtype, rclass, ttl, length)
  {
    CopyAt(buf, offset, U16(rtype));
    CopyAt(buf, offset + 2, U16(rclass));
    CopyAt(buf, offset + 4, U32(ttl));
    CopyAt(buf, offset + 8, U16(length % 0x1_0000));
  }

  method BuildRR(name: Bytes, rtype: nat, rclass: nat, ttl: nat, rdata: Bytes) returns (rr: Bytes)
    requires rtype < 0x1_0000 && rclass < 0x1_0000 && ttl < 0x1_0000_0000
    ensures rr == Record(name, rtype, rclass, ttl, rdata)
    ensures HasRecordBytes(rr, name, rtype, rclass, ttl, rdata)
  {
    RecordBytes(name, rtype, rclass, ttl, rdata);
    var buf := new Byte[10 + |name| + |rdata|](_ => 0);
    CopyAt(buf, 0, name);
    var offset := |name|;
    assert buf[..offset] == name;
    CopyFixedPart(buf, offset, rtype, rclass, ttl, |rdata|);
    CopyAt(buf, offset + 10, rdata);
    rr := buf[..];
    assert rr == buf[..offset + 10 + |rdata|];
  }
}
