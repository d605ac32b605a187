/**
 * pkg/discovery/mdns.go: domain names on the wire (section 3.1 of RFC 1035) and the
 * compression pointers the parser follows (section 4.1.4).
 */
module DnsName {
  import opened Common

  const DOT: Byte := 46

  // ── Encoding ──

  /** strings.Split with a one-byte separator. */
  function Split(s: Bytes, sep: Byte): (parts: seq<Bytes>)
    ensures |parts| >= 1
  {
    if s == [] then [[]]
    else if s[0] == sep then [[]] + Split(s[1..], sep)
    else
      var rest := Split(s[1..], sep);
      [[s[0]] + rest[0]] + rest[1..]
  }

  function NonEmpty(parts: seq<Bytes>): (r: seq<Bytes>)
    ensures forall i | 0 <= i < |r| :: |r[i]| >= 1
  {
    if parts == [] then []
    else (if parts[0] == [] then [] else [parts[0]]) + NonEmpty(parts[1..])
  }

  /** The labels a dotted name stands for. */
  function Labels(name: Bytes): (r: seq<Bytes>)
    ensures forall i | 0 <= i < |r| :: |r[i]| >= 1
  {
    NonEmpty(Split(name, DOT))
  }

  /** Length-prefixed labels without the root; a length is stored modulo 256. */
  function LabelBytes(labels: seq<Bytes>): Bytes {
    if labels == [] then [] else [|labels[0]| % 256] + labels[0] + LabelBytes(labels[1..])
  }

  function EncodeLabels(labels: seq<Bytes>): (r: Bytes)
    ensures |r| >= 1
  {
    LabelBytes(labels) + [0]
  }

  function EncodeName(name: Bytes): Bytes {
    EncodeLabels(Labels(name))
  }

  lemma {:induction false} LabelBytesAppend(labels: seq<Bytes>, l: Bytes)
    ensures LabelBytes(labels + [l]) == LabelBytes(labels) + [|l| % 256] + l
  {
    if labels == [] {
      assert LabelBytes([l][1..]) == [];
      assert [] + [l] == [l];
    } else {
      LabelBytesAppend(labels[1..], l);
      assert (labels + [l])[1..] == labels[1..] + [l] && (labels + [l])[0] == labels[0];
      Regroup([|labels[0]| % 256] + labels[0], LabelBytes(labels[1..]), [|l| % 256], l);
    }
  }

  lemma {:induction false} Regroup(a: Bytes, b: Bytes, c: Bytes, d: Bytes)
    ensures a + (b + c + d) == a + b + c + d
  {
  }

  lemma {:induction false} NonEmptyFirst(part: Bytes, rest: seq<Bytes>)
    ensures NonEmpty([part] + rest) == (if part == [] then [] else [part]) + NonEmpty(rest)
  {
    assert ([part] + rest)[0] == part && ([part] + rest)[1..] == rest;
  }

  lemma {:induction false} FirstAndRest(a: seq<Bytes>, b: seq<Bytes>)
    requires a != []
    ensures a == [a[0]] + a[1..] && a + b == [a[0]] + (a[1..] + b)
  {
  }

  lemma {:induction false} Regrouped(a: seq<Bytes>, b: seq<Bytes>, c: seq<Bytes>)
    ensures a + (b + c) == (a + b) + c
  {
  }

  lemma {:induction false} NonEmptyAppend(a: seq<Bytes>, b: seq<Bytes>)
    ensures NonEmpty(a + b) == NonEmpty(a) + NonEmpty(b)
  {
    if a == [] {
      assert a + b == b;
    } else {
      var part, rest := a[0], a[1..];
      var first := if part == [] then [] else [part];
      NonEmptyAppend(rest, b);
      NonEmptyFirst(part, rest);
      NonEmptyFirst(part, rest + b);
      FirstAndRest(a, b);
      Regrouped(first, NonEmpty(rest), NonEmpty(b));
    }
  }

  /** One more part: an empty one adds nothing. */
  lemma {:induction false} EncodePart(parts: seq<Bytes>, part: Bytes)
    ensures NonEmpty(parts + [part]) == if part == [] then NonEmpty(parts) else NonEmpty(parts) + [part]
    ensures LabelBytes(NonEmpty(parts + [part])) ==
            if part == [] then LabelBytes(NonEmpty(parts)) else LabelBytes(NonEmpty(parts)) + [|part| % 256] + part
  {
    NonEmptyAppend(parts, [part]);
    assert NonEmpty([part][1..]) == [];
    assert NonEmpty([part]) == if part == [] then [] else [part];
    LabelBytesAppend(NonEmpty(parts), part);
  }

  method EncodeDNSName(name: Bytes) returns (result: Bytes)
    ensures result == EncodeName(name)
  {
    result := [];
    var parts := Split(name, DOT);
    var i := 0;
    while i < |parts|
      invariant 0 <= i <= |parts|
      invariant result == LabelBytes(NonEmpty(parts[..i]))
    {
      var part := parts[i];
      assert parts[..i + 1] == parts[..i] + [part];
      EncodePart(parts[..i], part);
      i := i + 1;
      if part == [] {
        continue;
      }
      result := result + [|part| % 256];
      result := result + part;
    }
    assert parts[..i] == parts;
    result := result + [0];
  }

  // ── Parsing ──

  /** How the label run starting at an offset ends. */
  datatype NameEnd = Root(next: nat) | Pointer(at: nat, target: nat) | Malformed

  function ScanName(data: Bytes, offset: nat): (e: NameEnd)
    ensures e.Root? ==> offset < e.next <= |data|
    ensures e.Pointer? ==> offset <= e.at && e.at + 2 <= |data| && e.target < |data|
    decreases |data| - offset
  {
    if offset >= |data| then Malformed
    else
      var length := data[offset];
      if length == 0 then Root(offset + 1)
      else if length >= 0xC0 then
        if offset + 1 >= |data| then Malformed
        else
          var ptr: int := (length as int - 0xC0) * 256 + data[offset + 1];
          if ptr >= |data| then Malformed else Pointer(offset, ptr)
      else ScanName(data, offset + 1 + length)
  }

  /** A name ends with a root byte, or with a pointer: two set bits and fourteen bits of an offset, high ones first. */
  lemma {:induction false} NameEnds(data: Bytes, offset: nat)
    ensures var e := ScanName(data, offset);
      && (e.Root? ==> data[e.next - 1] == 0)
      && (e.Pointer? ==>
            data[e.at] / 64 == 3 && e.target / 256 == data[e.at] % 64 && e.target % 256 == data[e.at + 1])
    decreases |data| - offset
  {
    if offset < |data| && 0 < data[offset] < 192 {
      NameEnds(data, offset + 1 + data[offset]);
    }
  }

  /** What parseDNSName returns; `next` 0 is its failure value. */
  datatype Parsed = Parsed(name: Bytes, next: nat)

  /** parseDNSName with at most `depth` pointers followed; None when that is not enough. */
  function ParseName(data: Bytes, offset: nat, depth: nat): (r: Option<Parsed>)
    ensures r.Some? && r.value.next != 0 ==> offset < r.value.next <= |data|
    decreases depth
  {
    match ScanName(data, offset)
    case Root(next) => Some(Parsed(data[offset..next], next))
    case Malformed => Some(Parsed([], 0))
    case Pointer(at, target) =>
      if depth == 0 then None
      else
        match ParseName(data, target, depth - 1)
        case None => None
        case Some(p) => Some(Parsed(p.name, at + 2))
  }

  /** parseDNSName, recursing at most `depth` levels deep. */
  method ParseDNSName(data: Bytes, offset: nat, depth: nat) returns (r: Option<Parsed>)
    ensures r == ParseName(data, offset, depth)
    decreases depth
  {
    var start := offset;
    var at := offset;
    ghost var whole := ScanName(data, start);
    while at < |data|
      invariant start <= at
      invariant ScanName(data, at) == whole
      decreases |data| - at
    {
      var length := data[at];
      if length == 0 {
        assert whole == Root(at + 1);
        return Some(Parsed(data[start..at + 1], at + 1));
      }
      if length >= 0xC0 {
        if at + 1 >= |data| {
          return Some(Parsed([], 0));
        }
        var ptr: int := (length as int - 0xC0) * 256 + data[at + 1];
        if ptr >= |data| {
          return Some(Parsed([], 0));
        }
        assert whole == Pointer(at, ptr);
        if depth == 0 {
          return None;
        }
        var resolved := ParseDNSName(data, ptr, depth - 1);
        return if resolved.None? then None else Some(Parsed(resolved.value.name, at + 2));
      }
      at := at + 1 + length;
    }
    return Some(Parsed([], 0));
  }

  // ── When the recursion ends ──

  lemma {:induction false} DeeperIsSame(data: Bytes, offset: nat, depth: nat, more: nat)
    requires ParseName(data, offset, depth).Some? && depth <= more
    ensures ParseName(data, offset, more) == ParseName(data, offset, depth)
    decreases depth
  {
    match ScanName(data, offset)
    case Pointer(at, target) => DeeperIsSame(data, target, depth - 1, more - 1);
    case _ =>
  }

  /** Every pointer leads to a place before the name it ends. */
  ghost predicate PointersBackward(data: Bytes) {
    forall o: nat | o < |data| :: ScanName(data, o).Pointer? ==> ScanName(data, o).target < o
  }

  /** Backward pointers always resolve, in no more steps than the name's own position. */
  lemma {:induction false} BackwardResolves(data: Bytes, offset: nat)
    requires PointersBackward(data)
    ensures ParseName(data, offset, Min(offset, |data|)).Some?
    decreases offset
  {
    match ScanName(data, offset)
    case Pointer(at, target) =>
      BackwardResolves(data, target);
      DeeperIsSame(data, target, target, Min(offset, |data|) - 1);
    case _ =>
  }

  /** The place that following `k` pointers leads to, if there are that many. */
  function Follow(data: Bytes, offset: nat, k: nat): (place: Option<nat>)
    ensures k > 0 && place.Some? ==> place.value < |data|
  {
    if k == 0 then Some(offset)
    else
      match Follow(data, offset, k - 1)
      case None => None
      case Some(o) => var e := ScanName(data, o); if e.Pointer? then Some(e.target) else None
  }

  /** The pointers come back to a place they have already led to. */
  ghost predicate Circle(data: Bytes, offset: nat) {
    exists i: nat, j: nat ::
      i < j && Follow(data, offset, i).Some? && Follow(data, offset, i) == Follow(data, offset, j)
  }

  lemma {:induction false} FollowOn(data: Bytes, offset: nat, a: nat, b: nat)
    ensures Follow(data, offset, a + b) ==
            match Follow(data, offset, a) case None => None case Some(o) => Follow(data, o, b)
  {
    if b > 0 {
      FollowOn(data, offset, a, b - 1);
    }
  }

  /** The recursion needs more than `depth` pointers exactly if there are more. */
  lemma {:induction false} TooDeepIff(data: Bytes, offset: nat, depth: nat)
    ensures ParseName(data, offset, depth).None? <==> Follow(data, offset, depth + 1).Some?
    decreases depth
  {
    FollowOn(data, offset, 1, depth);
    assert Follow(data, offset, 0) == Some(offset);
    match ScanName(data, offset)
    case Pointer(at, target) =>
      if depth > 0 {
        TooDeepIff(data, target, depth - 1);
      }
    case _ =>
  }

  /** Going round from a place back to it never ends. */
  lemma {:induction false} RoundAndRound(data: Bytes, o: nat, round: nat, n: nat)
    requires round > 0 && Follow(data, o, round) == Some(o)
    ensures Follow(data, o, n).Some?
    decreases n
  {
    if n < round {
      FollowOn(data, o, n, round - n);
    } else {
      FollowOn(data, o, round, n - round);
      RoundAndRound(data, o, round, n - round);
    }
  }

  lemma {:induction false} CircleNeverEnds(data: Bytes, offset: nat, n: nat)
    requires Circle(data, offset)
    ensures Follow(data, offset, n).Some?
  {
    var i: nat, j: nat :| i < j && Follow(data, offset, i).Some? && Follow(data, offset, i) == Follow(data, offset, j);
    var o := Follow(data, offset, i).value;
    FollowOn(data, offset, i, j - i);
    RoundAndRound(data, o, j - i, n);
    FollowOn(data, offset, i, n);
    FollowOn(data, offset, n, i);
  }

  ghost predicate Distinct(c: seq<nat>) { forall i, j | 0 <= i < j < |c| :: c[i] != c[j] }

  ghost predicate Below(c: seq<nat>, n: int) { forall i | 0 <= i < |c| :: c[i] < n }

  lemma {:induction false} DistinctBelow(c: seq<nat>, n: nat)
    requires Below(c, n) && Distinct(c)
    ensures |c| <= n
    decreases n
  {
    if c != [] {
      assert c[0] < n;
      if n - 1 in c {
        var k :| 0 <= k < |c| && c[k] == n - 1;
        DistinctBelow(c[..k] + c[k + 1..], n - 1);
      } else {
        DistinctBelow(c, n - 1);
      }
    }
  }

  /** The places of the first `n` pointers. */
  ghost function Places(data: Bytes, offset: nat, n: nat): (c: seq<nat>)
    requires Follow(data, offset, n).Some?
    ensures |c| == n && forall i | 0 <= i < n :: Follow(data, offset, i + 1) == Some(c[i])
  {
    if n == 0 then [] else Places(data, offset, n - 1) + [Follow(data, offset, n).value]
  }

  /** More pointers than the message has bytes lead somewhere twice. */
  lemma {:induction false} LongIsCircle(data: Bytes, offset: nat)
    requires Follow(data, offset, |data| + 1).Some?
    ensures Circle(data, offset)
  {
    var c := Places(data, offset, |data| + 1);
    if Distinct(c) {
      forall i | 0 <= i < |c| ensures c[i] < |data| {
        assert Follow(data, offset, i + 1) == Some(c[i]);
      }
      DistinctBelow(c, |data|);
    }
    var i, j :| 0 <= i < j < |c| && c[i] == c[j];
    assert Follow(data, offset, i + 1) == Some(c[i]) == Follow(data, offset, j + 1);
  }

  /** As many steps as the message has bytes are enough exactly if the pointers run in no circle. */
  lemma {:induction false} EnoughIff(data: Bytes, offset: nat)
    ensures ParseName(data, offset, |data|).None? <==> Circle(data, offset)
  {
    TooDeepIff(data, offset, |data|);
    if Circle(data, offset) {
      CircleNeverEnds(data, offset, |data| + 1);
    } else if ParseName(data, offset, |data|).None? {
      LongIsCircle(data, offset);
    }
  }

  /** parseDNSName returns, for some number of steps, exactly if the pointers run in no circle. */
  lemma {:induction false} ResolvesIff(data: Bytes, offset: nat)
    ensures (exists depth: nat :: ParseName(data, offset, depth).Some?) <==> !Circle(data, offset)
  {
    EnoughIff(data, offset);
    if Circle(data, offset) {
      forall depth: nat ensures ParseName(data, offset, depth).None? {
        CircleNeverEnds(data, offset, depth + 1);
        TooDeepIff(data, offset, depth);
      }
    }
  }

  /** Two bytes are enough to keep parseDNSName from ever returning: a pointer to itself. */
  lemma {:induction false} SelfPointerNeverResolves(depth: nat)
    ensures ParseName([0xC0, 0], 0, depth) == None
  {
    assert ScanName([0xC0, 0], 0) == Pointer(0, 0);
    if depth > 0 {
      SelfPointerNeverResolves(depth - 1);
    }
  }

  // ── The name codec ──

  /** `piece` stands in `data` at `off`. */
  predicate IsAt(data: Bytes, off: nat, piece: Bytes) {
    off + |piece| <= |data| && data[off..off + |piece|] == piece
  }

  lemma {:induction false} IsAtSplit(data: Bytes, off: nat, a: Bytes, b: Bytes)
    requires IsAt(data, off, a + b)
    ensures IsAt(data, off, a) && IsAt(data, off + |a|, b)
  {
    assert data[off..off + |a|] == (a + b)[..|a|];
    assert data[off + |a|..off + |a| + |b|] == (a + b)[|a|..];
  }

  lemma {:induction false} IsAtFirst(data: Bytes, off: nat, labels: seq<Bytes>)
    requires IsAt(data, off, EncodeLabels(labels))
    ensures labels == [] ==> off < |data| && data[off] == 0
    ensures labels != [] ==>
              && off < |data| && data[off] == |labels[0]| % 256
              && |EncodeLabels(labels)| == 1 + |labels[0]| + |EncodeLabels(labels[1..])|
              && IsAt(data, off + 1, labels[0])
              && IsAt(data, off + 1 + |labels[0]|, EncodeLabels(labels[1..]))
  {
    if labels == [] {
      assert data[off] == data[off..off + 1][0];
    } else {
      var len: Bytes := [|labels[0]| % 256];
      assert EncodeLabels(labels) == len + (labels[0] + EncodeLabels(labels[1..]));
      IsAtSplit(data, off, len, labels[0] + EncodeLabels(labels[1..]));
      assert data[off] == data[off..off + 1][0];
      IsAtSplit(data, off + 1, labels[0], EncodeLabels(labels[1..]));
    }
  }

  predicate ShortLabels(labels: seq<Bytes>) { forall i | 0 <= i < |labels| :: |labels[i]| <= 191 }

  /** Labels whose length fits the length byte. */
  predicate ByteLabels(labels: seq<Bytes>) { forall i | 0 <= i < |labels| :: 1 <= |labels[i]| <= 255 }

  lemma {:induction false} ShortSplit(labels: seq<Bytes>)
    requires labels != []
    ensures ShortLabels(labels) <==> |labels[0]| <= 191 && ShortLabels(labels[1..])
  {
    assert labels == [labels[0]] + labels[1..];
  }

  lemma {:induction false} ScanStep(data: Bytes, off: nat, length: nat)
    requires off < |data| && data[off] == length && 1 <= length <= 191
    ensures ScanName(data, off) == ScanName(data, off + 1 + length)
  {
  }

  /** The scan fails, or a pointer ends it before `end`. */
  predicate StopsBefore(e: NameEnd, end: nat) { e.Malformed? || (e.Pointer? && e.at + 2 < end) }

  /** The scan reads an encoded name to its end exactly when no length byte looks like a pointer. */
  lemma {:induction false} ScanEncoded(data: Bytes, off: nat, labels: seq<Bytes>)
    requires IsAt(data, off, EncodeLabels(labels)) && ByteLabels(labels)
    decreases |labels|
    ensures ShortLabels(labels) ==> ScanName(data, off) == Root(off + |EncodeLabels(labels)|)
    ensures !ShortLabels(labels) ==> StopsBefore(ScanName(data, off), off + |EncodeLabels(labels)|)
  {
    IsAtFirst(data, off, labels);
    if labels != [] {
      ShortSplit(labels);
      assert |EncodeLabels(labels)| == 1 + |labels[0]| + |EncodeLabels(labels[1..])|;
      if |labels[0]| <= 191 {
        ScanStep(data, off, |labels[0]|);
        ScanEncoded(data, off + 1 + |labels[0]|, labels[1..]);
      }
    }
  }

  /**
   * Whatever bytes stand before and after it, an encoded name of labels of 1 to 255 bytes parses to
   * itself and the offset just past it if and only if every label has at most 191 bytes.
   */
  lemma {:induction false} NameRoundTripIff(before: Bytes, labels: seq<Bytes>, after: Bytes, depth: nat)
    requires ByteLabels(labels)
    ensures var enc := EncodeLabels(labels);
            ParseName(before + enc + after, |before|, depth) == Some(Parsed(enc, |before| + |enc|))
            <==> ShortLabels(labels)
  {
    var enc := EncodeLabels(labels);
    var data := before + enc + after;
    assert data[|before|..|before| + |enc|] == enc;
    ScanEncoded(data, |before|, labels);
  }

  // ── Names back to text ──

  /** strings.Join with a dot. */
  function Join(parts: seq<Bytes>): Bytes {
    if parts == [] then []
    else if |parts| == 1 then parts[0]
    else parts[0] + [DOT] + Join(parts[1..])
  }

  /** The labels dnsNameToString collects from an offset on. */
  function NameLabels(name: Bytes, offset: nat): seq<Bytes>
    decreases |name| - offset
  {
    if offset >= |name| then []
    else
      var length := name[offset];
      if length == 0 || offset + 1 + length > |name| then []
      else [name[offset + 1..offset + 1 + length]] + NameLabels(name, offset + 1 + length)
  }

  function NameToString(name: Bytes): Bytes { Join(NameLabels(name, 0)) }

  method DnsNameToString(name: Bytes) returns (r: Bytes)
    ensures r == NameToString(name)
  {
    if |name| == 0 {
      assert NameLabels(name, 0) == [];
      return [];
    }
    var parts: seq<Bytes> := [];
    var offset := 0;
    while offset < |name|
      invariant 0 <= offset
      invariant parts + NameLabels(name, offset) == NameLabels(name, 0)
      decreases |name| - offset
    {
      var length := name[offset];
      if length == 0 {
        break;
      }
      if offset + 1 + length > |name| {
        break;
      }
      assert NameLabels(name, offset)[..1] == [name[offset + 1..offset + 1 + length]];
      parts := parts + [name[offset + 1..offset + 1 + length]];
      offset := offset + 1 + length;
    }
    assert parts == NameLabels(name, 0);
    r := Join(parts);
  }

  lemma {:induction false} LabelsOfEncoded(data: Bytes, off: nat, labels: seq<Bytes>)
    requires IsAt(data, off, EncodeLabels(labels)) && off + |EncodeLabels(labels)| == |data|
    requires ByteLabels(labels)
    ensures NameLabels(data, off) == labels
    decreases |labels|
  {
    IsAtFirst(data, off, labels);
    if labels != [] {
      LabelsOfEncoded(data, off + 1 + |labels[0]|, labels[1..]);
    }
  }

  /** The text of an encoded name is its non-empty labels joined by dots. */
  lemma {:induction false} TextOfEncodedName(name: Bytes)
    requires forall i | 0 <= i < |Labels(name)| :: |Labels(name)[i]| <= 255
    ensures NameToString(EncodeName(name)) == Join(Labels(name))
  {
    LabelsOfEncoded(EncodeName(name), 0, Labels(name));
  }

  // ── Labels of a longer name ──

  lemma {:induction false} SplitAround(a: Bytes, sep: Byte, b: Bytes)
    ensures Split(a + [sep] + b, sep) == Split(a, sep) + Split(b, sep)
  {
    if a == [] {
      assert a + [sep] + b == [sep] + b;
      assert ([sep] + b)[1..] == b;
    } else {
      assert (a + [sep] + b)[1..] == a[1..] + [sep] + b;
      SplitAround(a[1..], sep, b);
    }
  }

  lemma {:induction false} PartsAreShort(s: Bytes, sep: Byte)
    ensures forall p <- Split(s, sep) :: |p| <= |s|
  {
    if s != [] { PartsAreShort(s[1..], sep); }
  }

  lemma {:induction false} NonEmptyMembers(parts: seq<Bytes>, l: Bytes)
    requires l in NonEmpty(parts)
    ensures l in parts
  {
    if parts[0] != l { NonEmptyMembers(parts[1..], l); }
  }

  lemma {:induction false} LabelsAround(a: Bytes, b: Bytes)
    ensures Labels(a + [DOT] + b) == Labels(a) + Labels(b)
  {
    SplitAround(a, DOT, b);
    NonEmptyAppend(Split(a, DOT), Split(b, DOT));
  }

  lemma {:induction false} LabelsAreShort(name: Bytes)
    ensures forall l <- Labels(name) :: |l| <= |name|
  {
    forall l <- Labels(name) ensures |l| <= |name| {
      NonEmptyMembers(Split(name, DOT), l);
      PartsAreShort(name, DOT);
    }
  }
}
