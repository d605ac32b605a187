/**
 * vgpu/mem/kvcache.go as steps on plain byte strings, and the table it stands for.
 *
 * A float32 is its 32-bit pattern. A vector is written to consecutive floats from the start of its
 * position, so one that is longer than a head spills into the positions that follow.
 */
module KvCacheSpec {
  import opened Arithmetic
  import opened Common

  /** The bits of a float32. */
  type Float32 = x: int | 0 <= x < 0x1_0000_0000

  datatype Config = Config(maxSeqLen: nat, numLayers: nat, numHeads: nat, headDim: nat)

  /** Bytes by layer and head. */
  type Heads = seq<seq<Bytes>>

  datatype KvState = KvState(k: Heads, v: Heads, seqLen: nat)

  datatype Op = Store(layer: int, head: int, pos: int, key: seq<Float32>, value: seq<Float32>) | Clear

  // ── Little-endian floats in bytes ──

  function LittleEndian(f: Float32): (r: Bytes)
    ensures |r| == 4
  {
    [f % 256, f / 256 % 256, f / 256 / 256 % 256, f / 256 / 256 / 256]
  }

  function FloatOf(b: Bytes): Float32
    requires |b| == 4
  {
    var b0: int, b1: int, b2: int, b3: int := b[0], b[1], b[2], b[3];
    b0 + 256 * (b1 + 256 * (b2 + 256 * b3))
  }

  function FloatAt(b: Bytes, at: nat): Float32
    requires at + 3 < |b|
  {
    FloatOf(b[at..at + 4])
  }

  /** One float written at a byte offset, if it fits. */
  function PutFloat(b: Bytes, at: nat, f: Float32): (r: Bytes)
    ensures |r| == |b|
  {
    if at + 3 < |b| then b[..at] + LittleEndian(f) + b[at + 4..] else b
  }

  /** The first `n` floats of `src` written from byte offset `at` on. */
  function PutFloats(b: Bytes, at: nat, src: seq<Float32>, n: nat): (r: Bytes)
    requires n <= |src|
    ensures |r| == |b|
  {
    if n == 0 then b else PutFloat(PutFloats(b, at, src, n - 1), at + (n - 1) * 4, src[n - 1])
  }

  lemma {:induction false} LittleEndianRoundTrip(f: Float32)
    ensures FloatOf(LittleEndian(f)) == f
  {
  }

  /** The low byte is written first, and read first. */
  lemma {:induction false} LowByteFirst(f: Float32, b: Bytes)
    requires |b| == 4
    ensures var r := LittleEndian(f);
      r[0] as int + r[1] as int * 256 + r[2] as int * 65536 + r[3] as int * 16777216 == f
    ensures FloatOf(b) == b[0] as int + b[1] as int * 256 + b[2] as int * 65536 + b[3] as int * 16777216
  {
    LittleEndianRoundTrip(f);
  }

  lemma {:induction false} FloatRoundTrip(b: Bytes, at: nat, f: Float32)
    requires at + 3 < |b|
    ensures FloatAt(PutFloat(b, at, f), at) == f
  {
    assert PutFloat(b, at, f)[at..at + 4] == LittleEndian(f);
    LittleEndianRoundTrip(f);
  }

  lemma {:induction false} OtherFloat(b: Bytes, at: nat, f: Float32, other: nat)
    requires other + 3 < |b| && (other + 4 <= at || at + 4 <= other)
    ensures FloatAt(PutFloat(b, at, f), other) == FloatAt(b, other)
  {
    assert PutFloat(b, at, f)[other..other + 4] == b[other..other + 4];
  }

  /** A vector lands in consecutive floats and touches no other. */
  lemma {:induction false} VectorAt(b: Bytes, w: nat, src: seq<Float32>, n: nat, q: nat)
    requires n <= |src| && 4 * q + 3 < |b|
    ensures FloatAt(PutFloats(b, 4 * w, src, n), 4 * q) == if w <= q < w + n then src[q - w] else FloatAt(b, 4 * q)
    decreases n
  {
    if n > 0 {
      VectorAt(b, w, src, n - 1, q);
      var before, at := PutFloats(b, 4 * w, src, n - 1), 4 * w + (n - 1) * 4;
      if q == w + n - 1 {
        FloatRoundTrip(before, at, src[n - 1]);
      } else {
        OtherFloat(before, at, src[n - 1], 4 * q);
      }
    }
  }

  // ── Steps ──

  predicate InRange(cfg: Config, layer: int, head: int) { 0 <= layer < cfg.numLayers && 0 <= head < cfg.numHeads }

  function HeadSize(cfg: Config): nat { cfg.maxSeqLen * (cfg.headDim * 4) }

  ghost predicate Shaped(cfg: Config, m: Heads) {
    && |m| == cfg.numLayers
    && (forall l | 0 <= l < |m| :: |m[l]| == cfg.numHeads)
    && (forall l, h | 0 <= l < |m| && 0 <= h < |m[l]| :: |m[l][h]| == HeadSize(cfg))
  }

  ghost predicate WellFormed(cfg: Config, s: KvState) {
    Shaped(cfg, s.k) && Shaped(cfg, s.v) && s.seqLen <= cfg.maxSeqLen
  }

  function Zeros(cfg: Config): (m: Heads)
    ensures Shaped(cfg, m)
  {
    seq(cfg.numLayers, _ => seq(cfg.numHeads, _ => seq(HeadSize(cfg), _ => 0)))
  }

  function Empty(cfg: Config): (s: KvState)
    ensures WellFormed(cfg, s)
  {
    KvState(Zeros(cfg), Zeros(cfg), 0)
  }

  function Put(cfg: Config, m: Heads, layer: nat, head: nat, pos: nat, src: seq<Float32>): (r: Heads)
    requires Shaped(cfg, m) && InRange(cfg, layer, head)
    ensures Shaped(cfg, r)
  {
    m[layer := m[layer][head := PutFloats(m[layer][head], pos * (cfg.headDim * 4), src, |src|)]]
  }

  function PutZeros(cfg: Config, m: Heads, layer: nat, head: nat): (r: Heads)
    requires Shaped(cfg, m) && InRange(cfg, layer, head)
    ensures Shaped(cfg, r)
  {
    m[layer := m[layer][head := Zeros(cfg)[layer][head]]]
  }

  function AfterStore(cfg: Config, s: KvState, layer: int, head: int, pos: int, key: seq<Float32>,
                      value: seq<Float32>): (r: KvState)
    requires WellFormed(cfg, s)
    ensures WellFormed(cfg, r)
  {
    if !InRange(cfg, layer, head) || pos < 0 || pos >= cfg.maxSeqLen then s
    else KvState(Put(cfg, s.k, layer, head, pos, key), Put(cfg, s.v, layer, head, pos, value), Max(s.seqLen, pos + 1))
  }

  function Step(cfg: Config, s: KvState, op: Op): (r: KvState)
    requires WellFormed(cfg, s)
    ensures WellFormed(cfg, r)
  {
    match op
    case Store(layer, head, pos, key, value) => AfterStore(cfg, s, layer, head, pos, key, value)
    case Clear => Empty(cfg)
  }

  /** The cache after the first `n` operations on a new one. */
  function Run(cfg: Config, ops: seq<Op>, n: nat): (s: KvState)
    requires n <= |ops|
    ensures WellFormed(cfg, s)
  {
    if n == 0 then Empty(cfg) else Step(cfg, Run(cfg, ops, n - 1), ops[n - 1])
  }

  function Floats(b: Bytes, n: nat): (r: seq<Float32>)
    requires n * 4 <= |b|
    ensures |r| == n
  {
    seq(n, i requires 0 <= i < n => FloatAt(b, i * 4))
  }

  lemma {:induction false} CellsFit(cfg: Config, seqLen: nat)
    requires seqLen <= cfg.maxSeqLen
    ensures seqLen * cfg.headDim * 4 == seqLen * (cfg.headDim * 4) <= HeadSize(cfg)
  {
    MulMonotone(seqLen, cfg.maxSeqLen, cfg.headDim * 4);
  }

  /** What a read returns: nothing out of range or when the cache is empty. */
  function Read(cfg: Config, m: Heads, seqLen: nat, layer: int, head: int): Option<seq<Float32>>
    requires Shaped(cfg, m) && seqLen <= cfg.maxSeqLen
  {
    if !InRange(cfg, layer, head) || seqLen == 0 then None
    else
      CellsFit(cfg, seqLen);
      Some(Floats(m[layer][head], seqLen * cfg.headDim))
  }

  // ── The table ──

  /** Keys or values. */
  datatype Side = Keys | Values

  function VectorOf(side: Side, op: Op): seq<Float32>
    requires op.Store?
  {
    if side.Keys? then op.key else op.value
  }

  function SideOf(side: Side, s: KvState): Heads { if side.Keys? then s.k else s.v }

  predicate Accepted(cfg: Config, op: Op) {
    op.Store? && InRange(cfg, op.layer, op.head) && 0 <= op.pos < cfg.maxSeqLen
  }

  /** The last float among the first `n` operations that landed in float `q` of this head, counted from its start. */
  function LastInFlat(cfg: Config, side: Side, ops: seq<Op>, n: nat, layer: nat, head: nat, q: nat): Float32
    requires n <= |ops|
  {
    if n == 0 || ops[n - 1].Clear? then 0
    else
      var op := ops[n - 1];
      if Accepted(cfg, op) && op.layer == layer && op.head == head && Covers(cfg, op.pos, |VectorOf(side, op)|, q)
      then VectorOf(side, op)[q - op.pos * cfg.headDim]
      else LastInFlat(cfg, side, ops, n - 1, layer, head, q)
  }

  /** The entry of the table: the last float stored at this layer, head, position and component. */
  function LastStored(cfg: Config, side: Side, ops: seq<Op>, n: nat, layer: nat, head: nat, pos: nat,
                      comp: nat): Float32
    requires n <= |ops|
  {
    if n == 0 || ops[n - 1].Clear? then 0
    else
      var op := ops[n - 1];
      if op.Store? && op.layer == layer && op.head == head && op.pos == pos && comp < |VectorOf(side, op)|
      then VectorOf(side, op)[comp]
      else LastStored(cfg, side, ops, n - 1, layer, head, pos, comp)
  }

  lemma {:induction false} ZeroFloats(b: Bytes, at: nat)
    requires at + 3 < |b| && forall i | 0 <= i < |b| :: b[i] == 0
    ensures FloatAt(b, at) == 0
  {
    assert b[at..at + 4] == [0, 0, 0, 0];
  }

  lemma {:induction false} Regroup(a: nat, b: nat)
    ensures a * (b * 4) == 4 * (a * b)
  {
  }

  /** Whether a store to this head starting at position `pos` covers float `q`. */
  predicate Covers(cfg: Config, pos: nat, len: nat, q: nat) { pos * cfg.headDim <= q < pos * cfg.headDim + len }

  lemma {:induction false} PutElsewhere(cfg: Config, m: Heads, layer: nat, head: nat, pos: nat, src: seq<Float32>,
                                        l: nat, h: nat, q: nat)
    requires Shaped(cfg, m) && InRange(cfg, layer, head) && InRange(cfg, l, h) && 4 * q + 3 < HeadSize(cfg)
    ensures FloatAt(Put(cfg, m, layer, head, pos, src)[l][h], 4 * q) ==
      if l == layer && h == head && Covers(cfg, pos, |src|, q) then src[q - pos * cfg.headDim]
      else FloatAt(m[l][h], 4 * q)
  {
    if l == layer && h == head {
      var w := pos * cfg.headDim;
      Regroup(pos, cfg.headDim);
      VectorAt(m[l][h], w, src, |src|, q);
    }
  }

  /** What one operation does to one float. */
  lemma {:induction false} StepAt(cfg: Config, side: Side, s: KvState, op: Op, layer: nat, head: nat, q: nat)
    requires WellFormed(cfg, s) && InRange(cfg, layer, head) && 4 * q + 3 < HeadSize(cfg)
    ensures FloatAt(SideOf(side, Step(cfg, s, op))[layer][head], 4 * q) ==
      if op.Clear? then 0
      else if Accepted(cfg, op) && op.layer == layer && op.head == head && Covers(cfg, op.pos, |VectorOf(side, op)|, q)
      then VectorOf(side, op)[q - op.pos * cfg.headDim]
      else FloatAt(SideOf(side, s)[layer][head], 4 * q)
  {
    if op.Clear? {
      ZeroFloats(SideOf(side, Empty(cfg))[layer][head], 4 * q);
    } else if Accepted(cfg, op) {
      PutElsewhere(cfg, SideOf(side, s), op.layer, op.head, op.pos, VectorOf(side, op), layer, head, q);
    }
  }

  /** Over every run, whatever the vectors' lengths, each float is the last one that landed there. */
  lemma {:induction false} FlatRefines(cfg: Config, side: Side, ops: seq<Op>, n: nat, layer: nat, head: nat, q: nat)
    requires n <= |ops| && InRange(cfg, layer, head) && 4 * q + 3 < HeadSize(cfg)
    ensures FloatAt(SideOf(side, Run(cfg, ops, n))[layer][head], 4 * q) == LastInFlat(cfg, side, ops, n, layer, head, q)
  {
    if n == 0 {
      ZeroFloats(SideOf(side, Empty(cfg))[layer][head], 4 * q);
    } else {
      FlatRefines(cfg, side, ops, n - 1, layer, head, q);
      StepAt(cfg, side, Run(cfg, ops, n - 1), ops[n - 1], layer, head, q);
    }
  }

  /** No vector is longer than a head. */
  predicate FitHeads(cfg: Config, ops: seq<Op>) {
    forall i | 0 <= i < |ops| :: ops[i].Store? ==> |ops[i].key| <= cfg.headDim && |ops[i].value| <= cfg.headDim
  }

  /** Then each float belongs to one position, and the flat history is the table's. */
  lemma {:induction false} FlatIsTable(cfg: Config, side: Side, ops: seq<Op>, n: nat, layer: nat, head: nat, pos: nat,
                                       comp: nat)
    requires n <= |ops| && FitHeads(cfg, ops) && InRange(cfg, layer, head) && pos < cfg.maxSeqLen && comp < cfg.headDim
    ensures LastInFlat(cfg, side, ops, n, layer, head, pos * cfg.headDim + comp)
         == LastStored(cfg, side, ops, n, layer, head, pos, comp)
  {
    if n > 0 && ops[n - 1].Store? {
      FlatIsTable(cfg, side, ops, n - 1, layer, head, pos, comp);
      var op := ops[n - 1];
      if Accepted(cfg, op) {
        OwnPosition(cfg.headDim, op.pos, pos, comp, |VectorOf(side, op)|);
      }
    }
  }

  lemma {:induction false} OwnPosition(d: nat, p: nat, pos: nat, comp: nat, len: nat)
    requires comp < d && len <= d
    ensures p * d <= pos * d + comp < p * d + len <==> p == pos && comp < len
  {
    if p < pos {
      MulMonotone(p + 1, pos, d);
    } else if p > pos {
      MulMonotone(pos + 1, p, d);
    }
  }

  /** One past the highest position stored since the last Clear. */
  function Reached(cfg: Config, ops: seq<Op>, n: nat): nat
    requires n <= |ops|
  {
    if n == 0 || ops[n - 1].Clear? then 0
    else if Accepted(cfg, ops[n - 1]) then Max(Reached(cfg, ops, n - 1), ops[n - 1].pos + 1)
    else Reached(cfg, ops, n - 1)
  }

  lemma {:induction false} SeqLenIsReached(cfg: Config, ops: seq<Op>, n: nat)
    requires n <= |ops|
    ensures Run(cfg, ops, n).seqLen == Reached(cfg, ops, n)
  {
    if n > 0 { SeqLenIsReached(cfg, ops, n - 1); }
  }

  /** A float of the first `len` positions lies in its array and belongs to one of those positions. */
  lemma {:induction false} CellIndex(cfg: Config, len: nat, i: nat)
    requires len <= cfg.maxSeqLen && i < len * cfg.headDim
    ensures cfg.headDim > 0 && i * 4 + 3 < HeadSize(cfg)
    ensures i / cfg.headDim < len && i == i / cfg.headDim * cfg.headDim + i % cfg.headDim
  {
    var d := cfg.headDim;
    CellsFit(cfg, len);
    if i / d >= len { MulMonotone(len, i / d, d); }
  }

  lemma {:induction false} CellAt(d: nat, pos: nat, c: nat, len: nat)
    requires c < d && pos < len
    ensures pos * d + c < len * d
  {
    MulMonotone(pos + 1, len, d);
  }

  lemma {:induction false} ReadAt(cfg: Config, m: Heads, len: nat, layer: nat, head: nat, i: nat)
    requires Shaped(cfg, m) && len <= cfg.maxSeqLen && InRange(cfg, layer, head) && i < len * cfg.headDim
    ensures 4 * i + 3 < HeadSize(cfg)
    ensures var r := Read(cfg, m, len, layer, head);
      r.Some? && i < |r.value| && r.value[i] == FloatAt(m[layer][head], 4 * i)
  {
    CellIndex(cfg, len, i);
  }

  /** What one store of a vector leaves in its place. */
  lemma {:induction false} StoredAt(cfg: Config, side: Side, s: KvState, op: Op, c: nat, i: nat)
    requires WellFormed(cfg, s) && Accepted(cfg, op) && c < |VectorOf(side, op)|
    requires c < cfg.headDim && i == op.pos * cfg.headDim + c && 4 * i + 3 < HeadSize(cfg)
    ensures FloatAt(SideOf(side, Step(cfg, s, op))[op.layer][op.head], 4 * i) == VectorOf(side, op)[c]
  {
    StepAt(cfg, side, s, op, op.layer, op.head, i);
  }

  /** What was stored last is read back, the key from the keys and the value from the values. */
  lemma {:induction false} StoredIsRead(cfg: Config, s: KvState, layer: nat, head: nat, pos: nat, key: seq<Float32>,
                                        value: seq<Float32>, c: nat)
    requires WellFormed(cfg, s) && layer < cfg.numLayers && head < cfg.numHeads && pos < cfg.maxSeqLen
    requires c < cfg.headDim && c < |key| && c < |value|
    ensures var r, i := AfterStore(cfg, s, layer, head, pos, key, value), pos * cfg.headDim + c;
      var keys, values := Read(cfg, r.k, r.seqLen, layer, head), Read(cfg, r.v, r.seqLen, layer, head);
      && keys.Some? && i < |keys.value| && keys.value[i] == key[c]
      && values.Some? && i < |values.value| && values.value[i] == value[c]
  {
    var op := Store(layer, head, pos, key, value);
    var r, i := Step(cfg, s, op), pos * cfg.headDim + c;
    CellAt(cfg.headDim, pos, c, r.seqLen);
    ReadAt(cfg, r.k, r.seqLen, layer, head, i);
    ReadAt(cfg, r.v, r.seqLen, layer, head, i);
    StoredAt(cfg, Keys, s, op, c, i);
    StoredAt(cfg, Values, s, op, c, i);
  }

  /** Entry `i` of the table, component by component. */
  function Entry(cfg: Config, side: Side, ops: seq<Op>, layer: nat, head: nat, i: nat): Float32 {
    if cfg.headDim == 0 then 0 else LastStored(cfg, side, ops, |ops|, layer, head, i / cfg.headDim, i % cfg.headDim)
  }

  lemma {:induction false} FlatIsEntry(cfg: Config, side: Side, ops: seq<Op>, layer: nat, head: nat, i: nat, pos: nat,
                                       comp: nat)
    requires FitHeads(cfg, ops) && InRange(cfg, layer, head) && comp < cfg.headDim && pos < cfg.maxSeqLen
    requires pos == i / cfg.headDim && comp == i % cfg.headDim && i == pos * cfg.headDim + comp
    ensures LastInFlat(cfg, side, ops, |ops|, layer, head, i) == Entry(cfg, side, ops, layer, head, i)
  {
    FlatIsTable(cfg, side, ops, |ops|, layer, head, pos, comp);
  }

  lemma {:induction false} CellOfTable(cfg: Config, side: Side, ops: seq<Op>, layer: nat, head: nat, len: nat, i: nat)
    requires FitHeads(cfg, ops) && InRange(cfg, layer, head) && len <= cfg.maxSeqLen && i < len * cfg.headDim
    ensures 4 * i + 3 < HeadSize(cfg)
    ensures FloatAt(SideOf(side, Run(cfg, ops, |ops|))[layer][head], 4 * i) == Entry(cfg, side, ops, layer, head, i)
  {
    CellIndex(cfg, len, i);
    FlatIsEntry(cfg, side, ops, layer, head, i, i / cfg.headDim, i % cfg.headDim);
    FlatRefines(cfg, side, ops, |ops|, layer, head, i);
  }

  /** `r` lists the first `n` entries of the table. */
  ghost predicate IsTable(cfg: Config, side: Side, ops: seq<Op>, layer: nat, head: nat, n: nat, r: seq<Float32>) {
    |r| == n && forall i | 0 <= i < |r| :: r[i] == Entry(cfg, side, ops, layer, head, i)
  }

  /**
   * After any run whose vectors fit a head, a read of a known head returns every position reached since
   * the last Clear, and in each place the last float stored there, or zero.
   */
  lemma {:induction false} CacheRefinesTable(cfg: Config, side: Side, ops: seq<Op>, layer: nat, head: nat)
    requires FitHeads(cfg, ops) && InRange(cfg, layer, head)
    ensures var s, len := Run(cfg, ops, |ops|), Reached(cfg, ops, |ops|);
      var r := Read(cfg, SideOf(side, s), s.seqLen, layer, head);
      if len == 0 then r == None else r.Some? && IsTable(cfg, side, ops, layer, head, len * cfg.headDim, r.value)
  {
    var len := Reached(cfg, ops, |ops|);
    SeqLenIsReached(cfg, ops, |ops|);
    if len > 0 {
      var b, n := SideOf(side, Run(cfg, ops, |ops|))[layer][head], len * cfg.headDim;
      CellsFit(cfg, len);
      forall i | 0 <= i < n ensures Floats(b, n)[i] == Entry(cfg, side, ops, layer, head, i) {
        CellOfTable(cfg, side, ops, layer, head, len, i);
      }
    }
  }
}
