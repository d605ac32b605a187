/** vgpu/mem/kvcache.go: the key and value cache, one byte array per layer and head. */
module KvCache {
  import opened Arithmetic
  import opened Common
  import opened KvCacheSpec

  type Arrays = seq<seq<array<Byte>>>

  /** binary.LittleEndian.PutUint32. */
  method PutUint32(dst: array<Byte>, at: nat, f: Float32)
    requires at + 3 < dst.Length
    modifies dst
    ensures dst[..] == PutFloat(old(dst[..]), at, f)
  {
    dst[at], dst[at + 1], dst[at + 2], dst[at + 3] := f % 256, f / 256 % 256, f / 256 / 256 % 256, f / 256 / 256 / 256;
    assert dst[at..at + 4] == LittleEndian(f);
    assert dst[..] == dst[..at] + dst[at..at + 4] + dst[at + 4..];
  }

  /** Writes the floats into the slice that starts at `offset`; those that do not fit are dropped. */
  method FloatsToBytes(src: seq<Float32>, dst: array<Byte>, offset: nat)
    requires offset <= dst.Length
    modifies dst
    ensures dst[..] == PutFloats(old(dst[..]), offset, src, |src|)
  {
    for i := 0 to |src|
      invariant dst[..] == PutFloats(old(dst[..]), offset, src, i)
    {
      if i * 4 + 3 < dst.Length - offset {
        PutUint32(dst, offset + i * 4, src[i]);
      }
    }
  }

  /** Reads floats from the first `limit` bytes of `src`; one that does not fit keeps its old value. */
  method BytesToFloats(src: array<Byte>, limit: nat, dst: array<Float32>)
    requires limit <= src.Length
    modifies dst
    ensures forall j | 0 <= j < dst.Length ::
              dst[j] == if j * 4 + 3 < limit then FloatAt(src[..], j * 4) else old(dst[j])
    ensures dst.Length * 4 <= limit ==> dst[..] == Floats(src[..], dst.Length)
  {
    for i := 0 to dst.Length
      invariant forall j | 0 <= j < i :: dst[j] == if j * 4 + 3 < limit then FloatAt(src[..], j * 4) else old(dst[j])
      invariant forall j | i <= j < dst.Length :: dst[j] == old(dst[j])
    {
      if i * 4 + 3 < limit {
        dst[i] := FloatOf(src[i * 4..i * 4 + 4]);
        assert src[i * 4..i * 4 + 4] == src[..][i * 4..i * 4 + 4];
      }
    }
  }

  class KVCache {
    const cfg: Config
    var kCache: Arrays
    var vCache: Arrays
    var seqLen: nat
    const headBytes: nat
    /** What the arrays hold, and the one place each of them has. */
    ghost var State: KvState
    ghost var Place: map<object, (Side, int, int)>

    ghost predicate Valid()
      reads this, Place.Keys
    {
      && this !in Place
      && headBytes == cfg.headDim * 4
      && seqLen == State.seqLen
      && WellFormed(cfg, State)
      && Holds(kCache, State.k, Keys)
      && Holds(vCache, State.v, Values)
    }

    ghost predicate Holds(arrays: Arrays, m: Heads, side: Side)
      reads this, Place.Keys
    {
      |arrays| == |m| && forall l | 0 <= l < |m| :: HoldsLayer(arrays[l], m[l], side, l)
    }

    ghost predicate HoldsLayer(arrays: seq<array<Byte>>, m: seq<Bytes>, side: Side, l: int)
      reads this, Place.Keys
    {
      && |arrays| == |m|
      && forall h | 0 <= h < |m| :: arrays[h] in Place && Place[arrays[h]] == (side, l, h) && arrays[h][..] == m[h]
    }

    constructor (cfg: Config)
      ensures Valid() && this.cfg == cfg && State == Empty(cfg) && fresh(Place.Keys)
    {
      this.cfg, headBytes, seqLen := cfg, cfg.headDim * 4, 0;
      kCache, vCache := [], [];
      State, Place := Empty(cfg), map[];
      new;
      for l := 0 to cfg.numLayers
        invariant this !in Place && fresh(Place.Keys)
        invariant Holds(kCache, Zeros(cfg)[..l], Keys) && Holds(vCache, Zeros(cfg)[..l], Values)
        invariant State == Empty(cfg) && seqLen == 0
      {
        NewLayer(l);
      }
      assert Zeros(cfg)[..cfg.numLayers] == Zeros(cfg);
    }

    /** A zeroed array for the head at this place. */
    method NewHead(size: nat, ghost side: Side, ghost l: int, ghost h: int) returns (a: array<Byte>)
      requires this !in Place
      modifies `Place
      ensures fresh(a) && a.Length == size && forall i | 0 <= i < size :: a[i] == 0
      ensures Place == old(Place)[a := (side, l, h)] && a !in old(Place)
    {
      a := new Byte[size](_ => 0);
      Place := Place[a := (side, l, h)];
    }

    /** Makes the zeroed arrays of one layer on one side. */
    method NewHeads(ghost side: Side, l: nat) returns (arrays: seq<array<Byte>>)
      requires l < cfg.numLayers && this !in Place && headBytes == cfg.headDim * 4
      modifies `Place
      ensures this !in Place && fresh(Place.Keys - old(Place.Keys))
      ensures old(Place.Keys) <= Place.Keys && forall a <- old(Place) :: Place[a] == old(Place[a])
      ensures HoldsLayer(arrays, Zeros(cfg)[l], side, l)
    {
      arrays := [];
      for h := 0 to cfg.numHeads
        invariant this !in Place && fresh(Place.Keys - old(Place.Keys))
        invariant old(Place.Keys) <= Place.Keys && forall a <- old(Place) :: Place[a] == old(Place[a])
        invariant HoldsLayer(arrays, Zeros(cfg)[l][..h], side, l)
      {
        var a := NewHead(cfg.maxSeqLen * headBytes, side, l, h);
        assert a[..] == Zeros(cfg)[l][h];
        arrays := arrays + [a];
      }
      assert Zeros(cfg)[l][..cfg.numHeads] == Zeros(cfg)[l];
    }

    method NewLayer(l: nat)
      requires l < cfg.numLayers && this !in Place && headBytes == cfg.headDim * 4
      requires Holds(kCache, Zeros(cfg)[..l], Keys) && Holds(vCache, Zeros(cfg)[..l], Values)
      modifies this
      ensures this !in Place && fresh(Place.Keys - old(Place.Keys)) && seqLen == old(seqLen) && State == old(State)
      ensures Holds(kCache, Zeros(cfg)[..l + 1], Keys) && Holds(vCache, Zeros(cfg)[..l + 1], Values)
    {
      var ks := NewHeads(Keys, l);
      var vs := NewHeads(Values, l);
      assert Zeros(cfg)[..l + 1] == Zeros(cfg)[..l] + [Zeros(cfg)[l]];
      kCache, vCache := kCache + [ks], vCache + [vs];
    }

    method Store(layer: int, head: int, pos: int, key: seq<Float32>, value: seq<Float32>)
      requires Valid()
      modifies this, Place.Keys
      ensures Valid() && Place == old(Place)
      ensures State == AfterStore(cfg, old(State), layer, head, pos, key, value)
    {
      if layer < 0 || layer >= cfg.numLayers {
        return;
      }
      if head < 0 || head >= cfg.numHeads {
        return;
      }
      if pos < 0 || pos >= cfg.maxSeqLen {
        return;
      }
      var offset := pos * headBytes;
      MulMonotone(0, pos, headBytes);
      MulMonotone(pos, cfg.maxSeqLen, headBytes);
      StoreKey(layer, head, pos, offset, key);
      StoreValue(layer, head, pos, offset, value);
      if pos + 1 > seqLen {
        seqLen := pos + 1;
      }
      State := State.(seqLen := seqLen);
    }

    method StoreKey(layer: nat, head: nat, pos: nat, offset: nat, key: seq<Float32>)
      requires Valid() && InRange(cfg, layer, head) && offset == pos * (cfg.headDim * 4) <= HeadSize(cfg)
      modifies this`State, Place.Keys
      ensures Valid() && State == old(State).(k := Put(cfg, old(State.k), layer, head, pos, key))
    {
      FloatsToBytes(key, kCache[layer][head], offset);
      State := State.(k := Put(cfg, State.k, layer, head, pos, key));
    }

    method StoreValue(layer: nat, head: nat, pos: nat, offset: nat, value: seq<Float32>)
      requires Valid() && InRange(cfg, layer, head) && offset == pos * (cfg.headDim * 4) <= HeadSize(cfg)
      modifies this`State, Place.Keys
      ensures Valid() && State == old(State).(v := Put(cfg, old(State.v), layer, head, pos, value))
    {
      FloatsToBytes(value, vCache[layer][head], offset);
      State := State.(v := Put(cfg, State.v, layer, head, pos, value));
    }

    method GetKeys(layer: int, head: int) returns (r: Option<seq<Float32>>)
      requires Valid()
      ensures r == Read(cfg, State.k, State.seqLen, layer, head)
    {
      if layer < 0 || layer >= cfg.numLayers {
        return None;
      }
      if head < 0 || head >= cfg.numHeads {
        return None;
      }
      if seqLen == 0 {
        return None;
      }
      CellsFit(cfg, seqLen);
      var result := new Float32[seqLen * cfg.headDim];
      BytesToFloats(kCache[layer][head], seqLen * headBytes, result);
      return Some(result[..]);
    }

    method GetValues(layer: int, head: int) returns (r: Option<seq<Float32>>)
      requires Valid()
      ensures r == Read(cfg, State.v, State.seqLen, layer, head)
    {
      if layer < 0 || layer >= cfg.numLayers {
        return None;
      }
      if head < 0 || head >= cfg.numHeads {
        return None;
      }
      if seqLen == 0 {
        return None;
      }
      CellsFit(cfg, seqLen);
      var result := new Float32[seqLen * cfg.headDim];
      BytesToFloats(vCache[layer][head], seqLen * headBytes, result);
      return Some(result[..]);
    }

    /** Zeroes one pair of arrays. */
    method ClearHead(l: nat, h: nat)
      requires Valid() && l < cfg.numLayers && h < cfg.numHeads
      modifies this, Place.Keys
      ensures Valid() && Place == old(Place)
      ensures State == old(State).(k := PutZeros(cfg, old(State.k), l, h), v := PutZeros(cfg, old(State.v), l, h))
    {
      var k, v := kCache[l][h], vCache[l][h];
      for i := 0 to k.Length
        modifies k, v
        invariant forall j | 0 <= j < i :: k[j] == 0 && v[j] == 0
      {
        k[i] := 0;
        v[i] := 0;
      }
      assert k[..] == v[..] == Zeros(cfg)[l][h];
      State := State.(k := PutZeros(cfg, State.k, l, h), v := PutZeros(cfg, State.v, l, h));
    }

    /** Zeroes one layer. */
    method ClearLayer(l: nat)
      requires Valid() && l < cfg.numLayers
      modifies this, Place.Keys
      ensures Valid() && Place == old(Place)
      ensures State.seqLen == old(State.seqLen)
      ensures forall j | 0 <= j < cfg.numLayers :: State.k[j] == if j == l then Zeros(cfg)[l] else old(State.k)[j]
      ensures forall j | 0 <= j < cfg.numLayers :: State.v[j] == if j == l then Zeros(cfg)[l] else old(State.v)[j]
    {
      for h := 0 to cfg.numHeads
        invariant Valid() && Place == old(Place) && State.seqLen == old(State.seqLen)
        invariant forall j | 0 <= j < cfg.numLayers && j != l ::
                  State.k[j] == old(State.k)[j] && State.v[j] == old(State.v)[j]
        invariant State.k[l][..h] == State.v[l][..h] == Zeros(cfg)[l][..h]
      {
        ClearHead(l, h);
      }
      assert State.k[l] == State.v[l] == Zeros(cfg)[l];
    }

    method Clear()
      requires Valid()
      modifies this, Place.Keys
      ensures Valid() && Place == old(Place)
      ensures State == Empty(cfg)
    {
      seqLen := 0;
      State := State.(seqLen := 0);
      for l := 0 to cfg.numLayers
        invariant Valid() && Place == old(Place) && State.seqLen == 0
        invariant forall j | 0 <= j < l :: State.k[j] == State.v[j] == Zeros(cfg)[j]
      {
        ClearLayer(l);
      }
      assert State.k == State.v == Zeros(cfg);
    }
  }
}
