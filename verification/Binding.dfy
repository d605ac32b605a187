/**
 * How a message's arguments become engine buffers and kernel arguments, what the kernel leaves in the buffers, and
 * what releasing them leaves of the engine: the part that executeLocally and executeLocallyVKWithBuffers in
 * vgpu/server/ipc_server.go have in common.
 *
 * Every argument gets a buffer of its own, but the handlers file the buffers under the argument's id. When an id
 * comes twice, only the last copy is filed; the ones before it are never written back and never released.
 */
module Binding {
  import opened Common
  import opened Engine
  import opened Numbering

  /** An argument: bytes to copy into an engine buffer filed under `id`, a scalar, or nothing the handler can use. */
  datatype Item = Copy(index: nat, id: string, content: Bytes) | Value(index: nat, bytes: Bytes) | Skipped

  /** What a copy is made of, and the id it is filed under. */
  datatype Source = Source(id: string, content: Bytes)

  /** A kernel argument position: the number of a copy, or a scalar. */
  datatype Slot = Ref(copy: nat) | Val(bytes: Bytes)

  // ── Copies and positions ──

  function NewSources(item: Item): seq<Source> { if item.Copy? then [Source(item.id, item.content)] else [] }

  /** The copies the first `n` arguments make, in order. */
  function SourcesTo(items: seq<Item>, n: nat): (r: seq<Source>)
    requires n <= |items|
    ensures |r| <= n
  {
    if n == 0 then [] else SourcesTo(items, n - 1) + NewSources(items[n - 1])
  }

  function Sources(items: seq<Item>): seq<Source> { SourcesTo(items, |items|) }

  function SetSlot(slots: seq<Slot>, index: nat, slot: Slot): (r: seq<Slot>)
    ensures |r| == Max(|slots|, index + 1) && r[index] == slot
    ensures forall i | 0 <= i < |slots| && i != index :: r[i] == slots[i]
    ensures forall i | |slots| <= i < |r| && i != index :: r[i] == Val([])
  {
    (if index < |slots| then slots else slots + seq(index + 1 - |slots|, _ => Val([])))[index := slot]
  }

  function AddSlot(slots: seq<Slot>, item: Item, copy: nat): seq<Slot> {
    match item
    case Copy(index, _, _) => SetSlot(slots, index, Ref(copy))
    case Value(index, bytes) => SetSlot(slots, index, Val(bytes))
    case Skipped => slots
  }

  /** The argument list after the first `n` arguments have been set in order. */
  function SlotsTo(items: seq<Item>, n: nat): seq<Slot>
    requires n <= |items|
  {
    if n == 0 then [] else AddSlot(SlotsTo(items, n - 1), items[n - 1], |SourcesTo(items, n - 1)|)
  }

  function Slots(items: seq<Item>): seq<Slot> { SlotsTo(items, |items|) }

  function OperandOf(slot: Slot, sources: seq<Source>): Operand {
    match slot
    case Val(bytes) => Literal(bytes)
    case Ref(p) => if p < |sources| then Memory(sources[p].content) else Unknown
  }

  /** What the kernel sees: each position has bytes of its own, even where ids repeat. */
  function OperandsOf(slots: seq<Slot>, sources: seq<Source>): (r: seq<Operand>)
    ensures |r| == |slots|
  {
    seq(|slots|, i requires 0 <= i < |slots| => OperandOf(slots[i], sources))
  }

  /** A position holds a copy that was made, and no copy has two positions. */
  ghost predicate Placed(slots: seq<Slot>, copies: nat) {
    && (forall i | 0 <= i < |slots| && slots[i].Ref? :: slots[i].copy < copies)
    && (forall i, j | 0 <= i < j < |slots| && slots[i].Ref? :: slots[i] != slots[j])
  }

  lemma {:induction false} SlotsArePlaced(items: seq<Item>, n: nat)
    requires n <= |items|
    ensures Placed(SlotsTo(items, n), |SourcesTo(items, n)|)
  {
    if n > 0 {
      SlotsArePlaced(items, n - 1);
    }
  }

  /** Where a copy stands among the positions, or past the end. */
  function Find(slots: seq<Slot>, copy: nat): (i: nat)
    ensures i <= |slots| && (i < |slots| ==> slots[i] == Ref(copy))
    ensures i == |slots| ==> forall j | 0 <= j < |slots| :: slots[j] != Ref(copy)
  {
    if slots == [] then 0 else if slots[0] == Ref(copy) then 0 else 1 + Find(slots[1..], copy)
  }

  /** What the kernel leaves in a copy: its answer, or the copied bytes if a later argument took the position. */
  function ResultIn(sources: seq<Source>, slots: seq<Slot>, outs: seq<Bytes>, p: nat): Bytes
    requires p < |sources| && |outs| == |slots|
  {
    var i := Find(slots, p);
    if i < |slots| then outs[i] else sources[p].content
  }

  /** Every result has the size of what was copied. */
  lemma {:induction false} ResultSize(kernel: KernelFn, sources: seq<Source>, slots: seq<Slot>, global: seq<nat>,
                                      offset: seq<nat>, p: nat)
    requires KeepsSizes(kernel) && kernel(OperandsOf(slots, sources), global, offset).Some? && p < |sources|
    ensures var outs := kernel(OperandsOf(slots, sources), global, offset).value;
            |outs| == |slots| && |ResultIn(sources, slots, outs, p)| == |sources[p].content|
  {
    var f := Find(slots, p);
    if f < |slots| {
      assert OperandsOf(slots, sources)[f] == Memory(sources[p].content);
    }
  }

  // ── The last copy under an id ──

  function LastTo(sources: seq<Source>, n: nat, id: string): (p: nat)
    requires n <= |sources|
    ensures p < n || p == |sources|
    ensures p < n ==> sources[p].id == id && forall q | p < q < n :: sources[q].id != id
    ensures p == |sources| ==> forall q | 0 <= q < n :: sources[q].id != id
  {
    if n == 0 then |sources| else if sources[n - 1].id == id then n - 1 else LastTo(sources, n - 1, id)
  }

  /** The copy the handler has under `id` in the end, or past the end. */
  function LastOf(sources: seq<Source>, id: string): (p: nat)
    ensures p <= |sources|
    ensures p < |sources| ==> sources[p].id == id && forall q | p < q < |sources| :: sources[q].id != id
    ensures p == |sources| ==> forall q | 0 <= q < |sources| :: sources[q].id != id
  {
    LastTo(sources, |sources|, id)
  }

  predicate IsLast(sources: seq<Source>, p: nat) { p < |sources| && LastOf(sources, sources[p].id) == p }

  lemma {:induction false} LastOfMore(sources: seq<Source>, s: Source, id: string)
    ensures LastOf(sources + [s], id) ==
            if s.id == id then |sources|
            else if LastOf(sources, id) == |sources| then |sources| + 1 else LastOf(sources, id)
  {
    var all, p := sources + [s], LastOf(sources + [s], id);
    assert all[|sources|] == s && forall q | 0 <= q < |sources| :: all[q] == sources[q];
    var before := LastOf(sources, id);
    assert before < |sources| ==> all[before].id == id;
  }

  ghost predicate DistinctIds(sources: seq<Source>) {
    forall i, j | 0 <= i < j < |sources| :: sources[i].id != sources[j].id
  }

  lemma {:induction false} DistinctAreLast(sources: seq<Source>)
    requires DistinctIds(sources)
    ensures forall p | 0 <= p < |sources| :: IsLast(sources, p)
  {
  }

  // ── Binding ──

  ghost predicate IsCopy(b: GoBuffer, content: Bytes)
    reads b
  {
    b.data == content && b.size == |content|
  }

  ghost predicate Copied(copies: seq<GoBuffer>, sources: seq<Source>)
    reads copies
  {
    |copies| == |sources| && forall p | 0 <= p < |copies| :: IsCopy(copies[p], sources[p].content)
  }

  ghost predicate NamesLast(engBufs: map<string, GoBuffer>, copies: seq<GoBuffer>, sources: seq<Source>, id: string)
    requires |copies| == |sources| && id in engBufs
  {
    LastOf(sources, id) < |sources| && engBufs[id] == copies[LastOf(sources, id)]
  }

  ghost predicate HasId(engBufs: map<string, GoBuffer>, sources: seq<Source>, p: nat)
    requires p < |sources|
  {
    sources[p].id in engBufs
  }

  /** Each id that was copied names its last copy. */
  ghost predicate Filed(engBufs: map<string, GoBuffer>, copies: seq<GoBuffer>, sources: seq<Source>) {
    && |copies| == |sources|
    && (forall p {:trigger HasId(engBufs, sources, p)} | 0 <= p < |sources| :: HasId(engBufs, sources, p))
    && (forall id {:trigger NamesLast(engBufs, copies, sources, id)} | id in engBufs ::
          NamesLast(engBufs, copies, sources, id))
  }

  ghost predicate MadeOf(copies: seq<GoBuffer>, made: set<object>) { forall i | 0 <= i < |copies| :: copies[i] in made }

  /** The kernel's argument list names each position's own copy. */
  ghost predicate Matches(kargs: seq<KernelArg>, slots: seq<Slot>, copies: seq<GoBuffer>) {
    && |kargs| == |slots|
    && forall i | 0 <= i < |slots| ::
         match slots[i]
         case Val(bytes) => kargs[i] == Scalar(bytes)
         case Ref(p) => p < |copies| && kargs[i] == BufferRef(copies[p].id)
  }

  /** The first `n` arguments are bound. */
  ghost predicate BoundTo(items: seq<Item>, n: nat, kargs: seq<KernelArg>, engBufs: map<string, GoBuffer>,
                          copies: seq<GoBuffer>)
    requires n <= |items|
    reads copies
  {
    forall k {:trigger SlotsTo(items, k)} | k == n ::
      && Copied(copies, SourcesTo(items, k)) && Filed(engBufs, copies, SourcesTo(items, k))
      && Matches(kargs, SlotsTo(items, k), copies)
  }

  lemma {:induction false} NothingBound(items: seq<Item>)
    ensures BoundTo(items, 0, [], map[], [])
  {
    assert SlotsTo(items, 0) == [];
  }

  lemma {:induction false} FiledMore(engBufs: map<string, GoBuffer>, copies: seq<GoBuffer>, sources: seq<Source>,
                                     s: Source, b: GoBuffer)
    requires Filed(engBufs, copies, sources)
    ensures Filed(engBufs[s.id := b], copies + [b], sources + [s])
  {
    var filed, all, named := engBufs[s.id := b], copies + [b], sources + [s];
    forall id <- filed ensures NamesLast(filed, all, named, id) {
      LastOfMore(sources, s, id);
      if id != s.id { assert NamesLast(engBufs, copies, sources, id); }
    }
    forall p | 0 <= p < |named| ensures HasId(filed, named, p) {
      if p < |sources| { assert HasId(engBufs, sources, p); }
    }
  }

  lemma {:induction false} BoundCopy(items: seq<Item>, n: nat, kargs: seq<KernelArg>, engBufs: map<string, GoBuffer>,
                                     copies: seq<GoBuffer>, b: GoBuffer)
    requires n < |items| && items[n].Copy? && BoundTo(items, n, kargs, engBufs, copies) && IsCopy(b, items[n].content)
    ensures BoundTo(items, n + 1, SetArg(kargs, items[n].index, BufferRef(b.id)), engBufs[items[n].id := b],
                    copies + [b])
  {
    var s := Source(items[n].id, items[n].content);
    assert SlotsTo(items, n + 1) == AddSlot(SlotsTo(items, n), items[n], |SourcesTo(items, n)|);
    assert SourcesTo(items, n + 1) == SourcesTo(items, n) + [s];
    FiledMore(engBufs, copies, SourcesTo(items, n), s, b);
    forall p | 0 <= p < |copies + [b]| ensures IsCopy((copies + [b])[p], (SourcesTo(items, n) + [s])[p].content) {
      if p < |copies| { assert IsCopy(copies[p], SourcesTo(items, n)[p].content); }
    }
  }

  lemma {:induction false} BoundOther(items: seq<Item>, n: nat, kargs: seq<KernelArg>, engBufs: map<string, GoBuffer>,
                                      copies: seq<GoBuffer>)
    requires n < |items| && !items[n].Copy? && BoundTo(items, n, kargs, engBufs, copies)
    ensures BoundTo(items, n + 1,
                    if items[n].Skipped? then kargs else SetArg(kargs, items[n].index, Scalar(items[n].bytes)),
                    engBufs, copies)
  {
    assert SlotsTo(items, n + 1) == AddSlot(SlotsTo(items, n), items[n], |SourcesTo(items, n)|);
    assert SourcesTo(items, n) + [] == SourcesTo(items, n);
  }

  /** Makes a copy and binds it. */
  method BindCopy(engine: GoEngine, kargs: seq<KernelArg>, engBufs: map<string, GoBuffer>, index: nat, id: string,
                  content: Bytes, ghost items: seq<Item>, ghost n: nat, ghost before: map<Bytes, GoBuffer>,
                  ghost nums: set<nat>, ghost copies: seq<GoBuffer>)
    returns (kargs': seq<KernelArg>, engBufs': map<string, GoBuffer>, b: GoBuffer)
    requires n < |items| && items[n] == Copy(index, id, content)
    requires Makes(before, nums, copies, engine.buffers) && BoundTo(items, n, kargs, engBufs, copies)
    modifies engine
    ensures fresh(b) && Makes(before, nums, copies + [b], engine.buffers)
    ensures BoundTo(items, n + 1, kargs', engBufs', copies + [b])
  {
    ghost var now := engine.buffers;
    b := engine.CreateBuffer(|content|, content);
    MakesOneMore(before, nums, copies, now, b);
    BoundCopy(items, n, kargs, engBufs, copies, b);
    kargs', engBufs' := SetArg(kargs, index, BufferRef(b.id)), engBufs[id := b];
  }

  /** A scalar argument, or one to skip. */
  method BindScalar(kargs: seq<KernelArg>, engBufs: map<string, GoBuffer>, item: Item, ghost items: seq<Item>,
                    ghost n: nat, ghost copies: seq<GoBuffer>)
    returns (kargs': seq<KernelArg>)
    requires n < |items| && items[n] == item && !item.Copy? && BoundTo(items, n, kargs, engBufs, copies)
    ensures BoundTo(items, n + 1, kargs', engBufs, copies)
  {
    BoundOther(items, n, kargs, engBufs, copies);
    kargs' := if item.Skipped? then kargs else SetArg(kargs, item.index, Scalar(item.bytes));
  }

  // ── Running the kernel ──

  /** A buffer position's id names the copy, if the copies keep their ids to themselves. */
  lemma {:induction false} PositionIsCopy(buffers: map<Bytes, GoBuffer>, copies: seq<GoBuffer>, kargs: seq<KernelArg>,
                                          slots: seq<Slot>, i: nat)
    requires AllOwn(buffers, copies) && Matches(kargs, slots, copies)
    requires i < |kargs| && kargs[i].BufferRef?
    ensures slots[i].Ref? && slots[i].copy < |copies|
    ensures kargs[i].bufferId in buffers && buffers[kargs[i].bufferId] == copies[slots[i].copy]
  {
    assert Own(buffers, copies[slots[i].copy]);
  }

  /** Where each copy has an id of its own the kernel sees exactly the copied bytes. */
  lemma {:induction false} SeesSources(engine: GoEngine, copies: seq<GoBuffer>, kargs: seq<KernelArg>,
                                       slots: seq<Slot>, sources: seq<Source>)
    requires AllOwn(engine.buffers, copies) && Matches(kargs, slots, copies) && Copied(copies, sources)
    ensures engine.ResolveAll(kargs) == OperandsOf(slots, sources)
  {
    forall i | 0 <= i < |kargs| ensures engine.Resolve(kargs[i]) == OperandOf(slots[i], sources) {
      if kargs[i].BufferRef? {
        PositionIsCopy(engine.buffers, copies, kargs, slots, i);
        assert IsCopy(copies[slots[i].copy], sources[slots[i].copy].content);
      }
    }
  }

  /** On any engine: the copies from the first whose number was taken on share an id, which names the last of them. */
  lemma {:induction false} SharedPosition(engine: GoEngine, before: map<Bytes, GoBuffer>, nums: set<nat>,
                                          copies: seq<GoBuffer>, kargs: seq<KernelArg>, slots: seq<Slot>,
                                          sources: seq<Source>, i: nat)
    requires Makes(before, nums, copies, engine.buffers) && AllDiffer(copies)
    requires Matches(kargs, slots, copies) && Copied(copies, sources) && i < |slots| && slots[i].Ref?
    ensures slots[i].copy < |sources| == |copies| && |kargs| == |slots| && kargs[i].BufferRef?
    ensures var seen := if slots[i].copy < FreeCount(nums, |copies|) then slots[i].copy else |sources| - 1;
      && kargs[i].bufferId in engine.buffers && engine.buffers[kargs[i].bufferId] == copies[seen]
      && engine.Resolve(kargs[i]) == Memory(sources[seen].content)
  {
    var p, last := slots[i].copy, |copies| - 1;
    var seen := if p < FreeCount(nums, |copies|) then p else last;
    OwnIff(before, nums, copies, engine.buffers, seen);
    if p < seen {
      SharedIff(nums, copies, p, seen);
    }
    assert IsCopy(copies[seen], sources[seen].content);
  }

  /** Where the very first number is taken every position is bound to the last copy, and the kernel gets no other. */
  lemma {:induction false} AllShared(engine: GoEngine, before: map<Bytes, GoBuffer>, nums: set<nat>,
                                     copies: seq<GoBuffer>, kargs: seq<KernelArg>, slots: seq<Slot>,
                                     sources: seq<Source>)
    requires Makes(before, nums, copies, engine.buffers) && AllDiffer(copies)
    requires Matches(kargs, slots, copies) && Copied(copies, sources) && FreeCount(nums, |copies|) == 0
    ensures forall i | 0 <= i < |slots| && slots[i].Ref? ::
              copies != [] && |kargs| == |slots|
              && engine.Resolve(kargs[i]) == Memory(sources[|copies| - 1].content)
    ensures forall b <- engine.Referenced(kargs) :: copies != [] && b == copies[|copies| - 1]
  {
    forall i | 0 <= i < |slots| && slots[i].Ref?
      ensures copies != [] && engine.Resolve(kargs[i]) == Memory(sources[|copies| - 1].content)
      ensures kargs[i].BufferRef? && kargs[i].bufferId in engine.buffers
      ensures engine.buffers[kargs[i].bufferId] == copies[|copies| - 1]
    {
      SharedPosition(engine, before, nums, copies, kargs, slots, sources, i);
    }
  }

  /** No engine buffer is passed twice. */
  lemma {:induction false} PassedOnce(copies: seq<GoBuffer>, kargs: seq<KernelArg>, slots: seq<Slot>, i: nat, j: nat)
    requires IdsDiffer(copies) && Matches(kargs, slots, copies) && Placed(slots, |copies|)
    requires i < j < |kargs| && kargs[i].BufferRef?
    ensures kargs[i] != kargs[j]
  {
    if kargs[j].BufferRef? {
      assert slots[i].Ref? && slots[j].Ref? && slots[i] != slots[j];
    }
  }

  /** A copy without a position is not among the kernel's buffers. */
  lemma {:induction false} NotPassed(engine: GoEngine, copies: seq<GoBuffer>, kargs: seq<KernelArg>, slots: seq<Slot>,
                                     p: nat)
    requires AllOwn(engine.buffers, copies) && IdsDiffer(copies) && Matches(kargs, slots, copies)
    requires p < |copies| && Find(slots, p) == |slots|
    ensures copies[p] !in engine.Referenced(kargs)
  {
    forall i | 0 <= i < |kargs| && kargs[i].BufferRef? && kargs[i].bufferId in engine.buffers
      ensures engine.buffers[kargs[i].bufferId] != copies[p]
    {
      PositionIsCopy(engine.buffers, copies, kargs, slots, i);
    }
  }

  lemma {:induction false} OnlyCopiesPassed(engine: GoEngine, copies: seq<GoBuffer>, kargs: seq<KernelArg>,
                                            slots: seq<Slot>)
    requires AllOwn(engine.buffers, copies) && Matches(kargs, slots, copies)
    ensures forall b <- engine.Referenced(kargs) :: b in copies
  {
    forall i | 0 <= i < |kargs| && kargs[i].BufferRef? && kargs[i].bufferId in engine.buffers
      ensures engine.buffers[kargs[i].bufferId] in copies
    {
      PositionIsCopy(engine.buffers, copies, kargs, slots, i);
    }
  }

  /** Every copy holds what the kernel left in it. */
  ghost predicate Computed(copies: seq<GoBuffer>, sources: seq<Source>, slots: seq<Slot>, outs: seq<Bytes>)
    reads copies
  {
    && |copies| == |sources| && |outs| == |slots|
    && forall p | 0 <= p < |copies| ::
         && copies[p].data == ResultIn(sources, slots, outs, p)
         && |copies[p].data| == copies[p].size == |sources[p].content|
  }

  method RunKernel(engine: GoEngine, kernel: KernelFn, kargs: seq<KernelArg>, global: seq<nat>, offset: seq<nat>,
                   ghost copies: seq<GoBuffer>, ghost slots: seq<Slot>, ghost sources: seq<Source>)
    returns (ok: bool)
    requires Keyed(engine.buffers) && AllOwn(engine.buffers, copies) && IdsDiffer(copies)
    requires KeepsSizes(kernel) && Placed(slots, |copies|) && Matches(kargs, slots, copies) && Copied(copies, sources)
    modifies copies
    ensures var result := kernel(OperandsOf(slots, sources), global, offset);
            ok == result.Some? && (ok ==> Computed(copies, sources, slots, result.value))
  {
    SeesSources(engine, copies, kargs, slots, sources);
    OnlyCopiesPassed(engine, copies, kargs, slots);
    forall i, j | 0 <= i < j < |kargs| && kargs[i].BufferRef? ensures kargs[i] != kargs[j] {
      PassedOnce(copies, kargs, slots, i, j);
    }
    forall p | 0 <= p < |copies| && Find(slots, p) == |slots| ensures copies[p] !in engine.Referenced(kargs) {
      NotPassed(engine, copies, kargs, slots, p);
    }
    label before:
    ok := engine.ExecuteNDRange(kernel, kargs, global, offset);
    if ok {
      ghost var operands := OperandsOf(slots, sources);
      ghost var outs := kernel(operands, global, offset).value;
      forall p | 0 <= p < |copies|
        ensures copies[p].data == ResultIn(sources, slots, outs, p)
        ensures |copies[p].data| == copies[p].size == |sources[p].content|
      {
        assert old@before(IsCopy(copies[p], sources[p].content));
        var f := Find(slots, p);
        if f < |slots| {
          PositionIsCopy(engine.buffers, copies, kargs, slots, f);
          assert operands[f] == Memory(sources[p].content);
        }
      }
    }
  }

  // ── Releasing ──

  ghost function EngineIds(engBufs: map<string, GoBuffer>): set<Bytes> { set id | id in engBufs :: engBufs[id].id }

  lemma {:induction false} EngineIdsWithout(engBufs: map<string, GoBuffer>, id: string)
    requires id in engBufs
    ensures EngineIds(engBufs) == EngineIds(engBufs - {id}) + {engBufs[id].id}
  {
    forall name | name in EngineIds(engBufs) ensures name in EngineIds(engBufs - {id}) + {engBufs[id].id} {
      var other :| other in engBufs && engBufs[other].id == name;
      if other != id { assert other in engBufs - {id}; }
    }
  }

  lemma {:induction false} OneMoreReleased(buffers: map<Bytes, GoBuffer>, all: set<Bytes>, gone: set<Bytes>,
                                           left: map<string, GoBuffer>, id: string)
    requires id in left && gone + EngineIds(left) == all
    ensures buffers - gone - {left[id].id} == buffers - (gone + {left[id].id})
    ensures (gone + {left[id].id}) + EngineIds(left - {id}) == all
  {
    EngineIdsWithout(left, id);
  }

  /** Releases every buffer that is filed. */
  method Cleanup(engine: GoEngine, engBufs: map<string, GoBuffer>)
    modifies engine
    ensures engine.buffers == old(engine.buffers) - EngineIds(engBufs)
  {
    var left := engBufs;
    ghost var gone: set<Bytes> := {};
    while left != map[]
      invariant engine.buffers == old(engine.buffers) - gone
      invariant gone + EngineIds(left) == EngineIds(engBufs)
      decreases |left|
    {
      var id :| id in left;
      engine.ReleaseBuffer(left[id]);
      OneMoreReleased(old(engine.buffers), EngineIds(engBufs), gone, left, id);
      gone := gone + {left[id].id};
      left := left - {id};
    }
  }

  /** What is released are exactly the ids of the last copies. */
  lemma {:induction false} ReleasedAre(engBufs: map<string, GoBuffer>, copies: seq<GoBuffer>, sources: seq<Source>,
                                       name: Bytes)
    requires Filed(engBufs, copies, sources)
    ensures name in EngineIds(engBufs) <==> exists p | 0 <= p < |copies| :: IsLast(sources, p) && copies[p].id == name
  {
    if name in EngineIds(engBufs) {
      var id :| id in engBufs && engBufs[id].id == name;
      assert NamesLast(engBufs, copies, sources, id);
      var p := LastOf(sources, id);
      assert IsLast(sources, p) && copies[p].id == name;
    }
    if p :| 0 <= p < |copies| && IsLast(sources, p) && copies[p].id == name {
      assert HasId(engBufs, sources, p) && NamesLast(engBufs, copies, sources, sources[p].id);
    }
  }

  /** Which copies are filed in the end, and released. */
  function Lasts(sources: seq<Source>): (r: seq<bool>)
    ensures |r| == |sources| && forall p | 0 <= p < |r| :: r[p] == IsLast(sources, p)
  {
    seq(|sources|, p requires 0 <= p < |sources| => IsLast(sources, p))
  }

  ghost predicate RepeatsFirst(sources: seq<Source>) { SupersededFirst(Lasts(sources)) }

  /** The numbers of the engine's buffers after a launch that succeeded, or failed with `copied` copies made. */
  function NumsLeft(nums: set<nat>, sources: seq<Source>, copied: nat, ok: bool): set<nat> {
    if ok then NumsAfter(nums, Lasts(sources)) else Given(nums, copied)
  }

  /** The engine after a launch: its numbers, and everything whose number was not given again as it was. */
  ghost predicate Left(after: map<Bytes, GoBuffer>, before: map<Bytes, GoBuffer>, nums: set<nat>, sources: seq<Source>,
                       copied: nat, ok: bool)
  {
    && Numbered(after, NumsLeft(nums, sources, copied, ok))
    && forall id <- after | id !in Named(Numbers(nums, copied)) :: id in before && after[id] == before[id]
  }

  /** Nothing but what was made is new. */
  lemma {:induction false} MadeLeft(before: map<Bytes, GoBuffer>, nums: set<nat>, copies: seq<GoBuffer>,
                                    after: map<Bytes, GoBuffer>, sources: seq<Source>)
    requires Makes(before, nums, copies, after)
    ensures Left(after, before, nums, sources, |copies|, false)
  {
    forall id <- after | id !in Named(Numbers(nums, |copies|)) ensures id in before && after[id] == before[id] {
      forall p | 0 <= p < |copies| ensures copies[p].id != id {
        assert |Given(nums, p)| + 1 in Numbers(nums, |copies|);
      }
      OthersStay(before, copies, |copies|, id);
    }
  }

  /** The copies are the engine's newest buffers and keep their ids to themselves. */
  ghost predicate Roomy(engine: GoEngine, before: map<Bytes, GoBuffer>, nums: set<nat>, copies: seq<GoBuffer>)
    reads engine
  {
    Makes(before, nums, copies, engine.buffers) && AllDiffer(copies) && HasRoom(nums, |copies|)
  }

  /** The kernel on copies that keep their ids to themselves. */
  method RunInRoom(engine: GoEngine, kernel: KernelFn, kargs: seq<KernelArg>, global: seq<nat>, offset: seq<nat>,
                   ghost before: map<Bytes, GoBuffer>, ghost nums: set<nat>, ghost copies: seq<GoBuffer>,
                   ghost slots: seq<Slot>, ghost sources: seq<Source>)
    returns (ok: bool)
    requires Roomy(engine, before, nums, copies)
    requires KeepsSizes(kernel) && Placed(slots, |copies|) && Matches(kargs, slots, copies) && Copied(copies, sources)
    modifies copies
    ensures var result := kernel(OperandsOf(slots, sources), global, offset);
            ok == result.Some? && (ok ==> Computed(copies, sources, slots, result.value))
    ensures !ok ==> Left(engine.buffers, before, nums, sources, |copies|, false)
  {
    AllOwnIff(before, nums, copies, engine.buffers);
    RoomIdsDiffer(nums, copies);
    MadeLeft(before, nums, copies, engine.buffers, sources);
    ok := RunKernel(engine, kernel, kargs, global, offset, copies, slots, sources);
  }

  lemma {:induction false} CopyNumber(nums: set<nat>, copies: seq<GoBuffer>, p: nat)
    requires Counted(copies, nums) && HasRoom(nums, |copies|) && p < |copies|
    ensures copies[p].id == BufName(NewNum(nums, p))
  {
    RoomNumber(nums, |copies|, p);
  }

  lemma {:induction false} NamedMinus(a: set<nat>, b: set<nat>)
    ensures Named(a - b) == Named(a) - Named(b)
  {
    forall name ensures name in Named(a - b) <==> name in Named(a) - Named(b) {
      if i :| i in a && name == BufName(i) {
        NamedAre(a - b, i);
        NamedAre(b, i);
      }
    }
  }

  lemma {:induction false} ReleasedIds(nums: set<nat>, copies: seq<GoBuffer>, engBufs: map<string, GoBuffer>,
                                       sources: seq<Source>)
    requires Filed(engBufs, copies, sources) && Counted(copies, nums) && HasRoom(nums, |copies|)
    ensures EngineIds(engBufs) == Named(LastNums(nums, Lasts(sources)))
  {
    forall name ensures name in EngineIds(engBufs) <==> name in Named(LastNums(nums, Lasts(sources))) {
      ReleasedAre(engBufs, copies, sources, name);
      if p :| 0 <= p < |copies| && IsLast(sources, p) && copies[p].id == name {
        CopyNumber(nums, copies, p);
        assert Lasts(sources)[p] && NewNum(nums, p) in LastNums(nums, Lasts(sources));
      }
      if i :| i in LastNums(nums, Lasts(sources)) && name == BufName(i) {
        var p: nat :| p < |sources| && Lasts(sources)[p] && NewNum(nums, p) == i;
        CopyNumber(nums, copies, p);
      }
    }
  }

  /** Releasing the last copies. */
  lemma {:induction false} CleanupLeaves(before: map<Bytes, GoBuffer>, nums: set<nat>, copies: seq<GoBuffer>,
                                         after: map<Bytes, GoBuffer>, engBufs: map<string, GoBuffer>,
                                         sources: seq<Source>)
    requires Makes(before, nums, copies, after) && HasRoom(nums, |copies|) && Filed(engBufs, copies, sources)
    ensures Left(after - EngineIds(engBufs), before, nums, sources, |copies|, true)
  {
    MadeLeft(before, nums, copies, after, sources);
    RoomGiven(nums, |copies|);
    ReleasedIds(nums, copies, engBufs, sources);
    NamedMinus(nums + NewNums(nums, |copies|), LastNums(nums, Lasts(sources)));
  }

  lemma {:induction false} LastIsLast(sources: seq<Source>)
    requires sources != []
    ensures IsLast(sources, |sources| - 1)
  {
  }

  lemma {:induction false} DistinctRepeatNothing(sources: seq<Source>)
    requires DistinctIds(sources)
    ensures RepeatsFirst(sources) && Repeats(Lasts(sources), |sources|) == 0
  {
    DistinctAreLast(sources);
    if sources != [] {
      assert Lasts(sources)[0];
    }
  }

  /** A success leaves an engine without gaps without gaps exactly when the superseded copies were made first. */
  lemma {:induction false} LaunchGaplessIff(k: nat, sources: seq<Source>)
    ensures Gapless(NumsLeft(Upto(k), sources, |sources|, true)) <==> RepeatsFirst(sources)
    ensures RepeatsFirst(sources) ==>
              NumsLeft(Upto(k), sources, |sources|, true) == Upto(k + Repeats(Lasts(sources), |sources|))
  {
    GaplessIff(k, Lasts(sources));
  }

  /** And exactly then there is room for as many copies again, or for more. */
  lemma {:induction false} LaunchAgainIff(k: nat, sources: seq<Source>, n: nat)
    requires n >= |sources|
    ensures HasRoom(NumsLeft(Upto(k), sources, |sources|, true), n) <==> RepeatsFirst(sources)
  {
    if sources != [] { LastIsLast(sources); }
    AgainIff(k, Lasts(sources), n);
  }

  /** The same three arguments leave a gap or none, depending on their order. */
  lemma {:induction false} OrderMatters(x: Source, y: Source, y': Source)
    requires x.id != y.id == y'.id
    ensures RepeatsFirst([y, y', x]) && !RepeatsFirst([x, y, y'])
    ensures Lasts([x, y, y']) == [true, false, true]
  {
    var first, second := [y, y', x], [x, y, y'];
    assert !IsLast(first, 0) && IsLast(first, 1) && IsLast(first, 2);
    assert IsLast(second, 0) && !IsLast(second, 1) && IsLast(second, 2);
    assert !Lasts(first)[0] && Lasts(second)[0] && !Lasts(second)[1];
  }
}
