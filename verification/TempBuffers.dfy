/**
 * vgpu/server/ipc_server.go: Vulkan and CUDA messages that bring their buffers along. The buffers are allocated and
 * written in VRAM before the kernel runs on engine copies of them, and released when the handler returns.
 */
module TempBuffers {
  import opened Binding
  import opened Common
  import opened Engine
  import opened Numbering
  import opened VramSpec
  import opened Vram

  /** `Unset` is any other text. */
  datatype Direction = In | Out | InOut | Unset

  datatype Kind = Plain | Int32Scalar | Float32Scalar

  /** One buffer of a message; no payload if its hex text is empty or malformed. */
  datatype IPCBuffer = IPCBuffer(id: string, payload: Option<Bytes>, direction: Direction, kind: Kind, offset: nat) {
    predicate ReadOnly() { direction.In? }
    predicate IsOutput() { kind.Plain? && (direction.Out? || direction.InOut?) }
  }

  datatype Output = Output(id: string, data: Bytes)

  type EngineFn = seq<IPCBuffer> -> Option<seq<Output>>

  /** A decoded payload is not empty and no longer than a Go slice can be; the offset is a uint64. */
  ghost predicate Decoded(b: IPCBuffer) {
    b.offset < TWO64 && (b.payload.Some? ==> 0 < |b.payload.value| < TWO64 / 2)
  }

  ghost predicate AllDecoded(buffers: seq<IPCBuffer>) { forall i | 0 <= i < |buffers| :: Decoded(buffers[i]) }

  /** The engine answers with buffers of the message, no longer than the VRAM allows to address. */
  ghost predicate AnswersFrom(compute: EngineFn, buffers: seq<IPCBuffer>) {
    compute(buffers).Some? ==> forall i | 0 <= i < |compute(buffers).value| ::
      && |compute(buffers).value[i].data| < TWO64
      && exists j | 0 <= j < |buffers| :: buffers[j].id == compute(buffers).value[i].id
  }

  // ── The engine's part as a function ──

  /** What the handler makes of buffer `i` of a message. */
  function ItemAt(b: IPCBuffer, i: nat): Item {
    if b.payload.None? then Skipped
    else if b.kind.Plain? then Copy(i, b.id, b.payload.value)
    else if |b.payload.value| >= 4 then Value(i, b.payload.value[..4])
    else Skipped
  }

  /** A payload is a buffer, or a scalar of which the first four bytes count; a shorter scalar is no argument. */
  lemma {:induction false} ArgumentIs(b: IPCBuffer, i: nat)
    requires b.payload.Some?
    ensures var v := b.payload.value;
      ItemAt(b, i) == match b.kind
                      case Plain => Copy(i, b.id, v)
                      case _ => if |v| < 4 then Skipped else Value(i, [v[0], v[1], v[2], v[3]])
  {
    if |b.payload.value| >= 4 {
      var v := b.payload.value;
      assert v[..4] == [v[0], v[1], v[2], v[3]];
    }
  }

  function MessageItems(buffers: seq<IPCBuffer>): (items: seq<Item>)
    ensures |items| == |buffers|
  {
    seq(|buffers|, i requires 0 <= i < |buffers| => ItemAt(buffers[i], i))
  }

  /** The ids of the first `n` buffers that have a copy and, unless `all` is set, are marked as outputs. */
  function PickedTo(buffers: seq<IPCBuffer>, sources: seq<Source>, all: bool, n: nat): (ids: seq<string>)
    requires n <= |buffers|
    ensures forall i | 0 <= i < |ids| ::
              LastOf(sources, ids[i]) < |sources| && exists j | 0 <= j < n :: buffers[j].id == ids[i]
  {
    if n == 0 then []
    else
      PickedTo(buffers, sources, all, n - 1)
      + if (all || buffers[n - 1].IsOutput()) && LastOf(sources, buffers[n - 1].id) < |sources| then [buffers[n - 1].id]
        else []
  }

  /** The outputs: the marked buffers, or all if none is marked. */
  function OutputIds(buffers: seq<IPCBuffer>, sources: seq<Source>): (ids: seq<string>)
    ensures forall i | 0 <= i < |ids| ::
              LastOf(sources, ids[i]) < |sources| && exists j | 0 <= j < |buffers| :: buffers[j].id == ids[i]
  {
    var marked := PickedTo(buffers, sources, false, |buffers|);
    if marked == [] then PickedTo(buffers, sources, true, |buffers|) else marked
  }

  /** Each output is what the kernel left in the last copy under its id. */
  function OutputsOf(ids: seq<string>, sources: seq<Source>, slots: seq<Slot>, outs: seq<Bytes>): (r: seq<Output>)
    requires |outs| == |slots| && forall i | 0 <= i < |ids| :: LastOf(sources, ids[i]) < |sources|
    ensures |r| == |ids|
  {
    seq(|ids|, i requires 0 <= i < |ids| => Output(ids[i], ResultIn(sources, slots, outs, LastOf(sources, ids[i]))))
  }

  function GlobalOr1(global: seq<nat>): seq<nat> { if global == [] then [1] else global }

  /** What the engine answers to a message. */
  function Compute(kernel: KernelFn, global: seq<nat>): EngineFn {
    (buffers: seq<IPCBuffer>) =>
      var sources, slots := Sources(MessageItems(buffers)), Slots(MessageItems(buffers));
      var outs := kernel(OperandsOf(slots, sources), GlobalOr1(global), seq(|GlobalOr1(global)|, _ => 0));
      if outs.None? || |outs.value| != |slots| then None
      else Some(OutputsOf(OutputIds(buffers, sources), sources, slots, outs.value))
  }

  /** The kernel runs from zero on over the given size, or over one item if none is given; its error is the answer's. */
  lemma {:induction false} ComputeIs(kernel: KernelFn, global: seq<nat>, buffers: seq<IPCBuffer>, zeros: seq<nat>)
    requires KeepsSizes(kernel) && forall i | 0 <= i < |zeros| :: zeros[i] == 0
    requires |zeros| == if global == [] then 1 else |global|
    ensures var operands := OperandsOf(Slots(MessageItems(buffers)), Sources(MessageItems(buffers)));
      Compute(kernel, global)(buffers).Some? <==> kernel(operands, if global == [] then [1] else global, zeros).Some?
  {
    assert seq(|GlobalOr1(global)|, _ => 0) == zeros;
  }

  // ── As functions on the VRAM state ──

  predicate Granted(s: VState, b: IPCBuffer) { b.payload.Some? && Fits(s, |b.payload.value|) }

  /** The VRAM and the ids to release after the first `n` buffers. */
  datatype Progress = Progress(s: VState, ids: seq<string>)

  function PutOne(p: Progress, b: IPCBuffer): Progress {
    if !Granted(p.s, b) then p
    else
      var data := b.payload.value;
      var s := AfterAllocate(p.s, b.id, |data|, 0, if b.ReadOnly() then ReadOnly else ReadWrite);
      if WriteFits(s, b.id, b.offset, data) then Progress(AfterWrite(s, b.id, b.offset, data), p.ids + [b.id])
      else Progress(s, p.ids)
  }

  function PutAll(s: VState, buffers: seq<IPCBuffer>, n: nat): Progress
    requires n <= |buffers|
  {
    if n == 0 then Progress(s, []) else PutOne(PutAll(s, buffers, n - 1), buffers[n - 1])
  }

  /** Buffer `i` is granted, and the end of its write wraps into it: the copy panics. */
  predicate PanicsAt(s: VState, buffers: seq<IPCBuffer>, i: nat)
    requires i < |buffers|
  {
    Granted(PutAll(s, buffers, i).s, buffers[i]) && buffers[i].offset + |buffers[i].payload.value| >= TWO64
  }

  ghost predicate NonePanics(s: VState, buffers: seq<IPCBuffer>, n: nat)
    requires n <= |buffers|
  {
    forall i | 0 <= i < n :: !PanicsAt(s, buffers, i)
  }

  /** The VRAM after the first panic, if there is one: the buffer that panicked has been allocated but not written. */
  ghost predicate PanicLeaves(s: VState, buffers: seq<IPCBuffer>, after: VState) {
    exists i: nat :: i < |buffers| && PanicsAt(s, buffers, i) && NonePanics(s, buffers, i)
                     && after == PutAll(s, buffers, i + 1).s
  }

  function WriteOutputs(s: VState, outputs: seq<Output>, n: nat): VState
    requires n <= |outputs|
  {
    if n == 0 then s else AfterWrite(WriteOutputs(s, outputs, n - 1), outputs[n - 1].id, 0, outputs[n - 1].data)
  }

  function ReleaseAll(s: VState, ids: seq<string>, n: nat): VState
    requires n <= |ids|
  {
    if n == 0 then s else AfterRelease(ReleaseAll(s, ids, n - 1), ids[n - 1])
  }

  /** The VRAM after the kernel's outputs have been written to it, if there are any. */
  function AfterRun(s: VState, buffers: seq<IPCBuffer>, compute: EngineFn): VState {
    match compute(buffers) case None => s case Some(outputs) => WriteOutputs(s, outputs, |outputs|)
  }

  /** The VRAM once the handler has returned, whether or not the kernel failed. */
  function AfterMessage(s: VState, buffers: seq<IPCBuffer>, compute: EngineFn): VState {
    var put := PutAll(s, buffers, |buffers|);
    ReleaseAll(AfterRun(put.s, buffers, compute), put.ids, |put.ids|)
  }

  // ── The handler ──

  lemma {:induction false} WrapsIff(s: VState, id: string, offset: nat, data: Bytes)
    requires id in s.bufs && s.bufs[id].size == |data| && offset < TWO64 && 0 < |data| < TWO64 / 2
    ensures WriteAnswer(s, id, offset, data) == Err(Panic) <==> offset + |data| >= TWO64
    ensures offset <= s.bufs[id].size ==> offset + |data| < TWO64
  {
  }

  method WriteBufferToVRAM(vram: VRAMManager, b: IPCBuffer) returns (kept: bool, panicked: bool)
    requires vram.Valid() && Decoded(b)
    modifies vram.Repr
    ensures vram.Valid() && fresh(vram.Repr - old(vram.Repr))
    ensures vram.State() == PutOne(Progress(old(vram.State()), []), b).s
    ensures PutOne(Progress(old(vram.State()), []), b).ids == if kept then [b.id] else []
    ensures panicked <==> Granted(old(vram.State()), b) && b.offset + |b.payload.value| >= TWO64
  {
    if b.payload.None? {
      return false, false;
    }
    var data := b.payload.value;
    var buf := vram.Allocate(b.id, |data|, 0, if b.ReadOnly() then ReadOnly else ReadWrite);
    if buf.Err? {
      return false, false;
    }
    WrapsIff(vram.State(), b.id, b.offset, data);
    var written := vram.Write(b.id, b.offset, data);
    return written.Ok?, written == Err(Panic);
  }

  method WriteBuffersToVRAM(vram: VRAMManager, buffers: seq<IPCBuffer>) returns (ids: seq<string>, panicked: bool)
    requires vram.Valid() && AllDecoded(buffers)
    modifies vram.Repr
    ensures vram.Valid() && fresh(vram.Repr - old(vram.Repr))
    ensures panicked <==> !NonePanics(old(vram.State()), buffers, |buffers|)
    ensures panicked ==> PanicLeaves(old(vram.State()), buffers, vram.State())
    ensures !panicked ==> Progress(vram.State(), ids) == PutAll(old(vram.State()), buffers, |buffers|)
  {
    ids, panicked := [], false;
    var n := 0;
    while n < |buffers| && !panicked
      invariant 0 <= n <= |buffers|
      invariant vram.Valid() && fresh(vram.Repr - old(vram.Repr))
      invariant panicked ==> n < |buffers| && PanicsAt(old(vram.State()), buffers, n)
                             && vram.State() == PutAll(old(vram.State()), buffers, n + 1).s
      invariant NonePanics(old(vram.State()), buffers, n)
      invariant !panicked ==> Progress(vram.State(), ids) == PutAll(old(vram.State()), buffers, n)
      decreases |buffers| - n, !panicked
    {
      var kept;
      kept, panicked := WriteBufferToVRAM(vram, buffers[n]);
      if !panicked {
        ids := ids + if kept then [buffers[n].id] else [];
        n := n + 1;
      }
    }
  }

  method WriteOutputsToVRAM(vram: VRAMManager, outputs: seq<Output>)
    requires vram.Valid() && forall i | 0 <= i < |outputs| :: |outputs[i].data| < TWO64
    modifies vram.Repr
    ensures vram.Valid() && vram.Repr == old(vram.Repr)
    ensures vram.State() == WriteOutputs(old(vram.State()), outputs, |outputs|)
  {
    for n := 0 to |outputs|
      invariant vram.Valid() && vram.Repr == old(vram.Repr)
      invariant vram.State() == WriteOutputs(old(vram.State()), outputs, n)
    {
      var _ := vram.Write(outputs[n].id, 0, outputs[n].data);
    }
  }

  method CleanupVRAMBuffers(vram: VRAMManager, ids: seq<string>)
    requires vram.Valid()
    modifies vram
    ensures vram.Valid() && vram.Repr == old(vram.Repr)
    ensures vram.State() == ReleaseAll(old(vram.State()), ids, |ids|)
  {
    for n := 0 to |ids|
      invariant vram.Valid() && vram.Repr == old(vram.Repr)
      invariant vram.State() == ReleaseAll(old(vram.State()), ids, n)
    {
      var _ := vram.Release(ids[n]);
    }
  }

  /** The argument loop. */
  method BindMessage(engine: GoEngine, buffers: seq<IPCBuffer>, ghost items: seq<Item>,
                     ghost before: map<Bytes, GoBuffer>, ghost nums: set<nat>)
    returns (kargs: seq<KernelArg>, engBufs: map<string, GoBuffer>, ghost copies: seq<GoBuffer>,
             ghost made: set<object>)
    requires engine.buffers == before && Numbered(before, nums) && |items| == |buffers|
    requires forall i | 0 <= i < |buffers| :: items[i] == ItemAt(buffers[i], i)
    modifies engine
    ensures Makes(before, nums, copies, engine.buffers) && BoundTo(items, |items|, kargs, engBufs, copies)
    ensures fresh(made) && MadeOf(copies, made) && AllDiffer(copies)
  {
    kargs, engBufs, copies, made := [], map[], [], {};
    NothingBound(items);
    NothingMade(before, nums);
    for n := 0 to |buffers|
      invariant Makes(before, nums, copies, engine.buffers) && BoundTo(items, n, kargs, engBufs, copies)
      invariant fresh(made) && MadeOf(copies, made) && AllDiffer(copies)
    {
      var item := ItemAt(buffers[n], n);
      if item.Copy? {
        var b;
        kargs, engBufs, b := BindCopy(engine, kargs, engBufs, n, item.id, item.content, items, n, before, nums, copies);
        copies, made := copies + [b], made + {b};
      } else {
        kargs := BindScalar(kargs, engBufs, item, items, n, copies);
      }
    }
  }

  lemma {:induction false} HasCopyIff(engBufs: map<string, GoBuffer>, copies: seq<GoBuffer>, sources: seq<Source>,
                                      id: string)
    requires Filed(engBufs, copies, sources)
    ensures id in engBufs <==> LastOf(sources, id) < |sources|
    ensures id in engBufs ==> engBufs[id] == copies[LastOf(sources, id)]
  {
    if LastOf(sources, id) < |sources| {
      assert HasId(engBufs, sources, LastOf(sources, id));
    }
    if id in engBufs {
      assert NamesLast(engBufs, copies, sources, id);
    }
  }

  method PickOutputs(engBufs: map<string, GoBuffer>, buffers: seq<IPCBuffer>, all: bool, ghost copies: seq<GoBuffer>,
                     ghost sources: seq<Source>)
    returns (ids: seq<string>)
    requires Filed(engBufs, copies, sources)
    ensures ids == PickedTo(buffers, sources, all, |buffers|)
  {
    ids := [];
    for n := 0 to |buffers|
      invariant ids == PickedTo(buffers, sources, all, n)
    {
      HasCopyIff(engBufs, copies, sources, buffers[n].id);
      if (all || buffers[n].IsOutput()) && buffers[n].id in engBufs {
        ids := ids + [buffers[n].id];
      }
    }
  }

  method ReadOutputs(engine: GoEngine, engBufs: map<string, GoBuffer>, ids: seq<string>, ghost copies: seq<GoBuffer>,
                     ghost sources: seq<Source>, ghost slots: seq<Slot>, ghost outs: seq<Bytes>)
    returns (outputs: seq<Output>)
    requires Filed(engBufs, copies, sources) && Computed(copies, sources, slots, outs)
    requires forall i | 0 <= i < |ids| :: LastOf(sources, ids[i]) < |sources|
    ensures outputs == OutputsOf(ids, sources, slots, outs)
  {
    outputs := [];
    for n := 0 to |ids|
      invariant outputs == OutputsOf(ids, sources, slots, outs)[..n]
    {
      HasCopyIff(engBufs, copies, sources, ids[n]);
      var b := engBufs[ids[n]];
      var data := engine.ReadBuffer(b, 0, b.size);
      assert b.data[0..0 + b.size] == b.data;
      outputs := outputs + [Output(ids[n], data.value)];
    }
  }

  method ChooseOutputs(engBufs: map<string, GoBuffer>, buffers: seq<IPCBuffer>, ghost copies: seq<GoBuffer>,
                       ghost sources: seq<Source>)
    returns (ids: seq<string>)
    requires Filed(engBufs, copies, sources)
    ensures ids == OutputIds(buffers, sources)
  {
    ids := PickOutputs(engBufs, buffers, false, copies, sources);
    if |ids| == 0 {
      ids := PickOutputs(engBufs, buffers, true, copies, sources);
    }
  }

  /** Runs the kernel, reads the outputs and releases the copies. A kernel error releases none of them. */
  method RunAndRead(engine: GoEngine, kernel: KernelFn, kargs: seq<KernelArg>, engBufs: map<string, GoBuffer>,
                    ids: seq<string>, global: seq<nat>, offset: seq<nat>, ghost before: map<Bytes, GoBuffer>,
                    ghost nums: set<nat>, ghost copies: seq<GoBuffer>, ghost sources: seq<Source>,
                    ghost slots: seq<Slot>)
    returns (r: Option<seq<Output>>)
    requires Roomy(engine, before, nums, copies) && KeepsSizes(kernel) && Placed(slots, |copies|)
    requires Copied(copies, sources) && Filed(engBufs, copies, sources) && Matches(kargs, slots, copies)
    requires forall i | 0 <= i < |ids| :: LastOf(sources, ids[i]) < |sources|
    modifies engine, copies
    ensures var outs := kernel(OperandsOf(slots, sources), global, offset);
      && r.Some? == outs.Some?
      && (r.Some? ==> |outs.value| == |slots| && r.value == OutputsOf(ids, sources, slots, outs.value))
    ensures Left(engine.buffers, before, nums, sources, |copies|, r.Some?)
  {
    var ok := RunInRoom(engine, kernel, kargs, global, offset, before, nums, copies, slots, sources);
    r := None;
    if ok {
      ghost var outs := kernel(OperandsOf(slots, sources), global, offset).value;
      var outputs := ReadOutputs(engine, engBufs, ids, copies, sources, slots, outs);
      CleanupLeaves(before, nums, copies, engine.buffers, engBufs, sources);
      Cleanup(engine, engBufs);
      r := Some(outputs);
    }
  }

  /** The engine after a message; it copies all buffers before the kernel runs. */
  ghost predicate MessageLeft(after: map<Bytes, GoBuffer>, before: map<Bytes, GoBuffer>, nums: set<nat>,
                              buffers: seq<IPCBuffer>, ok: bool)
  {
    Left(after, before, nums, Sources(MessageItems(buffers)), |Sources(MessageItems(buffers))|, ok)
  }

  /** The engine's part of the handler. */
  method RunMessage(engine: GoEngine, kernel: KernelFn, buffers: seq<IPCBuffer>, global: seq<nat>, ghost nums: set<nat>)
    returns (r: Option<seq<Output>>)
    requires KeepsSizes(kernel)
    requires Numbered(engine.buffers, nums) && HasRoom(nums, |Sources(MessageItems(buffers))|)
    modifies engine
    ensures r == Compute(kernel, global)(buffers)
    ensures MessageLeft(engine.buffers, old(engine.buffers), nums, buffers, r.Some?)
  {
    ghost var before, items := engine.buffers, MessageItems(buffers);
    ghost var sources, slots := Sources(items), Slots(items);
    var kargs, engBufs;
    ghost var copies, made;
    kargs, engBufs, copies, made := BindMessage(engine, buffers, items, before, nums);
    SlotsArePlaced(items, |items|);
    assert slots == SlotsTo(items, |items|);
    var ids := ChooseOutputs(engBufs, buffers, copies, sources);
    var g := GlobalOr1(global);
    r := RunAndRead(engine, kernel, kargs, engBufs, ids, g, seq(|g|, _ => 0), before, nums, copies, sources, slots);
  }

  /**
   * executeLocallyVKWithBuffers, wherever the engine has room for the copies; the deferred cleanup of the VRAM comes
   * last on both paths. As after a local launch, the engine keeps the copies of a failed message and the superseded
   * copies of repeated ids. A panic comes before the cleanup is deferred.
   */
  method ExecuteLocallyVKWithBuffers(vram: VRAMManager, engine: GoEngine, kernel: KernelFn, buffers: seq<IPCBuffer>,
                                     global: seq<nat>, ghost nums: set<nat>)
    returns (r: Option<seq<Output>>, panicked: bool)
    requires vram.Valid() && engine !in vram.Repr && AllDecoded(buffers)
    requires KeepsSizes(kernel)
    requires Numbered(engine.buffers, nums) && HasRoom(nums, |Sources(MessageItems(buffers))|)
    modifies vram.Repr, engine
    ensures vram.Valid()
    ensures panicked <==> !NonePanics(old(vram.State()), buffers, |buffers|)
    ensures panicked ==>
      PanicLeaves(old(vram.State()), buffers, vram.State()) && engine.buffers == old(engine.buffers)
    ensures !panicked ==>
      && r == Compute(kernel, global)(buffers)
      && vram.State() == AfterMessage(old(vram.State()), buffers, Compute(kernel, global))
      && MessageLeft(engine.buffers, old(engine.buffers), nums, buffers, r.Some?)
  {
    var ids;
    ids, panicked := WriteBuffersToVRAM(vram, buffers);
    if panicked {
      return None, true;
    }
    r := RunMessage(engine, kernel, buffers, global, nums);
    if r.Some? {
      ComputeAnswers(kernel, global, buffers);
      WriteOutputsToVRAM(vram, r.value);
    }
    CleanupVRAMBuffers(vram, ids);
  }

  /** The engine's answer names buffers of the message and has their sizes. */
  lemma {:induction false} ComputeAnswers(kernel: KernelFn, global: seq<nat>, buffers: seq<IPCBuffer>)
    requires KeepsSizes(kernel) && AllDecoded(buffers)
    ensures AnswersFrom(Compute(kernel, global), buffers)
  {
    var answer := Compute(kernel, global)(buffers);
    if answer.Some? {
      var items := MessageItems(buffers);
      var sources, slots := Sources(items), Slots(items);
      var ids := OutputIds(buffers, sources);
      var outs := kernel(OperandsOf(slots, sources), GlobalOr1(global), seq(|GlobalOr1(global)|, _ => 0)).value;
      assert answer.value == OutputsOf(ids, sources, slots, outs);
      forall i | 0 <= i < |answer.value|
        ensures |answer.value[i].data| < TWO64
        ensures exists j | 0 <= j < |buffers| :: buffers[j].id == answer.value[i].id
      {
        var p := LastOf(sources, ids[i]);
        ResultSize(kernel, sources, slots, GlobalOr1(global), seq(|GlobalOr1(global)|, _ => 0), p);
        SourceIsPayload(buffers, |buffers|, p);
      }
    }
  }

  /** One of the first `n` buffers with that id is copied: it has a payload and is no scalar. */
  ghost predicate HasCopyTo(buffers: seq<IPCBuffer>, id: string, n: nat)
    requires n <= |buffers|
  {
    exists j :: 0 <= j < n && buffers[j].id == id && buffers[j].payload.Some? && buffers[j].kind == Plain
  }

  ghost predicate HasCopy(buffers: seq<IPCBuffer>, id: string) { HasCopyTo(buffers, id, |buffers|) }

  /** The buffer is marked as an output, or as in and out. */
  ghost predicate IsMarked(b: IPCBuffer) { b.kind == Plain && (b.direction == Out || b.direction == InOut) }

  ghost predicate MarkedOutput(buffers: seq<IPCBuffer>, j: int) {
    0 <= j < |buffers| && IsMarked(buffers[j]) && HasCopy(buffers, buffers[j].id)
  }

  ghost predicate HasSource(sources: seq<Source>, id: string) { exists p :: 0 <= p < |sources| && sources[p].id == id }

  lemma {:induction false} MoreSources(before: seq<Source>, more: seq<Source>, id: string)
    ensures HasSource(before + more, id) <==> HasSource(before, id) || HasSource(more, id)
  {
    if p :| 0 <= p < |before| && before[p].id == id { assert (before + more)[p].id == id; }
    if p :| 0 <= p < |more| && more[p].id == id { assert (before + more)[|before| + p].id == id; }
  }

  lemma {:induction false} CopiedIff(buffers: seq<IPCBuffer>, n: nat, id: string)
    requires n <= |buffers|
    ensures HasSource(SourcesTo(MessageItems(buffers), n), id) <==> HasCopyTo(buffers, id, n)
  {
    if n > 0 {
      CopiedIff(buffers, n - 1, id);
      var more := NewSources(ItemAt(buffers[n - 1], n - 1));
      MoreSources(SourcesTo(MessageItems(buffers), n - 1), more, id);
      assert more != [] ==> more[0].id == buffers[n - 1].id;
    }
  }

  /** Buffer `j` is among the picked. */
  ghost predicate Picks(buffers: seq<IPCBuffer>, sources: seq<Source>, all: bool, j: int) {
    0 <= j < |buffers| && LastOf(sources, buffers[j].id) < |sources| && (all || IsMarked(buffers[j]))
  }

  lemma {:induction false} PickedIff(buffers: seq<IPCBuffer>, sources: seq<Source>, all: bool, n: nat, id: string)
    requires n <= |buffers|
    ensures id in PickedTo(buffers, sources, all, n) <==>
            exists j :: 0 <= j < n && Picks(buffers, sources, all, j) && buffers[j].id == id
  {
    if n > 0 {
      PickedIff(buffers, sources, all, n - 1, id);
      assert Picks(buffers, sources, all, n - 1) <==>
             (all || buffers[n - 1].IsOutput()) && LastOf(sources, buffers[n - 1].id) < |sources|;
    }
  }

  lemma {:induction false} LastOfIff(buffers: seq<IPCBuffer>, id: string)
    ensures LastOf(Sources(MessageItems(buffers)), id) < |Sources(MessageItems(buffers))| <==> HasCopy(buffers, id)
  {
    var sources := Sources(MessageItems(buffers));
    assert LastOf(sources, id) < |sources| <==> HasSource(sources, id);
    CopiedIff(buffers, |buffers|, id);
  }

  /** The answer has the marked outputs that were copied, or all copied buffers if there is none of these. */
  lemma {:induction false} OutputIdsIff(buffers: seq<IPCBuffer>, id: string)
    ensures id in OutputIds(buffers, Sources(MessageItems(buffers))) <==>
            if exists j :: MarkedOutput(buffers, j) then exists j :: MarkedOutput(buffers, j) && buffers[j].id == id
            else HasCopy(buffers, id)
  {
    var sources := Sources(MessageItems(buffers));
    var marked := PickedTo(buffers, sources, false, |buffers|);
    forall j | 0 <= j < |buffers| ensures Picks(buffers, sources, false, j) <==> MarkedOutput(buffers, j) {
      LastOfIff(buffers, buffers[j].id);
    }
    forall other ensures other in marked <==> exists j :: MarkedOutput(buffers, j) && buffers[j].id == other {
      PickedIff(buffers, sources, false, |buffers|, other);
    }
    AllPickedIff(buffers, id);
    if marked != [] {
      assert marked[0] in marked;
    }
    if j :| MarkedOutput(buffers, j) {
      assert buffers[j].id in marked;
    }
  }

  lemma {:induction false} AllPickedIff(buffers: seq<IPCBuffer>, id: string)
    ensures id in PickedTo(buffers, Sources(MessageItems(buffers)), true, |buffers|) <==> HasCopy(buffers, id)
  {
    var sources := Sources(MessageItems(buffers));
    PickedIff(buffers, sources, true, |buffers|, id);
    LastOfIff(buffers, id);
    if j :| 0 <= j < |buffers| && buffers[j].id == id && buffers[j].payload.Some? && buffers[j].kind == Plain {
      assert Picks(buffers, sources, true, j);
    }
  }

  /** So these are the ids of the engine's answer. */
  lemma {:induction false} AnswerIdsIff(kernel: KernelFn, global: seq<nat>, buffers: seq<IPCBuffer>, id: string)
    requires Compute(kernel, global)(buffers).Some?
    ensures (exists i :: 0 <= i < |Compute(kernel, global)(buffers).value|
                         && Compute(kernel, global)(buffers).value[i].id == id) <==>
            if exists j :: MarkedOutput(buffers, j) then exists j :: MarkedOutput(buffers, j) && buffers[j].id == id
            else HasCopy(buffers, id)
  {
    var sources, slots := Sources(MessageItems(buffers)), Slots(MessageItems(buffers));
    var outs := kernel(OperandsOf(slots, sources), GlobalOr1(global), seq(|GlobalOr1(global)|, _ => 0)).value;
    var ids, answer := OutputIds(buffers, sources), Compute(kernel, global)(buffers).value;
    assert answer == OutputsOf(ids, sources, slots, outs);
    OutputIdsIff(buffers, id);
    if id in ids {
      var i :| 0 <= i < |ids| && ids[i] == id;
      assert answer[i].id == id;
    }
  }

  lemma {:induction false} SourceIsPayload(buffers: seq<IPCBuffer>, n: nat, p: nat)
    requires AllDecoded(buffers) && n <= |buffers| && p < |SourcesTo(MessageItems(buffers), n)|
    ensures |SourcesTo(MessageItems(buffers), n)[p].content| < TWO64
  {
    var before := |SourcesTo(MessageItems(buffers), n - 1)|;
    if p < before {
      SourceIsPayload(buffers, n - 1, p);
    } else {
      assert Decoded(buffers[n - 1]);
    }
  }

  // ── Conservation ──

  lemma {:induction false} PutOneConserves(p: Progress, b: IPCBuffer)
    requires Conserved(p.s)
    ensures Conserved(PutOne(p, b).s)
  {
    if Granted(p.s, b) {
      var data := b.payload.value;
      var bufType := if b.ReadOnly() then ReadOnly else ReadWrite;
      AllocateConserves(p.s, b.id, |data|, 0, bufType);
      WriteConserves(AfterAllocate(p.s, b.id, |data|, 0, bufType), b.id, b.offset, data);
    }
  }

  lemma {:induction false} PutConserves(s: VState, buffers: seq<IPCBuffer>, n: nat)
    requires Conserved(s) && n <= |buffers|
    ensures Conserved(PutAll(s, buffers, n).s)
  {
    if n > 0 {
      PutConserves(s, buffers, n - 1);
      PutOneConserves(PutAll(s, buffers, n - 1), buffers[n - 1]);
    }
  }

  lemma {:induction false} WriteOutputsConserves(s: VState, outputs: seq<Output>, n: nat)
    requires Conserved(s) && n <= |outputs|
    ensures Conserved(WriteOutputs(s, outputs, n))
  {
    if n > 0 {
      WriteOutputsConserves(s, outputs, n - 1);
      WriteConserves(WriteOutputs(s, outputs, n - 1), outputs[n - 1].id, 0, outputs[n - 1].data);
    }
  }

  lemma {:induction false} ReleaseAllConserves(s: VState, ids: seq<string>, n: nat)
    requires Conserved(s) && n <= |ids|
    ensures Conserved(ReleaseAll(s, ids, n))
  {
    if n > 0 {
      ReleaseAllConserves(s, ids, n - 1);
      ReleaseConserves(ReleaseAll(s, ids, n - 1), ids[n - 1]);
    }
  }

  /** Whatever the message and the kernel do, the counter keeps matching the buffers. */
  lemma {:induction false} MessageConserves(s: VState, buffers: seq<IPCBuffer>, compute: EngineFn)
    requires Conserved(s)
    ensures Conserved(AfterMessage(s, buffers, compute))
  {
    var put := PutAll(s, buffers, |buffers|);
    PutConserves(s, buffers, |buffers|);
    if compute(buffers).Some? { WriteOutputsConserves(put.s, compute(buffers).value, |compute(buffers).value|); }
    ReleaseAllConserves(AfterRun(put.s, buffers, compute), put.ids, |put.ids|);
  }

  // ── Temporary buffers are returned ──

  lemma {:induction false} WriteOutputsKeeps(s: VState, outputs: seq<Output>, n: nat)
    requires n <= |outputs|
    ensures var after := WriteOutputs(s, outputs, n);
      && after == s.(bufs := after.bufs) && after.bufs.Keys == s.bufs.Keys
      && forall id <- s.bufs :: after.bufs[id].size == s.bufs[id].size
  {
    if n > 0 { WriteOutputsKeeps(s, outputs, n - 1); }
  }

  lemma {:induction false} ReleaseAllDrops(s: VState, ids: seq<string>, n: nat)
    requires n <= |ids|
    ensures ReleaseAll(s, ids, n).leaked == s.leaked
    ensures ReleaseAll(s, ids, n).bufs == s.bufs - (set i | 0 <= i < n :: ids[i])
  {
    if n > 0 { ReleaseAllDrops(s, ids, n - 1); }
  }

  /** If buffer `i` is granted, its id is not taken and it is written from the start. */
  ghost predicate TidyAt(s: VState, buffers: seq<IPCBuffer>, i: nat)
    requires i < |buffers|
  {
    var before := PutAll(s, buffers, i).s;
    Granted(before, buffers[i]) ==> buffers[i].id !in before.bufs && buffers[i].offset == 0
  }

  ghost predicate Tidy(s: VState, buffers: seq<IPCBuffer>) { forall i | 0 <= i < |buffers| :: TidyAt(s, buffers, i) }

  /** What holds after any number of buffers: no id goes away, only old buffers are empty, leaks only grow. */
  lemma {:induction false} PutFacts(s: VState, buffers: seq<IPCBuffer>, n: nat)
    requires n <= |buffers| && AllDecoded(buffers)
    ensures var p := PutAll(s, buffers, n);
      && s.leaked <= p.s.leaked && s.bufs.Keys <= p.s.bufs.Keys
      && (forall id <- p.s.bufs :: p.s.bufs[id].size > 0 || (id in s.bufs && s.bufs[id].size == 0))
      && (forall id <- p.ids :: id in p.s.bufs)
  {
    if n > 0 { PutFacts(s, buffers, n - 1); }
  }

  /** As long as every granted buffer is tidy, old buffers stay and exactly the ids to release are new. */
  lemma {:induction false} TidyPut(s: VState, buffers: seq<IPCBuffer>, n: nat)
    requires n <= |buffers| && AllDecoded(buffers)
    requires forall i | 0 <= i < n :: TidyAt(s, buffers, i)
    ensures var p := PutAll(s, buffers, n);
      && p.s.leaked == s.leaked
      && (forall id <- s.bufs :: id in p.s.bufs && p.s.bufs[id] == s.bufs[id] && id !in p.ids)
      && (forall id <- p.s.bufs :: id in s.bufs || id in p.ids)
  {
    if n > 0 {
      TidyPut(s, buffers, n - 1);
      assert TidyAt(s, buffers, n - 1);
    }
  }

  /** A leak, or a buffer where there was none or an empty one, and which releasing does not undo. */
  ghost predicate Stuck(s: VState, p: Progress, id: string) {
    s.leaked < p.s.leaked ||
    (SizeOf(s, id) == 0 && id in p.s.bufs && p.s.bufs[id].size > 0 && (id in p.ids ==> id in s.bufs))
  }

  lemma {:induction false} UntidyPut(s: VState, buffers: seq<IPCBuffer>, i: nat, n: nat)
    requires i < n <= |buffers| && AllDecoded(buffers) && !TidyAt(s, buffers, i)
    ensures Stuck(s, PutAll(s, buffers, n), buffers[i].id)
    decreases n
  {
    PutFacts(s, buffers, n - 1);
    if n - 1 > i { UntidyPut(s, buffers, i, n - 1); }
  }

  ghost predicate Restored(s: VState, after: VState) { after.bufs == s.bufs && after.leaked == s.leaked }

  lemma {:induction false} UntidyStays(s: VState, buffers: seq<IPCBuffer>, compute: EngineFn, i: nat)
    requires AllDecoded(buffers) && i < |buffers| && !TidyAt(s, buffers, i)
    ensures !Restored(s, AfterMessage(s, buffers, compute))
  {
    var put := PutAll(s, buffers, |buffers|);
    if compute(buffers).Some? { WriteOutputsKeeps(put.s, compute(buffers).value, |compute(buffers).value|); }
    UntidyPut(s, buffers, i, |buffers|);
    ReleaseAllDrops(AfterRun(put.s, buffers, compute), put.ids, |put.ids|);
  }

  // ── Outputs and the application's buffers ──

  /** A buffer with output bytes written to it from the start, if they fit. */
  function Patched(b: BufView, data: Bytes): BufView {
    if |data| <= b.size && |data| <= |b.data| then b.(data := Overwrite(b.data, 0, data), dirty := true) else b
  }

  /** The output would not fit into the application's buffer of that id, or be nothing new to it. */
  predicate Spares(s: VState, o: Output) {
    o.id in s.bufs ==>
      var b := s.bufs[o.id];
      |o.data| > |b.data| || (b.dirty && b.data[..|o.data|] == o.data)
  }

  /** No output, if there are any, changes a buffer of the application. */
  ghost predicate SparesAll(s: VState, outputs: Option<seq<Output>>) {
    outputs.Some? ==> forall i | 0 <= i < |outputs.value| :: Spares(s, outputs.value[i])
  }

  /** Outputs under one id are the same bytes. */
  ghost predicate Agreeing(outputs: seq<Output>) {
    forall i, j | 0 <= i < j < |outputs| && outputs[i].id == outputs[j].id :: outputs[i] == outputs[j]
  }

  lemma {:induction false} SparesIff(s: VState, o: Output)
    requires o.id in s.bufs && |s.bufs[o.id].data| == s.bufs[o.id].size
    ensures Spares(s, o) <==> Patched(s.bufs[o.id], o.data) == s.bufs[o.id]
  {
    var b := s.bufs[o.id];
    if |o.data| <= |b.data| {
      assert Overwrite(b.data, 0, o.data)[..|o.data|] == o.data;
      assert b.data == b.data[..|o.data|] + b.data[|o.data|..];
    }
  }

  lemma {:induction false} PatchedTwice(b: BufView, data: Bytes)
    ensures Patched(Patched(b, data), data) == Patched(b, data)
  {
    if |data| <= b.size && |data| <= |b.data| {
      assert Overwrite(Overwrite(b.data, 0, data), 0, data) == Overwrite(b.data, 0, data);
    }
  }

  /** What the outputs leave in a buffer: the bytes of any output of its id, written once. */
  lemma {:induction false} OutputsPatch(s: VState, outputs: seq<Output>, n: nat, o: Output)
    requires n <= |outputs| && o.id in s.bufs
    requires forall i | 0 <= i < |outputs| && outputs[i].id == o.id :: outputs[i] == o
    ensures o.id in WriteOutputs(s, outputs, n).bufs
    ensures WriteOutputs(s, outputs, n).bufs[o.id] ==
            if exists i :: 0 <= i < n && outputs[i].id == o.id then Patched(s.bufs[o.id], o.data) else s.bufs[o.id]
  {
    if n > 0 {
      OutputsPatch(s, outputs, n - 1, o);
      PatchedTwice(s.bufs[o.id], o.data);
      OneMoreOutput(s, outputs, n, o.id);
    }
  }

  lemma {:induction false} OneMoreOutput(s: VState, outputs: seq<Output>, n: nat, id: string)
    requires 0 < n <= |outputs| && id in WriteOutputs(s, outputs, n - 1).bufs
    ensures id in WriteOutputs(s, outputs, n).bufs
    ensures var was := WriteOutputs(s, outputs, n - 1).bufs[id];
            WriteOutputs(s, outputs, n).bufs[id] ==
            if outputs[n - 1].id == id then Patched(was, outputs[n - 1].data) else was
  {
  }

  /** `now` still has all buffers of `s`. */
  ghost predicate StillThere(s: VState, now: VState) {
    forall id <- s.bufs :: id in now.bufs && now.bufs[id] == s.bufs[id]
  }

  ghost predicate SparesOne(s: VState, outputs: seq<Output>, id: string) {
    forall i | 0 <= i < |outputs| && outputs[i].id == id :: Spares(s, outputs[i])
  }

  lemma {:induction false} OneSparedIff(s: VState, now: VState, outputs: seq<Output>, id: string)
    requires Sized(s) && StillThere(s, now) && Agreeing(outputs) && id in s.bufs
    ensures id in WriteOutputs(now, outputs, |outputs|).bufs
    ensures WriteOutputs(now, outputs, |outputs|).bufs[id] == s.bufs[id] <==> SparesOne(s, outputs, id)
  {
    if i :| 0 <= i < |outputs| && outputs[i].id == id {
      OutputsPatch(now, outputs, |outputs|, outputs[i]);
      SparesIff(s, outputs[i]);
    } else {
      OutputsPatch(now, outputs, |outputs|, Output(id, []));
    }
  }

  /** Writing the outputs leaves the buffers of `s` alone exactly if each output spares them. */
  lemma {:induction false} OutputsSpareIff(s: VState, now: VState, outputs: seq<Output>)
    requires Sized(s) && StillThere(s, now) && Agreeing(outputs)
    ensures StillThere(s, WriteOutputs(now, outputs, |outputs|)) <==> SparesAll(s, Some(outputs))
  {
    forall id <- s.bufs
      ensures id in WriteOutputs(now, outputs, |outputs|).bufs
      ensures WriteOutputs(now, outputs, |outputs|).bufs[id] == s.bufs[id] <==> SparesOne(s, outputs, id)
    {
      OneSparedIff(s, now, outputs, id);
    }
    if StillThere(s, WriteOutputs(now, outputs, |outputs|)) {
      forall i | 0 <= i < |outputs| ensures Spares(s, outputs[i]) {
        if outputs[i].id in s.bufs { assert SparesOne(s, outputs, outputs[i].id); }
      }
    }
  }

  /** Once every buffer is tidy, only the outputs can make a difference. */
  lemma {:induction false} TidyReturnsIff(s: VState, buffers: seq<IPCBuffer>, compute: EngineFn)
    requires Sized(s) && AllDecoded(buffers) && Tidy(s, buffers)
    requires compute(buffers).Some? ==> Agreeing(compute(buffers).value)
    ensures Restored(s, AfterMessage(s, buffers, compute)) <==> SparesAll(s, compute(buffers))
  {
    var put, after := PutAll(s, buffers, |buffers|), AfterMessage(s, buffers, compute);
    var ran := AfterRun(put.s, buffers, compute);
    TidyPut(s, buffers, |buffers|);
    if compute(buffers).Some? {
      WriteOutputsKeeps(put.s, compute(buffers).value, |compute(buffers).value|);
      OutputsSpareIff(s, put.s, compute(buffers).value);
    }
    ReleaseAllDrops(ran, put.ids, |put.ids|);
    assert after.bufs.Keys == s.bufs.Keys;
    assert StillThere(s, ran) <==> after.bufs == s.bufs;
  }

  /**
   * On every path the handler gives the VRAM back as it was exactly when each buffer it was granted has an untaken id
   * and offset zero, and no output changes a buffer of the application, as that of a refused buffer can that reuses an
   * application's id. Then the allocation counter is back as well.
   */
  lemma {:induction false} TemporariesReturnIff(s: VState, buffers: seq<IPCBuffer>, compute: EngineFn)
    requires Conserved(s) && AllDecoded(buffers)
    requires compute(buffers).Some? ==> Agreeing(compute(buffers).value)
    ensures Restored(s, AfterMessage(s, buffers, compute)) <==> Tidy(s, buffers) && SparesAll(s, compute(buffers))
    ensures Restored(s, AfterMessage(s, buffers, compute)) ==> AfterMessage(s, buffers, compute).total == s.total
  {
    MessageConserves(s, buffers, compute);
    if Tidy(s, buffers) {
      TidyReturnsIff(s, buffers, compute);
    } else {
      var i :| 0 <= i < |buffers| && !TidyAt(s, buffers, i);
      UntidyStays(s, buffers, compute, i);
    }
  }

  lemma {:induction false} ComputeAgrees(kernel: KernelFn, global: seq<nat>, buffers: seq<IPCBuffer>)
    requires Compute(kernel, global)(buffers).Some?
    ensures Agreeing(Compute(kernel, global)(buffers).value)
  {
    var sources, slots := Sources(MessageItems(buffers)), Slots(MessageItems(buffers));
    var outs := kernel(OperandsOf(slots, sources), GlobalOr1(global), seq(|GlobalOr1(global)|, _ => 0)).value;
    assert Compute(kernel, global)(buffers).value == OutputsOf(OutputIds(buffers, sources), sources, slots, outs);
  }

  /** Any kernel of the engine answers that way, so the condition decides for every message. */
  lemma {:induction false} MessageReturnsIff(s: VState, kernel: KernelFn, global: seq<nat>, buffers: seq<IPCBuffer>)
    requires Conserved(s) && AllDecoded(buffers)
    ensures Restored(s, AfterMessage(s, buffers, Compute(kernel, global))) <==>
            Tidy(s, buffers) && SparesAll(s, Compute(kernel, global)(buffers))
  {
    if Compute(kernel, global)(buffers).Some? {
      ComputeAgrees(kernel, global, buffers);
    }
    TemporariesReturnIff(s, buffers, Compute(kernel, global));
  }

  /** No buffer of the message has an id the VRAM already knows. */
  ghost predicate NewIds(s: VState, buffers: seq<IPCBuffer>) {
    forall i | 0 <= i < |buffers| :: buffers[i].id !in s.bufs
  }

  /** With new ids no output comes near the application's buffers. */
  lemma {:induction false} NewIdsSpare(s: VState, buffers: seq<IPCBuffer>, compute: EngineFn)
    requires NewIds(s, buffers) && AnswersFrom(compute, buffers)
    ensures SparesAll(s, compute(buffers))
  {
  }

  lemma {:induction false} PutKeys(s: VState, buffers: seq<IPCBuffer>, n: nat, id: string)
    requires n <= |buffers|
    ensures id in PutAll(s, buffers, n).s.bufs && id !in s.bufs ==> exists j | 0 <= j < n :: buffers[j].id == id
  {
    if n > 0 { PutKeys(s, buffers, n - 1, id); }
  }

  /** Pairwise distinct new ids at offset zero are tidy, whatever is refused. */
  lemma {:induction false} DistinctIsTidy(s: VState, buffers: seq<IPCBuffer>)
    requires NewIds(s, buffers)
    requires forall i, j | 0 <= i < j < |buffers| :: buffers[i].id != buffers[j].id
    requires forall i | 0 <= i < |buffers| :: buffers[i].offset == 0
    ensures Tidy(s, buffers)
  {
    forall i | 0 <= i < |buffers| ensures TidyAt(s, buffers, i) {
      PutKeys(s, buffers, i, buffers[i].id);
    }
  }

  lemma {:induction false} PutKept(s: VState, buffers: seq<IPCBuffer>, i: nat, n: nat)
    requires i < n <= |buffers| && Granted(PutAll(s, buffers, i).s, buffers[i]) && buffers[i].offset == 0
    ensures buffers[i].id in PutAll(s, buffers, n).ids
    decreases n
  {
    if n - 1 > i { PutKept(s, buffers, i, n - 1); }
  }

  /** A message that reuses the id of an application's buffer takes that buffer away with it. */
  lemma {:induction false} ReusedIdIsLost(s: VState, buffers: seq<IPCBuffer>, compute: EngineFn, i: nat)
    requires i < |buffers| && Granted(PutAll(s, buffers, i).s, buffers[i]) && buffers[i].offset == 0
    ensures buffers[i].id !in AfterMessage(s, buffers, compute).bufs
  {
    var put := PutAll(s, buffers, |buffers|);
    PutKept(s, buffers, i, |buffers|);
    ReleaseAllDrops(AfterRun(put.s, buffers, compute), put.ids, |put.ids|);
  }
}
