/**
 * vgpu/server/ipc_server.go: executeLocally, the VRAM -> engine -> VRAM launch.
 *
 * The launch refines a plain function on the VRAM buffers in which engine buffers and their ids
 * do not occur.
 */
module LocalLaunch {
  import opened Common
  import opened VramSpec
  import opened Vram
  import opened Engine
  import opened Numbering
  import opened Binding

  /** One argument of an NDRange message; `NoValue` is a scalar whose value is missing. */
  datatype LaunchArg = BufferArg(index: nat, id: string) | ScalarArg(index: nat, bytes: Bytes) | NoValue

  // ── The launch as a function on VRAM ──

  function NewIds(arg: LaunchArg): seq<string> { if arg.BufferArg? then [arg.id] else [] }

  /** The buffer ids among the first `n` arguments, in order. */
  function IdsTo(args: seq<LaunchArg>, n: nat): (ids: seq<string>)
    requires n <= |args|
    ensures |ids| <= n
  {
    if n == 0 then [] else IdsTo(args, n - 1) + NewIds(args[n - 1])
  }

  function BufferIds(args: seq<LaunchArg>): seq<string> { IdsTo(args, |args|) }

  predicate AllPresent(ids: seq<string>, view: map<string, BufView>) {
    forall i | 0 <= i < |ids| :: ids[i] in view
  }

  /** What the handler makes of an argument; it stops at a buffer that the VRAM does not have. */
  function ItemOf(arg: LaunchArg, view: map<string, BufView>): Item {
    match arg
    case BufferArg(index, id) => if id in view then Copy(index, id, view[id].data) else Skipped
    case ScalarArg(index, bytes) => Value(index, bytes)
    case NoValue => Skipped
  }

  function Items(args: seq<LaunchArg>, view: map<string, BufView>): (items: seq<Item>)
    ensures |items| == |args|
  {
    seq(|args|, i requires 0 <= i < |args| => ItemOf(args[i], view))
  }

  /** The copies a launch makes, and its argument positions. */
  function LaunchSources(args: seq<LaunchArg>, view: map<string, BufView>): seq<Source> { Sources(Items(args, view)) }

  function LaunchSlots(args: seq<LaunchArg>, view: map<string, BufView>): seq<Slot> { Slots(Items(args, view)) }

  /** With no global size the first buffer's float count is used. */
  function GlobalOf(global: seq<nat>, ids: seq<string>, view: map<string, BufView>): seq<nat> {
    if global == [] && ids != [] && ids[0] in view then [view[ids[0]].size / 4] else global
  }

  function OffsetOf(offset: seq<nat>, dims: nat): seq<nat> {
    if offset == [] then seq(dims, _ => 0) else offset
  }

  /** The kernel's answer, or None for a missing buffer or a kernel error. */
  function Outcome(kernel: KernelFn, args: seq<LaunchArg>, view: map<string, BufView>, global: seq<nat>,
                   offset: seq<nat>)
    : Option<seq<Bytes>>
  {
    if !AllPresent(BufferIds(args), view) then None
    else
      var g := GlobalOf(global, BufferIds(args), view);
      kernel(OperandsOf(LaunchSlots(args, view), LaunchSources(args, view)), g, OffsetOf(offset, |g|))
  }

  /**
   * The range the kernel gets: the given one, starting at zeros without an offset; without a size one dimension of as
   * many items as the first buffer has floats.
   */
  lemma {:induction false} RangeGiven(kernel: KernelFn, args: seq<LaunchArg>, view: map<string, BufView>,
                                      global: seq<nat>, offset: seq<nat>, zeros: seq<nat>)
    requires AllPresent(BufferIds(args), view)
    requires |zeros| == |global| && forall i | 0 <= i < |zeros| :: zeros[i] == 0
    ensures var ids := BufferIds(args);
      var operands := OperandsOf(LaunchSlots(args, view), LaunchSources(args, view));
      Outcome(kernel, args, view, global, offset) ==
      if global == [] && ids != []
      then kernel(operands, [view[ids[0]].size / 4], if offset == [] then [0] else offset)
      else kernel(operands, global, if offset == [] then zeros else offset)
  {
    assert OffsetOf([], |global|) == zeros && OffsetOf([], 1) == [0];
  }

  /** What a launch leaves in a buffer argument: the result in the last copy made of it. */
  function Written(sources: seq<Source>, slots: seq<Slot>, outs: seq<Bytes>, id: string): Bytes
    requires |outs| == |slots| && LastOf(sources, id) < |sources|
  {
    ResultIn(sources, slots, outs, LastOf(sources, id))
  }

  /** The buffers after those of the ids in `ids` that were copied have been written back. */
  function ViewAfter(view: map<string, BufView>, ids: seq<string>, sources: seq<Source>, slots: seq<Slot>,
                     outs: seq<Bytes>)
    : map<string, BufView>
    requires |outs| == |slots|
  {
    map id | id in view ::
      if id in ids && LastOf(sources, id) < |sources|
      then view[id].(data := Written(sources, slots, outs, id), dirty := true)
      else view[id]
  }

  // ── Ids and copies ──

  lemma {:induction false} IdsPrefix(args: seq<LaunchArg>, n: nat)
    requires n <= |args|
    ensures IdsTo(args, n) <= BufferIds(args)
    decreases |args| - n
  {
    if n < |args| {
      IdsPrefix(args, n + 1);
    }
  }

  /** Copy `p` is made of the p-th buffer argument. */
  ghost predicate SourcesOf(sources: seq<Source>, ids: seq<string>, view: map<string, BufView>) {
    && |sources| == |ids|
    && forall p | 0 <= p < |ids| :: ids[p] in view && sources[p] == Source(ids[p], view[ids[p]].data)
  }

  lemma {:induction false} SourcesAre(args: seq<LaunchArg>, view: map<string, BufView>, n: nat)
    requires n <= |args| && AllPresent(IdsTo(args, n), view)
    ensures SourcesOf(SourcesTo(Items(args, view), n), IdsTo(args, n), view)
  {
    if n > 0 {
      var before, now := IdsTo(args, n - 1), IdsTo(args, n);
      assert forall i | 0 <= i < |before| :: before[i] == now[i];
      SourcesAre(args, view, n - 1);
      if args[n - 1].BufferArg? {
        assert now[|before|] == args[n - 1].id;
        OneMoreSource(SourcesTo(Items(args, view), n - 1), before, view, args[n - 1].id);
      }
    }
  }

  lemma {:induction false} OneMoreSource(sources: seq<Source>, ids: seq<string>, view: map<string, BufView>, id: string)
    requires SourcesOf(sources, ids, view) && id in view
    ensures SourcesOf(sources + [Source(id, view[id].data)], ids + [id], view)
  {
  }

  /** How many buffers are copied before the first missing one. */
  function CopiedCount(ids: seq<string>, view: map<string, BufView>): (n: nat)
    ensures n <= |ids| && (forall i | 0 <= i < n :: ids[i] in view) && (n < |ids| ==> ids[n] !in view)
  {
    if ids == [] || ids[0] !in view then 0 else 1 + CopiedCount(ids[1..], view)
  }

  lemma {:induction false} CopiedCountIs(ids: seq<string>, view: map<string, BufView>, n: nat)
    requires n <= |ids| && (forall i | 0 <= i < n :: ids[i] in view) && (n < |ids| ==> ids[n] !in view)
    ensures CopiedCount(ids, view) == n
  {
  }

  // ── Binding the arguments ──

  /** The loop met a buffer that the VRAM does not have after these copies. */
  ghost predicate StoppedWith(args: seq<LaunchArg>, copies: seq<GoBuffer>, view: map<string, BufView>) {
    forall ids {:trigger CopiedCount(ids, view)} | ids == BufferIds(args) ::
      |copies| == CopiedCount(ids, view) && !AllPresent(ids, view)
  }

  lemma {:induction false} Stopped(args: seq<LaunchArg>, n: nat, copies: seq<GoBuffer>, view: map<string, BufView>)
    requires n < |args| && args[n].BufferArg? && args[n].id !in view
    requires AllPresent(IdsTo(args, n), view) && |copies| == |IdsTo(args, n)|
    ensures StoppedWith(args, copies, view)
  {
    IdsPrefix(args, n + 1);
    var ids, all := IdsTo(args, n), BufferIds(args);
    assert IdsTo(args, n + 1)[|ids|] == all[|ids|] == args[n].id;
    assert forall i | 0 <= i < |ids| :: all[i] == IdsTo(args, n + 1)[i] == ids[i];
    CopiedCountIs(all, view, |ids|);
  }

  /** The first `n` arguments are bound; all buffers among them were there. */
  ghost predicate LaunchBoundTo(args: seq<LaunchArg>, items: seq<Item>, n: nat, kargs: seq<KernelArg>,
                                engBufs: map<string, GoBuffer>, copies: seq<GoBuffer>, view: map<string, BufView>)
    requires n <= |args| == |items|
    reads copies
  {
    && BoundTo(items, n, kargs, engBufs, copies)
    && AllPresent(IdsTo(args, n), view) && |copies| == |IdsTo(args, n)|
  }

  ghost predicate Making(engine: GoEngine, before: map<Bytes, GoBuffer>, nums: set<nat>, copies: seq<GoBuffer>)
    reads engine
  {
    forall n {:trigger Given(nums, n)} | n == |copies| :: Makes(before, nums, copies, engine.buffers)
  }

  /** VRAM and engine between two turns of the argument loop. */
  ghost predicate InStep(vram: VRAMManager, engine: GoEngine, view: map<string, BufView>,
                         before: map<Bytes, GoBuffer>, nums: set<nat>, copies: seq<GoBuffer>, made: set<object>)
    reads vram, vram.Repr, engine
  {
    && vram.Valid() && vram.Contents == view && engine !in vram.Repr
    && made !! vram.Repr && MadeOf(copies, made) && AllDiffer(copies)
    && Making(engine, before, nums, copies)
  }

  /** A buffer argument that the VRAM has: reads it and copies it into the engine. */
  method BindBuffer(vram: VRAMManager, engine: GoEngine, kargs: seq<KernelArg>, engBufs: map<string, GoBuffer>,
                    index: nat, id: string, ghost items: seq<Item>, ghost n: nat, ghost view: map<string, BufView>,
                    ghost before: map<Bytes, GoBuffer>, ghost nums: set<nat>, ghost copies: seq<GoBuffer>,
                    ghost made: set<object>)
    returns (kargs': seq<KernelArg>, engBufs': map<string, GoBuffer>, b: GoBuffer)
    requires InStep(vram, engine, view, before, nums, copies, made) && id in view
    requires n < |items| && items[n] == Copy(index, id, view[id].data) && BoundTo(items, n, kargs, engBufs, copies)
    modifies engine
    ensures InStep(vram, engine, view, before, nums, copies + [b], made + {b})
    ensures BoundTo(items, n + 1, kargs', engBufs', copies + [b])
    ensures vram.Repr == old(vram.Repr) && fresh(b)
  {
    var size := vram.Buffers[id].Size;
    var data := vram.Read(id, 0, size);
    assert data.value == view[id].data;
    assert Numbered(engine.buffers, Given(nums, |copies|));
    kargs', engBufs', b := BindCopy(engine, kargs, engBufs, index, id, data.value, items, n, before, nums, copies);
  }

  /** One turn of the argument loop. */
  method BindOne(vram: VRAMManager, engine: GoEngine, kargs: seq<KernelArg>, engBufs: map<string, GoBuffer>,
                 args: seq<LaunchArg>, n: nat, ghost items: seq<Item>, ghost view: map<string, BufView>,
                 ghost before: map<Bytes, GoBuffer>, ghost nums: set<nat>, ghost copies: seq<GoBuffer>,
                 ghost made: set<object>)
    returns (ok: bool, kargs': seq<KernelArg>, engBufs': map<string, GoBuffer>, ghost copies': seq<GoBuffer>,
             ghost made': set<object>)
    requires InStep(vram, engine, view, before, nums, copies, made)
    requires n < |args| == |items| && items[n] == ItemOf(args[n], view)
    requires LaunchBoundTo(args, items, n, kargs, engBufs, copies, view)
    modifies engine
    ensures InStep(vram, engine, view, before, nums, copies', made')
    ensures ok ==> LaunchBoundTo(args, items, n + 1, kargs', engBufs', copies', view)
    ensures !ok ==> StoppedWith(args, copies', view)
    ensures vram.Repr == old(vram.Repr) && fresh(made' - made)
  {
    ok, kargs', engBufs', copies', made' := true, kargs, engBufs, copies, made;
    MorePresent(args, n, view);
    if args[n].BufferArg? {
      var vramBuf := vram.Get(args[n].id);
      if vramBuf.Ok? {
        var b;
        kargs', engBufs', b :=
          BindBuffer(vram, engine, kargs, engBufs, args[n].index, args[n].id, items, n, view, before, nums, copies,
                     made);
        copies', made' := copies + [b], made + {b};
      } else {
        Stopped(args, n, copies, view);
        ok := false;
      }
    } else {
      var item := if args[n].NoValue? then Skipped else Value(args[n].index, args[n].bytes);
      kargs' := BindScalar(kargs, engBufs, item, items, n, copies);
    }
  }

  lemma {:induction false} MorePresent(args: seq<LaunchArg>, n: nat, view: map<string, BufView>)
    requires n < |args| && AllPresent(IdsTo(args, n), view)
    ensures |IdsTo(args, n + 1)| == |IdsTo(args, n)| + if args[n].BufferArg? then 1 else 0
    ensures (args[n].BufferArg? ==> args[n].id in view) ==> AllPresent(IdsTo(args, n + 1), view)
  {
  }

  lemma {:induction false} Started(vram: VRAMManager, engine: GoEngine, args: seq<LaunchArg>, items: seq<Item>,
                                   before: map<Bytes, GoBuffer>, nums: set<nat>)
    requires vram.Valid() && engine !in vram.Repr && engine.buffers == before && Numbered(before, nums)
    requires |items| == |args|
    ensures InStep(vram, engine, vram.Contents, before, nums, [], {})
    ensures LaunchBoundTo(args, items, 0, [], map[], [], vram.Contents)
  {
    NothingBound(items);
    NothingMade(before, nums);
  }

  /** The argument loop; not ok when it meets a buffer the VRAM does not have. */
  method BindArgs(vram: VRAMManager, engine: GoEngine, args: seq<LaunchArg>, ghost items: seq<Item>,
                  ghost before: map<Bytes, GoBuffer>, ghost nums: set<nat>)
    returns (ok: bool, kargs: seq<KernelArg>, engBufs: map<string, GoBuffer>, ghost copies: seq<GoBuffer>,
             ghost made: set<object>)
    requires vram.Valid() && engine !in vram.Repr && engine.buffers == before && Numbered(before, nums)
    requires |items| == |args| && forall i | 0 <= i < |args| :: items[i] == ItemOf(args[i], vram.Contents)
    modifies engine
    ensures InStep(vram, engine, old(vram.Contents), before, nums, copies, made)
    ensures ok ==> LaunchBoundTo(args, items, |args|, kargs, engBufs, copies, old(vram.Contents))
    ensures !ok ==> StoppedWith(args, copies, old(vram.Contents))
    ensures vram.Repr == old(vram.Repr) && fresh(made)
  {
    kargs, engBufs, copies, made := [], map[], [], {};
    Started(vram, engine, args, items, before, nums);
    ghost var view := vram.Contents;
    var n := 0;
    ok := true;
    while n < |args| && ok
      invariant 0 <= n <= |args|
      invariant InStep(vram, engine, view, before, nums, copies, made)
      invariant ok ==> LaunchBoundTo(args, items, n, kargs, engBufs, copies, view)
      invariant !ok ==> StoppedWith(args, copies, view)
      invariant vram.Repr == old(vram.Repr) && fresh(made)
      decreases |args| - n, ok
    {
      ok, kargs, engBufs, copies, made := BindOne(vram, engine, kargs, engBufs, args, n, items, view, before, nums,
                                                  copies, made);
      if ok {
        n := n + 1;
      }
    }
  }

  // ── Writing back ──

  /** The VRAM after the first `n` buffer arguments have been written back. */
  ghost function StateAfter(s: VState, ids: seq<string>, n: nat, sources: seq<Source>, slots: seq<Slot>,
                            outs: seq<Bytes>)
    : VState
    requires |outs| == |slots| && n <= |ids|
  {
    s.(bufs := ViewAfter(s.bufs, ids[..n], sources, slots, outs))
  }

  lemma {:induction false} ViewStep(view: map<string, BufView>, ids: seq<string>, sources: seq<Source>,
                                    slots: seq<Slot>, outs: seq<Bytes>, n: nat)
    requires |outs| == |slots| && n < |ids| && ids[n] in view && LastOf(sources, ids[n]) < |sources|
    ensures ViewAfter(view, ids[..n], sources, slots, outs)
              [ids[n] := view[ids[n]].(data := Written(sources, slots, outs, ids[n]), dirty := true)]
         == ViewAfter(view, ids[..n + 1], sources, slots, outs)
  {
    assert ids[..n + 1] == ids[..n] + [ids[n]];
  }

  /** Buffer `id`'s last copy has the size of the buffer. */
  ghost predicate FitsBack(view: map<string, BufView>, sources: seq<Source>, slots: seq<Slot>, outs: seq<Bytes>,
                           id: string)
    requires |outs| == |slots|
  {
    && id in view && LastOf(sources, id) < |sources|
    && |Written(sources, slots, outs, id)| == view[id].size == |view[id].data|
  }

  /** Writing one more buffer back whole, for the first time or again. */
  lemma {:induction false} OneMoreWritten(s: VState, ids: seq<string>, sources: seq<Source>, slots: seq<Slot>,
                                          outs: seq<Bytes>, n: nat)
    requires |outs| == |slots| && n < |ids| && FitsBack(s.bufs, sources, slots, outs, ids[n])
    ensures var now, data := StateAfter(s, ids, n, sources, slots, outs), Written(sources, slots, outs, ids[n]);
            && WriteFits(now, ids[n], 0, data)
            && AfterWrite(now, ids[n], 0, data) == StateAfter(s, ids, n + 1, sources, slots, outs)
  {
    var id, data := ids[n], Written(sources, slots, outs, ids[n]);
    var now := StateAfter(s, ids, n, sources, slots, outs).bufs[id];
    assert Overwrite(now.data, 0, data) == data;
    ViewStep(s.bufs, ids, sources, slots, outs, n);
  }

  ghost predicate OutputsAre(outputs: seq<GoBuffer>, ids: seq<string>, engBufs: map<string, GoBuffer>) {
    |outputs| == |ids| && forall i | 0 <= i < |ids| :: ids[i] in engBufs && outputs[i] == engBufs[ids[i]]
  }

  /** The engine buffers filed under the buffer arguments, in order. */
  method OutputBuffers(engBufs: map<string, GoBuffer>, ids: seq<string>) returns (outputs: seq<GoBuffer>)
    requires forall i | 0 <= i < |ids| :: ids[i] in engBufs
    ensures OutputsAre(outputs, ids, engBufs)
  {
    outputs := [];
    for i := 0 to |ids|
      invariant |outputs| == i && forall j | 0 <= j < i :: outputs[j] == engBufs[ids[j]]
    {
      outputs := outputs + [engBufs[ids[i]]];
    }
  }

  /** Searching the map for `output` can only find `id`. */
  ghost predicate OnlyIdOf(engBufs: map<string, GoBuffer>, id: string, output: GoBuffer) {
    id in engBufs && engBufs[id] == output && forall other <- engBufs | engBufs[other] == output :: other == id
  }

  lemma {:induction false} FiledIsOnly(engBufs: map<string, GoBuffer>, copies: seq<GoBuffer>, sources: seq<Source>,
                                       id: string)
    requires Filed(engBufs, copies, sources) && AllDiffer(copies) && id in engBufs
    ensures OnlyIdOf(engBufs, id, engBufs[id])
  {
    assert NamesLast(engBufs, copies, sources, id);
    forall other <- engBufs | engBufs[other] == engBufs[id] ensures other == id {
      assert NamesLast(engBufs, copies, sources, other);
    }
  }

  /** Writes one engine buffer back, finding its id by searching the map. */
  method WriteOne(vram: VRAMManager, engine: GoEngine, engBufs: map<string, GoBuffer>, output: GoBuffer,
                  ghost id: string)
    requires vram.Valid() && output.size == |output.data| < TWO64 && OnlyIdOf(engBufs, id, output)
    modifies vram.Repr
    ensures vram.Valid() && vram.Repr == old(vram.Repr)
    ensures vram.State() == AfterWrite(old(vram.State()), id, 0, old(output.data))
  {
    var data := engine.ReadBuffer(output, 0, output.size);
    assert output.data[0..0 + output.size] == output.data;
    var found :| found in engBufs && engBufs[found] == output;
    var _ := vram.Write(found, 0, data.value);
  }

  ghost predicate SizedView(view: map<string, BufView>) {
    forall id <- view :: |view[id].data| == view[id].size < TWO64
  }

  /** The n-th output is the last copy of its id, and goes back whole. */
  lemma {:induction false} OutputFitsBack(view: map<string, BufView>, ids: seq<string>, engBufs: map<string, GoBuffer>,
                                          outputs: seq<GoBuffer>, copies: seq<GoBuffer>, sources: seq<Source>,
                                          slots: seq<Slot>, outs: seq<Bytes>, n: nat)
    requires SizedView(view) && SourcesOf(sources, ids, view) && Computed(copies, sources, slots, outs) && n < |ids|
    requires OutputsAre(outputs, ids, engBufs) && Filed(engBufs, copies, sources) && AllDiffer(copies)
    ensures FitsBack(view, sources, slots, outs, ids[n]) && OnlyIdOf(engBufs, ids[n], outputs[n])
    ensures outputs[n].data == Written(sources, slots, outs, ids[n]) && outputs[n].size == |outputs[n].data| < TWO64
  {
    assert sources[n].id == ids[n] && HasId(engBufs, sources, n) && NamesLast(engBufs, copies, sources, ids[n]);
    var p := LastOf(sources, ids[n]);
    assert sources[p] == Source(ids[p], view[ids[p]].data);
    FiledIsOnly(engBufs, copies, sources, ids[n]);
  }

  /** Writes every buffer argument's last copy back. */
  method WriteBack(vram: VRAMManager, engine: GoEngine, engBufs: map<string, GoBuffer>, outputs: seq<GoBuffer>,
                   ghost ids: seq<string>, ghost copies: seq<GoBuffer>, ghost sources: seq<Source>,
                   ghost slots: seq<Slot>, ghost outs: seq<Bytes>)
    requires vram.Valid() && SizedView(vram.Contents) && SourcesOf(sources, ids, vram.Contents)
    requires Filed(engBufs, copies, sources) && AllDiffer(copies) && Computed(copies, sources, slots, outs)
    requires OutputsAre(outputs, ids, engBufs)
    requires forall i | 0 <= i < |copies| :: copies[i] !in vram.Repr
    modifies vram.Repr
    ensures vram.Valid() && vram.Repr == old(vram.Repr)
    ensures vram.State() == StateAfter(old(vram.State()), ids, |ids|, sources, slots, outs)
  {
    ghost var s := vram.State();
    NoneWritten(s, ids, sources, slots, outs);
    var n := 0;
    while n < |outputs|
      invariant 0 <= n <= |outputs|
      invariant vram.Valid() && vram.Repr == old(vram.Repr)
      invariant vram.State() == StateAfter(s, ids, n, sources, slots, outs)
      invariant Computed(copies, sources, slots, outs)
    {
      OutputFitsBack(s.bufs, ids, engBufs, outputs, copies, sources, slots, outs, n);
      OneMoreWritten(s, ids, sources, slots, outs, n);
      WriteOne(vram, engine, engBufs, outputs[n], ids[n]);
      n := n + 1;
    }
  }

  lemma {:induction false} NoneWritten(s: VState, ids: seq<string>, sources: seq<Source>, slots: seq<Slot>,
                                       outs: seq<Bytes>)
    requires |outs| == |slots|
    ensures StateAfter(s, ids, 0, sources, slots, outs) == s
  {
    assert ViewAfter(s.bufs, ids[..0], sources, slots, outs) == s.bufs;
  }

  // ── The launch ──

  /** A successful kernel's results go to VRAM and its engine buffers go away. */
  method Finish(vram: VRAMManager, engine: GoEngine, engBufs: map<string, GoBuffer>, outputs: seq<GoBuffer>,
                ghost ids: seq<string>, ghost before: map<Bytes, GoBuffer>, ghost nums: set<nat>,
                ghost copies: seq<GoBuffer>, ghost sources: seq<Source>, ghost slots: seq<Slot>, ghost outs: seq<Bytes>)
    requires vram.Valid() && engine !in vram.Repr && SourcesOf(sources, ids, vram.Contents)
    requires Roomy(engine, before, nums, copies) && Filed(engBufs, copies, sources)
    requires Computed(copies, sources, slots, outs)
    requires OutputsAre(outputs, ids, engBufs)
    requires forall i | 0 <= i < |copies| :: copies[i] !in vram.Repr
    modifies engine, vram.Repr
    ensures vram.Valid() && vram.Repr == old(vram.Repr)
    ensures Left(engine.buffers, before, nums, sources, |copies|, true)
    ensures vram.State() == StateAfter(old(vram.State()), ids, |ids|, sources, slots, outs)
  {
    WriteBack(vram, engine, engBufs, outputs, ids, copies, sources, slots, outs);
    ReleaseCopies(vram, engine, engBufs, before, nums, copies, sources);
  }

  /** Releases what is filed; the VRAM has no part in it. */
  method ReleaseCopies(ghost vram: VRAMManager, engine: GoEngine, engBufs: map<string, GoBuffer>,
                       ghost before: map<Bytes, GoBuffer>, ghost nums: set<nat>, ghost copies: seq<GoBuffer>,
                       ghost sources: seq<Source>)
    requires vram.Valid() && engine !in vram.Repr
    requires Roomy(engine, before, nums, copies) && Filed(engBufs, copies, sources)
    modifies engine
    ensures vram.Valid() && vram.Repr == old(vram.Repr) && vram.State() == old(vram.State())
    ensures Left(engine.buffers, before, nums, sources, |copies|, true)
  {
    CleanupLeaves(before, nums, copies, engine.buffers, engBufs, sources);
    Cleanup(engine, engBufs);
  }

  /**
   * What follows the argument loop: run the kernel, write back, release the copies. A kernel error releases nothing.
   */
  method RunBound(vram: VRAMManager, engine: GoEngine, kernel: KernelFn, bufferArgs: seq<string>, kargs: seq<KernelArg>,
                  engBufs: map<string, GoBuffer>, global: seq<nat>, offset: seq<nat>,
                  ghost before: map<Bytes, GoBuffer>, ghost nums: set<nat>, ghost copies: seq<GoBuffer>,
                  ghost sources: seq<Source>, ghost slots: seq<Slot>)
    returns (ok: bool)
    requires vram.Valid() && engine !in vram.Repr && SourcesOf(sources, bufferArgs, vram.Contents) && KeepsSizes(kernel)
    requires Roomy(engine, before, nums, copies) && Placed(slots, |copies|)
    requires Copied(copies, sources) && Filed(engBufs, copies, sources) && Matches(kargs, slots, copies)
    requires forall i | 0 <= i < |copies| :: copies[i] !in vram.Repr
    modifies engine, copies, vram.Repr
    ensures vram.Valid() && vram.Repr == old(vram.Repr)
    ensures ok == kernel(OperandsOf(slots, sources), global, offset).Some?
    ensures Left(engine.buffers, before, nums, sources, |copies|, ok)
    ensures !ok ==> vram.State() == old(vram.State())
    ensures ok ==>
      var outs := kernel(OperandsOf(slots, sources), global, offset).value;
      |outs| == |slots| && vram.State() == StateAfter(old(vram.State()), bufferArgs, |bufferArgs|, sources, slots, outs)
  {
    forall i | 0 <= i < |bufferArgs| ensures bufferArgs[i] in engBufs {
      assert sources[i].id == bufferArgs[i] && HasId(engBufs, sources, i);
    }
    var outputs := OutputBuffers(engBufs, bufferArgs);
    ok := RunInRoom(engine, kernel, kargs, global, offset, before, nums, copies, slots, sources);
    if ok {
      ghost var outs := kernel(OperandsOf(slots, sources), global, offset).value;
      Finish(vram, engine, engBufs, outputs, bufferArgs, before, nums, copies, sources, slots, outs);
    }
  }

  /** What a launch does to the VRAM: nothing, unless the kernel answers. */
  ghost function AfterLaunch(s: VState, kernel: KernelFn, args: seq<LaunchArg>, global: seq<nat>,
                             offset: seq<nat>): VState
    requires KeepsSizes(kernel)
  {
    var outcome, ids := Outcome(kernel, args, s.bufs, global, offset), BufferIds(args);
    if outcome.None? then s
    else StateAfter(s, ids, |ids|, LaunchSources(args, s.bufs), LaunchSlots(args, s.bufs), outcome.value)
  }

  /** The global size of the launch: given, or the float count of the first buffer's copy. */
  method GlobalSize(global: seq<nat>, bufferArgs: seq<string>, engBufs: map<string, GoBuffer>) returns (g: seq<nat>)
    ensures g ==
      if global == [] && bufferArgs != [] && bufferArgs[0] in engBufs then [engBufs[bufferArgs[0]].size / 4]
      else global
  {
    g := global;
    if |global| == 0 && |bufferArgs| > 0 && bufferArgs[0] in engBufs {
      g := [engBufs[bufferArgs[0]].size / 4];
    }
  }

  lemma {:induction false} FirstSize(bufferArgs: seq<string>, engBufs: map<string, GoBuffer>, copies: seq<GoBuffer>,
                                     sources: seq<Source>, view: map<string, BufView>)
    requires SourcesOf(sources, bufferArgs, view) && Filed(engBufs, copies, sources) && Copied(copies, sources)
    requires bufferArgs != [] && SizedView(view)
    ensures bufferArgs[0] in engBufs && bufferArgs[0] in view && engBufs[bufferArgs[0]].size == view[bufferArgs[0]].size
  {
    assert sources[0].id == bufferArgs[0] && HasId(engBufs, sources, 0);
    assert NamesLast(engBufs, copies, sources, bufferArgs[0]);
    var p := LastOf(sources, bufferArgs[0]);
    assert IsCopy(copies[p], sources[p].content) && sources[p] == Source(bufferArgs[p], view[bufferArgs[p]].data);
  }

  /** Everything after the argument loop. */
  method LaunchBound(vram: VRAMManager, engine: GoEngine, kernel: KernelFn, bufferArgs: seq<string>,
                     kargs: seq<KernelArg>,
                     engBufs: map<string, GoBuffer>, global: seq<nat>, offset: seq<nat>,
                     ghost args: seq<LaunchArg>, ghost before: map<Bytes, GoBuffer>, ghost nums: set<nat>,
                     ghost copies: seq<GoBuffer>)
    returns (ok: bool)
    requires vram.Valid() && engine !in vram.Repr && bufferArgs == BufferIds(args) && KeepsSizes(kernel)
    requires Roomy(engine, before, nums, copies)
    requires LaunchBoundTo(args, Items(args, vram.Contents), |args|, kargs, engBufs, copies, vram.Contents)
    requires forall i | 0 <= i < |copies| :: copies[i] !in vram.Repr
    modifies engine, copies, vram.Repr
    ensures vram.Valid() && vram.Repr == old(vram.Repr)
    ensures ok == Outcome(kernel, args, old(vram.Contents), global, offset).Some?
    ensures vram.State() == AfterLaunch(old(vram.State()), kernel, args, global, offset)
    ensures Left(engine.buffers, before, nums, LaunchSources(args, old(vram.Contents)), |copies|, ok)
  {
    ghost var view := vram.Contents;
    ghost var sources, slots := LaunchSources(args, view), LaunchSlots(args, view);
    SourcesAre(args, view, |args|);
    SlotsArePlaced(Items(args, view), |args|);
    assert slots == SlotsTo(Items(args, view), |args|);
    var g := GlobalSize(global, bufferArgs, engBufs);
    if bufferArgs != [] {
      FirstSize(bufferArgs, engBufs, copies, sources, view);
    }
    assert g == GlobalOf(global, bufferArgs, view);
    ok := RunBound(vram, engine, kernel, bufferArgs, kargs, engBufs, g, OffsetOf(offset, |g|), before, nums, copies,
                   sources, slots);
  }

  /** The engine has room for the copies, if the launch comes as far as running the kernel. */
  ghost predicate RoomFor(nums: set<nat>, args: seq<LaunchArg>, view: map<string, BufView>) {
    AllPresent(BufferIds(args), view) ==> HasRoom(nums, |BufferIds(args)|)
  }

  /** The engine after a launch. */
  ghost predicate LaunchLeft(after: map<Bytes, GoBuffer>, before: map<Bytes, GoBuffer>, nums: set<nat>,
                             args: seq<LaunchArg>, view: map<string, BufView>, ok: bool)
  {
    Left(after, before, nums, LaunchSources(args, view), CopiedCount(BufferIds(args), view), ok)
  }

  /**
   * executeLocally, wherever the engine has room for the copies of a launch that reaches the kernel. The VRAM ends as
   * the plain function says, whether or not a buffer is passed more than once. Which engine buffers stay is exact: the
   * copies of a failed launch, and after a success the superseded copies of repeated arguments.
   */
  method ExecuteLocally(vram: VRAMManager, engine: GoEngine, kernel: KernelFn, args: seq<LaunchArg>,
                        bufferArgs: seq<string>, global: seq<nat>, offset: seq<nat>, ghost nums: set<nat>)
    returns (ok: bool)
    requires vram.Valid() && engine !in vram.Repr && KeepsSizes(kernel) && bufferArgs == BufferIds(args)
    requires Numbered(engine.buffers, nums) && RoomFor(nums, args, vram.Contents)
    modifies engine, vram.Repr
    ensures vram.Valid() && vram.Repr == old(vram.Repr)
    ensures ok == Outcome(kernel, args, old(vram.Contents), global, offset).Some?
    ensures vram.State() == AfterLaunch(old(vram.State()), kernel, args, global, offset)
    ensures LaunchLeft(engine.buffers, old(engine.buffers), nums, args, old(vram.Contents), ok)
  {
    ghost var before, view := engine.buffers, vram.Contents;
    var bound, kargs, engBufs;
    ghost var copies, made;
    bound, kargs, engBufs, copies, made := BindArgs(vram, engine, args, Items(args, vram.Contents), before, nums);
    if bound {
      CopiedCountIs(BufferIds(args), vram.Contents, |copies|);
      ok := LaunchBound(vram, engine, kernel, bufferArgs, kargs, engBufs, global, offset, args, before, nums, copies);
    } else {
      assert |copies| == CopiedCount(BufferIds(args), view);
      assert Makes(before, nums, copies, engine.buffers);
      MadeLeft(before, nums, copies, engine.buffers, LaunchSources(args, view));
      ok := false;
    }
  }

  // ── Launches in a row ──

  lemma {:induction false} LaunchKeepsIds(s: VState, kernel: KernelFn, args: seq<LaunchArg>, global: seq<nat>,
                                          offset: seq<nat>)
    requires KeepsSizes(kernel)
    ensures var after := AfterLaunch(s, kernel, args, global, offset);
            after.bufs.Keys == s.bufs.Keys && after == s.(bufs := after.bufs)
  {
  }

  /** A launch changes only the bytes and the dirty mark of its buffer arguments. */
  lemma {:induction false} LaunchTouchesArguments(s: VState, kernel: KernelFn, args: seq<LaunchArg>, global: seq<nat>,
                                                  offset: seq<nat>, id: string)
    requires KeepsSizes(kernel) && Conserved(s) && id in s.bufs
    ensures var after := AfterLaunch(s, kernel, args, global, offset);
            var outcome := Outcome(kernel, args, s.bufs, global, offset);
      && id in after.bufs
      && (id !in BufferIds(args) || outcome.None? ==> after.bufs[id] == s.bufs[id])
      && (id in BufferIds(args) && outcome.Some? ==>
            && after.bufs[id] == s.bufs[id].(data := after.bufs[id].data, dirty := true)
            && |after.bufs[id].data| == s.bufs[id].size)
  {
    var ids := BufferIds(args);
    if Outcome(kernel, args, s.bufs, global, offset).Some? {
      assert ids[..|ids|] == ids;
      if id in ids {
        var p := ArgumentIsCopied(args, s.bufs, id);
        var g := GlobalOf(global, ids, s.bufs);
        ResultSize(kernel, LaunchSources(args, s.bufs), LaunchSlots(args, s.bufs), g, OffsetOf(offset, |g|), p);
      }
    }
  }

  /** A buffer argument's last copy is made of that buffer. */
  lemma {:induction false} ArgumentIsCopied(args: seq<LaunchArg>, view: map<string, BufView>, id: string)
    returns (p: nat)
    requires AllPresent(BufferIds(args), view) && id in BufferIds(args)
    ensures var sources := LaunchSources(args, view);
            id in view && p == LastOf(sources, id) < |sources| && sources[p] == Source(id, view[id].data)
  {
    SourcesAre(args, view, |args|);
    var sources, ids := LaunchSources(args, view), BufferIds(args);
    var n :| 0 <= n < |ids| && ids[n] == id;
    assert sources[n].id == id;
    p := LastOf(sources, id);
    assert sources[p] == Source(ids[p], view[ids[p]].data);
  }

  /**
   * The kernel's answer for a position arrives in the buffer it names, unless a later argument names that buffer again.
   */
  lemma {:induction false} LaunchDelivers(s: VState, kernel: KernelFn, args: seq<LaunchArg>, global: seq<nat>,
                                          offset: seq<nat>, i: nat)
    requires KeepsSizes(kernel) && Outcome(kernel, args, s.bufs, global, offset).Some?
    requires i < |LaunchSlots(args, s.bufs)| && LaunchSlots(args, s.bufs)[i].Ref?
    ensures LaunchSlots(args, s.bufs)[i].copy < |LaunchSources(args, s.bufs)|
    ensures var sources, p, outs := LaunchSources(args, s.bufs), LaunchSlots(args, s.bufs)[i].copy,
                                    Outcome(kernel, args, s.bufs, global, offset).value;
      && i < |outs| && sources[p].id in s.bufs
      && AfterLaunch(s, kernel, args, global, offset).bufs[sources[p].id].data ==
         if IsLast(sources, p) then outs[i] else Written(sources, LaunchSlots(args, s.bufs), outs, sources[p].id)
  {
    var ids, items := BufferIds(args), Items(args, s.bufs);
    SourcesAre(args, s.bufs, |args|);
    SlotsArePlaced(items, |args|);
    assert ids[..|ids|] == ids;
    var p := LaunchSlots(args, s.bufs)[i].copy;
    assert LaunchSources(args, s.bufs)[p].id == ids[p];
    assert Find(LaunchSlots(args, s.bufs), p) == i;
  }

  datatype Launch = Launch(kernel: KernelFn, args: seq<LaunchArg>, global: seq<nat>, offset: seq<nat>)

  ghost predicate Proper(l: Launch) { KeepsSizes(l.kernel) }

  ghost predicate AllProper(launches: seq<Launch>) { forall i | 0 <= i < |launches| :: Proper(launches[i]) }

  predicate Succeeds(s: VState, l: Launch) { Outcome(l.kernel, l.args, s.bufs, l.global, l.offset).Some? }

  /** The VRAM after a launch. */
  ghost function Next(s: VState, l: Launch): VState
    requires Proper(l)
  {
    AfterLaunch(s, l.kernel, l.args, l.global, l.offset)
  }

  /** The numbers of the engine's buffers after a launch. */
  function NextNums(s: VState, nums: set<nat>, l: Launch): set<nat> {
    NumsLeft(nums, LaunchSources(l.args, s.bufs), CopiedCount(BufferIds(l.args), s.bufs), Succeeds(s, l))
  }

  lemma {:induction false} RestProper(launches: seq<Launch>)
    requires AllProper(launches) && launches != []
    ensures Proper(launches[0]) && AllProper(launches[1..])
  {
    assert Proper(launches[0]);
    forall i | 0 <= i < |launches[1..]| ensures Proper(launches[1..][i]) {
      assert Proper(launches[i + 1]);
    }
  }

  /** The VRAM after a run of launches. */
  ghost function RunLaunches(s: VState, launches: seq<Launch>): VState
    requires AllProper(launches)
    decreases |launches|
  {
    if launches == [] then s
    else
      RestProper(launches);
      RunLaunches(Next(s, launches[0]), launches[1..])
  }

  /** The numbers of the engine's buffers after a run of launches. */
  ghost function RunNums(s: VState, nums: set<nat>, launches: seq<Launch>): set<nat>
    requires AllProper(launches)
    decreases |launches|
  {
    if launches == [] then nums
    else
      RestProper(launches);
      RunNums(Next(s, launches[0]), NextNums(s, nums, launches[0]), launches[1..])
  }

  /** Each launch of the run that reaches the kernel finds room for its copies. */
  ghost predicate HasRooms(s: VState, nums: set<nat>, launches: seq<Launch>)
    requires AllProper(launches)
    decreases |launches|
  {
    launches == [] || (
      RestProper(launches);
      && RoomFor(nums, launches[0].args, s.bufs)
      && HasRooms(Next(s, launches[0]), NextNums(s, nums, launches[0]), launches[1..]))
  }

  /** One launch of a run. */
  method LaunchOne(vram: VRAMManager, engine: GoEngine, l: Launch, ghost nums: set<nat>)
    requires vram.Valid() && engine !in vram.Repr && Proper(l)
    requires Numbered(engine.buffers, nums) && RoomFor(nums, l.args, vram.Contents)
    modifies engine, vram.Repr
    ensures vram.Valid() && vram.Repr == old(vram.Repr) && vram.State() == Next(old(vram.State()), l)
    ensures Numbered(engine.buffers, NextNums(old(vram.State()), nums, l))
  {
    var _ := ExecuteLocally(vram, engine, l.kernel, l.args, BufferIds(l.args), l.global, l.offset, nums);
  }

  /** Launches handled one after another, wherever each finds room: the VRAM follows the plain functions. */
  method HandleLaunches(vram: VRAMManager, engine: GoEngine, launches: seq<Launch>, ghost nums: set<nat>)
    requires vram.Valid() && engine !in vram.Repr && AllProper(launches)
    requires Numbered(engine.buffers, nums) && HasRooms(vram.State(), nums, launches)
    modifies engine, vram.Repr
    ensures vram.Valid() && vram.Repr == old(vram.Repr)
    ensures vram.State() == RunLaunches(old(vram.State()), launches)
    ensures Numbered(engine.buffers, RunNums(old(vram.State()), nums, launches))
  {
    var rest := launches;
    ghost var now := nums;
    while rest != []
      invariant vram.Valid() && vram.Repr == old(vram.Repr) && AllProper(rest)
      invariant Numbered(engine.buffers, now) && HasRooms(vram.State(), now, rest)
      invariant RunLaunches(vram.State(), rest) == RunLaunches(old(vram.State()), launches)
      invariant RunNums(vram.State(), now, rest) == RunNums(old(vram.State()), nums, launches)
      decreases |rest|
    {
      RestProper(rest);
      ghost var s := vram.State();
      LaunchOne(vram, engine, rest[0], now);
      now := NextNums(s, now, rest[0]);
      rest := rest[1..];
    }
  }

  /** Same ids, sizes, limit and counters. */
  ghost predicate SameShape(s: VState, after: VState) {
    && after == s.(bufs := after.bufs) && after.bufs.Keys == s.bufs.Keys
    && forall id <- s.bufs :: after.bufs[id].size == s.bufs[id].size
  }

  lemma {:induction false} SameShapeConserves(s: VState, after: VState)
    requires Conserved(s) && SameShape(s, after) && Sized(after)
    ensures Conserved(after)
  {
    SameSizesSameLive(s.bufs, after.bufs);
  }

  lemma {:induction false} LaunchConserves(s: VState, l: Launch)
    requires Conserved(s) && Proper(l)
    ensures Conserved(Next(s, l)) && SameShape(s, Next(s, l))
    ensures forall id <- s.bufs | id !in BufferIds(l.args) :: Next(s, l).bufs[id] == s.bufs[id]
  {
    LaunchKeepsIds(s, l.kernel, l.args, l.global, l.offset);
    forall id <- s.bufs
      ensures Next(s, l).bufs[id].size == s.bufs[id].size == |Next(s, l).bufs[id].data|
      ensures id !in BufferIds(l.args) ==> Next(s, l).bufs[id] == s.bufs[id]
    {
      LaunchTouchesArguments(s, l.kernel, l.args, l.global, l.offset, id);
    }
    SameShapeConserves(s, Next(s, l));
  }

  /** Any run of launches keeps the ids, the sizes and the counters, and every buffer no launch names. */
  lemma {:induction false} LaunchesConserve(s: VState, launches: seq<Launch>)
    requires Conserved(s) && AllProper(launches)
    ensures Conserved(RunLaunches(s, launches)) && SameShape(s, RunLaunches(s, launches))
    ensures forall id <- s.bufs | (forall i | 0 <= i < |launches| :: id !in BufferIds(launches[i].args)) ::
              RunLaunches(s, launches).bufs[id] == s.bufs[id]
    decreases |launches|
  {
    if launches != [] {
      var l, rest := launches[0], launches[1..];
      RestProper(launches);
      LaunchConserves(s, l);
      LaunchesConserve(Next(s, l), rest);
      assert forall i | 0 <= i < |rest| :: rest[i] == launches[i + 1];
    }
  }

  // ── Room for a run ──

  /** Every launch but the last fails, or makes the superseded copies first. */
  ghost predicate TidyRun(s: VState, launches: seq<Launch>)
    requires AllProper(launches)
    decreases |launches|
  {
    |launches| <= 1 || (
      RestProper(launches);
      && (Succeeds(s, launches[0]) ==> RepeatsFirst(LaunchSources(launches[0].args, s.bufs)))
      && TidyRun(Next(s, launches[0]), launches[1..]))
  }

  /** Each launch of the run finds an engine whose numbers have no gap. */
  ghost predicate GaplessRun(s: VState, nums: set<nat>, launches: seq<Launch>)
    requires AllProper(launches)
    decreases |launches|
  {
    launches == [] || (
      RestProper(launches);
      && Gapless(nums)
      && GaplessRun(Next(s, launches[0]), NextNums(s, nums, launches[0]), launches[1..]))
  }

  lemma {:induction false} SourcesCount(s: VState, l: Launch)
    requires Succeeds(s, l)
    ensures |LaunchSources(l.args, s.bufs)| == |BufferIds(l.args)| == CopiedCount(BufferIds(l.args), s.bufs)
  {
    SourcesAre(l.args, s.bufs, |l.args|);
    CopiedCountIs(BufferIds(l.args), s.bufs, |BufferIds(l.args)|);
  }

  /** One launch leaves an engine without gaps so exactly if it fails or makes the superseded copies first. */
  lemma {:induction false} NextGaplessIff(s: VState, k: nat, l: Launch)
    ensures Gapless(NextNums(s, Upto(k), l)) <==> (Succeeds(s, l) ==> RepeatsFirst(LaunchSources(l.args, s.bufs)))
  {
    if Succeeds(s, l) {
      SourcesCount(s, l);
      LaunchGaplessIff(k, LaunchSources(l.args, s.bufs));
    } else {
      UptoGiven(k, CopiedCount(BufferIds(l.args), s.bufs));
    }
  }

  /** So a run meets no gap exactly if it is tidy. */
  lemma {:induction false} GaplessRunIff(s: VState, k: nat, launches: seq<Launch>)
    requires AllProper(launches)
    ensures GaplessRun(s, Upto(k), launches) <==> TidyRun(s, launches)
    decreases |launches|
  {
    if |launches| > 1 {
      var l := launches[0];
      RestProper(launches);
      NextGaplessIff(s, k, l);
      if j :| NextNums(s, Upto(k), l) == Upto(j) {
        GaplessRunIff(Next(s, l), j, launches[1..]);
      }
    }
  }

  /** And a run that meets no gap finds room everywhere. */
  lemma {:induction false} GaplessHasRooms(s: VState, nums: set<nat>, launches: seq<Launch>)
    requires AllProper(launches) && GaplessRun(s, nums, launches)
    ensures HasRooms(s, nums, launches)
    decreases |launches|
  {
    if launches != [] {
      RestProper(launches);
      var k :| nums == Upto(k);
      UptoFree(k, |BufferIds(launches[0].args)|);
      GaplessHasRooms(Next(s, launches[0]), NextNums(s, nums, launches[0]), launches[1..]);
    }
  }

  lemma {:induction false} TidyHasRooms(s: VState, k: nat, launches: seq<Launch>)
    requires AllProper(launches) && TidyRun(s, launches)
    ensures HasRooms(s, Upto(k), launches)
  {
    GaplessRunIff(s, k, launches);
    GaplessHasRooms(s, Upto(k), launches);
  }

  // ── Positions do not depend on the bytes ──

  /** Items that differ in the bytes of a copy at most. */
  predicate AlikeItem(a: Item, b: Item) { if a.Copy? && b.Copy? then a == b.(content := a.content) else a == b }

  ghost predicate AlikeItems(a: seq<Item>, b: seq<Item>) {
    |a| == |b| && forall i | 0 <= i < |a| :: AlikeItem(a[i], b[i])
  }

  lemma {:induction false} SameItems(a: seq<Item>, b: seq<Item>, n: nat)
    requires AlikeItems(a, b) && n <= |a|
    ensures SlotsTo(a, n) == SlotsTo(b, n)
    ensures SameIds(SourcesTo(a, n), SourcesTo(b, n))
  {
    if n > 0 {
      SameItems(a, b, n - 1);
      assert AlikeItem(a[n - 1], b[n - 1]);
      MoreSameIds(SourcesTo(a, n - 1), NewSources(a[n - 1]), SourcesTo(b, n - 1), NewSources(b[n - 1]));
    }
  }

  lemma {:induction false} MoreSameIds(a: seq<Source>, a': seq<Source>, b: seq<Source>, b': seq<Source>)
    requires SameIds(a, b) && SameIds(a', b')
    ensures SameIds(a + a', b + b')
  {
  }

  ghost predicate SameIds(a: seq<Source>, b: seq<Source>) {
    |a| == |b| && forall p | 0 <= p < |a| :: a[p].id == b[p].id
  }

  lemma {:induction false} SameLast(a: seq<Source>, b: seq<Source>, n: nat, id: string)
    requires SameIds(a, b) && n <= |a|
    ensures LastTo(a, n, id) == LastTo(b, n, id)
  {
    if n > 0 {
      SameLast(a, b, n - 1, id);
    }
  }

  lemma {:induction false} SameRepeats(s: VState, t: VState, args: seq<LaunchArg>)
    requires s.bufs.Keys == t.bufs.Keys
    ensures RepeatsFirst(LaunchSources(args, s.bufs)) <==> RepeatsFirst(LaunchSources(args, t.bufs))
  {
    var a, b := LaunchSources(args, s.bufs), LaunchSources(args, t.bufs);
    SameItems(Items(args, s.bufs), Items(args, t.bufs), |args|);
    forall p | 0 <= p < |a| ensures Lasts(a)[p] == Lasts(b)[p] {
      SameLast(a, b, |a|, a[p].id);
    }
    assert Lasts(a) == Lasts(b);
  }

  /** Every launch makes its superseded copies first, in any state with the same buffers. */
  ghost predicate AllRepeatFirst(s: VState, launches: seq<Launch>) {
    forall i | 0 <= i < |launches| :: RepeatsFirst(LaunchSources(launches[i].args, s.bufs))
  }

  lemma {:induction false} AllRepeatFirstIsTidy(s: VState, launches: seq<Launch>)
    requires AllProper(launches) && AllRepeatFirst(s, launches)
    ensures TidyRun(s, launches)
    decreases |launches|
  {
    if |launches| > 1 {
      var l, rest := launches[0], launches[1..];
      RestProper(launches);
      LaunchKeepsIds(s, l.kernel, l.args, l.global, l.offset);
      forall i | 0 <= i < |rest| ensures RepeatsFirst(LaunchSources(rest[i].args, Next(s, l).bufs)) {
        assert rest[i] == launches[i + 1];
        SameRepeats(s, Next(s, l), rest[i].args);
      }
      AllRepeatFirstIsTidy(Next(s, l), rest);
    }
  }

  /** No launch passes a buffer twice. */
  ghost predicate NoRepeats(launches: seq<Launch>) {
    forall i | 0 <= i < |launches| :: Different(BufferIds(launches[i].args))
  }

  ghost predicate Different(ids: seq<string>) { forall i, j | 0 <= i < j < |ids| :: ids[i] != ids[j] }

  lemma {:induction false} DifferentRepeatsFirst(s: VState, l: Launch)
    requires Succeeds(s, l) && Different(BufferIds(l.args))
    ensures RepeatsFirst(LaunchSources(l.args, s.bufs))
  {
    SourcesAre(l.args, s.bufs, |l.args|);
    DistinctRepeatNothing(LaunchSources(l.args, s.bufs));
  }

  lemma {:induction false} NoRepeatsIsTidy(s: VState, launches: seq<Launch>)
    requires AllProper(launches) && NoRepeats(launches)
    ensures TidyRun(s, launches)
    decreases |launches|
  {
    if |launches| > 1 {
      RestProper(launches);
      if Succeeds(s, launches[0]) {
        DifferentRepeatsFirst(s, launches[0]);
      }
      NoRepeatsIsTidy(Next(s, launches[0]), launches[1..]);
    }
  }

  lemma {:induction false} TwoRooms(s: VState, nums: set<nat>, l: Launch, next: Launch)
    requires AllProper([l, next])
    ensures Proper(l)
    ensures HasRooms(s, nums, [l, next]) <==>
            RoomFor(nums, l.args, s.bufs) && RoomFor(NextNums(s, nums, l), next.args, Next(s, l).bufs)
  {
    var launches := [l, next];
    RestProper(launches);
    var now, left := Next(s, l), NextNums(s, nums, l);
    assert launches[1..] == [next] && [next][1..] == [];
    assert HasRooms(s, nums, launches) <==> RoomFor(nums, l.args, s.bufs) && HasRooms(now, left, launches[1..]);
    assert HasRooms(now, left, [next]) <==> RoomFor(left, next.args, now.bufs);
  }

  /**
   * The condition cannot be weakened: after a success on an engine without gaps, a launch of as many buffers or more
   * that are all there finds room exactly if the success made its superseded copies first.
   */
  lemma {:induction false} SecondHasRoomIff(s: VState, k: nat, l: Launch, next: Launch)
    requires AllProper([l, next]) && Succeeds(s, l)
    requires |BufferIds(next.args)| >= |BufferIds(l.args)| && AllPresent(BufferIds(next.args), s.bufs)
    ensures HasRooms(s, Upto(k), [l, next]) <==> RepeatsFirst(LaunchSources(l.args, s.bufs))
  {
    TwoRooms(s, Upto(k), l, next);
    UptoFree(k, |BufferIds(l.args)|);
    SourcesCount(s, l);
    LaunchAgainIff(k, LaunchSources(l.args, s.bufs), |BufferIds(next.args)|);
    LaunchKeepsIds(s, l.kernel, l.args, l.global, l.offset);
  }
}
