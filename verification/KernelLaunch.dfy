/**
 * Launches of the engine's own kernels: executeLocally of vgpu/server/ipc_server.go with cmd/worker/engine/fallback.go
 * behind it. What a launch leaves in VRAM is stated in floats.
 */
module KernelLaunch {
  import opened Arithmetic
  import opened Binding
  import opened Common
  import opened Engine
  import opened FloatKernels
  import opened KvCacheSpec
  import opened LocalLaunch
  import opened Numbering
  import opened Scheduler
  import opened VramSpec
  import K = Kernels

  // ── One launch ──

  /** The VRAM has every buffer that the launch names. */
  predicate Ready(s: VState, args: seq<LaunchArg>) { AllPresent(BufferIds(args), s.bufs) }

  /** Position `i` of the launch is a copy of the buffer `id`. */
  predicate At(s: VState, args: seq<LaunchArg>, i: nat, id: string) {
    var slots, sources := LaunchSlots(args, s.bufs), LaunchSources(args, s.bufs);
    i < |slots| && slots[i].Ref? && slots[i].copy < |sources| && sources[slots[i].copy].id == id && id in s.bufs
  }

  /** Position `i` is a copy of `id` and no later argument names that buffer again. */
  predicate OutputAt(s: VState, args: seq<LaunchArg>, i: nat, id: string) {
    At(s, args, i, id) && IsLast(LaunchSources(args, s.bufs), LaunchSlots(args, s.bufs)[i].copy)
  }

  /** The int32 the launch passes at position `i`, if that is no buffer. */
  function GivenInt(s: VState, args: seq<LaunchArg>, i: nat): Option<int> {
    var slots := LaunchSlots(args, s.bufs);
    if i < |slots| && slots[i].Val? then Some(Int32Of(slots[i].bytes)) else None
  }

  function LaunchOperands(s: VState, args: seq<LaunchArg>): seq<Operand> {
    OperandsOf(LaunchSlots(args, s.bufs), LaunchSources(args, s.bufs))
  }

  lemma {:induction false} IntArgIs(s: VState, args: seq<LaunchArg>, i: nat)
    requires Ready(s, args)
    ensures IntArg(LaunchOperands(s, args), i) == GivenInt(s, args, i)
  {
    SlotsArePlaced(Items(args, s.bufs), |args|);
  }

  lemma {:induction false} OperandIs(s: VState, args: seq<LaunchArg>, i: nat, id: string)
    requires Ready(s, args) && At(s, args, i, id)
    ensures var operands := LaunchOperands(s, args);
            i < |operands| && operands[i] == Memory(s.bufs[id].data) && FloatsOf(operands, i) == In(s, id)
  {
    SourcesAre(args, s.bufs, |args|);
    var p := LaunchSlots(args, s.bufs)[i].copy;
    assert LaunchSources(args, s.bufs)[p] == Source(BufferIds(args)[p], s.bufs[BufferIds(args)[p]].data);
  }

  /** The floats of buffer `id`. */
  function In(s: VState, id: string): seq<Float32>
    requires id in s.bufs
  {
    AllFloats(s.bufs[id].data)
  }

  /** Buffer `out` holds `floats` now and no other byte has changed. */
  ghost predicate OnlyFloats(s: VState, after: VState, out: string, floats: seq<Float32>) {
    && after.bufs.Keys == s.bufs.Keys && out in s.bufs
    && In(after, out) == floats && SameRest(after.bufs[out].data, s.bufs[out].data)
    && forall id <- s.bufs | id != out :: after.bufs[id].data == s.bufs[id].data
  }

  /** A launch whose kernel writes one buffer puts the floats there and leaves every other byte of the VRAM alone. */
  lemma {:induction false} WritesOneBuffer(s: VState, kernel: KernelFn, args: seq<LaunchArg>, global: seq<nat>,
                                           offset: seq<nat>, w: nat, out: string, floats: seq<Float32>)
    requires KeepsSizes(kernel) && Ready(s, args) && OutputAt(s, args, w, out)
    requires Outcome(kernel, args, s.bufs, global, offset) == Some(Wrote(LaunchOperands(s, args), w, floats))
    requires |floats| == |s.bufs[out].data| / 4
    ensures OnlyFloats(s, AfterLaunch(s, kernel, args, global, offset), out, floats)
  {
    var after := AfterLaunch(s, kernel, args, global, offset);
    LaunchKeepsIds(s, kernel, args, global, offset);
    LaunchDelivers(s, kernel, args, global, offset, w);
    OperandIs(s, args, w, out);
    FloatsOfWith(s.bufs[out].data, floats);
    forall id <- s.bufs | id != out ensures after.bufs[id].data == s.bufs[id].data {
      OtherIsWhole(s, kernel, args, global, offset, w, out, floats, id);
    }
  }

  lemma {:induction false} OtherIsWhole(s: VState, kernel: KernelFn, args: seq<LaunchArg>, global: seq<nat>,
                                        offset: seq<nat>, w: nat, out: string, floats: seq<Float32>, id: string)
    requires KeepsSizes(kernel) && Ready(s, args) && At(s, args, w, out) && id in s.bufs && id != out
    requires Outcome(kernel, args, s.bufs, global, offset) == Some(Wrote(LaunchOperands(s, args), w, floats))
    ensures id in AfterLaunch(s, kernel, args, global, offset).bufs
    ensures AfterLaunch(s, kernel, args, global, offset).bufs[id].data == s.bufs[id].data
  {
    var ids := BufferIds(args);
    assert ids[..|ids|] == ids;
    if id in ids {
      var sources, slots := LaunchSources(args, s.bufs), LaunchSlots(args, s.bufs);
      var p := ArgumentIsCopied(args, s.bufs, id);
      var f := Find(slots, p);
      if f < |slots| {
        assert LaunchOperands(s, args)[f] == Memory(sources[p].content);
      }
    }
  }

  /** Two states with the same buffer ids give a launch the same positions. */
  lemma {:induction false} SamePlaces(s: VState, t: VState, args: seq<LaunchArg>)
    requires s.bufs.Keys == t.bufs.Keys
    ensures Ready(s, args) <==> Ready(t, args)
    ensures forall i :: GivenInt(s, args, i) == GivenInt(t, args, i)
    ensures forall i, id :: At(s, args, i, id) <==> At(t, args, i, id)
    ensures forall i, id :: OutputAt(s, args, i, id) <==> OutputAt(t, args, i, id)
  {
    SameItems(Items(args, s.bufs), Items(args, t.bufs), |args|);
    forall id ensures LastOf(LaunchSources(args, s.bufs), id) == LastOf(LaunchSources(args, t.bufs), id) {
      SameLast(LaunchSources(args, s.bufs), LaunchSources(args, t.bufs), |LaunchSources(args, s.bufs)|, id);
    }
  }

  /** What matmul computes from the VRAM, if it runs. */
  function MatMulOutcome(s: VState, ops: Ops, args: seq<LaunchArg>, global: seq<nat>, offset: seq<nat>,
                         idA: string, idB: string, idC: string): Option<seq<Float32>>
    requires |global| >= 2 && idA in s.bufs && idB in s.bufs && idC in s.bufs
  {
    Multiplied(ops, In(s, idA), In(s, idB), In(s, idC), GivenInt(s, args, 3), global,
               K.OffsetAt(offset, 0), K.OffsetAt(offset, 1))
  }

  lemma {:induction false} OffsetsKept(offset: seq<nat>, dims: nat, d: nat)
    ensures K.OffsetAt(OffsetOf(offset, dims), d) == K.OffsetAt(offset, d)
  {
  }

  lemma {:induction false} MatMulAnswer(s: VState, ops: Ops, args: seq<LaunchArg>, global: seq<nat>, offset: seq<nat>,
                                        idA: string, idB: string, idC: string)
    requires |global| >= 2 && Ready(s, args) && At(s, args, 0, idA) && At(s, args, 1, idB) && OutputAt(s, args, 2, idC)
    ensures var operands := LaunchOperands(s, args);
            var result := MatMulOutcome(s, ops, args, global, offset, idA, idB, idC);
            MatMulKernel(ops, operands, global, OffsetOf(offset, |global|)) ==
            if result.None? then None else Some(Wrote(operands, 2, result.value))
  {
    ThreeOperands(s, args, idA, idB, idC);
    OffsetsKept(offset, |global|, 0);
    OffsetsKept(offset, |global|, 1);
  }

  /** C[row0.., col0..] gets the product of A and B, which keep every byte, or nothing happens at all. */
  lemma {:induction false} MatMulLaunch(s: VState, ops: Ops, rest: string -> KernelFn, name: string,
                                        args: seq<LaunchArg>, global: seq<nat>, offset: seq<nat>,
                                        idA: string, idB: string, idC: string)
    requires IsMatMul(name) && Ready(s, args) && |global| >= 2
    requires At(s, args, 0, idA) && At(s, args, 1, idB) && OutputAt(s, args, 2, idC)
    ensures KeepsSizes(KernelNamed(ops, rest, name))
    ensures var after := AfterLaunch(s, KernelNamed(ops, rest, name), args, global, offset);
            var a, b, c, m, n := In(s, idA), In(s, idB), In(s, idC), global[0], K.Columns(global[1]);
            var dimK := K.InnerDim(GivenInt(s, args, 3), m, n, |a|, |b|);
            var row0, col0 := K.OffsetAt(offset, 0), K.OffsetAt(offset, 1);
            if K.MatMulStatus(|a|, |b|, |c|, m, n, dimK).Ok?
               && K.MatMulInBounds(|a|, |b|, |c|, m, n, dimK, row0, col0)
            then OnlyFloats(s, after, idC, K.MatMulRange(ops, a, b, c, dimK, n, row0, col0, m))
                 && K.ProductLeft(ops, a, b, c, In(after, idC), dimK, n, row0, col0, m)
            else after == s
  {
    var kernel, outcome := KernelNamed(ops, rest, name), MatMulOutcome(s, ops, args, global, offset, idA, idB, idC);
    NamedKeepsSizes(ops, rest, name);
    MatMulAnswer(s, ops, args, global, offset, idA, idB, idC);
    MatMulIsNamed(ops, rest, name, LaunchOperands(s, args), global, OffsetOf(offset, |global|));
    if outcome.Some? {
      WritesOneBuffer(s, kernel, args, global, offset, 2, idC, outcome.value);
      var a, b, c, m, n := In(s, idA), In(s, idB), In(s, idC), global[0], K.Columns(global[1]);
      K.RangeIsProduct(ops, a, b, c, K.InnerDim(GivenInt(s, args, 3), m, n, |a|, |b|), n,
                       K.OffsetAt(offset, 0), K.OffsetAt(offset, 1), m);
    }
  }

  /** Without a global size the default has one dimension, and a matmul launch never answers. */
  lemma {:induction false} MatMulNeedsTwoDimensions(s: VState, ops: Ops, rest: string -> KernelFn, name: string,
                                                    args: seq<LaunchArg>, global: seq<nat>, offset: seq<nat>)
    requires IsMatMul(name) && |global| < 2
    ensures Outcome(KernelNamed(ops, rest, name), args, s.bufs, global, offset).None?
  {
    var g := GlobalOf(global, BufferIds(args), s.bufs);
    MatMulIsNamed(ops, rest, name, LaunchOperands(s, args), g, OffsetOf(offset, |g|));
  }

  /** What vector_add computes from the VRAM, if it runs; the default size is the first buffer's. */
  function AddOutcome(s: VState, ops: Ops, args: seq<LaunchArg>, g: seq<nat>, offset: seq<nat>,
                      idA: string, idB: string, idC: string): Option<seq<Float32>>
    requires g != [] && idA in s.bufs && idB in s.bufs && idC in s.bufs
  {
    Added(ops, In(s, idA), In(s, idB), In(s, idC), GivenInt(s, args, 3), g, K.OffsetAt(offset, 0))
  }

  /** C[offset..] gets the sums, and A and B keep every byte, or nothing happens at all. */
  lemma {:induction false} VectorAddLaunch(s: VState, ops: Ops, rest: string -> KernelFn, args: seq<LaunchArg>,
                                           global: seq<nat>, offset: seq<nat>, idA: string, idB: string, idC: string)
    requires Ready(s, args)
    requires At(s, args, 0, idA) && At(s, args, 1, idB) && OutputAt(s, args, 2, idC)
    ensures KeepsSizes(KernelNamed(ops, rest, "vector_add")) && GlobalOf(global, BufferIds(args), s.bufs) != []
    ensures var after := AfterLaunch(s, KernelNamed(ops, rest, "vector_add"), args, global, offset);
            var g := GlobalOf(global, BufferIds(args), s.bufs);
            var sums := AddOutcome(s, ops, args, g, offset, idA, idB, idC);
            var n := if GivenInt(s, args, 3).Some? then GivenInt(s, args, 3).value else g[0];
      && (if sums.Some? then OnlyFloats(s, after, idC, sums.value) else after == s)
      && (sums.Some? ==> SumsLeft(ops, In(s, idA), In(s, idB), In(s, idC), sums.value, n, K.OffsetAt(offset, 0)))
  {
    var kernel, g := KernelNamed(ops, rest, "vector_add"), GlobalOf(global, BufferIds(args), s.bufs);
    FirstIsReady(s, args, idA);
    NamedKeepsSizes(ops, rest, "vector_add");
    var sums := AddOutcome(s, ops, args, g, offset, idA, idB, idC);
    AddOutcomeIs(s, ops, args, g, offset, idA, idB, idC);
    AddedAnswer(ops, In(s, idA), In(s, idB), In(s, idC), GivenInt(s, args, 3), g, K.OffsetAt(offset, 0));
    var operands := LaunchOperands(s, args);
    assert kernel(operands, g, OffsetOf(offset, |g|)) == VectorAddKernel(ops, operands, g, OffsetOf(offset, |g|));
    if sums.Some? {
      WritesOneBuffer(s, kernel, args, global, offset, 2, idC, sums.value);
    }
  }

  lemma {:induction false} FirstIsReady(s: VState, args: seq<LaunchArg>, id: string)
    requires Ready(s, args) && At(s, args, 0, id)
    ensures BufferIds(args) != [] && BufferIds(args)[0] in s.bufs
  {
    SourcesAre(args, s.bufs, |args|);
  }

  lemma {:induction false} AddOutcomeIs(s: VState, ops: Ops, args: seq<LaunchArg>, g: seq<nat>, offset: seq<nat>,
                                        idA: string, idB: string, idC: string)
    requires g != [] && Ready(s, args) && At(s, args, 0, idA) && At(s, args, 1, idB) && OutputAt(s, args, 2, idC)
    ensures var operands, sums := LaunchOperands(s, args), AddOutcome(s, ops, args, g, offset, idA, idB, idC);
            VectorAddKernel(ops, operands, g, OffsetOf(offset, |g|)) ==
            if sums.None? then None else Some(Wrote(operands, 2, sums.value))
  {
    var operands := LaunchOperands(s, args);
    ThreeOperands(s, args, idA, idB, idC);
    OffsetsKept(offset, |g|, 0);
    AddSees(ops, operands, g, OffsetOf(offset, |g|), K.OffsetAt(offset, 0),
            In(s, idA), In(s, idB), In(s, idC), GivenInt(s, args, 3));
  }

  lemma {:induction false} ThreeOperands(s: VState, args: seq<LaunchArg>, idA: string, idB: string, idC: string)
    requires Ready(s, args) && At(s, args, 0, idA) && At(s, args, 1, idB) && At(s, args, 2, idC)
    ensures var operands := LaunchOperands(s, args);
      && Buffers(operands, 3) && IntArg(operands, 3) == GivenInt(s, args, 3)
      && FloatsOf(operands, 0) == In(s, idA) && FloatsOf(operands, 1) == In(s, idB)
      && FloatsOf(operands, 2) == In(s, idC)
  {
    OperandIs(s, args, 0, idA);
    OperandIs(s, args, 1, idB);
    OperandIs(s, args, 2, idC);
    IntArgIs(s, args, 3);
  }

  /** The output buffer gets the transposed floats, and no other byte changes. */
  lemma {:induction false} TransposeLaunch(s: VState, ops: Ops, rest: string -> KernelFn, args: seq<LaunchArg>,
                                           global: seq<nat>, offset: seq<nat>, input: string, output: string)
    requires Ready(s, args) && At(s, args, 0, input) && OutputAt(s, args, 1, output)
    requires |global| >= 2 && global[0] > 0 && global[1] > 0
    ensures KeepsSizes(KernelNamed(ops, rest, "transpose"))
    ensures OnlyFloats(s, AfterLaunch(s, KernelNamed(ops, rest, "transpose"), args, global, offset), output,
                       K.Transposed(In(s, input), In(s, output), global[0], global[1]))
  {
    var kernel, operands := KernelNamed(ops, rest, "transpose"), LaunchOperands(s, args);
    NamedKeepsSizes(ops, rest, "transpose");
    OperandIs(s, args, 0, input);
    OperandIs(s, args, 1, output);
    assert kernel(operands, global, OffsetOf(offset, |global|)) == TransposeKernel(operands, global);
    WritesOneBuffer(s, kernel, args, global, offset, 1, output,
                    K.Transposed(In(s, input), In(s, output), global[0], global[1]));
  }

  /**
   * Launching transpose there and, with the sizes swapped, back restores the matrix; `back` may be `input`. The engine
   * starts with `k` buffers numbered without gaps, and the first launch makes its superseded copies first.
   */
  lemma {:induction false} TransposeThereAndBack(s: VState, ops: Ops, rest: string -> KernelFn,
                                                 there: Launch, again: Launch, rows: nat, cols: nat,
                                                 input: string, mid: string, back: string, k: nat)
    requires there.kernel == again.kernel == KernelNamed(ops, rest, "transpose") && rows > 0 && cols > 0
    requires there.global == [rows, cols] && again.global == [cols, rows]
    requires Ready(s, there.args)
    requires At(s, there.args, 0, input) && OutputAt(s, there.args, 1, mid)
    requires Ready(s, again.args)
    requires At(s, again.args, 0, mid) && OutputAt(s, again.args, 1, back)
    requires |In(s, input)| >= rows * cols && |In(s, mid)| >= rows * cols && |In(s, back)| >= rows * cols
    requires input != mid && mid != back && RepeatsFirst(LaunchSources(there.args, s.bufs))
    ensures AllProper([there, again]) && HasRooms(s, Upto(k), [there, again])
    ensures var after := RunLaunches(s, [there, again]);
      && back in after.bufs && 0 <= rows * cols <= |In(after, back)|
      && In(after, back)[..rows * cols] == In(s, input)[..rows * cols]
      && In(after, back)[rows * cols..] == In(s, back)[rows * cols..]
  {
    TransposeLaunch(s, ops, rest, there.args, there.global, there.offset, input, mid);
    var between := AfterLaunch(s, there.kernel, there.args, there.global, there.offset);
    SamePlaces(s, between, again.args);
    TransposeLaunch(between, ops, rest, again.args, again.global, again.offset, mid, back);
    var launches := [there, again];
    forall i | 0 <= i < |launches| ensures Proper(launches[i]) {
    }
    TwoLaunches(s, there, again);
    TidyHasRooms(s, k, launches);
    K.TransposeInvolution(In(s, input), In(s, mid), In(s, back), rows, cols);
  }

  lemma {:induction false} TwoLaunches(s: VState, first: Launch, second: Launch)
    requires AllProper([first, second])
    ensures Proper(first) && Proper(second)
    ensures var between := AfterLaunch(s, first.kernel, first.args, first.global, first.offset);
            RunLaunches(s, [first, second])
            == AfterLaunch(between, second.kernel, second.args, second.global, second.offset)
    ensures TidyRun(s, [first, second]) <==>
            (Succeeds(s, first) ==> RepeatsFirst(LaunchSources(first.args, s.bufs)))
  {
    var launches := [first, second];
    assert launches[0] == first && launches[1] == second && launches[1..] == [second] && launches[1..][1..] == [];
    assert Proper(launches[0]) && Proper(launches[1]);
    var between := AfterLaunch(s, first.kernel, first.args, first.global, first.offset);
    assert RunLaunches(s, launches) == RunLaunches(between, launches[1..]);
    assert RunLaunches(between, [second])
        == RunLaunches(AfterLaunch(between, second.kernel, second.args, second.global, second.offset), [second][1..]);
  }

  // ── Launches in a row ──

  /** The subtasks of a split, each launched as it stands. */
  function SubLaunches(kernel: KernelFn, args: seq<LaunchArg>, subs: seq<SubTask>): seq<Launch> {
    seq(|subs|, i requires 0 <= i < |subs| => Launch(kernel, args, subs[i].globalSize, subs[i].globalOffset))
  }

  /** The subtask runs whole rows of a matmul within the buffers. */
  ghost predicate RowsFit(sub: SubTask, lenA: nat, lenB: nat, lenC: nat, n: nat, dimK: int) {
    && |sub.globalSize| == |sub.globalOffset| == 2 && sub.globalOffset[1] == 0 && K.Columns(sub.globalSize[1]) == n
    && K.MatMulStatus(lenA, lenB, lenC, sub.globalSize[0], n, dimK).Ok?
    && K.MatMulInBounds(lenA, lenB, lenC, sub.globalSize[0], n, dimK, sub.globalOffset[0], 0)
  }

  lemma {:induction false} SubLaunchesProper(kernel: KernelFn, args: seq<LaunchArg>, subs: seq<SubTask>)
    requires KeepsSizes(kernel)
    ensures AllProper(SubLaunches(kernel, args, subs))
  {
    var launches := SubLaunches(kernel, args, subs);
    forall i | 0 <= i < |launches| ensures Proper(launches[i]) {
    }
  }

  lemma {:induction false} FewerSubs(kernel: KernelFn, args: seq<LaunchArg>, subs: seq<SubTask>)
    requires subs != [] && forall i | 0 <= i < |subs| :: |subs[i].globalSize| == |subs[i].globalOffset| == 2
    ensures SubLaunches(kernel, args, subs)[1..] == SubLaunches(kernel, args, subs[1..])
    ensures AxisRanges(subs, 0)[1..] == AxisRanges(subs[1..], 0)
  {
  }

  /** The launch multiplies A and B into C with a given inner dimension. */
  predicate Multiplies(s: VState, args: seq<LaunchArg>, dimK: int, idA: string, idB: string, idC: string) {
    && Ready(s, args) && At(s, args, 0, idA) && At(s, args, 1, idB) && OutputAt(s, args, 2, idC)
    && dimK != 0 && GivenInt(s, args, 3) == Some(dimK)
  }

  /** One row range. */
  lemma {:induction false} RowLaunch(s: VState, ops: Ops, rest: string -> KernelFn, name: string, args: seq<LaunchArg>,
                                     sub: SubTask, n: nat, dimK: int, idA: string, idB: string, idC: string)
    requires IsMatMul(name) && Multiplies(s, args, dimK, idA, idB, idC) && n > 0
    requires RowsFit(sub, |In(s, idA)|, |In(s, idB)|, |In(s, idC)|, n, dimK)
    ensures KeepsSizes(KernelNamed(ops, rest, name))
    ensures var after := AfterLaunch(s, KernelNamed(ops, rest, name), args, sub.globalSize, sub.globalOffset);
      && OnlyFloats(s, after, idC, K.MatMulRange(ops, In(s, idA), In(s, idB), In(s, idC), dimK, n,
                                                 sub.globalOffset[0], 0, sub.globalSize[0]))
      && Multiplies(after, args, dimK, idA, idB, idC)
  {
    MatMulLaunch(s, ops, rest, name, args, sub.globalSize, sub.globalOffset, idA, idB, idC);
    SamePlaces(s, AfterLaunch(s, KernelNamed(ops, rest, name), args, sub.globalSize, sub.globalOffset), args);
  }

  /** Launching row ranges one after another leaves in C what the kernel runs compose to. */
  lemma {:induction false} RowLaunches(s: VState, ops: Ops, rest: string -> KernelFn, name: string,
                                       args: seq<LaunchArg>, subs: seq<SubTask>, n: nat, dimK: int,
                                       idA: string, idB: string, idC: string)
    requires IsMatMul(name) && Multiplies(s, args, dimK, idA, idB, idC) && n > 0 && idA != idC && idB != idC
    requires SubsFit(subs, |In(s, idA)|, |In(s, idB)|, |In(s, idC)|, n, dimK)
    ensures AllProper(SubLaunches(KernelNamed(ops, rest, name), args, subs))
    ensures OnlyFloats(s, RunLaunches(s, SubLaunches(KernelNamed(ops, rest, name), args, subs)), idC,
                       K.RunRows(ops, In(s, idA), In(s, idB), In(s, idC), dimK, n, AxisRanges(subs, 0)))
    decreases |subs|
  {
    var kernel := KernelNamed(ops, rest, name);
    NamedKeepsSizes(ops, rest, name);
    SubLaunchesProper(kernel, args, subs);
    if subs != [] {
      var sub := subs[0];
      assert RowsFit(sub, |In(s, idA)|, |In(s, idB)|, |In(s, idC)|, n, dimK);
      FewerSubs(kernel, args, subs);
      RowLaunch(s, ops, rest, name, args, sub, n, dimK, idA, idB, idC);
      var mid := AfterLaunch(s, kernel, args, sub.globalSize, sub.globalOffset);
      RowLaunches(mid, ops, rest, name, args, subs[1..], n, dimK, idA, idB, idC);
    }
  }

  /** Each subtask runs whole rows within the buffers. */
  ghost predicate SubsFit(subs: seq<SubTask>, lenA: nat, lenB: nat, lenC: nat, n: nat, dimK: int) {
    && (forall i | 0 <= i < |subs| :: |subs[i].globalSize| == |subs[i].globalOffset| == 2)
    && (forall i | 0 <= i < |subs| :: RowsFit(subs[i], lenA, lenB, lenC, n, dimK))
  }

  /** In C the product's entry stands in each cell of a covered row, and no other byte of the VRAM has changed. */
  ghost predicate HoldsRows(s: VState, after: VState, ops: Ops, ranges: seq<Share>, n: nat, dimK: int,
                            idA: string, idB: string, idC: string)
    requires idA in s.bufs && idB in s.bufs && idC in s.bufs && n > 0
  {
    && idC in after.bufs && OnlyFloats(s, after, idC, In(after, idC)) && |In(after, idC)| == |In(s, idC)|
    && forall i | 0 <= i < |In(s, idC)| ::
         if K.InSome(ranges, i / n)
         then In(after, idC)[i] == K.ProductCell(ops, In(s, idA), In(s, idB), dimK, n, i)
              && K.IsEntry(ops, In(s, idA), In(s, idB), dimK, n, i / n, i % n, In(after, idC)[i])
         else In(after, idC)[i] == In(s, idC)[i]
  }

  /** A covered row is one that a subtask could compute. */
  lemma {:induction false} CoveredIsEntry(ops: Ops, a: seq<Float32>, b: seq<Float32>, subs: seq<SubTask>, lenC: nat,
                                          n: nat, dimK: int, i: nat)
    requires SubsFit(subs, |a|, |b|, lenC, n, dimK) && n > 0 && K.InSome(AxisRanges(subs, 0), i / n)
    ensures K.IsEntry(ops, a, b, dimK, n, i / n, i % n, K.ProductCell(ops, a, b, dimK, n, i))
  {
    var k :| 0 <= k < |subs| && AxisRanges(subs, 0)[k].Has(i / n);
    assert RowsFit(subs[k], |a|, |b|, lenC, n, dimK);
    var row0 := subs[k].globalOffset[0];
    RowFits(|a|, |b|, lenC, subs[k].globalSize[0], n, dimK, row0, i / n, i % n);
    K.DotIsEntry(ops, a, b, dimK, n, i / n, i % n);
  }

  lemma {:induction false} RowFits(lenA: nat, lenB: nat, lenC: nat, m: nat, n: nat, dimK: int, row0: nat, row: nat,
                                   col: nat)
    requires n > 0 && K.MatMulInBounds(lenA, lenB, lenC, m, n, dimK, row0, 0) && row0 <= row < row0 + m && col < n
    ensures K.ReadsFit(lenA, lenB, dimK, n, row, col)
  {
    var t := (row - row0) * n + col;
    CellBound(row - row0, col, m, n);
    K.CellPlace(n, row0, 0, row - row0, col, t);
    K.CellInside(lenA, lenB, lenC, m, n, dimK, row0, 0, t);
  }

  /** On an engine with `k` buffers numbered without gaps. */
  lemma {:induction false} SubsHaveRoom(s: VState, kernel: KernelFn, args: seq<LaunchArg>, subs: seq<SubTask>, k: nat)
    requires AllProper(SubLaunches(kernel, args, subs))
    requires |subs| <= 1 || RepeatsFirst(LaunchSources(args, s.bufs))
    ensures HasRooms(s, Upto(k), SubLaunches(kernel, args, subs))
  {
    var launches := SubLaunches(kernel, args, subs);
    if |subs| > 1 {
      AllRepeatFirstIsTidy(s, launches);
    }
    TidyHasRooms(s, k, launches);
  }

  lemma {:induction false} FirstTwoRooms(s: VState, nums: set<nat>, launches: seq<Launch>)
    requires AllProper(launches) && |launches| > 1 && HasRooms(s, nums, launches)
    ensures AllProper([launches[0], launches[1]]) && HasRooms(s, nums, [launches[0], launches[1]])
  {
    var l, rest := launches[0], launches[1..];
    RestProper(launches);
    RestProper(rest);
    assert rest[0] == launches[1];
    var two := [l, launches[1]];
    forall i | 0 <= i < |two| ensures Proper(two[i]) {
    }
    TwoRooms(s, nums, l, launches[1]);
  }

  lemma {:induction false} RowSucceeds(s: VState, ops: Ops, rest: string -> KernelFn, name: string,
                                       args: seq<LaunchArg>, sub: SubTask, n: nat, dimK: int,
                                       idA: string, idB: string, idC: string)
    requires IsMatMul(name) && Multiplies(s, args, dimK, idA, idB, idC) && n > 0
    requires RowsFit(sub, |In(s, idA)|, |In(s, idB)|, |In(s, idC)|, n, dimK)
    ensures Succeeds(s, Launch(KernelNamed(ops, rest, name), args, sub.globalSize, sub.globalOffset))
  {
    MatMulAnswer(s, ops, args, sub.globalSize, sub.globalOffset, idA, idB, idC);
    MatMulIsNamed(ops, rest, name, LaunchOperands(s, args), sub.globalSize,
                  OffsetOf(sub.globalOffset, |sub.globalSize|));
  }

  /** Row ranges launched on an engine without gaps all find room exactly under the condition of the lemmas below. */
  lemma {:induction false} SubsHaveRoomIff(s: VState, ops: Ops, rest: string -> KernelFn, name: string,
                                           args: seq<LaunchArg>, subs: seq<SubTask>, n: nat, dimK: int,
                                           idA: string, idB: string, idC: string, k: nat)
    requires IsMatMul(name) && Multiplies(s, args, dimK, idA, idB, idC) && n > 0
    requires SubsFit(subs, |In(s, idA)|, |In(s, idB)|, |In(s, idC)|, n, dimK)
    ensures AllProper(SubLaunches(KernelNamed(ops, rest, name), args, subs))
    ensures HasRooms(s, Upto(k), SubLaunches(KernelNamed(ops, rest, name), args, subs)) <==>
            |subs| <= 1 || RepeatsFirst(LaunchSources(args, s.bufs))
  {
    var kernel := KernelNamed(ops, rest, name);
    NamedKeepsSizes(ops, rest, name);
    SubLaunchesProper(kernel, args, subs);
    var launches := SubLaunches(kernel, args, subs);
    if |subs| <= 1 || RepeatsFirst(LaunchSources(args, s.bufs)) {
      SubsHaveRoom(s, kernel, args, subs, k);
    } else {
      RowSucceeds(s, ops, rest, name, args, subs[0], n, dimK, idA, idB, idC);
      if HasRooms(s, Upto(k), launches) {
        FirstTwoRooms(s, Upto(k), launches);
        SecondHasRoomIff(s, k, launches[0], launches[1]);
      }
    }
  }

  /** Row ranges launched one after another; when they tile the rows, C is what one launch over all would leave. */
  lemma {:induction false} RangesLaunched(s: VState, ops: Ops, rest: string -> KernelFn, name: string,
                                          args: seq<LaunchArg>, subs: seq<SubTask>, m: nat, n: nat, dimK: int,
                                          idA: string, idB: string, idC: string, k: nat)
    requires IsMatMul(name) && Multiplies(s, args, dimK, idA, idB, idC) && n > 0 && idA != idC && idB != idC
    requires SubsFit(subs, |In(s, idA)|, |In(s, idB)|, |In(s, idC)|, n, dimK)
    requires |subs| <= 1 || RepeatsFirst(LaunchSources(args, s.bufs))
    ensures AllProper(SubLaunches(KernelNamed(ops, rest, name), args, subs))
    ensures HasRooms(s, Upto(k), SubLaunches(KernelNamed(ops, rest, name), args, subs))
    ensures var after := RunLaunches(s, SubLaunches(KernelNamed(ops, rest, name), args, subs));
            && HoldsRows(s, after, ops, AxisRanges(subs, 0), n, dimK, idA, idB, idC)
            && (Tiles(AxisRanges(subs, 0), m) ==>
                  In(after, idC) == K.MatMulRange(ops, In(s, idA), In(s, idB), In(s, idC), dimK, n, 0, 0, m))
  {
    var a, b, c := In(s, idA), In(s, idB), In(s, idC);
    RowLaunches(s, ops, rest, name, args, subs, n, dimK, idA, idB, idC);
    SubsHaveRoom(s, KernelNamed(ops, rest, name), args, subs, k);
    forall i | 0 <= i < |c|
      ensures K.RunRows(ops, a, b, c, dimK, n, AxisRanges(subs, 0))[i] ==
              if K.InSome(AxisRanges(subs, 0), i / n) then K.ProductCell(ops, a, b, dimK, n, i) else c[i]
    {
      K.RunRowsCell(ops, a, b, c, dimK, n, AxisRanges(subs, 0), i);
    }
    forall i | 0 <= i < |c| && K.InSome(AxisRanges(subs, 0), i / n)
      ensures K.IsEntry(ops, a, b, dimK, n, i / n, i % n, K.ProductCell(ops, a, b, dimK, n, i))
    {
      CoveredIsEntry(ops, a, b, subs, |c|, n, dimK, i);
    }
    if Tiles(AxisRanges(subs, 0), m) {
      K.TiledRunsAreWhole(ops, a, b, c, dimK, n, m, AxisRanges(subs, 0));
    }
  }

  /** The buffers hold an M x N product of inner dimension `dimK`. */
  predicate MatricesFit(task: ComputeTask, lenA: nat, lenB: nat, lenC: nat, dimK: int)
    requires |task.globalSize| == 2
  {
    var m, n := task.globalSize[0], K.Columns(task.globalSize[1]);
    m * n <= lenC && m * dimK <= lenA && dimK * n <= lenB
  }

  lemma {:induction false} SplitSubsFit(ops: Ops, a: seq<Float32>, b: seq<Float32>, c: seq<Float32>,
                                        task: ComputeTask, ws: seq<WorkerInfo>, cap: real, dimK: int)
    requires task.workDim == 2 == |task.globalSize| && task.globalSize[0] >= task.globalSize[1] && dimK != 0
    requires NonNegative(ws) && cap == SumScores(ws) && MatricesFit(task, |a|, |b|, |c|, dimK)
    ensures var split := SplitResult(task, ws, cap);
            split.Ok? ==> SubsFit(split.value, |a|, |b|, |c|, K.Columns(task.globalSize[1]), dimK)
  {
    var split := SplitResult(task, ws, cap);
    if split.Ok? {
      K.SplitMatMul(ops, a, b, c, dimK, task, ws, cap);
      forall i | 0 <= i < |split.value|
        ensures RowsFit(split.value[i], |a|, |b|, |c|, K.Columns(task.globalSize[1]), dimK)
      {
        assert split.value[i] in split.value;
      }
    }
  }

  /** The split of an M x N matmul with M >= N, whose buffers are large enough. */
  ghost predicate RowSplit(task: ComputeTask, ws: seq<WorkerInfo>, subs: seq<SubTask>, lenA: nat, lenB: nat, lenC: nat,
                           dimK: int)
  {
    && task.workDim == 2 == |task.globalSize| && task.globalSize[0] >= task.globalSize[1]
    && NonNegative(ws) && SplitResult(task, ws, SumScores(ws)) == Ok(subs)
    && MatricesFit(task, lenA, lenB, lenC, dimK)
  }

  /**
   * So the subtasks of a split M x N matmul with M >= N and K given, launched one after another on the same VRAM, leave
   * the product in the rows they cover, and when the split tiles the axis all of what the unsplit launch would leave.
   * The engine starts with `k` buffers numbered without gaps, and the launch makes its superseded copies first.
   */
  lemma {:induction false} SplitLaunches(s: VState, ops: Ops, rest: string -> KernelFn, name: string,
                                         args: seq<LaunchArg>, task: ComputeTask, ws: seq<WorkerInfo>,
                                         subs: seq<SubTask>, dimK: int, idA: string, idB: string, idC: string,
                                         k: nat)
    requires IsMatMul(name) && Multiplies(s, args, dimK, idA, idB, idC) && idA != idC && idB != idC
    requires |subs| <= 1 || RepeatsFirst(LaunchSources(args, s.bufs))
    ensures RowSplit(task, ws, subs, |In(s, idA)|, |In(s, idB)|, |In(s, idC)|, dimK) ==>
      && var m, n := task.globalSize[0], K.Columns(task.globalSize[1]);
         var launches := SubLaunches(KernelNamed(ops, rest, name), args, subs);
      && SubsFit(subs, |In(s, idA)|, |In(s, idB)|, |In(s, idC)|, n, dimK) && AllProper(launches)
      && HasRooms(s, Upto(k), launches)
      && HoldsRows(s, RunLaunches(s, launches), ops, AxisRanges(subs, 0), n, dimK, idA, idB, idC)
      && (Tiles(AxisRanges(subs, 0), m) ==>
            In(RunLaunches(s, launches), idC)
            == K.MatMulRange(ops, In(s, idA), In(s, idB), In(s, idC), dimK, n, 0, 0, m))
  {
    if RowSplit(task, ws, subs, |In(s, idA)|, |In(s, idB)|, |In(s, idC)|, dimK) {
      SplitSubsFit(ops, In(s, idA), In(s, idB), In(s, idC), task, ws, SumScores(ws), dimK);
      RangesLaunched(s, ops, rest, name, args, subs, task.globalSize[0], K.Columns(task.globalSize[1]), dimK,
                     idA, idB, idC, k);
    }
  }

  // ── A run that goes wrong ──

  /** C = A * A with K = 1, passing C first. */
  function SquareArgs(idA: string, idC: string): seq<LaunchArg> {
    [BufferArg(2, idC), BufferArg(0, idA), BufferArg(1, idA), ScalarArg(3, [1, 0, 0, 0])]
  }

  /** What these arguments bind. */
  lemma {:induction false} SquareBinds(s: VState, idA: string, idC: string)
    requires idA in s.bufs && idC in s.bufs
    ensures BufferIds(SquareArgs(idA, idC)) == [idC, idA, idA]
    ensures LaunchSources(SquareArgs(idA, idC), s.bufs) ==
            [Source(idC, s.bufs[idC].data), Source(idA, s.bufs[idA].data), Source(idA, s.bufs[idA].data)]
    ensures LaunchSlots(SquareArgs(idA, idC), s.bufs) == [Ref(1), Ref(2), Ref(0), Val([1, 0, 0, 0])]
  {
    var args := SquareArgs(idA, idC);
    var items := Items(args, s.bufs);
    var c, a := Source(idC, s.bufs[idC].data), Source(idA, s.bufs[idA].data);
    assert IdsTo(args, 0) == [] && IdsTo(args, 1) == [idC] && IdsTo(args, 2) == [idC, idA];
    assert IdsTo(args, 3) == [idC, idA, idA] && IdsTo(args, 4) == [idC, idA, idA];
    assert SourcesTo(items, 0) == [] && SourcesTo(items, 1) == [c] && SourcesTo(items, 2) == [c, a];
    assert SourcesTo(items, 3) == [c, a, a] && SourcesTo(items, 4) == [c, a, a];
    assert SlotsTo(items, 0) == [] && SlotsTo(items, 1) == [Val([]), Val([]), Ref(0)];
    assert SlotsTo(items, 2) == [Ref(1), Val([]), Ref(0)] && SlotsTo(items, 3) == [Ref(1), Ref(2), Ref(0)];
    assert SlotsTo(items, 4) == [Ref(1), Ref(2), Ref(0), Val([1, 0, 0, 0])];
  }

  lemma {:induction false} SquareShape(s: VState, idA: string, idC: string)
    requires idA in s.bufs && idC in s.bufs
    ensures var sources := LaunchSources(SquareArgs(idA, idC), s.bufs);
            var slots := LaunchSlots(SquareArgs(idA, idC), s.bufs);
      && |sources| == 3 && sources[2].content == s.bufs[idA].data
      && |slots| == 4 && forall i | 0 <= i < 3 :: slots[i].Ref?
  {
    SquareBinds(s, idA, idC);
  }

  /** The arguments ask for a product. */
  lemma {:induction false} SquareMultiplies(s: VState, idA: string, idC: string)
    requires idA in s.bufs && idC in s.bufs && idA != idC
    ensures Multiplies(s, SquareArgs(idA, idC), 1, idA, idA, idC)
  {
    SquareBinds(s, idA, idC);
    var sources := LaunchSources(SquareArgs(idA, idC), s.bufs);
    OrderMatters(sources[0], sources[1], sources[2]);
    assert Lasts(sources)[0];
    OneIsOne();
  }

  lemma {:induction false} OneIsOne()
    ensures Int32Of([1, 0, 0, 0]) == 1
  {
  }

  /** They leave a gap behind, and the next three copies all get one number. */
  lemma {:induction false} SquareLeavesGap(s: VState, idA: string, idC: string, k: nat)
    requires idA in s.bufs && idC in s.bufs && idA != idC
    ensures var sources := LaunchSources(SquareArgs(idA, idC), s.bufs);
            !RepeatsFirst(sources) && FreeCount(NumsLeft(Upto(k), sources, 3, true), 3) == 0
  {
    SquareBinds(s, idA, idC);
    var sources := LaunchSources(SquareArgs(idA, idC), s.bufs);
    OrderMatters(sources[0], sources[1], sources[2]);
    GapLeft(k);
  }

  lemma {:induction false} GapLeft(k: nat)
    ensures FreeCount(NumsAfter(Upto(k), [true, false, true]), 3) == 0
  {
    var lasts := [true, false, true];
    CountAfter(k, lasts);
    assert Superseded(lasts, 0) == 0 && Superseded(lasts, 1) == 0 && Superseded(lasts, 2) == 1;
    AfterIs(k, lasts, k + 2);
    assert NewNum(NumsAfter(Upto(k), lasts), 0) == k + 2;
  }

  /**
   * So when the same launch comes again, no position has a copy of its own: all three, C's too, are bound to the second
   * copy of A. The kernel writes its product over A's copy, and C's copy goes back to VRAM as it came.
   */
  lemma {:induction false} SecondSquareSeesOnlyA(engine: GoEngine, before: map<Bytes, GoBuffer>, copies: seq<GoBuffer>,
                                                 kargs: seq<KernelArg>, s: VState, idA: string, idC: string, k: nat)
    requires idA in s.bufs && idC in s.bufs && idA != idC
    requires Copied(copies, LaunchSources(SquareArgs(idA, idC), s.bufs)) && AllDiffer(copies)
    requires var nums := NumsLeft(Upto(k), LaunchSources(SquareArgs(idA, idC), s.bufs), 3, true);
             Makes(before, nums, copies, engine.buffers)
    requires Matches(kargs, LaunchSlots(SquareArgs(idA, idC), s.bufs), copies)
    ensures |kargs| == 4 && forall i | 0 <= i < 3 :: engine.Resolve(kargs[i]) == Memory(s.bufs[idA].data)
    ensures |copies| == 3 && forall b <- engine.Referenced(kargs) :: b == copies[2]
  {
    SquareShape(s, idA, idC);
    SquareLeavesGap(s, idA, idC, k);
    var sources, slots := LaunchSources(SquareArgs(idA, idC), s.bufs), LaunchSlots(SquareArgs(idA, idC), s.bufs);
    AllShared(engine, before, NumsLeft(Upto(k), sources, 3, true), copies, kargs, slots, sources);
  }
}
