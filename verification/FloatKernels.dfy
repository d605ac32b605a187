/**
 * cmd/worker/engine/fallback.go: the kernels as the engine runs them, on buffers of little-endian floats and chosen
 * by name.
 */
module FloatKernels {
  import opened Common
  import opened Engine
  import opened KvCacheSpec
  import K = Kernels

  type Ops = K.FloatOps<Float32>

  // ── Buffers as floats ──

  /** The floats a buffer's bytes spell; a rest of up to three bytes is not part of any. */
  function AllFloats(b: Bytes): (r: seq<Float32>)
    ensures |r| == |b| / 4
  {
    Floats(b, |b| / 4)
  }

  /** The buffer `b` with its floats replaced. */
  function WithFloats(b: Bytes, floats: seq<Float32>): (r: Bytes)
    ensures |r| == |b|
  {
    PutFloats(b, 0, floats, |floats|)
  }

  /** Equal in length and in the bytes past the last whole float. */
  predicate SameRest(a: Bytes, b: Bytes) { |a| == |b| && a[|a| / 4 * 4..] == b[|b| / 4 * 4..] }

  lemma {:induction false} RestKept(b: Bytes, floats: seq<Float32>, n: nat, from: nat)
    requires n <= |floats| && 4 * n <= from <= |b|
    ensures PutFloats(b, 0, floats, n)[from..] == b[from..]
  {
    if n > 0 {
      RestKept(b, floats, n - 1, from);
    }
  }

  lemma {:induction false} FloatsOfWith(b: Bytes, floats: seq<Float32>)
    requires |floats| == |b| / 4
    ensures AllFloats(WithFloats(b, floats)) == floats && SameRest(WithFloats(b, floats), b)
  {
    RestKept(b, floats, |floats|, |b| / 4 * 4);
    forall q | 0 <= q < |floats| ensures AllFloats(WithFloats(b, floats))[q] == floats[q] {
      VectorAt(b, 0, floats, |floats|, q);
    }
  }

  /** bytesToInt32: signed, and 0 when there are fewer than four bytes. */
  function Int32Of(b: Bytes): int {
    if |b| < 4 then 0
    else
      var bits := FloatOf(b[..4]);
      if bits < 0x8000_0000 then bits else bits - 0x1_0000_0000
  }

  /** Two's complement, the low byte first. */
  lemma {:induction false} Int32Signed(b: Bytes)
    ensures -0x8000_0000 <= Int32Of(b) < 0x8000_0000
    ensures |b| >= 4 ==>
              var bits := b[0] as int + b[1] as int * 256 + b[2] as int * 65536 + b[3] as int * 16777216;
              Int32Of(b) == bits || Int32Of(b) == bits - 0x1_0000_0000
    ensures |b| < 4 ==> Int32Of(b) == 0
  {
    if |b| >= 4 {
      LowByteFirst(0, b[..4]);
    }
  }

  /** A position that holds no buffer is read as an int32. */
  function IntArg(operands: seq<Operand>, i: nat): Option<int> {
    if i < |operands| && operands[i].Literal? then Some(Int32Of(operands[i].bytes)) else None
  }

  predicate Buffers(operands: seq<Operand>, n: nat) {
    n <= |operands| && forall i | 0 <= i < n :: operands[i].Memory?
  }

  function FloatsOf(operands: seq<Operand>, i: nat): (r: seq<Float32>)
    requires i < |operands|
    ensures |r| == |ContentOf(operands[i])| / 4
  {
    AllFloats(ContentOf(operands[i]))
  }

  /** A kernel's answer when it wrote the buffer at position `w` and no other. */
  function Wrote(operands: seq<Operand>, w: nat, floats: seq<Float32>): (r: seq<Bytes>)
    ensures |r| == |operands| && forall i | 0 <= i < |r| :: |r[i]| == |ContentOf(operands[i])|
  {
    seq(|operands|, i requires 0 <= i < |operands| =>
      if i == w then WithFloats(ContentOf(operands[i]), floats) else ContentOf(operands[i]))
  }

  // ── The kernels by name ──

  /** C after vector_add, or None if the kernel's indexing panics. */
  function Added(ops: Ops, a: seq<Float32>, b: seq<Float32>, c: seq<Float32>, nArg: Option<int>, g: seq<nat>, at: nat)
    : Option<seq<Float32>>
    requires g != []
  {
    var n := if nArg.Some? then nArg.value else g[0];
    if !K.AddInBounds(n, at, |a|, |b|, |c|) then None
    else Some(K.AddRange(ops, a, b, c, at, K.AddCount(n, |a|, |b|, |c|)))
  }

  function VectorAddKernel(ops: Ops, operands: seq<Operand>, global: seq<nat>, offset: seq<nat>): Option<seq<Bytes>> {
    if global == [] || !Buffers(operands, 3) then None
    else
      var sums := Added(ops, FloatsOf(operands, 0), FloatsOf(operands, 1), FloatsOf(operands, 2),
                        IntArg(operands, 3), global, K.OffsetAt(offset, 0));
      if sums.None? then None else Some(Wrote(operands, 2, sums.value))
  }

  /** C after matmul, or None if the sizes fail the kernel's own checks or Go's index checks. */
  function Multiplied(ops: Ops, a: seq<Float32>, b: seq<Float32>, c: seq<Float32>, kArg: Option<int>,
                      global: seq<nat>, row0: nat, col0: nat): Option<seq<Float32>>
    requires |global| >= 2
  {
    var m, n := global[0], K.Columns(global[1]);
    var dimK := K.InnerDim(kArg, m, n, |a|, |b|);
    if K.MatMulStatus(|a|, |b|, |c|, m, n, dimK).Ok? && K.MatMulInBounds(|a|, |b|, |c|, m, n, dimK, row0, col0)
    then Some(K.MatMulRange(ops, a, b, c, dimK, n, row0, col0, m))
    else None
  }

  function MatMulKernel(ops: Ops, operands: seq<Operand>, global: seq<nat>, offset: seq<nat>): Option<seq<Bytes>> {
    if |global| < 2 || !Buffers(operands, 3) then None
    else
      var product := Multiplied(ops, FloatsOf(operands, 0), FloatsOf(operands, 1), FloatsOf(operands, 2),
                                IntArg(operands, 3), global, K.OffsetAt(offset, 0), K.OffsetAt(offset, 1));
      if product.None? then None else Some(Wrote(operands, 2, product.value))
  }

  function TransposeKernel(operands: seq<Operand>, global: seq<nat>): Option<seq<Bytes>> {
    if |global| < 2 || !Buffers(operands, 2) then None
    else
      var input, output := FloatsOf(operands, 0), FloatsOf(operands, 1);
      var (rows, cols) := K.TransposeShape(global[0], global[1], IntArg(operands, 2), |input|);
      Some(Wrote(operands, 1, if rows <= 0 || cols <= 0 then output else K.Transposed(input, output, rows, cols)))
  }

  /** The items of the range that A and B have are their sums, and the others are as they were. */
  ghost predicate SumsLeft(ops: Ops, a: seq<Float32>, b: seq<Float32>, c: seq<Float32>, after: seq<Float32>, n: int,
                           at: nat)
  {
    |after| == |c| && forall j | 0 <= j < |after| ::
      after[j] == if at <= j < at + n && j < |a| && j < |b| then ops.add(a[j], b[j]) else c[j]
  }

  /** vector_add answers exactly if its range starts at 0, is empty or lies in the buffers, and then with the sums. */
  lemma {:induction false} AddedAnswer(ops: Ops, a: seq<Float32>, b: seq<Float32>, c: seq<Float32>,
                                       nArg: Option<int>, g: seq<nat>, at: nat)
    requires g != []
    ensures var n, sums := if nArg.Some? then nArg.value else g[0], Added(ops, a, b, c, nArg, g, at);
      && (sums.Some? <==> || at == 0 || n <= 0 || a == [] || b == [] || c == []
                          || (at + n <= |a| && at + n <= |b| && at + n <= |c|))
      && (sums.Some? ==> SumsLeft(ops, a, b, c, sums.value, n, at))
  {
    K.AddedIs(ops, a, b, c, if nArg.Some? then nArg.value else g[0], at);
  }

  /** transpose answers with its input as it was, and in the output's floats with the input mirrored. */
  lemma {:induction false} TransposeAnswer(operands: seq<Operand>, global: seq<nat>)
    requires |global| >= 2 && Buffers(operands, 2)
    ensures var colsArg := if 2 < |operands| && operands[2].Literal? then Some(Int32Of(operands[2].bytes)) else None;
      var input, output, answer := FloatsOf(operands, 0), FloatsOf(operands, 1), TransposeKernel(operands, global);
      var (rows, cols) := K.TransposeShape(global[0], global[1], colsArg, |input|);
      && answer.Some? && |answer.value| == |operands|
      && (forall i | 0 <= i < |operands| && i != 1 :: answer.value[i] == ContentOf(operands[i]))
      && AllFloats(answer.value[1])
         == (if rows <= 0 || cols <= 0 then output else K.Transposed(input, output, rows, cols))
  {
    var (rows, cols) := K.TransposeShape(global[0], global[1], IntArg(operands, 2), |FloatsOf(operands, 0)|);
    FloatsOfWith(ContentOf(operands[1]), if rows <= 0 || cols <= 0 then FloatsOf(operands, 1)
                                         else K.Transposed(FloatsOf(operands, 0), FloatsOf(operands, 1), rows, cols));
  }

  /** Without a buffer at one of its positions a kernel gives no answer. */
  lemma {:induction false} BuffersNeeded(ops: Ops, operands: seq<Operand>, global: seq<nat>, offset: seq<nat>, i: nat)
    requires i >= |operands| || !operands[i].Memory?
    ensures i < 3 ==> VectorAddKernel(ops, operands, global, offset) == None
    ensures i < 3 ==> MatMulKernel(ops, operands, global, offset) == None
    ensures i < 2 ==> TransposeKernel(operands, global) == None
  {
  }

  predicate IsMatMul(name: string) { name in {"matmul", "matrix_mul", "gemm"} }

  /** The three names of matmul. */
  lemma {:induction false} MatMulNames(name: string)
    ensures IsMatMul(name) <==> name == "matmul" || name == "matrix_mul" || name == "gemm"
  {
  }

  predicate IsModelled(name: string) { IsMatMul(name) || name == "vector_add" || name == "transpose" }

  /** ExecuteNDRange's choice of a kernel; the kernels outside this model are the function `rest`. */
  function KernelNamed(ops: Ops, rest: string -> KernelFn, name: string): KernelFn {
    (operands: seq<Operand>, global: seq<nat>, offset: seq<nat>) =>
      if name == "vector_add" then VectorAddKernel(ops, operands, global, offset)
      else if IsMatMul(name) then MatMulKernel(ops, operands, global, offset)
      else if name == "transpose" then TransposeKernel(operands, global)
      else rest(name)(operands, global, offset)
  }

  lemma {:induction false} NamedKeepsSizes(ops: Ops, rest: string -> KernelFn, name: string)
    requires IsModelled(name) || KeepsSizes(rest(name))
    ensures KeepsSizes(KernelNamed(ops, rest, name))
  {
    var kernel := KernelNamed(ops, rest, name);
    forall operands: seq<Operand>, global: seq<nat>, offset: seq<nat> | kernel(operands, global, offset).Some?
      ensures var outs := kernel(operands, global, offset).value;
              |outs| == |operands| && forall i | 0 <= i < |outs| :: |outs[i]| == |ContentOf(operands[i])|
    {
      var answer := kernel(operands, global, offset);
      if name == "vector_add" {
        assert answer == VectorAddKernel(ops, operands, global, offset);
      } else if IsMatMul(name) {
        assert answer == MatMulKernel(ops, operands, global, offset);
      } else if name == "transpose" {
        assert answer == TransposeKernel(operands, global);
      } else {
        var other := rest(name);
        assert answer == other(operands, global, offset) && |other(operands, global, offset).value| == |operands|;
      }
    }
  }

  lemma {:induction false} MatMulIsNamed(ops: Ops, rest: string -> KernelFn, name: string, operands: seq<Operand>,
                                         global: seq<nat>, offset: seq<nat>)
    requires IsMatMul(name)
    ensures KernelNamed(ops, rest, name)(operands, global, offset) == MatMulKernel(ops, operands, global, offset)
  {
    assert name[0] != 'v';
  }

  lemma {:induction false} AddSees(ops: Ops, operands: seq<Operand>, g: seq<nat>, offset: seq<nat>, at: nat,
                                   a: seq<Float32>, b: seq<Float32>, c: seq<Float32>, nArg: Option<int>)
    requires g != [] && Buffers(operands, 3) && IntArg(operands, 3) == nArg && K.OffsetAt(offset, 0) == at
    requires FloatsOf(operands, 0) == a && FloatsOf(operands, 1) == b && FloatsOf(operands, 2) == c
    ensures VectorAddKernel(ops, operands, g, offset) ==
            var sums := Added(ops, a, b, c, nArg, g, at);
            if sums.None? then None else Some(Wrote(operands, 2, sums.value))
  {
  }

  // ── The functions are what the kernels' loops compute ──

  /** A buffer's bytes as the array of floats a kernel works on; null for an operand that is no buffer. */
  method FloatArray(o: Operand) returns (floats: array?<Float32>)
    ensures floats != null <==> o.Memory?
    ensures floats != null ==> fresh(floats) && floats[..] == AllFloats(ContentOf(o))
  {
    if !o.Memory? {
      return null;
    }
    var all := AllFloats(o.content);
    floats := new Float32[|all|](i requires 0 <= i < |all| => all[i]);
  }

  /** matmul on three different arrays, to its floats or to none if it fails or panics. */
  method MultiplyArrays(ops: Ops, a: array?<Float32>, b: array?<Float32>, c: array?<Float32>, kArg: Option<int>,
                        global: seq<nat>, offset: seq<nat>)
    returns (result: Option<seq<Float32>>)
    requires c != null ==> c != a && c != b
    modifies c
    ensures a == null || b == null || c == null || |global| < 2 ==> result == None
    ensures a != null && b != null && c != null && |global| >= 2 ==>
              result == Multiplied(ops, old(a[..]), old(b[..]), old(c[..]), kArg, global, K.OffsetAt(offset, 0),
                                   K.OffsetAt(offset, 1))
  {
    var end, _ := K.ExecuteMatMul(ops, a, b, c, kArg, global, offset);
    result := if end.Done? then Some(c[..]) else None;
  }

  method RunMatMul(ops: Ops, operands: seq<Operand>, global: seq<nat>, offset: seq<nat>)
    returns (answer: Option<seq<Bytes>>)
    ensures answer == MatMulKernel(ops, operands, global, offset)
  {
    if |operands| < 3 {
      return None;
    }
    var a := FloatArray(operands[0]);
    var b := FloatArray(operands[1]);
    var c := FloatArray(operands[2]);
    var product := MultiplyArrays(ops, a, b, c, IntArg(operands, 3), global, offset);
    answer := if product.None? then None else Some(Wrote(operands, 2, product.value));
  }

  /** The same for vector_add. */
  method AddArrays(ops: Ops, a: array?<Float32>, b: array?<Float32>, c: array?<Float32>, nArg: Option<int>,
                   global: seq<nat>, offset: seq<nat>)
    returns (result: Option<seq<Float32>>)
    modifies c
    ensures a == null || b == null || c == null || global == [] ==> result == None
    ensures a != null && b != null && c != null && global != [] ==>
              result == Added(ops, old(a[..]), old(b[..]), old(c[..]), nArg, global, K.OffsetAt(offset, 0))
  {
    var end := K.ExecuteVectorAdd(ops, a, b, c, nArg, global, offset);
    result := if end.Done? then Some(c[..]) else None;
  }

  method RunVectorAdd(ops: Ops, operands: seq<Operand>, global: seq<nat>, offset: seq<nat>)
    returns (answer: Option<seq<Bytes>>)
    ensures answer == VectorAddKernel(ops, operands, global, offset)
  {
    if |operands| < 3 {
      return None;
    }
    var a := FloatArray(operands[0]);
    var b := FloatArray(operands[1]);
    var c := FloatArray(operands[2]);
    var sums := AddArrays(ops, a, b, c, IntArg(operands, 3), global, offset);
    if a != null && b != null && c != null && global != [] {
      AddSees(ops, operands, global, offset, K.OffsetAt(offset, 0), AllFloats(ContentOf(operands[0])),
              AllFloats(ContentOf(operands[1])), AllFloats(ContentOf(operands[2])), IntArg(operands, 3));
    }
    answer := if sums.None? then None else Some(Wrote(operands, 2, sums.value));
  }

  method RunTranspose(operands: seq<Operand>, global: seq<nat>) returns (answer: Option<seq<Bytes>>)
    ensures answer == TransposeKernel(operands, global)
  {
    if |operands| < 2 {
      return None;
    }
    var input := FloatArray(operands[0]);
    var output := FloatArray(operands[1]);
    var end := K.ExecuteTranspose(input, output, global, IntArg(operands, 2));
    answer := if end.Done? then Some(Wrote(operands, 1, output[..])) else None;
  }

  lemma {:induction false} NamedIs(ops: Ops, rest: string -> KernelFn, name: string, operands: seq<Operand>,
                                   global: seq<nat>, offset: seq<nat>)
    ensures KernelNamed(ops, rest, name)(operands, global, offset) ==
            if name == "vector_add" then VectorAddKernel(ops, operands, global, offset)
            else if IsMatMul(name) then MatMulKernel(ops, operands, global, offset)
            else if name == "transpose" then TransposeKernel(operands, global)
            else rest(name)(operands, global, offset)
  {
  }

  /** The switch on the name: what the loops leave in the buffers is what the function of that name answers. */
  method RunNamed(ops: Ops, rest: string -> KernelFn, name: string, operands: seq<Operand>, global: seq<nat>,
                  offset: seq<nat>)
    returns (answer: Option<seq<Bytes>>)
    ensures answer == KernelNamed(ops, rest, name)(operands, global, offset)
  {
    NamedIs(ops, rest, name, operands, global, offset);
    if name == "vector_add" {
      answer := RunVectorAdd(ops, operands, global, offset);
    } else if IsMatMul(name) {
      answer := RunMatMul(ops, operands, global, offset);
    } else if name == "transpose" {
      answer := RunTranspose(operands, global);
    } else {
      var other := rest(name);
      answer := other(operands, global, offset);
    }
  }
}
