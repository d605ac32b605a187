/**
 * cmd/worker/engine/fallback.go: the vector_add, matmul and transpose kernels.
 *
 * F stands for float32; addition and multiplication are any functions, so an equality
 * proved here holds bit for bit. A buffer is the array of floats its bytes spell; the
 * null array is a buffer the engine does not know.
 */
module Kernels {
  import opened Arithmetic
  import opened Common
  import opened Scheduler

  datatype FloatOps<!F> = FloatOps(zero: F, add: (F, F) -> F, mul: (F, F) -> F)

  /** How a kernel call ends; Go's index checks can stop it with a panic. */
  datatype Outcome = Done | Failed(error: KernelError) | Panicked

  datatype KernelError = BufferNotFound | UnknownK | OutputTooSmall | ATooSmall | BTooSmall

  function At<F>(s: seq<F>, i: int, default: F): F {
    if 0 <= i < |s| then s[i] else default
  }

  // ── matmul ──

  /** The first `k` terms of row `row` of A times column `col` of B, added from the left. */
  function Dot<F>(ops: FloatOps<F>, a: seq<F>, b: seq<F>, dimK: int, n: nat, row: int, col: int, k: int): F {
    if k <= 0 then ops.zero
    else ops.add(Dot(ops, a, b, dimK, n, row, col, k - 1),
                 ops.mul(At(a, row * dimK + (k - 1), ops.zero), At(b, (k - 1) * n + col, ops.zero)))
  }

  /** Entry i of the row-major product. */
  function ProductCell<F>(ops: FloatOps<F>, a: seq<F>, b: seq<F>, dimK: int, n: nat, i: int): F
    requires n > 0
  {
    Dot(ops, a, b, dimK, n, i / n, i % n, dimK)
  }

  /** C after the kernel wrote the first `count` cells, row by row, of a range `n` columns wide at (row0, col0). */
  function MatMulCells<F>(ops: FloatOps<F>, a: seq<F>, b: seq<F>, c: seq<F>, dimK: int, n: nat, row0: nat, col0: nat,
                          count: nat): (r: seq<F>)
    requires n > 0
  {
    var lo := row0 * n + col0;
    seq(|c|, i requires 0 <= i < |c| =>
      if lo <= i < lo + count then Dot(ops, a, b, dimK, n, row0 + (i - lo) / n, col0 + (i - lo) % n, dimK) else c[i])
  }

  /** What a loop reads from an operand that may be the output itself. */
  function Seen<F>(same: bool, was: seq<F>, now: seq<F>): seq<F> { if same then now else was }

  /** The same cells when A or B may be the buffer C: each cell is computed from what the ones before it left. */
  function CellsInPlace<F>(ops: FloatOps<F>, a: seq<F>, b: seq<F>, c: seq<F>, sameA: bool, sameB: bool, dimK: int,
                           n: nat, row0: nat, col0: nat, count: nat): (r: seq<F>)
    requires n > 0
    ensures |r| == |c|
  {
    if count == 0 then c
    else
      var now := CellsInPlace(ops, a, b, c, sameA, sameB, dimK, n, row0, col0, count - 1);
      var i := row0 * n + col0 + (count - 1);
      if 0 <= i < |c| then
        now[i := Dot(ops, Seen(sameA, a, now), Seen(sameB, b, now), dimK, n, row0 + (count - 1) / n,
                     col0 + (count - 1) % n, dimK)]
      else now
  }

  /** A cell past the end of C is not written. */
  lemma {:induction false} CellBeyond<F>(ops: FloatOps<F>, a: seq<F>, b: seq<F>, c: seq<F>, dimK: int, n: nat,
                                         row0: nat, col0: nat, t: nat)
    requires n > 0 && row0 * n + col0 + t >= |c|
    ensures CellsInPlace(ops, a, b, c, false, false, dimK, n, row0, col0, t + 1)
         == CellsInPlace(ops, a, b, c, false, false, dimK, n, row0, col0, t)
    ensures MatMulCells(ops, a, b, c, dimK, n, row0, col0, t + 1) == MatMulCells(ops, a, b, c, dimK, n, row0, col0, t)
  {
  }

  /** With three buffers there is no difference, as far as the cells lie in C. */
  lemma {:induction false} ApartIsCells<F>(ops: FloatOps<F>, a: seq<F>, b: seq<F>, c: seq<F>, dimK: int, n: nat,
                                           row0: nat, col0: nat, count: nat)
    requires n > 0
    ensures CellsInPlace(ops, a, b, c, false, false, dimK, n, row0, col0, count)
         == MatMulCells(ops, a, b, c, dimK, n, row0, col0, count)
  {
    if count == 0 {
      NoCells(ops, a, b, c, dimK, n, row0, col0);
    } else {
      ApartIsCells(ops, a, b, c, dimK, n, row0, col0, count - 1);
      var i := row0 * n + col0 + (count - 1);
      MulMonotone(0, row0, n);
      if i < |c| {
        OneMoreCell(ops, a, b, c, dimK, n, row0, col0, count - 1, i);
        NextInPlace(ops, a, b, c, false, false, dimK, n, row0, col0, count - 1, i);
      } else {
        CellBeyond(ops, a, b, c, dimK, n, row0, col0, count - 1);
      }
    }
  }

  /** C after the kernel ran for `m` rows of `n` columns at (row0, col0). */
  function MatMulRange<F>(ops: FloatOps<F>, a: seq<F>, b: seq<F>, c: seq<F>, dimK: int, n: nat,
                          row0: nat, col0: nat, m: nat): (r: seq<F>)
    requires n > 0
  {
    MatMulCells(ops, a, b, c, dimK, n, row0, col0, m * n)
  }

  /** Columns as the kernel counts them: a zero becomes one. */
  function Columns(n: nat): (r: nat)
    ensures r > 0 && (n > 0 ==> r == n) && (n == 0 ==> r == 1)
  {
    if n == 0 then 1 else n
  }

  /** A dimension without an offset starts at 0. */
  function OffsetAt(globalOffset: seq<nat>, d: nat): (r: nat)
    ensures d >= |globalOffset| ==> r == 0
  {
    if d < |globalOffset| then globalOffset[d] else 0
  }

  /** The inner dimension: the explicit argument, or else what A's or B's size suggests. */
  function InnerDim(kArg: Option<int>, m: nat, n: nat, lenA: nat, lenB: nat): int
    requires n > 0
  {
    var given := if kArg.Some? then kArg.value else 0;
    var fromA := if given == 0 && m > 0 then lenA / m else given;
    if fromA == 0 then lenB / n else fromA
  }

  function MatMulStatus(lenA: nat, lenB: nat, lenC: nat, m: nat, n: nat, dimK: int): Result<(), KernelError> {
    if dimK == 0 then Err(UnknownK)
    else if lenC < m * n then Err(OutputTooSmall)
    else if lenA < m * dimK then Err(ATooSmall)
    else if lenB < dimK * n then Err(BTooSmall)
    else Ok(())
  }

  lemma {:induction false} Quotient(x: nat, g: nat)
    requires g > 0
    ensures x / g * g <= x < (x / g + 1) * g && (x / g == 0 <==> x < g)
  {
    assert x == x / g * g + x % g && (x / g + 1) * g == x / g * g + g;
  }

  /** K is what the caller gives; without one A's rows are that long, and if that is 0, B's columns. */
  lemma {:induction false} InnerDimIs(kArg: Option<int>, m: nat, n: nat, lenA: nat, lenB: nat)
    requires n > 0
    ensures var k, given := InnerDim(kArg, m, n, lenA, lenB), kArg.Some? && kArg.value != 0;
      && (given ==> k == kArg.value)
      && (!given && m > 0 && m <= lenA ==> k * m <= lenA < (k + 1) * m)
      && (!given && (m == 0 || lenA < m) ==> k * n <= lenB < (k + 1) * n)
  {
    Quotient(lenB, n);
    if m > 0 { Quotient(lenA, m); }
  }

  /** The first of the size checks that fails decides the error, and the rest of the run needs all four. */
  lemma {:induction false} StatusIs(lenA: nat, lenB: nat, lenC: nat, m: nat, n: nat, dimK: int)
    ensures var s := MatMulStatus(lenA, lenB, lenC, m, n, dimK);
      && (s.Ok? <==> dimK != 0 && m * n <= lenC && m * dimK <= lenA && dimK * n <= lenB)
      && (s == Err(UnknownK) <==> dimK == 0)
      && (s == Err(OutputTooSmall) <==> dimK != 0 && lenC < m * n)
      && (s == Err(ATooSmall) <==> dimK != 0 && m * n <= lenC && lenA < m * dimK)
      && (s == Err(BTooSmall) <==> dimK != 0 && m * n <= lenC && m * dimK <= lenA && lenB < dimK * n)
  {
  }

  /** Go's own bounds checks on the offset indices hold for the whole range. */
  predicate MatMulInBounds(lenA: nat, lenB: nat, lenC: nat, m: nat, n: nat, dimK: int, row0: nat, col0: nat) {
    m > 0 ==>
      && row0 * n + col0 + m * n <= lenC
      && (dimK > 0 ==> (row0 + m) * dimK <= lenA && dimK * n + col0 <= lenB)
  }

  /** The reads of one dot product stay in A and B. */
  predicate ReadsFit(lenA: nat, lenB: nat, dimK: int, n: nat, row: nat, col: nat) {
    dimK > 0 ==> row * dimK + dimK <= lenA && (dimK - 1) * n + col < lenB
  }

  /** Cell `t` of the range, counted row by row, can be computed and stored. */
  predicate CellFits(lenA: nat, lenB: nat, lenC: nat, n: nat, dimK: int, row0: nat, col0: nat, t: nat)
    requires n > 0
  {
    ReadsFit(lenA, lenB, dimK, n, row0 + t / n, col0 + t % n) && row0 * n + col0 + t < lenC
  }

  lemma {:induction false} FirstBadTerm(lenA: nat, lenB: nat, dimK: int, n: nat, row: nat, col: nat, kk: nat)
    requires kk < dimK
    ensures 0 <= row * dimK + kk && 0 <= kk * n + col
    ensures ReadsFit(lenA, lenB, dimK, n, row, col) ==> row * dimK + kk < lenA && kk * n + col < lenB
  {
    MulMonotone(0, row, dimK);
    MulMonotone(0, kk, n);
    MulMonotone(kk, dimK - 1, n);
  }

  /** The innermost loop; not ok if an index leaves A or B. */
  method DotProduct<F>(ops: FloatOps<F>, a: array<F>, b: array<F>, dimK: int, n: nat, row: nat, col: nat)
    returns (ok: bool, sum: F)
    ensures ok <==> ReadsFit(a.Length, b.Length, dimK, n, row, col)
    ensures ok ==> sum == Dot(ops, a[..], b[..], dimK, n, row, col, dimK)
  {
    sum := ops.zero;
    var kk := 0;
    while kk < dimK
      invariant 0 <= kk && (kk <= dimK || kk == 0)
      invariant kk > 0 ==> row * dimK + (kk - 1) < a.Length && (kk - 1) * n + col < b.Length
      invariant sum == Dot(ops, a[..], b[..], dimK, n, row, col, kk)
    {
      FirstBadTerm(a.Length, b.Length, dimK, n, row, col, kk);
      if row * dimK + kk >= a.Length || kk * n + col >= b.Length {
        return false, sum;
      }
      sum := ops.add(sum, ops.mul(a[row * dimK + kk], b[kk * n + col]));
      kk := kk + 1;
    }
    ok := true;
  }

  /** All cells fit exactly when the range's last row and column do. */
  lemma {:induction false} InBoundsIff(lenA: nat, lenB: nat, lenC: nat, m: nat, n: nat, dimK: int, row0: nat, col0: nat)
    requires n > 0
    ensures 0 <= m * n
    ensures CellsFit(lenA, lenB, lenC, n, dimK, row0, col0, m * n)
       <==> MatMulInBounds(lenA, lenB, lenC, m, n, dimK, row0, col0)
  {
    if MatMulInBounds(lenA, lenB, lenC, m, n, dimK, row0, col0) {
      forall t: nat | t < m * n ensures CellFits(lenA, lenB, lenC, n, dimK, row0, col0, t) {
        CellInside(lenA, lenB, lenC, m, n, dimK, row0, col0, t);
      }
    } else {
      LastCell(lenA, lenB, lenC, m, n, dimK, row0, col0);
    }
  }

  lemma {:induction false} CellInside(lenA: nat, lenB: nat, lenC: nat, m: nat, n: nat, dimK: int, row0: nat, col0: nat,
                                      t: nat)
    requires n > 0 && t < m * n && MatMulInBounds(lenA, lenB, lenC, m, n, dimK, row0, col0)
    ensures CellFits(lenA, lenB, lenC, n, dimK, row0, col0, t)
  {
    CellInverse(t, m, n);
    var row := row0 + t / n;
    if dimK > 0 {
      MulMonotone(row + 1, row0 + m, dimK);
      assert (row + 1) * dimK == row * dimK + dimK;
      assert (dimK - 1) * n == dimK * n - n;
    }
  }

  lemma {:induction false} LastCell(lenA: nat, lenB: nat, lenC: nat, m: nat, n: nat, dimK: int, row0: nat, col0: nat)
    requires n > 0 && !MatMulInBounds(lenA, lenB, lenC, m, n, dimK, row0, col0)
    ensures 0 <= m * n - 1 && !CellFits(lenA, lenB, lenC, n, dimK, row0, col0, m * n - 1)
  {
    var t := m * n - 1;
    MulMonotone(1, m, n);
    assert t == (m - 1) * n + (n - 1);
    DivModUnique(t, m - 1, n - 1, n);
    if dimK > 0 {
      assert (row0 + (m - 1)) * dimK + dimK == (row0 + m) * dimK;
      assert (dimK - 1) * n == dimK * n - n;
    }
  }

  /**
   * executeMatMul. It panics exactly if the global size has fewer than two dimensions or a cell of the range leaves a
   * buffer; the cells before that one have been written then. C may be A or B.
   */
  method ExecuteMatMul<F(!new)>(ops: FloatOps<F>, bufA: array?<F>, bufB: array?<F>, bufC: array?<F>, kArg: Option<int>,
                          globalSize: seq<nat>, globalOffset: seq<nat>)
    returns (r: Outcome, ghost count: nat)
    modifies bufC
    ensures bufA == null || bufB == null || bufC == null <==> r == Failed(BufferNotFound)
    ensures bufA != null && bufB != null && bufC != null && |globalSize| < 2 ==> r == Panicked && count == 0
    ensures bufA != null && bufB != null && bufC != null && |globalSize| >= 2 ==>
              var m, n := globalSize[0], Columns(globalSize[1]);
              var dimK := InnerDim(kArg, m, n, bufA.Length, bufB.Length);
              var row0, col0 := OffsetAt(globalOffset, 0), OffsetAt(globalOffset, 1);
              MatMulEnds(r, bufA.Length, bufB.Length, bufC.Length, m, n, dimK, row0, col0, count)
              && bufC[..] == CellsInPlace(ops, old(bufA[..]), old(bufB[..]), old(bufC[..]), bufA == bufC, bufB == bufC,
                                          dimK, n, row0, col0, count)
              && (bufC != bufA && bufC != bufB ==>
                    bufC[..] == MatMulCells(ops, old(bufA[..]), old(bufB[..]), old(bufC[..]), dimK, n, row0, col0,
                                            count))
              && (r == Done && bufC != bufA && bufC != bufB ==>
                    ProductLeft(ops, old(bufA[..]), old(bufB[..]), old(bufC[..]), bufC[..], dimK, n, row0, col0, m))
    ensures bufC != null && count == 0 ==> bufC[..] == old(bufC[..])
  {
    count := 0;
    if bufA == null || bufB == null || bufC == null {
      return Failed(BufferNotFound), 0;
    }
    if |globalSize| < 2 {
      return Panicked, 0;
    }
    var m, n := globalSize[0], globalSize[1];
    if n == 0 {
      n := 1;
    }
    var row0, col0 := OffsetAt(globalOffset, 0), OffsetAt(globalOffset, 1);
    var dimK := ChooseInnerDim(kArg, m, n, bufA.Length, bufB.Length);
    NoCells(ops, bufA[..], bufB[..], bufC[..], dimK, n, row0, col0);
    if dimK == 0 {
      return Failed(UnknownK), 0;
    }
    if bufC.Length < m * n {
      return Failed(OutputTooSmall), 0;
    }
    if bufA.Length < m * dimK {
      return Failed(ATooSmall), 0;
    }
    if bufB.Length < dimK * n {
      return Failed(BTooSmall), 0;
    }
    r, count := FillRange(ops, bufA, bufB, bufC, dimK, n, row0, col0, m);
    ApartIsCells(ops, old(bufA[..]), old(bufB[..]), old(bufC[..]), dimK, n, row0, col0, count);
    if r == Done {
      RangeIsProduct(ops, old(bufA[..]), old(bufB[..]), old(bufC[..]), dimK, n, row0, col0, m);
    }
  }

  /** How the call ends once the sizes are known, and after how many cells. */
  ghost predicate MatMulEnds(r: Outcome, lenA: nat, lenB: nat, lenC: nat, m: nat, n: nat, dimK: int, row0: nat,
                             col0: nat, count: nat)
    requires n > 0
  {
    var status := MatMulStatus(lenA, lenB, lenC, m, n, dimK);
    if status.Err? then r == Failed(status.error) && count == 0
    else RangeEnds(r, lenA, lenB, lenC, m, n, dimK, row0, col0, count)
  }

  ghost predicate RangeEnds(r: Outcome, lenA: nat, lenB: nat, lenC: nat, m: nat, n: nat, dimK: int, row0: nat,
                            col0: nat, count: nat)
    requires n > 0
  {
    if MatMulInBounds(lenA, lenB, lenC, m, n, dimK, row0, col0) then r == Done && count == m * n
    else r == Panicked && StopsAt(lenA, lenB, lenC, m, n, dimK, row0, col0, count)
  }

  /** `count` is the first cell of the range that does not fit. */
  ghost predicate StopsAt(lenA: nat, lenB: nat, lenC: nat, m: nat, n: nat, dimK: int, row0: nat, col0: nat, count: nat)
    requires n > 0
  {
    && count < m * n && !CellFits(lenA, lenB, lenC, n, dimK, row0, col0, count)
    && CellsFit(lenA, lenB, lenC, n, dimK, row0, col0, count)
  }

  lemma {:induction false} NoCells<F>(ops: FloatOps<F>, a: seq<F>, b: seq<F>, c: seq<F>, dimK: int, n: nat, row0: nat,
                                      col0: nat)
    requires n > 0
    ensures MatMulCells(ops, a, b, c, dimK, n, row0, col0, 0) == c
  {
  }

  method ChooseInnerDim(kArg: Option<int>, m: nat, n: nat, lenA: nat, lenB: nat) returns (dimK: int)
    requires n > 0
    ensures dimK == InnerDim(kArg, m, n, lenA, lenB)
  {
    dimK := 0;
    if kArg.Some? {
      dimK := kArg.value;
    }
    if dimK == 0 && m > 0 {
      dimK := lenA / m;
    }
    if dimK == 0 {
      dimK := lenB / n;
    }
  }

  /** The cells before `count` fit. */
  ghost predicate CellsFit(lenA: nat, lenB: nat, lenC: nat, n: nat, dimK: int, row0: nat, col0: nat, count: nat)
    requires n > 0
  {
    forall t: nat | t < count :: CellFits(lenA, lenB, lenC, n, dimK, row0, col0, t)
  }

  /** Where cell (row, col) of the range lies. */
  lemma {:induction false} CellPlace(n: nat, row0: nat, col0: nat, row: nat, col: nat, t: nat)
    requires col < n && t == row * n + col
    ensures (row0 + row) * n + (col0 + col) == row0 * n + col0 + t && t / n == row && t % n == col
  {
    assert (row0 + row) * n == row0 * n + row * n;
    DivModUnique(t, row, col, n);
  }

  /** One more cell of the range. */
  lemma {:induction false} OneMoreCell<F>(ops: FloatOps<F>, a: seq<F>, b: seq<F>, c: seq<F>, dimK: int, n: nat,
                                          row0: nat, col0: nat, t: nat, i: int)
    requires n > 0 && i == row0 * n + col0 + t && 0 <= i < |c|
    ensures MatMulCells(ops, a, b, c, dimK, n, row0, col0, t + 1)
         == MatMulCells(ops, a, b, c, dimK, n, row0, col0, t)
              [i := Dot(ops, a, b, dimK, n, row0 + t / n, col0 + t % n, dimK)]
  {
  }

  lemma {:induction false} NextInPlace<F>(ops: FloatOps<F>, a: seq<F>, b: seq<F>, c: seq<F>, sameA: bool, sameB: bool,
                                          dimK: int, n: nat, row0: nat, col0: nat, t: nat, i: int)
    requires n > 0 && i == row0 * n + col0 + t && 0 <= i < |c|
    ensures var now := CellsInPlace(ops, a, b, c, sameA, sameB, dimK, n, row0, col0, t);
            CellsInPlace(ops, a, b, c, sameA, sameB, dimK, n, row0, col0, t + 1) ==
            now[i := Dot(ops, Seen(sameA, a, now), Seen(sameB, b, now), dimK, n, row0 + t / n, col0 + t % n, dimK)]
  {
  }

  /** C has the first `count` cells, and A and B are as they were unless they are C. */
  ghost predicate CellsDone<F>(ops: FloatOps<F>, a: array<F>, b: array<F>, c: array<F>, a0: seq<F>, b0: seq<F>,
                               c0: seq<F>, dimK: int, n: nat, row0: nat, col0: nat, count: nat)
    requires n > 0
    reads a, b, c
  {
    && c[..] == CellsInPlace(ops, a0, b0, c0, a == c, b == c, dimK, n, row0, col0, count)
    && (a != c ==> a[..] == a0) && (b != c ==> b[..] == b0)
  }

  /** The loop body: computes cell `t` and stores it, or stops at an index outside its buffer. */
  method FillCell<F>(ops: FloatOps<F>, a: array<F>, b: array<F>, c: array<F>, dimK: int, n: nat, row0: nat, col0: nat,
                     row: nat, col: nat, ghost a0: seq<F>, ghost b0: seq<F>, ghost c0: seq<F>, ghost t: nat)
    returns (ok: bool)
    requires col < n && t == row * n + col
    requires CellsDone(ops, a, b, c, a0, b0, c0, dimK, n, row0, col0, t)
    modifies c
    ensures ok <==> CellFits(a.Length, b.Length, c.Length, n, dimK, row0, col0, t)
    ensures CellsDone(ops, a, b, c, a0, b0, c0, dimK, n, row0, col0, if ok then t + 1 else t)
  {
    CellPlace(n, row0, col0, row, col, t);
    var sum;
    ok, sum := DotProduct(ops, a, b, dimK, n, row0 + row, col0 + col);
    var i := (row0 + row) * n + (col0 + col);
    if ok && i < c.Length {
      NextInPlace(ops, a0, b0, c0, a == c, b == c, dimK, n, row0, col0, t, i);
      c[i] := sum;
    } else {
      ok := false;
    }
  }

  /** The column loop. */
  method FillRow<F>(ops: FloatOps<F>, a: array<F>, b: array<F>, c: array<F>, dimK: int, n: nat, row0: nat, col0: nat,
                    row: nat, ghost a0: seq<F>, ghost b0: seq<F>, ghost c0: seq<F>, ghost start: nat)
    returns (ok: bool, ghost count: nat)
    requires n > 0 && start == row * n
    requires CellsDone(ops, a, b, c, a0, b0, c0, dimK, n, row0, col0, start)
    requires CellsFit(a.Length, b.Length, c.Length, n, dimK, row0, col0, start)
    modifies c
    ensures CellsDone(ops, a, b, c, a0, b0, c0, dimK, n, row0, col0, count)
    ensures CellsFit(a.Length, b.Length, c.Length, n, dimK, row0, col0, count)
    ensures if ok then count == start + n
            else count < start + n && !CellFits(a.Length, b.Length, c.Length, n, dimK, row0, col0, count)
  {
    count := start;
    ok := true;
    var col := 0;
    while col < n && ok
      invariant 0 <= col <= n
      invariant if ok then count == start + col
                else count < start + n && !CellFits(a.Length, b.Length, c.Length, n, dimK, row0, col0, count)
      invariant CellsDone(ops, a, b, c, a0, b0, c0, dimK, n, row0, col0, count)
      invariant CellsFit(a.Length, b.Length, c.Length, n, dimK, row0, col0, count)
      decreases n - col, ok
    {
      ok := FillCell(ops, a, b, c, dimK, n, row0, col0, row, col, a0, b0, c0, count);
      if ok {
        col, count := col + 1, count + 1;
      }
    }
  }

  /** The row and column loops. */
  method FillRange<F>(ops: FloatOps<F>, a: array<F>, b: array<F>, c: array<F>, dimK: int, n: nat,
                      row0: nat, col0: nat, m: nat)
    returns (r: Outcome, ghost count: nat)
    requires n > 0
    modifies c
    ensures c[..] == CellsInPlace(ops, old(a[..]), old(b[..]), old(c[..]), a == c, b == c, dimK, n, row0, col0, count)
    ensures RangeEnds(r, a.Length, b.Length, c.Length, m, n, dimK, row0, col0, count)
  {
    ghost var a0, b0, c0 := a[..], b[..], c[..];
    var row := 0;
    count := 0;
    var ok := true;
    while row < m && ok
      invariant 0 <= row <= m
      invariant if ok then count == row * n
                else count < m * n && !CellFits(a.Length, b.Length, c.Length, n, dimK, row0, col0, count)
      invariant CellsDone(ops, a, b, c, a0, b0, c0, dimK, n, row0, col0, count)
      invariant CellsFit(a.Length, b.Length, c.Length, n, dimK, row0, col0, count)
      decreases m - row, ok
    {
      RowEnd(row, m, n);
      ok, count := FillRow(ops, a, b, c, dimK, n, row0, col0, row, a0, b0, c0, count);
      if ok {
        row := row + 1;
      }
    }
    InBoundsIff(a.Length, b.Length, c.Length, m, n, dimK, row0, col0);
    r := if ok then Done else Panicked;
  }

  lemma {:induction false} RowEnd(row: nat, m: nat, n: nat)
    requires row < m
    ensures (row + 1) * n == row * n + n <= m * n
  {
    MulMonotone(row + 1, m, n);
  }

  // ── What a cell of the product is ──

  /** f(.. f(f(start, xs[0]), xs[1]) .., xs[last]). */
  function FoldLeft<F>(f: (F, F) -> F, start: F, xs: seq<F>): F {
    if xs == [] then start else f(FoldLeft(f, start, xs[..|xs| - 1]), xs[|xs| - 1])
  }

  /** The products of row `row` of A, `dimK` wide, with column `col` of B, `n` wide, in order. */
  ghost predicate AreProducts<F>(ops: FloatOps<F>, a: seq<F>, b: seq<F>, dimK: int, n: nat, row: nat, col: nat,
                                 terms: seq<F>)
  {
    && |terms| == Max(dimK, 0)
    && forall t | 0 <= t < |terms| ::
         && 0 <= row * dimK + t < |a| && 0 <= t * n + col < |b|
         && terms[t] == ops.mul(a[row * dimK + t], b[t * n + col])
  }

  /** The value is the sum of these products, added to zero from the left. */
  ghost predicate IsEntry<F(!new)>(ops: FloatOps<F>, a: seq<F>, b: seq<F>, dimK: int, n: nat, row: nat, col: nat, x: F)
  {
    exists terms :: AreProducts(ops, a, b, dimK, n, row, col, terms) && x == FoldLeft(ops.add, ops.zero, terms)
  }

  lemma {:induction false} OneMoreTerm<F>(f: (F, F) -> F, start: F, xs: seq<F>, x: F)
    ensures FoldLeft(f, start, xs + [x]) == f(FoldLeft(f, start, xs), x)
  {
    assert (xs + [x])[..|xs|] == xs;
  }

  /** The products of the first `k` terms, and their sum. */
  lemma {:induction false} DotOfTerms<F>(ops: FloatOps<F>, a: seq<F>, b: seq<F>, dimK: int, n: nat, row: nat,
                                         col: nat, k: nat) returns (terms: seq<F>)
    requires ReadsFit(|a|, |b|, dimK, n, row, col) && k <= Max(dimK, 0)
    ensures |terms| == k && Dot(ops, a, b, dimK, n, row, col, k) == FoldLeft(ops.add, ops.zero, terms)
    ensures forall t | 0 <= t < k ::
              && 0 <= row * dimK + t < |a| && 0 <= t * n + col < |b|
              && terms[t] == ops.mul(a[row * dimK + t], b[t * n + col])
  {
    terms := [];
    if k > 0 {
      var before := DotOfTerms(ops, a, b, dimK, n, row, col, k - 1);
      FirstBadTerm(|a|, |b|, dimK, n, row, col, k - 1);
      var x := ops.mul(a[row * dimK + (k - 1)], b[(k - 1) * n + col]);
      OneMoreTerm(ops.add, ops.zero, before, x);
      terms := before + [x];
    }
  }

  lemma {:induction false} DotIsEntry<F(!new)>(ops: FloatOps<F>, a: seq<F>, b: seq<F>, dimK: int, n: nat, row: nat,
                                               col: nat)
    requires ReadsFit(|a|, |b|, dimK, n, row, col)
    ensures IsEntry(ops, a, b, dimK, n, row, col, Dot(ops, a, b, dimK, n, row, col, dimK))
  {
    var terms := DotOfTerms(ops, a, b, dimK, n, row, col, Max(dimK, 0));
    assert AreProducts(ops, a, b, dimK, n, row, col, terms);
  }

  /** Cell (row, col) of C, `n` wide, is the product's entry. */
  ghost predicate EntryAt<F(!new)>(ops: FloatOps<F>, a: seq<F>, b: seq<F>, after: seq<F>, dimK: int, n: nat, row: nat,
                             col: nat)
  {
    0 <= row * n + col < |after| && IsEntry(ops, a, b, dimK, n, row, col, after[row * n + col])
  }

  /** In C the product's entries stand in the range of `m` rows at (row0, col0), and every other cell is as it was. */
  ghost predicate ProductLeft<F(!new)>(ops: FloatOps<F>, a: seq<F>, b: seq<F>, c: seq<F>, after: seq<F>, dimK: int,
                                       n: nat, row0: nat, col0: nat, m: nat)
  {
    && |after| == |c|
    && (forall row: nat, col: nat | row0 <= row < row0 + m && col0 <= col < col0 + n ::
          EntryAt(ops, a, b, after, dimK, n, row, col))
    && forall i | 0 <= i < |c| && !(row0 * n + col0 <= i < row0 * n + col0 + m * n) :: after[i] == c[i]
  }

  lemma {:induction false} CellIn<F>(ops: FloatOps<F>, a: seq<F>, b: seq<F>, c: seq<F>, dimK: int, n: nat, row0: nat,
                                     col0: nat, count: nat, t: nat)
    requires n > 0 && t < count && 0 <= row0 * n + col0 + t < |c|
    ensures MatMulCells(ops, a, b, c, dimK, n, row0, col0, count)[row0 * n + col0 + t]
         == Dot(ops, a, b, dimK, n, row0 + t / n, col0 + t % n, dimK)
  {
  }

  lemma {:induction false} RangeEntry<F(!new)>(ops: FloatOps<F>, a: seq<F>, b: seq<F>, c: seq<F>, dimK: int, n: nat,
                                         row0: nat, col0: nat, m: nat, row: nat, col: nat)
    requires n > 0 && MatMulInBounds(|a|, |b|, |c|, m, n, dimK, row0, col0)
    requires row0 <= row < row0 + m && col0 <= col < col0 + n
    ensures EntryAt(ops, a, b, MatMulRange(ops, a, b, c, dimK, n, row0, col0, m), dimK, n, row, col)
  {
    var t := (row - row0) * n + (col - col0);
    CellBound(row - row0, col - col0, m, n);
    CellPlace(n, row0, col0, row - row0, col - col0, t);
    CellInside(|a|, |b|, |c|, m, n, dimK, row0, col0, t);
    MulMonotone(0, row0, n);
    DotIsEntry(ops, a, b, dimK, n, row, col);
    CellIn(ops, a, b, c, dimK, n, row0, col0, m * n, t);
  }

  lemma {:induction false} RangeIsProduct<F(!new)>(ops: FloatOps<F>, a: seq<F>, b: seq<F>, c: seq<F>, dimK: int, n: nat,
                                             row0: nat, col0: nat, m: nat)
    requires n > 0 && MatMulInBounds(|a|, |b|, |c|, m, n, dimK, row0, col0)
    ensures ProductLeft(ops, a, b, c, MatMulRange(ops, a, b, c, dimK, n, row0, col0, m), dimK, n, row0, col0, m)
  {
    forall row: nat, col: nat | row0 <= row < row0 + m && col0 <= col < col0 + n
      ensures EntryAt(ops, a, b, MatMulRange(ops, a, b, c, dimK, n, row0, col0, m), dimK, n, row, col)
    {
      RangeEntry(ops, a, b, c, dimK, n, row0, col0, m, row, col);
    }
  }

  /** What the float operations need for an identity matrix to be one. */
  ghost predicate UnitLaws<F(!new)>(ops: FloatOps<F>, one: F) {
    && (forall x :: ops.mul(one, x) == x) && (forall x :: ops.mul(ops.zero, x) == ops.zero)
    && (forall x :: ops.add(ops.zero, x) == x) && (forall x :: ops.add(x, ops.zero) == x)
  }

  /** The entry (row, col) of an m x m identity matrix. */
  ghost predicate UnitAt<F>(ops: FloatOps<F>, one: F, a: seq<F>, m: nat, row: nat, col: nat) {
    0 <= row * m + col < |a| && a[row * m + col] == if row == col then one else ops.zero
  }

  ghost predicate IsIdentity<F>(ops: FloatOps<F>, one: F, a: seq<F>, m: nat) {
    |a| >= m * m && forall row: nat, col: nat | row < m && col < m :: UnitAt(ops, one, a, m, row, col)
  }

  lemma {:induction false} IdentityDot<F(!new)>(ops: FloatOps<F>, one: F, a: seq<F>, b: seq<F>, m: nat, n: nat,
                                                row: nat, col: nat, k: nat)
    requires UnitLaws(ops, one) && IsIdentity(ops, one, a, m) && row < m && k <= m && col < n && |b| >= m * n
    ensures 0 <= row * n + col < |b|
    ensures Dot(ops, a, b, m, n, row, col, k) == if row < k then b[row * n + col] else ops.zero
  {
    CellBound(row, col, m, n);
    if k > 0 {
      IdentityDot(ops, one, a, b, m, n, row, col, k - 1);
      CellBound(k - 1, col, m, n);
      assert UnitAt(ops, one, a, m, row, k - 1);
      UnitTerm(ops, one, b[(k - 1) * n + col]);
    }
  }

  lemma {:induction false} UnitTerm<F(!new)>(ops: FloatOps<F>, one: F, x: F)
    requires UnitLaws(ops, one)
    ensures ops.mul(one, x) == x && ops.mul(ops.zero, x) == ops.zero
    ensures ops.add(ops.zero, x) == x && ops.add(x, ops.zero) == x && ops.add(ops.zero, ops.zero) == ops.zero
  {
  }

  /** Multiplying by the identity matrix leaves B in C. */
  lemma {:induction false} IdentityKeepsB<F(!new)>(ops: FloatOps<F>, one: F, a: seq<F>, b: seq<F>, c: seq<F>, m: nat,
                                                   n: nat)
    requires UnitLaws(ops, one) && IsIdentity(ops, one, a, m) && n > 0 && |b| >= m * n && |c| >= m * n
    ensures 0 <= m * n && MatMulRange(ops, a, b, c, m, n, 0, 0, m)[..m * n] == b[..m * n]
  {
    MulMonotone(0, m, n);
    var after := MatMulRange(ops, a, b, c, m, n, 0, 0, m);
    forall i | 0 <= i < m * n ensures after[i] == b[i] {
      CellInverse(i, m, n);
      IdentityDot(ops, one, a, b, m, n, i / n, i % n, m);
    }
  }

  // ── Ranged matmuls compose ──

  lemma {:induction false} RowOffset(row0: nat, n: nat, i: int)
    requires n > 0 && row0 * n <= i
    ensures row0 + (i - row0 * n) / n == i / n && (i - row0 * n) % n == i % n
  {
    var j := i - row0 * n;
    assert i == (row0 + j / n) * n + j % n by {
      assert (row0 + j / n) * n == row0 * n + (j / n) * n;
    }
    DivModUnique(i, row0 + j / n, j % n, n);
  }

  /** A range of whole rows holds the entries of the product there, whatever the range. */
  lemma {:induction false} RowRangeCell<F>(ops: FloatOps<F>, a: seq<F>, b: seq<F>, c: seq<F>, dimK: int, n: nat,
                                           row0: nat, m: nat, i: int)
    requires n > 0 && 0 <= i < |c|
    ensures MatMulRange(ops, a, b, c, dimK, n, row0, 0, m)[i] ==
            if row0 <= i / n < row0 + m then ProductCell(ops, a, b, dimK, n, i) else c[i]
  {
    RowOfCell(row0, n, i);
    RowOfCell(row0 + m, n, i);
    assert (row0 + m) * n == row0 * n + m * n;
    if row0 * n <= i {
      RowOffset(row0, n, i);
    }
  }

  lemma {:induction false} RowOfCell(row: nat, n: nat, i: int)
    requires n > 0
    ensures row * n <= i <==> row <= i / n
  {
    assert i == (i / n) * n + i % n;
    if row <= i / n {
      MulMonotone(row, i / n, n);
    } else {
      MulMonotone(i / n + 1, row, n);
      assert (i / n + 1) * n == (i / n) * n + n;
    }
  }

  /** C after one kernel run per interval of rows, in order, on the same buffers. */
  function RunRows<F>(ops: FloatOps<F>, a: seq<F>, b: seq<F>, c: seq<F>, dimK: int, n: nat,
                      ranges: seq<Share>): (r: seq<F>)
    requires n > 0
    ensures |r| == |c|
    decreases |ranges|
  {
    if ranges == [] then c
    else
      var next := MatMulRange(ops, a, b, c, dimK, n, ranges[0].offset, 0, ranges[0].size);
      RunRows(ops, a, b, next, dimK, n, ranges[1..])
  }

  ghost predicate InSome(ranges: seq<Share>, x: int) {
    exists k :: 0 <= k < |ranges| && ranges[k].Has(x)
  }

  lemma {:induction false} InSomeSplit(ranges: seq<Share>, x: int)
    requires ranges != []
    ensures InSome(ranges, x) <==> ranges[0].Has(x) || InSome(ranges[1..], x)
  {
    if InSome(ranges[1..], x) {
      var k :| 0 <= k < |ranges[1..]| && ranges[1..][k].Has(x);
      assert ranges[k + 1].Has(x);
    }
    if InSome(ranges, x) {
      var k :| 0 <= k < |ranges| && ranges[k].Has(x);
      assert k > 0 ==> ranges[1..][k - 1].Has(x);
    }
  }

  lemma {:induction false} RunRowsCell<F>(ops: FloatOps<F>, a: seq<F>, b: seq<F>, c: seq<F>, dimK: int, n: nat,
                                          ranges: seq<Share>, i: int)
    requires n > 0 && 0 <= i < |c|
    ensures RunRows(ops, a, b, c, dimK, n, ranges)[i] ==
            if InSome(ranges, i / n) then ProductCell(ops, a, b, dimK, n, i) else c[i]
    decreases |ranges|
  {
    if ranges != [] {
      var c' := MatMulRange(ops, a, b, c, dimK, n, ranges[0].offset, 0, ranges[0].size);
      RowRangeCell(ops, a, b, c, dimK, n, ranges[0].offset, ranges[0].size, i);
      RunRowsCell(ops, a, b, c', dimK, n, ranges[1..], i);
      InSomeSplit(ranges, i / n);
    }
  }

  /** When the intervals tile the rows, the runs together compute the unsplit product. */
  lemma {:induction false} TiledRunsAreWhole<F>(ops: FloatOps<F>, a: seq<F>, b: seq<F>, c: seq<F>, dimK: int, n: nat,
                                                m: nat, ranges: seq<Share>)
    requires n > 0 && Tiles(ranges, m)
    ensures RunRows(ops, a, b, c, dimK, n, ranges) == MatMulRange(ops, a, b, c, dimK, n, 0, 0, m)
  {
    var whole := MatMulRange(ops, a, b, c, dimK, n, 0, 0, m);
    forall i | 0 <= i < |c| ensures RunRows(ops, a, b, c, dimK, n, ranges)[i] == whole[i] {
      RunRowsCell(ops, a, b, c, dimK, n, ranges, i);
      RowRangeCell(ops, a, b, c, dimK, n, 0, m, i);
      var row := i / n;
      if row < m {
        assert CoveredOnce(ranges, row);
        var k :| OnlyIn(ranges, row, k);
      }
    }
  }

  /** The intervals a split hands out stay inside the axis even after the top-up. */
  lemma {:induction false} ToppedInside(shares: seq<Share>, g: nat, total: nat, k: nat)
    requires g > 0 && Consecutive(shares, 0, g) && SumSizes(shares) <= total && k < |shares|
    ensures TopUp(shares, total)[k].End() <= total && TopUp(shares, total)[k].size > 0
    ensures TopUp(shares, total)[k].Has(shares[k].offset)
  {
    ConsecutiveBounds(shares, 0, g, k);
    SumsNonNegative(shares);
  }

  /** After the top-up the intervals cover a prefix of the axis: the shares, or the enlarged first one if longer. */
  lemma {:induction false} CoveredPrefix(shares: seq<Share>, g: nat, total: nat, x: int)
    requires g > 0 && Consecutive(shares, 0, g) && SumSizes(shares) <= total && shares != []
    ensures InSome(TopUp(shares, total), x) <==>
            0 <= x < Max(SumSizes(shares), shares[0].size + (total - SumSizes(shares)))
  {
    var topped := TopUp(shares, total);
    if 0 <= x < SumSizes(shares) {
      var k := ConsecutiveCovers(shares, 0, g, x);
      assert topped[k].Has(x);
    } else if SumSizes(shares) <= x < topped[0].End() {
      assert topped[0].Has(x);
    }
    if InSome(topped, x) {
      var k :| 0 <= k < |topped| && topped[k].Has(x);
      ConsecutiveBounds(shares, 0, g, k);
    }
  }

  lemma {:induction false} SumsNonNegative(shares: seq<Share>)
    requires shares != []
    ensures shares[0].size <= SumSizes(shares)
  {
  }

  /**
   * The split of an M x N matmul with M >= N and K given. Every subtask passes the kernel's size
   * checks and stays in bounds, and running them all on the same buffers puts the product's entry
   * in each cell of a row some subtask covers and leaves the others alone. The result is the
   * unsplit one if nothing was left over or one subtask took everything.
   */
  lemma {:induction false} SplitMatMul<F>(ops: FloatOps<F>, a: seq<F>, b: seq<F>, c: seq<F>, dimK: int,
                                          task: ComputeTask, ws: seq<WorkerInfo>, cap: real)
    requires task.workDim == 2 == |task.globalSize| && task.globalSize[0] >= task.globalSize[1]
    requires NonNegative(ws) && cap == SumScores(ws) && SplitResult(task, ws, cap).Ok?
    requires var m, n := task.globalSize[0], Columns(task.globalSize[1]);
             dimK != 0 && m * n <= |c| && m * dimK <= |a| && dimK * n <= |b|
    ensures var m, n := task.globalSize[0], Columns(task.globalSize[1]);
            var subs := SplitResult(task, ws, cap).value;
            var shares := TaskShares(task, ws, cap);
            && OtherAxesKept(task, 0, subs)
            && (forall s <- subs ::
                  && s.globalOffset[1] == 0 && Columns(s.globalSize[1]) == n
                  && MatMulStatus(|a|, |b|, |c|, s.globalSize[0], n, dimK).Ok?
                  && MatMulInBounds(|a|, |b|, |c|, s.globalSize[0], n, dimK, s.globalOffset[0], 0))
            && var result := RunRows(ops, a, b, c, dimK, n, AxisRanges(subs, 0));
               && (forall i | 0 <= i < |c| :: result[i] ==
                     if InSome(AxisRanges(subs, 0), i / n) then ProductCell(ops, a, b, dimK, n, i) else c[i])
               && (SumSizes(shares) == m || |subs| == 1 ==>
                     result == MatMulRange(ops, a, b, c, dimK, n, 0, 0, m))
  {
    var m, n := task.globalSize[0], Columns(task.globalSize[1]);
    var subs := SplitResult(task, ws, cap).value;
    var shares := TaskShares(task, ws, cap);
    var g := GroupSize(task.localSize, 0);
    SplitShape(task, ws, cap);
    assert SplitDim(task.globalSize, 2) == 0;
    var topped := AxisRanges(subs, 0);
    forall k | 0 <= k < |subs|
      ensures MatMulStatus(|a|, |b|, |c|, subs[k].globalSize[0], n, dimK).Ok?
      ensures MatMulInBounds(|a|, |b|, |c|, subs[k].globalSize[0], n, dimK, subs[k].globalOffset[0], 0)
    {
      ToppedInside(shares, g, m, k);
      assert topped[k] == TopUp(shares, m)[k];
      SubRangeFits(topped[k].offset, topped[k].size, m, n, dimK, |a|, |b|, |c|);
    }
    forall i | 0 <= i < |c|
      ensures RunRows(ops, a, b, c, dimK, n, topped)[i] ==
              if InSome(topped, i / n) then ProductCell(ops, a, b, dimK, n, i) else c[i]
    {
      RunRowsCell(ops, a, b, c, dimK, n, topped, i);
    }
    if SumSizes(shares) == m || |subs| == 1 {
      TiledRunsAreWhole(ops, a, b, c, dimK, n, m, topped);
    }
  }

  lemma {:induction false} SubRangeFits(row0: nat, size: nat, m: nat, n: nat, dimK: int, lenA: nat, lenB: nat,
                                        lenC: nat)
    requires row0 + size <= m && n > 0 && dimK != 0
    requires m * n <= lenC && m * dimK <= lenA && dimK * n <= lenB
    ensures MatMulStatus(lenA, lenB, lenC, size, n, dimK).Ok?
    ensures MatMulInBounds(lenA, lenB, lenC, size, n, dimK, row0, 0)
  {
    MulMonotone(size, m, n);
    MulMonotone(row0 + size, m, n);
    assert (row0 + size) * n == row0 * n + size * n;
    if dimK > 0 {
      MulMonotone(size, m, dimK);
      MulMonotone(row0 + size, m, dimK);
    } else {
      assert size * dimK <= 0;
    }
  }

  /**
   * Without an explicit K the kernel infers it from A's size and the range's own row count. With buffers that hold
   * exactly A and B, a range of `size` rows infers the right K, and is accepted, exactly under this condition; any
   * other range is refused for a B that is too small.
   */
  lemma {:induction false} InferredInnerDimIff(m: nat, n: nat, k: nat, size: nat, lenC: nat)
    requires 0 < size <= m && n > 0 && k > 0 && m * n <= lenC
    ensures 0 <= m * k && 0 <= k * n
    ensures var inferred := InnerDim(None, size, n, m * k, k * n);
            && (inferred == k <==> (m - size) * k < size)
            && MatMulStatus(m * k, k * n, lenC, size, n, inferred)
               == if (m - size) * k < size then Ok(()) else Err(BTooSmall)
  {
    MulMonotone(size, m, k);
    MulMonotone(size, m, n);
    MulMonotone(0, size, k);
    MulMonotone(0, k, n);
    var x := m * k;
    var q := x / size;
    assert x == q * size + x % size;
    assert (m - size) * k == x - size * k;
    if (m - size) * k < size {
      DivModUnique(x, k, x - size * k, size);
    } else {
      assert q > k by {
        if q <= k { MulMonotone(q, k, size); }
      }
      MulMonotone(k + 1, q, n);
      assert (k + 1) * n == k * n + n;
    }
    assert q > 0;
    assert size * q <= x;
  }

  // ── vector_add ──

  /** How many iterations the loop guard allows. */
  function AddCount(count: int, lenA: nat, lenB: nat, lenC: nat): int {
    Min(Min(count, lenA), Min(lenB, lenC))
  }

  /** The guard bounds i, not offset + i: the loop stays in the buffers only under this condition. */
  predicate AddInBounds(count: int, offset: nat, lenA: nat, lenB: nat, lenC: nat) {
    var k := AddCount(count, lenA, lenB, lenC);
    k <= 0 || (offset + k <= lenA && offset + k <= lenB && offset + k <= lenC)
  }

  function AddRange<F>(ops: FloatOps<F>, a: seq<F>, b: seq<F>, c: seq<F>, offset: nat, k: int): (r: seq<F>)
    requires k <= 0 || (offset + k <= |a| && offset + k <= |b|)
  {
    seq(|c|, i requires 0 <= i < |c| => if offset <= i < offset + k then ops.add(a[i], b[i]) else c[i])
  }

  /** How many items are added before the first index that leaves a buffer. */
  function AddedAtPanic(offset: nat, lenA: nat, lenB: nat, lenC: nat): nat {
    Max(0, Min(lenA, Min(lenB, lenC)) - offset)
  }

  /** Outside [offset, offset + i) nothing has changed. */
  ghost predicate Untouched<F>(now: seq<F>, was: seq<F>, offset: nat, i: nat) {
    |now| == |was| && forall j | 0 <= j < |was| && !(offset <= j < offset + i) :: now[j] == was[j]
  }

  /** One item more has been added at `at`. */
  lemma {:induction false} OneMoreAdded<F>(ops: FloatOps<F>, a: seq<F>, b: seq<F>, c: seq<F>, offset: nat, i: nat)
    requires offset + i < |a| && offset + i < |b| && offset + i < |c|
    ensures AddRange(ops, a, b, c, offset, i)[offset + i := ops.add(a[offset + i], b[offset + i])]
         == AddRange(ops, a, b, c, offset, i + 1)
  {
  }

  /**
   * What vector_add leaves, with or without a panic: C's item j is the sum of A's and B's exactly if j is in the
   * range and in both. It runs to its end exactly if the range starts at 0, is empty or lies in all three buffers.
   */
  lemma {:induction false} AddedIs<F>(ops: FloatOps<F>, a: seq<F>, b: seq<F>, c: seq<F>, count: int, offset: nat)
    ensures var fits := AddInBounds(count, offset, |a|, |b|, |c|);
      var k := if fits then AddCount(count, |a|, |b|, |c|) else AddedAtPanic(offset, |a|, |b|, |c|);
      && (fits <==> || offset == 0 || count <= 0 || a == [] || b == [] || c == []
                    || (offset + count <= |a| && offset + count <= |b| && offset + count <= |c|))
      && forall j | 0 <= j < |c| ::
           AddRange(ops, a, b, c, offset, k)[j] ==
           if offset <= j < offset + count && j < |a| && j < |b| then ops.add(a[j], b[j]) else c[j]
  {
  }

  /** The kernel loop; after a panic exactly the items before the offending index have been added. */
  method AddLoop<F>(ops: FloatOps<F>, a: array<F>, b: array<F>, c: array<F>, count: int, offset: nat)
    returns (panicked: bool)
    modifies c
    ensures panicked <==> !AddInBounds(count, offset, a.Length, b.Length, c.Length)
    ensures c[..] == AddRange(ops, old(a[..]), old(b[..]), old(c[..]), offset,
                       if panicked then AddedAtPanic(offset, a.Length, b.Length, c.Length)
                       else AddCount(count, a.Length, b.Length, c.Length))
  {
    ghost var a0, b0, c0 := a[..], b[..], c[..];
    var i := 0;
    panicked := false;
    while i < count && i < a.Length && i < b.Length && i < c.Length && !panicked
      invariant 0 <= i && (i == 0 || i <= AddCount(count, a.Length, b.Length, c.Length))
      invariant i > 0 ==> offset + i <= a.Length && offset + i <= b.Length && offset + i <= c.Length
      invariant panicked ==> i < AddCount(count, a.Length, b.Length, c.Length)
                             && i == AddedAtPanic(offset, a.Length, b.Length, c.Length)
      invariant c[..] == AddRange(ops, a0, b0, c0, offset, i)
      invariant Untouched(a[..], a0, offset, i) && Untouched(b[..], b0, offset, i)
      decreases count - i, !panicked
    {
      if offset + i >= a.Length || offset + i >= b.Length || offset + i >= c.Length {
        panicked := true;
      } else {
        assert a[..][offset + i] == a0[offset + i] && b[..][offset + i] == b0[offset + i];
        OneMoreAdded(ops, a0, b0, c0, offset, i);
        c[offset + i] := ops.add(a[offset + i], b[offset + i]);
        i := i + 1;
      }
    }
  }

  /**
   * executeVectorAdd. It reads the global size before it looks at the buffers; an explicit count overrides that size.
   */
  method ExecuteVectorAdd<F>(ops: FloatOps<F>, bufA: array?<F>, bufB: array?<F>, bufC: array?<F>, nArg: Option<int>,
                             globalSize: seq<nat>, globalOffset: seq<nat>)
    returns (r: Outcome)
    modifies bufC
    ensures |globalSize| == 0 ==> r == Panicked
    ensures |globalSize| > 0 && (bufA == null || bufB == null || bufC == null) ==> r == Failed(BufferNotFound)
    ensures |globalSize| > 0 && bufA != null && bufB != null && bufC != null ==>
              var n, offset := if nArg.Some? then nArg.value else globalSize[0], OffsetAt(globalOffset, 0);
              var fits := AddInBounds(n, offset, bufA.Length, bufB.Length, bufC.Length);
              && r == (if fits then Done else Panicked)
              && bufC[..] == AddRange(ops, old(bufA[..]), old(bufB[..]), old(bufC[..]), offset,
                               if fits then AddCount(n, bufA.Length, bufB.Length, bufC.Length)
                               else AddedAtPanic(offset, bufA.Length, bufB.Length, bufC.Length))
    ensures bufC != null && (|globalSize| == 0 || r.Failed?) ==> bufC[..] == old(bufC[..])
  {
    if |globalSize| == 0 {
      return Panicked;
    }
    var n: int := globalSize[0];
    if nArg.Some? {
      n := nArg.value;
    }
    if bufA == null || bufB == null || bufC == null {
      return Failed(BufferNotFound);
    }
    var panicked := AddLoop(ops, bufA, bufB, bufC, n, OffsetAt(globalOffset, 0));
    return if panicked then Panicked else Done;
  }

  /** With equal buffers of `total` floats, the sub-range (offset, size) runs without panic and adds
      exactly its own items; passing the whole count instead panics for every later sub-range. */
  lemma {:induction false} AddSubRange<F>(ops: FloatOps<F>, a: seq<F>, b: seq<F>, c: seq<F>, total: nat, offset: nat,
                                          size: nat)
    requires |a| == |b| == |c| == total && size > 0 && offset + size <= total
    ensures AddInBounds(size, offset, total, total, total)
    ensures AddRange(ops, a, b, c, offset, AddCount(size, total, total, total)) ==
            seq(total, i requires 0 <= i < total => if offset <= i < offset + size then ops.add(a[i], b[i]) else c[i])
    ensures AddInBounds(total, offset, total, total, total) <==> offset == 0
  {
  }

  // ── transpose ──

  /** Where output cell d of a rows x cols transpose comes from. */
  function MirrorSource(rows: nat, cols: nat, d: int): int
    requires rows > 0
  {
    (d % rows) * cols + d / rows
  }

  /** The output after transposing; cells past rows*cols, or whose source is missing, keep their content. */
  function Transposed<F>(input: seq<F>, output: seq<F>, rows: nat, cols: nat): (r: seq<F>)
  {
    if rows == 0 then output
    else
      seq(|output|, d requires 0 <= d < |output| =>
        if d < rows * cols then At(input, MirrorSource(rows, cols, d), output[d]) else output[d])
  }

  function TransposeShape(rows: nat, cols: nat, colsArg: Option<int>, lenIn: nat): (int, int) {
    var cols' := if cols == 0 && colsArg.Some? then colsArg.value else cols;
    if cols' == 0 || rows == 0 then (lenIn, 1) else (rows, cols')
  }

  /** The matrix has the global size; without columns the explicit ones; without either the input is one column. */
  lemma {:induction false} ShapeIs(rows: nat, cols: nat, colsArg: Option<int>, lenIn: nat)
    ensures var shape := TransposeShape(rows, cols, colsArg, lenIn);
      && (rows > 0 && cols > 0 ==> shape == (rows, cols))
      && (rows > 0 && cols == 0 && colsArg.Some? && colsArg.value != 0 ==> shape == (rows, colsArg.value))
      && (rows == 0 || (cols == 0 && (colsArg.None? || colsArg.value == 0)) ==> shape == (lenIn, 1))
  {
  }

  /** Cell (i, j) of the input goes to cell (j, i) of the output, and to no other. */
  lemma {:induction false} MirrorCell(rows: nat, cols: nat, i: nat, j: nat)
    requires i < rows && j < cols
    ensures var d := j * rows + i;
            && 0 <= d < rows * cols && d % rows == i && d / rows == j
            && MirrorSource(rows, cols, d) == i * cols + j
            && 0 <= i * cols + j < rows * cols
  {
    CellBound(j, i, cols, rows);
    CellBound(i, j, rows, cols);
    DivModUnique(j * rows + i, j, i, rows);
  }

  /** Has the loop nest passed output cell d once it reached (i, j)? */
  predicate Passed(rows: nat, d: int, i: int, j: int)
    requires rows > 0
  {
    d % rows < i || (d % rows == i && d / rows < j)
  }

  /** So what stands in cell (i, j) of the input stands in cell (j, i) of the output. */
  lemma {:induction false} TransposedCell<F>(input: seq<F>, output: seq<F>, rows: nat, cols: nat, i: nat, j: nat)
    requires i < rows && j < cols && |input| == |output| == rows * cols
    ensures var d, s := j * rows + i, i * cols + j;
      && 0 <= d < |Transposed(input, output, rows, cols)| && 0 <= s < |input|
      && Transposed(input, output, rows, cols)[d] == input[s]
  {
    MirrorCell(rows, cols, i, j);
  }

  /**
   * executeTranspose. It panics exactly if both buffers are there and the global size has fewer than two dimensions.
   * The two may be one buffer; the loop then reads what it has written.
   */
  method ExecuteTranspose<F>(bufIn: array?<F>, bufOut: array?<F>, globalSize: seq<nat>, colsArg: Option<int>)
    returns (r: Outcome)
    modifies bufOut
    ensures bufIn == null || bufOut == null <==> r == Failed(BufferNotFound)
    ensures r == Panicked <==> bufIn != null && bufOut != null && |globalSize| < 2
    ensures bufOut != null && r != Done ==> bufOut[..] == old(bufOut[..])
    ensures r == Done ==>
              var (rows, cols) := TransposeShape(globalSize[0], globalSize[1], colsArg, bufIn.Length);
              if rows <= 0 || cols <= 0 then bufOut[..] == old(bufOut[..])
              else AfterCopying(bufIn == bufOut, old(bufIn[..]), old(bufOut[..]), bufOut[..], rows, cols)
    ensures r.Failed? ==> r.error == BufferNotFound
  {
    if bufIn == null || bufOut == null {
      return Failed(BufferNotFound);
    }
    if |globalSize| < 2 {
      return Panicked;
    }
    var rows: int, cols: int := globalSize[0], globalSize[1];
    if cols == 0 {
      if colsArg.Some? {
        cols := colsArg.value;
      }
    }
    if cols == 0 || rows == 0 {
      rows := bufIn.Length;
      cols := 1;
    }
    if rows > 0 && cols > 0 {
      CopyMirrored(bufIn, bufOut, rows, cols);
    }
    return Done;
  }

  /** The output after the first `t` cells of the input have been copied, row by row. */
  function MirrorSteps<F>(same: bool, input: seq<F>, output: seq<F>, rows: nat, cols: nat, t: nat): (r: seq<F>)
    requires cols > 0 && (same ==> |input| == |output|)
    ensures |r| == |output|
  {
    if t == 0 then output
    else
      var now := MirrorSteps(same, input, output, rows, cols, t - 1);
      var dst := (t - 1) % cols * rows + (t - 1) / cols;
      if t - 1 < |input| && 0 <= dst < |output| then now[dst := Seen(same, input, now)[t - 1]] else now
  }

  /** What the loop nest leaves: all cells copied, which with two buffers is the transpose. */
  ghost predicate AfterCopying<F>(same: bool, input: seq<F>, output: seq<F>, after: seq<F>, rows: nat, cols: nat)
    requires cols > 0
  {
    && (same ==> |input| == |output|) && 0 <= rows * cols
    && after == MirrorSteps(same, input, output, rows, cols, rows * cols)
    && (!same ==> after == Transposed(input, output, rows, cols))
  }

  /** Copying cell (i, j). */
  lemma {:induction false} NextMirrored<F>(same: bool, input: seq<F>, output: seq<F>, rows: nat, cols: nat, i: nat,
                                           j: nat)
    requires j < cols && (same ==> |input| == |output|)
    ensures 0 <= i * cols + j && 0 <= j * rows + i
    ensures var now, src, dst := MirrorSteps(same, input, output, rows, cols, i * cols + j), i * cols + j, j * rows + i;
            MirrorSteps(same, input, output, rows, cols, src + 1) ==
            if src < |input| && dst < |output| then now[dst := Seen(same, input, now)[src]] else now
  {
    MulMonotone(0, i, cols);
    MulMonotone(0, j, rows);
    DivModUnique(i * cols + j, i, j, cols);
  }

  lemma {:induction false} CellBefore(cols: nat, i: nat, j: nat, t: int)
    requires t == i * cols + j
    ensures j > 0 ==> 0 <= t - 1 == i * cols + (j - 1)
    ensures i > 0 && j == 0 ==> t == (i - 1) * cols + cols
    ensures i == 0 && j == 0 ==> t == 0
  {
    MulMonotone(0, i, cols);
  }

  /** With two buffers the copied cells are those of the transpose. */
  lemma {:induction false} StepsAreMirrored<F>(input: seq<F>, output: seq<F>, rows: nat, cols: nat, i: nat, j: nat,
                                               t: nat)
    requires i < rows && j <= cols && cols > 0 && t == i * cols + j
    ensures MirrorSteps(false, input, output, rows, cols, t) == MirroredTo(input, output, rows, cols, i, j)
    decreases i, j
  {
    CellBefore(cols, i, j, t);
    if j > 0 {
      StepsAreMirrored(input, output, rows, cols, i, j - 1, t - 1);
      OneMoreStep(input, output, rows, cols, i, j - 1, t - 1);
    } else if i > 0 {
      StepsAreMirrored(input, output, rows, cols, i - 1, cols, t);
      RowMirrored(input, output, rows, cols, i - 1);
    } else {
      AllMirrored(input, output, rows, cols);
    }
  }

  lemma {:induction false} OneMoreStep<F>(input: seq<F>, output: seq<F>, rows: nat, cols: nat, i: nat, j: nat, t: nat)
    requires i < rows && j < cols && t == i * cols + j
    requires MirrorSteps(false, input, output, rows, cols, t) == MirroredTo(input, output, rows, cols, i, j)
    ensures MirrorSteps(false, input, output, rows, cols, t + 1) == MirroredTo(input, output, rows, cols, i, j + 1)
  {
    NextMirrored(false, input, output, rows, cols, i, j);
    OneMoreMirrored(input, output, rows, cols, i, j);
  }

  lemma {:induction false} StepsAreTransposed<F>(input: seq<F>, output: seq<F>, rows: nat, cols: nat)
    requires rows > 0 && cols > 0
    ensures 0 <= rows * cols
    ensures MirrorSteps(false, input, output, rows, cols, rows * cols) == Transposed(input, output, rows, cols)
  {
    MulMonotone(0, rows, cols);
    assert (rows - 1) * cols + cols == rows * cols;
    StepsAreMirrored(input, output, rows, cols, rows - 1, cols, rows * cols);
    RowMirrored(input, output, rows, cols, rows - 1);
    AllMirrored(input, output, rows, cols);
  }

  /** The output once the loop nest has reached (i, j). */
  ghost function MirroredTo<F>(input: seq<F>, output: seq<F>, rows: nat, cols: nat, i: int, j: int): (r: seq<F>)
    requires rows > 0
    ensures |r| == |output|
  {
    seq(|output|, d requires 0 <= d < |output| =>
      if d < rows * cols && Passed(rows, d, i, j) then Transposed(input, output, rows, cols)[d] else output[d])
  }

  lemma {:induction false} OneMoreMirrored<F>(input: seq<F>, output: seq<F>, rows: nat, cols: nat, i: nat, j: nat)
    requires i < rows && j < cols
    ensures var now, src, dst := MirroredTo(input, output, rows, cols, i, j), i * cols + j, j * rows + i;
      && 0 <= src && 0 <= dst
      && MirroredTo(input, output, rows, cols, i, j + 1)
         == if src < |input| && dst < |output| then now[dst := input[src]] else now
  {
    MirrorCell(rows, cols, i, j);
    var dst := j * rows + i;
    forall d | 0 <= d < |output| && d < rows * cols
      ensures Passed(rows, d, i, j + 1) <==> Passed(rows, d, i, j) || d == dst
    {
      OnePassed(rows, d, i, j);
    }
  }

  lemma {:induction false} OnePassed(rows: nat, d: nat, i: nat, j: nat)
    requires i < rows
    ensures Passed(rows, d, i, j + 1) <==> Passed(rows, d, i, j) || d == j * rows + i
  {
    if d == j * rows + i {
      DivModUnique(d, j, i, rows);
    } else {
      assert d == d / rows * rows + d % rows;
    }
  }

  lemma {:induction false} RowMirrored<F>(input: seq<F>, output: seq<F>, rows: nat, cols: nat, i: nat)
    requires i < rows && cols > 0
    ensures MirroredTo(input, output, rows, cols, i, cols) == MirroredTo(input, output, rows, cols, i + 1, 0)
  {
    forall d | 0 <= d < |output| && d < rows * cols ensures Passed(rows, d, i, cols) <==> Passed(rows, d, i + 1, 0) {
      CellInverse(d, cols, rows);
    }
  }

  lemma {:induction false} AllMirrored<F>(input: seq<F>, output: seq<F>, rows: nat, cols: nat)
    requires rows > 0 && cols > 0
    ensures MirroredTo(input, output, rows, cols, 0, 0) == output
    ensures MirroredTo(input, output, rows, cols, rows, 0) == Transposed(input, output, rows, cols)
  {
    forall d | 0 <= d < |output| && d < rows * cols ensures Passed(rows, d, rows, 0) && !Passed(rows, d, 0, 0) {
      CellInverse(d, cols, rows);
    }
  }

  ghost predicate Mirroring<F>(input: array<F>, output: array<F>, input0: seq<F>, output0: seq<F>, rows: nat, cols: nat,
                               t: int)
    requires cols > 0
    reads input, output
  {
    && |input0| == input.Length && |output0| == output.Length && t >= 0
    && output[..] == MirrorSteps(input == output, input0, output0, rows, cols, t)
    && (input != output ==> input[..] == input0)
  }

  /** The loop body. */
  method CopyCell<F>(input: array<F>, output: array<F>, rows: nat, cols: nat, i: nat, j: nat, ghost input0: seq<F>,
                     ghost output0: seq<F>)
    requires i < rows && j < cols && Mirroring(input, output, input0, output0, rows, cols, i * cols + j)
    modifies output
    ensures Mirroring(input, output, input0, output0, rows, cols, i * cols + j + 1)
  {
    NextMirrored(input == output, input0, output0, rows, cols, i, j);
    var srcIdx := i * cols + j;
    var dstIdx := j * rows + i;
    if srcIdx < input.Length && dstIdx < output.Length {
      output[dstIdx] := input[srcIdx];
    }
  }

  method CopyMirrored<F>(input: array<F>, output: array<F>, rows: nat, cols: nat)
    requires rows > 0 && cols > 0
    modifies output
    ensures AfterCopying(input == output, old(input[..]), old(output[..]), output[..], rows, cols)
  {
    ghost var input0, output0 := input[..], output[..];
    StepsAreTransposed(input0, output0, rows, cols);
    var i := 0;
    assert 0 * cols == 0;
    while i < rows
      invariant 0 <= i <= rows
      invariant Mirroring(input, output, input0, output0, rows, cols, i * cols)
    {
      var j := 0;
      while j < cols
        invariant 0 <= j <= cols
        invariant Mirroring(input, output, input0, output0, rows, cols, i * cols + j)
      {
        CopyCell(input, output, rows, cols, i, j, input0, output0);
        j := j + 1;
      }
      assert (i + 1) * cols == i * cols + cols;
      i := i + 1;
    }
  }

  /** Transposing back restores the matrix, and cells past it never change. */
  lemma {:induction false} TransposeInvolution<F>(input: seq<F>, mid: seq<F>, back: seq<F>, rows: nat, cols: nat)
    requires rows > 0 && cols > 0
    requires |input| >= rows * cols && |mid| >= rows * cols && |back| >= rows * cols
    ensures var once := Transposed(input, mid, rows, cols);
            var twice := Transposed(once, back, cols, rows);
            && twice[..rows * cols] == input[..rows * cols]
            && twice[rows * cols..] == back[rows * cols..]
            && once[rows * cols..] == mid[rows * cols..]
  {
    var once := Transposed(input, mid, rows, cols);
    var twice := Transposed(once, back, cols, rows);
    assert cols * rows == rows * cols;
    forall s | 0 <= s < rows * cols ensures twice[s] == input[s] {
      CellInverse(s, rows, cols);
      MirrorCell(rows, cols, s / cols, s % cols);
      assert MirrorSource(cols, rows, s) == (s % cols) * rows + s / cols;
    }
  }

  /** The output cell the loop nest writes at (i, j). */
  function CellWritten(rows: nat, i: nat, j: nat): nat { j * rows + i }

  /** The loop nest writes every output cell of the matrix exactly once. */
  lemma {:induction false} EachCellOnce(rows: nat, cols: nat, d: int)
    requires rows > 0 && 0 <= d < rows * cols
    ensures 0 <= d % rows < rows && 0 <= d / rows < cols
    ensures forall i: nat, j: nat | i < rows && j < cols ::
              CellWritten(rows, i, j) == d <==> i == d % rows && j == d / rows
  {
    CellInverse(d, cols, rows);
    forall i: nat, j: nat | i < rows && j < cols
      ensures CellWritten(rows, i, j) == d <==> i == d % rows && j == d / rows
    {
      MirrorCell(rows, cols, i, j);
    }
  }
}
