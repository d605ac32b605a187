/**
 * vgpu/scheduler/split.go: proportional, group-aligned splitting of an NDRange.
 *
 * Worker scores and the fractions computed from them are exact reals; sizes and
 * offsets are unbounded naturals.
 */
module Scheduler {
  import opened Arithmetic
  import opened Common

  datatype WorkerInfo = WorkerInfo(id: string, name: string, score: real, status: string)

  datatype ComputeTask = ComputeTask(workDim: nat, globalSize: seq<nat>, localSize: seq<nat>) {
    /** What indexing GlobalSize demands: one entry per dimension, and at least one. */
    predicate Indexable() { 1 <= |globalSize| && workDim <= |globalSize| }
  }

  datatype SubTask = SubTask(workerId: string, globalSize: seq<nat>, globalOffset: seq<nat>, localSize: seq<nat>)

  /** `Panic` is an index outside GlobalSize. */
  datatype SplitError = NoWorkers | NoCapability | AllTooSlow | Panic

  /** One worker's interval of the split axis. */
  datatype Share = Share(workerId: string, offset: nat, size: nat) {
    function End(): nat { offset + size }
    predicate Has(x: int) { offset <= x < offset + size }
  }

  predicate Active(w: WorkerInfo) { w.status == "idle" || w.status == "busy" }

  predicate NonNegative(ws: seq<WorkerInfo>) { forall w <- ws :: w.score >= 0.0 }

  // ── Arithmetic of one quota ──

  /** math.Round on a non-negative argument. */
  function Round(x: real): (r: nat)
    requires x >= 0.0
    ensures x - 0.5 < r as real <= x + 0.5
  {
    (x + 0.5).Floor
  }

  function AlignDown(val: nat, align: nat): (r: nat)
    ensures r <= val
    ensures align > 0 ==> r % align == 0 && val - r < align
    ensures align == 0 ==> r == val
  {
    if align == 0 then val
    else
      AlignDownFacts(val, align);
      (val / align) * align
  }

  lemma {:induction false} AlignDownFacts(val: nat, align: nat)
    requires align > 0
    ensures ((val / align) * align) % align == 0
    ensures 0 <= val - (val / align) * align < align
  {
    MultipleModZero(val / align, align);
    assert val == (val / align) * align + val % align;
  }

  /** A multiple of `g` below `val` is also below `val` rounded down to `g`. */
  lemma {:induction false} AlignDownIsLargest(m: nat, val: nat, g: nat)
    requires g > 0 && m % g == 0 && m <= val
    ensures m <= AlignDown(val, g)
  {
    if AlignDown(val, g) < m {
      ModSub(m, AlignDown(val, g), g);
    }
  }

  /** The exact, unrounded portion of the axis a worker deserves. */
  function Portion(score: real, cap: real, total: nat): (x: real)
    requires score >= 0.0 && cap > 0.0
    ensures x >= 0.0
  {
    (score / cap) * (total as real)
  }

  /** What the worker loop grants before the remaining-work check. */
  function Quota(score: real, cap: real, total: nat, g: nat): (q: nat)
    requires score >= 0.0 && cap > 0.0 && g > 0
    ensures q % g == 0
    ensures q as real > Portion(score, cap, total) + 0.5 - g as real
    ensures q == 0 <==> Portion(score, cap, total) < g as real - 0.5
  {
    var x := Portion(score, cap, total);
    var r := Round(x);
    var q := AlignDown(r, g);
    assert r < g <==> x + 0.5 < g as real;
    RoundGap(x, r, q, g);
    q
  }

  /** Rounding and aligning together lose at most g - 1/2. */
  lemma {:induction false} RoundGap(x: real, r: nat, q: nat, g: nat)
    requires x >= 0.0 && r == Round(x) && q <= r && r - q <= g - 1
    ensures q as real > x + 0.5 - g as real
  {
    assert r as real > x - 0.5;
    assert q as real >= (r - g + 1) as real;
  }

  // ── The worker loop as a function ──

  /** The intervals the loop hands out to `ws` when the axis is filled up to `from`. */
  function Shares(ws: seq<WorkerInfo>, cap: real, total: nat, g: nat, from: nat): (r: seq<Share>)
    requires NonNegative(ws) && cap > 0.0 && g > 0 && from <= total
  {
    if ws == [] then []
    else
      var quota := Quota(ws[0].score, cap, total, g);
      if quota == 0 then Shares(ws[1..], cap, total, g, from)
      else
        var items := if from + quota > total then AlignDown(total - from, g) else quota;
        if items == 0 then []
        else if from + items >= total then [Share(ws[0].id, from, items)]
        else [Share(ws[0].id, from, items)] + Shares(ws[1..], cap, total, g, from + items)
  }

  function SumSizes(shares: seq<Share>): nat {
    if shares == [] then 0 else shares[0].size + SumSizes(shares[1..])
  }

  /** Non-empty, group-aligned intervals that follow each other without gaps from `from`. */
  ghost predicate Consecutive(shares: seq<Share>, from: nat, g: nat)
    requires g > 0
  {
    shares == [] || (shares[0].offset == from && shares[0].size > 0 && shares[0].size % g == 0
                     && Consecutive(shares[1..], shares[0].End(), g))
  }

  /** The last step: what rounding left over goes to the first interval. */
  function TopUp(shares: seq<Share>, total: nat): seq<Share>
    requires SumSizes(shares) <= total
  {
    if shares == [] then [] else shares[0 := shares[0].(size := shares[0].size + (total - SumSizes(shares)))]
  }

  lemma {:induction false} SharesShape(ws: seq<WorkerInfo>, cap: real, total: nat, g: nat, from: nat)
    requires NonNegative(ws) && cap > 0.0 && g > 0 && from <= total
    ensures var shares := Shares(ws, cap, total, g, from);
            && Consecutive(shares, from, g)
            && from + SumSizes(shares) <= total
            && |shares| <= |ws|
  {
    if ws != [] {
      var quota := Quota(ws[0].score, cap, total, g);
      var items := if from + quota > total then AlignDown(total - from, g) else quota;
      var shares := Shares(ws, cap, total, g, from);
      if quota == 0 {
        SharesShape(ws[1..], cap, total, g, from);
      } else if items != 0 && from + items < total {
        SharesShape(ws[1..], cap, total, g, from + items);
        assert shares[1..] == Shares(ws[1..], cap, total, g, from + items);
      }
    }
  }

  /** Every interval of a consecutive list lies between the start and the end of the list. */
  lemma {:induction false} ConsecutiveBounds(shares: seq<Share>, from: nat, g: nat, i: nat)
    requires g > 0 && Consecutive(shares, from, g) && i < |shares|
    ensures from <= shares[i].offset && shares[i].size > 0 && shares[i].size % g == 0
    ensures shares[i].End() <= from + SumSizes(shares)
    ensures i > 0 ==> shares[0].End() <= shares[i].offset
    ensures i + 1 < |shares| ==> shares[i + 1].offset == shares[i].End()
    ensures i + 1 == |shares| ==> shares[i].End() == from + SumSizes(shares)
    ensures from % g == 0 ==> shares[i].offset % g == 0
  {
    if i > 0 {
      if from % g == 0 {
        ModAdd(from, shares[0].size, g);
      }
      ConsecutiveBounds(shares[1..], shares[0].End(), g, i - 1);
    }
  }

  // ── Tiling ──

  ghost predicate OnlyIn(shares: seq<Share>, x: int, i: int) {
    0 <= i < |shares| && shares[i].Has(x) && forall j | 0 <= j < |shares| && j != i :: !shares[j].Has(x)
  }

  ghost predicate CoveredOnce(shares: seq<Share>, x: int) {
    exists i :: OnlyIn(shares, x, i)
  }

  /** Every item of [0, total) belongs to exactly one interval, and no interval leaves [0, total). */
  ghost predicate Tiles(shares: seq<Share>, total: nat) {
    && (forall i | 0 <= i < |shares| :: shares[i].End() <= total)
    && (forall x: int | 0 <= x < total :: CoveredOnce(shares, x))
  }

  lemma {:induction false} ConsecutiveCovers(shares: seq<Share>, from: nat, g: nat, x: int) returns (i: int)
    requires g > 0 && Consecutive(shares, from, g) && from <= x < from + SumSizes(shares)
    ensures OnlyIn(shares, x, i)
  {
    forall j | 0 <= j < |shares| ensures j > 0 ==> shares[0].End() <= shares[j].offset {
      ConsecutiveBounds(shares, from, g, j);
    }
    if x < shares[0].End() {
      i := 0;
    } else {
      var k := ConsecutiveCovers(shares[1..], shares[0].End(), g, x);
      i := k + 1;
      forall j | 0 <= j < |shares| && j != i ensures !shares[j].Has(x) {
        if j > 0 { assert shares[j] == shares[1..][j - 1]; }
      }
    }
  }

  lemma {:induction false} TopUpSum(shares: seq<Share>, total: nat)
    requires SumSizes(shares) <= total && shares != []
    ensures SumSizes(TopUp(shares, total)) == total
  {
    assert TopUp(shares, total)[1..] == shares[1..];
  }

  /** After the top-up the ranges tile the axis exactly when nothing was left over or nobody else works. */
  lemma {:induction false} TopUpTilesIff(shares: seq<Share>, g: nat, total: nat)
    requires g > 0 && Consecutive(shares, 0, g) && SumSizes(shares) <= total && shares != []
    ensures Tiles(TopUp(shares, total), total) <==> SumSizes(shares) == total || |shares| == 1
  {
    var topped := TopUp(shares, total);
    if SumSizes(shares) == total {
      assert topped == shares;
      forall i | 0 <= i < |shares| ensures shares[i].End() <= total { ConsecutiveBounds(shares, 0, g, i); }
      forall x: int | 0 <= x < total ensures CoveredOnce(shares, x) {
        var i := ConsecutiveCovers(shares, 0, g, x);
        assert OnlyIn(shares, x, i);
      }
    } else if |shares| == 1 {
      assert SumSizes(shares) == shares[0].size + SumSizes(shares[1..]) == shares[0].size;
      forall x: int | 0 <= x < total ensures CoveredOnce(topped, x) {
        assert OnlyIn(topped, x, 0);
      }
    } else {
      // the first item of the second interval is now in the first one too
      var x := shares[1].offset;
      ConsecutiveBounds(shares, 0, g, 0);
      ConsecutiveBounds(shares, 0, g, 1);
      assert topped[0].Has(x) && topped[1].Has(x);
      assert !CoveredOnce(topped, x);
    }
  }

  // ── How much rounding can leave over ──

  function SumScores(ws: seq<WorkerInfo>): real {
    if ws == [] then 0.0 else ws[0].score + SumScores(ws[1..])
  }

  ghost function SumPortions(ws: seq<WorkerInfo>, cap: real, total: nat): real
    requires NonNegative(ws) && cap > 0.0
  {
    if ws == [] then 0.0 else Portion(ws[0].score, cap, total) + SumPortions(ws[1..], cap, total)
  }

  /** The portions add up to the axis when `cap` is the sum of the scores. */
  lemma {:induction false} PortionsScale(ws: seq<WorkerInfo>, cap: real, total: nat)
    requires NonNegative(ws) && cap > 0.0
    ensures SumPortions(ws, cap, total) == (SumScores(ws) / cap) * (total as real)
  {
    if ws != [] {
      PortionsScale(ws[1..], cap, total);
      RatioSum(ws[0].score, SumScores(ws[1..]), cap, total as real);
    }
  }

  lemma {:induction false} RatioSum(a: real, b: real, cap: real, t: real)
    requires cap > 0.0
    ensures ((a + b) / cap) * t == (a / cap) * t + (b / cap) * t
  {
    var p, q := a / cap, b / cap;
    assert (a + b) / cap == p + q by {
      assert (p + q) * cap == a + b;
    }
  }

  lemma {:induction false} PortionsFill(ws: seq<WorkerInfo>, cap: real, total: nat)
    requires NonNegative(ws) && cap > 0.0 && cap == SumScores(ws)
    ensures SumPortions(ws, cap, total) == total as real
  {
    PortionsScale(ws, cap, total);
    assert cap / cap == 1.0;
  }

  /** From `from` to `end` the workers got all but a group of the axis, or lost at most g - 1/2 each. */
  ghost predicate LittleLost(n: nat, portions: real, total: nat, g: nat, from: nat, end: nat) {
    (n > 0 && total - end < g) || portions - (end - from) as real <= Times(n, g as real - 0.5)
  }

  lemma {:induction false} LoseOne(n: nat, x: real, portions: real, total: nat, g: nat, from: nat, items: nat, end: nat)
    requires LittleLost(n, portions, total, g, from + items, end) && items as real > x + 0.5 - g as real
    ensures LittleLost(n + 1, x + portions, total, g, from, end)
  {
  }

  /** Twice what the loop leaves of the portions, or less than one group. */
  lemma {:induction false} LeftoverOfPortions(ws: seq<WorkerInfo>, cap: real, total: nat, g: nat, from: nat)
    requires NonNegative(ws) && cap > 0.0 && g > 0 && from <= total
    ensures LittleLost(|ws|, SumPortions(ws, cap, total), total, g, from,
                       from + SumSizes(Shares(ws, cap, total, g, from)))
  {
    if ws != [] {
      var rest, x := ws[1..], Portion(ws[0].score, cap, total);
      var quota := Quota(ws[0].score, cap, total, g);
      var items := if from + quota > total then AlignDown(total - from, g) else quota;
      var shares := Shares(ws, cap, total, g, from);
      if quota == 0 {
        LeftoverOfPortions(rest, cap, total, g, from);
        LoseOne(|rest|, x, SumPortions(rest, cap, total), total, g, from, 0, from + SumSizes(shares));
      } else if items != 0 && from + items < total {
        LeftoverOfPortions(rest, cap, total, g, from + items);
        assert shares[1..] == Shares(rest, cap, total, g, from + items);
        if from + quota <= total {
          LoseOne(|rest|, x, SumPortions(rest, cap, total), total, g, from, items, from + SumSizes(shares));
        } else {
          SharesShape(rest, cap, total, g, from + items);
        }
      } else if items != 0 {
        assert shares[1..] == [];
      }
    }
  }

  lemma {:induction false} HalfGroups(n: nat, g: nat)
    ensures 2.0 * Times(n, g as real - 0.5) == (n * (2 * g - 1)) as real
  {
    TimesDouble(n, g as real - 0.5);
    TimesOfInt(n, 2 * g - 1);
    assert 2.0 * (g as real - 0.5) == (2 * g - 1) as real;
  }

  /** Rounding and aligning lose at most g - 1/2 items a worker. */
  predicate LeftoverWithin(left: int, n: nat, g: nat) { 0 <= 2 * left <= n * (2 * g - 1) }

  /** For n workers and group size g the top-up is at most n*(2g-1)/2 items. */
  lemma {:induction false} LeftoverBound(ws: seq<WorkerInfo>, cap: real, total: nat, g: nat)
    requires NonNegative(ws) && cap > 0.0 && g > 0 && cap == SumScores(ws)
    ensures LeftoverWithin(total - SumSizes(Shares(ws, cap, total, g, 0)), |ws|, g)
  {
    SharesShape(ws, cap, total, g, 0);
    LeftoverOfPortions(ws, cap, total, g, 0);
    PortionsFill(ws, cap, total);
    var left := total - SumSizes(Shares(ws, cap, total, g, 0));
    if |ws| > 0 && left < g {
      MulMonotone(1, |ws|, 2 * g - 1);
    } else {
      HalfGroups(|ws|, g);
    }
  }

  // ── When the split fails ──

  lemma {:induction false} ScoresNonNegative(ws: seq<WorkerInfo>)
    requires NonNegative(ws)
    ensures SumScores(ws) >= 0.0
    ensures forall w <- ws :: w.score <= SumScores(ws)
  {
    if ws != [] { ScoresNonNegative(ws[1..]); }
  }

  /** No single quota exceeds the axis rounded down to whole groups. */
  lemma {:induction false} QuotaAtMostTotal(score: real, cap: real, total: nat, g: nat)
    requires 0.0 <= score <= cap && cap > 0.0 && g > 0
    ensures Quota(score, cap, total, g) <= AlignDown(total, g)
  {
    var f := score / cap;
    assert f <= 1.0;
    assert f * (total as real) <= total as real;
    assert Round(Portion(score, cap, total)) <= total;
    AlignDownIsLargest(Quota(score, cap, total, g), total, g);
  }

  /** The split finds nobody to work exactly when every worker's quota rounds down to nothing. */
  lemma {:induction false} NoSharesIff(ws: seq<WorkerInfo>, cap: real, total: nat, g: nat)
    requires NonNegative(ws) && cap > 0.0 && g > 0 && forall w <- ws :: w.score <= cap
    ensures Shares(ws, cap, total, g, 0) == [] <==>
            forall w <- ws :: Portion(w.score, cap, total) < g as real - 0.5
  {
    if ws != [] {
      QuotaAtMostTotal(ws[0].score, cap, total, g);
      assert ws == [ws[0]] + ws[1..];
      NoSharesIff(ws[1..], cap, total, g);
    }
  }

  lemma {:induction false} SmallPortions(ws: seq<WorkerInfo>, cap: real, total: nat, bound: real)
    requires NonNegative(ws) && cap > 0.0 && forall w <- ws :: Portion(w.score, cap, total) < bound
    ensures SumPortions(ws, cap, total) <= Times(|ws|, bound)
    ensures ws != [] ==> SumPortions(ws, cap, total) < Times(|ws|, bound)
  {
    if ws != [] {
      SmallPortions(ws[1..], cap, total, bound);
    }
  }

  /** On average every one of n workers is due at least g - 1/2 items. */
  predicate EnoughFor(n: nat, g: nat, total: nat) {
    2 * total >= n * (2 * g - 1)
  }

  /** Pigeonhole: with enough items for everybody, somebody's quota is a whole group. */
  lemma {:induction false} EnoughItems(ws: seq<WorkerInfo>, cap: real, total: nat, g: nat)
    requires NonNegative(ws) && cap > 0.0 && g > 0 && cap == SumScores(ws)
    requires EnoughFor(|ws|, g, total)
    ensures Shares(ws, cap, total, g, 0) != []
  {
    ScoresNonNegative(ws);
    NoSharesIff(ws, cap, total, g);
    PortionsFill(ws, cap, total);
    if Shares(ws, cap, total, g, 0) == [] {
      SmallPortions(ws, cap, total, g as real - 0.5);
      HalfGroups(|ws|, g);
    }
  }

  /** The bound is sharp: between equal workers the split fails as soon as it is missed. */
  lemma {:induction false} EqualWorkersFailIff(ws: seq<WorkerInfo>, cap: real, total: nat, g: nat)
    requires NonNegative(ws) && cap > 0.0 && g > 0 && cap == SumScores(ws)
    requires forall v <- ws, w <- ws :: v.score == w.score
    ensures Shares(ws, cap, total, g, 0) == [] <==> !EnoughFor(|ws|, g, total)
  {
    ScoresNonNegative(ws);
    NoSharesIff(ws, cap, total, g);
    PortionsFill(ws, cap, total);
    var x := Portion(ws[0].score, cap, total);
    EqualPortions(ws, cap, total, x);
    HalfGroups(|ws|, g);
    TimesOrder(|ws|, x, g as real - 0.5);
  }

  lemma {:induction false} EqualPortions(ws: seq<WorkerInfo>, cap: real, total: nat, x: real)
    requires NonNegative(ws) && cap > 0.0 && forall w <- ws :: Portion(w.score, cap, total) == x
    ensures SumPortions(ws, cap, total) == Times(|ws|, x)
  {
    if ws != [] {
      EqualPortions(ws[1..], cap, total, x);
    }
  }

  // ── The whole split ──

  /** The first of the largest among the first `d` dimensions. */
  function SplitDim(globalSize: seq<nat>, d: nat): (dim: nat)
    requires d <= |globalSize| && 1 <= |globalSize|
    ensures dim < |globalSize| && (dim < d || dim == 0)
    ensures forall k | 0 <= k < d :: globalSize[k] <= globalSize[dim]
    ensures forall k | 0 <= k < dim :: globalSize[k] < globalSize[dim]
  {
    if d == 0 then 0
    else
      var before := SplitDim(globalSize, d - 1);
      if d > 1 && globalSize[d - 1] > globalSize[before] then d - 1 else before
  }

  function GroupSize(localSize: seq<nat>, dim: nat): (g: nat)
    ensures g > 0
  {
    if dim < |localSize| && localSize[dim] != 0 then localSize[dim] else 1
  }

  function Zeros(n: nat): (z: seq<nat>)
    ensures |z| == n && forall k | 0 <= k < n :: z[k] == 0
  {
    seq(n, _ => 0)
  }

  function ToSubTask(task: ComputeTask, dim: nat, share: Share): SubTask
    requires dim < |task.globalSize|
  {
    SubTask(share.workerId, task.globalSize[dim := share.size],
            Zeros(|task.globalSize|)[dim := share.offset], task.localSize)
  }

  function ToSubTasks(task: ComputeTask, dim: nat, shares: seq<Share>): seq<SubTask>
    requires dim < |task.globalSize|
  {
    seq(|shares|, i requires 0 <= i < |shares| => ToSubTask(task, dim, shares[i]))
  }

  /** The interval of the split axis a subtask describes. */
  function AxisRange(sub: SubTask, dim: nat): Share
    requires dim < |sub.globalSize| && dim < |sub.globalOffset|
  {
    Share(sub.workerId, sub.globalOffset[dim], sub.globalSize[dim])
  }

  /** The intervals before the top-up. */
  function TaskShares(task: ComputeTask, ws: seq<WorkerInfo>, cap: real): seq<Share>
    requires task.Indexable() && NonNegative(ws) && cap > 0.0
  {
    var dim := SplitDim(task.globalSize, task.workDim);
    Shares(ws, cap, task.globalSize[dim], GroupSize(task.localSize, dim), 0)
  }

  function SplitResult(task: ComputeTask, ws: seq<WorkerInfo>, cap: real): Result<seq<SubTask>, SplitError>
    requires NonNegative(ws)
  {
    if cap <= 0.0 then Err(NoCapability)
    else if !task.Indexable() then Err(Panic)
    else
      var dim := SplitDim(task.globalSize, task.workDim);
      var shares := TaskShares(task, ws, cap);
      if shares == [] then Err(AllTooSlow)
      else
        SharesShape(ws, cap, task.globalSize[dim], GroupSize(task.localSize, dim), 0);
        Ok(ToSubTasks(task, dim, TopUp(shares, task.globalSize[dim])))
  }

  /** Each subtask keeps the parent's other axes and local size and starts at 0 on them. */
  ghost predicate OtherAxesKept(task: ComputeTask, dim: nat, subs: seq<SubTask>) {
    forall i | 0 <= i < |subs| ::
      && |subs[i].globalSize| == |subs[i].globalOffset| == |task.globalSize|
      && subs[i].localSize == task.localSize
      && forall k | 0 <= k < |task.globalSize| && k != dim ::
           subs[i].globalSize[k] == task.globalSize[k] && subs[i].globalOffset[k] == 0
  }

  function AxisRanges(subs: seq<SubTask>, dim: nat): (r: seq<Share>)
    requires forall i | 0 <= i < |subs| :: dim < |subs[i].globalSize| && dim < |subs[i].globalOffset|
  {
    seq(|subs|, i requires 0 <= i < |subs| => AxisRange(subs[i], dim))
  }

  lemma {:induction false} HandOutStep(task: ComputeTask, dim: nat, all: seq<Share>, done: seq<Share>, share: Share,
                                       tail: seq<Share>, subTasks: seq<SubTask>, offset: nat)
    requires dim < |task.globalSize| && Handed(task, dim, done, subTasks, offset) && all == done + ([share] + tail)
    ensures Handed(task, dim, done + [share], subTasks + [ToSubTask(task, dim, share)], offset + share.size)
    ensures all == (done + [share]) + tail
  {
    SumAppend(done, share);
  }

  /** What the loop does for worker `i`. */
  lemma {:induction false} NextShare(ws: seq<WorkerInfo>, i: nat, cap: real, total: nat, g: nat, from: nat)
    requires NonNegative(ws) && cap > 0.0 && g > 0 && from <= total && i < |ws|
    ensures var quota := AlignDown(Round(Portion(ws[i].score, cap, total)), g);
            var items := if from + quota > total then AlignDown(total - from, g) else quota;
            Shares(ws[i..], cap, total, g, from) ==
            if quota == 0 then Shares(ws[i + 1..], cap, total, g, from)
            else if items == 0 then []
            else [Share(ws[i].id, from, items)]
                 + if from + items >= total then [] else Shares(ws[i + 1..], cap, total, g, from + items)
  {
    assert ws[i..][0] == ws[i] && ws[i..][1..] == ws[i + 1..];
  }

  /** `done` has been handed out, as `subTasks`. */
  ghost predicate Handed(task: ComputeTask, dim: nat, done: seq<Share>, subTasks: seq<SubTask>, offset: nat)
    requires dim < |task.globalSize|
  {
    subTasks == ToSubTasks(task, dim, done) && offset == SumSizes(done)
  }

  /** Enlarging the first subtask by what is left is the top-up of the first share. */
  lemma {:induction false} TopUpSubTasks(task: ComputeTask, dim: nat, shares: seq<Share>, total: nat,
                                         topped: seq<SubTask>)
    requires dim < |task.globalSize| && |shares| == |topped| > 0 && SumSizes(shares) <= total
    requires topped[0] == ToSubTask(task, dim, shares[0].(size := shares[0].size + (total - SumSizes(shares))))
    requires topped[1..] == ToSubTasks(task, dim, shares)[1..]
    ensures topped == ToSubTasks(task, dim, TopUp(shares, total))
  {
    forall i | 0 <= i < |topped| ensures topped[i] == ToSubTask(task, dim, TopUp(shares, total)[i]) {
      if i > 0 { assert topped[i] == topped[1..][i - 1]; }
    }
  }

  lemma {:induction false} SumAppend(shares: seq<Share>, s: Share)
    ensures SumSizes(shares + [s]) == SumSizes(shares) + s.size
  {
    if shares != [] {
      SumAppend(shares[1..], s);
      assert (shares + [s])[1..] == shares[1..] + [s];
    }
  }

  /** What every successful split looks like. */
  lemma {:induction false} SplitShape(task: ComputeTask, ws: seq<WorkerInfo>, cap: real)
    requires NonNegative(ws) && cap == SumScores(ws) && SplitResult(task, ws, cap).Ok?
    ensures task.Indexable()
    ensures var dim := SplitDim(task.globalSize, task.workDim);
            var g := GroupSize(task.localSize, dim);
            var total := task.globalSize[dim];
            var subs := SplitResult(task, ws, cap).value;
            var shares := TaskShares(task, ws, cap);
            && 1 <= |subs| == |shares| <= |ws|
            && OtherAxesKept(task, dim, subs)
            && Consecutive(shares, 0, g)
            && AxisRanges(subs, dim)[1..] == shares[1..]
            && AxisRange(subs[0], dim).offset == 0
            && SumSizes(AxisRanges(subs, dim)) == total
            && LeftoverWithin(total - SumSizes(shares), |ws|, g)
            && (Tiles(AxisRanges(subs, dim), total) <==> SumSizes(shares) == total || |subs| == 1)
  {
    var dim := SplitDim(task.globalSize, task.workDim);
    var g := GroupSize(task.localSize, dim);
    var total := task.globalSize[dim];
    var shares := TaskShares(task, ws, cap);
    SharesShape(ws, cap, total, g, 0);
    var subs := SplitResult(task, ws, cap).value;
    var topped := TopUp(shares, total);
    assert AxisRanges(subs, dim) == topped;
    TopUpSum(shares, total);
    TopUpTilesIff(shares, g, total);
    LeftoverBound(ws, cap, total, g);
  }

  /** All offsets on the axis, and all sizes but the first, are whole groups. */
  ghost predicate AlignedTo(subs: seq<SubTask>, dim: nat, g: nat)
    requires g > 0
  {
    forall i | 0 <= i < |subs| ::
      && dim < |subs[i].globalSize| == |subs[i].globalOffset|
      && subs[i].globalOffset[dim] % g == 0 && (i > 0 ==> subs[i].globalSize[dim] % g == 0)
  }

  lemma {:induction false} SubIsAligned(task: ComputeTask, dim: nat, g: nat, shares: seq<Share>, total: nat, i: nat)
    requires g > 0 && dim < |task.globalSize| && Consecutive(shares, 0, g) && SumSizes(shares) <= total && i < |shares|
    ensures var sub := ToSubTask(task, dim, TopUp(shares, total)[i]);
      && sub.globalOffset[dim] % g == 0 && (i > 0 ==> sub.globalSize[dim] % g == 0)
      && (i == 0 ==> sub.globalSize[dim] == shares[0].size + (total - SumSizes(shares)))
      && (i == 1 ==> sub.globalOffset[dim] == shares[0].size)
  {
    ConsecutiveBounds(shares, 0, g, i);
    if i == 1 { ConsecutiveBounds(shares, 0, g, 0); }
  }

  /**
   * Every success in the task's own local size: with a group size on the split axis, all offsets there and all sizes
   * but the topped-up one are whole groups, and the leftover is bounded in that size; without one it is 1.
   */
  lemma {:induction false} SplitIsAligned(task: ComputeTask, ws: seq<WorkerInfo>, cap: real)
    requires NonNegative(ws) && cap == SumScores(ws) && SplitResult(task, ws, cap).Ok?
    ensures task.Indexable()
    ensures var dim, subs := SplitDim(task.globalSize, task.workDim), SplitResult(task, ws, cap).value;
            var g := if dim < |task.localSize| && task.localSize[dim] > 0 then task.localSize[dim] else 1;
            var left: int := task.globalSize[dim] - SumSizes(TaskShares(task, ws, cap));
      && AlignedTo(subs, dim, g) && 0 <= 2 * left <= |ws| * (2 * g - 1)
      && (|subs| > 1 ==> subs[0].globalSize[dim] == subs[1].globalOffset[dim] + left)
  {
    var dim := SplitDim(task.globalSize, task.workDim);
    var g, total := GroupSize(task.localSize, dim), task.globalSize[dim];
    var shares := TaskShares(task, ws, cap);
    SharesShape(ws, cap, total, g, 0);
    LeftoverBound(ws, cap, total, g);
    forall i | 0 <= i < |shares| {
      SubIsAligned(task, dim, g, shares, total, i);
    }
  }

  /** `size` is the largest number of whole groups that rounding the worker's part of the axis to an item allows. */
  ghost predicate Due(w: WorkerInfo, cap: real, total: nat, g: nat, size: nat)
    requires cap > 0.0 && g > 0
  {
    size % g == 0 && size as real <= w.score / cap * (total as real) + 0.5 < (size + g) as real
  }

  lemma {:induction false} QuotaIsDue(w: WorkerInfo, cap: real, total: nat, g: nat)
    requires w.score >= 0.0 && cap > 0.0 && g > 0
    ensures Due(w, cap, total, g, Quota(w.score, cap, total, g))
  {
    var x := Portion(w.score, cap, total);
    var r := Round(x);
    assert r as real <= x + 0.5 < (r + 1) as real;
    assert AlignDown(r, g) as real <= r as real;
    assert (r + 1) as real <= (AlignDown(r, g) + g) as real;
  }

  ghost predicate Increasing(who: seq<nat>, n: nat) {
    (forall i | 0 <= i < |who| :: who[i] < n) && forall i, j | 0 <= i < j < |who| :: who[i] < who[j]
  }

  /** Share `k` goes to worker `who[k]` and is what that worker is due; the last may be cut where the axis ends. */
  ghost predicate DueShare(ws: seq<WorkerInfo>, cap: real, total: nat, g: nat, shares: seq<Share>, who: seq<nat>,
                           k: nat)
    requires cap > 0.0 && g > 0 && k < |shares| == |who| && who[k] < |ws|
  {
    && shares[k].workerId == ws[who[k]].id
    && (Due(ws[who[k]], cap, total, g, shares[k].size)
        || (k == |shares| - 1 && shares[k].size as real <= ws[who[k]].score / cap * (total as real) + 0.5
            && total - shares[k].End() < g))
  }

  /** The shares are those of the workers `who`; the others are due no whole group, or found none left. */
  ghost predicate Served(ws: seq<WorkerInfo>, cap: real, total: nat, g: nat, from: nat, shares: seq<Share>,
                         who: seq<nat>)
    requires cap > 0.0 && g > 0
  {
    && |who| == |shares| && Increasing(who, |ws|)
    && (forall k | 0 <= k < |shares| :: DueShare(ws, cap, total, g, shares, who, k))
    && forall i | 0 <= i < |ws| && i !in who :: PassedOver(ws[i], cap, total, g, from + SumSizes(shares))
  }

  ghost predicate PassedOver(w: WorkerInfo, cap: real, total: nat, g: nat, end: int)
    requires cap > 0.0 && g > 0
  {
    Due(w, cap, total, g, 0) || total - end < g
  }

  lemma {:induction false} ShiftedIn(who: seq<nat>, i: nat)
    ensures i + 1 in Shifted(who) <==> i in who
  {
    if i in who {
      var k :| 0 <= k < |who| && who[k] == i;
      assert Shifted(who)[k] == i + 1;
    }
  }

  lemma {:induction false} ServeSkip(ws: seq<WorkerInfo>, cap: real, total: nat, g: nat, from: nat,
                                     shares: seq<Share>, who: seq<nat>)
    requires cap > 0.0 && g > 0 && ws != [] && Due(ws[0], cap, total, g, 0)
    requires Served(ws[1..], cap, total, g, from, shares, who)
    ensures Served(ws, cap, total, g, from, shares, Shifted(who))
  {
    forall k | 0 <= k < |shares| ensures DueShare(ws, cap, total, g, shares, Shifted(who), k) {
      assert DueShare(ws[1..], cap, total, g, shares, who, k);
    }
    forall i | 0 <= i < |ws| && i !in Shifted(who)
      ensures PassedOver(ws[i], cap, total, g, from + SumSizes(shares))
    {
      if i > 0 {
        ShiftedIn(who, i - 1);
        assert PassedOver(ws[1..][i - 1], cap, total, g, from + SumSizes(shares));
      }
    }
  }

  lemma {:induction false} ServeOne(ws: seq<WorkerInfo>, cap: real, total: nat, g: nat, from: nat, share: Share,
                                    shares: seq<Share>, who: seq<nat>)
    requires cap > 0.0 && g > 0 && ws != [] && share.workerId == ws[0].id && share.offset == from
    requires Due(ws[0], cap, total, g, share.size)
    requires Served(ws[1..], cap, total, g, share.End(), shares, who)
    ensures Served(ws, cap, total, g, from, [share] + shares, [0] + Shifted(who))
  {
    var all, whom := [share] + shares, [0] + Shifted(who);
    assert SumSizes(all) == share.size + SumSizes(shares) by { assert all[1..] == shares; }
    forall k | 0 <= k < |all| ensures DueShare(ws, cap, total, g, all, whom, k) {
      if k > 0 { assert DueShare(ws[1..], cap, total, g, shares, who, k - 1); }
    }
    forall i | 0 <= i < |ws| && i !in whom ensures PassedOver(ws[i], cap, total, g, from + SumSizes(all)) {
      NotServed(who, i);
      assert PassedOver(ws[1..][i - 1], cap, total, g, share.End() + SumSizes(shares));
    }
  }

  lemma {:induction false} NotServed(who: seq<nat>, i: nat)
    requires i !in [0] + Shifted(who)
    ensures i > 0 && i - 1 !in who
  {
    assert i != ([0] + Shifted(who))[0];
    ShiftedIn(who, i - 1);
  }

  /** The last share, perhaps cut, leaves less than a group. */
  lemma {:induction false} ServeLast(ws: seq<WorkerInfo>, cap: real, total: nat, g: nat, from: nat, share: Share)
    requires cap > 0.0 && g > 0 && ws != [] && share.workerId == ws[0].id && share.offset == from
    requires share.size as real <= ws[0].score / cap * (total as real) + 0.5 && total - share.End() < g
    ensures Served(ws, cap, total, g, from, [share], [0])
  {
    assert SumSizes([share]) == share.size;
  }

  lemma {:induction false} NoGroupLeft(ws: seq<WorkerInfo>, cap: real, total: nat, g: nat, from: nat)
    requires NonNegative(ws) && cap > 0.0 && g > 0 && from <= total < from + g
    ensures Shares(ws, cap, total, g, from) == []
  {
    SharesShape(ws, cap, total, g, from);
    LessThanGroup(Shares(ws, cap, total, g, from), from, g, total - from);
  }

  lemma {:induction false} LessThanGroup(shares: seq<Share>, from: nat, g: nat, room: nat)
    requires g > 0 && Consecutive(shares, from, g) && SumSizes(shares) <= room < g
    ensures shares == []
  {
    if shares != [] { WholeGroup(shares[0].size, g); }
  }

  lemma {:induction false} WholeGroup(m: nat, g: nat)
    requires 0 < g && 0 < m && m % g == 0
    ensures m >= g
  {
  }

  /** What the loop gives the first worker, and what it goes on with. */
  lemma {:induction false} FirstServed(ws: seq<WorkerInfo>, cap: real, total: nat, g: nat, from: nat)
    returns (quota: nat, items: nat)
    requires NonNegative(ws) && cap > 0.0 && g > 0 && from <= total && ws != []
    ensures Due(ws[0], cap, total, g, quota) && items <= quota && from + items <= total
    ensures items < quota ==> total - (from + items) < g
    ensures Shares(ws, cap, total, g, from) ==
            if quota == 0 then Shares(ws[1..], cap, total, g, from)
            else if items == 0 then []
            else if total - (from + items) < g then [Share(ws[0].id, from, items)]
            else [Share(ws[0].id, from, items)] + Shares(ws[1..], cap, total, g, from + items)
  {
    quota := Quota(ws[0].score, cap, total, g);
    items := if from + quota > total then AlignDown(total - from, g) else quota;
    QuotaIsDue(ws[0], cap, total, g);
    if from + items <= total < from + items + g {
      NoGroupLeft(ws[1..], cap, total, g, from + items);
    }
  }

  /** Who gets a share: workers in their order, each what its own score is due. */
  lemma {:induction false} SharesAreDue(ws: seq<WorkerInfo>, cap: real, total: nat, g: nat, from: nat)
    returns (who: seq<nat>)
    requires NonNegative(ws) && cap > 0.0 && g > 0 && from <= total
    ensures Served(ws, cap, total, g, from, Shares(ws, cap, total, g, from), who)
    decreases |ws|
  {
    who := [];
    if ws != [] {
      var quota, items := FirstServed(ws, cap, total, g, from);
      var share := Share(ws[0].id, from, items);
      if quota == 0 {
        var rest := SharesAreDue(ws[1..], cap, total, g, from);
        who := Shifted(rest);
        ServeSkip(ws, cap, total, g, from, Shares(ws[1..], cap, total, g, from), rest);
      } else if items == 0 {
        NobodyServed(ws, cap, total, g, from);
      } else if total - (from + items) < g {
        who := [0];
        ServeLast(ws, cap, total, g, from, share);
      } else {
        var rest := SharesAreDue(ws[1..], cap, total, g, from + items);
        who := [0] + Shifted(rest);
        ServeOne(ws, cap, total, g, from, share, Shares(ws[1..], cap, total, g, from + items), rest);
      }
    }
  }

  lemma {:induction false} NobodyServed(ws: seq<WorkerInfo>, cap: real, total: nat, g: nat, from: nat)
    requires cap > 0.0 && g > 0 && total - from < g
    ensures Served(ws, cap, total, g, from, [], [])
  {
  }

  /** The subtask is the share of its worker; the first one has at least its share. */
  ghost predicate IsShare(sub: SubTask, dim: nat, share: Share, first: bool) {
    && sub.workerId == share.workerId && dim < |sub.globalSize| && dim < |sub.globalOffset|
    && sub.globalOffset[dim] == share.offset
    && (if first then sub.globalSize[dim] >= share.size else sub.globalSize[dim] == share.size)
  }

  ghost predicate AreShares(subs: seq<SubTask>, dim: nat, shares: seq<Share>) {
    |subs| == |shares| && forall k | 0 <= k < |subs| :: IsShare(subs[k], dim, shares[k], k == 0)
  }

  lemma {:induction false} SubIsShare(task: ComputeTask, dim: nat, shares: seq<Share>, total: nat)
    requires dim < |task.globalSize| && SumSizes(shares) <= total
    ensures AreShares(ToSubTasks(task, dim, TopUp(shares, total)), dim, shares)
  {
  }

  /** So every subtask of a split belongs to a worker of the list and is what that worker's score is due. */
  lemma {:induction false} SplitIsDue(task: ComputeTask, ws: seq<WorkerInfo>, cap: real) returns (who: seq<nat>)
    requires NonNegative(ws) && cap == SumScores(ws) && SplitResult(task, ws, cap).Ok?
    ensures task.Indexable()
    ensures var dim := SplitDim(task.globalSize, task.workDim);
            var g := if dim < |task.localSize| && task.localSize[dim] > 0 then task.localSize[dim] else 1;
      && Served(ws, cap, task.globalSize[dim], g, 0, TaskShares(task, ws, cap), who)
      && AreShares(SplitResult(task, ws, cap).value, dim, TaskShares(task, ws, cap))
  {
    var dim := SplitDim(task.globalSize, task.workDim);
    who := SharesAreDue(ws, cap, task.globalSize[dim], GroupSize(task.localSize, dim), 0);
    SharesShape(ws, cap, task.globalSize[dim], GroupSize(task.localSize, dim), 0);
    SubIsShare(task, dim, TaskShares(task, ws, cap), task.globalSize[dim]);
  }

  function Shifted(who: seq<nat>): (r: seq<nat>)
    ensures |r| == |who| && forall i | 0 <= i < |r| :: r[i] == who[i] + 1
  {
    seq(|who|, i requires 0 <= i < |who| => who[i] + 1)
  }

  /**
   * The leftover case occurs: two equal workers, five items in groups of two. Each is due 2.5 items and gets a
   * group, and the first takes the fifth item on top: item 2 is computed twice and item 4 by nobody.
   */
  lemma {:induction false} LeftoverOverlaps(a: WorkerInfo, b: WorkerInfo, score: real)
    requires a.score == b.score == score > 0.0
    ensures var split := SplitResult(ComputeTask(1, [5], [2]), [a, b], score + score);
            && split == Ok([SubTask(a.id, [3], [0], [2]), SubTask(b.id, [2], [2], [2])])
            && AxisRanges(split.value, 0) == [Share(a.id, 0, 3), Share(b.id, 2, 2)]
            && !Tiles(AxisRanges(split.value, 0), 5)
  {
    var task, ws, cap := ComputeTask(1, [5], [2]), [a, b], score + score;
    OneGroupEach(a, b, score);
    assert TopUp(TaskShares(task, ws, cap), 5) == [Share(a.id, 0, 3), Share(b.id, 2, 2)];
    var ranges := [Share(a.id, 0, 3), Share(b.id, 2, 2)];
    assert SplitResult(task, ws, cap) == Ok(ToSubTasks(task, 0, ranges));
    assert [5][0 := 3] == [3] && [5][0 := 2] == [2] && Zeros(1) == [0] && [0][0 := 0] == [0] && [0][0 := 2] == [2];
    assert ToSubTask(task, 0, ranges[0]) == SubTask(a.id, [3], [0], [2]);
    assert ToSubTask(task, 0, ranges[1]) == SubTask(b.id, [2], [2], [2]);
    assert ToSubTasks(task, 0, ranges) == [SubTask(a.id, [3], [0], [2]), SubTask(b.id, [2], [2], [2])];
    assert AxisRanges(ToSubTasks(task, 0, ranges), 0) == ranges;
    assert !CoveredOnce(ranges, 4);
  }

  lemma {:induction false} OneGroupEach(a: WorkerInfo, b: WorkerInfo, score: real)
    requires a.score == b.score == score > 0.0
    ensures Shares([a, b], score + score, 5, 2, 0) == [Share(a.id, 0, 2), Share(b.id, 2, 2)]
    ensures SumSizes(Shares([a, b], score + score, 5, 2, 0)) == 4
  {
    var ws, cap := [a, b], score + score;
    assert score / cap == 0.5;
    assert Portion(score, cap, 5) == 2.5;
    assert Quota(score, cap, 5, 2) == 2;
    assert ws[0] == a && ws[1..] == [b] && ws[1..][1..] == [];
    assert Shares([], cap, 5, 2, 4) == [];
    assert Shares([b], cap, 5, 2, 2) == [Share(b.id, 2, 2)];
    assert Shares(ws, cap, 5, 2, 0) == [Share(a.id, 0, 2)] + Shares(ws[1..], cap, 5, 2, 2);
    assert SumSizes([Share(b.id, 2, 2)]) == 2;
  }

  /** The split fails exactly when every portion is short of a group by more than rounding can add,
      which cannot happen once 2*total >= n*(2g-1), so not once total >= n*g. */
  lemma {:induction false} SplitFailsIff(task: ComputeTask, ws: seq<WorkerInfo>, cap: real)
    requires task.Indexable() && NonNegative(ws) && cap == SumScores(ws) && cap > 0.0
    ensures var dim := SplitDim(task.globalSize, task.workDim);
            var g := GroupSize(task.localSize, dim);
            var total := task.globalSize[dim];
            && (SplitResult(task, ws, cap).Err? <==> forall w <- ws :: Portion(w.score, cap, total) < g as real - 0.5)
            && (EnoughFor(|ws|, g, total) ==> SplitResult(task, ws, cap).Ok?)
            && (total >= |ws| * g ==> SplitResult(task, ws, cap).Ok?)
  {
    var dim := SplitDim(task.globalSize, task.workDim);
    var g := GroupSize(task.localSize, dim);
    var total := task.globalSize[dim];
    ScoresNonNegative(ws);
    NoSharesIff(ws, cap, total, g);
    SplitOkIff(task, ws, cap);
    if total >= |ws| * g {
      GroupsForAll(|ws|, g, total);
    }
    if EnoughFor(|ws|, g, total) {
      EnoughItems(ws, cap, total, g);
    }
  }

  lemma {:induction false} GroupsForAll(n: nat, g: nat, total: nat)
    requires total >= n * g
    ensures EnoughFor(n, g, total)
  {
    assert n * (2 * g - 1) == 2 * (n * g) - n;
  }

  lemma {:induction false} SplitOkIff(task: ComputeTask, ws: seq<WorkerInfo>, cap: real)
    requires NonNegative(ws)
    ensures SplitResult(task, ws, cap).Ok? <==> cap > 0.0 && task.Indexable() && TaskShares(task, ws, cap) != []
  {
  }

  // ── The scheduler object ──

  ghost predicate SortedByScore(ws: seq<WorkerInfo>) {
    forall i, j | 0 <= i < j < |ws| :: ws[i].score >= ws[j].score
  }

  /** `ws` lists the active entries of `m`, each once, fastest first. */
  ghost predicate ListsActive(ws: seq<WorkerInfo>, m: map<string, WorkerInfo>) {
    && SortedByScore(ws)
    && (forall i, j | 0 <= i < j < |ws| :: ws[i].id != ws[j].id)
    && (forall w <- ws :: w.id in m && m[w.id] == w && Active(w))
    && (forall id <- m :: Active(m[id]) ==> m[id] in ws)
  }

  /** As ListsActive, for the workers that are no longer to do. */
  ghost predicate ListsSome(ws: seq<WorkerInfo>, m: map<string, WorkerInfo>, todo: set<string>) {
    && SortedByScore(ws)
    && (forall i, j | 0 <= i < j < |ws| :: ws[i].id != ws[j].id)
    && (forall w <- ws :: w.id in m && w.id !in todo && m[w.id] == w && Active(w))
    && (forall id <- m :: id !in todo && Active(m[id]) ==> m[id] in ws)
  }

  ghost predicate IsInsertion(ws: seq<WorkerInfo>, w: WorkerInfo, r: seq<WorkerInfo>) {
    exists k :: 0 <= k <= |ws| && r == ws[..k] + [w] + ws[k..]
  }

  lemma {:induction false} ListsOneMore(ws: seq<WorkerInfo>, r: seq<WorkerInfo>, m: map<string, WorkerInfo>,
                                        todo: set<string>, w: WorkerInfo)
    requires w.id in m && m[w.id] == w && Active(w) && w.id !in todo
    requires ListsSome(ws, m, todo + {w.id}) && IsInsertion(ws, w, r) && SortedByScore(r)
    ensures ListsSome(r, m, todo)
  {
    var k :| 0 <= k <= |ws| && r == ws[..k] + [w] + ws[k..];
    forall v: WorkerInfo ensures v in r <==> v == w || v in ws {
      assert ws == ws[..k] + ws[k..];
    }
    forall i, j | 0 <= i < j < |r| ensures r[i].id != r[j].id {
      InsertedAt(ws, w, r, k, i);
      InsertedAt(ws, w, r, k, j);
    }
  }

  lemma {:induction false} InsertedAt(ws: seq<WorkerInfo>, w: WorkerInfo, r: seq<WorkerInfo>, k: nat, i: nat)
    requires k <= |ws| && r == ws[..k] + [w] + ws[k..] && i < |r|
    ensures r[i] == if i < k then ws[i] else if i == k then w else ws[i - 1]
  {
  }

  lemma {:induction false} SumOfSplit(a: seq<WorkerInfo>, w: WorkerInfo, b: seq<WorkerInfo>)
    ensures SumScores(a + [w] + b) == w.score + SumScores(a + b)
  {
    if a == [] {
      assert a + [w] + b == [w] + b && ([w] + b)[1..] == b && a + b == b;
    } else {
      SumOfSplit(a[1..], w, b);
      assert (a + [w] + b)[1..] == a[1..] + [w] + b && (a + b)[1..] == a[1..] + b;
    }
  }

  /** The first of `a` stands somewhere in `b`, and the two lists agree without it. */
  lemma {:induction false} TakeFirst(a: seq<WorkerInfo>, b: seq<WorkerInfo>) returns (rest: seq<WorkerInfo>)
    requires a != [] && multiset(a) == multiset(b)
    ensures multiset(a[1..]) == multiset(rest) && SumScores(b) == a[0].score + SumScores(rest)
  {
    assert a[0] in multiset(b);
    var k :| 0 <= k < |b| && b[k] == a[0];
    WithoutOne(b, k);
    rest := b[..k] + b[k + 1..];
    assert a == [a[0]] + a[1..];
  }

  /** The sum of the scores does not depend on how a list orders its workers. */
  lemma {:induction false} SumOrderIrrelevant(a: seq<WorkerInfo>, b: seq<WorkerInfo>)
    requires multiset(a) == multiset(b)
    ensures SumScores(a) == SumScores(b)
  {
    if a != [] {
      var rest := TakeFirst(a, b);
      SumOrderIrrelevant(a[1..], rest);
    } else {
      assert |multiset(a)| == 0 == |multiset(b)|;
    }
  }

  lemma {:induction false} WithoutOne(s: seq<WorkerInfo>, k: nat)
    requires k < |s|
    ensures multiset(s[..k] + s[k + 1..]) == multiset(s) - multiset{s[k]}
    ensures SumScores(s) == s[k].score + SumScores(s[..k] + s[k + 1..])
  {
    assert s == s[..k] + [s[k]] + s[k + 1..];
    SumOfSplit(s[..k], s[k], s[k + 1..]);
  }

  lemma {:induction false} ActiveListsAgree(a: seq<WorkerInfo>, b: seq<WorkerInfo>, m: map<string, WorkerInfo>)
    requires ListsActive(a, m) && ListsActive(b, m)
    ensures SumScores(a) == SumScores(b)
  {
    forall w: WorkerInfo ensures multiset(a)[w] == multiset(b)[w] {
      OnceAtMost(a, w);
      OnceAtMost(b, w);
      assert w in a <==> w in b;
    }
    SumOrderIrrelevant(a, b);
  }

  lemma {:induction false} OnceAtMost(a: seq<WorkerInfo>, w: WorkerInfo)
    requires forall i, j | 0 <= i < j < |a| :: a[i].id != a[j].id
    ensures multiset(a)[w] == if w in a then 1 else 0
  {
    if a != [] {
      OnceAtMost(a[1..], w);
      assert a == [a[0]] + a[1..];
    }
  }

  class Scheduler {
    var Workers: map<string, WorkerInfo>

    /** RegisterWorker files each worker under its own id; scores are not negative. */
    ghost predicate Valid() reads this {
      forall id <- Workers :: Workers[id].id == id && Workers[id].score >= 0.0
    }

    constructor ()
      ensures Valid() && Workers == map[]
    {
      Workers := map[];
    }

    method RegisterWorker(w: WorkerInfo)
      modifies this
      ensures Workers == old(Workers)[w.id := w]
      ensures old(Valid()) && w.score >= 0.0 ==> Valid()
    {
      Workers := Workers[w.id := w];
    }

    method RemoveWorker(workerId: string)
      modifies this
      ensures Workers == old(Workers) - {workerId}
      ensures old(Valid()) ==> Valid()
    {
      Workers := Workers - {workerId};
    }

    method GetActiveWorkers() returns (active: seq<WorkerInfo>)
      requires Valid()
      ensures ListsActive(active, Workers) && NonNegative(active)
      ensures forall w ::
        w in active <==> w.id in Workers && Workers[w.id] == w && (w.status == "idle" || w.status == "busy")
    {
      active := [];
      var todo := Workers.Keys;
      while todo != {}
        invariant todo <= Workers.Keys
        invariant ListsSome(active, Workers, todo)
        decreases todo
      {
        var id :| id in todo;
        todo := todo - {id};
        var w := Workers[id];
        if Active(w) {
          var before := active;
          active := InsertByScore(before, w);
          ListsOneMore(before, active, Workers, todo, w);
        }
      }
    }

    /** One step of the descending sort. */
    static method InsertByScore(sorted: seq<WorkerInfo>, w: WorkerInfo) returns (r: seq<WorkerInfo>)
      requires SortedByScore(sorted)
      ensures SortedByScore(r) && IsInsertion(sorted, w, r)
    {
      var k := 0;
      while k < |sorted| && sorted[k].score >= w.score
        invariant 0 <= k <= |sorted|
        invariant forall i | 0 <= i < k :: sorted[i].score >= w.score
      {
        k := k + 1;
      }
      r := sorted[..k] + [w] + sorted[k..];
    }

    method TotalCapability() returns (total: real)
      requires Valid()
      ensures forall ws | ListsActive(ws, Workers) :: total == SumScores(ws)
    {
      var ws := GetActiveWorkers();
      total := Sum(ws);
      forall vs | ListsActive(vs, Workers) ensures total == SumScores(vs) {
        ActiveListsAgree(ws, vs, Workers);
      }
    }

    static method Sum(ws: seq<WorkerInfo>) returns (total: real)
      ensures total == SumScores(ws)
    {
      total := 0.0;
      var i := 0;
      while i < |ws|
        invariant 0 <= i <= |ws|
        invariant total + SumScores(ws[i..]) == SumScores(ws)
      {
        total := total + ws[i].score;
        assert ws[i..][1..] == ws[i + 1..];
        i := i + 1;
      }
    }

    method SplitNDRangeForWorkers(task: ComputeTask, workers: seq<WorkerInfo>)
      returns (r: Result<seq<SubTask>, SplitError>)
      requires NonNegative(workers)
      ensures r == if workers == [] then Err(NoWorkers) else SplitResult(task, workers, SumScores(workers))
    {
      if |workers| == 0 {
        return Err(NoWorkers);
      }
      var totalCap := Sum(workers);
      r := Split(task, workers, totalCap);
    }

    method SplitNDRange(task: ComputeTask) returns (r: Result<seq<SubTask>, SplitError>)
      requires Valid()
      ensures exists ws | ListsActive(ws, Workers) && NonNegative(ws) ::
                r == if ws == [] then Err(NoWorkers) else SplitResult(task, ws, SumScores(ws))
    {
      var workers := GetActiveWorkers();
      if |workers| == 0 {
        return Err(NoWorkers);
      }
      var totalCap := TotalCapability();
      r := Split(task, workers, totalCap);
    }

    /** The axis and the alignment splitNDRange works with; not ok where indexing GlobalSize panics. */
    static method ChooseAxis(task: ComputeTask) returns (ok: bool, splitDim: nat, localGroupSize: nat)
      ensures ok <==> task.Indexable()
      ensures ok ==> splitDim == SplitDim(task.globalSize, task.workDim)
      ensures ok ==> localGroupSize == GroupSize(task.localSize, splitDim)
    {
      splitDim, localGroupSize := 0, 1;
      var maxSize, d := 0, 0;
      while d < task.workDim
        invariant 0 <= d <= task.workDim && d <= |task.globalSize|
        invariant |task.globalSize| > 0 ==> splitDim == SplitDim(task.globalSize, d)
        invariant maxSize == if d == 0 then 0 else task.globalSize[splitDim]
      {
        if d >= |task.globalSize| {
          return false, splitDim, localGroupSize;
        }
        if task.globalSize[d] > maxSize {
          maxSize := task.globalSize[d];
          splitDim := d;
        }
        d := d + 1;
      }
      if |task.globalSize| == 0 {
        return false, splitDim, localGroupSize;
      }
      ok := true;
      localGroupSize := 1;
      if splitDim < |task.localSize| {
        localGroupSize := task.localSize[splitDim];
      }
      if localGroupSize == 0 {
        localGroupSize := 1;
      }
    }

    /** What worker `i` is due, and what of it is left to give. */
    static method NextItems(workers: seq<WorkerInfo>, i: nat, totalCap: real, totalItems: nat, localGroupSize: nat,
                            currentOffset: nat)
      returns (quota: nat, items: nat)
      requires NonNegative(workers) && totalCap > 0.0 && localGroupSize > 0 && currentOffset <= totalItems
      requires i < |workers|
      ensures quota > 0 ==> currentOffset + items <= totalItems
      ensures Shares(workers[i..], totalCap, totalItems, localGroupSize, currentOffset) ==
              if quota == 0 then Shares(workers[i + 1..], totalCap, totalItems, localGroupSize, currentOffset)
              else if items == 0 then []
              else [Share(workers[i].id, currentOffset, items)]
                   + if currentOffset + items >= totalItems then []
                     else Shares(workers[i + 1..], totalCap, totalItems, localGroupSize, currentOffset + items)
    {
      NextShare(workers, i, totalCap, totalItems, localGroupSize, currentOffset);
      quota := Round(Portion(workers[i].score, totalCap, totalItems));
      quota := AlignDown(quota, localGroupSize);
      items := quota;
      if currentOffset + items > totalItems {
        items := AlignDown(totalItems - currentOffset, localGroupSize);
      }
    }

    /** One more subtask; `tail` are the shares still to come. */
    static method GiveShare(task: ComputeTask, splitDim: nat, worker: WorkerInfo, items: nat, before: seq<SubTask>,
                            currentOffset: nat, ghost all: seq<Share>, ghost done: seq<Share>, ghost tail: seq<Share>)
      returns (subTasks: seq<SubTask>, ghost given: seq<Share>)
      requires splitDim < |task.globalSize| && items > 0 && Handed(task, splitDim, done, before, currentOffset)
      requires all == done + ([Share(worker.id, currentOffset, items)] + tail)
      ensures Handed(task, splitDim, given, subTasks, currentOffset + items) && all == given + tail
    {
      ghost var share := Share(worker.id, currentOffset, items);
      HandOutStep(task, splitDim, all, done, share, tail, before, currentOffset);
      var globalSize := task.globalSize[splitDim := items];
      var globalOffset := Zeros(|task.globalSize|)[splitDim := currentOffset];
      subTasks := before + [SubTask(worker.id, globalSize, globalOffset, task.localSize)];
      given := done + [share];
    }

    /** The loop body for worker `i`; `more` is false where it breaks. */
    static method GiveNext(task: ComputeTask, splitDim: nat, workers: seq<WorkerInfo>, i: nat, totalCap: real,
                           localGroupSize: nat, before: seq<SubTask>, currentOffset: nat,
                           ghost all: seq<Share>, ghost done: seq<Share>)
      returns (subTasks: seq<SubTask>, offset: nat, more: bool, ghost given: seq<Share>)
      requires NonNegative(workers) && totalCap > 0.0 && splitDim < |task.globalSize| && localGroupSize > 0
      requires i < |workers| && currentOffset <= task.globalSize[splitDim]
      requires Handed(task, splitDim, done, before, currentOffset)
      requires all == done + Shares(workers[i..], totalCap, task.globalSize[splitDim], localGroupSize, currentOffset)
      ensures offset <= task.globalSize[splitDim] && Handed(task, splitDim, given, subTasks, offset)
      ensures !more ==> all == given
      ensures more ==>
        all == given + Shares(workers[i + 1..], totalCap, task.globalSize[splitDim], localGroupSize, offset)
    {
      var totalItems := task.globalSize[splitDim];
      var quota, items := NextItems(workers, i, totalCap, totalItems, localGroupSize, currentOffset);
      if quota == 0 {
        return before, currentOffset, true, done;
      }
      if items == 0 {
        assert all == done + [] == done;
        return before, currentOffset, false, done;
      }
      offset := currentOffset + items;
      more := offset < totalItems;
      ghost var tail := if more then Shares(workers[i + 1..], totalCap, totalItems, localGroupSize, offset) else [];
      ghost var share := Share(workers[i].id, currentOffset, items);
      assert Shares(workers[i..], totalCap, totalItems, localGroupSize, currentOffset) == [share] + tail;
      subTasks, given := GiveShare(task, splitDim, workers[i], items, before, currentOffset, all, done, tail);
      if !more {
        assert all == given + [] == given;
      }
    }

    /** The worker loop of splitNDRange. */
    static method HandOut(task: ComputeTask, workers: seq<WorkerInfo>, totalCap: real, splitDim: nat,
                          localGroupSize: nat)
      returns (subTasks: seq<SubTask>, currentOffset: nat)
      requires NonNegative(workers) && totalCap > 0.0 && splitDim < |task.globalSize| && localGroupSize > 0
      ensures Handed(task, splitDim, Shares(workers, totalCap, task.globalSize[splitDim], localGroupSize, 0),
                     subTasks, currentOffset)
    {
      subTasks, currentOffset := [], 0;
      ghost var all := Shares(workers, totalCap, task.globalSize[splitDim], localGroupSize, 0);
      ghost var done: seq<Share> := [];
      var i, more := 0, true;
      assert workers[0..] == workers;
      while i < |workers| && more
        invariant 0 <= i <= |workers| && currentOffset <= task.globalSize[splitDim]
        invariant Handed(task, splitDim, done, subTasks, currentOffset)
        invariant !more ==> all == done
        invariant more ==>
          all == done + Shares(workers[i..], totalCap, task.globalSize[splitDim], localGroupSize, currentOffset)
      {
        subTasks, currentOffset, more, done :=
          GiveNext(task, splitDim, workers, i, totalCap, localGroupSize, subTasks, currentOffset, all, done);
        i := i + 1;
      }
      assert done == all;
    }

    /** splitNDRange, the shared implementation. */
    static method Split(task: ComputeTask, workers: seq<WorkerInfo>, totalCap: real)
      returns (r: Result<seq<SubTask>, SplitError>)
      requires NonNegative(workers)
      ensures r == SplitResult(task, workers, totalCap)
      ensures r == Err(NoCapability) <==> totalCap <= 0.0
      ensures r == Err(Panic) <==> totalCap > 0.0 && (|task.globalSize| == 0 || task.workDim > |task.globalSize|)
      ensures r.Err? && r != Err(NoCapability) && r != Err(Panic) ==> r == Err(AllTooSlow)
    {
      if totalCap <= 0.0 {
        return Err(NoCapability);
      }
      var ok, splitDim, localGroupSize := ChooseAxis(task);
      if !ok {
        return Err(Panic);
      }
      var totalItems := task.globalSize[splitDim];
      var subTasks, currentOffset := HandOut(task, workers, totalCap, splitDim, localGroupSize);
      ghost var all := TaskShares(task, workers, totalCap);
      SharesShape(workers, totalCap, totalItems, localGroupSize, 0);

      if currentOffset < totalItems && |subTasks| > 0 {
        var remaining := totalItems - currentOffset;
        var first := subTasks[0];
        var larger := first.globalSize[splitDim := first.globalSize[splitDim] + remaining];
        assert larger == task.globalSize[splitDim := all[0].size + remaining];
        subTasks := subTasks[0 := first.(globalSize := larger)];
      }
      if |subTasks| == 0 {
        return Err(AllTooSlow);
      }
      TopUpSubTasks(task, splitDim, all, totalItems, subTasks);
      return Ok(subTasks);
    }
  }
}
