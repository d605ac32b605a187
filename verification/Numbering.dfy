/**
 * Numbering by counting: a new buffer gets the number of live buffers plus one. What numbers several new buffers
 * get, whether they are taken, and which are live after some of the new ones have been released again.
 */
module Numbering {
  import opened Common

  // ── Giving numbers ──

  /** The p-th of several new numbers, if each of them was new. */
  function NewNum(nums: set<nat>, p: nat): nat { |nums| + p + 1 }

  /** The numbers after `n` buffers have been made. */
  function Given(nums: set<nat>, n: nat): set<nat> {
    if n == 0 then nums
    else
      var before := Given(nums, n - 1);
      before + {|before| + 1}
  }

  /** The numbers that `n` buffers get. */
  function Numbers(nums: set<nat>, n: nat): set<nat> { set p: nat | p < n :: |Given(nums, p)| + 1 }

  /** None of the first `n` new numbers is taken. */
  ghost predicate Free(nums: set<nat>, n: nat) { forall p: nat | p < n :: NewNum(nums, p) !in nums }

  /** How many of `n` numbers are new before the first that is taken. */
  function FreeCount(nums: set<nat>, n: nat): (q: nat)
    ensures q <= n && Free(nums, q) && (q < n ==> NewNum(nums, q) in nums)
  {
    if n == 0 then 0
    else
      var q := FreeCount(nums, n - 1);
      if q < n - 1 || NewNum(nums, n - 1) in nums then q else n
  }

  /** There is room for `n` buffers: all but the last find their number free. */
  ghost predicate HasRoom(nums: set<nat>, n: nat) { n == 0 || Free(nums, n - 1) }

  /** lo + 1 .. lo + n. */
  function Range(lo: nat, n: nat): set<nat> { if n == 0 then {} else Range(lo, n - 1) + {lo + n} }

  lemma {:induction false} RangeIs(lo: nat, n: nat)
    ensures |Range(lo, n)| == n && forall i: nat :: i in Range(lo, n) <==> lo < i <= lo + n
  {
    if n > 0 {
      RangeIs(lo, n - 1);
    }
  }

  function NewNums(nums: set<nat>, n: nat): set<nat> { Range(|nums|, n) }

  /** `now` has `nums` and the first `m` new numbers. */
  ghost predicate Grown(nums: set<nat>, now: set<nat>, m: nat) {
    |now| == |nums| + m && forall i: nat :: i in now <==> i in nums || |nums| < i <= |nums| + m
  }

  lemma {:induction false} OneMoreGiven(nums: set<nat>, now: set<nat>, q: nat, n: nat)
    requires Free(nums, q) && (n >= q ==> NewNum(nums, q) in nums) && Grown(nums, now, Min(n, q))
    ensures Grown(nums, now + {|now| + 1}, Min(n + 1, q))
  {
    if n < q {
      assert NewNum(nums, n) !in nums;
    } else {
      assert now + {NewNum(nums, q)} == now;
    }
  }

  /** New numbers up to the first that is taken, which is given to every buffer from there on. */
  lemma {:induction false} GivenAre(nums: set<nat>, n: nat, q: nat)
    requires Free(nums, q) && (n > q ==> NewNum(nums, q) in nums)
    ensures Grown(nums, Given(nums, n), Min(n, q))
  {
    if n > 0 {
      GivenAre(nums, n - 1, q);
      OneMoreGiven(nums, Given(nums, n - 1), q, n - 1);
    }
  }

  /** The number of the p-th of `n` new buffers. */
  lemma {:induction false} NumberOf(nums: set<nat>, n: nat, p: nat)
    requires p < n
    ensures |Given(nums, p)| + 1 == NewNum(nums, Min(p, FreeCount(nums, n)))
  {
    GivenAre(nums, p, FreeCount(nums, n));
  }

  /** Where there is room they are the new numbers in order. */
  lemma {:induction false} RoomNumber(nums: set<nat>, n: nat, p: nat)
    requires HasRoom(nums, n) && p < n
    ensures |Given(nums, p)| + 1 == NewNum(nums, p)
  {
    NumberOf(nums, n, p);
    RoomCount(nums, n);
  }

  lemma {:induction false} RoomCount(nums: set<nat>, n: nat)
    ensures HasRoom(nums, n) <==> n <= FreeCount(nums, n) + 1
  {
  }

  lemma {:induction false} RoomGiven(nums: set<nat>, n: nat)
    requires HasRoom(nums, n)
    ensures Given(nums, n) == nums + NewNums(nums, n)
  {
    var q := FreeCount(nums, n);
    GivenAre(nums, n, q);
    RoomCount(nums, n);
    RangeIs(|nums|, n);
    forall i: nat ensures i in Given(nums, n) <==> i in nums || i in NewNums(nums, n) {
      if i == |nums| + n && q < n { assert i == NewNum(nums, q); }
    }
  }

  // ── Releasing the last copies ──

  /** Of the copies that got new numbers, `lasts` says which are released; the others are superseded and stay. */
  function LastNums(nums: set<nat>, lasts: seq<bool>): set<nat> {
    set p: nat | p < |lasts| && lasts[p] :: NewNum(nums, p)
  }

  function NumsAfter(nums: set<nat>, lasts: seq<bool>): set<nat> {
    nums + NewNums(nums, |lasts|) - LastNums(nums, lasts)
  }

  lemma {:induction false} CopyStaysIff(nums: set<nat>, lasts: seq<bool>, p: nat)
    requires p < |lasts|
    ensures NewNum(nums, p) in NumsAfter(nums, lasts) <==> !lasts[p]
  {
    RangeIs(|nums|, |lasts|);
  }

  // ── Numbers without gaps ──

  function Upto(k: nat): set<nat> { Range(0, k) }

  ghost predicate Gapless(nums: set<nat>) { exists k: nat :: nums == Upto(k) }

  /** Without gaps every new number is free, and more numbers make no gap. */
  lemma {:induction false} UptoFree(k: nat, n: nat)
    ensures Free(Upto(k), n) && HasRoom(Upto(k), n)
    ensures Upto(k) + NewNums(Upto(k), n) == Upto(k + n)
  {
    RangeIs(0, k);
    UptoGrows(k, n);
  }

  lemma {:induction false} UptoGrows(k: nat, n: nat)
    ensures Range(0, k) + Range(k, n) == Range(0, k + n)
  {
    RangeIs(0, k);
    RangeIs(k, n);
    RangeIs(0, k + n);
    forall i: nat ensures i in Range(0, k) + Range(k, n) <==> i in Range(0, k + n) {}
  }

  /** What is live after the copies. */
  lemma {:induction false} AfterIs(k: nat, lasts: seq<bool>, i: nat)
    ensures i in NumsAfter(Upto(k), lasts) <==>
            1 <= i <= k || (k < i <= k + |lasts| && !lasts[i - k - 1])
  {
    RangeIs(0, k);
    RangeIs(k, |lasts|);
    if k < i <= k + |lasts| {
      CopyStaysIff(Upto(k), lasts, i - k - 1);
    }
  }

  /** Making `n` buffers makes no gap. */
  lemma {:induction false} UptoGiven(k: nat, n: nat)
    ensures Given(Upto(k), n) == Upto(k + n)
  {
    UptoFree(k, n);
    RoomGiven(Upto(k), n);
  }

  /** How many copies are superseded before the first that is not. */
  function Repeats(lasts: seq<bool>, n: nat): (m: nat)
    requires n <= |lasts|
    ensures m <= n && (forall p | 0 <= p < m :: !lasts[p]) && (m < n ==> lasts[m])
  {
    if n == 0 then 0
    else
      var m := Repeats(lasts, n - 1);
      if m < n - 1 || lasts[n - 1] then m else n
  }

  /** Superseded copies come before all others. */
  ghost predicate SupersededFirst(lasts: seq<bool>) {
    forall p | Repeats(lasts, |lasts|) <= p < |lasts| :: lasts[p]
  }

  /** Releasing the last copies leaves numbers without gaps so exactly when the superseded ones were made first. */
  lemma {:induction false} GaplessIff(k: nat, lasts: seq<bool>)
    ensures Gapless(NumsAfter(Upto(k), lasts)) <==> SupersededFirst(lasts)
    ensures SupersededFirst(lasts) ==> NumsAfter(Upto(k), lasts) == Upto(k + Repeats(lasts, |lasts|))
  {
    if SupersededFirst(lasts) {
      FirstStay(k, lasts);
    } else {
      GapStays(k, lasts);
    }
  }

  lemma {:induction false} FirstStay(k: nat, lasts: seq<bool>)
    requires SupersededFirst(lasts)
    ensures NumsAfter(Upto(k), lasts) == Upto(k + Repeats(lasts, |lasts|))
  {
    var m := Repeats(lasts, |lasts|);
    RangeIs(0, k + m);
    forall i: nat ensures i in NumsAfter(Upto(k), lasts) <==> i in Upto(k + m) {
      AfterIs(k, lasts, i);
    }
  }

  lemma {:induction false} GapStays(k: nat, lasts: seq<bool>)
    requires !SupersededFirst(lasts)
    ensures !Gapless(NumsAfter(Upto(k), lasts))
  {
    var m := Repeats(lasts, |lasts|);
    var q :| m <= q < |lasts| && !lasts[q];
    AfterIs(k, lasts, k + m + 1);
    AfterIs(k, lasts, k + q + 1);
    forall j: nat ensures NumsAfter(Upto(k), lasts) != Upto(j) {
      RangeIs(0, j);
    }
  }

  /** How many of the first `n` copies are superseded. */
  function Superseded(lasts: seq<bool>, n: nat): (r: nat)
    requires n <= |lasts|
    ensures r <= n
  {
    if n == 0 then 0 else Superseded(lasts, n - 1) + if lasts[n - 1] then 0 else 1
  }

  lemma {:induction false} CountAfter(k: nat, lasts: seq<bool>)
    ensures |NumsAfter(Upto(k), lasts)| == k + Superseded(lasts, |lasts|)
    decreases |lasts|
  {
    RangeIs(0, k);
    if lasts == [] {
      assert NumsAfter(Upto(k), lasts) == Upto(k);
    } else {
      var n := |lasts| - 1;
      var fewer := lasts[..n];
      CountAfter(k, fewer);
      SupersededPrefix(lasts, n, n);
      OneMoreCopy(k, lasts);
    }
  }

  lemma {:induction false} SupersededPrefix(lasts: seq<bool>, n: nat, m: nat)
    requires m <= n <= |lasts|
    ensures Superseded(lasts[..n], m) == Superseded(lasts, m)
  {
    if m > 0 {
      SupersededPrefix(lasts, n, m - 1);
    }
  }

  lemma {:induction false} OneMoreCopy(k: nat, lasts: seq<bool>)
    requires lasts != []
    ensures var n := |lasts| - 1;
            |NumsAfter(Upto(k), lasts)| == |NumsAfter(Upto(k), lasts[..n])| + if lasts[n] then 0 else 1
  {
    var n := |lasts| - 1;
    OneMoreStays(k, lasts);
    SizeOfMore(NumsAfter(Upto(k), lasts[..n]), NumsAfter(Upto(k), lasts), k + n + 1, !lasts[n]);
  }

  /** `now` is `was` with `i` too, or just `was`. */
  ghost predicate Differs(was: set<nat>, now: set<nat>, i: nat, more: bool) {
    i !in was && forall j: nat :: j in now <==> j in was || (j == i && more)
  }

  lemma {:induction false} OneMoreStays(k: nat, lasts: seq<bool>)
    requires lasts != []
    ensures var n := |lasts| - 1;
            Differs(NumsAfter(Upto(k), lasts[..n]), NumsAfter(Upto(k), lasts), k + n + 1, !lasts[n])
  {
    var n := |lasts| - 1;
    AfterIs(k, lasts[..n], k + n + 1);
    forall i: nat
      ensures i in NumsAfter(Upto(k), lasts)
         <==> i in NumsAfter(Upto(k), lasts[..n]) || (i == k + n + 1 && !lasts[n])
    {
      OneMoreAt(k, lasts, i);
    }
  }

  lemma {:induction false} OneMoreAt(k: nat, lasts: seq<bool>, i: nat)
    requires lasts != []
    ensures var n := |lasts| - 1;
            i in NumsAfter(Upto(k), lasts)
            <==> i in NumsAfter(Upto(k), lasts[..n]) || (i == k + n + 1 && !lasts[n])
  {
    AfterIs(k, lasts, i);
    AfterIs(k, lasts[..|lasts| - 1], i);
  }

  lemma {:induction false} SizeOfMore(was: set<nat>, now: set<nat>, i: nat, more: bool)
    requires Differs(was, now, i, more)
    ensures |now| == |was| + if more then 1 else 0
  {
    assert now == if more then was + {i} else was;
  }

  /** The newest superseded copy, counted from the end. */
  function NewestSuperseded(lasts: seq<bool>, n: nat): (q: nat)
    requires n <= |lasts|
    ensures q <= n && (q > 0 ==> !lasts[q - 1]) && forall p | q <= p < n :: lasts[p]
  {
    if n == 0 || !lasts[n - 1] then n else NewestSuperseded(lasts, n - 1)
  }

  /** Superseded copies up to some point are fewer than the point if a last one is among them, and none come later. */
  lemma {:induction false} SupersededBelow(lasts: seq<bool>, m: nat, q: nat, n: nat)
    requires m < q <= n <= |lasts| && lasts[m] && forall p | q <= p < n :: lasts[p]
    ensures Superseded(lasts, n) < q
  {
    if n > q || q - 1 > m {
      SupersededBelow(lasts, m, if n > q then q else q - 1, n - 1);
    }
  }

  /** With the superseded copies not first, a copy still live has one of the numbers given next. */
  lemma {:induction false} StaysInTheWay(k: nat, lasts: seq<bool>, q: nat)
    requires !SupersededFirst(lasts) && q == NewestSuperseded(lasts, |lasts|)
    ensures Superseded(lasts, |lasts|) < q && (lasts[|lasts| - 1] ==> q < |lasts|)
    ensures k + q in NumsAfter(Upto(k), lasts)
  {
    SupersededBelow(lasts, Repeats(lasts, |lasts|), q, |lasts|);
    AfterIs(k, lasts, k + q);
  }

  /** Exactly then there is room for the same copies once more, or for more of them. */
  lemma {:induction false} AgainIff(k: nat, lasts: seq<bool>, n: nat)
    requires lasts != [] ==> lasts[|lasts| - 1]
    requires n >= |lasts|
    ensures HasRoom(NumsAfter(Upto(k), lasts), n) <==> SupersededFirst(lasts)
  {
    if SupersededFirst(lasts) {
      FirstStay(k, lasts);
      UptoFree(k + Repeats(lasts, |lasts|), n);
    } else {
      var after, q := NumsAfter(Upto(k), lasts), NewestSuperseded(lasts, |lasts|);
      StaysInTheWay(k, lasts, q);
      CountAfter(k, lasts);
      assert NewNum(after, q - 1 - Superseded(lasts, |lasts|)) == k + q;
    }
  }
}
