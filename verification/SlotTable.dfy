/**
 * vk_layer/distribox_vk_layer.c: the fixed table of command buffer states.
 *
 * Freed slots keep their handle. The table acts as a bounded map because no slot below one in use,
 * live or stale, holds the same handle.
 */
module SlotTable {
  import opened Common

  /** The rest of a slot's state is `payload`; handle 0 is the null handle. */
  datatype Slot<P> = Slot(cmdBuf: nat, inUse: bool, payload: P)

  datatype Op<P> = Get(handle: nat) | Release(handle: nat) | Update(handle: nat, payload: P)

  predicate IsLive<P>(s: Slot<P>, h: nat) { s.inUse && s.cmdBuf == h }

  /** The first slot in use by `h`, or the table's size. */
  function FindLive<P>(s: seq<Slot<P>>, h: nat): (i: nat)
    ensures i <= |s| && (i < |s| ==> IsLive(s[i], h))
    ensures forall j | 0 <= j < i :: !IsLive(s[j], h)
  {
    if s == [] || IsLive(s[0], h) then 0 else 1 + FindLive(s[1..], h)
  }

  function FindFree<P>(s: seq<Slot<P>>): (i: nat)
    ensures i <= |s| && (i < |s| ==> !s[i].inUse)
    ensures forall j | 0 <= j < i :: s[j].inUse
  {
    if s == [] || !s[0].inUse then 0 else 1 + FindFree(s[1..])
  }

  /** The first slot holding `h`, in use or not. */
  function FindHandle<P>(s: seq<Slot<P>>, h: nat): (i: nat)
    ensures i <= |s| && (i < |s| ==> s[i].cmdBuf == h)
    ensures forall j | 0 <= j < i :: s[j].cmdBuf != h
  {
    if s == [] || s[0].cmdBuf == h then 0 else 1 + FindHandle(s[1..], h)
  }

  function AfterGet<P>(s: seq<Slot<P>>, h: nat, zero: P): seq<Slot<P>> {
    if h == 0 || FindLive(s, h) < |s| || FindFree(s) == |s| then s
    else s[FindFree(s) := Slot(h, true, zero)]
  }

  /** The slot handed out for `h`, if any. */
  function SlotFor<P>(s: seq<Slot<P>>, h: nat): Option<nat> {
    if h == 0 then None
    else if FindLive(s, h) < |s| then Some(FindLive(s, h))
    else if FindFree(s) < |s| then Some(FindFree(s))
    else None
  }

  function AfterRelease<P>(s: seq<Slot<P>>, h: nat): seq<Slot<P>> {
    var i := FindHandle(s, h);
    if i == |s| then s else s[i := s[i].(inUse := false)]
  }

  function Step<P>(s: seq<Slot<P>>, op: Op<P>, zero: P): seq<Slot<P>> {
    match op
    case Get(h) => AfterGet(s, h, zero)
    case Release(h) => AfterRelease(s, h)
    case Update(h, p) => var i := FindLive(s, h); if i == |s| then s else s[i := s[i].(payload := p)]
  }

  function Run<P>(s: seq<Slot<P>>, ops: seq<Op<P>>, zero: P): seq<Slot<P>>
    decreases |ops|
  {
    if ops == [] then s else Run(Step(s, ops[0], zero), ops[1..], zero)
  }

  /** A run is its operations one after another. */
  lemma {:induction false} RunOneMore<P>(s: seq<Slot<P>>, ops: seq<Op<P>>, op: Op<P>, zero: P)
    ensures Run(s, [], zero) == s && Run(s, ops + [op], zero) == Step(Run(s, ops, zero), op, zero)
    decreases |ops|
  {
    if ops == [] {
      assert ops + [op] == [op] && [op][1..] == [];
    } else {
      assert (ops + [op])[0] == ops[0] && (ops + [op])[1..] == ops[1..] + [op];
      RunOneMore(Step(s, ops[0], zero), ops[1..], op, zero);
    }
  }

  // ── The invariant ──

  ghost predicate NoTwinBelow<P>(s: seq<Slot<P>>) {
    && (forall i | 0 <= i < |s| :: s[i].inUse ==> s[i].cmdBuf != 0)
    && (forall i, j | 0 <= i < j < |s| :: s[j].inUse ==> s[i].cmdBuf != s[j].cmdBuf)
  }

  lemma {:induction false} StepKeepsNoTwin<P>(s: seq<Slot<P>>, op: Op<P>, zero: P)
    requires NoTwinBelow(s)
    ensures NoTwinBelow(Step(s, op, zero)) && |Step(s, op, zero)| == |s|
  {
  }

  /** A handle has at most one live slot. */
  lemma {:induction false} LiveIsUnique<P>(s: seq<Slot<P>>, i: nat, j: nat, h: nat)
    requires NoTwinBelow(s) && i < |s| && j < |s| && IsLive(s[i], h) && IsLive(s[j], h)
    ensures i == j == FindLive(s, h)
  {
    var k := FindLive(s, h);
    assert k <= i && k <= j;
  }

  /** Where a handle lives after one slot has changed. */
  lemma {:induction false} OneSlot<P>(s: seq<Slot<P>>, i: nat, x: Slot<P>, h: nat)
    requires i < |s| && NoTwinBelow(s) && NoTwinBelow(s[i := x])
    ensures FindLive(s[i := x], h) == if IsLive(x, h) then i else if FindLive(s, h) == i then |s| else FindLive(s, h)
  {
    var after := s[i := x];
    var was, now := FindLive(s, h), FindLive(after, h);
    if IsLive(x, h) {
      LiveIsUnique(after, i, i, h);
    } else if was < |s| && was != i {
      assert IsLive(after[was], h);
      LiveIsUnique(after, was, was, h);
    }
  }

  /**
   * Release stops at the first slot with the handle without asking whether it is in use; it never misses the live one.
   */
  lemma {:induction false} ReleaseFreesLive<P>(s: seq<Slot<P>>, h: nat, i: nat)
    requires NoTwinBelow(s) && i < |s| && IsLive(s[i], h)
    ensures FindHandle(s, h) == i && FindLive(AfterRelease(s, h), h) == |s|
  {
    assert forall k | 0 <= k < i :: s[k].cmdBuf != s[i].cmdBuf;
    OneSlot(s, i, s[i].(inUse := false), h);
  }

  // ── The bounded map ──

  /** The live slots among the first `n`, by handle. */
  function LiveMap<P>(s: seq<Slot<P>>, n: nat): map<nat, P>
    requires n <= |s|
  {
    if n == 0 then map[]
    else if s[n - 1].inUse then LiveMap(s, n - 1)[s[n - 1].cmdBuf := s[n - 1].payload]
    else LiveMap(s, n - 1)
  }

  function AsMap<P>(s: seq<Slot<P>>): map<nat, P> { LiveMap(s, |s|) }

  function InUseCount<P>(s: seq<Slot<P>>, n: nat): nat
    requires n <= |s|
  {
    if n == 0 then 0 else InUseCount(s, n - 1) + if s[n - 1].inUse then 1 else 0
  }

  /** The same operation on a map that holds at most `capacity` handles. */
  function MapStep<P>(m: map<nat, P>, op: Op<P>, zero: P, capacity: nat): map<nat, P> {
    match op
    case Get(h) => if h == 0 || h in m || |m| >= capacity then m else m[h := zero]
    case Release(h) => m - {h}
    case Update(h, p) => if h in m then m[h := p] else m
  }

  function MapRun<P>(m: map<nat, P>, ops: seq<Op<P>>, zero: P, capacity: nat): map<nat, P>
    decreases |ops|
  {
    if ops == [] then m else MapRun(MapStep(m, ops[0], zero, capacity), ops[1..], zero, capacity)
  }

  lemma {:induction false} LiveMapHolds<P>(s: seq<Slot<P>>, n: nat, h: nat)
    requires NoTwinBelow(s) && n <= |s|
    ensures h in LiveMap(s, n) <==> FindLive(s, h) < n
    ensures h in LiveMap(s, n) ==> LiveMap(s, n)[h] == s[FindLive(s, h)].payload
    decreases n
  {
    if n > 0 {
      LiveMapHolds(s, n - 1, h);
      if IsLive(s[n - 1], h) { LiveIsUnique(s, n - 1, FindLive(s, h), h); }
    }
  }

  lemma {:induction false} LiveMapSize<P>(s: seq<Slot<P>>, n: nat)
    requires NoTwinBelow(s) && n <= |s|
    ensures |LiveMap(s, n)| == InUseCount(s, n)
    decreases n
  {
    if n > 0 {
      LiveMapSize(s, n - 1);
      if s[n - 1].inUse {
        LiveMapHolds(s, n - 1, s[n - 1].cmdBuf);
        LiveIsUnique(s, n - 1, FindLive(s, s[n - 1].cmdBuf), s[n - 1].cmdBuf);
      }
    }
  }

  lemma {:induction false} FullIff<P>(s: seq<Slot<P>>, n: nat)
    requires n <= |s|
    ensures InUseCount(s, n) <= n && (InUseCount(s, n) == n <==> FindFree(s) >= n)
    decreases n
  {
    if n > 0 { FullIff(s, n - 1); }
  }

  /** Two tables with the same live slots are the same map. */
  lemma {:induction false} SameMap<P>(s: seq<Slot<P>>, m: map<nat, P>)
    requires NoTwinBelow(s)
    requires forall h: nat :: h in m <==> FindLive(s, h) < |s|
    requires forall h: nat | h in m :: m[h] == s[FindLive(s, h)].payload
    ensures AsMap(s) == m
  {
    forall h: nat
      ensures h in AsMap(s) <==> h in m
      ensures h in m ==> AsMap(s)[h] == m[h]
    {
      LiveMapHolds(s, |s|, h);
    }
  }

  lemma {:induction false} StepRefines<P>(s: seq<Slot<P>>, op: Op<P>, zero: P)
    requires NoTwinBelow(s)
    ensures AsMap(Step(s, op, zero)) == MapStep(AsMap(s), op, zero, |s|)
  {
    var after, m := Step(s, op, zero), MapStep(AsMap(s), op, zero, |s|);
    StepKeepsNoTwin(s, op, zero);
    LiveMapSize(s, |s|);
    FullIff(s, |s|);
    LiveMapHolds(s, |s|, op.handle);
    forall h: nat
      ensures h in m <==> FindLive(after, h) < |after|
      ensures h in m ==> m[h] == after[FindLive(after, h)].payload
    {
      LiveMapHolds(s, |s|, h);
      StepAt(s, op, zero, h);
    }
    SameMap(after, m);
  }

  /** What an operation does to the live slot of one handle. */
  lemma {:induction false} StepAt<P>(s: seq<Slot<P>>, op: Op<P>, zero: P, h: nat)
    requires NoTwinBelow(s)
    ensures var after := Step(s, op, zero);
      var was, now := FindLive(s, h), FindLive(after, h);
      if h != op.handle then (now < |s| <==> was < |s|) && (now < |s| ==> after[now].payload == s[was].payload)
      else match op
        case Get(_) =>
          && (now < |s| <==> was < |s| || (h != 0 && FindFree(s) < |s|))
          && (now < |s| ==> after[now].payload == if was < |s| then s[was].payload else zero)
        case Release(_) => now == |s|
        case Update(_, p) => (now < |s| <==> was < |s|) && (now < |s| ==> after[now].payload == p)
  {
    StepKeepsNoTwin(s, op, zero);
    match op
    case Get(g) =>
      if g != 0 && FindLive(s, g) == |s| && FindFree(s) < |s| { OneSlot(s, FindFree(s), Slot(g, true, zero), h); }
    case Release(g) =>
      var i := FindHandle(s, g);
      if i < |s| { OneSlot(s, i, s[i].(inUse := false), h); }
      if h == g && FindLive(s, h) < |s| { ReleaseFreesLive(s, h, FindLive(s, h)); }
    case Update(g, p) =>
      var i := FindLive(s, g);
      if i < |s| { OneSlot(s, i, s[i].(payload := p), h); }
  }

  ghost predicate AllFree<P>(s: seq<Slot<P>>) { forall i | 0 <= i < |s| :: !s[i].inUse }

  /** Over every run, for a table of any size, the table is a map of at most that many handles. */
  lemma {:induction false} TableIsBoundedMap<P>(s: seq<Slot<P>>, ops: seq<Op<P>>, zero: P)
    requires NoTwinBelow(s)
    ensures NoTwinBelow(Run(s, ops, zero)) && |Run(s, ops, zero)| == |s|
    ensures AsMap(Run(s, ops, zero)) == MapRun(AsMap(s), ops, zero, |s|)
    decreases |ops|
  {
    if ops != [] {
      StepKeepsNoTwin(s, ops[0], zero);
      StepRefines(s, ops[0], zero);
      TableIsBoundedMap(Step(s, ops[0], zero), ops[1..], zero);
    }
  }

  lemma {:induction false} AllFreeIsEmpty<P>(s: seq<Slot<P>>, n: nat)
    requires AllFree(s) && n <= |s|
    ensures LiveMap(s, n) == map[] && NoTwinBelow(s)
    decreases n
  {
    if n > 0 { AllFreeIsEmpty(s, n - 1); }
  }

  /** Unique live handles alone would not do: a stale twin below the live slot takes the release. */
  lemma {:induction false} UniqueIsNotEnough<P>(h: nat, p: P)
    requires h != 0
    ensures var s := [Slot(h, false, p), Slot(h, true, p)];
      && (forall i, j | 0 <= i < |s| && 0 <= j < |s| && IsLive(s[i], h) && IsLive(s[j], h) :: i == j)
      && !NoTwinBelow(s)
      && h in AsMap(AfterRelease(s, h))
  {
    var s := [Slot(h, false, p), Slot(h, true, p)];
    assert s[0].cmdBuf == s[1].cmdBuf && s[1].inUse;
    assert AfterRelease(s, h) == s;
  }

  /** No slot is handed out exactly for the null handle, or when all slots are in use by other handles. */
  lemma {:induction false} NullIff<P>(s: seq<Slot<P>>, h: nat)
    ensures SlotFor(s, h) == None <==> h == 0 || forall i | 0 <= i < |s| :: s[i].inUse && s[i].cmdBuf != h
  {
    if h != 0 && FindLive(s, h) == |s| && FindFree(s) == |s| {
      assert forall i | 0 <= i < |s| :: !IsLive(s[i], h);
    }
  }

  // ── The C functions ──

  class Layer<P> {
    const cmdBufs: array<Slot<P>>
    const zero: P

    ghost predicate Valid()
      reads this, cmdBufs
    {
      NoTwinBelow(cmdBufs[..])
    }

    constructor (size: nat, zero: P)
      ensures Valid() && this.zero == zero && fresh(cmdBufs) && cmdBufs.Length == size
      ensures AllFree(cmdBufs[..]) && forall i | 0 <= i < size :: cmdBufs[i] == Slot(0, false, zero)
    {
      this.zero := zero;
      cmdBufs := new Slot<P>[size](_ => Slot(0, false, zero));
    }

    method GetCmdBufState(cmdBuf: nat) returns (r: Option<nat>)
      requires Valid()
      modifies cmdBufs
      ensures Valid()
      ensures cmdBufs[..] == AfterGet(old(cmdBufs[..]), cmdBuf, zero)
      ensures r == SlotFor(old(cmdBufs[..]), cmdBuf)
      ensures r.Some? ==> r.value < cmdBufs.Length && IsLive(cmdBufs[r.value], cmdBuf)
    {
      if cmdBuf == 0 {
        return None;
      }
      StepKeepsNoTwin(cmdBufs[..], Get(cmdBuf), zero);
      for i := 0 to cmdBufs.Length
        invariant forall j | 0 <= j < i :: !IsLive(cmdBufs[j], cmdBuf)
        invariant cmdBufs[..] == old(cmdBufs[..])
      {
        if cmdBufs[i].inUse && cmdBufs[i].cmdBuf == cmdBuf {
          LiveIsUnique(cmdBufs[..], i, FindLive(cmdBufs[..], cmdBuf), cmdBuf);
          return Some(i);
        }
      }
      for i := 0 to cmdBufs.Length
        invariant forall j | 0 <= j < i :: cmdBufs[j].inUse
        invariant cmdBufs[..] == old(cmdBufs[..])
      {
        if !cmdBufs[i].inUse {
          assert FindFree(cmdBufs[..]) == i;
          cmdBufs[i] := Slot(cmdBuf, true, zero);
          return Some(i);
        }
      }
      return None;
    }

    method ReleaseCmdBufState(cmdBuf: nat)
      requires Valid()
      modifies cmdBufs
      ensures Valid()
      ensures cmdBufs[..] == AfterRelease(old(cmdBufs[..]), cmdBuf)
    {
      StepKeepsNoTwin(cmdBufs[..], Op<P>.Release(cmdBuf), zero);
      for i := 0 to cmdBufs.Length
        invariant forall j | 0 <= j < i :: cmdBufs[j].cmdBuf != cmdBuf
        invariant cmdBufs[..] == old(cmdBufs[..])
      {
        if cmdBufs[i].cmdBuf == cmdBuf {
          assert FindHandle(cmdBufs[..], cmdBuf) == i;
          cmdBufs[i] := cmdBufs[i].(inUse := false);
          return;
        }
      }
    }
  }
}
