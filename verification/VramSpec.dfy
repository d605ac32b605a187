/**
 * vgpu/mem/vram.go as steps on a plain state: buffers by id, the limit and the counters.
 * Sizes and counters are uint64, so sums and differences wrap.
 */
module VramSpec {
  import opened Common

  datatype BufferType = ReadOnly | ReadWrite | Temporary

  datatype BufView = BufView(size: nat, flags: nat, bufType: BufferType, data: Bytes, dirty: bool)

  /** `leaked` counts the bytes of buffers that were overwritten by allocating their id again. */
  datatype VState = VState(limit: nat, used: nat, total: nat, bufs: map<string, BufView>, leaked: nat)

  datatype Op =
    | Allocate(id: string, size: nat, flags: nat, bufType: BufferType)
    | Release(id: string)
    | Write(id: string, offset: nat, data: Bytes)
    | UpdateSpec(limit: nat, used: nat)

  function ZeroBytes(n: nat): (z: Bytes)
    ensures |z| == n && forall i | 0 <= i < n :: z[i] == 0
  {
    seq(n, _ => 0)
  }

  function SizeOf(s: VState, id: string): nat { if id in s.bufs then s.bufs[id].size else 0 }

  // ── Each operation ──

  predicate Fits(s: VState, size: nat) { (s.total + size) % TWO64 <= s.limit }

  function AfterAllocate(s: VState, id: string, size: nat, flags: nat, bufType: BufferType): VState {
    if !Fits(s, size) then s
    else
      var sum := (s.total + size) % TWO64;
      VState(s.limit, sum, sum, s.bufs[id := BufView(size, flags, bufType, ZeroBytes(size), false)],
             s.leaked + SizeOf(s, id))
  }

  function AfterRelease(s: VState, id: string): VState {
    if id !in s.bufs then s
    else
      var sum := (s.total - s.bufs[id].size) % TWO64;
      VState(s.limit, sum, sum, s.bufs - {id}, s.leaked)
  }

  /** The bytes of a buffer after copying `data` in at `offset`. */
  function Overwrite(old_: Bytes, offset: nat, data: Bytes): (r: Bytes)
    requires offset + |data| <= |old_|
    ensures |r| == |old_|
  {
    old_[..offset] + data + old_[offset + |data|..]
  }

  predicate WriteFits(s: VState, id: string, offset: nat, data: Bytes) {
    id in s.bufs && offset + |data| <= s.bufs[id].size && offset + |data| <= |s.bufs[id].data|
  }

  function AfterWrite(s: VState, id: string, offset: nat, data: Bytes): VState {
    if !WriteFits(s, id, offset, data) then s
    else
      var b := s.bufs[id];
      s.(bufs := s.bufs[id := b.(data := Overwrite(b.data, offset, data), dirty := true)])
  }

  /** The wrapped sum decides; a grant sets both counters to it and maps a zeroed buffer, a refusal changes nothing. */
  lemma {:induction false} AllocateIs(s: VState, id: string, size: nat, flags: nat, bufType: BufferType)
    ensures var sum, r := (s.total + size) % 0x1_0000_0000_0000_0000, AfterAllocate(s, id, size, flags, bufType);
      if sum <= s.limit
      then r.used == r.total == sum && r.limit == s.limit && id in r.bufs && r.bufs == s.bufs[id := r.bufs[id]]
           && r.bufs[id] == BufView(size, flags, bufType, r.bufs[id].data, false) && |r.bufs[id].data| == size
           && forall i | 0 <= i < size :: r.bufs[id].data[i] == 0
      else r == s
  {
  }

  /** A release takes the buffer's size off both counters. */
  lemma {:induction false} ReleaseIs(s: VState, id: string)
    ensures var r := AfterRelease(s, id);
      && r.bufs == s.bufs - {id} && r.limit == s.limit
      && (id in s.bufs ==> r.used == r.total == (s.total - s.bufs[id].size) % 0x1_0000_0000_0000_0000)
      && (id !in s.bufs ==> r == s)
  {
  }

  function Step(s: VState, op: Op): VState {
    match op
    case Allocate(id, size, flags, bufType) => AfterAllocate(s, id, size, flags, bufType)
    case Release(id) => AfterRelease(s, id)
    case Write(id, offset, data) => AfterWrite(s, id, offset, data)
    case UpdateSpec(limit, used) => s.(limit := limit, used := used)
  }

  function Run(s: VState, ops: seq<Op>): VState
    decreases |ops|
  {
    if ops == [] then s else Run(Step(s, ops[0]), ops[1..])
  }

  /** A run is its operations one after another. */
  lemma {:induction false} RunOneMore(s: VState, ops: seq<Op>, op: Op)
    ensures Run(s, []) == s && Run(s, ops + [op]) == Step(Run(s, ops), op)
    decreases |ops|
  {
    if ops == [] {
      assert ops + [op] == [op] && [op][1..] == [];
    } else {
      assert (ops + [op])[0] == ops[0] && (ops + [op])[1..] == ops[1..] + [op];
      RunOneMore(Step(s, ops[0]), ops[1..], op);
    }
  }

  function Fresh(limit: nat): VState { VState(limit, 0, 0, map[], 0) }

  // ── Conservation ──

  /** The sizes of all live buffers together. */
  ghost function Live(bufs: map<string, BufView>): nat
    decreases |bufs|
  {
    if bufs == map[] then 0
    else
      var id :| id in bufs;
      bufs[id].size + Live(bufs - {id})
  }

  lemma {:induction false} LiveWithout(bufs: map<string, BufView>, id: string)
    requires id in bufs
    ensures Live(bufs) == bufs[id].size + Live(bufs - {id})
    decreases |bufs|
  {
    var first :| first in bufs && Live(bufs) == bufs[first].size + Live(bufs - {first});
    if first != id {
      LiveWithout(bufs - {first}, id);
      LiveWithout(bufs - {id}, first);
      assert bufs - {first} - {id} == bufs - {id} - {first};
    }
  }

  lemma {:induction false} LiveWith(bufs: map<string, BufView>, id: string, b: BufView)
    ensures Live(bufs[id := b]) == Live(bufs - {id}) + b.size
  {
    LiveWithout(bufs[id := b], id);
    assert bufs[id := b] - {id} == bufs - {id};
  }

  lemma {:induction false} LiveKeepsSize(bufs: map<string, BufView>, id: string, b: BufView)
    requires id in bufs && b.size == bufs[id].size
    ensures Live(bufs[id := b]) == Live(bufs)
  {
    LiveWith(bufs, id, b);
    LiveWithout(bufs, id);
  }

  lemma {:induction false} SameSizesSameLive(a: map<string, BufView>, b: map<string, BufView>)
    requires a.Keys == b.Keys && forall id <- a :: a[id].size == b[id].size
    ensures Live(a) == Live(b)
    decreases |a|
  {
    if a == map[] {
      assert b == map[];
    } else {
      var id :| id in a && Live(a) == a[id].size + Live(a - {id});
      LiveWithout(b, id);
      SameSizesSameLive(a - {id}, b - {id});
    }
  }

  /** Every buffer has as many bytes as its size says. */
  ghost predicate Sized(s: VState) { forall id <- s.bufs :: |s.bufs[id].data| == s.bufs[id].size }

  /** The counter is the live and the leaked bytes, as a uint64 can tell. */
  ghost predicate Conserved(s: VState) {
    Sized(s) && s.total == (Live(s.bufs) + s.leaked) % TWO64
  }

  /** Adding to a wrapped counter wraps like adding to the true sum. */
  lemma {:induction false} WrapShift(sum: nat, d: int)
    requires sum + d >= 0
    ensures (sum % TWO64 + d) % TWO64 == (sum + d) % TWO64
  {
    assert sum == (sum / TWO64) * TWO64 + sum % TWO64;
  }

  lemma {:induction false} AllocateConserves(s: VState, id: string, size: nat, flags: nat, bufType: BufferType)
    requires Conserved(s)
    ensures Conserved(AfterAllocate(s, id, size, flags, bufType))
  {
    LiveWith(s.bufs, id, BufView(size, flags, bufType, ZeroBytes(size), false));
    if id in s.bufs { LiveWithout(s.bufs, id); } else { assert s.bufs - {id} == s.bufs; }
    WrapShift(Live(s.bufs) + s.leaked, size);
  }

  lemma {:induction false} ReleaseConserves(s: VState, id: string)
    requires Conserved(s)
    ensures Conserved(AfterRelease(s, id))
  {
    if id in s.bufs {
      LiveWithout(s.bufs, id);
      var size: int := s.bufs[id].size;
      WrapShift(Live(s.bufs) + s.leaked, -size);
    }
  }

  lemma {:induction false} WriteConserves(s: VState, id: string, offset: nat, data: Bytes)
    requires Conserved(s)
    ensures Conserved(AfterWrite(s, id, offset, data))
  {
    if WriteFits(s, id, offset, data) {
      var b := s.bufs[id];
      LiveKeepsSize(s.bufs, id, b.(data := Overwrite(b.data, offset, data), dirty := true));
    }
  }

  lemma {:induction false} StepConserves(s: VState, op: Op)
    requires Conserved(s)
    ensures Conserved(Step(s, op))
  {
    match op
    case Allocate(id, size, flags, bufType) => AllocateConserves(s, id, size, flags, bufType);
    case Release(id) => ReleaseConserves(s, id);
    case Write(id, offset, data) => WriteConserves(s, id, offset, data);
    case UpdateSpec(_, _) =>
  }

  /** Over every run the counter equals live plus leaked bytes modulo 2^64 and every buffer keeps its length. */
  lemma {:induction false} RunConserves(s: VState, ops: seq<Op>)
    requires Conserved(s)
    ensures Conserved(Run(s, ops))
    decreases |ops|
  {
    if ops != [] {
      StepConserves(s, ops[0]);
      RunConserves(Step(s, ops[0]), ops[1..]);
    }
  }

  // ── Without overflow ──

  /** No granted allocation of the run takes live and leaked bytes to 2^64. */
  ghost predicate NoOverflow(s: VState, ops: seq<Op>)
    decreases |ops|
  {
    ops == [] || (Live(Step(s, ops[0]).bufs) + Step(s, ops[0]).leaked < TWO64 && NoOverflow(Step(s, ops[0]), ops[1..]))
  }

  /** The counter is exact. */
  ghost predicate Exact(s: VState) { Conserved(s) && s.total == Live(s.bufs) + s.leaked }

  /** The counter is exact exactly as long as the true sum fits a uint64. */
  lemma {:induction false} ExactIff(s: VState)
    requires Conserved(s)
    ensures Exact(s) <==> Live(s.bufs) + s.leaked < TWO64
  {
  }

  /** Releasing a live buffer never takes the counter below zero. */
  lemma {:induction false} ReleaseNeverUnderflows(s: VState, id: string)
    requires Exact(s) && id in s.bufs
    ensures s.bufs[id].size <= s.total
    ensures AfterRelease(s, id).total == s.total - s.bufs[id].size
  {
    LiveWithout(s.bufs, id);
  }

  /** The largest counter the run allows: the limit, or what was allocated when the limit was last set. */
  ghost predicate Bounded(s: VState, atUpdate: nat) { s.total <= Max(s.limit, atUpdate) }

  /** The counter's value at the run's last UpdateSpec, or `before` if there is none. */
  ghost function AtLastUpdate(s: VState, ops: seq<Op>, before: nat): nat
    decreases |ops|
  {
    if ops == [] then before
    else AtLastUpdate(Step(s, ops[0]), ops[1..], if ops[0].UpdateSpec? then s.total else before)
  }

  /** Over every run without overflow the counter is exact and never exceeds the larger of the limit
      and its value when the limit was last set. */
  lemma {:induction false} RunExactAndBounded(s: VState, ops: seq<Op>, atUpdate: nat)
    requires Exact(s) && NoOverflow(s, ops) && Bounded(s, atUpdate)
    ensures Exact(Run(s, ops))
    ensures Bounded(Run(s, ops), AtLastUpdate(s, ops, atUpdate))
    decreases |ops|
  {
    if ops != [] {
      var next := Step(s, ops[0]);
      StepConserves(s, ops[0]);
      if ops[0].Release? && ops[0].id in s.bufs {
        ReleaseNeverUnderflows(s, ops[0].id);
      }
      RunExactAndBounded(next, ops[1..], if ops[0].UpdateSpec? then s.total else atUpdate);
    }
  }

  // ── When bytes leak ──

  /** A granted allocation under the id of a live buffer that is not empty. */
  predicate Reuses(s: VState, op: Op) { op.Allocate? && Fits(s, op.size) && SizeOf(s, op.id) > 0 }

  /** Allocating a live id again and then releasing it loses the first buffer's bytes for good. */
  lemma {:induction false} ReallocationLeaks(s: VState, id: string, size: nat, flags: nat, bufType: BufferType)
    requires id in s.bufs && Fits(s, size)
    ensures var after := AfterRelease(AfterAllocate(s, id, size, flags, bufType), id);
            after.bufs == s.bufs - {id} && after.leaked == s.leaked + s.bufs[id].size
  {
    assert s.bufs[id := BufView(size, flags, bufType, ZeroBytes(size), false)] - {id} == s.bufs - {id};
  }

  predicate NeverReuses(s: VState, ops: seq<Op>)
    decreases |ops|
  {
    ops == [] || (!Reuses(s, ops[0]) && NeverReuses(Step(s, ops[0]), ops[1..]))
  }

  lemma {:induction false} LeakOnlyGrows(s: VState, ops: seq<Op>)
    ensures s.leaked <= Run(s, ops).leaked
    decreases |ops|
  {
    if ops != [] { LeakOnlyGrows(Step(s, ops[0]), ops[1..]); }
  }

  /** Over every run: nothing leaks if and only if no granted allocation names the id of a live, non-empty buffer. */
  lemma {:induction false} LeaksIff(s: VState, ops: seq<Op>)
    ensures Run(s, ops).leaked == s.leaked <==> NeverReuses(s, ops)
    decreases |ops|
  {
    if ops != [] {
      var next := Step(s, ops[0]);
      LeakOnlyGrows(next, ops[1..]);
      LeaksIff(next, ops[1..]);
      assert next.leaked == s.leaked <==> !Reuses(s, ops[0]);
    }
  }

  /** Without overflow the counter ends as the sum of the live sizes exactly under that guard. */
  lemma {:induction false} CounterIsLiveIff(s: VState, ops: seq<Op>)
    requires Exact(s) && s.leaked == 0 && NoOverflow(s, ops)
    ensures Run(s, ops).total == Live(Run(s, ops).bufs) <==> NeverReuses(s, ops)
  {
    RunExactAndBounded(s, ops, s.total);
    LeaksIff(s, ops);
  }

  /** Releasing every buffer brings the counter to what has leaked, not to zero. */
  lemma {:induction false} EmptyCountsLeaks(s: VState, ops: seq<Op>)
    requires Exact(s) && s.leaked == 0 && NoOverflow(s, ops) && Run(s, ops).bufs == map[]
    ensures Run(s, ops).total == 0 <==> NeverReuses(s, ops)
  {
    CounterIsLiveIff(s, ops);
  }
}
