/**
 * cmd/worker/engine/fallback.go: engine buffers, their ids, and kernel arguments.
 *
 * What a kernel computes is a parameter: a function from the operands, the global size and the
 * offset to the operands' new bytes, or None when the kernel reports an error or panics.
 */
module Engine {
  import opened Common
  import opened Numbering
  import DnsMessage
  import Decimal

  datatype KernelArg = BufferRef(bufferId: Bytes) | Scalar(bytes: Bytes)

  /** What a kernel sees of one argument. */
  datatype Operand = Memory(content: Bytes) | Literal(bytes: Bytes) | Unknown

  type KernelFn = (seq<Operand>, seq<nat>, seq<nat>) -> Option<seq<Bytes>>

  function ContentOf(o: Operand): Bytes { if o.Memory? then o.content else [] }

  /** A kernel answers with one byte string per operand and never resizes a buffer. */
  ghost predicate KeepsSizes(kernel: KernelFn) {
    forall operands: seq<Operand>, global: seq<nat>, offset: seq<nat> | kernel(operands, global, offset).Some? ::
      var outs := kernel(operands, global, offset).value;
      |outs| == |operands| && forall i | 0 <= i < |outs| :: |outs[i]| == |ContentOf(operands[i])|
  }

  // ── Ids ──

  /** fmt.Sprintf("buf-%d", n). */
  function BufName(n: nat): Bytes { DnsMessage.Ascii("buf-") + Decimal.Print(n) }

  lemma {:induction false} BufNameInjective(m: nat, n: nat)
    requires BufName(m) == BufName(n)
    ensures m == n
  {
    assert Decimal.Print(m) == BufName(m)[4..] && Decimal.Print(n) == BufName(n)[4..];
    Decimal.PrintInjective(m, n);
  }

  /** The ids of buffers with these numbers. */
  ghost function Named(nums: set<nat>): set<Bytes> { set i | i in nums :: BufName(i) }

  lemma {:induction false} NamedAre(nums: set<nat>, i: nat)
    ensures BufName(i) in Named(nums) <==> i in nums
  {
    if BufName(i) in Named(nums) {
      var j :| j in nums && BufName(j) == BufName(i);
      BufNameInjective(i, j);
    }
  }

  lemma {:induction false} NamedMore(nums: set<nat>, i: nat)
    ensures Named(nums + {i}) == Named(nums) + {BufName(i)}
  {
  }

  lemma {:induction false} NamedSize(nums: set<nat>)
    ensures |Named(nums)| == |nums|
    decreases |nums|
  {
    if nums != {} {
      var i :| i in nums;
      NamedSize(nums - {i});
      assert nums == (nums - {i}) + {i};
      NamedMore(nums - {i}, i);
      NamedAre(nums - {i}, i);
    }
  }

  // ── Making several buffers ──

  /** Every buffer is stored under its own id, and the numbers of the ids are `nums`. */
  ghost predicate Numbered(buffers: map<Bytes, GoBuffer>, nums: set<nat>) {
    Keyed(buffers) && buffers.Keys == Named(nums)
  }

  ghost predicate Keyed(buffers: map<Bytes, GoBuffer>) { forall id <- buffers :: buffers[id].id == id }

  /** Each buffer has the number that counting the live ones gave when it was made. */
  ghost predicate Counted(made: seq<GoBuffer>, nums: set<nat>) {
    forall p | 0 <= p < |made| :: made[p].id == BufName(|Given(nums, p)| + 1)
  }

  /** The engine's map after the first `n` of `made` have been filed in order. */
  ghost function Filing(before: map<Bytes, GoBuffer>, made: seq<GoBuffer>, n: nat): map<Bytes, GoBuffer>
    requires n <= |made|
  {
    if n == 0 then before else Filing(before, made, n - 1)[made[n - 1].id := made[n - 1]]
  }

  /** `made` are the buffers made since `before`, one after another. */
  ghost predicate Makes(before: map<Bytes, GoBuffer>, nums: set<nat>, made: seq<GoBuffer>,
                        after: map<Bytes, GoBuffer>)
  {
    && Numbered(before, nums) && Counted(made, nums)
    && Numbered(after, Given(nums, |made|)) && after == Filing(before, made, |made|)
  }

  lemma {:induction false} NothingMade(before: map<Bytes, GoBuffer>, nums: set<nat>)
    requires Numbered(before, nums)
    ensures Makes(before, nums, [], before)
  {
  }

  lemma {:induction false} FilingPrefix(before: map<Bytes, GoBuffer>, made: seq<GoBuffer>, b: GoBuffer, n: nat)
    requires n <= |made|
    ensures Filing(before, made + [b], n) == Filing(before, made, n)
  {
    if n > 0 {
      FilingPrefix(before, made, b, n - 1);
    }
  }

  lemma {:induction false} MakesOneMore(before: map<Bytes, GoBuffer>, nums: set<nat>, made: seq<GoBuffer>,
                                        after: map<Bytes, GoBuffer>, b: GoBuffer)
    requires Makes(before, nums, made, after) && b.id == BufName(|after| + 1)
    ensures Makes(before, nums, made + [b], after[b.id := b])
  {
    NumberedOneMore(after, Given(nums, |made|), b);
    CountedMore(made, nums, b);
    FilingPrefix(before, made, b, |made|);
  }

  lemma {:induction false} NumberedOneMore(buffers: map<Bytes, GoBuffer>, nums: set<nat>, b: GoBuffer)
    requires Numbered(buffers, nums) && b.id == BufName(|buffers| + 1)
    ensures b.id == BufName(|nums| + 1) && Numbered(buffers[b.id := b], nums + {|nums| + 1})
  {
    NamedSize(nums);
    assert |buffers| == |buffers.Keys|;
    NamedMore(nums, |nums| + 1);
  }

  lemma {:induction false} CountedMore(made: seq<GoBuffer>, nums: set<nat>, b: GoBuffer)
    requires Counted(made, nums) && b.id == BufName(|Given(nums, |made|)| + 1)
    ensures Counted(made + [b], nums)
  {
  }

  ghost predicate AllDiffer(made: seq<GoBuffer>) { forall i, j | 0 <= i < j < |made| :: made[i] != made[j] }

  /** The buffer is the one that its id names. */
  ghost predicate Own(buffers: map<Bytes, GoBuffer>, b: GoBuffer) { b.id in buffers && buffers[b.id] == b }

  ghost predicate AllOwn(buffers: map<Bytes, GoBuffer>, made: seq<GoBuffer>) {
    forall p | 0 <= p < |made| :: Own(buffers, made[p])
  }

  ghost predicate IdsDiffer(made: seq<GoBuffer>) { forall i, j | 0 <= i < j < |made| :: made[i].id != made[j].id }

  /** An id names the buffer filed last under it. */
  lemma {:induction false} NamesLatest(before: map<Bytes, GoBuffer>, made: seq<GoBuffer>, n: nat, p: nat)
    requires p < n <= |made| && forall r | p < r < n :: made[r].id != made[p].id
    ensures Own(Filing(before, made, n), made[p])
    decreases n
  {
    if p < n - 1 {
      NamesLatest(before, made, n - 1, p);
    }
  }

  /** Two new buffers share an id exactly if both were made when the number given was already taken. */
  lemma {:induction false} SharedIff(nums: set<nat>, made: seq<GoBuffer>, p: nat, r: nat)
    requires Counted(made, nums) && p < r < |made|
    ensures made[p].id == made[r].id <==> FreeCount(nums, |made|) <= p
  {
    NumberOf(nums, |made|, p);
    NumberOf(nums, |made|, r);
    if made[p].id == made[r].id {
      BufNameInjective(|Given(nums, p)| + 1, |Given(nums, r)| + 1);
    }
  }

  /** A new buffer keeps its id to itself exactly if its number was free, or it was the last one made. */
  lemma {:induction false} OwnIff(before: map<Bytes, GoBuffer>, nums: set<nat>, made: seq<GoBuffer>,
                                  after: map<Bytes, GoBuffer>, p: nat)
    requires Makes(before, nums, made, after) && AllDiffer(made) && p < |made|
    ensures Own(after, made[p]) <==> p < FreeCount(nums, |made|) || p == |made| - 1
  {
    var last := |made| - 1;
    NamesLatest(before, made, |made|, last);
    if p < FreeCount(nums, |made|) {
      forall r | p < r < |made| ensures made[r].id != made[p].id {
        SharedIff(nums, made, p, r);
      }
      NamesLatest(before, made, |made|, p);
    } else if p < last {
      SharedIff(nums, made, p, last);
    }
  }

  /** All new buffers keep their ids to themselves exactly if there is room for them. */
  lemma {:induction false} AllOwnIff(before: map<Bytes, GoBuffer>, nums: set<nat>, made: seq<GoBuffer>,
                                     after: map<Bytes, GoBuffer>)
    requires Makes(before, nums, made, after) && AllDiffer(made)
    ensures AllOwn(after, made) <==> HasRoom(nums, |made|)
  {
    RoomCount(nums, |made|);
    forall p | 0 <= p < |made|
      ensures Own(after, made[p]) <==> p < FreeCount(nums, |made|) || p == |made| - 1
    {
      OwnIff(before, nums, made, after, p);
    }
    if !HasRoom(nums, |made|) {
      assert !Own(after, made[FreeCount(nums, |made|)]);
    }
  }

  lemma {:induction false} RoomIdsDiffer(nums: set<nat>, made: seq<GoBuffer>)
    requires Counted(made, nums) && HasRoom(nums, |made|)
    ensures IdsDiffer(made)
  {
    RoomCount(nums, |made|);
    forall i, j | 0 <= i < j < |made| ensures made[i].id != made[j].id {
      SharedIff(nums, made, i, j);
    }
  }

  /** What was there before and whose id was not given again is still there. */
  lemma {:induction false} OthersStay(before: map<Bytes, GoBuffer>, made: seq<GoBuffer>, n: nat, id: Bytes)
    requires n <= |made| && forall p | 0 <= p < n :: made[p].id != id
    ensures id in Filing(before, made, n) <==> id in before
    ensures id in before ==> Filing(before, made, n)[id] == before[id]
  {
    if n > 0 {
      OthersStay(before, made, n - 1, id);
    }
  }

  class GoBuffer {
    const id: Bytes
    const size: nat
    var data: Bytes

    constructor (id: Bytes, size: nat, data: Bytes)
      ensures this.id == id && this.size == size && this.data == data
    {
      this.id, this.size, this.data := id, size, data;
    }
  }

  /** The first bytes of `data`, padded with zeros to `size`. */
  function Padded(size: nat, data: Bytes): (r: Bytes)
    ensures |r| == size
    ensures |data| == size ==> r == data
  {
    seq(size, i requires 0 <= i < size => if i < |data| then data[i] else 0)
  }

  class GoEngine {
    var buffers: map<Bytes, GoBuffer>

    constructor ()
      ensures buffers == map[]
    {
      buffers := map[];
    }

    /** The new id counts the live buffers, so it may already be taken. */
    method CreateBuffer(size: nat, data: Bytes) returns (buf: GoBuffer)
      modifies this
      ensures fresh(buf)
      ensures buf.id == BufName(|old(buffers)| + 1) && buf.size == size && buf.data == Padded(size, data)
      ensures forall i | 0 <= i < size :: buf.data[i] == if i < |data| then data[i] else 0
      ensures buffers == old(buffers)[buf.id := buf]
    {
      buf := new GoBuffer(BufName(|buffers| + 1), size, Padded(size, data));
      buffers := buffers[buf.id := buf];
    }

    method ReleaseBuffer(b: GoBuffer)
      modifies this
      ensures buffers == old(buffers) - {b.id}
    {
      buffers := buffers - {b.id};
    }

    /** Reading past the buffer's size is refused. */
    method ReadBuffer(b: GoBuffer, offset: nat, size: nat) returns (r: Option<Bytes>)
      requires b.size <= |b.data|
      ensures r == if offset + size > b.size then None else Some(b.data[offset..offset + size])
    {
      if offset + size > b.size {
        return None;
      }
      return Some(b.data[offset..offset + size]);
    }

    /** What an argument stands for now. */
    ghost function Resolve(arg: KernelArg): Operand
      reads this, buffers.Values
    {
      match arg
      case Scalar(bytes) => Literal(bytes)
      case BufferRef(id) => if id in buffers then Memory(buffers[id].data) else Unknown
    }

    ghost function ResolveAll(args: seq<KernelArg>): seq<Operand>
      reads this, buffers.Values
    {
      seq(|args|, i requires 0 <= i < |args| reads this, buffers.Values => Resolve(args[i]))
    }

    method Operands(args: seq<KernelArg>) returns (r: seq<Operand>)
      ensures r == ResolveAll(args)
    {
      r := [];
      var i := 0;
      while i < |args|
        invariant 0 <= i <= |args|
        invariant |r| == i && forall j | 0 <= j < i :: r[j] == Resolve(args[j])
      {
        var o := match args[i]
          case Scalar(bytes) => Literal(bytes)
          case BufferRef(id) => if id in buffers then Memory(buffers[id].data) else Unknown;
        r := r + [o];
        i := i + 1;
      }
    }

    /** The live buffers among the arguments. */
    ghost function Referenced(args: seq<KernelArg>): set<GoBuffer>
      reads this
    {
      set i | 0 <= i < |args| && args[i].BufferRef? && args[i].bufferId in buffers :: buffers[args[i].bufferId]
    }

    /** Runs the kernel on what the arguments resolve to; an error leaves every buffer alone. */
    method ExecuteNDRange(kernel: KernelFn, args: seq<KernelArg>, global: seq<nat>, offset: seq<nat>) returns (ok: bool)
      requires Keyed(buffers) && KeepsSizes(kernel)
      requires forall i, j | 0 <= i < j < |args| && args[i].BufferRef? :: args[i] != args[j]
      modifies Referenced(args)
      ensures var result := kernel(old(ResolveAll(args)), global, offset);
              && ok == result.Some?
              && (!ok ==> forall b <- Referenced(args) :: b.data == old(b.data))
              && (ok ==> forall i | 0 <= i < |args| && args[i].BufferRef? && args[i].bufferId in buffers ::
                    i < |result.value| && buffers[args[i].bufferId].data == result.value[i])
    {
      var operands := Operands(args);
      var result := kernel(operands, global, offset);
      if result.None? {
        return false;
      }
      var outs := result.value;
      assert |outs| == |args|;
      var i := 0;
      while i < |args|
        invariant 0 <= i <= |args|
        invariant forall j | 0 <= j < i && args[j].BufferRef? && args[j].bufferId in buffers ::
                  buffers[args[j].bufferId].data == outs[j]
      {
        if args[i].BufferRef? && args[i].bufferId in buffers {
          buffers[args[i].bufferId].data := outs[i];
        }
        i := i + 1;
      }
      return true;
    }
  }

  /** SetKernelArg: grows the argument list with empty scalars up to the index, then sets it. */
  function SetArg(args: seq<KernelArg>, index: nat, arg: KernelArg): (r: seq<KernelArg>)
    ensures |r| == Max(|args|, index + 1) && r[index] == arg
  {
    (if index < |args| then args else args + seq(index + 1 - |args|, _ => Scalar([])))[index := arg]
  }
}
