/** vgpu/mem/vram.go: the VRAM manager and its buffers. */
module Vram {
  import opened Common
  import opened VramSpec

  /** `Panic` is no error value: Go's slicing stops the call. */
  datatype VramError = VramFull | NotFound | OutOfBounds | Panic

  class Buffer {
    const ID: string
    const Size: nat
    const Flags: nat
    const BufType: BufferType
    const HostPtr: array<Byte>
    var Dirty: bool

    constructor (id: string, size: nat, flags: nat, bufType: BufferType)
      ensures ID == id && Size == size && Flags == flags && BufType == bufType && !Dirty
      ensures fresh(HostPtr) && HostPtr[..] == ZeroBytes(size)
    {
      ID, Size, Flags, BufType, Dirty := id, size, flags, bufType, false;
      HostPtr := new Byte[size](_ => 0);
      new;
      assert HostPtr[..] == ZeroBytes(size);
    }

    /** Copies `data` in at `offset`. */
    method Copy(offset: nat, data: Bytes)
      requires offset + |data| <= HostPtr.Length
      modifies this, HostPtr
      ensures HostPtr[..] == Overwrite(old(HostPtr[..]), offset, data) && Dirty
    {
      forall i | 0 <= i < |data| {
        HostPtr[offset + i] := data[i];
      }
      Dirty := true;
      assert HostPtr[..] == Overwrite(old(HostPtr[..]), offset, data);
    }

    ghost function View(): BufView
      reads this, HostPtr
    {
      BufView(Size, Flags, BufType, HostPtr[..], Dirty)
    }
  }

  /** What a write answers: its range test wraps, and slicing from an offset past the end panics. */
  function WriteAnswer(s: VState, id: string, offset: nat, data: Bytes): Result<(), VramError> {
    if id !in s.bufs then Err(NotFound)
    else if (offset + |data|) % TWO64 > s.bufs[id].size then Err(OutOfBounds)
    else if offset > s.bufs[id].size then Err(Panic)
    else Ok(())
  }

  /** What a read answers, in unbounded numbers: a range whose end passes a uint64 but wraps into the buffer panics. */
  ghost function ReadAnswer(s: VState, id: string, offset: nat, size: nat): Result<Bytes, VramError>
    requires Sized(s)
  {
    if id !in s.bufs then Err(NotFound)
    else
      var b := s.bufs[id];
      if size == 0 then if offset <= b.size then Ok(b.data[offset..]) else Err(Panic)
      else if offset + size <= b.size then Ok(b.data[offset..offset + size])
      else if TWO64 <= offset + size <= TWO64 + b.size then Err(Panic)
      else Err(OutOfBounds)
  }

  /** What was written is read back, and what stands before or behind it is read as it was. */
  lemma {:induction false} WrittenIsRead(s: VState, id: string, offset: nat, data: Bytes, at: nat, size: nat)
    requires Sized(s) && WriteFits(s, id, offset, data) && size > 0 && at + size <= s.bufs[id].size < TWO64
    ensures var after := AfterWrite(s, id, offset, data);
      && Sized(after) && id in after.bufs && after.bufs[id].dirty && after.bufs == s.bufs[id := after.bufs[id]]
      && (at == offset && size == |data| ==> ReadAnswer(after, id, at, size) == Ok(data))
      && (at + size <= offset || offset + |data| <= at ==>
            ReadAnswer(after, id, at, size) == ReadAnswer(s, id, at, size))
  {
    var bytes := s.bufs[id].data;
    if at == offset && size == |data| {
      assert Overwrite(bytes, offset, data)[at..at + size] == data;
    }
    if at + size <= offset || offset + |data| <= at {
      assert Overwrite(bytes, offset, data)[at..at + size] == bytes[at..at + size];
    }
  }

  class VRAMManager {
    var VRAMTotal: nat
    var VRAMUsed: nat
    var Buffers: map<string, Buffer>
    var TotalAllocated: nat
    /** Bytes of buffers whose id was allocated again. */
    ghost var Leaked: nat
    /** What each id holds, and the objects that hold it. */
    ghost var Contents: map<string, BufView>
    ghost var Repr: set<object>

    /** Different ids have different buffers, and different buffers have different bytes. */
    ghost predicate Valid()
      reads this, Repr
    {
      && this in Repr
      && Buffers.Keys == Contents.Keys
      && (forall id <- Buffers :: Buffers[id] in Repr && Buffers[id].HostPtr in Repr)
      && (forall id <- Buffers ::
            && Buffers[id].ID == id && Buffers[id].HostPtr.Length == Buffers[id].Size < TWO64
            && Contents[id] == BufView(Buffers[id].Size, Buffers[id].Flags, Buffers[id].BufType,
                                       Buffers[id].HostPtr[..], Buffers[id].Dirty))
      && (forall i <- Buffers, j <- Buffers | i != j :: Buffers[i].HostPtr != Buffers[j].HostPtr)
    }

    ghost function State(): VState
      reads this
    {
      VState(VRAMTotal, VRAMUsed, TotalAllocated, Contents, Leaked)
    }

    constructor ()
      ensures Valid() && State() == Fresh(8 * 1024 * 1024 * 1024) && fresh(Repr)
      ensures VRAMTotal == 0x2_0000_0000 && VRAMUsed == TotalAllocated == 0 && Buffers == map[]
    {
      VRAMTotal, VRAMUsed, TotalAllocated, Leaked := 8 * 1024 * 1024 * 1024, 0, 0, 0;
      Buffers := map[];
      Contents := map[];
      Repr := {this};
    }

    method UpdateSpec(total: nat, used: nat)
      requires Valid()
      modifies this
      ensures Valid() && Repr == old(Repr) && State() == Step(old(State()), VramSpec.UpdateSpec(total, used))
      ensures VRAMTotal == total && VRAMUsed == used && TotalAllocated == old(TotalAllocated)
    {
      VRAMTotal, VRAMUsed := total, used;
    }

    /** Sets both counters. */
    method Count(sum: nat)
      requires Valid()
      modifies this`TotalAllocated, this`VRAMUsed
      ensures Valid() && TotalAllocated == VRAMUsed == sum
    {
      TotalAllocated, VRAMUsed := sum, sum;
    }

    /** Makes room in the ghost state for a buffer, and books what its id held as leaked. */
    ghost method Admit(buf: Buffer)
      requires Valid()
      modifies this`Repr, this`Leaked
      ensures Valid() && Repr == old(Repr) + {buf, buf.HostPtr} && Leaked == old(Leaked) + SizeOf(old(State()), buf.ID)
    {
      Repr, Leaked := Repr + {buf, buf.HostPtr}, Leaked + SizeOf(State(), buf.ID);
    }

    /** Maps the buffer's id to it, dropping whatever had the id. */
    method Insert(buf: Buffer)
      requires Valid() && buf in Repr && buf.HostPtr in Repr && buf.HostPtr.Length == buf.Size < TWO64
      requires forall id <- Buffers :: Buffers[id].HostPtr != buf.HostPtr
      modifies this`Buffers, this`Contents
      ensures Valid() && Buffers == old(Buffers)[buf.ID := buf] && Contents == old(Contents)[buf.ID := buf.View()]
    {
      Buffers, Contents := Buffers[buf.ID := buf], Contents[buf.ID := buf.View()];
    }

    method Remove(id: string)
      requires Valid()
      modifies this`Buffers, this`Contents
      ensures Valid() && Buffers == old(Buffers) - {id} && Contents == old(Contents) - {id}
    {
      Buffers, Contents := Buffers - {id}, Contents - {id};
    }

    /** A granted buffer: mapped and counted. */
    method Add(buf: Buffer)
      requires Valid() && buf !in Repr && buf.HostPtr !in Repr && buf.HostPtr.Length == buf.Size < TWO64
      requires buf.View() == BufView(buf.Size, buf.Flags, buf.BufType, ZeroBytes(buf.Size), false)
      requires Fits(State(), buf.Size)
      modifies this
      ensures Valid() && Repr == old(Repr) + {buf, buf.HostPtr} && Buffers == old(Buffers)[buf.ID := buf]
      ensures State() == AfterAllocate(old(State()), buf.ID, buf.Size, buf.Flags, buf.BufType)
    {
      Admit(buf);
      Insert(buf);
      Count((TotalAllocated + buf.Size) % TWO64);
    }

    method Allocate(id: string, size: nat, flags: nat, bufType: BufferType) returns (r: Result<Buffer, VramError>)
      requires Valid() && size < TWO64
      modifies this
      ensures Valid() && fresh(Repr - old(Repr))
      ensures State() == AfterAllocate(old(State()), id, size, flags, bufType)
      ensures State() == Step(old(State()), VramSpec.Allocate(id, size, flags, bufType))
      ensures r.Ok? <==> Fits(old(State()), size)
      ensures r.Ok? ==> id in Buffers && Buffers[id] == r.value && fresh(r.value)
      ensures r.Err? ==> r.error == VramFull
    {
      if (TotalAllocated + size) % TWO64 > VRAMTotal {
        return Err(VramFull);
      }
      var buf := new Buffer(id, size, flags, bufType);
      Add(buf);
      return Ok(buf);
    }

    method Release(id: string) returns (r: Result<(), VramError>)
      requires Valid()
      modifies this
      ensures Valid() && Repr == old(Repr)
      ensures State() == AfterRelease(old(State()), id) == Step(old(State()), VramSpec.Release(id))
      ensures r == if id in old(Contents) then Ok(()) else Err(NotFound)
    {
      if id !in Buffers {
        return Err(NotFound);
      }
      var left := (TotalAllocated - Buffers[id].Size) % TWO64;
      Count(left);
      Remove(id);
      return Ok(());
    }

    method Get(id: string) returns (r: Result<Buffer, VramError>)
      requires Valid()
      ensures r.Ok? <==> id in Contents
      ensures r.Ok? ==>
                r.value.Size == Contents[id].size && r.value.Flags == Contents[id].flags && r.value == Buffers[id]
      ensures r.Err? ==> r.error == NotFound
    {
      if id !in Buffers {
        return Err(NotFound);
      }
      return Ok(Buffers[id]);
    }

    /** Copies into a buffer that has room. */
    method CopyTo(buf: Buffer, offset: nat, data: Bytes)
      requires Valid() && buf.ID in Buffers && Buffers[buf.ID] == buf && offset + |data| <= buf.Size
      modifies Repr
      ensures Valid() && Repr == old(Repr) && State() == AfterWrite(old(State()), buf.ID, offset, data)
    {
      ghost var was := Contents[buf.ID];
      buf.Copy(offset, data);
      Contents := Contents[buf.ID := was.(data := Overwrite(was.data, offset, data), dirty := true)];
    }

    /** Together a buffer and the data are too short for the sum to wrap when the offset is in the buffer. */
    method Write(id: string, offset: nat, data: Bytes) returns (r: Result<(), VramError>)
      requires Valid() && offset < TWO64 && |data| < TWO64
      requires id in Contents && offset <= Contents[id].size ==> offset + |data| < TWO64
      modifies Repr
      ensures Valid() && Repr == old(Repr)
      ensures r == WriteAnswer(old(State()), id, offset, data)
      ensures r == Err(NotFound) <==> id !in old(Contents)
      ensures r == Err(Panic) <==> id in old(Contents) && offset > old(Contents)[id].size
                                   && (offset + |data|) % 0x1_0000_0000_0000_0000 <= old(Contents)[id].size
      ensures r.Ok? <==> WriteFits(old(State()), id, offset, data)
      ensures State() == AfterWrite(old(State()), id, offset, data)
                      == Step(old(State()), VramSpec.Write(id, offset, data))
    {
      if id !in Buffers {
        return Err(NotFound);
      }
      var buf := Buffers[id];
      if (offset + |data|) % TWO64 > buf.Size {
        return Err(OutOfBounds);
      }
      if offset > buf.Size {
        return Err(Panic);
      }
      CopyTo(buf, offset, data);
      return Ok(());
    }

    /** Size 0 reads what follows the offset. */
    method Read(id: string, offset: nat, size: nat) returns (r: Result<Bytes, VramError>)
      requires Valid() && offset < TWO64 && size < TWO64
      ensures r == ReadAnswer(State(), id, offset, size)
      ensures r == Err(NotFound) <==> id !in Contents
      ensures r.Ok? <==> id in Contents && offset + size <= Contents[id].size
      ensures r.Ok? ==> r.value == Contents[id].data[offset..if size == 0 then Contents[id].size else offset + size]
      ensures r == Err(Panic) <==>
                id in Contents && if size == 0 then offset > Contents[id].size
                                  else 0 <= offset + size - 0x1_0000_0000_0000_0000 <= Contents[id].size
    {
      if id !in Buffers {
        return Err(NotFound);
      }
      var buf := Buffers[id];
      var n := size;
      if n == 0 {
        n := (buf.Size - offset) % TWO64;
      }
      var end := (offset + n) % TWO64;
      if end > buf.Size {
        return Err(OutOfBounds);
      }
      if offset > end {
        return Err(Panic);
      }
      assert buf.HostPtr[..] == Contents[id].data;
      ghost var data := Contents[id].data;
      assert if size == 0 then end == |data| && data[offset..] == data[offset..end] else end == offset + size;
      return Ok(buf.HostPtr[offset..end]);
    }
  }
}
