/**
 * vgpu/server/ipc_server.go: handleBufferFill. The pattern is written piece by piece, and a piece that
 * VRAM refuses is dropped without a word.
 */
module BufferFill {
  import opened Arithmetic
  import opened Common
  import opened VramSpec
  import opened Vram

  /** Piece `c` of the fill; the last one may be cut. */
  function Piece(pattern: Bytes, size: nat, c: nat): Bytes
    requires c * |pattern| <= size
  {
    pattern[..Min(|pattern|, size - c * |pattern|)]
  }

  /** The VRAM after the first `n` pieces. */
  function Filled(s: VState, id: string, offset: nat, pattern: Bytes, size: nat, n: nat): VState
    requires n > 0 ==> (n - 1) * |pattern| < size
  {
    if n == 0 then s
    else
      PieceBefore(n - 1, |pattern|, size);
      var before := Filled(s, id, offset, pattern, size, n - 1);
      AfterWrite(before, id, offset + (n - 1) * |pattern|, Piece(pattern, size, n - 1))
  }

  lemma {:induction false} PieceBefore(c: nat, len: nat, size: nat)
    requires c * len < size
    ensures 0 <= c * len && (c > 0 ==> (c - 1) * len < size)
  {
    MulMonotone(0, c, len);
    MulMonotone(c - 1, c, len);
  }

  /** How many pieces the loop writes. */
  function Pieces(len: nat, size: nat): (n: nat)
    requires len > 0
    ensures (n > 0 ==> (n - 1) * len < size) && size <= n * len
  {
    var n := (size + len - 1) / len;
    assert size + len - 1 == n * len + (size + len - 1) % len;
    assert (n - 1) * len == n * len - len;
    n
  }

  /** Whether the piece that byte `j` belongs to fits the buffer. */
  predicate Lands(b: BufView, offset: nat, len: nat, size: nat, j: nat)
    requires len > 0 && offset <= j
  {
    offset + Min(((j - offset) / len + 1) * len, size) <= b.size
  }

  /** Byte `j` of the buffer after the first `n` pieces. */
  function ByteAfter(b: BufView, offset: nat, pattern: Bytes, size: nat, n: nat, j: nat): Byte
    requires |pattern| > 0 && j < |b.data|
  {
    if offset <= j && j - offset < size && j - offset < n * |pattern| && Lands(b, offset, |pattern|, size, j)
    then pattern[(j - offset) % |pattern|]
    else b.data[j]
  }

  /** The bytes of piece `c`, and those after it. */
  lemma {:induction false} InPiece(k: nat, c: nat, len: nat)
    requires len > 0
    ensures c * len <= k < c * len + len <==> k / len == c
    ensures k / len == c ==> k % len == k - c * len
  {
    if c * len <= k < c * len + len { DivModUnique(k, c, k - c * len, len); }
    assert k == (k / len) * len + k % len;
  }

  /** One more piece. */
  lemma {:induction false} PieceWritten(b: BufView, now: BufView, offset: nat, pattern: Bytes, size: nat, c: nat,
                                        j: nat)
    requires |pattern| > 0 && c * |pattern| < size && |b.data| == b.size && now.size == b.size && |now.data| == b.size
    requires j < b.size
    ensures 0 <= c * |pattern|
    ensures now.data[j] == ByteAfter(b, offset, pattern, size, c, j) ==>
              PieceInto(now, offset + c * |pattern|, Piece(pattern, size, c)).data[j]
              == ByteAfter(b, offset, pattern, size, c + 1, j)
  {
    var len := |pattern|;
    var at := c * len;
    PieceBefore(c, len, size);
    assert (c + 1) * len == at + len;
    if offset <= j {
      InPiece(j - offset, c, len);
    }
  }

  /** `now` is `b` with the first `n` pieces written. */
  ghost predicate FilledTo(b: BufView, now: BufView, offset: nat, pattern: Bytes, size: nat, n: nat)
    requires |pattern| > 0 && |b.data| == b.size
  {
    && now.size == |now.data| == b.size
    && forall j | 0 <= j < b.size :: now.data[j] == ByteAfter(b, offset, pattern, size, n, j)
  }

  lemma {:induction false} OneMoreFilled(b: BufView, now: BufView, offset: nat, pattern: Bytes, size: nat, c: nat)
    requires |pattern| > 0 && |b.data| == b.size && c * |pattern| < size
    requires FilledTo(b, now, offset, pattern, size, c)
    ensures 0 <= c * |pattern|
    ensures FilledTo(b, PieceInto(now, offset + c * |pattern|, Piece(pattern, size, c)), offset, pattern, size, c + 1)
  {
    PieceBefore(c, |pattern|, size);
    var at, piece := offset + c * |pattern|, Piece(pattern, size, c);
    forall j | 0 <= j < b.size
      ensures PieceInto(now, at, piece).data[j] == ByteAfter(b, offset, pattern, size, c + 1, j)
    {
      PieceWritten(b, now, offset, pattern, size, c, j);
    }
  }

  /** A piece that fits is written, any other is dropped. */
  function PieceInto(b: BufView, at: nat, piece: Bytes): (r: BufView)
    requires b.size == |b.data|
    ensures r.size == |r.data| == b.size
  {
    if at + |piece| <= b.size then b.(data := Overwrite(b.data, at, piece), dirty := true) else b
  }

  lemma {:induction false} NoneFilled(b: BufView, offset: nat, pattern: Bytes, size: nat)
    requires |pattern| > 0 && |b.data| == b.size
    ensures FilledTo(b, b, offset, pattern, size, 0)
  {
    assert 0 * |pattern| == 0;
  }

  /** Only buffer `id` differs, by `n` pieces. */
  ghost predicate OnlyFilled(s: VState, now: VState, id: string, offset: nat, pattern: Bytes, size: nat, n: nat)
    requires |pattern| > 0 && id in s.bufs && |s.bufs[id].data| == s.bufs[id].size
  {
    && id in now.bufs && now == s.(bufs := s.bufs[id := now.bufs[id]])
    && FilledTo(s.bufs[id], now.bufs[id], offset, pattern, size, n)
  }

  lemma {:induction false} WriteIsPieceInto(s: VState, now: VState, id: string, at: nat, piece: Bytes, after: BufView)
    requires id in s.bufs && id in now.bufs && now == s.(bufs := s.bufs[id := now.bufs[id]])
    requires now.bufs[id].size == |now.bufs[id].data| && after == PieceInto(now.bufs[id], at, piece)
    ensures AfterWrite(now, id, at, piece) == s.(bufs := s.bufs[id := after])
  {
  }

  /** Byte by byte: the pattern repeats over the range, except in a piece that does not fit the buffer. */
  lemma {:induction false} FilledBytes(s: VState, id: string, offset: nat, pattern: Bytes, size: nat, n: nat)
    requires |pattern| > 0 && id in s.bufs && |s.bufs[id].data| == s.bufs[id].size
    requires n > 0 ==> (n - 1) * |pattern| < size
    ensures OnlyFilled(s, Filled(s, id, offset, pattern, size, n), id, offset, pattern, size, n)
  {
    var b := s.bufs[id];
    if n == 0 {
      NoneFilled(b, offset, pattern, size);
      assert s == s.(bufs := s.bufs[id := b]);
    } else {
      PieceBefore(n - 1, |pattern|, size);
      FilledBytes(s, id, offset, pattern, size, n - 1);
      var now, at, piece := Filled(s, id, offset, pattern, size, n - 1), offset + (n - 1) * |pattern|, Piece(pattern,
          size, n - 1);
      OneMoreFilled(b, now.bufs[id], offset, pattern, size, n - 1);
      WriteIsPieceInto(s, now, id, at, piece, PieceInto(now.bufs[id], at, piece));
    }
  }

  /** How many bytes of the range a fill reaches: the pieces that lie in the buffer. */
  function Reached(bufSize: nat, offset: nat, len: nat, size: nat): (n: nat)
    requires len > 0
    ensures n <= size && (n > 0 ==> offset + n <= bufSize)
  {
    if offset + size <= bufSize then size
    else if bufSize <= offset then 0
    else
      var room := bufSize - offset;
      assert room == room / len * len + room % len;
      MulMonotone(0, room / len, len);
      room / len * len
  }

  /** Byte `k` of the range is reached if its piece lands. */
  lemma {:induction false} LandsIff(b: BufView, offset: nat, len: nat, size: nat, k: nat)
    requires len > 0 && k < size && offset + k < b.size
    ensures Lands(b, offset, len, size, offset + k) <==> k < Reached(b.size, offset, len, size)
  {
    assert k == (k / len) * len + k % len;
    assert (k / len + 1) * len == (k / len) * len + len;
    if offset + size > b.size {
      var room := b.size - offset;
      assert room == (room / len) * len + room % len;
      if k / len < room / len {
        MulMonotone(k / len + 1, room / len, len);
      } else {
        MulMonotone(room / len, k / len, len);
      }
    }
  }

  /** After the fill the reached bytes hold the repeated pattern and all others what they held. */
  lemma {:induction false} FillReaches(s: VState, id: string, offset: nat, pattern: Bytes, size: nat)
    requires |pattern| > 0 && id in s.bufs && |s.bufs[id].data| == s.bufs[id].size
    ensures var b, after := s.bufs[id], Filled(s, id, offset, pattern, size, Pieces(|pattern|, size));
            var n := Reached(b.size, offset, |pattern|, size);
            && id in after.bufs && after == s.(bufs := s.bufs[id := after.bufs[id]])
            && after.bufs[id].size == |after.bufs[id].data| == b.size
            && forall j | 0 <= j < b.size ::
                 after.bufs[id].data[j] ==
                   if offset <= j < offset + n then pattern[(j - offset) % |pattern|] else b.data[j]
  {
    var b, c := s.bufs[id], Pieces(|pattern|, size);
    FilledBytes(s, id, offset, pattern, size, c);
    forall j | 0 <= j < b.size
      ensures ByteAfter(b, offset, pattern, size, c, j) ==
              if offset <= j < offset + Reached(b.size, offset, |pattern|, size) then pattern[(j - offset) % |pattern|]
              else b.data[j]
    {
      if offset <= j < offset + size {
        LandsIff(b, offset, |pattern|, size, j - offset);
      }
    }
  }

  /** Bytes [from, to) are what a complete fill from `offset` on would leave there. */
  ghost predicate HoldPattern(data: Bytes, offset: nat, pattern: Bytes, from: nat, to: nat)
    requires |pattern| > 0 && offset <= from && to <= |data|
  {
    forall j | from <= j < to :: data[j] == pattern[(j - offset) % |pattern|]
  }

  lemma {:induction false} RestDecides(was: Bytes, now: Bytes, offset: nat, pattern: Bytes, n: nat, end: nat)
    requires |pattern| > 0 && |now| == |was| && offset + n <= end <= |was|
    requires HoldPattern(now, offset, pattern, offset, offset + n)
    requires forall j | offset + n <= j < end :: now[j] == was[j]
    ensures HoldPattern(now, offset, pattern, offset, end) <==> HoldPattern(was, offset, pattern, offset + n, end)
  {
    if HoldPattern(now, offset, pattern, offset, end) {
      forall j | offset + n <= j < end ensures was[j] == pattern[(j - offset) % |pattern|] {
        assert now[j] == was[j];
      }
    }
    if HoldPattern(was, offset, pattern, offset + n, end) {
      forall j | offset <= j < end ensures now[j] == pattern[(j - offset) % |pattern|] {
        if j >= offset + n { assert now[j] == was[j]; }
      }
    }
  }

  /**
   * The fill is complete in the part of the range that the buffer has exactly when the range ends inside the buffer,
   * or starts past its end, or ends of pieces and buffer meet, or what is left behind was the pattern already.
   */
  lemma {:induction false} FillCompleteIff(s: VState, id: string, offset: nat, pattern: Bytes, size: nat)
    requires |pattern| > 0 && id in s.bufs && |s.bufs[id].data| == s.bufs[id].size
    ensures var b, after := s.bufs[id], Filled(s, id, offset, pattern, size, Pieces(|pattern|, size));
            var n, end := Reached(b.size, offset, |pattern|, size), Min(offset + size, b.size);
            && id in after.bufs && |after.bufs[id].data| == b.size
            && (HoldPattern(after.bufs[id].data, offset, pattern, offset, end)
                <==> offset + size <= b.size || b.size <= offset || (b.size - offset) % |pattern| == 0
                     || HoldPattern(b.data, offset, pattern, offset + n, end))
  {
    var b, after := s.bufs[id], Filled(s, id, offset, pattern, size, Pieces(|pattern|, size));
    var n, end := Reached(b.size, offset, |pattern|, size), Min(offset + size, b.size);
    FillReaches(s, id, offset, pattern, size);
    if offset < b.size {
      RestDecides(b.data, after.bufs[id].data, offset, pattern, n, end);
      RestIsEmptyIff(b.size, offset, |pattern|, size);
    }
  }

  lemma {:induction false} RestIsEmptyIff(bufSize: nat, offset: nat, len: nat, size: nat)
    requires len > 0 && offset < bufSize
    ensures offset + Reached(bufSize, offset, len, size) == Min(offset + size, bufSize)
       <==> offset + size <= bufSize || (bufSize - offset) % len == 0
  {
    var room := bufSize - offset;
    assert room == room / len * len + room % len;
  }

  /** The loop has written `c` pieces and stands at byte `i`. */
  ghost predicate At(c: nat, len: nat, size: nat, i: int) { i == c * len && (c > 0 ==> (c - 1) * len < size) }

  lemma {:induction false} StepAt(c: nat, len: nat, size: nat, i: nat)
    requires At(c, len, size, i) && i < size
    ensures At(c + 1, len, size, i + len)
  {
    assert (c + 1) * len == c * len + len;
  }

  lemma {:induction false} NextPiece(s: VState, id: string, offset: nat, pattern: Bytes, size: nat, c: nat, i: nat)
    requires i == c * |pattern| && i < size && (c > 0 ==> (c - 1) * |pattern| < size)
    ensures Filled(s, id, offset, pattern, size, c + 1)
         == AfterWrite(Filled(s, id, offset, pattern, size, c), id, offset + i, pattern[..Min(|pattern|, size - i)])
  {
    PieceBefore(c, |pattern|, size);
  }

  /**
   * How the handler ends: with an error for a missing buffer, in a panic, or, for an empty pattern, never. When the
   * loop counter passes 2^64 the fill starts over; what follows is not part of the model.
   */
  datatype FillResult = BufferMissing | Completed | Panicked | Endless | StartsOver

  /** The part of the range that the loop counter goes through before it passes 2^64. */
  function FirstLap(len: nat, size: nat): (n: nat)
    requires len > 0 && size < TWO64
    ensures n <= size
  {
    assert 0 <= (TWO64 - 1) / len * len by { MulMonotone(0, (TWO64 - 1) / len, len); }
    Min(size, (TWO64 - 1) / len * len)
  }

  /** On a first lap the counter stays below 2^64. */
  ghost predicate StaysBelow(len: nat, size: nat)
    requires len > 0
  {
    Pieces(len, size) * len < TWO64
  }

  lemma {:induction false} FirstLapStaysBelow(len: nat, size: nat)
    requires len > 0 && size < TWO64
    ensures StaysBelow(len, FirstLap(len, size))
    ensures FirstLap(len, size) == size <==> StaysBelow(len, size)
  {
    var last := (TWO64 - 1) / len;
    assert TWO64 - 1 == last * len + (TWO64 - 1) % len;
    assert (last + 1) * len == last * len + len;
    var n := Pieces(len, FirstLap(len, size));
    if n > last { MulMonotone(last, n - 1, len); } else { MulMonotone(n, last, len); }
    var m := Pieces(len, size);
    if m > last { MulMonotone(last + 1, m, len); } else { MulMonotone(m, last, len); }
  }

  lemma {:induction false} BelowAt(len: nat, size: nat, c: nat, i: nat)
    requires len > 0 && StaysBelow(len, size) && i == c * len && i < size
    ensures i + len < TWO64
  {
    var n := Pieces(len, size);
    if c >= n { MulMonotone(n, c, len); }
    MulMonotone(c + 1, n, len);
    assert (c + 1) * len == i + len;
  }

  /** The piece that holds the last byte a uint64 can address. */
  function Crossing(offset: nat, len: nat): (c: nat)
    requires len > 0 && offset < TWO64
  {
    (TWO64 - 1 - offset) / len
  }

  /** That piece exists, and its end wraps into the buffer. */
  predicate FillPanics(bufSize: nat, offset: nat, len: nat, size: nat)
    requires len > 0 && offset < TWO64
  {
    && offset + size >= TWO64
    && offset + Min((Crossing(offset, len) + 1) * len, size) <= TWO64 + bufSize
  }

  /** How many pieces the loop writes before it ends or panics. */
  function PiecesWritten(bufSize: nat, offset: nat, len: nat, size: nat): (n: nat)
    requires len > 0 && offset < TWO64
    ensures n > 0 ==> (n - 1) * len < size
  {
    if FillPanics(bufSize, offset, len, size) then
      CrossingIs(offset, len, Crossing(offset, len), Crossing(offset, len) * len);
      PieceBefore(Crossing(offset, len), len, size);
      Crossing(offset, len)
    else Pieces(len, size)
  }

  /** Where piece `c` of `n` bytes goes, if no piece before it has panicked. */
  lemma {:induction false} PieceAt(bufSize: nat, offset: nat, len: nat, size: nat, c: nat, i: nat, n: nat)
    requires len > 0 && offset < TWO64 && i + len < TWO64 && bufSize + len < TWO64
    requires i == c * len && i < size < TWO64 && n == Min(len, size - i)
    requires c > Crossing(offset, len) ==> !FillPanics(bufSize, offset, len, size)
    ensures var at := (offset + i) % TWO64;
      && (at <= bufSize ==> at + n < TWO64)
      && (at > bufSize && (at + n) % TWO64 <= bufSize
          <==> c == Crossing(offset, len) && FillPanics(bufSize, offset, len, size))
      && (at == offset + i || at > bufSize)
  {
    CrossingIs(offset, len, c, i);
    Wrapped(offset + i);
    Wrapped((offset + i) % TWO64 + n);
    if c == Crossing(offset, len) {
      assert (c + 1) * len == i + len;
    } else if c > Crossing(offset, len) {
      PiecesAfter(offset, len, c, i);
    }
  }

  lemma {:induction false} Wrapped(x: nat)
    requires x < 2 * TWO64
    ensures x % TWO64 == if x < TWO64 then x else x - TWO64
  {
  }

  lemma {:induction false} PiecesAfter(offset: nat, len: nat, c: nat, i: nat)
    requires len > 0 && offset < TWO64 && i == c * len && c > Crossing(offset, len)
    ensures (Crossing(offset, len) + 1) * len <= i
  {
    MulMonotone(Crossing(offset, len) + 1, c, len);
  }

  lemma {:induction false} AnswerAt(s: VState, id: string, at: nat, piece: Bytes)
    requires id in s.bufs && at < TWO64 && |piece| < TWO64
    ensures WriteAnswer(s, id, at, piece) == Err(Panic) <==>
            at > s.bufs[id].size && (at + |piece|) % TWO64 <= s.bufs[id].size
  {
  }

  /** What Write answers for piece `c`, if no piece before it has panicked. */
  lemma {:induction false} PieceAnswer(s: VState, id: string, offset: nat, pattern: Bytes, size: nat, c: nat, i: nat)
    requires |pattern| > 0 && offset < TWO64 && size < TWO64 && i + |pattern| < TWO64
    requires id in s.bufs && s.bufs[id].size + |pattern| < TWO64
    requires i == c * |pattern| && i < size
    requires c > Crossing(offset, |pattern|) ==> !FillPanics(s.bufs[id].size, offset, |pattern|, size)
    ensures var at, piece := (offset + i) % TWO64, Piece(pattern, size, c);
      && (at <= s.bufs[id].size ==> at + |piece| < TWO64)
      && (WriteAnswer(s, id, at, piece) == Err(Panic) <==>
            c == Crossing(offset, |pattern|) && FillPanics(s.bufs[id].size, offset, |pattern|, size))
      && AfterWrite(s, id, at, piece) == AfterWrite(s, id, offset + i, piece)
  {
    var piece, at := Piece(pattern, size, c), (offset + i) % TWO64;
    assert |piece| == Min(|pattern|, size - i);
    PieceAt(s.bufs[id].size, offset, |pattern|, size, c, i, |piece|);
    AnswerAt(s, id, at, piece);
    if at != offset + i {
      PastEnd(s, id, at, piece);
      PastEnd(s, id, offset + i, piece);
    }
  }

  lemma {:induction false} PastEnd(s: VState, id: string, at: nat, piece: Bytes)
    requires id in s.bufs && at > s.bufs[id].size
    ensures AfterWrite(s, id, at, piece) == s
  {
  }

  lemma {:induction false} CrossingIs(offset: nat, len: nat, c: nat, i: nat)
    requires len > 0 && offset < TWO64 && i == c * len
    ensures c <= Crossing(offset, len) <==> offset + i < TWO64
    ensures c < Crossing(offset, len) ==> offset + i + len < TWO64
    ensures c == Crossing(offset, len) ==> offset + i + len >= TWO64
  {
    var room, last := TWO64 - 1 - offset, Crossing(offset, len);
    assert room == last * len + room % len;
    if c < last { MulMonotone(c + 1, last, len); }
    assert (c + 1) * len == i + len;
    if c > last { MulMonotone(last + 1, c, len); }
    assert (last + 1) * len == last * len + len;
  }

  /** One turn of the loop. */
  method WritePiece(vram: VRAMManager, id: string, offset: nat, pattern: Bytes, size: nat, i: nat, ghost s: VState,
                    ghost c: nat)
    returns (panicked: bool)
    requires vram.Valid() && |pattern| > 0 && At(c, |pattern|, size, i) && i < size
    requires offset < TWO64 && size < TWO64 && StaysBelow(|pattern|, size)
    requires id in s.bufs && |s.bufs[id].data| == s.bufs[id].size && s.bufs[id].size + |pattern| < TWO64
    requires c > Crossing(offset, |pattern|) ==> !FillPanics(s.bufs[id].size, offset, |pattern|, size)
    requires vram.State() == Filled(s, id, offset, pattern, size, c)
    modifies vram.Repr
    ensures vram.Valid() && vram.Repr == old(vram.Repr)
    ensures panicked <==> c == Crossing(offset, |pattern|) && FillPanics(s.bufs[id].size, offset, |pattern|, size)
    ensures panicked ==> vram.State() == Filled(s, id, offset, pattern, size, c)
    ensures !panicked ==> At(c + 1, |pattern|, size, i + |pattern|)
                          && vram.State() == Filled(s, id, offset, pattern, size, c + 1)
  {
    var n := |pattern|;
    if i + n > size {
      n := size - i;
    }
    StepAt(c, |pattern|, size, i);
    BelowAt(|pattern|, size, c, i);
    NextPiece(s, id, offset, pattern, size, c, i);
    FilledBytes(s, id, offset, pattern, size, c);
    PieceAnswer(vram.State(), id, offset, pattern, size, c, i);
    assert pattern[..n] == Piece(pattern, size, c);
    var written := vram.Write(id, (offset + i) % TWO64, pattern[..n]);
    panicked := written == Err(Panic);
  }

  /**
   * The handler. A buffer's size stays clear of 2^64 by a pattern's length, as the sizes of Go slices do. A panic
   * leaves the pieces before the one that panicked.
   */
  method HandleBufferFill(vram: VRAMManager, id: string, offset: nat, pattern: Bytes, size: nat) returns (r: FillResult)
    requires vram.Valid() && offset < TWO64 && size < TWO64
    requires id in vram.Contents ==> vram.Contents[id].size + |pattern| < TWO64
    modifies vram.Repr
    ensures vram.Valid() && vram.Repr == old(vram.Repr)
    ensures r == BufferMissing <==> id !in old(vram.Contents)
    ensures r == Endless <==> id in old(vram.Contents) && |pattern| == 0 < size
    ensures r == Panicked <==> id in old(vram.Contents) && |pattern| > 0
                               && FillPanics(old(vram.Contents)[id].size, offset, |pattern|, FirstLap(|pattern|, size))
    ensures r == StartsOver <==> id in old(vram.Contents) && |pattern| > 0 && r != Panicked
                                 && FirstLap(|pattern|, size) < size
    ensures vram.State() ==
            if |pattern| == 0 || id !in old(vram.Contents) then old(vram.State())
            else
              var lap := FirstLap(|pattern|, size);
              Filled(old(vram.State()), id, offset, pattern, lap,
                     PiecesWritten(old(vram.Contents)[id].size, offset, |pattern|, lap))
  {
    var buf := vram.Get(id);
    if buf.Err? {
      return BufferMissing;
    }
    if |pattern| == 0 {
      return if size > 0 then Endless else Completed;
    }
    FirstLapStaysBelow(|pattern|, size);
    var lap := FirstLap(|pattern|, size);
    var panicked := FillPieces(vram, id, offset, pattern, lap);
    return if panicked then Panicked else if lap < size then StartsOver else Completed;
  }

  /** The loop, as long as its counter stays below 2^64. */
  method FillPieces(vram: VRAMManager, id: string, offset: nat, pattern: Bytes, size: nat) returns (panicked: bool)
    requires vram.Valid() && |pattern| > 0 && offset < TWO64 && size < TWO64 && StaysBelow(|pattern|, size)
    requires id in vram.Contents && vram.Contents[id].size + |pattern| < TWO64
    modifies vram.Repr
    ensures vram.Valid() && vram.Repr == old(vram.Repr)
    ensures panicked <==> FillPanics(old(vram.Contents)[id].size, offset, |pattern|, size)
    ensures vram.State() == Filled(old(vram.State()), id, offset, pattern, size,
                                   PiecesWritten(old(vram.Contents)[id].size, offset, |pattern|, size))
  {
    ghost var c: nat, s := 0, vram.State();
    var i := 0;
    panicked := false;
    while i < size && !panicked
      invariant At(c, |pattern|, size, i)
      invariant vram.Valid() && vram.Repr == old(vram.Repr)
      invariant vram.State() == Filled(s, id, offset, pattern, size, c)
      invariant c > Crossing(offset, |pattern|) ==> !FillPanics(s.bufs[id].size, offset, |pattern|, size)
      invariant panicked ==> c == Crossing(offset, |pattern|) && FillPanics(s.bufs[id].size, offset, |pattern|, size)
      decreases size - i, !panicked
    {
      panicked := WritePiece(vram, id, offset, pattern, size, i, s, c);
      if !panicked {
        i, c := i + |pattern|, c + 1;
      }
    }
    if !panicked {
      LastPiece(c, |pattern|, size);
      CrossingIs(offset, |pattern|, c, i);
    }
  }

  lemma {:induction false} LastPiece(c: nat, len: nat, size: nat)
    requires len > 0 && (c > 0 ==> (c - 1) * len < size) && size <= c * len
    ensures c == Pieces(len, size)
  {
    var n := Pieces(len, size);
    if c < n { MulMonotone(c, n - 1, len); }
    if n < c { MulMonotone(n, c - 1, len); }
  }
}
