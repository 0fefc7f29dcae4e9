/** A buffer is a list of byte chunks; a byte iterator into it is a chunk and an offset in
    that chunk. It behaves like an index into the one flat byte string. */
module ByteBuffer {
  import opened Util

  function Flatten(chunks: seq<seq<Byte>>): seq<Byte> {
    if chunks == [] then [] else Flatten(chunks[..|chunks| - 1]) + chunks[|chunks| - 1]
  }

  /** The flat index of the first byte of chunk `i`, or of the end. */
  function StartOf(chunks: seq<seq<Byte>>, i: nat): nat
    requires i <= |chunks|
  {
    if i == 0 then 0 else StartOf(chunks, i - 1) + |chunks[i - 1]|
  }

  datatype Position = Position(chunk: nat, offset: nat)

  /** Points into a chunk, at its end at most, or at the end of the list. */
  predicate Inside(chunks: seq<seq<Byte>>, p: Position) {
    && p.chunk <= |chunks|
    && (p.chunk == |chunks| ==> p.offset == 0)
    && (p.chunk < |chunks| ==> p.offset <= |chunks[p.chunk]|)
  }

  /** Points at a byte, or is the end of the list. */
  predicate Normal(chunks: seq<seq<Byte>>, p: Position) {
    Inside(chunks, p) && (p.chunk < |chunks| ==> p.offset < |chunks[p.chunk]|)
  }

  /** As an iterator comes to rest: normal, or at the start of an empty chunk. */
  predicate Settled(chunks: seq<seq<Byte>>, p: Position) {
    Inside(chunks, p) && (p.chunk < |chunks| && p.offset > 0 ==> p.offset < |chunks[p.chunk]|)
  }

  function Flat(chunks: seq<seq<Byte>>, p: Position): nat
    requires Inside(chunks, p)
  {
    StartOf(chunks, p.chunk) + p.offset
  }

  /** The chunks from `from` on that start before flat index `goal` all have bytes. */
  predicate NoneEmptyBefore(chunks: seq<seq<Byte>>, from: nat, goal: nat) {
    forall k | from <= k < |chunks| && StartOf(chunks, k) < goal :: chunks[k] != []
  }

  predicate NoEmptyChunk(chunks: seq<seq<Byte>>) { forall i | 0 <= i < |chunks| :: chunks[i] != [] }

  lemma {:induction false} StartOfGrows(chunks: seq<seq<Byte>>, i: nat, j: nat)
    requires i <= j <= |chunks|
    ensures StartOf(chunks, i) <= StartOf(chunks, j)
    ensures i < j ==> StartOf(chunks, i) + |chunks[i]| <= StartOf(chunks, j)
    decreases j
  {
    if i < j { StartOfGrows(chunks, i, j - 1); }
  }

  lemma NextChunk(chunks: seq<seq<Byte>>, p: Position)
    requires Inside(chunks, p) && p.chunk < |chunks|
    ensures StartOf(chunks, p.chunk + 1) == Flat(chunks, p) + (|chunks[p.chunk]| - p.offset)
  {}

  /** Positions in normal form are ordered as their flat indices are. */
  lemma NormalIsUnique(chunks: seq<seq<Byte>>, p: Position, q: Position)
    requires Normal(chunks, p) && Normal(chunks, q)
    ensures p == q <==> Flat(chunks, p) == Flat(chunks, q)
  {
    if p.chunk < q.chunk {
      StartOfGrows(chunks, p.chunk, q.chunk);
    } else if q.chunk < p.chunk {
      StartOfGrows(chunks, q.chunk, p.chunk);
    }
  }

  lemma {:induction false} StartOfPrefix(chunks: seq<seq<Byte>>, n: nat, i: nat)
    requires i <= n <= |chunks|
    ensures StartOf(chunks[..n], i) == StartOf(chunks, i)
  {
    if i > 0 { StartOfPrefix(chunks, n, i - 1); }
  }

  lemma {:induction false} FlattenLength(chunks: seq<seq<Byte>>)
    ensures |Flatten(chunks)| == StartOf(chunks, |chunks|)
  {
    if chunks != [] {
      var n := |chunks| - 1;
      FlattenLength(chunks[..n]);
      StartOfPrefix(chunks, n, n);
    }
  }

  /** Chunk `i` lies in the flat string from its start to the next one's. */
  lemma {:induction false} ChunkInFlat(chunks: seq<seq<Byte>>, i: nat)
    requires i < |chunks|
    ensures StartOf(chunks, i) + |chunks[i]| <= |Flatten(chunks)|
    ensures Flatten(chunks)[StartOf(chunks, i)..StartOf(chunks, i) + |chunks[i]|] == chunks[i]
    decreases |chunks|
  {
    var n := |chunks| - 1;
    FlattenLength(chunks);
    FlattenLength(chunks[..n]);
    StartOfPrefix(chunks, n, i);
    if i < n {
      ChunkInFlat(chunks[..n], i);
    }
  }

  // -------------------------------------------------------------------------- iterator

  class ByteIterator {
    const chunks: seq<seq<Byte>>
    var chunk: nat
    var offset: nat

    function At(): Position
      reads this
    {
      Position(chunk, offset)
    }

    constructor (chunks: seq<seq<Byte>>, chunk: nat)
      ensures this.chunks == chunks && At() == Position(chunk, 0)
    {
      this.chunks := chunks;
      this.chunk, this.offset := chunk, 0;
    }

    /** Moves on by exactly `count` bytes. The source asserts that each chunk it stands in
        while it still has to move has bytes left, so no chunk on the way may be empty. */
    method Increment(count: nat)
      requires Settled(chunks, At()) && Flat(chunks, At()) + count <= |Flatten(chunks)|
      requires NoneEmptyBefore(chunks, chunk, Flat(chunks, At()) + count)
      modifies this
      ensures Settled(chunks, At()) && Flat(chunks, At()) == Flat(chunks, old(At())) + count
      ensures count > 0 && offset == 0 ==> 0 < chunk <= |chunks| && chunks[chunk - 1] != []
    {
      hide StartOf, Flatten;
      FlattenLength(chunks);
      ghost var goal := Flat(chunks, At()) + count;
      var left: nat := count;
      while left > 0
        invariant Settled(chunks, At()) && old(chunk) <= chunk
        invariant Flat(chunks, At()) + left == goal
        invariant left < count && offset == 0 ==> chunk > 0 && chunks[chunk - 1] != []
        decreases left
      {
        assert chunk < |chunks|;
        var size := |chunks[chunk]| - offset;
        NextChunk(chunks, At());
        if size <= left {
          chunk := chunk + 1;
          offset := 0;
          left := left - size;
        } else {
          offset := offset + left;
          break;
        }
      }
    }

    /** Moves back by exactly `count` bytes, over empty chunks as well. */
    method Decrement(count: nat)
      requires Settled(chunks, At()) && count <= Flat(chunks, At())
      modifies this
      ensures Settled(chunks, At()) && Flat(chunks, At()) == Flat(chunks, old(At())) - count
    {
      ghost var goal := Flat(chunks, At()) - count;
      var left: nat := count;
      while left > 0
        invariant Inside(chunks, At()) && left <= Flat(chunks, At())
        invariant Settled(chunks, At()) || left > 0
        invariant Flat(chunks, At()) - left == goal
        decreases chunk, left
      {
        ghost var before := At();
        if left <= offset {
          offset := offset - left;
          assert Flat(chunks, At()) == Flat(chunks, before) - left;
          break;
        } else {
          assert chunk > 0;
          left := left - offset;
          chunk := chunk - 1;
          offset := |chunks[chunk]|;
          assert Flat(chunks, At()) == Flat(chunks, before) - before.offset;
        }
      }
    }

    /** `+=` with a signed distance. */
    method Advance(distance: int)
      requires NoEmptyChunk(chunks) && Normal(chunks, At())
      requires 0 <= Flat(chunks, At()) + distance <= |Flatten(chunks)|
      modifies this
      ensures Normal(chunks, At()) && Flat(chunks, At()) == Flat(chunks, old(At())) + distance
    {
      if 0 < distance {
        Increment(distance);
      } else if distance < 0 {
        Decrement(-distance);
      }
    }

    /** Moving by two distances in turn is moving by their sum, and moving back undoes it:
        the iterator ends on the very same chunk and offset. */
    method MoveTwice(first: int, second: int)
      requires NoEmptyChunk(chunks) && Normal(chunks, At())
      requires 0 <= Flat(chunks, At()) + first <= |Flatten(chunks)|
      requires 0 <= Flat(chunks, At()) + first + second <= |Flatten(chunks)|
      modifies this
      ensures first + second == 0 ==> At() == old(At())
      ensures forall p | Normal(chunks, p) && Flat(chunks, p) == Flat(chunks, old(At())) + first + second ::
                At() == p
    {
      ghost var start := At();
      Advance(first);
      Advance(second);
      NormalIsUnique(chunks, At(), start);
      forall p | Normal(chunks, p) && Flat(chunks, p) == Flat(chunks, start) + first + second ensures At() == p {
        NormalIsUnique(chunks, At(), p);
      }
    }

    function ChunkSize(end: Position): (size: nat)
      requires Inside(chunks, At()) && Inside(chunks, end)
      requires chunk == end.chunk ==> offset <= end.offset
      requires chunk < |chunks| || chunk == end.chunk
      reads this
    {
      if chunk != end.chunk then |chunks[chunk]| - offset else end.offset - offset
    }

    /** Leaves only a chunk boundary, and only over chunks without bytes. */
    method SkipEmptyChunks(end: Position)
      requires Inside(chunks, At()) && Inside(chunks, end) && chunk <= end.chunk
      modifies this`chunk
      ensures Inside(chunks, At()) && old(chunk) <= chunk <= end.chunk
      ensures Flat(chunks, At()) == Flat(chunks, old(At()))
      ensures offset == 0 && chunk < end.chunk ==> chunks[chunk] != []
      ensures offset != 0 ==> At() == old(At())
    {
      if offset != 0 { return; }
      while chunk != end.chunk && |chunks[chunk]| == 0
        invariant chunk <= end.chunk && offset == 0
        invariant StartOf(chunks, chunk) == StartOf(chunks, old(chunk))
        decreases end.chunk - chunk
      {
        chunk := chunk + 1;
      }
    }
  }

  /** Iterator equality compares chunk and offset. That compares the places in the flat
      string unless nothing but empty chunks lies between two chunk boundaries. */
  lemma EqualityIsFlatEquality(chunks: seq<seq<Byte>>, p: Position, q: Position)
    requires Settled(chunks, p) && Settled(chunks, q) && p.chunk <= q.chunk
    ensures Flat(chunks, p) == Flat(chunks, q)
       <==> p == q || (p.offset == 0 && q.offset == 0 && OnlyEmpty(chunks, p.chunk, q.chunk))
  {
    if p.chunk < q.chunk {
      StartOfGrows(chunks, p.chunk, q.chunk);
      NothingBetween(chunks, p.chunk, q.chunk);
    }
  }

  predicate OnlyEmpty(chunks: seq<seq<Byte>>, i: nat, j: nat)
    requires i <= j <= |chunks|
  {
    forall k | i <= k < j :: chunks[k] == []
  }

  lemma {:induction false} NothingBetween(chunks: seq<seq<Byte>>, i: nat, j: nat)
    requires i <= j <= |chunks|
    ensures StartOf(chunks, i) == StartOf(chunks, j) <==> OnlyEmpty(chunks, i, j)
    decreases j
  {
    if i < j {
      NothingBetween(chunks, i, j - 1);
      StartOfGrows(chunks, i, j - 1);
    }
  }

  // -------------------------------------------------------------------------- scanning

  /** One step of a scan: a piece of one chunk is a piece of the flat string. */
  lemma PieceIsFlat(chunks: seq<seq<Byte>>, p: Position, size: nat)
    requires Inside(chunks, p) && p.chunk < |chunks| && p.offset + size <= |chunks[p.chunk]|
    ensures Flat(chunks, p) + size <= |Flatten(chunks)|
    ensures Flatten(chunks)[Flat(chunks, p)..Flat(chunks, p) + size]
         == chunks[p.chunk][p.offset..p.offset + size]
  {
    ChunkInFlat(chunks, p.chunk);
    SliceOfSlice(Flatten(chunks), StartOf(chunks, p.chunk), |chunks[p.chunk]|, p.offset, size);
  }

  lemma SliceOfSlice(s: seq<Byte>, start: nat, length: nat, offset: nat, size: nat)
    requires start + length <= |s| && offset + size <= length
    ensures s[start..start + length][offset..offset + size] == s[start + offset..start + offset + size]
  {
    var part := s[start..start + length];
    var inner, outer := part[offset..offset + size], s[start + offset..start + offset + size];
    forall k | 0 <= k < size ensures inner[k] == outer[k] {
      assert part[offset + k] == s[start + (offset + k)];
    }
  }

  /** Moving within one chunk that has bytes left crosses no other. */
  lemma WithinOneChunk(chunks: seq<seq<Byte>>, p: Position, size: nat)
    requires Inside(chunks, p) && p.chunk < |chunks| && chunks[p.chunk] != []
    requires p.offset + size <= |chunks[p.chunk]|
    ensures NoneEmptyBefore(chunks, p.chunk, Flat(chunks, p) + size)
  {
    forall k | p.chunk < k < |chunks| ensures StartOf(chunks, k) >= Flat(chunks, p) + size {
      StartOfGrows(chunks, p.chunk, k);
    }
  }

  /** A position before `end` in the order of the list, not at the end of its own chunk. */
  predicate Before(chunks: seq<seq<Byte>>, p: Position, end: Position) {
    && Settled(chunks, p) && Inside(chunks, end)
    && (p.chunk < end.chunk || (p.chunk == end.chunk && p.offset <= end.offset))
  }

  lemma SlicesJoin(s: seq<Byte>, a: nat, b: nat, c: nat)
    requires a <= b <= c <= |s|
    ensures s[a..b] + s[b..c] == s[a..c]
  {}

  /** Within one chunk or at the next one's start: where a scan can land. */
  lemma LandsBefore(chunks: seq<seq<Byte>>, p: Position, q: Position, end: Position, size: nat)
    requires Before(chunks, p, end) && Settled(chunks, q) && p.chunk < |chunks|
    requires Flat(chunks, q) == Flat(chunks, p) + size && 0 < size
    requires p.chunk == end.chunk ==> q == end
    requires p.chunk < end.chunk ==> q == Position(p.chunk + 1, 0)
    ensures Before(chunks, q, end)
  {}

  /** The loop all senders and readers use: skip empty chunks, handle one contiguous piece,
      advance by its size. It ends, and hands over every byte of the range once, in order;
      empty chunks may lie anywhere in the buffer. */
  method Scan(chunks: seq<seq<Byte>>, begin: Position, end: Position) returns (out: seq<Byte>)
    requires Before(chunks, begin, end) && Settled(chunks, end)
    ensures Flat(chunks, begin) <= Flat(chunks, end) <= |Flatten(chunks)|
    ensures out == Flatten(chunks)[Flat(chunks, begin)..Flat(chunks, end)]
  {
    hide StartOf, Flatten, Flat, NoneEmptyBefore;
    RangeInside(chunks, begin, end);
    ghost var all, first := Flatten(chunks), Flat(chunks, begin);
    out := [];
    var i := new ByteIterator(chunks, begin.chunk);
    i.offset := begin.offset;
    i.SkipEmptyChunks(end);
    while i.At() != end
      invariant fresh(i) && i.chunks == chunks && Before(chunks, i.At(), end)
      invariant i.chunk < end.chunk ==> chunks[i.chunk] != []
      invariant first <= Flat(chunks, i.At()) <= Flat(chunks, end)
      invariant out == all[first..Flat(chunks, i.At())]
      decreases Flat(chunks, end) - Flat(chunks, i.At())
    {
      ghost var was := Flat(chunks, i.At());
      var piece := ScanPiece(i, end);
      SlicesJoin(all, first, was, Flat(chunks, i.At()));
      out := out + piece;
    }
  }

  /** One turn of that loop. */
  method ScanPiece(i: ByteIterator, end: Position) returns (piece: seq<Byte>)
    requires Before(i.chunks, i.At(), end) && Settled(i.chunks, end) && i.At() != end
    requires i.chunk < end.chunk ==> i.chunks[i.chunk] != []
    modifies i
    ensures Before(i.chunks, i.At(), end) && (i.chunk < end.chunk ==> i.chunks[i.chunk] != [])
    ensures Flat(i.chunks, old(i.At())) < Flat(i.chunks, i.At()) <= Flat(i.chunks, end) <= |Flatten(i.chunks)|
    ensures piece == Flatten(i.chunks)[Flat(i.chunks, old(i.At()))..Flat(i.chunks, i.At())]
  {
    hide StartOf, Flatten, Flat, NoneEmptyBefore;
    ghost var was := i.At();
    RangeInside(i.chunks, was, end);
    var size := i.ChunkSize(end);
    PieceIsFlat(i.chunks, was, size);
    WithinOneChunk(i.chunks, was, size);
    piece := i.chunks[i.chunk][i.offset..i.offset + size];
    i.Increment(size);
    LandsAt(i.chunks, was, i.At(), end, size);
    LandsBefore(i.chunks, was, i.At(), end, size);
    i.SkipEmptyChunks(end);
    RangeInside(i.chunks, i.At(), end);
  }

  /** Where an increment to the end of the chunk or of the range lands. */
  lemma LandsAt(chunks: seq<seq<Byte>>, p: Position, q: Position, end: Position, size: nat)
    requires Before(chunks, p, end) && Settled(chunks, q) && Settled(chunks, end) && p.chunk < |chunks|
    requires chunks[p.chunk] != [] && 0 < size
    requires size == if p.chunk != end.chunk then |chunks[p.chunk]| - p.offset else end.offset - p.offset
    requires Flat(chunks, q) == Flat(chunks, p) + size
    requires q.offset == 0 ==> 0 < q.chunk && chunks[q.chunk - 1] != []
    ensures p.chunk == end.chunk ==> q == end
    ensures p.chunk < end.chunk ==> q == Position(p.chunk + 1, 0)
  {
    var at := p.chunk;
    if q.chunk < at {
      StartOfGrows(chunks, q.chunk, at);
    } else if q.chunk > at {
      StartOfGrows(chunks, at + 1, q.chunk);
      if q.offset == 0 && q.chunk > at + 1 {
        StartOfGrows(chunks, at + 1, q.chunk - 1);
      }
    }
  }

  lemma RangeInside(chunks: seq<seq<Byte>>, p: Position, end: Position)
    requires Inside(chunks, p) && Inside(chunks, end)
    requires p.chunk < end.chunk || (p.chunk == end.chunk && p.offset <= end.offset)
    ensures Flat(chunks, p) <= Flat(chunks, end) <= |Flatten(chunks)|
  {
    FlattenLength(chunks);
    StartOfGrows(chunks, p.chunk, end.chunk);
    StartOfGrows(chunks, end.chunk, |chunks|);
  }

  /** The sum of whole chunks from the one `begin` is in to the one before `end`'s. */
  method ByteSize(chunks: seq<seq<Byte>>, begin: Position, end: Position) returns (result: nat)
    requires Inside(chunks, begin) && Inside(chunks, end) && begin.chunk <= end.chunk
    ensures result + end.offset + Flat(chunks, begin) == Flat(chunks, end) + begin.offset
  {
    result := 0;
    for i := begin.chunk to end.chunk
      invariant result == StartOf(chunks, i) - StartOf(chunks, begin.chunk)
    {
      result := result + |chunks[i]|;
    }
  }

  /** So it is the number of bytes between the two exactly when their offsets are equal,
      as they are for two chunk boundaries. */
  lemma ByteSizeIsDistance(chunks: seq<seq<Byte>>, begin: Position, end: Position, result: nat)
    requires Inside(chunks, begin) && Inside(chunks, end) && begin.chunk <= end.chunk
    requires result + end.offset + Flat(chunks, begin) == Flat(chunks, end) + begin.offset
    ensures result == Flat(chunks, end) - Flat(chunks, begin) <==> begin.offset == end.offset
  {}

  /** Two positions in one chunk are one byte apart, and `byte_size` says none. */
  lemma ByteSizeMisses()
    ensures var chunks, begin, end := [[1, 2]], Position(0, 0), Position(0, 1);
            && Inside(chunks, begin) && Inside(chunks, end)
            && Flat(chunks, end) - Flat(chunks, begin) == 1
            && 0 + end.offset + Flat(chunks, begin) == Flat(chunks, end) + begin.offset
  {}

  /** The two sides of an empty chunk are the same place and not equal. */
  lemma EmptyChunkBetween()
    ensures var chunks, p, q := [[], [1]], Position(0, 0), Position(1, 0);
            Settled(chunks, p) && Settled(chunks, q) && Flat(chunks, p) == Flat(chunks, q) && p != q
  {}
}
