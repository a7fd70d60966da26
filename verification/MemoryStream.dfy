/** The chunk list of DuplexMemoryStream (base/MemoryStream.h) as a store for one long byte sequence. */
module ChunkStore {
  import opened Occurrences
  import opened Bytes

  const CHUNK_SIZE := 4096

  ghost predicate FullChunks(chunks: seq<seq<u8>>) {
    forall i :: 0 <= i < |chunks| ==> |chunks[i]| == CHUNK_SIZE
  }

  lemma {:induction false} FullChunksLength(chunks: seq<seq<u8>>)
    requires FullChunks(chunks)
    ensures |Flat(chunks)| == |chunks| * CHUNK_SIZE
  {
    if chunks != [] { FullChunksLength(chunks[..|chunks| - 1]); }
  }

  /** The chunks hold `data` from `base` on, in as many chunks as that takes. */
  ghost predicate Stores(chunks: seq<seq<u8>>, base: nat, data: seq<u8>) {
    && FullChunks(chunks) && base % CHUNK_SIZE == 0 && base <= |data|
    && (|chunks| - 1) * CHUNK_SIZE < |data| - base <= |chunks| * CHUNK_SIZE
    && |data| - base <= |Flat(chunks)| && Flat(chunks)[..|data| - base] == data[base..]
  }

  lemma ChunkOffset(base: nat, i: nat)
    requires base % CHUNK_SIZE == 0 && base <= i
    ensures (i - base) % CHUNK_SIZE == i % CHUNK_SIZE
      && i - base == (i - base) / CHUNK_SIZE * CHUNK_SIZE + i % CHUNK_SIZE
  {
  }

  lemma ElementAt(chunks: seq<seq<u8>>, base: nat, data: seq<u8>, k: nat, o: nat)
    requires Stores(chunks, base, data) && k < |chunks| && o < CHUNK_SIZE && base + k * CHUNK_SIZE + o < |data|
    ensures chunks[k][o] == data[base + k * CHUNK_SIZE + o]
  {
    FullChunksLength(chunks[..k]);
    FlatAt(chunks, k, o);
    var i := k * CHUNK_SIZE + o;
    assert Flat(chunks)[..|data| - base][i] == data[base..][i];
  }

  /** A stretch of one chunk is a stretch of the data. */
  lemma SliceAt(chunks: seq<seq<u8>>, base: nat, data: seq<u8>, k: nat, o: nat, n: nat)
    requires Stores(chunks, base, data) && 0 < n && o + n <= CHUNK_SIZE && base + k * CHUNK_SIZE + o + n <= |data|
    ensures k < |chunks| && |chunks[k]| == CHUNK_SIZE
    ensures var i := base + k * CHUNK_SIZE + o; chunks[k][o..o + n] == data[i..i + n]
  {
    var i := base + k * CHUNK_SIZE + o;
    var slice := chunks[k][o..o + n];
    forall j | 0 <= j < n ensures slice[j] == data[i..i + n][j] {
      ElementAt(chunks, base, data, k, o + j);
    }
  }

  /** Appending the next stretch to spans that hold the data from `r` on. */
  lemma SpanStep(chunks: seq<seq<u8>>, base: nat, data: seq<u8>, r: nat, spans: seq<seq<u8>>, k: nat, o: nat, n: nat)
    requires Stores(chunks, base, data) && 0 < n && o + n <= CHUNK_SIZE && base + k * CHUNK_SIZE + o + n <= |data|
    requires r <= base + k * CHUNK_SIZE + o && Flat(spans) == data[r..base + k * CHUNK_SIZE + o]
    ensures k < |chunks| && |chunks[k]| == CHUNK_SIZE
    ensures Flat(spans + [chunks[k][o..o + n]]) == data[r..base + k * CHUNK_SIZE + o + n]
  {
    var at := base + k * CHUNK_SIZE + o;
    SliceAt(chunks, base, data, k, o, n);
    FlatAppend(spans, chunks[k][o..o + n]);
    assert data[r..at + n] == data[r..at] + data[at..at + n];
  }

  /** The end of the data, seen from the start of the last chunk. */
  lemma OffsetInLast(count: nat, base: nat, size: nat)
    requires count > 0 && base % CHUNK_SIZE == 0 && base <= size
    requires (count - 1) * CHUNK_SIZE <= size - base < count * CHUNK_SIZE
    ensures size - base == (count - 1) * CHUNK_SIZE + size % CHUNK_SIZE
  {
  }

  /** Overwriting in the last chunk right behind the data appends to what the chunks begin with. */
  lemma FlatOverwrite(front: seq<u8>, last: seq<u8>, o: nat, piece: seq<u8>)
    requires o + |piece| <= |last|
    ensures var last' := last[..o] + piece + last[o + |piece|..];
      |last'| == |last| && (front + last')[..|front| + o + |piece|] == (front + last)[..|front| + o] + piece
  {
  }

  /** There is room behind the data in the last chunk. */
  ghost predicate HasRoom(chunks: seq<seq<u8>>, base: nat, data: seq<u8>) {
    && FullChunks(chunks) && chunks != [] && base % CHUNK_SIZE == 0 && base <= |data|
    && |data| - base <= |Flat(chunks)| && Flat(chunks)[..|data| - base] == data[base..]
    && (|chunks| - 1) * CHUNK_SIZE <= |data| - base < |chunks| * CHUNK_SIZE
  }

  function Overwritten(chunk: seq<u8>, o: nat, piece: seq<u8>): seq<u8>
    requires o + |piece| <= |chunk|
  {
    chunk[..o] + piece + chunk[o + |piece|..]
  }

  /** A piece that fits into the last chunk is stored by overwriting there. */
  lemma StoresMore(chunks: seq<seq<u8>>, base: nat, data: seq<u8>, piece: seq<u8>)
    requires HasRoom(chunks, base, data) && 0 < |piece| <= CHUNK_SIZE - |data| % CHUNK_SIZE
    ensures var last := chunks[|chunks| - 1];
      Stores(chunks[|chunks| - 1 := Overwritten(last, |data| % CHUNK_SIZE, piece)], base, data + piece)
  {
    var n, o := |chunks| - 1, |data| % CHUNK_SIZE;
    var last := chunks[n];
    var chunks' := chunks[n := Overwritten(last, o, piece)];
    OffsetInLast(|chunks|, base, |data|);
    FullChunksLength(chunks[..n]);
    FullChunksLength(chunks');
    assert chunks'[..n] == chunks[..n];
    FlatOverwrite(Flat(chunks[..n]), last, o, piece);
    assert (data + piece)[base..] == data[base..] + piece;
  }

  lemma StoresHasRoom(chunks: seq<seq<u8>>, base: nat, data: seq<u8>)
    requires Stores(chunks, base, data) && |data| % CHUNK_SIZE != 0
    ensures HasRoom(chunks, base, data)
  {
  }

  lemma StoresNewChunk(chunks: seq<seq<u8>>, base: nat, data: seq<u8>, chunk: seq<u8>)
    requires Stores(chunks, base, data) && |data| % CHUNK_SIZE == 0 && |chunk| == CHUNK_SIZE
    ensures HasRoom(chunks + [chunk], base, data)
  {
    FullChunksLength(chunks);
    FullChunksLength(chunks + [chunk]);
    assert (chunks + [chunk])[..|chunks|] == chunks;
  }

  lemma {:induction false} FlatFirst(chunks: seq<seq<u8>>)
    requires chunks != []
    ensures Flat(chunks) == chunks[0] + Flat(chunks[1..])
  {
    if |chunks| > 1 {
      FlatFirst(chunks[..|chunks| - 1]);
      assert chunks[..|chunks| - 1][1..] == chunks[1..][..|chunks| - 2];
    }
  }

  lemma StoresDropFirst(chunks: seq<seq<u8>>, base: nat, data: seq<u8>)
    requires Stores(chunks, base, data) && |data| - base >= CHUNK_SIZE
    ensures chunks != [] && Stores(chunks[1..], base + CHUNK_SIZE, data)
  {
    FlatFirst(chunks);
    FullChunksLength(chunks[1..]);
    assert data[base + CHUNK_SIZE..] == data[base..][CHUNK_SIZE..];
  }
}

/** DuplexMemoryStream itself. `written` is everything ever written and `consumed` everything taken out again. */
module MemoryStream {
  import opened Optional
  import opened Occurrences
  import opened Bytes
  import opened ChunkStore
  import KnuthMorrisPratt

  class DuplexMemoryStream {
    var chunks: seq<seq<u8>>
    var writeOffset: nat
    var readOffset: nat
    var baseOffset: nat
    var recoverableError: bool
    ghost var written: seq<u8>
    ghost var consumed: seq<u8>

    ghost predicate Valid()
      reads this
    {
      && Stores(chunks, baseOffset, written) && writeOffset == |written|
      && baseOffset <= readOffset <= writeOffset && readOffset - baseOffset < CHUNK_SIZE
      && consumed == written[..readOffset]
    }

    /** The bytes still to be read. */
    ghost function Unread(): seq<u8>
      requires Valid()
      reads this
    {
      written[readOffset..]
    }

    constructor ()
      ensures Valid() && written == [] && consumed == [] && !recoverableError
    {
      chunks, writeOffset, readOffset, baseOffset, recoverableError := [], 0, 0, 0, false;
      written, consumed := [], [];
    }

    /** ByteBuffer::create_uninitialized: a chunk with any contents. */
    method UninitializedChunk() returns (chunk: seq<u8>)
      ensures |chunk| == CHUNK_SIZE
    {
      ghost var zeroes: seq<u8> := seq(CHUNK_SIZE, i => 0);
      assert |zeroes| == CHUNK_SIZE;
      chunk :| |chunk| == CHUNK_SIZE;
    }

    /** One round of the loop in write: `offset` is the end of the data, and the piece fits into one chunk. */
    method WritePiece(offset: nat, piece: seq<u8>)
      requires Stores(chunks, baseOffset, written) && offset == |written|
      requires 0 < |piece| <= CHUNK_SIZE - offset % CHUNK_SIZE
      modifies `chunks, `written
      ensures Stores(chunks, baseOffset, written) && written == old(written) + piece
    {
      if offset % CHUNK_SIZE == 0 {
        var chunk := UninitializedChunk();
        StoresNewChunk(chunks, baseOffset, written, chunk);
        chunks := chunks + [chunk];
      } else {
        StoresHasRoom(chunks, baseOffset, written);
      }
      var last, o := chunks[|chunks| - 1], offset % CHUNK_SIZE;
      StoresMore(chunks, baseOffset, written, piece);
      chunks := chunks[|chunks| - 1 := Overwritten(last, o, piece)];
      written := written + piece;
    }

    method Write(bytes: seq<u8>) returns (count: nat)
      requires Valid()
      modifies this
      ensures Valid() && written == old(written) + bytes && consumed == old(consumed) && count == |bytes|
      ensures Unread() == old(Unread()) + bytes && recoverableError == old(recoverableError)
    {
      count := 0;
      while |bytes| - count > 0
        invariant count <= |bytes|
        invariant Stores(chunks, baseOffset, written) && written == old(written) + bytes[..count]
        invariant writeOffset == old(writeOffset) && readOffset == old(readOffset) && baseOffset == old(baseOffset)
        invariant consumed == old(consumed) && recoverableError == old(recoverableError)
      {
        var n := Min(|bytes| - count, CHUNK_SIZE - (writeOffset + count) % CHUNK_SIZE);
        WritePiece(writeOffset + count, bytes[count..count + n]);
        assert bytes[..count + n] == bytes[..count] + bytes[count..count + n];
        count := count + n;
      }
      assert bytes[..count] == bytes;
      writeOffset := writeOffset + count;
    }

    /** The bytes from the read offset on, at most `size` of them; nothing is taken out. */
    method ReadWithoutConsuming(size: nat) returns (bytes: seq<u8>)
      requires Valid()
      ensures bytes == Unread()[..Min(size, |Unread()|)]
    {
      bytes := [];
      while size - |bytes| > 0 && writeOffset - readOffset - |bytes| > 0
        invariant |bytes| <= size && readOffset + |bytes| <= writeOffset
        invariant bytes == written[readOffset..readOffset + |bytes|]
      {
        var at := readOffset + |bytes|;
        var index := (readOffset - baseOffset + |bytes|) / CHUNK_SIZE;
        var o := at % CHUNK_SIZE;
        var n := Min(Min(CHUNK_SIZE - o, writeOffset - at), size - |bytes|);
        ChunkOffset(baseOffset, at);
        SliceAt(chunks, baseOffset, written, index, o, n);
        assert written[readOffset..at + n] == written[readOffset..at] + written[at..at + n];
        bytes := bytes + chunks[index][o..o + n];
      }
    }

    method TryDiscardChunks()
      requires Stores(chunks, baseOffset, written) && baseOffset <= readOffset <= |written|
      modifies `chunks, `baseOffset
      ensures Stores(chunks, baseOffset, written) && baseOffset <= readOffset && readOffset - baseOffset < CHUNK_SIZE
    {
      while readOffset - baseOffset >= CHUNK_SIZE
        invariant Stores(chunks, baseOffset, written) && baseOffset <= readOffset <= |written|
      {
        StoresDropFirst(chunks, baseOffset, written);
        chunks := chunks[1..];
        baseOffset := baseOffset + CHUNK_SIZE;
      }
    }

    method Read(size: nat) returns (bytes: seq<u8>)
      requires Valid()
      modifies `chunks, `baseOffset, `readOffset, `consumed
      ensures Valid()
      ensures if recoverableError then bytes == [] else bytes == old(Unread())[..Min(size, |old(Unread())|)]
      ensures consumed == old(consumed) + bytes && old(Unread()) == bytes + Unread()
    {
      if recoverableError {
        return [];
      }
      bytes := ReadWithoutConsuming(size);
      readOffset := readOffset + |bytes|;
      consumed := consumed + bytes;
      TryDiscardChunks();
    }

    method ReadOrError(size: nat) returns (ok: bool, bytes: seq<u8>)
      requires Valid()
      modifies `chunks, `baseOffset, `readOffset, `consumed, `recoverableError
      ensures Valid()
      ensures ok == (|old(Unread())| >= size && (!old(recoverableError) || size == 0))
      ensures ok ==> |bytes| == size && recoverableError == old(recoverableError)
      ensures !ok ==> bytes == [] && recoverableError
      ensures consumed == old(consumed) + bytes && old(Unread()) == bytes + Unread()
    {
      if writeOffset - readOffset < size {
        recoverableError := true;
        return false, [];
      }
      bytes := Read(size);
      ok := |bytes| == size;
    }

    method DiscardOrError(count: nat) returns (ok: bool)
      requires Valid()
      modifies `chunks, `baseOffset, `readOffset, `consumed, `recoverableError
      ensures Valid() && ok == (|old(Unread())| >= count)
      ensures ok ==> recoverableError == old(recoverableError) && consumed == old(consumed) + old(Unread())[..count]
      ensures ok ==> Unread() == old(Unread())[count..]
      ensures !ok ==> recoverableError && consumed == old(consumed) && Unread() == old(Unread())
    {
      if writeOffset - readOffset < count {
        recoverableError := true;
        return false;
      }
      readOffset := readOffset + count;
      consumed := written[..readOffset];
      TryDiscardChunks();
      return true;
    }

    /** The unread stretch of each chunk, in order. */
    method UnreadSpans() returns (spans: seq<seq<u8>>)
      requires Valid()
      ensures Flat(spans) == Unread()
    {
      spans := [];
      var index := (readOffset - baseOffset) / CHUNK_SIZE;
      var chunkReadOffset := (readOffset - baseOffset) % CHUNK_SIZE;
      var left := writeOffset - readOffset;
      while left > 0
        invariant 0 <= left <= writeOffset - readOffset
        invariant Flat(spans) == written[readOffset..writeOffset - left]
        invariant 0 <= index && 0 <= chunkReadOffset < CHUNK_SIZE
        invariant left > 0 ==> baseOffset + index * CHUNK_SIZE + chunkReadOffset == writeOffset - left
      {
        ghost var n := Min(CHUNK_SIZE - chunkReadOffset, left);
        SpanStep(chunks, baseOffset, written, readOffset, spans, index, chunkReadOffset, n);
        var span := chunks[index][chunkReadOffset..];
        assert span[..n] == chunks[index][chunkReadOffset..chunkReadOffset + n];
        if left < |span| {
          spans := spans + [span[..left]];
          left := 0;
        } else {
          assert span == span[..n];
          left := left - |span|;
          spans := spans + [span];
          index := index + 1;
        }
        chunkReadOffset := 0;
      }
    }

    /** The first place where a value that is not empty occurs among the unread bytes. */
    method OffsetOf(value: seq<u8>) returns (offset: Option<nat>)
      requires Valid() && |value| > 0
      ensures IsFirst(Unread(), value, offset)
    {
      var spans := UnreadSpans();
      ghost var comparisons;
      offset, comparisons := KnuthMorrisPratt.MemMem(spans, value);
    }
  }
}
