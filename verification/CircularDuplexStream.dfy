/** The ring buffer and the stream over it that can look back (base/CircularQueue.h, base/CircularDuplexStream.h). */
module CircularStreams {
  import opened Arithmetic
  import opened Bytes

  lemma NextSlot(x: nat, c: nat)
    requires c > 0
    ensures (x + 1) % c == if x % c + 1 == c then 0 else x % c + 1
  {
    DivMod(x, c);
    if x % c + 1 == c {
      Distribute(x / c, 1, c);
      DivModUnique(x + 1, c, x / c + 1, 0);
    } else {
      DivModUnique(x + 1, c, x / c, x % c + 1);
    }
  }

  /** Two numbers in the same slot stay in the same slot. */
  lemma SameSlot(x: nat, y: nat, c: nat)
    requires c > 0 && x % c == y % c
    ensures (x + 1) % c == (y + 1) % c
  {
    NextSlot(x, c);
    NextSlot(y, c);
  }

  /** Moving both ends of a stretch keeps its length. */
  lemma {:induction false} SlotsApart(x: nat, y: nat, d: nat, c: nat)
    requires c > 0 && x % c == y % c
    ensures (x + d) % c == (y + d) % c
  {
    if d > 0 {
      SlotsApart(x, y, d - 1, c);
      SameSlot(x + d - 1, y + d - 1, c);
    }
  }

  /** Numbers less than a round apart have different slots. */
  lemma OtherSlot(x: nat, y: nat, c: nat)
    requires c > 0 && x < y < x + c
    ensures x % c != y % c
  {
    DivMod(x, c);
    DivMod(y, c);
    Distribute(y / c, -(x / c), c);
    if x % c == y % c { SmallMultiple(y / c - x / c, c); }
  }

  /** The storage still holds the last `c` bytes of the history, each in its slot. */
  ghost predicate Recorded(storage: seq<u8>, history: seq<u8>) {
    |storage| > 0 && forall k {:trigger history[k]} ::
      0 <= k < |history| && |history| - |storage| <= k ==> storage[k % |storage|] == history[k]
  }

  lemma RecordOne(storage: seq<u8>, history: seq<u8>, v: u8)
    requires Recorded(storage, history)
    ensures Recorded(storage[|history| % |storage| := v], history + [v])
  {
    var c, n := |storage|, |history|;
    var s', h' := storage[n % c := v], history + [v];
    forall k | 0 <= k < |h'| && |h'| - c <= k ensures s'[k % c] == h'[k] {
      if k < n {
        OtherSlot(k, n, c);
        assert history[k] == h'[k];
      }
    }
  }

  function SlotOf(n: nat, c: nat): nat
    requires c > 0
  {
    n % c
  }

  /** A sum of at most a round, without division. */
  lemma Wrapped(x: nat, c: nat)
    requires x < 2 * c
    ensures x % c == if x < c then x else x - c
  {
    if x < c { DivModUnique(x, c, 0, x); } else { DivModUnique(x, c, 1, x - c); }
  }

  /** So many bytes from a slot on, round the end of the storage. */
  ghost function Ring(storage: seq<u8>, head: nat, size: nat): seq<u8>
    requires head < |storage| && size <= |storage|
  {
    (storage[head..] + storage[..head])[..size]
  }

  lemma RingGrows(storage: seq<u8>, head: nat, size: nat, at: nat, v: u8)
    requires head < |storage| && size < |storage|
    requires at == if head + size < |storage| then head + size else head + size - |storage|
    ensures Ring(storage[at := v], head, size + 1) == Ring(storage, head, size) + [v]
  {
  }

  lemma RingMoves(storage: seq<u8>, head: nat, size: nat, next: nat)
    requires head < |storage| && 0 < size <= |storage| && next == if head + 1 < |storage| then head + 1 else 0
    ensures Ring(storage, head, size) == [storage[head]] + Ring(storage, next, size - 1)
  {
  }

  /** In a full ring the slot behind the last byte is that of the first. */
  lemma RingTurns(storage: seq<u8>, head: nat, next: nat, v: u8)
    requires head < |storage| && next == if head + 1 < |storage| then head + 1 else 0
    ensures Ring(storage[head := v], next, |storage|) == Ring(storage, head, |storage|)[1..] + [v]
  {
    RingMoves(storage, head, |storage|, next);
    RingGrows(storage, next, |storage| - 1, head, v);
  }

  /** CircularQueue of bytes. */
  class CircularQueue {
    const storage: array<u8>
    var head: nat
    var size: nat

    ghost predicate Valid()
      reads this
    {
      storage.Length > 0 && head < storage.Length && size <= storage.Length
    }

    constructor (capacity: nat)
      requires capacity > 0
      ensures Valid() && storage.Length == capacity && head == 0 && size == 0 && fresh(storage)
    {
      storage := new u8[capacity];
      head := 0;
      size := 0;
    }

    /** The bytes in the queue, oldest first. */
    ghost function Contents(): seq<u8>
      requires Valid()
      reads this, storage
    {
      Ring(storage[..], head, size)
    }

    /** When the queue is full the oldest byte gives way. */
    method Enqueue(v: u8)
      requires Valid()
      modifies this, storage
      ensures Valid() && size == Min(old(size) + 1, storage.Length)
      ensures Contents() == (if old(size) == storage.Length then old(Contents())[1..] else old(Contents())) + [v]
      ensures storage[..] == old(storage[..])[(old(head) + old(size)) % storage.Length := v]
      ensures old(size) < storage.Length ==> head == old(head)
    {
      EnqueueRing(v);
      storage[(head + size) % storage.Length] := v;
      if size == storage.Length {
        head := (head + 1) % storage.Length;
      } else {
        size := size + 1;
      }
    }

    lemma EnqueueRing(v: u8)
      requires Valid()
      ensures var c, s := storage.Length, storage[..];
        if size == c then Ring(s[(head + size) % c := v], (head + 1) % c, c) == Contents()[1..] + [v]
        else Ring(s[(head + size) % c := v], head, size + 1) == Contents() + [v]
    {
      var c := storage.Length;
      Wrapped(head + size, c);
      if size == c {
        if c > 1 { Wrapped(head + 1, c); }
        RingTurns(storage[..], head, (head + 1) % c, v);
      } else {
        RingGrows(storage[..], head, size, (head + size) % c, v);
      }
    }

    method Dequeue() returns (v: u8)
      requires Valid() && size > 0
      modifies this
      ensures Valid() && old(Contents()) == [v] + Contents() && size == old(size) - 1
      ensures v == storage[old(head)] && head == (old(head) + 1) % storage.Length
    {
      if storage.Length > 1 { Wrapped(head + 1, storage.Length); }
      RingMoves(storage[..], head, size, (head + 1) % storage.Length);
      v := storage[head];
      head := (head + 1) % storage.Length;
      size := size - 1;
    }
  }

  /** `history` is everything ever written; the queue holds the end of it that is unread. */
  class CircularDuplexStream {
    const queue: CircularQueue
    var totalWritten: nat
    var recoverableError: bool
    ghost var history: seq<u8>

    /** Head and total agree: the head is the slot of the oldest unread byte of the history. */
    ghost predicate Valid()
      reads this, queue, queue.storage
    {
      && queue.Valid()
      && totalWritten == |history| && queue.size <= totalWritten
      && queue.head == SlotOf(totalWritten - queue.size, queue.storage.Length)
      && Recorded(queue.storage[..], history)
    }

    ghost function Unread(): seq<u8>
      requires queue.size <= |history|
      reads this, queue
    {
      history[|history| - queue.size..]
    }

    constructor (capacity: nat)
      requires capacity > 0
      ensures Valid() && history == [] && queue.storage.Length == capacity && !recoverableError
      ensures fresh(queue) && fresh(queue.storage)
    {
      queue := new CircularQueue(capacity);
      totalWritten := 0;
      recoverableError := false;
      history := [];
    }

    method WriteByte(v: u8)
      requires Valid() && queue.size < queue.storage.Length
      modifies this`totalWritten, this`history, queue, queue.storage
      ensures Valid() && history == old(history) + [v] && Unread() == old(Unread()) + [v]
        && queue.size == old(queue.size) + 1
    {
      HeadAndTotal();
      RecordOne(queue.storage[..], history, v);
      queue.Enqueue(v);
      history := history + [v];
      totalWritten := totalWritten + 1;
    }

    /** write: as many bytes as there is room for. */
    method Write(bytes: seq<u8>) returns (n: nat)
      requires Valid()
      modifies this`totalWritten, this`history, queue, queue.storage
      ensures Valid() && n == Min(|bytes|, queue.storage.Length - old(queue.size))
      ensures history == old(history) + bytes[..n] && Unread() == old(Unread()) + bytes[..n]
    {
      n := Min(|bytes|, queue.storage.Length - queue.size);
      for i := 0 to n
        invariant Valid() && queue.size == old(queue.size) + i
        invariant history == old(history) + bytes[..i] && Unread() == old(Unread()) + bytes[..i]
      {
        WriteByte(bytes[i]);
      }
    }

    method ReadByte() returns (v: u8)
      requires Valid() && queue.size > 0
      modifies queue
      ensures Valid() && old(Unread()) == [v] + Unread() && queue.size == old(queue.size) - 1
    {
      ghost var at, c := totalWritten - queue.size, queue.storage.Length;
      EndSlot(at, 1, c);
      assert history[at] == queue.storage[..][at % c];
      assert Unread() == [history[at]] + history[at + 1..];
      v := queue.Dequeue();
    }

    /** read: the oldest unread bytes. */
    method Read(count: nat) returns (bytes: seq<u8>)
      requires Valid()
      modifies queue
      ensures Valid() && bytes == (if recoverableError then [] else old(Unread())[..Min(count, |old(Unread())|)])
      ensures Unread() == old(Unread())[|bytes|..]
    {
      bytes := [];
      if recoverableError {
        return;
      }
      var n := Min(count, queue.size);
      for i := 0 to n
        invariant Valid() && queue.size == old(queue.size) - i && |bytes| == i && old(Unread()) == bytes + Unread()
      {
        var v := ReadByte();
        assert bytes + ([v] + Unread()) == bytes + [v] + Unread();
        bytes := bytes + [v];
      }
    }

    /** discard_or_error */
    method DiscardOrError(count: nat) returns (ok: bool)
      requires Valid()
      modifies this`recoverableError, queue
      ensures Valid() && ok == (count <= |old(Unread())|)
      ensures if ok then Unread() == old(Unread())[count..] && recoverableError == old(recoverableError)
        else Unread() == old(Unread()) && recoverableError
    {
      if queue.size < count {
        recoverableError := true;
        return false;
      }
      for i := 0 to count
        invariant Valid() && queue.size == old(queue.size) - i && Unread() == old(Unread())[i..]
          && recoverableError == old(recoverableError)
      {
        var v := ReadByte();
      }
      ok := true;
    }

    /** read with seekback: from that many bytes before the end of everything written, read or not. */
    method ReadBack(count: nat, seekback: nat) returns (bytes: seq<u8>)
      requires Valid()
      modifies this`recoverableError
      ensures Valid()
      ensures if seekback > queue.storage.Length || seekback > totalWritten then bytes == [] && recoverableError
        else
          && bytes == history[totalWritten - seekback..][..Min(count, seekback)]
          && recoverableError == old(recoverableError)
    {
      bytes := [];
      if seekback > queue.storage.Length || seekback > totalWritten {
        recoverableError := true;
        return;
      }
      var n := Min(count, seekback);
      for i := 0 to n
        invariant |bytes| == i && bytes == history[totalWritten - seekback..][..i] && Valid()
      {
        var at := totalWritten - seekback + i;
        assert queue.storage[..][at % queue.storage.Length] == history[at];
        bytes := bytes + [queue.storage[at % queue.storage.Length]];
      }
    }

    /** The next slot to write is the one of the total written. */
    lemma HeadAndTotal()
      requires Valid()
      ensures (queue.head + queue.size) % queue.storage.Length == totalWritten % queue.storage.Length
    {
      EndSlot(totalWritten - queue.size, queue.size, queue.storage.Length);
    }

    function RemainingContiguousSpace(): (n: nat)
      requires queue.Valid()
      reads this, queue
    {
      Min(queue.storage.Length - queue.size, queue.storage.Length - (queue.head + queue.size) % queue.storage.Length)
    }

    /** reserve_contigous_space, and what the caller then puts there: one stretch, no unread byte lost. */
    method FillReserved(data: seq<u8>)
      requires Valid() && |data| <= RemainingContiguousSpace()
      modifies this`totalWritten, this`history, queue, queue.storage
      ensures Valid() && history == old(history) + data && Unread() == old(Unread()) + data
    {
      var c := queue.storage.Length;
      var start := (queue.head + queue.size) % c;
      HeadAndTotal();
      for i := 0 to |data|
        invariant Recorded(queue.storage[..], history + data[..i]) && start + |data| <= c && start == |history| % c
        invariant queue.head == old(queue.head) && queue.size == old(queue.size) && history == old(history)
          && totalWritten == old(totalWritten)
      {
        ContiguousSlot(|history|, i, c);
        RecordOne(queue.storage[..], history + data[..i], data[i]);
        assert history + data[..i + 1] == history + data[..i] + [data[i]];
        queue.storage[start + i] := data[i];
      }
      assert data[..|data|] == data;
      queue.size := queue.size + |data|;
      history := history + data;
      totalWritten := totalWritten + |data|;
    }
  }

  lemma ContiguousSlot(n: nat, i: nat, c: nat)
    requires c > 0 && n % c + i < c
    ensures (n + i) % c == n % c + i
  {
    DivMod(n, c);
    DivModUnique(n + i, c, n / c, n % c + i);
  }

  /** The slot behind the last of `size` elements. */
  lemma EndSlot(first: nat, size: nat, c: nat)
    requires c > 0
    ensures (first % c + size) % c == (first + size) % c
  {
    DivMod(first, c);
    DivModUnique(first % c, c, 0, first % c);
    SlotsApart(first % c, first, size, c);
  }
}
