/** Bit streams over byte streams (base/BitStream.h). Bytes and words are their bits, lowest first. */
module BitStreams {
  import opened Optional
  import opened Occurrences
  import opened Arithmetic

  type Byte = b: seq<bool> | |b| == 8 witness seq(8, _ => false)
  type Word32 = w: seq<bool> | |w| == 32 witness seq(32, _ => false)

  const ZERO: Byte := seq(8, _ => false)

  lemma {:induction false} FlatCons(first: seq<bool>, rest: seq<seq<bool>>)
    ensures Flat([first] + rest) == first + Flat(rest)
  {
    if rest == [] {
      assert [first] + rest == [first];
      assert [first][..0] == [];
      assert Flat([first]) == Flat([first][..0]) + first;
    } else {
      var last := rest[|rest| - 1];
      assert ([first] + rest)[..|rest|] == [first] + rest[..|rest| - 1];
      FlatCons(first, rest[..|rest| - 1]);
    }
  }

  class OutputBitStream {
    var sink: seq<Byte>
    var nextByte: Option<Byte>
    var bitOffset: nat

    constructor ()
      ensures Valid() && Bits() == [] && sink == []
    {
      sink := [];
      nextByte := None;
      bitOffset := 0;
    }

    /** The bits of the byte in progress that are not written yet are zero. */
    ghost predicate Filling()
      reads this
    {
      nextByte.Some? ==> bitOffset < 8 && forall i :: bitOffset <= i < 8 ==> !nextByte.value[i]
    }

    /** Between calls a byte in progress has been begun. */
    ghost predicate Valid()
      reads this
    {
      Filling() && (nextByte.Some? ==> bitOffset > 0)
    }

    /** Everything written so far, bit by bit. */
    ghost function Bits(): seq<bool>
      requires Filling()
      reads this
    {
      Flat(sink) + if nextByte.Some? then nextByte.value[..bitOffset] else []
    }

    method Emit(b: Byte)
      modifies `sink
      ensures sink == old(sink) + [b] && Flat(sink) == Flat(old(sink)) + b
    {
      FlatAppend(sink, b);
      sink := sink + [b];
    }

    /** One bit into the byte in progress. */
    method PutBit(bit: bool)
      requires Filling() && nextByte.Some?
      modifies this
      ensures Valid() && Bits() == old(Bits()) + [bit]
    {
      var b: Byte := nextByte.value[bitOffset := nextByte.value[bitOffset] || bit];
      assert b[..bitOffset + 1] == nextByte.value[..bitOffset] + [bit];
      nextByte := Some(b);
      bitOffset := bitOffset + 1;
      if bitOffset == 8 {
        assert b[..8] == b;
        Emit(b);
        nextByte := None;
      }
    }

    /** An aligned stretch of whole bytes. */
    method PutBytes(bits: seq<bool>)
      requires Valid() && nextByte.None? && |bits| % 8 == 0
      modifies `sink
      ensures Bits() == old(Bits()) + bits
    {
      var put := 0;
      while put < |bits|
        invariant 0 <= put <= |bits| && put % 8 == 0 && Flat(sink) == Flat(old(sink)) + bits[..put]
      {
        Emit(bits[put..put + 8]);
        assert bits[..put + 8] == bits[..put] + bits[put..put + 8];
        put := put + 8;
      }
    }

    /** write_bits: aligned stretches of 32, 16 and 8 bits go out at once. */
    method WriteBits(bits: Word32, count: nat)
      requires Valid() && count <= 32
      modifies this
      ensures Valid() && Bits() == old(Bits()) + bits[..count]
    {
      if count == 32 && nextByte.None? {
        PutBytes(bits);
        assert bits[..32] == bits;
        return;
      }
      var written := 0;
      while written < count
        invariant 0 <= written <= count && Filling() && Bits() == old(Bits()) + bits[..written]
        invariant written == count ==> Valid()
        decreases count - written, if nextByte.None? then 1 else 0
      {
        if nextByte.Some? {
          PutBit(bits[written]);
          assert bits[..written + 1] == bits[..written] + [bits[written]];
          written := written + 1;
        } else if count - written >= 16 {
          PutBytes(bits[written..written + 16]);
          assert bits[..written + 16] == bits[..written] + bits[written..written + 16];
          written := written + 16;
        } else if count - written >= 8 {
          PutBytes(bits[written..written + 8]);
          assert bits[..written + 8] == bits[..written] + bits[written..written + 8];
          written := written + 8;
        } else {
          bitOffset := 0;
          nextByte := Some(ZERO);
          assert ZERO[..0] == [];
        }
      }
    }

    /** Fills the byte in progress with zeros. */
    method AlignToByteBoundary() returns (ghost padding: seq<bool>)
      requires Valid()
      modifies this
      ensures Valid() && nextByte.None? && Bits() == Flat(sink) && Bits() == old(Bits()) + padding
      ensures |padding| < 8 && forall i :: 0 <= i < |padding| ==> !padding[i]
    {
      padding := [];
      if nextByte.Some? {
        ghost var done, b := Flat(sink), nextByte.value;
        padding := b[bitOffset..];
        Split(done, b, bitOffset);
        Emit(nextByte.value);
        nextByte := None;
      }
    }
  }

  lemma Split(done: seq<bool>, b: seq<bool>, n: nat)
    requires n <= |b|
    ensures done + b == done + b[..n] + b[n..]
  {
  }

  /** The bits of a byte, highest first. */
  function HighFirst(b: Byte): (r: Byte)
    ensures forall i :: 0 <= i < 8 ==> r[i] == b[7 - i]
  {
    seq(8, i requires 0 <= i < 8 => b[7 - i])
  }

  ghost function AllHighFirst(bytes: seq<Byte>): (r: seq<Byte>)
    ensures |r| == |bytes|
  {
    seq(|bytes|, i requires 0 <= i < |bytes| => HighFirst(bytes[i]))
  }

  class InputBitStream {
    var source: seq<Byte>
    var nextByte: Option<Byte>
    var bitOffset: nat
    var streamError: bool
    var fatalError: bool

    constructor (bytes: seq<Byte>)
      ensures source == bytes && nextByte.None? && !streamError && !fatalError && Valid()
    {
      source := bytes;
      nextByte := None;
      bitOffset := 0;
      streamError := false;
      fatalError := false;
    }

    ghost predicate Valid()
      reads this
    {
      nextByte.Some? ==> bitOffset < 8
    }

    /** The bits still to be read, lowest bit of each byte first. */
    ghost function Rest(): seq<bool>
      requires Valid()
      reads this
    {
      (if nextByte.Some? then nextByte.value[bitOffset..] else []) + Flat(source)
    }

    /** The same, highest bit of each byte first. */
    ghost function HighRest(): seq<bool>
      requires Valid()
      reads this
    {
      (if nextByte.Some? then HighFirst(nextByte.value)[bitOffset..] else []) + Flat(AllHighFirst(source))
    }

    method NextByte()
      requires Valid() && nextByte.None? && !streamError
      modifies this
      ensures Valid() && fatalError == old(fatalError) && Rest() == old(Rest()) && HighRest() == old(HighRest())
      ensures if streamError then Rest() == [] && HighRest() == [] && nextByte.None? else nextByte.Some?
    {
      bitOffset := 0;
      if source == [] {
        streamError := true;
      } else {
        FlatCons(source[0], source[1..]);
        assert source == [source[0]] + source[1..];
        FlatCons(HighFirst(source[0]), AllHighFirst(source[1..]));
        assert AllHighFirst(source) == [HighFirst(source[0])] + AllHighFirst(source[1..]);
        nextByte := Some(source[0]);
        source := source[1..];
      }
    }

    method TakeBit() returns (bit: bool, high: bool)
      requires Valid() && nextByte.Some? && !streamError
      modifies `nextByte, `bitOffset
      ensures Valid() && old(Rest()) == [bit] + Rest() && old(HighRest()) == [high] + HighRest()
    {
      bit := nextByte.value[bitOffset];
      high := nextByte.value[7 - bitOffset];
      assert HighFirst(nextByte.value)[bitOffset] == high;
      bitOffset := bitOffset + 1;
      if bitOffset == 8 {
        nextByte := None;
      }
    }

    /** A whole byte at once. */
    method TakeByte() returns (b: Byte)
      requires Valid() && nextByte.Some? && bitOffset == 0
      modifies `nextByte
      ensures Valid() && nextByte.None? && old(HighRest()) == HighFirst(b) + HighRest()
    {
      b := nextByte.value;
      assert HighFirst(b)[0..] == HighFirst(b);
      nextByte := None;
    }

    /** What one round of read_bits adds to the result: a bit, or nothing when it has to fetch a byte. */
    method Round() returns (piece: seq<bool>)
      requires Valid() && !streamError
      modifies this
      ensures Valid() && fatalError == old(fatalError) && old(Rest()) == piece + Rest() && |piece| <= 1
      ensures piece == [] ==> old(nextByte).None? && (nextByte.Some? || streamError)
      ensures streamError ==> piece == [] && Rest() == []
    {
      if nextByte.Some? {
        var bit, high := TakeBit();
        piece := [bit];
      } else {
        NextByte();
        piece := [];
      }
    }

    /** The same for read_bits_big_endian, which takes a whole byte when it can. */
    method HighRound(left: nat) returns (piece: seq<bool>)
      requires Valid() && !streamError && left > 0
      modifies this
      ensures Valid() && fatalError == old(fatalError) && old(HighRest()) == piece + HighRest() && |piece| <= left
      ensures piece == [] ==> old(nextByte).None? && (nextByte.Some? || streamError)
      ensures streamError ==> piece == [] && HighRest() == []
    {
      if nextByte.Some? {
        if left >= 8 && bitOffset == 0 {
          var b := TakeByte();
          piece := HighFirst(b);
        } else {
          var bit, high := TakeBit();
          piece := [high];
        }
      } else {
        NextByte();
        piece := [];
      }
    }

    /** read_bits: the value's low `count` bits, lowest first. */
    method ReadBits(count: nat) returns (result: seq<bool>)
      requires Valid() && count <= 31 && !streamError && !fatalError
      modifies this
      ensures Valid()
      ensures if count <= |old(Rest())|
        then result == old(Rest())[..count] && Rest() == old(Rest())[count..] && !streamError && !fatalError
        else fatalError && result == []
    {
      result := [];
      ghost var whole := Rest();
      while |result| < count
        invariant Valid() && |result| <= count && !fatalError && whole == result + Rest()
        invariant streamError ==> Rest() == [] && |result| < count
        decreases count - |result|, if nextByte.None? then 1 else 0, if streamError then 0 else 1
      {
        if streamError {
          fatalError := true;
          return [];
        }
        var piece := Round();
        Regroup(result, piece, Rest());
        result := result + piece;
      }
    }

    /** read_bits_big_endian: the value's `count` bits, highest first. */
    method ReadBitsBigEndian(count: nat) returns (result: seq<bool>)
      requires Valid() && count <= 64 && !streamError && !fatalError
      modifies this
      ensures Valid()
      ensures if count <= |old(HighRest())|
        then result == old(HighRest())[..count] && HighRest() == old(HighRest())[count..] && !streamError && !fatalError
        else fatalError && result == []
    {
      result := [];
      ghost var whole := HighRest();
      while |result| < count
        invariant Valid() && |result| <= count && !fatalError && whole == result + HighRest()
        invariant streamError ==> HighRest() == [] && |result| < count
        decreases count - |result|, if nextByte.None? then 1 else 0, if streamError then 0 else 1
      {
        if streamError {
          fatalError := true;
          return [];
        }
        var piece := HighRound(count - |result|);
        Regroup(result, piece, HighRest());
        result := result + piece;
      }
    }
  }

  lemma Regroup(a: seq<bool>, b: seq<bool>, c: seq<bool>)
    ensures a + (b + c) == a + b + c
  {
  }

  /** Everything of a list of values that is written, in order. */
  ghost function Written(values: seq<(Word32, nat)>): seq<bool>
    requires forall i :: 0 <= i < |values| ==> values[i].1 <= 31
  {
    if values == [] then [] else values[0].0[..values[0].1] + Written(values[1..])
  }

  lemma {:induction false} WrittenSnoc(values: seq<(Word32, nat)>, n: nat)
    requires n < |values| && forall i :: 0 <= i < |values| ==> values[i].1 <= 31
    ensures Written(values[..n + 1]) == Written(values[..n]) + values[n].0[..values[n].1]
  {
    if n == 0 {
      assert values[..1] == [values[0]] && values[..1][1..] == [] && values[..0] == [];
    } else {
      WrittenSnoc(values[1..], n - 1);
      assert values[..n + 1][1..] == values[1..][..n] && values[..n][1..] == values[1..][..n - 1];
    }
  }

  method WriteAll(values: seq<(Word32, nat)>) returns (bytes: seq<Byte>)
    requires forall i :: 0 <= i < |values| ==> values[i].1 <= 31
    ensures Written(values) <= Flat(bytes)
  {
    var output := new OutputBitStream();
    for i := 0 to |values|
      invariant output.Valid() && output.Bits() == Written(values[..i])
    {
      WrittenSnoc(values, i);
      output.WriteBits(values[i].0, values[i].1);
    }
    assert values[..|values|] == values;
    ghost var padding := output.AlignToByteBoundary();
    bytes := output.sink;
  }

  method ReadAll(bytes: seq<Byte>, values: seq<(Word32, nat)>) returns (back: seq<seq<bool>>)
    requires forall i :: 0 <= i < |values| ==> values[i].1 <= 31
    requires Written(values) <= Flat(bytes)
    ensures |back| == |values|
    ensures forall i :: 0 <= i < |values| ==> back[i] == values[i].0[..values[i].1]
  {
    var input := new InputBitStream(bytes);
    back := [];
    for i := 0 to |values|
      invariant input.Valid() && !input.streamError && !input.fatalError
      invariant |back| == i && forall j :: 0 <= j < i ==> back[j] == values[j].0[..values[j].1]
      invariant Written(values[i..]) <= input.Rest()
    {
      assert values[i..][1..] == values[i + 1..];
      var value := input.ReadBits(values[i].1);
      back := back + [value];
    }
  }

  /** Writing a list of values, aligning and reading the same counts gives the low bits of each value back. */
  method WriteThenRead(values: seq<(Word32, nat)>) returns (back: seq<seq<bool>>)
    requires forall i :: 0 <= i < |values| ==> values[i].1 <= 31
    ensures |back| == |values|
    ensures forall i :: 0 <= i < |values| ==> back[i] == values[i].0[..values[i].1]
  {
    var bytes := WriteAll(values);
    back := ReadAll(bytes, values);
  }

  /** The number a row of bits stands for, lowest first. */
  function NumberOf(bits: seq<bool>): nat {
    if bits == [] then 0 else (if bits[0] then 1 else 0) + 2 * NumberOf(bits[1..])
  }

  /** The low bits of a number are the number modulo a power of two. */
  lemma {:induction false} LowBitsAreMod(bits: seq<bool>, count: nat)
    requires count <= |bits|
    ensures NumberOf(bits[..count]) == NumberOf(bits) % Pow2(count)
  {
    if count == 0 {
      assert Pow2(0) == 1;
    } else {
      LowBitsAreMod(bits[1..], count - 1);
      assert bits[..count][1..] == bits[1..][..count - 1];
      BitInFront(if bits[0] then 1 else 0, NumberOf(bits[1..]), Pow2(count - 1));
    }
  }

  lemma BitInFront(bit: nat, more: nat, p: nat)
    requires p > 0 && bit <= 1
    ensures (bit + 2 * more) % (2 * p) == bit + 2 * (more % p)
  {
    DivMod(more, p);
    DoubledQuotient(more, more / p, more % p, p);
    DivModUnique(bit + 2 * more, 2 * p, more / p, bit + 2 * (more % p));
  }

  lemma DoubledQuotient(x: int, q: int, r: int, p: int)
    requires x == q * p + r
    ensures 2 * x == q * (2 * p) + 2 * r
  {
    MulAssoc(q, 2, p);
    MulAssoc(2, q, p);
    MulCommutes(2, q);
  }
}
