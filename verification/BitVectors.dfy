/** Block-wise bit vectors: the writers that fill them 64 bits at a time and the
    iterator that visits the set bits (utility/BitVectorBuilder.hpp,
    utility/BitVectorIterator.hpp). */
module BitVectors {

  /** A 64-bit block, least significant bit first. */
  type Word = w: seq<bool> | |w| == 64 witness seq(64, _ => false)

  const ZERO: Word := seq(64, _ => false)

  datatype BitVector = BitVector(blocks: seq<Word>, size: nat) {

    predicate At(i: nat)
      requires i < 64 * |blocks|
    {
      blocks[i / 64][i % 64]
    }

    /** The last block is padded with zeros. */
    ghost predicate Valid() {
      |blocks| == (size + 63) / 64 && forall i | size <= i < 64 * |blocks| :: !At(i)
    }

    function View(): (v: seq<bool>)
      requires Valid()
      ensures |v| == size && forall i | 0 <= i < size :: v[i] == At(i)
    {
      seq(size, i requires 0 <= i < size => At(i))
    }

    /** test_set without its result. */
    function Set(i: nat): (r: BitVector)
      requires Valid() && i < size
      ensures r.Valid() && r.size == size && r.View() == View()[i := true]
    {
      var r := BitVector(blocks[i / 64 := blocks[i / 64][i % 64 := true]], size);
      assert forall j | 0 <= j < 64 * |blocks| :: r.At(j) == (At(j) || j == i);
      r
    }

    function And(other: BitVector): (r: BitVector)
      requires Valid() && other.Valid() && size == other.size
      ensures r.Valid() && r.size == size
      ensures forall i | 0 <= i < size :: r.View()[i] == (View()[i] && other.View()[i])
    {
      var r := BitVector(seq(|blocks|, j requires 0 <= j < |blocks| =>
                           seq(64, k requires 0 <= k < 64 => blocks[j][k] && other.blocks[j][k])), size);
      assert forall i | 0 <= i < 64 * |blocks| :: r.At(i) == (At(i) && other.At(i));
      r
    }

    function Flip(): (r: BitVector)
      requires Valid()
      ensures r.Valid() && r.size == size
      ensures forall i | 0 <= i < size :: r.View()[i] == !View()[i]
    {
      var r := BitVector(seq(|blocks|, j requires 0 <= j < |blocks| =>
                           seq(64, k requires 0 <= k < 64 => !blocks[j][k] && 64 * j + k < size)), size);
      assert forall i | 0 <= i < 64 * |blocks| :: r.At(i) == (!At(i) && i < size);
      r
    }
  }

  /** Number of set bits. */
  function Ones(v: seq<bool>): (n: nat)
    ensures n <= |v|
  {
    if v == [] then 0 else Ones(v[..|v| - 1]) + (if v[|v| - 1] then 1 else 0)
  }

  lemma {:induction false} OnesOfPrefix(v: seq<bool>, i: nat)
    requires i <= |v|
    ensures Ones(v[..i]) <= Ones(v)
    ensures Ones(v[..i]) == Ones(v) <==> forall k | i <= k < |v| :: !v[k]
  {
    if i < |v| {
      assert v[..|v| - 1][..i] == v[..i];
      OnesOfPrefix(v[..|v| - 1], i);
      OnesOfPrefix(v[..|v| - 1], |v| - 1);
    } else {
      assert v[..i] == v;
    }
  }

  // ---------------------------------------------------------------------
  // Writing
  // ---------------------------------------------------------------------

  /** Ors count consecutive bits into a block, from its lowest bit up. */
  method WriteBlock(w: Word, start: nat, count: nat, bit: nat -> bool) returns (r: Word)
    requires w == ZERO && count <= 64
    ensures Written(r, start, count, bit)
  {
    r := w;
    var position := start;
    for b := 0 to count
      invariant position == start + b
      invariant Written(r, start, b, bit)
    {
      r := r[b := r[b] || bit(position)];
      position := position + 1;
    }
  }

  /** The block writer shared by the filters, the label vector and the left
      semi-join: full blocks first, then the bits of the last block. */
  method WriteBits(n: nat, bit: nat -> bool) returns (bv: BitVector)
    ensures bv.Valid() && bv.size == n && forall i | 0 <= i < n :: bv.View()[i] == bit(i)
  {
    var blocks := new Word[(n + 63) / 64](_ => ZERO);
    var numBlocks := if n % 64 == 0 then blocks.Length else blocks.Length - 1;
    for blockId := 0 to numBlocks
      invariant forall j | 0 <= j < blockId :: Written(blocks[j], 64 * j, 64, bit)
      invariant forall j | blockId <= j < blocks.Length :: blocks[j] == ZERO
    {
      var w := WriteBlock(blocks[blockId], 64 * blockId, 64, bit);
      blocks[blockId] := w;
    }
    if n % 64 > 0 {
      var w := WriteBlock(blocks[numBlocks], 64 * numBlocks, n % 64, bit);
      blocks[numBlocks] := w;
    }
    bv := BitVector(blocks[..], n);
    AllWritten(bv, bit);
  }

  lemma AllWritten(bv: BitVector, bit: nat -> bool)
    requires |bv.blocks| == (bv.size + 63) / 64
    requires forall j | 0 <= j < bv.size / 64 :: Written(bv.blocks[j], 64 * j, 64, bit)
    requires bv.size % 64 > 0 ==> Written(bv.blocks[bv.size / 64], bv.size / 64 * 64, bv.size % 64, bit)
    ensures bv.Valid() && forall i | 0 <= i < bv.size :: bv.View()[i] == bit(i)
  {
    forall i | 0 <= i < 64 * |bv.blocks|
      ensures bv.At(i) == (i < bv.size && bit(i))
    {
      WrittenAt(bv, bit, i / 64, i % 64);
    }
  }

  lemma WrittenAt(bv: BitVector, bit: nat -> bool, j: nat, k: nat)
    requires |bv.blocks| == (bv.size + 63) / 64 && j < |bv.blocks| && k < 64
    requires Written(bv.blocks[j], 64 * j, if j < bv.size / 64 then 64 else bv.size % 64, bit)
    ensures bv.At(64 * j + k) == (64 * j + k < bv.size && bit(64 * j + k))
  {
    assert (64 * j + k) / 64 == j && (64 * j + k) % 64 == k;
  }

  /** The first count bits of a block hold bit(start), bit(start + 1), ... and the rest are zero. */
  ghost predicate Written(w: Word, start: nat, count: nat, bit: nat -> bool) {
    forall k | 0 <= k < 64 :: w[k] == (k < count && bit(start + k))
  }

  // ---------------------------------------------------------------------
  // Visiting the set bits
  // ---------------------------------------------------------------------

  function ShiftRight(w: Word, k: nat): (r: Word)
    requires k < 64
  {
    w[k..] + seq(k, _ => false)
  }

  /** boost::lowest_bit of a non-zero block. */
  function LowestBit(w: seq<bool>): (k: nat)
    requires exists i :: 0 <= i < |w| && w[i]
    ensures k < |w| && w[k] && forall i | 0 <= i < k :: !w[i]
  {
    if w[0] then 0 else 1 + LowestBit(w[1..])
  }

  class BitVectorIterator {
    const bits: BitVector
    var blockId: nat
    var bitId: nat
    var blockPrefixBit: nat

    /** Stands on a set bit. */
    ghost predicate Valid()
      reads this
    {
      && bits.Valid()
      && blockId < |bits.blocks| && bitId < 64 && blockPrefixBit == 64 * blockId
      && Position() < bits.size && bits.At(Position())
    }

    ghost function Position(): (p: nat)
      reads this
    {
      blockPrefixBit + bitId
    }

    constructor (bv: BitVector)
      requires bv.Valid() && exists i :: 0 <= i < bv.size && bv.View()[i]
      ensures Valid() && bits == bv
      ensures forall i | 0 <= i < Position() :: !bv.At(i)
    {
      var first := LowestBit(bv.View());
      bits := bv;
      blockId := first / 64;
      bitId := first % 64;
      blockPrefixBit := first / 64 * 64;
      new;
      assert Position() == first;
      forall i | 0 <= i < first
        ensures !bv.At(i)
      {
        assert !bv.View()[i];
      }
    }

    method GetFirst() returns (p: nat)
      requires Valid()
      ensures p == Position()
    {
      p := blockPrefixBit + bitId;
    }

    method FindNext() returns (p: nat)
      requires Valid() && exists i :: Position() < i < bits.size && bits.At(i)
      modifies this
      ensures Valid() && p == Position() > old(Position())
      ensures forall i | old(Position()) < i < Position() :: !bits.At(i)
    {
      if bitId < 63 {
        bitId := bitId + 1;
        var fore := ShiftRight(bits.blocks[blockId], bitId);
        RestOfBlock(bits, blockId, bitId);
        if fore != ZERO {
          NonZero(fore);
          bitId := bitId + LowestBit(fore);
        } else {
          FindNewBlock();
        }
      } else {
        FindNewBlock();
      }
      p := blockPrefixBit + bitId;
    }

    /** Moves to the first set bit of a later block. */
    method FindNewBlock()
      requires bits.Valid() && blockId < |bits.blocks|
      requires exists i :: 64 * (blockId + 1) <= i < bits.size && bits.At(i)
      modifies this
      ensures Valid() && blockId > old(blockId)
      ensures forall i | 64 * (old(blockId) + 1) <= i < Position() :: !bits.At(i)
    {
      var target :| 64 * (blockId + 1) <= target < bits.size && bits.At(target);
      blockId := blockId + 1;
      while bits.blocks[blockId] == ZERO
        invariant old(blockId) < blockId <= target / 64
        invariant forall i | 64 * (old(blockId) + 1) <= i < 64 * blockId :: !bits.At(i)
        decreases target / 64 - blockId
      {
        assert forall k | 0 <= k < 64 :: !bits.blocks[blockId][k];
        blockId := blockId + 1;
      }
      blockPrefixBit := blockId * 64;
      NonZero(bits.blocks[blockId]);
      bitId := LowestBit(bits.blocks[blockId]);
      assert bits.At(Position());
    }
  }

  /** What the shifted block says about the bits from position bitId on. */
  lemma RestOfBlock(bv: BitVector, blockId: nat, bitId: nat)
    requires bv.Valid() && blockId < |bv.blocks| && bitId < 64
    ensures var fore := ShiftRight(bv.blocks[blockId], bitId);
            if fore == ZERO then forall i | 64 * blockId + bitId <= i < 64 * (blockId + 1) :: !bv.At(i)
            else (exists i :: 0 <= i < |fore| && fore[i])
                 && var low := LowestBit(fore);
                 && bitId + low < 64 && 64 * blockId + bitId + low < bv.size && bv.At(64 * blockId + bitId + low)
                 && forall i | 64 * blockId + bitId <= i < 64 * blockId + bitId + low :: !bv.At(i)
  {
    var fore := ShiftRight(bv.blocks[blockId], bitId);
    var first := 64 * blockId + bitId;
    forall i | first <= i < 64 * (blockId + 1)
      ensures bv.At(i) == fore[i - first]
    {
      assert i / 64 == blockId && i % 64 == bitId + (i - first);
    }
    if fore != ZERO {
      NonZero(fore);
      var low := LowestBit(fore);
      assert low < 64 - bitId;
      assert bv.At(first + low);
    }
  }

  lemma NonZero(w: Word)
    requires w != ZERO
    ensures exists i :: 0 <= i < |w| && w[i]
  {
    assert exists i :: 0 <= i < 64 && w[i] != ZERO[i];
  }
}
