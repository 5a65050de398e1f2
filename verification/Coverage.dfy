/** Which examples a clause covers: the deduplicating hash table over a semi-join,
    the semi-join with the examples, and the rows left uncovered
    (operations/BuildHashTable.cpp, learner/QuickFoil.cpp,
    learner/QuickFoilTestRunner.cpp). */
module Coverage {
  import opened Bits
  import opened RadixPartition
  import opened PartitionAssigner
  import opened HashTable
  import opened BitVectors
  import opened Tallies
  import opened Bindings
  import opened KeyColumns
  import opened MultiColumnJoin
  import opened BindingTables
  import opened SemiJoins

  // ---------------------------------------------------------------------
  // Inserting the matched rows, each key once
  // ---------------------------------------------------------------------

  /** The selected rows below n have been offered to the table. */
  ghost predicate Building(buckets: seq<int>, next: seq<int>, keys: seq<Key>, hash: Key -> nat, slots: seq<int>,
                           selected: seq<bool>, n: nat) {
    && 0 < |buckets| && n <= |keys| == |next| == |slots| == |selected|
    && Linked(buckets, next, slots, n)
    && (forall r | 0 <= r < |keys| ::
          slots[r] == -1 || (r < n && selected[r] && slots[r] == HashBitModulo(hash(keys[r]), |buckets|, 0)))
    && forall r | 0 <= r < n && selected[r] :: Inserted(keys, slots, keys[r])
  }

  lemma StartBuilding(buckets: seq<int>, next: seq<int>, keys: seq<Key>, hash: Key -> nat, selected: seq<bool>)
    requires 0 < |buckets| && |keys| == |next| == |selected| && forall b | 0 <= b < |buckets| :: buckets[b] == 0
    ensures Building(buckets, next, keys, hash, seq(|keys|, _ => -1), selected, 0)
  {
    NothingLinked(buckets, next, seq(|keys|, _ => -1));
  }

  /** Rows that are not selected are passed over. */
  lemma {:induction false} SkipUnselected(buckets: seq<int>, next: seq<int>, keys: seq<Key>, hash: Key -> nat,
                                          slots: seq<int>,
                                          selected: seq<bool>, n: nat, m: nat)
    requires Building(buckets, next, keys, hash, slots, selected, n) && n <= m <= |selected|
    requires forall r | n <= r < m :: !selected[r]
    ensures Building(buckets, next, keys, hash, slots, selected, m)
    decreases m
  {
    if n < m {
      hide Linked, Inserted, HashBitModulo;
      SkipUnselected(buckets, next, keys, hash, slots, selected, n, m - 1);
      SkipRow(buckets, next, slots, m - 1, slots);
    }
  }

  /** A row whose key is in the table already, and a row that is linked. */
  lemma OfferRow(buckets: seq<int>, next: seq<int>, keys: seq<Key>, hash: Key -> nat, slots: seq<int>,
                 selected: seq<bool>, tid: nat, exist: bool)
    requires Building(buckets, next, keys, hash, slots, selected, tid) && tid < |keys| && selected[tid]
    requires exist == Inserted(keys, slots, keys[tid])
    ensures var b := HashBitModulo(hash(keys[tid]), |buckets|, 0);
            if exist then Building(buckets, next, keys, hash, slots, selected, tid + 1)
            else Building(buckets[b := tid + 1], next[tid := buckets[b]], keys, hash, slots[tid := b], selected,
                          tid + 1)
  {
    var b := HashBitModulo(hash(keys[tid]), |buckets|, 0);
    if exist {
      hide Linked, Inserted, HashBitModulo;
      SkipRow(buckets, next, slots, tid, slots);
    } else {
      LinkRow(buckets, next, slots, tid, b, slots[tid := b]);
      hide Linked, HashBitModulo;
      forall r | 0 <= r < tid + 1 && selected[r]
        ensures Inserted(keys, slots[tid := b], keys[r])
      {
        if r == tid {
          assert slots[tid := b][tid] >= 0;
        } else {
          assert Inserted(keys, slots, keys[r]);
          var r' :| 0 <= r' < |keys| && r' < |slots| && slots[r'] >= 0 && keys[r'] == keys[r];
          assert slots[tid := b][r'] >= 0;
        }
      }
    }
  }

  /** Whether the key was inserted can be read off its bucket. */
  lemma ChainTells(buckets: seq<int>, next: seq<int>, keys: seq<Key>, hash: Key -> nat, slots: seq<int>,
                   selected: seq<bool>, n: nat, key: Key)
    requires Building(buckets, next, keys, hash, slots, selected, n)
    ensures var head := buckets[HashBitModulo(hash(key), |buckets|, 0)];
            && 0 <= head <= |keys| && DescendingLinks(next, head)
            && (ChainHas(next, keys, key, head) <==> Inserted(keys, slots, key))
  {
    var b := HashBitModulo(hash(key), |buckets|, 0);
    var head := buckets[b];
    ChainHasMember(next, keys, key, head);
    DescendingIsExact(slots, b, n);
    hide ChainHas, Chain, Descending, DescendingLinks, Linked, HashBitModulo;
    if Inserted(keys, slots, key) {
      var r :| 0 <= r < |keys| && r < |slots| && slots[r] >= 0 && keys[r] == key;
      assert r in Chain(next, head);
    }
    if ChainHas(next, keys, key, head) {
      var r :| r in Chain(next, head) && r < |keys| && keys[r] == key;
      assert slots[r] == b;
    }
  }

  method InsertIfNotPresent(side: JoinSide, hashing: Hashing, tid: nat, buckets: array<int>, next: array<int>,
                            ghost slots: seq<int>, ghost selected: seq<bool>)
    returns (ghost slots': seq<int>)
    requires side.Valid() && tid < Rows(side.columns) && buckets != next
    requires Building(buckets[..], next[..], side.KeyRows(), hashing.OfKey(), slots, selected, tid)
    requires |selected| == Rows(side.columns) && selected[tid]
    modifies buckets, next
    ensures buckets.Length > 0 && tid < next.Length
    ensures FoilHashTable(buckets.Length, 0, buckets[..], next[..])
         == InsertStep(FoilHashTable(buckets.Length, 0, old(buckets[..]), old(next[..])), side.KeyRows(),
                       hashing.OfKey(), tid)
    ensures Building(buckets[..], next[..], side.KeyRows(), hashing.OfKey(), slots', selected, tid + 1)
  {
    ghost var keys, hash := side.KeyRows(), hashing.OfKey();
    BuildingSizes(buckets[..], next[..], keys, hash, slots, selected, tid);
    ChainTells(buckets[..], next[..], keys, hash, slots, selected, tid, keys[tid]);
    var bucketId := BucketOf(side, hashing, tid, buckets.Length);
    var exist := FindInChain(side, tid, next, buckets[bucketId]);
    OfferRow(buckets[..], next[..], keys, hash, slots, selected, tid, exist);
    slots' := slots;
    if !exist {
      ghost var oldBuckets, oldNext := buckets[..], next[..];
      next[tid] := buckets[bucketId];
      buckets[bucketId] := tid + 1;
      assert buckets[..] == oldBuckets[bucketId := tid + 1] && next[..] == oldNext[tid := oldBuckets[bucketId]];
      slots' := slots[tid := bucketId];
    }
  }

  /** What one insertion does to the table, the keys being those of a chunk. */
  ghost function InsertStep(t: FoilHashTable, keys: seq<Key>, hash: Key -> nat, tid: nat): (r: FoilHashTable)
    requires 0 < t.numBuckets == |t.buckets| && tid < |keys| && tid < |t.next|
  {
    var b := t.BucketId(hash(keys[tid]));
    if ChainHas(t.next, keys, keys[tid], t.buckets[b]) then t
    else t.(buckets := t.buckets[b := tid + 1], next := t.next[tid := t.buckets[b]])
  }

  lemma BuildingSizes(buckets: seq<int>, next: seq<int>, keys: seq<Key>, hash: Key -> nat, slots: seq<int>,
                      selected: seq<bool>, n: nat)
    requires Building(buckets, next, keys, hash, slots, selected, n)
    ensures 0 < |buckets| && |keys| == |next| == |slots| == |selected|
  {
    hide Linked;
  }

  method BucketOf(side: JoinSide, hashing: Hashing, tid: nat, numBuckets: nat) returns (bucketId: nat)
    requires side.Valid() && tid < Rows(side.columns) && numBuckets > 0
    ensures bucketId < numBuckets && bucketId == HashBitModulo(hashing.OfKey()(side.KeyRows()[tid]), numBuckets, 0)
  {
    side.KeyOfRow(tid);
    hide JoinSide.KeyRows;
    var hashValue := hashing.HashAt(Dispatched(|side.keys|), side.KeyValues(), tid);
    bucketId := HashBitModulo(hashValue, numBuckets, 0);
  }

  method FindInChain(side: JoinSide, tid: nat, next: array<int>, head: int) returns (exist: bool)
    requires side.Valid() && tid < Rows(side.columns) == next.Length
    requires 0 <= head <= next.Length && DescendingLinks(next[..], head)
    ensures exist <==> ChainHas(next[..], side.KeyRows(), side.KeyRows()[tid], head)
  {
    hide *;
    var position := head - 1;
    while position >= 0
      invariant -1 <= position < next.Length && DescendingLinks(next[..], position + 1)
      invariant ChainHas(next[..], side.KeyRows(), side.KeyRows()[tid], position + 1)
                <==> ChainHas(next[..], side.KeyRows(), side.KeyRows()[tid], head)
    {
      NextLink(next[..], side.KeyRows(), side.KeyRows()[tid], position + 1);
      var equal := RowsEqual(side, side, tid, position);
      if equal {
        return true;
      }
      position := next[position] - 1;
    }
    NextLink(next[..], side.KeyRows(), side.KeyRows()[tid], position + 1);
    exist := false;
  }

  /** Offers the rows of all set bits, in increasing order. */
  method InsertSelected(side: JoinSide, hashing: Hashing, bits: BitVector, numOnes: nat, buckets: array<int>,
                        next: array<int>,
                        ghost slots: seq<int>)
    returns (ghost slots': seq<int>)
    requires side.Valid() && bits.Valid() && bits.size == Rows(side.columns) && numOnes == Ones(bits.View())
             && buckets != next
    requires Building(buckets[..], next[..], side.KeyRows(), hashing.OfKey(), slots, bits.View(), 0)
    modifies buckets, next
    ensures Building(buckets[..], next[..], side.KeyRows(), hashing.OfKey(), slots', bits.View(), bits.size)
  {
    hide *;
    ghost var v := bits.View();
    ViewIsAt(bits);
    slots' := slots;
    assert v[..0] == [];
    if numOnes > 0 {
      SomeOne(v);
      var it := new BitVectorIterator(bits);
      var row := it.GetFirst();
      slots' := InsertNext(side, hashing, bits, 0, row, buckets, next, slots');
      for i := 1 to numOnes
        invariant it.Valid() && it.bits == bits && row == it.Position() && row < |v| && fresh(it)
        invariant Ones(v[..row + 1]) == i
        invariant Building(buckets[..], next[..], side.KeyRows(), hashing.OfKey(), slots', v, row + 1)
      {
        OneLeft(v, row + 1);
        var following := it.FindNext();
        LiesInside(bits, it.Position());
        slots' := InsertNext(side, hashing, bits, row + 1, following, buckets, next, slots');
        row := following;
      }
      NoneSelected(v, row + 1);
      SkipUnselected(buckets[..], next[..], side.KeyRows(), hashing.OfKey(), slots', v, row + 1, |v|);
    } else {
      NoneSelected(v, 0);
      SkipUnselected(buckets[..], next[..], side.KeyRows(), hashing.OfKey(), slots', v, 0, |v|);
    }
  }

  lemma NoneSelected(v: seq<bool>, from: nat)
    requires from <= |v| && Ones(v[..from]) == Ones(v)
    ensures forall r | from <= r < |v| :: !v[r]
  {
    OnesOfPrefix(v, from);
  }

  method InsertNext(side: JoinSide, hashing: Hashing, bits: BitVector, from: nat, row: nat, buckets: array<int>,
                    next: array<int>,
                    ghost slots: seq<int>)
    returns (ghost slots': seq<int>)
    requires side.Valid() && bits.Valid() && bits.size == Rows(side.columns) && buckets != next
    requires from <= row < bits.size && bits.View()[row] && forall k | from <= k < row :: !bits.View()[k]
    requires Building(buckets[..], next[..], side.KeyRows(), hashing.OfKey(), slots, bits.View(), from)
    modifies buckets, next
    ensures Building(buckets[..], next[..], side.KeyRows(), hashing.OfKey(), slots', bits.View(), row + 1)
    ensures Ones(bits.View()[..row + 1]) == Ones(bits.View()[..from]) + 1
  {
    hide *;
    SkipUnselected(buckets[..], next[..], side.KeyRows(), hashing.OfKey(), slots, bits.View(), from, row);
    OnesStep(bits.View(), from, row);
    slots' := InsertIfNotPresent(side, hashing, row, buckets, next, slots, bits.View());
  }

  // ---------------------------------------------------------------------
  // The table after a semi-join
  // ---------------------------------------------------------------------

  function Identity(n: nat): (ids: seq<nat>) {
    seq(n, i => i)
  }

  /** A table compared by its first n columns. */
  function PrefixSide(columns: seq<seq<Value>>, n: nat): (side: JoinSide) {
    JoinSide(columns, Identity(n))
  }

  /** The first n columns of a chunk from row 0 on compare like the table. */
  lemma ChunkKeys(columns: seq<seq<Value>>, chunk: seq<seq<Value>>, n: nat)
    requires Rectangular(columns) && 0 < n <= |columns| && |chunk| == n
    requires forall c | 0 <= c < n :: chunk[c] == From(columns[c], 0)
    ensures PrefixSide(chunk, n).Valid() && PrefixSide(columns, n).Valid()
    ensures Rows(chunk) == Rows(columns)
    ensures PrefixSide(chunk, n).KeyRows() == PrefixSide(columns, n).KeyRows()
  {
    assert forall c | 0 <= c < n :: chunk[c] == columns[c] && columns[c] in columns;
    var a, b := PrefixSide(chunk, n), PrefixSide(columns, n);
    forall tid | 0 <= tid < Rows(columns)
      ensures a.KeyRows()[tid] == b.KeyRows()[tid]
    {
      a.KeyOfRow(tid);
      b.KeyOfRow(tid);
    }
  }

  /** Collects the keys of the rows that survive a semi-join, for a semi-join
      that yields its whole output in one chunk. */
  method BuildHashTableAfterSemiJoin(numBuildTuples: nat, n: nat, join: SemiJoin, hashing: Hashing)
    returns (table: FoilHashTable, ghost slots: seq<int>)
    requires Ready(join) && Delivered(join) == 0 && OneChunk(join)
    requires numBuildTuples == |AllBits(join)| && 0 < numBuildTuples <= Pow2(30) && 0 < n == NumProjected(join)
    modifies Cursor(join)
    ensures PrefixSide(OutputSide(join).columns, NumProjected(join)).Valid()
    ensures Holding(table, PrefixSide(OutputSide(join).columns, NumProjected(join)).KeyRows(), hashing.OfKey(), slots,
                    AllBits(join))
  {
    OutputShape(join);
    PrefixIsValid(OutputSide(join).columns, n);
    hide *;
    var buckets, next := NewHashTable(numBuildTuples);
    CursorIsNoArray(join, buckets);
    CursorIsNoArray(join, next);
    slots := InsertResult(n, join, hashing, buckets, next);
    table := FoilHashTable(buckets.Length, 0, buckets[..], next[..]);
    BuiltHolds(table, PrefixSide(OutputSide(join).columns, n).KeyRows(), hashing, slots, AllBits(join));
  }

  /** Empty buckets, as many as the least power of two that is at least the size. */
  method NewHashTable(size: nat) returns (buckets: array<int>, next: array<int>)
    requires 0 < size <= Pow2(30)
    ensures fresh(buckets) && fresh(next) && buckets != next && next.Length == size
    ensures IsLeastPow2(buckets.Length, size) && buckets.Length > 0 && forall b | 0 <= b < buckets.Length ::
              buckets[b] == 0
  {
    var numBuckets := NextPow2(size);
    BucketsExist(numBuckets, size);
    buckets := new int[numBuckets](_ => 0);
    next := new int[size];
  }

  method InsertResult(n: nat, join: SemiJoin, hashing: Hashing, buckets: array<int>, next: array<int>)
    returns (ghost slots: seq<int>)
    requires Ready(join) && Delivered(join) == 0 && OneChunk(join) && 0 < n == NumProjected(join)
    requires 0 < next.Length == |AllBits(join)| && buckets != next
    requires 0 < buckets.Length && forall b | 0 <= b < buckets.Length :: buckets[b] == 0
    modifies buckets, next, Cursor(join)
    ensures PrefixSide(OutputSide(join).columns, n).Valid()
    ensures Filled(buckets[..], next[..], PrefixSide(OutputSide(join).columns, n).KeyRows(), hashing, slots,
                   AllBits(join), false)
  {
    ghost var columns, all := OutputSide(join).columns, AllBits(join);
    OutputShape(join);
    PrefixIsValid(columns, n);
    ghost var keys := PrefixSide(columns, n).KeyRows();
    hide *;
    slots := Start(buckets, next, keys, hashing, all);
    CursorIsNoArray(join, buckets);
    CursorIsNoArray(join, next);
    var chunk := Next(join);
    FirstChunk(join, chunk, columns, n, all);
    while chunk.Some?
      invariant Ready(join) && OneChunk(join) && CallsLeft(join) == 0
      invariant chunk.Some? ==> WholeChunk(chunk.value, columns, n, all)
      invariant Filled(buckets[..], next[..], keys, hashing, slots, all, chunk.Some?)
      decreases chunk.Some?
    {
      slots := InsertChunk(chunk.value, columns, n, hashing, buckets, next, slots, all);
      chunk := Next(join);
    }
  }

  /** An array is not a semi-join. */
  lemma CursorIsNoArray(join: SemiJoin, a: array<int>)
    ensures Cursor(join) != a
  {
  }

  /** All chunks but a pending one have been inserted. */
  ghost predicate Filled(buckets: seq<int>, next: seq<int>, keys: seq<Key>, hashing: Hashing, slots: seq<int>,
                         all: seq<bool>, pending: bool) {
    Building(buckets, next, keys, hashing.OfKey(), slots, all, if pending then 0 else |all|)
  }

  lemma Start(buckets: array<int>, next: array<int>, keys: seq<Key>, hashing: Hashing, all: seq<bool>)
    returns (slots: seq<int>)
    requires 0 < buckets.Length && |keys| == next.Length == |all| && forall b | 0 <= b < buckets.Length ::
               buckets[b] == 0
    ensures Filled(buckets[..], next[..], keys, hashing, slots, all, true)
  {
    slots := seq(|keys|, _ => -1);
    StartBuilding(buckets[..], next[..], keys, hashing.OfKey(), all);
  }

  /** The only chunk of a one-chunk semi-join. */
  ghost predicate WholeChunk(chunk: SemiJoinChunk, columns: seq<seq<Value>>, n: nat, all: seq<bool>) {
    ChunkOf(chunk, columns, n, all, 0) && chunk.bits.size == |all|
  }

  lemma FirstChunk(join: SemiJoin, chunk: Option<SemiJoinChunk>, columns: seq<seq<Value>>, n: nat, all: seq<bool>)
    requires Ready(join) && all == AllBits(join) && 0 < |all|
    requires chunk.None? ==> Delivered(join) == |all| && Delivered(join) == 0
    requires chunk.Some?
             ==> ChunkOf(chunk.value, columns, n, all, 0) && chunk.value.bits.size == |all| && Delivered(join) == |all|
    ensures chunk.Some? && WholeChunk(chunk.value, columns, n, all) && CallsLeft(join) == 0
  {
    hide ChunkOf, PartnerBits, LeftSemiJoin.Ready, RightSemiJoin.Ready;
    OutputShape(join);
  }

  lemma OutputShape(join: SemiJoin)
    requires Ready(join)
    ensures Rectangular(OutputSide(join).columns) && NumProjected(join) <= |OutputSide(join).columns|
    ensures |AllBits(join)| == Rows(OutputSide(join).columns)
  {
    hide Holding, Indexes, JoinSide.KeyRows;
  }

  lemma PrefixIsValid(columns: seq<seq<Value>>, n: nat)
    requires Rectangular(columns) && 0 < n <= |columns|
    ensures PrefixSide(columns, n).Valid() && PrefixSide(columns, n).columns == columns
    ensures |PrefixSide(columns, n).KeyRows()| == Rows(columns)
  {
  }

  lemma BucketsExist(numBuckets: nat, size: nat)
    requires IsLeastPow2(numBuckets, size) && size > 0
    ensures numBuckets > 0
  {
  }

  method InsertChunk(chunk: SemiJoinChunk, ghost columns: seq<seq<Value>>, n: nat, hashing: Hashing,
                     buckets: array<int>, next: array<int>,
                     ghost slots: seq<int>, ghost all: seq<bool>)
    returns (ghost slots': seq<int>)
    requires Rectangular(columns) && 0 < n <= |columns| && |all| == Rows(columns) && buckets != next
    requires WholeChunk(chunk, columns, n, all)
    requires PrefixSide(columns, n).Valid()
             && Filled(buckets[..], next[..], PrefixSide(columns, n).KeyRows(), hashing, slots, all, true)
    modifies buckets, next
    ensures Filled(buckets[..], next[..], PrefixSide(columns, n).KeyRows(), hashing, slots', all, false)
  {
    ChunkKeys(columns, chunk.outputColumns, n);
    assert chunk.bits.View() == all && chunk.bits.Valid() && chunk.numOnes == Ones(chunk.bits.View());
    hide *;
    var side := PrefixSide(chunk.outputColumns, n);
    slots' := InsertSelected(side, hashing, chunk.bits, chunk.numOnes, buckets, next, slots);
  }

  lemma BuiltHolds(table: FoilHashTable, keys: seq<Key>, hashing: Hashing, slots: seq<int>, present: seq<bool>)
    requires table.numBuckets == |table.buckets| && table.radixBits == 0
    requires |present| == |keys| && Filled(table.buckets, table.next, keys, hashing, slots, present, false)
    ensures Holding(table, keys, hashing.OfKey(), slots, present)
  {
    hide Linked, Inserted;
  }
}
