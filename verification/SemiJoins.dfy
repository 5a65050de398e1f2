/** Semi-joins: which rows of a table have a partner in another
    (operations/LeftSemiJoin.hpp, operations/RightSemiJoin.hpp,
    operations/SemiJoinFactory.cpp). */
module SemiJoins {
  import opened Bits
  import opened RadixPartition
  import opened PartitionAssigner
  import opened HashTable
  import opened BitVectors
  import opened Bindings
  import opened KeyColumns
  import opened MultiColumnJoin
  import opened BindingTables
  import JoinMeaning

  // ---------------------------------------------------------------------
  // Looking a key up in a table that may leave rows out
  // ---------------------------------------------------------------------

  /** One of the present rows has the key. */
  ghost predicate HasPartner(key: Key, keys: seq<Key>, present: seq<bool>) {
    exists r :: 0 <= r < |keys| && r < |present| && present[r] && keys[r] == key
  }

  /** The table's chains hold one row or more for every key of a present row;
      slot -1 marks rows that were not inserted. */
  ghost predicate Holding(table: FoilHashTable, keys: seq<Key>, hash: Key -> nat, slots: seq<int>, present: seq<bool>) {
    && 0 < table.numBuckets == |table.buckets| && |present| == |keys| == |slots| == |table.next|
    && Linked(table.buckets, table.next, slots, |keys|)
    && (forall r | 0 <= r < |keys| :: slots[r] == -1 || (slots[r] == table.BucketId(hash(keys[r])) && present[r]))
    && forall r | 0 <= r < |keys| && present[r] :: Inserted(keys, slots, keys[r])
  }

  /** A row with this key was inserted. */
  ghost predicate Inserted(keys: seq<Key>, slots: seq<int>, key: Key) {
    exists r :: 0 <= r < |keys| && r < |slots| && slots[r] >= 0 && keys[r] == key
  }

  lemma FullTableHolds(table: FoilHashTable, keys: seq<Key>, hash: Key -> nat)
    requires Indexes(table, keys, hash)
    ensures table.numBuckets > 0
            && Holding(table, keys, hash, Slots(keys, hash, table.numBuckets, table.radixBits), seq(|keys|, _ => true))
  {
    assert |table.next| == |keys|;
    hide Linked;
    var slots := Slots(keys, hash, table.numBuckets, table.radixBits);
    forall r | 0 <= r < |keys|
      ensures Inserted(keys, slots, keys[r]) && slots[r] == table.BucketId(hash(keys[r]))
    {
    }
  }

  ghost predicate ChainHas(next: seq<int>, keys: seq<Key>, key: Key, head: int)
    decreases head
  {
    0 < head <= |next| && head <= |keys| &&
    (keys[head - 1] == key || (next[head - 1] < head && ChainHas(next, keys, key, next[head - 1])))
  }

  lemma {:induction false} ChainHasMember(next: seq<int>, keys: seq<Key>, key: Key, head: int)
    requires head <= |keys| == |next| && DescendingLinks(next, head)
    ensures ChainHas(next, keys, key, head) <==> exists r :: r in Chain(next, head) && r < |keys| && keys[r] == key
    decreases head
  {
    if head > 0 {
      ChainHasMember(next, keys, key, next[head - 1]);
      var rest := Chain(next, next[head - 1]);
      assert Chain(next, head) == [head - 1] + rest;
      if keys[head - 1] != key && exists r :: r in Chain(next, head) && r < |keys| && keys[r] == key {
        var r :| r in Chain(next, head) && r < |keys| && keys[r] == key;
        assert r in rest;
      }
    }
  }

  /** The key's bucket tells whether it has a partner. */
  lemma BucketTells(table: FoilHashTable, keys: seq<Key>, hash: Key -> nat, slots: seq<int>, present: seq<bool>,
                    key: Key)
    requires Holding(table, keys, hash, slots, present)
    ensures |table.buckets| == table.numBuckets > 0 && |table.next| == |keys|
    ensures var head := table.buckets[table.BucketId(hash(key))];
            && 0 <= head <= |keys| && DescendingLinks(table.next, head)
            && (ChainHas(table.next, keys, key, head) <==> HasPartner(key, keys, present))
  {
    var b := table.BucketId(hash(key));
    var head := table.buckets[b];
    ChainHasMember(table.next, keys, key, head);
    DescendingIsExact(slots, b, |keys|);
    hide ChainHas, Chain, Descending, DescendingLinks, Linked, FoilHashTable.BucketId;
    if HasPartner(key, keys, present) {
      var r :| 0 <= r < |keys| && r < |present| && present[r] && keys[r] == key;
      assert Inserted(keys, slots, keys[r]);
      var r' :| 0 <= r' < |keys| && r' < |slots| && slots[r'] >= 0 && keys[r'] == key;
      assert slots[r'] == b;
      assert r' in Chain(table.next, head);
    }
    if ChainHas(table.next, keys, key, head) {
      var r :| r in Chain(table.next, head) && r < |keys| && keys[r] == key;
      assert slots[r] == b;
      assert present[r];
    }
  }

  /** Follows the chain of a probe row's bucket up to the first equal key. */
  method HasMatch(table: FoilHashTable, probe: JoinSide, build: JoinSide, hashing: Hashing, tid: nat,
                  ghost slots: seq<int>, ghost present: seq<bool>)
    returns (hasMatch: bool)
    requires probe.Valid() && build.Valid() && |probe.keys| == |build.keys| && tid < Rows(probe.columns)
    requires Holding(table, build.KeyRows(), hashing.OfKey(), slots, present)
    ensures hasMatch <==> HasPartner(probe.KeyRows()[tid], build.KeyRows(), present)
  {
    hide *;
    BucketTells(table, build.KeyRows(), hashing.OfKey(), slots, present, probe.KeyRows()[tid]);
    var bucketId := BucketOfRow(table, probe, hashing, tid);
    ghost var head := table.buckets[bucketId];
    var position := table.buckets[bucketId] - 1;
    while position >= 0
      invariant -1 <= position < |build.KeyRows()| == |table.next| && DescendingLinks(table.next, position + 1)
      invariant ChainHas(table.next, build.KeyRows(), probe.KeyRows()[tid], position + 1)
                <==> HasPartner(probe.KeyRows()[tid], build.KeyRows(), present)
    {
      NextLink(table.next, build.KeyRows(), probe.KeyRows()[tid], position + 1);
      var equal := RowsEqual(probe, build, tid, position);
      if equal {
        return true;
      }
      position := table.next[position] - 1;
    }
    NextLink(table.next, build.KeyRows(), probe.KeyRows()[tid], position + 1);
    return false;
  }

  lemma NextLink(next: seq<int>, keys: seq<Key>, key: Key, head: int)
    requires 0 <= head <= |keys| == |next| && DescendingLinks(next, head)
    ensures head == 0 ==> !ChainHas(next, keys, key, head)
    ensures head > 0 ==> && 0 <= next[head - 1] < head && DescendingLinks(next, next[head - 1])
                         && (ChainHas(next, keys, key, head)
                             <==> keys[head - 1] == key || ChainHas(next, keys, key, next[head - 1]))
  {
  }

  // ---------------------------------------------------------------------
  // Chunks of a semi-join
  // ---------------------------------------------------------------------

  /** The projected columns from the chunk's first row on, and one bit per row. */
  datatype SemiJoinChunk = SemiJoinChunk(outputColumns: seq<seq<Value>>, bits: BitVector, numOnes: nat)

  /** For every row of the output table, whether a present row of the other
      table has its key. */
  ghost function PartnerBits(output: JoinSide, other: JoinSide, present: seq<bool>): (bits: seq<bool>)
    requires output.Valid() && other.Valid()
    ensures |bits| == Rows(output.columns)
  {
    seq(Rows(output.columns),
        i requires 0 <= i < Rows(output.columns) => HasPartner(output.KeyRows()[i], other.KeyRows(), present))
  }

  /** The chunk speaks about the rows of the table from start on. */
  ghost predicate ChunkOf(chunk: SemiJoinChunk, columns: seq<seq<Value>>, numProjected: nat, all: seq<bool>,
                          start: nat) {
    && chunk.bits.Valid() && start + chunk.bits.size <= |all|
    && chunk.bits.View() == all[start..start + chunk.bits.size]
    && chunk.numOnes == Ones(chunk.bits.View())
    && numProjected <= |columns| && |chunk.outputColumns| == numProjected
    && forall c | 0 <= c < numProjected :: chunk.outputColumns[c] == From(columns[c], start)
  }

  method ProjectFrom(columns: seq<seq<Value>>, numProjected: nat, start: nat) returns (projected: seq<seq<Value>>)
    requires numProjected <= |columns|
    ensures |projected| == numProjected && forall c | 0 <= c < numProjected :: projected[c] == From(columns[c], start)
  {
    projected := seq(numProjected, c requires 0 <= c < numProjected => From(columns[c], start));
  }

  /** Outputs the probe table, a chunk at a time. */
  class LeftSemiJoin {
    const probe: JoinSide
    const build: JoinSide
    const table: FoilHashTable
    const hashing: Hashing
    const numProjected: nat
    const chunkSize: nat
    ghost const slots: seq<int>
    ghost const present: seq<bool>
    var curProbeOffset: nat

    constructor (probe: JoinSide, build: JoinSide, table: FoilHashTable, hashing: Hashing, numProjected: nat,
                 chunkSize: nat,
                 ghost slots: seq<int>, ghost present: seq<bool>)
      requires probe.Valid() && build.Valid() && |probe.keys| == |build.keys| && chunkSize > 0
               && numProjected <= |probe.columns|
      requires Holding(table, build.KeyRows(), hashing.OfKey(), slots, present)
      ensures Ready() && curProbeOffset == 0 && this.probe == probe && this.build == build && this.present == present
      ensures this.numProjected == numProjected && this.chunkSize == chunkSize
    {
      this.probe, this.build, this.table, this.hashing := probe, build, table, hashing;
      this.numProjected, this.chunkSize := numProjected, chunkSize;
      this.slots, this.present := slots, present;
      curProbeOffset := 0;
    }

    ghost predicate Ready() {
      && probe.Valid() && build.Valid() && |probe.keys| == |build.keys| && chunkSize > 0
      && numProjected <= |probe.columns|
      && Holding(table, build.KeyRows(), hashing.OfKey(), slots, present)
    }

    method Next() returns (chunk: Option<SemiJoinChunk>)
      requires Ready()
      modifies this
      ensures old(curProbeOffset) >= Rows(probe.columns) ==> chunk.None? && curProbeOffset == old(curProbeOffset)
      ensures old(curProbeOffset) < Rows(probe.columns) ==>
                && chunk.Some? && curProbeOffset == old(curProbeOffset) + chunkSize
                && ChunkOf(chunk.value, probe.columns, numProjected, PartnerBits(probe, build, present),
                           old(curProbeOffset))
                && chunk.value.bits.size == if curProbeOffset < Rows(probe.columns) then chunkSize
                   else Rows(probe.columns) - old(curProbeOffset)
    {
      hide JoinSide.Valid, Holding, Rows, JoinSide.KeyRows;
      var total := Rows(probe.columns);
      if curProbeOffset >= total {
        return None;
      }
      var numTuples := if chunkSize < total - curProbeOffset then chunkSize else total - curProbeOffset;
      var bits := DoSemiJoin(curProbeOffset, numTuples);
      var resultColumns := ProjectFrom(probe.columns, numProjected, curProbeOffset);
      chunk := Some(SemiJoinChunk(resultColumns, bits, Ones(bits.View())));
      curProbeOffset := curProbeOffset + chunkSize;
    }

    method DoSemiJoin(start: nat, numTuples: nat) returns (bits: BitVector)
      requires Ready() && start + numTuples <= Rows(probe.columns)
      ensures bits.Valid() && bits.size == numTuples
      ensures bits.View() == PartnerBits(probe, build, present)[start..start + numTuples]
    {
      hide JoinSide.Valid, Holding, Rows, JoinSide.KeyRows, HasPartner;
      var matches: seq<bool> := [];
      for probeTid := 0 to numTuples
        invariant |matches| == probeTid
        invariant forall i | 0 <= i < probeTid ::
                    matches[i] == HasPartner(probe.KeyRows()[start + i], build.KeyRows(), present)
      {
        var hasMatch := HasMatch(table, probe, build, hashing, start + probeTid, slots, present);
        matches := matches + [hasMatch];
      }
      bits := WriteBits(numTuples, (i: nat) => i < |matches| && matches[i]);
      assert forall i | 0 <= i < numTuples :: bits.View()[i] == PartnerBits(probe, build, present)[start + i];
    }
  }

  /** Outputs the build table, all at once. */
  class RightSemiJoin {
    const probe: JoinSide
    const build: JoinSide
    const table: FoilHashTable
    const hashing: Hashing
    const numProjected: nat
    var finished: bool

    constructor (probe: JoinSide, build: JoinSide, table: FoilHashTable, hashing: Hashing, numProjected: nat)
      requires probe.Valid() && build.Valid() && |probe.keys| == |build.keys| && numProjected <= |build.columns|
      requires Indexes(table, build.KeyRows(), hashing.OfKey())
      ensures Ready() && !finished && this.probe == probe && this.build == build && this.numProjected == numProjected
    {
      this.probe, this.build, this.table, this.hashing := probe, build, table, hashing;
      this.numProjected := numProjected;
      finished := false;
    }

    ghost predicate Ready() {
      && probe.Valid() && build.Valid() && |probe.keys| == |build.keys| && numProjected <= |build.columns|
      && Indexes(table, build.KeyRows(), hashing.OfKey())
    }

    method Next() returns (chunk: Option<SemiJoinChunk>)
      requires Ready()
      modifies this
      ensures finished
      ensures old(finished) ==> chunk.None?
      ensures !old(finished) ==>
                && chunk.Some? && chunk.value.bits.size == Rows(build.columns)
                && ChunkOf(chunk.value, build.columns, numProjected,
                           PartnerBits(build, probe, seq(Rows(probe.columns), _ => true)), 0)
    {
      hide JoinSide.Valid, Indexes, JoinSide.KeyRows;
      if finished {
        return None;
      }
      finished := true;
      var bits := MarkMatches();
      var outputColumns := ProjectFrom(build.columns, numProjected, 0);
      chunk := Some(SemiJoinChunk(outputColumns, bits, Ones(bits.View())));
      assert bits.View()[0..] == bits.View();
    }

    /** Sets the bit of every build row that some probe row meets. */
    method MarkMatches() returns (bits: BitVector)
      requires Ready()
      ensures bits.Valid() && bits.size == Rows(build.columns)
      ensures bits.View() == PartnerBits(build, probe, seq(Rows(probe.columns), _ => true))
    {
      hide JoinSide.Valid, Indexes, JoinSide.KeyRows, Rows, MatchesOf;
      bits := WriteBits(Rows(build.columns), (_: nat) => false);
      for probeTid := 0 to Rows(probe.columns)
        invariant bits.Valid() && bits.size == Rows(build.columns)
        invariant forall r | 0 <= r < bits.size ::
                    bits.View()[r] <==> MetBefore(probe.KeyRows(), build.KeyRows(), r, probeTid)
      {
        var positions := ProbeKey(table, probe, build, hashing, probeTid);
        MatchesInRange(probe.KeyRows(), build.KeyRows(), probeTid);
        bits := SetAll(bits, positions);
      }
      assert forall r | 0 <= r < bits.size ::
               bits.View()[r] == PartnerBits(build, probe, seq(Rows(probe.columns), _ => true))[r];
    }
  }

  method SetAll(bits: BitVector, positions: seq<nat>) returns (r: BitVector)
    requires bits.Valid() && forall k | 0 <= k < |positions| :: positions[k] < bits.size
    ensures r.Valid() && r.size == bits.size
    ensures forall i | 0 <= i < r.size :: r.View()[i] <==> bits.View()[i] || i in positions
  {
    r := bits;
    for k := 0 to |positions|
      invariant r.Valid() && r.size == bits.size
      invariant forall i | 0 <= i < r.size :: r.View()[i] <==> bits.View()[i] || i in positions[..k]
    {
      r := r.Set(positions[k]);
    }
    assert positions[..|positions|] == positions;
  }

  /** One of the first n probe rows has build row r's key. */
  ghost predicate MetBefore(probeKeys: seq<Key>, buildKeys: seq<Key>, r: nat, n: nat)
    requires r < |buildKeys|
  {
    exists p :: 0 <= p < n && p < |probeKeys| && probeKeys[p] == buildKeys[r]
  }

  lemma MatchesInRange(probeKeys: seq<Key>, buildKeys: seq<Key>, tid: nat)
    requires tid < |probeKeys|
    ensures forall r ::
              r in MatchesOf(probeKeys, buildKeys, tid) <==> 0 <= r < |buildKeys| && buildKeys[r] == probeKeys[tid]
    ensures forall k | 0 <= k < |MatchesOf(probeKeys, buildKeys, tid)| ::
              MatchesOf(probeKeys, buildKeys, tid)[k] < |buildKeys|
    ensures forall r | 0 <= r < |buildKeys| ::
              MetBefore(probeKeys, buildKeys, r, tid + 1)
              <==> MetBefore(probeKeys, buildKeys, r, tid) || r in MatchesOf(probeKeys, buildKeys, tid)
  {
    JoinMeaning.MatchesAreExact(buildKeys, probeKeys[tid], |buildKeys|);
    var m := MatchesOf(probeKeys, buildKeys, tid);
    assert forall k | 0 <= k < |m| :: m[k] in m;
  }

  // ---------------------------------------------------------------------
  // Choosing a strategy
  // ---------------------------------------------------------------------

  datatype SemiJoin = Left(left: LeftSemiJoin) | Right(right: RightSemiJoin)

  ghost function OutputSide(join: SemiJoin): (side: JoinSide) {
    if join.Left? then join.left.probe else join.right.build
  }

  ghost function NumProjected(join: SemiJoin): (n: nat) {
    if join.Left? then join.left.numProjected else join.right.numProjected
  }

  /** One bit per row of the output table. */
  ghost function AllBits(join: SemiJoin): (bits: seq<bool>)
    requires Ready(join)
  {
    if join.Left? then PartnerBits(join.left.probe, join.left.build, join.left.present)
    else PartnerBits(join.right.build, join.right.probe, seq(Rows(join.right.probe.columns), _ => true))
  }

  ghost predicate Ready(join: SemiJoin) {
    if join.Left? then join.left.Ready() else join.right.Ready()
  }

  /** The object whose state Next advances. */
  ghost function Cursor(join: SemiJoin): (o: object) {
    if join.Left? then join.left else join.right
  }

  /** The output rows delivered so far. */
  ghost function Delivered(join: SemiJoin): (n: nat)
    requires Ready(join)
    reads Cursor(join)
  {
    if join.Left?
        then (if join.left.curProbeOffset < Rows(join.left.probe.columns) then join.left.curProbeOffset
              else Rows(join.left.probe.columns))
    else if join.right.finished then Rows(join.right.build.columns) else 0
  }

  /** Calls of Next until it returns None. */
  ghost function CallsLeft(join: SemiJoin): (n: nat)
    requires Ready(join)
    reads Cursor(join)
  {
    if join.Left? then Rows(join.left.probe.columns) - Delivered(join) else if join.right.finished then 0 else 1
  }

  /** The whole output comes in one chunk. */
  ghost predicate OneChunk(join: SemiJoin) {
    join.Right? || Rows(join.left.probe.columns) <= join.left.chunkSize
  }

  /** The next chunk continues where the last one ended. */
  method Next(join: SemiJoin) returns (chunk: Option<SemiJoinChunk>)
    requires Ready(join)
    modifies Cursor(join)
    ensures chunk.None? ==> old(CallsLeft(join)) == 0 && Delivered(join) == |AllBits(join)|
    ensures chunk.None? ==> Delivered(join) == old(Delivered(join)) && CallsLeft(join) == 0
    ensures chunk.Some? ==>
              && CallsLeft(join) < old(CallsLeft(join))
              && ChunkOf(chunk.value, OutputSide(join).columns, NumProjected(join), AllBits(join), old(Delivered(join)))
              && Delivered(join) == old(Delivered(join)) + chunk.value.bits.size
              && (OneChunk(join) && old(Delivered(join)) == 0 ==> chunk.value.bits.size == |AllBits(join)|)
  {
    hide Holding, Indexes, JoinSide.Valid, ChunkOf, PartnerBits, Rows;
    match join
    case Left(left) => chunk := left.Next();
    case Right(right) => chunk := right.Next();
  }

  /** The smaller table gets the hash table, unless it has one already. */
  method SelectAndCreateSemiJoin(output: JoinSide, other: JoinSide, outputTable: Option<FoilHashTable>,
                                 otherTable: Option<FoilHashTable>,
                                 hashing: Hashing, numProjected: nat, chunkSize: nat)
    returns (join: SemiJoin, outputTable': Option<FoilHashTable>, otherTable': Option<FoilHashTable>)
    requires output.Valid() && other.Valid() && |output.keys| == |other.keys| && chunkSize > 0
             && numProjected <= |output.columns|
    requires outputTable.Some? ==> Indexes(outputTable.value, output.KeyRows(), hashing.OfKey())
    requires otherTable.Some? ==> Indexes(otherTable.value, other.KeyRows(), hashing.OfKey())
    requires if Rows(output.columns) < Rows(other.columns) then 0 < Rows(output.columns) <= Pow2(30)
             else 0 < Rows(other.columns) <= Pow2(30)
    ensures Ready(join) && OutputSide(join) == output && NumProjected(join) == numProjected && Delivered(join) == 0
    ensures if join.Left? then fresh(join.left) else fresh(join.right)
    ensures AllBits(join) == PartnerBits(output, other, seq(Rows(other.columns), _ => true))
    ensures OneChunk(join) <==> Rows(output.columns) < Rows(other.columns) || Rows(output.columns) <= chunkSize
    ensures outputTable'.Some? ==> Indexes(outputTable'.value, output.KeyRows(), hashing.OfKey())
    ensures otherTable'.Some? ==> Indexes(otherTable'.value, other.KeyRows(), hashing.OfKey())
  {
    hide JoinSide.Valid, Indexes, JoinSide.KeyRows, Holding, PartnerBits, Pow2;
    outputTable', otherTable' := outputTable, otherTable;
    if Rows(output.columns) < Rows(other.columns) {
      if outputTable'.None? {
        var table := BuildOn(output, hashing);
        outputTable' := Some(table);
      }
      var right := new RightSemiJoin(other, output, outputTable'.value, hashing, numProjected);
      join := SemiJoin.Right(right);
      return;
    }
    if otherTable'.None? {
      var table := BuildOn(other, hashing);
      otherTable' := Some(table);
    }
    FullTableHolds(otherTable'.value, other.KeyRows(), hashing.OfKey());
    ghost var slots := Slots(other.KeyRows(), hashing.OfKey(), otherTable'.value.numBuckets,
                             otherTable'.value.radixBits);
    var left := new LeftSemiJoin(output, other, otherTable'.value, hashing, numProjected, chunkSize,
                                 slots, seq(Rows(other.columns), _ => true));
    join := SemiJoin.Left(left);
  }
}
