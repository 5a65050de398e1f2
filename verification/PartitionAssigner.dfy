/** The partition-major iterator over all tables and join groups
    (operations/PartitionAssigner.hpp). */
module PartitionAssigner {
  import opened RadixPartition

  datatype Option<T> = None | Some(value: T)

  /** The columns of a table and the radix partitions made of some of them. */
  datatype TableView = TableView(columns: seq<seq<Value>>, partitions: map<nat, seq<seq<PartitionTuple>>>) {
    function PartitionsAt(column: nat): (p: seq<seq<PartitionTuple>>) {
      if column in partitions then partitions[column] else []
    }
  }

  datatype PartitionChunk = PartitionChunk(tableId: nat, joinGroupId: nat, partitionId: nat,
                                           tuples: seq<PartitionTuple>)

  /** The tables, the partitioned column of every join group, and the chunk size. */
  datatype Work = Work(tables: seq<TableView>, columnIds: seq<seq<nat>>, numPartitions: nat, chunkSize: nat) {

    ghost predicate Valid() {
      && 0 < |tables| == |columnIds| && 0 < chunkSize && 0 < numPartitions
      && (forall t | 0 <= t < |tables| :: 0 < |columnIds[t]|)
      && forall t, g | 0 <= t < |tables| && 0 <= g < |columnIds[t]| ::
           |tables[t].PartitionsAt(columnIds[t][g])| == numPartitions
    }

    function Part(p: nat, t: nat, g: nat): (tuples: seq<PartitionTuple>)
      requires Valid() && p < numPartitions && t < |tables| && g < |columnIds[t]|
    {
      tables[t].PartitionsAt(columnIds[t][g])[p]
    }

    // What has to be emitted, as nested loops: partitions, tables, groups, chunks.

    ghost function ChunksFrom(p: nat, t: nat, g: nat, offset: nat): (cs: seq<PartitionChunk>)
      requires Valid() && p < numPartitions && t < |tables| && g < |columnIds[t]|
      requires offset <= |Part(p, t, g)|
      decreases |Part(p, t, g)| - offset
    {
      var part := Part(p, t, g);
      if offset == |part| then []
      else
        var n := if chunkSize <= |part| - offset then chunkSize else |part| - offset;
        [PartitionChunk(t, g, p, part[offset..offset + n])] + ChunksFrom(p, t, g, offset + n)
    }

    ghost function GroupsFrom(p: nat, t: nat, g: nat): (cs: seq<PartitionChunk>)
      requires Valid() && p < numPartitions && t < |tables| && g <= |columnIds[t]|
      decreases |columnIds[t]| - g
    {
      if g == |columnIds[t]| then [] else ChunksFrom(p, t, g, 0) + GroupsFrom(p, t, g + 1)
    }

    ghost function TablesFrom(p: nat, t: nat): (cs: seq<PartitionChunk>)
      requires Valid() && p < numPartitions && t <= |tables|
      decreases |tables| - t
    {
      if t == |tables| then [] else GroupsFrom(p, t, 0) + TablesFrom(p, t + 1)
    }

    ghost function PartitionsFrom(p: nat): (cs: seq<PartitionChunk>)
      requires Valid() && p <= numPartitions
      decreases numPartitions - p
    {
      if p == numPartitions then [] else TablesFrom(p, 0) + PartitionsFrom(p + 1)
    }

    /** Everything still to be emitted from a cursor position. */
    ghost function Rest(p: nat, t: nat, g: nat, offset: nat): (cs: seq<PartitionChunk>)
      requires Valid() && p < numPartitions && t < |tables| && g < |columnIds[t]|
      requires offset <= |Part(p, t, g)|
    {
      ChunksFrom(p, t, g, offset) + GroupsFrom(p, t, g + 1) + TablesFrom(p, t + 1) + PartitionsFrom(p + 1)
    }

    /** A chunk is a non-empty run of tuples of its own partition, table and group. */
    ghost predicate Slice(c: PartitionChunk)
      requires Valid()
    {
      && c.partitionId < numPartitions && c.tableId < |tables| && c.joinGroupId < |columnIds[c.tableId]|
      && c.tuples != [] && forall x | x in c.tuples :: x in Part(c.partitionId, c.tableId, c.joinGroupId)
    }

    /** The k-th piece of the partition: of chunk size, or what is left at the end. */
    ghost predicate CutAt(c: PartitionChunk, k: nat)
      requires Valid() && c.partitionId < numPartitions && c.tableId < |tables|
               && c.joinGroupId < |columnIds[c.tableId]|
    {
      var part, start := Part(c.partitionId, c.tableId, c.joinGroupId), k * chunkSize;
      && start + |c.tuples| <= |part| && c.tuples == part[start..start + |c.tuples|]
      && (|c.tuples| == chunkSize || (0 < |c.tuples| < chunkSize && start + |c.tuples| == |part|))
    }

    lemma {:induction false} ChunksAreCut(c: PartitionChunk, p: nat, t: nat, g: nat, from: nat, i: nat) returns (k: nat)
      requires Valid() && p < numPartitions && t < |tables| && g < |columnIds[t]| && from <= |Part(p, t, g)|
      requires c in ChunksFrom(p, t, g, from) && (from == i * chunkSize || from == |Part(p, t, g)|)
      ensures c.partitionId == p && c.tableId == t && c.joinGroupId == g && CutAt(c, k)
      decreases |Part(p, t, g)| - from
    {
      var part := Part(p, t, g);
      var n := if chunkSize <= |part| - from then chunkSize else |part| - from;
      if c == PartitionChunk(t, g, p, part[from..from + n]) {
        k := i;
      } else {
        assert (i + 1) * chunkSize == i * chunkSize + chunkSize;
        k := ChunksAreCut(c, p, t, g, from + n, i + 1);
      }
    }

    /** Every chunk of the whole stream is such a piece. */
    lemma EmittedAreCut(c: PartitionChunk) returns (k: nat)
      requires Valid() && c in PartitionsFrom(0)
      ensures Slice(c) && CutAt(c, k)
    {
      EmittedAreSlices(c, 0);
      var p, t, g := c.partitionId, c.tableId, c.joinGroupId;
      InPartition(c, 0);
      InTable(c, p, 0);
      InGroup(c, p, t, 0);
      k := ChunksAreCut(c, p, t, g, 0, 0);
    }

    lemma {:induction false} InPartition(c: PartitionChunk, p: nat)
      requires Valid() && p <= numPartitions && c in PartitionsFrom(p)
      ensures p <= c.partitionId < numPartitions && c in TablesFrom(c.partitionId, 0)
      decreases numPartitions - p
    {
      if c in TablesFrom(p, 0) {
        TablesAreSlices(c, p, 0);
      } else {
        InPartition(c, p + 1);
      }
    }

    lemma {:induction false} InTable(c: PartitionChunk, p: nat, t: nat)
      requires Valid() && p < numPartitions && t <= |tables| && c in TablesFrom(p, t)
      ensures t <= c.tableId < |tables| && c in GroupsFrom(p, c.tableId, 0)
      decreases |tables| - t
    {
      if c in GroupsFrom(p, t, 0) {
        GroupsAreSlices(c, p, t, 0);
      } else {
        InTable(c, p, t + 1);
      }
    }

    lemma {:induction false} InGroup(c: PartitionChunk, p: nat, t: nat, g: nat)
      requires Valid() && p < numPartitions && t < |tables| && g <= |columnIds[t]| && c in GroupsFrom(p, t, g)
      ensures g <= c.joinGroupId < |columnIds[t]| && c in ChunksFrom(p, t, c.joinGroupId, 0)
      decreases |columnIds[t]| - g
    {
      if c in ChunksFrom(p, t, g, 0) {
        ChunksAreSlices(c, p, t, g, 0);
      } else {
        InGroup(c, p, t, g + 1);
      }
    }

    lemma {:induction false} ChunksAreSlices(c: PartitionChunk, p: nat, t: nat, g: nat, offset: nat)
      requires Valid() && p < numPartitions && t < |tables| && g < |columnIds[t]| && offset <= |Part(p, t, g)|
      requires c in ChunksFrom(p, t, g, offset)
      ensures Slice(c) && c.partitionId == p && c.tableId == t && c.joinGroupId == g
      decreases |Part(p, t, g)| - offset
    {
      var part := Part(p, t, g);
      var n := if chunkSize <= |part| - offset then chunkSize else |part| - offset;
      if c != PartitionChunk(t, g, p, part[offset..offset + n]) {
        ChunksAreSlices(c, p, t, g, offset + n);
      }
    }

    lemma {:induction false} GroupsAreSlices(c: PartitionChunk, p: nat, t: nat, g: nat)
      requires Valid() && p < numPartitions && t < |tables| && g <= |columnIds[t]| && c in GroupsFrom(p, t, g)
      ensures Slice(c) && c.partitionId == p && c.tableId == t && c.joinGroupId >= g
      decreases |columnIds[t]| - g
    {
      if c in ChunksFrom(p, t, g, 0) {
        ChunksAreSlices(c, p, t, g, 0);
      } else {
        GroupsAreSlices(c, p, t, g + 1);
      }
    }

    lemma {:induction false} TablesAreSlices(c: PartitionChunk, p: nat, t: nat)
      requires Valid() && p < numPartitions && t <= |tables| && c in TablesFrom(p, t)
      ensures Slice(c) && c.partitionId == p && c.tableId >= t
      decreases |tables| - t
    {
      if c in GroupsFrom(p, t, 0) {
        GroupsAreSlices(c, p, t, 0);
      } else {
        TablesAreSlices(c, p, t + 1);
      }
    }

    lemma {:induction false} EmittedAreSlices(c: PartitionChunk, p: nat)
      requires Valid() && p <= numPartitions && c in PartitionsFrom(p)
      ensures Slice(c) && c.partitionId >= p
      decreases numPartitions - p
    {
      if c in TablesFrom(p, 0) {
        TablesAreSlices(c, p, 0);
      } else {
        EmittedAreSlices(c, p + 1);
      }
    }

    lemma RestHead(p: nat, t: nat, g: nat, offset: nat, n: nat)
      requires Valid() && p < numPartitions && t < |tables| && g < |columnIds[t]|
      requires offset < |Part(p, t, g)|
      requires n == if chunkSize <= |Part(p, t, g)| - offset then chunkSize else |Part(p, t, g)| - offset
      ensures Rest(p, t, g, offset)
           == [PartitionChunk(t, g, p, Part(p, t, g)[offset..offset + n])] + Rest(p, t, g, offset + n)
    {
      ChunksHead(p, t, g, offset, n);
      hide Work.ChunksFrom, Work.GroupsFrom, Work.TablesFrom, Work.PartitionsFrom;
      HeadInFront(PartitionChunk(t, g, p, Part(p, t, g)[offset..offset + n]), ChunksFrom(p, t, g, offset + n),
                  GroupsFrom(p, t, g + 1), TablesFrom(p, t + 1), PartitionsFrom(p + 1));
    }

    lemma HeadInFront(head: PartitionChunk, a: seq<PartitionChunk>, b: seq<PartitionChunk>, c: seq<PartitionChunk>,
                      d: seq<PartitionChunk>)
      ensures [head] + a + b + c + d == [head] + (a + b + c + d)
    {
    }

    lemma ChunksHead(p: nat, t: nat, g: nat, offset: nat, n: nat)
      requires Valid() && p < numPartitions && t < |tables| && g < |columnIds[t]|
      requires offset < |Part(p, t, g)|
      requires n == if chunkSize <= |Part(p, t, g)| - offset then chunkSize else |Part(p, t, g)| - offset
      ensures ChunksFrom(p, t, g, offset)
           == [PartitionChunk(t, g, p, Part(p, t, g)[offset..offset + n])] + ChunksFrom(p, t, g, offset + n)
    {
    }

    lemma RestFromStart()
      requires Valid()
      ensures Rest(0, 0, 0, 0) == PartitionsFrom(0)
    {
    }
  }

  class PartitionAssigner {
    const work: Work
    var curTableId: nat
    var curJoinGroupId: nat
    var curPartitionId: nat
    var curPartitionOffset: nat
    var curPartitions: seq<seq<PartitionTuple>>

    ghost predicate AtGroup()
      reads this
    {
      && work.Valid()
      && curPartitionId < work.numPartitions && curTableId < |work.tables|
      && curJoinGroupId < |work.columnIds[curTableId]|
      && curPartitions == work.tables[curTableId].PartitionsAt(work.columnIds[curTableId][curJoinGroupId])
      && curPartitionOffset <= |curPartitions[curPartitionId]|
    }

    ghost predicate Finished()
      reads this
    {
      curPartitionId == work.numPartitions
    }

    ghost predicate Valid()
      reads this
    {
      work.Valid() && (Finished() || AtGroup())
    }

    ghost function Remaining(): (cs: seq<PartitionChunk>)
      requires Valid()
      reads this
    {
      if Finished() then [] else work.Rest(curPartitionId, curTableId, curJoinGroupId, curPartitionOffset)
    }

    constructor (w: Work)
      requires w.Valid()
      ensures work == w && AtGroup() && !Finished() && Remaining() == w.PartitionsFrom(0)
    {
      work := w;
      curTableId, curJoinGroupId, curPartitionId, curPartitionOffset := 0, 0, 0, 0;
      curPartitions := w.tables[0].PartitionsAt(w.columnIds[0][0]);
      new;
      work.RestFromStart();
    }

    /** The next chunk, or None when all partitions are exhausted; not to be
        called again after that. */
    method Next() returns (chunk: Option<PartitionChunk>)
      requires Valid() && !Finished()
      modifies this
      ensures Valid()
      ensures chunk.None? ==> old(Remaining()) == [] && Finished()
      ensures chunk.Some? ==> !Finished() && old(Remaining()) == [chunk.value] + Remaining()
    {
      hide Work.ChunksFrom, Work.GroupsFrom, Work.TablesFrom, Work.PartitionsFrom;
      while curPartitionOffset == |curPartitions[curPartitionId]|
        invariant AtGroup() && Remaining() == old(Remaining())
        decreases work.numPartitions - curPartitionId, |work.tables| - curTableId,
                  |work.columnIds[curTableId]| - curJoinGroupId
      {
        var done := MoveToNextJoinGroup();
        if done {
          return None;
        }
      }
      var part := curPartitions[curPartitionId];
      var n := if work.chunkSize <= |part| - curPartitionOffset then work.chunkSize else |part| - curPartitionOffset;
      work.RestHead(curPartitionId, curTableId, curJoinGroupId, curPartitionOffset, n);
      chunk := Some(PartitionChunk(curTableId, curJoinGroupId, curPartitionId,
                                   part[curPartitionOffset..curPartitionOffset + n]));
      curPartitionOffset := curPartitionOffset + n;
    }

    method MoveToNextJoinGroup() returns (done: bool)
      requires AtGroup() && curPartitionOffset == |curPartitions[curPartitionId]|
      modifies this
      ensures Valid() && done == Finished() && Remaining() == old(Remaining())
      ensures !done ==>
                || curPartitionId > old(curPartitionId)
                || (curPartitionId == old(curPartitionId) && curTableId > old(curTableId))
                || (curPartitionId == old(curPartitionId) && curTableId == old(curTableId)
                    && curJoinGroupId > old(curJoinGroupId))
    {
      curJoinGroupId := curJoinGroupId + 1;
      if curJoinGroupId == |work.columnIds[curTableId]| {
        var last := MoveToNextJoinTable();
        if last {
          return true;
        }
      }
      curPartitions := work.tables[curTableId].PartitionsAt(work.columnIds[curTableId][curJoinGroupId]);
      curPartitionOffset := 0;
      done := false;
    }

    method MoveToNextJoinTable() returns (done: bool)
      modifies this`curPartitionId, this`curTableId, this`curJoinGroupId
      ensures curJoinGroupId == 0
      ensures if old(curTableId) + 1 == |work.tables| then curTableId == 0 && curPartitionId == old(curPartitionId) + 1
              else curTableId == old(curTableId) + 1 && curPartitionId == old(curPartitionId)
      ensures done <==> old(curTableId) + 1 == |work.tables| && curPartitionId == work.numPartitions
    {
      curTableId := curTableId + 1;
      curJoinGroupId := 0;
      done := false;
      if curTableId == |work.tables| {
        done := MoveToNextPartition();
      }
    }

    method MoveToNextPartition() returns (done: bool)
      modifies this`curPartitionId, this`curTableId, this`curJoinGroupId
      ensures curPartitionId == old(curPartitionId) + 1 && curTableId == curJoinGroupId == 0
      ensures done <==> curPartitionId == work.numPartitions
    {
      curPartitionId := curPartitionId + 1;
      curTableId := 0;
      curJoinGroupId := 0;
      done := curPartitionId == work.numPartitions;
    }
  }
}
