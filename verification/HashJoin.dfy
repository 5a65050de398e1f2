/** The partitioned hash join (operations/HashJoin.cpp). */
module HashJoin {
  import opened RadixPartition
  import opened PartitionAssigner
  import opened HashTable
  import opened Tallies
  import opened Bits

  datatype HashJoinChunk = HashJoinChunk(tableId: nat, joinGroupId: nat, partitionId: nat, bindingPartitionSize: nat,
                                         probeTids: seq<nat>, buildTids: seq<nat>, buildRelativeTids: seq<nat>)

  function Values(part: seq<PartitionTuple>): (vs: seq<Value>)
    ensures |vs| == |part|
  {
    seq(|part|, i requires 0 <= i < |part| => part[i].value)
  }

  function Ids(part: seq<PartitionTuple>): (ids: seq<nat>)
    ensures |ids| == |part|
  {
    seq(|part|, i requires 0 <= i < |part| => part[i].tupleId)
  }

  // ---------------------------------------------------------------------
  // What a chunk joins to
  // ---------------------------------------------------------------------

  /** The pairs of one fact tuple with the matching rows of a build partition. */
  ghost function PairsOf(part: seq<PartitionTuple>, t: PartitionTuple): (ps: seq<Pair>) {
    var m := Matches(Values(part), t.value, |part|);
    seq(|m|, k requires 0 <= k < |m| => Pair(t.tupleId, part[m[k]].tupleId))
  }

  ghost function Joined(part: seq<PartitionTuple>, tuples: seq<PartitionTuple>): (ps: seq<Pair>) {
    if tuples == [] then []
    else Joined(part, tuples[..|tuples| - 1]) + PairsOf(part, tuples[|tuples| - 1])
  }

  ghost predicate Zips(probeTids: seq<nat>, buildTids: seq<nat>, pairs: seq<Pair>) {
    && |probeTids| == |buildTids| == |pairs|
    && forall k | 0 <= k < |pairs| :: pairs[k] == Pair(probeTids[k], buildTids[k])
  }

  /** The chunk carries exactly these pairs, all from one build partition. */
  ghost predicate Carries(c: HashJoinChunk, pairs: seq<Pair>, part: seq<PartitionTuple>) {
    && Zips(c.probeTids, c.buildTids, pairs)
    && Aligned(c.buildRelativeTids, pairs, Ids(part))
    && c.bindingPartitionSize == |part|
  }

  lemma {:induction false} NothingToJoin(tuples: seq<PartitionTuple>)
    ensures Joined([], tuples) == []
  {
    if tuples != [] {
      NothingToJoin(tuples[..|tuples| - 1]);
    }
  }

  class HashJoin {
    const assigner: PartitionAssigner
    /** The key column of the binding table, its partitions and their hash tables. */
    const build: Job
    const buildPartitions: seq<seq<PartitionTuple>>
    const buildHashTables: seq<Option<FoilHashTable>>
    /** Every partition chunk fetched so far. */
    ghost var consumed: seq<PartitionChunk>

    ghost predicate Built() {
      && |buildPartitions| == |buildHashTables| == build.Count()
      && forall p | 0 <= p < build.Count() ::
           && buildPartitions[p] == build.Bucket(p, |build.column|)
           && (buildPartitions[p] != [] ==>
                 buildHashTables[p].Some? && Indexes(buildHashTables[p].value, Values(buildPartitions[p]), build.hash))
    }

    ghost predicate Valid()
      reads this, assigner
    {
      && Built()
      && assigner.Valid() && assigner.work.numPartitions == build.Count()
      && consumed + assigner.Remaining() == assigner.work.PartitionsFrom(0)
    }

    constructor (a: PartitionAssigner, column: seq<Value>, hash: Hash, numRadixBits: nat,
                 partitions: seq<seq<PartitionTuple>>, tables: seq<Option<FoilHashTable>>)
      requires a.Valid() && a.Remaining() == a.work.PartitionsFrom(0)
      requires var job := Job(column, hash, numRadixBits);
               && a.work.numPartitions == |partitions| == |tables| == job.Count()
               && forall p | 0 <= p < job.Count() ::
                    && partitions[p] == job.Bucket(p, |column|)
                    && (partitions[p] != []
                        ==> tables[p].Some? && Indexes(tables[p].value, Values(partitions[p]), hash))
      ensures Valid() && consumed == [] && assigner == a && build == Job(column, hash, numRadixBits)
    {
      assigner := a;
      build := Job(column, hash, numRadixBits);
      buildPartitions := partitions;
      buildHashTables := tables;
      consumed := [];
    }

    /** The non-empty join of a partition chunk. */
    ghost predicate Yields(source: PartitionChunk, chunk: HashJoinChunk)
      requires Built()
    {
      && source.partitionId < build.Count()
      && chunk.tableId == source.tableId && chunk.joinGroupId == source.joinGroupId
      && chunk.partitionId == source.partitionId
      && Joined(buildPartitions[source.partitionId], source.tuples) != []
      && Carries(chunk, Joined(buildPartitions[source.partitionId], source.tuples), buildPartitions[source.partitionId])
    }

    ghost predicate YieldsNothing(source: PartitionChunk)
      requires Built()
    {
      source.partitionId < build.Count() && Joined(buildPartitions[source.partitionId], source.tuples) == []
    }

    /** The next chunk with at least one joined pair. Chunks passed over join to
        nothing. */
    method Next()
      returns (chunk: Option<HashJoinChunk>, ghost skipped: seq<PartitionChunk>, ghost source: PartitionChunk)
      requires Valid() && !assigner.Finished()
      modifies this, assigner
      ensures Valid()
      ensures forall c | c in skipped :: YieldsNothing(c)
      ensures chunk.None? ==> assigner.Finished() && consumed == old(consumed) + skipped
      ensures chunk.Some? ==>
                && !assigner.Finished() && consumed == old(consumed) + skipped + [source]
                && Yields(source, chunk.value)
    {
      hide Joined, Aligned, Indexes, Job.Bucket, Values, Work.PartitionsFrom, Work.Rest;
      skipped := [];
      source := PartitionChunk(0, 0, 0, []);
      while true
        invariant Valid() && !assigner.Finished()
        invariant consumed == old(consumed) + skipped
        invariant forall c | c in skipped :: YieldsNothing(c)
        decreases |assigner.Remaining()|
      {
        ghost var remaining := assigner.Remaining();
        var partitionChunk := assigner.Next();
        if partitionChunk.None? {
          assert remaining == [];
          return None, skipped, source;
        }
        var current := partitionChunk.value;
        source := current;
        assert consumed + remaining == (consumed + [current]) + assigner.Remaining();
        consumed := consumed + [current];
        assigner.work.EmittedAreSlices(current, 0);
        var part := buildPartitions[current.partitionId];
        if part != [] {
          var probeTids, buildTids, relativeTids :=
            JoinPart(part, buildHashTables[current.partitionId].value, build.hash, current.tuples);
          if buildTids != [] {
            chunk := Some(HashJoinChunk(current.tableId, current.joinGroupId, current.partitionId, |part|,
                                        probeTids, buildTids, relativeTids));
            return;
          }
        } else {
          NothingToJoin(current.tuples);
        }
        skipped := skipped + [current];
      }
    }
  }

  /** Probes the partition's table with every tuple of the chunk. */
  method JoinPart(part: seq<PartitionTuple>, table: FoilHashTable, hash: Hash, tuples: seq<PartitionTuple>)
    returns (probeTids: seq<nat>, buildTids: seq<nat>, relativeTids: seq<nat>)
    requires Indexes(table, Values(part), hash)
    ensures Zips(probeTids, buildTids, Joined(part, tuples))
    ensures Aligned(relativeTids, Joined(part, tuples), Ids(part))
  {
    hide Zips, Aligned, Matches, Indexes, Joined, PairsOf;
    probeTids, buildTids, relativeTids := [], [], [];
    NothingYet(part, tuples);
    for tid := 0 to |tuples|
      invariant Zips(probeTids, buildTids, Joined(part, tuples[..tid]))
      invariant Aligned(relativeTids, Joined(part, tuples[..tid]), Ids(part))
    {
      var matches := Probe(table, Values(part), hash, tuples[tid].value);
      AppendMatches(part, tuples, tid, probeTids, buildTids, relativeTids);
      probeTids := probeTids + seq(|matches|, _ => tuples[tid].tupleId);
      buildTids := buildTids
          + seq(|matches|, k requires 0 <= k < |matches| && matches[k] < |part| => part[matches[k]].tupleId);
      relativeTids := relativeTids + matches;
    }
    assert tuples[..|tuples|] == tuples;
  }

  lemma NothingYet(part: seq<PartitionTuple>, tuples: seq<PartitionTuple>)
    ensures Zips([], [], Joined(part, tuples[..0])) && Aligned([], Joined(part, tuples[..0]), Ids(part))
  {
  }

  lemma AppendMatches(part: seq<PartitionTuple>, tuples: seq<PartitionTuple>, tid: nat,
                      probeTids: seq<nat>, buildTids: seq<nat>, relativeTids: seq<nat>)
    requires tid < |tuples|
    requires Zips(probeTids, buildTids, Joined(part, tuples[..tid]))
    requires Aligned(relativeTids, Joined(part, tuples[..tid]), Ids(part))
    ensures var m := Matches(Values(part), tuples[tid].value, |part|);
            && (forall k | 0 <= k < |m| :: m[k] < |part|)
            && Zips(probeTids + seq(|m|, _ => tuples[tid].tupleId),
                    buildTids + seq(|m|, k requires 0 <= k < |m| && m[k] < |part| => part[m[k]].tupleId),
                    Joined(part, tuples[..tid + 1]))
            && Aligned(relativeTids + m, Joined(part, tuples[..tid + 1]), Ids(part))
  {
    assert tuples[..tid + 1][..tid] == tuples[..tid];
    assert Joined(part, tuples[..tid + 1]) == Joined(part, tuples[..tid]) + PairsOf(part, tuples[tid]);
  }
}
