/** Filter and CountAggregator: the operators that drive the joined stream into
    the evaluation plans (operations/Filter.cpp, operations/CountAggregator.cpp). */
module CountAggregator {
  import opened RadixPartition
  import opened PartitionAssigner
  import opened BitVectors
  import opened Tallies
  import opened Bindings
  import opened HashJoin
  import opened JoinMeaning
  import opened ChunkStream
  import opened EvaluationPlan

  /** Everything a run works on: the partitioned fact tables, the key column and
      all columns of the bindings, the filter atoms of every join group, and the
      labels to count. */
  datatype Inputs = Inputs(work: Work, bindings: Job, buildColumns: seq<seq<Value>>,
                           atoms: seq<seq<seq<FilterAtom>>>, run: Run) {

    ghost predicate Valid() {
      && Partitioned(work, bindings)
      && |atoms| == |work.tables|
      && (forall t | 0 <= t < |work.tables| :: |atoms[t]| == |work.columnIds[t]| && Rectangular(work.tables[t].columns))
      && (forall c | c in buildColumns :: |c| == |bindings.column|)
      && forall t, g, a | 0 <= t < |atoms| && 0 <= g < |atoms[t]| && a in atoms[t][g] ::
           a.probeColumn < |work.tables[t].columns| && a.buildColumn < |buildColumns|
    }

    ghost predicate Group(t: nat, g: nat)
      requires Valid()
    {
      t < |work.tables| && g < |work.columnIds[t]|
    }

    function Ctx(t: nat, g: nat): (ctx: Context)
      requires t < |atoms| && g < |atoms[t]| && t < |work.tables|
    {
      Context(atoms[t][g], work.tables[t].columns, buildColumns, run)
    }

    ghost function Keys(t: nat, g: nat): (k: KeyJoin)
      requires Valid() && Group(t, g)
    {
      KeyJoinOf(work, t, g, bindings)
    }

    ghost function BindingIds(p: int): (ids: seq<nat>) {
      if p < 0 then [] else Ids(bindings.Bucket(p, |bindings.column|))
    }
  }

  /** Every joined pair can be looked up in the columns the atom names. */
  ghost predicate FitsAtom(atom: FilterAtom, probeColumns: seq<seq<Value>>, buildColumns: seq<seq<Value>>,
                           pairs: seq<Pair>) {
    && atom.probeColumn < |probeColumns| && atom.buildColumn < |buildColumns|
    && forall k | 0 <= k < |pairs| ::
         pairs[k].fact < |probeColumns[atom.probeColumn]| && pairs[k].binding < |buildColumns[atom.buildColumn]|
  }

  /** One equality atom over the joined rows of a chunk, 64 rows to a block. */
  method EvaluateForJoin(atom: FilterAtom, probeColumns: seq<seq<Value>>, buildColumns: seq<seq<Value>>,
                         probeTids: seq<nat>, buildTids: seq<nat>,
                         ghost ctx: Context, ghost index: nat, ghost pairs: seq<Pair>)
    returns (bits: BitVector)
    requires FitsAtom(atom, probeColumns, buildColumns, pairs)
    requires Zips(probeTids, buildTids, pairs)
    requires ctx.probe == probeColumns && ctx.build == buildColumns && index < |ctx.atoms| && ctx.atoms[index] == atom
    ensures Decides(bits, ctx, {index}, pairs)
  {
    var probeValues, buildValues := probeColumns[atom.probeColumn], buildColumns[atom.buildColumn];
    bits := WriteBits(|probeTids|, (k: nat) =>
      && k < |probeTids| && k < |buildTids|
      && probeTids[k] < |probeValues| && buildTids[k] < |buildValues|
      && probeValues[probeTids[k]] == buildValues[buildTids[k]]);
    forall k | 0 <= k < |pairs|
      ensures bits.View()[k] == AllHold(ctx, {index}, pairs[k])
    {
      assert AllHold(ctx, {index}, pairs[k]) <==> AtomHolds(ctx, index, pairs[k]);
    }
  }

  class Filter {
    const hashJoin: HashJoin
    const predicateGroups: seq<seq<seq<FilterAtom>>>
    const buildColumns: seq<seq<Value>>
    var bitVectors: seq<BitVector>

    constructor (join: HashJoin, groups: seq<seq<seq<FilterAtom>>>, columns: seq<seq<Value>>)
      ensures hashJoin == join && predicateGroups == groups && buildColumns == columns
    {
      hashJoin := join;
      predicateGroups := groups;
      buildColumns := columns;
      bitVectors := [];
    }

    /** Built over these inputs. */
    ghost predicate For(inputs: Inputs)
      reads this, hashJoin, hashJoin.assigner
    {
      && inputs.Valid() && hashJoin.Valid()
      && predicateGroups == inputs.atoms && buildColumns == inputs.buildColumns
      && hashJoin.build == inputs.bindings && hashJoin.assigner.work == inputs.work
    }

    /** One bit vector per atom of the chunk's join group. */
    method Next(ghost inputs: Inputs)
      returns (chunk: Option<HashJoinChunk>, ghost skipped: seq<PartitionChunk>, ghost source: PartitionChunk)
      requires For(inputs) && !hashJoin.assigner.Finished()
      modifies this, hashJoin, hashJoin.assigner
      ensures For(inputs)
      ensures forall c | c in skipped :: hashJoin.YieldsNothing(c)
      ensures chunk.None? ==> hashJoin.assigner.Finished() && hashJoin.consumed == old(hashJoin.consumed) + skipped
      ensures chunk.Some? ==>
                && !hashJoin.assigner.Finished()
                && hashJoin.consumed == old(hashJoin.consumed) + skipped + [source]
                && hashJoin.Yields(source, chunk.value)
                && inputs.work.Slice(source)
                && Filtered(inputs, source, bitVectors)
    {
      hide Inputs.Valid, Joined, Filtered, Work.PartitionsFrom, Work.Slice;
      chunk, skipped, source := hashJoin.Next();
      if chunk.Some? {
        assert hashJoin.consumed[|hashJoin.consumed| - 1] == source;
        SourceIsSlice(inputs, hashJoin.consumed, hashJoin.assigner.Remaining(), source);
        var c := chunk.value;
        assert hashJoin.Built();
        bitVectors := ApplyAtoms(predicateGroups[c.tableId][c.joinGroupId],
                                 hashJoin.assigner.work.tables[c.tableId].columns, buildColumns,
                                 c.probeTids, c.buildTids, inputs, source);
      }
    }
  }

  lemma SourceIsSlice(inputs: Inputs, consumed: seq<PartitionChunk>, remaining: seq<PartitionChunk>,
                      source: PartitionChunk)
    requires inputs.Valid() && consumed + remaining == inputs.work.PartitionsFrom(0) && source in consumed
    ensures inputs.work.Slice(source)
    ensures source.tableId < |inputs.atoms| && source.joinGroupId < |inputs.atoms[source.tableId]|
    ensures source.tableId < |inputs.work.tables|
  {
    assert source in consumed + remaining;
    inputs.work.EmittedAreSlices(source, 0);
  }

  method ApplyAtoms(group: seq<FilterAtom>, probeColumns: seq<seq<Value>>, buildColumns: seq<seq<Value>>,
                    probeTids: seq<nat>, buildTids: seq<nat>, ghost inputs: Inputs, ghost source: PartitionChunk)
    returns (bitVectors: seq<BitVector>)
    requires inputs.Valid() && inputs.work.Slice(source)
    requires group == inputs.atoms[source.tableId][source.joinGroupId]
    requires probeColumns == inputs.work.tables[source.tableId].columns && buildColumns == inputs.buildColumns
    requires Zips(probeTids, buildTids,
                  Joined(inputs.bindings.Bucket(source.partitionId, |inputs.bindings.column|), source.tuples))
    ensures Filtered(inputs, source, bitVectors)
  {
    ghost var pairs := Joined(inputs.bindings.Bucket(source.partitionId, |inputs.bindings.column|), source.tuples);
    ghost var ctx := inputs.Ctx(source.tableId, source.joinGroupId);
    PairsFit(inputs, source);
    bitVectors := ApplyGroup(group, probeColumns, buildColumns, probeTids, buildTids, ctx, pairs);
  }

  method ApplyGroup(group: seq<FilterAtom>, probeColumns: seq<seq<Value>>, buildColumns: seq<seq<Value>>,
                    probeTids: seq<nat>, buildTids: seq<nat>, ghost ctx: Context, ghost pairs: seq<Pair>)
    returns (bitVectors: seq<BitVector>)
    requires ctx.atoms == group && ctx.probe == probeColumns && ctx.build == buildColumns
    requires forall a | a in group :: FitsAtom(a, probeColumns, buildColumns, pairs)
    requires Zips(probeTids, buildTids, pairs)
    ensures |bitVectors| == |group|
    ensures forall i | 0 <= i < |group| :: Decides(bitVectors[i], ctx, {i}, pairs)
  {
    hide Decides, FitsAtom, Zips;
    bitVectors := [];
    for i := 0 to |group|
      invariant |bitVectors| == i
      invariant forall j | 0 <= j < i :: Decides(bitVectors[j], ctx, {j}, pairs)
    {
      assert group[i] in group;
      var bits := EvaluateForJoin(group[i], probeColumns, buildColumns, probeTids, buildTids, ctx, i, pairs);
      bitVectors := bitVectors + [bits];
    }
  }

  lemma PairsFit(inputs: Inputs, source: PartitionChunk)
    requires inputs.Valid() && inputs.work.Slice(source)
    ensures var pairs := Joined(inputs.bindings.Bucket(source.partitionId, |inputs.bindings.column|), source.tuples);
            forall a | a in inputs.atoms[source.tableId][source.joinGroupId] ::
              FitsAtom(a, inputs.work.tables[source.tableId].columns, inputs.buildColumns, pairs)
  {
    hide Joined;
    var pairs := Joined(inputs.bindings.Bucket(source.partitionId, |inputs.bindings.column|), source.tuples);
    var columns := inputs.work.tables[source.tableId].columns;
    var keyColumn := columns[inputs.work.columnIds[source.tableId][source.joinGroupId]];
    PairsInRange(inputs, source);
    assert forall q | q in pairs :: q.fact < |keyColumn| && q.binding < |inputs.bindings.column|;
    ColumnsFit(inputs, source);
    hide *;
  }

  /** The filtered columns are as long as the columns joined on. */
  lemma ColumnsFit(inputs: Inputs, source: PartitionChunk)
    requires inputs.Valid() && inputs.work.Slice(source)
    ensures var columns := inputs.work.tables[source.tableId].columns;
            forall a | a in inputs.atoms[source.tableId][source.joinGroupId] ::
              && a.probeColumn < |columns| && a.buildColumn < |inputs.buildColumns|
              && |columns[a.probeColumn]| == |columns[inputs.work.columnIds[source.tableId][source.joinGroupId]]|
              && |inputs.buildColumns[a.buildColumn]| == |inputs.bindings.column|
  {
    var columns := inputs.work.tables[source.tableId].columns;
    var keyColumn := columns[inputs.work.columnIds[source.tableId][source.joinGroupId]];
    assert keyColumn in columns;
    forall a | a in inputs.atoms[source.tableId][source.joinGroupId]
      ensures a.probeColumn < |columns| && a.buildColumn < |inputs.buildColumns|
      ensures |columns[a.probeColumn]| == |keyColumn|
              && |inputs.buildColumns[a.buildColumn]| == |inputs.bindings.column|
    {
      assert columns[a.probeColumn] in columns && inputs.buildColumns[a.buildColumn] in inputs.buildColumns;
    }
  }

  /** The bit vectors decide the atoms of the chunk's group on its joined pairs. */
  ghost predicate Filtered(inputs: Inputs, source: PartitionChunk, bitVectors: seq<BitVector>)
    requires inputs.Valid() && inputs.work.Slice(source)
  {
    var group := inputs.atoms[source.tableId][source.joinGroupId];
    var pairs := Joined(inputs.bindings.Bucket(source.partitionId, |inputs.bindings.column|), source.tuples);
    && |bitVectors| == |group|
    && forall i | 0 <= i < |group| ::
         Decides(bitVectors[i], inputs.Ctx(source.tableId, source.joinGroupId), {i}, pairs)
  }

  /** Joined pairs name existing fact and binding rows of the chunk's partition. */
  lemma PairsInRange(inputs: Inputs, source: PartitionChunk)
    requires inputs.Valid() && inputs.work.Slice(source)
    ensures var k := inputs.Keys(source.tableId, source.joinGroupId);
            forall q | q in Joined(k.BindingPart(source.partitionId), source.tuples) ::
              && q.fact < |k.facts| && q.binding < |k.bindings|
              && k.BindingJob().PartOf(k.bindings[q.binding]) == source.partitionId
  {
    var k := inputs.Keys(source.tableId, source.joinGroupId);
    var p := source.partitionId;
    assert inputs.work.Part(p, source.tableId, source.joinGroupId) == k.FactPart(p);
    k.FactJob().BucketIsExact(p, |k.facts|);
    k.BindingJob().BucketIsExact(p, |k.bindings|);
    JoinedComesFrom(k.BindingPart(p), source.tuples);
  }

  lemma {:induction false} JoinedComesFrom(part: seq<PartitionTuple>, tuples: seq<PartitionTuple>)
    requires forall i, j | 0 <= i < j < |part| :: part[i].tupleId < part[j].tupleId
    ensures forall q | q in Joined(part, tuples) ::
              exists t :: t in tuples && q.fact == t.tupleId && PartitionTuple(t.value, q.binding) in part
  {
    if tuples != [] {
      JoinedComesFrom(part, tuples[..|tuples| - 1]);
      PairsOfAreExact(part, tuples[|tuples| - 1]);
      assert tuples[|tuples| - 1] in tuples;
    }
  }

  // ---------------------------------------------------------------------
  // The aggregator
  // ---------------------------------------------------------------------

  /** A plan has counted exactly its part of the chunks consumed so far, and its
      saved partition is not ahead of the stream. */
  ghost predicate PlanOk(inputs: Inputs, state: PlanState, t: nat, g: nat, consumed: seq<PartitionChunk>)
    requires inputs.Valid() && inputs.Group(t, g)
    reads state
  {
    && state.plan.WellFormed() && state.plan.numAtoms == |inputs.atoms[t][g]|
    && (state.plan.numAtoms == 0 ==> state.plan.nodes == [])
    && state.seen == SeenOf(consumed, t, g, inputs.bindings)
    && state.Counted(inputs.Ctx(t, g), inputs.BindingIds(state.savedPartitionId))
    && -1 <= state.savedPartitionId <= LastPartition(consumed)
    && UpToPartition(inputs, state.seen, state.savedPartitionId)
  }

  ghost predicate UpToPartition(inputs: Inputs, pairs: seq<Pair>, p: int) {
    forall k | 0 <= k < |pairs| ::
      pairs[k].binding < |inputs.bindings.column|
      && inputs.bindings.PartOf(inputs.bindings.column[pairs[k].binding]) <= p
  }

  ghost function LastPartition(consumed: seq<PartitionChunk>): (p: int) {
    if consumed == [] then -1 else consumed[|consumed| - 1].partitionId
  }

  ghost predicate PlansOk(inputs: Inputs, plans: seq<seq<PlanState>>, consumed: seq<PartitionChunk>)
    requires inputs.Valid()
    reads set t, g | 0 <= t < |plans| && 0 <= g < |plans[t]| :: plans[t][g]
  {
    && |plans| == |inputs.work.tables|
    && (forall t | 0 <= t < |plans| :: |plans[t]| == |inputs.work.columnIds[t]|)
    && forall t, g | 0 <= t < |plans| && 0 <= g < |plans[t]| :: PlanOk(inputs, plans[t][g], t, g, consumed)
  }

  ghost predicate AllDistinct(plans: seq<seq<PlanState>>) {
    forall t, g, t', g' | 0 <= t < |plans| && 0 <= g < |plans[t]| && 0 <= t' < |plans| && 0 <= g' < |plans[t']| ::
      plans[t][g] == plans[t'][g'] ==> t == t' && g == g'
  }

  /** Chunks that join to nothing change no plan. */
  lemma {:induction false} SkippingIsFree(inputs: Inputs, consumed: seq<PartitionChunk>, skipped: seq<PartitionChunk>,
                                          t: nat, g: nat)
    requires forall c | c in skipped ::
               Joined(inputs.bindings.Bucket(c.partitionId, |inputs.bindings.column|), c.tuples) == []
    ensures SeenOf(consumed + skipped, t, g, inputs.bindings) == SeenOf(consumed, t, g, inputs.bindings)
  {
    hide Joined, Job.Bucket, SeenOf;
    if skipped == [] {
      assert consumed + skipped == consumed;
    } else {
      var init, c := skipped[..|skipped| - 1], skipped[|skipped| - 1];
      SkippingIsFree(inputs, consumed, init, t, g);
      SeenSnoc(consumed + init, c, t, g, inputs.bindings);
      assert consumed + skipped == (consumed + init) + [c];
    }
  }

  /** A plan that is not concerned by the newly consumed chunks stays right. */
  lemma PlanStaysOk(inputs: Inputs, state: PlanState, t: nat, g: nat, consumed: seq<PartitionChunk>,
                    consumed': seq<PartitionChunk>)
    requires inputs.Valid() && inputs.Group(t, g) && PlanOk(inputs, state, t, g, consumed)
    requires SeenOf(consumed', t, g, inputs.bindings) == SeenOf(consumed, t, g, inputs.bindings)
    requires LastPartition(consumed) <= LastPartition(consumed')
    ensures PlanOk(inputs, state, t, g, consumed')
  {
  }

  /** When a plan meets a partition for the first time, none of that partition's
      rows has been seen. */
  lemma NewPartitionIsFresh(inputs: Inputs, state: PlanState, t: nat, g: nat, consumed: seq<PartitionChunk>, p: nat)
    requires inputs.Valid() && inputs.Group(t, g) && PlanOk(inputs, state, t, g, consumed)
    requires LastPartition(consumed) <= p && state.savedPartitionId != p
    ensures forall k | 0 <= k < |state.seen| :: state.seen[k].binding !in inputs.BindingIds(p)
  {
    BindingIdsHashTo(inputs, p);
  }

  lemma BindingIdsHashTo(inputs: Inputs, p: nat)
    ensures forall b | b in inputs.BindingIds(p) ::
              b < |inputs.bindings.column| && inputs.bindings.PartOf(inputs.bindings.column[b]) == p
  {
    inputs.bindings.BucketIsExact(p, |inputs.bindings.column|);
    var part := inputs.bindings.Bucket(p, |inputs.bindings.column|);
    forall b | b in Ids(part)
      ensures b < |inputs.bindings.column| && inputs.bindings.PartOf(inputs.bindings.column[b]) == p
    {
      var r :| 0 <= r < |part| && Ids(part)[r] == b;
      assert part[r] in part;
    }
  }

  lemma BindingIdsInjective(inputs: Inputs, p: nat)
    ensures Injective(inputs.BindingIds(p))
  {
    inputs.bindings.BucketIsExact(p, |inputs.bindings.column|);
  }

  lemma ChunkPairsUpTo(inputs: Inputs, source: PartitionChunk, seen: seq<Pair>, saved: int)
    requires inputs.Valid() && inputs.work.Slice(source)
    requires UpToPartition(inputs, seen, saved) && saved <= source.partitionId
    ensures UpToPartition(inputs,
                          seen
                              + Joined(inputs.bindings.Bucket(source.partitionId, |inputs.bindings.column|),
                                       source.tuples),
                          source.partitionId)
  {
    hide Joined, Job.Bucket;
    PairsInRange(inputs, source);
    var k := inputs.Keys(source.tableId, source.joinGroupId);
    var pairs := Joined(inputs.bindings.Bucket(source.partitionId, |inputs.bindings.column|), source.tuples);
    assert k.BindingJob() == inputs.bindings;
    assert forall i | 0 <= i < |pairs| :: pairs[i] in pairs;
  }

  lemma CarriedPairs(inputs: Inputs, chunk: HashJoinChunk, pairs: seq<Pair>, p: nat)
    requires Carries(chunk, pairs, inputs.bindings.Bucket(p, |inputs.bindings.column|))
    ensures |inputs.BindingIds(p)| == chunk.bindingPartitionSize
    ensures Aligned(chunk.buildRelativeTids, pairs, inputs.BindingIds(p))
    ensures |chunk.buildTids| == |pairs| && forall k | 0 <= k < |pairs| :: pairs[k].binding == chunk.buildTids[k]
  {
  }

  /** One iteration of Execute: the plan of the chunk's table and group counts it. */
  method ConsumeChunk(inputs: Inputs, state: PlanState, chunk: HashJoinChunk, bitVectors: seq<BitVector>,
                      ghost consumed: seq<PartitionChunk>, ghost source: PartitionChunk)
    requires inputs.Valid() && inputs.work.Slice(source)
    requires PlanOk(inputs, state, source.tableId, source.joinGroupId, consumed)
    requires LastPartition(consumed) <= source.partitionId
    requires var part := inputs.bindings.Bucket(source.partitionId, |inputs.bindings.column|);
             chunk.partitionId == source.partitionId && Carries(chunk, Joined(part, source.tuples), part)
    requires Filtered(inputs, source, bitVectors)
    modifies state
    ensures PlanOk(inputs, state, source.tableId, source.joinGroupId, consumed + [source])
  {
    hide Joined, Decides, Aligned, Injective, SeenOf, Ids, Job.Bucket, Partitioned, UpToPartition,
      PlanState.Counted, Inputs.BindingIds, Zips;
    ghost var t, g, p := source.tableId, source.joinGroupId, source.partitionId;
    ghost var part := inputs.bindings.Bucket(p, |inputs.bindings.column|);
    ghost var pairs := Joined(part, source.tuples);
    ChunkPairsUpTo(inputs, source, state.seen, state.savedPartitionId);
    CarriedPairs(inputs, chunk, pairs, p);
    SeenSnoc(consumed, source, t, g, inputs.bindings);
    BindingIdsInjective(inputs, p);
    if state.savedPartitionId != p {
      NewPartitionIsFresh(inputs, state, t, g, consumed, p);
    }
    state.Consume(chunk.buildRelativeTids, chunk.buildTids, bitVectors, chunk.partitionId, chunk.bindingPartitionSize,
                  inputs.run,
                  inputs.Ctx(t, g), inputs.BindingIds(state.savedPartitionId), inputs.BindingIds(p), pairs);
  }

  /** Some fact row and some binding row agree on a join key. */
  ghost predicate SomethingJoins(inputs: Inputs)
    requires inputs.Valid()
  {
    exists t, g :: 0 <= t < |inputs.work.tables| && 0 <= g < |inputs.work.columnIds[t]|
                   && SeenOf(inputs.work.PartitionsFrom(0), t, g, inputs.bindings) != []
  }

  lemma AllSkipped(inputs: Inputs, skipped: seq<PartitionChunk>)
    requires inputs.Valid() && skipped == inputs.work.PartitionsFrom(0)
    requires forall c | c in skipped ::
               Joined(inputs.bindings.Bucket(c.partitionId, |inputs.bindings.column|), c.tuples) == []
    ensures !SomethingJoins(inputs)
  {
    hide Joined, Job.Bucket, Work.PartitionsFrom, SeenOf;
    forall t, g | 0 <= t < |inputs.work.tables| && 0 <= g < |inputs.work.columnIds[t]|
      ensures SeenOf(inputs.work.PartitionsFrom(0), t, g, inputs.bindings) == []
    {
      SkippingIsFree(inputs, [], skipped, t, g);
      NothingSeen(t, g, inputs.bindings);
      assert [] + skipped == skipped;
    }
  }

  lemma OneYields(inputs: Inputs, before: seq<PartitionChunk>, source: PartitionChunk, rest: seq<PartitionChunk>)
    requires inputs.Valid() && before + [source] + rest == inputs.work.PartitionsFrom(0) && inputs.work.Slice(source)
    requires Joined(inputs.bindings.Bucket(source.partitionId, |inputs.bindings.column|), source.tuples) != []
    ensures SomethingJoins(inputs)
  {
    hide Joined, Job.Bucket, Work.PartitionsFrom;
    var t, g := source.tableId, source.joinGroupId;
    SeenConcat(before + [source], rest, t, g, inputs.bindings);
    SeenSnoc(before, source, t, g, inputs.bindings);
    hide SeenOf;
    assert SeenOf(inputs.work.PartitionsFrom(0), t, g, inputs.bindings) != [];
  }

  lemma SkipKeepsPlans(inputs: Inputs, plans: seq<seq<PlanState>>, consumed: seq<PartitionChunk>,
                       skipped: seq<PartitionChunk>, rest: seq<PartitionChunk>)
    requires inputs.Valid() && PlansOk(inputs, plans, consumed)
    requires consumed + skipped + rest == inputs.work.PartitionsFrom(0)
    requires forall c | c in skipped ::
               Joined(inputs.bindings.Bucket(c.partitionId, |inputs.bindings.column|), c.tuples) == []
    ensures PlansOk(inputs, plans, consumed + skipped)
  {
    hide Joined, SeenOf, Partitioned, Job.Bucket, Work.PartitionsFrom, PlanOk;
    LastPartitionGrows(inputs, consumed, skipped, rest);
    forall t, g | 0 <= t < |plans| && 0 <= g < |plans[t]|
      ensures PlanOk(inputs, plans[t][g], t, g, consumed + skipped)
    {
      SkippingIsFree(inputs, consumed, skipped, t, g);
      PlanStaysOk(inputs, plans[t][g], t, g, consumed, consumed + skipped);
    }
  }

  lemma LastPartitionGrows(inputs: Inputs, a: seq<PartitionChunk>, b: seq<PartitionChunk>, rest: seq<PartitionChunk>)
    requires inputs.Valid() && a + b + rest == inputs.work.PartitionsFrom(0)
    ensures LastPartition(a) <= LastPartition(a + b)
  {
    hide Inputs.Valid, Work.Valid, Work.PartitionsFrom;
    if b == [] {
      assert a + b == a;
    } else if a != [] {
      assert inputs.work.Valid() by { WorkIsValid(inputs); }
      var init, c := b[..|b| - 1], b[|b| - 1];
      assert (a + init) + [c] + rest == a + b + rest;
      PartitionMajor(inputs.work, a + init, c, rest);
      assert a[|a| - 1] in a + init;
    }
  }

  lemma WorkIsValid(inputs: Inputs)
    requires inputs.Valid()
    ensures inputs.work.Valid()
  {
  }

  /** The chunk is counted by its own plan; all other plans are as before. */
  method CountChunk(inputs: Inputs, plans: seq<seq<PlanState>>, chunk: HashJoinChunk, bitVectors: seq<BitVector>,
                    ghost consumed: seq<PartitionChunk>, ghost source: PartitionChunk, ghost rest: seq<PartitionChunk>)
    requires inputs.Valid() && inputs.work.Slice(source)
    requires PlansOk(inputs, plans, consumed) && AllDistinct(plans)
    requires consumed + [source] + rest == inputs.work.PartitionsFrom(0)
    requires var part := inputs.bindings.Bucket(source.partitionId, |inputs.bindings.column|);
             && chunk.tableId == source.tableId && chunk.joinGroupId == source.joinGroupId
             && chunk.partitionId == source.partitionId && Carries(chunk, Joined(part, source.tuples), part)
    requires Filtered(inputs, source, bitVectors)
    modifies set t, g | 0 <= t < |plans| && 0 <= g < |plans[t]| :: plans[t][g]
    ensures PlansOk(inputs, plans, consumed + [source])
  {
    hide Joined, SeenOf, Partitioned, Job.Bucket, Work.PartitionsFrom, PlanOk, Filtered, Carries;
    LastPartitionGrows(inputs, consumed, [source], rest);
    ConsumeChunk(inputs, plans[chunk.tableId][chunk.joinGroupId], chunk, bitVectors, consumed, source);
    forall t, g | 0 <= t < |plans| && 0 <= g < |plans[t]|
      ensures PlanOk(inputs, plans[t][g], t, g, consumed + [source])
    {
      if t != source.tableId || g != source.joinGroupId {
        assert plans[t][g] != plans[source.tableId][source.joinGroupId];
        assert old(PlanOk(inputs, plans[t][g], t, g, consumed));
        SeenSnoc(consumed, source, t, g, inputs.bindings);
        PlanStaysOk(inputs, plans[t][g], t, g, consumed, consumed + [source]);
      }
    }
  }

  class CountAggregator {
    const filter: Filter
    const scorePlans: seq<seq<PlanState>>

    constructor (f: Filter, plans: seq<seq<PlanState>>)
      ensures filter == f && scorePlans == plans
    {
      filter := f;
      scorePlans := plans;
    }

    /** Execute, ExecuteOnPositives and ExecuteOnNegatives, by inputs.run; started is
        false where the original takes a first chunk that is not there. */
    method Execute(inputs: Inputs) returns (started: bool)
      requires filter.For(inputs) && !filter.hashJoin.assigner.Finished() && filter.hashJoin.consumed == []
      requires PlansOk(inputs, scorePlans, []) && AllDistinct(scorePlans)
      modifies filter, filter.hashJoin, filter.hashJoin.assigner
      modifies set t, g | 0 <= t < |scorePlans| && 0 <= g < |scorePlans[t]| :: scorePlans[t][g]
      ensures started <==> SomethingJoins(inputs)
      ensures started ==> PlansOk(inputs, scorePlans, inputs.work.PartitionsFrom(0))
    {
      hide Inputs.Valid, Joined, Filtered, Carries, SeenOf, Work.PartitionsFrom, Work.Rest, Work.Slice,
        PlansOk, AllDistinct, SomethingJoins, Job.Bucket;
      ghost var done: seq<PartitionChunk> := [];
      var chunk, skipped, source := filter.Next(inputs);
      if chunk.None? {
        AllSkipped(inputs, skipped);
        return false;
      }
      OneYields(inputs, skipped, source, filter.hashJoin.assigner.Remaining());
      started := true;
      while true
        invariant filter.For(inputs) && !filter.hashJoin.assigner.Finished()
        invariant PlansOk(inputs, scorePlans, done)
        invariant filter.hashJoin.consumed == done + skipped + [source]
        invariant forall c | c in skipped :: filter.hashJoin.YieldsNothing(c)
        invariant chunk.Some? && filter.hashJoin.Yields(source, chunk.value)
        invariant inputs.work.Slice(source) && Filtered(inputs, source, filter.bitVectors)
        decreases |filter.hashJoin.assigner.Remaining()|
      {
        ghost var rest := filter.hashJoin.assigner.Remaining();
        SkipKeepsPlans(inputs, scorePlans, done, skipped, [source] + rest);
        CountChunk(inputs, scorePlans, chunk.value, filter.bitVectors, done + skipped, source, rest);
        done := filter.hashJoin.consumed;
        chunk, skipped, source := filter.Next(inputs);
        if chunk.None? {
          SkipKeepsPlans(inputs, scorePlans, done, skipped, []);
          assert done + skipped + [] == done + skipped;
          break;
        }
      }
    }
  }
}
