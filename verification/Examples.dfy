/** The examples that a clause extended by a literal covers, computed by
    cascaded semi-joins (learner/QuickFoil.cpp, learner/QuickFoilTestRunner.cpp). */
module Examples {
  import opened Bits
  import opened RadixPartition
  import opened PartitionAssigner
  import opened HashTable
  import opened BitVectors
  import opened Tallies
  import opened Bindings
  import opened KeyColumns
  import opened MultiColumnJoin
  import opened BindingTables
  import opened SemiJoins
  import opened Coverage
  import opened Gather

  // ---------------------------------------------------------------------
  // The naive meaning of coverage
  // ---------------------------------------------------------------------

  /** Binding row b starts with example e. */
  ghost predicate StartsWithExample(bindings: seq<seq<Value>>, b: nat, examples: seq<seq<Value>>, e: nat, n: nat) {
    forall c | 0 <= c < n :: AgreesAt(examples, bindings, c, c, e, b)
  }

  /** Some binding row that starts with the example has a fact that agrees with
      the literal. */
  ghost predicate IsCovered(examples: seq<seq<Value>>, e: nat, bindings: seq<seq<Value>>, facts: seq<seq<Value>>,
                            vars: Variables, n: nat) {
    exists b ::
      0 <= b < Rows(bindings) && StartsWithExample(bindings, b, examples, e, n) && HasWitness(facts, bindings, vars, b)
  }

  ghost predicate HasWitness(facts: seq<seq<Value>>, bindings: seq<seq<Value>>, vars: Variables, b: nat) {
    exists f :: 0 <= f < Rows(facts) && Agrees(facts, bindings, vars, f, b)
  }

  ghost function CoveredBits(examples: seq<seq<Value>>, bindings: seq<seq<Value>>, facts: seq<seq<Value>>,
                             vars: Variables, n: nat): (bits: seq<bool>) {
    seq(Rows(examples), e requires 0 <= e < Rows(examples) => IsCovered(examples, e, bindings, facts, vars, n))
  }

  // ---------------------------------------------------------------------
  // The cascade means just that
  // ---------------------------------------------------------------------

  /** The bits of the binding semi-join. */
  ghost function WitnessBits(facts: seq<seq<Value>>, bindings: seq<seq<Value>>, vars: Variables): (bits: seq<bool>)
    requires LiteralFits(facts, bindings, vars)
    ensures |bits| == Rows(bindings)
  {
    SidesAreValid(facts, bindings, vars);
    PartnerBits(BindingSide(bindings, vars), FactSide(facts, vars), seq(Rows(facts), _ => true))
  }

  lemma WitnessBitMeans(facts: seq<seq<Value>>, bindings: seq<seq<Value>>, vars: Variables, b: nat)
    requires LiteralFits(facts, bindings, vars) && b < Rows(bindings)
    ensures WitnessBits(facts, bindings, vars)[b] <==> HasWitness(facts, bindings, vars, b)
  {
    SidesAreValid(facts, bindings, vars);
    var fs, bs := FactSide(facts, vars), BindingSide(bindings, vars);
    var all := seq(Rows(facts), _ => true);
    hide LiteralFits, JoinSide.KeyRows, JoinSide.Valid, Agrees;
    forall f | 0 <= f < Rows(facts)
      ensures fs.KeyRows()[f] == bs.KeyRows()[b] <==> Agrees(facts, bindings, vars, f, b)
    {
      KeysEqualMeansAgrees(facts, bindings, vars, f, b);
    }
    if HasWitness(facts, bindings, vars, b) {
      var f :| 0 <= f < Rows(facts) && Agrees(facts, bindings, vars, f, b);
      assert all[f] && fs.KeyRows()[f] == bs.KeyRows()[b];
    }
  }

  lemma PrefixesEqual(examples: seq<seq<Value>>, bindings: seq<seq<Value>>, n: nat, e: nat, b: nat)
    requires Rectangular(examples) && Rectangular(bindings) && 0 < n <= |examples| && n <= |bindings|
    requires e < Rows(examples) && b < Rows(bindings)
    ensures PrefixSide(examples, n).Valid() && PrefixSide(bindings, n).Valid()
    ensures PrefixSide(bindings, n).KeyRows()[b] == PrefixSide(examples, n).KeyRows()[e]
            <==> StartsWithExample(bindings, b, examples, e, n)
  {
    PrefixIsValid(examples, n);
    PrefixIsValid(bindings, n);
    var xs, bs := PrefixSide(examples, n), PrefixSide(bindings, n);
    xs.ColumnsHaveRows();
    bs.ColumnsHaveRows();
    xs.KeyOfRow(e);
    bs.KeyOfRow(b);
    var x, y := xs.KeyRows()[e], bs.KeyRows()[b];
    hide JoinSide.KeyRows;
    assert |x| == |y| == n;
    forall c | 0 <= c < n
      ensures x[c] == y[c] <==> AgreesAt(examples, bindings, c, c, e, b)
    {
    }
  }

  /** The coverage semi-join over the deduplicated survivors of the binding
      semi-join marks exactly the covered examples. */
  lemma CascadeMeansCovered(examples: seq<seq<Value>>, bindings: seq<seq<Value>>, facts: seq<seq<Value>>,
                            vars: Variables, n: nat)
    requires LiteralFits(facts, bindings, vars) && Rectangular(examples) && 0 < n <= |examples| && n <= |bindings|
    ensures PrefixSide(examples, n).Valid() && PrefixSide(bindings, n).Valid()
    ensures PartnerBits(PrefixSide(examples, n), PrefixSide(bindings, n), WitnessBits(facts, bindings, vars))
         == CoveredBits(examples, bindings, facts, vars, n)
  {
    assert Rectangular(bindings) && bindings != [];
    PrefixIsValid(examples, n);
    PrefixIsValid(bindings, n);
    var xs, bs, present := PrefixSide(examples, n), PrefixSide(bindings, n), WitnessBits(facts, bindings, vars);
    hide LiteralFits, JoinSide.KeyRows, JoinSide.Valid, PrefixSide, WitnessBits, StartsWithExample, HasWitness,
        Rectangular;
    hide IsCovered, HasPartner;
    forall e | 0 <= e < Rows(examples)
      ensures HasPartner(xs.KeyRows()[e], bs.KeyRows(), present) <==> IsCovered(examples, e, bindings, facts, vars, n)
    {
      PartnerMeansCovered(examples, bindings, facts, vars, n, e);
    }
  }

  lemma PartnerMeansCovered(examples: seq<seq<Value>>, bindings: seq<seq<Value>>, facts: seq<seq<Value>>,
                            vars: Variables, n: nat, e: nat)
    requires LiteralFits(facts, bindings, vars) && 0 < n <= |examples| && n <= |bindings| && e < Rows(examples)
    requires PrefixSide(examples, n).Valid() && PrefixSide(bindings, n).Valid()
    requires |PrefixSide(examples, n).KeyRows()| == Rows(examples)
             && |PrefixSide(bindings, n).KeyRows()| == Rows(bindings)
    requires Rectangular(examples) && Rectangular(bindings)
    ensures HasPartner(PrefixSide(examples, n).KeyRows()[e], PrefixSide(bindings, n).KeyRows(),
                       WitnessBits(facts, bindings, vars))
            <==> IsCovered(examples, e, bindings, facts, vars, n)
  {
    var xs, bs, present := PrefixSide(examples, n), PrefixSide(bindings, n), WitnessBits(facts, bindings, vars);
    hide LiteralFits, JoinSide.KeyRows, JoinSide.Valid, PrefixSide, WitnessBits, StartsWithExample, HasWitness,
        Rectangular;
    forall b | 0 <= b < Rows(bindings)
      ensures bs.KeyRows()[b] == xs.KeyRows()[e] <==> StartsWithExample(bindings, b, examples, e, n)
      ensures present[b] <==> HasWitness(facts, bindings, vars, b)
    {
      PrefixesEqual(examples, bindings, n, e, b);
      WitnessBitMeans(facts, bindings, vars, b);
    }
    if HasPartner(xs.KeyRows()[e], bs.KeyRows(), present) {
      var b :| 0 <= b < |bs.KeyRows()| && b < |present| && present[b] && bs.KeyRows()[b] == xs.KeyRows()[e];
      assert StartsWithExample(bindings, b, examples, e, n) && HasWitness(facts, bindings, vars, b);
    }
  }

  // ---------------------------------------------------------------------
  // Computing it
  // ---------------------------------------------------------------------

  /** The binding semi-join delivers everything in one chunk, and the tables that
      are hashed are not empty. */
  ghost predicate OneChunkCoverage(facts: seq<seq<Value>>, bindings: seq<seq<Value>>, chunkSize: nat) {
    && 0 < Rows(bindings) <= Pow2(30) && 0 < Rows(facts) <= Pow2(30) && chunkSize > 0
    && (Rows(bindings) < Rows(facts) || Rows(bindings) <= chunkSize)
  }

  /** The prefixes of the binding rows with a witness, hashed. */
  method BuildCoverageTable(bindings: seq<seq<Value>>, facts: seq<seq<Value>>, vars: Variables, n: nat,
                            factTable: Option<FoilHashTable>,
                            hashing: Hashing, chunkSize: nat)
    returns (table: FoilHashTable, factTable': Option<FoilHashTable>, ghost slots: seq<int>)
    requires LiteralFits(facts, bindings, vars) && 0 < n <= |bindings| && OneChunkCoverage(facts, bindings, chunkSize)
    requires factTable.Some? ==> FactTableOk(factTable.value, facts, vars, hashing)
    ensures factTable'.Some? ==> FactTableOk(factTable'.value, facts, vars, hashing)
    ensures PrefixSide(bindings, n).Valid()
    ensures Holding(table, PrefixSide(bindings, n).KeyRows(), hashing.OfKey(), slots,
                    WitnessBits(facts, bindings, vars))
  {
    SidesAreValid(facts, bindings, vars);
    hide LiteralFits, Holding, Indexes, JoinSide.KeyRows, JoinSide.Valid, Pow2, Rows, OneChunk, AllBits, Delivered,
        SemiJoins.Ready, PartnerBits;
    var join, bindingTable;
    join, bindingTable, factTable' :=
      SelectAndCreateSemiJoin(BindingSide(bindings, vars), FactSide(facts, vars), None, factTable, hashing, n,
                              chunkSize);
    table, slots := BuildHashTableAfterSemiJoin(Rows(bindings), n, join, hashing);
  }

  ghost predicate FactTableOk(table: FoilHashTable, facts: seq<seq<Value>>, vars: Variables, hashing: Hashing) {
    FactSide(facts, vars).Valid() && Indexes(table, FactSide(facts, vars).KeyRows(), hashing.OfKey())
  }

  /** A semi-join of the examples with the table marks the covered ones. */
  method NewCoverageSemiJoin(examples: seq<seq<Value>>, bindings: seq<seq<Value>>, table: FoilHashTable, n: nat,
                             hashing: Hashing, chunkSize: nat,
                             ghost slots: seq<int>, ghost facts: seq<seq<Value>>, ghost vars: Variables)
    returns (join: LeftSemiJoin)
    requires LiteralFits(facts, bindings, vars) && Rectangular(examples) && 0 < n == |examples| && n <= |bindings|
             && chunkSize > 0
    requires PrefixSide(bindings, n).Valid()
    requires Holding(table, PrefixSide(bindings, n).KeyRows(), hashing.OfKey(), slots,
                     WitnessBits(facts, bindings, vars))
    ensures fresh(join) && join.Ready() && join.curProbeOffset == 0 && join.numProjected == n
            && join.probe.columns == examples
    ensures BitsOf(join) == CoveredBits(examples, bindings, facts, vars, n)
  {
    CascadeMeansCovered(examples, bindings, facts, vars, n);
    hide LiteralFits, Holding, JoinSide.KeyRows, JoinSide.Valid, PartnerBits, CoveredBits, WitnessBits;
    join := new LeftSemiJoin(PrefixSide(examples, n), PrefixSide(bindings, n), table, hashing, n, chunkSize, slots,
                             WitnessBits(facts, bindings, vars));
  }

  /** The rows a left semi-join has been asked about. */
  ghost function DeliveredBy(join: LeftSemiJoin): (n: nat)
    reads join
  {
    if join.curProbeOffset < Rows(join.probe.columns) then join.curProbeOffset else Rows(join.probe.columns)
  }

  ghost function Undelivered(join: LeftSemiJoin): (n: nat)
    reads join
  {
    Rows(join.probe.columns) - DeliveredBy(join)
  }

  lemma PendingChunk(join: LeftSemiJoin, chunk: SemiJoinChunk, all: seq<bool>, delivered: nat)
    requires Pending(join, Some(chunk), all, delivered)
    ensures ChunkOf(chunk, join.probe.columns, join.numProjected, all, delivered)
            && delivered + chunk.bits.size == DeliveredBy(join) <= |all|
  {
    hide ChunkOf;
  }

  lemma NothingPending(join: LeftSemiJoin, all: seq<bool>, delivered: nat)
    requires Pending(join, None, all, delivered)
    ensures delivered == |all| == Rows(join.probe.columns) && all[..delivered] == all
  {
  }

  /** The chunks cover the first n rows, one after the other. */
  ghost predicate ChunksUpTo(chunks: seq<SemiJoinChunk>, columns: seq<seq<Value>>, numProjected: nat, all: seq<bool>,
                             n: nat) {
    if chunks == [] then n == 0
    else
      var last := chunks[|chunks| - 1];
      && last.bits.size <= n && ChunkOf(last, columns, numProjected, all, n - last.bits.size)
      && ChunksUpTo(chunks[..|chunks| - 1], columns, numProjected, all, n - last.bits.size)
  }

  /** A pending chunk starts where the others end. */
  ghost predicate Pending(join: LeftSemiJoin, chunk: Option<SemiJoinChunk>, all: seq<bool>, delivered: nat)
    reads join
  {
    && delivered <= |all| == Rows(join.probe.columns)
    && (chunk.Some? ==> && ChunkOf(chunk.value, join.probe.columns, join.numProjected, all, delivered)
                        && delivered + chunk.value.bits.size == DeliveredBy(join))
    && (chunk.None? ==> delivered == |all| == DeliveredBy(join))
  }

  lemma ChunksMore(chunks: seq<SemiJoinChunk>, chunk: SemiJoinChunk, columns: seq<seq<Value>>, numProjected: nat,
                   all: seq<bool>, n: nat)
    requires ChunksUpTo(chunks, columns, numProjected, all, n) && ChunkOf(chunk, columns, numProjected, all, n)
    ensures ChunksUpTo(chunks + [chunk], columns, numProjected, all, n + chunk.bits.size)
  {
    hide ChunkOf;
    assert (chunks + [chunk])[..|chunks|] == chunks;
  }

  lemma OnesMore(chunk: SemiJoinChunk, columns: seq<seq<Value>>, numProjected: nat, all: seq<bool>, n: nat)
    requires ChunkOf(chunk, columns, numProjected, all, n)
    ensures n + chunk.bits.size <= |all| && Ones(all[..n + chunk.bits.size]) == Ones(all[..n]) + chunk.numOnes
  {
    assert all[..n + chunk.bits.size] == all[..n] + all[n..n + chunk.bits.size];
    OnesConcat(all[..n], all[n..n + chunk.bits.size]);
  }

  /** The next chunk, continuing where the semi-join stands. */
  method NextChunk(join: LeftSemiJoin, ghost all: seq<bool>) returns (chunk: Option<SemiJoinChunk>)
    requires join.Ready() && all == BitsOf(join)
    modifies join
    ensures Pending(join, chunk, all, old(DeliveredBy(join)))
    ensures chunk.Some? ==> Undelivered(join) < old(Undelivered(join))
    ensures chunk.None? ==> Undelivered(join) == old(Undelivered(join))
  {
    hide ChunkOf, PartnerBits, Holding, Rows, JoinSide.Valid;
    chunk := join.Next();
  }

  /** The chunks of a coverage semi-join and the number of covered examples. */
  method CountCovered(join: LeftSemiJoin) returns (numCovered: nat, chunks: seq<SemiJoinChunk>)
    requires join.Ready() && join.curProbeOffset == 0
    modifies join
    ensures ChunksUpTo(chunks, join.probe.columns, join.numProjected, BitsOf(join), |BitsOf(join)|)
    ensures numCovered == Ones(BitsOf(join))
  {
    ghost var all := BitsOf(join);
    NotStarted(join);
    NothingCounted(join.probe.columns, join.numProjected, all);
    hide *;
    numCovered, chunks := 0, [];
    ghost var delivered: nat := 0;
    var chunk := NextChunk(join, all);
    while chunk.Some?
      invariant Pending(join, chunk, all, delivered)
      invariant Counted(chunks, numCovered, join.probe.columns, join.numProjected, all, delivered)
      decreases Undelivered(join), chunk.Some?
    {
      numCovered, chunks, delivered := CountChunk(join, chunk.value, numCovered, chunks, all, delivered);
      chunk := NextChunk(join, all);
    }
    NothingPending(join, all, delivered);
    AllCounted(chunks, numCovered, join.probe.columns, join.numProjected, all);
  }

  method CountChunk(join: LeftSemiJoin, chunk: SemiJoinChunk, numCovered: nat, chunks: seq<SemiJoinChunk>,
                    ghost all: seq<bool>, ghost delivered: nat)
    returns (numCovered': nat, chunks': seq<SemiJoinChunk>, ghost delivered': nat)
    requires Pending(join, Some(chunk), all, delivered)
    requires Counted(chunks, numCovered, join.probe.columns, join.numProjected, all, delivered)
    ensures delivered' == DeliveredBy(join)
    ensures Counted(chunks', numCovered', join.probe.columns, join.numProjected, all, delivered')
  {
    hide *;
    PendingChunk(join, chunk, all, delivered);
    CountedMore(chunks, numCovered, chunk, join.probe.columns, join.numProjected, all, delivered);
    numCovered' := numCovered + chunk.numOnes;
    chunks' := chunks + [chunk];
    delivered' := delivered + chunk.bits.size;
  }

  lemma NotStarted(join: LeftSemiJoin)
    requires join.Ready() && join.curProbeOffset == 0
    ensures DeliveredBy(join) == 0 && |BitsOf(join)| == Rows(join.probe.columns)
  {
  }

  /** One bit per example. */
  ghost function BitsOf(join: LeftSemiJoin): (all: seq<bool>)
    requires join.Ready()
  {
    PartnerBits(join.probe, join.build, join.present)
  }

  ghost predicate Counted(chunks: seq<SemiJoinChunk>, count: nat, columns: seq<seq<Value>>, numProjected: nat,
                          all: seq<bool>, n: nat) {
    n <= |all| && ChunksUpTo(chunks, columns, numProjected, all, n) && count == Ones(all[..n])
  }

  lemma NothingCounted(columns: seq<seq<Value>>, numProjected: nat, all: seq<bool>)
    ensures Counted([], 0, columns, numProjected, all, 0)
  {
    assert all[..0] == [];
  }

  lemma CountedMore(chunks: seq<SemiJoinChunk>, count: nat, chunk: SemiJoinChunk, columns: seq<seq<Value>>,
                    numProjected: nat, all: seq<bool>, n: nat)
    requires Counted(chunks, count, columns, numProjected, all, n) && ChunkOf(chunk, columns, numProjected, all, n)
    ensures Counted(chunks + [chunk], count + chunk.numOnes, columns, numProjected, all, n + chunk.bits.size)
  {
    ChunksMore(chunks, chunk, columns, numProjected, all, n);
    OnesMore(chunk, columns, numProjected, all, n);
  }

  lemma AllCounted(chunks: seq<SemiJoinChunk>, count: nat, columns: seq<seq<Value>>, numProjected: nat, all: seq<bool>)
    requires Counted(chunks, count, columns, numProjected, all, |all|)
    ensures ChunksUpTo(chunks, columns, numProjected, all, |all|) && count == Ones(all)
  {
    assert all[..|all|] == all;
  }

  /** Copies the examples without a partner to the output buffers. */
  method GatherUncovered(join: LeftSemiJoin, outputs: seq<array<Value>>) returns (numOutput: nat)
    requires join.Ready() && join.curProbeOffset == 0 && join.numProjected == |outputs| <= |join.probe.columns|
    requires DistinctBuffers(outputs)
    requires forall i | 0 <= i < |outputs| ::
               outputs[i].Length >= Ones(Negated(BitsOf(join)))
    modifies join, set i | 0 <= i < |outputs| :: outputs[i]
    ensures Gathered(outputs, join.probe.columns, BitsOf(join), |BitsOf(join)|, numOutput)
  {
    ghost var all := BitsOf(join);
    ColumnsAreAsLong(join);
    NotStarted(join);
    hide *;
    NothingGathered(outputs, join.probe.columns, all);
    numOutput := 0;
    ghost var delivered: nat := 0;
    var chunk := NextChunk(join, all);
    while chunk.Some?
      invariant Pending(join, chunk, all, delivered)
      invariant Gathered(outputs, join.probe.columns, all, delivered, numOutput)
      decreases Undelivered(join), chunk.Some?
    {
      numOutput, chunk, delivered := GatherNext(join, chunk.value, outputs, numOutput, all, delivered);
    }
    NothingPending(join, all, delivered);
  }

  method GatherNext(join: LeftSemiJoin, chunk: SemiJoinChunk, outputs: seq<array<Value>>, numOutput: nat,
                    ghost all: seq<bool>, ghost delivered: nat)
    returns (numOutput': nat, chunk': Option<SemiJoinChunk>, ghost delivered': nat)
    requires join.Ready() && all == BitsOf(join) && Pending(join, Some(chunk), all, delivered)
    requires join.numProjected == |outputs| <= |join.probe.columns| && DistinctBuffers(outputs)
    requires Gathered(outputs, join.probe.columns, all, delivered, numOutput)
    requires forall i | 0 <= i < |outputs| ::
               |join.probe.columns[i]| == |all| && Ones(Negated(all)) <= outputs[i].Length
    modifies join, set i | 0 <= i < |outputs| :: outputs[i]
    ensures Pending(join, chunk', all, delivered')
    ensures Gathered(outputs, join.probe.columns, all, delivered', numOutput')
    ensures Undelivered(join) < old(Undelivered(join)) || (Undelivered(join) == old(Undelivered(join)) && chunk'.None?)
  {
    hide *;
    PendingChunk(join, chunk, all, delivered);
    delivered' := delivered + chunk.bits.size;
    numOutput' := GatherChunk(chunk, outputs, numOutput, join.probe.columns, all, delivered);
    chunk' := NextBeside(join, outputs, numOutput', all, delivered');
  }

  /** Fetching a chunk leaves the buffers alone. */
  method NextBeside(join: LeftSemiJoin, ghost outputs: seq<array<Value>>, ghost numOutput: nat, ghost all: seq<bool>,
                    ghost delivered: nat)
    returns (chunk: Option<SemiJoinChunk>)
    requires join.Ready() && all == BitsOf(join) && delivered == DeliveredBy(join)
    requires Gathered(outputs, join.probe.columns, all, delivered, numOutput)
    modifies join
    ensures Pending(join, chunk, all, delivered)
    ensures Gathered(outputs, join.probe.columns, all, delivered, numOutput)
    ensures chunk.Some? ==> Undelivered(join) < old(Undelivered(join))
    ensures chunk.None? ==> Undelivered(join) == old(Undelivered(join))
  {
    hide *;
    assert forall i | 0 <= i < |outputs| :: join as object != outputs[i];
    chunk := NextChunk(join, all);
  }

  lemma ColumnsAreAsLong(join: LeftSemiJoin)
    requires join.Ready()
    ensures forall c | 0 <= c < |join.probe.columns| :: |join.probe.columns[c]| == Rows(join.probe.columns)
  {
    hide Holding;
    join.probe.ColumnsHaveRows();
  }

  lemma NothingGathered(outputs: seq<array<Value>>, columns: seq<seq<Value>>, all: seq<bool>)
    requires |outputs| <= |columns|
    ensures Gathered(outputs, columns, all, 0, 0)
  {
  }

  /** The same from chunks that were kept. */
  method GatherFromChunks(chunks: seq<SemiJoinChunk>, outputs: seq<array<Value>>, ghost columns: seq<seq<Value>>,
                          ghost all: seq<bool>)
    returns (numOutput: nat)
    requires DistinctBuffers(outputs) && |outputs| <= |columns|
    requires ChunksUpTo(chunks, columns, |outputs|, all, |all|)
    requires forall i | 0 <= i < |outputs| :: |columns[i]| == |all| && Ones(Negated(all)) <= outputs[i].Length
    modifies set i | 0 <= i < |outputs| :: outputs[i]
    ensures Gathered(outputs, columns, all, |all|, numOutput)
  {
    hide ChunkOf, Gathered, DistinctBuffers, Ones;
    NothingGathered(outputs, columns, all);
    numOutput := 0;
    ghost var delivered: nat := 0;
    for k := 0 to |chunks|
      invariant ChunksUpTo(chunks[..k], columns, |outputs|, all, delivered)
      invariant delivered == StartOf(chunks, k)
      invariant Gathered(outputs, columns, all, delivered, numOutput)
    {
      ChunkAt(chunks, columns, |outputs|, all, |all|, k);
      assert chunks[..k + 1][..k] == chunks[..k];
      numOutput := GatherChunk(chunks[k], outputs, numOutput, columns, all, delivered);
      delivered := delivered + chunks[k].bits.size;
    }
    ChunkAt(chunks, columns, |outputs|, all, |all|, |chunks|);
  }

  /** The row the k-th chunk starts at. */
  ghost function StartOf(chunks: seq<SemiJoinChunk>, k: nat): (n: nat)
    requires k <= |chunks|
  {
    if k == 0 then 0 else StartOf(chunks, k - 1) + chunks[k - 1].bits.size
  }

  lemma {:induction false} ChunkAt(chunks: seq<SemiJoinChunk>, columns: seq<seq<Value>>, numProjected: nat,
                                   all: seq<bool>, n: nat, k: nat)
    requires ChunksUpTo(chunks, columns, numProjected, all, n) && k <= |chunks|
    ensures StartOf(chunks, |chunks|) == n
    ensures k < |chunks| ==> ChunkOf(chunks[k], columns, numProjected, all, StartOf(chunks, k))
    ensures ChunksUpTo(chunks[..k], columns, numProjected, all, StartOf(chunks, k))
  {
    hide ChunkOf;
    if chunks != [] {
      var init, last := chunks[..|chunks| - 1], chunks[|chunks| - 1];
      ChunkAt(init, columns, numProjected, all, n - last.bits.size, if k < |init| then k else |init|);
      SameStart(chunks, init, if k < |init| then k else |init|);
      SameStart(chunks, init, |init|);
      assert k < |chunks| ==> chunks[..k] == init[..k];
      assert chunks[..|chunks|] == chunks;
    }
  }

  lemma {:induction false} SameStart(chunks: seq<SemiJoinChunk>, init: seq<SemiJoinChunk>, k: nat)
    requires init <= chunks && k <= |init|
    ensures StartOf(chunks, k) == StartOf(init, k)
  {
    if k > 0 {
      SameStart(chunks, init, k - 1);
    }
  }
}
