/** The operators behind CandidateLiteralEvaluator::Evaluate, put together:
    partitions, hash tables, joins, filters and counters
    (learner/CandidateLiteralEvaluator.cpp). */
module Pipeline {
  import opened Bits
  import opened RadixPartition
  import opened PartitionAssigner
  import opened HashTable
  import opened Tallies
  import opened HashJoin
  import opened JoinMeaning
  import opened ChunkStream
  import opened EvaluationPlan
  import opened CountAggregator

  /** Partitions of a column, where there are any, are those of Partition. */
  ghost predicate PartitionsOk(view: TableView, hash: Hash, numRadixBits: nat) {
    forall c | c in view.partitions && c < |view.columns| ::
      var job := Job(view.columns[c], hash, numRadixBits);
      |view.partitions[c]| == job.Count() &&
      forall p | 0 <= p < job.Count() :: view.partitions[c][p] == job.Bucket(p, |view.columns[c]|)
  }

  /** Partitions the columns that have no partitions yet. */
  method PartitionColumns(view: TableView, columnIds: seq<nat>, hash: Hash, numRadixBits: nat) returns (r: TableView)
    requires numRadixBits > 0 && PartitionsOk(view, hash, numRadixBits)
    requires forall g | 0 <= g < |columnIds| :: columnIds[g] < |view.columns|
    ensures r.columns == view.columns && PartitionsOk(r, hash, numRadixBits)
    ensures forall g | 0 <= g < |columnIds| :: columnIds[g] in r.partitions
  {
    hide Job.Bucket;
    r := view;
    for g := 0 to |columnIds|
      invariant r.columns == view.columns && PartitionsOk(r, hash, numRadixBits)
      invariant forall k | 0 <= k < g :: columnIds[k] in r.partitions
    {
      var c := columnIds[g];
      if c !in r.partitions {
        var partitions := Partition(r.columns[c], hash, numRadixBits);
        r := r.(partitions := r.partitions[c := partitions]);
      }
    }
  }

  /** One chained hash table per non-empty partition. */
  method BuildHashTableOnPartitions(partitions: seq<seq<PartitionTuple>>, hash: Hash, numRadixBits: nat)
    returns (tables: seq<Option<FoilHashTable>>)
    requires forall p | 0 <= p < |partitions| :: |partitions[p]| <= Pow2(30)
    ensures |tables| == |partitions|
    ensures forall p | 0 <= p < |partitions| && partitions[p] != [] ::
              tables[p].Some? && Indexes(tables[p].value, Values(partitions[p]), hash)
  {
    hide Indexes, IsLeastPow2, Pow2;
    tables := [];
    for p := 0 to |partitions|
      invariant |tables| == p
      invariant forall k | 0 <= k < p && partitions[k] != [] ::
                  tables[k].Some? && Indexes(tables[k].value, Values(partitions[k]), hash)
    {
      if |partitions[p]| == 0 {
        tables := tables + [None];
      } else {
        var table := BuildHashTable(Values(partitions[p]), hash, numRadixBits);
        tables := tables + [Some(table)];
      }
    }
  }

  /** Counters for every plan, all at zero. */
  method NewPlanStates(inputs: Inputs, plans: seq<seq<PredicateEvaluationPlan>>) returns (states: seq<seq<PlanState>>)
    requires PlansFit(inputs, plans)
    ensures |states| == |plans| && forall t | 0 <= t < |plans| :: |states[t]| == |plans[t]|
    ensures forall t, g | 0 <= t < |states| && 0 <= g < |states[t]| ::
              fresh(states[t][g]) && Blank(states[t][g], plans[t][g])
    ensures AllDistinct(states)
  {
    states := [];
    for t := 0 to |plans|
      invariant |states| == t && forall k | 0 <= k < t :: |states[k]| == |plans[k]|
      invariant forall k, g | 0 <= k < t && 0 <= g < |states[k]| ::
                  fresh(states[k][g]) && Blank(states[k][g], plans[k][g])
      invariant AllDistinct(states)
    {
      var row: seq<PlanState> := [];
      for g := 0 to |plans[t]|
        invariant |row| == g
        invariant forall k, h | 0 <= k < t && 0 <= h < |states[k]| ::
                    fresh(states[k][h]) && Blank(states[k][h], plans[k][h])
        invariant forall h | 0 <= h < g :: fresh(row[h]) && Blank(row[h], plans[t][h])
        invariant forall h, k, j | 0 <= h < g && 0 <= k < t && 0 <= j < |states[k]| :: row[h] != states[k][j]
        invariant forall h, j | 0 <= h < j < g :: row[h] != row[j]
      {
        var state := new PlanState(plans[t][g]);
        row := row + [state];
      }
      states := states + [row];
    }
  }

  ghost predicate Blank(state: PlanState, plan: PredicateEvaluationPlan)
    reads state
  {
    state.plan == plan && state.seen == [] && state.savedPartitionId == -1 && forall ctx :: state.Counted(ctx, [])
  }

  lemma BlankPlansOk(inputs: Inputs, states: seq<seq<PlanState>>, plans: seq<seq<PredicateEvaluationPlan>>)
    requires inputs.Valid() && |states| == |plans| && forall t | 0 <= t < |plans| :: |states[t]| == |plans[t]|
    requires forall t, g | 0 <= t < |states| && 0 <= g < |states[t]| :: Blank(states[t][g], plans[t][g])
    requires PlansFit(inputs, plans)
    ensures PlansOk(inputs, states, []) && SamePlans(states, plans)
  {
    hide PlanOk, PlanFits, Inputs.Valid, Inputs.Group, PlansFit, Blank;
    forall t, g | 0 <= t < |states| && 0 <= g < |states[t]|
      ensures inputs.Group(t, g) && PlanOk(inputs, states[t][g], t, g, []) && states[t][g].plan == plans[t][g]
    {
      FitsAt(inputs, plans, t, g);
      assert Blank(states[t][g], plans[t][g]);
      BlankPlanOk(inputs, states[t][g], plans[t][g], t, g);
    }
    ShapeFits(inputs, plans);
  }

  lemma FitsAt(inputs: Inputs, plans: seq<seq<PredicateEvaluationPlan>>, t: nat, g: nat)
    requires inputs.Valid() && PlansFit(inputs, plans) && t < |plans| && g < |plans[t]|
    ensures inputs.Group(t, g) && t < |inputs.atoms| && g < |inputs.atoms[t]|
            && PlanFits(plans[t][g], inputs.atoms[t][g])
  {
    hide PlanFits;
  }

  lemma ShapeFits(inputs: Inputs, plans: seq<seq<PredicateEvaluationPlan>>)
    requires PlansFit(inputs, plans)
    ensures |plans| == |inputs.work.tables| == |inputs.work.columnIds|
    ensures forall t | 0 <= t < |plans| :: |plans[t]| == |inputs.work.columnIds[t]|
  {
    hide PlanFits;
  }

  lemma BlankPlanOk(inputs: Inputs, state: PlanState, plan: PredicateEvaluationPlan, t: nat, g: nat)
    requires inputs.Valid() && inputs.Group(t, g) && Blank(state, plan) && PlanFits(plan, inputs.atoms[t][g])
    ensures PlanOk(inputs, state, t, g, []) && state.plan == plan
  {
    hide PlanState.Counted;
    NothingSeen(t, g, inputs.bindings);
  }

  ghost predicate PlanFits(plan: PredicateEvaluationPlan, atoms: seq<FilterAtom>) {
    plan.WellFormed() && plan.numAtoms == |atoms| && (plan.numAtoms == 0 ==> plan.nodes == [])
  }

  ghost predicate PlansFit(inputs: Inputs, plans: seq<seq<PredicateEvaluationPlan>>) {
    && |plans| == |inputs.work.tables| == |inputs.work.columnIds| == |inputs.atoms|
    && (forall t | 0 <= t < |plans| :: |plans[t]| == |inputs.work.columnIds[t]| == |inputs.atoms[t]|)
    && forall t, g | 0 <= t < |plans| && 0 <= g < |plans[t]| :: PlanFits(plans[t][g], inputs.atoms[t][g])
  }

  /** What the counters of a place must come to. */
  ghost predicate TallyCounts(t: Tally, pairs: set<Pair>, sel: Selection) {
    && t.bindings == |set q | q in pairs && sel(q)|
    && t.covered == |set q | q in pairs && sel(q) :: q.binding|
  }

  ghost predicate PlaceCounts(inputs: Inputs, plan: PredicateEvaluationPlan, t: nat, g: nat, place: nat,
                              positive: Tally, negative: Tally)
    requires inputs.Valid() && inputs.Group(t, g) && plan.WellFormed() && place <= |plan.nodes|
  {
    var pairs, ctx, atoms := inputs.Keys(t, g).EqualPairs(), inputs.Ctx(t, g), plan.PlaceAtoms(place);
    && (!inputs.run.OnlyNegative? ==> TallyCounts(positive, pairs, PositiveSel(ctx, atoms)))
    && (!inputs.run.OnlyPositive? ==> TallyCounts(negative, pairs, NegativeSel(ctx, atoms)))
  }

  /** After the whole stream the counters are those of the naive join. */
  lemma StreamCounts(inputs: Inputs, state: PlanState, t: nat, g: nat, place: nat)
    requires inputs.Valid() && inputs.Group(t, g) && PlanOk(inputs, state, t, g, inputs.work.PartitionsFrom(0))
    requires place <= |state.plan.nodes| && state.plan.HasLiteral(place)
    ensures |state.positive| == |state.negative| == |state.plan.nodes| + 1
    ensures PlaceCounts(inputs, state.plan, t, g, place, state.positive[place], state.negative[place])
  {
    hide SeenOf, Work.PartitionsFrom, TallyOk, PositiveSel, NegativeSel, KeyJoin.JoinedFrom;
    WholeStreamSeen(inputs.work, 0, t, g, inputs.bindings);
    var k := inputs.Keys(t, g);
    var ctx, ids := inputs.Ctx(t, g), inputs.BindingIds(state.savedPartitionId);
    assert state.CountedAt(ctx, ids, place, state.seen);
    if !inputs.run.OnlyNegative? {
      TallyMeansCardinality(k, state.positive[place], PositiveSel(ctx, state.plan.PlaceAtoms(place)), ids);
    }
    if !inputs.run.OnlyPositive? {
      TallyMeansCardinality(k, state.negative[place], NegativeSel(ctx, state.plan.PlaceAtoms(place)), ids);
    }
  }

  /** Some join group has a fact and a binding with equal keys. */
  ghost predicate SomePair(inputs: Inputs)
    requires inputs.Valid()
  {
    exists t, g :: inputs.Group(t, g) && inputs.Keys(t, g).EqualPairs() != {}
  }

  lemma SomePairJoins(inputs: Inputs)
    requires inputs.Valid()
    ensures SomePair(inputs) <==> SomethingJoins(inputs)
  {
    hide SeenOf, Work.PartitionsFrom, KeyJoin.JoinedFrom;
    forall t, g | inputs.Group(t, g)
      ensures SeenOf(inputs.work.PartitionsFrom(0), t, g, inputs.bindings) != []
              <==> inputs.Keys(t, g).EqualPairs() != {}
    {
      GroupJoins(inputs, t, g);
    }
    hide KeyJoin.EqualPairs;
    if SomethingJoins(inputs) {
      var t, g :| 0 <= t < |inputs.work.tables| && 0 <= g < |inputs.work.columnIds[t]|
                  && SeenOf(inputs.work.PartitionsFrom(0), t, g, inputs.bindings) != [];
      assert inputs.Group(t, g);
    }
  }

  lemma GroupJoins(inputs: Inputs, t: nat, g: nat)
    requires inputs.Valid() && inputs.Group(t, g)
    ensures SeenOf(inputs.work.PartitionsFrom(0), t, g, inputs.bindings) != [] <==> inputs.Keys(t, g).EqualPairs() != {}
  {
    hide SeenOf, Work.PartitionsFrom, KeyJoin.JoinedFrom;
    var k := inputs.Keys(t, g);
    WholeStreamSeen(inputs.work, 0, t, g, inputs.bindings);
    JoinedFromIsExact(k, 0);
    var stream, pairs := k.JoinedFrom(0), k.EqualPairs();
    assert forall q :: q in stream <==> q in pairs;
    hide *;
    if stream != [] {
      assert stream[0] in pairs;
    }
    if pairs != {} {
      var q :| q in pairs;
      assert q in stream;
    }
  }

  /** Runs one labelled or one-label pass over the whole work. */
  method CountLiterals(inputs: Inputs, plans: seq<seq<PredicateEvaluationPlan>>)
    returns (started: bool, positive: seq<seq<seq<Tally>>>, negative: seq<seq<seq<Tally>>>)
    requires inputs.Valid() && inputs.bindings.numRadixBits > 0 && |inputs.bindings.column| <= Pow2(30)
    requires PlansFit(inputs, plans)
    ensures started <==> SomePair(inputs)
    ensures started ==> AllCounts(inputs, plans, positive, negative)
  {
    hide *;
    var partitions := Partition(inputs.bindings.column, inputs.bindings.hash, inputs.bindings.numRadixBits);
    PartitionsAreSmall(inputs.bindings, partitions);
    var tables := BuildHashTableOnPartitions(partitions, inputs.bindings.hash, inputs.bindings.numRadixBits);
    TablesFit(inputs.bindings, partitions, tables);
    started, positive, negative := CountWithTables(inputs, plans, partitions, tables);
  }

  lemma PartitionsAreSmall(job: Job, partitions: seq<seq<PartitionTuple>>)
    requires |job.column| <= Pow2(30) && |partitions| == job.Count()
    requires forall p | 0 <= p < job.Count() :: partitions[p] == job.Bucket(p, |job.column|)
    ensures forall p | 0 <= p < |partitions| :: |partitions[p]| <= Pow2(30)
  {
  }

  /** Every literal of the plan has the counts of the naive join. */
  ghost predicate GroupCounts(inputs: Inputs, plan: PredicateEvaluationPlan, t: nat, g: nat, positive: seq<Tally>,
                              negative: seq<Tally>) {
    && inputs.Valid() && inputs.Group(t, g) && plan.WellFormed()
    && |positive| == |negative| == |plan.nodes| + 1
    && forall place | 0 <= place <= |plan.nodes| && plan.HasLiteral(place) ::
         PlaceCounts(inputs, plan, t, g, place, positive[place], negative[place])
  }

  ghost predicate AllCounts(inputs: Inputs, plans: seq<seq<PredicateEvaluationPlan>>,
                            positive: seq<seq<seq<Tally>>>, negative: seq<seq<seq<Tally>>>)
  {
    && |positive| == |negative| == |plans|
    && (forall t | 0 <= t < |plans| :: |positive[t]| == |negative[t]| == |plans[t]|)
    && forall t, g | 0 <= t < |plans| && 0 <= g < |plans[t]| ::
         GroupCounts(inputs, plans[t][g], t, g, positive[t][g], negative[t][g])
  }

  /** The partitions of the bindings and the hash tables over them. */
  ghost predicate TablesOk(job: Job, partitions: seq<seq<PartitionTuple>>, tables: seq<Option<FoilHashTable>>) {
    && |partitions| == |tables| == job.Count()
    && forall p | 0 <= p < |partitions| ::
         && partitions[p] == job.Bucket(p, |job.column|)
         && (partitions[p] != [] ==> tables[p].Some? && Indexes(tables[p].value, Values(partitions[p]), job.hash))
  }

  lemma TablesFit(job: Job, partitions: seq<seq<PartitionTuple>>, tables: seq<Option<FoilHashTable>>)
    requires |partitions| == job.Count() && forall p | 0 <= p < job.Count() ::
               partitions[p] == job.Bucket(p, |job.column|)
    requires |tables| == |partitions|
    requires forall p | 0 <= p < |partitions| && partitions[p] != [] ::
               tables[p].Some? && Indexes(tables[p].value, Values(partitions[p]), job.hash)
    ensures TablesOk(job, partitions, tables)
  {
    hide Indexes, Job.Bucket;
  }

  method NewFilter(inputs: Inputs, partitions: seq<seq<PartitionTuple>>, tables: seq<Option<FoilHashTable>>)
    returns (filter: Filter)
    requires inputs.Valid() && TablesOk(inputs.bindings, partitions, tables)
    ensures fresh(filter) && fresh(filter.hashJoin) && fresh(filter.hashJoin.assigner)
    ensures filter.For(inputs) && !filter.hashJoin.assigner.Finished() && filter.hashJoin.consumed == []
  {
    hide Job.Bucket, Indexes, Work.PartitionsFrom, Work.Rest;
    var assigner := new PartitionAssigner(inputs.work);
    var hashJoin := new HashJoin(assigner, inputs.bindings.column, inputs.bindings.hash,
                                 inputs.bindings.numRadixBits, partitions, tables);
    filter := new Filter(hashJoin, inputs.atoms, inputs.buildColumns);
  }

  method CountWithTables(inputs: Inputs, plans: seq<seq<PredicateEvaluationPlan>>,
                         partitions: seq<seq<PartitionTuple>>, tables: seq<Option<FoilHashTable>>)
    returns (started: bool, positive: seq<seq<seq<Tally>>>, negative: seq<seq<seq<Tally>>>)
    requires inputs.Valid()
    requires PlansFit(inputs, plans)
    requires TablesOk(inputs.bindings, partitions, tables)
    ensures started <==> SomePair(inputs)
    ensures started ==> AllCounts(inputs, plans, positive, negative)
  {
    hide *;
    var filter := NewFilter(inputs, partitions, tables);
    var states := NewPlanStates(inputs, plans);
    BlankPlansOk(inputs, states, plans);
    SomePairJoins(inputs);
    var aggregator := new CountAggregator(filter, states);
    started := aggregator.Execute(inputs);
    positive, negative := [], [];
    if started {
      positive, negative := Results(inputs, states, plans);
    }
  }

  /** Reads the counters off. */
  method Results(inputs: Inputs, states: seq<seq<PlanState>>, plans: seq<seq<PredicateEvaluationPlan>>)
    returns (positive: seq<seq<seq<Tally>>>, negative: seq<seq<seq<Tally>>>)
    requires inputs.Valid() && PlansOk(inputs, states, inputs.work.PartitionsFrom(0))
    requires SamePlans(states, plans)
    ensures AllCounts(inputs, plans, positive, negative)
  {
    hide GroupCounts, PlanOk, SeenOf, Work.PartitionsFrom, Inputs.Valid;
    positive, negative := [], [];
    for t := 0 to |states|
      invariant |positive| == |negative| == t
      invariant forall k | 0 <= k < t :: |positive[k]| == |negative[k]| == |plans[k]|
      invariant forall k, g | 0 <= k < t && 0 <= g < |plans[k]| ::
                  GroupCounts(inputs, plans[k][g], k, g, positive[k][g], negative[k][g])
    {
      var positiveRow: seq<seq<Tally>>, negativeRow: seq<seq<Tally>> := [], [];
      for g := 0 to |states[t]|
        invariant |positiveRow| == |negativeRow| == g
        invariant forall h | 0 <= h < g :: GroupCounts(inputs, plans[t][h], t, h, positiveRow[h], negativeRow[h])
      {
        GroupsInRange(inputs, states, t, g);
        StateCounts(inputs, states[t][g], t, g);
        positiveRow := positiveRow + [states[t][g].positive];
        negativeRow := negativeRow + [states[t][g].negative];
      }
      positive, negative := positive + [positiveRow], negative + [negativeRow];
    }
  }

  ghost predicate SamePlans(states: seq<seq<PlanState>>, plans: seq<seq<PredicateEvaluationPlan>>) {
    && |states| == |plans| && (forall t | 0 <= t < |plans| :: |states[t]| == |plans[t]|)
    && forall t, g | 0 <= t < |states| && 0 <= g < |states[t]| :: states[t][g].plan == plans[t][g]
  }

  lemma GroupsInRange(inputs: Inputs, states: seq<seq<PlanState>>, t: nat, g: nat)
    requires inputs.Valid() && PlansOk(inputs, states, inputs.work.PartitionsFrom(0)) && t < |states| && g < |states[t]|
    ensures inputs.Group(t, g) && PlanOk(inputs, states[t][g], t, g, inputs.work.PartitionsFrom(0))
  {
    hide Work.PartitionsFrom;
  }

  lemma StateCounts(inputs: Inputs, state: PlanState, t: nat, g: nat)
    requires inputs.Valid() && inputs.Group(t, g) && PlanOk(inputs, state, t, g, inputs.work.PartitionsFrom(0))
    ensures state.plan.WellFormed() && GroupCounts(inputs, state.plan, t, g, state.positive, state.negative)
  {
    hide PlaceCounts, Work.PartitionsFrom, SeenOf, PlanState.CountedAt;
    forall place | 0 <= place <= |state.plan.nodes| && state.plan.HasLiteral(place)
      ensures PlaceCounts(inputs, state.plan, t, g, place, state.positive[place], state.negative[place])
    {
      StreamCounts(inputs, state, t, g, place);
    }
  }
}
