/** The steps of a rule search: extending, accepting, saving and restoring
    clauses, and the examples that stay uncovered (learner/QuickFoil.cpp). */
module Learner {
  import opened Bits
  import opened RadixPartition
  import opened PartitionAssigner
  import opened HashTable
  import opened BitVectors
  import opened Tallies
  import opened Bindings
  import opened KeyColumns
  import opened MultiColumnJoin
  import opened BindingTables
  import opened SemiJoins
  import opened Coverage
  import opened Gather
  import opened Examples
  import opened FoilClauses
  import opened ClauseCoverage
  import opened UncoveredRows
  import opened SearchSteps

  /** A table of examples, shared by reference. */
  class ExampleTable {
    const columns: seq<seq<Value>>

    constructor (cs: seq<seq<Value>>)
      ensures columns == cs
    {
      columns := cs;
    }
  }

  class QuickFoilState {
    const isExtendedFromTiedLiteral: bool
    const buildingClause: Clause
    const data: BindingData
    const uncoveredPositiveData: ExampleTable

    constructor (tied: bool, clause: Clause, bindings: BindingData, uncovered: ExampleTable)
      ensures isExtendedFromTiedLiteral == tied && buildingClause == clause && data == bindings
              && uncoveredPositiveData == uncovered
    {
      isExtendedFromTiedLiteral, buildingClause, data, uncoveredPositiveData := tied, clause, bindings, uncovered;
    }
  }

  datatype TiedLiteralInfo = TiedLiteralInfo(literal: EvaluatedLiteral, state: QuickFoilState)

  /** States and saved literals by value. */
  ghost function ViewOf(s: QuickFoilState): (v: View) {
    View(s.buildingClause, s.data, s.uncoveredPositiveData.columns, s.isExtendedFromTiedLiteral)
  }

  ghost function SavedOf(infos: seq<TiedLiteralInfo>): (saved: seq<Saved>)
    ensures |saved| == |infos|
  {
    seq(|infos|, i requires 0 <= i < |infos| => Saved(infos[i].literal, ViewOf(infos[i].state)))
  }

  lemma SavedMore(infos: seq<TiedLiteralInfo>, literals: seq<EvaluatedLiteral>, s: QuickFoilState)
    ensures SavedOf(infos + InfosFor(literals, s)) == SavedOf(infos) + SavedWith(literals, ViewOf(s))
  {
  }

  lemma SavedLast(infos: seq<TiedLiteralInfo>, info: TiedLiteralInfo)
    ensures SavedOf(infos + [info]) == SavedOf(infos) + [Saved(info.literal, ViewOf(info.state))]
  {
  }

  // ---------------------------------------------------------------------
  // Invariants
  // ---------------------------------------------------------------------

  ghost predicate ExamplesOk(task: Task, columns: seq<seq<Value>>, learnt: seq<Clause>) {
    && |columns| == task.numArguments && Rectangular(columns)
    && RowsOf(columns) == Uncovered(task.bg, RowsOf(task.positives), learnt)
  }

  /** The binding tables of a state hold the bindings of its clause over the
      positives it started from and over all negatives. */
  ghost predicate TablesOf(task: Task, s: QuickFoilState) {
    && s.buildingClause.Valid() && s.buildingClause.numHead == task.numArguments
    && HasTable(task.bg, s.uncoveredPositiveData.columns, s.buildingClause, s.data.Positive())
    && HasTable(task.bg, task.negatives, s.buildingClause, s.data.Negative())
  }

  /** The state started from what the first k learnt clauses left uncovered. */
  ghost predicate StartedAfter(task: Task, s: QuickFoilState, learnt: seq<Clause>, k: nat) {
    k <= |learnt| && ExamplesOk(task, s.uncoveredPositiveData.columns, learnt[..k])
  }

  ghost predicate StateOk(task: Task, s: QuickFoilState, learnt: seq<Clause>) {
    TablesOf(task, s) && exists k: nat :: StartedAfter(task, s, learnt, k)
  }

  lemma StateStaysOk(task: Task, s: QuickFoilState, learnt: seq<Clause>, more: seq<Clause>)
    requires StateOk(task, s, learnt)
    ensures StateOk(task, s, learnt + more)
  {
    hide TablesOf, ExamplesOk;
    var k: nat :| StartedAfter(task, s, learnt, k);
    assert (learnt + more)[..k] == learnt[..k];
    assert StartedAfter(task, s, learnt + more, k);
  }

  /** Every saved state started from a table that contains all examples that are
      uncovered now, and a clause leaves at most as many of the uncovered ones as
      it leaves of that table. */
  lemma UncoveredWithinState(task: Task, s: QuickFoilState, learnt: seq<Clause>, global: seq<seq<Value>>, c: Clause)
    requires StateOk(task, s, learnt) && ExamplesOk(task, global, learnt)
    ensures multiset(RowsOf(global)) <= multiset(RowsOf(s.uncoveredPositiveData.columns))
    ensures Within(global, s.uncoveredPositiveData.columns)
    ensures |Uncovered(task.bg, RowsOf(global), [c])| <= |Uncovered(task.bg, RowsOf(s.uncoveredPositiveData.columns),
                                                                    [c])|
  {
    hide TablesOf, Uncovered, Covers, CoveredByAny;
    var k: nat :| StartedAfter(task, s, learnt, k);
    var large, start := s.uncoveredPositiveData.columns, RowsOf(task.positives);
    assert learnt == learnt[..k] + learnt[k..];
    UncoveredTwice(task.bg, start, learnt[..k], learnt[k..]);
    assert RowsOf(global) == Uncovered(task.bg, RowsOf(large), learnt[k..]);
    UncoveredIsPart(task.bg, RowsOf(large), learnt[k..]);
    FewerLeft(task.bg, RowsOf(large), learnt[k..], [c]);
    forall e | 0 <= e < Rows(global)
      ensures OccursIn(RowAt(global, e), large)
    {
      assert RowsOf(global)[e] in RowsOf(global);
      assert RowsOf(global)[e] in RowsOf(large);
      var e' :| 0 <= e' < |RowsOf(large)| && RowsOf(large)[e'] == RowsOf(global)[e];
      assert RowAt(large, e') == RowAt(global, e);
    }
  }

  /** Learning a clause shrinks the uncovered examples by those it covers. */
  lemma LearningStep(task: Task, learnt: seq<Clause>, c: Clause, before: seq<seq<Value>>, after: seq<seq<Value>>)
    requires ExamplesOk(task, before, learnt) && |after| == task.numArguments && Rectangular(after)
    requires RowsOf(after) == Uncovered(task.bg, RowsOf(before), [c])
    ensures ExamplesOk(task, after, learnt + [c])
  {
    UncoveredTwice(task.bg, RowsOf(task.positives), learnt, [c]);
  }

  // ---------------------------------------------------------------------
  // Adding a literal
  // ---------------------------------------------------------------------

  ghost predicate LiteralOk(task: Task, s: QuickFoilState, literal: EvaluatedLiteral) {
    CanAdd(task.bg, s.buildingClause, literal.pred, literal.variables)
  }

  lemma LiteralFitsTables(task: Task, s: QuickFoilState, literal: EvaluatedLiteral)
    requires TablesOf(task, s) && LiteralOk(task, s, literal)
    ensures Extendable(task.bg[literal.pred], s.data, literal.variables)
    ensures |s.data.Positive()| == |s.data.Negative()| == s.buildingClause.numVariables
  {
    hide BindingData.Positive, BindingData.Negative, HasTable, CanAdd, LiteralFits;
    LiteralFitsTable(task.bg, s.uncoveredPositiveData.columns, s.buildingClause, s.data.Positive(), literal.pred,
                     literal.variables);
    LiteralFitsTable(task.bg, task.negatives, s.buildingClause, s.data.Negative(), literal.pred, literal.variables);
  }

  lemma LiteralFitsTable(bg: Background, start: seq<seq<Value>>, c: Clause, columns: seq<seq<Value>>, pred: nat,
                         vars: Variables)
    requires HasTable(bg, start, c, columns) && CanAdd(bg, c, pred, vars)
    ensures pred < |bg| && LiteralFits(bg[pred], columns, vars) && |columns| == c.numVariables
  {
    var choices :| BindingTableOf(bg, start, c, columns, choices);
    TableShape(bg, start, c, columns, choices);
    hide BindingTableOf;
  }

  /** The two parts of the new table. */
  lemma NewTableParts(columns: seq<seq<Value>>, facts: seq<seq<Value>>, data: BindingData, vars: Variables,
                      positive: seq<Pair>, negative: seq<Pair>, numPositive: nat)
    requires IsBindingTable(columns, facts, data, vars, positive, negative) && |data.Positive()| == |data.Negative()|
    requires numPositive == |Witnesses(facts, data.Positive(), vars)|
    ensures IsJoinedTable(Consecutive(columns, numPositive).Positive(), facts, data.Positive(), vars, positive)
    ensures IsJoinedTable(Consecutive(columns, numPositive).Negative(), facts, data.Negative(), vars, negative)
  {
    var us, new_ := Unbound(vars, |vars|), Consecutive(columns, numPositive);
    EnumerationSize(positive, Witnesses(facts, data.Positive(), vars));
    hide Witnesses, Extended, Enumerated;
    forall c | 0 <= c < |columns|
      ensures new_.Positive()[c] == Extended(c, facts, data.Positive(), us, positive)
      ensures new_.Negative()[c] == Extended(c, facts, data.Negative(), us, negative)
    {
    }
  }

  /** The new state's tables are those of the extended clause. */
  lemma NewStateTables(task: Task, s: QuickFoilState, literal: EvaluatedLiteral, columns: seq<seq<Value>>,
                       positive: seq<Pair>, negative: seq<Pair>)
    requires TablesOf(task, s) && LiteralOk(task, s, literal)
    requires IsBindingTable(columns, task.bg[literal.pred], s.data, literal.variables, positive, negative)
    requires literal.numBindingPositive == |Witnesses(task.bg[literal.pred], s.data.Positive(), literal.variables)|
    ensures Added(s.buildingClause, literal.pred, literal.variables).Valid()
    ensures var c, data := Added(s.buildingClause, literal.pred, literal.variables),
            Consecutive(columns, literal.numBindingPositive);
            && HasTable(task.bg, s.uncoveredPositiveData.columns, c, data.Positive())
            && HasTable(task.bg, task.negatives, c, data.Negative())
  {
    var c := s.buildingClause;
    LiteralFitsTables(task, s, literal);
    AddedIsValid(c, literal.pred, literal.variables);
    NewTableParts(columns, task.bg[literal.pred], s.data, literal.variables, positive, negative,
                  literal.numBindingPositive);
    var pc :| BindingTableOf(task.bg, s.uncoveredPositiveData.columns, c, s.data.Positive(), pc);
    var nc :| BindingTableOf(task.bg, task.negatives, c, s.data.Negative(), nc);
    hide BindingTableOf, IsJoinedTable, BindingData.Positive, BindingData.Negative, IsBindingTable, Extendable;
    var data := Consecutive(columns, literal.numBindingPositive);
    var pc' := ExtensionKeepsTable(task.bg, s.uncoveredPositiveData.columns, c, literal.pred, literal.variables,
                                   s.data.Positive(), pc, data.Positive(), positive);
    var nc' := ExtensionKeepsTable(task.bg, task.negatives, c, literal.pred, literal.variables,
                                   s.data.Negative(), nc, data.Negative(), negative);
  }

  // ---------------------------------------------------------------------
  // Coverage of a state extended by a literal
  // ---------------------------------------------------------------------

  /** The bits of a coverage semi-join tell which examples the clause covers. */
  lemma CoverageBitsTell(task: Task, s: QuickFoilState, literal: EvaluatedLiteral, start: seq<seq<Value>>,
                         bindings: seq<seq<Value>>,
                         examples: seq<seq<Value>>)
    requires TablesOf(task, s) && LiteralOk(task, s, literal) && |start| == |examples| == task.numArguments
             && Rectangular(examples)
    requires HasTable(task.bg, start, s.buildingClause, bindings) && Within(examples, start)
    ensures BitsTell(task.bg, Added(s.buildingClause, literal.pred, literal.variables), examples,
                     CoveredBits(examples, bindings, task.bg[literal.pred], literal.variables, task.numArguments))
  {
    NumHead(task, s);
    hide *;
    CascadeTells(task.bg, start, s.buildingClause, literal.pred, literal.variables, bindings, examples);
  }

  lemma NumHead(task: Task, s: QuickFoilState)
    requires TablesOf(task, s)
    ensures s.buildingClause.numHead == task.numArguments && s.buildingClause.Valid()
  {
    hide Clause.Valid;
  }

  lemma WithinItself(columns: seq<seq<Value>>)
    ensures Within(columns, columns)
  {
  }

  /** The semi-joins of a state's bindings with the literal's facts. */
  ghost predicate CoverageFits(task: Task, s: QuickFoilState, literal: EvaluatedLiteral) {
    CoverageFitsData(task, s.data, literal)
  }

  ghost predicate CoverageFitsData(task: Task, data: BindingData, literal: EvaluatedLiteral) {
    && literal.pred < |task.bg|
    && OneChunkCoverage(task.bg[literal.pred], data.Positive(), task.semiJoinChunkSize)
    && OneChunkCoverage(task.bg[literal.pred], data.Negative(), task.semiJoinChunkSize)
  }

  /** The positive coverage table of a state and a literal. */
  ghost predicate IsCoverageTable(task: Task, s: QuickFoilState, literal: EvaluatedLiteral, table: FoilHashTable,
                                  slots: seq<int>) {
    && literal.pred < |task.bg| && LiteralFits(task.bg[literal.pred], s.data.Positive(), literal.variables)
    && PrefixSide(s.data.Positive(), task.numArguments).Valid()
    && Holding(table, PrefixSide(s.data.Positive(), task.numArguments).KeyRows(), task.hashing.OfKey(), slots,
               WitnessBits(task.bg[literal.pred], s.data.Positive(), literal.variables))
  }

  ghost function PositiveBits(task: Task, s: QuickFoilState, literal: EvaluatedLiteral,
                              examples: seq<seq<Value>>): (bits: seq<bool>)
    requires literal.pred < |task.bg|
    ensures |bits| == Rows(examples)
  {
    CoveredBits(examples, s.data.Positive(), task.bg[literal.pred], literal.variables, task.numArguments)
  }

  lemma ReadyToCover(task: Task, s: QuickFoilState, literal: EvaluatedLiteral)
    requires TablesOf(task, s) && LiteralOk(task, s, literal) && CoverageFits(task, s, literal)
    ensures LiteralFits(task.bg[literal.pred], s.data.Positive(), literal.variables)
    ensures LiteralFits(task.bg[literal.pred], s.data.Negative(), literal.variables)
    ensures 0 < task.numArguments <= |s.data.Positive()| && task.numArguments <= |s.data.Negative()|
    ensures OneChunkCoverage(task.bg[literal.pred], s.data.Positive(), task.semiJoinChunkSize)
    ensures OneChunkCoverage(task.bg[literal.pred], s.data.Negative(), task.semiJoinChunkSize)
  {
    LiteralFitsTables(task, s, literal);
    hide HasTable, BindingData.Positive, BindingData.Negative, LiteralFits, OneChunkCoverage, CanAdd;
  }

  /** Covered positives and negatives, counted by example. */
  method ComputeCoverageOnUncoveredData(task: Task, s: QuickFoilState, literal: EvaluatedLiteral)
    returns (table: FoilHashTable, numPositive: nat, numNegative: nat, chunks: seq<SemiJoinChunk>,
             ghost slots: seq<int>)
    requires task.Valid() && TablesOf(task, s) && LiteralOk(task, s, literal) && CoverageFits(task, s, literal)
    requires |s.uncoveredPositiveData.columns| == task.numArguments && Rectangular(s.uncoveredPositiveData.columns)
    ensures IsCoverageTable(task, s, literal, table, slots)
    ensures var bits := PositiveBits(task, s, literal, s.uncoveredPositiveData.columns);
            && numPositive == Ones(bits)
            && ChunksUpTo(chunks, s.uncoveredPositiveData.columns, task.numArguments, bits, |bits|)
    ensures numNegative
            == Ones(CoveredBits(task.negatives, s.data.Negative(), task.bg[literal.pred], literal.variables,
                                task.numArguments))
  {
    ReadyToCover(task, s, literal);
    TaskShape(task);
    hide *;
    var facts, vars, n := task.bg[literal.pred], literal.variables, task.numArguments;
    var positives, negatives := s.data.Positive(), s.data.Negative();
    var factTable: Option<FoilHashTable>;
    table, factTable, slots :=
      BuildCoverageTable(positives, facts, vars, n, None, task.hashing, task.semiJoinChunkSize);
    numPositive, chunks := CountWith(task, s.uncoveredPositiveData.columns, positives, facts, vars, table, slots);
    TableIsCoverage(task, s, literal, table, slots);
    ghost var negativeSlots: seq<int>;
    var negativeTable: FoilHashTable;
    negativeTable, factTable, negativeSlots :=
      BuildCoverageTable(negatives, facts, vars, n, factTable, task.hashing, task.semiJoinChunkSize);
    var negativeChunks: seq<SemiJoinChunk>;
    numNegative, negativeChunks :=
      CountWith(task, task.negatives, negatives, facts, vars, negativeTable, negativeSlots);
    BitsArePositive(task, s, literal, s.uncoveredPositiveData.columns);
  }

  lemma TaskShape(task: Task)
    requires task.Valid()
    ensures task.semiJoinChunkSize > 0 && task.numArguments > 0
    ensures |task.negatives| == task.numArguments && Rectangular(task.negatives)
  {
  }

  lemma TableIsCoverage(task: Task, s: QuickFoilState, literal: EvaluatedLiteral, table: FoilHashTable, slots: seq<int>)
    requires literal.pred < |task.bg| && LiteralFits(task.bg[literal.pred], s.data.Positive(), literal.variables)
    requires PrefixSide(s.data.Positive(), task.numArguments).Valid()
    requires Holding(table, PrefixSide(s.data.Positive(), task.numArguments).KeyRows(), task.hashing.OfKey(), slots,
                     WitnessBits(task.bg[literal.pred], s.data.Positive(), literal.variables))
    ensures IsCoverageTable(task, s, literal, table, slots)
  {
    hide Holding, LiteralFits, PrefixSide, WitnessBits;
  }

  lemma BitsArePositive(task: Task, s: QuickFoilState, literal: EvaluatedLiteral, examples: seq<seq<Value>>)
    requires literal.pred < |task.bg|
    ensures PositiveBits(task, s, literal, examples)
         == CoveredBits(examples, s.data.Positive(), task.bg[literal.pred], literal.variables, task.numArguments)
  {
  }

  /** Counts the examples that a coverage table covers. */
  method CountWith(task: Task, examples: seq<seq<Value>>, bindings: seq<seq<Value>>, facts: seq<seq<Value>>,
                   vars: Variables,
                   table: FoilHashTable, ghost slots: seq<int>)
    returns (numCovered: nat, chunks: seq<SemiJoinChunk>)
    requires LiteralFits(facts, bindings, vars) && Rectangular(examples) && 0 < task.numArguments == |examples|
    requires task.numArguments <= |bindings| && task.semiJoinChunkSize > 0
             && PrefixSide(bindings, task.numArguments).Valid()
    requires Holding(table, PrefixSide(bindings, task.numArguments).KeyRows(), task.hashing.OfKey(), slots,
                     WitnessBits(facts, bindings, vars))
    ensures var bits := CoveredBits(examples, bindings, facts, vars, task.numArguments);
            numCovered == Ones(bits) && ChunksUpTo(chunks, examples, task.numArguments, bits, |bits|)
  {
    hide LiteralFits, Rectangular, Holding, JoinSide.Valid, JoinSide.KeyRows, WitnessBits, CoveredBits, PrefixSide,
        ChunksUpTo, Ones,
      LeftSemiJoin.Ready, PartnerBits;
    var join := NewCoverageSemiJoin(examples, bindings, table, task.numArguments, task.hashing, task.semiJoinChunkSize,
                                    slots, facts, vars);
    numCovered, chunks := CountCovered(join);
  }

  // ---------------------------------------------------------------------
  // Accepting a clause
  // ---------------------------------------------------------------------

  /** What of these examples the clause leaves fits into what it leaves of the
      state's own examples. */
  lemma BufferSuffices(task: Task, s: QuickFoilState, literal: EvaluatedLiteral, learnt: seq<Clause>,
                       global: seq<seq<Value>>)
    requires StateOk(task, s, learnt) && LiteralOk(task, s, literal) && ExamplesOk(task, global, learnt)
    ensures Ones(Negated(PositiveBits(task, s, literal, global))) <= Ones(Negated(PositiveBits(task, s, literal,
        s.uncoveredPositiveData.columns)))
    ensures BitsTell(task.bg, Added(s.buildingClause, literal.pred, literal.variables), global,
                     PositiveBits(task, s, literal, global))
  {
    var local := s.uncoveredPositiveData.columns;
    var c := Added(s.buildingClause, literal.pred, literal.variables);
    StateShape(task, s, learnt);
    ExamplesShape(task, global, learnt);
    UncoveredWithinState(task, s, learnt, global, c);
    WithinItself(local);
    hide *;
    BitsArePositive(task, s, literal, global);
    BitsArePositive(task, s, literal, local);
    CoverageBitsTell(task, s, literal, local, s.data.Positive(), global);
    CoverageBitsTell(task, s, literal, local, s.data.Positive(), local);
    WholeSelection(task.bg, c, global, PositiveBits(task, s, literal, global));
    WholeSelection(task.bg, c, local, PositiveBits(task, s, literal, local));
  }

  lemma StateShape(task: Task, s: QuickFoilState, learnt: seq<Clause>)
    requires StateOk(task, s, learnt)
    ensures TablesOf(task, s) && HasTable(task.bg, s.uncoveredPositiveData.columns, s.buildingClause, s.data.Positive())
    ensures |s.uncoveredPositiveData.columns| == task.numArguments && Rectangular(s.uncoveredPositiveData.columns)
    ensures forall i | 0 <= i < |s.uncoveredPositiveData.columns| ::
              |s.uncoveredPositiveData.columns[i]| == Rows(s.uncoveredPositiveData.columns)
  {
    hide HasTable, Uncovered;
    var columns := s.uncoveredPositiveData.columns;
    assert forall i | 0 <= i < |columns| :: columns[i] in columns;
  }

  lemma ExamplesShape(task: Task, columns: seq<seq<Value>>, learnt: seq<Clause>)
    requires ExamplesOk(task, columns, learnt)
    ensures |columns| == task.numArguments && Rectangular(columns)
    ensures forall i | 0 <= i < |columns| :: |columns[i]| == Rows(columns)
  {
    hide Uncovered;
    assert forall i | 0 <= i < |columns| :: columns[i] in columns;
  }

  /** The gathered columns are the next global table. */
  lemma GatheredIsNext(task: Task, s: QuickFoilState, literal: EvaluatedLiteral, learnt: seq<Clause>,
                       global: seq<seq<Value>>, after: seq<seq<Value>>)
    requires task.Valid() && StateOk(task, s, learnt) && LiteralOk(task, s, literal) && ExamplesOk(task, global, learnt)
    requires |after| == |global|
    requires forall i | 0 <= i < |after| ::
               after[i] == Selected(global[i], Negated(PositiveBits(task, s, literal, global)))
    ensures ExamplesOk(task, after, learnt + [Added(s.buildingClause, literal.pred, literal.variables)])
  {
    var c := Added(s.buildingClause, literal.pred, literal.variables);
    BufferSuffices(task, s, literal, learnt, global);
    ExamplesShape(task, global, learnt);
    assert |global| > 0;
    hide StateOk, CanAdd, ExamplesOk, BitsTell, Selected, Negated, Ones, Uncovered, PositiveBits;
    RowsLeft(task.bg, c, global, PositiveBits(task, s, literal, global), after);
    LearningStep(task, learnt, c, global, after);
  }

  /** Copies the examples that the extended clause leaves uncovered into buffers
      sized from the state's own examples. */
  method RemainingExamples(task: Task, s: QuickFoilState, literal: EvaluatedLiteral, global: ExampleTable,
                           table: FoilHashTable,
                           chunks: seq<SemiJoinChunk>, numCovered: nat, ghost slots: seq<int>,
                               ghost learnt: seq<Clause>)
    returns (columns: seq<seq<Value>>)
    requires task.Valid() && StateOk(task, s, learnt) && LiteralOk(task, s, literal)
             && ExamplesOk(task, global.columns, learnt)
    requires IsCoverageTable(task, s, literal, table, slots)
    requires var bits := PositiveBits(task, s, literal, s.uncoveredPositiveData.columns);
             && numCovered == Ones(bits)
             && ChunksUpTo(chunks, s.uncoveredPositiveData.columns, task.numArguments, bits, |bits|)
    ensures |columns| == |global.columns|
    ensures forall i | 0 <= i < |columns| ::
              columns[i] == Selected(global.columns[i], Negated(PositiveBits(task, s, literal, global.columns)))
  {
    StateShape(task, s, learnt);
    ExamplesShape(task, global.columns, learnt);
    BufferSuffices(task, s, literal, learnt, global.columns);
    OnesNegated(PositiveBits(task, s, literal, s.uncoveredPositiveData.columns));
    assert |PositiveBits(task, s, literal, s.uncoveredPositiveData.columns)| == Rows(s.uncoveredPositiveData.columns);
    hide *;
    var uncoveredNumTuples := Rows(s.uncoveredPositiveData.columns) - numCovered;
    var outputs, page := NewBuffers(task.numArguments, uncoveredNumTuples);
    BuffersHaveLength(outputs, page, uncoveredNumTuples);
    var numOutput: nat;
    if s.uncoveredPositiveData != global {
      numOutput := GatherFromTable(task, s, literal, global.columns, table, outputs, slots);
    } else {
      numOutput := GatherFromChunks(chunks, outputs, global.columns, PositiveBits(task, s, literal, global.columns));
    }
    columns := FirstRows(outputs, numOutput, global.columns, PositiveBits(task, s, literal, global.columns));
  }

  method GatherFromTable(task: Task, s: QuickFoilState, literal: EvaluatedLiteral, global: seq<seq<Value>>,
                         table: FoilHashTable,
                         outputs: seq<array<Value>>, ghost slots: seq<int>)
    returns (numOutput: nat)
    requires task.Valid() && TablesOf(task, s) && IsCoverageTable(task, s, literal, table, slots)
    requires |global| == task.numArguments == |outputs| && Rectangular(global) && DistinctBuffers(outputs)
    requires forall i | 0 <= i < |outputs| :: Ones(Negated(PositiveBits(task, s, literal, global))) <= outputs[i].Length
    modifies set i | 0 <= i < |outputs| :: outputs[i]
    ensures var bits := PositiveBits(task, s, literal, global);
            Gathered(outputs, global, bits, |bits|, numOutput)
  {
    hide *;
    var join := NewPositiveSemiJoin(task, s, literal, global, table, slots);
    numOutput := GatherUncovered(join, outputs);
  }

  method NewPositiveSemiJoin(task: Task, s: QuickFoilState, literal: EvaluatedLiteral, global: seq<seq<Value>>,
                             table: FoilHashTable,
                             ghost slots: seq<int>)
    returns (join: LeftSemiJoin)
    requires task.Valid() && TablesOf(task, s) && IsCoverageTable(task, s, literal, table, slots)
    requires |global| == task.numArguments && Rectangular(global)
    ensures fresh(join) && join.Ready() && join.curProbeOffset == 0 && join.numProjected == task.numArguments
            && join.probe.columns == global
    ensures BitsOf(join) == PositiveBits(task, s, literal, global)
  {
    CoverageTableFits(task, s, literal, table, slots);
    hide *;
    BitsArePositive(task, s, literal, global);
    join := NewCoverageSemiJoin(global, s.data.Positive(), table, task.numArguments, task.hashing,
                                task.semiJoinChunkSize,
                                slots, task.bg[literal.pred], literal.variables);
  }

  lemma CoverageTableFits(task: Task, s: QuickFoilState, literal: EvaluatedLiteral, table: FoilHashTable,
                          slots: seq<int>)
    requires task.Valid() && TablesOf(task, s) && IsCoverageTable(task, s, literal, table, slots)
    ensures literal.pred < |task.bg| && LiteralFits(task.bg[literal.pred], s.data.Positive(), literal.variables)
    ensures 0 < task.numArguments <= |s.data.Positive()| && task.semiJoinChunkSize > 0
    ensures PrefixSide(s.data.Positive(), task.numArguments).Valid()
    ensures Holding(table, PrefixSide(s.data.Positive(), task.numArguments).KeyRows(), task.hashing.OfKey(), slots,
                    WitnessBits(task.bg[literal.pred], s.data.Positive(), literal.variables))
  {
    hide Holding, LiteralFits, WitnessBits, BindingData.Positive;
    var pc :| BindingTableOf(task.bg, s.uncoveredPositiveData.columns, s.buildingClause, s.data.Positive(), pc);
    TableShape(task.bg, s.uncoveredPositiveData.columns, s.buildingClause, s.data.Positive(), pc);
    hide BindingTableOf, PrefixSide, HasTable;
  }

  // ---------------------------------------------------------------------
  // The learner
  // ---------------------------------------------------------------------

  /** The counts of the literal are those of the naive join with the state's
      bindings, as the evaluator reports them, and there is something to hash. */
  ghost predicate Evaluated(task: Task, s: QuickFoilState, literal: EvaluatedLiteral) {
    EvaluatedOn(task, s.buildingClause, s.data, literal)
  }

  ghost predicate EvaluatedOn(task: Task, c: Clause, data: BindingData, literal: EvaluatedLiteral) {
    && CanAdd(task.bg, c, literal.pred, literal.variables) && HashTablesFit(task.bg[literal.pred], data)
    && literal.numBindingPositive == |Witnesses(task.bg[literal.pred], data.Positive(), literal.variables)|
    && literal.numBindingNegative == |Witnesses(task.bg[literal.pred], data.Negative(), literal.variables)|
  }

  lemma InitialStateOk(task: Task, s: QuickFoilState, learnt: seq<Clause>)
    requires task.Valid() && ExamplesOk(task, s.uncoveredPositiveData.columns, learnt)
    requires s.buildingClause == Clause(task.numArguments, [], task.numArguments)
    requires s.data.Positive() == s.uncoveredPositiveData.columns && s.data.Negative() == task.negatives
    ensures StateOk(task, s, learnt)
  {
    hide ExamplesOk, BindingData.Positive, BindingData.Negative, BindingTableOf, Rectangular;
    ExamplesShape(task, s.uncoveredPositiveData.columns, learnt);
    var pc := StartingTable(task.bg, s.uncoveredPositiveData.columns);
    var nc := StartingTable(task.bg, task.negatives);
    assert learnt[..|learnt|] == learnt;
    assert StartedAfter(task, s, learnt, |learnt|);
  }

  lemma ExtendedStateOk(task: Task, s: QuickFoilState, s': QuickFoilState, literal: EvaluatedLiteral,
                        learnt: seq<Clause>,
                        columns: seq<seq<Value>>, positive: seq<Pair>, negative: seq<Pair>)
    requires StateOk(task, s, learnt) && Evaluated(task, s, literal)
    requires IsBindingTable(columns, task.bg[literal.pred], s.data, literal.variables, positive, negative)
    requires s'.buildingClause == Added(s.buildingClause, literal.pred, literal.variables)
    requires s'.data == Consecutive(columns, literal.numBindingPositive)
             && s'.uncoveredPositiveData == s.uncoveredPositiveData
    ensures StateOk(task, s', learnt)
  {
    hide HasTable, IsBindingTable, ExamplesOk, CanAdd, Clause.Valid, Witnesses, HashTablesFit, BindingData.Positive,
        BindingData.Negative;
    NewStateTables(task, s, literal, columns, positive, negative);
    var k: nat :| StartedAfter(task, s, learnt, k);
    assert StartedAfter(task, s', learnt, k);
  }

  ghost function InfosFor(literals: seq<EvaluatedLiteral>, state: QuickFoilState): (infos: seq<TiedLiteralInfo>) {
    seq(|literals|, i requires 0 <= i < |literals| => TiedLiteralInfo(literals[i], state))
  }

  /** A saved literal was evaluated on the state it is saved with. */
  ghost predicate TiedLiteralOk(task: Task, info: TiedLiteralInfo, learnt: seq<Clause>) {
    StateOk(task, info.state, learnt) && Evaluated(task, info.state, info.literal)
    && CoverageFits(task, info.state, info.literal)
  }

  ghost predicate AllEvaluated(task: Task, s: QuickFoilState, literals: seq<EvaluatedLiteral>) {
    forall l | l in literals :: Evaluated(task, s, l) && CoverageFits(task, s, l)
  }

  ghost predicate TiedOk(task: Task, infos: seq<TiedLiteralInfo>, learnt: seq<Clause>) {
    forall i | 0 <= i < |infos| :: TiedLiteralOk(task, infos[i], learnt)
  }

  /** Extends a state by a literal. */
  method ExtendState(task: Task, s: QuickFoilState, literal: EvaluatedLiteral, isTiedLiteral: bool,
                     ghost learnt: seq<Clause>)
    returns (state: QuickFoilState)
    requires task.Valid() && StateOk(task, s, learnt) && Evaluated(task, s, literal)
    ensures fresh(state) && StateOk(task, state, learnt)
    ensures state.buildingClause == Added(s.buildingClause, literal.pred, literal.variables)
    ensures state.uncoveredPositiveData == s.uncoveredPositiveData
    ensures state.isExtendedFromTiedLiteral == (isTiedLiteral || s.isExtendedFromTiedLiteral)
    ensures Extends(task, ViewOf(s), literal, isTiedLiteral, ViewOf(state))
  {
    hide *;
    StateShape(task, s, learnt);
    CanExtend(task, s, literal);
    var columns, positive, negative :=
      CreateLabelAwareBindingTables(task.bg[literal.pred], s.data, literal.variables, literal.numBindingPositive,
                                    literal.numBindingNegative,
                                    task.hashing, task.joinChunkSize);
    var clause := new FoilClause.Copy(s.buildingClause);
    clause.AddUnBoundBodyLiteral(literal.pred, literal.variables);
    state := new QuickFoilState(isTiedLiteral || s.isExtendedFromTiedLiteral, clause.Value(),
                                Consecutive(columns, literal.numBindingPositive), s.uncoveredPositiveData);
    ExtendedStateOk(task, s, state, literal, learnt, columns, positive, negative);
    ExtendsState(task, s, literal, isTiedLiteral, state, columns);
  }

  lemma ExtendsState(task: Task, s: QuickFoilState, literal: EvaluatedLiteral, isTied: bool, s': QuickFoilState,
                     columns: seq<seq<Value>>)
    requires literal.pred < |task.bg| && HoldsBindings(columns, task.bg[literal.pred], s.data, literal.variables)
    requires s'.buildingClause == Added(s.buildingClause, literal.pred, literal.variables)
    requires s'.uncoveredPositiveData == s.uncoveredPositiveData
    requires s'.isExtendedFromTiedLiteral == (isTied || s.isExtendedFromTiedLiteral)
    requires s'.data == Consecutive(columns, literal.numBindingPositive)
    ensures Extends(task, ViewOf(s), literal, isTied, ViewOf(s'))
  {
    hide HoldsBindings, Added;
  }

  /** Tests a state extended by a literal, and gathers what it would leave. */
  method TryClause(task: Task, s: QuickFoilState, literal: EvaluatedLiteral, accept: Acceptance, global: ExampleTable,
                   ghost learnt: seq<Clause>)
    returns (accepted: bool, columns: seq<seq<Value>>)
    requires task.Valid() && StateOk(task, s, learnt) && LiteralOk(task, s, literal) && CoverageFits(task, s, literal)
    requires ExamplesOk(task, global.columns, learnt)
    ensures accepted == Acceptable(task, s, literal, accept)
    ensures accepted ==> literal.pred < |task.bg| && |columns| == |global.columns| && forall i | 0 <= i < |columns| ::
              columns[i] == Selected(global.columns[i], Negated(PositiveBits(task, s, literal, global.columns)))
  {
    StateShape(task, s, learnt);
    assert literal.pred < |task.bg|;
    hide *;
    columns := [];
    var table, numPositive, numNegative, chunks, slots := ComputeCoverageOnUncoveredData(task, s, literal);
    CountsAreExamples(task, s, literal, learnt);
    AcceptableIs(task, s, literal, accept);
    accepted := accept(numPositive, numNegative, Rows(s.uncoveredPositiveData.columns));
    if accepted {
      columns := RemainingExamples(task, s, literal, global, table, chunks, numPositive, slots, learnt);
    }
  }

  lemma AcceptableIs(task: Task, s: QuickFoilState, literal: EvaluatedLiteral, accept: Acceptance)
    ensures var c := Added(s.buildingClause, literal.pred, literal.variables);
            Acceptable(task, s, literal, accept)
            == accept(NumCovered(task.bg, RowsOf(s.uncoveredPositiveData.columns), c),
                      NumCovered(task.bg, RowsOf(task.negatives), c),
                      Rows(s.uncoveredPositiveData.columns))
  {
  }

  class QuickFoil {
    const task: Task
    var globalUncoveredPositiveData: ExampleTable
    var buildingState: QuickFoilState?
    var tiedLiteralInfos: seq<TiedLiteralInfo>
    var learntClauses: seq<Clause>

    /** The uncovered positives are exactly those covered by no learnt clause, and
        every state, current or saved, has the binding tables of its clause. */
    ghost predicate Valid()
      reads this
    {
      && task.Valid()
      && ExamplesOk(task, globalUncoveredPositiveData.columns, learntClauses)
      && (buildingState != null ==> StateOk(task, buildingState, learntClauses))
      && TiedOk(task, tiedLiteralInfos, learntClauses)
    }

    ghost function BuildingView(): (v: Option<View>)
      reads this
    {
      if buildingState == null then None else Some(ViewOf(buildingState))
    }

    /** The learner's state by value. */
    ghost function Now(phase: Phase, step: nat, passes: nat): (c: Config)
      reads this
    {
      Config(phase, BuildingView(), SavedOf(tiedLiteralInfos), learntClauses, step, passes)
    }

    constructor (t: Task, factTable: seq<seq<Value>>, numTrueFacts: nat)
      requires t.Valid() && Rows(t.negatives) > 0
      requires t.positives == Consecutive(factTable, numTrueFacts).Positive()
               && t.negatives == Consecutive(factTable, numTrueFacts).Negative()
      ensures Valid() && task == t && learntClauses == [] && tiedLiteralInfos == []
      ensures buildingState != null && buildingState.uncoveredPositiveData == globalUncoveredPositiveData
      ensures globalUncoveredPositiveData.columns == t.positives
      ensures buildingState.buildingClause == Clause(t.numArguments, [], t.numArguments)
      ensures !buildingState.isExtendedFromTiedLiteral
    {
      hide StateOk, ExamplesOk, TiedOk, Task.Valid, BindingData.Positive, BindingData.Negative;
      task := t;
      tiedLiteralInfos, learntClauses := [], [];
      NothingLearntYet(t);
      var examples := new ExampleTable(t.positives);
      globalUncoveredPositiveData := examples;
      var state := FirstState(t, factTable, numTrueFacts, examples);
      buildingState := state;
    }

    lemma ValidMeans()
      requires Valid() && buildingState != null
      ensures task.Valid() && StateOk(task, buildingState, learntClauses)
              && ExamplesOk(task, globalUncoveredPositiveData.columns, learntClauses)
    {
    }

    /** A fresh clause over what is uncovered now. */
    method CreateMostGeneralBuildingClause()
      requires Valid()
      modifies this`buildingState
      ensures Valid() && buildingState != null
      ensures buildingState.buildingClause == Clause(task.numArguments, [], task.numArguments)
      ensures buildingState.uncoveredPositiveData == globalUncoveredPositiveData
      ensures MostGeneral(task, ViewOf(buildingState), learntClauses)
    {
      ExamplesAre();
      assert |globalUncoveredPositiveData.columns| == task.numArguments;
      hide StateOk, ExamplesOk, Uncovered;
      var clause := Clause(task.numArguments, [], task.numArguments);
      var state := new QuickFoilState(false, clause, Separate(globalUncoveredPositiveData.columns, task.negatives),
                                      globalUncoveredPositiveData);
      InitialStateOk(task, state, learntClauses);
      buildingState := state;
    }

    /** Extends the clause and its binding tables. */
    method AddLiteralToBuildingClause(literal: EvaluatedLiteral, isTiedLiteral: bool)
      requires Valid() && buildingState != null && Evaluated(task, buildingState, literal)
      modifies this`buildingState
      ensures Valid() && buildingState != null
      ensures buildingState.buildingClause == Added(old(buildingState).buildingClause, literal.pred, literal.variables)
      ensures buildingState.uncoveredPositiveData == old(buildingState).uncoveredPositiveData
      ensures buildingState.isExtendedFromTiedLiteral == (isTiedLiteral || old(buildingState).isExtendedFromTiedLiteral)
      ensures Extends(task, ViewOf(old(buildingState)), literal, isTiedLiteral, ViewOf(buildingState))
    {
      hide StateOk, ExamplesOk, Evaluated, TiedOk, Extends;
      buildingState := ExtendState(task, buildingState, literal, isTiedLiteral, learntClauses);
    }

    /** Accepts the extended clause if it is precise enough: it is learnt, and the
        examples it covers are no longer uncovered. */
    method AddBuildingClauseWithNewLiteral(literal: EvaluatedLiteral, accept: Acceptance) returns (added: bool)
      requires Valid() && buildingState != null && LiteralOk(task, buildingState, literal)
      requires CoverageFits(task, buildingState, literal)
      modifies this`globalUncoveredPositiveData, this`learntClauses
      ensures Valid()
      ensures !added
              ==> learntClauses == old(learntClauses) && globalUncoveredPositiveData == old(globalUncoveredPositiveData)
      ensures added
              ==> learntClauses
                  == old(learntClauses) + [Added(old(buildingState).buildingClause, literal.pred, literal.variables)]
      ensures added == Acceptable(task, old(buildingState), literal, accept)
    {
      hide *;
      ValidMeans();
      var columns: seq<seq<Value>>;
      added, columns := TryClause(task, buildingState, literal, accept, globalUncoveredPositiveData, learntClauses);
      if added {
        LearnClause(buildingState, literal, columns);
      }
    }

    method LearnClause(s: QuickFoilState, literal: EvaluatedLiteral, columns: seq<seq<Value>>)
      requires Valid() && StateOk(task, s, learntClauses) && LiteralOk(task, s, literal)
      requires |columns| == |globalUncoveredPositiveData.columns|
      requires forall i | 0 <= i < |columns| ::
                 columns[i] == Selected(globalUncoveredPositiveData.columns[i],
                                        Negated(PositiveBits(task, s, literal, globalUncoveredPositiveData.columns)))
      modifies this`globalUncoveredPositiveData, this`learntClauses
      ensures Valid()
      ensures learntClauses == old(learntClauses) + [Added(s.buildingClause, literal.pred, literal.variables)]
      ensures RowsOf(globalUncoveredPositiveData.columns)
              == Uncovered(task.bg, RowsOf(old(globalUncoveredPositiveData.columns)),
                           [Added(s.buildingClause, literal.pred, literal.variables)])
    {
      hide StateOk, ExamplesOk, TiedOk, CanAdd, Selected, Negated, PositiveBits, Uncovered;
      ghost var c := Added(s.buildingClause, literal.pred, literal.variables);
      ghost var learnt, before := learntClauses, globalUncoveredPositiveData.columns;
      GatheredIsNext(task, s, literal, learnt, before, columns);
      LeftIsUncovered(task, learnt, c, before, columns);
      if buildingState != null {
        StateStaysOk(task, buildingState, learnt, [c]);
      }
      TiedStayOk(task, tiedLiteralInfos, learnt, [c]);
      globalUncoveredPositiveData := new ExampleTable(columns);
      var clause := new FoilClause.Copy(s.buildingClause);
      clause.AddUnBoundBodyLiteral(literal.pred, literal.variables);
      learntClauses := learntClauses + [clause.Value()];
    }

    /** Saves further literals to come back to, with the state they extend. */
    method SaveTiedLiterals(literals: seq<EvaluatedLiteral>)
      requires Valid() && buildingState != null
      requires AllEvaluated(task, buildingState, literals)
      modifies this`tiedLiteralInfos
      ensures Valid() && tiedLiteralInfos == old(tiedLiteralInfos) + InfosFor(literals, buildingState)
    {
      ghost var before := tiedLiteralInfos;
      hide StateOk, ExamplesOk, TiedOk, Evaluated, CoverageFits;
      for i := 0 to |literals|
        invariant Valid() && tiedLiteralInfos == before + InfosFor(literals[..i], buildingState)
      {
        TiedOneMore(task, tiedLiteralInfos, TiedLiteralInfo(literals[i], buildingState), learntClauses);
        assert InfosFor(literals[..i + 1], buildingState)
               == InfosFor(literals[..i], buildingState) + [TiedLiteralInfo(literals[i], buildingState)];
        tiedLiteralInfos := tiedLiteralInfos + [TiedLiteralInfo(literals[i], buildingState)];
      }
      assert literals[..|literals|] == literals;
    }

    /** Takes the last saved literal back, with its state. */
    method RestoreTiedLiteral() returns (literal: EvaluatedLiteral)
      requires Valid() && tiedLiteralInfos != []
      modifies this`tiedLiteralInfos, this`buildingState
      ensures Valid() && buildingState != null
      ensures old(tiedLiteralInfos) == tiedLiteralInfos + [TiedLiteralInfo(literal, buildingState)]
      ensures Evaluated(task, buildingState, literal) && CoverageFits(task, buildingState, literal)
    {
      hide StateOk, ExamplesOk, TiedOk, Evaluated, CoverageFits;
      var info := tiedLiteralInfos[|tiedLiteralInfos| - 1];
      assert tiedLiteralInfos == tiedLiteralInfos[..|tiedLiteralInfos| - 1] + [info];
      TiedOneMore(task, tiedLiteralInfos[..|tiedLiteralInfos| - 1], info, learntClauses);
      tiedLiteralInfos := tiedLiteralInfos[..|tiedLiteralInfos| - 1];
      buildingState := info.state;
      literal := info.literal;
    }

    /** Accepts the literal as the last one of its clause, gives the clause up, or
        extends it; true when the clause is finished. */
    method AddBestCandidateLiteral(isTiedLiteral: bool, isRandomLiteral: bool, literal: EvaluatedLiteral,
                                   considerAsLast: bool, maximumClauseLength: nat, accept: Acceptance)
      returns (finished: bool)
      requires Valid() && buildingState != null && Evaluated(task, buildingState, literal)
      requires !isRandomLiteral && considerAsLast ==> CoverageFits(task, buildingState, literal)
      modifies this`globalUncoveredPositiveData, this`learntClauses, this`buildingState
      ensures Valid() && (finished <==> buildingState == null)
      ensures var s := old(buildingState);
              var c := Added(s.buildingClause, literal.pred, literal.variables);
              var tried := !isRandomLiteral && considerAsLast;
              if tried && Acceptable(task, s, literal, accept) then finished
              && learntClauses == old(learntClauses) + [c]
              else
                && learntClauses == old(learntClauses)
                && globalUncoveredPositiveData == old(globalUncoveredPositiveData)
                && (finished
                    <==> tried
                         && (isTiedLiteral || s.isExtendedFromTiedLiteral
                             || |s.buildingClause.body| >= maximumClauseLength))
                && (!finished
                    ==> buildingState.buildingClause == c
                        && buildingState.uncoveredPositiveData == s.uncoveredPositiveData)
      ensures !finished ==>
                && buildingState.isExtendedFromTiedLiteral
                   == (isTiedLiteral || old(buildingState).isExtendedFromTiedLiteral)
                && buildingState.data.Consecutive? && buildingState.data.numPositive == literal.numBindingPositive
                && literal.pred < |task.bg|
                && HoldsBindings(buildingState.data.columns, task.bg[literal.pred], old(buildingState).data,
                                 literal.variables)
      ensures AfterLiteral(task, accept, maximumClauseLength, !isRandomLiteral && considerAsLast, isTiedLiteral,
                           ViewOf(old(buildingState)), literal, BuildingView(), old(learntClauses), learntClauses)
    {
      hide StateOk, ExamplesOk, TiedOk, Evaluated, CoverageFits, Accepts, Uncovered, HoldsBindings;
      LiteralIsOk(task, buildingState, literal);
      if !isRandomLiteral && considerAsLast {
        var added := AddBuildingClauseWithNewLiteral(literal, accept);
        if added {
          buildingState := null;
          return true;
        } else if isTiedLiteral || buildingState.isExtendedFromTiedLiteral
        || |buildingState.buildingClause.body| >= maximumClauseLength {
          buildingState := null;
          return true;
        }
      }
      AddLiteralToBuildingClause(literal, isTiedLiteral);
      finished := false;
    }

    // -------------------------------------------------------------------
    // The whole search
    // -------------------------------------------------------------------

    /** Saves the ties, then adds the best literal. */
    method TakeChoice(search: Search, step: nat, choice: Chosen) returns (finished: bool)
      requires Valid() && buildingState != null && AllEvaluated(task, buildingState, choice.ties)
      requires Evaluated(task, buildingState, choice.best) && CoverageFits(task, buildingState, choice.best)
      requires choice.isRandomLiteral ==> |buildingState.buildingClause.body| < search.LengthLimit()
      modifies this
      ensures Valid() && (finished <==> buildingState == null)
      ensures SavedOf(tiedLiteralInfos)
              == SavedOf(old(tiedLiteralInfos)) + SavedWith(choice.ties, ViewOf(old(buildingState)))
      ensures var v := ViewOf(old(buildingState));
              var triedAsLast := !choice.isRandomLiteral && search.ConsidersAsLast(step, v.clause, choice.best);
              AfterLiteral(task, search.accept, search.maximumClauseLength, triedAsLast, false, v, choice.best,
                           BuildingView(), old(learntClauses), learntClauses)
      ensures MoreLearnt(task, search.accept, old(learntClauses), learntClauses)
      ensures var length := |old(buildingState).buildingClause.body|;
              !finished ==> length < search.LengthLimit() && |buildingState.buildingClause.body| == length + 1
    {
      hide *;
      SavedMore(tiedLiteralInfos, choice.ties, buildingState);
      SaveTiedLiterals(choice.ties);
      var considerAsLast := search.ConsidersAsLast(step, buildingState.buildingClause, choice.best);
      ghost var s, learnt := buildingState, learntClauses;
      ValidMeans();
      ViewIs(s);
      finished := AddBestCandidateLiteral(false, choice.isRandomLiteral, choice.best, considerAsLast,
                                          search.maximumClauseLength, search.accept);
      AfterBestLiteral(task, search, s, choice.best, learnt, learntClauses);
      AddedLength(s.buildingClause, choice.best.pred, choice.best.variables);
      LimitIs(search);
      LastAtLength(search, step, s.buildingClause, choice.best);
    }

    /** One pass of the inner loop after another, until the clause is finished or no
        candidate is left; ok is false when then nothing was saved either. */
    method SearchClause(search: Search, step0: nat, ghost passes: nat, ghost first: Config, ghost run0: seq<Config>)
      returns (ok: bool, step: nat, ghost run: seq<Config>)
      requires Valid() && buildingState != null && SelectsEvaluated(task, search)
      requires RunTo(task, search, run0, first, Now(Selecting, step0, passes))
      modifies this
      ensures Valid() && (!ok ==> tiedLiteralInfos == [])
      ensures MoreLearnt(task, search.accept, old(learntClauses), learntClauses)
      ensures RunTo(task, search, run, first, Now(if ok then PassOver else Failed, step, passes))
    {
      hide *;
      step, run := step0, run0;
      NothingMore(task, search.accept, learntClauses);
      while true
        invariant Valid() && buildingState != null
        invariant MoreLearnt(task, search.accept, old(learntClauses), learntClauses)
        invariant RunTo(task, search, run, first, Now(Selecting, step, passes))
        decreases search.LengthLimit() - |buildingState.buildingClause.body|
      {
        ghost var here, s := Now(Selecting, step, passes), buildingState;
        NowIs(Selecting, step, passes);
        ViewIs(s);
        var choice := search.select(step, buildingState.buildingClause, buildingState.data);
        step := step + 1;
        if choice.None? {
          ok := tiedLiteralInfos != [];
          NowIs(if ok then PassOver else Failed, step, passes);
          NoChoice(task, search, ViewOf(s), here);
          RunContinues(task, search, run, first, here, Now(if ok then PassOver else Failed, step, passes));
          return ok, step, run + [Now(if ok then PassOver else Failed, step, passes)];
        }
        ghost var before := learntClauses;
        ChoiceIsEvaluated(task, search, step - 1, buildingState, choice.value);
        var finished := TakeChoice(search, step, choice.value);
        MoreAgain(task, search.accept, old(learntClauses), before, learntClauses);
        NowIs(if finished then PassOver else Selecting, step, passes);
        ChoiceTaken(task, search, ViewOf(s), here, choice.value, BuildingView(), learntClauses);
        RunContinues(task, search, run, first, here, Now(if finished then PassOver else Selecting, step, passes));
        run := run + [Now(if finished then PassOver else Selecting, step, passes)];
        if finished {
          return true, step, run;
        }
      }
    }

    lemma NowIs(phase: Phase, step: nat, passes: nat)
      ensures Now(phase, step, passes)
           == Config(phase, BuildingView(), SavedOf(tiedLiteralInfos), learntClauses, step, passes)
      ensures BuildingView() == if buildingState == null then None else Some(ViewOf(buildingState))
      ensures SavedOf(tiedLiteralInfos) == [] <==> tiedLiteralInfos == []
    {
    }

    /** Takes a saved literal back and adds it, unless it is skipped; finished is
        false when it extends its clause. */
    method TryTied(search: Search, step: nat, ghost passes: nat, ghost first: Config, ghost run0: seq<Config>)
      returns (finished: bool, ghost run: seq<Config>)
      requires Valid() && tiedLiteralInfos != [] && step > 0
      requires RunTo(task, search, run0, first, Now(Returning, step - 1, passes))
      modifies this
      ensures Valid() && |tiedLiteralInfos| < |old(tiedLiteralInfos)| && (finished <==> buildingState == null)
      ensures MoreLearnt(task, search.accept, old(learntClauses), learntClauses)
      ensures RunTo(task, search, run, first, Now(if finished then Returning else Selecting, step, passes))
    {
      hide *;
      ghost var here, before := Now(Returning, step - 1, passes), learntClauses;
      NowIs(Returning, step - 1, passes);
      var literal := RestoreTiedLiteral();
      ghost var s, saved := buildingState, SavedOf(tiedLiteralInfos);
      SavedLast(tiedLiteralInfos, TiedLiteralInfo(literal, s));
      ViewIs(s);
      if search.skip(step, buildingState.buildingClause, literal) {
        DropState();
        NothingMore(task, search.accept, learntClauses);
        NowIs(Returning, step, passes);
        Skipped(task, search, here, saved, Saved(literal, ViewOf(s)));
        finished := true;
      } else {
        ValidMeans();
        var considerAsLast := search.ConsidersAsLast(step, buildingState.buildingClause, literal);
        finished := AddBestCandidateLiteral(true, false, literal, considerAsLast, search.maximumClauseLength,
                                            search.accept);
        AfterBestLiteral(task, search, s, literal, before, learntClauses);
        NowIs(if finished then Returning else Selecting, step, passes);
        Restored(task, search, here, saved, Saved(literal, ViewOf(s)), BuildingView(), learntClauses);
      }
      RunContinues(task, search, run0, first, here, Now(if finished then Returning else Selecting, step, passes));
      run := run0 + [Now(if finished then Returning else Selecting, step, passes)];
    }

    /** Comes back to the saved literals, last saved first, until one extends its
        clause. */
    method ReturnToTied(search: Search, step0: nat, ghost passes: nat, ghost first: Config, ghost run0: seq<Config>)
      returns (step: nat, ghost run: seq<Config>)
      requires Valid() && SelectsEvaluated(task, search)
      requires RunTo(task, search, run0, first, Now(PassOver, step0, passes))
      requires Continues(task, search, learntClauses, passes + 1)
      modifies this
      ensures Valid() && (buildingState == null ==> tiedLiteralInfos == [])
      ensures MoreLearnt(task, search.accept, old(learntClauses), learntClauses)
      ensures RunTo(task, search, run, first,
                    Now(if buildingState == null then Returning else Selecting, step, passes + 1))
    {
      hide *;
      step := step0;
      ghost var here := Now(PassOver, step0, passes);
      NowIs(PassOver, step0, passes);
      DropState();
      NowIs(Returning, step, passes + 1);
      PassEnds(task, search, here);
      RunContinues(task, search, run0, first, here, Now(Returning, step, passes + 1));
      run := run0 + [Now(Returning, step, passes + 1)];
      NothingMore(task, search.accept, learntClauses);
      while tiedLiteralInfos != []
        invariant Valid() && buildingState == null
        invariant MoreLearnt(task, search.accept, old(learntClauses), learntClauses)
        invariant RunTo(task, search, run, first, Now(Returning, step, passes + 1))
        decreases |tiedLiteralInfos|
      {
        ghost var before := learntClauses;
        step := step + 1;
        var finished;
        finished, run := TryTied(search, step, passes + 1, first, run);
        MoreAgain(task, search.accept, old(learntClauses), before, learntClauses);
        if !finished {
          return;
        }
      }
    }

    method DropState()
      requires Valid()
      modifies this`buildingState
      ensures Valid() && buildingState == null
    {
      hide StateOk, ExamplesOk, TiedOk;
      buildingState := null;
    }

    /** Starts over from the head when nothing is saved any more. */
    method StartOver(search: Search, ghost step: nat, ghost passes: nat, ghost first: Config, ghost run0: seq<Config>)
      returns (ghost run: seq<Config>)
      requires Valid() && buildingState == null && tiedLiteralInfos == []
      requires RunTo(task, search, run0, first, Now(Returning, step, passes))
      modifies this`buildingState
      ensures Valid() && buildingState != null
      ensures RunTo(task, search, run, first, Now(Selecting, step, passes))
    {
      hide *;
      ghost var here := Now(Returning, step, passes);
      NowIs(Returning, step, passes);
      CreateMostGeneralBuildingClause();
      NowIs(Selecting, step, passes);
      StartedOver(task, search, here, ViewOf(buildingState));
      RunContinues(task, search, run0, first, here, Now(Selecting, step, passes));
      run := run0 + [Now(Selecting, step, passes)];
    }

    /** Whatever is selected, skipped and found precise, the search returns, and its
        run goes from the state before to the state after it: ok if it finished,
        with iterations as the number of its passes. Every clause it learnt passed the
        test against the positives that some of the clauses before it had left, and the
        positives left at the end are exactly those that no learnt clause covers. */
    method Learn(search: Search) returns (ok: bool, iterations: nat, ghost run: seq<Config>)
      requires Valid() && buildingState != null && SelectsEvaluated(task, search)
      modifies this
      ensures Valid() && (!ok ==> tiedLiteralInfos == [])
      ensures IsRun(task, search, run) && run[0] == old(Now(Selecting, 0, 0))
      ensures run[|run| - 1] == Now(if ok then Finished else Failed, run[|run| - 1].step, iterations)
      ensures forall i, v, literal | 0 <= i < |run| - 1 && Tries(search, run[i], v, literal)
                                     && Accepts(task, search.accept, v, literal) ::
                Added(v.clause, literal.pred, literal.variables) in learntClauses
      ensures MoreLearnt(task, search.accept, old(learntClauses), learntClauses)
      ensures RowsOf(globalUncoveredPositiveData.columns) == Uncovered(task.bg, RowsOf(task.positives), learntClauses)
      ensures ok
              ==> Rows(globalUncoveredPositiveData.columns) <= search.maximumUncovered
                  || iterations >= search.maximumIterations
    {
      hide *;
      var step := 0;
      iterations := 0;
      NothingMore(task, search.accept, learntClauses);
      ghost var first := Now(Selecting, 0, 0);
      RunStarts(task, search, first);
      run := [first];
      while true
        invariant Valid() && buildingState != null
        invariant MoreLearnt(task, search.accept, old(learntClauses), learntClauses)
        invariant RunTo(task, search, run, first, Now(Selecting, step, iterations))
        decreases search.maximumIterations - iterations
      {
        ghost var before := learntClauses;
        ok, step, run := SearchClause(search, step, iterations, first, run);
        MoreAgain(task, search.accept, old(learntClauses), before, learntClauses);
        ExamplesAre();
        ghost var here := Now(if ok then PassOver else Failed, step, iterations);
        NowIs(if ok then PassOver else Failed, step, iterations);
        if !ok {
          RunEnds(task, search, run, first, here);
          return;
        }
        iterations := iterations + 1;
        ContinuesWhen(task, search, globalUncoveredPositiveData.columns, learntClauses, iterations);
        if !(Rows(globalUncoveredPositiveData.columns) > search.maximumUncovered
             && iterations < search.maximumIterations) {
          PassEnds(task, search, here);
          NowIs(Finished, step, iterations);
          RunContinues(task, search, run, first, here, Now(Finished, step, iterations));
          run := run + [Now(Finished, step, iterations)];
          RunEnds(task, search, run, first, Now(Finished, step, iterations));
          return;
        }
        before := learntClauses;
        step, run := ReturnToTied(search, step, iterations - 1, first, run);
        MoreAgain(task, search.accept, old(learntClauses), before, learntClauses);
        if buildingState == null {
          run := StartOver(search, step, iterations, first, run);
        }
      }
    }

    lemma ExamplesAre()
      requires Valid()
      ensures RowsOf(globalUncoveredPositiveData.columns) == Uncovered(task.bg, RowsOf(task.positives), learntClauses)
    {
      hide StateOk, TiedOk;
    }
  }

  // ---------------------------------------------------------------------
  // What decides a search
  // ---------------------------------------------------------------------

  /** Selected literals were evaluated on the clause they are selected for. At the
      maximum length only random literals are added to a clause, so that its
      number of random literals bounds its length. */
  ghost predicate SelectsEvaluated(task: Task, search: Search) {
    forall step, c, data | search.select(step, c, data).Some? ::
      ChoiceFits(task, search, c, data, search.select(step, c, data).value)
  }

  ghost predicate ChoiceFits(task: Task, search: Search, c: Clause, data: BindingData, choice: Chosen) {
    && EvaluatedOn(task, c, data, choice.best) && CoverageFitsData(task, data, choice.best)
    && (forall l | l in choice.ties :: EvaluatedOn(task, c, data, l) && CoverageFitsData(task, data, l))
    && (choice.isRandomLiteral ==> |c.body| < search.LengthLimit())
  }

  lemma ChoiceIsEvaluated(task: Task, search: Search, step: nat, s: QuickFoilState, choice: Chosen)
    requires SelectsEvaluated(task, search) && search.select(step, s.buildingClause, s.data) == Some(choice)
    ensures Evaluated(task, s, choice.best) && CoverageFits(task, s, choice.best) && AllEvaluated(task, s, choice.ties)
    ensures choice.isRandomLiteral ==> |s.buildingClause.body| < search.LengthLimit()
  {
    hide EvaluatedOn, CoverageFitsData;
    assert ChoiceFits(task, search, s.buildingClause, s.data, choice);
  }

  lemma ViewIs(s: QuickFoilState)
    ensures ViewOf(s).clause == s.buildingClause && ViewOf(s).data == s.data
  {
  }

  lemma LastAtLength(search: Search, step: nat, c: Clause, literal: EvaluatedLiteral)
    ensures |c.body| >= search.maximumClauseLength ==> search.ConsidersAsLast(step, c, literal)
  {
  }

  lemma ContinuesWhen(task: Task, search: Search, columns: seq<seq<Value>>, learnt: seq<Clause>, passes: nat)
    requires RowsOf(columns) == Uncovered(task.bg, RowsOf(task.positives), learnt)
    ensures Continues(task, search, learnt, passes)
            <==> Rows(columns) > search.maximumUncovered && passes < search.maximumIterations
  {
    hide Uncovered;
  }

  lemma RunEnds(task: Task, search: Search, run: seq<Config>, first: Config, last: Config)
    requires RunTo(task, search, run, first, last)
    ensures IsRun(task, search, run) && run != [] && run[0] == first && run[|run| - 1] == last
    ensures forall i, v, literal | 0 <= i < |run| - 1 && Tries(search, run[i], v, literal)
                                   && Accepts(task, search.accept, v, literal) ::
              Added(v.clause, literal.pred, literal.variables) in last.learnt
  {
    hide Tries, Accepts, SearchStep, Added;
    forall i, v, literal | 0 <= i < |run| - 1 && Tries(search, run[i], v, literal)
                           && Accepts(task, search.accept, v, literal)
      ensures Added(v.clause, literal.pred, literal.variables) in last.learnt
    {
      TriedIsLearnt(task, search, run, i);
      var c := Added(v.clause, literal.pred, literal.variables);
      var more := run[i].learnt + [c];
      assert more[|more| - 1] == c && more[|more| - 1] in last.learnt;
    }
  }

  lemma LimitIs(search: Search)
    ensures search.LengthLimit() == search.maximumClauseLength + search.maximumRandomLiterals
  {
  }

  lemma AddedLength(c: Clause, pred: nat, vars: Variables)
    ensures |Added(c, pred, vars).body| == |c.body| + 1
  {
  }

  // ---------------------------------------------------------------------
  // The clauses of a search
  // ---------------------------------------------------------------------

  /** The clause passes the test against what the clauses before it leave. */
  ghost predicate AcceptedAfter(task: Task, accept: Acceptance, before: seq<Clause>, c: Clause) {
    var rows := Uncovered(task.bg, RowsOf(task.positives), before);
    accept(NumCovered(task.bg, rows, c), NumCovered(task.bg, RowsOf(task.negatives), c), |rows|)
  }

  ghost predicate Accepted(task: Task, accept: Acceptance, learnt: seq<Clause>, i: nat) {
    i < |learnt| && exists k: nat :: k <= i && AcceptedAfter(task, accept, learnt[..k], learnt[i])
  }

  ghost predicate MoreLearnt(task: Task, accept: Acceptance, before: seq<Clause>, after: seq<Clause>) {
    before <= after && forall i | |before| <= i < |after| :: Accepted(task, accept, after, i)
  }

  lemma NothingMore(task: Task, accept: Acceptance, learnt: seq<Clause>)
    ensures MoreLearnt(task, accept, learnt, learnt)
  {
  }

  lemma MoreAgain(task: Task, accept: Acceptance, a: seq<Clause>, b: seq<Clause>, c: seq<Clause>)
    requires MoreLearnt(task, accept, a, b) && MoreLearnt(task, accept, b, c)
    ensures MoreLearnt(task, accept, a, c)
  {
    hide AcceptedAfter;
    forall i | |a| <= i < |c|
      ensures Accepted(task, accept, c, i)
    {
      if i < |b| {
        assert Accepted(task, accept, b, i);
        var k: nat :| k <= i && AcceptedAfter(task, accept, b[..k], b[i]);
        assert c[..k] == b[..k] && c[i] == b[i];
      }
    }
  }

  lemma AcceptableIsAccepted(task: Task, s: QuickFoilState, literal: EvaluatedLiteral, accept: Acceptance,
                             learnt: seq<Clause>)
    requires StateOk(task, s, learnt) && Acceptable(task, s, literal, accept)
    ensures MoreLearnt(task, accept, learnt, learnt + [Added(s.buildingClause, literal.pred, literal.variables)])
  {
    hide TablesOf, NumCovered, Uncovered;
    var c := Added(s.buildingClause, literal.pred, literal.variables);
    var k: nat :| StartedAfter(task, s, learnt, k);
    assert (learnt + [c])[..k] == learnt[..k];
    assert AcceptedAfter(task, accept, (learnt + [c])[..k], c);
    assert Accepted(task, accept, learnt + [c], |learnt|);
  }

  lemma AfterBestLiteral(task: Task, search: Search, s: QuickFoilState, literal: EvaluatedLiteral, before: seq<Clause>,
                         after: seq<Clause>)
    requires StateOk(task, s, before)
    requires after == before
             || (after == before + [Added(s.buildingClause, literal.pred, literal.variables)]
                 && Acceptable(task, s, literal, search.accept))
    ensures MoreLearnt(task, search.accept, before, after)
  {
    if after == before {
      NothingMore(task, search.accept, before);
    } else {
      AcceptableIsAccepted(task, s, literal, search.accept, before);
    }
  }

  /** The head's clause over all facts, which are one table. */
  method FirstState(task: Task, factTable: seq<seq<Value>>, numTrueFacts: nat, examples: ExampleTable)
    returns (state: QuickFoilState)
    requires task.Valid() && examples.columns == task.positives
    requires task.positives == Consecutive(factTable, numTrueFacts).Positive()
             && task.negatives == Consecutive(factTable, numTrueFacts).Negative()
    ensures StateOk(task, state, []) && state.uncoveredPositiveData == examples
    ensures state.buildingClause == Clause(task.numArguments, [], task.numArguments) && !state.isExtendedFromTiedLiteral
  {
    hide StateOk, ExamplesOk, TiedOk, Task.Valid, BindingData.Positive, BindingData.Negative;
    var clause := Clause(task.numArguments, [], task.numArguments);
    state := new QuickFoilState(false, clause, Consecutive(factTable, numTrueFacts), examples);
    NothingLearntYet(task);
    InitialStateOk(task, state, []);
  }

  lemma NothingLearntYet(task: Task)
    requires task.Valid()
    ensures ExamplesOk(task, task.positives, []) && TiedOk(task, [], [])
  {
    NothingLearnt(task.bg, RowsOf(task.positives));
  }

  lemma TiedStayOk(task: Task, infos: seq<TiedLiteralInfo>, learnt: seq<Clause>, more: seq<Clause>)
    requires TiedOk(task, infos, learnt)
    ensures TiedOk(task, infos, learnt + more)
  {
    hide StateOk, Evaluated, CoverageFits;
    forall i | 0 <= i < |infos|
      ensures TiedLiteralOk(task, infos[i], learnt + more)
    {
      StateStaysOk(task, infos[i].state, learnt, more);
    }
  }

  lemma TiedOneMore(task: Task, infos: seq<TiedLiteralInfo>, info: TiedLiteralInfo, learnt: seq<Clause>)
    ensures TiedOk(task, infos + [info], learnt) <==> TiedOk(task, infos, learnt) && TiedLiteralOk(task, info, learnt)
  {
    hide TiedLiteralOk;
    var more := infos + [info];
    assert more[|infos|] == info;
    assert forall i | 0 <= i < |infos| :: more[i] == infos[i];
  }

  lemma LiteralIsOk(task: Task, s: QuickFoilState, literal: EvaluatedLiteral)
    requires Evaluated(task, s, literal)
    ensures LiteralOk(task, s, literal)
  {
    hide CanAdd, Witnesses, HashTablesFit;
  }

  lemma CanExtend(task: Task, s: QuickFoilState, literal: EvaluatedLiteral)
    requires task.Valid() && TablesOf(task, s) && Evaluated(task, s, literal)
    ensures literal.pred < |task.bg| && task.joinChunkSize > 0
    ensures Extendable(task.bg[literal.pred], s.data, literal.variables) && HashTablesFit(task.bg[literal.pred], s.data)
    ensures literal.numBindingPositive == |Witnesses(task.bg[literal.pred], s.data.Positive(), literal.variables)|
    ensures literal.numBindingNegative == |Witnesses(task.bg[literal.pred], s.data.Negative(), literal.variables)|
  {
    hide Witnesses, HashTablesFit, TablesOf, Extendable, BindingData.Positive, BindingData.Negative;
    LiteralFitsTables(task, s, literal);
  }

  /** What the acceptance test is applied to: the state's own uncovered positives
      and all negatives that the extended clause covers. */
  ghost predicate Acceptable(task: Task, s: QuickFoilState, literal: EvaluatedLiteral, accept: Acceptance) {
    Accepts(task, accept, ViewOf(s), literal)
  }

  lemma CountsAreExamples(task: Task, s: QuickFoilState, literal: EvaluatedLiteral, learnt: seq<Clause>)
    requires task.Valid() && StateOk(task, s, learnt) && LiteralOk(task, s, literal)
    ensures var c := Added(s.buildingClause, literal.pred, literal.variables);
            && Ones(PositiveBits(task, s, literal, s.uncoveredPositiveData.columns))
               == NumCovered(task.bg, RowsOf(s.uncoveredPositiveData.columns), c)
            && Ones(CoveredBits(task.negatives, s.data.Negative(), task.bg[literal.pred], literal.variables,
                                task.numArguments))
               == NumCovered(task.bg, RowsOf(task.negatives), c)
  {
    StateShape(task, s, learnt);
    NegativesShape(task, s);
    var c := Added(s.buildingClause, literal.pred, literal.variables);
    var local := s.uncoveredPositiveData.columns;
    WithinItself(local);
    WithinItself(task.negatives);
    hide StateOk, TablesOf, HasTable, CanAdd, Within, BitsTell, Ones, Negated, Uncovered, CoveredBits, Rectangular,
        PositiveBits;
    BitsArePositive(task, s, literal, local);
    CoverageBitsTell(task, s, literal, local, s.data.Positive(), local);
    CoverageBitsTell(task, s, literal, task.negatives, s.data.Negative(), task.negatives);
    CountedIsCovered(task.bg, c, local, PositiveBits(task, s, literal, local));
    CountedIsCovered(task.bg, c, task.negatives,
                     CoveredBits(task.negatives, s.data.Negative(), task.bg[literal.pred], literal.variables,
                                 task.numArguments));
  }

  lemma NegativesShape(task: Task, s: QuickFoilState)
    requires task.Valid() && TablesOf(task, s)
    ensures |task.negatives| == task.numArguments && Rectangular(task.negatives)
    ensures HasTable(task.bg, task.negatives, s.buildingClause, s.data.Negative())
    ensures forall i | 0 <= i < |task.negatives| :: |task.negatives[i]| == Rows(task.negatives)
  {
    hide HasTable;
    assert forall i | 0 <= i < |task.negatives| :: task.negatives[i] in task.negatives;
  }

  lemma CountedIsCovered(bg: Background, c: Clause, columns: seq<seq<Value>>, bits: seq<bool>)
    requires BitsTell(bg, c, columns, bits) && forall i | 0 <= i < |columns| :: |columns[i]| == Rows(columns)
    ensures Ones(bits) == NumCovered(bg, RowsOf(columns), c)
  {
    WholeSelection(bg, c, columns, bits);
    OnesNegated(bits);
    CoveredAndUncovered(bg, RowsOf(columns), c);
    hide NumCovered;
  }

  lemma LeftIsUncovered(task: Task, learnt: seq<Clause>, c: Clause, before: seq<seq<Value>>, after: seq<seq<Value>>)
    requires ExamplesOk(task, before, learnt) && ExamplesOk(task, after, learnt + [c])
    ensures RowsOf(after) == Uncovered(task.bg, RowsOf(before), [c])
  {
    UncoveredTwice(task.bg, RowsOf(task.positives), learnt, [c]);
  }
}
