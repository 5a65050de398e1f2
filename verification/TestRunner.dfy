/** Testing a learnt theory: how many examples no clause covers
    (learner/QuickFoilTestRunner.cpp). */
module TestRunner {
  import opened Bits
  import opened RadixPartition
  import opened PartitionAssigner
  import opened HashTable
  import opened BitVectors
  import opened Tallies
  import opened Bindings
  import opened KeyColumns
  import opened MultiColumnJoin
  import opened BindingTables
  import opened SemiJoins
  import opened Coverage
  import opened Gather
  import opened Examples
  import opened FoilClauses
  import opened ClauseCoverage
  import opened UncoveredRows

  // ---------------------------------------------------------------------
  // Clauses literal by literal
  // ---------------------------------------------------------------------

  /** The number of variables after the first i literals. */
  ghost function NumVariables(c: Clause, i: nat): (n: nat)
    requires i <= |c.body|
    decreases i, 0
  {
    if i == 0 then c.numHead
    else NumVariables(c, i - 1) + |Unbound(VarsAt(c, i - 1), |VarsAt(c, i - 1)|)|
  }

  /** Literal i with the variables that are new at that point unbound. */
  ghost function VarsAt(c: Clause, i: nat): (vars: Variables)
    requires i < |c.body|
    decreases i, 1
  {
    Known(c.body[i].variables, NumVariables(c, i))
  }

  ghost function Prefix(c: Clause, i: nat): (p: Clause)
    requires i <= |c.body|
  {
    Clause(c.numHead, c.body[..i], NumVariables(c, i))
  }

  /** Every literal numbers its new variables as AddUnBoundBodyLiteral does. */
  ghost predicate WellNumbered(bg: Background, c: Clause) {
    && Prefix(c, |c.body|) == c && c.numHead > 0
    && forall i | 0 <= i < |c.body| :: NumberedAtStep(bg, c, i)
  }

  ghost predicate NumberedAtStep(bg: Background, c: Clause, i: nat)
    requires i < |c.body|
  {
    CanAdd(bg, Prefix(c, i), c.body[i].pred, VarsAt(c, i))
    && Added(Prefix(c, i), c.body[i].pred, VarsAt(c, i)) == Prefix(c, i + 1)
  }

  lemma {:induction false} SamePrefixes(c: Clause, c': Clause, i: nat)
    requires c'.numHead == c.numHead && c.body <= c'.body && i <= |c.body|
    ensures NumVariables(c', i) == NumVariables(c, i) && Prefix(c', i) == Prefix(c, i)
    ensures i < |c.body| ==> VarsAt(c', i) == VarsAt(c, i)
  {
    if i > 0 {
      SamePrefixes(c, c', i - 1);
      assert c'.body[i - 1] == c.body[i - 1];
    }
    assert c'.body[..i] == c.body[..i];
    if i < |c.body| {
      assert c'.body[i] == c.body[i];
    }
  }

  /** Ids of new variables read back as unbound, ids of old ones as themselves. */
  lemma ReadsBack(vars: Variables, base: nat)
    requires forall v | 0 <= v < |vars| :: -1 <= vars[v] < base
    ensures Known(Numbered(vars, |vars|, base), base) == vars
  {
    forall v | 0 <= v < |vars|
      ensures Known(Numbered(vars, |vars|, base), base)[v] == vars[v]
    {
      NumberedAt(vars, |vars|, base, v);
    }
  }

  /** Clauses built by AddUnBoundBodyLiteral are well numbered. */
  lemma AddedIsWellNumbered(bg: Background, c: Clause, pred: nat, vars: Variables)
    requires WellNumbered(bg, c) && CanAdd(bg, c, pred, vars) && forall v | 0 <= v < |vars| :: vars[v] >= -1
    ensures WellNumbered(bg, Added(c, pred, vars))
  {
    var r, n := Added(c, pred, vars), |c.body|;
    LastStep(bg, c, pred, vars);
    hide Added, CanAdd;
    forall i | 0 <= i < |r.body|
      ensures NumberedAtStep(bg, r, i)
    {
      if i < n {
        assert NumberedAtStep(bg, c, i);
        EarlierStep(bg, c, r, i);
      }
    }
  }

  lemma LastStep(bg: Background, c: Clause, pred: nat, vars: Variables)
    requires Prefix(c, |c.body|) == c && CanAdd(bg, c, pred, vars) && forall v | 0 <= v < |vars| :: vars[v] >= -1
    ensures var r := Added(c, pred, vars);
            && c.body <= r.body && |r.body| == |c.body| + 1 && r.numHead == c.numHead
            && Prefix(r, |r.body|) == r && NumberedAtStep(bg, r, |c.body|)
  {
    LastShape(bg, c, pred, vars);
    LastVars(c, pred, vars);
    LastPrefixes(c, pred, vars);
    hide Prefix, CanAdd, Added, VarsAt;
  }

  lemma LastShape(bg: Background, c: Clause, pred: nat, vars: Variables)
    requires CanAdd(bg, c, pred, vars)
    ensures var r := Added(c, pred, vars);
            c.body <= r.body && |r.body| == |c.body| + 1 && r.numHead == c.numHead && r.body[|c.body|].pred == pred
    ensures forall v | 0 <= v < |vars| :: vars[v] < c.numVariables
  {
  }

  lemma LastPrefixes(c: Clause, pred: nat, vars: Variables)
    requires Prefix(c, |c.body|) == c && forall v | 0 <= v < |vars| :: -1 <= vars[v] < c.numVariables
    ensures var r := Added(c, pred, vars);
            |r.body| == |c.body| + 1 && Prefix(r, |c.body|) == c && Prefix(r, |c.body| + 1) == r
  {
    var r, n := Added(c, pred, vars), |c.body|;
    LastVars(c, pred, vars);
    SamePrefixes(c, r, n);
    hide VarsAt, Unbound, Numbered;
    assert NumVariables(r, n) == c.numVariables;
    VariablesOfLast(r, n, c.numVariables, vars);
    hide NumVariables;
    assert r.body[..n + 1] == r.body;
  }

  lemma LastVars(c: Clause, pred: nat, vars: Variables)
    requires Prefix(c, |c.body|) == c && forall v | 0 <= v < |vars| :: -1 <= vars[v] < c.numVariables
    ensures var r := Added(c, pred, vars); |r.body| == |c.body| + 1 && VarsAt(r, |c.body|) == vars
  {
    var r, n := Added(c, pred, vars), |c.body|;
    SamePrefixes(c, r, n);
    ReadsBack(vars, c.numVariables);
    hide Numbered, Unbound, NumVariables;
    assert r.body[n].variables == Numbered(vars, |vars|, c.numVariables);
    assert NumVariables(c, n) == c.numVariables;
  }

  lemma VariablesOfLast(r: Clause, n: nat, base: nat, vars: Variables)
    requires n < |r.body| && NumVariables(r, n) == base && VarsAt(r, n) == vars
    ensures NumVariables(r, n + 1) == base + |Unbound(vars, |vars|)|
  {
    hide Unbound, VarsAt;
  }

  lemma EarlierStep(bg: Background, c: Clause, r: Clause, i: nat)
    requires r.numHead == c.numHead && c.body <= r.body && i < |c.body| && NumberedAtStep(bg, c, i)
    ensures NumberedAtStep(bg, r, i)
  {
    hide CanAdd, Added, NumVariables, VarsAt, Prefix;
    SamePrefixes(c, r, i);
    SamePrefixes(c, r, i + 1);
    assert r.body[i] == c.body[i];
  }

  lemma HeadIsWellNumbered(bg: Background, n: nat)
    requires n > 0
    ensures WellNumbered(bg, Clause(n, [], n))
  {
  }

  // ---------------------------------------------------------------------
  // One clause
  // ---------------------------------------------------------------------

  datatype Settings = Settings(bg: Background, numArguments: nat, hashing: Hashing, joinChunkSize: nat,
                               semiJoinChunkSize: nat) {
    ghost predicate Valid() {
      numArguments > 0 && joinChunkSize > 0 && semiJoinChunkSize > 0
    }
  }

  /** Sizes the hash tables can take, and one chunk for the last semi-join. */
  ghost predicate SizesFit(cfg: Settings, test: seq<seq<Value>>, c: Clause) {
    && WellNumbered(cfg.bg, c) && c.body != [] && c.numHead == cfg.numArguments
    && (|c.body| > 1 ==> Rows(test) > 0)
    && (forall i | 0 <= i < |c.body| :: FactsFit(cfg, c, i))
    && forall i, columns | 0 <= i < |c.body| && HasTable(cfg.bg, test, Prefix(c, i), columns) ::
         TableFits(cfg, c, i, columns)
  }

  ghost predicate FactsFit(cfg: Settings, c: Clause, i: nat)
    requires i < |c.body|
  {
    c.body[i].pred < |cfg.bg| && 0 < Rows(cfg.bg[c.body[i].pred]) <= Pow2(30)
  }

  ghost predicate TableFits(cfg: Settings, c: Clause, i: nat, columns: seq<seq<Value>>)
    requires i < |c.body|
  {
    && Rows(columns) <= Pow2(30)
    && (i == |c.body| - 1 && c.body[i].pred < |cfg.bg| ==>
          Rows(columns) < Rows(cfg.bg[c.body[i].pred]) || Rows(columns) <= cfg.semiJoinChunkSize)
  }

  lemma SizesAt(cfg: Settings, test: seq<seq<Value>>, c: Clause, i: nat, columns: seq<seq<Value>>)
    requires SizesFit(cfg, test, c) && i < |c.body| && HasTable(cfg.bg, test, Prefix(c, i), columns)
    ensures NumberedAtStep(cfg.bg, c, i) && FactsFit(cfg, c, i) && TableFits(cfg, c, i, columns)
    ensures c.numHead == cfg.numArguments && Prefix(c, |c.body|) == c
  {
    hide HasTable, NumberedAtStep, FactsFit, TableFits, Prefix;
  }

  lemma TableIsFull(bg: Background, test: seq<seq<Value>>, p: Clause, columns: seq<seq<Value>>)
    requires p.Valid() && HasTable(bg, test, p, columns)
    ensures columns != [] && |columns| == p.numVariables && Rectangular(columns)
  {
    hide Clause.Valid;
    var choices :| BindingTableOf(bg, test, p, columns, choices);
    TableShape(bg, test, p, columns, choices);
    hide BindingTableOf;
    TableIsRectangular(columns, |choices|);
  }

  lemma AddableFits(bg: Background, p: Clause, pred: nat, vars: Variables, columns: seq<seq<Value>>)
    requires CanAdd(bg, p, pred, vars) && columns != [] && |columns| == p.numVariables && Rectangular(columns)
    ensures pred < |bg| && LiteralFits(bg[pred], columns, vars) && p.Valid()
  {
    hide Rectangular, Clause.Valid;
  }

  /** Literal i fits the table of the literals before it. */
  lemma StepFits(cfg: Settings, test: seq<seq<Value>>, c: Clause, i: nat, columns: seq<seq<Value>>)
    requires SizesFit(cfg, test, c) && i < |c.body| && HasTable(cfg.bg, test, Prefix(c, i), columns)
    ensures c.body[i].pred < |cfg.bg| && CanAdd(cfg.bg, Prefix(c, i), c.body[i].pred, VarsAt(c, i))
    ensures Added(Prefix(c, i), c.body[i].pred, VarsAt(c, i)) == Prefix(c, i + 1)
    ensures |columns| == NumVariables(c, i) > 0 && VarsAt(c, i) == Known(c.body[i].variables, |columns|)
    ensures LiteralFits(cfg.bg[c.body[i].pred], columns, VarsAt(c, i))
    ensures 0 < Rows(cfg.bg[c.body[i].pred]) <= Pow2(30) && TableFits(cfg, c, i, columns)
  {
    SizesAt(cfg, test, c, i, columns);
    StepIsAddable(cfg.bg, c, i);
    hide *;
    TableIsFull(cfg.bg, test, Prefix(c, i), columns);
    AddableFits(cfg.bg, Prefix(c, i), c.body[i].pred, VarsAt(c, i), columns);
    FactsAt(cfg, c, i);
    VarsAreKnown(c, i, |columns|);
  }

  lemma StepIsAddable(bg: Background, c: Clause, i: nat)
    requires i < |c.body| && NumberedAtStep(bg, c, i)
    ensures CanAdd(bg, Prefix(c, i), c.body[i].pred, VarsAt(c, i)) && Prefix(c, i).Valid()
    ensures Added(Prefix(c, i), c.body[i].pred, VarsAt(c, i)) == Prefix(c, i + 1)
  {
    hide Added, Prefix, VarsAt, Clause.Valid, Rectangular;
  }

  lemma FactsAt(cfg: Settings, c: Clause, i: nat)
    requires i < |c.body| && FactsFit(cfg, c, i)
    ensures c.body[i].pred < |cfg.bg| && 0 < Rows(cfg.bg[c.body[i].pred]) <= Pow2(30)
  {
  }

  lemma VarsAreKnown(c: Clause, i: nat, n: nat)
    requires i < |c.body| && n == Prefix(c, i).numVariables
    ensures n == NumVariables(c, i) && VarsAt(c, i) == Known(c.body[i].variables, n)
  {
    hide NumVariables, Known;
  }

  lemma TableIsRectangular(columns: seq<seq<Value>>, n: nat)
    requires forall w | 0 <= w < |columns| :: |columns[w]| == n
    ensures Rectangular(columns)
  {
  }

  lemma JoinedTableIsNext(cfg: Settings, test: seq<seq<Value>>, c: Clause, i: nat, columns: seq<seq<Value>>,
                          next: seq<seq<Value>>, pairs: seq<Pair>)
    requires SizesFit(cfg, test, c) && i < |c.body| && HasTable(cfg.bg, test, Prefix(c, i), columns)
             && c.body[i].pred < |cfg.bg|
    requires IsJoinedTable(next, cfg.bg[c.body[i].pred], columns, VarsAt(c, i), pairs)
    ensures HasTable(cfg.bg, test, Prefix(c, i + 1), next)
  {
    StepFits(cfg, test, c, i, columns);
    var choices :| BindingTableOf(cfg.bg, test, Prefix(c, i), columns, choices);
    hide BindingTableOf, IsJoinedTable, SizesFit, CanAdd, LiteralFits, VarsAt, Prefix, Added;
    var next' := ExtensionKeepsTable(cfg.bg, test, Prefix(c, i), c.body[i].pred, VarsAt(c, i), columns, choices, next,
                                     pairs);
  }

  /** The bindings of all literals but the last; empty as soon as they are. */
  method BindAllButLast(cfg: Settings, test: seq<seq<Value>>, c: Clause)
    returns (bindings: seq<seq<Value>>, ghost reached: nat)
    requires cfg.Valid() && SizesFit(cfg, test, c) && |test| == cfg.numArguments && Rectangular(test)
    ensures reached < |c.body| && HasTable(cfg.bg, test, Prefix(c, reached), bindings)
    ensures Rows(bindings) > 0 ==> reached == |c.body| - 1
  {
    StartBinding(cfg, test, c);
    assert c.body != [] && (|c.body| > 1 ==> Rows(test) > 0);
    hide SizesFit, HasTable, Prefix, Rectangular, Rows;
    bindings := test;
    reached := 0;
    for i := 0 to |c.body| - 1
      invariant reached == i && HasTable(cfg.bg, test, Prefix(c, i), bindings)
      invariant i < |c.body| - 1 ==> Rows(bindings) > 0
    {
      bindings := NextBinding(cfg, test, c, i, bindings);
      reached := i + 1;
      if Rows(bindings) == 0 {
        return;
      }
    }
  }

  lemma StartBinding(cfg: Settings, test: seq<seq<Value>>, c: Clause)
    requires cfg.Valid() && SizesFit(cfg, test, c) && |test| == cfg.numArguments && Rectangular(test)
    ensures HasTable(cfg.bg, test, Prefix(c, 0), test)
  {
    var choices := StartingTable(cfg.bg, test);
    hide BindingTableOf;
    assert Prefix(c, 0) == Clause(|test|, [], |test|);
  }

  method NextBinding(cfg: Settings, ghost test: seq<seq<Value>>, c: Clause, i: nat, columns: seq<seq<Value>>)
    returns (next: seq<seq<Value>>)
    requires cfg.Valid() && SizesFit(cfg, test, c) && i < |c.body| && HasTable(cfg.bg, test, Prefix(c, i), columns)
             && Rows(columns) > 0
    ensures HasTable(cfg.bg, test, Prefix(c, i + 1), next)
  {
    StepFits(cfg, test, c, i, columns);
    hide SizesFit, HasTable, Prefix, VarsAt, NumVariables, Known, CanAdd, LiteralFits, Added, IsJoinedTable, Pow2;
    ghost var pairs: seq<Pair>;
    next, pairs :=
      CreateBindingTable(cfg.bg[c.body[i].pred], columns, c.body[i].variables, cfg.hashing,
                                    cfg.joinChunkSize);
    JoinedTableIsNext(cfg, test, c, i, columns, next, pairs);
  }

  /** An example that the longer clause covers has a binding of the shorter one. */
  lemma CoveredHasBinding(bg: Background, test: seq<seq<Value>>, p: Clause, c: Clause, bindings: seq<seq<Value>>,
                          choices: seq<Choice>, row: Row)
    requires p.Valid() && IsExtendedBy(p, c) && BindingTableOf(bg, test, p, bindings, choices)
    requires OccursIn(row, test) && Covers(bg, c, row)
    ensures |choices| > 0
  {
    hide Clause.Valid, BodyMatches, RowAt;
    var facts, sigma :| SatisfiesRow(bg, c, row, facts, sigma);
    Restricts(bg, p, c, row, facts, sigma);
    var e :| 0 <= e < Rows(test) && RowAt(test, e) == row;
    var q := Choice(e, facts[..|p.body|]);
    assert Satisfies(bg, test, p, q, sigma[..p.numVariables]);
    assert q in choices;
  }

  /** A shorter clause without bindings lets no longer one cover an example. */
  lemma EmptyTableCoversNothing(bg: Background, test: seq<seq<Value>>, p: Clause, c: Clause, bindings: seq<seq<Value>>,
                                row: Row)
    requires p.Valid() && IsExtendedBy(p, c) && HasTable(bg, test, p, bindings) && Rows(bindings) == 0
             && OccursIn(row, test)
    ensures !Covers(bg, c, row)
  {
    var choices :| BindingTableOf(bg, test, p, bindings, choices);
    TableShape(bg, test, p, bindings, choices);
    hide *;
    if Covers(bg, c, row) {
      CoveredHasBinding(bg, test, p, c, bindings, choices, row);
    }
  }

  lemma PrefixIsExtended(c: Clause, i: nat)
    requires i <= |c.body| && Prefix(c, |c.body|) == c
    ensures IsExtendedBy(Prefix(c, i), c)
  {
    VariablesGrow(c, i, |c.body|);
  }

  /** A prefix without bindings leaves every example uncovered. */
  lemma NoBindingsNoCoverage(cfg: Settings, test: seq<seq<Value>>, c: Clause, reached: nat, bindings: seq<seq<Value>>,
                             row: Row)
    requires SizesFit(cfg, test, c) && reached < |c.body| && HasTable(cfg.bg, test, Prefix(c, reached), bindings)
             && Rows(bindings) == 0
    requires OccursIn(row, test)
    ensures !Covers(cfg.bg, c, row)
  {
    SizesAt(cfg, test, c, reached, bindings);
    hide *;
    StepIsAddable(cfg.bg, c, reached);
    PrefixIsExtended(c, reached);
    EmptyTableCoversNothing(cfg.bg, test, Prefix(c, reached), c, bindings, row);
  }

  lemma {:induction false} VariablesGrow(c: Clause, i: nat, j: nat)
    requires i <= j <= |c.body|
    ensures NumVariables(c, i) <= NumVariables(c, j)
  {
    if i < j {
      VariablesGrow(c, i, j - 1);
    }
  }

  // ---------------------------------------------------------------------
  // All clauses
  // ---------------------------------------------------------------------

  /** The examples that remain after the clause whose other literals are bound. */
  method ComputeUnCoveredData(cfg: Settings, uncovered: seq<seq<Value>>, bindings: seq<seq<Value>>, c: Clause,
                              ghost test: seq<seq<Value>>)
    returns (remaining: seq<seq<Value>>)
    requires cfg.Valid() && SizesFit(cfg, test, c) && |test| == cfg.numArguments
             && HasTable(cfg.bg, test, Prefix(c, |c.body| - 1), bindings)
    requires Rows(bindings) > 0 && |uncovered| == cfg.numArguments && Rectangular(uncovered) && Within(uncovered, test)
    ensures |remaining| == cfg.numArguments && Rectangular(remaining)
    ensures RowsOf(remaining) == Uncovered(cfg.bg, RowsOf(uncovered), [c])
  {
    var i := |c.body| - 1;
    StepFits(cfg, test, c, i, bindings);
    ReadyForLast(cfg, test, c, bindings);
    LastLiteralTells(cfg, uncovered, bindings, c, test);
    hide *;
    var facts, vars := cfg.bg[c.body[i].pred], Known(c.body[i].variables, |bindings|);
    var outputs, numOutput := GatherRemaining(cfg, uncovered, bindings, facts, vars);
    ghost var bits := CoveredBits(uncovered, bindings, facts, vars, cfg.numArguments);
    ColumnsAreFull(uncovered);
    remaining := FirstRows(outputs, numOutput, uncovered, bits);
    RowsLeft(cfg.bg, c, uncovered, bits, remaining);
    TableIsRectangular(remaining, Rows(remaining));
  }

  lemma ColumnsAreFull(columns: seq<seq<Value>>)
    requires Rectangular(columns)
    ensures forall i | 0 <= i < |columns| :: |columns[i]| == Rows(columns)
  {
    assert forall i | 0 <= i < |columns| :: columns[i] in columns;
  }

  lemma ReadyForLast(cfg: Settings, test: seq<seq<Value>>, c: Clause, bindings: seq<seq<Value>>)
    requires cfg.Valid() && SizesFit(cfg, test, c) && HasTable(cfg.bg, test, Prefix(c, |c.body| - 1), bindings)
             && Rows(bindings) > 0
    ensures c.body != [] && c.body[|c.body| - 1].pred < |cfg.bg|
    ensures OneChunkCoverage(cfg.bg[c.body[|c.body| - 1].pred], bindings, cfg.semiJoinChunkSize)
    ensures cfg.numArguments == c.numHead <= |bindings|
  {
    var i := |c.body| - 1;
    StepFits(cfg, test, c, i, bindings);
    hide SizesFit, HasTable, CanAdd, LiteralFits, VarsAt, Known, Added;
    VariablesGrow(c, 0, i);
  }

  /** The cascade over the last literal tells what the whole clause covers. */
  lemma LastLiteralTells(cfg: Settings, uncovered: seq<seq<Value>>, bindings: seq<seq<Value>>, c: Clause,
                         test: seq<seq<Value>>)
    requires cfg.Valid() && SizesFit(cfg, test, c) && |test| == cfg.numArguments
             && HasTable(cfg.bg, test, Prefix(c, |c.body| - 1), bindings)
    requires |uncovered| == cfg.numArguments && Rectangular(uncovered) && Within(uncovered, test)
    ensures c.body[|c.body| - 1].pred < |cfg.bg|
    ensures BitsTell(cfg.bg, c, uncovered, CoveredBits(uncovered, bindings, cfg.bg[c.body[|c.body| - 1].pred],
                                                       Known(c.body[|c.body| - 1].variables, |bindings|),
                                                           cfg.numArguments))
  {
    var i := |c.body| - 1;
    StepFits(cfg, test, c, i, bindings);
    SizesAt(cfg, test, c, i, bindings);
    hide *;
    HeadOfPrefix(c, i);
    var p, pred, vars := Prefix(c, i), c.body[i].pred, VarsAt(c, i);
    CascadeTells(cfg.bg, test, p, pred, vars, bindings, uncovered);
  }

  lemma HeadOfPrefix(c: Clause, i: nat)
    requires i <= |c.body|
    ensures Prefix(c, i).numHead == c.numHead
  {
    hide NumVariables;
  }

  /** The cascade itself, into buffers as long as the uncovered data. */
  method GatherRemaining(cfg: Settings, uncovered: seq<seq<Value>>, bindings: seq<seq<Value>>, facts: seq<seq<Value>>,
                         vars: Variables)
    returns (outputs: seq<array<Value>>, numOutput: nat)
    requires cfg.Valid() && LiteralFits(facts, bindings, vars)
             && OneChunkCoverage(facts, bindings, cfg.semiJoinChunkSize)
    requires |uncovered| == cfg.numArguments <= |bindings| && Rectangular(uncovered)
    ensures |outputs| == cfg.numArguments
    ensures var bits := CoveredBits(uncovered, bindings, facts, vars, cfg.numArguments);
            Gathered(outputs, uncovered, bits, |bits|, numOutput)
  {
    ghost var bits := CoveredBits(uncovered, bindings, facts, vars, cfg.numArguments);
    OnesNegated(bits);
    assert |bits| == Rows(uncovered) && cfg.numArguments > 0 && cfg.semiJoinChunkSize > 0;
    hide *;
    var join := NewUncoveredSemiJoin(cfg, uncovered, bindings, facts, vars);
    outputs, numOutput := GatherInNew(join, cfg.numArguments, Rows(uncovered));
  }

  /** Gathers what a semi-join leaves uncovered into new buffers. */
  method GatherInNew(join: LeftSemiJoin, count: nat, length: nat) returns (outputs: seq<array<Value>>, numOutput: nat)
    requires join.Ready() && join.curProbeOffset == 0 && join.numProjected == count <= |join.probe.columns|
    requires Ones(Negated(BitsOf(join))) <= length
    modifies join
    ensures |outputs| == count && Gathered(outputs, join.probe.columns, BitsOf(join), |BitsOf(join)|, numOutput)
  {
    hide *;
    ghost var page: seq<seq<Value>>;
    outputs, page := NewBuffers(count, length);
    BuffersHaveLength(outputs, page, length);
    numOutput := GatherUncovered(join, outputs);
  }

  method NewUncoveredSemiJoin(cfg: Settings, uncovered: seq<seq<Value>>, bindings: seq<seq<Value>>,
                              facts: seq<seq<Value>>, vars: Variables)
    returns (join: LeftSemiJoin)
    requires cfg.Valid() && LiteralFits(facts, bindings, vars)
             && OneChunkCoverage(facts, bindings, cfg.semiJoinChunkSize)
    requires |uncovered| == cfg.numArguments <= |bindings| && Rectangular(uncovered)
    ensures fresh(join) && join.Ready() && join.curProbeOffset == 0 && join.numProjected == cfg.numArguments
            && join.probe.columns == uncovered
    ensures BitsOf(join) == CoveredBits(uncovered, bindings, facts, vars, cfg.numArguments)
  {
    assert cfg.numArguments > 0 && cfg.semiJoinChunkSize > 0;
    hide *;
    var factTable: Option<FoilHashTable>;
    var table: FoilHashTable;
    ghost var slots: seq<int>;
    table, factTable, slots :=
      BuildCoverageTable(bindings, facts, vars, cfg.numArguments, None, cfg.hashing, cfg.semiJoinChunkSize);
    join := NewCoverageSemiJoin(uncovered, bindings, table, cfg.numArguments, cfg.hashing, cfg.semiJoinChunkSize,
                                slots, facts, vars);
  }

  /** The number of test examples that no clause covers. */
  method RunTest(cfg: Settings, test: seq<seq<Value>>, clauses: seq<Clause>) returns (numUncovered: nat)
    requires cfg.Valid() && |test| == cfg.numArguments && Rectangular(test)
    requires forall c | c in clauses :: SizesFit(cfg, test, c)
    ensures numUncovered
            == |set e | 0 <= e < Rows(test) && (forall c :: c in clauses ==> !Covers(cfg.bg, c, RowAt(test, e)))|
  {
    hide *;
    var uncovered := test;
    NothingTested(cfg, test, clauses);
    for k := 0 to |clauses|
      invariant Left(cfg, test, uncovered, clauses[..k])
    {
      var c := clauses[k];
      LeftMeans(cfg, test, uncovered, clauses[..k]);
      var bindings, reached := BindAllButLast(cfg, test, c);
      if Rows(bindings) == 0 {
        CoversNothing(cfg, test, c, reached, bindings, uncovered, clauses[..k]);
      } else {
        var remaining := ComputeUnCoveredData(cfg, uncovered, bindings, c, test);
        CoversMore(cfg, test, c, uncovered, remaining, clauses[..k]);
        uncovered := remaining;
      }
      assert clauses[..k + 1] == clauses[..k] + [c];
    }
    assert clauses[..|clauses|] == clauses;
    LeftMeans(cfg, test, uncovered, clauses);
    numUncovered := Rows(uncovered);
    LeftCount(cfg, test, clauses);
  }

  lemma LeftCount(cfg: Settings, test: seq<seq<Value>>, clauses: seq<Clause>)
    ensures |Uncovered(cfg.bg, RowsOf(test), clauses)|
         == |set e | 0 <= e < Rows(test) && (forall c :: c in clauses ==> !Covers(cfg.bg, c, RowAt(test, e)))|
  {
    hide Covers, Uncovered;
    UncoveredCount(cfg.bg, RowsOf(test), clauses);
    var rows := RowsOf(test);
    var a := set e | 0 <= e < |rows| && !CoveredByAny(cfg.bg, clauses, rows[e]);
    var b := set e | 0 <= e < Rows(test) && forall c :: c in clauses ==> !Covers(cfg.bg, c, RowAt(test, e));
    forall e | 0 <= e < Rows(test)
      ensures CoveredByAny(cfg.bg, clauses, rows[e]) <==> exists c :: c in clauses && Covers(cfg.bg, c, RowAt(test, e))
    {
      assert rows[e] == RowAt(test, e);
    }
    assert a == b;
  }

  lemma NothingTested(cfg: Settings, test: seq<seq<Value>>, clauses: seq<Clause>)
    requires |test| == cfg.numArguments && Rectangular(test)
    ensures Left(cfg, test, test, clauses[..0])
  {
    assert clauses[..0] == [];
    NothingLearnt(cfg.bg, RowsOf(test));
  }

  ghost predicate Left(cfg: Settings, test: seq<seq<Value>>, uncovered: seq<seq<Value>>, clauses: seq<Clause>) {
    && |uncovered| == cfg.numArguments && Rectangular(uncovered)
    && RowsOf(uncovered) == Uncovered(cfg.bg, RowsOf(test), clauses)
  }

  lemma LeftMeans(cfg: Settings, test: seq<seq<Value>>, uncovered: seq<seq<Value>>, clauses: seq<Clause>)
    requires Left(cfg, test, uncovered, clauses)
    ensures |uncovered| == cfg.numArguments && Rectangular(uncovered) && Within(uncovered, test)
    ensures Rows(uncovered) == |Uncovered(cfg.bg, RowsOf(test), clauses)|
  {
    UncoveredIsPart(cfg.bg, RowsOf(test), clauses);
    hide Uncovered, Rectangular, CoveredByAny;
    forall e | 0 <= e < Rows(uncovered)
      ensures OccursIn(RowAt(uncovered, e), test)
    {
      assert RowsOf(uncovered)[e] in RowsOf(test);
      var e' :| 0 <= e' < |RowsOf(test)| && RowsOf(test)[e'] == RowsOf(uncovered)[e];
      assert RowAt(test, e') == RowAt(uncovered, e);
    }
  }

  lemma CoversMore(cfg: Settings, test: seq<seq<Value>>, c: Clause, uncovered: seq<seq<Value>>,
                   remaining: seq<seq<Value>>, clauses: seq<Clause>)
    requires Left(cfg, test, uncovered, clauses) && |remaining| == cfg.numArguments && Rectangular(remaining)
    requires RowsOf(remaining) == Uncovered(cfg.bg, RowsOf(uncovered), [c])
    ensures Left(cfg, test, remaining, clauses + [c])
  {
    UncoveredTwice(cfg.bg, RowsOf(test), clauses, [c]);
  }

  /** A clause with an empty binding set covers none of the test data. */
  lemma CoversNothing(cfg: Settings, test: seq<seq<Value>>, c: Clause, reached: nat, bindings: seq<seq<Value>>,
                      uncovered: seq<seq<Value>>, clauses: seq<Clause>)
    requires SizesFit(cfg, test, c) && reached < |c.body| && HasTable(cfg.bg, test, Prefix(c, reached), bindings)
             && Rows(bindings) == 0
    requires Left(cfg, test, uncovered, clauses)
    ensures Left(cfg, test, uncovered, clauses + [c])
  {
    LeftMeans(cfg, test, uncovered, clauses);
    hide SizesFit, HasTable, Prefix, Covers;
    forall row | row in RowsOf(uncovered)
      ensures !Covers(cfg.bg, c, row)
    {
      var e :| 0 <= e < |RowsOf(uncovered)| && RowsOf(uncovered)[e] == row;
      assert OccursIn(RowAt(uncovered, e), test);
      NoBindingsNoCoverage(cfg, test, c, reached, bindings, row);
    }
    NoneCovered(cfg.bg, RowsOf(uncovered), c);
    UncoveredTwice(cfg.bg, RowsOf(test), clauses, [c]);
  }

  lemma {:induction false} NoneCovered(bg: Background, rows: seq<Row>, c: Clause)
    requires forall row | row in rows :: !Covers(bg, c, row)
    ensures Uncovered(bg, rows, [c]) == rows
  {
    hide Covers;
    if rows != [] {
      NoneCovered(bg, rows[..|rows| - 1], c);
      SingleClause(bg, c, rows[|rows| - 1]);
    }
  }
}
